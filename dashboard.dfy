/**
 * The dashboard from its inputs to its outputs: the matrices of every cycle,
 * the retirement date and timeline, the career simulation and, on the
 * pension page, the retirement figures.
 */
module Dashboard {
  import opened Common
  import opened Calendar
  import opened PayMatrix
  import opened Career
  import opened Retirement

  /**
   * Everything the user chooses or the data files supply. `currentYear` is
   * the year of the clock reading; `levelCount` is the number of distinct
   * levels in the base matrix.
   */
  datatype Inputs = Inputs(
    base: Table,
    daTable: seq<DaEntry>,
    payCommIncrease: real,
    joining: Date,
    retirementAge: int,
    currentAge: int,
    currentYear: int,
    levelCount: nat,
    initialLevel: nat,
    initialPosition: int,
    incrementMonth: IncrementMonth,
    promotionInterval: int,
    contributionRate: real,
    growth: real,
    payout: Payout)

  /**
   * What the inputs guarantee: a real calendar date and a positive promotion
   * interval (the input widgets), and levels drawn from the base matrix: the
   * level count is the number of distinct levels in it, every one of them
   * occurs in it, and the initial level is one of them.
   */
  predicate ValidInputs(inp: Inputs) {
    && ValidDate(inp.joining) && inp.promotionInterval > 0
    && LevelsOf(inp.base, inp.levelCount)
    && inp.initialLevel < inp.levelCount
  }

  /** The levels of the matrix are exactly 0 .. levelCount - 1. */
  predicate LevelsOf(base: Table, levelCount: nat) {
    && (forall c :: c in base ==> c.level < levelCount)
    && (forall l :: 0 <= l < levelCount ==> HasLevel(base, l))
  }

  predicate HasLevel(base: Table, l: nat) {
    exists c :: c in base && c.level == l
  }

  function ConfigOf(inp: Inputs): Config {
    Config(inp.joining.year, inp.incrementMonth, inp.promotionInterval, inp.levelCount, inp.contributionRate, inp.growth)
  }

  function RetirementOf(inp: Inputs): Result<Date>
    requires ValidInputs(inp)
  {
    RetirementDate(inp.joining, inp.currentYear, inp.retirementAge, inp.currentAge)
  }

  /** The years from joining to retirement. */
  function ServiceYears(inp: Inputs): int {
    RetireYear(inp.currentYear, inp.retirementAge, inp.currentAge) - inp.joining.year
  }

  /** The timeline holds no month start: retirement before joining, or in the same year after a mid-month joining. */
  predicate EmptyTimeline(inp: Inputs) {
    ServiceYears(inp) < 0 || (ServiceYears(inp) == 0 && inp.joining.day != 1)
  }

  /** The shared part of both dashboards: matrices, timeline and simulation. */
  datatype Projection = Projection(
    tables: seq<CpcTable>,
    retirement: Date,
    months: seq<Month>,
    serviceMonths: int,
    completedSixMonths: int,
    trace: Trace)

  /** p is the projection of inp: every field is what the dashboard computes for it. */
  ghost predicate ProjectedFrom(inp: Inputs, p: Projection)
    requires ValidInputs(inp)
  {
    && |p.tables| == |CpcYears| + 1
    && p.tables[0] == CpcTable(BaseLabel, inp.base)
    && (forall i :: 0 <= i < |CpcYears| ==>
          RevisedFrom(p.tables[i + 1], p.tables[i], CpcYears[i], inp.daTable, inp.payCommIncrease))
    && SameCells(p.tables, inp.base)
    && RetirementOf(inp) == Ok(p.retirement)
    && ValidDate(p.retirement)
    && p.months == MonthStarts(inp.joining, p.retirement)
    && p.serviceMonths == ServiceMonths(inp.joining, p.retirement)
    && p.completedSixMonths == CompletedSixMonths(p.serviceMonths)
    && Cell(inp.initialLevel, inp.initialPosition) in inp.base
    && p.trace == Run(ConfigOf(inp), CpcYears, p.tables, Start(p.tables, inp.initialLevel, inp.initialPosition), p.months)
  }

  /**
   * Build the matrices, the retirement date and the timeline, then run the
   * simulation. Fails when the retirement date does not exist or when the
   * initial cell is not in the base matrix, checked in that order.
   */
  method Project(inp: Inputs) returns (r: Result<Projection>)
    requires ValidInputs(inp)
    ensures r.Err? <==> RetirementOf(inp).Err? || Cell(inp.initialLevel, inp.initialPosition) !in inp.base
    ensures r.Err? ==> r.error == if RetirementOf(inp).Err? then InvalidRetirementDate else MissingInitialRow
    ensures r.Ok? ==> ProjectedFrom(inp, r.value)
  {
    var tables := GenerateCpcTables(inp.base, inp.daTable, inp.payCommIncrease, CpcYears);
    var retire := RetirementOf(inp);
    if retire.Err? {
      return Err(retire.error);
    }
    var retirement := retire.value;
    var months := MonthStarts(inp.joining, retirement);
    var service := ServiceMonths(inp.joining, retirement);
    var six := CompletedSixMonths(service);
    var sim := Simulate(ConfigOf(inp), CpcYears, tables, months, inp.initialLevel, inp.initialPosition);
    if sim.Err? {
      return Err(sim.error);
    }
    return Ok(Projection(tables, retirement, months, service, six, sim.value));
  }

  /**
   * The service is a whole number of years, and the ledger has one record per
   * month of it (plus the joining month when joining on the 1st), on
   * consecutive months from the first month start.
   */
  lemma ProjectionTimeline(inp: Inputs, p: Projection)
    requires ValidInputs(inp) && ProjectedFrom(inp, p)
    ensures p.serviceMonths == 12 * ServiceYears(inp)
    ensures p.completedSixMonths == CompletedSixMonths(12 * ServiceYears(inp))
    ensures |p.trace.ledger| ==
      if ServiceYears(inp) < 0 then 0 else 12 * ServiceYears(inp) + (if inp.joining.day == 1 then 1 else 0)
    ensures p.trace.ledger == [] <==> EmptyTimeline(inp)
    ensures forall i :: 0 <= i < |p.trace.ledger| ==>
      MonthIndex(p.trace.ledger[i].month) == FirstMonthStart(inp.joining) + i
  {
    TimelineLength(inp.joining, p.retirement);
  }

  /** The figures of the page without the payout totals: the older dashboard's two pensions. */
  datatype Pensions = Pensions(upsPension: real, npsAnnuityAmount: real, npsMonthlyPension: real)

  /**
   * The older dashboard: the projection, then the UPS pension and the NPS
   * annuity from the final basic pay and corpus. Its only failures are the
   * projection's.
   */
  method BasicDashboard(inp: Inputs) returns (r: Result<(Projection, Pensions)>)
    requires ValidInputs(inp)
    ensures r.Err? <==> RetirementOf(inp).Err? || Cell(inp.initialLevel, inp.initialPosition) !in inp.base
    ensures r.Err? ==> r.error == if RetirementOf(inp).Err? then InvalidRetirementDate else MissingInitialRow
    ensures r.Ok? ==> ProjectedFrom(inp, r.value.0)
    ensures r.Ok? ==>
      var final := r.value.0.trace.final;
      && r.value.1.upsPension == UpsPension(final.basicPay)
      && r.value.1.npsAnnuityAmount == NpsAnnuityAmount(final.corpus, inp.payout.annuityPct, inp.payout.annuityRate)
      && r.value.1.npsMonthlyPension == NpsMonthlyAnnuity(final.corpus, inp.payout.annuityPct, inp.payout.annuityRate)
  {
    var p := Project(inp);
    if p.Err? {
      return Err(p.error);
    }
    var final := p.value.trace.final;
    var annuity := NpsAnnuityAmount(final.corpus, inp.payout.annuityPct, inp.payout.annuityRate);
    return Ok((p.value, Pensions(UpsPension(final.basicPay), annuity, annuity / 12.0)));
  }

  /**
   * The pension page: the projection, then the retirement figures. Besides
   * the projection's failures, an empty timeline fails when the DA rate at
   * retirement is read from the last ledger record.
   */
  method PensionPage(inp: Inputs) returns (r: Result<(Projection, Figures)>)
    requires ValidInputs(inp)
    ensures r.Err? <==>
      RetirementOf(inp).Err? || Cell(inp.initialLevel, inp.initialPosition) !in inp.base || EmptyTimeline(inp)
    ensures r.Err? ==>
      r.error == if RetirementOf(inp).Err? then InvalidRetirementDate
      else if Cell(inp.initialLevel, inp.initialPosition) !in inp.base then MissingInitialRow
      else EmptyLedger
    ensures r.Ok? ==> ProjectedFrom(inp, r.value.0) && r.value.0.trace.ledger != []
    ensures r.Ok? ==> FiguresOf(r.value.0.trace, r.value.0.completedSixMonths, inp.payout, r.value.1)
  {
    var p := Project(inp);
    if p.Err? {
      return Err(p.error);
    }
    ProjectionTimeline(inp, p.value);
    var figures := RetirementFigures(p.value.trace, p.value.completedSixMonths, inp.payout);
    if figures.Err? {
      return Err(figures.error);
    }
    return Ok((p.value, figures.value));
  }

  /**
   * On a projection the final basic pay is always the pay of the final cell
   * in the final cycle's matrix.
   */
  lemma ProjectionOnMatrix(inp: Inputs, p: Projection)
    requires ValidInputs(inp) && ProjectedFrom(inp, p)
    ensures OnMatrix(p.tables, p.trace.final)
  {
    RunStaysOnMatrix(ConfigOf(inp), CpcYears, p.tables,
                     Start(p.tables, inp.initialLevel, inp.initialPosition), p.months);
  }

  /**
   * On a projection the level starts at the initial level, never falls,
   * rises by at most one a month and never passes the highest level of the
   * base matrix.
   */
  lemma ProjectionLevels(inp: Inputs, p: Projection)
    requires ValidInputs(inp) && ProjectedFrom(inp, p)
    ensures inp.initialLevel <= p.trace.final.level < inp.levelCount
    ensures forall c :: c in inp.base ==> c.level < inp.levelCount
    ensures LevelsOrdered(p.trace.ledger, inp.initialLevel, p.trace.final.level)
  {
    RunLevels(ConfigOf(inp), CpcYears, p.tables, Start(p.tables, inp.initialLevel, inp.initialPosition), p.months);
  }

  /**
   * With a non-negative pay-commission increase and DA history, the
   * matrices of a projection all keep the base matrix's order of pay by
   * position within a level.
   */
  lemma ProjectionPayOrdered(inp: Inputs, p: Projection)
    requires ValidInputs(inp) && ProjectedFrom(inp, p)
    requires PayOrdered(inp.base) && inp.payCommIncrease >= 0.0 && NonNegativeRates(inp.daTable)
    ensures forall k :: 0 <= k < |p.tables| ==> PayOrdered(p.tables[k].pay)
  {
    forall k | 0 <= k < |p.tables| ensures PayOrdered(p.tables[k].pay) {
      GeneratedPayOrdered(p.tables, inp.base, inp.daTable, inp.payCommIncrease, CpcYears, k);
    }
  }

  /**
   * Someone whose first simulated month comes after January of the first
   * cycle's year is never switched to any cycle: every record stays on the
   * base cycle, however long the career.
   */
  lemma LateJoinerStaysOnBaseCycle(inp: Inputs, p: Projection)
    requires ValidInputs(inp) && ProjectedFrom(inp, p)
    requires FirstMonthStart(inp.joining) > MonthIndex(Month(CpcYears[0].startYear, 1))
    ensures p.trace.final.pointer == 0
    ensures forall i :: 0 <= i < |p.trace.ledger| ==> !Applied(p.trace.ledger[i]) && p.trace.ledger[i].cpc == BaseLabel
  {
    LateStartNeverSwitches(ConfigOf(inp), CpcYears, p.tables,
                           Start(p.tables, inp.initialLevel, inp.initialPosition), p.months);
  }
}
