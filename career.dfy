/**
 * The month-by-month career simulation: CPC switch, DA reset and accrual,
 * DA amount, increment, promotion and NPS accrual, applied in that order
 * every month, with one ledger record appended per month.
 */
module Career {
  import opened Common
  import opened Calendar
  import opened PayMatrix

  datatype IncrementMonth = January | July

  /**
   * The run's configuration. `growth` is the monthly NPS growth factor that
   * the dashboard computes as (1 + annual return) ** (1/12).
   */
  datatype Config = Config(
    joinYear: int,
    incrementMonth: IncrementMonth,
    promotionInterval: int,
    levelCount: nat,
    contributionRate: real,
    growth: real)

  /**
   * The simulation's mutable variables. `pointer` indexes the cycle schedule
   * (0 is the base cycle) and `daSteps` counts DA steps of 0.03.
   */
  datatype State = State(level: nat, position: int, pointer: nat, daSteps: nat, basicPay: int, corpus: real)

  /** One ledger row; `applied` is the label of a cycle switched to this month, or "". */
  datatype Record = Record(
    month: Month,
    level: nat,
    position: int,
    cpc: string,
    basicPay: int,
    daSteps: nat,
    daAmount: real,
    totalEmoluments: real,
    contribution: real,
    corpus: real,
    applied: string)

  /** The ledger of a run and the state it ends in. */
  datatype Trace = Trace(ledger: seq<Record>, final: State)

  datatype Stepped = Stepped(next: State, record: Record)

  const DaStep: real := 0.03

  /** The DA rate after `steps` half-yearly accruals. */
  function DaRate(steps: nat): real {
    steps as real * DaStep
  }

  /** The DA amount on a basic pay after `steps` accruals. */
  function DaAmount(pay: int, steps: nat): real {
    pay as real * DaRate(steps)
  }

  /** The month's NPS contribution on the month's emoluments. */
  function Contribution(emoluments: real, rate: real): real {
    emoluments * rate
  }

  /** The corpus after adding a contribution and growing for one month. */
  function NpsAccrual(corpus: real, contribution: real, growth: real): real {
    (corpus + contribution) * growth
  }

  /** One matrix per entry of the cycle schedule, and a positive promotion interval. */
  predicate Wf(cfg: Config, cycles: seq<Cycle>, tables: seq<CpcTable>) {
    |tables| == |cycles| + 1 && cfg.promotionInterval > 0
  }

  /** January of the year in which the next cycle takes effect. */
  predicate SwitchDue(pointer: nat, m: Month, cycles: seq<Cycle>) {
    pointer < |cycles| && m.year == cycles[pointer].startYear && m.month == 1
  }

  predicate HalfYearStart(m: Month) {
    m.month == 1 || m.month == 7
  }

  predicate IncrementDue(cfg: Config, m: Month) {
    (cfg.incrementMonth == January && m.month == 1) || (cfg.incrementMonth == July && m.month == 7)
  }

  /** January of a year after joining that is a whole number of promotion intervals on. */
  predicate PromotionDue(cfg: Config, m: Month)
    requires cfg.promotionInterval > 0
  {
    (m.year - cfg.joinYear) % cfg.promotionInterval == 0 && m.month == 1 && m.year != cfg.joinYear
  }

  /** Move to the next cycle, re-read the pay of the same cell there (kept if absent), reset DA. */
  function SwitchCpc(s: State, tables: seq<CpcTable>): (r: State)
    requires s.pointer + 1 < |tables|
    ensures r.pointer == s.pointer + 1 && r.daSteps == 0
    ensures r.level == s.level && r.position == s.position && r.corpus == s.corpus
    ensures Cell(s.level, s.position) in tables[r.pointer].pay ==>
      r.basicPay == tables[r.pointer].pay[Cell(s.level, s.position)]
    ensures Cell(s.level, s.position) !in tables[r.pointer].pay ==> r.basicPay == s.basicPay
  {
    var p := s.pointer + 1;
    var here := Cell(s.level, s.position);
    s.(pointer := p, basicPay := if here in tables[p].pay then tables[p].pay[here] else s.basicPay, daSteps := 0)
  }

  /** Annual increment: one position up, only when that cell exists in the active matrix. */
  function Increment(s: State, table: Table): (r: State)
    ensures r.level == s.level && r.pointer == s.pointer && r.daSteps == s.daSteps && r.corpus == s.corpus
    ensures r.position == s.position + 1 <==> Cell(s.level, s.position + 1) in table
    ensures r.position == s.position + 1 ==> r.basicPay == table[Cell(s.level, r.position)]
    ensures r.position != s.position + 1 ==> r == s
  {
    var next := Cell(s.level, s.position + 1);
    if next in table then s.(position := s.position + 1, basicPay := table[next]) else s
  }

  /** Promotion: the next level at position 1, only below the top level and when that cell exists. */
  function Promote(s: State, levelCount: nat, table: Table): (r: State)
    ensures r.pointer == s.pointer && r.daSteps == s.daSteps && r.corpus == s.corpus
    ensures r.level == s.level + 1 <==> s.level + 1 < levelCount && Cell(s.level + 1, 1) in table
    ensures r.level == s.level + 1 ==> r.position == 1 && r.basicPay == table[Cell(r.level, 1)]
    ensures r.level != s.level + 1 ==> r == s
  {
    if s.level + 1 < levelCount && Cell(s.level + 1, 1) in table then
      s.(level := s.level + 1, position := 1, basicPay := table[Cell(s.level + 1, 1)])
    else s
  }

  /** The basic pay in force once the month's CPC switch (if any) is done. */
  function OpeningPay(cycles: seq<Cycle>, tables: seq<CpcTable>, s: State, m: Month): int
    requires |tables| == |cycles| + 1 && s.pointer < |tables|
  {
    if SwitchDue(s.pointer, m, cycles) then SwitchCpc(s, tables).basicPay else s.basicPay
  }

  /** One month of the simulation; StepSwitch, StepCareer and StepMoney state what it does. */
  function Step(cfg: Config, cycles: seq<Cycle>, tables: seq<CpcTable>, s: State, m: Month): (r: Stepped)
    requires Wf(cfg, cycles, tables) && s.pointer < |tables|
    ensures r.next.pointer < |tables|
  {
    var due := SwitchDue(s.pointer, m, cycles);
    var s1 := if due then SwitchCpc(s, tables) else s;
    var s2 := s1.(daSteps := if HalfYearStart(m) then s1.daSteps + 1 else s1.daSteps);
    var daAmount := DaAmount(s2.basicPay, s2.daSteps);
    var total := s2.basicPay as real + daAmount;
    var s3 := if IncrementDue(cfg, m) then Increment(s2, tables[s2.pointer].pay) else s2;
    var s4 := if PromotionDue(cfg, m) then Promote(s3, cfg.levelCount, tables[s3.pointer].pay) else s3;
    var contribution := Contribution(total, cfg.contributionRate);
    var s5 := s4.(corpus := NpsAccrual(s4.corpus, contribution, cfg.growth));
    var applied := if due then cycles[s.pointer].name else "";
    Stepped(s5, Record(m, s5.level, s5.position, CycleLabel(cycles, s5.pointer), s5.basicPay, s5.daSteps,
                       daAmount, total, contribution, s5.corpus, applied))
  }

  /**
   * The cycle part of a month: the pointer advances by one exactly when a
   * switch is due, the record names the cycle switched to, and DA is reset
   * on a switch (always a January, so it accrues at once to one step) and
   * otherwise accrues in January and July.
   */
  lemma StepSwitch(cfg: Config, cycles: seq<Cycle>, tables: seq<CpcTable>, s: State, m: Month)
    requires Wf(cfg, cycles, tables) && s.pointer < |tables|
    ensures var r := Step(cfg, cycles, tables, s, m);
      var due := SwitchDue(s.pointer, m, cycles);
      && r.next.pointer == (if due then s.pointer + 1 else s.pointer)
      && r.record.applied == (if due then cycles[s.pointer].name else "")
      && r.next.daSteps == (if due then 1 else s.daSteps + (if HalfYearStart(m) then 1 else 0))
      && r.record.month == m && r.record.daSteps == r.next.daSteps
      && r.record.cpc == CycleLabel(cycles, r.next.pointer)
  {
  }

  /**
   * The career part of a month: the level rises by at most one, only on a
   * due promotion, never past the top, and lands on position 1; otherwise
   * the position moves only by a due increment, by exactly one.
   */
  lemma StepCareer(cfg: Config, cycles: seq<Cycle>, tables: seq<CpcTable>, s: State, m: Month)
    requires Wf(cfg, cycles, tables) && s.pointer < |tables|
    ensures var r := Step(cfg, cycles, tables, s, m);
      && s.level <= r.next.level <= s.level + 1
      && (s.level < cfg.levelCount ==> r.next.level < cfg.levelCount)
      && (r.next.level == s.level + 1 ==> PromotionDue(cfg, m) && r.next.position == 1)
      && (r.next.level == s.level && r.next.position != s.position ==>
            IncrementDue(cfg, m) && r.next.position == s.position + 1)
      && r.record.level == r.next.level && r.record.position == r.next.position
  {
  }

  /**
   * The money part of a month: DA amount, emoluments and contribution use
   * the pay in force before this month's increment or promotion, and the
   * contribution is added to the corpus before it grows.
   */
  lemma StepMoney(cfg: Config, cycles: seq<Cycle>, tables: seq<CpcTable>, s: State, m: Month)
    requires Wf(cfg, cycles, tables) && s.pointer < |tables|
    ensures var r := Step(cfg, cycles, tables, s, m);
      var opening := OpeningPay(cycles, tables, s, m);
      && r.record.daAmount == DaAmount(opening, r.next.daSteps)
      && r.record.totalEmoluments == opening as real + r.record.daAmount
      && r.record.contribution == Contribution(r.record.totalEmoluments, cfg.contributionRate)
      && r.next.corpus == NpsAccrual(s.corpus, r.record.contribution, cfg.growth)
      && r.record.corpus == r.next.corpus && r.record.basicPay == r.next.basicPay
  {
  }

  /** Step, written out from the month's intermediate states. */
  lemma StepComposes(cfg: Config, cycles: seq<Cycle>, tables: seq<CpcTable>, s: State, m: Month,
                     s1: State, s2: State, s3: State, s4: State,
                     daAmount: real, total: real, contribution: real, applied: string)
    requires Wf(cfg, cycles, tables) && s.pointer < |tables|
    requires s1 == if SwitchDue(s.pointer, m, cycles) then SwitchCpc(s, tables) else s
    requires s2 == s1.(daSteps := if HalfYearStart(m) then s1.daSteps + 1 else s1.daSteps)
    requires s3 == if IncrementDue(cfg, m) then Increment(s2, tables[s2.pointer].pay) else s2
    requires s4 == if PromotionDue(cfg, m) then Promote(s3, cfg.levelCount, tables[s3.pointer].pay) else s3
    requires daAmount == DaAmount(s2.basicPay, s2.daSteps)
    requires total == s2.basicPay as real + daAmount
    requires contribution == Contribution(total, cfg.contributionRate)
    requires applied == if SwitchDue(s.pointer, m, cycles) then cycles[s.pointer].name else ""
    ensures s4.pointer < |tables|
    ensures Step(cfg, cycles, tables, s, m)
         == Stepped(s4.(corpus := NpsAccrual(s4.corpus, contribution, cfg.growth)),
                    Record(m, s4.level, s4.position, CycleLabel(cycles, s4.pointer), s4.basicPay, s4.daSteps,
                           daAmount, total, contribution, NpsAccrual(s4.corpus, contribution, cfg.growth), applied))
  {
  }

  /** The ledger and final state after simulating the given months in order. */
  function Run(cfg: Config, cycles: seq<Cycle>, tables: seq<CpcTable>, init: State, months: seq<Month>): (t: Trace)
    requires Wf(cfg, cycles, tables) && init.pointer < |tables|
    ensures |t.ledger| == |months|
    ensures forall i :: 0 <= i < |months| ==> t.ledger[i].month == months[i]
    ensures t.final.pointer < |tables|
    decreases |months|
  {
    if months == [] then Trace([], init)
    else
      var before := Run(cfg, cycles, tables, init, months[..|months| - 1]);
      var step := Step(cfg, cycles, tables, before.final, months[|months| - 1]);
      Trace(before.ledger + [step.record], step.next)
  }

  /** Run on a non-empty list of months: the run on all but the last, then one step. */
  lemma RunLast(cfg: Config, cycles: seq<Cycle>, tables: seq<CpcTable>, init: State, months: seq<Month>)
    requires Wf(cfg, cycles, tables) && init.pointer < |tables| && months != []
    ensures var before := Run(cfg, cycles, tables, init, months[..|months| - 1]);
      var step := Step(cfg, cycles, tables, before.final, months[|months| - 1]);
      Run(cfg, cycles, tables, init, months) == Trace(before.ledger + [step.record], step.next)
  {
  }

  /** The state before the first month: the initial cell's base-cycle pay, no DA, empty corpus. */
  function Start(tables: seq<CpcTable>, level: nat, position: int): State
    requires |tables| > 0 && Cell(level, position) in tables[0].pay
  {
    State(level, position, 0, 0, tables[0].pay[Cell(level, position)], 0.0)
  }

  /**
   * One pass of the main loop's body: the month's transitions on the loop's
   * variables, in the dashboard's order, and the record appended for the month.
   */
  method SimulateMonth(cfg: Config, cycles: seq<Cycle>, tables: seq<CpcTable>, s: State, m: Month)
    returns (next: State, record: Record)
    requires Wf(cfg, cycles, tables) && s.pointer < |tables|
    ensures Stepped(next, record) == Step(cfg, cycles, tables, s, m)
  {
    var level, position, pointer, daSteps, basicPay, corpus := s.level, s.position, s.pointer, s.daSteps, s.basicPay, s.corpus;
    var applied := "";
    // CPC switch
    if pointer < |cycles| && m.year == cycles[pointer].startYear && m.month == 1 {
      applied := cycles[pointer].name;
      pointer := pointer + 1;
      var here := Cell(level, position);
      if here in tables[pointer].pay {
        basicPay := tables[pointer].pay[here];
      }
      daSteps := 0;
    }
    ghost var s1 := State(level, position, pointer, daSteps, basicPay, corpus);
    assert s1 == if SwitchDue(s.pointer, m, cycles) then SwitchCpc(s, tables) else s;
    // DA accrual
    if m.month == 1 || m.month == 7 {
      daSteps := daSteps + 1;
    }
    ghost var s2 := State(level, position, pointer, daSteps, basicPay, corpus);
    // DA amount and emoluments on the opening pay
    var daAmount := DaAmount(basicPay, daSteps);
    var total := basicPay as real + daAmount;
    // increment
    if (cfg.incrementMonth == January && m.month == 1) || (cfg.incrementMonth == July && m.month == 7) {
      var up := Cell(level, position + 1);
      if up in tables[pointer].pay {
        basicPay := tables[pointer].pay[up];
        position := position + 1;
      }
    }
    ghost var s3 := State(level, position, pointer, daSteps, basicPay, corpus);
    assert s3 == if IncrementDue(cfg, m) then Increment(s2, tables[s2.pointer].pay) else s2;
    // promotion
    if (m.year - cfg.joinYear) % cfg.promotionInterval == 0 && m.month == 1 && m.year != cfg.joinYear {
      if level + 1 < cfg.levelCount {
        var promoted := Cell(level + 1, 1);
        if promoted in tables[pointer].pay {
          level := level + 1;
          basicPay := tables[pointer].pay[promoted];
          position := 1;
        }
      }
    }
    ghost var s4 := State(level, position, pointer, daSteps, basicPay, corpus);
    assert s4 == if PromotionDue(cfg, m) then Promote(s3, cfg.levelCount, tables[s3.pointer].pay) else s3;
    // NPS accrual
    var contribution := Contribution(total, cfg.contributionRate);
    corpus := NpsAccrual(corpus, contribution, cfg.growth);
    next := State(level, position, pointer, daSteps, basicPay, corpus);
    record := Record(m, level, position, CycleLabel(cycles, pointer), basicPay, daSteps,
                     daAmount, total, contribution, corpus, applied);
    StepComposes(cfg, cycles, tables, s, m, s1, s2, s3, s4, daAmount, total, contribution, applied);
  }

  /**
   * The main loop of the dashboard. The initial cell must exist in the base
   * matrix (that lookup has no fallback); every later lookup falls back to no change.
   */
  method Simulate(cfg: Config, cycles: seq<Cycle>, tables: seq<CpcTable>, months: seq<Month>,
                  initialLevel: nat, initialPosition: int)
    returns (r: Result<Trace>)
    requires Wf(cfg, cycles, tables)
    ensures r.Err? <==> Cell(initialLevel, initialPosition) !in tables[0].pay
    ensures r.Err? ==> r.error == MissingInitialRow
    ensures r.Ok? ==> r.value == Run(cfg, cycles, tables, Start(tables, initialLevel, initialPosition), months)
  {
    var first := Cell(initialLevel, initialPosition);
    if first !in tables[0].pay {
      return Err(MissingInitialRow);
    }
    var state := State(initialLevel, initialPosition, 0, 0, tables[0].pay[first], 0.0);
    var records: seq<Record> := [];
    var i := 0;
    while i < |months|
      invariant 0 <= i <= |months| && state.pointer < |tables|
      invariant Run(cfg, cycles, tables, Start(tables, initialLevel, initialPosition), months[..i])
             == Trace(records, state)
    {
      var next, record := SimulateMonth(cfg, cycles, tables, state, months[i]);
      state, records := next, records + [record];
      assert months[..i + 1][..i] == months[..i];
      RunLast(cfg, cycles, tables, Start(tables, initialLevel, initialPosition), months[..i + 1]);
      i := i + 1;
    }
    assert months[..i] == months;
    return Ok(Trace(records, state));
  }

  /** The ledger of a run over a prefix of the months is the same prefix of the full run's ledger. */
  lemma {:induction false} RunPrefix(cfg: Config, cycles: seq<Cycle>, tables: seq<CpcTable>, init: State,
                                     months: seq<Month>, i: nat)
    requires Wf(cfg, cycles, tables) && init.pointer < |tables| && i <= |months|
    ensures Run(cfg, cycles, tables, init, months[..i]).ledger == Run(cfg, cycles, tables, init, months).ledger[..i]
    decreases |months|
  {
    if i < |months| {
      var pre := months[..|months| - 1];
      RunLast(cfg, cycles, tables, init, months);
      RunPrefix(cfg, cycles, tables, init, pre, i);
      assert pre[..i] == months[..i];
    } else {
      assert months[..i] == months;
    }
  }

  /** Record i of a run is the step taken from the state reached after the first i months. */
  lemma RunRecord(cfg: Config, cycles: seq<Cycle>, tables: seq<CpcTable>, init: State, months: seq<Month>, i: nat)
    requires Wf(cfg, cycles, tables) && init.pointer < |tables| && i < |months|
    ensures var step := Step(cfg, cycles, tables, Run(cfg, cycles, tables, init, months[..i]).final, months[i]);
      && Run(cfg, cycles, tables, init, months).ledger[i] == step.record
      && Run(cfg, cycles, tables, init, months[..i + 1]).final == step.next
  {
    RunPrefix(cfg, cycles, tables, init, months, i + 1);
    assert months[..i + 1][..i] == months[..i];
    RunLast(cfg, cycles, tables, init, months[..i + 1]);
  }

  /** Every cycle of the schedule has a (non-empty) label. */
  predicate Labelled(cycles: seq<Cycle>) {
    forall k :: 0 <= k < |cycles| ==> |cycles[k].name| > 0
  }

  /** A cycle was applied in this record. */
  predicate Applied(r: Record) {
    |r.applied| > 0
  }

  /** The number of ledger records in which a cycle was applied. */
  function Switches(ledger: seq<Record>): nat {
    if ledger == [] then 0
    else Switches(ledger[..|ledger| - 1]) + (if Applied(ledger[|ledger| - 1]) then 1 else 0)
  }

  /**
   * Record i applies a cycle only as the next one in schedule order after
   * the switches before it, counting from cycle p0: in January of that
   * cycle's year, under its label, with DA at one step.
   */
  predicate AppliedInOrder(cycles: seq<Cycle>, ledger: seq<Record>, p0: nat, i: nat)
    requires i < |ledger|
  {
    var k := p0 + Switches(ledger[..i]);
    Applied(ledger[i]) ==>
      && k < |cycles|
      && ledger[i].applied == cycles[k].name
      && ledger[i].month == Month(cycles[k].startYear, 1)
      && ledger[i].daSteps == 1
  }

  /** Every record of the ledger applies cycles in schedule order, counting from cycle p0. */
  predicate SwitchedInOrder(cycles: seq<Cycle>, ledger: seq<Record>, p0: nat) {
    forall i :: 0 <= i < |ledger| ==> AppliedInOrder(cycles, ledger, p0, i)
  }

  lemma SwitchesAppend(ledger: seq<Record>, rec: Record, l: seq<Record>)
    requires l == ledger + [rec]
    ensures Switches(l) == Switches(ledger) + (if Applied(rec) then 1 else 0)
  {
    assert l[..|ledger|] == ledger;
  }

  /** A record that applies the next cycle in order extends a ledger whose records all do. */
  lemma AppliedInOrderAppend(cycles: seq<Cycle>, ledger: seq<Record>, rec: Record, p0: nat, l: seq<Record>)
    requires l == ledger + [rec]
    requires SwitchedInOrder(cycles, ledger, p0)
    requires Applied(rec) ==>
      var k := p0 + Switches(ledger);
      k < |cycles| && rec.applied == cycles[k].name && rec.month == Month(cycles[k].startYear, 1) && rec.daSteps == 1
    ensures SwitchedInOrder(cycles, l, p0)
  {
    forall i | 0 <= i < |l| ensures AppliedInOrder(cycles, l, p0, i) {
      if i < |ledger| {
        assert l[..i] == ledger[..i] && l[i] == ledger[i];
        assert AppliedInOrder(cycles, ledger, p0, i);
      } else {
        assert l[..i] == ledger;
      }
    }
  }

  /**
   * One more month, at pointer p, keeps the pointer equal to p0 plus the
   * switches and the switches in schedule order.
   */
  lemma SwitchStepAppend(cycles: seq<Cycle>, ledger: seq<Record>, rec: Record, l: seq<Record>, p0: nat, p: nat,
                         due: bool)
    requires l == ledger + [rec] && Labelled(cycles)
    requires p == p0 + Switches(ledger) && SwitchedInOrder(cycles, ledger, p0)
    requires due ==> p < |cycles| && rec.month == Month(cycles[p].startYear, 1) && rec.daSteps == 1
    requires rec.applied == if due then cycles[p].name else ""
    ensures (if due then p + 1 else p) == p0 + Switches(l)
    ensures SwitchedInOrder(cycles, l, p0)
  {
    SwitchesAppend(ledger, rec, l);
    AppliedInOrderAppend(cycles, ledger, rec, p0, l);
  }

  /**
   * The pointer only moves by switches, and the switches apply the cycles in
   * schedule order, none skipped.
   */
  lemma {:induction false} RunSwitches(cfg: Config, cycles: seq<Cycle>, tables: seq<CpcTable>, init: State,
                                       months: seq<Month>)
    requires Wf(cfg, cycles, tables) && init.pointer < |tables| && Labelled(cycles)
    ensures var t := Run(cfg, cycles, tables, init, months);
      && t.final.pointer == init.pointer + Switches(t.ledger)
      && SwitchedInOrder(cycles, t.ledger, init.pointer)
    decreases |months|
  {
    if months != [] {
      var pre := months[..|months| - 1];
      var m := months[|months| - 1];
      var before := Run(cfg, cycles, tables, init, pre);
      RunSwitches(cfg, cycles, tables, init, pre);
      RunLast(cfg, cycles, tables, init, months);
      var step := Step(cfg, cycles, tables, before.final, m);
      var t := Run(cfg, cycles, tables, init, months);
      StepSwitch(cfg, cycles, tables, before.final, m);
      SwitchStepAppend(cycles, before.ledger, step.record, t.ledger, init.pointer, before.final.pointer,
                       SwitchDue(before.final.pointer, m, cycles));
    }
  }

  /** The last record of a run shows the run's final state. */
  lemma RunLastRecord(cfg: Config, cycles: seq<Cycle>, tables: seq<CpcTable>, init: State, months: seq<Month>)
    requires Wf(cfg, cycles, tables) && init.pointer < |tables|
    ensures var t := Run(cfg, cycles, tables, init, months);
      t.ledger != [] ==>
        var last := t.ledger[|t.ledger| - 1];
        && last.level == t.final.level && last.position == t.final.position
        && last.basicPay == t.final.basicPay && last.daSteps == t.final.daSteps && last.corpus == t.final.corpus
        && last.cpc == CycleLabel(cycles, t.final.pointer)
  {
    if months != [] {
      var before := Run(cfg, cycles, tables, init, months[..|months| - 1]);
      RunLast(cfg, cycles, tables, init, months);
      StepSwitch(cfg, cycles, tables, before.final, months[|months| - 1]);
      StepCareer(cfg, cycles, tables, before.final, months[|months| - 1]);
      StepMoney(cfg, cycles, tables, before.final, months[|months| - 1]);
    }
  }

  /**
   * The records' levels lie between lo and hi, never fall from one record
   * to a later one, and rise by at most one from a record to the next.
   */
  predicate LevelsOrdered(ledger: seq<Record>, lo: nat, hi: nat) {
    && (forall i :: 0 <= i < |ledger| ==> lo <= ledger[i].level <= hi)
    && (forall i, j :: 0 <= i <= j < |ledger| ==> ledger[i].level <= ledger[j].level)
    && (forall i :: 0 < i < |ledger| ==> ledger[i].level <= ledger[i - 1].level + 1)
  }

  lemma LevelsOrderedAppend(ledger: seq<Record>, rec: Record, lo: nat, hi: nat)
    requires LevelsOrdered(ledger, lo, hi) && lo <= hi <= rec.level <= hi + 1
    requires ledger != [] ==> ledger[|ledger| - 1].level == hi
    ensures LevelsOrdered(ledger + [rec], lo, rec.level)
  {
    var l := ledger + [rec];
    assert forall i :: 0 <= i < |ledger| ==> l[i] == ledger[i];
  }

  /** Levels never fall and never pass the top level. */
  lemma {:induction false} RunLevels(cfg: Config, cycles: seq<Cycle>, tables: seq<CpcTable>, init: State,
                                     months: seq<Month>)
    requires Wf(cfg, cycles, tables) && init.pointer < |tables| && init.level < cfg.levelCount
    ensures var t := Run(cfg, cycles, tables, init, months);
      && init.level <= t.final.level < cfg.levelCount
      && LevelsOrdered(t.ledger, init.level, t.final.level)
    decreases |months|
  {
    if months != [] {
      var pre := months[..|months| - 1];
      var m := months[|months| - 1];
      var before := Run(cfg, cycles, tables, init, pre);
      RunLevels(cfg, cycles, tables, init, pre);
      RunLast(cfg, cycles, tables, init, months);
      RunLastRecord(cfg, cycles, tables, init, pre);
      var step := Step(cfg, cycles, tables, before.final, m);
      StepCareer(cfg, cycles, tables, before.final, m);
      LevelsOrderedAppend(before.ledger, step.record, init.level, before.final.level);
    }
  }

  /** The index of the last record in which a cycle was applied, or -1 if there is none. */
  function LastSwitch(ledger: seq<Record>): (j: int)
    ensures -1 <= j < |ledger|
    ensures j >= 0 ==> Applied(ledger[j])
    ensures forall i :: j < i < |ledger| ==> !Applied(ledger[i])
  {
    if ledger == [] then -1
    else if Applied(ledger[|ledger| - 1]) then |ledger| - 1
    else LastSwitch(ledger[..|ledger| - 1])
  }

  /** The number of January and July months in the list. */
  function HalfYearStarts(months: seq<Month>): nat {
    if months == [] then 0
    else HalfYearStarts(months[..|months| - 1]) + (if HalfYearStart(months[|months| - 1]) then 1 else 0)
  }

  lemma LastSwitchAppend(ledger: seq<Record>, rec: Record, l: seq<Record>)
    requires l == ledger + [rec]
    ensures LastSwitch(l) == if Applied(rec) then |ledger| else LastSwitch(ledger)
  {
    assert l[..|ledger|] == ledger;
  }

  lemma HalfYearStartsAppend(months: seq<Month>, m: Month, ms: seq<Month>)
    requires ms == months + [m]
    ensures HalfYearStarts(ms) == HalfYearStarts(months) + (if HalfYearStart(m) then 1 else 0)
  {
    assert ms[..|months|] == months;
  }

  lemma SuffixAppend(ms: seq<Month>, m: Month, j: nat)
    requires j <= |ms|
    ensures (ms + [m])[j..] == ms[j..] + [m]
    ensures j == |ms| ==> ms[j..] == []
  {
  }

  /**
   * The DA steps after a ledger on the given months, starting from d0 steps:
   * the January and July months since the last cycle switch, the switch month
   * included; with no switch, d0 plus those of all the months.
   */
  function DaSince(ledger: seq<Record>, months: seq<Month>, d0: int): int
    requires |ledger| == |months|
  {
    var j := LastSwitch(ledger);
    if j < 0 then d0 + HalfYearStarts(months) else HalfYearStarts(months[j..])
  }

  /** One more month keeps the DA step count equal to DaSince. */
  lemma DaSinceAppend(ledger: seq<Record>, rec: Record, l: seq<Record>, months: seq<Month>, m: Month,
                      ms: seq<Month>, d0: int, before: int, after: int)
    requires l == ledger + [rec] && ms == months + [m] && |ledger| == |months|
    requires before == DaSince(ledger, months, d0)
    requires Applied(rec) ==> HalfYearStart(m)
    requires after == if Applied(rec) then 1 else before + (if HalfYearStart(m) then 1 else 0)
    ensures after == DaSince(l, ms, d0)
  {
    LastSwitchAppend(ledger, rec, l);
    var j := LastSwitch(l);
    if Applied(rec) {
      SuffixAppend(months, m, j);
      HalfYearStartsAppend([], m, ms[j..]);
    } else if j >= 0 {
      SuffixAppend(months, m, j);
      HalfYearStartsAppend(months[j..], m, ms[j..]);
    } else {
      HalfYearStartsAppend(months, m, ms);
    }
  }

  /**
   * DA counts the January and July months since the last cycle switch,
   * the switch month included; with no switch, since the start of the run.
   */
  lemma {:induction false} RunDa(cfg: Config, cycles: seq<Cycle>, tables: seq<CpcTable>, init: State,
                                 months: seq<Month>)
    requires Wf(cfg, cycles, tables) && init.pointer < |tables| && Labelled(cycles)
    ensures var t := Run(cfg, cycles, tables, init, months);
      t.final.daSteps == DaSince(t.ledger, months, init.daSteps)
    decreases |months|
  {
    var t := Run(cfg, cycles, tables, init, months);
    if months != [] {
      var pre := months[..|months| - 1];
      var m := months[|months| - 1];
      var before := Run(cfg, cycles, tables, init, pre);
      RunDa(cfg, cycles, tables, init, pre);
      RunLast(cfg, cycles, tables, init, months);
      var step := Step(cfg, cycles, tables, before.final, m);
      StepSwitch(cfg, cycles, tables, before.final, m);
      assert months == pre + [m];
      DaSinceAppend(before.ledger, step.record, t.ledger, pre, m, months, init.daSteps,
                    before.final.daSteps, t.final.daSteps);
    }
  }

  /** Every pay in every matrix is non-negative. */
  predicate NonNegativePay(tables: seq<CpcTable>) {
    forall p, c :: 0 <= p < |tables| && c in tables[p].pay ==> tables[p].pay[c] >= 0
  }

  /** With non-negative matrices, basic pay stays non-negative through a month. */
  lemma StepKeepsPayNonNegative(cfg: Config, cycles: seq<Cycle>, tables: seq<CpcTable>, s: State, m: Month)
    requires Wf(cfg, cycles, tables) && s.pointer < |tables| && NonNegativePay(tables) && s.basicPay >= 0
    ensures OpeningPay(cycles, tables, s, m) >= 0
    ensures Step(cfg, cycles, tables, s, m).next.basicPay >= 0
  {
  }

  lemma GrowthNotBelow(x: real, g: real)
    requires x >= 0.0 && g >= 1.0
    ensures x * g >= x
  {
    ScaleMonotone(1.0, g, x);
  }

  /** A month with a non-negative opening pay contributes a non-negative amount and does not shrink the corpus. */
  lemma StepCorpusGrows(cfg: Config, cycles: seq<Cycle>, tables: seq<CpcTable>, s: State, m: Month)
    requires Wf(cfg, cycles, tables) && s.pointer < |tables|
    requires cfg.contributionRate >= 0.0 && cfg.growth >= 1.0 && s.corpus >= 0.0
    requires OpeningPay(cycles, tables, s, m) >= 0
    ensures Step(cfg, cycles, tables, s, m).record.contribution >= 0.0
    ensures Step(cfg, cycles, tables, s, m).next.corpus >= s.corpus
  {
    var r := Step(cfg, cycles, tables, s, m);
    StepMoney(cfg, cycles, tables, s, m);
    var opening := OpeningPay(cycles, tables, s, m) as real;
    ScaleMonotone(0.0, opening, DaRate(r.next.daSteps));
    assert r.record.daAmount >= 0.0;
    ScaleMonotone(0.0, r.record.totalEmoluments, cfg.contributionRate);
    assert r.record.contribution >= 0.0;
    GrowthNotBelow(s.corpus + r.record.contribution, cfg.growth);
  }

  /**
   * The records' contributions are non-negative, and their corpus lies
   * between lo and hi and never falls from one record to a later one.
   */
  predicate CorpusOrdered(ledger: seq<Record>, lo: real, hi: real) {
    && (forall i :: 0 <= i < |ledger| ==> ledger[i].contribution >= 0.0 && lo <= ledger[i].corpus <= hi)
    && (forall i, j :: 0 <= i <= j < |ledger| ==> ledger[i].corpus <= ledger[j].corpus)
  }

  lemma CorpusOrderedAppend(ledger: seq<Record>, rec: Record, lo: real, hi: real)
    requires CorpusOrdered(ledger, lo, hi) && lo <= hi <= rec.corpus && rec.contribution >= 0.0
    requires ledger != [] ==> ledger[|ledger| - 1].corpus == hi
    ensures CorpusOrdered(ledger + [rec], lo, rec.corpus)
  {
    var l := ledger + [rec];
    assert forall i :: 0 <= i < |ledger| ==> l[i] == ledger[i];
  }

  /**
   * With a non-negative contribution rate, a growth factor of at least 1 and
   * non-negative pay, the NPS corpus never decreases from month to month and
   * every month's contribution is non-negative.
   */
  lemma {:induction false} RunCorpus(cfg: Config, cycles: seq<Cycle>, tables: seq<CpcTable>, init: State,
                                     months: seq<Month>)
    requires Wf(cfg, cycles, tables) && init.pointer < |tables|
    requires cfg.contributionRate >= 0.0 && cfg.growth >= 1.0 && NonNegativePay(tables)
    requires init.basicPay >= 0 && init.corpus >= 0.0
    ensures var t := Run(cfg, cycles, tables, init, months);
      && t.final.basicPay >= 0 && init.corpus <= t.final.corpus
      && CorpusOrdered(t.ledger, init.corpus, t.final.corpus)
    decreases |months|
  {
    if months != [] {
      var pre := months[..|months| - 1];
      var m := months[|months| - 1];
      var before := Run(cfg, cycles, tables, init, pre);
      RunCorpus(cfg, cycles, tables, init, pre);
      RunLast(cfg, cycles, tables, init, months);
      RunLastRecord(cfg, cycles, tables, init, pre);
      var step := Step(cfg, cycles, tables, before.final, m);
      StepMoney(cfg, cycles, tables, before.final, m);
      StepKeepsPayNonNegative(cfg, cycles, tables, before.final, m);
      StepCorpusGrows(cfg, cycles, tables, before.final, m);
      CorpusOrderedAppend(before.ledger, step.record, init.corpus, before.final.corpus);
    }
  }

  /** The state's cell exists in its cycle's matrix and the basic pay is that cell's pay. */
  ghost predicate OnMatrix(tables: seq<CpcTable>, s: State) {
    s.pointer < |tables| && Cell(s.level, s.position) in tables[s.pointer].pay
    && s.basicPay == tables[s.pointer].pay[Cell(s.level, s.position)]
  }

  /** When all matrices share their cells, a month that starts on the matrix ends on it. */
  lemma StepStaysOnMatrix(cfg: Config, cycles: seq<Cycle>, tables: seq<CpcTable>, s: State, m: Month)
    requires Wf(cfg, cycles, tables) && SameCells(tables, tables[0].pay) && OnMatrix(tables, s)
    ensures OnMatrix(tables, Step(cfg, cycles, tables, s, m).next)
  {
    if SwitchDue(s.pointer, m, cycles) {
      assert tables[s.pointer + 1].pay.Keys == tables[s.pointer].pay.Keys;
    }
  }

  /**
   * When all matrices share their cells, the basic pay is always the pay of
   * the current cell in the current cycle's matrix: no fallback ever keeps a
   * stale pay.
   */
  lemma {:induction false} RunStaysOnMatrix(cfg: Config, cycles: seq<Cycle>, tables: seq<CpcTable>, init: State,
                                            months: seq<Month>)
    requires Wf(cfg, cycles, tables) && SameCells(tables, tables[0].pay) && OnMatrix(tables, init)
    ensures OnMatrix(tables, Run(cfg, cycles, tables, init, months).final)
    decreases |months|
  {
    if months != [] {
      var pre := months[..|months| - 1];
      RunStaysOnMatrix(cfg, cycles, tables, init, pre);
      RunLast(cfg, cycles, tables, init, months);
      StepStaysOnMatrix(cfg, cycles, tables, Run(cfg, cycles, tables, init, pre).final, months[|months| - 1]);
    }
  }

  /**
   * A run whose every month falls after the January in which the next cycle
   * takes effect never switches: the pointer waits for that exact month, so
   * neither that cycle nor any later one is ever applied.
   */
  lemma {:induction false} LateStartNeverSwitches(cfg: Config, cycles: seq<Cycle>, tables: seq<CpcTable>,
                                                  init: State, months: seq<Month>)
    requires Wf(cfg, cycles, tables) && init.pointer < |cycles|
    requires forall i :: 0 <= i < |months| ==>
      MonthIndex(months[i]) > MonthIndex(Month(cycles[init.pointer].startYear, 1))
    ensures var t := Run(cfg, cycles, tables, init, months);
      && t.final.pointer == init.pointer
      && forall i :: 0 <= i < |t.ledger| ==> !Applied(t.ledger[i]) && t.ledger[i].cpc == CycleLabel(cycles, init.pointer)
    decreases |months|
  {
    if months != [] {
      var pre := months[..|months| - 1];
      var m := months[|months| - 1];
      var before := Run(cfg, cycles, tables, init, pre);
      LateStartNeverSwitches(cfg, cycles, tables, init, pre);
      RunLast(cfg, cycles, tables, init, months);
      StepSwitch(cfg, cycles, tables, before.final, m);
      var t := Run(cfg, cycles, tables, init, months);
      assert forall i :: 0 <= i < |before.ledger| ==> t.ledger[i] == before.ledger[i];
    }
  }
}
