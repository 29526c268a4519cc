/**
 * The retirement figures read off the end of the simulation: UPS pension and
 * lumpsum, NPS annuity and lumpsum, and the totals paid out over the years
 * lived beyond retirement.
 */
module Retirement {
  import opened Common
  import opened Calendar
  import opened Career

  /** The payout choices: share of the corpus annuitised, annual annuity rate, years lived after retirement. */
  datatype Payout = Payout(annuityPct: real, annuityRate: real, lifeYears: nat)

  datatype Figures = Figures(
    finalBasic: int,
    upsPension: real,
    upsLumpsum: real,
    lastDaRate: real,
    monthsRetired: nat,
    totalUpsPaid: real,
    npsCorpus: real,
    npsAnnuityAmount: real,
    npsLumpsum: real,
    npsMonthlyAnnuity: real,
    totalNpsPaid: real)

  /** UPS monthly pension: half the final basic pay. */
  function UpsPension(finalBasic: int): real {
    0.5 * finalBasic as real
  }

  /** UPS lumpsum: a tenth of the final basic pay per completed six months of service. */
  function UpsLumpsum(finalBasic: int, completedSixMonths: int): real {
    finalBasic as real * (completedSixMonths as real / 10.0)
  }

  /** The annual annuity bought with the annuitised share of the corpus. */
  function NpsAnnuityAmount(corpus: real, annuityPct: real, annuityRate: real): real {
    corpus * annuityPct * annuityRate
  }

  function NpsMonthlyAnnuity(corpus: real, annuityPct: real, annuityRate: real): real {
    NpsAnnuityAmount(corpus, annuityPct, annuityRate) / 12.0
  }

  /** The share of the corpus paid out at once. */
  function NpsLumpsum(corpus: real, annuityPct: real): real {
    corpus * (1.0 - annuityPct)
  }

  /** The lumpsum and the annuitised share together are the whole corpus. */
  lemma NpsCorpusSplit(corpus: real, annuityPct: real)
    ensures NpsLumpsum(corpus, annuityPct) + corpus * annuityPct == corpus
  {
  }

  /**
   * A service of a whole number of years (as it always is, the retirement
   * date reusing the joining day and month) earns a lumpsum of a fifth of the
   * final basic pay per year.
   */
  lemma UpsLumpsumPerYear(finalBasic: int, years: int)
    ensures UpsLumpsum(finalBasic, CompletedSixMonths(12 * years)) == finalBasic as real * years as real / 5.0
  {
    assert CompletedSixMonths(12 * years) == 2 * years;
  }

  /** The DA rate i months after retirement: one more step at the start of every six months after the first. */
  function PostRetirementDa(lastDa: real, i: nat): real {
    lastDa + DaStep * (i / 6) as real
  }

  /** The UPS pension paid in month i after retirement. */
  function MonthPension(monthly: real, lastDa: real, i: nat): real {
    monthly * (1.0 + PostRetirementDa(lastDa, i))
  }

  /** The UPS pension paid over the first n months after retirement. */
  function UpsPaid(monthly: real, lastDa: real, n: nat): real {
    if n == 0 then 0.0 else UpsPaid(monthly, lastDa, n - 1) + MonthPension(monthly, lastDa, n - 1)
  }

  /** The sum of i / 6 over i < n: the DA steps accumulated month by month. */
  function FloorSixSum(n: nat): nat {
    if n == 0 then 0 else FloorSixSum(n - 1) + (n - 1) / 6
  }

  /** i / 6 grows by one exactly at the multiples of six. */
  lemma DivSixStep(i: nat)
    requires i > 0
    ensures i / 6 == (i - 1) / 6 + (if i % 6 == 0 then 1 else 0)
  {
  }

  lemma DivSix(q: int, k: int)
    requires 0 <= k < 6
    ensures (6 * q + k) / 6 == q && (6 * q + k) % 6 == k
  {
  }

  /** The closed form of FloorSixSum in terms of the quotient and the remainder by six. */
  function SixClosed(q: int, r: int): int {
    3 * q * (q - 1) + r * q
  }

  lemma SixClosedStep(q: int, r: int)
    ensures SixClosed(q, r + 1) == SixClosed(q, r) + q
  {
  }

  lemma SixClosedWrap(q: int)
    ensures SixClosed(q + 1, 0) == SixClosed(q, 5) + q
  {
  }

  /** The month after 6 * q + k (with k < 6) adds q steps. */
  lemma FloorSixSumStep(q: nat, k: nat)
    requires k < 6
    ensures FloorSixSum(6 * q + k + 1) == FloorSixSum(6 * q + k) + q
  {
    DivSix(q, k);
  }

  lemma {:induction false} FloorSixSumQR(q: nat, r: nat)
    requires r < 6
    ensures FloorSixSum(6 * q + r) == SixClosed(q, r)
    decreases 6 * q + r
  {
    if r > 0 {
      FloorSixSumQR(q, r - 1);
      FloorSixSumStep(q, r - 1);
      SixClosedStep(q, r - 1);
    } else if q > 0 {
      FloorSixSumQR(q - 1, 5);
      FloorSixSumStep(q - 1, 5);
      SixClosedWrap(q - 1);
    }
  }

  lemma FloorSixSumClosed(n: nat)
    ensures FloorSixSum(n) == SixClosed(n / 6, n % 6)
  {
    FloorSixSumQR(n / 6, n % 6);
  }

  /** The UPS total over n months: n months at the retirement DA plus one DA step per month per completed six months. */
  lemma MulDistributes(x: real, a: real, b: real)
    ensures x * a + x * b == x * (a + b)
  {
  }

  lemma OneMoreMonth(n: nat, c: real)
    requires n > 0
    ensures (n - 1) as real * c + c == n as real * c
  {
  }

  /** The closed form's inner sum grows by the pension factor of month n - 1. */
  lemma ClosedFormStep(lastDa: real, n: nat)
    requires n > 0
    ensures (n - 1) as real * (1.0 + lastDa) + DaStep * FloorSixSum(n - 1) as real
            + (1.0 + PostRetirementDa(lastDa, n - 1))
         == n as real * (1.0 + lastDa) + DaStep * FloorSixSum(n) as real
  {
    OneMoreMonth(n, 1.0 + lastDa);
  }

  lemma {:induction false} UpsPaidClosedForm(monthly: real, lastDa: real, n: nat)
    ensures UpsPaid(monthly, lastDa, n) == monthly * (n as real * (1.0 + lastDa) + DaStep * FloorSixSum(n) as real)
  {
    if n > 0 {
      UpsPaidClosedForm(monthly, lastDa, n - 1);
      var a := (n - 1) as real * (1.0 + lastDa) + DaStep * FloorSixSum(n - 1) as real;
      var b := 1.0 + PostRetirementDa(lastDa, n - 1);
      ClosedFormStep(lastDa, n);
      MulDistributes(monthly, a, b);
    }
  }

  /**
   * Over a whole number of years the UPS total is 12 months a year at the
   * retirement DA, plus the DA steps: 0.18 * years * (2 * years - 1) monthly pensions.
   */
  lemma UpsTotalOverYears(monthly: real, lastDa: real, years: nat)
    ensures UpsPaid(monthly, lastDa, 12 * years)
         == monthly * ((12 * years) as real * (1.0 + lastDa) + 0.18 * (years * (2 * years - 1)) as real)
  {
    var n, k := 12 * years, years * (2 * years - 1);
    UpsPaidClosedForm(monthly, lastDa, n);
    FloorSixSumYears(years);
    assert DaStep * FloorSixSum(n) as real == 0.18 * k as real;
  }

  /** Over whole years the DA steps add up to 6 * years * (2 * years - 1). */
  lemma FloorSixSumYears(years: nat)
    ensures FloorSixSum(12 * years) == 6 * (years * (2 * years - 1))
  {
    FloorSixSumQR(2 * years, 0);
    assert SixClosed(2 * years, 0) == 6 * (years * (2 * years - 1));
  }

  /** Over a whole number of years the NPS annuity pays one annual annuity amount per year. */
  lemma NpsTotalOverYears(corpus: real, annuityPct: real, annuityRate: real, years: nat)
    ensures NpsMonthlyAnnuity(corpus, annuityPct, annuityRate) * (12 * years) as real
         == years as real * NpsAnnuityAmount(corpus, annuityPct, annuityRate)
  {
    var a := NpsAnnuityAmount(corpus, annuityPct, annuityRate);
    assert a / 12.0 * (12 * years) as real == a * years as real;
  }

  /**
   * The post-retirement loop: month by month, the DA rises by one step at
   * the start of every six months after the first, and that month's pension
   * is added to the total.
   */
  method TotalUpsPaid(monthly: real, lastDa: real, monthsRetired: nat) returns (total: real)
    ensures total == UpsPaid(monthly, lastDa, monthsRetired)
    ensures total == monthly * (monthsRetired as real * (1.0 + lastDa) + DaStep * FloorSixSum(monthsRetired) as real)
  {
    var da := lastDa;
    total := 0.0;
    var i := 0;
    while i < monthsRetired
      invariant 0 <= i <= monthsRetired
      invariant da == if i == 0 then lastDa else PostRetirementDa(lastDa, i - 1)
      invariant total == UpsPaid(monthly, lastDa, i)
    {
      if i % 6 == 0 && i != 0 {
        da := da + DaStep;
      }
      if i > 0 {
        DivSixStep(i);
      }
      assert da == PostRetirementDa(lastDa, i);
      assert monthly * (1.0 + da) == MonthPension(monthly, lastDa, i);
      total := total + monthly * (1.0 + da);
      i := i + 1;
    }
    UpsPaidClosedForm(monthly, lastDa, monthsRetired);
  }

  /**
   * f holds the figures shown at retirement for a simulation ending in t:
   * pensions and lumpsums from the final basic pay and corpus, the DA rate
   * of the last ledger record, and the totals over the years after retirement.
   */
  predicate FiguresOf(t: Trace, completedSixMonths: int, payout: Payout, f: Figures)
    requires t.ledger != []
  {
    && f.finalBasic == t.final.basicPay && f.npsCorpus == t.final.corpus
    && f.upsPension == UpsPension(t.final.basicPay)
    && f.upsLumpsum == UpsLumpsum(t.final.basicPay, completedSixMonths)
    && f.lastDaRate == DaRate(t.ledger[|t.ledger| - 1].daSteps)
    && f.monthsRetired == 12 * payout.lifeYears
    && f.totalUpsPaid == UpsPaid(f.upsPension, f.lastDaRate, f.monthsRetired)
    && f.npsAnnuityAmount == NpsAnnuityAmount(t.final.corpus, payout.annuityPct, payout.annuityRate)
    && f.npsLumpsum == NpsLumpsum(t.final.corpus, payout.annuityPct)
    && f.npsMonthlyAnnuity == NpsMonthlyAnnuity(t.final.corpus, payout.annuityPct, payout.annuityRate)
    && f.totalNpsPaid == f.npsMonthlyAnnuity * f.monthsRetired as real
  }

  /**
   * The figures shown at retirement, from the end of the simulation. The
   * DA rate at retirement is read from the last ledger record, so an empty
   * ledger is an error.
   */
  method RetirementFigures(t: Trace, completedSixMonths: int, payout: Payout) returns (r: Result<Figures>)
    ensures r.Err? <==> t.ledger == []
    ensures r.Err? ==> r.error == EmptyLedger
    ensures r.Ok? ==> FiguresOf(t, completedSixMonths, payout, r.value)
  {
    var finalBasic := t.final.basicPay;
    var upsPension := UpsPension(finalBasic);
    var npsAnnuity := NpsAnnuityAmount(t.final.corpus, payout.annuityPct, payout.annuityRate);
    if t.ledger == [] {
      return Err(EmptyLedger);
    }
    var lastDa := DaRate(t.ledger[|t.ledger| - 1].daSteps);
    var upsLumpsum := UpsLumpsum(finalBasic, completedSixMonths);
    var npsLumpsum := NpsLumpsum(t.final.corpus, payout.annuityPct);
    var monthsRetired := 12 * payout.lifeYears;
    var totalUps := TotalUpsPaid(upsPension, lastDa, monthsRetired);
    var npsMonthly := NpsMonthlyAnnuity(t.final.corpus, payout.annuityPct, payout.annuityRate);
    var totalNps := npsMonthly * monthsRetired as real;
    r := Ok(Figures(finalBasic, upsPension, upsLumpsum, lastDa, monthsRetired, totalUps,
                    t.final.corpus, npsAnnuity, npsLumpsum, npsMonthly, totalNps));
  }

  /**
   * The totals of the figures in closed form: the UPS total is the monthly
   * pension times 12 months a year at the retirement DA plus the DA steps,
   * and the NPS total is one annual annuity amount per year.
   */
  lemma FiguresTotals(t: Trace, completedSixMonths: int, payout: Payout, f: Figures)
    requires t.ledger != [] && FiguresOf(t, completedSixMonths, payout, f)
    ensures var years := payout.lifeYears;
      f.totalUpsPaid == f.upsPension *
        ((12 * years) as real * (1.0 + f.lastDaRate) + 0.18 * (years * (2 * years - 1)) as real)
    ensures f.totalNpsPaid == payout.lifeYears as real * f.npsAnnuityAmount
  {
    UpsTotalOverYears(f.upsPension, f.lastDaRate, payout.lifeYears);
    NpsTotalOverYears(t.final.corpus, payout.annuityPct, payout.annuityRate, payout.lifeYears);
  }
}
