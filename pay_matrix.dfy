/**
 * The pay-commission (CPC) matrices: the DA rate in force at a reference date,
 * the fitment factor, and the generation of one full pay matrix per future
 * pay-commission cycle from the one before it.
 */
module PayMatrix {
  import opened Calendar

  /** A cell of a pay matrix: a level (its index in the sorted list of levels) and a pay position. */
  datatype Cell = Cell(level: nat, position: int)

  /** One pay matrix: basic pay per (level, position). */
  type Table = map<Cell, int>

  /** A pay matrix tagged with the label of its pay-commission cycle. */
  datatype CpcTable = CpcTable(cpc: string, pay: Table)

  /** A future pay-commission cycle and the calendar year it takes effect. */
  datatype Cycle = Cycle(name: string, startYear: int)

  /** One row of the DA-rate history. */
  datatype DaEntry = DaEntry(date: Date, rate: real)

  const BaseLabel: string := "7CPC"

  /** The cycles in the order the dashboard lists them. */
  const CpcYears: seq<Cycle> :=
    [Cycle("8CPC", 2026), Cycle("9CPC", 2036), Cycle("10CPC", 2046), Cycle("11CPC", 2056)]

  /** The label of the cycle at position p of the schedule that starts with the base cycle. */
  function CycleLabel(cycles: seq<Cycle>, p: nat): string
    requires p <= |cycles|
  {
    if p == 0 then BaseLabel else cycles[p - 1].name
  }

  /**
   * The index of an entry with the latest date on or before ref, or -1 when
   * no entry qualifies.
   */
  function LatestOnOrBefore(entries: seq<DaEntry>, ref: Date): (k: int)
    ensures -1 <= k < |entries|
    ensures k == -1 <==> forall i :: 0 <= i < |entries| ==> !DateLe(entries[i].date, ref)
    ensures k >= 0 ==> DateLe(entries[k].date, ref)
    ensures k >= 0 ==> forall i :: 0 <= i < |entries| && DateLe(entries[i].date, ref) ==>
      DateLe(entries[i].date, entries[k].date)
    decreases |entries|
  {
    if |entries| == 0 then -1
    else
      var init := entries[..|entries| - 1];
      var k := LatestOnOrBefore(init, ref);
      var last := entries[|entries| - 1];
      assert forall i :: 0 <= i < |init| ==> init[i] == entries[i];
      if DateLe(last.date, ref) && (k == -1 || DateLt(entries[k].date, last.date)) then |entries| - 1
      else k
  }

  /**
   * The DA rate as of ref: the rate of an entry with the latest date on or
   * before ref (which one among equal dates is not fixed), or 0 when there is none.
   */
  function ReferenceDa(entries: seq<DaEntry>, ref: Date): (r: real)
    ensures (forall i :: 0 <= i < |entries| ==> !DateLe(entries[i].date, ref)) ==> r == 0.0
    ensures (exists i :: 0 <= i < |entries| && DateLe(entries[i].date, ref)) ==>
      exists k :: 0 <= k < |entries| && DateLe(entries[k].date, ref) && r == entries[k].rate
        && forall i :: 0 <= i < |entries| && DateLe(entries[i].date, ref) ==>
             DateLe(entries[i].date, entries[k].date)
  {
    var k := LatestOnOrBefore(entries, ref);
    if k == -1 then 0.0 else entries[k].rate
  }

  /** A cycle's reference date: 1 July of the year before it takes effect. */
  function ReferenceDate(c: Cycle): Date {
    Date(c.startYear - 1, 7, 1)
  }

  /** The multiplier that turns a cycle's pay into the next cycle's. */
  function Fitment(da: real, increase: real): real {
    (1.0 + da) * (1.0 + increase)
  }

  function CycleFitment(daTable: seq<DaEntry>, increase: real, c: Cycle): real {
    Fitment(ReferenceDa(daTable, ReferenceDate(c)), increase)
  }

  /** With no DA history at all, every cycle's fitment is the pay-commission increase alone. */
  lemma EmptyDaHistoryFitment(increase: real, c: Cycle)
    ensures CycleFitment([], increase, c) == 1.0 + increase
  {
  }

  /**
   * Round to the nearest integer, halves to the even neighbour (the rounding
   * of a pandas Series).
   */
  function RoundHalfEven(x: real): (r: int)
    ensures x - 0.5 <= r as real <= x + 0.5
    ensures (r as real == x - 0.5 || r as real == x + 0.5) ==> r % 2 == 0
  {
    var f := x.Floor;
    var frac := x - f as real;
    if frac < 0.5 then f
    else if frac > 0.5 then f + 1
    else if f % 2 == 0 then f
    else f + 1
  }

  /** The two properties in RoundHalfEven's contract pick out exactly one integer. */
  lemma RoundHalfEvenUnique(x: real, n: int)
    requires x - 0.5 <= n as real <= x + 0.5
    requires (n as real == x - 0.5 || n as real == x + 0.5) ==> n % 2 == 0
    ensures n == RoundHalfEven(x)
  {
  }

  /** Rounding never reverses the order of two amounts. */
  lemma RoundMonotone(x: real, y: real)
    requires x <= y
    ensures RoundHalfEven(x) <= RoundHalfEven(y)
  {
  }

  /** One cell's pay in the next cycle: the old pay times the fitment, rounded. */
  function RevisedPay(pay: int, fitment: real): int {
    RoundHalfEven(pay as real * fitment)
  }

  /** The next cycle's matrix: every cell of the previous one, with its revised pay. */
  function Revise(prev: Table, fitment: real): (t: Table)
    ensures t.Keys == prev.Keys
    ensures forall c :: c in t ==> t[c] == RevisedPay(prev[c], fitment)
  {
    map c | c in prev :: RevisedPay(prev[c], fitment)
  }

  lemma ScaleMonotone(x: real, y: real, k: real)
    requires x <= y && k >= 0.0
    ensures x * k <= y * k
  {
    assert y * k - x * k == (y - x) * k;
  }

  /** A fitment of at least 1 never lowers a non-negative pay. */
  lemma RevisedPayNotLower(pay: int, fitment: real)
    requires fitment >= 1.0 && pay >= 0
    ensures RevisedPay(pay, fitment) >= pay
  {
    var p := pay as real;
    ScaleMonotone(1.0, fitment, p);
    RoundMonotone(p, p * fitment);
    assert RoundHalfEven(p) == pay;
  }

  lemma RevisionNeverLowersPay(prev: Table, fitment: real, c: Cell)
    requires fitment >= 1.0 && c in prev && prev[c] >= 0
    ensures Revise(prev, fitment)[c] >= prev[c]
  {
    RevisedPayNotLower(prev[c], fitment);
  }

  /** Basic pay does not fall as the position rises within a level. */
  ghost predicate PayOrdered(t: Table) {
    forall c, d :: c in t && d in t && c.level == d.level && c.position <= d.position ==> t[c] <= t[d]
  }

  /** Revising never reverses the order of two pays. */
  lemma RevisedPayMonotone(p: int, q: int, fitment: real)
    requires p <= q && fitment >= 0.0
    ensures RevisedPay(p, fitment) <= RevisedPay(q, fitment)
  {
    var x, y := p as real * fitment, q as real * fitment;
    assert RevisedPay(p, fitment) == RoundHalfEven(x);
    assert RevisedPay(q, fitment) == RoundHalfEven(y);
    ScaleMonotone(p as real, q as real, fitment);
    RoundMonotone(x, y);
  }

  /** A revision with a non-negative fitment keeps pay ordered by position. */
  lemma RevisionKeepsPayOrder(prev: Table, fitment: real)
    requires PayOrdered(prev) && fitment >= 0.0
    ensures PayOrdered(Revise(prev, fitment))
  {
    var t := Revise(prev, fitment);
    forall c, d | c in t && d in t && c.level == d.level && c.position <= d.position
      ensures t[c] <= t[d]
    {
      RevisedPayMonotone(prev[c], prev[d], fitment);
    }
  }

  /** Every DA rate of the history is non-negative. */
  predicate NonNegativeRates(daTable: seq<DaEntry>) {
    forall i :: 0 <= i < |daTable| ==> daTable[i].rate >= 0.0
  }

  /** With a non-negative DA history and increase, every cycle's fitment is at least 1. */
  lemma FitmentAtLeastOne(daTable: seq<DaEntry>, increase: real, c: Cycle)
    requires NonNegativeRates(daTable) && increase >= 0.0
    ensures CycleFitment(daTable, increase, c) >= 1.0
  {
    var da := ReferenceDa(daTable, ReferenceDate(c));
    assert da >= 0.0;
    ScaleMonotone(1.0, 1.0 + da, 1.0 + increase);
  }

  /** Every table of the list has the same cells as base. */
  ghost predicate SameCells(tables: seq<CpcTable>, base: Table) {
    forall i :: 0 <= i < |tables| ==> tables[i].pay.Keys == base.Keys
  }

  /** next is cycle c's matrix, revised from prev with c's fitment. */
  predicate RevisedFrom(next: CpcTable, prev: CpcTable, c: Cycle, daTable: seq<DaEntry>, increase: real) {
    next == CpcTable(c.name, Revise(prev.pay, CycleFitment(daTable, increase, c)))
  }

  /**
   * All cycles' matrices: the base matrix first, then one per cycle in the
   * order given, each revised from the one just before it with that cycle's fitment.
   */
  method GenerateCpcTables(base: Table, daTable: seq<DaEntry>, increase: real, cycles: seq<Cycle>)
    returns (tables: seq<CpcTable>)
    ensures |tables| == |cycles| + 1
    ensures tables[0] == CpcTable(BaseLabel, base)
    ensures forall i :: 0 <= i < |cycles| ==> RevisedFrom(tables[i + 1], tables[i], cycles[i], daTable, increase)
    ensures forall p :: 0 <= p < |tables| ==> tables[p].cpc == CycleLabel(cycles, p)
    ensures SameCells(tables, base)
  {
    tables := [CpcTable(BaseLabel, base)];
    var i := 0;
    while i < |cycles|
      invariant 0 <= i <= |cycles|
      invariant |tables| == i + 1
      invariant tables[0] == CpcTable(BaseLabel, base)
      invariant forall j :: 0 <= j < i ==> RevisedFrom(tables[j + 1], tables[j], cycles[j], daTable, increase)
      invariant SameCells(tables, base)
    {
      var prev := tables[|tables| - 1];
      var fitment := CycleFitment(daTable, increase, cycles[i]);
      var next := CpcTable(cycles[i].name, Revise(prev.pay, fitment));
      tables := tables + [next];
      i := i + 1;
    }
    forall p | 0 <= p < |tables| ensures tables[p].cpc == CycleLabel(cycles, p) {
      if p > 0 {
        assert RevisedFrom(tables[p], tables[p - 1], cycles[p - 1], daTable, increase);
      }
    }
  }

  /**
   * Every matrix of a generated list keeps the base matrix's order of pay by
   * position within a level.
   */
  lemma {:induction false} GeneratedPayOrdered(tables: seq<CpcTable>, base: Table, daTable: seq<DaEntry>,
                                               increase: real, cycles: seq<Cycle>, p: nat)
    requires |tables| == |cycles| + 1 && tables[0] == CpcTable(BaseLabel, base)
    requires forall i :: 0 <= i < |cycles| ==> RevisedFrom(tables[i + 1], tables[i], cycles[i], daTable, increase)
    requires PayOrdered(base) && increase >= 0.0 && NonNegativeRates(daTable)
    requires p < |tables|
    ensures PayOrdered(tables[p].pay)
  {
    if p > 0 {
      GeneratedPayOrdered(tables, base, daTable, increase, cycles, p - 1);
      var fitment := CycleFitment(daTable, increase, cycles[p - 1]);
      assert RevisedFrom(tables[p], tables[p - 1], cycles[p - 1], daTable, increase);
      FitmentAtLeastOne(daTable, increase, cycles[p - 1]);
      RevisionKeepsPayOrder(tables[p - 1].pay, fitment);
    }
  }

  /** The labels of the base cycle and the dashboard's cycles are all distinct. */
  lemma CycleLabelsDistinct(p: nat, q: nat)
    requires p < q <= |CpcYears|
    ensures CycleLabel(CpcYears, p) != CycleLabel(CpcYears, q)
  {
  }

  /** The rows of all matrices put together, as the dashboard concatenates them. */
  function TotalRows(tables: seq<CpcTable>): nat {
    if tables == [] then 0 else TotalRows(tables[..|tables| - 1]) + |tables[|tables| - 1].pay|
  }

  /** The concatenated matrix has one row per cycle (base included) per cell of the base matrix. */
  lemma {:induction false} TotalRowsOfGeneration(tables: seq<CpcTable>, base: Table)
    requires SameCells(tables, base)
    ensures TotalRows(tables) == |tables| * |base|
  {
    if tables != [] {
      var init := tables[..|tables| - 1];
      assert SameCells(init, base) by {
        forall i | 0 <= i < |init| ensures init[i].pay.Keys == base.Keys {
          assert init[i] == tables[i];
        }
      }
      TotalRowsOfGeneration(init, base);
      var last := tables[|tables| - 1].pay;
      assert |last| == |last.Keys| == |base.Keys| == |base|;
    }
  }
}
