/**
 * Calendar arithmetic used by the simulation timeline: dates, month starts,
 * the retirement date and the length of service.
 */
module Calendar {
  import opened Common

  datatype Date = Date(year: int, month: int, day: int)

  /** The first day of a calendar month; every simulated month is one of these. */
  datatype Month = Month(year: int, month: int)

  predicate IsLeapYear(y: int) {
    y % 4 == 0 && (y % 100 != 0 || y % 400 == 0)
  }

  function DaysInMonth(y: int, m: int): (n: int)
    requires 1 <= m <= 12
    ensures 28 <= n <= 31
    ensures n == 29 <==> m == 2 && IsLeapYear(y)
  {
    if m == 2 then (if IsLeapYear(y) then 29 else 28)
    else if m == 4 || m == 6 || m == 9 || m == 11 then 30
    else 31
  }

  predicate ValidDate(d: Date) {
    1 <= d.month <= 12 && 1 <= d.day <= DaysInMonth(d.year, d.month)
  }

  predicate ValidMonth(m: Month) {
    1 <= m.month <= 12
  }

  /** Chronological order on dates (lexicographic on year, month, day). */
  predicate DateLe(a: Date, b: Date) {
    a.year < b.year
    || (a.year == b.year && (a.month < b.month || (a.month == b.month && a.day <= b.day)))
  }

  predicate DateLt(a: Date, b: Date) {
    DateLe(a, b) && a != b
  }

  function FirstOf(m: Month): Date {
    Date(m.year, m.month, 1)
  }

  /** Months counted from January of year 0, so consecutive months have consecutive indices. */
  function MonthIndex(m: Month): int {
    m.year * 12 + m.month - 1
  }

  function MonthAt(k: int): (m: Month)
    ensures ValidMonth(m) && MonthIndex(m) == k
  {
    Month(k / 12, k % 12 + 1)
  }

  lemma MonthAtIndex(m: Month)
    requires ValidMonth(m)
    ensures MonthAt(MonthIndex(m)) == m
  {
    var k := MonthIndex(m);
    assert k == m.year * 12 + (m.month - 1) && 0 <= m.month - 1 < 12;
    assert k / 12 == m.year && k % 12 == m.month - 1;
  }

  /** Index of the first month start on or after d. */
  function FirstMonthStart(d: Date): int {
    if d.day == 1 then MonthIndex(Month(d.year, d.month)) else MonthIndex(Month(d.year, d.month)) + 1
  }

  /** A month start is on or after d exactly when its index reaches FirstMonthStart(d). */
  lemma AfterStart(d: Date, m: Month)
    requires ValidDate(d) && ValidMonth(m)
    ensures DateLe(d, FirstOf(m)) <==> MonthIndex(m) >= FirstMonthStart(d)
  {
  }

  /** A month start is on or before d exactly when its index is at most d's month's. */
  lemma BeforeEnd(d: Date, m: Month)
    requires ValidDate(d) && ValidMonth(m)
    ensures DateLe(FirstOf(m), d) <==> MonthIndex(m) <= MonthIndex(Month(d.year, d.month))
  {
  }

  /**
   * The month starts lying in the closed interval [start, end], in
   * chronological order: the timeline of the simulation.
   */
  function MonthStarts(start: Date, end: Date): (ms: seq<Month>)
    requires ValidDate(start) && ValidDate(end)
    ensures forall i :: 0 <= i < |ms| ==>
      ValidMonth(ms[i]) && DateLe(start, FirstOf(ms[i])) && DateLe(FirstOf(ms[i]), end)
    ensures forall i :: 0 <= i < |ms| ==> MonthIndex(ms[i]) == FirstMonthStart(start) + i
    ensures |ms| == if MonthIndex(Month(end.year, end.month)) < FirstMonthStart(start) then 0
                    else MonthIndex(Month(end.year, end.month)) - FirstMonthStart(start) + 1
  {
    var first := FirstMonthStart(start);
    var last := MonthIndex(Month(end.year, end.month));
    if last < first then []
    else
      var ms := seq(last - first + 1, i requires 0 <= i <= last - first => MonthAt(first + i));
      assert forall i :: 0 <= i < |ms| ==> ms[i] == MonthAt(first + i);
      assert forall i :: 0 <= i < |ms| ==> DateLe(start, FirstOf(ms[i])) && DateLe(FirstOf(ms[i]), end) by {
        forall i | 0 <= i < |ms| ensures DateLe(start, FirstOf(ms[i])) && DateLe(FirstOf(ms[i]), end) {
          AfterStart(start, ms[i]);
          BeforeEnd(end, ms[i]);
        }
      }
      ms
  }

  /** Every month start in [start, end] is on the timeline. */
  lemma MonthStartsComplete(start: Date, end: Date, m: Month)
    requires ValidDate(start) && ValidDate(end) && ValidMonth(m)
    requires DateLe(start, FirstOf(m)) && DateLe(FirstOf(m), end)
    ensures m in MonthStarts(start, end)
  {
    var ms := MonthStarts(start, end);
    var k := MonthIndex(m) - FirstMonthStart(start);
    assert 0 <= k < |ms|;
    MonthAtIndex(m);
    assert MonthAt(FirstMonthStart(start) + k) == m;
    assert MonthIndex(ms[k]) == MonthIndex(m);
    MonthAtIndex(ms[k]);
    assert ms[k] == m;
  }

  /** The retirement year: the current year plus the years left to the retirement age. */
  function RetireYear(currentYear: int, retirementAge: int, currentAge: int): int {
    currentYear + (retirementAge - currentAge)
  }

  /**
   * The retirement date reuses the joining month and day; building it fails
   * only for a 29 February joining date in a non-leap retirement year.
   */
  function RetirementDate(joining: Date, currentYear: int, retirementAge: int, currentAge: int): (r: Result<Date>)
    requires ValidDate(joining)
    ensures r.Err? <==>
      (joining.month == 2 && joining.day == 29 && !IsLeapYear(RetireYear(currentYear, retirementAge, currentAge)))
    ensures r.Err? ==> r.error == InvalidRetirementDate
    ensures r.Ok? ==>
      ValidDate(r.value) && r.value == Date(RetireYear(currentYear, retirementAge, currentAge), joining.month, joining.day)
  {
    var y := RetireYear(currentYear, retirementAge, currentAge);
    if joining.day <= DaysInMonth(y, joining.month) then Ok(Date(y, joining.month, joining.day))
    else Err(InvalidRetirementDate)
  }

  /** Whole months of service between joining and retirement. */
  function ServiceMonths(joining: Date, retirement: Date): int {
    (retirement.year - joining.year) * 12 + (retirement.month - joining.month)
  }

  /** Completed six-month periods; Python's floor division, which is Dafny's for a positive divisor. */
  function CompletedSixMonths(serviceMonths: int): int {
    serviceMonths / 6
  }

  /**
   * With the retirement date on the joining month and day, the service is a
   * whole number of years, and the timeline holds one month start per month
   * of service, plus the joining month itself when joining on the 1st.
   */
  lemma {:induction false} TimelineLength(joining: Date, retirement: Date)
    requires ValidDate(joining) && ValidDate(retirement)
    requires retirement.month == joining.month && retirement.day == joining.day
    ensures ServiceMonths(joining, retirement) == 12 * (retirement.year - joining.year)
    ensures |MonthStarts(joining, retirement)| ==
      if retirement.year < joining.year then 0
      else ServiceMonths(joining, retirement) + (if joining.day == 1 then 1 else 0)
    ensures MonthStarts(joining, retirement) == [] <==>
      retirement.year < joining.year || (retirement.year == joining.year && joining.day != 1)
  {
  }
}
