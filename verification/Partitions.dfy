/** The monthly partitions of a table: their bounds, their names, and the months a range of dates needs. */
module Partitions {
  import opened Wrappers
  import opened Decimal
  import opened Calendar

  datatype PartitionError = BadMonth | BadYear | EmptyRange | NotPartitioned

  datatype Month = Month(year: int, number: int)
  datatype Bounds = Bounds(from: Date, upTo: Date)

  const PARTITIONED_TABLES := ["alerts", "ingest_stats"]

  /** The first day of a month and of the next; the date type ends with December of its last year. */
  function MonthBounds(m: Month): Result<Bounds, PartitionError> {
    if !(1 <= m.number <= 12) then Err(BadMonth)
    else if !(MIN_YEAR <= m.year <= MAX_YEAR) || (m.number == 12 && m.year == MAX_YEAR) then Err(BadYear)
    else Ok(Bounds(Date(m.year, m.number, 1), if m.number == 12 then Date(m.year + 1, 1, 1) else Date(m.year, m.number + 1, 1)))
  }

  function MonthOf(d: Date): Month {
    Month(d.year, d.month)
  }

  function Following(m: Month): Month {
    if m.number == 12 then Month(m.year + 1, 1) else Month(m.year, m.number + 1)
  }

  predicate NotLater(a: Month, b: Month) {
    a.year < b.year || (a.year == b.year && a.number <= b.number)
  }

  /** Months counted from the first month of year zero. */
  function Index(m: Month): int {
    12 * m.year + m.number - 1
  }

  predicate IsMonth(m: Month) {
    1 <= m.number <= 12
  }

  /** Some month and the ones after it. */
  function MonthsFrom(m: Month, count: nat): (s: seq<Month>)
    ensures |s| == count
    decreases count
  {
    if count == 0 then [] else [m] + MonthsFrom(Following(m), count - 1)
  }

  /** The months from that of `start` to that of `end`, both included. */
  function Covered(start: Date, end: Date): seq<Month> {
    var count := Index(MonthOf(end)) - Index(MonthOf(start)) + 1;
    MonthsFrom(MonthOf(start), if count > 0 then count else 0)
  }

  lemma IndexOrders(a: Month, b: Month)
    requires IsMonth(a) && IsMonth(b)
    ensures NotLater(a, b) <==> Index(a) <= Index(b)
  {
  }

  lemma CoveredIs(start: Date, end: Date)
    requires Index(MonthOf(start)) <= Index(MonthOf(end))
    ensures Covered(start, end) == MonthsFrom(MonthOf(start), Index(MonthOf(end)) - Index(MonthOf(start)) + 1)
  {
  }

  lemma BeforeNotLater(a: Date, b: Date)
    requires ValidDate(a) && ValidDate(b) && Before(a, b)
    ensures Index(MonthOf(a)) <= Index(MonthOf(b)) && IsMonth(MonthOf(a)) && IsMonth(MonthOf(b))
  {
  }

  lemma MonthsFromFirst(m: Month, count: nat, done: seq<Month>)
    ensures count > 0 ==> done + MonthsFrom(m, count) == done + [m] + MonthsFrom(Following(m), count - 1)
  {
  }

  lemma MonthsFromNone(m: Month, done: seq<Month>)
    ensures done + MonthsFrom(m, 0) == done
  {
  }

  method MonthsBetween(start: Date, end: Date) returns (r: Result<seq<Month>, PartitionError>)
    requires ValidDate(start) && ValidDate(end)
    ensures r == if Before(start, end) then Ok(Covered(start, end)) else Err(EmptyRange)
  {
    hide Before, MonthsFrom, NotLater, ValidDate, Covered;
    if !Before(start, end) {
      return Err(EmptyRange);
    }
    BeforeNotLater(start, end);
    CoveredIs(start, end);
    var covered: seq<Month> := [];
    var year, number := start.year, start.month;
    ghost var left: nat := Index(MonthOf(end)) - Index(MonthOf(start)) + 1;
    while NotLater(Month(year, number), MonthOf(end))
      invariant IsMonth(Month(year, number))
      invariant Index(Month(year, number)) == Index(MonthOf(end)) + 1 - left
      invariant covered + MonthsFrom(Month(year, number), left) == Covered(start, end)
      decreases left
    {
      IndexOrders(Month(year, number), MonthOf(end));
      MonthsFromFirst(Month(year, number), left, covered);
      covered := covered + [Month(year, number)];
      number := number + 1;
      if number == 13 {
        year, number := year + 1, 1;
      }
      left := left - 1;
    }
    IndexOrders(Month(year, number), MonthOf(end));
    MonthsFromNone(Month(year, number), covered);
    r := Ok(covered);
  }

  // ----- Tiling -------------------------------------------------------------

  lemma {:induction false} MonthsFromAt(m: Month, count: nat, i: nat)
    requires IsMonth(m) && i < count
    ensures IsMonth(MonthsFrom(m, count)[i]) && Index(MonthsFrom(m, count)[i]) == Index(m) + i
    decreases i
  {
    if i > 0 {
      MonthsFromAt(Following(m), count - 1, i - 1);
    }
  }

  lemma IndexInjective(a: Month, b: Month)
    requires IsMonth(a) && IsMonth(b) && Index(a) == Index(b)
    ensures a == b
  {
    assert a.year == b.year;
  }

  /** The i-th month covered, by its index. */
  lemma CoveredAt(start: Date, end: Date, i: nat)
    requires ValidDate(start) && ValidDate(end) && i < |Covered(start, end)|
    ensures IsMonth(Covered(start, end)[i]) && Index(Covered(start, end)[i]) == Index(MonthOf(start)) + i
    ensures MIN_YEAR <= Covered(start, end)[i].year <= MAX_YEAR
  {
    MonthsFromAt(MonthOf(start), |Covered(start, end)|, i);
  }

  /** Each month ends on the day the next one begins, so the partitions leave no gap and share no day. */
  lemma BoundsAbut(start: Date, end: Date, i: nat)
    requires ValidDate(start) && ValidDate(end) && i + 1 < |Covered(start, end)|
    ensures var here, next := MonthBounds(Covered(start, end)[i]), MonthBounds(Covered(start, end)[i + 1]);
            && here.Ok? && (next.Ok? ==> next.value.from == here.value.upTo)
            && (next.Ok? <==> Covered(start, end)[i + 1] != Month(MAX_YEAR, 12))
            && Before(here.value.from, here.value.upTo)
  {
    var a, b := Covered(start, end)[i], Covered(start, end)[i + 1];
    CoveredAt(start, end, i);
    CoveredAt(start, end, i + 1);
    IndexInjective(Following(a), b);
  }

  /** A day lies in a month's bounds exactly when it is a day of that month. */
  predicate Holds(m: Month, d: Date) {
    MonthBounds(m).Ok? && AtMost(MonthBounds(m).value.from, d) && Before(d, MonthBounds(m).value.upTo)
  }

  lemma HoldsExactly(m: Month, d: Date)
    requires ValidDate(d)
    ensures Holds(m, d) <==> m == MonthOf(d) && m != Month(MAX_YEAR, 12)
  {
  }

  lemma CoveredContains(start: Date, end: Date, d: Date) returns (i: nat)
    requires ValidDate(start) && ValidDate(end) && ValidDate(d) && AtMost(start, d) && Before(d, end)
    ensures i < |Covered(start, end)| && Covered(start, end)[i] == MonthOf(d)
  {
    i := Index(MonthOf(d)) - Index(MonthOf(start));
    CoveredAt(start, end, i);
    IndexInjective(Covered(start, end)[i], MonthOf(d));
  }

  lemma CoveredDistinct(start: Date, end: Date, i: nat, j: nat)
    requires ValidDate(start) && ValidDate(end) && i < |Covered(start, end)| && j < |Covered(start, end)|
    ensures Covered(start, end)[i] == Covered(start, end)[j] ==> i == j
  {
    CoveredAt(start, end, i);
    CoveredAt(start, end, j);
  }

  /**
   * Every day of the half-open range lies within the bounds of exactly one covered month, with the single
   * exception of the days of December 9999, whose month has no bounds.
   */
  lemma EveryDayHasOneMonth(start: Date, end: Date, d: Date)
    requires ValidDate(start) && ValidDate(end) && ValidDate(d) && AtMost(start, d) && Before(d, end)
    ensures (exists i :: 0 <= i < |Covered(start, end)| && Holds(Covered(start, end)[i], d))
            <==> MonthOf(d) != Month(MAX_YEAR, 12)
    ensures forall i, j :: (0 <= i < |Covered(start, end)| && 0 <= j < |Covered(start, end)|
                            && Holds(Covered(start, end)[i], d) && Holds(Covered(start, end)[j], d)) ==> i == j
  {
    hide Covered, Holds;
    var k := CoveredContains(start, end, d);
    forall i | 0 <= i < |Covered(start, end)|
      ensures Holds(Covered(start, end)[i], d) <==> i == k && MonthOf(d) != Month(MAX_YEAR, 12)
    {
      HoldsExactly(Covered(start, end)[i], d);
      CoveredDistinct(start, end, i, k);
    }
  }

  /** A month of which some day is in the range. */
  ghost predicate Needed(m: Month, start: Date, end: Date) {
    exists d: Date :: ValidDate(d) && MonthOf(d) == m && AtMost(start, d) && Before(d, end)
  }

  function FirstDay(m: Month): Date {
    Date(m.year, m.number, 1)
  }

  /** Every covered month but the last is needed; the last one is needed exactly when the range ends after its first day. */
  lemma NeededExactly(start: Date, end: Date, i: nat)
    requires ValidDate(start) && ValidDate(end) && Before(start, end) && i < |Covered(start, end)|
    ensures Needed(Covered(start, end)[i], start, end) <==> i + 1 < |Covered(start, end)| || end.day > 1
  {
    var m := Covered(start, end)[i];
    CoveredAt(start, end, i);
    var d := if i == 0 then start else FirstDay(m);
    if i == 0 {
      IndexInjective(m, MonthOf(start));
    }
    assert i + 1 < |Covered(start, end)| || end.day > 1 ==> ValidDate(d) && MonthOf(d) == m && AtMost(start, d) && Before(d, end);
    if i + 1 == |Covered(start, end)| {
      IndexInjective(m, MonthOf(end));
    }
  }

  /** The list is as short as it can be unless the range ends on the first of a month. */
  lemma MinimalExactly(start: Date, end: Date)
    requires ValidDate(start) && ValidDate(end) && Before(start, end)
    ensures (forall i :: 0 <= i < |Covered(start, end)| ==> Needed(Covered(start, end)[i], start, end)) <==> end.day > 1
  {
    hide Needed;
    var n := |Covered(start, end)|;
    forall i | 0 <= i < n
      ensures Needed(Covered(start, end)[i], start, end) <==> i + 1 < n || end.day > 1
    {
      NeededExactly(start, end, i);
    }
    assert n > 0;
    assert Needed(Covered(start, end)[n - 1], start, end) <==> end.day > 1;
  }

  // ----- Names --------------------------------------------------------------

  function PartitionName(table: string, m: Month): Result<string, PartitionError> {
    if table !in PARTITIONED_TABLES then Err(NotPartitioned)
    else if !(1 <= m.number <= 12) then Err(BadMonth)
    else Ok(table + "_" + ShowInt(m.year) + "_" + ShowPadded(m.number, 2))
  }

  /** A name is refused exactly for another table or month; it says the table, the year, and the month in two digits. */
  lemma NameSaysMonth(table: string, m: Month)
    ensures PartitionName(table, m).Ok? <==> (table == "alerts" || table == "ingest_stats") && 1 <= m.number <= 12
    ensures PartitionName(table, m).Ok? ==>
              exists mm :: PartitionName(table, m).value == table + "_" + ShowInt(m.year) + "_" + mm
                           && |mm| == 2 && AllDigits(mm) && Value(mm) == m.number
  {
    hide ShowInt, ShowPadded, Value, Show;
    if PartitionName(table, m).Ok? {
      ValueOfPadded(m.number, 2);
      TwoDigits(m.number);
    }
  }

  lemma TwoDigits(n: nat)
    requires n < 100
    ensures |ShowPadded(n, 2)| == 2
  {
    ShowLength(n, 2);
    assert Pow10(2) == 100 by {
      assert Pow10(1) == 10 && Pow10(0) == 1;
    }
  }

  lemma {:induction false} ShowIntHasNoUnderscore(n: int)
    ensures '_' !in ShowInt(n)
  {
    hide Show;
    assert forall i :: 0 <= i < |ShowInt(n)| ==> IsDigit(ShowInt(n)[i]) || ShowInt(n)[i] == '-';
  }

  /** Text after the last underscore is fixed by the whole. */
  lemma LastUnderscore(a: string, x: string, b: string, y: string)
    requires a + "_" + x == b + "_" + y && '_' !in x && '_' !in y
    ensures a == b && x == y
  {
    var s := a + "_" + x;
    assert s[|a|] == '_' && s[|b|] == '_';
    assert forall i :: |a| < i < |s| ==> s[i] == x[i - |a| - 1];
    assert forall i :: |b| < i < |s| ==> s[i] == y[i - |b| - 1];
    assert |a| == |b|;
    assert a == s[..|a|] && b == s[..|a|];
    assert x == s[|a| + 1..] && y == s[|a| + 1..];
  }

  /** No two partitions share a name, across tables as well. */
  lemma NameIsInjective(table: string, m: Month, table': string, m': Month)
    requires PartitionName(table, m).Ok? && PartitionName(table, m) == PartitionName(table', m')
    ensures table == table' && m == m'
  {
    hide ShowInt, ShowPadded;
    var stem, stem' := table + "_" + ShowInt(m.year), table' + "_" + ShowInt(m'.year);
    assert forall i :: 0 <= i < |ShowPadded(m.number, 2)| ==> IsDigit(ShowPadded(m.number, 2)[i]);
    assert forall i :: 0 <= i < |ShowPadded(m'.number, 2)| ==> IsDigit(ShowPadded(m'.number, 2)[i]);
    LastUnderscore(stem, ShowPadded(m.number, 2), stem', ShowPadded(m'.number, 2));
    ShowIntHasNoUnderscore(m.year);
    ShowIntHasNoUnderscore(m'.year);
    LastUnderscore(table, ShowInt(m.year), table', ShowInt(m'.year));
    ShowIntInjective(m.year, m'.year);
    ValueOfPadded(m.number, 2);
    ValueOfPadded(m'.number, 2);
  }
}
