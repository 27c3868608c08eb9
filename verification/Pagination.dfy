/** Walking a live table page by page: nothing present throughout is missed, and nothing comes twice. */
module Pagination {
  import opened Wrappers
  import opened Correlator
  import opened AlertRows
  import opened AlertStore

  // ----- Sorting and selecting ----------------------------------------------

  ghost predicate StrictlySorted(order: Order, rows: seq<AlertRow>) {
    forall i, j :: 0 <= i < j < |rows| ==> Before(order, KeyOf(rows[i]), KeyOf(rows[j]))
  }

  ghost predicate DistinctKeys(rows: seq<AlertRow>) {
    forall i, j :: 0 <= i < j < |rows| ==> KeyOf(rows[i]) != KeyOf(rows[j])
  }

  lemma BeforeIsTotal(order: Order, a: Key, b: Key)
    ensures a != b ==> Before(order, a, b) || Before(order, b, a)
    ensures !(Before(order, a, b) && Before(order, b, a))
  {
  }

  lemma BeforeIsTransitive(order: Order, a: Key, b: Key, c: Key)
    requires Before(order, a, b) && Before(order, b, c)
    ensures Before(order, a, c)
  {
  }

  lemma {:induction false} InsertMembers(order: Order, r: AlertRow, sorted: seq<AlertRow>)
    ensures forall x :: x in Insert(order, r, sorted) <==> x == r || x in sorted
  {
    if sorted != [] && !Before(order, KeyOf(r), KeyOf(sorted[0])) {
      InsertMembers(order, r, sorted[1..]);
      assert sorted == [sorted[0]] + sorted[1..];
    }
  }

  lemma {:induction false} InsertKeepsSorted(order: Order, r: AlertRow, sorted: seq<AlertRow>)
    requires StrictlySorted(order, sorted) && forall x :: x in sorted ==> KeyOf(x) != KeyOf(r)
    ensures StrictlySorted(order, Insert(order, r, sorted))
  {
    hide Before;
    if sorted != [] {
      var first, rest := sorted[0], sorted[1..];
      BeforeIsTotal(order, KeyOf(r), KeyOf(first));
      if Before(order, KeyOf(r), KeyOf(first)) {
        forall j | 0 <= j < |sorted| ensures Before(order, KeyOf(r), KeyOf(sorted[j])) {
          if j > 0 {
            BeforeIsTransitive(order, KeyOf(r), KeyOf(first), KeyOf(sorted[j]));
          }
        }
      } else {
        assert sorted == [first] + rest;
        InsertKeepsSorted(order, r, rest);
        InsertMembers(order, r, rest);
        var inserted := Insert(order, r, rest);
        forall j | 0 <= j < |inserted| ensures Before(order, KeyOf(first), KeyOf(inserted[j])) {
          assert inserted[j] in inserted;
        }
      }
    }
  }

  lemma {:induction false} SortSorts(order: Order, rows: seq<AlertRow>)
    requires DistinctKeys(rows)
    ensures StrictlySorted(order, Sort(order, rows))
    ensures forall x :: x in Sort(order, rows) <==> x in rows
  {
    hide Before, KeyOf;
    if rows != [] {
      var rest := rows[1..];
      assert rows == [rows[0]] + rest;
      SortSorts(order, rest);
      InsertMembers(order, rows[0], Sort(order, rest));
      forall x | x in rest ensures KeyOf(x) != KeyOf(rows[0]) {
        var i :| 0 <= i < |rest| && rest[i] == x;
        assert rows[i + 1] == x;
      }
      InsertKeepsSorted(order, rows[0], Sort(order, rest));
    }
  }

  lemma {:induction false} SelectMembers(rows: seq<AlertRow>, q: Query, cursor: Option<Key>)
    ensures forall x :: x in Select(rows, q, cursor) <==> x in rows && Wanted(x, q, cursor)
  {
    hide Wanted;
    if rows != [] {
      var n := |rows| - 1;
      assert rows == rows[..n] + [rows[n]];
      SelectMembers(rows[..n], q, cursor);
    }
  }

  lemma {:induction false} SelectDistinct(rows: seq<AlertRow>, q: Query, cursor: Option<Key>)
    requires DistinctKeys(rows)
    ensures DistinctKeys(Select(rows, q, cursor))
  {
    hide Wanted, KeyOf;
    if rows != [] {
      var n := |rows| - 1;
      SelectDistinct(rows[..n], q, cursor);
      SelectMembers(rows[..n], q, cursor);
      var kept := Select(rows[..n], q, cursor);
      forall i | 0 <= i < |kept| ensures KeyOf(kept[i]) != KeyOf(rows[n]) {
        assert kept[i] in kept;
        var k :| 0 <= k < n && rows[..n][k] == kept[i];
        assert KeyOf(rows[k]) != KeyOf(rows[n]);
      }
    }
  }

  // ----- One page -----------------------------------------------------------

  /** A query the API accepts. */
  ghost predicate Usable(c: Codec, q: Query) {
    q.Valid() && CheckedRange(q.start, q.end).Ok? && CheckedCursor(c, q).Ok?
  }

  function CursorOf(c: Codec, q: Query): Option<Key>
    requires CheckedCursor(c, q).Ok?
  {
    CheckedCursor(c, q).value
  }

  function PageOf(c: Codec, t: Table, q: Query): Page
    requires Fetch(c, t, q).Ok?
  {
    Paginate(c, Fetch(c, t, q).value, q)
  }

  function Continue(q: Query, next: Option<string>): (r: Query)
    ensures r.start == q.start && r.end == q.end
  {
    q.(cursor := next)
  }

  /** Every wanted row is on the page, or after its last row when there is a next page. */
  ghost predicate Covers(c: Codec, t: Table, q: Query, page: Page) {
    && Usable(c, q)
    && StrictlySorted(q.order, page.items)
    && (forall r :: r in page.items ==> r in t.rows && Wanted(r, q, CursorOf(c, q)))
    && (page.next.None? ==> forall r :: r in t.rows && Wanted(r, q, CursorOf(c, q)) ==> r in page.items)
    && (page.next.Some? ==>
          && |page.items| == q.limit
          && Usable(c, Continue(q, page.next))
          && CursorOf(c, Continue(q, page.next)) == Some(KeyOf(page.items[|page.items| - 1]))
          && forall r :: r in t.rows && Wanted(r, q, CursorOf(c, q)) ==>
               r in page.items || Before(q.order, KeyOf(page.items[|page.items| - 1]), KeyOf(r)))
  }

  lemma RowsHaveDistinctKeys(t: Table)
    requires TableOk(t)
    ensures DistinctKeys(t.rows)
  {
  }

  /** The rows a page is cut from. */
  function Candidates(t: Table, q: Query, cursor: Option<Key>): seq<AlertRow> {
    Sort(q.order, Select(t.rows, q, cursor))
  }

  lemma CandidatesAreWanted(t: Table, q: Query, cursor: Option<Key>)
    requires TableOk(t)
    ensures StrictlySorted(q.order, Candidates(t, q, cursor))
    ensures forall r :: r in Candidates(t, q, cursor) <==> r in t.rows && Wanted(r, q, cursor)
  {
    hide Wanted, Before, TableOk;
    RowsHaveDistinctKeys(t);
    SelectDistinct(t.rows, q, cursor);
    SelectMembers(t.rows, q, cursor);
    SortSorts(q.order, Select(t.rows, q, cursor));
  }

  lemma PageIsCut(c: Codec, t: Table, q: Query)
    requires Usable(c, q)
    ensures Fetch(c, t, q).Ok?
    ensures var all, page := Candidates(t, q, CursorOf(c, q)), PageOf(c, t, q);
            if |all| <= q.limit then page == Page(all, None)
            else page == Page(all[..q.limit], Some(c.encode(KeyOf(all[q.limit - 1]))))
  {
    hide Sort, Select, CheckedRange;
    var all := Candidates(t, q, CursorOf(c, q));
    if |all| > q.limit {
      assert all[..q.limit + 1][..q.limit] == all[..q.limit];
    }
  }

  lemma CutCovers(order: Order, all: seq<AlertRow>, limit: nat)
    requires StrictlySorted(order, all) && 1 <= limit < |all|
    ensures StrictlySorted(order, all[..limit])
    ensures forall r :: r in all[..limit] ==> r in all
    ensures forall r :: r in all ==> r in all[..limit] || Before(order, KeyOf(all[limit - 1]), KeyOf(r))
  {
    hide Before, KeyOf;
    forall r | r in all ensures r in all[..limit] || Before(order, KeyOf(all[limit - 1]), KeyOf(r)) {
      var i :| 0 <= i < |all| && all[i] == r;
      if i < limit {
        assert all[..limit][i] == r;
      }
    }
  }

  lemma PageCovers(c: Codec, t: Table, q: Query)
    requires Usable(c, q) && TableOk(t) && RoundTrips(c, q.start, q.end)
    ensures Fetch(c, t, q).Ok? && Covers(c, t, q, PageOf(c, t, q))
  {
    hide Fetch, PageOf, Candidates, TableOk, Wanted, Before, CheckedRange, StrictlySorted;
    PageIsCut(c, t, q);
    CandidatesAreWanted(t, q, CursorOf(c, q));
    var all, page := Candidates(t, q, CursorOf(c, q)), PageOf(c, t, q);
    if |all| > q.limit {
      CutCovers(q.order, all, q.limit);
      WantedIsInRange(all[q.limit - 1], q, CursorOf(c, q));
      NextIsUsable(c, q, KeyOf(all[q.limit - 1]));
      assert page.items[|page.items| - 1] == all[q.limit - 1];
    }
  }

  lemma WantedIsInRange(r: AlertRow, q: Query, cursor: Option<Key>)
    requires Wanted(r, q, cursor)
    ensures q.start <= KeyOf(r).createdAt < q.end
  {
  }

  lemma NextIsUsable(c: Codec, q: Query, k: Key)
    requires Usable(c, q) && RoundTrips(c, q.start, q.end) && q.start <= k.createdAt < q.end
    ensures var q' := Continue(q, Some(c.encode(k))); Usable(c, q') && CursorOf(c, q') == Some(k)
  {
  }

  // ----- A walk -------------------------------------------------------------

  /** The rows handed out by following cursors, with the table as it is at each page. */
  function Walk(c: Codec, ts: seq<Table>, q: Query): seq<AlertRow> {
    if ts == [] || Fetch(c, ts[0], q).Err? then []
    else
      var page := PageOf(c, ts[0], q);
      page.items + if page.next.None? then [] else Walk(c, ts[1..], Continue(q, page.next))
  }

  /** The walk came to a page without a next cursor. */
  predicate Finished(c: Codec, ts: seq<Table>, q: Query) {
    ts != [] && Fetch(c, ts[0], q).Ok? &&
    var page := PageOf(c, ts[0], q);
    page.next.None? || Finished(c, ts[1..], Continue(q, page.next))
  }

  ghost predicate AllOk(ts: seq<Table>) {
    forall i :: 0 <= i < |ts| ==> TableOk(ts[i])
  }

  ghost predicate AfterCursor(order: Order, cursor: Option<Key>, rows: seq<AlertRow>) {
    cursor.Some? ==> forall i :: 0 <= i < |rows| ==> Before(order, cursor.value, KeyOf(rows[i]))
  }

  lemma JoinSorted(order: Order, a: seq<AlertRow>, b: seq<AlertRow>)
    requires StrictlySorted(order, a) && StrictlySorted(order, b) && a != []
    requires AfterCursor(order, Some(KeyOf(a[|a| - 1])), b)
    ensures StrictlySorted(order, a + b)
  {
    hide Before, KeyOf;
    forall i, j | 0 <= i < |a| && 0 <= j < |b| ensures Before(order, KeyOf(a[i]), KeyOf(b[j])) {
      if i < |a| - 1 {
        BeforeIsTransitive(order, KeyOf(a[i]), KeyOf(a[|a| - 1]), KeyOf(b[j]));
      }
    }
  }

  lemma JoinAfter(order: Order, cursor: Option<Key>, a: seq<AlertRow>, b: seq<AlertRow>)
    requires AfterCursor(order, cursor, a) && a != []
    requires AfterCursor(order, Some(KeyOf(a[|a| - 1])), b)
    ensures AfterCursor(order, cursor, a + b)
  {
    hide Before, KeyOf;
    if cursor.Some? {
      forall j | 0 <= j < |b| ensures Before(order, cursor.value, KeyOf(b[j])) {
        BeforeIsTransitive(order, cursor.value, KeyOf(a[|a| - 1]), KeyOf(b[j]));
      }
    }
  }

  lemma ItemsAfterCursor(c: Codec, t: Table, q: Query, page: Page)
    requires Covers(c, t, q, page)
    ensures AfterCursor(q.order, CursorOf(c, q), page.items)
  {
    hide Before, Matches;
    forall i | 0 <= i < |page.items| ensures Wanted(page.items[i], q, CursorOf(c, q)) {
      assert page.items[i] in page.items;
    }
  }

  /** Whatever is saved between the pages, the walk is strictly sorted by key, so no row comes twice. */
  lemma {:induction false} WalkIsStrictlySorted(c: Codec, ts: seq<Table>, q: Query)
    requires Usable(c, q) && AllOk(ts) && RoundTrips(c, q.start, q.end)
    ensures StrictlySorted(q.order, Walk(c, ts, q))
    ensures AfterCursor(q.order, CursorOf(c, q), Walk(c, ts, q))
  {
    hide Fetch, PageOf, TableOk, Wanted, CheckedCursor, AfterCursor, StrictlySorted, RoundTrips;
    if ts == [] {
      EmptyIsSorted(q.order, CursorOf(c, q));
    } else {
      PageCovers(c, ts[0], q);
      var page := PageOf(c, ts[0], q);
      ItemsAfterCursor(c, ts[0], q, page);
      if page.next.Some? {
        var rest := Walk(c, ts[1..], Continue(q, page.next));
        WalkIsStrictlySorted(c, ts[1..], Continue(q, page.next));
        JoinSorted(q.order, page.items, rest);
        JoinAfter(q.order, CursorOf(c, q), page.items, rest);
      } else {
        assert page.items + [] == page.items;
      }
    }
  }

  lemma EmptyIsSorted(order: Order, cursor: Option<Key>)
    ensures StrictlySorted(order, []) && AfterCursor(order, cursor, [])
  {
  }

  /** A row with this key is in the table and satisfies the filters. */
  ghost predicate Present(t: Table, q: Query, k: Key) {
    exists r :: r in t.rows && KeyOf(r) == k && Matches(r, q)
  }

  ghost predicate Returned(rows: seq<AlertRow>, k: Key) {
    exists i :: 0 <= i < |rows| && KeyOf(rows[i]) == k
  }

  lemma ReturnedIn(a: seq<AlertRow>, b: seq<AlertRow>, k: Key)
    ensures Returned(a + b, k) <==> Returned(a, k) || Returned(b, k)
  {
    if Returned(a, k) {
      var i :| 0 <= i < |a| && KeyOf(a[i]) == k;
      assert (a + b)[i] == a[i];
    }
    if Returned(b, k) {
      var i :| 0 <= i < |b| && KeyOf(b[i]) == k;
      assert (a + b)[|a| + i] == b[i];
    }
  }

  /** A row that is present and matches at every page of a finished walk is returned. */
  lemma {:induction false} WalkMissesNothing(c: Codec, ts: seq<Table>, q: Query, k: Key)
    requires Usable(c, q) && AllOk(ts) && RoundTrips(c, q.start, q.end) && Finished(c, ts, q)
    requires forall i :: 0 <= i < |ts| ==> Present(ts[i], q, k)
    requires CursorOf(c, q).Some? ==> Before(q.order, CursorOf(c, q).value, k)
    ensures Returned(Walk(c, ts, q), k)
  {
    hide Fetch, PageOf, TableOk, Matches, CheckedCursor, CheckedRange, StrictlySorted, RoundTrips, Before, Returned;
    PageCovers(c, ts[0], q);
    var page := PageOf(c, ts[0], q);
    assert Present(ts[0], q, k);
    var r :| r in ts[0].rows && KeyOf(r) == k && Matches(r, q);
    assert Wanted(r, q, CursorOf(c, q));
    if r in page.items {
      ItemReturned(page.items, r);
    } else {
      var q' := Continue(q, page.next);
      forall i | 0 <= i < |ts[1..]| ensures Present(ts[1..][i], q', k) {
        PresentContinues(ts[i + 1], q, k, page.next);
      }
      WalkMissesNothing(c, ts[1..], q', k);
    }
    ReturnedIn(page.items, if page.next.None? then [] else Walk(c, ts[1..], Continue(q, page.next)), k);
  }

  lemma ItemReturned(items: seq<AlertRow>, r: AlertRow)
    requires r in items
    ensures Returned(items, KeyOf(r))
  {
  }

  lemma PresentContinues(t: Table, q: Query, k: Key, next: Option<string>)
    requires Present(t, q, k)
    ensures Present(t, Continue(q, next), k)
  {
    var r :| r in t.rows && KeyOf(r) == k && Matches(r, q);
    assert Matches(r, Continue(q, next));
  }

  /** ... and it is returned exactly once. */
  lemma ReturnedOnce(c: Codec, ts: seq<Table>, q: Query, i: nat, j: nat)
    requires Usable(c, q) && AllOk(ts) && RoundTrips(c, q.start, q.end)
    requires i < |Walk(c, ts, q)| && j < |Walk(c, ts, q)|
    ensures KeyOf(Walk(c, ts, q)[i]) == KeyOf(Walk(c, ts, q)[j]) <==> i == j
  {
    hide Walk, Usable;
    WalkIsStrictlySorted(c, ts, q);
  }

  /** Only rows that matched when their page was read are returned. */
  lemma {:induction false} WalkReturnsOnlyMatches(c: Codec, ts: seq<Table>, q: Query, i: nat)
    requires Usable(c, q) && AllOk(ts) && RoundTrips(c, q.start, q.end) && i < |Walk(c, ts, q)|
    ensures exists k :: 0 <= k < |ts| && Walk(c, ts, q)[i] in ts[k].rows && Matches(Walk(c, ts, q)[i], q)
  {
    hide Fetch, PageOf, TableOk, Matches, CheckedCursor, CheckedRange, StrictlySorted, RoundTrips, Before;
    PageCovers(c, ts[0], q);
    var page := PageOf(c, ts[0], q);
    if i < |page.items| {
      assert page.items[i] in page.items;
      assert Walk(c, ts, q)[i] in ts[0].rows;
    } else {
      var q' := Continue(q, page.next);
      WalkReturnsOnlyMatches(c, ts[1..], q', i - |page.items|);
      var r := Walk(c, ts, q)[i];
      var k :| 0 <= k < |ts[1..]| && r in ts[1..][k].rows && Matches(r, q');
      MatchesContinues(r, q, page.next);
      assert r in ts[k + 1].rows;
    }
  }

  lemma MatchesContinues(r: AlertRow, q: Query, next: Option<string>)
    ensures Matches(r, Continue(q, next)) == Matches(r, q)
  {
  }

  // ----- Termination --------------------------------------------------------

  function WantedRows(t: Table, q: Query, cursor: Option<Key>): set<AlertRow> {
    set r | r in t.rows && Wanted(r, q, cursor)
  }

  lemma FirstIsNotInRest(order: Order, rows: seq<AlertRow>)
    requires StrictlySorted(order, rows) && rows != []
    ensures StrictlySorted(order, rows[1..]) && rows[0] !in rows[1..]
  {
    hide Before, KeyOf;
    var rest := rows[1..];
    forall i | 0 <= i < |rest| ensures rest[i] != rows[0] {
      assert Before(order, KeyOf(rows[0]), KeyOf(rows[i + 1]));
      BeforeIsIrreflexive(order, KeyOf(rows[0]));
    }
  }

  lemma {:induction false} SortedHaveDistinctItems(order: Order, rows: seq<AlertRow>)
    requires StrictlySorted(order, rows)
    ensures |set r | r in rows| == |rows|
  {
    hide StrictlySorted;
    if rows != [] {
      var rest := rows[1..];
      assert rows == [rows[0]] + rest;
      FirstIsNotInRest(order, rows);
      SortedHaveDistinctItems(order, rest);
      assert (set r | r in rows) == {rows[0]} + set r | r in rest;
    }
  }

  /** A full page takes its rows out of what is still wanted. */
  lemma PageShrinksWanted(c: Codec, t: Table, q: Query, page: Page)
    requires Covers(c, t, q, page) && page.next.Some? && page.items != []
    ensures var q' := Continue(q, page.next);
            |WantedRows(t, q', CursorOf(c, q'))| + q.limit <= |WantedRows(t, q, CursorOf(c, q))|
  {
    hide Matches, CheckedCursor, CheckedRange, StrictlySorted;
    var q' := Continue(q, page.next);
    var last := KeyOf(page.items[|page.items| - 1]);
    var items := set r | r in page.items;
    SortedHaveDistinctItems(q.order, page.items);
    ItemsUpToLast(q.order, page.items);
    ItemsAfterCursor(c, t, q, page);
    var left, all := WantedRows(t, q', CursorOf(c, q')), WantedRows(t, q, CursorOf(c, q));
    forall r | r in left ensures r in all && r !in items {
      MatchesContinues(r, q, page.next);
      if CursorOf(c, q).Some? {
        BeforeIsTransitive(q.order, CursorOf(c, q).value, last, KeyOf(r));
      }
      BeforeIsTotal(q.order, last, KeyOf(r));
    }
    assert left !! items && left + items <= all;
    SubsetSize(left + items, all);
  }

  lemma {:induction false} SubsetSize<T>(a: set<T>, b: set<T>)
    requires a <= b
    ensures |a| <= |b|
  {
    assert b == a + (b - a);
  }

  lemma ItemsUpToLast(order: Order, items: seq<AlertRow>)
    requires StrictlySorted(order, items) && items != []
    ensures forall r :: r in items ==> !Before(order, KeyOf(items[|items| - 1]), KeyOf(r))
  {
    hide Before;
    forall r | r in items ensures !Before(order, KeyOf(items[|items| - 1]), KeyOf(r)) {
      var i :| 0 <= i < |items| && items[i] == r;
      BeforeIsTotal(order, KeyOf(items[i]), KeyOf(items[|items| - 1]));
      BeforeIsIrreflexive(order, KeyOf(r));
    }
  }

  lemma BeforeIsIrreflexive(order: Order, k: Key)
    ensures !Before(order, k, k)
  {
  }

  /** While nothing is saved, a walk ends within as many pages as the wanted rows fill. */
  lemma {:induction false} WalkEnds(c: Codec, ts: seq<Table>, q: Query)
    requires Usable(c, q) && RoundTrips(c, q.start, q.end) && ts != [] && TableOk(ts[0])
    requires forall i :: 0 <= i < |ts| ==> ts[i] == ts[0]
    requires |ts| * q.limit >= |WantedRows(ts[0], q, CursorOf(c, q))|
    ensures Finished(c, ts, q)
  {
    hide Fetch, PageOf, TableOk, Wanted, CheckedCursor, CheckedRange, StrictlySorted, RoundTrips, WantedRows;
    PageCovers(c, ts[0], q);
    var page := PageOf(c, ts[0], q);
    if page.next.Some? {
      PageShrinksWanted(c, ts[0], q, page);
      if |ts| == 1 {
        LastPageIsLast(c, ts[0], q);
      } else {
        assert (|ts| - 1) * q.limit == |ts| * q.limit - q.limit;
        WalkEnds(c, ts[1..], Continue(q, page.next));
      }
    }
  }

  /** Rows are never removed and keep their keys, as saving does. */
  ghost predicate OnlySaves(ts: seq<Table>) {
    forall i, j :: 0 <= i <= j < |ts| ==> forall k :: HasKey(ts[i].rows, k) ==> HasKey(ts[j].rows, k)
  }

  ghost predicate HasKey(rows: seq<AlertRow>, k: Key) {
    exists r :: r in rows && KeyOf(r) == k
  }

  /** Every page of an unfinished walk was full. */
  lemma {:induction false} UnfinishedWalkIsLong(c: Codec, ts: seq<Table>, q: Query)
    requires Usable(c, q) && AllOk(ts) && RoundTrips(c, q.start, q.end) && !Finished(c, ts, q)
    ensures |Walk(c, ts, q)| >= |ts| * q.limit
  {
    hide Fetch, PageOf, TableOk, Wanted, CheckedCursor, CheckedRange, StrictlySorted, RoundTrips;
    if ts != [] {
      PageCovers(c, ts[0], q);
      var page := PageOf(c, ts[0], q);
      UnfinishedWalkIsLong(c, ts[1..], Continue(q, page.next));
      assert |ts| * q.limit == q.limit + (|ts| - 1) * q.limit;
    }
  }

  function KeysOf(rows: seq<AlertRow>): set<Key> {
    set r | r in rows :: KeyOf(r)
  }

  lemma {:induction false} FewerKeysThanRows(rows: seq<AlertRow>)
    ensures |KeysOf(rows)| <= |rows|
  {
    if rows != [] {
      var n := |rows| - 1;
      FewerKeysThanRows(rows[..n]);
      assert rows == rows[..n] + [rows[n]];
      assert KeysOf(rows) == KeysOf(rows[..n]) + {KeyOf(rows[n])};
    }
  }

  lemma {:induction false} DistinctRowsHaveDistinctKeys(rows: seq<AlertRow>)
    requires forall i, j :: 0 <= i < j < |rows| ==> KeyOf(rows[i]) != KeyOf(rows[j])
    ensures |KeysOf(rows)| == |rows|
  {
    if rows != [] {
      var n := |rows| - 1;
      DistinctRowsHaveDistinctKeys(rows[..n]);
      assert rows == rows[..n] + [rows[n]];
      assert KeysOf(rows) == KeysOf(rows[..n]) + {KeyOf(rows[n])};
      assert forall r :: r in rows[..n] ==> KeyOf(r) != KeyOf(rows[n]);
    }
  }

  /**
   * With rows saved between the pages a walk still ends: after so many pages that they could hold more rows
   * than the table has by then, it is finished.
   */
  lemma WalkEndsUnderSaves(c: Codec, ts: seq<Table>, q: Query)
    requires Usable(c, q) && AllOk(ts) && RoundTrips(c, q.start, q.end) && ts != [] && OnlySaves(ts)
    requires |ts| * q.limit > |ts[|ts| - 1].rows|
    ensures Finished(c, ts, q)
  {
    hide Usable, TableOk, RoundTrips, Walk, Finished, KeyOf;
    if !Finished(c, ts, q) {
      UnfinishedWalkIsLong(c, ts, q);
      var walk, last := Walk(c, ts, q), ts[|ts| - 1].rows;
      forall i, j | 0 <= i < j < |walk| ensures KeyOf(walk[i]) != KeyOf(walk[j]) {
        ReturnedOnce(c, ts, q, i, j);
      }
      DistinctRowsHaveDistinctKeys(walk);
      FewerKeysThanRows(last);
      forall k | k in KeysOf(walk) ensures k in KeysOf(last) {
        var r :| r in walk && KeyOf(r) == k;
        var i :| 0 <= i < |walk| && walk[i] == r;
        WalkReturnsOnlyMatches(c, ts, q, i);
        var t :| 0 <= t < |ts| && walk[i] in ts[t].rows && Matches(walk[i], q);
        assert HasKey(ts[t].rows, k);
        assert HasKey(last, k);
      }
      SubsetSize(KeysOf(walk), KeysOf(last));
      assert false;
    }
  }

  lemma LastPageIsLast(c: Codec, t: Table, q: Query)
    requires Usable(c, q) && TableOk(t) && |WantedRows(t, q, CursorOf(c, q))| <= q.limit
    ensures Fetch(c, t, q).Ok? && PageOf(c, t, q).next.None?
  {
    hide Fetch, PageOf, TableOk, Wanted, CheckedCursor, CheckedRange, StrictlySorted, Candidates;
    PageIsCut(c, t, q);
    var all := Candidates(t, q, CursorOf(c, q));
    CandidatesAreWanted(t, q, CursorOf(c, q));
    SortedHaveDistinctItems(q.order, all);
    assert (set r | r in all) == WantedRows(t, q, CursorOf(c, q));
  }
}
