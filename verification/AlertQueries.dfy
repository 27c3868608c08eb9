/** What a query of the alert table answers: which rows, in which order, and when it is refused. */
module AlertQueries {
  import opened Wrappers
  import opened Correlator
  import opened AlertRows
  import opened AlertStore
  import opened Pagination

  // ----- One row --------------------------------------------------------------

  /** A row is found exactly by its own id and creation time. */
  lemma RowIsFound(t: Table, id: nat, createdAt: int, r: AlertRow)
    requires TableOk(t)
    ensures GetRow(t, id, createdAt) == Some(r) <==> r in t.rows && r.id == id && r.createdAt == createdAt
    ensures GetRow(t, id, createdAt).None? <==> forall x :: x in t.rows ==> x.id != id || x.createdAt != createdAt
  {
    hide FindRow;
    if 1 <= id <= |t.rows| {
      FindRowIs(t, id);
    } else {
      NoSuchRow(t, id);
    }
  }

  lemma NoSuchRow(t: Table, id: nat)
    requires TableOk(t) && !(1 <= id <= |t.rows|)
    ensures FindRow(t.rows, id).None?
  {
  }

  // ----- What a query asks for ------------------------------------------------

  /** The row lies in the range and passes each filter that names anything. */
  predicate Passes(q: Query, r: AlertRow) {
    && q.start <= r.createdAt && r.createdAt < q.end
    && (q.severity == {} || r.columns.severity in q.severity)
    && (q.status == {} || r.columns.status in q.status)
    && (q.family == {} || r.columns.family in q.family)
    && (q.entityId == None || q.entityId == Some(r.columns.entityId))
    && (match q.minScore case None => true case Some(least) => least <= r.columns.score)
  }

  /** Created earlier, or at the same time with the smaller id. */
  predicate Older(a: Key, b: Key) {
    a.createdAt < b.createdAt || (a.createdAt == b.createdAt && a.id < b.id)
  }

  /** Ascending answers go from old to new, descending ones from new to old. */
  predicate ComesFirst(order: Order, a: Key, b: Key) {
    if order == Asc then Older(a, b) else Older(b, a)
  }

  /** The row passes, and comes after the cursor if there is one. */
  predicate IsWanted(q: Query, cursor: Option<Key>, r: AlertRow) {
    Passes(q, r) && (cursor.Some? ==> ComesFirst(q.order, cursor.value, KeyOf(r)))
  }

  lemma WantedExactly(q: Query, cursor: Option<Key>)
    ensures forall r :: Wanted(r, q, cursor) <==> IsWanted(q, cursor, r)
    ensures forall r :: Matches(r, q) <==> Passes(q, r)
    ensures forall a, b :: Before(q.order, a, b) <==> ComesFirst(q.order, a, b)
  {
  }

  /**
   * A query is refused exactly for an empty or inverted range, one of more than ninety-two days, or a cursor
   * that cannot be read.
   */
  lemma RefusedExactly(c: Codec, t: Table, q: Query)
    ensures Fetch(c, t, q).Err?
            <==> q.end <= q.start || q.end - q.start > 92 * 24 * 3600 * 1_000_000
                 || (q.cursor.Some? && c.decode(q.cursor.value).Err?)
    ensures q.cursor.Some? && Fetch(c, t, q).Ok? ==> c.decode(q.cursor.value).Ok?
  {
    hide Sort, Select;
  }

  /** Where a query starts: after the key its cursor says. */
  function StartsAfter(c: Codec, q: Query): Option<Key> {
    if q.cursor.Some? && c.decode(q.cursor.value).Ok? then Some(c.decode(q.cursor.value).value) else None
  }

  /** Some rows of the table, each wanted, in the order of the query. */
  ghost predicate InOrder(c: Codec, t: Table, q: Query, rows: seq<AlertRow>) {
    && (forall i :: 0 <= i < |rows| ==> rows[i] in t.rows && IsWanted(q, StartsAfter(c, q), rows[i]))
    && (forall i, j :: 0 <= i < j < |rows| ==> ComesFirst(q.order, KeyOf(rows[i]), KeyOf(rows[j])))
  }

  /** A wanted row of the table that comes after all of these. */
  ghost predicate LeftOut(c: Codec, t: Table, q: Query, rows: seq<AlertRow>, r: AlertRow) {
    && r in t.rows && IsWanted(q, StartsAfter(c, q), r) && r !in rows
    && forall i :: 0 <= i < |rows| ==> ComesFirst(q.order, KeyOf(rows[i]), KeyOf(r))
  }

  lemma CandidatesInOrder(c: Codec, t: Table, q: Query)
    requires TableOk(t) && Usable(c, q)
    ensures var all := Candidates(t, q, CursorOf(c, q));
            && InOrder(c, t, q, all)
            && forall r :: r in all <==> r in t.rows && IsWanted(q, StartsAfter(c, q), r)
  {
    hide Candidates, TableOk, Wanted, IsWanted, Before, ComesFirst, CheckedRange, Matches, Passes;
    CandidatesAreWanted(t, q, CursorOf(c, q));
    WantedExactly(q, CursorOf(c, q));
    var all := Candidates(t, q, CursorOf(c, q));
    assert forall i :: 0 <= i < |all| ==> all[i] in all;
  }

  lemma CutInOrder(c: Codec, t: Table, q: Query, all: seq<AlertRow>, n: nat)
    requires InOrder(c, t, q, all) && n <= |all|
    ensures InOrder(c, t, q, all[..n])
    ensures forall r :: r in all && r !in all[..n] ==> LeftOut(c, t, q, all[..n], r)
    ensures n < |all| ==> LeftOut(c, t, q, all[..n], all[n])
  {
    hide IsWanted, ComesFirst;
    forall r | r in all && r !in all[..n] ensures LeftOut(c, t, q, all[..n], r) {
      assert all == all[..n] + all[n..];
      var i :| 0 <= i < |all| - n && all[n..][i] == r;
    }
    if n < |all| {
      forall i | 0 <= i < n ensures all[i] != all[n] {
        NotItself(q.order, KeyOf(all[n]));
        assert ComesFirst(q.order, KeyOf(all[i]), KeyOf(all[n]));
      }
    }
  }

  lemma NotItself(order: Order, k: Key)
    ensures !ComesFirst(order, k, k)
  {
  }

  /**
   * One page of a query: the first wanted rows after its cursor, up to the limit, in order; and a cursor for the
   * last of them exactly when a wanted row was left out, each of which then comes later.
   */
  lemma PageIsExact(c: Codec, t: Table, q: Query)
    requires TableOk(t) && Usable(c, q)
    ensures Fetch(c, t, q).Ok?
    ensures var page := PageOf(c, t, q);
            && InOrder(c, t, q, page.items) && |page.items| <= q.limit
            && (forall r :: r in t.rows && IsWanted(q, StartsAfter(c, q), r) ==>
                  r in page.items || (|page.items| == q.limit && LeftOut(c, t, q, page.items, r)))
            && (page.next.Some? <==> exists r :: LeftOut(c, t, q, page.items, r))
            && (page.next.Some? ==> page.items != [] && page.next.value == c.encode(KeyOf(page.items[|page.items| - 1])))
  {
    hide Fetch, PageOf, Candidates, TableOk, IsWanted, ComesFirst, CheckedRange, InOrder, LeftOut, StartsAfter;
    PageIsCut(c, t, q);
    CandidatesInOrder(c, t, q);
    var all, page := Candidates(t, q, CursorOf(c, q)), PageOf(c, t, q);
    if |all| <= q.limit {
      CutInOrder(c, t, q, all, |all|);
      assert all[..|all|] == all;
      forall r ensures !LeftOut(c, t, q, page.items, r) {
        LeftOutMeans(c, t, q, page.items, r);
      }
    } else {
      CutInOrder(c, t, q, all, q.limit);
    }
  }

  lemma LeftOutMeans(c: Codec, t: Table, q: Query, rows: seq<AlertRow>, r: AlertRow)
    ensures LeftOut(c, t, q, rows, r) ==> r in t.rows && IsWanted(q, StartsAfter(c, q), r) && r !in rows
  {
  }

  // ----- A whole walk -----------------------------------------------------------

  /** The rows of a walk go from old to new, or from new to old, whatever is saved between its pages. */
  lemma WalkIsInTimeOrder(c: Codec, ts: seq<Table>, q: Query, i: nat, j: nat)
    requires Usable(c, q) && AllOk(ts) && RoundTrips(c, q.start, q.end)
    requires i < j < |Walk(c, ts, q)|
    ensures var a, b := Walk(c, ts, q)[i], Walk(c, ts, q)[j];
            match q.order
            case Asc => a.createdAt < b.createdAt || (a.createdAt == b.createdAt && a.id < b.id)
            case Desc => a.createdAt > b.createdAt || (a.createdAt == b.createdAt && a.id > b.id)
  {
    hide Walk, RoundTrips, AllOk, Usable;
    WalkIsStrictlySorted(c, ts, q);
  }
}
