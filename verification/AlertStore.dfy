/** The alert table: one row per case, replaced in place, and the keyset query over it. */
module AlertStore {
  import opened Wrappers
  import opened Correlator
  import opened AlertRows

  // ----- The table ----------------------------------------------------------

  datatype Table = Table(rows: seq<AlertRow>, caseIds: map<CaseId, nat>, nextId: nat)

  const EMPTY_TABLE := Table([], map[], 1)

  /** The position of the row with an id: the first one found. */
  function FindRow(rows: seq<AlertRow>, id: nat): (i: Option<nat>)
    ensures i.None? ==> forall k :: 0 <= k < |rows| ==> rows[k].id != id
    ensures i.Some? ==> i.value < |rows| && rows[i.value].id == id && forall k :: 0 <= k < i.value ==> rows[k].id != id
  {
    if rows == [] then None
    else if rows[0].id == id then Some(0)
    else
      var i := FindRow(rows[1..], id);
      assert forall k :: 1 <= k < |rows| ==> rows[k] == rows[1..][k - 1];
      if i.None? then None else Some(i.value + 1)
  }

  /** Store or refresh the row of one case. */
  function SaveRow(t: Table, caseId: CaseId, columns: Columns, createdAt: int): (Table, AlertRow) {
    var i := if caseId in t.caseIds then FindRow(t.rows, t.caseIds[caseId]) else None;
    if i.Some? then
      var row := t.rows[i.value].(columns := Normalise(columns));
      (t.(rows := t.rows[i.value := row]), row)
    else
      var row := AlertRow(t.nextId, createdAt, Normalise(columns));
      (Table(t.rows + [row], t.caseIds[caseId := t.nextId], t.nextId + 1), row)
  }

  ghost predicate HasCase(t: Table, rowId: nat) {
    exists id :: id in t.caseIds && t.caseIds[id] == rowId
  }

  /** Rows are numbered from one in order, and each is the row of exactly one case. */
  ghost predicate TableOk(t: Table) {
    && t.nextId == |t.rows| + 1
    && (forall k :: 0 <= k < |t.rows| ==> t.rows[k].id == k + 1)
    && (forall id :: id in t.caseIds ==> 1 <= t.caseIds[id] <= |t.rows|)
    && (forall a, b :: a in t.caseIds && b in t.caseIds && t.caseIds[a] == t.caseIds[b] ==> a == b)
    && (forall k :: 1 <= k <= |t.rows| ==> HasCase(t, k))
  }

  /** The row of a case. */
  function RowOf(t: Table, caseId: CaseId): AlertRow
    requires TableOk(t) && caseId in t.caseIds
  {
    t.rows[t.caseIds[caseId] - 1]
  }

  /** Whatever else happens, a row keeps its place, its id and its creation time. */
  ghost predicate Evolved(t: Table, t': Table) {
    && |t.rows| <= |t'.rows|
    && forall k :: 0 <= k < |t.rows| ==> t'.rows[k].id == t.rows[k].id && t'.rows[k].createdAt == t.rows[k].createdAt
  }

  lemma FindRowIs(t: Table, id: nat)
    requires TableOk(t) && 1 <= id <= |t.rows|
    ensures FindRow(t.rows, id) == Some(id - 1)
  {
    assert t.rows[id - 1].id == id;
  }

  /** A save changed one row: the case's own, new or refreshed. */
  ghost predicate Saved(t: Table, t': Table, row: AlertRow, caseId: CaseId, columns: Columns, createdAt: int)
    requires TableOk(t) && TableOk(t')
  {
    && Evolved(t, t')
    && t'.caseIds.Keys == t.caseIds.Keys + {caseId}
    && RowOf(t', caseId) == row && row.columns == Normalise(columns)
    && (caseId in t.caseIds ==> row.id == t.caseIds[caseId] && row.createdAt == RowOf(t, caseId).createdAt
                                && |t'.rows| == |t.rows|)
    && (caseId !in t.caseIds ==> row.createdAt == createdAt && |t'.rows| == |t.rows| + 1)
    && (forall id :: id in t.caseIds && id != caseId ==> RowOf(t', id) == RowOf(t, id))
  }

  lemma RefreshEffect(t: Table, caseId: CaseId, columns: Columns, createdAt: int)
    requires TableOk(t) && caseId in t.caseIds
    ensures var (t', row) := SaveRow(t, caseId, columns, createdAt);
            TableOk(t') && Saved(t, t', row, caseId, columns, createdAt)
  {
    hide FindRow, Normalise;
    FindRowIs(t, t.caseIds[caseId]);
    var (t', row) := SaveRow(t, caseId, columns, createdAt);
    forall k | 1 <= k <= |t'.rows| ensures HasCase(t', k) {
      assert HasCase(t, k);
    }
  }

  lemma AddEffect(t: Table, caseId: CaseId, columns: Columns, createdAt: int)
    requires TableOk(t) && caseId !in t.caseIds
    ensures var (t', row) := SaveRow(t, caseId, columns, createdAt);
            TableOk(t') && Saved(t, t', row, caseId, columns, createdAt)
  {
    hide FindRow, Normalise;
    var (t', row) := SaveRow(t, caseId, columns, createdAt);
    forall k | 1 <= k <= |t'.rows| ensures HasCase(t', k) {
      if k <= |t.rows| {
        assert HasCase(t, k);
        var id :| id in t.caseIds && t.caseIds[id] == k;
        assert t'.caseIds[id] == k;
      } else {
        assert t'.caseIds[caseId] == k;
      }
    }
  }

  /** Saving refreshes the case's own row or adds one, and touches no other row. */
  lemma SaveRowEffect(t: Table, caseId: CaseId, columns: Columns, createdAt: int)
    requires TableOk(t)
    ensures var (t', row) := SaveRow(t, caseId, columns, createdAt);
            TableOk(t') && Saved(t, t', row, caseId, columns, createdAt)
  {
    hide SaveRow;
    if caseId in t.caseIds {
      RefreshEffect(t, caseId, columns, createdAt);
    } else {
      AddEffect(t, caseId, columns, createdAt);
    }
  }

  function GetRow(t: Table, id: nat, createdAt: int): Option<AlertRow> {
    var i := FindRow(t.rows, id);
    if i.Some? && t.rows[i.value].createdAt == createdAt then Some(t.rows[i.value]) else None
  }

  // ----- Queries ------------------------------------------------------------

  datatype Order = Desc | Asc

  datatype Key = Key(createdAt: int, id: int)

  function KeyOf(r: AlertRow): Key {
    Key(r.createdAt, r.id)
  }

  predicate KeyLess(a: Key, b: Key) {
    a.createdAt < b.createdAt || (a.createdAt == b.createdAt && a.id < b.id)
  }

  /** Whether one key comes before another in the order of a query. */
  predicate Before(order: Order, a: Key, b: Key) {
    match order
    case Asc => KeyLess(a, b)
    case Desc => KeyLess(b, a)
  }

  datatype Query = Query(
    start: int,
    end: int,
    severity: set<Severity>,
    status: set<Status>,
    family: set<string>,
    entityId: Option<int>,
    minScore: Option<real>,
    order: Order,
    limit: nat,
    cursor: Option<string>)
  {
    predicate Valid() {
      1 <= limit <= 1000
    }
  }

  /** A cursor is text; what it says is the business of the codec. */
  datatype Codec = Codec(encode: Key -> string, decode: string -> Result<Key, string>)

  /** Reading a cursor inverts writing it for every key whose time lies in a range. */
  ghost predicate RoundTrips(c: Codec, start: int, end: int) {
    forall k: Key :: start <= k.createdAt < end ==> c.decode(c.encode(k)) == Ok(k)
  }

  const MAX_QUERY_SPAN := 92 * 86_400_000_000

  function CheckedRange(start: int, end: int): Result<(int, int), string> {
    if end <= start then Err("the range is empty or inverted")
    else if end - start > MAX_QUERY_SPAN then Err("the range spans too many days")
    else Ok((start, end))
  }

  function CheckedCursor(c: Codec, q: Query): Result<Option<Key>, string> {
    if q.cursor.None? then Ok(None)
    else
      match c.decode(q.cursor.value)
      case Ok(k) => Ok(Some(k))
      case Err(e) => Err(e)
  }

  /** An empty filter set narrows nothing. */
  predicate Matches(r: AlertRow, q: Query) {
    && q.start <= r.createdAt < q.end
    && (q.severity != {} ==> r.columns.severity in q.severity)
    && (q.status != {} ==> r.columns.status in q.status)
    && (q.family != {} ==> r.columns.family in q.family)
    && (q.entityId.Some? ==> r.columns.entityId == q.entityId.value)
    && (q.minScore.Some? ==> r.columns.score >= q.minScore.value)
  }

  predicate Wanted(r: AlertRow, q: Query, cursor: Option<Key>) {
    Matches(r, q) && (cursor.Some? ==> Before(q.order, cursor.value, KeyOf(r)))
  }

  function Select(rows: seq<AlertRow>, q: Query, cursor: Option<Key>): seq<AlertRow> {
    if rows == [] then []
    else Select(rows[..|rows| - 1], q, cursor) + if Wanted(rows[|rows| - 1], q, cursor) then [rows[|rows| - 1]] else []
  }

  function Insert(order: Order, r: AlertRow, sorted: seq<AlertRow>): seq<AlertRow> {
    if sorted == [] || Before(order, KeyOf(r), KeyOf(sorted[0])) then [r] + sorted
    else [sorted[0]] + Insert(order, r, sorted[1..])
  }

  function Sort(order: Order, rows: seq<AlertRow>): seq<AlertRow> {
    if rows == [] then [] else Insert(order, rows[0], Sort(order, rows[1..]))
  }

  /** Up to one row more than the limit, in the order of the query. */
  function Fetch(c: Codec, t: Table, q: Query): Result<seq<AlertRow>, string> {
    var range := CheckedRange(q.start, q.end);
    var cursor := CheckedCursor(c, q);
    if range.Err? then Err(range.error)
    else if cursor.Err? then Err(cursor.error)
    else
      var rows := Sort(q.order, Select(t.rows, q, cursor.value));
      Ok(if |rows| <= q.limit then rows else rows[..q.limit + 1])
  }

  datatype Page = Page(items: seq<AlertRow>, next: Option<string>)

  /** A page of fetched rows, with a cursor only if there is more. */
  function Paginate(c: Codec, rows: seq<AlertRow>, q: Query): Page {
    var items := if |rows| > q.limit then rows[..q.limit] else rows;
    Page(items, if |rows| > q.limit && items != [] then Some(c.encode(KeyOf(items[|items| - 1]))) else None)
  }
}
