/** The in-memory alert store as it runs: row objects refreshed in place. */
module AlertStoreService {
  import opened Wrappers
  import opened Correlator
  import opened AlertRows
  import opened AlertStore

  /** One stored row; only its writable columns change. */
  class AlertRecord {
    const id: nat
    const createdAt: int
    var columns: Columns

    constructor (id: nat, createdAt: int, columns: Columns)
      ensures this.id == id && this.createdAt == createdAt && this.columns == columns
    {
      this.id, this.createdAt, this.columns := id, createdAt, columns;
    }

    function Value(): AlertRow
      reads this
    {
      AlertRow(id, createdAt, columns)
    }
  }

  class InMemoryAlertStore {
    var rows: seq<AlertRecord>
    var caseIds: map<CaseId, nat>
    var nextId: nat

    function RowValues(): (s: seq<AlertRow>)
      reads this, rows
      ensures |s| == |rows| && forall k :: 0 <= k < |rows| ==> s[k] == rows[k].Value()
    {
      seq(|rows|, k requires 0 <= k < |rows| reads this, rows => rows[k].Value())
    }

    function State(): Table
      reads this, rows
    {
      Table(RowValues(), caseIds, nextId)
    }

    ghost predicate Distinct()
      reads this
    {
      forall i, j :: 0 <= i < j < |rows| ==> rows[i] != rows[j]
    }

    constructor ()
      ensures State() == EMPTY_TABLE && Distinct()
    {
      rows, caseIds, nextId := [], map[], 1;
    }

    /** The record with an id: the first one found in a scan. */
    method Find(id: nat) returns (i: Option<nat>)
      ensures i == FindRow(RowValues(), id)
      ensures i.Some? ==> i.value < |rows| && rows[i.value].id == id
    {
      var k := 0;
      while k < |rows| && rows[k].id != id
        invariant k <= |rows| && forall j :: 0 <= j < k ==> rows[j].id != id
      {
        k := k + 1;
      }
      i := if k < |rows| then Some(k) else None;
      FirstIs(RowValues(), id, i);
    }

    /** Refresh the row of a case in place, or append a new one. */
    method Save(caseId: CaseId, columns: Columns, createdAt: int) returns (row: AlertRecord)
      requires Distinct()
      modifies this, rows
      ensures Distinct() && row in rows && old(rows) <= rows
      ensures (State(), row.Value()) == SaveRow(old(State()), caseId, columns, createdAt)
    {
      if caseId in caseIds {
        var i := Find(caseIds[caseId]);
        if i.Some? {
          row := rows[i.value];
          row.columns := Normalise(columns);
          assert RowValues() == old(RowValues())[i.value := row.Value()];
          return;
        }
      }
      row := new AlertRecord(nextId, createdAt, Normalise(columns));
      caseIds := caseIds[caseId := nextId];
      nextId := nextId + 1;
      rows := rows + [row];
      assert RowValues() == old(RowValues()) + [row.Value()];
    }

    method Get(id: nat, createdAt: int) returns (row: Option<AlertRecord>)
      ensures (match row case None => None case Some(r) => Some(r.Value())) == GetRow(State(), id, createdAt)
    {
      var i := Find(id);
      row := if i.Some? && rows[i.value].createdAt == createdAt then Some(rows[i.value]) else None;
    }

    /** Apply the query's predicates, order and cursor to the stored rows. */
    method FetchPage(c: Codec, q: Query) returns (r: Result<seq<AlertRow>, string>)
      ensures r == Fetch(c, State(), q)
    {
      var range := CheckedRange(q.start, q.end);
      if range.Err? {
        return Err(range.error);
      }
      var cursor := CheckedCursor(c, q);
      if cursor.Err? {
        return Err(cursor.error);
      }
      var matching: seq<AlertRow> := [];
      ghost var all := RowValues();
      for k := 0 to |rows|
        invariant matching == Select(all[..k], q, cursor.value)
      {
        assert all[..k + 1][..k] == all[..k] && all[k] == rows[k].Value();
        if Wanted(rows[k].Value(), q, cursor.value) {
          matching := matching + [rows[k].Value()];
        }
      }
      assert all[..|rows|] == all;
      var sorted := Sort(q.order, matching);
      r := Ok(if |sorted| <= q.limit then sorted else sorted[..q.limit + 1]);
    }
  }

  lemma FirstIs(rows: seq<AlertRow>, id: nat, i: Option<nat>)
    requires i.None? ==> forall k :: 0 <= k < |rows| ==> rows[k].id != id
    requires i.Some? ==> i.value < |rows| && rows[i.value].id == id && forall k :: 0 <= k < i.value ==> rows[k].id != id
    ensures i == FindRow(rows, id)
  {
  }
}
