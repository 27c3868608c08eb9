/**
 * From a scored window to an alert row: sink, correlator, writer and stream together.
 *
 * The stream is announced the whole row here; the program hands it the projection of the row that the
 * query API returns.
 */
module Pipeline {
  import opened Wrappers
  import opened Decimal
  import opened Correlator
  import opened CorrelatorStore
  import opened CorrelatorRuns
  import opened AlertRows
  import opened AlertStore
  import AlertStream
  import opened Text

  // ----- Entities and windows -----------------------------------------------

  /** The ids given to entities, in order of first sight. */
  type Registry = map<(string, string), nat>

  function IdFor(r: Registry, kind: string, value: string): (nat, Registry) {
    if (kind, value) in r then (r[(kind, value)], r)
    else (|r| + 1, r[(kind, value) := |r| + 1])
  }

  ghost predicate RegistryOk(r: Registry) {
    && (forall k :: k in r ==> 1 <= r[k] <= |r|)
    && (forall a, b :: a in r && b in r && r[a] == r[b] ==> a == b)
  }

  /** Ids are stable once given, and no two entities share one. */
  lemma IdForIsInjective(r: Registry, kind: string, value: string)
    requires RegistryOk(r)
    ensures var (id, r') := IdFor(r, kind, value);
            && RegistryOk(r') && (kind, value) in r' && r'[(kind, value)] == id
            && (forall k :: k in r ==> k in r' && r'[k] == r[k])
            && (forall k :: k in r' && r'[k] == id ==> k == (kind, value))
  {
    var (id, r') := IdFor(r, kind, value);
    if (kind, value) !in r {
      assert r'.Keys == r.Keys + {(kind, value)};
      assert |r'| == |r'.Keys| && |r| == |r.Keys|;
    }
  }

  /** One scored window: whose it is, where it starts in the log, its score and its close time. */
  datatype Window = Window(
    kind: string,
    key: string,
    firstOffset: nat,
    score: Score,
    closedAt: Option<int>,
    traceparent: Option<string>)

  function IdentityAt(kind: string, key: string, offset: nat): string {
    kind + ":" + key + "@" + Show(offset)
  }

  function IdentityOf(w: Window): string {
    IdentityAt(w.kind, w.key, w.firstOffset)
  }

  lemma IdentityFixesOffset(kind: string, key: string, a: nat, b: nat)
    ensures IdentityAt(kind, key, a) == IdentityAt(kind, key, b) <==> a == b
  {
    hide Show;
    if IdentityAt(kind, key, a) == IdentityAt(kind, key, b) {
      var prefix := kind + ":" + key + "@";
      assert (prefix + Show(a))[|prefix|..] == Show(a);
      assert (prefix + Show(b))[|prefix|..] == Show(b);
      ShowInjective(a, b);
    }
  }

  /** Within one entity, two windows have one identity exactly when they start at one offset. */
  lemma IdentityIsOffset(v: Window, w: Window)
    requires v.kind == w.kind && v.key == w.key
    ensures IdentityOf(v) == IdentityOf(w) <==> v.firstOffset == w.firstOffset
  {
    IdentityFixesOffset(v.kind, v.key, v.firstOffset, w.firstOffset);
  }

  // ----- The path -----------------------------------------------------------

  /** What a deployment injects: the policy, the family labeler, the modality and the model. */
  datatype Context = Context(policy: Policy, familyOf: Window -> string, modality: Modality, model: Option<string>)

  /** The stateful parts of the path, with an observer's note of the announcements and of the detections. */
  datatype Path = Path(
    registry: Registry,
    store: Store,
    table: Table,
    hub: AlertStream.HubValues,
    announced: seq<AlertRow>,
    detected: seq<Event>)

  function DetectionOf(ctx: Context, entity: nat, w: Window, at: int): Detection {
    Detection(entity, ctx.familyOf(w), ctx.modality, w.score, at, IdentityOf(w), ctx.model, w.traceparent)
  }

  /** Write one outcome's row and announce it; a duplicate writes nothing. */
  function Write(path: Path, r: Ingested, now: int): Path {
    if r.action == Duplicate then path
    else
      var (table, row) := SaveRow(path.table, r.after.id, EncodeCase(r.after), now);
      path.(store := r.store,
            table := table,
            hub := AlertStream.Append(path.hub, row),
            announced := path.announced + [row])
  }

  /**
   * One scored window through sink, correlator, writer and stream. A window without a close time is
   * refused before anything changes, a blank family after its entity was given an id.
   */
  function Put(ctx: Context, path: Path, w: Window, now: int): (Path, Option<string>) {
    if w.closedAt.None? then (path, Some("a scored window must carry the close time of its last record"))
    else
      var (entity, registry) := IdFor(path.registry, w.kind, w.key);
      if Blank(ctx.familyOf(w)) then (path.(registry := registry), Some("a detection must name a threat family"))
      else
        var d := DetectionOf(ctx, entity, w, w.closedAt.value);
        var r := Correlate(ctx.policy, path.store, d);
        (Write(path, r, now).(registry := registry, detected := path.detected + [Ingest(d)]), None)
  }

  // ----- The simulation -----------------------------------------------------

  /** The last announcement of a row is the row. */
  ghost predicate LastAnnounced(announced: seq<AlertRow>, row: AlertRow) {
    exists k :: 0 <= k < |announced| && announced[k] == row && forall j :: k < j < |announced| ==> announced[j].id != row.id
  }

  /** The row of a case says what the case says, and so does its last announcement. */
  ghost predicate Mirrors(path: Path, id: CaseId)
    requires TableOk(path.table) && id in path.table.caseIds && id in path.store.cases
  {
    && RowOf(path.table, id).columns == Normalise(EncodeCase(path.store.cases[id]))
    && LastAnnounced(path.announced, RowOf(path.table, id))
  }

  /** Rows and cases are in bijection by case id, and each row encodes its case's current state. */
  ghost predicate Simulates(ctx: Context, path: Path) {
    && Sound(path.store) && TableOk(path.table) && RegistryOk(path.registry)
    && path.table.caseIds.Keys == path.store.cases.Keys
    && (forall id :: id in path.store.cases ==> id in path.table.caseIds && Mirrors(path, id))
    && AlertStream.HubHolds(path.hub, path.announced)
    && path.store == Run(ctx.policy, path.detected).store
  }

  lemma AnnouncedNow(announced: seq<AlertRow>, row: AlertRow)
    ensures LastAnnounced(announced + [row], row)
  {
    assert (announced + [row])[|announced|] == row;
  }

  lemma AnnouncedBefore(announced: seq<AlertRow>, row: AlertRow, other: AlertRow)
    requires LastAnnounced(announced, other) && other.id != row.id
    ensures LastAnnounced(announced + [row], other)
  {
    var k :| 0 <= k < |announced| && announced[k] == other && forall j :: k < j < |announced| ==> announced[j].id != other.id;
    assert (announced + [row])[k] == other;
  }

  lemma RowsOfCasesDiffer(t: Table, a: CaseId, b: CaseId)
    requires TableOk(t) && a in t.caseIds && b in t.caseIds && a != b
    ensures RowOf(t, a).id != RowOf(t, b).id
  {
  }

  lemma WriteMirrors(path: Path, r: Ingested, now: int, d: Detection)
    requires TableOk(path.table) && path.table.caseIds.Keys == path.store.cases.Keys
    requires forall id :: id in path.store.cases ==> id in path.table.caseIds && Mirrors(path, id)
    requires r.action != Duplicate && Records(path.store, r.store, r.after, d)
    ensures var path' := Write(path, r, now);
            && TableOk(path'.table) && path'.store == r.store
            && path'.table.caseIds.Keys == path'.store.cases.Keys
            && (forall id :: id in path'.store.cases ==> id in path'.table.caseIds && Mirrors(path', id))
            && Evolved(path.table, path'.table)
  {
    hide SaveRow, EncodeCase, Normalise, LastAnnounced, TableOk, AlertStream.Append, RowOf, Evolved;
    SaveRowEffect(path.table, r.after.id, EncodeCase(r.after), now);
    var path' := Write(path, r, now);
    var row := SaveRow(path.table, r.after.id, EncodeCase(r.after), now).1;
    AnnouncedNow(path.announced, row);
    forall id | id in path'.store.cases ensures id in path'.table.caseIds && Mirrors(path', id) {
      assert id in path'.store.cases.Keys;
      if id != r.after.id {
        assert id in path.store.cases && Mirrors(path, id);
        RowsOfCasesDiffer(path'.table, id, r.after.id);
        AnnouncedBefore(path.announced, row, RowOf(path.table, id));
      }
    }
  }

  lemma RunExtends(p: Policy, es: seq<Event>, d: Detection)
    ensures Run(p, es + [Ingest(d)]).store == Correlate(p, Run(p, es).store, d).store
  {
    hide Correlate;
    assert (es + [Ingest(d)])[..|es|] == es;
  }

  /** Every window keeps the simulation, whether it is new, repeated or refused. */
  lemma PutKeepsSimulation(ctx: Context, path: Path, w: Window, now: int)
    requires Simulates(ctx, path)
    ensures Simulates(ctx, Put(ctx, path, w, now).0)
    ensures Evolved(path.table, Put(ctx, path, w, now).0.table)
  {
    hide Correlate, Mirrors, Sound, TableOk, RegistryOk, AlertStream.HubHolds, Run, Blank, IdentityOf, Write, IdFor;
    EvolvedReflexive(path.table);
    IdForIsInjective(path.registry, w.kind, w.key);
    RegistryDoesNotMatter(path, IdFor(path.registry, w.kind, w.key).1, path.detected);
    if w.closedAt.Some? && !Blank(ctx.familyOf(w)) {
      var (entity, registry) := IdFor(path.registry, w.kind, w.key);
      var d := DetectionOf(ctx, entity, w, w.closedAt.value);
      var r := Correlate(ctx.policy, path.store, d);
      StepKeepsParts(ctx, path, d, now);
      RunExtends(ctx.policy, path.detected, d);
      RegistryDoesNotMatter(Write(path, r, now), registry, path.detected + [Ingest(d)]);
    }
  }

  lemma EvolvedReflexive(t: Table)
    ensures Evolved(t, t)
  {
  }

  lemma RegistryDoesNotMatter(path: Path, registry: Registry, detected: seq<Event>)
    requires TableOk(path.table)
    ensures forall id :: id in path.table.caseIds && id in path.store.cases ==>
              Mirrors(path.(registry := registry), id) == Mirrors(path, id)
              && Mirrors(path.(registry := registry, detected := detected), id) == Mirrors(path, id)
  {
  }

  lemma StepKeepsParts(ctx: Context, path: Path, d: Detection, now: int)
    requires Simulates(ctx, path)
    ensures var r := Correlate(ctx.policy, path.store, d);
            var path' := Write(path, r, now);
            && path'.store == r.store && Sound(path'.store) && TableOk(path'.table)
            && path'.registry == path.registry && path'.detected == path.detected
            && path'.table.caseIds.Keys == path'.store.cases.Keys
            && (forall id :: id in path'.store.cases ==> id in path'.table.caseIds && Mirrors(path', id))
            && AlertStream.HubHolds(path'.hub, path'.announced)
            && Evolved(path.table, path'.table)
  {
    hide Correlate, Mirrors, AllListed, AllEvidenced, Points, Named, TableOk, AlertStream.HubHolds, AlertStream.Append,
         SaveRow, EncodeCase, Evolved, Run, Records;
    CorrelateEffect(ctx.policy, path.store, d);
    CorrelateKeepsIndexed(ctx.policy, path.store, d);
    CorrelateKeepsNamed(ctx.policy, path.store, d);
    var r := Correlate(ctx.policy, path.store, d);
    EvolvedReflexive(path.table);
    if r.action != Duplicate {
      WriteMirrors(path, r, now, d);
      var row := SaveRow(path.table, r.after.id, EncodeCase(r.after), now).1;
      AlertStream.AppendHolds(path.hub, path.announced, row);
    }
  }

  // ----- Runs ---------------------------------------------------------------

  /** A scored window arrives while the row clock shows a time. */
  datatype Arrival = Arrival(w: Window, now: int)

  function Start(h: AlertStream.HubValues): Path {
    Path(map[], EMPTY_STORE, EMPTY_TABLE, h, [], [])
  }

  function RunPath(ctx: Context, h: AlertStream.HubValues, arrivals: seq<Arrival>): Path {
    if arrivals == [] then Start(h)
    else
      var n := |arrivals| - 1;
      Put(ctx, RunPath(ctx, h, arrivals[..n]), arrivals[n].w, arrivals[n].now).0
  }

  /** After any arrivals, the alert table mirrors the correlator's cases and the stream announced every row as it stands. */
  lemma {:induction false} SimulationHolds(ctx: Context, h: AlertStream.HubValues, arrivals: seq<Arrival>)
    requires AlertStream.HubHolds(h, [])
    ensures Simulates(ctx, RunPath(ctx, h, arrivals))
  {
    hide Put, Simulates;
    if arrivals == [] {
      StartSimulates(ctx, h);
    } else {
      var n := |arrivals| - 1;
      SimulationHolds(ctx, h, arrivals[..n]);
      PutKeepsSimulation(ctx, RunPath(ctx, h, arrivals[..n]), arrivals[n].w, arrivals[n].now);
    }
  }

  lemma StartSimulates(ctx: Context, h: AlertStream.HubValues)
    requires AlertStream.HubHolds(h, [])
    ensures Simulates(ctx, Start(h))
  {
    RunIsSound(ctx.policy, []);
  }

  /** A row's id and creation time never change, and the row of a case stays its row. */
  lemma {:induction false} RowsKeepTheirKeys(ctx: Context, h: AlertStream.HubValues, arrivals: seq<Arrival>, i: nat)
    requires AlertStream.HubHolds(h, []) && i <= |arrivals|
    ensures Evolved(RunPath(ctx, h, arrivals[..i]).table, RunPath(ctx, h, arrivals).table)
    decreases |arrivals|
  {
    hide Put, Simulates, Evolved;
    if i == |arrivals| {
      assert arrivals[..i] == arrivals;
      EvolvedReflexive(RunPath(ctx, h, arrivals).table);
    } else {
      var n := |arrivals| - 1;
      var before := arrivals[..n];
      assert before[..i] == arrivals[..i];
      RowsKeepTheirKeys(ctx, h, before, i);
      SimulationHolds(ctx, h, before);
      PutKeepsSimulation(ctx, RunPath(ctx, h, before), arrivals[n].w, arrivals[n].now);
      EvolvedTransitive(RunPath(ctx, h, arrivals[..i]).table, RunPath(ctx, h, before).table, RunPath(ctx, h, arrivals).table);
    }
  }

  lemma EvolvedTransitive(a: Table, b: Table, c: Table)
    requires Evolved(a, b) && Evolved(b, c)
    ensures Evolved(a, c)
  {
  }

  // ----- Replays ------------------------------------------------------------

  /** The window was accepted before: its entity has an id and its identity is in the replay index. */
  ghost predicate Accepted(path: Path, w: Window) {
    && (w.kind, w.key) in path.registry
    && (path.registry[(w.kind, w.key)] as int, IdentityOf(w)) in path.store.evidence
  }

  /** A window that the sink can turn into a detection. */
  predicate IsAccepted(ctx: Context, w: Window) {
    w.closedAt.Some? && !Blank(ctx.familyOf(w))
  }

  /**
   * A window is refused exactly when it has no close time or its family is blank, and a refusal leaves cases,
   * rows and stream alone; any other window is accepted from then on. An entity is known from its first window
   * with a close time.
   */
  lemma PutAccepts(ctx: Context, path: Path, w: Window, now: int)
    requires Simulates(ctx, path)
    ensures var (path', refused) := Put(ctx, path, w, now);
            && (refused.Some? <==> !IsAccepted(ctx, w))
            && (refused.Some? ==> path' == path.(registry := path'.registry))
            && (w.closedAt.None? ==> path'.registry == path.registry)
            && (w.closedAt.Some? ==> (w.kind, w.key) in path'.registry)
            && (refused.None? ==> Accepted(path', w))
  {
    hide Correlate, Mirrors, AllListed, AllEvidenced, Points, Named, TableOk, AlertStream.HubHolds, AlertStream.Append,
         SaveRow, EncodeCase, Run, Blank, IdentityOf, IdFor;
    IdForIsInjective(path.registry, w.kind, w.key);
    if IsAccepted(ctx, w) {
      var d := DetectionOf(ctx, IdFor(path.registry, w.kind, w.key).0, w, w.closedAt.value);
      CorrelateEffect(ctx.policy, path.store, d);
    }
  }

  /** A window that was accepted before changes nothing when it comes again, whatever score and clock come with it. */
  lemma ReplayChangesNothing(ctx: Context, path: Path, w: Window, now: int)
    requires Simulates(ctx, path) && Accepted(path, w)
    ensures var path' := Put(ctx, path, w, now).0;
            path' == path.(detected := path'.detected)
  {
    hide Correlate, Mirrors, AllListed, AllEvidenced, Points, Named, TableOk, AlertStream.HubHolds, AlertStream.Append,
         SaveRow, EncodeCase, Run, Blank, IdentityOf;
    if w.closedAt.Some? {
      var d := DetectionOf(ctx, path.registry[(w.kind, w.key)], w, w.closedAt.value);
      CorrelateEffect(ctx.policy, path.store, d);
    }
  }

  // ----- End-to-end counts --------------------------------------------------

  /** All occurrences the table shows for some cases. */
  function ShownCount(t: Table, ids: seq<CaseId>): nat
    requires TableOk(t) && forall id :: id in ids ==> id in t.caseIds
  {
    if ids == [] then 0
    else ShownCount(t, ids[..|ids| - 1]) + RowOf(t, ids[|ids| - 1]).columns.occurrenceCount
  }

  lemma {:induction false} ShownIsCounted(path: Path, ids: seq<CaseId>)
    requires TableOk(path.table)
    requires forall id :: id in ids ==> id in path.table.caseIds && id in path.store.cases && Mirrors(path, id)
    ensures ShownCount(path.table, ids) == CountSum(path.store.cases, ids)
  {
    hide TableOk, LastAnnounced;
    if ids != [] {
      ShownIsCounted(path, ids[..|ids| - 1]);
      assert ids[|ids| - 1] in ids;
    }
  }

  lemma CasesOfEntityMirror(ctx: Context, path: Path, entity: int)
    requires Simulates(ctx, path)
    ensures forall id :: id in IdsOf(path.store, entity) ==>
              id in path.table.caseIds && id in path.store.cases && Mirrors(path, id)
  {
    hide Mirrors, TableOk, Run, AlertStream.HubHolds;
    assert Lists(path.store, entity);
  }

  /** What the detections know of a window: its entity's id and its identity. */
  function DetectedKey(r: Registry, w: Window): (int, string)
    requires (w.kind, w.key) in r
  {
    (r[(w.kind, w.key)] as int, IdentityOf(w))
  }

  ghost predicate Arrived(ctx: Context, r: Registry, arrivals: seq<Arrival>, k: (int, string)) {
    exists i :: 0 <= i < |arrivals| && IsAccepted(ctx, arrivals[i].w)
                && (arrivals[i].w.kind, arrivals[i].w.key) in r && DetectedKey(r, arrivals[i].w) == k
  }

  lemma ArrivedOneMore(ctx: Context, r: Registry, r': Registry, arrivals: seq<Arrival>, k: (int, string))
    requires arrivals != []
    requires forall j :: j in r ==> j in r' && r'[j] == r[j]
    requires forall i :: 0 <= i < |arrivals| && IsAccepted(ctx, arrivals[i].w) ==> (arrivals[i].w.kind, arrivals[i].w.key) in r'
    requires forall i :: 0 <= i < |arrivals| - 1 && IsAccepted(ctx, arrivals[i].w) ==> (arrivals[i].w.kind, arrivals[i].w.key) in r
    ensures var w := arrivals[|arrivals| - 1].w;
            Arrived(ctx, r', arrivals, k)
            <==> Arrived(ctx, r, arrivals[..|arrivals| - 1], k) || (IsAccepted(ctx, w) && DetectedKey(r', w) == k)
  {
    hide IsAccepted, IdentityOf;
    var n := |arrivals| - 1;
    if Arrived(ctx, r, arrivals[..n], k) {
      var i :| 0 <= i < n && IsAccepted(ctx, arrivals[..n][i].w)
               && (arrivals[..n][i].w.kind, arrivals[..n][i].w.key) in r && DetectedKey(r, arrivals[..n][i].w) == k;
      assert DetectedKey(r', arrivals[i].w) == k;
    }
    if Arrived(ctx, r', arrivals, k) {
      var i :| 0 <= i < |arrivals| && IsAccepted(ctx, arrivals[i].w)
               && (arrivals[i].w.kind, arrivals[i].w.key) in r' && DetectedKey(r', arrivals[i].w) == k;
      assert i < n ==> arrivals[..n][i] == arrivals[i] && DetectedKey(r, arrivals[i].w) == k;
    }
  }

  /** The windows that were ingested are exactly the accepted arrivals, and their entities have ids. */
  lemma {:induction false} DetectedAreArrived(ctx: Context, h: AlertStream.HubValues, arrivals: seq<Arrival>)
    requires AlertStream.HubHolds(h, [])
    ensures var path := RunPath(ctx, h, arrivals);
            && (forall i :: 0 <= i < |arrivals| && IsAccepted(ctx, arrivals[i].w) ==>
                  (arrivals[i].w.kind, arrivals[i].w.key) in path.registry)
            && (forall k :: k in IngestedKeys(path.detected) <==> Arrived(ctx, path.registry, arrivals, k))
  {
    hide Put, Simulates, AlertStream.HubHolds, IngestedKeys, Arrived, IsAccepted, IdentityOf;
    if arrivals == [] {
      NothingArrived(ctx, h);
    } else {
      var n := |arrivals| - 1;
      var before, after := RunPath(ctx, h, arrivals[..n]), RunPath(ctx, h, arrivals);
      var w := arrivals[n].w;
      DetectedAreArrived(ctx, h, arrivals[..n]);
      SimulationHolds(ctx, h, arrivals[..n]);
      PutDetects(ctx, before, w, arrivals[n].now);
      assert forall i :: 0 <= i < n ==> arrivals[..n][i] == arrivals[i];
      forall k ensures k in IngestedKeys(after.detected) <==> Arrived(ctx, after.registry, arrivals, k) {
        ArrivedOneMore(ctx, before.registry, after.registry, arrivals, k);
      }
    }
  }

  lemma NothingArrived(ctx: Context, h: AlertStream.HubValues)
    ensures IngestedKeys(Start(h).detected) == {} && forall k :: !Arrived(ctx, Start(h).registry, [], k)
  {
  }

  /** One window: the ids given before stay, and it is ingested under its entity's id if it is accepted. */
  lemma PutDetects(ctx: Context, path: Path, w: Window, now: int)
    requires Simulates(ctx, path)
    ensures var path' := Put(ctx, path, w, now).0;
            && (forall j :: j in path.registry ==> j in path'.registry && path'.registry[j] == path.registry[j])
            && (IsAccepted(ctx, w) ==> (w.kind, w.key) in path'.registry)
            && IngestedKeys(path'.detected)
               == IngestedKeys(path.detected) + if IsAccepted(ctx, w) then {DetectedKey(path'.registry, w)} else {}
  {
    hide Put, IsAccepted, IngestedKeys, IdFor, IdentityOf, Simulates, RegistryOk;
    RegistryIsOk(ctx, path);
    IdForIsInjective(path.registry, w.kind, w.key);
    PutEffect(ctx, path, w, now);
    if IsAccepted(ctx, w) {
      var (entity, registry) := IdFor(path.registry, w.kind, w.key);
      IngestedNext(path.detected, DetectionOf(ctx, entity, w, w.closedAt.value));
    }
  }

  /** What a window does to the registry and to the observer's notes. */
  lemma PutEffect(ctx: Context, path: Path, w: Window, now: int)
    ensures var (entity, registry) := IdFor(path.registry, w.kind, w.key);
            var path' := Put(ctx, path, w, now).0;
            && (path'.registry == registry || (path'.registry == path.registry && !IsAccepted(ctx, w)))
            && (!IsAccepted(ctx, w) ==> path'.detected == path.detected)
            && (IsAccepted(ctx, w) ==>
                  w.closedAt.Some? && path'.registry == registry
                  && path'.detected == path.detected + [Ingest(DetectionOf(ctx, entity, w, w.closedAt.value))])
  {
    hide Correlate, Write, IdFor, Blank, IdentityOf;
  }

  lemma RegistryIsOk(ctx: Context, path: Path)
    requires Simulates(ctx, path)
    ensures RegistryOk(path.registry)
  {
  }

  lemma IngestedNext(es: seq<Event>, d: Detection)
    ensures IngestedKeys(es + [Ingest(d)]) == IngestedKeys(es) + {CorrelatorRuns.KeyOf(d)}
  {
    hide IngestedKeys;
    var es' := es + [Ingest(d)];
    assert es'[..|es'| - 1] == es;
    IngestedKeysGrow(es');
  }

  /** The log offsets at which accepted windows of one entity start. */
  function AcceptedOffsets(ctx: Context, arrivals: seq<Arrival>, kind: string, key: string): set<nat> {
    set i | 0 <= i < |arrivals| && IsAccepted(ctx, arrivals[i].w) && arrivals[i].w.kind == kind && arrivals[i].w.key == key
      :: arrivals[i].w.firstOffset
  }

  lemma {:induction false} ImageSize(kind: string, key: string, id: int, offsets: set<nat>, keys: set<(int, string)>)
    requires forall k :: k in keys <==> exists o :: o in offsets && k == (id, IdentityAt(kind, key, o))
    ensures |keys| == |offsets|
  {
    hide IdentityAt;
    if offsets == {} {
      assert keys == {};
    } else {
      var o :| o in offsets;
      var k := (id, IdentityAt(kind, key, o));
      assert k in keys;
      forall o' | o' in offsets - {o} ensures (id, IdentityAt(kind, key, o')) != k {
        IdentityFixesOffset(kind, key, o, o');
      }
      forall k' | k' in keys - {k} ensures exists o' :: o' in offsets - {o} && k' == (id, IdentityAt(kind, key, o')) {
        var o' :| o' in offsets && k' == (id, IdentityAt(kind, key, o'));
        assert o' in offsets - {o};
      }
      ImageSize(kind, key, id, offsets - {o}, keys - {k});
    }
  }

  /** The windows the index knows for an entity correspond one to one to the offsets of its accepted arrivals. */
  lemma KnownAreAccepted(ctx: Context, h: AlertStream.HubValues, arrivals: seq<Arrival>, kind: string, key: string)
    requires AlertStream.HubHolds(h, []) && (kind, key) in RunPath(ctx, h, arrivals).registry
    ensures var path := RunPath(ctx, h, arrivals);
            |EvidenceOf(path.store, path.registry[(kind, key)])| == |AcceptedOffsets(ctx, arrivals, kind, key)|
  {
    hide RunPath, AlertStream.HubHolds, IdentityAt, IsAccepted, Mirrors, TableOk, Sound, Run, IngestedKeys;
    DetectedAreArrived(ctx, h, arrivals);
    SimulationHolds(ctx, h, arrivals);
    var path := RunPath(ctx, h, arrivals);
    var id := path.registry[(kind, key)];
    EvidenceOfIsIngested(ctx.policy, path.detected, id);
    var known, offsets := EvidenceOf(path.store, id), AcceptedOffsets(ctx, arrivals, kind, key);
    forall k | k in known ensures exists o :: o in offsets && k == (id as int, IdentityAt(kind, key, o)) {
      assert k in IngestedKeys(path.detected) && Arrived(ctx, path.registry, arrivals, k);
      var i :| 0 <= i < |arrivals| && IsAccepted(ctx, arrivals[i].w)
               && (arrivals[i].w.kind, arrivals[i].w.key) in path.registry && DetectedKey(path.registry, arrivals[i].w) == k;
      assert (arrivals[i].w.kind, arrivals[i].w.key) == (kind, key);
      assert arrivals[i].w.firstOffset in offsets;
    }
    forall o | o in offsets ensures (id as int, IdentityAt(kind, key, o)) in known {
      var i :| 0 <= i < |arrivals| && IsAccepted(ctx, arrivals[i].w) && arrivals[i].w.kind == kind && arrivals[i].w.key == key
               && arrivals[i].w.firstOffset == o;
      assert DetectedKey(path.registry, arrivals[i].w) == (id as int, IdentityAt(kind, key, o));
      assert Arrived(ctx, path.registry, arrivals, (id as int, IdentityAt(kind, key, o)));
    }
    ImageSize(kind, key, id, offsets, known);
  }

  /** No arriving window has a family with a colon. */
  ghost predicate ColonFreeArrivals(ctx: Context, arrivals: seq<Arrival>) {
    forall i :: 0 <= i < |arrivals| ==> ColonFree(ctx.familyOf(arrivals[i].w))
  }

  /**
   * End to end: the occurrence counts the table shows for an entity add up to the distinct windows of it
   * that arrived and were accepted, however often each was delivered.
   */
  lemma TableCountsAreExact(ctx: Context, h: AlertStream.HubValues, arrivals: seq<Arrival>, kind: string, key: string)
    requires AlertStream.HubHolds(h, []) && ColonFreeArrivals(ctx, arrivals)
    requires (kind, key) in RunPath(ctx, h, arrivals).registry
    ensures var path := RunPath(ctx, h, arrivals);
            var id := path.registry[(kind, key)];
            && TableOk(path.table)
            && (forall c :: c in IdsOf(path.store, id) ==> c in path.table.caseIds)
            && ShownCount(path.table, IdsOf(path.store, id)) == |AcceptedOffsets(ctx, arrivals, kind, key)|
  {
    hide Mirrors, TableOk, Run, AlertStream.HubHolds, RunPath, Sound, AcceptedOffsets;
    SimulationHolds(ctx, h, arrivals);
    DetectedColonFree(ctx, h, arrivals);
    var path := RunPath(ctx, h, arrivals);
    var id := path.registry[(kind, key)];
    CountsAreExact(ctx.policy, path.detected, id);
    CasesOfEntityMirror(ctx, path, id);
    ShownIsCounted(path, IdsOf(path.store, id));
    KnownAreAccepted(ctx, h, arrivals, kind, key);
  }

  lemma {:induction false} DetectedColonFree(ctx: Context, h: AlertStream.HubValues, arrivals: seq<Arrival>)
    requires ColonFreeArrivals(ctx, arrivals)
    ensures ColonFreeEvents(RunPath(ctx, h, arrivals).detected)
  {
    hide Put, ColonFree;
    if arrivals != [] {
      var n := |arrivals| - 1;
      assert forall i :: 0 <= i < n ==> arrivals[..n][i] == arrivals[i];
      DetectedColonFree(ctx, h, arrivals[..n]);
      PutNotes(ctx, RunPath(ctx, h, arrivals[..n]), arrivals[n].w, arrivals[n].now);
    }
  }

  /** What the observer notes of a window: nothing, or a detection of its family. */
  lemma PutNotes(ctx: Context, path: Path, w: Window, now: int)
    ensures var noted := Put(ctx, path, w, now).0.detected;
            noted == path.detected
            || exists d :: noted == path.detected + [Ingest(d)] && d.family == ctx.familyOf(w)
  {
    hide Correlate, Write, IdFor, Blank, IdentityOf;
    if w.closedAt.Some? && !Blank(ctx.familyOf(w)) {
      var d := DetectionOf(ctx, IdFor(path.registry, w.kind, w.key).0, w, w.closedAt.value);
      assert d.family == ctx.familyOf(w);
    }
  }
}
