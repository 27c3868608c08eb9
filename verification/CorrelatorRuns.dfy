/** Whole runs of the correlator: replay safety and exact counts. */
module CorrelatorRuns {
  import opened Wrappers
  import opened Correlator
  import opened CorrelatorStore

  // ----- Runs ---------------------------------------------------------------

  /** A detection arrives, or an analyst changes the status of a stored case. */
  datatype Event = Ingest(d: Detection) | SetStatus(id: CaseId, status: Status)

  /** The store, with an observer's note of the detections each case counted. */
  datatype World = World(store: Store, counted: map<CaseId, seq<Detection>>)

  function CountedBy(w: World, id: CaseId): seq<Detection> {
    if id in w.counted then w.counted[id] else []
  }

  function Advance(p: Policy, w: World, e: Event): World {
    match e
    case Ingest(d) =>
      var r := Correlate(p, w.store, d);
      World(r.store,
            match r.action
            case Duplicate => w.counted
            case Created => w.counted[r.after.id := [d]]
            case _ => w.counted[r.after.id := CountedBy(w, r.after.id) + [d]])
    case SetStatus(id, status) =>
      if id in w.store.cases
      then w.(store := Save(w.store, w.store.cases[id].(status := status)))
      else w
  }

  /** The state after a sequence of events, from an empty store. */
  function Run(p: Policy, es: seq<Event>): World {
    if es == [] then World(EMPTY_STORE, map[])
    else Advance(p, Run(p, es[..|es| - 1]), es[|es| - 1])
  }

  lemma SaveAgain(st: Store, c: Case)
    requires Evidenced(st, c) && c.id in st.cases
    ensures Save(st, c) == st.(cases := st.cases[c.id := c])
  {
    forall k | k in EvidenceKeys(c) ensures k in st.evidence && st.evidence[k] == c.id {
      var o :| o in c.occurrences && k == (c.entity, o.evidence);
    }
    assert st.evidence + (map k | k in EvidenceKeys(c) :: c.id) == st.evidence;
  }

  lemma SetStatusEffect(st: Store, id: CaseId, status: Status)
    requires Indexed(st) && id in st.cases
    ensures var st' := Save(st, st.cases[id].(status := status));
            && st' == st.(cases := st.cases[id := st.cases[id].(status := status)])
            && Indexed(st')
  {
    var c := st.cases[id].(status := status);
    assert Evidenced(st, st.cases[id]);
    SaveAgain(st, c);
    RestatusKeepsIndexed(st, id, status);
  }

  lemma RestatusKeepsIndexed(st: Store, id: CaseId, status: Status)
    requires Indexed(st) && id in st.cases && st.cases[id].id == id
    ensures Indexed(st.(cases := st.cases[id := st.cases[id].(status := status)]))
  {
    hide AllListed, AllEvidenced, Points;
    RestatusKeepsListed(st, id, status);
    RestatusKeepsEvidenced(st, id, status);
    RestatusKeepsPoints(st, id, status);
  }

  lemma RestatusKeepsPoints(st: Store, id: CaseId, status: Status)
    requires Points(st) && id in st.cases
    ensures Points(st.(cases := st.cases[id := st.cases[id].(status := status)]))
  {
  }

  lemma RestatusKeepsListed(st: Store, id: CaseId, status: Status)
    requires AllListed(st) && id in st.cases
    ensures AllListed(st.(cases := st.cases[id := st.cases[id].(status := status)]))
  {
    var st' := st.(cases := st.cases[id := st.cases[id].(status := status)]);
    forall e ensures Lists(st', e) {
      assert Lists(st, e) && IdsOf(st', e) == IdsOf(st, e);
    }
  }

  lemma RestatusKeepsEvidenced(st: Store, id: CaseId, status: Status)
    requires AllEvidenced(st) && id in st.cases
    ensures AllEvidenced(st.(cases := st.cases[id := st.cases[id].(status := status)]))
  {
    var st' := st.(cases := st.cases[id := st.cases[id].(status := status)]);
    forall id' | id' in st'.cases ensures st'.cases[id'].id == id' && Evidenced(st', st'.cases[id']) {
      assert Evidenced(st, st.cases[id']);
    }
  }

  lemma SetStatusKeepsNamed(st: Store, id: CaseId, status: Status)
    requires Named(st) && id in st.cases
    ensures Named(Save(st, st.cases[id].(status := status)))
  {
    assert IsNamed(st.cases[id], id);
  }

  ghost predicate Sound(st: Store) {
    Indexed(st) && Named(st)
  }

  lemma AdvanceKeepsSound(p: Policy, w: World, e: Event)
    requires Sound(w.store)
    ensures Sound(Advance(p, w, e).store)
  {
    hide Correlate, Save;
    match e
    case Ingest(d) =>
      CorrelateKeepsIndexed(p, w.store, d);
      CorrelateKeepsNamed(p, w.store, d);
    case SetStatus(id, status) =>
      if id in w.store.cases {
        SetStatusEffect(w.store, id, status);
        SetStatusKeepsNamed(w.store, id, status);
      }
  }

  /** Every reachable store is sound: each stored case is listed once under its entity, and found by each window it holds. */
  lemma {:induction false} RunIsSound(p: Policy, es: seq<Event>)
    ensures Sound(Run(p, es).store)
  {
    if es != [] {
      RunIsSound(p, es[..|es| - 1]);
      AdvanceKeepsSound(p, Run(p, es[..|es| - 1]), es[|es| - 1]);
    }
  }

  // ----- Replay safety ------------------------------------------------------

  function KeyOf(d: Detection): (int, string) {
    (d.entity, d.evidence)
  }

  function IngestedKeys(es: seq<Event>): set<(int, string)> {
    set i | 0 <= i < |es| && es[i].Ingest? :: KeyOf(es[i].d)
  }

  /** The events with every later delivery of an already delivered window removed. */
  function WithoutReplays(es: seq<Event>): seq<Event> {
    if es == [] then []
    else
      var n := |es| - 1;
      var before := WithoutReplays(es[..n]);
      if es[n].Ingest? && KeyOf(es[n].d) in IngestedKeys(es[..n]) then before else before + [es[n]]
  }

  lemma IngestedKeysGrow(es: seq<Event>)
    requires es != []
    ensures IngestedKeys(es) ==
            IngestedKeys(es[..|es| - 1]) + (if es[|es| - 1].Ingest? then {KeyOf(es[|es| - 1].d)} else {})
  {
    var n := |es| - 1;
    forall k | k in IngestedKeys(es[..n]) ensures k in IngestedKeys(es) {
      var i :| 0 <= i < n && es[..n][i].Ingest? && k == KeyOf(es[..n][i].d);
      assert es[i].Ingest? && k == KeyOf(es[i].d);
    }
    forall k | k in IngestedKeys(es)
      ensures k in IngestedKeys(es[..n]) || (es[n].Ingest? && k == KeyOf(es[n].d))
    {
      var i :| 0 <= i < |es| && es[i].Ingest? && k == KeyOf(es[i].d);
      if i < n {
        assert es[..n][i] == es[i];
      }
    }
  }

  lemma AdvanceEvidence(p: Policy, w: World, e: Event)
    requires Sound(w.store)
    ensures Advance(p, w, e).store.evidence.Keys ==
            w.store.evidence.Keys + (if e.Ingest? then {KeyOf(e.d)} else {})
    ensures e.Ingest? && KeyOf(e.d) in w.store.evidence ==> Advance(p, w, e) == w
  {
    hide Correlate, Save, Indexed, Named;
    match e
    case Ingest(d) => CorrelateEffect(p, w.store, d);
    case SetStatus(id, status) =>
      if id in w.store.cases {
        SetStatusEffect(w.store, id, status);
      }
  }

  /** The replay index holds exactly the windows ever ingested. */
  lemma {:induction false} EvidenceIsExact(p: Policy, es: seq<Event>)
    ensures Run(p, es).store.evidence.Keys == IngestedKeys(es)
  {
    hide Advance;
    if es != [] {
      var before := es[..|es| - 1];
      EvidenceIsExact(p, before);
      RunIsSound(p, before);
      AdvanceEvidence(p, Run(p, before), es[|es| - 1]);
      IngestedKeysGrow(es);
    }
  }

  /** At-least-once delivery has the effect of exactly-once delivery. */
  lemma {:induction false} ReplaysChangeNothing(p: Policy, es: seq<Event>)
    ensures Run(p, es) == Run(p, WithoutReplays(es))
  {
    hide Advance;
    if es != [] {
      var before, e := es[..|es| - 1], es[|es| - 1];
      ReplaysChangeNothing(p, before);
      RunIsSound(p, before);
      EvidenceIsExact(p, before);
      AdvanceEvidence(p, Run(p, before), e);
      var kept := WithoutReplays(before);
      assert (kept + [e])[..|kept|] == kept;
    }
  }

  /** Two deliveries of one stream, replayed in any way, end in one state. */
  lemma DeliveriesAgree(p: Policy, es: seq<Event>, es': seq<Event>)
    requires WithoutReplays(es) == WithoutReplays(es')
    ensures Run(p, es) == Run(p, es')
  {
    ReplaysChangeNothing(p, es);
    ReplaysChangeNothing(p, es');
  }

  // ----- Exact counts -------------------------------------------------------

  ghost predicate AllPositive(st: Store) {
    forall id :: id in st.cases ==> st.cases[id].count >= 1
  }

  function CountSum(cases: map<CaseId, Case>, ids: seq<CaseId>): nat {
    if ids == [] then 0
    else
      var id := ids[|ids| - 1];
      CountSum(cases, ids[..|ids| - 1]) + if id in cases then cases[id].count else 0
  }

  /** All occurrences counted for one entity. */
  function CountOf(st: Store, entity: int): nat {
    CountSum(st.cases, IdsOf(st, entity))
  }

  function EvidenceOf(st: Store, entity: int): set<(int, string)> {
    set k | k in st.evidence && k.0 == entity
  }

  lemma {:induction false} CountSumFrame(cases: map<CaseId, Case>, ids: seq<CaseId>, c: Case)
    requires c.id !in ids
    ensures CountSum(cases[c.id := c], ids) == CountSum(cases, ids)
  {
    if ids != [] {
      CountSumFrame(cases, ids[..|ids| - 1], c);
    }
  }

  lemma {:induction false} CountSumUpdate(cases: map<CaseId, Case>, ids: seq<CaseId>, c: Case)
    requires DistinctIds(ids) && c.id in ids && c.id in cases
    ensures CountSum(cases[c.id := c], ids) == CountSum(cases, ids) - cases[c.id].count + c.count
  {
    var n := |ids| - 1;
    if ids[n] == c.id {
      CountSumFrame(cases, ids[..n], c);
    } else {
      CountSumUpdate(cases, ids[..n], c);
    }
  }

  lemma RecordsOwnCount(st: Store, st': Store, c: Case, d: Detection)
    requires Lists(st, d.entity) && Records(st, st', c, d)
    requires c.id in st.cases ==> st.cases[c.id].entity == c.entity
    ensures CountOf(st', d.entity) ==
            CountOf(st, d.entity) + c.count - (if c.id in st.cases then st.cases[c.id].count else 0)
  {
    var ids := IdsOf(st, d.entity);
    if c.id in st.cases {
      hide CountSum;
      CountSumUpdate(st.cases, ids, c);
    } else {
      CountSumFrame(st.cases, ids, c);
      assert (ids + [c.id])[..|ids|] == ids;
    }
  }

  lemma RecordsOtherCount(st: Store, st': Store, c: Case, d: Detection, entity: int)
    requires Lists(st, entity) && Records(st, st', c, d) && entity != d.entity
    requires c.id in st.cases ==> st.cases[c.id].entity == c.entity
    ensures CountOf(st', entity) == CountOf(st, entity)
  {
    hide CountSum;
    assert IdsOf(st', entity) == IdsOf(st, entity);
    CountSumFrame(st.cases, IdsOf(st, entity), c);
  }

  lemma RecordsCounts(st: Store, st': Store, c: Case, d: Detection)
    requires AllListed(st) && Records(st, st', c, d)
    requires c.id in st.cases ==> st.cases[c.id].entity == c.entity
    ensures CountOf(st', d.entity) ==
            CountOf(st, d.entity) + c.count - (if c.id in st.cases then st.cases[c.id].count else 0)
    ensures forall e :: e != d.entity ==> CountOf(st', e) == CountOf(st, e)
  {
    hide CountOf, Lists, Records;
    assert Lists(st, d.entity);
    RecordsOwnCount(st, st', c, d);
    forall e | e != d.entity ensures CountOf(st', e) == CountOf(st, e) {
      assert Lists(st, e);
      RecordsOtherCount(st, st', c, d, e);
    }
  }

  /**
   * A new window that no case may take in, by grouping or as a repeat, and whose case id is already taken:
   * what `Correlate` looks at before it creates a case, said of the store before it.
   */
  predicate Clobbers(p: Policy, st: Store, d: Detection) {
    && KeyOf(d) !in st.evidence
    && GroupingCandidate(p, st, d).None? && RepeatCandidate(p, st, d).None?
    && CaseIdFor(d) in st.cases
  }

  /** A case is created exactly for a new window that nothing takes in. */
  lemma CreatesExactly(p: Policy, st: Store, d: Detection)
    requires Sound(st)
    ensures Correlate(p, st, d).action == Created
            <==> KeyOf(d) !in st.evidence && GroupingCandidate(p, st, d).None? && RepeatCandidate(p, st, d).None?
  {
    hide GroupingCandidate, RepeatCandidate, CaseWithEvidence, AllListed, AllEvidenced, Named, Merge, Create, Save;
    ReplayedExactly(st, d.entity, d.evidence);
  }

  /** A new window adds one to its entity's count exactly when its case replaces no other, and never adds more. */
  lemma CountsOneExactly(p: Policy, st: Store, d: Detection)
    requires Sound(st) && AllPositive(st) && KeyOf(d) !in st.evidence
    ensures CountOf(Correlate(p, st, d).store, d.entity) == CountOf(st, d.entity) + 1 <==> !Clobbers(p, st, d)
    ensures CountOf(Correlate(p, st, d).store, d.entity) <= CountOf(st, d.entity) + 1
    ensures forall e :: e != d.entity ==> CountOf(Correlate(p, st, d).store, e) == CountOf(st, e)
  {
    hide Correlate, CountOf, CaseIdOf, GroupingCandidate, RepeatCandidate;
    CorrelateEffect(p, st, d);
    CreatesExactly(p, st, d);
    CreatedIdClash(st, d);
    var r := Correlate(p, st, d);
    RecordsCounts(st, r.store, r.after, d);
  }

  ghost predicate FamiliesColonFree(st: Store) {
    forall id :: id in st.cases ==> ColonFree(st.cases[id].family)
  }

  lemma NeverClobbers(p: Policy, st: Store, d: Detection)
    requires Sound(st) && FamiliesColonFree(st) && ColonFree(d.family)
    ensures !Clobbers(p, st, d)
  {
    hide CaseIdOf, GroupingCandidate, RepeatCandidate;
    if CaseIdFor(d) in st.cases {
      var c := st.cases[CaseIdFor(d)];
      assert IsNamed(c, CaseIdFor(d));
      CaseIdInjective(c.entity, c.family, c.firstEvidence, d.entity, d.family, d.evidence);
      assert Evidenced(st, c);
    }
  }

  ghost predicate ColonFreeEvents(es: seq<Event>) {
    forall i :: 0 <= i < |es| && es[i].Ingest? ==> ColonFree(es[i].d.family)
  }

  lemma AdvanceKeepsPositive(p: Policy, w: World, e: Event)
    requires Sound(w.store) && AllPositive(w.store)
    ensures AllPositive(Advance(p, w, e).store)
    ensures FamiliesColonFree(w.store) && (e.Ingest? ==> ColonFree(e.d.family)) ==> FamiliesColonFree(Advance(p, w, e).store)
  {
    hide Correlate, Save, Indexed, Named;
    match e
    case Ingest(d) => CorrelateEffect(p, w.store, d);
    case SetStatus(id, status) =>
      if id in w.store.cases {
        SetStatusEffect(w.store, id, status);
      }
  }

  lemma {:induction false} RunIsPositive(p: Policy, es: seq<Event>)
    ensures Sound(Run(p, es).store) && AllPositive(Run(p, es).store)
    ensures ColonFreeEvents(es) ==> FamiliesColonFree(Run(p, es).store)
  {
    hide Advance;
    RunIsSound(p, es);
    if es != [] {
      RunIsPositive(p, es[..|es| - 1]);
      AdvanceKeepsPositive(p, Run(p, es[..|es| - 1]), es[|es| - 1]);
    }
  }

  lemma EvidenceOfGrows(p: Policy, w: World, e: Event, entity: int)
    requires Sound(w.store)
    ensures EvidenceOf(Advance(p, w, e).store, entity) ==
            EvidenceOf(w.store, entity) + (if e.Ingest? && e.d.entity == entity then {KeyOf(e.d)} else {})
  {
    hide Advance, Indexed, Named;
    AdvanceEvidence(p, w, e);
    var st, st' := w.store, Advance(p, w, e).store;
    assert forall k :: k in st'.evidence <==> k in st'.evidence.Keys;
    assert forall k :: k in st.evidence <==> k in st.evidence.Keys;
  }

  lemma {:induction false} CountSumRestatus(cases: map<CaseId, Case>, ids: seq<CaseId>, id: CaseId, status: Status)
    requires id in cases
    ensures CountSum(cases[id := cases[id].(status := status)], ids) == CountSum(cases, ids)
  {
    if ids != [] {
      CountSumRestatus(cases, ids[..|ids| - 1], id, status);
    }
  }

  /** The event ingests a window of the entity whose case replaces a stored one. */
  predicate Replaces(p: Policy, st: Store, e: Event, entity: int) {
    e.Ingest? && e.d.entity == entity && Clobbers(p, st, e.d)
  }

  lemma AdvanceCounts(p: Policy, w: World, e: Event, entity: int)
    requires Sound(w.store) && AllPositive(w.store)
    ensures var added := if e.Ingest? && e.d.entity == entity && KeyOf(e.d) !in w.store.evidence then 1 else 0;
            var before, after := CountOf(w.store, entity), CountOf(Advance(p, w, e).store, entity);
            after <= before + added && (after == before + added <==> !Replaces(p, w.store, e, entity))
  {
    hide Correlate, Save, Indexed, Named, CaseIdOf, GroupingCandidate, RepeatCandidate, CountOf;
    match e
    case Ingest(d) =>
      CorrelateEffect(p, w.store, d);
      if KeyOf(d) !in w.store.evidence {
        CountsOneExactly(p, w.store, d);
      }
    case SetStatus(id, status) =>
      if id in w.store.cases {
        SetStatusEffect(w.store, id, status);
        RestatusCounts(w.store, id, status, entity);
      }
  }

  lemma RestatusCounts(st: Store, id: CaseId, status: Status, entity: int)
    requires id in st.cases
    ensures CountOf(st.(cases := st.cases[id := st.cases[id].(status := status)]), entity) == CountOf(st, entity)
  {
    CountSumRestatus(st.cases, IdsOf(st, entity), id, status);
  }

  /** No ingest of the entity in the run replaced a stored case. */
  ghost predicate NeverReplaces(p: Policy, es: seq<Event>, entity: int) {
    forall k :: 0 <= k < |es| ==> !Replaces(p, Run(p, es[..k]).store, es[k], entity)
  }

  lemma NeverReplacesOneMore(p: Policy, es: seq<Event>, entity: int)
    requires es != []
    ensures var n := |es| - 1;
            NeverReplaces(p, es, entity)
            <==> NeverReplaces(p, es[..n], entity) && !Replaces(p, Run(p, es[..n]).store, es[n], entity)
  {
    hide Run, Replaces;
    var n := |es| - 1;
    assert forall k :: 0 <= k < n ==> es[..n][..k] == es[..k] && es[..n][k] == es[k];
  }

  /** The windows of the entity that were ever ingested are those the index holds. */
  lemma EvidenceOfIsIngested(p: Policy, es: seq<Event>, entity: int)
    ensures EvidenceOf(Run(p, es).store, entity) == set k | k in IngestedKeys(es) && k.0 == entity
  {
    hide Run;
    EvidenceIsExact(p, es);
    var st := Run(p, es).store;
    assert forall k :: k in st.evidence <==> k in st.evidence.Keys;
  }

  /**
   * Over any run the occurrence counts of an entity's cases add up to no more than the distinct windows ever
   * ingested for it, and to exactly as many if and only if no ingest of the entity replaced a stored case:
   * a shortfall is never made up.
   */
  lemma {:induction false} CountsAreExactly(p: Policy, es: seq<Event>, entity: int)
    ensures var counted, known := CountOf(Run(p, es).store, entity), |EvidenceOf(Run(p, es).store, entity)|;
            counted <= known && (counted == known <==> NeverReplaces(p, es, entity))
  {
    hide Advance, CountOf, Indexed, Named, Replaces, NeverReplaces;
    if es == [] {
      EmptyCounts(p, entity);
    } else {
      var before, e := es[..|es| - 1], es[|es| - 1];
      CountsAreExactly(p, before, entity);
      RunIsPositive(p, before);
      AdvanceCounts(p, Run(p, before), e, entity);
      EvidenceOfGrows(p, Run(p, before), e, entity);
      NeverReplacesOneMore(p, es, entity);
      assert forall k :: k in Run(p, before).store.evidence <==> k in Run(p, before).store.evidence.Keys;
    }
  }

  /** With colon-free families the counts are exact. */
  lemma CountsAreExact(p: Policy, es: seq<Event>, entity: int)
    requires ColonFreeEvents(es)
    ensures CountOf(Run(p, es).store, entity) == |EvidenceOf(Run(p, es).store, entity)|
    ensures EvidenceOf(Run(p, es).store, entity) == set k | k in IngestedKeys(es) && k.0 == entity
  {
    hide Run, CountOf, Sound, Clobbers;
    EvidenceOfIsIngested(p, es, entity);
    CountsAreExactly(p, es, entity);
    forall k | 0 <= k < |es| ensures !Replaces(p, Run(p, es[..k]).store, es[k], entity) {
      if es[k].Ingest? {
        assert ColonFreeEvents(es[..k]) by {
          assert forall i :: 0 <= i < k ==> es[..k][i] == es[i];
        }
        RunIsPositive(p, es[..k]);
        NeverClobbers(p, Run(p, es[..k]).store, es[k].d);
      }
    }
  }

  lemma EmptyCounts(p: Policy, entity: int)
    ensures CountOf(Run(p, []).store, entity) == 0 && EvidenceOf(Run(p, []).store, entity) == {}
    ensures NeverReplaces(p, [], entity)
  {
  }

  // ----- What a colon in a family name costs ----------------------------------

  function FirstWindow(entity: int): Detection {
    Detection(entity, "scan", Flow, 0.5, 0, "a:b", None, None)
  }

  function SecondWindow(entity: int): Detection {
    Detection(entity, "scan:a", Flow, 0.5, 0, "b", None, None)
  }

  lemma FirstIsCreated(p: Policy, entity: int)
    ensures var r := Correlate(p, EMPTY_STORE, FirstWindow(entity));
            r.action == Created && r.store == Save(EMPTY_STORE, Create(p, FirstWindow(entity)))
  {
    hide CaseIdOf, Create, Save, Merge;
  }

  lemma FirstIsOpen(p: Policy, entity: int)
    ensures Create(p, FirstWindow(entity)).(status := Open) == Create(p, FirstWindow(entity))
  {
  }

  lemma SavedAlone(c: Case)
    ensures Save(EMPTY_STORE, c).cases == map[c.id := c]
    ensures IdsOf(Save(EMPTY_STORE, c), c.entity) == [c.id]
    ensures CountOf(Save(EMPTY_STORE, c), c.entity) == c.count
  {
    var st, ids := Save(EMPTY_STORE, c), [c.id];
    assert IdsOf(st, c.entity) == ids;
    assert ids[..|ids| - 1] == [];
    assert CountSum(st.cases, ids) == c.count;
  }

  /** The store after the first window, with its case in some status. */
  function FirstStored(p: Policy, entity: int, status: Status): Store {
    Save(EMPTY_STORE, Create(p, FirstWindow(entity)).(status := status))
  }

  /** Whatever became of the first case, the second window replaces it. */
  lemma SecondReplaces(p: Policy, entity: int, status: Status)
    ensures Clobbers(p, FirstStored(p, entity, status), SecondWindow(entity))
    ensures CaseIdFor(SecondWindow(entity)) == CaseIdFor(FirstWindow(entity))
  {
    hide CaseIdOf, Merge;
    var c, d := Create(p, FirstWindow(entity)).(status := status), SecondWindow(entity);
    var st := FirstStored(p, entity, status);
    CaseIdCollision(entity);
    assert KeyOf(d) !in st.evidence;
    assert IdsOf(st, entity) == [c.id];
    assert c.occurrences == [FirstWindow(entity)] && FirstWindow(entity).modality == d.modality;
    assert FirstWindow(entity) in c.occurrences;
    assert !Eligible(st.cases, c.id, d.at - p.coolDown, Some(d.family));
    assert RepeatCandidate(p, st, d).None?;
    assert GroupingCandidate(p, st, d).None?;
  }

  lemma SecondReplacesFirst(p: Policy, entity: int)
    requires Sound(FirstStored(p, entity, Open))
    ensures CountOf(Correlate(p, FirstStored(p, entity, Open), SecondWindow(entity)).store, entity) == 1
  {
    hide CaseIdOf, Correlate, Save, CountOf, AllListed, AllEvidenced, Points, Named, GroupingCandidate, RepeatCandidate;
    var c, d := Create(p, FirstWindow(entity)), SecondWindow(entity);
    var st := FirstStored(p, entity, Open);
    assert c.(status := Open) == c;
    SavedAlone(c);
    SecondReplaces(p, entity, Open);
    CreatesExactly(p, st, d);
    CorrelateEffect(p, st, d);
    var r := Correlate(p, st, d);
    RecordsCounts(st, r.store, r.after, d);
  }

  /** Two windows of one entity can share a case id; the second case then replaces the first and a count is lost. */
  lemma CollisionLosesACount(p: Policy, entity: int)
    ensures var st := Run(p, [Ingest(FirstWindow(entity)), Ingest(SecondWindow(entity))]).store;
            CountOf(st, entity) == 1 && |EvidenceOf(st, entity)| == 2
  {
    hide Correlate, CaseIdOf, Merge, Create, Save, CountOf, Indexed, Named, EvidenceOf;
    var d1, d2 := FirstWindow(entity), SecondWindow(entity);
    var es := [Ingest(d1), Ingest(d2)];
    assert es[..1] == [Ingest(d1)] && es[..1][..0] == [];
    FirstIsCreated(p, entity);
    RunIsSound(p, es[..1]);
    assert Create(p, d1).(status := Open) == Create(p, d1) by { FirstIsOpen(p, entity); }
    assert Run(p, es[..1]).store == FirstStored(p, entity, Open);
    SecondReplacesFirst(p, entity);
    TwoWindowsKnown(p, entity, es);
  }

  lemma TwoWindowsKnown(p: Policy, entity: int, es: seq<Event>)
    requires es == [Ingest(FirstWindow(entity)), Ingest(SecondWindow(entity))]
    ensures |EvidenceOf(Run(p, es).store, entity)| == 2
  {
    hide Run;
    EvidenceIsExact(p, es);
    var last := Run(p, es).store;
    assert forall k :: k in last.evidence <==> k in last.evidence.Keys;
    assert KeyOf(es[0].d) in IngestedKeys(es) && KeyOf(es[1].d) in IngestedKeys(es);
    var both := {KeyOf(es[0].d), KeyOf(es[1].d)};
    assert EvidenceOf(last, entity) == both;
  }
}
