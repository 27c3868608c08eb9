/** The correlator and its in-memory store as they run: objects whose fields the methods update. */
module CorrelatorService {
  import opened Wrappers
  import opened Correlator
  import opened CorrelatorStore
  import opened CorrelatorRuns

  lemma AllStored(st: Store, entity: int)
    requires AllListed(st)
    ensures forall i :: 0 <= i < |IdsOf(st, entity)| ==> IdsOf(st, entity)[i] in st.cases
  {
    assert Lists(st, entity);
  }

  lemma NoneYet(cases: map<CaseId, Case>, notBefore: int, family: Option<string>)
    ensures IsLatest(cases, [], notBefore, family, None)
  {
  }

  /** One more listed case takes the lead exactly when it is eligible and strictly newer than the leader. */
  lemma NextLatest(cases: map<CaseId, Case>, ids: seq<CaseId>, i: nat, notBefore: int, family: Option<string>, best: Option<nat>)
    requires i < |ids| && ids[i] in cases
    requires IsLatest(cases, ids[..i], notBefore, family, best) && (best.Some? ==> best.value < i && ids[best.value] in cases)
    ensures IsLatest(cases, ids[..i + 1], notBefore, family,
                     if Eligible(cases, ids[i], notBefore, family)
                        && (best.None? || cases[ids[i]].lastSeen > cases[ids[best.value]].lastSeen)
                     then Some(i) else best)
  {
    assert forall j :: 0 <= j < i ==> ids[..i][j] == ids[j] && ids[..i + 1][j] == ids[j];
    assert ids[..i + 1][i] == ids[i];
  }

  class InMemoryCaseStore {
    var cases: map<CaseId, Case>
    var evidence: map<(int, string), CaseId>
    var byEntity: map<int, seq<CaseId>>

    function State(): Store
      reads this
    {
      Store(cases, byEntity, evidence)
    }

    constructor ()
      ensures State() == EMPTY_STORE
    {
      cases, evidence, byEntity := map[], map[], map[];
    }

    method CaseFor(entity: int, evidenceId: string) returns (c: Option<Case>)
      ensures c == CaseWithEvidence(State(), entity, evidenceId)
    {
      c := None;
      if (entity, evidenceId) in evidence {
        var id := evidence[(entity, evidenceId)];
        if id in cases {
          c := Some(cases[id]);
        }
      }
    }

    /** The newest eligible case of an entity; the first one listed wins a tie. */
    method LatestFor(entity: int, notBefore: int, family: Option<string>) returns (c: Option<Case>)
      requires AllListed(State())
      ensures c == Latest(State(), entity, notBefore, family)
    {
      hide IsLatest, LatestIndex;
      var ids := if entity in byEntity then byEntity[entity] else [];
      assert ids == IdsOf(State(), entity);
      AllStored(State(), entity);
      var best: Option<nat> := None;
      NoneYet(cases, notBefore, family);
      for i := 0 to |ids|
        invariant best.Some? ==> best.value < i
        invariant IsLatest(cases, ids[..i], notBefore, family, best)
      {
        var candidate := cases[ids[i]];
        NextLatest(cases, ids, i, notBefore, family, best);
        if candidate.lastSeen >= notBefore && (family.None? || family.value in candidate.families) {
          if best.None? || candidate.lastSeen > cases[ids[best.value]].lastSeen {
            best := Some(i);
          }
        }
      }
      assert ids[..|ids|] == ids;
      LatestIsUnique(cases, ids, notBefore, family, best, LatestIndex(cases, ids, notBefore, family));
      c := if best.None? then None else Some(cases[ids[best.value]]);
    }

    /** Store the case and index every window it retains. */
    method Put(c: Case)
      modifies this
      ensures State() == Save(old(State()), c)
    {
      if c.id !in cases {
        byEntity := byEntity[c.entity := (if c.entity in byEntity then byEntity[c.entity] else []) + [c.id]];
      }
      cases := cases[c.id := c];
      IndexWindows(c);
    }

    method IndexWindows(c: Case)
      modifies this`evidence
      ensures evidence == old(evidence) + map k | k in EvidenceKeys(c) :: c.id
    {
      NothingIndexed(evidence, c);
      for i := 0 to |c.occurrences|
        invariant evidence == IndexedUpTo(old(evidence), c, i)
      {
        hide IndexedUpTo;
        IndexOneMore(old(evidence), c, i);
        evidence := evidence[(c.entity, c.occurrences[i].evidence) := c.id];
      }
      AllIndexed(old(evidence), c);
    }
  }

  /** The windows among the first `n` that a case retains. */
  ghost function FirstKeys(c: Case, n: nat): set<(int, string)>
    requires n <= |c.occurrences|
  {
    EvidenceKeys(c.(occurrences := c.occurrences[..n]))
  }

  /** A replay index after the first `n` retained windows of a case were entered. */
  ghost function IndexedUpTo(index: map<(int, string), CaseId>, c: Case, n: nat): map<(int, string), CaseId>
    requires n <= |c.occurrences|
  {
    index + map k | k in FirstKeys(c, n) :: c.id
  }

  lemma NothingIndexed(index: map<(int, string), CaseId>, c: Case)
    ensures IndexedUpTo(index, c, 0) == index
  {
  }

  lemma FirstKeysGrow(c: Case, n: nat)
    requires n < |c.occurrences|
    ensures FirstKeys(c, n + 1) == FirstKeys(c, n) + {(c.entity, c.occurrences[n].evidence)}
  {
    assert c.occurrences[..n + 1] == c.occurrences[..n] + [c.occurrences[n]];
  }

  lemma IndexOneMore(index: map<(int, string), CaseId>, c: Case, n: nat)
    requires n < |c.occurrences|
    ensures IndexedUpTo(index, c, n + 1) == IndexedUpTo(index, c, n)[(c.entity, c.occurrences[n].evidence) := c.id]
  {
    hide FirstKeys;
    FirstKeysGrow(c, n);
  }

  lemma AllIndexed(index: map<(int, string), CaseId>, c: Case)
    ensures IndexedUpTo(index, c, |c.occurrences|) == index + map k | k in EvidenceKeys(c) :: c.id
  {
    assert c.occurrences[..|c.occurrences|] == c.occurrences;
  }

  class CorrelatorObject {
    const store: InMemoryCaseStore
    const policy: Policy

    constructor (store: InMemoryCaseStore, policy: Policy)
      ensures this.store == store && this.policy == policy
    {
      this.store := store;
      this.policy := policy;
    }

    /** Fuse the best score per modality, found in one pass over the occurrences. */
    method Fuse(occurrences: seq<Detection>) returns (fused: Fused)
      ensures fused == FuseBest(policy, occurrences)
    {
      var flow: Option<Score>, log: Option<Score> := None, None;
      for i := 0 to |occurrences|
        invariant flow == BestScore(occurrences[..i], Flow) && log == BestScore(occurrences[..i], Log)
      {
        var o := occurrences[i];
        assert occurrences[..i + 1][..i] == occurrences[..i];
        match o.modality
        case Flow => if flow.None? || o.score > flow.value { flow := Some(o.score); }
        case Log => if log.None? || o.score > log.value { log := Some(o.score); }
      }
      assert occurrences[..|occurrences|] == occurrences;
      fused := policy.fuse(flow, log);
    }

    /** A new case of one window. */
    method Open(d: Detection) returns (c: Case)
      ensures c == Create(policy, d)
    {
      var fused := Fuse([d]);
      var severity := Band(policy.bands, fused.score);
      c := Case(CaseIdFor(d), d.entity, d.family, [d.family], severity, fused.score, severity, fused.score, Status.Open,
                d.at, d.at, 1, fused.partial, false, d.evidence, [d], d.traceparent);
    }

    /** A case with one more window; what it retains is fused again, and its score never falls. */
    method MergeInto(c: Case, d: Detection, grouped: bool) returns (merged: Case)
      ensures merged == Merge(policy, c, d, grouped)
    {
      hide FuseBest;
      var occurrences := LastOf(c.occurrences + [d], policy.retention);
      var fused := Fuse(occurrences);
      var score := c.score;
      if fused.score > score {
        score := fused.score;
      }
      var families := c.families;
      if d.family !in families {
        families := families + [d.family];
      }
      merged := c.(families := families,
                   severity := Band(policy.bands, score),
                   score := score,
                   firstSeen := if d.at < c.firstSeen then d.at else c.firstSeen,
                   lastSeen := if d.at > c.lastSeen then d.at else c.lastSeen,
                   count := c.count + 1,
                   partial := fused.partial,
                   grouped := c.grouped || grouped,
                   occurrences := occurrences,
                   traceparent := OrElse(c.traceparent, d.traceparent));
    }

    /** One detection: what it did, the case afterwards, and the store it leaves. */
    method Ingest(d: Detection) returns (action: Action, after: Case)
      requires Sound(store.State())
      modifies store
      ensures Sound(store.State())
      ensures Ingested(action, after, store.State()) == Correlate(policy, old(store.State()), d)
    {
      hide Merge, Create, AllListed, AllEvidenced, Points, Named, Save, Latest;
      CorrelateKeepsIndexed(policy, store.State(), d);
      CorrelateKeepsNamed(policy, store.State(), d);
      var replayed := store.CaseFor(d.entity, d.evidence);
      if replayed.Some? {
        return Duplicate, replayed.value;
      }
      var groupable := FindGroup(d);
      if groupable.Some? {
        after := MergeInto(groupable.value, d, true);
        store.Put(after);
        return Grouped, after;
      }
      var repeat := FindRepeat(d);
      if repeat.Some? {
        after := MergeInto(repeat.value, d, false);
        store.Put(after);
        return Absorbed, after;
      }
      after := Open(d);
      store.Put(after);
      action := Created;
    }

    method FindGroup(d: Detection) returns (c: Option<Case>)
      requires AllListed(store.State())
      ensures c == GroupingCandidate(policy, store.State(), d)
    {
      hide Latest;
      var candidate := store.LatestFor(d.entity, d.at - policy.groupWindow, None);
      if candidate.None? || candidate.value.status == Closed {
        return None;
      }
      if Abs(d.at - candidate.value.lastSeen) > policy.groupWindow {
        return None;
      }
      if exists o :: o in candidate.value.occurrences && o.modality == d.modality {
        return None;
      }
      c := candidate;
    }

    method FindRepeat(d: Detection) returns (c: Option<Case>)
      requires AllListed(store.State())
      ensures c == RepeatCandidate(policy, store.State(), d)
    {
      hide Latest;
      var candidate := store.LatestFor(d.entity, d.at - policy.coolDown, Some(d.family));
      c := if candidate.None? || candidate.value.status == Closed then None else candidate;
    }
  }
}
