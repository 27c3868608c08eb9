/** The correlator against a simple specification: split an entity's timeline at its quiet gaps. */
module CorrelatorSessions {
  import opened Wrappers
  import opened Correlator
  import opened CorrelatorStore
  import opened CorrelatorRuns
  import opened CorrelatorHistory

  // ----- The specification --------------------------------------------------

  /** A timeline cut wherever two neighbours are more than the cool-down apart. */
  function Sessions(coolDown: int, ds: seq<Detection>): (ss: seq<seq<Detection>>)
    ensures ds != [] ==> ss != []
  {
    if ds == [] then []
    else
      var n := |ds| - 1;
      var before := Sessions(coolDown, ds[..n]);
      if n > 0 && ds[n].at - ds[n - 1].at <= coolDown
      then before[..|before| - 1] + [before[|before| - 1] + [ds[n]]]
      else before + [[ds[n]]]
  }

  ghost predicate InTimeOrder(ds: seq<Detection>) {
    forall i, j :: 0 <= i < j < |ds| ==> ds[i].at <= ds[j].at
  }

  function Flatten<T>(ss: seq<seq<T>>): seq<T> {
    if ss == [] then [] else Flatten(ss[..|ss| - 1]) + ss[|ss| - 1]
  }

  ghost predicate Unbroken(coolDown: int, s: seq<Detection>) {
    s != [] && forall i :: 0 < i < |s| ==> s[i].at - s[i - 1].at <= coolDown
  }

  ghost predicate Apart(coolDown: int, s: seq<Detection>, t: seq<Detection>) {
    forall a, b :: 0 <= a < |s| && 0 <= b < |t| ==> t[b].at - s[a].at > coolDown
  }

  ghost predicate AllApart(coolDown: int, ss: seq<seq<Detection>>) {
    forall j, k :: 0 <= j < k < |ss| ==> Apart(coolDown, ss[j], ss[k])
  }

  ghost predicate AllUnbroken(coolDown: int, ss: seq<seq<Detection>>) {
    forall k :: 0 <= k < |ss| ==> Unbroken(coolDown, ss[k])
  }

  ghost predicate AreMaximalRuns(coolDown: int, ss: seq<seq<Detection>>, ds: seq<Detection>) {
    && Flatten(ss) == ds
    && AllUnbroken(coolDown, ss)
    && AllApart(coolDown, ss)
    && (ss != [] ==> EndsWith(ss[|ss| - 1], ds))
  }

  ghost predicate EndsWith(s: seq<Detection>, ds: seq<Detection>) {
    s != [] && ds != [] && s[|s| - 1] == ds[|ds| - 1]
  }

  lemma JoinKeepsRuns(coolDown: int, ss: seq<seq<Detection>>, ds: seq<Detection>, d: Detection)
    requires AreMaximalRuns(coolDown, ss, ds) && ss != []
    requires 0 <= d.at - ds[|ds| - 1].at <= coolDown
    ensures var m := |ss| - 1; AreMaximalRuns(coolDown, ss[..m] + [ss[m] + [d]], ds + [d])
  {
    hide Unbroken, Apart;
    var m := |ss| - 1;
    var ss' := ss[..m] + [ss[m] + [d]];
    assert ss'[..m] == ss[..m];
    assert Flatten(ss') == Flatten(ss) + [d];
    UnbrokenExtends(coolDown, ss[m], d);
    forall j | 0 <= j < m ensures Apart(coolDown, ss[j], ss'[m]) {
      ApartExtends(coolDown, ss[j], ss[m], d);
    }
  }

  lemma OpenKeepsRuns(coolDown: int, ss: seq<seq<Detection>>, ds: seq<Detection>, d: Detection)
    requires AreMaximalRuns(coolDown, ss, ds) && InTimeOrder(ds)
    requires ds != [] ==> d.at - ds[|ds| - 1].at > coolDown
    ensures AreMaximalRuns(coolDown, ss + [[d]], ds + [d])
  {
    hide Unbroken, Apart;
    var ss' := ss + [[d]];
    assert ss'[..|ss|] == ss;
    UnbrokenSingle(coolDown, d);
    forall j | 0 <= j < |ss| ensures Apart(coolDown, ss[j], [d]) {
      SessionIsPast(coolDown, ds, ss, j, d);
    }
  }

  /** Sessions are the maximal runs: they make up the timeline, none is broken by a long gap, and any two are a long gap apart. */
  lemma {:induction false} SessionsAreMaximalRuns(coolDown: int, ds: seq<Detection>)
    requires InTimeOrder(ds) && coolDown >= 0
    ensures AreMaximalRuns(coolDown, Sessions(coolDown, ds), ds)
  {
    hide AreMaximalRuns, InTimeOrder, Sessions;
    SessionsUnfold(coolDown, ds);
    if ds == [] {
      EmptyRuns(coolDown);
    } else {
      var n := |ds| - 1;
      OrderedPrefix(ds);
      SessionsAreMaximalRuns(coolDown, ds[..n]);
      assert ds == ds[..n] + [ds[n]];
      var ss := Sessions(coolDown, ds[..n]);
      if n > 0 && ds[n].at - ds[n - 1].at <= coolDown {
        JoinKeepsRuns(coolDown, ss, ds[..n], ds[n]);
      } else {
        OpenKeepsRuns(coolDown, ss, ds[..n], ds[n]);
      }
    }
  }

  lemma SessionsUnfold(coolDown: int, ds: seq<Detection>)
    ensures ds == [] ==> Sessions(coolDown, ds) == []
    ensures ds != [] ==>
              var n := |ds| - 1;
              var before := Sessions(coolDown, ds[..n]);
              && (n > 0 ==> before != [])
              && Sessions(coolDown, ds)
                 == if n > 0 && ds[n].at - ds[n - 1].at <= coolDown
                    then before[..|before| - 1] + [before[|before| - 1] + [ds[n]]]
                    else before + [[ds[n]]]
  {
  }

  lemma OrderedPrefix(ds: seq<Detection>)
    requires InTimeOrder(ds) && ds != []
    ensures var n := |ds| - 1; InTimeOrder(ds[..n]) && (n > 0 ==> ds[n - 1].at <= ds[n].at)
  {
  }

  lemma EmptyRuns(coolDown: int)
    ensures AreMaximalRuns(coolDown, [], [])
  {
  }

  lemma UnbrokenSingle(coolDown: int, d: Detection)
    ensures Unbroken(coolDown, [d])
  {
  }

  lemma UnbrokenExtends(coolDown: int, s: seq<Detection>, d: Detection)
    requires Unbroken(coolDown, s) && d.at - s[|s| - 1].at <= coolDown
    ensures Unbroken(coolDown, s + [d])
  {
  }

  lemma ApartExtends(coolDown: int, s: seq<Detection>, t: seq<Detection>, d: Detection)
    requires Apart(coolDown, s, t) && t != [] && t[|t| - 1].at <= d.at
    ensures Apart(coolDown, s, t + [d])
  {
    forall a, b | 0 <= a < |s| && 0 <= b < |t + [d]| ensures (t + [d])[b].at - s[a].at > coolDown {
      assert t[|t| - 1].at - s[a].at > coolDown;
    }
  }

  lemma {:induction false} FlattenHolds<T>(ss: seq<seq<T>>, j: nat, x: T)
    requires j < |ss| && x in ss[j]
    ensures x in Flatten(ss)
  {
    if j < |ss| - 1 {
      FlattenHolds(ss[..|ss| - 1], j, x);
    }
  }

  lemma SessionIsPast(coolDown: int, before: seq<Detection>, ss: seq<seq<Detection>>, j: nat, d: Detection)
    requires Flatten(ss) == before && InTimeOrder(before) && j < |ss|
    requires before != [] ==> d.at - before[|before| - 1].at > coolDown
    ensures Apart(coolDown, ss[j], [d])
  {
    forall a | 0 <= a < |ss[j]| ensures d.at - ss[j][a].at > coolDown {
      FlattenHolds(ss, j, ss[j][a]);
      var i :| 0 <= i < |before| && before[i] == ss[j][a];
    }
  }

  // ----- The run as seen by one entity --------------------------------------

  /** The detections of one entity in a stream of events, in order. */
  function Mine(es: seq<Event>, entity: int): seq<Detection> {
    if es == [] then []
    else
      var n := |es| - 1;
      Mine(es[..n], entity) + if es[n].Ingest? && es[n].d.entity == entity then [es[n].d] else []
  }

  /** One entity under one family: windows in time order, each delivered once. */
  ghost predicate Timeline(ds: seq<Detection>, family: string) {
    && InTimeOrder(ds)
    && (forall i :: 0 <= i < |ds| ==> ds[i].family == family)
    && (forall i, j :: 0 <= i < j < |ds| ==> ds[i].evidence != ds[j].evidence)
  }

  /** No case of the entity is closed. */
  ghost predicate NoneClosed(st: Store, entity: int) {
    forall id :: id in IdsOf(st, entity) && id in st.cases ==> st.cases[id].status != Closed
  }

  /** At no moment of the run does the entity have a closed case; acknowledging one is allowed. */
  ghost predicate NeverClosed(p: Policy, es: seq<Event>, entity: int) {
    forall k :: 0 <= k <= |es| ==> NoneClosed(Run(p, es[..k]).store, entity)
  }

  lemma NeverClosedPrefix(p: Policy, es: seq<Event>, entity: int)
    requires NeverClosed(p, es, entity) && es != []
    ensures NeverClosed(p, es[..|es| - 1], entity) && NoneClosed(Run(p, es[..|es| - 1]).store, entity)
  {
    hide Run, NoneClosed;
    var n := |es| - 1;
    assert forall k :: 0 <= k <= n ==> es[..n][..k] == es[..k];
  }

  /** The cases of the entity, in the order they were opened, counted exactly these sessions. */
  ghost predicate Matches(w: World, entity: int, ss: seq<seq<Detection>>) {
    var ids := IdsOf(w.store, entity);
    |ids| == |ss| && forall k :: 0 <= k < |ss| ==> ids[k] in w.counted && w.counted[ids[k]] == ss[k]
  }

  lemma {:induction false} MineIsIngested(es: seq<Event>, entity: int, k: (int, string))
    requires k in IngestedKeys(es) && k.0 == entity
    ensures exists d :: d in Mine(es, entity) && KeyOf(d) == k
  {
    var n := |es| - 1;
    IngestedKeysGrow(es);
    if k in IngestedKeys(es[..n]) {
      MineIsIngested(es[..n], entity, k);
      var d :| d in Mine(es[..n], entity) && KeyOf(d) == k;
      assert d in Mine(es, entity);
    } else {
      assert es[n].d in Mine(es, entity);
    }
  }

  lemma FreshWindow(p: Policy, before: seq<Event>, d: Detection, family: string)
    requires Timeline(Mine(before, d.entity) + [d], family)
    ensures KeyOf(d) !in Run(p, before).store.evidence
  {
    hide Run;
    EvidenceIsExact(p, before);
    var mine := Mine(before, d.entity);
    forall i | 0 <= i < |mine| ensures mine[i].evidence != d.evidence {
      assert (mine + [d])[i].evidence != (mine + [d])[|mine|].evidence;
    }
    if KeyOf(d) in IngestedKeys(before) {
      MineIsIngested(before, d.entity, KeyOf(d));
    }
    assert KeyOf(d) !in Run(p, before).store.evidence.Keys;
  }

  // ----- One step -----------------------------------------------------------

  ghost predicate SameView(st: Store, st': Store, entity: int) {
    && IdsOf(st', entity) == IdsOf(st, entity)
    && forall id :: id in IdsOf(st, entity) ==> id in st.cases && id in st'.cases && st'.cases[id] == st.cases[id]
  }

  /** A detection of another entity leaves this entity's cases and their histories alone. */
  lemma OthersDoNotInterfere(p: Policy, w: World, d: Detection, entity: int, ss: seq<seq<Detection>>)
    requires Sound(w.store) && d.entity != entity && Matches(w, entity, ss)
    ensures Matches(Advance(p, w, Ingest(d)), entity, ss)
    ensures SameView(w.store, Advance(p, w, Ingest(d)).store, entity)
  {
    hide Correlate, AllEvidenced, Points, Named, Merge, Create, CaseIdFor;
    CorrelateEffect(p, w.store, d);
    CreatedIdClash(w.store, d);
    assert Lists(w.store, entity);
    CreatedId(p, d);
  }

  /** Setting a status changes neither which cases there are nor what they counted. */
  lemma StatusDoesNotMatter(p: Policy, w: World, id: CaseId, status: Status, entity: int, ss: seq<seq<Detection>>)
    requires Sound(w.store) && Matches(w, entity, ss)
    ensures Matches(Advance(p, w, SetStatus(id, status)), entity, ss)
  {
    hide Save, Indexed, Named;
    if id in w.store.cases {
      SetStatusEffect(w.store, id, status);
    }
  }

  /** The last-seen times of matching cases are the ends of their sessions. */
  lemma SessionEnds(p: Policy, w: World, id: CaseId, s: seq<Detection>)
    requires Explained(p, w) && id in w.counted && w.counted[id] == s && InTimeOrder(s)
    ensures id in w.store.cases && s != []
    ensures w.store.cases[id].lastSeen == s[|s| - 1].at
    ensures s[0].family in w.store.cases[id].families
    ensures w.store.cases[id].family == s[0].family
  {
    hide Summarises;
    assert id in w.store.cases.Keys;
    SummaryEnds(p, w.store.cases[id], s);
  }

  lemma SummaryEnds(p: Policy, c: Case, s: seq<Detection>)
    requires Summarises(p, c, s) && InTimeOrder(s)
    ensures s != [] && c.lastSeen == s[|s| - 1].at
    ensures s[0].family in c.families && c.family == s[0].family
  {
    hide IsPeak, FuseBest, CaseIdFor;
  }

  lemma LatestIs(st: Store, entity: int, notBefore: int, family: Option<string>, k: nat)
    requires k < |IdsOf(st, entity)|
    requires IsLatest(st.cases, IdsOf(st, entity), notBefore, family, Some(k))
    ensures Latest(st, entity, notBefore, family) == Some(st.cases[IdsOf(st, entity)[k]])
  {
    var ids := IdsOf(st, entity);
    LatestIsUnique(st.cases, ids, notBefore, family, LatestIndex(st.cases, ids, notBefore, family), Some(k));
  }

  /** The case opened last is the most recently active, by more than nothing. */
  ghost predicate LeadsAtEnd(st: Store, entity: int, family: string) {
    var ids := IdsOf(st, entity);
    && ids != []
    && (forall k :: 0 <= k < |ids| ==> ids[k] in st.cases && st.cases[ids[k]].id == ids[k] && st.cases[ids[k]].status != Closed)
    && family in st.cases[ids[|ids| - 1]].families
    && (forall k :: 0 <= k < |ids| - 1 ==> st.cases[ids[k]].lastSeen < st.cases[ids[|ids| - 1]].lastSeen)
  }

  lemma LeaderIsLatest(st: Store, entity: int, notBefore: int, family: Option<string>)
    requires LeadsAtEnd(st, entity, if family.Some? then family.value else "")
             || (family.None? && exists f :: LeadsAtEnd(st, entity, f))
    ensures var ids := IdsOf(st, entity);
            var c := st.cases[ids[|ids| - 1]];
            Latest(st, entity, notBefore, family) == if c.lastSeen >= notBefore then Some(c) else None
  {
    var ids := IdsOf(st, entity);
    var n := |ids| - 1;
    if st.cases[ids[n]].lastSeen >= notBefore {
      LatestIs(st, entity, notBefore, family, n);
    } else {
      assert forall k :: 0 <= k < |ids| ==> !Eligible(st.cases, ids[k], notBefore, family);
      LatestIsUnique(st.cases, ids, notBefore, family, LatestIndex(st.cases, ids, notBefore, family), None);
    }
  }

  ghost predicate JoinsLast(p: Policy, st: Store, d: Detection) {
    var r, ids := Correlate(p, st, d), IdsOf(st, d.entity);
    ids != [] && (r.action == Grouped || r.action == Absorbed) && r.after.id == ids[|ids| - 1]
  }

  lemma WithinCoolDownJoins(p: Policy, st: Store, d: Detection)
    requires Sound(st) && KeyOf(d) !in st.evidence && p.groupWindow <= p.coolDown
    requires LeadsAtEnd(st, d.entity, d.family)
    requires var ids := IdsOf(st, d.entity); 0 <= d.at - st.cases[ids[|ids| - 1]].lastSeen <= p.coolDown
    ensures JoinsLast(p, st, d)
  {
    hide Latest, Merge, Save, Create, AllListed, AllEvidenced, Named;
    LeaderIsLatest(st, d.entity, d.at - p.groupWindow, None);
    LeaderIsLatest(st, d.entity, d.at - p.coolDown, Some(d.family));
    ReplayedExactly(st, d.entity, d.evidence);
    var ids := IdsOf(st, d.entity);
    var c := st.cases[ids[|ids| - 1]];
    MergeKeepsId(p, c, d, true);
    MergeKeepsId(p, c, d, false);
  }

  lemma PastCoolDownOpens(p: Policy, st: Store, d: Detection)
    requires Sound(st) && KeyOf(d) !in st.evidence && p.groupWindow <= p.coolDown
    requires var ids := IdsOf(st, d.entity);
             ids == [] || (LeadsAtEnd(st, d.entity, d.family) && d.at - st.cases[ids[|ids| - 1]].lastSeen > p.coolDown)
    ensures Correlate(p, st, d).action == Created
  {
    hide Merge, Save, Create, AllListed, AllEvidenced, Named;
    ReplayedExactly(st, d.entity, d.evidence);
    if IdsOf(st, d.entity) != [] {
      hide Latest;
      LeaderIsLatest(st, d.entity, d.at - p.groupWindow, None);
      LeaderIsLatest(st, d.entity, d.at - p.coolDown, Some(d.family));
    }
  }

  // ----- The refinement -----------------------------------------------------

  /** Each session is a stretch of the timeline. */
  lemma {:induction false} FlattenSlice<T>(ss: seq<seq<T>>, k: nat) returns (lo: nat)
    requires k < |ss|
    ensures lo + |ss[k]| <= |Flatten(ss)| && Flatten(ss)[lo..lo + |ss[k]|] == ss[k]
  {
    var n := |ss| - 1;
    if k == n {
      lo := |Flatten(ss[..n])|;
    } else {
      lo := FlattenSlice(ss[..n], k);
      assert Flatten(ss)[lo..lo + |ss[k]|] == Flatten(ss[..n])[lo..lo + |ss[k]|];
    }
  }

  lemma SessionInOrder(ss: seq<seq<Detection>>, k: nat, family: string)
    requires k < |ss| && Timeline(Flatten(ss), family)
    ensures InTimeOrder(ss[k]) && forall i :: 0 <= i < |ss[k]| ==> ss[k][i].family == family
  {
    var lo := FlattenSlice(ss, k);
    var ds := Flatten(ss);
    forall i | 0 <= i < |ss[k]| ensures ss[k][i] == ds[lo + i] {
    }
  }

  /** What the induction carries: the world matches the sessions of the timeline seen so far. */
  ghost predicate InStep(p: Policy, w: World, entity: int, family: string, ds: seq<Detection>, ss: seq<seq<Detection>>) {
    && Sound(w.store) && Explained(p, w) && NoneClosed(w.store, entity)
    && Timeline(ds, family) && AreMaximalRuns(p.coolDown, ss, ds)
    && Matches(w, entity, ss)
  }

  lemma CaseOfSession(p: Policy, w: World, entity: int, family: string, ds: seq<Detection>, ss: seq<seq<Detection>>, k: nat)
    requires InStep(p, w, entity, family, ds, ss) && k < |ss|
    ensures var id := IdsOf(w.store, entity)[k];
            && id in w.store.cases
            && w.store.cases[id].id == id
            && w.store.cases[id].status != Closed
            && w.store.cases[id].family == family
            && family in w.store.cases[id].families
            && ss[k] != []
            && w.store.cases[id].lastSeen == ss[k][|ss[k]| - 1].at
  {
    hide AllListed, Points, Named, Summarises, Unbroken, Apart, Evidenced, Timeline;
    SessionInOrder(ss, k, family);
    SessionEnds(p, w, IdsOf(w.store, entity)[k], ss[k]);
  }

  lemma LeaderFromSessions(p: Policy, w: World, entity: int, family: string, ds: seq<Detection>, ss: seq<seq<Detection>>)
    requires InStep(p, w, entity, family, ds, ss) && ss != []
    ensures LeadsAtEnd(w.store, entity, family)
    ensures ds != [] && w.store.cases[IdsOf(w.store, entity)[|ss| - 1]].lastSeen == ds[|ds| - 1].at
  {
    hide Sound, Explained, NoneClosed, Timeline, Unbroken;
    var ids, n := IdsOf(w.store, entity), |ss| - 1;
    forall k | 0 <= k < |ss|
      ensures ids[k] in w.store.cases && w.store.cases[ids[k]].id == ids[k] && w.store.cases[ids[k]].status != Closed
      ensures family in w.store.cases[ids[k]].families && ss[k] != []
      ensures w.store.cases[ids[k]].lastSeen == ss[k][|ss[k]| - 1].at
    {
      CaseOfSession(p, w, entity, family, ds, ss, k);
    }
    forall k | 0 <= k < n
      ensures w.store.cases[ids[k]].lastSeen < w.store.cases[ids[n]].lastSeen
    {
      assert Apart(p.coolDown, ss[k], ss[n]);
      assert ss[n][|ss[n]| - 1].at - ss[k][|ss[k]| - 1].at > p.coolDown;
    }
  }

  /** While an entity has only one family, a case id is taken only if its window is already known. */
  lemma TakenIdIsKnown(p: Policy, w: World, d: Detection, ds: seq<Detection>, ss: seq<seq<Detection>>)
    requires InStep(p, w, d.entity, d.family, ds, ss) && CaseIdFor(d) in w.store.cases
    ensures KeyOf(d) in w.store.evidence
  {
    hide AllListed, Points, Explained, NoneClosed, Timeline, AreMaximalRuns, Named;
    var id := CaseIdFor(d);
    var c := w.store.cases[id];
    ClashSharesFamily(p, w, d, ds, ss);
    NamedCase(w.store, id);
    CaseIdFixesEntity(c.entity, c.family, c.firstEvidence, d.entity, d.family, d.evidence);
    var prefix := d.family + ":";
    assert (prefix + c.firstEvidence)[|prefix|..] == c.firstEvidence;
    assert (prefix + d.evidence)[|prefix|..] == d.evidence;
    assert Evidenced(w.store, c);
  }

  lemma NamedCase(st: Store, id: CaseId)
    requires Named(st) && id in st.cases
    ensures id == CaseIdOf(st.cases[id].entity, st.cases[id].family, st.cases[id].firstEvidence)
  {
    assert IsNamed(st.cases[id], id);
  }

  lemma ClashSharesFamily(p: Policy, w: World, d: Detection, ds: seq<Detection>, ss: seq<seq<Detection>>)
    requires InStep(p, w, d.entity, d.family, ds, ss) && CaseIdFor(d) in w.store.cases
    ensures w.store.cases[CaseIdFor(d)].family == d.family
  {
    hide AllEvidenced, Points, Explained, NoneClosed, Timeline, AreMaximalRuns, Named, CaseIdFor;
    CreatedIdClash(w.store, d);
    assert Lists(w.store, d.entity);
    var ids := IdsOf(w.store, d.entity);
    var k :| 0 <= k < |ids| && ids[k] == CaseIdFor(d);
    CaseOfSession(p, w, d.entity, d.family, ds, ss, k);
  }

  lemma JoinMatches(p: Policy, w: World, d: Detection, ss: seq<seq<Detection>>)
    requires Sound(w.store) && Explained(p, w) && Matches(w, d.entity, ss) && ss != []
    requires JoinsLast(p, w.store, d)
    ensures var m := |ss| - 1;
            Matches(Advance(p, w, Ingest(d)), d.entity, ss[..m] + [ss[m] + [d]])
  {
    hide Correlate, AllEvidenced, Points, Named, Merge, Create, Summarises;
    CorrelateEffect(p, w.store, d);
    assert Lists(w.store, d.entity);
  }

  lemma OpenMatches(p: Policy, w: World, d: Detection, ss: seq<seq<Detection>>)
    requires Sound(w.store) && Explained(p, w) && Matches(w, d.entity, ss)
    requires Correlate(p, w.store, d).action == Created && CaseIdFor(d) !in w.store.cases
    ensures Matches(Advance(p, w, Ingest(d)), d.entity, ss + [[d]])
  {
    hide Correlate, AllEvidenced, Points, Named, Merge, Create, Summarises, CaseIdFor;
    CorrelateEffect(p, w.store, d);
    CreatedId(p, d);
    assert Lists(w.store, d.entity);
  }

  lemma StepJoins(p: Policy, w: World, d: Detection, ds: seq<Detection>, ss: seq<seq<Detection>>)
    requires p.groupWindow <= p.coolDown
    requires InStep(p, w, d.entity, d.family, ds, ss) && KeyOf(d) !in w.store.evidence
    requires ss == Sessions(p.coolDown, ds) && ds != [] && 0 <= d.at - ds[|ds| - 1].at <= p.coolDown
    ensures Matches(Advance(p, w, Ingest(d)), d.entity, Sessions(p.coolDown, ds + [d]))
  {
    hide Advance, Sound, Explained, NoneClosed, Timeline, AreMaximalRuns, Correlate, LeadsAtEnd, Matches, JoinsLast;
    var ds' := ds + [d];
    assert ds'[..|ds|] == ds;
    MatchesLength(w, d.entity, ss);
    LeaderFromSessions(p, w, d.entity, d.family, ds, ss);
    WithinCoolDownJoins(p, w.store, d);
    JoinMatches(p, w, d, ss);
  }

  lemma StepOpens(p: Policy, w: World, d: Detection, ds: seq<Detection>, ss: seq<seq<Detection>>)
    requires p.groupWindow <= p.coolDown
    requires InStep(p, w, d.entity, d.family, ds, ss) && KeyOf(d) !in w.store.evidence
    requires ss == Sessions(p.coolDown, ds) && (ds != [] ==> d.at - ds[|ds| - 1].at > p.coolDown)
    ensures Matches(Advance(p, w, Ingest(d)), d.entity, Sessions(p.coolDown, ds + [d]))
  {
    hide Advance, Sound, Explained, NoneClosed, Timeline, AreMaximalRuns, Correlate, CaseIdFor, LeadsAtEnd, Matches;
    var ds' := ds + [d];
    assert ds'[..|ds|] == ds;
    MatchesLength(w, d.entity, ss);
    if ds != [] {
      LeaderFromSessions(p, w, d.entity, d.family, ds, ss);
    }
    PastCoolDownOpens(p, w.store, d);
    if CaseIdFor(d) in w.store.cases {
      TakenIdIsKnown(p, w, d, ds, ss);
    }
    OpenMatches(p, w, d, ss);
  }

  lemma MatchesLength(w: World, entity: int, ss: seq<seq<Detection>>)
    requires Matches(w, entity, ss)
    ensures |IdsOf(w.store, entity)| == |ss|
  {
  }

  /**
   * Whatever else is in the stream, and whichever cases are acknowledged, the cases of an entity seen under
   * one family and never closed are, in order, the sessions of its timeline: which rule joined a detection,
   * grouping or cool-down, makes no difference.
   */
  lemma {:induction false} SessionRefinement(p: Policy, es: seq<Event>, entity: int, family: string)
    requires p.groupWindow <= p.coolDown
    requires NeverClosed(p, es, entity) && Timeline(Mine(es, entity), family)
    ensures Matches(Run(p, es), entity, Sessions(p.coolDown, Mine(es, entity)))
  {
    hide Advance, Matches, Sound, Explained, AreMaximalRuns, NoneClosed, Sessions;
    if es == [] {
      EmptyMatches(p, entity);
    } else {
      var n := |es| - 1;
      var before := es[..n];
      var ds := Mine(before, entity);
      TimelinePrefix(ds, Mine(es, entity), family);
      NeverClosedPrefix(p, es, entity);
      SessionRefinement(p, before, entity, family);
      RunIsSound(p, before);
      CasesAreSummaries(p, before);
      SessionsAreMaximalRuns(p.coolDown, ds);
      var w, ss := Run(p, before), Sessions(p.coolDown, ds);
      match es[n]
      case SetStatus(id, status) =>
        assert Mine(es, entity) == ds;
        StatusDoesNotMatter(p, w, id, status, entity, ss);
      case Ingest(d) =>
        if d.entity == entity {
          FreshWindow(p, before, d, family);
          var ds' := ds + [d];
          assert ds' == Mine(es, entity) && ds'[|ds|] == d;
          assert d.family == family by { LastFamily(ds, d, family); }
          if ds != [] && d.at - ds[|ds| - 1].at <= p.coolDown {
            assert ds'[|ds| - 1].at <= ds'[|ds|].at;
            StepJoins(p, w, d, ds, ss);
          } else {
            StepOpens(p, w, d, ds, ss);
          }
        } else {
          assert Mine(es, entity) == ds;
          OthersDoNotInterfere(p, w, d, entity, ss);
        }
    }
  }

  lemma EmptyMatches(p: Policy, entity: int)
    ensures Matches(Run(p, []), entity, Sessions(p.coolDown, Mine([], entity)))
  {
  }

  lemma LastFamily(ds: seq<Detection>, d: Detection, family: string)
    requires Timeline(ds + [d], family)
    ensures d.family == family
  {
    assert (ds + [d])[|ds|] == d;
  }

  lemma TimelinePrefix(ds: seq<Detection>, ds': seq<Detection>, family: string)
    requires ds <= ds' && Timeline(ds', family)
    ensures Timeline(ds, family) && InTimeOrder(ds')
  {
    assert forall i :: 0 <= i < |ds| ==> ds[i] == ds'[i];
  }

  /** The k-th case of the entity carries the count and the first and last times of the k-th session. */
  lemma SessionCases(p: Policy, es: seq<Event>, entity: int, family: string, k: nat)
    requires p.groupWindow <= p.coolDown
    requires NeverClosed(p, es, entity) && Timeline(Mine(es, entity), family)
    requires k < |Sessions(p.coolDown, Mine(es, entity))|
    ensures var ss, st := Sessions(p.coolDown, Mine(es, entity)), Run(p, es).store;
            && |IdsOf(st, entity)| == |ss|
            && IdsOf(st, entity)[k] in st.cases
            && ss[k] != []
            && var c, s := st.cases[IdsOf(st, entity)[k]], ss[k];
               && c.count == |s| && c.firstSeen == s[0].at && c.lastSeen == s[|s| - 1].at
               && c.id == CaseIdFor(s[0]) && c.status != Closed
  {
    hide Advance, Sound, Run, Summarises, Sessions, CaseIdFor;
    var ds := Mine(es, entity);
    var w, ss := Run(p, es), Sessions(p.coolDown, ds);
    SessionRefinement(p, es, entity, family);
    CasesAreSummaries(p, es);
    assert es[..|es|] == es;
    SessionsAreMaximalRuns(p.coolDown, ds);
    SessionInOrder(ss, k, family);
    assert IdsOf(w.store, entity)[k] in w.counted.Keys;
    SummarySpan(p, w.store.cases[IdsOf(w.store, entity)[k]], ss[k]);
  }

  lemma SummarySpan(p: Policy, c: Case, s: seq<Detection>)
    requires Summarises(p, c, s) && InTimeOrder(s)
    ensures s != [] && c.count == |s| && c.firstSeen == s[0].at && c.lastSeen == s[|s| - 1].at
    ensures c.id == CaseIdFor(s[0])
  {
    hide IsPeak, FuseBest, CaseIdFor, ListsFamilies;
  }
}
