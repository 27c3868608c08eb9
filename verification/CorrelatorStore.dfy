/** Case ids, the agreement of the store's indexes, and the effect of one detection. */
module CorrelatorStore {
  import opened Wrappers
  import opened Decimal
  import opened Correlator

  // ----- Case ids -----------------------------------------------------------

  predicate ColonFree(s: string) {
    ':' !in s
  }

  lemma ShowIntColonFree(n: int)
    ensures ColonFree(ShowInt(n))
  {
    var s := Show(if n < 0 then -n else n);
    assert forall c :: c in s ==> IsDigit(c);
  }

  lemma SplitAtColon(a: string, x: string, b: string, y: string)
    requires ColonFree(a) && ColonFree(b)
    requires a + ":" + x == b + ":" + y
    ensures a == b && x == y
  {
    var s := a + ":" + x;
    assert s[|a|] == ':' && s[|b|] == ':';
    assert forall i :: 0 <= i < |b| ==> s[i] == b[i] && b[i] in b;
    assert forall i :: 0 <= i < |a| ==> s[i] == a[i] && a[i] in a;
    assert |a| == |b|;
    assert a == s[..|a|] == s[..|b|] == b;
    assert x == s[|a| + 1..] == y;
  }

  lemma CaseIdShape(entity: int, family: string, evidence: string)
    ensures CaseIdOf(entity, family, evidence) == ShowInt(entity) + ":" + (family + ":" + evidence)
  {
  }

  lemma CaseIdFixesEntity(e1: int, f1: string, v1: string, e2: int, f2: string, v2: string)
    requires CaseIdOf(e1, f1, v1) == CaseIdOf(e2, f2, v2)
    ensures e1 == e2 && f1 + ":" + v1 == f2 + ":" + v2
  {
    CaseIdShape(e1, f1, v1);
    CaseIdShape(e2, f2, v2);
    ShowIntColonFree(e1);
    ShowIntColonFree(e2);
    SplitAtColon(ShowInt(e1), f1 + ":" + v1, ShowInt(e2), f2 + ":" + v2);
    ShowIntInjective(e1, e2);
  }

  /** Two windows get one case id exactly when they are one window, as long as no family holds a colon. */
  lemma CaseIdInjective(e1: int, f1: string, v1: string, e2: int, f2: string, v2: string)
    requires ColonFree(f1) && ColonFree(f2)
    ensures CaseIdOf(e1, f1, v1) == CaseIdOf(e2, f2, v2) <==> e1 == e2 && f1 == f2 && v1 == v2
  {
    if CaseIdOf(e1, f1, v1) == CaseIdOf(e2, f2, v2) {
      CaseIdFixesEntity(e1, f1, v1, e2, f2, v2);
      SplitAtColon(f1, v1, f2, v2);
    }
  }

  /** With a colon in a family, two different windows can share a case id. */
  lemma CaseIdCollision(entity: int)
    ensures CaseIdOf(entity, "scan", "a:b") == CaseIdOf(entity, "scan:a", "b")
  {
    CaseIdShape(entity, "scan", "a:b");
    CaseIdShape(entity, "scan:a", "b");
    assert "scan" + ":" + "a:b" == "scan:a" + ":" + "b";
  }

  // ----- Store invariant ----------------------------------------------------

  /** Every case is filed under its own id, which is made from the window that opened it. */
  ghost predicate Named(st: Store) {
    forall id :: id in st.cases ==> IsNamed(st.cases[id], id)
  }

  predicate IsNamed(c: Case, id: CaseId) {
    c.id == id && id == CaseIdOf(c.entity, c.family, c.firstEvidence)
  }

  ghost predicate DistinctIds(ids: seq<CaseId>) {
    forall i, j :: 0 <= i < j < |ids| ==> ids[i] != ids[j]
  }

  /** The list kept for an entity holds each of its cases once, and nothing else. */
  ghost predicate Lists(st: Store, entity: int) {
    && DistinctIds(IdsOf(st, entity))
    && forall id :: id in IdsOf(st, entity) <==> id in st.cases && st.cases[id].entity == entity
  }

  ghost predicate AllListed(st: Store) {
    forall e :: Lists(st, e)
  }

  /** The replay index knows every window a case retains or was opened by. */
  ghost predicate Evidenced(st: Store, c: Case) {
    && (c.entity, c.firstEvidence) in st.evidence
    && forall o :: o in c.occurrences ==>
         (c.entity, o.evidence) in st.evidence && st.evidence[(c.entity, o.evidence)] == c.id
  }

  /** The replay index points only at stored cases of the same entity. */
  ghost predicate Points(st: Store) {
    forall k :: k in st.evidence ==> st.evidence[k] in st.cases && st.cases[st.evidence[k]].entity == k.0
  }

  ghost predicate AllEvidenced(st: Store) {
    forall id :: id in st.cases ==> st.cases[id].id == id && Evidenced(st, st.cases[id])
  }

  /** The indexes agree with the cases: what the store's own lookups rely on. */
  ghost predicate Indexed(st: Store) {
    AllListed(st) && AllEvidenced(st) && Points(st)
  }

  /** The effect of recording one counted detection in a case. */
  ghost predicate Records(st: Store, st': Store, c: Case, d: Detection) {
    && c.entity == d.entity
    && st'.cases == st.cases[c.id := c]
    && st'.byEntity == (if c.id in st.cases then st.byEntity else st.byEntity[c.entity := IdsOf(st, c.entity) + [c.id]])
    && st'.evidence == st.evidence[(d.entity, d.evidence) := c.id]
  }

  /** The case that a counted detection joined, as it was before. */
  ghost predicate Joined(p: Policy, st: Store, d: Detection, r: Ingested) {
    && r.after.id in st.cases
    && st.cases[r.after.id].status != Closed
    && st.cases[r.after.id].entity == d.entity
    && r.after == Merge(p, st.cases[r.after.id], d, r.action == Grouped)
  }

  ghost predicate RetainsOnly(st: Store, c: Case, d: Detection) {
    forall o :: o in c.occurrences && o != d ==> c.id in st.cases && o in st.cases[c.id].occurrences
  }

  lemma SaveRecords(st: Store, c: Case, d: Detection)
    requires AllEvidenced(st) && c.entity == d.entity && d in c.occurrences
    requires c.id in st.cases ==> st.cases[c.id].entity == c.entity
    requires RetainsOnly(st, c, d)
    ensures Records(st, Save(st, c), c, d)
  {
    var k := (d.entity, d.evidence);
    assert k in EvidenceKeys(c);
    forall k' | k' in EvidenceKeys(c) && k' != k
      ensures k' in st.evidence && st.evidence[k'] == c.id
    {
      var o :| o in c.occurrences && k' == (c.entity, o.evidence);
      assert Evidenced(st, st.cases[c.id]);
    }
    assert st.evidence + (map k | k in EvidenceKeys(c) :: c.id) == st.evidence[k := c.id];
  }

  lemma CreatedIdClash(st: Store, d: Detection)
    requires Named(st)
    ensures CaseIdFor(d) in st.cases ==> st.cases[CaseIdFor(d)].entity == d.entity
  {
    if CaseIdFor(d) in st.cases {
      var c := st.cases[CaseIdFor(d)];
      assert IsNamed(c, CaseIdFor(d));
      CaseIdFixesEntity(c.entity, c.family, c.firstEvidence, d.entity, d.family, d.evidence);
    }
  }

  lemma LatestIsStored(st: Store, entity: int, notBefore: int, family: Option<string>)
    requires AllListed(st) && AllEvidenced(st)
    ensures var c := Latest(st, entity, notBefore, family);
            c.Some? ==> c.value.id in st.cases && st.cases[c.value.id] == c.value && c.value.entity == entity
  {
    assert Lists(st, entity);
  }

  lemma MergeRetains(p: Policy, st: Store, c: Case, d: Detection, grouped: bool)
    requires c.id in st.cases && st.cases[c.id] == c
    ensures RetainsOnly(st, Merge(p, c, d, grouped), d)
    ensures d in Merge(p, c, d, grouped).occurrences
    ensures Merge(p, c, d, grouped).id == c.id
    ensures Merge(p, c, d, grouped).firstEvidence == c.firstEvidence
  {
    LastOfAppend(c.occurrences, d, p.retention);
  }

  lemma LastOfAppend<T>(s: seq<T>, x: T, k: nat)
    requires k >= 1
    ensures x in LastOf(s + [x], k)
    ensures forall y :: y in LastOf(s + [x], k) && y != x ==> y in s
  {
    var all := s + [x];
    var kept := LastOf(all, k);
    assert kept[|kept| - 1] == x;
  }

  lemma JoinEffect(p: Policy, st: Store, c: Case, d: Detection, grouped: bool)
    requires AllEvidenced(st) && c.id in st.cases && st.cases[c.id] == c && c.entity == d.entity
    ensures var m := Merge(p, c, d, grouped); m.id == c.id && Records(st, Save(st, m), m, d)
  {
    MergeRetains(p, st, c, d, grouped);
    SaveRecords(st, Merge(p, c, d, grouped), d);
  }

  lemma CreateEffect(p: Policy, st: Store, d: Detection)
    requires AllEvidenced(st) && Named(st)
    ensures var c := Create(p, d); Records(st, Save(st, c), c, d)
  {
    CreatedIdClash(st, d);
    SaveRecords(st, Create(p, d), d);
  }

  lemma ReplayedExactly(st: Store, entity: int, evidence: string)
    requires Points(st)
    ensures var k := (entity, evidence);
            CaseWithEvidence(st, entity, evidence) == if k in st.evidence then Some(st.cases[st.evidence[k]]) else None
  {
  }

  ghost predicate IsOpenCase(st: Store, c: Case, entity: int) {
    c.id in st.cases && st.cases[c.id] == c && c.entity == entity && c.status != Closed
  }

  lemma CandidatesAreStored(p: Policy, st: Store, d: Detection)
    requires AllListed(st) && AllEvidenced(st)
    ensures GroupingCandidate(p, st, d).Some? ==> IsOpenCase(st, GroupingCandidate(p, st, d).value, d.entity)
    ensures RepeatCandidate(p, st, d).Some? ==> IsOpenCase(st, RepeatCandidate(p, st, d).value, d.entity)
  {
    hide Latest;
    LatestIsStored(st, d.entity, d.at - p.groupWindow, None);
    LatestIsStored(st, d.entity, d.at - p.coolDown, Some(d.family));
  }

  /** The four outcomes and all they change. */
  lemma CorrelateEffect(p: Policy, st: Store, d: Detection)
    requires Indexed(st) && Named(st)
    ensures var r := Correlate(p, st, d);
            && (r.action == Duplicate <==> (d.entity, d.evidence) in st.evidence)
            && (r.action == Duplicate ==> r.store == st && r.after == st.cases[st.evidence[(d.entity, d.evidence)]])
            && (r.action != Duplicate ==> Records(st, r.store, r.after, d))
            && (r.action == Created ==> r.after == Create(p, d))
            && (r.action == Grouped || r.action == Absorbed ==> Joined(p, st, d, r))
  {
    hide Merge, Create, Save, CaseWithEvidence, GroupingCandidate, RepeatCandidate, AllListed, AllEvidenced, Points, Named, Records, CaseIdFor;
    ReplayedExactly(st, d.entity, d.evidence);
    CandidatesAreStored(p, st, d);
    var r := Correlate(p, st, d);
    match r.action
    case Duplicate =>
    case Created =>
      CreateEffect(p, st, d);
    case Grouped =>
      JoinEffect(p, st, GroupingCandidate(p, st, d).value, d, true);
    case Absorbed =>
      JoinEffect(p, st, RepeatCandidate(p, st, d).value, d, false);
  }

  lemma RecordsKeepsListed(st: Store, st': Store, c: Case, d: Detection)
    requires AllListed(st) && Records(st, st', c, d)
    requires c.id in st.cases ==> st.cases[c.id].entity == c.entity
    ensures AllListed(st')
  {
    forall e ensures Lists(st', e) {
      assert Lists(st, e);
      if e == c.entity && c.id !in st.cases {
        assert IdsOf(st', e) == IdsOf(st, e) + [c.id];
      } else {
        assert IdsOf(st', e) == IdsOf(st, e);
      }
    }
  }

  lemma RecordsKeepsEvidenced(st: Store, st': Store, c: Case, d: Detection)
    requires AllEvidenced(st) && Records(st, st', c, d)
    requires (d.entity, d.evidence) !in st.evidence
    requires c.id in st.cases ==> st.cases[c.id].entity == c.entity
    requires (c.entity, c.firstEvidence) in st'.evidence
    requires RetainsOnly(st, c, d)
    ensures AllEvidenced(st')
  {
    forall id | id in st.cases ensures Evidenced(st', st.cases[id]) {
      EvidencedStays(st, st', st.cases[id], (d.entity, d.evidence), c.id);
    }
    if c.id in st.cases {
      assert Evidenced(st', st.cases[c.id]);
    }
    assert Evidenced(st', c);
  }

  lemma RecordsKeepsPoints(st: Store, st': Store, c: Case, d: Detection)
    requires Points(st) && Records(st, st', c, d)
    requires c.id in st.cases ==> st.cases[c.id].entity == c.entity
    ensures Points(st')
  {
  }

  lemma EvidencedStays(st: Store, st': Store, c: Case, k: (int, string), id: CaseId)
    requires Evidenced(st, c) && k !in st.evidence && st'.evidence == st.evidence[k := id]
    ensures Evidenced(st', c)
  {
  }

  lemma CorrelateKeepsIndexed(p: Policy, st: Store, d: Detection)
    requires Indexed(st) && Named(st)
    ensures Indexed(Correlate(p, st, d).store)
  {
    hide Correlate, AllListed, AllEvidenced, Points;
    CorrelateEffect(p, st, d);
    CreatedIdClash(st, d);
    var r := Correlate(p, st, d);
    if r.action != Duplicate {
      AfterIsAnchored(p, st, d, r);
      RecordsKeepsListed(st, r.store, r.after, d);
      RecordsKeepsEvidenced(st, r.store, r.after, d);
      RecordsKeepsPoints(st, r.store, r.after, d);
    }
  }

  lemma AfterIsAnchored(p: Policy, st: Store, d: Detection, r: Ingested)
    requires AllEvidenced(st) && (r.after == Create(p, d) || Joined(p, st, d, r))
    requires Records(st, r.store, r.after, d)
    ensures (r.after.entity, r.after.firstEvidence) in r.store.evidence
    ensures RetainsOnly(st, r.after, d)
  {
    if r.after == Create(p, d) {
      assert r.after.firstEvidence == d.evidence;
    } else {
      var c := st.cases[r.after.id];
      assert c.id == r.after.id && Evidenced(st, c);
      MergeRetains(p, st, c, d, r.action == Grouped);
    }
  }

  lemma CorrelateKeepsNamed(p: Policy, st: Store, d: Detection)
    requires Indexed(st) && Named(st)
    ensures Named(Correlate(p, st, d).store)
  {
    hide Correlate, Indexed, Merge, Create, CaseIdOf;
    CorrelateEffect(p, st, d);
    var r := Correlate(p, st, d);
    if r.action != Duplicate {
      MergedOrNewIsNamed(p, st, d, r);
      assert r.store.cases == st.cases[r.after.id := r.after];
    }
  }

  lemma MergedOrNewIsNamed(p: Policy, st: Store, d: Detection, r: Ingested)
    requires Named(st) && (r.after == Create(p, d) || Joined(p, st, d, r))
    ensures IsNamed(r.after, r.after.id)
  {
    if r.after != Create(p, d) {
      assert IsNamed(st.cases[r.after.id], r.after.id);
    }
  }
}
