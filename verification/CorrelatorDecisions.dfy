/** Which case a new window joins, read off the stored cases alone. */
module CorrelatorDecisions {
  import opened Wrappers
  import opened Correlator
  import opened CorrelatorStore
  import opened CorrelatorRuns

  // ----- The newest case ------------------------------------------------------

  /** A case of the entity that was active at `since` or later, and that carries the family when one is asked for. */
  ghost predicate IsFresh(st: Store, entity: int, since: int, family: Option<string>, id: CaseId) {
    && id in st.cases && st.cases[id].entity == entity && since <= st.cases[id].lastSeen
    && (family.Some? ==> family.value in st.cases[id].families)
  }

  /** The entity's list names the case, and every fresh case named before it is strictly older. */
  ghost predicate FirstAmongEquals(st: Store, entity: int, since: int, family: Option<string>, id: CaseId)
    requires id in st.cases
  {
    entity in st.byEntity &&
    var ids := st.byEntity[entity];
    exists k :: 0 <= k < |ids| && ids[k] == id
                && forall j :: 0 <= j < k && IsFresh(st, entity, since, family, ids[j]) ==>
                     st.cases[ids[j]].lastSeen < st.cases[id].lastSeen
  }

  /** The fresh case that was active last, and of several such the one opened first. */
  ghost predicate IsNewest(st: Store, entity: int, since: int, family: Option<string>, id: CaseId) {
    && IsFresh(st, entity, since, family, id)
    && (forall other :: IsFresh(st, entity, since, family, other) ==> st.cases[other].lastSeen <= st.cases[id].lastSeen)
    && FirstAmongEquals(st, entity, since, family, id)
  }

  lemma FreshIsEligible(st: Store, entity: int, since: int, family: Option<string>)
    requires AllListed(st)
    ensures forall id :: IsFresh(st, entity, since, family, id)
                         <==> id in IdsOf(st, entity) && Eligible(st.cases, id, since, family)
  {
    assert Lists(st, entity);
  }

  lemma LatestIsNewest(st: Store, entity: int, since: int, family: Option<string>)
    requires AllListed(st) && AllEvidenced(st)
    ensures var c := Latest(st, entity, since, family);
            && (c.None? ==> forall id :: !IsFresh(st, entity, since, family, id))
            && (c.Some? ==> IsNewest(st, entity, since, family, c.value.id) && st.cases[c.value.id] == c.value)
  {
    hide AllListed, AllEvidenced, LatestIndex, Evidenced;
    FreshIsEligible(st, entity, since, family);
    var ids := IdsOf(st, entity);
    var i := LatestIndex(st.cases, ids, since, family);
    assert IsLatest(st.cases, ids, since, family, i);
    if i.Some? {
      var id := ids[i.value];
      assert id in ids;
      assert IsFresh(st, entity, since, family, id);
      CaseKnowsItsId(st, id);
      assert Latest(st, entity, since, family) == Some(st.cases[id]);
      assert forall j :: 0 <= j < i.value ==> ids[j] in ids;
      assert FirstAmongEquals(st, entity, since, family, id);
    }
  }

  lemma CaseKnowsItsId(st: Store, id: CaseId)
    requires AllEvidenced(st) && id in st.cases
    ensures st.cases[id].id == id
  {
  }

  /** There is at most one newest case. */
  lemma NewestIsUnique(st: Store, entity: int, since: int, family: Option<string>, a: CaseId, b: CaseId)
    requires IsNewest(st, entity, since, family, a) && IsNewest(st, entity, since, family, b)
    ensures a == b
  {
    var ids := st.byEntity[entity];
    var j :| 0 <= j < |ids| && ids[j] == a
             && forall i :: 0 <= i < j && IsFresh(st, entity, since, family, ids[i]) ==> st.cases[ids[i]].lastSeen < st.cases[a].lastSeen;
    var k :| 0 <= k < |ids| && ids[k] == b
             && forall i :: 0 <= i < k && IsFresh(st, entity, since, family, ids[i]) ==> st.cases[ids[i]].lastSeen < st.cases[b].lastSeen;
    assert st.cases[a].lastSeen == st.cases[b].lastSeen;
    assert IsFresh(st, entity, since, family, a) && IsFresh(st, entity, since, family, b);
  }

  // ----- What the window joins ------------------------------------------------

  /** The entity's newest case can group the window: near it in time, not closed, and without its modality. */
  ghost predicate Groups(p: Policy, st: Store, d: Detection, id: CaseId) {
    && IsNewest(st, d.entity, d.at - p.groupWindow, None, id)
    && d.at - p.groupWindow <= st.cases[id].lastSeen <= d.at + p.groupWindow
    && st.cases[id].status != Closed
    && forall o :: o in st.cases[id].occurrences ==> o.modality != d.modality
  }

  /** The entity's newest case of the family, within the cool-down, is not closed. */
  ghost predicate RepeatsIn(p: Policy, st: Store, d: Detection, id: CaseId) {
    && IsNewest(st, d.entity, d.at - p.coolDown, Some(d.family), id)
    && st.cases[id].status != Closed
  }

  ghost predicate SomeGroups(p: Policy, st: Store, d: Detection) {
    exists id :: Groups(p, st, d, id)
  }

  ghost predicate SomeRepeats(p: Policy, st: Store, d: Detection) {
    exists id :: RepeatsIn(p, st, d, id)
  }

  lemma GroupingIsGroups(p: Policy, st: Store, d: Detection)
    requires AllListed(st) && AllEvidenced(st)
    ensures GroupingCandidate(p, st, d).Some? <==> SomeGroups(p, st, d)
    ensures GroupingCandidate(p, st, d).Some? ==> Groups(p, st, d, GroupingCandidate(p, st, d).value.id)
  {
    hide AllListed, AllEvidenced, Latest, IsNewest;
    var since := d.at - p.groupWindow;
    var c := Latest(st, d.entity, since, None);
    LatestIsNewest(st, d.entity, since, None);
    NewestMeans(st, d.entity, since, None);
    if c.Some? {
      assert IsNewest(st, d.entity, since, None, c.value.id);
      if GroupingCandidate(p, st, d).Some? {
        assert Groups(p, st, d, c.value.id);
      }
    }
    forall id | Groups(p, st, d, id) ensures GroupingCandidate(p, st, d).Some? {
      if c.Some? {
        NewestIsUnique(st, d.entity, since, None, id, c.value.id);
      }
    }
  }

  lemma NewestMeans(st: Store, entity: int, since: int, family: Option<string>)
    ensures forall id :: IsNewest(st, entity, since, family, id) ==> IsFresh(st, entity, since, family, id)
  {
  }

  lemma RepeatIsRepeats(p: Policy, st: Store, d: Detection)
    requires AllListed(st) && AllEvidenced(st)
    ensures RepeatCandidate(p, st, d).Some? <==> SomeRepeats(p, st, d)
    ensures RepeatCandidate(p, st, d).Some? ==> RepeatsIn(p, st, d, RepeatCandidate(p, st, d).value.id)
  {
    hide AllListed, AllEvidenced, Latest, IsNewest;
    var since := d.at - p.coolDown;
    var c := Latest(st, d.entity, since, Some(d.family));
    LatestIsNewest(st, d.entity, since, Some(d.family));
    NewestMeans(st, d.entity, since, Some(d.family));
    if c.Some? {
      if RepeatCandidate(p, st, d).Some? {
        assert RepeatsIn(p, st, d, c.value.id);
      }
    }
    forall id | RepeatsIn(p, st, d, id) ensures RepeatCandidate(p, st, d).Some? {
      if c.Some? {
        NewestIsUnique(st, d.entity, since, Some(d.family), id, c.value.id);
      }
    }
  }

  lemma ActionFollows(p: Policy, st: Store, d: Detection)
    requires Points(st) && KeyOf(d) !in st.evidence
    ensures var r, g, a := Correlate(p, st, d), GroupingCandidate(p, st, d), RepeatCandidate(p, st, d);
            && (r.action == Grouped <==> g.Some?) && (r.action == Absorbed <==> g.None? && a.Some?)
            && (r.action == Created <==> g.None? && a.None?)
            && r.after.id == if g.Some? then g.value.id else if a.Some? then a.value.id else CaseIdFor(d)
  {
    hide GroupingCandidate, RepeatCandidate, CaseWithEvidence, Save, FuseBest, CaseIdFor;
    ReplayedExactly(st, d.entity, d.evidence);
  }

  /**
   * A new window is grouped exactly when some case groups it, absorbed exactly when none does and some case
   * repeats it, and opens a case exactly when neither is so; and the case it joined is that one.
   */
  lemma DecidesExactly(p: Policy, st: Store, d: Detection)
    requires Sound(st) && KeyOf(d) !in st.evidence
    ensures var r := Correlate(p, st, d);
            && (r.action == Grouped <==> SomeGroups(p, st, d))
            && (r.action == Absorbed <==> !SomeGroups(p, st, d) && SomeRepeats(p, st, d))
            && (r.action == Created <==> !SomeGroups(p, st, d) && !SomeRepeats(p, st, d))
            && (r.action == Grouped ==> Groups(p, st, d, r.after.id))
            && (r.action == Absorbed ==> RepeatsIn(p, st, d, r.after.id))
            && (r.action == Created ==> r.after.id == CaseIdFor(d))
  {
    hide Correlate, GroupingCandidate, RepeatCandidate, AllListed, AllEvidenced, Points, Named, SomeGroups, SomeRepeats,
         Groups, RepeatsIn, CaseIdFor;
    GroupingIsGroups(p, st, d);
    RepeatIsRepeats(p, st, d);
    ActionFollows(p, st, d);
  }

  // ----- Two windows of one entity --------------------------------------------

  lemma OnlyCase(p: Policy, d: Detection)
    ensures var st := Save(EMPTY_STORE, Create(p, d));
            var id := CaseIdFor(d);
            && Run(p, [Ingest(d)]).store == st
            && st.cases.Keys == {id} && st.byEntity == map[d.entity := [id]] && st.evidence.Keys == {KeyOf(d)}
            && st.cases[id] == Create(p, d)
  {
    hide CaseIdFor, FuseBest, GroupingCandidate, RepeatCandidate;
    var es, c := [Ingest(d)], Create(p, d);
    assert es[..0] == [];
    NothingJoinsYet(p, d);
    ActionFollows(p, EMPTY_STORE, d);
    assert Run(p, es).store == Correlate(p, Run(p, []).store, d).store;
    assert c.occurrences == [d];
    SavedFirst(c, d);
  }

  lemma SavedFirst(c: Case, d: Detection)
    requires c.occurrences == [d] && c.entity == d.entity
    ensures var st := Save(EMPTY_STORE, c);
            && st.cases == map[c.id := c] && st.byEntity == map[c.entity := [c.id]] && st.evidence.Keys == {KeyOf(d)}
  {
    var st := Save(EMPTY_STORE, c);
    assert EvidenceKeys(c) == {KeyOf(d)};
    assert IdsOf(EMPTY_STORE, c.entity) + [c.id] == [c.id];
    assert st.evidence.Keys == EvidenceKeys(c);
  }

  lemma NothingJoinsYet(p: Policy, d: Detection)
    ensures GroupingCandidate(p, EMPTY_STORE, d).None? && RepeatCandidate(p, EMPTY_STORE, d).None?
    ensures Points(EMPTY_STORE)
  {
  }

  lemma OnlyCaseFields(p: Policy, d: Detection)
    ensures var c := Create(p, d);
            && c.entity == d.entity && c.lastSeen == d.at && c.families == [d.family] && c.status == Open && c.occurrences == [d]
  {
  }

  /** The store's one case is newest exactly when it is fresh. */
  lemma NewestOfOne(st: Store, entity: int, since: int, family: Option<string>, id: CaseId)
    requires st.cases.Keys == {id} && st.byEntity == map[entity := [id]]
    ensures forall x :: IsNewest(st, entity, since, family, x) <==> x == id && IsFresh(st, entity, since, family, id)
  {
    assert forall x :: x in st.cases <==> x in st.cases.Keys;
    if IsFresh(st, entity, since, family, id) {
      assert st.byEntity[entity][0] == id;
      assert FirstAmongEquals(st, entity, since, family, id);
    }
  }

  /**
   * What becomes of a second window of an entity: grouped within the group window of the first when the
   * modalities differ, absorbed within the cool-down after it when the families agree, and otherwise a new case.
   */
  lemma SecondWindow(p: Policy, first: Detection, second: Detection)
    requires first.entity == second.entity && first.evidence != second.evidence
    ensures var r := Correlate(p, Run(p, [Ingest(first)]).store, second);
            var near := first.modality != second.modality
                        && second.at - p.groupWindow <= first.at <= second.at + p.groupWindow;
            var repeat := first.family == second.family && second.at - p.coolDown <= first.at;
            && r.action == (if near then Grouped else if repeat then Absorbed else Created)
            && r.after.id == if near || repeat then CaseIdFor(first) else CaseIdFor(second)
  {
    hide Correlate, Run, Sound, CaseIdFor, Create, IsNewest, Save, FuseBest;
    var st, id := Run(p, [Ingest(first)]).store, CaseIdFor(first);
    OnlyCase(p, first);
    OnlyCaseFields(p, first);
    RunIsSound(p, [Ingest(first)]);
    assert KeyOf(second) !in st.evidence.Keys;
    NewestOfOne(st, first.entity, second.at - p.groupWindow, None, id);
    NewestOfOne(st, first.entity, second.at - p.coolDown, Some(second.family), id);
    assert id in st.cases.Keys;
    assert forall x :: Groups(p, st, second, x) ==> x == id;
    assert forall x :: RepeatsIn(p, st, second, x) ==> x == id;
    DecidesExactly(p, st, second);
    assert SomeGroups(p, st, second) <==> Groups(p, st, second, id);
    assert SomeRepeats(p, st, second) <==> RepeatsIn(p, st, second, id);
  }

  // ----- A minute and a quarter of an hour --------------------------------------

  const SECOND := 1_000_000

  function FlowScan(entity: int): Detection {
    Detection(entity, "scan", Flow, 0.5, 0, "w1", None, None)
  }

  function LogBeacon(entity: int, at: int): Detection {
    Detection(entity, "beacon", Log, 0.5, at, "w2", None, None)
  }

  /** The shipped windows: sixty seconds to group, nine hundred to repeat. */
  predicate ShippedWindows(p: Policy) {
    p.groupWindow == 60 * SECOND && p.coolDown == 900 * SECOND
  }

  lemma TwoCases(p: Policy, entity: int, at: int)
    requires Correlate(p, Run(p, [Ingest(FlowScan(entity))]).store, LogBeacon(entity, at)).action == Created
    ensures var st := Run(p, [Ingest(FlowScan(entity)), Ingest(LogBeacon(entity, at))]).store;
            var a, b := CaseIdFor(FlowScan(entity)), CaseIdFor(LogBeacon(entity, at));
            a != b && st.cases.Keys == {a, b} && st.cases[a].count == 1 && st.cases[b].count == 1
  {
    hide Correlate, Sound, Create, Save, CaseIdOf, Points;
    var first, second := FlowScan(entity), LogBeacon(entity, at);
    var es := [Ingest(first), Ingest(second)];
    assert es[..1] == [Ingest(first)];
    OnlyCase(p, first);
    RunIsSound(p, es[..1]);
    var st := Run(p, es[..1]).store;
    CorrelateCreates(p, st, second);
    CaseIdInjective(entity, "scan", "w1", entity, "beacon", "w2");
    CreatedCounts(p, first);
    CreatedCounts(p, second);
    assert Run(p, es).store == Correlate(p, st, second).store;
  }

  lemma CreatedCounts(p: Policy, d: Detection)
    ensures Create(p, d).count == 1 && Create(p, d).id == CaseIdFor(d)
  {
  }

  lemma CorrelateCreates(p: Policy, st: Store, d: Detection)
    requires Sound(st) && Correlate(p, st, d).action == Created
    ensures Correlate(p, st, d).store.cases == st.cases[Create(p, d).id := Create(p, d)]
  {
    hide Correlate, Create, Save, AllListed, AllEvidenced, Points, Named;
    CorrelateEffect(p, st, d);
  }

  /** Under the shipped windows a log window joins a flow window of another family exactly up to a minute away. */
  lemma MinuteGroups(p: Policy, entity: int, at: int)
    requires ShippedWindows(p)
    ensures var r := Correlate(p, Run(p, [Ingest(FlowScan(entity))]).store, LogBeacon(entity, at));
            && (r.action == Grouped <==> -60 * SECOND <= at <= 60 * SECOND)
            && (r.action == Created <==> at < -60 * SECOND || at > 60 * SECOND)
  {
    hide Correlate, Run;
    SecondWindow(p, FlowScan(entity), LogBeacon(entity, at));
  }

  /** Five minutes apart, they are two cases of one window each. */
  lemma FiveMinutesApart(p: Policy, entity: int)
    requires ShippedWindows(p)
    ensures var st := Run(p, [Ingest(FlowScan(entity)), Ingest(LogBeacon(entity, 300 * SECOND))]).store;
            var a, b := CaseIdFor(FlowScan(entity)), CaseIdFor(LogBeacon(entity, 300 * SECOND));
            a != b && st.cases.Keys == {a, b} && st.cases[a].count == 1 && st.cases[b].count == 1
  {
    hide Correlate, Run, CaseIdFor;
    MinuteGroups(p, entity, 300 * SECOND);
    TwoCases(p, entity, 300 * SECOND);
  }
}
