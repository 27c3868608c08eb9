/** Where the grouped flag and the status of a case come from: the events of its run. */
module CorrelatorFlags {
  import opened Wrappers
  import opened Correlator
  import opened CorrelatorStore
  import opened CorrelatorRuns
  import opened CorrelatorHistory
  import opened CorrelatorDecisions

  // ----- What an event does to a case ---------------------------------------

  /** The event is a new window that the case groups. */
  ghost predicate GroupsInto(p: Policy, st: Store, e: Event, id: CaseId) {
    e.Ingest? && KeyOf(e.d) !in st.evidence && Groups(p, st, e.d, id)
  }

  /** The event is a new window that no case takes in, and its case gets this id. */
  ghost predicate Opens(p: Policy, st: Store, e: Event, id: CaseId) {
    && e.Ingest? && KeyOf(e.d) !in st.evidence
    && !SomeGroups(p, st, e.d) && !SomeRepeats(p, st, e.d) && CaseIdFor(e.d) == id
  }

  predicate SetsStatus(e: Event, id: CaseId) {
    e.SetStatus? && e.id == id
  }

  /** The case groups the window exactly when correlating it groups it there. */
  lemma GroupedThere(p: Policy, st: Store, d: Detection, id: CaseId)
    requires Sound(st) && KeyOf(d) !in st.evidence
    ensures Groups(p, st, d, id) <==> Correlate(p, st, d).action == Grouped && Correlate(p, st, d).after.id == id
  {
    hide Correlate, Sound, RepeatsIn, IsNewest;
    DecidesExactly(p, st, d);
    var r := Correlate(p, st, d);
    if Groups(p, st, d, id) {
      assert SomeGroups(p, st, d);
      NewestIsUnique(st, d.entity, d.at - p.groupWindow, None, id, r.after.id);
    }
  }

  lemma MergedFlags(p: Policy, c: Case, d: Detection, grouped: bool)
    ensures Merge(p, c, d, grouped).status == c.status && (Merge(p, c, d, grouped).grouped <==> c.grouped || grouped)
    ensures Create(p, d).status == Open && !Create(p, d).grouped && Create(p, d).id == CaseIdFor(d)
  {
    hide FuseBest, CaseIdFor;
  }

  /** The flag and the status of a case after an event. */
  ghost predicate FlagsFollow(p: Policy, st: Store, st': Store, e: Event, id: CaseId)
    requires id in st'.cases
  {
    if Opens(p, st, e, id) then st'.cases[id].status == Open && !st'.cases[id].grouped
    else
      && id in st.cases
      && st'.cases[id].status == (if SetsStatus(e, id) then e.status else st.cases[id].status)
      && (st'.cases[id].grouped <==> st.cases[id].grouped || GroupsInto(p, st, e, id))
  }

  lemma IngestFlags(p: Policy, st: Store, d: Detection, id: CaseId)
    requires Sound(st) && id in Correlate(p, st, d).store.cases
    ensures FlagsFollow(p, st, Correlate(p, st, d).store, Ingest(d), id)
  {
    hide Correlate, AllListed, AllEvidenced, Points, Named, Groups, RepeatsIn, SomeGroups, SomeRepeats, CaseIdFor, Merge, Create;
    CorrelateEffect(p, st, d);
    var r := Correlate(p, st, d);
    if KeyOf(d) !in st.evidence {
      DecidesExactly(p, st, d);
      GroupedThere(p, st, d, id);
      if r.action == Created {
        MergedFlags(p, r.after, d, false);
      } else {
        MergedFlags(p, st.cases[r.after.id], d, r.action == Grouped);
      }
    }
  }

  lemma AdvanceFlags(p: Policy, w: World, e: Event, id: CaseId)
    requires Sound(w.store) && id in Advance(p, w, e).store.cases
    ensures FlagsFollow(p, w.store, Advance(p, w, e).store, e, id)
  {
    hide Correlate, Save, Sound, Groups, SomeGroups, SomeRepeats, CaseIdFor;
    match e
    case Ingest(d) => IngestFlags(p, w.store, d, id);
    case SetStatus(id', status) =>
      if id' in w.store.cases {
        SetStatusHere(w.store, id', status);
      }
  }

  lemma SetStatusHere(st: Store, id: CaseId, status: Status)
    requires Sound(st) && id in st.cases
    ensures Save(st, st.cases[id].(status := status)).cases == st.cases[id := st.cases[id].(status := status)]
  {
    hide AllListed, AllEvidenced, Points, Named, Save;
    SetStatusEffect(st, id, status);
  }

  // ----- Over runs ----------------------------------------------------------

  /** The window at `k` joined the case by grouping, and no event since opened a case under the id. */
  ghost predicate GroupedAt(p: Policy, es: seq<Event>, id: CaseId, k: nat) {
    && k < |es| && GroupsInto(p, Run(p, es[..k]).store, es[k], id)
    && forall j :: k < j < |es| ==> !Opens(p, Run(p, es[..j]).store, es[j], id)
  }

  /** A window joined the case by grouping since it was opened. */
  ghost predicate GroupedSinceOpened(p: Policy, es: seq<Event>, id: CaseId) {
    exists k :: GroupedAt(p, es, id, k)
  }

  /** The event sets the case's status, or opens the case. */
  ghost predicate Settles(p: Policy, st: Store, e: Event, id: CaseId) {
    SetsStatus(e, id) || Opens(p, st, e, id)
  }

  /** The event leaves the case with this status: an opened case is open. */
  ghost predicate SettlesAs(p: Policy, st: Store, e: Event, id: CaseId, status: Status) {
    e == SetStatus(id, status) || (status == Open && Opens(p, st, e, id))
  }

  /** The event at `k` settles the case's status, and no later one does. */
  ghost predicate SettledAt(p: Policy, es: seq<Event>, id: CaseId, status: Status, k: nat) {
    && k < |es| && SettlesAs(p, Run(p, es[..k]).store, es[k], id, status)
    && forall j :: k < j < |es| ==> !Settles(p, Run(p, es[..j]).store, es[j], id)
  }

  /** The last event that opened the case or set its status left it with this one. */
  ghost predicate StatusLastSet(p: Policy, es: seq<Event>, id: CaseId, status: Status) {
    exists k :: SettledAt(p, es, id, status, k)
  }

  lemma Prefixes(es: seq<Event>, n: nat)
    requires n <= |es|
    ensures forall k :: 0 <= k < n ==> es[..n][..k] == es[..k] && es[..n][k] == es[k]
  {
  }

  lemma GroupedAtOneMore(p: Policy, es: seq<Event>, id: CaseId, k: nat)
    requires es != []
    ensures var n := |es| - 1;
            GroupedAt(p, es, id, k)
            <==> if k == n then GroupsInto(p, Run(p, es[..n]).store, es[n], id)
                 else GroupedAt(p, es[..n], id, k) && !Opens(p, Run(p, es[..n]).store, es[n], id)
    ensures GroupedAt(p, es[..|es| - 1], id, k) ==> k != |es| - 1
  {
    hide Run, GroupsInto, Opens;
    Prefixes(es, |es| - 1);
  }

  lemma GroupedOneMore(p: Policy, es: seq<Event>, id: CaseId)
    requires es != []
    ensures var n := |es| - 1;
            GroupedSinceOpened(p, es, id)
            <==> GroupsInto(p, Run(p, es[..n]).store, es[n], id)
                 || (GroupedSinceOpened(p, es[..n], id) && !Opens(p, Run(p, es[..n]).store, es[n], id))
  {
    hide Run, GroupsInto, Opens, GroupedAt;
    var n := |es| - 1;
    forall k: nat
      ensures GroupedAt(p, es, id, k)
              <==> if k == n then GroupsInto(p, Run(p, es[..n]).store, es[n], id)
                   else GroupedAt(p, es[..n], id, k) && !Opens(p, Run(p, es[..n]).store, es[n], id)
      ensures GroupedAt(p, es[..n], id, k) ==> k != n
    {
      GroupedAtOneMore(p, es, id, k);
    }
    assert GroupedAt(p, es, id, n) <==> GroupsInto(p, Run(p, es[..n]).store, es[n], id);
  }

  lemma SettledOneMore(p: Policy, es: seq<Event>, id: CaseId, status: Status, k: nat)
    requires es != []
    ensures var n := |es| - 1;
            SettledAt(p, es, id, status, k)
            <==> if k == n then SettlesAs(p, Run(p, es[..n]).store, es[n], id, status)
                 else SettledAt(p, es[..n], id, status, k) && !Settles(p, Run(p, es[..n]).store, es[n], id)
  {
    hide Run, Settles, SettlesAs;
    Prefixes(es, |es| - 1);
  }

  lemma StatusOneMore(p: Policy, es: seq<Event>, id: CaseId, status: Status)
    requires es != []
    ensures var n := |es| - 1;
            StatusLastSet(p, es, id, status)
            <==> SettlesAs(p, Run(p, es[..n]).store, es[n], id, status)
                 || (StatusLastSet(p, es[..n], id, status) && !Settles(p, Run(p, es[..n]).store, es[n], id))
  {
    hide Run, Settles, SettlesAs, SettledAt;
    var n := |es| - 1;
    forall k: nat ensures SettledAt(p, es, id, status, k)
                          <==> if k == n then SettlesAs(p, Run(p, es[..n]).store, es[n], id, status)
                               else SettledAt(p, es[..n], id, status, k) && !Settles(p, Run(p, es[..n]).store, es[n], id) {
      SettledOneMore(p, es, id, status, k);
    }
    assert SettledAt(p, es, id, status, n) <==> SettlesAs(p, Run(p, es[..n]).store, es[n], id, status);
    forall k | SettledAt(p, es[..n], id, status, k) ensures k != n {
      InRange(p, es[..n], id, status, k);
    }
  }

  lemma InRange(p: Policy, es: seq<Event>, id: CaseId, status: Status, k: nat)
    requires SettledAt(p, es, id, status, k)
    ensures k < |es|
  {
    hide Run, Settles, SettlesAs;
  }

  /**
   * After any run, a case is flagged grouped exactly when a window joined it by grouping since it was opened,
   * and its status is the one last set, or open when none was since.
   */
  lemma {:induction false} FlagsAreExact(p: Policy, es: seq<Event>, id: CaseId)
    requires id in Run(p, es).store.cases
    ensures Run(p, es).store.cases[id].grouped <==> GroupedSinceOpened(p, es, id)
    ensures forall s: Status :: Run(p, es).store.cases[id].status == s <==> StatusLastSet(p, es, id, s)
  {
    hide Advance, Sound, Opens, GroupsInto, GroupedSinceOpened, StatusLastSet, Settles, SettlesAs;
    var n := |es| - 1;
    assert es != [];
    var w := Run(p, es[..n]);
    RunIsSound(p, es[..n]);
    AdvanceFlags(p, w, es[n], id);
    GroupedOneMore(p, es, id);
    NotBoth(p, w.store, es[n], id);
    if !Opens(p, w.store, es[n], id) {
      FlagsAreExact(p, es[..n], id);
    }
    forall s: Status ensures Run(p, es).store.cases[id].status == s <==> StatusLastSet(p, es, id, s) {
      StatusOneMore(p, es, id, s);
    }
  }

  lemma NotBoth(p: Policy, st: Store, e: Event, id: CaseId)
    ensures !(Opens(p, st, e, id) && GroupsInto(p, st, e, id))
    ensures !(Opens(p, st, e, id) && SetsStatus(e, id))
    ensures Settles(p, st, e, id) <==> SetsStatus(e, id) || Opens(p, st, e, id)
    ensures forall s: Status :: SettlesAs(p, st, e, id, s) <==> e == SetStatus(id, s) || (s == Open && Opens(p, st, e, id))
  {
    hide Groups, SomeRepeats;
  }
}
