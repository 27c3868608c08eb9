/** What a stored case says about the detections it counted, and how it may change over a run. */
module CorrelatorHistory {
  import opened Wrappers
  import opened Correlator
  import opened CorrelatorStore
  import opened CorrelatorRuns

  // ----- A case is a summary of its history ---------------------------------

  /** The composite score after the first `k` detections of a history, over the window then retained. */
  function Composite(p: Policy, h: seq<Detection>, k: nat): Score
    requires 1 <= k <= |h|
  {
    FuseBest(p, LastOf(h[..k], p.retention)).score
  }

  ghost predicate OpenedBy(p: Policy, c: Case, d: Detection) {
    && c.id == CaseIdFor(d)
    && c.entity == d.entity && c.family == d.family && c.firstEvidence == d.evidence
    && c.firstScore == FuseBest(p, [d]).score
    && c.firstSeverity == Band(p.bands, c.firstScore)
  }

  ghost predicate SpansTimes(c: Case, h: seq<Detection>) {
    && (exists i :: 0 <= i < |h| && h[i].at == c.firstSeen)
    && (exists i :: 0 <= i < |h| && h[i].at == c.lastSeen)
    && (forall i :: 0 <= i < |h| ==> c.firstSeen <= h[i].at <= c.lastSeen)
  }

  /** The first family is seen in the history before the second is. */
  ghost predicate SeenBefore(h: seq<Detection>, first: string, second: string) {
    exists a :: 0 <= a < |h| && h[a].family == first && forall b :: 0 <= b <= a ==> h[b].family != second
  }

  /** The families of the history, each once, in the order of their first appearance. */
  ghost predicate ListsFamilies(c: Case, h: seq<Detection>) {
    && (forall i, j :: 0 <= i < j < |c.families| ==> SeenBefore(h, c.families[i], c.families[j]))
    && (forall i, j :: 0 <= i < j < |c.families| ==> c.families[i] != c.families[j])
    && (forall i :: 0 <= i < |h| ==> h[i].family in c.families)
    && (forall f :: f in c.families ==> exists i :: 0 <= i < |h| && h[i].family == f)
    && |c.families| >= 1 && c.families[0] == c.family
  }

  ghost predicate IsPeak(p: Policy, score: Score, h: seq<Detection>) {
    && (exists k :: 1 <= k <= |h| && Composite(p, h, k) == score)
    && (forall k :: 1 <= k <= |h| ==> Composite(p, h, k) <= score)
  }

  /** A trace parent that says something. */
  predicate Traced(t: Option<string>) {
    t.Some? && t.value != ""
  }

  /** The first trace parent of the history that says something, and the last one when none does. */
  ghost predicate IsTrace(t: Option<string>, h: seq<Detection>) {
    if exists i :: 0 <= i < |h| && Traced(h[i].traceparent)
    then exists i :: 0 <= i < |h| && Traced(h[i].traceparent) && t == h[i].traceparent
                     && forall j :: 0 <= j < i ==> !Traced(h[j].traceparent)
    else |h| >= 1 && t == h[|h| - 1].traceparent
  }

  /** The fields of a case, read off the detections it counted, in order. */
  ghost predicate Summarises(p: Policy, c: Case, h: seq<Detection>) {
    && |h| >= 1
    && OpenedBy(p, c, h[0])
    && (forall i :: 0 <= i < |h| ==> h[i].entity == c.entity)
    && c.count == |h|
    && c.occurrences == LastOf(h, p.retention)
    && c.partial == FuseBest(p, LastOf(h, p.retention)).partial
    && SpansTimes(c, h)
    && ListsFamilies(c, h)
    && IsPeak(p, c.score, h)
    && c.severity == Band(p.bands, c.score)
    && IsTrace(c.traceparent, h)
  }

  lemma CreatedSummarises(p: Policy, d: Detection)
    ensures Summarises(p, Create(p, d), [d])
  {
    hide CaseIdFor, FuseBest;
    var h := [d];
    assert h[..1] == h && h[0].at == d.at && h[0].family == d.family;
    assert Composite(p, h, 1) == FuseBest(p, h).score;
    assert h[0].traceparent == d.traceparent;
  }

  lemma WindowSlides(h: seq<Detection>, d: Detection, k: nat)
    requires k >= 1
    ensures LastOf(LastOf(h, k) + [d], k) == LastOf(h + [d], k)
  {
  }

  lemma CompositePrefix(p: Policy, h: seq<Detection>, d: Detection, k: nat)
    requires 1 <= k <= |h|
    ensures Composite(p, h + [d], k) == Composite(p, h, k)
  {
    assert (h + [d])[..k] == h[..k];
  }

  lemma PeakGrows(p: Policy, score: Score, h: seq<Detection>, d: Detection)
    requires |h| >= 1 && IsPeak(p, score, h)
    ensures var fused := FuseBest(p, LastOf(h + [d], p.retention));
            IsPeak(p, if fused.score > score then fused.score else score, h + [d])
  {
    hide FuseBest;
    var h' := h + [d];
    var fused := FuseBest(p, LastOf(h', p.retention));
    assert h'[..|h'|] == h';
    assert Composite(p, h', |h'|) == fused.score;
    forall k | 1 <= k <= |h| ensures Composite(p, h', k) == Composite(p, h, k) {
      CompositePrefix(p, h, d, k);
    }
  }

  lemma TimesGrow(p: Policy, c: Case, h: seq<Detection>, d: Detection, grouped: bool)
    requires SpansTimes(c, h)
    ensures SpansTimes(Merge(p, c, d, grouped), h + [d])
  {
    hide FuseBest;
    var h' := h + [d];
    assert h'[|h|] == d;
    forall i | 0 <= i < |h| ensures h'[i] == h[i] {
    }
  }

  lemma TraceGrows(p: Policy, c: Case, h: seq<Detection>, d: Detection, grouped: bool)
    requires |h| >= 1 && IsTrace(c.traceparent, h)
    ensures IsTrace(Merge(p, c, d, grouped).traceparent, h + [d])
  {
    hide FuseBest;
    var h', t := h + [d], Merge(p, c, d, grouped).traceparent;
    assert h'[|h|] == d && forall i :: 0 <= i < |h| ==> h'[i] == h[i];
    if i :| 0 <= i < |h| && Traced(h[i].traceparent) {
      var k :| 0 <= k < |h| && Traced(h[k].traceparent) && c.traceparent == h[k].traceparent
               && forall j :: 0 <= j < k ==> !Traced(h[j].traceparent);
      assert Traced(h'[k].traceparent) && t == h'[k].traceparent;
    } else {
      assert c.traceparent == h[|h| - 1].traceparent && !Traced(c.traceparent);
      assert t == d.traceparent;
    }
  }

  lemma SeenBeforeStays(h: seq<Detection>, d: Detection, first: string, second: string)
    requires SeenBefore(h, first, second)
    ensures SeenBefore(h + [d], first, second)
  {
    var a :| 0 <= a < |h| && h[a].family == first && forall b :: 0 <= b <= a ==> h[b].family != second;
    assert (h + [d])[a].family == first;
  }

  lemma NewFamilyIsLast(h: seq<Detection>, d: Detection, known: string)
    requires forall i :: 0 <= i < |h| ==> h[i].family != d.family
    requires exists i :: 0 <= i < |h| && h[i].family == known
    ensures SeenBefore(h + [d], known, d.family)
  {
    var a :| 0 <= a < |h| && h[a].family == known;
    assert (h + [d])[a].family == known;
  }

  lemma FamiliesGrow(p: Policy, c: Case, h: seq<Detection>, d: Detection, grouped: bool)
    requires ListsFamilies(c, h)
    ensures ListsFamilies(Merge(p, c, d, grouped), h + [d])
    ensures c.families <= Merge(p, c, d, grouped).families
  {
    hide FuseBest, SeenBefore;
    var h' := h + [d];
    var c' := Merge(p, c, d, grouped);
    assert h'[|h|].family == d.family;
    assert forall i :: 0 <= i < |h| ==> h'[i] == h[i];
    assert d.family in c'.families;
    forall i, j | 0 <= i < j < |c'.families| ensures SeenBefore(h', c'.families[i], c'.families[j]) {
      if j < |c.families| {
        assert SeenBefore(h, c.families[i], c.families[j]);
        SeenBeforeStays(h, d, c.families[i], c.families[j]);
      } else {
        assert c.families[i] in c.families;
        NewFamilyIsLast(h, d, c.families[i]);
      }
    }
    forall f | f in c'.families ensures exists i :: 0 <= i < |h'| && h'[i].family == f {
      if f in c.families {
        var i :| 0 <= i < |h| && h[i].family == f;
        assert h'[i].family == f;
      }
    }
  }

  lemma MergedSummarises(p: Policy, c: Case, h: seq<Detection>, d: Detection, grouped: bool)
    requires Summarises(p, c, h) && d.entity == c.entity
    ensures Summarises(p, Merge(p, c, d, grouped), h + [d])
  {
    hide FuseBest, SpansTimes, ListsFamilies, IsPeak, IsTrace;
    TraceGrows(p, c, h, d, grouped);
    WindowSlides(h, d, p.retention);
    TimesGrow(p, c, h, d, grouped);
    FamiliesGrow(p, c, h, d, grouped);
    PeakGrows(p, c.score, h, d);
  }

  ghost predicate Explained(p: Policy, w: World) {
    && w.counted.Keys == w.store.cases.Keys
    && forall id :: id in w.store.cases ==> Summarises(p, w.store.cases[id], w.counted[id])
  }

  lemma RestatusSummarises(p: Policy, c: Case, h: seq<Detection>, status: Status)
    requires Summarises(p, c, h)
    ensures Summarises(p, c.(status := status), h)
  {
  }

  lemma AdvanceKeepsExplained(p: Policy, w: World, e: Event)
    requires Sound(w.store) && Explained(p, w)
    ensures Explained(p, Advance(p, w, e))
  {
    hide Correlate, Save, Merge, Create, Indexed, Named, Summarises;
    var w' := Advance(p, w, e);
    match e
    case Ingest(d) =>
      CorrelateEffect(p, w.store, d);
      var r := Correlate(p, w.store, d);
      if r.action == Created {
        CreatedSummarises(p, d);
      } else if r.action != Duplicate {
        MergedSummarises(p, w.store.cases[r.after.id], w.counted[r.after.id], d, r.action == Grouped);
      }
      assert w'.store.cases.Keys == w'.counted.Keys;
    case SetStatus(id, status) =>
      if id in w.store.cases {
        SetStatusEffect(w.store, id, status);
        RestatusSummarises(p, w.store.cases[id], w.counted[id], status);
      }
  }

  /**
   * After any run, every case is the summary of the detections it counted: exact count, the last retained
   * windows, the extreme times, each family once and in order of appearance, the peak of the composites and
   * its band, and the first trace parent there was.
   */
  lemma {:induction false} CasesAreSummaries(p: Policy, es: seq<Event>)
    ensures Explained(p, Run(p, es))
  {
    hide Advance, Summarises;
    if es != [] {
      CasesAreSummaries(p, es[..|es| - 1]);
      RunIsSound(p, es[..|es| - 1]);
      AdvanceKeepsExplained(p, Run(p, es[..|es| - 1]), es[|es| - 1]);
    }
  }

  // ----- No de-escalation ---------------------------------------------------

  /** How a case may change: its identity stays, and everything that measures it only grows. */
  ghost predicate Grew(c: Case, c': Case) {
    && c'.id == c.id && c'.entity == c.entity && c'.family == c.family && c'.firstEvidence == c.firstEvidence
    && c'.firstScore == c.firstScore && c'.firstSeverity == c.firstSeverity
    && c.score <= c'.score && Rank(c.severity) <= Rank(c'.severity)
    && c.count <= c'.count
    && c'.firstSeen <= c.firstSeen && c.lastSeen <= c'.lastSeen
    && c.families <= c'.families
    && (c.grouped ==> c'.grouped)
  }

  lemma BandIsMonotone(b: Bands, x: real, y: real)
    requires b.Valid() && x <= y
    ensures Rank(Band(b, x)) <= Rank(Band(b, y))
  {
  }

  lemma MergeGrows(p: Policy, c: Case, d: Detection, grouped: bool)
    requires c.severity == Band(p.bands, c.score)
    ensures Grew(c, Merge(p, c, d, grouped))
  {
    hide FuseBest, Band;
    BandIsMonotone(p.bands, c.score, Merge(p, c, d, grouped).score);
  }

  /** The ingest creates a case in the place of this one. */
  predicate Overwrites(p: Policy, st: Store, d: Detection, id: CaseId) {
    Clobbers(p, st, d) && CaseIdFor(d) == id
  }

  /** An ingest lets a stored case grow exactly when it does not overwrite it, and then it never touches a closed one. */
  lemma IngestGrowsExactly(p: Policy, st: Store, d: Detection, id: CaseId)
    requires Sound(st)
    requires id in st.cases && st.cases[id].severity == Band(p.bands, st.cases[id].score)
    ensures var st' := Correlate(p, st, d).store;
            && id in st'.cases
            && (Grew(st.cases[id], st'.cases[id]) <==> !Overwrites(p, st, d, id))
            && (st.cases[id].status == Closed ==> (st'.cases[id] == st.cases[id] <==> !Overwrites(p, st, d, id)))
  {
    hide Correlate, Save, Merge, Create, AllListed, Points, Named, CaseIdFor, Grew, Band,
         GroupingCandidate, RepeatCandidate;
    CorrelateEffect(p, st, d);
    CreatesExactly(p, st, d);
    GrewReflexive(st.cases[id]);
    CreatedId(p, d);
    CreatedIdClash(st, d);
    var r := Correlate(p, st, d);
    if Overwrites(p, st, d, id) {
      OverwrittenDiffers(p, st, d, id);
    } else if r.action != Duplicate && r.after.id == id {
      MergeGrows(p, st.cases[id], d, r.action == Grouped);
    }
  }

  /** The new case is of another window than the one it replaces. */
  lemma OverwrittenDiffers(p: Policy, st: Store, d: Detection, id: CaseId)
    requires AllEvidenced(st) && KeyOf(d) !in st.evidence && id in st.cases && st.cases[id].entity == d.entity
    ensures Create(p, d).firstEvidence != st.cases[id].firstEvidence
    ensures !Grew(st.cases[id], Create(p, d)) && Create(p, d) != st.cases[id]
    ensures Create(p, d).entity == d.entity && Create(p, d).firstEvidence == d.evidence
  {
    hide FuseBest, CaseIdFor;
    assert Evidenced(st, st.cases[id]);
  }

  lemma SummaryBand(p: Policy, c: Case, h: seq<Detection>)
    requires Summarises(p, c, h)
    ensures c.severity == Band(p.bands, c.score)
  {
  }

  lemma RestatusGrows(c: Case, status: Status)
    ensures Grew(c, c.(status := status))
  {
  }

  /** The event overwrites the case. */
  predicate OverwrittenBy(p: Policy, st: Store, e: Event, id: CaseId) {
    e.Ingest? && Overwrites(p, st, e.d, id)
  }

  lemma AdvanceGrowsExactly(p: Policy, w: World, e: Event, id: CaseId)
    requires Sound(w.store) && Explained(p, w) && id in w.store.cases
    ensures var w' := Advance(p, w, e);
            && id in w'.store.cases
            && (Grew(w.store.cases[id], w'.store.cases[id]) <==> !OverwrittenBy(p, w.store, e, id))
            && (w.store.cases[id].status == Closed && (e.SetStatus? ==> e.id != id) ==>
                  (w'.store.cases[id] == w.store.cases[id] <==> !OverwrittenBy(p, w.store, e, id)))
  {
    hide Correlate, Save, AllListed, AllEvidenced, Points, Named, Grew, Band, Summarises, Overwrites;
    SummaryBand(p, w.store.cases[id], w.counted[id]);
    match e
    case Ingest(d) => IngestGrowsExactly(p, w.store, d, id);
    case SetStatus(id', status) =>
      GrewReflexive(w.store.cases[id]);
      RestatusGrows(w.store.cases[id], status);
      if id' in w.store.cases {
        SetStatusEffect(w.store, id', status);
      }
  }

  /**
   * Whether a case is still the one that some window opened: it stops being so exactly when it is overwritten,
   * and the window itself stays known.
   */
  lemma AdvanceOpening(p: Policy, w: World, e: Event, id: CaseId, first: string)
    requires Sound(w.store) && Explained(p, w) && id in w.store.cases
    requires (w.store.cases[id].entity, first) in w.store.evidence
    ensures var w' := Advance(p, w, e);
            && id in w'.store.cases && w'.store.cases[id].entity == w.store.cases[id].entity
            && (w'.store.cases[id].entity, first) in w'.store.evidence
            && (w'.store.cases[id].firstEvidence == first
                <==> w.store.cases[id].firstEvidence == first && !OverwrittenBy(p, w.store, e, id))
  {
    hide Correlate, Save, AllListed, Points, Named, Summarises, Merge, Create, CaseIdFor, GroupingCandidate, RepeatCandidate;
    match e
    case Ingest(d) =>
      CorrelateEffect(p, w.store, d);
      CreatesExactly(p, w.store, d);
      CreatedId(p, d);
      CreatedIdClash(w.store, d);
      var r := Correlate(p, w.store, d);
      if OverwrittenBy(p, w.store, e, id) {
        OverwrittenDiffers(p, w.store, d, id);
      } else if r.action != Duplicate && r.after.id == id {
        MergeKeepsOpening(p, w.store.cases[id], d, r.action == Grouped);
      }
    case SetStatus(id', status) =>
      if id' in w.store.cases {
        SetStatusEffect(w.store, id', status);
      }
  }

  lemma MergeKeepsOpening(p: Policy, c: Case, d: Detection, grouped: bool)
    ensures Merge(p, c, d, grouped).firstEvidence == c.firstEvidence && Merge(p, c, d, grouped).entity == c.entity
  {
  }

  /** No event of the run from some moment on overwrites the case. */
  ghost predicate NeverOverwritten(p: Policy, es: seq<Event>, i: nat, id: CaseId) {
    forall k :: i <= k < |es| ==> !OverwrittenBy(p, Run(p, es[..k]).store, es[k], id)
  }

  lemma NeverOverwrittenOneMore(p: Policy, es: seq<Event>, i: nat, id: CaseId)
    requires i < |es|
    ensures var n := |es| - 1;
            NeverOverwritten(p, es, i, id)
            <==> NeverOverwritten(p, es[..n], i, id) && !OverwrittenBy(p, Run(p, es[..n]).store, es[n], id)
  {
    hide Run, OverwrittenBy;
    var n := |es| - 1;
    assert forall k :: 0 <= k < n ==> es[..n][..k] == es[..k] && es[..n][k] == es[k];
  }

  lemma OpenedIsKnown(st: Store, id: CaseId)
    requires Sound(st) && id in st.cases
    ensures (st.cases[id].entity, st.cases[id].firstEvidence) in st.evidence
  {
    assert Evidenced(st, st.cases[id]);
  }

  /** From some moment of a run on, a case is of the window that opened it exactly until it is overwritten. */
  lemma {:induction false} OpeningIsKeptExactly(p: Policy, es: seq<Event>, i: nat, id: CaseId)
    requires i <= |es| && id in Run(p, es[..i]).store.cases
    ensures var c := Run(p, es[..i]).store.cases[id];
            && id in Run(p, es).store.cases && Run(p, es).store.cases[id].entity == c.entity
            && (c.entity, c.firstEvidence) in Run(p, es).store.evidence
            && (Run(p, es).store.cases[id].firstEvidence == c.firstEvidence <==> NeverOverwritten(p, es, i, id))
  {
    hide Advance, Sound, Explained, OverwrittenBy, NeverOverwritten;
    if i == |es| {
      assert es[..i] == es;
      RunIsSound(p, es);
      OpenedIsKnown(Run(p, es).store, id);
      NothingLeftToOverwrite(p, es, id);
    } else {
      var n := |es| - 1;
      assert es[..n][..i] == es[..i];
      OpeningIsKeptExactly(p, es[..n], i, id);
      RunIsSound(p, es[..n]);
      CasesAreSummaries(p, es[..n]);
      AdvanceOpening(p, Run(p, es[..n]), es[n], id, Run(p, es[..i]).store.cases[id].firstEvidence);
      NeverOverwrittenOneMore(p, es, i, id);
    }
  }

  lemma NothingLeftToOverwrite(p: Policy, es: seq<Event>, id: CaseId)
    ensures NeverOverwritten(p, es, |es|, id)
  {
  }

  lemma CreatedId(p: Policy, d: Detection)
    ensures Create(p, d).id == CaseIdFor(d)
  {
  }

  lemma GrewTransitive(a: Case, b: Case, c: Case)
    requires Grew(a, b) && Grew(b, c)
    ensures Grew(a, c)
  {
  }

  /**
   * Between any two moments of a run a stored case stays stored, and it de-escalates in nothing exactly when no
   * event in between overwrote it.
   */
  lemma {:induction false} NeverDeEscalatesExactly(p: Policy, es: seq<Event>, i: nat, id: CaseId)
    requires i <= |es| && id in Run(p, es[..i]).store.cases
    ensures id in Run(p, es).store.cases
    ensures Grew(Run(p, es[..i]).store.cases[id], Run(p, es).store.cases[id]) <==> NeverOverwritten(p, es, i, id)
  {
    OpeningIsKeptExactly(p, es, i, id);
    if NeverOverwritten(p, es, i, id) {
      GrowsUnlessOverwritten(p, es, i, id);
    }
  }

  lemma {:induction false} GrowsUnlessOverwritten(p: Policy, es: seq<Event>, i: nat, id: CaseId)
    requires i <= |es| && id in Run(p, es[..i]).store.cases && NeverOverwritten(p, es, i, id)
    ensures id in Run(p, es).store.cases
    ensures Grew(Run(p, es[..i]).store.cases[id], Run(p, es).store.cases[id])
  {
    hide Advance, Sound, Explained, OverwrittenBy, NeverOverwritten, Grew;
    if i == |es| {
      assert es[..i] == es;
      GrewReflexive(Run(p, es).store.cases[id]);
    } else {
      var n := |es| - 1;
      assert es[..n][..i] == es[..i];
      NeverOverwrittenOneMore(p, es, i, id);
      GrowsUnlessOverwritten(p, es[..n], i, id);
      RunIsSound(p, es[..n]);
      CasesAreSummaries(p, es[..n]);
      AdvanceGrowsExactly(p, Run(p, es[..n]), es[n], id);
      GrewTransitive(Run(p, es[..i]).store.cases[id], Run(p, es[..n]).store.cases[id], Run(p, es).store.cases[id]);
    }
  }

  lemma GrewReflexive(c: Case)
    ensures Grew(c, c)
  {
  }

  /** The case's status is not set from some moment of the run on. */
  predicate StatusLeftAlone(es: seq<Event>, i: nat, id: CaseId) {
    forall j :: i <= j < |es| && es[j].SetStatus? ==> es[j].id != id
  }

  /**
   * A closed case whose status is left alone is the same at the end of a run exactly when no detection
   * overwrote it: no detection joins it.
   */
  lemma {:induction false} ClosedCasesAreFrozenExactly(p: Policy, es: seq<Event>, i: nat, id: CaseId)
    requires i <= |es| && StatusLeftAlone(es, i, id)
    requires id in Run(p, es[..i]).store.cases && Run(p, es[..i]).store.cases[id].status == Closed
    ensures id in Run(p, es).store.cases
    ensures Run(p, es).store.cases[id] == Run(p, es[..i]).store.cases[id] <==> NeverOverwritten(p, es, i, id)
  {
    OpeningIsKeptExactly(p, es, i, id);
    if NeverOverwritten(p, es, i, id) {
      FrozenUnlessOverwritten(p, es, i, id);
    }
  }

  lemma {:induction false} FrozenUnlessOverwritten(p: Policy, es: seq<Event>, i: nat, id: CaseId)
    requires i <= |es| && StatusLeftAlone(es, i, id) && NeverOverwritten(p, es, i, id)
    requires id in Run(p, es[..i]).store.cases && Run(p, es[..i]).store.cases[id].status == Closed
    ensures id in Run(p, es).store.cases && Run(p, es).store.cases[id] == Run(p, es[..i]).store.cases[id]
  {
    hide Advance, Sound, Explained, OverwrittenBy, NeverOverwritten, Grew;
    if i == |es| {
      assert es[..i] == es;
    } else {
      var n := |es| - 1;
      assert es[..n][..i] == es[..i];
      assert StatusLeftAlone(es[..n], i, id);
      NeverOverwrittenOneMore(p, es, i, id);
      FrozenUnlessOverwritten(p, es[..n], i, id);
      RunIsSound(p, es[..n]);
      CasesAreSummaries(p, es[..n]);
      AdvanceGrowsExactly(p, Run(p, es[..n]), es[n], id);
    }
  }

  /** With colon-free families no case is ever overwritten. */
  lemma ColonFreeNeverOverwrites(p: Policy, es: seq<Event>, i: nat, id: CaseId)
    requires ColonFreeEvents(es)
    ensures NeverOverwritten(p, es, i, id)
  {
    hide Run, Sound, Clobbers;
    forall k | i <= k < |es| ensures !OverwrittenBy(p, Run(p, es[..k]).store, es[k], id) {
      if es[k].Ingest? {
        assert ColonFreeEvents(es[..k]) by {
          assert forall j :: 0 <= j < k ==> es[..k][j] == es[j];
        }
        RunIsPositive(p, es[..k]);
        NeverClobbers(p, Run(p, es[..k]).store, es[k].d);
      }
    }
  }

  /** A closed case, and the window that shares its id. */
  function ReopeningRun(entity: int): seq<Event> {
    [Ingest(FirstWindow(entity)), SetStatus(CaseIdFor(FirstWindow(entity)), Closed), Ingest(SecondWindow(entity))]
  }

  lemma FirstIsClosed(p: Policy, entity: int)
    ensures Run(p, ReopeningRun(entity)[..2]).store == FirstStored(p, entity, Closed)
  {
    hide CaseIdOf, Correlate, Merge, FuseBest;
    var es, d1 := ReopeningRun(entity), FirstWindow(entity);
    assert es[..2][..1] == es[..1] && es[..1][..0] == [];
    FirstIsCreated(p, entity);
    var c := Create(p, d1);
    var st1 := Run(p, es[..1]).store;
    LastIngest(p, es[..1]);
    assert Run(p, []).store == EMPTY_STORE;
    assert st1 == Save(EMPTY_STORE, c);
    assert Run(p, es[..2]).store == Save(st1, c.(status := Closed));
    assert EvidenceKeys(c) == EvidenceKeys(c.(status := Closed));
    assert st1.evidence + (map k | k in EvidenceKeys(c) :: c.id) == st1.evidence;
    assert st1.cases[c.id := c.(status := Closed)] == EMPTY_STORE.cases[c.id := c.(status := Closed)];
  }

  /** With a colon in a family, a detection puts an open case in the place of a closed one. */
  lemma ClosedCaseIsOverwritten(p: Policy, entity: int)
    ensures var es, id := ReopeningRun(entity), CaseIdFor(FirstWindow(entity));
            && id in Run(p, es[..2]).store.cases && Run(p, es[..2]).store.cases[id].status == Closed
            && id in Run(p, es).store.cases && Run(p, es).store.cases[id].status == Open
            && !NeverOverwritten(p, es, 2, id)
  {
    hide CaseIdOf, Correlate, Run, FuseBest, Clobbers, Sound;
    var es, id := ReopeningRun(entity), CaseIdFor(FirstWindow(entity));
    FirstIsClosed(p, entity);
    SecondReplaces(p, entity, Closed);
    assert OverwrittenBy(p, Run(p, es[..2]).store, es[2], id);
    RunIsSound(p, es[..2]);
    assert es[..3] == es;
    LastIngest(p, es);
    ReplacingOpens(p, Run(p, es[..2]).store, es[2].d);
  }

  lemma LastIngest(p: Policy, es: seq<Event>)
    requires es != [] && es[|es| - 1].Ingest?
    ensures Run(p, es).store == Correlate(p, Run(p, es[..|es| - 1]).store, es[|es| - 1].d).store
  {
    hide Correlate;
  }

  lemma ReplacingOpens(p: Policy, st: Store, d: Detection)
    requires Sound(st) && Clobbers(p, st, d)
    ensures var st' := Correlate(p, st, d).store;
            CaseIdFor(d) in st'.cases && st'.cases[CaseIdFor(d)].status == Open
  {
    hide Correlate, AllListed, AllEvidenced, Points, Named, GroupingCandidate, RepeatCandidate, FuseBest, CaseIdOf;
    CorrelateEffect(p, st, d);
    CreatesExactly(p, st, d);
    CreatedId(p, d);
  }

  // ----- The partial-evidence flag ------------------------------------------

  /** A fusion rule that flags a missing modality, as the shipped rule does. */
  ghost predicate FlagsMissing(p: Policy) {
    forall f: Option<Score>, l: Option<Score> :: p.fuse(f, l).partial <==> f.None? || l.None?
  }

  /** A summarised case is flagged partial exactly when its retained window lacks a modality. */
  lemma PartialExactly(p: Policy, c: Case, h: seq<Detection>)
    requires Summarises(p, c, h) && FlagsMissing(p)
    ensures c.partial <==>
            !((exists o :: o in c.occurrences && o.modality == Flow) && (exists o :: o in c.occurrences && o.modality == Log))
  {
    hide OpenedBy, SpansTimes, ListsFamilies, IsPeak;
    var kept := c.occurrences;
    assert c.partial <==> BestScore(kept, Flow).None? || BestScore(kept, Log).None?;
  }

  /** Joining the other modality clears the flag exactly when a case retains at least two windows. */
  lemma GroupingClearsPartialExactly(p: Policy, st: Store, d: Detection, h: seq<Detection>)
    requires Sound(st) && FlagsMissing(p)
    requires Correlate(p, st, d).action == Grouped
    requires Summarises(p, st.cases[Correlate(p, st, d).after.id], h)
    ensures Correlate(p, st, d).after.partial <==> p.retention == 1
  {
    hide Summarises, Save, Create, Merge, AllListed, AllEvidenced, Points, Named, RepeatCandidate;
    CorrelateEffect(p, st, d);
    CandidatesAreStored(p, st, d);
    var r := Correlate(p, st, d);
    var c := GroupingCandidate(p, st, d).value;
    GroupingWantsModality(p, st, d);
    MergeKeepsId(p, c, d, true);
    SummaryRetains(p, c, h);
    MergedWindow(p, c, d, true);
  }

  lemma GroupingWantsModality(p: Policy, st: Store, d: Detection)
    requires GroupingCandidate(p, st, d).Some?
    ensures forall o :: o in GroupingCandidate(p, st, d).value.occurrences ==> o.modality != d.modality
  {
    hide Latest;
  }

  lemma MergeKeepsId(p: Policy, c: Case, d: Detection, grouped: bool)
    ensures Merge(p, c, d, grouped).id == c.id
  {
  }

  lemma SummaryRetains(p: Policy, c: Case, h: seq<Detection>)
    requires Summarises(p, c, h)
    ensures c.occurrences != []
  {
  }

  lemma MergedWindow(p: Policy, c: Case, d: Detection, grouped: bool)
    requires FlagsMissing(p) && c.occurrences != []
    requires forall o :: o in c.occurrences ==> o.modality != d.modality
    ensures Merge(p, c, d, grouped).partial <==> p.retention == 1
  {
    var kept := LastOf(c.occurrences + [d], p.retention);
    assert kept[|kept| - 1] == d;
    if p.retention == 1 {
      assert kept == [d];
    } else {
      var o := kept[|kept| - 2];
      assert o == c.occurrences[|c.occurrences| - 1];
      assert o in c.occurrences && o in kept && d in kept;
    }
    assert Merge(p, c, d, grouped).partial <==> BestScore(kept, Flow).None? || BestScore(kept, Log).None?;
  }
}
