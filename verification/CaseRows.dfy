/** What the row of a case shows, column by column, said of the detections that the case counted. */
module CaseRows {
  import opened Wrappers
  import opened Decimal
  import opened Correlator
  import opened CorrelatorStore
  import opened CorrelatorRuns
  import opened CorrelatorHistory
  import opened CorrelatorFlags
  import opened AlertRows
  import opened AlertStore
  import opened Pipeline

  // ----- Composite scores -----------------------------------------------------

  /** The best score of a modality among some detections, if it is there at all. */
  ghost predicate IsBest(ds: seq<Detection>, m: Modality, best: Option<Score>) {
    match best
    case None => forall i :: 0 <= i < |ds| ==> ds[i].modality != m
    case Some(x) =>
      && (exists i :: 0 <= i < |ds| && ds[i].modality == m && ds[i].score == x)
      && (forall i :: 0 <= i < |ds| && ds[i].modality == m ==> ds[i].score <= x)
  }

  /** The last `n` of the first `k` detections. */
  function Retained(h: seq<Detection>, k: nat, n: nat): seq<Detection>
    requires k <= |h|
  {
    h[if k <= n then 0 else k - n..k]
  }

  /** The rule's answer to the best flow score and the best log score, in this order. */
  ghost predicate IsFused(p: Policy, ds: seq<Detection>, fused: Fused) {
    exists f, l :: IsBest(ds, Flow, f) && IsBest(ds, Log, l) && fused == p.fuse(f, l)
  }

  lemma BestIsUnique(ds: seq<Detection>, m: Modality, a: Option<Score>, b: Option<Score>)
    requires IsBest(ds, m, a) && IsBest(ds, m, b)
    ensures a == b
  {
  }

  lemma BestScoreIsBest(ds: seq<Detection>, m: Modality)
    ensures IsBest(ds, m, BestScore(ds, m))
  {
    var best := BestScore(ds, m);
    assert forall i :: 0 <= i < |ds| ==> ds[i] in ds;
    if best.Some? {
      var d :| d in ds && d.modality == m && d.score == best.value;
      var i :| 0 <= i < |ds| && ds[i] == d;
    }
  }

  /** Fusing takes the flow side first. */
  lemma FuseBestExactly(p: Policy, ds: seq<Detection>, f: Option<Score>, l: Option<Score>)
    requires IsBest(ds, Flow, f) && IsBest(ds, Log, l)
    ensures FuseBest(p, ds) == p.fuse(f, l)
    ensures forall fused :: IsFused(p, ds, fused) <==> fused == p.fuse(f, l)
  {
    hide IsBest, BestScore;
    BestScoreIsBest(ds, Flow);
    BestScoreIsBest(ds, Log);
    BestIsUnique(ds, Flow, f, BestScore(ds, Flow));
    BestIsUnique(ds, Log, l, BestScore(ds, Log));
    forall fused | IsFused(p, ds, fused) ensures fused == p.fuse(f, l) {
      var f', l' :| IsBest(ds, Flow, f') && IsBest(ds, Log, l') && fused == p.fuse(f', l');
      BestIsUnique(ds, Flow, f, f');
      BestIsUnique(ds, Log, l, l');
    }
  }

  lemma FuseBestIsFused(p: Policy, ds: seq<Detection>)
    ensures forall fused :: IsFused(p, ds, fused) <==> fused == FuseBest(p, ds)
  {
    hide IsBest, BestScore, FuseBest, IsFused;
    BestScoreIsBest(ds, Flow);
    BestScoreIsBest(ds, Log);
    FuseBestExactly(p, ds, BestScore(ds, Flow), BestScore(ds, Log));
  }

  /** The greatest of the composites of the windows retained along a history. */
  ghost predicate IsPeakScore(p: Policy, h: seq<Detection>, peak: Score) {
    && (exists k, fused :: 1 <= k <= |h| && IsFused(p, Retained(h, k, p.retention), fused) && fused.score == peak)
    && (forall k, fused :: 1 <= k <= |h| && IsFused(p, Retained(h, k, p.retention), fused) ==> fused.score <= peak)
  }

  lemma CompositeIsFused(p: Policy, h: seq<Detection>, k: nat)
    requires 1 <= k <= |h|
    ensures forall fused :: IsFused(p, Retained(h, k, p.retention), fused) ==> fused.score == Composite(p, h, k)
    ensures exists fused :: IsFused(p, Retained(h, k, p.retention), fused) && fused.score == Composite(p, h, k)
  {
    hide IsFused, FuseBest;
    assert Retained(h, k, p.retention) == LastOf(h[..k], p.retention);
    FuseBestIsFused(p, Retained(h, k, p.retention));
    assert IsFused(p, Retained(h, k, p.retention), FuseBest(p, Retained(h, k, p.retention)));
  }

  lemma PeakIsPeakScore(p: Policy, h: seq<Detection>, peak: Score)
    requires IsPeak(p, peak, h)
    ensures IsPeakScore(p, h, peak)
  {
    hide IsFused, Composite, Retained;
    forall k | 1 <= k <= |h|
      ensures forall fused :: IsFused(p, Retained(h, k, p.retention), fused) ==> fused.score == Composite(p, h, k)
      ensures exists fused :: IsFused(p, Retained(h, k, p.retention), fused) && fused.score == Composite(p, h, k)
    {
      CompositeIsFused(p, h, k);
    }
    var k :| 1 <= k <= |h| && Composite(p, h, k) == peak;
    var fused :| IsFused(p, Retained(h, k, p.retention), fused) && fused.score == Composite(p, h, k);
  }

  // ----- The columns ----------------------------------------------------------

  /** The severity's bound is reached, and no higher severity's is. */
  predicate InBand(b: Bands, score: real, severity: Severity) {
    match severity
    case Critical => score >= b.critical
    case High => b.high <= score < b.critical
    case Medium => b.medium <= score < b.high
    case Low => b.low <= score < b.medium
    case Info => score < b.low
  }

  lemma BandIsInBand(b: Bands, score: real)
    requires b.Valid()
    ensures InBand(b, score, Band(b, score))
  {
  }

  /** The score to the nearest ten-thousandth and the severity, of one peak of the history. */
  ghost predicate ShowsPeak(p: Policy, c: Columns, h: seq<Detection>) {
    exists peak: Score :: IsPeakScore(p, h, peak) && InBand(p.bands, peak, c.severity)
                          && FitsColumn(c.score) && -0.00005 < c.score - peak <= 0.00005
  }

  /** Who the case is about: the entity, family and window of the detection that opened it. */
  predicate ShowsOpening(c: Columns, h: seq<Detection>)
    requires |h| >= 1
  {
    c.entityId == h[0].entity && c.family == h[0].family && c.windowId == h[0].evidence
  }

  ghost predicate ShowsTimes(c: Columns, h: seq<Detection>) {
    && (exists i :: 0 <= i < |h| && h[i].at == c.firstSeen)
    && (exists i :: 0 <= i < |h| && h[i].at == c.lastSeen)
    && (forall i :: 0 <= i < |h| ==> c.firstSeen <= h[i].at <= c.lastSeen)
  }

  /** Each family of the history once, in the order of first appearance. */
  ghost predicate ShowsFamilies(c: Columns, h: seq<Detection>) {
    var families := c.explanation.families;
    && (forall i :: 0 <= i < |h| ==> h[i].family in families)
    && (forall f :: f in families ==> exists i :: 0 <= i < |h| && h[i].family == f)
    && (forall i, j :: 0 <= i < j < |families| ==>
          families[i] != families[j] && SeenBefore(h, families[i], families[j]))
  }

  predicate IsReference(r: EvidenceRef, d: Detection) {
    r.id == d.evidence && r.modality == d.modality && r.score == d.score && r.at == d.at && r.model == d.model
  }

  /** A reference to each window still retained, oldest first. */
  ghost predicate ShowsEvidence(p: Policy, c: Columns, h: seq<Detection>) {
    var kept := Retained(h, |h|, p.retention);
    |c.evidence| == |kept| && forall i :: 0 <= i < |kept| ==> IsReference(c.evidence[i], kept[i])
  }

  ghost predicate ShowsPartial(p: Policy, c: Columns, h: seq<Detection>) {
    exists fused :: IsFused(p, Retained(h, |h|, p.retention), fused) && c.explanation.partialEvidence == fused.partial
  }

  /** The detection has the best score of the modality, and is the earliest that has it. */
  ghost predicate IsFirstBest(ds: seq<Detection>, m: Modality, i: nat) {
    && i < |ds| && ds[i].modality == m
    && (forall j :: 0 <= j < |ds| && ds[j].modality == m ==> ds[j].score <= ds[i].score)
    && (forall j :: 0 <= j < i && ds[j].modality == m ==> ds[j].score < ds[i].score)
  }

  /** The model of the modality's first best detection, or none without one. */
  ghost predicate IsModelOf(ds: seq<Detection>, m: Modality, model: Option<string>) {
    if forall i :: 0 <= i < |ds| ==> ds[i].modality != m then model.None?
    else exists i: nat :: i < |ds| && IsFirstBest(ds, m, i) && model == ds[i].model
  }

  ghost predicate ShowsModels(p: Policy, c: Columns, h: seq<Detection>) {
    var kept := Retained(h, |h|, p.retention);
    IsModelOf(kept, Flow, c.modelFlow) && IsModelOf(kept, Log, c.modelLog)
  }

  /** Every column that the history of the case decides. */
  ghost predicate Shows(p: Policy, c: Columns, h: seq<Detection>) {
    && |h| >= 1
    && ShowsOpening(c, h) && ShowsPeak(p, c, h) && ShowsTimes(c, h) && ShowsFamilies(c, h)
    && ShowsEvidence(p, c, h) && ShowsPartial(p, c, h) && ShowsModels(p, c, h)
    && c.occurrenceCount == |h| && c.explanation.occurrenceCount == |h|
    && IsTrace(c.traceparent, h)
  }

  lemma FirstBestStays(ds: seq<Detection>, m: Modality, i: nat)
    requires ds != [] && IsFirstBest(ds[..|ds| - 1], m, i)
    requires ds[|ds| - 1].modality != m || ds[|ds| - 1].score <= ds[i].score
    ensures IsFirstBest(ds, m, i)
  {
    var n := |ds| - 1;
    assert forall j :: 0 <= j < n ==> ds[..n][j] == ds[j];
  }

  lemma NewBestIsFirst(ds: seq<Detection>, m: Modality)
    requires ds != [] && ds[|ds| - 1].modality == m
    requires forall d :: d in ds[..|ds| - 1] && d.modality == m ==> d.score < ds[|ds| - 1].score
    ensures IsFirstBest(ds, m, |ds| - 1)
  {
    var n := |ds| - 1;
    assert forall j :: 0 <= j < n ==> ds[..n][j] == ds[j] && ds[j] in ds[..n];
  }

  lemma {:induction false} BestDetectionIsFirst(ds: seq<Detection>, m: Modality)
    ensures BestDetection(ds, m).Some? ==> exists i: nat :: i < |ds| && IsFirstBest(ds, m, i) && ds[i] == BestDetection(ds, m).value
  {
    hide IsFirstBest;
    if ds != [] {
      var n := |ds| - 1;
      BestDetectionIsFirst(ds[..n], m);
      var before := BestDetection(ds[..n], m);
      if ds[n].modality == m && (before.None? || ds[n].score > before.value.score) {
        NewBestIsFirst(ds, m);
        assert BestDetection(ds, m) == Some(ds[n]);
      } else if before.Some? {
        var i: nat :| i < n && IsFirstBest(ds[..n], m, i) && ds[..n][i] == before.value;
        FirstBestStays(ds, m, i);
        assert ds[i] == BestDetection(ds, m).value;
      }
    }
  }

  lemma ModelIsModelOf(ds: seq<Detection>, m: Modality)
    ensures IsModelOf(ds, m, ModelOf(ds, m))
  {
    hide BestDetection;
    BestDetectionIsFirst(ds, m);
    assert forall i :: 0 <= i < |ds| ==> ds[i] in ds;
    var best := BestDetection(ds, m);
    assert best.None? <==> forall d :: d in ds ==> d.modality != m by { BestIsNone(ds, m); }
  }

  lemma BestIsNone(ds: seq<Detection>, m: Modality)
    ensures BestDetection(ds, m).None? <==> forall d :: d in ds ==> d.modality != m
  {
  }

  lemma KeptIsRetained(p: Policy, h: seq<Detection>)
    ensures LastOf(h, p.retention) == Retained(h, |h|, p.retention)
  {
  }

  lemma EvidenceShown(p: Policy, c: Case, h: seq<Detection>)
    requires c.occurrences == LastOf(h, p.retention)
    ensures ShowsEvidence(p, Normalise(EncodeCase(c)), h)
    ensures ShowsModels(p, Normalise(EncodeCase(c)), h)
  {
    hide ModelOf, IsModelOf, Quantise, LastOf, Retained;
    KeptIsRetained(p, h);
    ModelIsModelOf(c.occurrences, Flow);
    ModelIsModelOf(c.occurrences, Log);
  }

  lemma PeakShown(p: Policy, c: Case, h: seq<Detection>)
    requires IsPeak(p, c.score, h) && c.severity == Band(p.bands, c.score)
    ensures ShowsPeak(p, Normalise(EncodeCase(c)), h)
  {
    hide ModelOf, IsPeak, IsPeakScore, Band, InBand, Quantise;
    PeakIsPeakScore(p, h, c.score);
    BandIsInBand(p.bands, c.score);
    QuantiseIsNearest(c.score);
  }

  lemma PartialShown(p: Policy, c: Case, h: seq<Detection>)
    requires c.partial == FuseBest(p, LastOf(h, p.retention)).partial
    ensures ShowsPartial(p, Normalise(EncodeCase(c)), h)
  {
    hide ModelOf, Quantise, LastOf, Retained, FuseBest, IsFused;
    KeptIsRetained(p, h);
    FuseBestIsFused(p, LastOf(h, p.retention));
  }

  lemma OpeningAndTimesShown(p: Policy, c: Case, h: seq<Detection>)
    requires |h| >= 1 && OpenedBy(p, c, h[0]) && SpansTimes(c, h) && ListsFamilies(c, h)
    ensures var columns := Normalise(EncodeCase(c));
            ShowsOpening(columns, h) && ShowsTimes(columns, h) && ShowsFamilies(columns, h)
  {
    hide ModelOf, Quantise, SeenBefore, FuseBest;
  }

  lemma SummaryIsShown(p: Policy, c: Case, h: seq<Detection>)
    requires Summarises(p, c, h)
    ensures Shows(p, Normalise(EncodeCase(c)), h)
  {
    hide ShowsOpening, ShowsPeak, ShowsTimes, ShowsFamilies, ShowsEvidence, ShowsPartial, ShowsModels, ModelOf, Quantise,
         OpenedBy, SpansTimes, ListsFamilies, IsPeak, IsTrace, LastOf, FuseBest, Band;
    EvidenceShown(p, c, h);
    PeakShown(p, c, h);
    PartialShown(p, c, h);
    OpeningAndTimesShown(p, c, h);
  }

  // ----- The rows -------------------------------------------------------------

  /** The row of a case, its two keys apart. */
  ghost predicate RowShows(p: Policy, table: Table, es: seq<Event>, id: CaseId) {
    && TableOk(table) && id in table.caseIds && id in Run(p, es).counted
    && var columns := RowOf(table, id).columns;
       && Shows(p, columns, Run(p, es).counted[id])
       && (columns.grouped <==> GroupedSinceOpened(p, es, id))
       && (forall s: Status :: columns.status == s <==> StatusLastSet(p, es, id, s))
  }

  lemma SameFlags(c: Case)
    ensures Normalise(EncodeCase(c)).grouped == c.grouped && Normalise(EncodeCase(c)).status == c.status
  {
    hide ModelOf, Quantise;
  }

  lemma MirroredRowShows(ctx: Context, path: Path, id: CaseId)
    requires Simulates(ctx, path) && id in path.store.cases
    ensures RowShows(ctx.policy, path.table, path.detected, id)
  {
    hide Run, Sound, RegistryOk, AlertStream.HubHolds, TableOk, EncodeCase, Normalise, Shows, LastAnnounced, Summarises,
         GroupedSinceOpened, StatusLastSet, RowOf;
    var es := path.detected;
    CasesAreSummaries(ctx.policy, es);
    FlagsAreExact(ctx.policy, es, id);
    var w := Run(ctx.policy, es);
    assert id in w.store.cases.Keys;
    assert Mirrors(path, id);
    SummaryIsShown(ctx.policy, w.store.cases[id], w.counted[id]);
    SameFlags(w.store.cases[id]);
  }

  /**
   * After any arrivals, there is one row for each case, and it shows the case as the detections it counted make
   * it: the opening window, the peak score and its severity, the times, families, counts, retained evidence,
   * models, trace, and the two flags.
   */
  lemma RowsShowTheirCases(ctx: Context, h: AlertStream.HubValues, arrivals: seq<Arrival>)
    requires AlertStream.HubHolds(h, [])
    ensures var path := RunPath(ctx, h, arrivals);
            && path.table.caseIds.Keys == Run(ctx.policy, path.detected).counted.Keys
            && forall id :: id in path.table.caseIds ==> RowShows(ctx.policy, path.table, path.detected, id)
  {
    hide Run, Sound, RegistryOk, AlertStream.HubHolds, TableOk, Mirrors, RunPath, RowShows, Summarises;
    SimulationHolds(ctx, h, arrivals);
    var path := RunPath(ctx, h, arrivals);
    CasesAreSummaries(ctx.policy, path.detected);
    forall id | id in path.table.caseIds ensures RowShows(ctx.policy, path.table, path.detected, id) {
      assert id in path.table.caseIds.Keys;
      MirroredRowShows(ctx, path, id);
    }
  }

  // ----- New rows and announcements ---------------------------------------------

  lemma WriteAdds(path: Path, r: Ingested, now: int)
    requires TableOk(path.table) && r.action != Duplicate
    ensures var path' := Write(path, r, now);
            && TableOk(path'.table) && path'.table.caseIds.Keys == path.table.caseIds.Keys + {r.after.id}
            && (r.after.id !in path.table.caseIds ==> RowOf(path'.table, r.after.id).createdAt == now)
            && path'.announced == path.announced + [RowOf(path'.table, r.after.id)]
            && path'.hub.next == path.hub.next + 1
  {
    hide SaveRow, EncodeCase, Normalise, TableOk, RowOf, Evolved;
    SaveRowEffect(path.table, r.after.id, EncodeCase(r.after), now);
  }

  /** The case has counted one detection more, and no other case has. */
  ghost predicate CountsOneMore(before: World, after: World, id: CaseId, d: Detection) {
    && id in after.counted && after.counted[id] != [] && after.counted[id][|after.counted[id]| - 1] == d
    && forall other :: other != id ==> (other in after.counted <==> other in before.counted)
                                       && (other in after.counted ==> after.counted[other] == before.counted[other])
  }

  lemma IngestCounts(p: Policy, es: seq<Event>, d: Detection)
    ensures var w, w', r := Run(p, es), Run(p, es + [Ingest(d)]), Correlate(p, Run(p, es).store, d);
            && (r.action == Duplicate ==> w'.counted == w.counted)
            && (r.action != Duplicate ==> CountsOneMore(w, w', r.after.id, d))
  {
    hide Correlate;
    assert (es + [Ingest(d)])[..|es|] == es;
  }

  /** The path announced the row of the case that counted the detection, once, and a new row is created now. */
  ghost predicate Announces(p: Policy, before: Path, after: Path, id: CaseId, d: Detection, now: int)
    requires TableOk(after.table) && id in after.table.caseIds
  {
    && CountsOneMore(Run(p, before.detected), Run(p, after.detected), id, d)
    && after.announced == before.announced + [RowOf(after.table, id)]
    && (id !in before.table.caseIds ==> RowOf(after.table, id).createdAt == now)
  }

  ghost predicate AnnouncesSome(p: Policy, before: Path, after: Path, d: Detection, now: int)
    requires TableOk(after.table)
  {
    exists id :: id in after.table.caseIds && Announces(p, before, after, id, d, now)
  }

  lemma WriteAnnounces(ctx: Context, path: Path, d: Detection, now: int, registry: Registry)
    requires Simulates(ctx, path)
    ensures var r := Correlate(ctx.policy, path.store, d);
            var path' := Write(path, r, now).(registry := registry, detected := path.detected + [Ingest(d)]);
            if r.action == Duplicate then path'.announced == path.announced
            else TableOk(path'.table) && AnnouncesSome(ctx.policy, path, path', d, now)
  {
    hide Correlate, Write, Run, Sound, Mirrors, RegistryOk, AlertStream.HubHolds, TableOk, RowOf, CountsOneMore;
    var r := Correlate(ctx.policy, path.store, d);
    IngestCounts(ctx.policy, path.detected, d);
    if r.action == Duplicate {
      DuplicateWritesNothing(path, r, now);
    } else {
      WriteAdds(path, r, now);
      var path' := Write(path, r, now).(registry := registry, detected := path.detected + [Ingest(d)]);
      assert r.after.id in path'.table.caseIds.Keys;
      assert Announces(ctx.policy, path, path', r.after.id, d, now);
    }
  }

  lemma DuplicateWritesNothing(path: Path, r: Ingested, now: int)
    requires r.action == Duplicate
    ensures Write(path, r, now) == path
  {
  }

  /** The same window of the same entity arrived before and was accepted. */
  ghost predicate CameBefore(ctx: Context, arrivals: seq<Arrival>, w: Window) {
    exists i :: 0 <= i < |arrivals| && IsAccepted(ctx, arrivals[i].w)
                && arrivals[i].w.kind == w.kind && arrivals[i].w.key == w.key && arrivals[i].w.firstOffset == w.firstOffset
  }

  /**
   * In any run a window that is accepted, and did not come before, is announced once, as the row of the case
   * that counted it; any other window is not announced.
   */
  lemma AnnouncedOnce(ctx: Context, h: AlertStream.HubValues, arrivals: seq<Arrival>, w: Window, now: int)
    requires AlertStream.HubHolds(h, [])
    ensures var path := RunPath(ctx, h, arrivals);
            var path' := Put(ctx, path, w, now).0;
            && TableOk(path'.table)
            && if IsAccepted(ctx, w) && !CameBefore(ctx, arrivals, w)
               then exists d :: path'.detected == path.detected + [Ingest(d)] && AnnouncesSome(ctx.policy, path, path', d, now)
               else path'.announced == path.announced
  {
    hide Correlate, Write, Run, Sound, Mirrors, RegistryOk, AlertStream.HubHolds, TableOk, AnnouncesSome, IdFor, IdentityOf,
         RunPath, CameBefore, IsAccepted, Put, DetectionOf;
    SimulationHolds(ctx, h, arrivals);
    var path := RunPath(ctx, h, arrivals);
    PutKeepsSimulation(ctx, path, w, now);
    PutIsWrite(ctx, path, w, now);
    if IsAccepted(ctx, w) {
      HasCloseTime(ctx, w);
      var (entity, registry) := IdFor(path.registry, w.kind, w.key);
      var d := DetectionOf(ctx, entity, w, w.closedAt.value);
      WriteAnnounces(ctx, path, d, now, registry);
      DuplicateCameBefore(ctx, h, arrivals, w, d);
    }
  }

  lemma HasCloseTime(ctx: Context, w: Window)
    ensures IsAccepted(ctx, w) ==> w.closedAt.Some?
  {
  }

  lemma PutIsWrite(ctx: Context, path: Path, w: Window, now: int)
    ensures var path' := Put(ctx, path, w, now).0;
            if !IsAccepted(ctx, w) then path'.announced == path.announced
            else
              var (entity, registry) := IdFor(path.registry, w.kind, w.key);
              var d := DetectionOf(ctx, entity, w, w.closedAt.value);
              path' == Write(path, Correlate(ctx.policy, path.store, d), now)
                       .(registry := registry, detected := path.detected + [Ingest(d)])
  {
    hide Correlate, Write, IdFor, IdentityOf;
  }

  lemma DuplicateCameBefore(ctx: Context, h: AlertStream.HubValues, arrivals: seq<Arrival>, w: Window, d: Detection)
    requires AlertStream.HubHolds(h, [])
    requires w.closedAt.Some?
    requires d == DetectionOf(ctx, IdFor(RunPath(ctx, h, arrivals).registry, w.kind, w.key).0, w, w.closedAt.value)
    ensures Correlate(ctx.policy, RunPath(ctx, h, arrivals).store, d).action == Duplicate <==> CameBefore(ctx, arrivals, w)
  {
    hide Correlate, Run, Mirrors, AlertStream.HubHolds, TableOk, IdentityOf, Indexed, Named, RunPath, IngestedKeys, Arrived,
         CameBefore, RegistryOk, IsAccepted;
    SimulationHolds(ctx, h, arrivals);
    DetectedAreArrived(ctx, h, arrivals);
    var path := RunPath(ctx, h, arrivals);
    EvidenceIsExact(ctx.policy, path.detected);
    CorrelateEffect(ctx.policy, path.store, d);
    var k := (d.entity, d.evidence);
    assert k in path.store.evidence <==> k in path.store.evidence.Keys;
    ArrivedCameBefore(ctx, path.registry, arrivals, w);
  }

  lemma ArrivedCameBefore(ctx: Context, r: Registry, arrivals: seq<Arrival>, w: Window)
    requires RegistryOk(r)
    requires forall i :: 0 <= i < |arrivals| && IsAccepted(ctx, arrivals[i].w) ==> (arrivals[i].w.kind, arrivals[i].w.key) in r
    ensures Arrived(ctx, r, arrivals, (IdFor(r, w.kind, w.key).0 as int, IdentityOf(w))) <==> CameBefore(ctx, arrivals, w)
  {
    hide IdentityOf, IsAccepted;
    var k := (IdFor(r, w.kind, w.key).0 as int, IdentityOf(w));
    if Arrived(ctx, r, arrivals, k) {
      var i :| 0 <= i < |arrivals| && IsAccepted(ctx, arrivals[i].w)
               && (arrivals[i].w.kind, arrivals[i].w.key) in r && DetectedKey(r, arrivals[i].w) == k;
      assert (arrivals[i].w.kind, arrivals[i].w.key) == (w.kind, w.key);
      IdentityIsOffset(arrivals[i].w, w);
    }
    if CameBefore(ctx, arrivals, w) {
      var i :| 0 <= i < |arrivals| && IsAccepted(ctx, arrivals[i].w)
               && arrivals[i].w.kind == w.kind && arrivals[i].w.key == w.key && arrivals[i].w.firstOffset == w.firstOffset;
      IdentityIsOffset(arrivals[i].w, w);
      assert DetectedKey(r, arrivals[i].w) == k;
    }
  }

  // ----- What the windows become ------------------------------------------------

  /** The detection says what its window said, under the entity's id. */
  predicate IsDetectionOf(ctx: Context, registry: Registry, w: Window, d: Detection) {
    && w.closedAt == Some(d.at) && d.score == w.score && d.traceparent == w.traceparent
    && d.family == ctx.familyOf(w) && d.modality == ctx.modality && d.model == ctx.model
    && (w.kind, w.key) in registry && d.entity == registry[(w.kind, w.key)]
    && d.evidence == w.kind + ":" + w.key + "@" + Show(w.firstOffset)
  }

  /** The accepted windows, in the order of their arrival. */
  function AcceptedWindows(ctx: Context, arrivals: seq<Arrival>): seq<Window> {
    if arrivals == [] then []
    else
      var n := |arrivals| - 1;
      AcceptedWindows(ctx, arrivals[..n]) + if IsAccepted(ctx, arrivals[n].w) then [arrivals[n].w] else []
  }

  lemma StaysDetection(ctx: Context, r: Registry, r': Registry, w: Window, d: Detection)
    requires IsDetectionOf(ctx, r, w, d)
    requires forall k :: k in r ==> k in r' && r'[k] == r[k]
    ensures IsDetectionOf(ctx, r', w, d)
  {
    hide Show;
  }

  lemma PutNotesDetection(ctx: Context, path: Path, w: Window, now: int)
    requires Simulates(ctx, path)
    ensures var path' := Put(ctx, path, w, now).0;
            && (forall k :: k in path.registry ==> k in path'.registry && path'.registry[k] == path.registry[k])
            && (!IsAccepted(ctx, w) ==> path'.detected == path.detected)
            && (IsAccepted(ctx, w) ==>
                  exists d :: path'.detected == path.detected + [Ingest(d)] && IsDetectionOf(ctx, path'.registry, w, d))
  {
    hide Put, Simulates, IdFor, Show, RegistryOk;
    RegistryIsOk(ctx, path);
    IdForIsInjective(path.registry, w.kind, w.key);
    PutEffect(ctx, path, w, now);
    if IsAccepted(ctx, w) {
      var (entity, registry) := IdFor(path.registry, w.kind, w.key);
      var d := DetectionOf(ctx, entity, w, w.closedAt.value);
      assert IsDetectionOf(ctx, registry, w, d);
    }
  }

  /** The correlator is given each accepted window as it is, in order, under its entity's id. */
  lemma {:induction false} DetectedAreTheWindows(ctx: Context, h: AlertStream.HubValues, arrivals: seq<Arrival>)
    requires AlertStream.HubHolds(h, [])
    ensures var path, ws := RunPath(ctx, h, arrivals), AcceptedWindows(ctx, arrivals);
            && |path.detected| == |ws|
            && forall i :: 0 <= i < |ws| ==>
                 path.detected[i].Ingest? && IsDetectionOf(ctx, path.registry, ws[i], path.detected[i].d)
  {
    hide Put, Simulates, AlertStream.HubHolds, IsAccepted, IsDetectionOf;
    if arrivals != [] {
      var n := |arrivals| - 1;
      DetectedAreTheWindows(ctx, h, arrivals[..n]);
      SimulationHolds(ctx, h, arrivals[..n]);
      var before, after := RunPath(ctx, h, arrivals[..n]), RunPath(ctx, h, arrivals);
      PutNotesDetection(ctx, before, arrivals[n].w, arrivals[n].now);
      forall i | 0 <= i < |before.detected| ensures IsDetectionOf(ctx, after.registry, AcceptedWindows(ctx, arrivals[..n])[i], before.detected[i].d) {
        StaysDetection(ctx, before.registry, after.registry, AcceptedWindows(ctx, arrivals[..n])[i], before.detected[i].d);
      }
    }
  }
}
