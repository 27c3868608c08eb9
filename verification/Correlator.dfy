/**
 * Correlation: how one detection changes the set of alert cases.
 *
 * Times are integers (microseconds), scores are reals in [0, 1]. The fusion rule is a
 * parameter of the policy, as it is in the program.
 */
module Correlator {
  import opened Wrappers
  import opened Decimal

  // ----- Scores and bands ---------------------------------------------------

  type Score = r: real | 0.0 <= r <= 1.0 witness 0.0

  datatype Severity = Info | Low | Medium | High | Critical

  function Rank(s: Severity): nat {
    match s
    case Info => 0
    case Low => 1
    case Medium => 2
    case High => 3
    case Critical => 4
  }

  datatype Bands = Bands(critical: real, high: real, medium: real, low: real) {
    predicate Valid() {
      1.0 > critical > high > medium > low > 0.0
    }

    /** The lower bound of a band. */
    function Bound(s: Severity): real {
      match s
      case Info => 0.0
      case Low => low
      case Medium => medium
      case High => high
      case Critical => critical
    }
  }

  const DEFAULT_BANDS := Bands(0.90, 0.75, 0.55, 0.35)

  function Band(b: Bands, score: real): Severity {
    if score >= b.critical then Critical
    else if score >= b.high then High
    else if score >= b.medium then Medium
    else if score >= b.low then Low
    else Info
  }

  function SeverityFor(b: Bands, score: real): Result<Severity, string> {
    if 0.0 <= score <= 1.0 then Ok(Band(b, score)) else Err("score must be in [0, 1]")
  }

  /** A refused score is exactly one outside [0, 1]; otherwise the answer is the one band the score lies in. */
  lemma SeverityForExact(b: Bands, score: real, s: Severity)
    requires b.Valid()
    ensures SeverityFor(b, score).Err? <==> score < 0.0 || score > 1.0
    ensures 0.0 <= score <= 1.0 ==>
              (SeverityFor(b, score) == Ok(s) <==>
               b.Bound(s) <= score && forall t: Severity :: Rank(t) > Rank(s) ==> score < b.Bound(t))
  {
    if 0.0 <= score <= 1.0 {
      var band := Band(b, score);
      assert forall t: Severity :: Rank(t) > Rank(band) ==> score < b.Bound(t);
    }
  }

  // ----- Detections, policy, cases ------------------------------------------

  datatype Modality = Flow | Log

  datatype Detection = Detection(
    entity: int,
    family: string,
    modality: Modality,
    score: Score,
    at: int,
    evidence: string,
    model: Option<string>,
    traceparent: Option<string>)

  datatype Fused = Fused(score: Score, partial: bool)

  datatype PolicyValues = PolicyValues(
    coolDown: int,
    groupWindow: int,
    bands: Bands,
    retention: int,
    fuse: (Option<Score>, Option<Score>) -> Fused)
  {
    predicate Valid() {
      coolDown > 0 && groupWindow > 0 && retention >= 1 && bands.Valid()
    }
  }

  /** A correlator configuration is refused on construction unless it is valid. */
  type Policy = p: PolicyValues | p.Valid()
    witness PolicyValues(900_000_000, 60_000_000, DEFAULT_BANDS, 20, (f, l) => Fused(0.0, true))

  datatype Status = Open | Acknowledged | Closed

  type CaseId = string

  datatype Case = Case(
    id: CaseId,
    entity: int,
    family: string,
    families: seq<string>,
    severity: Severity,
    score: Score,
    firstSeverity: Severity,
    firstScore: Score,
    status: Status,
    firstSeen: int,
    lastSeen: int,
    count: nat,
    partial: bool,
    grouped: bool,
    firstEvidence: string,
    occurrences: seq<Detection>,
    traceparent: Option<string>)

  function CaseIdOf(entity: int, family: string, evidence: string): CaseId {
    ShowInt(entity) + ":" + family + ":" + evidence
  }

  function CaseIdFor(d: Detection): CaseId {
    CaseIdOf(d.entity, d.family, d.evidence)
  }

  // ----- The case store -----------------------------------------------------

  datatype Store = Store(
    cases: map<CaseId, Case>,
    byEntity: map<int, seq<CaseId>>,
    evidence: map<(int, string), CaseId>)

  const EMPTY_STORE := Store(map[], map[], map[])

  function IdsOf(st: Store, entity: int): seq<CaseId> {
    if entity in st.byEntity then st.byEntity[entity] else []
  }

  function CaseWithEvidence(st: Store, entity: int, evidence: string): Option<Case> {
    if (entity, evidence) in st.evidence && st.evidence[(entity, evidence)] in st.cases
    then Some(st.cases[st.evidence[(entity, evidence)]])
    else None
  }

  /** Whether a case is recent enough and carries the family, when one is asked for. */
  predicate Eligible(cases: map<CaseId, Case>, id: CaseId, notBefore: int, family: Option<string>) {
    && id in cases
    && cases[id].lastSeen >= notBefore
    && (family.None? || family.value in cases[id].families)
  }

  /** `i` is the position of the most recently active eligible case, the earliest one on a tie. */
  ghost predicate IsLatest(cases: map<CaseId, Case>, ids: seq<CaseId>, notBefore: int, family: Option<string>, i: Option<nat>) {
    match i
    case None => forall j :: 0 <= j < |ids| ==> !Eligible(cases, ids[j], notBefore, family)
    case Some(k) =>
      && k < |ids|
      && Eligible(cases, ids[k], notBefore, family)
      && (forall j :: 0 <= j < |ids| && Eligible(cases, ids[j], notBefore, family) ==>
            cases[ids[j]].lastSeen <= cases[ids[k]].lastSeen)
      && (forall j :: 0 <= j < k && Eligible(cases, ids[j], notBefore, family) ==>
            cases[ids[j]].lastSeen < cases[ids[k]].lastSeen)
  }

  function LatestIndex(cases: map<CaseId, Case>, ids: seq<CaseId>, notBefore: int, family: Option<string>): (i: Option<nat>)
    ensures IsLatest(cases, ids, notBefore, family, i)
  {
    if ids == [] then None
    else
      var n := |ids| - 1;
      var best := LatestIndex(cases, ids[..n], notBefore, family);
      if !Eligible(cases, ids[n], notBefore, family) then best
      else if best.None? || cases[ids[n]].lastSeen > cases[ids[best.value]].lastSeen then Some(n)
      else best
  }

  lemma LatestIsUnique(cases: map<CaseId, Case>, ids: seq<CaseId>, notBefore: int, family: Option<string>,
                       i: Option<nat>, j: Option<nat>)
    requires IsLatest(cases, ids, notBefore, family, i)
    requires IsLatest(cases, ids, notBefore, family, j)
    ensures i == j
  {
    if i.Some? && j.Some? {
      assert Eligible(cases, ids[i.value], notBefore, family);
      assert Eligible(cases, ids[j.value], notBefore, family);
    }
  }

  /** The case a `latest_for` query answers with. */
  function Latest(st: Store, entity: int, notBefore: int, family: Option<string>): (c: Option<Case>)
    ensures c.Some? ==> exists id :: id in IdsOf(st, entity) && Eligible(st.cases, id, notBefore, family) && c.value == st.cases[id]
  {
    var ids := IdsOf(st, entity);
    var i := LatestIndex(st.cases, ids, notBefore, family);
    if i.None? then None
    else
      assert ids[i.value] in ids;
      Some(st.cases[ids[i.value]])
  }

  function EvidenceKeys(c: Case): set<(int, string)> {
    set o | o in c.occurrences :: (c.entity, o.evidence)
  }

  function Save(st: Store, c: Case): Store {
    Store(
      st.cases[c.id := c],
      if c.id in st.cases then st.byEntity else st.byEntity[c.entity := IdsOf(st, c.entity) + [c.id]],
      st.evidence + map k | k in EvidenceKeys(c) :: c.id)
  }

  // ----- Fusing, creating, merging ------------------------------------------

  /** The best score one modality has among some detections. */
  function BestScore(ds: seq<Detection>, m: Modality): (best: Option<Score>)
    ensures best.None? <==> forall d :: d in ds ==> d.modality != m
    ensures best.Some? ==> exists d :: d in ds && d.modality == m && d.score == best.value
    ensures forall d :: d in ds && d.modality == m ==> best.Some? && d.score <= best.value
  {
    if ds == [] then None
    else
      var n := |ds| - 1;
      var before := BestScore(ds[..n], m);
      assert ds == ds[..n] + [ds[n]];
      if ds[n].modality == m && (before.None? || ds[n].score > before.value) then Some(ds[n].score) else before
  }

  function FuseBest(p: Policy, ds: seq<Detection>): Fused {
    p.fuse(BestScore(ds, Flow), BestScore(ds, Log))
  }

  function Create(p: Policy, d: Detection): Case {
    var fused := FuseBest(p, [d]);
    var severity := Band(p.bands, fused.score);
    Case(CaseIdFor(d), d.entity, d.family, [d.family], severity, fused.score, severity, fused.score, Open,
         d.at, d.at, 1, fused.partial, false, d.evidence, [d], d.traceparent)
  }

  function LastOf<T>(s: seq<T>, k: nat): seq<T> {
    if |s| <= k then s else s[|s| - k..]
  }

  /** Python's `a or b` on optional strings: an empty string counts as absent. */
  function OrElse(a: Option<string>, b: Option<string>): Option<string> {
    if a.Some? && a.value != "" then a else b
  }

  function Merge(p: Policy, c: Case, d: Detection, grouped: bool): Case {
    var occurrences := LastOf(c.occurrences + [d], p.retention);
    var fused := FuseBest(p, occurrences);
    var score := if fused.score > c.score then fused.score else c.score;
    c.(families := if d.family in c.families then c.families else c.families + [d.family],
       severity := Band(p.bands, score),
       score := score,
       firstSeen := if d.at < c.firstSeen then d.at else c.firstSeen,
       lastSeen := if d.at > c.lastSeen then d.at else c.lastSeen,
       count := c.count + 1,
       partial := fused.partial,
       grouped := c.grouped || grouped,
       occurrences := occurrences,
       traceparent := OrElse(c.traceparent, d.traceparent))
  }

  // ----- The four-way decision ----------------------------------------------

  function Abs(x: int): int {
    if x < 0 then -x else x
  }

  function GroupingCandidate(p: Policy, st: Store, d: Detection): Option<Case> {
    var candidate := Latest(st, d.entity, d.at - p.groupWindow, None);
    if candidate.None? || candidate.value.status == Closed then None
    else if Abs(d.at - candidate.value.lastSeen) > p.groupWindow then None
    else if exists o :: o in candidate.value.occurrences && o.modality == d.modality then None
    else candidate
  }

  function RepeatCandidate(p: Policy, st: Store, d: Detection): Option<Case> {
    var candidate := Latest(st, d.entity, d.at - p.coolDown, Some(d.family));
    if candidate.None? || candidate.value.status == Closed then None else candidate
  }

  datatype Action = Created | Absorbed | Grouped | Duplicate

  datatype Ingested = Ingested(action: Action, after: Case, store: Store)

  function Correlate(p: Policy, st: Store, d: Detection): Ingested {
    var replayed := CaseWithEvidence(st, d.entity, d.evidence);
    if replayed.Some? then Ingested(Duplicate, replayed.value, st)
    else
      var groupable := GroupingCandidate(p, st, d);
      if groupable.Some? then
        var merged := Merge(p, groupable.value, d, true);
        Ingested(Grouped, merged, Save(st, merged))
      else
        var repeat := RepeatCandidate(p, st, d);
        if repeat.Some? then
          var merged := Merge(p, repeat.value, d, false);
          Ingested(Absorbed, merged, Save(st, merged))
        else
          var created := Create(p, d);
          Ingested(Created, created, Save(st, created))
  }
}
