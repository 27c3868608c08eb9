/** The row an alert case is written as, and the shape in which a row travels. */
module AlertRows {
  import opened Wrappers
  import opened Correlator

  datatype EvidenceRef = EvidenceRef(id: string, modality: Modality, score: Score, at: int, model: Option<string>)

  /** The part of the explanation that is common to all payloads. */
  datatype Explanation = Explanation(families: seq<string>, partialEvidence: bool, occurrenceCount: nat)

  datatype Columns = Columns(
    entityId: int,
    family: string,
    severity: Severity,
    score: real,
    modelFlow: Option<string>,
    modelLog: Option<string>,
    windowId: string,
    traceparent: Option<string>,
    grouped: bool,
    evidence: seq<EvidenceRef>,
    status: Status,
    firstSeen: int,
    lastSeen: int,
    occurrenceCount: nat,
    explanation: Explanation)

  /** A stored alert: the two key columns the store assigns, and the writable ones. */
  datatype AlertRow = AlertRow(id: nat, createdAt: int, columns: Columns)

  /** The best-scoring detection of a modality; the first one wins a tie. */
  function BestDetection(ds: seq<Detection>, m: Modality): (best: Option<Detection>)
    ensures best.None? <==> forall d :: d in ds ==> d.modality != m
    ensures best.Some? ==> best.value in ds && best.value.modality == m
    ensures forall d :: d in ds && d.modality == m ==> best.Some? && d.score <= best.value.score
  {
    if ds == [] then None
    else
      var n := |ds| - 1;
      var before := BestDetection(ds[..n], m);
      assert ds == ds[..n] + [ds[n]];
      if ds[n].modality == m && (before.None? || ds[n].score > before.value.score) then Some(ds[n]) else before
  }

  function ModelOf(ds: seq<Detection>, m: Modality): Option<string> {
    var best := BestDetection(ds, m);
    if best.Some? then best.value.model else None
  }

  /** Four decimal places, half rounded up, as a `numeric(5, 4)` column stores a score. */
  function Quantise(score: real): real {
    (score * 10000.0 + 0.5).Floor as real / 10000.0
  }

  predicate FitsColumn(score: real) {
    score * 10000.0 == (score * 10000.0).Floor as real
  }

  /** A stored score is a whole number of ten-thousandths, at most half of one away, and exact scores are kept. */
  lemma QuantiseIsNearest(score: real)
    ensures FitsColumn(Quantise(score))
    ensures -0.00005 < Quantise(score) - score <= 0.00005
    ensures FitsColumn(score) ==> Quantise(score) == score
  {
    var x, k := score * 10000.0, (score * 10000.0 + 0.5).Floor;
    assert Quantise(score) * 10000.0 == k as real;
    assert (k as real).Floor == k;
    RoundsToNearest(x, k);
  }

  lemma RoundsToNearest(x: real, k: int)
    requires k == (x + 0.5).Floor
    ensures -0.5 < k as real - x <= 0.5
    ensures x == x.Floor as real ==> k as real == x
  {
    if x == x.Floor as real {
      assert (x.Floor as real + 0.5).Floor == x.Floor;
    }
  }

  function EncodeCase(c: Case): Columns {
    Columns(
      c.entity, c.family, c.severity, c.score,
      ModelOf(c.occurrences, Flow), ModelOf(c.occurrences, Log),
      c.firstEvidence, c.traceparent, c.grouped,
      seq(|c.occurrences|, i requires 0 <= i < |c.occurrences| =>
        var o := c.occurrences[i]; EvidenceRef(o.evidence, o.modality, o.score, o.at, o.model)),
      c.status, c.firstSeen, c.lastSeen, c.count, Explanation(c.families, c.partial, c.count))
  }

  /** A column set as the table would return it. */
  function Normalise(c: Columns): Columns {
    c.(score := Quantise(c.score))
  }
}
