/**
 * The alert stream: a sequenced fan-out with a bounded replay buffer, one bounded queue and one
 * event loop per subscriber, and a resume cursor.
 */
module AlertStream {
  import opened Wrappers
  import opened AlertRows

  datatype Notification = Notification(sequence: nat, alert: AlertRow)

  datatype DropReason = SlowConsumer | Shutdown | LoopClosed

  // ----- One subscription ---------------------------------------------------

  /** What a queue holds: a notification, or the mark that wakes a waiter after a drop. */
  datatype Item = Note(n: Notification) | DropMark

  /** What is handed to the subscriber's loop, to run in order. */
  datatype Callback = Enqueue(n: Notification) | EnqueueMark

  datatype Sub = Sub(
    after: nat,
    received: nat,
    queue: seq<Item>,
    handed: seq<Callback>,
    dropped: Option<DropReason>,
    closed: bool,
    loopOpen: bool,
    waiting: bool)
  {
    predicate Live() {
      !closed && dropped.None?
    }
  }

  function NewSub(after: nat): Sub {
    Sub(after, 0, [], [], None, false, true, false)
  }

  function MarkDropped(s: Sub, reason: DropReason): Sub {
    s.(dropped := if s.dropped.None? then Some(reason) else s.dropped,
       handed := if s.loopOpen then s.handed + [EnqueueMark] else s.handed)
  }

  /** A publisher hands a notification over; the loop will queue it later. */
  function Deliver(s: Sub, n: Notification): Sub {
    if !s.Live() then s
    else if s.loopOpen then s.(handed := s.handed + [Enqueue(n)])
    else MarkDropped(s, LoopClosed)
  }

  /** The loop runs the oldest handed-off callback. */
  function RunCallback(s: Sub, queueSize: nat): Sub
    requires s.handed != []
  {
    var rest := s.(handed := s.handed[1..]);
    match s.handed[0]
    case EnqueueMark => if |s.queue| < queueSize then rest.(queue := s.queue + [DropMark]) else rest
    case Enqueue(n) =>
      if !s.Live() then rest
      else if |s.queue| < queueSize then rest.(queue := s.queue + [Note(n)])
      else MarkDropped(rest, SlowConsumer)
  }

  /** The consumer asks for the next item: a dropped subscription answers with the reason and the cursor. */
  function BeginNext(s: Sub): (Sub, Option<(DropReason, nat)>) {
    if s.dropped.Some? then (s, Some((s.dropped.value, s.after))) else (s.(waiting := true), None)
  }

  /** A consumer gives up waiting; what is queued stays queued. */
  function CancelWait(s: Sub): Sub {
    s.(waiting := false)
  }

  datatype Received = Got(n: Notification) | Raised(reason: DropReason, after: nat)

  /** A waiting consumer is given the head of its queue. */
  function FinishNext(s: Sub): (Sub, Received)
    requires s.waiting && s.queue != []
  {
    var rest := s.(queue := s.queue[1..], waiting := false);
    match s.queue[0]
    case DropMark => (rest, Raised(if s.dropped.Some? then s.dropped.value else Shutdown, s.after))
    case Note(n) => (rest.(after := n.sequence, received := s.received + 1), Got(n))
  }

  // ----- The hub ------------------------------------------------------------

  datatype HubValues = HubValues(bufferSize: nat, queueSize: nat, buffer: seq<Notification>, next: nat)

  function NewHub(bufferSize: int, queueSize: int): Result<HubValues, string> {
    if bufferSize < 1 then Err("buffer_size must be at least 1")
    else if queueSize < 1 then Err("queue_size must be at least 1")
    else if bufferSize < queueSize then Err("buffer_size must be at least queue_size")
    else Ok(HubValues(bufferSize, queueSize, [], 1))
  }

  function LastOf<T>(s: seq<T>, k: nat): seq<T> {
    if |s| <= k then s else s[|s| - k..]
  }

  function Append(h: HubValues, alert: AlertRow): HubValues {
    h.(buffer := LastOf(h.buffer + [Notification(h.next, alert)], h.bufferSize), next := h.next + 1)
  }

  datatype CatchUp = CatchUp(items: seq<Notification>, resync: bool, oldest: Option<nat>, latest: Option<nat>)

  function After(ns: seq<Notification>, cursor: int): seq<Notification> {
    if ns == [] then []
    else After(ns[..|ns| - 1], cursor) + if ns[|ns| - 1].sequence > cursor then [ns[|ns| - 1]] else []
  }

  /** What a client with this cursor has missed; `None` is a client that wants no backlog. */
  function CatchUpFrom(h: HubValues, after: Option<nat>): CatchUp {
    var oldest := if h.buffer == [] then None else Some(h.buffer[0].sequence);
    var latest := if h.buffer == [] then None else Some(h.buffer[|h.buffer| - 1].sequence);
    var behind := after.Some? && oldest.Some? && after.value > 0 && after.value + 1 < oldest.value;
    var ahead := after.Some? && after.value > 0 && (latest.None? || after.value > latest.value);
    CatchUp(
      if behind || ahead then h.buffer else if after.Some? then After(h.buffer, after.value) else [],
      behind || ahead, oldest, latest)
  }

  function Checked(after: Option<int>): Result<Option<nat>, string> {
    if after.Some? && after.value < 0 then Err("after must not be negative")
    else if after.Some? then Ok(Some(after.value))
    else Ok(None)
  }

  // ----- The published history ----------------------------------------------

  /** The notifications numbered from+1 up to `to`. */
  function Published(alerts: seq<AlertRow>, from: nat, to: nat): seq<Notification>
    requires from <= to <= |alerts|
  {
    seq(to - from, i requires 0 <= i < to - from => Notification(from + i + 1, alerts[from + i]))
  }

  /** The hub holds the last publications its buffer has room for, and numbers from one. */
  predicate HubHolds(h: HubValues, alerts: seq<AlertRow>) {
    && 1 <= h.queueSize <= h.bufferSize
    && h.next == |alerts| + 1
    && h.buffer == Published(alerts, Evicted(h, alerts), |alerts|)
  }

  function Evicted(h: HubValues, alerts: seq<AlertRow>): (n: nat)
    ensures n <= |alerts|
  {
    if |alerts| <= h.bufferSize then 0 else |alerts| - h.bufferSize
  }

  /** A hub is made exactly when its queues hold something and its buffer at least as much; it then holds nothing yet. */
  lemma NewHubHolds(bufferSize: int, queueSize: int)
    ensures NewHub(bufferSize, queueSize).Ok? <==> 1 <= queueSize <= bufferSize
    ensures NewHub(bufferSize, queueSize).Ok? ==>
              var h := NewHub(bufferSize, queueSize).value;
              HubHolds(h, []) && h.bufferSize == bufferSize && h.queueSize == queueSize
  {
    var none: seq<AlertRow> := [];
    assert Published(none, 0, 0) == [];
  }

  lemma AppendHolds(h: HubValues, alerts: seq<AlertRow>, alert: AlertRow)
    requires HubHolds(h, alerts)
    ensures HubHolds(Append(h, alert), alerts + [alert])
  {
    var all := alerts + [alert];
    var lo := Evicted(h, alerts);
    assert h.buffer + [Notification(h.next, alert)] == Published(all, lo, |all|);
  }

  lemma {:induction false} AfterCutsThere(alerts: seq<AlertRow>, from: nat, to: nat, cursor: nat)
    requires from <= to <= |alerts|
    ensures var c := if cursor < from then from else if cursor > to then to else cursor;
            After(Published(alerts, from, to), cursor) == Published(alerts, c, to)
  {
    if from < to {
      AfterCutsThere(alerts, from, to - 1, cursor);
      var ns := Published(alerts, from, to);
      assert ns[..|ns| - 1] == Published(alerts, from, to - 1);
    }
  }

  /** What the buffer begins and ends with. */
  lemma BufferEnds(h: HubValues, alerts: seq<AlertRow>)
    requires HubHolds(h, alerts)
    ensures h.buffer == [] <==> alerts == []
    ensures alerts != [] ==>
              h.buffer[0].sequence == Evicted(h, alerts) + 1 && h.buffer[|h.buffer| - 1].sequence == |alerts|
  {
  }

  /** The answer names the oldest number retained and the latest published. */
  lemma CatchUpNames(h: HubValues, alerts: seq<AlertRow>, after: Option<nat>)
    requires HubHolds(h, alerts)
    ensures var cu, n := CatchUpFrom(h, after), |alerts|;
            && cu.latest == (if n == 0 then None else Some(n))
            && cu.oldest == (if n == 0 then None else Some(if n <= h.bufferSize then 1 else n - h.bufferSize + 1))
  {
    hide HubHolds, Published, After;
    BufferEnds(h, alerts);
  }

  /** What is behind or ahead, said of the publications. */
  lemma ResyncIs(h: HubValues, alerts: seq<AlertRow>, after: nat)
    requires HubHolds(h, alerts)
    ensures var cu, n := CatchUpFrom(h, Some(after)), |alerts|;
            && (cu.resync <==> after > 0 && (after > n || after + h.bufferSize < n))
            && cu.items == if cu.resync then h.buffer else After(h.buffer, after)
  {
    hide HubHolds, Published, After;
    BufferEnds(h, alerts);
  }

  /**
   * Catch-up is exact. A positive cursor needs a resync exactly when it is ahead of the stream or
   * behind the retained window, and otherwise the answer is everything published after it. Cursor
   * zero asks for all that is retained, and no cursor for nothing. The answer names the first number retained
   * and the last published.
   */
  lemma CatchUpIsExact(h: HubValues, alerts: seq<AlertRow>, after: Option<nat>)
    requires HubHolds(h, alerts)
    ensures var cu, n := CatchUpFrom(h, after), |alerts|;
            && cu.latest == (if n == 0 then None else Some(n))
            && cu.oldest == (if n == 0 then None else Some(if n <= h.bufferSize then 1 else n - h.bufferSize + 1))
            && match after
            case None => !cu.resync && cu.items == []
            case Some(c) =>
              && (cu.resync <==> c > 0 && (c > n || c + h.bufferSize < n))
              && (cu.resync ==> cu.items == h.buffer)
              && (!cu.resync && c > 0 ==> c <= n && cu.items == Published(alerts, c, n))
              && (c == 0 ==> cu.items == h.buffer)
  {
    hide After, Published, CatchUpFrom;
    CatchUpNames(h, alerts, after);
    match after
    case None => NoBacklog(h);
    case Some(c) =>
      var lo, n := Evicted(h, alerts), |alerts|;
      ResyncIs(h, alerts, c);
      AfterCutsThere(alerts, lo, n, c);
  }

  lemma NoBacklog(h: HubValues)
    ensures !CatchUpFrom(h, None).resync && CatchUpFrom(h, None).items == []
  {
  }
}
