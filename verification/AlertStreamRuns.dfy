/** Runs of the alert stream: every interleaving of publishers, event loops and consumers. */
module AlertStreamRuns {
  import opened Wrappers
  import opened AlertRows
  import opened AlertStream

  // ----- The system ---------------------------------------------------------

  /**
   * A subscription with what its client saw: the latest sequence when it subscribed, the cursor it
   * came with, the catch-up it was handed on joining, and the live notifications it was given.
   */
  datatype Party = Party(sub: Sub, base: nat, cursor: nat, caught: CatchUp, got: seq<Notification>)

  /** A publication on its way to the subscribers that were attached when it was sequenced. */
  datatype Flight = Flight(n: Notification, targets: seq<nat>)

  datatype System = System(
    hub: HubValues,
    alerts: seq<AlertRow>,
    parties: seq<Party>,
    attached: seq<nat>,
    flights: seq<Flight>,
    shutting: seq<nat>)

  /**
   * Publishing takes the lock once and then hands the notification to one subscriber at a time.
   * Closing the hub detaches everyone under the lock and then marks them one at a time.
   */
  datatype Step =
    | Publish(alert: AlertRow)
    | HandOver(flight: nat)
    | Subscribe(after: Option<nat>)
    | Callback(i: nat)
    | Begin(i: nat)
    | Finish(i: nat)
    | Cancel(i: nat)
    | CloseSub(i: nat)
    | Detach(i: nat)
    | LoopCloses(i: nat)
    | CloseHub
    | MarkShutdown

  function Without(s: seq<nat>, x: nat): seq<nat> {
    if s == [] then [] else if s[0] == x then s[1..] else [s[0]] + Without(s[1..], x)
  }

  predicate Enabled(sys: System, step: Step) {
    match step
    case Publish(_) => true
    case HandOver(f) => f < |sys.flights| && sys.flights[f].targets != [] && sys.flights[f].targets[0] < |sys.parties|
    case Subscribe(_) => true
    case Callback(i) => i < |sys.parties| && sys.parties[i].sub.loopOpen && sys.parties[i].sub.handed != []
    case Begin(i) => i < |sys.parties| && !sys.parties[i].sub.waiting
    case Finish(i) => i < |sys.parties| && sys.parties[i].sub.waiting && sys.parties[i].sub.queue != []
    case Cancel(i) => i < |sys.parties|
    case CloseSub(i) => i < |sys.parties|
    case Detach(i) => i < |sys.parties| && sys.parties[i].sub.closed
    case LoopCloses(i) => i < |sys.parties|
    case CloseHub => true
    case MarkShutdown => sys.shutting != [] && sys.shutting[0] < |sys.parties|
  }

  function Received(p: Party): Party
    requires p.sub.waiting && p.sub.queue != []
  {
    var (s, r) := FinishNext(p.sub);
    match r
    case Raised(_, _) => p.(sub := s)
    case Got(n) => p.(sub := s, got := p.got + [n])
  }

  function Joined(sys: System, after: Option<nat>): Party {
    var cursor := if after.Some? then after.value else 0;
    Party(NewSub(cursor), |sys.alerts|, cursor, CatchUpFrom(sys.hub, after), [])
  }

  function Passed(flights: seq<Flight>, f: nat): seq<Flight>
    requires f < |flights| && flights[f].targets != []
  {
    if |flights[f].targets| == 1 then flights[..f] + flights[f + 1..]
    else flights[f := flights[f].(targets := flights[f].targets[1..])]
  }

  function Apply(sys: System, step: Step): System {
    if !Enabled(sys, step) then sys
    else
      match step
      case Publish(alert) =>
        var n := Notification(sys.hub.next, alert);
        sys.(hub := Append(sys.hub, alert),
             alerts := sys.alerts + [alert],
             flights := if sys.attached == [] then sys.flights else sys.flights + [Flight(n, sys.attached)])
      case HandOver(f) =>
        var i := sys.flights[f].targets[0];
        var p := sys.parties[i];
        sys.(parties := sys.parties[i := p.(sub := Deliver(p.sub, sys.flights[f].n))],
             flights := Passed(sys.flights, f))
      case Subscribe(after) =>
        sys.(parties := sys.parties + [Joined(sys, after)],
             attached := sys.attached + [|sys.parties|])
      case Callback(i) =>
        var p := sys.parties[i];
        sys.(parties := sys.parties[i := p.(sub := RunCallback(p.sub, sys.hub.queueSize))])
      case Begin(i) =>
        var p := sys.parties[i];
        sys.(parties := sys.parties[i := p.(sub := BeginNext(p.sub).0)])
      case Finish(i) => sys.(parties := sys.parties[i := Received(sys.parties[i])])
      case Cancel(i) =>
        var p := sys.parties[i];
        sys.(parties := sys.parties[i := p.(sub := CancelWait(p.sub))])
      case CloseSub(i) =>
        var p := sys.parties[i];
        sys.(parties := sys.parties[i := p.(sub := p.sub.(closed := true))])
      case Detach(i) => sys.(attached := Without(sys.attached, i))
      case LoopCloses(i) =>
        var p := sys.parties[i];
        sys.(parties := sys.parties[i := p.(sub := p.sub.(loopOpen := false))])
      case CloseHub => sys.(attached := [], shutting := sys.shutting + sys.attached)
      case MarkShutdown =>
        var i := sys.shutting[0];
        var p := sys.parties[i];
        sys.(parties := sys.parties[i := p.(sub := MarkDropped(p.sub, Shutdown))], shutting := sys.shutting[1..])
  }

  function Start(h: HubValues): System {
    System(h, [], [], [], [], [])
  }

  /** The system after a sequence of steps; a step that is not enabled does nothing. */
  function Exec(h: HubValues, steps: seq<Step>): System {
    if steps == [] then Start(h)
    else Apply(Exec(h, steps[..|steps| - 1]), steps[|steps| - 1])
  }

  // ----- What a party holds -------------------------------------------------

  function Notes(q: seq<Item>): seq<Notification> {
    if q == [] then [] else Notes(q[..|q| - 1]) + match q[|q| - 1] case Note(n) => [n] case DropMark => []
  }

  function Calls(h: seq<Callback>): seq<Notification> {
    if h == [] then [] else Calls(h[..|h| - 1]) + match h[|h| - 1] case Enqueue(n) => [n] case EnqueueMark => []
  }

  /** What the client got, then what waits in its queue. */
  function Front(p: Party): seq<Notification> {
    p.got + Notes(p.sub.queue)
  }

  /** All that reached the subscription: got, queued, and handed to its loop. */
  function Trail(p: Party): seq<Notification> {
    Front(p) + Calls(p.sub.handed)
  }

  function Share(f: Flight, i: nat): seq<Notification> {
    if i in f.targets then [f.n] else []
  }

  /** The publications still in flight to a subscriber, in the order they were sequenced. */
  function InFlight(flights: seq<Flight>, i: nat): seq<Notification> {
    if flights == [] then [] else InFlight(flights[..|flights| - 1], i) + Share(flights[|flights| - 1], i)
  }

  lemma {:induction false} NotesHead(q: seq<Item>)
    requires q != []
    ensures Notes(q) == (match q[0] case Note(n) => [n] case DropMark => []) + Notes(q[1..])
  {
    if |q| > 1 {
      var m := |q| - 1;
      NotesHead(q[..m]);
      assert q[..m][1..] == q[1..][..m - 1];
      assert q[1..][m - 1] == q[m];
    } else {
      assert q[..0] == [] && q[1..] == [];
    }
  }

  lemma {:induction false} CallsHead(h: seq<Callback>)
    requires h != []
    ensures Calls(h) == (match h[0] case Enqueue(n) => [n] case EnqueueMark => []) + Calls(h[1..])
  {
    if |h| > 1 {
      var m := |h| - 1;
      CallsHead(h[..m]);
      assert h[..m][1..] == h[1..][..m - 1];
      assert h[1..][m - 1] == h[m];
    } else {
      assert h[..0] == [] && h[1..] == [];
    }
  }

  lemma NotesSnoc(q: seq<Item>, x: Item)
    ensures Notes(q + [x]) == Notes(q) + match x case Note(n) => [n] case DropMark => []
  {
    assert (q + [x])[..|q|] == q;
  }

  lemma CallsSnoc(h: seq<Callback>, x: Callback)
    ensures Calls(h + [x]) == Calls(h) + match x case Enqueue(n) => [n] case EnqueueMark => []
  {
    assert (h + [x])[..|h|] == h;
  }

  // ----- What each step does to a party -------------------------------------

  lemma DeliverTrail(p: Party, n: Notification)
    ensures var p' := p.(sub := Deliver(p.sub, n));
            && Front(p') == Front(p)
            && (p'.sub.Live() ==> p.sub.Live() && p.sub.loopOpen && Trail(p') == Trail(p) + [n])
  {
    CallsSnoc(p.sub.handed, Enqueue(n));
  }

  function Ran(p: Party, queueSize: nat): Party
    requires p.sub.handed != []
  {
    p.(sub := RunCallback(p.sub, queueSize))
  }

  /** The mark changes neither what was received nor whether the subscription is live. */
  lemma MarkCallback(p: Party, queueSize: nat)
    requires p.sub.handed != [] && p.sub.handed[0].EnqueueMark?
    ensures Front(Ran(p, queueSize)) == Front(p)
    ensures Ran(p, queueSize).sub.Live() == p.sub.Live()
  {
    NotesSnoc(p.sub.queue, DropMark);
  }

  lemma Regroup<T>(a: seq<T>, b: seq<T>, x: T, c: seq<T>)
    ensures (a + (b + [x])) + c == (a + b) + ([x] + c)
  {
  }

  lemma NoteFits(p: Party, queueSize: nat)
    requires p.sub.handed != [] && p.sub.handed[0].Enqueue?
    requires p.sub.Live() && |p.sub.queue| < queueSize
    ensures var p', n := Ran(p, queueSize), p.sub.handed[0].n;
            p'.sub.Live() && Front(p') == Front(p) + [n] && Trail(p') == Trail(p)
  {
    hide Calls, Notes;
    var p', n := Ran(p, queueSize), p.sub.handed[0].n;
    CallsHead(p.sub.handed);
    NotesSnoc(p.sub.queue, Note(n));
    assert Notes(p'.sub.queue) == Notes(p.sub.queue) + [n];
    Regroup(p.got, Notes(p.sub.queue), n, Calls(p.sub.handed[1..]));
  }

  /** A queued notification moves up; one that finds the queue full ends the subscription. */
  lemma NoteCallback(p: Party, queueSize: nat)
    requires p.sub.handed != [] && p.sub.handed[0].Enqueue?
    ensures var p', n := Ran(p, queueSize), p.sub.handed[0].n;
            && (p'.sub.Live() <==> p.sub.Live() && |p.sub.queue| < queueSize)
            && Front(p') == (if p'.sub.Live() then Front(p) + [n] else Front(p))
            && (p'.sub.Live() ==> Trail(p') == Trail(p))
  {
    hide Calls, Notes, Trail;
    if p.sub.Live() && |p.sub.queue| < queueSize {
      NoteFits(p, queueSize);
    }
  }

  lemma FinishTrail(p: Party)
    requires p.sub.waiting && p.sub.queue != []
    ensures Front(Received(p)) == Front(p) && Trail(Received(p)) == Trail(p)
    ensures Received(p).sub.Live() == p.sub.Live()
  {
    hide Calls, Notes;
    NotesHead(p.sub.queue);
  }

  // ----- Invariants of every run --------------------------------------------

  function CursorOf(p: Party): nat {
    if p.got == [] then p.cursor else p.got[|p.got| - 1].sequence
  }

  ghost predicate PartyOk(p: Party, queueSize: nat, published: nat) {
    && p.base <= published
    && p.sub.received == |p.got|
    && p.sub.after == CursorOf(p)
    && |p.sub.queue| <= queueSize
    && (DropMark in p.sub.queue || EnqueueMark in p.sub.handed ==> p.sub.dropped.Some?)
  }

  ghost predicate DistinctBelow(ids: seq<nat>, bound: nat) {
    && (forall k :: 0 <= k < |ids| ==> ids[k] < bound)
    && (forall j, k :: 0 <= j < k < |ids| ==> ids[j] != ids[k])
  }

  ghost predicate FlightOk(f: Flight, alerts: seq<AlertRow>, bound: nat) {
    && 1 <= f.n.sequence <= |alerts| && f.n.alert == alerts[f.n.sequence - 1]
    && f.targets != [] && DistinctBelow(f.targets, bound)
  }

  ghost predicate PartiesOk(sys: System) {
    forall i :: 0 <= i < |sys.parties| ==> PartyOk(sys.parties[i], sys.hub.queueSize, |sys.alerts|)
  }

  ghost predicate FlightsOk(sys: System) {
    && (forall f :: 0 <= f < |sys.flights| ==> FlightOk(sys.flights[f], sys.alerts, |sys.parties|))
    && DistinctBelow(sys.attached, |sys.parties|)
    && (forall k :: 0 <= k < |sys.shutting| ==> sys.shutting[k] < |sys.parties|)
  }

  ghost predicate Sane(sys: System) {
    HubHolds(sys.hub, sys.alerts) && PartiesOk(sys) && FlightsOk(sys)
  }

  /** How a party may change while nothing is published or handed over. */
  ghost predicate Evolves(p: Party, p': Party, queueSize: nat, published: nat) {
    && PartyOk(p', queueSize, published)
    && p'.base == p.base && p'.cursor == p.cursor && p'.caught == p.caught
    && (p'.sub.Live() ==> p.sub.Live() && Trail(p') == Trail(p))
    && (!p'.sub.Live() ==> Front(p') == Front(p))
  }

  lemma CallbackEvolves(p: Party, queueSize: nat, published: nat)
    requires PartyOk(p, queueSize, published) && p.sub.handed != []
    ensures Evolves(p, Ran(p, queueSize), queueSize, published)
  {
    hide Notes, Calls;
    if p.sub.handed[0].Enqueue? {
      NoteCallback(p, queueSize);
    } else {
      assert EnqueueMark in p.sub.handed;
      MarkCallback(p, queueSize);
    }
    RanIsOk(p, queueSize, published);
  }

  lemma RanIsOk(p: Party, queueSize: nat, published: nat)
    requires PartyOk(p, queueSize, published) && p.sub.handed != []
    ensures PartyOk(Ran(p, queueSize), queueSize, published)
  {
    var p' := Ran(p, queueSize);
    assert p.sub.handed[0] in p.sub.handed;
    assert forall x :: x in p.sub.handed[1..] ==> x in p.sub.handed;
  }

  lemma FinishEvolves(p: Party, queueSize: nat, published: nat)
    requires PartyOk(p, queueSize, published) && p.sub.waiting && p.sub.queue != []
    ensures Evolves(p, Received(p), queueSize, published)
  {
    hide Notes, Calls;
    FinishTrail(p);
    assert forall x :: x in p.sub.queue[1..] ==> x in p.sub.queue;
  }

  lemma PlainEvolves(p: Party, queueSize: nat, published: nat, s: Sub)
    requires PartyOk(p, queueSize, published)
    requires s == BeginNext(p.sub).0 || s == CancelWait(p.sub) || s == p.sub.(closed := true) || s == p.sub.(loopOpen := false)
             || s == MarkDropped(p.sub, Shutdown)
    ensures Evolves(p, p.(sub := s), queueSize, published)
  {
    hide Notes, Calls;
  }

  // ----- Nothing is lost or doubled -----------------------------------------

  /** What reached an attached live subscriber, with what is in flight to it, is each publication since it joined, once. */
  ghost predicate CompleteFor(sys: System, i: nat)
    requires i < |sys.parties|
  {
    var p := sys.parties[i];
    i in sys.attached && p.sub.Live() ==>
      && p.base <= |sys.alerts|
      && multiset(Trail(p)) + multiset(InFlight(sys.flights, i))
         == multiset(Published(sys.alerts, p.base, |sys.alerts|))
  }

  ghost predicate Complete(sys: System) {
    forall i :: 0 <= i < |sys.parties| ==> CompleteFor(sys, i)
  }

  // ----- Order, when publishes are serialised -------------------------------

  ghost predicate Contiguous(alerts: seq<AlertRow>, base: nat, s: seq<Notification>) {
    base + |s| <= |alerts| && s == Published(alerts, base, base + |s|)
  }

  ghost predicate OrderedFor(sys: System, i: nat)
    requires i < |sys.parties|
  {
    var p := sys.parties[i];
    if p.sub.Live() then
      var all := Trail(p) + InFlight(sys.flights, i);
      Contiguous(sys.alerts, p.base, all) && (i in sys.attached ==> p.base + |all| == |sys.alerts|)
    else Contiguous(sys.alerts, p.base, Front(p))
  }

  ghost predicate Ordered(sys: System) {
    |sys.flights| <= 1 && forall i :: 0 <= i < |sys.parties| ==> OrderedFor(sys, i)
  }

  lemma ContiguousPrefix(alerts: seq<AlertRow>, base: nat, s: seq<Notification>, t: seq<Notification>)
    requires Contiguous(alerts, base, s + t)
    ensures Contiguous(alerts, base, s)
  {
    assert s == (s + t)[..|s|];
  }

  lemma ContiguousGrows(alerts: seq<AlertRow>, base: nat, s: seq<Notification>, alert: AlertRow)
    requires Contiguous(alerts, base, s)
    ensures Contiguous(alerts + [alert], base, s)
    ensures base + |s| == |alerts| ==>
              Contiguous(alerts + [alert], base, s + [Notification(|alerts| + 1, alert)])
  {
  }

  // ----- Steps that change one party ----------------------------------------

  lemma OnePartySane(sys: System, i: nat, p': Party)
    requires Sane(sys) && i < |sys.parties|
    requires Evolves(sys.parties[i], p', sys.hub.queueSize, |sys.alerts|)
    ensures Sane(sys.(parties := sys.parties[i := p']))
  {
    hide Trail, Front;
  }

  lemma OnePartyComplete(sys: System, i: nat, p': Party)
    requires Sane(sys) && Complete(sys) && i < |sys.parties|
    requires Evolves(sys.parties[i], p', sys.hub.queueSize, |sys.alerts|)
    ensures Complete(sys.(parties := sys.parties[i := p']))
  {
    hide Trail, Front, InFlight, Published, HubHolds, FlightsOk;
    var sys' := sys.(parties := sys.parties[i := p']);
    forall k | 0 <= k < |sys'.parties| ensures CompleteFor(sys', k) {
      assert CompleteFor(sys, k);
    }
  }

  lemma OnePartyOrdered(sys: System, i: nat, p': Party)
    requires Sane(sys) && Ordered(sys) && i < |sys.parties|
    requires Evolves(sys.parties[i], p', sys.hub.queueSize, |sys.alerts|)
    ensures Ordered(sys.(parties := sys.parties[i := p']))
  {
    hide InFlight, Contiguous, HubHolds, FlightsOk, Notes, Calls;
    var sys' := sys.(parties := sys.parties[i := p']);
    forall k | 0 <= k < |sys'.parties| ensures OrderedFor(sys', k) {
      assert OrderedFor(sys, k);
      if k == i && !p'.sub.Live() && sys.parties[i].sub.Live() {
        var p := sys.parties[i];
        var rest := Calls(p.sub.handed) + InFlight(sys.flights, i);
        assert Trail(p) + InFlight(sys.flights, i) == Front(p) + rest;
        ContiguousPrefix(sys.alerts, p.base, Front(p), rest);
      }
    }
  }

  // ----- Publishing ---------------------------------------------------------

  lemma InFlightSnoc(flights: seq<Flight>, f: Flight, i: nat)
    ensures InFlight(flights + [f], i) == InFlight(flights, i) + Share(f, i)
  {
    assert (flights + [f])[..|flights|] == flights;
  }

  lemma PublishSane(sys: System, alert: AlertRow)
    requires Sane(sys)
    ensures Sane(Apply(sys, Publish(alert)))
  {
    hide Append, HubHolds, CursorOf;
    AppendHolds(sys.hub, sys.alerts, alert);
    HubNumbers(sys.hub, sys.alerts);
    AppendKeepsSizes(sys.hub, alert);
    var sys' := Apply(sys, Publish(alert));
    forall f | 0 <= f < |sys'.flights| ensures FlightOk(sys'.flights[f], sys'.alerts, |sys'.parties|) {
      if f < |sys.flights| {
        assert FlightOk(sys.flights[f], sys.alerts, |sys.parties|);
      }
    }
  }

  lemma HubNumbers(h: HubValues, alerts: seq<AlertRow>)
    requires HubHolds(h, alerts)
    ensures h.next == |alerts| + 1 && (alerts == [] ==> h.buffer == [])
  {
  }

  lemma AppendKeepsSizes(h: HubValues, alert: AlertRow)
    ensures Append(h, alert).queueSize == h.queueSize && Append(h, alert).bufferSize == h.bufferSize
  {
  }

  lemma PublishedSnoc(alerts: seq<AlertRow>, base: nat, alert: AlertRow)
    requires base <= |alerts|
    ensures Published(alerts + [alert], base, |alerts| + 1)
            == Published(alerts, base, |alerts|) + [Notification(|alerts| + 1, alert)]
  {
  }

  lemma PublishComplete(sys: System, alert: AlertRow)
    requires Sane(sys) && Complete(sys)
    ensures Complete(Apply(sys, Publish(alert)))
  {
    hide Trail, InFlight, Published, Append, HubHolds, FlightsOk;
    HubNumbers(sys.hub, sys.alerts);
    var sys' := Apply(sys, Publish(alert));
    var n := Notification(|sys.alerts| + 1, alert);
    forall i | 0 <= i < |sys'.parties| ensures CompleteFor(sys', i) {
      assert CompleteFor(sys, i);
      if i in sys.attached && sys.parties[i].sub.Live() {
        InFlightSnoc(sys.flights, Flight(n, sys.attached), i);
        PublishedSnoc(sys.alerts, sys.parties[i].base, alert);
      }
    }
  }

  lemma PublishOrdered(sys: System, alert: AlertRow)
    requires Sane(sys) && Ordered(sys) && sys.flights == []
    ensures Ordered(Apply(sys, Publish(alert)))
  {
    hide Trail, Front, Append, HubHolds, FlightsOk, Contiguous;
    HubNumbers(sys.hub, sys.alerts);
    var sys' := Apply(sys, Publish(alert));
    var n := Notification(|sys.alerts| + 1, alert);
    forall i | 0 <= i < |sys'.parties| ensures OrderedFor(sys', i) {
      var p := sys.parties[i];
      assert OrderedFor(sys, i);
      assert InFlight(sys.flights, i) == [];
      InFlightSnoc([], Flight(n, sys.attached), i);
      if p.sub.Live() {
        assert Trail(p) + [] == Trail(p);
        assert InFlight(sys'.flights, i) == if i in sys.attached then [n] else [];
        ContiguousGrows(sys.alerts, p.base, Trail(p), alert);
      } else {
        ContiguousGrows(sys.alerts, p.base, Front(p), alert);
      }
    }
  }

  // ----- Handing over -------------------------------------------------------

  lemma PassedFlightsOk(flights: seq<Flight>, f: nat, alerts: seq<AlertRow>, bound: nat)
    requires forall k :: 0 <= k < |flights| ==> FlightOk(flights[k], alerts, bound)
    requires f < |flights| && flights[f].targets != []
    ensures forall k :: 0 <= k < |Passed(flights, f)| ==> FlightOk(Passed(flights, f)[k], alerts, bound)
  {
    var fs := Passed(flights, f);
    assert FlightOk(flights[f], alerts, bound);
    forall k | 0 <= k < |fs| ensures FlightOk(fs[k], alerts, bound) {
      if |fs| == |flights| {
        assert k != f ==> fs[k] == flights[k];
      } else {
        assert fs[k] == flights[if k < f then k else k + 1];
      }
    }
  }

  lemma InFlightLast(flights: seq<Flight>, i: nat)
    requires flights != []
    ensures InFlight(flights, i) == InFlight(flights[..|flights| - 1], i) + Share(flights[|flights| - 1], i)
  {
  }

  ghost predicate TakesOne(before: seq<Notification>, after: seq<Notification>, taken: bool, n: Notification) {
    && (!taken ==> after == before)
    && (taken ==> multiset(after) + multiset{n} == multiset(before))
  }

  lemma PassedLast(flights: seq<Flight>, i: nat)
    requires flights != [] && flights[|flights| - 1].targets != []
    requires flights[|flights| - 1].targets[0] !in flights[|flights| - 1].targets[1..]
    ensures var f := |flights| - 1;
            TakesOne(InFlight(flights, i), InFlight(Passed(flights, f), i), i == flights[f].targets[0], flights[f].n)
  {
    hide InFlight;
    var f := |flights| - 1;
    var targets := flights[f].targets;
    assert targets == [targets[0]] + targets[1..];
    InFlightLast(flights, i);
    if |targets| == 1 {
      assert Passed(flights, f) == flights[..f];
    } else {
      var shorter := flights[f].(targets := targets[1..]);
      assert Passed(flights, f) == flights[..f] + [shorter];
      InFlightSnoc(flights[..f], shorter, i);
    }
  }

  /** Handing over takes exactly the handed notification out of the target's flight, and touches no one else's. */
  lemma {:induction false} PassedInFlight(flights: seq<Flight>, f: nat, i: nat)
    requires f < |flights| && flights[f].targets != []
    requires flights[f].targets[0] !in flights[f].targets[1..]
    ensures TakesOne(InFlight(flights, i), InFlight(Passed(flights, f), i), i == flights[f].targets[0], flights[f].n)
    decreases |flights|
  {
    hide InFlight;
    var m := |flights| - 1;
    if f == m {
      PassedLast(flights, i);
    } else {
      var rest := flights[..m];
      PassedInFlight(rest, f, i);
      InFlightLast(flights, i);
      assert Passed(flights, f) == Passed(rest, f) + [flights[m]];
      InFlightSnoc(Passed(rest, f), flights[m], i);
      TakesOneThen(InFlight(rest, i), InFlight(Passed(rest, f), i), i == flights[f].targets[0], flights[f].n,
                   Share(flights[m], i));
    }
  }

  lemma TakesOneThen(before: seq<Notification>, after: seq<Notification>, taken: bool, n: Notification, t: seq<Notification>)
    requires TakesOne(before, after, taken, n)
    ensures TakesOne(before + t, after + t, taken, n)
  {
  }

  lemma TargetsDistinct(sys: System, f: nat)
    requires FlightsOk(sys) && f < |sys.flights|
    ensures sys.flights[f].targets != [] && sys.flights[f].targets[0] < |sys.parties|
    ensures sys.flights[f].targets[0] !in sys.flights[f].targets[1..]
  {
    assert FlightOk(sys.flights[f], sys.alerts, |sys.parties|);
  }

  lemma HandedToOk(p: Party, n: Notification, queueSize: nat, published: nat)
    requires PartyOk(p, queueSize, published)
    ensures PartyOk(p.(sub := Deliver(p.sub, n)), queueSize, published)
  {
  }

  lemma HandOverSane(sys: System, f: nat)
    requires Sane(sys) && Enabled(sys, HandOver(f))
    ensures Sane(Apply(sys, HandOver(f)))
  {
    hide HubHolds, FlightOk, PartyOk, Deliver, Passed;
    var i := sys.flights[f].targets[0];
    HandedToOk(sys.parties[i], sys.flights[f].n, sys.hub.queueSize, |sys.alerts|);
    PassedFlightsOk(sys.flights, f, sys.alerts, |sys.parties|);
  }

  lemma HandOverComplete(sys: System, f: nat)
    requires Sane(sys) && Complete(sys) && Enabled(sys, HandOver(f))
    ensures Complete(Apply(sys, HandOver(f)))
  {
    hide HubHolds, Trail, Front, InFlight, Published, Deliver, Passed, PartiesOk, FlightsOk;
    var sys' := Apply(sys, HandOver(f));
    var i0, n := sys.flights[f].targets[0], sys.flights[f].n;
    TargetsDistinct(sys, f);
    forall i | 0 <= i < |sys'.parties| ensures CompleteFor(sys', i) {
      assert CompleteFor(sys, i);
      PassedInFlight(sys.flights, f, i);
      DeliverKeepsBase(sys.parties[i0], n);
      DeliverTrail(sys.parties[i0], n);
      if i == i0 && i in sys.attached && sys'.parties[i].sub.Live() {
        assert multiset(Trail(sys.parties[i]) + [n]) == multiset(Trail(sys.parties[i])) + multiset{n};
      }
    }
  }

  lemma DeliverKeepsBase(p: Party, n: Notification)
    ensures p.(sub := Deliver(p.sub, n)).base == p.base
  {
  }

  lemma HandOverOrdered(sys: System, f: nat)
    requires Sane(sys) && Ordered(sys) && Enabled(sys, HandOver(f))
    ensures Ordered(Apply(sys, HandOver(f)))
  {
    hide HubHolds, Trail, Front, InFlight, Contiguous, Deliver, PartiesOk, FlightsOk;
    var sys' := Apply(sys, HandOver(f));
    var i0, n := sys.flights[f].targets[0], sys.flights[f].n;
    TargetsDistinct(sys, f);
    SingleFlight(sys, f);
    forall i | 0 <= i < |sys'.parties| ensures OrderedFor(sys', i) {
      assert OrderedFor(sys, i);
      PassedInFlight(sys.flights, f, i);
      if i == i0 {
        DeliverTrail(sys.parties[i], n);
        HandedIsOrdered(sys, i, sys'.parties[i], n);
      }
    }
  }

  /** With one flight, the first target has exactly its notification in flight, and none after the hand-over. */
  lemma SingleFlight(sys: System, f: nat)
    requires |sys.flights| == 1 && f == 0 && sys.flights[0].targets != []
    requires sys.flights[0].targets[0] !in sys.flights[0].targets[1..]
    ensures InFlight(sys.flights, sys.flights[0].targets[0]) == [sys.flights[0].n]
    ensures InFlight(Passed(sys.flights, 0), sys.flights[0].targets[0]) == []
  {
    assert sys.flights[..0] == [] && Passed(sys.flights, 0)[..0] == [];
  }

  lemma HandedIsOrdered(sys: System, i: nat, p': Party, n: Notification)
    requires i < |sys.parties| && OrderedFor(sys, i) && InFlight(sys.flights, i) == [n]
    requires p'.base == sys.parties[i].base && Front(p') == Front(sys.parties[i])
    requires p'.sub.Live() ==> sys.parties[i].sub.Live() && Trail(p') == Trail(sys.parties[i]) + [n]
    ensures p'.sub.Live() ==> Trail(p') + [] == Trail(sys.parties[i]) + [n]
    ensures !p'.sub.Live() ==> Contiguous(sys.alerts, p'.base, Front(p'))
  {
    hide Contiguous, Notes, Calls, InFlight;
    var p := sys.parties[i];
    if !p'.sub.Live() && p.sub.Live() {
      var rest := Calls(p.sub.handed) + [n];
      assert Trail(p) + [n] == Front(p) + rest;
      ContiguousPrefix(sys.alerts, p.base, Front(p), rest);
    }
  }

  // ----- Joining and leaving ------------------------------------------------

  lemma {:induction false} NotTargeted(flights: seq<Flight>, alerts: seq<AlertRow>, bound: nat)
    requires forall f :: 0 <= f < |flights| ==> FlightOk(flights[f], alerts, bound)
    ensures InFlight(flights, bound) == []
  {
    if flights != [] {
      NotTargeted(flights[..|flights| - 1], alerts, bound);
      assert FlightOk(flights[|flights| - 1], alerts, bound);
    }
  }

  lemma SubscribeSane(sys: System, after: Option<nat>)
    requires Sane(sys)
    ensures Sane(Apply(sys, Subscribe(after)))
  {
    hide HubHolds;
    var sys' := Apply(sys, Subscribe(after));
    forall f | 0 <= f < |sys'.flights| ensures FlightOk(sys'.flights[f], sys'.alerts, |sys'.parties|) {
      assert FlightOk(sys.flights[f], sys.alerts, |sys.parties|);
    }
  }

  lemma JoinedIsEmpty(sys: System, after: Option<nat>)
    ensures var p := Joined(sys, after); p.base == |sys.alerts| && Trail(p) == [] && p.sub.Live()
  {
  }

  lemma SubscribeComplete(sys: System, after: Option<nat>)
    requires Sane(sys) && Complete(sys)
    ensures Complete(Apply(sys, Subscribe(after)))
  {
    hide HubHolds, Trail, InFlight, FlightOk, PartiesOk, Joined;
    var sys' := Apply(sys, Subscribe(after));
    JoinedIsEmpty(sys, after);
    NotTargeted(sys.flights, sys.alerts, |sys.parties|);
    forall i | 0 <= i < |sys'.parties| ensures CompleteFor(sys', i) {
      if i < |sys.parties| {
        assert CompleteFor(sys, i);
      }
    }
  }

  lemma SubscribeOrdered(sys: System, after: Option<nat>)
    requires Sane(sys) && Ordered(sys)
    ensures Ordered(Apply(sys, Subscribe(after)))
  {
    hide HubHolds, Trail, Front, InFlight, FlightOk, PartiesOk, Joined;
    var sys' := Apply(sys, Subscribe(after));
    JoinedIsEmpty(sys, after);
    NotTargeted(sys.flights, sys.alerts, |sys.parties|);
    forall i | 0 <= i < |sys'.parties| ensures OrderedFor(sys', i) {
      if i < |sys.parties| {
        assert OrderedFor(sys, i);
      } else {
        assert [] + InFlight(sys.flights, i) == [];
      }
    }
  }

  lemma {:induction false} WithoutKeeps(s: seq<nat>, x: nat, bound: nat)
    requires DistinctBelow(s, bound)
    ensures DistinctBelow(Without(s, x), bound)
    ensures forall y :: y in Without(s, x) <==> y in s && y != x
  {
    if s != [] {
      var t := s[1..];
      assert DistinctBelow(t, bound);
      assert s == [s[0]] + t;
      WithoutKeeps(t, x, bound);
      assert s[0] !in t;
    }
  }

  lemma LeavingKeeps(sys: System, attached: seq<nat>, shutting: seq<nat>)
    requires Sane(sys) && DistinctBelow(attached, |sys.parties|)
    requires forall i :: i in attached ==> i in sys.attached
    requires forall k :: 0 <= k < |shutting| ==> shutting[k] < |sys.parties|
    ensures var sys' := sys.(attached := attached, shutting := shutting);
            Sane(sys') && (Complete(sys) ==> Complete(sys')) && (Ordered(sys) ==> Ordered(sys'))
  {
    hide HubHolds, Trail, Front, InFlight, PartyOk, FlightOk, Contiguous;
    var sys' := sys.(attached := attached, shutting := shutting);
    if Complete(sys) {
      forall i | 0 <= i < |sys'.parties| ensures CompleteFor(sys', i) {
        assert CompleteFor(sys, i);
      }
    }
    if Ordered(sys) {
      forall i | 0 <= i < |sys'.parties| ensures OrderedFor(sys', i) {
        assert OrderedFor(sys, i);
      }
    }
  }

  // ----- Every step ---------------------------------------------------------

  /** The party a step changes without publishing or handing over, and what it becomes. */
  predicate IsLocal(step: Step) {
    step.Callback? || step.Begin? || step.Finish? || step.Cancel? || step.CloseSub? || step.LoopCloses?
  }

  lemma LocalStep(sys: System, step: Step) returns (i: nat, p': Party)
    requires Sane(sys) && IsLocal(step) && Enabled(sys, step)
    ensures i < |sys.parties| && Apply(sys, step) == sys.(parties := sys.parties[i := p'])
    ensures Evolves(sys.parties[i], p', sys.hub.queueSize, |sys.alerts|)
  {
    hide HubHolds, FlightsOk, Evolves, Trail, Front, PartyOk;
    i := step.i;
    var p, q, n := sys.parties[i], sys.hub.queueSize, |sys.alerts|;
    assert PartyOk(p, q, n);
    match step
    case Callback(_) => CallbackEvolves(p, q, n); p' := Ran(p, q);
    case Begin(_) => PlainEvolves(p, q, n, BeginNext(p.sub).0); p' := p.(sub := BeginNext(p.sub).0);
    case Finish(_) => FinishEvolves(p, q, n); p' := Received(p);
    case Cancel(_) => PlainEvolves(p, q, n, CancelWait(p.sub)); p' := p.(sub := CancelWait(p.sub));
    case CloseSub(_) => PlainEvolves(p, q, n, p.sub.(closed := true)); p' := p.(sub := p.sub.(closed := true));
    case LoopCloses(_) => PlainEvolves(p, q, n, p.sub.(loopOpen := false)); p' := p.(sub := p.sub.(loopOpen := false));
  }

  lemma LeavingStep(sys: System, step: Step)
    requires Sane(sys) && Enabled(sys, step) && (step.Detach? || step.CloseHub?)
    ensures var sys' := Apply(sys, step);
            Sane(sys') && (Complete(sys) ==> Complete(sys')) && (Ordered(sys) ==> Ordered(sys'))
  {
    hide HubHolds, PartiesOk, Complete, Ordered, FlightOk;
    if step.Detach? {
      WithoutKeeps(sys.attached, step.i, |sys.parties|);
      LeavingKeeps(sys, Without(sys.attached, step.i), sys.shutting);
    } else {
      LeavingKeeps(sys, [], sys.shutting + sys.attached);
    }
  }

  lemma ShutdownStep(sys: System)
    requires Sane(sys) && Enabled(sys, MarkShutdown)
    ensures var sys' := Apply(sys, MarkShutdown);
            Sane(sys') && (Complete(sys) ==> Complete(sys')) && (Ordered(sys) ==> Ordered(sys'))
  {
    hide HubHolds, Complete, Ordered, FlightOk, Evolves, PartyOk;
    var i := sys.shutting[0];
    var p := sys.parties[i];
    var p' := p.(sub := MarkDropped(p.sub, Shutdown));
    assert PartyOk(p, sys.hub.queueSize, |sys.alerts|);
    PlainEvolves(p, sys.hub.queueSize, |sys.alerts|, p'.sub);
    var mid := sys.(parties := sys.parties[i := p']);
    OnePartySane(sys, i, p');
    LeavingKeeps(mid, sys.attached, sys.shutting[1..]);
    if Complete(sys) {
      OnePartyComplete(sys, i, p');
    }
    if Ordered(sys) {
      OnePartyOrdered(sys, i, p');
    }
  }

  lemma StepKeepsComplete(sys: System, step: Step)
    requires Sane(sys) && Complete(sys)
    ensures Sane(Apply(sys, step)) && Complete(Apply(sys, step))
  {
    hide Sane, Complete;
    if Enabled(sys, step) {
      if IsLocal(step) {
        var i, p' := LocalStep(sys, step);
        OnePartySane(sys, i, p');
        OnePartyComplete(sys, i, p');
      } else {
        match step
        case Publish(alert) => PublishSane(sys, alert); PublishComplete(sys, alert);
        case HandOver(f) => HandOverSane(sys, f); HandOverComplete(sys, f);
        case Subscribe(after) => SubscribeSane(sys, after); SubscribeComplete(sys, after);
        case MarkShutdown => ShutdownStep(sys);
        case _ => LeavingStep(sys, step);
      }
    }
  }

  lemma StepKeepsOrdered(sys: System, step: Step)
    requires Sane(sys) && Ordered(sys) && (step.Publish? ==> sys.flights == [])
    ensures Ordered(Apply(sys, step))
  {
    hide Sane, Ordered;
    if Enabled(sys, step) {
      if IsLocal(step) {
        var i, p' := LocalStep(sys, step);
        OnePartyOrdered(sys, i, p');
      } else {
        match step
        case Publish(alert) => PublishOrdered(sys, alert);
        case HandOver(f) => HandOverOrdered(sys, f);
        case Subscribe(after) => SubscribeOrdered(sys, after);
        case MarkShutdown => ShutdownStep(sys);
        case _ => LeavingStep(sys, step);
      }
    }
  }

  // ----- Runs ---------------------------------------------------------------

  lemma StartIsSane(h: HubValues)
    requires HubHolds(h, [])
    ensures Sane(Start(h)) && Complete(Start(h)) && Ordered(Start(h))
  {
  }

  /**
   * In every interleaving, even of several publishers, each publication since an attached live
   * subscriber joined is with it or on its way to it, exactly once.
   */
  lemma {:induction false} EveryRunIsComplete(h: HubValues, steps: seq<Step>)
    requires HubHolds(h, [])
    ensures Sane(Exec(h, steps)) && Complete(Exec(h, steps))
  {
    hide Sane, Complete, Apply;
    if steps == [] {
      StartIsSane(h);
    } else {
      EveryRunIsComplete(h, steps[..|steps| - 1]);
      StepKeepsComplete(Exec(h, steps[..|steps| - 1]), steps[|steps| - 1]);
    }
  }

  /** Each publication is handed to all its subscribers before the next is sequenced. */
  ghost predicate Serialised(h: HubValues, steps: seq<Step>) {
    forall k :: 0 <= k < |steps| && steps[k].Publish? ==> Exec(h, steps[..k]).flights == []
  }

  lemma SerialisedPrefix(h: HubValues, steps: seq<Step>, k: nat)
    requires Serialised(h, steps) && k <= |steps|
    ensures Serialised(h, steps[..k])
  {
    hide Exec;
    forall j | 0 <= j < k && steps[..k][j].Publish? ensures Exec(h, steps[..k][..j]).flights == [] {
      assert steps[..k][..j] == steps[..j];
    }
  }

  /**
   * With publishes serialised, what a live subscriber got, then its queue, then its handed-off
   * callbacks are the publications since it joined, in order and without a gap; a subscriber that
   * was dropped or closed got an unbroken beginning of them.
   */
  lemma {:induction false} SerialisedRunsAreOrdered(h: HubValues, steps: seq<Step>)
    requires HubHolds(h, []) && Serialised(h, steps)
    ensures Sane(Exec(h, steps)) && Ordered(Exec(h, steps))
  {
    hide Sane, Ordered, Apply;
    EveryRunIsComplete(h, steps);
    if steps == [] {
      StartIsSane(h);
    } else {
      var k := |steps| - 1;
      SerialisedPrefix(h, steps, k);
      EveryRunIsComplete(h, steps[..k]);
      SerialisedRunsAreOrdered(h, steps[..k]);
      StepKeepsOrdered(Exec(h, steps[..k]), steps[k]);
    }
  }

  // ----- Two publishers at once ---------------------------------------------

  lemma PublishedSplits(alerts: seq<AlertRow>, a: nat, b: nat, c: nat)
    requires a <= b <= c <= |alerts|
    ensures Published(alerts, a, c) == Published(alerts, a, b) + Published(alerts, b, c)
  {
  }

  lemma StillToCome(alerts: seq<AlertRow>, base: nat, trail: seq<Notification>, flying: seq<Notification>)
    requires base <= |alerts| && Contiguous(alerts, base, trail)
    requires multiset(trail) + multiset(flying) == multiset(Published(alerts, base, |alerts|))
    ensures multiset(flying) == multiset(Published(alerts, base + |trail|, |alerts|))
    ensures forall n :: n in flying <==> n in Published(alerts, base + |trail|, |alerts|)
  {
    hide Published;
    PublishedSplits(alerts, base, base + |trail|, |alerts|);
    var rest := Published(alerts, base + |trail|, |alerts|);
    assert multiset(trail + rest) == multiset(trail) + multiset(rest);
    Cancel(multiset(trail), multiset(flying), multiset(rest));
    assert forall n :: n in flying <==> n in multiset(flying);
  }

  lemma Cancel<T>(a: multiset<T>, b: multiset<T>, c: multiset<T>)
    requires a + b == a + c
    ensures b == c
  {
    assert (a + b) - a == b;
    assert (a + c) - a == c;
  }

  lemma NextInOrder(alerts: seq<AlertRow>, base: nat, trail: seq<Notification>, flying: seq<Notification>, n: Notification)
    requires base + |trail| <= |alerts| && Contiguous(alerts, base, trail)
    requires forall m :: m in flying <==> m in Published(alerts, base + |trail|, |alerts|)
    requires n in flying
    ensures Contiguous(alerts, base, trail + [n]) <==> forall m :: m in flying ==> n.sequence <= m.sequence
  {
    var k := base + |trail|;
    var rest := Published(alerts, k, |alerts|);
    assert n in rest && rest != [];
    assert rest[0] in rest && rest[0].sequence == k + 1;
    assert forall m :: m in flying ==> k + 1 <= m.sequence;
    if n.sequence == k + 1 {
      assert n == rest[0];
      assert trail + [n] == Published(alerts, base, k + 1);
    }
    if Contiguous(alerts, base, trail + [n]) {
      assert (trail + [n])[|trail|] == Published(alerts, base, k + 1)[|trail|];
    }
  }

  /** A hand-over keeps a subscriber's order exactly when nothing older is still in flight to it. */
  lemma HandOverKeepsOrderExactly(sys: System, f: nat)
    requires Sane(sys) && Complete(sys) && Enabled(sys, HandOver(f))
    requires var i := sys.flights[f].targets[0];
             var p := sys.parties[i];
             i in sys.attached && p.sub.Live() && p.sub.loopOpen && Contiguous(sys.alerts, p.base, Trail(p))
    ensures var i, n := sys.flights[f].targets[0], sys.flights[f].n;
            var p' := Apply(sys, HandOver(f)).parties[i];
            Contiguous(sys.alerts, p'.base, Trail(p')) <==>
            forall m :: m in InFlight(sys.flights, i) ==> n.sequence <= m.sequence
  {
    hide HubHolds, Trail, InFlight, Contiguous, FlightsOk, PartiesOk;
    var i, n := sys.flights[f].targets[0], sys.flights[f].n;
    var p := sys.parties[i];
    assert CompleteFor(sys, i);
    FlyingHasTarget(sys.flights, f);
    StillToCome(sys.alerts, p.base, Trail(p), InFlight(sys.flights, i));
    TrailFits(sys.alerts, p.base, Trail(p));
    NextInOrder(sys.alerts, p.base, Trail(p), InFlight(sys.flights, i), n);
    DeliverTrail(p, n);
  }

  lemma TrailFits(alerts: seq<AlertRow>, base: nat, s: seq<Notification>)
    requires Contiguous(alerts, base, s)
    ensures base + |s| <= |alerts|
  {
  }

  lemma {:induction false} FlyingHasTarget(flights: seq<Flight>, f: nat)
    requires f < |flights| && flights[f].targets != []
    ensures flights[f].n in InFlight(flights, flights[f].targets[0])
  {
    var m := |flights| - 1;
    if f < m {
      FlyingHasTarget(flights[..m], f);
    }
  }

  function Waiting(handed: seq<Callback>): Party {
    Party(NewSub(0).(handed := handed), 0, 0, CatchUp([], false, None, None), [])
  }

  /** One subscriber, joined before anything was published. */
  function WithOne(h: HubValues, alerts: seq<AlertRow>, handed: seq<Callback>, flights: seq<Flight>): System {
    System(h, alerts, [Waiting(handed)], [0], flights, [])
  }

  lemma TwoPublishersStart(h: HubValues, a: AlertRow, b: AlertRow)
    requires h.next == 1 && h.buffer == []
    ensures var sys := Apply(Apply(Apply(Start(h), Subscribe(None)), Publish(a)), Publish(b));
            sys == WithOne(Append(Append(h, a), b), [a, b], [],
                           [Flight(Notification(1, a), [0]), Flight(Notification(2, b), [0])])
  {
    hide LastOf;
    var s1 := Apply(Start(h), Subscribe(None));
    assert s1.parties == [Waiting([])] && s1.attached == [0];
    assert s1 == WithOne(h, [], [], []);
    var s2 := Apply(s1, Publish(a));
    assert s2.alerts == [a] && s2.flights == [Flight(Notification(1, a), [0])];
    assert s2 == WithOne(Append(h, a), [a], [], [Flight(Notification(1, a), [0])]);
    var s3 := Apply(s2, Publish(b));
    assert s3.alerts == [a, b] && s3.flights == s2.flights + [Flight(Notification(2, b), [0])];
  }

  lemma TwoHandOvers(h: HubValues, alerts: seq<AlertRow>, n1: Notification, n2: Notification)
    ensures var sys := WithOne(h, alerts, [], [Flight(n1, [0]), Flight(n2, [0])]);
            Apply(Apply(sys, HandOver(1)), HandOver(0))
            == WithOne(h, alerts, [Enqueue(n2), Enqueue(n1)], [])
  {
    var sys := WithOne(h, alerts, [], [Flight(n1, [0]), Flight(n2, [0])]);
    var s4 := Apply(sys, HandOver(1));
    assert [] + [Enqueue(n2)] == [Enqueue(n2)] && [Enqueue(n2)] + [Enqueue(n1)] == [Enqueue(n2), Enqueue(n1)];
    assert s4.parties == [Waiting([Enqueue(n2)])];
    assert s4.flights == [Flight(n1, [0])];
    assert s4 == WithOne(h, alerts, [Enqueue(n2)], [Flight(n1, [0])]);
  }

  lemma ExecOfFive(h: HubValues, s: seq<Step>)
    requires |s| == 5
    ensures Exec(h, s) == Apply(Apply(Apply(Apply(Apply(Start(h), s[0]), s[1]), s[2]), s[3]), s[4])
  {
    hide Apply;
    assert s[..4][..3] == s[..3] && s[..3][..2] == s[..2] && s[..2][..1] == s[..1] && s[..1][..0] == [];
    assert Exec(h, s[..1]) == Apply(Start(h), s[0]);
    assert Exec(h, s[..2]) == Apply(Exec(h, s[..1]), s[1]);
    assert Exec(h, s[..3]) == Apply(Exec(h, s[..2]), s[2]);
    assert Exec(h, s[..4]) == Apply(Exec(h, s[..3]), s[3]);
  }

  /** Two publishers that run at once can hand their notifications over in the wrong order. */
  lemma ConcurrentPublishersCanSwap(h: HubValues, a: AlertRow, b: AlertRow)
    requires HubHolds(h, [])
    ensures var sys := Exec(h, [Subscribe(None), Publish(a), Publish(b), HandOver(1), HandOver(0)]);
            |sys.parties| == 1 && Trail(sys.parties[0]) == [Notification(2, b), Notification(1, a)]
  {
    hide Exec, Apply, HubHolds, Append, Trail;
    HubNumbers(h, []);
    var n1, n2 := Notification(1, a), Notification(2, b);
    ExecOfFive(h, [Subscribe(None), Publish(a), Publish(b), HandOver(1), HandOver(0)]);
    TwoPublishersStart(h, a, b);
    TwoHandOvers(Append(Append(h, a), b), [a, b], n1, n2);
    SwappedTrail(n1, n2);
  }

  lemma SwappedTrail(n1: Notification, n2: Notification)
    ensures Trail(Waiting([Enqueue(n2), Enqueue(n1)])) == [n2, n1]
  {
    var h := [Enqueue(n2), Enqueue(n1)];
    CallsHead(h);
    CallsHead(h[1..]);
    assert h[1..][1..] == [];
  }
}
