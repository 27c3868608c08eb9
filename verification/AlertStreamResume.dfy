/** Where a client stands in the stream: its catch-up, the cursor a drop reports, and what coming back gives it. */
module AlertStreamResume {
  import opened Wrappers
  import opened AlertRows
  import opened AlertStream
  import opened AlertStreamRuns

  // ----- The catch-up a client joined with ----------------------------------

  /**
   * What was handed over on joining ends at the sequence where live delivery starts and moves the client,
   * and for a usable positive cursor it is everything from there on.
   */
  ghost predicate CaughtOk(p: Party, alerts: seq<AlertRow>) {
    && p.base <= |alerts|
    && (p.caught.items != [] ==> p.caught.items[|p.caught.items| - 1].sequence == p.base != p.cursor)
    && (p.cursor > 0 && !p.caught.resync ==>
          p.cursor <= p.base && p.caught.items == Published(alerts, p.cursor, p.base))
  }

  ghost predicate AllCaught(sys: System) {
    forall i :: 0 <= i < |sys.parties| ==> CaughtOk(sys.parties[i], sys.alerts)
  }

  lemma JoinedCaught(sys: System, after: Option<nat>)
    requires HubHolds(sys.hub, sys.alerts)
    ensures CaughtOk(Joined(sys, after), sys.alerts)
  {
    hide CatchUpFrom;
    CatchUpIsExact(sys.hub, sys.alerts, after);
  }

  predicate SameJoin(p: Party, p': Party) {
    p'.base == p.base && p'.cursor == p.cursor && p'.caught == p.caught
  }

  /** No step changes where a party joined, and the only new party is the one that subscribes. */
  lemma ApplyKeepsJoins(sys: System, step: Step)
    ensures var sys' := Apply(sys, step);
            && sys.alerts <= sys'.alerts
            && |sys.parties| <= |sys'.parties|
            && (forall i :: 0 <= i < |sys.parties| ==> SameJoin(sys.parties[i], sys'.parties[i]))
            && (|sys.parties| < |sys'.parties| ==>
                  step.Subscribe? && sys'.parties == sys.parties + [Joined(sys, step.after)] && sys'.alerts == sys.alerts)
  {
    hide CatchUpFrom, Deliver, RunCallback, BeginNext, MarkDropped, Append, Passed, Without;
  }

  lemma CaughtStays(p: Party, p': Party, alerts: seq<AlertRow>, alerts': seq<AlertRow>)
    requires CaughtOk(p, alerts) && SameJoin(p, p') && alerts <= alerts'
    ensures CaughtOk(p', alerts')
  {
    if p.cursor > 0 && !p.caught.resync {
      assert Published(alerts', p.cursor, p.base) == Published(alerts, p.cursor, p.base);
    }
  }

  lemma {:induction false} CatchUpsHold(h: HubValues, steps: seq<Step>)
    requires HubHolds(h, [])
    ensures AllCaught(Exec(h, steps))
  {
    hide Apply, CaughtOk, HubHolds, Complete, PartiesOk, FlightsOk, SameJoin, Joined;
    if steps != [] {
      var k := |steps| - 1;
      var sys := Exec(h, steps[..k]);
      CatchUpsHold(h, steps[..k]);
      EveryRunIsComplete(h, steps[..k]);
      ApplyKeepsJoins(sys, steps[k]);
      var sys' := Apply(sys, steps[k]);
      forall i | 0 <= i < |sys'.parties| ensures CaughtOk(sys'.parties[i], sys'.alerts) {
        if i < |sys.parties| {
          CaughtStays(sys.parties[i], sys'.parties[i], sys.alerts, sys'.alerts);
        } else {
          JoinedCaught(sys, steps[k].after);
        }
      }
    }
  }

  lemma ContiguousJoins(alerts: seq<AlertRow>, cursor: nat, base: nat, caught: seq<Notification>, s: seq<Notification>)
    requires cursor <= base && base + |s| <= |alerts| && caught == Published(alerts, cursor, base)
    requires Contiguous(alerts, base, s)
    ensures Contiguous(alerts, cursor, caught + s) && |caught + s| == base - cursor + |s|
  {
    PublishedSplits(alerts, cursor, base, base + |s|);
  }

  /**
   * Over any serialised run, what a client with a usable positive cursor was handed on joining, then what
   * it got live, then what is on its way, is everything published after its cursor, in order, none twice;
   * once it is dropped or closed, what it was handed and what is queued is an unbroken beginning of that.
   */
  lemma EverythingSinceCursor(h: HubValues, steps: seq<Step>, i: nat)
    requires HubHolds(h, []) && Serialised(h, steps)
    requires i < |Exec(h, steps).parties|
    requires var p := Exec(h, steps).parties[i]; p.cursor > 0 && !p.caught.resync
    ensures var sys := Exec(h, steps);
            var p := sys.parties[i];
            var all := p.caught.items + (if p.sub.Live() then Trail(p) + InFlight(sys.flights, i) else Front(p));
            && Contiguous(sys.alerts, p.cursor, all)
            && (i in sys.attached && p.sub.Live() ==> all == Published(sys.alerts, p.cursor, |sys.alerts|))
  {
    hide Exec, Serialised, HubHolds, Complete, FlightsOk, Trail, Front, InFlight;
    SerialisedRunsAreOrdered(h, steps);
    CatchUpsHold(h, steps);
    var sys := Exec(h, steps);
    var p := sys.parties[i];
    assert OrderedFor(sys, i) && CaughtOk(p, sys.alerts);
    var live := if p.sub.Live() then Trail(p) + InFlight(sys.flights, i) else Front(p);
    ContiguousJoins(sys.alerts, p.cursor, p.base, p.caught.items, live);
  }

  // ----- The cursor a drop reports ------------------------------------------

  /** The sequence of the last item handed to the client, on joining or live; its own cursor if there was none. */
  function LastHanded(p: Party): nat {
    if p.got != [] then p.got[|p.got| - 1].sequence
    else if p.caught.items != [] then p.caught.items[|p.caught.items| - 1].sequence
    else p.cursor
  }

  /**
   * The cursor a drop reports is the last item the client was handed exactly when it got something live or
   * its catch-up was empty: the catch-up itself does not move the cursor.
   */
  lemma CursorIsLastHandedExactly(h: HubValues, steps: seq<Step>, i: nat)
    requires HubHolds(h, []) && i < |Exec(h, steps).parties|
    ensures var p := Exec(h, steps).parties[i];
            && p.sub.received == |p.got|
            && (p.sub.after == LastHanded(p) <==> p.got != [] || p.caught.items == [])
            && (p.got == [] ==> p.sub.after == p.cursor)
            && (p.sub.dropped.Some? ==> BeginNext(p.sub).1 == Some((p.sub.dropped.value, p.sub.after)))
  {
    hide Exec, HubHolds, Complete;
    EveryRunIsComplete(h, steps);
    CatchUpsHold(h, steps);
    var sys := Exec(h, steps);
    assert PartyOk(sys.parties[i], sys.hub.queueSize, |sys.alerts|) && CaughtOk(sys.parties[i], sys.alerts);
  }

  lemma ExecOneMore(h: HubValues, steps: seq<Step>, step: Step)
    ensures Exec(h, steps + [step]) == Apply(Exec(h, steps), step)
  {
    assert (steps + [step])[..|steps|] == steps;
  }

  /** The hub and the history after two publications that nobody was there for. */
  lemma TwoPublished(h: HubValues, a: AlertRow, b: AlertRow)
    requires HubHolds(h, [])
    ensures var hub := Append(Append(h, a), b);
            && Exec(h, [Publish(a), Publish(b)]) == System(hub, [a, b], [], [], [], [])
            && Exec(h, [Publish(a)]).flights == [] && Exec(h, []).flights == []
            && HubHolds(hub, [a, b]) && hub.bufferSize == h.bufferSize && hub.queueSize == h.queueSize && hub.next == 3
  {
    hide HubHolds, Append;
    ExecOneMore(h, [], Publish(a));
    ExecOneMore(h, [Publish(a)], Publish(b));
    assert [] + [Publish(a)] == [Publish(a)] && [Publish(a)] + [Publish(b)] == [Publish(a), Publish(b)];
    assert [] + [a] == [a] && [a] + [b] == [a, b];
    AppendHolds(h, [], a);
    AppendHolds(Append(h, a), [a], b);
    AppendKeepsSizes(h, a);
    AppendKeepsSizes(Append(h, a), b);
    HubNumbers(Append(Append(h, a), b), [a, b]);
  }

  function JoinedAtTwo(sub: Sub, caught: CatchUp): Party {
    Party(sub, 2, 1, caught, [])
  }

  /** A client that saw the first of two publications joins again and is handed the second. */
  lemma JoinsWithOneMissing(h: HubValues, a: AlertRow, b: AlertRow)
    requires HubHolds(h, []) && h.bufferSize >= 2
    ensures var hub := Append(Append(h, a), b);
            var caught := CatchUpFrom(hub, Some(1));
            && !caught.resync && caught.items == [Notification(2, b)]
            && Exec(h, [Publish(a), Publish(b), Subscribe(Some(1))])
               == System(hub, [a, b], [JoinedAtTwo(NewSub(1), caught)], [0], [], [])
  {
    hide HubHolds, Append, CatchUpFrom;
    TwoPublished(h, a, b);
    var hub := Append(Append(h, a), b);
    CatchUpIsExact(hub, [a, b], Some(1));
    assert Published([a, b], 1, 2) == [Notification(2, b)];
    ExecOneMore(h, [Publish(a), Publish(b)], Subscribe(Some(1)));
    assert [Publish(a), Publish(b)] + [Subscribe(Some(1))] == [Publish(a), Publish(b), Subscribe(Some(1))];
  }

  /** That client is handed the second publication, and at a shutdown is told to resume after the first. */
  lemma DropForgetsTheCatchUp(h: HubValues, a: AlertRow, b: AlertRow)
    requires HubHolds(h, []) && h.bufferSize >= 2
    ensures var sys := Exec(h, [Publish(a), Publish(b), Subscribe(Some(1)), CloseHub, MarkShutdown]);
            && |sys.parties| == 1
            && !sys.parties[0].caught.resync && sys.parties[0].caught.items == [Notification(2, b)]
            && BeginNext(sys.parties[0].sub).1 == Some((Shutdown, 1))
  {
    hide HubHolds, Append, CatchUpFrom, Exec;
    JoinsWithOneMissing(h, a, b);
    var s3 := [Publish(a), Publish(b), Subscribe(Some(1))];
    ExecOneMore(h, s3, CloseHub);
    ExecOneMore(h, s3 + [CloseHub], MarkShutdown);
    assert s3 + [CloseHub] + [MarkShutdown] == [Publish(a), Publish(b), Subscribe(Some(1)), CloseHub, MarkShutdown];
    var joined := Exec(h, s3);
    var closed := Apply(joined, CloseHub);
    assert closed.shutting == [0];
  }

  // ----- Coming back --------------------------------------------------------

  lemma GotIsContiguous(sys: System, i: nat)
    requires i < |sys.parties| && OrderedFor(sys, i)
    ensures Contiguous(sys.alerts, sys.parties[i].base, sys.parties[i].got)
  {
    hide InFlight, Notes, Calls, Contiguous;
    var p := sys.parties[i];
    var queued := Notes(p.sub.queue);
    if p.sub.Live() {
      var rest := queued + Calls(p.sub.handed) + InFlight(sys.flights, i);
      assert Trail(p) + InFlight(sys.flights, i) == p.got + rest;
      ContiguousPrefix(sys.alerts, p.base, p.got, rest);
    } else {
      ContiguousPrefix(sys.alerts, p.base, p.got, queued);
    }
  }

  /**
   * No alert is lost across the switch. In a serialised run a client that comes back with the positive
   * cursor it was left with is told to resync exactly when that cursor is ahead of the stream or more was
   * published since than the buffer holds, and otherwise gets everything after it. With what it had this
   * is everything since it joined; and nothing is handed over twice exactly when it had got something live
   * or its earlier catch-up was empty.
   */
  lemma ResumeLosesNothing(h: HubValues, steps: seq<Step>, i: nat)
    requires HubHolds(h, []) && Serialised(h, steps)
    requires i < |Exec(h, steps).parties| && Exec(h, steps).parties[i].sub.after > 0
    ensures var sys := Exec(h, steps);
            var p, n := sys.parties[i], |sys.alerts|;
            var cu := CatchUpFrom(sys.hub, Some(p.sub.after));
            && (cu.resync <==> p.sub.after > n || n - p.sub.after > sys.hub.bufferSize)
            && (!cu.resync ==> p.sub.after <= n && cu.items == Published(sys.alerts, p.sub.after, n))
            && p.base <= n
            && (p.got != [] ==> p.base <= p.sub.after <= n)
            && (p.got != [] && !cu.resync ==> p.got + cu.items == Published(sys.alerts, p.base, n))
            && (p.cursor > 0 && !p.caught.resync ==> p.cursor <= p.sub.after <= n)
            && (p.cursor > 0 && !p.caught.resync && !cu.resync ==>
                  (p.caught.items + p.got + cu.items == Published(sys.alerts, p.cursor, n)
                   <==> p.got != [] || p.caught.items == []))
  {
    hide Exec, Serialised, HubHolds, Complete, CatchUpFrom, FlightsOk, Published, Contiguous;
    SerialisedRunsAreOrdered(h, steps);
    CatchUpsHold(h, steps);
    var sys := Exec(h, steps);
    var p := sys.parties[i];
    assert OrderedFor(sys, i) && PartyOk(p, sys.hub.queueSize, |sys.alerts|) && CaughtOk(p, sys.alerts);
    GotIsContiguous(sys, i);
    CatchUpIsExact(sys.hub, sys.alerts, Some(p.sub.after));
    if p.got != [] {
      GotEndsAt(sys.alerts, p);
      if !CatchUpFrom(sys.hub, Some(p.sub.after)).resync {
        PublishedSplits(sys.alerts, p.base, p.sub.after, |sys.alerts|);
        if p.cursor > 0 && !p.caught.resync {
          PublishedSplits(sys.alerts, p.cursor, p.base, |sys.alerts|);
          Associates(p.caught.items, p.got, CatchUpFrom(sys.hub, Some(p.sub.after)).items);
        }
      }
    } else if p.cursor > 0 && !p.caught.resync {
      NothingTwice(sys.alerts, p.cursor, p.base, p.caught.items);
    }
  }

  lemma Associates(a: seq<Notification>, b: seq<Notification>, c: seq<Notification>)
    ensures a + b + c == a + (b + c)
  {
  }

  lemma GotEndsAt(alerts: seq<AlertRow>, p: Party)
    requires p.got != [] && Contiguous(alerts, p.base, p.got) && p.sub.after == CursorOf(p)
    ensures p.base + |p.got| == p.sub.after <= |alerts| && p.got == Published(alerts, p.base, p.sub.after)
  {
  }

  /** A catch-up handed over again doubles it unless it is empty. */
  lemma NothingTwice(alerts: seq<AlertRow>, cursor: nat, base: nat, caught: seq<Notification>)
    requires cursor <= base <= |alerts| && caught == Published(alerts, cursor, base)
    ensures caught + [] + Published(alerts, cursor, |alerts|) == Published(alerts, cursor, |alerts|) <==> caught == []
  {
    var all := Published(alerts, cursor, |alerts|);
    assert |caught + [] + all| == |caught| + |all|;
    if caught == [] {
      assert caught + [] + all == all;
    }
  }

  /** A reconnecting client with a usable positive cursor is handed, at once, everything from its cursor to where live delivery starts. */
  lemma SubscribeStartsWhereCatchUpEnds(sys: System, cursor: nat)
    requires Sane(sys) && cursor > 0 && !CatchUpFrom(sys.hub, Some(cursor)).resync
    ensures var p := Apply(sys, Subscribe(Some(cursor))).parties[|sys.parties|];
            && cursor <= p.base == |sys.alerts|
            && p.caught.items == Published(sys.alerts, cursor, p.base)
  {
    hide CatchUpFrom, HubHolds, PartiesOk, FlightsOk;
    CatchUpIsExact(sys.hub, sys.alerts, Some(cursor));
  }

  // ----- A slow consumer ----------------------------------------------------

  lemma {:induction false} NotesLength(q: seq<Item>)
    requires DropMark !in q
    ensures |Notes(q)| == |q|
  {
    if q != [] {
      NotesLength(q[..|q| - 1]);
      assert q[|q| - 1] in q;
    }
  }

  lemma OverflowPosition(alerts: seq<AlertRow>, p: Party, flying: seq<Notification>)
    requires Contiguous(alerts, p.base, Trail(p) + flying)
    requires DropMark !in p.sub.queue && p.sub.handed != [] && p.sub.handed[0].Enqueue?
    ensures p.sub.handed[0].n.sequence == p.base + |p.got| + |p.sub.queue| + 1 <= |alerts|
  {
    hide Notes, Calls;
    NotesLength(p.sub.queue);
    CallsHead(p.sub.handed);
    var all := Trail(p) + flying;
    assert all[|p.got| + |p.sub.queue|] == p.sub.handed[0].n;
  }

  /** The next callback of a live subscriber brings the newest publication to a queue that is full. */
  predicate Overflows(sys: System, i: nat) {
    && i < |sys.parties|
    && var s := sys.parties[i].sub;
       && s.Live() && s.loopOpen && |s.queue| == sys.hub.queueSize
       && s.handed != [] && s.handed[0].Enqueue? && s.handed[0].n.sequence == |sys.alerts|
  }

  /**
   * A full queue drops the subscriber. If it got something live, coming back with the cursor is complete
   * exactly when the buffer is larger than a queue: the equal sizes that a hub accepts force a resync. If
   * it got nothing live, it is left with the cursor it came with, and must resync exactly when its
   * catch-up, the queue and the notification that did not fit are together more than the buffer holds.
   */
  lemma OverflowForcesResyncExactly(h: HubValues, steps: seq<Step>, i: nat)
    requires HubHolds(h, []) && Serialised(h, steps) && Overflows(Exec(h, steps), i)
    ensures var sys := Exec(h, steps);
            var p, q := sys.parties[i], sys.hub.queueSize;
            var s' := Apply(sys, Callback(i)).parties[i].sub;
            var resync := CatchUpFrom(sys.hub, Some(s'.after)).resync;
            && s'.dropped == Some(SlowConsumer)
            && |sys.alerts| == p.base + |p.got| + q + 1
            && (p.got != [] ==> s'.after == |sys.alerts| - q - 1 && (resync <==> sys.hub.bufferSize == q))
            && (p.got == [] ==> s'.after == p.cursor)
            && (p.got == [] && 0 < p.cursor && !p.caught.resync ==>
                  (resync <==> |p.caught.items| + q + 1 > sys.hub.bufferSize))
  {
    hide Exec, Serialised, HubHolds, Complete, CatchUpFrom, FlightsOk;
    SerialisedRunsAreOrdered(h, steps);
    CatchUpsHold(h, steps);
    var sys := Exec(h, steps);
    assert CaughtOk(sys.parties[i], sys.alerts);
    OverflowResync(sys, i);
  }

  lemma HubSizes(h: HubValues, alerts: seq<AlertRow>)
    requires HubHolds(h, alerts)
    ensures 1 <= h.queueSize <= h.bufferSize
  {
  }

  lemma OverflowResync(sys: System, i: nat)
    requires HubHolds(sys.hub, sys.alerts) && PartiesOk(sys) && Overflows(sys, i) && OrderedFor(sys, i)
    requires CaughtOk(sys.parties[i], sys.alerts)
    ensures var p, q := sys.parties[i], sys.hub.queueSize;
            var s' := Apply(sys, Callback(i)).parties[i].sub;
            var resync := CatchUpFrom(sys.hub, Some(s'.after)).resync;
            && s'.dropped == Some(SlowConsumer)
            && |sys.alerts| == p.base + |p.got| + q + 1
            && (p.got != [] ==> s'.after == |sys.alerts| - q - 1 && (resync <==> sys.hub.bufferSize == q))
            && (p.got == [] ==> s'.after == p.cursor)
            && (p.got == [] && 0 < p.cursor && !p.caught.resync ==>
                  (resync <==> |p.caught.items| + q + 1 > sys.hub.bufferSize))
  {
    hide HubHolds, CatchUpFrom, Trail, InFlight;
    var p := sys.parties[i];
    assert PartyOk(p, sys.hub.queueSize, |sys.alerts|);
    HubSizes(sys.hub, sys.alerts);
    OverflowPosition(sys.alerts, p, InFlight(sys.flights, i));
    GotIsContiguous(sys, i);
    CatchUpIsExact(sys.hub, sys.alerts, Some(p.sub.after));
  }

  // ----- An overflow before the first live item -----------------------------

  function Overflown(hub: HubValues, alerts: seq<AlertRow>, sub: Sub, caught: CatchUp, flights: seq<Flight>): System {
    System(hub, alerts, [JoinedAtTwo(sub, caught)], [0], flights, [])
  }

  lemma OnePublishes(hub: HubValues, alerts: seq<AlertRow>, sub: Sub, caught: CatchUp, c: AlertRow)
    ensures Apply(Overflown(hub, alerts, sub, caught, []), Publish(c))
            == Overflown(Append(hub, c), alerts + [c], sub, caught, [Flight(Notification(hub.next, c), [0])])
  {
  }

  lemma OneHandsOver(hub: HubValues, alerts: seq<AlertRow>, sub: Sub, caught: CatchUp, n: Notification)
    ensures Apply(Overflown(hub, alerts, sub, caught, [Flight(n, [0])]), HandOver(0))
            == Overflown(hub, alerts, Deliver(sub, n), caught, [])
  {
  }

  lemma OneRuns(hub: HubValues, alerts: seq<AlertRow>, sub: Sub, caught: CatchUp)
    requires sub.loopOpen && sub.handed != []
    ensures Apply(Overflown(hub, alerts, sub, caught, []), Callback(0))
            == Overflown(hub, alerts, RunCallback(sub, hub.queueSize), caught, [])
  {
  }

  /** A publication reaches the subscriber's loop. */
  lemma OneRound(h: HubValues, steps: seq<Step>, hub: HubValues, alerts: seq<AlertRow>, sub: Sub, caught: CatchUp, c: AlertRow)
    requires Exec(h, steps) == Overflown(hub, alerts, sub, caught, []) && sub.Live() && sub.loopOpen
    ensures Exec(h, steps + [Publish(c), HandOver(0)])
            == Overflown(Append(hub, c), alerts + [c], sub.(handed := sub.handed + [Enqueue(Notification(hub.next, c))]), caught, [])
  {
    hide Exec, Apply, Append;
    ExecOneMore(h, steps, Publish(c));
    ExecOneMore(h, steps + [Publish(c)], HandOver(0));
    assert steps + [Publish(c)] + [HandOver(0)] == steps + [Publish(c), HandOver(0)];
    OnePublishes(hub, alerts, sub, caught, c);
    OneHandsOver(Append(hub, c), alerts + [c], sub, caught, Notification(hub.next, c));
  }

  /** Two publications, a client that saw the first, and two more that it does not read. */
  function TwoUnread(a: AlertRow, b: AlertRow, c: AlertRow, d: AlertRow): seq<Step> {
    [Publish(a), Publish(b), Subscribe(Some(1))] + [Publish(c), HandOver(0)] + [Callback(0)] + [Publish(d), HandOver(0)]
  }

  lemma TwoUnreadRun(h: HubValues, a: AlertRow, b: AlertRow, c: AlertRow, d: AlertRow)
    requires HubHolds(h, []) && h.bufferSize >= 2 && h.queueSize == 1
    ensures var hub := Append(Append(Append(Append(h, a), b), c), d);
            var caught := CatchUpFrom(Append(Append(h, a), b), Some(1));
            && Exec(h, TwoUnread(a, b, c, d))
               == Overflown(hub, [a, b] + [c] + [d],
                            NewSub(1).(queue := [Note(Notification(3, c))], handed := [Enqueue(Notification(4, d))]), caught, [])
            && Exec(h, [Publish(a), Publish(b), Subscribe(Some(1))]).flights == []
            && Exec(h, [Publish(a), Publish(b), Subscribe(Some(1))] + [Publish(c), HandOver(0)] + [Callback(0)]).flights == []
  {
    hide Exec, Apply, HubHolds, Append, CatchUpFrom;
    JoinsWithOneMissing(h, a, b);
    TwoPublished(h, a, b);
    var s3 := [Publish(a), Publish(b), Subscribe(Some(1))];
    var s5 := s3 + [Publish(c), HandOver(0)];
    var s6 := s5 + [Callback(0)];
    var hub2 := Append(Append(h, a), b);
    var hub3 := Append(hub2, c);
    var caught := CatchUpFrom(hub2, Some(1));
    OneRound(h, s3, hub2, [a, b], NewSub(1), caught, c);
    var sub5 := NewSub(1).(handed := [Enqueue(Notification(3, c))]);
    assert [] + [Enqueue(Notification(3, c))] == [Enqueue(Notification(3, c))];
    ExecOneMore(h, s5, Callback(0));
    OneRuns(hub3, [a, b] + [c], sub5, caught);
    AppendKeepsSizes(hub2, c);
    var sub6 := NewSub(1).(queue := [Note(Notification(3, c))]);
    assert RunCallback(sub5, 1) == sub6;
    AppendHolds(hub2, [a, b], c);
    HubNumbers(hub3, [a, b] + [c]);
    OneRound(h, s6, hub3, [a, b] + [c], sub6, caught, d);
    assert [] + [Enqueue(Notification(4, d))] == [Enqueue(Notification(4, d))];
  }

  lemma TwoUnreadSerialised(h: HubValues, a: AlertRow, b: AlertRow, c: AlertRow, d: AlertRow)
    requires HubHolds(h, []) && h.bufferSize >= 2 && h.queueSize == 1
    ensures Serialised(h, TwoUnread(a, b, c, d))
  {
    hide Exec, HubHolds;
    TwoPublished(h, a, b);
    TwoUnreadRun(h, a, b, c, d);
    var steps := TwoUnread(a, b, c, d);
    assert steps[..0] == [] && steps[..1] == [Publish(a)];
    assert steps[..3] == [Publish(a), Publish(b), Subscribe(Some(1))];
    assert steps[..6] == [Publish(a), Publish(b), Subscribe(Some(1))] + [Publish(c), HandOver(0)] + [Callback(0)];
  }

  /**
   * A buffer of two is larger than a queue of one, and the client whose queue overflows before its first
   * live item must still resync: it is sent back to the cursor it came with.
   */
  lemma OverflowBeforeFirstItem(h: HubValues, a: AlertRow, b: AlertRow, c: AlertRow, d: AlertRow)
    requires HubHolds(h, []) && h.bufferSize == 2 && h.queueSize == 1
    ensures var sys := Exec(h, TwoUnread(a, b, c, d));
            && Serialised(h, TwoUnread(a, b, c, d)) && Overflows(sys, 0)
            && !sys.parties[0].caught.resync
            && var s' := Apply(sys, Callback(0)).parties[0].sub;
               s'.dropped == Some(SlowConsumer) && s'.after == 1 && CatchUpFrom(sys.hub, Some(s'.after)).resync
  {
    hide Exec, HubHolds, Append, CatchUpFrom, Serialised, TwoUnread, Apply;
    TwoUnreadRun(h, a, b, c, d);
    TwoUnreadSerialised(h, a, b, c, d);
    JoinsWithOneMissing(h, a, b);
    var hub2 := Append(Append(h, a), b);
    AppendKeepsSizes(h, a);
    AppendKeepsSizes(Append(h, a), b);
    AppendKeepsSizes(hub2, c);
    AppendKeepsSizes(Append(hub2, c), d);
    OverflowForcesResyncExactly(h, TwoUnread(a, b, c, d), 0);
  }
}
