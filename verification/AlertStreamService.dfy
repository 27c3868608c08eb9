/** The hub and its subscriptions as they run: objects whose fields the methods update. */
module AlertStreamService {
  import opened Wrappers
  import opened AlertRows
  import opened AlertStream

  class AlertSubscription {
    const queueSize: nat
    var after: nat
    var received: nat
    var queue: seq<Item>
    var handed: seq<Callback>
    var dropped: Option<DropReason>
    var closed: bool
    var loopOpen: bool
    var waiting: bool

    function State(): Sub
      reads this
    {
      Sub(after, received, queue, handed, dropped, closed, loopOpen, waiting)
    }

    constructor (after: nat, queueSize: nat)
      ensures State() == NewSub(after) && this.queueSize == queueSize
    {
      this.queueSize := queueSize;
      this.after, received, queue, handed := after, 0, [], [];
      dropped, closed, loopOpen, waiting := None, false, true, false;
    }

    /** Hand a callback to the subscriber's loop; a closed loop refuses it. */
    method CallSoon(c: Callback) returns (accepted: bool)
      modifies this`handed
      ensures accepted == loopOpen
      ensures handed == if loopOpen then old(handed) + [c] else old(handed)
    {
      accepted := loopOpen;
      if accepted {
        handed := handed + [c];
      }
    }

    method Drop(reason: DropReason)
      modifies this
      ensures State() == MarkDropped(old(State()), reason)
    {
      if dropped.None? {
        dropped := Some(reason);
      }
      var _ := CallSoon(EnqueueMark);
    }

    method HandOver(n: Notification)
      modifies this
      ensures State() == Deliver(old(State()), n)
    {
      if closed || dropped.Some? {
        return;
      }
      var accepted := CallSoon(Enqueue(n));
      if !accepted {
        Drop(LoopClosed);
      }
    }

    /** The loop runs its oldest callback: queue a notification, or the mark if there is room for it. */
    method RunNext()
      requires handed != []
      modifies this
      ensures State() == RunCallback(old(State()), queueSize)
    {
      var c := handed[0];
      handed := handed[1..];
      match c
      case EnqueueMark =>
        if |queue| < queueSize {
          queue := queue + [DropMark];
        }
      case Enqueue(n) =>
        if closed || dropped.Some? {
          return;
        }
        if |queue| < queueSize {
          queue := queue + [Note(n)];
        } else {
          Drop(SlowConsumer);
        }
    }

    /** The first half of `next`: raise if the subscription was dropped, otherwise wait for an item. */
    method AskNext() returns (raised: Option<(DropReason, nat)>)
      modifies this`waiting
      ensures (State(), raised) == BeginNext(old(State()))
    {
      if dropped.Some? {
        return Some((dropped.value, after));
      }
      waiting := true;
      raised := None;
    }

    /** Stop waiting without an item, as a transport does at each heartbeat. */
    method CancelNext()
      modifies this`waiting
      ensures State() == CancelWait(old(State()))
    {
      waiting := false;
    }

    /** The second half of `next`, once an item is there. */
    method TakeNext() returns (r: Received)
      requires waiting && queue != []
      modifies this
      ensures (State(), r) == FinishNext(old(State()))
    {
      var item := queue[0];
      queue := queue[1..];
      waiting := false;
      match item
      case DropMark => return Raised(if dropped.Some? then dropped.value else Shutdown, after);
      case Note(n) =>
        after := n.sequence;
        received := received + 1;
        r := Got(n);
    }

    /** Stop delivering and detach; a second close does nothing. */
    method Close(hub: AlertHub)
      modifies this`closed, hub`subs
      ensures closed
      ensures hub.subs == if old(closed) then old(hub.subs) else Removed(old(hub.subs), this)
      ensures old(hub.Valid()) ==> hub.Valid()
    {
      var already := closed;
      closed := true;
      if !already {
        hub.Remove(this);
      }
    }
  }

  function Removed(subs: seq<AlertSubscription>, s: AlertSubscription): seq<AlertSubscription> {
    if subs == [] then [] else if subs[0] == s then subs[1..] else [subs[0]] + Removed(subs[1..], s)
  }

  lemma {:induction false} RemovedKeeps(subs: seq<AlertSubscription>, s: AlertSubscription)
    requires Distinct(subs)
    ensures Distinct(Removed(subs, s)) && s !in Removed(subs, s)
    ensures forall t :: t in subs && t != s ==> t in Removed(subs, s)
    ensures forall t :: t in Removed(subs, s) ==> t in subs
  {
    if subs != [] {
      var rest := subs[1..];
      assert subs == [subs[0]] + rest;
      assert forall t :: t in rest ==> t in subs;
      assert Distinct(rest) && subs[0] !in rest;
      RemovedKeeps(rest, s);
    }
  }

  lemma {:induction false} RemovedAt(subs: seq<AlertSubscription>, s: AlertSubscription, k: nat)
    requires k <= |subs| && forall j :: 0 <= j < k ==> subs[j] != s
    requires k < |subs| ==> subs[k] == s
    ensures Removed(subs, s) == if k < |subs| then subs[..k] + subs[k + 1..] else subs
  {
    if k > 0 {
      RemovedAt(subs[1..], s, k - 1);
    }
  }

  ghost predicate Distinct(subs: seq<AlertSubscription>) {
    forall i, j :: 0 <= i < j < |subs| ==> subs[i] != subs[j]
  }

  class AlertHub {
    const bufferSize: nat
    const queueSize: nat
    var buffer: seq<Notification>
    var next: nat
    var subs: seq<AlertSubscription>

    function State(): HubValues
      reads this
    {
      HubValues(bufferSize, queueSize, buffer, next)
    }

    ghost predicate Valid()
      reads this
    {
      Distinct(subs) && forall s :: s in subs ==> s.queueSize == queueSize
    }

    constructor (bufferSize: nat, queueSize: nat)
      requires NewHub(bufferSize, queueSize).Ok?
      ensures Ok(State()) == NewHub(bufferSize, queueSize)
      ensures Valid() && subs == []
    {
      this.bufferSize, this.queueSize := bufferSize, queueSize;
      buffer, next, subs := [], 1, [];
    }

    /** Sequence an alert, keep it for catch-up, and hand it to every subscriber. */
    method Publish(alert: AlertRow) returns (n: Notification)
      requires Valid()
      modifies this`buffer, this`next, subs
      ensures n == Notification(old(next), alert)
      ensures State() == Append(old(State()), alert)
      ensures forall s :: s in subs ==> s.State() == Deliver(old(s.State()), n)
    {
      n := Notification(next, alert);
      next := next + 1;
      buffer := LastOf(buffer + [n], bufferSize);
      for k := 0 to |subs|
        invariant State() == Append(old(State()), alert)
        invariant forall j :: 0 <= j < k ==> subs[j].State() == Deliver(old(subs[j].State()), n)
        invariant forall j :: k <= j < |subs| ==> subs[j].State() == old(subs[j].State())
      {
        subs[k].HandOver(n);
      }
    }

    /** Attach a consumer and compute its catch-up in one step; a negative cursor is refused. */
    method Subscribe(after: Option<int>) returns (r: Result<(AlertSubscription, CatchUp), string>)
      requires Valid()
      modifies this`subs
      ensures Valid()
      ensures r.Err? <==> after.Some? && after.value < 0
      ensures r.Err? ==> r.error == "after must not be negative" && subs == old(subs)
      ensures r.Ok? ==>
                && fresh(r.value.0)
                && r.value.1 == CatchUpFrom(State(), if after.Some? then Some(after.value) else None)
                && r.value.0.State() == NewSub(if after.Some? then after.value else 0)
                && subs == old(subs) + [r.value.0]
    {
      var cursor := Checked(after);
      if cursor.Err? {
        return Err(cursor.error);
      }
      var s := new AlertSubscription(if after.Some? then after.value else 0, queueSize);
      var items := CatchUpNow(cursor.value);
      subs := subs + [s];
      r := Ok((s, items));
    }

    /** The catch-up of a cursor: one pass over the buffer. */
    method CatchUpNow(after: Option<nat>) returns (cu: CatchUp)
      ensures cu == CatchUpFrom(State(), after)
    {
      var oldest := if buffer == [] then None else Some(buffer[0].sequence);
      var latest := if buffer == [] then None else Some(buffer[|buffer| - 1].sequence);
      var behind := after.Some? && oldest.Some? && after.value > 0 && after.value + 1 < oldest.value;
      var ahead := after.Some? && after.value > 0 && (latest.None? || after.value > latest.value);
      if behind || ahead {
        return CatchUp(buffer, true, oldest, latest);
      }
      var items: seq<Notification> := [];
      if after.Some? {
        for k := 0 to |buffer|
          invariant items == After(buffer[..k], after.value)
        {
          assert buffer[..k + 1][..k] == buffer[..k];
          if buffer[k].sequence > after.value {
            items := items + [buffer[k]];
          }
        }
        assert buffer[..|buffer|] == buffer;
      }
      cu := CatchUp(items, false, oldest, latest);
    }

    /** Remove the first listing of a subscription, if there is one. */
    method Remove(s: AlertSubscription)
      modifies this`subs
      ensures subs == Removed(old(subs), s)
      ensures old(Valid()) ==> Valid()
    {
      if Distinct(subs) {
        RemovedKeeps(subs, s);
      }
      var k := 0;
      while k < |subs| && subs[k] != s
        invariant k <= |subs| && forall j :: 0 <= j < k ==> subs[j] != s
      {
        k := k + 1;
      }
      RemovedAt(subs, s, k);
      if k < |subs| {
        subs := subs[..k] + subs[k + 1..];
      }
    }

    /** Detach everyone, then drop each with the shutdown reason. */
    method Close()
      requires Valid()
      modifies this`subs, subs
      ensures subs == [] && Valid()
      ensures forall s :: s in old(subs) ==> s.State() == MarkDropped(old(s.State()), Shutdown)
    {
      var leaving := subs;
      subs := [];
      for k := 0 to |leaving|
        invariant subs == []
        invariant forall j :: 0 <= j < k ==> leaving[j].State() == MarkDropped(old(leaving[j].State()), Shutdown)
        invariant forall j :: k <= j < |leaving| ==> leaving[j].State() == old(leaving[j].State())
      {
        leaving[k].Drop(Shutdown);
      }
    }
  }
}
