/** The end of a subscription: what drops it, who is woken, and what its client is then told. */
module AlertStreamWaking {
  import opened Wrappers
  import opened AlertRows
  import opened AlertStream
  import opened AlertStreamRuns

  // ----- What drops a subscription ----------------------------------------------

  /** The loop is about to queue a notification for a subscription that is not closed, and its queue is full. */
  predicate Overflows(sys: System, step: Step, i: nat)
    requires i < |sys.parties|
  {
    var s := sys.parties[i].sub;
    step == Callback(i) && s.loopOpen && s.handed != [] && s.handed[0].Enqueue? && !s.closed
    && |s.queue| >= sys.hub.queueSize
  }

  /** A publisher hands a notification to a subscription that is not closed, and its loop is gone. */
  predicate Unreachable(sys: System, step: Step, i: nat)
    requires i < |sys.parties|
  {
    var s := sys.parties[i].sub;
    step.HandOver? && step.flight < |sys.flights| && sys.flights[step.flight].targets != []
    && sys.flights[step.flight].targets[0] == i && !s.closed && !s.loopOpen
  }

  /** The hub that closes comes to the subscription. */
  predicate ShutsDown(sys: System, step: Step, i: nat) {
    step.MarkShutdown? && sys.shutting != [] && sys.shutting[0] == i
  }

  /**
   * One step drops a subscription exactly when its queue overflows, its loop is gone or its hub closes, with the
   * reason that says which; the first reason is never replaced, and only its own close closes it.
   */
  lemma DropsExactly(sys: System, step: Step, i: nat)
    requires i < |sys.parties|
    ensures i < |Apply(sys, step).parties|
    ensures Apply(sys, step).parties[i].sub.dropped ==
            if sys.parties[i].sub.dropped.Some? then sys.parties[i].sub.dropped
            else if Overflows(sys, step, i) then Some(SlowConsumer)
            else if Unreachable(sys, step, i) then Some(LoopClosed)
            else if ShutsDown(sys, step, i) then Some(Shutdown)
            else None
    ensures Apply(sys, step).parties[i].sub.closed <==> sys.parties[i].sub.closed || step == CloseSub(i)
  {
    hide CatchUpFrom, Append, Passed, Without;
  }

  /** The first reason stays for ever. */
  lemma {:induction false} FirstReasonStays(h: HubValues, steps: seq<Step>, k: nat, i: nat)
    requires k <= |steps| && i < |Exec(h, steps[..k]).parties| && Exec(h, steps[..k]).parties[i].sub.dropped.Some?
    ensures i < |Exec(h, steps).parties|
    ensures Exec(h, steps).parties[i].sub.dropped == Exec(h, steps[..k]).parties[i].sub.dropped
  {
    hide Apply;
    if k == |steps| {
      assert steps[..k] == steps;
    } else {
      var n := |steps| - 1;
      assert steps[..n][..k] == steps[..k];
      FirstReasonStays(h, steps[..n], k, i);
      DropsExactly(Exec(h, steps[..n]), steps[n], i);
    }
  }

  // ----- A closing hub reaches everyone -----------------------------------------

  /** The subscription is dropped, or the closing hub is still to come to it. */
  ghost predicate Reached(sys: System, i: nat) {
    i < |sys.parties| && (sys.parties[i].sub.dropped.Some? || i in sys.shutting)
  }

  lemma StepKeepsReached(sys: System, step: Step, i: nat)
    requires Reached(sys, i)
    ensures Reached(Apply(sys, step), i)
  {
    hide CatchUpFrom, Append, Passed, Without, Overflows, Unreachable, Apply;
    DropsExactly(sys, step, i);
    ShuttingShrinks(sys, step);
  }

  lemma ShuttingShrinks(sys: System, step: Step)
    ensures forall i :: i in sys.shutting ==> i in Apply(sys, step).shutting || ShutsDown(sys, step, i)
  {
    hide CatchUpFrom, Append, Passed, Without;
    if step.MarkShutdown? && Enabled(sys, step) {
      assert sys.shutting == [sys.shutting[0]] + sys.shutting[1..];
    }
  }

  /** Whoever is attached when the hub closes is dropped, at once or when the hub comes to it. */
  lemma {:induction false} CloseReachesEveryone(h: HubValues, steps: seq<Step>, k: nat, i: nat)
    requires HubHolds(h, []) && k < |steps| && steps[k].CloseHub? && i in Exec(h, steps[..k]).attached
    ensures Reached(Exec(h, steps), i)
  {
    hide Apply, Reached, HubHolds;
    var n := |steps| - 1;
    if k == n {
      EveryRunIsComplete(h, steps[..n]);
      ClosingReaches(Exec(h, steps[..n]), i);
    } else {
      assert steps[..n][..k] == steps[..k];
      CloseReachesEveryone(h, steps[..n], k, i);
      StepKeepsReached(Exec(h, steps[..n]), steps[n], i);
    }
  }

  lemma ClosingReaches(sys: System, i: nat)
    requires FlightsOk(sys) && i in sys.attached
    ensures Reached(Apply(sys, CloseHub), i)
  {
  }

  // ----- Who is attached --------------------------------------------------------

  /** The step takes the subscription off the hub's list: its own close detaches it, or the hub closes. */
  predicate Leaves(sys: System, step: Step, i: nat)
    requires i < |sys.parties|
  {
    step.CloseHub? || (step == Detach(i) && sys.parties[i].sub.closed)
  }

  lemma StepKeepsAttached(sys: System, step: Step, i: nat)
    requires FlightsOk(sys) && i < |sys.parties|
    ensures i in Apply(sys, step).attached <==> i in sys.attached && !Leaves(sys, step, i)
  {
    hide CatchUpFrom, Append, Passed, Without, FlightOk;
    if step.Detach? {
      WithoutKeeps(sys.attached, step.i, |sys.parties|);
    }
  }

  lemma StepKeepsParties(sys: System, step: Step)
    ensures |sys.parties| <= |Apply(sys, step).parties|
  {
    hide CatchUpFrom, Append, Passed, Without;
  }

  /** No step of the run from some moment on takes the subscription off the hub's list. */
  ghost predicate NeverLeaves(h: HubValues, steps: seq<Step>, k: nat, i: nat) {
    forall j :: k <= j < |steps| ==> i < |Exec(h, steps[..j]).parties| && !Leaves(Exec(h, steps[..j]), steps[j], i)
  }

  lemma NeverLeavesOneMore(h: HubValues, steps: seq<Step>, k: nat, i: nat)
    requires k < |steps|
    ensures var n := |steps| - 1;
            NeverLeaves(h, steps, k, i)
            <==> NeverLeaves(h, steps[..n], k, i) && i < |Exec(h, steps[..n]).parties| && !Leaves(Exec(h, steps[..n]), steps[n], i)
  {
    hide Exec, Leaves;
    var n := |steps| - 1;
    assert forall j :: 0 <= j < n ==> steps[..n][..j] == steps[..j] && steps[..n][j] == steps[j];
  }

  /** A new subscription is attached, and stays so exactly until it is detached or the hub closes. */
  lemma {:induction false} AttachedExactly(h: HubValues, steps: seq<Step>, k: nat)
    requires HubHolds(h, []) && k < |steps| && steps[k].Subscribe?
    ensures var i := |Exec(h, steps[..k]).parties|;
            && i < |Exec(h, steps).parties|
            && (i in Exec(h, steps).attached <==> NeverLeaves(h, steps, k + 1, i))
  {
    hide Apply, HubHolds, NeverLeaves, Leaves, FlightsOk, PartiesOk, Complete;
    var n := |steps| - 1;
    var i := |Exec(h, steps[..k]).parties|;
    if k == n {
      Arrives(Exec(h, steps[..n]), steps[n]);
      NothingAfter(h, steps, i);
    } else {
      assert steps[..n][..k] == steps[..k];
      AttachedExactly(h, steps[..n], k);
      EveryRunIsComplete(h, steps[..n]);
      StepKeepsParties(Exec(h, steps[..n]), steps[n]);
      StepKeepsAttached(Exec(h, steps[..n]), steps[n], i);
      NeverLeavesOneMore(h, steps, k + 1, i);
    }
  }

  lemma Arrives(sys: System, step: Step)
    requires step.Subscribe?
    ensures |Apply(sys, step).parties| == |sys.parties| + 1 && |sys.parties| in Apply(sys, step).attached
  {
    hide CatchUpFrom;
    assert Apply(sys, step).attached[|sys.attached|] == |sys.parties|;
  }

  lemma NothingAfter(h: HubValues, steps: seq<Step>, i: nat)
    ensures NeverLeaves(h, steps, |steps|, i)
  {
  }

  // ----- A drop wakes its waiter ------------------------------------------------

  /** A dropped subscription with someone waiting has something queued, or the mark is on its way to the queue. */
  predicate Woken(s: Sub) {
    s.dropped.Some? && s.waiting && s.loopOpen ==> s.queue != [] || EnqueueMark in s.handed
  }

  lemma CallbackKeepsWoken(s: Sub, queueSize: nat)
    requires Woken(s) && s.handed != [] && queueSize >= 1
    ensures Woken(RunCallback(s, queueSize))
  {
    assert s.handed == [s.handed[0]] + s.handed[1..];
  }

  lemma DeliverKeepsWoken(s: Sub, n: Notification)
    requires Woken(s)
    ensures Woken(Deliver(s, n))
  {
  }

  lemma DropWakes(s: Sub, reason: DropReason)
    ensures Woken(MarkDropped(s, reason))
  {
  }

  lemma StepKeepsWoken(sys: System, step: Step, i: nat)
    requires sys.hub.queueSize >= 1 && i < |sys.parties| && Woken(sys.parties[i].sub)
    ensures i < |Apply(sys, step).parties| && Woken(Apply(sys, step).parties[i].sub)
  {
    hide CatchUpFrom, Append, Passed, Without, RunCallback, Deliver, MarkDropped, Woken;
    var s := sys.parties[i].sub;
    if Enabled(sys, step) {
      match step
      case Callback(_) =>
        if step.i == i {
          CallbackKeepsWoken(s, sys.hub.queueSize);
        }
      case HandOver(f) => DeliverKeepsWoken(s, sys.flights[f].n);
      case MarkShutdown => DropWakes(s, Shutdown);
      case Begin(_) => StandingKeepsWoken(s);
      case Finish(_) =>
        if step.i == i {
          StandingKeepsWoken(s);
          FinishKeepsWoken(sys.parties[i]);
        }
      case Cancel(_) => StandingKeepsWoken(s);
      case CloseSub(_) => StandingKeepsWoken(s);
      case LoopCloses(_) => StandingKeepsWoken(s);
      case _ =>
    }
  }

  lemma StandingKeepsWoken(s: Sub)
    requires Woken(s)
    ensures Woken(BeginNext(s).0) && Woken(CancelWait(s)) && Woken(s.(closed := true)) && Woken(s.(loopOpen := false))
  {
  }

  lemma FinishKeepsWoken(p: Party)
    requires p.sub.waiting && p.sub.queue != []
    ensures Woken(AlertStreamRuns.Received(p).sub)
  {
  }

  /** In every run a dropped subscription whose client waits has something queued, or the mark is on its way. */
  lemma {:induction false} WaitersAreWoken(h: HubValues, steps: seq<Step>, i: nat)
    requires HubHolds(h, []) && i < |Exec(h, steps).parties|
    ensures Woken(Exec(h, steps).parties[i].sub)
  {
    hide Apply, Woken, HubHolds, Sane, Complete;
    if steps != [] {
      var before, step := steps[..|steps| - 1], steps[|steps| - 1];
      var sys := Exec(h, before);
      EveryRunIsComplete(h, before);
      SaneHasRoom(sys);
      if i < |sys.parties| {
        WaitersAreWoken(h, before, i);
        StepKeepsWoken(sys, step, i);
      } else {
        NewcomerIsWoken(sys, step, i);
      }
    }
  }

  lemma SaneHasRoom(sys: System)
    requires Sane(sys)
    ensures sys.hub.queueSize >= 1
  {
  }

  lemma NewcomerIsWoken(sys: System, step: Step, i: nat)
    requires |sys.parties| <= i < |Apply(sys, step).parties|
    ensures Woken(Apply(sys, step).parties[i].sub)
  {
    hide CatchUpFrom, Append, Passed, Without, RunCallback, Deliver, MarkDropped;
  }

  /** The loop of one party runs some of its callbacks, with no other step between them. */
  function RunLoop(sys: System, i: nat, n: nat): System
    decreases n
  {
    if n == 0 then sys else RunLoop(Apply(sys, Callback(i)), i, n - 1)
  }

  lemma DroppedCallback(sys: System, i: nat)
    requires sys.hub.queueSize >= 1 && i < |sys.parties|
    requires var s := sys.parties[i].sub; s.dropped.Some? && s.waiting && s.loopOpen && s.handed != [] && Woken(s)
    ensures var sys', s := Apply(sys, Callback(i)), sys.parties[i].sub;
            && sys'.hub == sys.hub && |sys'.parties| == |sys.parties|
            && var s' := sys'.parties[i].sub;
               && s'.dropped == s.dropped && s'.waiting && s'.loopOpen && s'.after == s.after
               && s'.handed == s.handed[1..] && Woken(s') && s.queue <= s'.queue
  {
    StepKeepsWoken(sys, Callback(i), i);
  }

  /** Once the callbacks handed to its loop have run, a dropped subscription has something for its waiting client. */
  lemma {:induction false} LoopWakesWaiter(sys: System, i: nat, n: nat)
    requires sys.hub.queueSize >= 1 && i < |sys.parties| && n == |sys.parties[i].sub.handed|
    requires var s := sys.parties[i].sub; s.dropped.Some? && s.waiting && s.loopOpen && Woken(s)
    ensures var sys' := RunLoop(sys, i, n);
            && i < |sys'.parties|
            && Enabled(sys', Finish(i))
            && sys'.parties[i].sub.dropped == sys.parties[i].sub.dropped
            && sys'.parties[i].sub.after == sys.parties[i].sub.after
            && sys.parties[i].sub.queue <= sys'.parties[i].sub.queue
    decreases n
  {
    hide Apply;
    if n > 0 {
      DroppedCallback(sys, i);
      LoopWakesWaiter(Apply(sys, Callback(i)), i, n - 1);
    }
  }

  /**
   * In every run, a client that waits on a subscription that was dropped is answered once its loop has run: with
   * what was queued first, if anything was, and with the recorded reason and its cursor when that is the mark.
   */
  lemma DroppedWaiterIsAnswered(h: HubValues, steps: seq<Step>, i: nat)
    requires HubHolds(h, []) && i < |Exec(h, steps).parties|
    requires var s := Exec(h, steps).parties[i].sub; s.dropped.Some? && s.waiting && s.loopOpen
    ensures var s := Exec(h, steps).parties[i].sub;
            var sys' := RunLoop(Exec(h, steps), i, |s.handed|);
            && Enabled(sys', Finish(i))
            && (s.queue != [] ==> sys'.parties[i].sub.queue[0] == s.queue[0])
            && FinishNext(sys'.parties[i].sub).1
               == match sys'.parties[i].sub.queue[0]
                  case Note(n) => Got(n)
                  case DropMark => Raised(s.dropped.value, s.after)
  {
    hide Apply, Woken, Sane, Complete, HubHolds;
    EveryRunIsComplete(h, steps);
    SaneHasRoom(Exec(h, steps));
    WaitersAreWoken(h, steps, i);
    LoopWakesWaiter(Exec(h, steps), i, |Exec(h, steps).parties[i].sub.handed|);
  }

  /** A client that asks again, however much later, is told at once: the first reason, and its cursor. */
  lemma LaterAskIsTold(h: HubValues, steps: seq<Step>, k: nat, i: nat)
    requires k <= |steps| && i < |Exec(h, steps[..k]).parties| && Exec(h, steps[..k]).parties[i].sub.dropped.Some?
    ensures i < |Exec(h, steps).parties|
    ensures var s := Exec(h, steps).parties[i].sub;
            BeginNext(s) == (s, Some((Exec(h, steps[..k]).parties[i].sub.dropped.value, s.after)))
  {
    FirstReasonStays(h, steps, k, i);
  }

  /** A client that gives up waiting loses nothing: what is queued or on its way stays, and it can ask again. */
  lemma CancelLosesNothing(sys: System, i: nat)
    requires i < |sys.parties|
    ensures var sys' := Apply(sys, Cancel(i));
            && |sys'.parties| == |sys.parties| && Enabled(sys', Begin(i)) && !Enabled(sys', Finish(i))
            && var p, p' := sys.parties[i], sys'.parties[i];
               && p'.got == p.got && p'.sub.queue == p.sub.queue && p'.sub.handed == p.sub.handed && p'.sub.after == p.sub.after
               && (p.sub.Live() ==> var again := Apply(sys', Begin(i)).parties[i].sub;
                                    again.waiting && again.queue == p.sub.queue && again.Live())
  {
  }

  // ----- After the end ----------------------------------------------------------

  lemma StepKeepsFront(sys: System, step: Step, i: nat)
    requires Sane(sys) && i < |sys.parties| && !sys.parties[i].sub.Live()
    ensures i < |Apply(sys, step).parties|
    ensures var p' := Apply(sys, step).parties[i]; !p'.sub.Live() && Front(p') == Front(sys.parties[i])
  {
    hide Sane, Front, CatchUpFrom, Append, Passed, Without, RunCallback, FinishNext, PartyOk;
    if Enabled(sys, step) && IsLocal(step) {
      var k, p' := LocalStep(sys, step);
      EvolvesFront(sys.parties[k], p', sys.hub.queueSize, |sys.alerts|);
    } else {
      SameFront(sys.parties[i]);
    }
  }

  lemma EvolvesFront(p: Party, p': Party, queueSize: nat, published: nat)
    requires Evolves(p, p', queueSize, published)
    ensures !p.sub.Live() ==> !p'.sub.Live() && Front(p') == Front(p)
  {
    hide Front, Trail, PartyOk;
  }

  lemma SameFront(p: Party)
    ensures Front(p.(sub := MarkDropped(p.sub, Shutdown))) == Front(p)
    ensures !p.sub.Live() ==> forall n :: Deliver(p.sub, n) == p.sub
  {
  }

  /** Once a subscription is closed or dropped, its client can still get what is queued, and nothing else ever. */
  lemma {:induction false} NothingAfterTheEnd(h: HubValues, steps: seq<Step>, k: nat, i: nat)
    requires HubHolds(h, []) && k <= |steps|
    requires i < |Exec(h, steps[..k]).parties| && !Exec(h, steps[..k]).parties[i].sub.Live()
    ensures i < |Exec(h, steps).parties|
    ensures Front(Exec(h, steps).parties[i]) == Front(Exec(h, steps[..k]).parties[i])
    ensures !Exec(h, steps).parties[i].sub.Live()
  {
    hide Apply, Front, Sane, Complete, HubHolds;
    if k == |steps| {
      assert steps[..k] == steps;
    } else {
      var n := |steps| - 1;
      assert steps[..n][..k] == steps[..k];
      NothingAfterTheEnd(h, steps[..n], k, i);
      EveryRunIsComplete(h, steps[..n]);
      StepKeepsFront(Exec(h, steps[..n]), steps[n], i);
    }
  }

  // ----- A waiting client is told of a shutdown ----------------------------------

  function ShutdownSteps(): seq<Step> {
    [Subscribe(None), Begin(0), CloseHub, MarkShutdown, Callback(0)]
  }

  /** A client waits for its first alert when the hub closes: it is woken, and told so. */
  lemma ShutdownIsTold(h: HubValues)
    requires HubHolds(h, [])
    ensures var sys := Exec(h, ShutdownSteps());
            && Enabled(sys, Finish(0))
            && FinishNext(sys.parties[0].sub).1 == Raised(Shutdown, 0)
            && sys.attached == []
  {
    hide Exec, Apply, HubHolds, CatchUpFrom;
    var s := ShutdownSteps();
    ExecOfFive(h, s);
    var s1 := Apply(Start(h), s[0]);
    assert s1.parties == [Joined(Start(h), None)] && s1.attached == [0] && s1.hub == h && s1.shutting == [] by { JoinsAlone(h); }
    var s3 := Apply(Apply(s1, s[1]), s[2]);
    assert s3.hub == h && s3.attached == [] && s3.shutting == [0] && |s3.parties| == 1
           && s3.parties[0].sub == NewSub(0).(waiting := true) by { WaitsAtClose(s1); }
    ToldOnce(s3);
    RoomFor(h);
  }

  lemma RoomFor(h: HubValues)
    requires HubHolds(h, [])
    ensures h.queueSize >= 1
  {
  }

  lemma JoinsAlone(h: HubValues)
    ensures var sys := Apply(Start(h), Subscribe(None));
            sys.parties == [Joined(Start(h), None)] && sys.attached == [0] && sys.hub == h && sys.shutting == []
  {
    hide CatchUpFrom;
  }

  lemma WaitsAtClose(sys: System)
    requires |sys.parties| == 1 && sys.parties[0].sub == NewSub(0) && sys.attached == [0] && sys.shutting == []
    ensures var sys' := Apply(Apply(sys, Begin(0)), CloseHub);
            && sys'.hub == sys.hub && sys'.attached == [] && sys'.shutting == [0] && |sys'.parties| == 1
            && sys'.parties[0].sub == NewSub(0).(waiting := true)
  {
  }

  lemma ToldOnce(sys: System)
    requires |sys.parties| == 1 && sys.shutting == [0] && sys.parties[0].sub == NewSub(0).(waiting := true)
    ensures var sys' := Apply(Apply(sys, MarkShutdown), Callback(0));
            && |sys'.parties| == 1 && sys'.attached == sys.attached
            && (sys.hub.queueSize >= 1 ==>
                  Enabled(sys', Finish(0)) && FinishNext(sys'.parties[0].sub).1 == Raised(Shutdown, 0))
  {
    var mid := Apply(sys, MarkShutdown);
    assert mid.parties[0].sub.handed == [EnqueueMark];
  }
}
