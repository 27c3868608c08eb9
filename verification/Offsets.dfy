/** Committed offsets, resuming after restarts, and what a worker that buffers records does to the guarantee. */
module Offsets {
  import opened Wrappers

  // ----- The tracker --------------------------------------------------------

  type Committed = map<nat, nat>

  function Commit(c: Committed, partition: nat, offset: nat): Committed {
    if partition !in c || offset > c[partition] then c[partition := offset] else c
  }

  function ResumeFrom(c: Committed, partition: nat): nat {
    if partition in c then c[partition] + 1 else 0
  }

  function Lag(c: Committed, partition: nat, end: nat): nat {
    if end >= ResumeFrom(c, partition) then end - ResumeFrom(c, partition) else 0
  }

  class OffsetTracker {
    var committed: Committed

    constructor ()
      ensures committed == map[]
    {
      committed := map[];
    }

    method Record(partition: nat, offset: nat)
      modifies this
      ensures committed == Commit(old(committed), partition, offset)
    {
      if partition !in committed || offset > committed[partition] {
        committed := committed[partition := offset];
      }
    }

    /** Every partition's lag in one pass. */
    method LagReport(ends: map<nat, nat>) returns (lags: map<nat, nat>)
      ensures lags == map p | p in ends :: Lag(committed, p, ends[p])
    {
      lags := map[];
      var todo := ends.Keys;
      while todo != {}
        invariant todo <= ends.Keys
        invariant lags == map p | p in ends && p !in todo :: Lag(committed, p, ends[p])
        decreases todo
      {
        var p :| p in todo;
        lags := lags[p := Lag(committed, p, ends[p])];
        todo := todo - {p};
      }
    }
  }

  function CommitAll(c: Committed, commits: seq<(nat, nat)>): Committed {
    if commits == [] then c
    else
      var n := |commits| - 1;
      Commit(CommitAll(c, commits[..n]), commits[n].0, commits[n].1)
  }

  ghost predicate WasCommitted(commits: seq<(nat, nat)>, partition: nat, offset: nat) {
    exists i :: 0 <= i < |commits| && commits[i] == (partition, offset)
  }

  /** Whatever the order of the commits, a partition stands at the greatest offset committed for it. */
  lemma {:induction false} CommittedIsGreatest(commits: seq<(nat, nat)>, partition: nat)
    ensures var c := CommitAll(map[], commits);
            && (partition in c <==> exists o: nat :: WasCommitted(commits, partition, o))
            && (partition in c ==> WasCommitted(commits, partition, c[partition]))
            && forall o: nat :: WasCommitted(commits, partition, o) ==> partition in c && o <= c[partition]
  {
    if commits != [] {
      var n := |commits| - 1;
      CommittedIsGreatest(commits[..n], partition);
      forall o: nat ensures WasCommitted(commits, partition, o)
                       <==> WasCommitted(commits[..n], partition, o) || commits[n] == (partition, o)
      {
        if WasCommitted(commits[..n], partition, o) {
          var i :| 0 <= i < n && commits[..n][i] == (partition, o);
          assert commits[i] == (partition, o);
        }
        if WasCommitted(commits, partition, o) {
          var i :| 0 <= i < |commits| && commits[i] == (partition, o);
          assert i < n ==> commits[..n][i] == (partition, o);
        }
      }
    }
  }

  /** The order in which commits arrive does not matter. */
  lemma CommitsCommute(a: seq<(nat, nat)>, b: seq<(nat, nat)>)
    requires multiset(a) == multiset(b)
    ensures CommitAll(map[], a) == CommitAll(map[], b)
  {
    hide CommitAll;
    var ca, cb := CommitAll(map[], a), CommitAll(map[], b);
    forall p: nat, o: nat ensures WasCommitted(a, p, o) <==> WasCommitted(b, p, o) {
      assert WasCommitted(a, p, o) <==> (p, o) in multiset(a);
      assert WasCommitted(b, p, o) <==> (p, o) in multiset(b);
    }
    forall p: nat ensures (p in ca <==> p in cb) && (p in ca ==> ca[p] == cb[p]) {
      CommittedIsGreatest(a, p);
      CommittedIsGreatest(b, p);
    }
  }

  // ----- Resuming -----------------------------------------------------------

  /**
   * One partition being consumed: the log's end, the tracker, where the current process reads next,
   * the last offset it emitted but did not commit, and every offset emitted so far.
   */
  datatype Feed = Feed(end: nat, committed: Committed, position: nat, done: Option<nat>, emitted: set<nat>)

  datatype Step =
    | Grow(records: nat)
    | EmitBatch(limit: nat)
    | CommitBatch
    | Restart
    | StaleCommit(offset: nat)

  /** Offsets below a bound. */
  function Below(n: nat): (s: set<nat>)
    ensures forall o: nat :: o in s <==> o < n
  {
    if n == 0 then {} else Below(n - 1) + {n - 1}
  }

  function Apply(f: Feed, step: Step): Feed {
    match step
    case Grow(records) => f.(end := f.end + records)
    case EmitBatch(limit) =>
      var next := if f.position + limit < f.end then f.position + limit else f.end;
      if next <= f.position then f
      else f.(position := next, done := Some(next - 1), emitted := f.emitted + (Below(next) - Below(f.position)))
    case CommitBatch =>
      if f.done.Some? then f.(committed := Commit(f.committed, 0, f.done.value), done := None) else f
    case Restart => f.(position := ResumeFrom(f.committed, 0), done := None)
    case StaleCommit(offset) =>
      // Another consumer reports, late, an offset that was already emitted.
      if offset in f.emitted then f.(committed := Commit(f.committed, 0, offset)) else f
  }

  const START := Feed(0, map[], 0, None, {})

  function Run(steps: seq<Step>): Feed {
    if steps == [] then START else Apply(Run(steps[..|steps| - 1]), steps[|steps| - 1])
  }

  /** What was emitted is an unbroken beginning of the log that reaches at least to the resume point. */
  ghost predicate GapFree(f: Feed, high: nat) {
    && f.emitted == Below(high)
    && ResumeFrom(f.committed, 0) <= high
    && f.position <= high <= f.end
    && (f.done.Some? ==> f.done.value < high)
  }

  lemma ApplyKeepsGapFree(f: Feed, step: Step, high: nat) returns (high': nat)
    requires GapFree(f, high)
    ensures high <= high' && GapFree(Apply(f, step), high')
    ensures ResumeFrom(f.committed, 0) <= ResumeFrom(Apply(f, step).committed, 0)
  {
    var f' := Apply(f, step);
    high' := if f'.position > high then f'.position else high;
    if step.EmitBatch? {
      assert Below(high) + (Below(f'.position) - Below(f.position)) == Below(high');
    }
  }

  /**
   * Over any run of reads, commits, restarts and late commits, every offset up to the resume point
   * was emitted and none was skipped, and the resume point never moves back.
   */
  lemma {:induction false} NothingIsSkipped(steps: seq<Step>, i: nat) returns (high: nat)
    requires i <= |steps|
    ensures GapFree(Run(steps), high)
    ensures ResumeFrom(Run(steps[..i]).committed, 0) <= ResumeFrom(Run(steps).committed, 0)
    decreases |steps|
  {
    hide Apply, ResumeFrom, GapFree;
    if steps == [] {
      StartIsGapFree();
      high := 0;
      assert steps[..i] == steps;
    } else {
      var n := |steps| - 1;
      var before := NothingIsSkipped(steps[..n], if i <= n then i else n);
      high := ApplyKeepsGapFree(Run(steps[..n]), steps[n], before);
      if i <= n {
        assert steps[..n][..i] == steps[..i];
      } else {
        assert steps[..i] == steps;
      }
    }
  }

  lemma StartIsGapFree()
    ensures GapFree(START, 0)
  {
  }

  /** Reading everything that is there leaves no offset of the log unemitted. */
  lemma DrainReachesEnd(f: Feed, high: nat)
    requires GapFree(f, high)
    ensures Apply(f, EmitBatch(f.end)).emitted == Below(f.end)
  {
    assert Below(high) + (Below(f.end) - Below(f.position)) == Below(f.end);
  }

  // ----- A worker that buffers ----------------------------------------------

  /**
   * The scoring worker keeps records by source until a window fills, but commits every record it read:
   * the offsets read so far, those scored in some window, those waiting, and the window size.
   */
  datatype Worker = Worker(end: nat, committed: Committed, position: nat, scored: set<nat>, waiting: map<string, seq<nat>>)

  /** Each record of the partition has a source. */
  type Sources = nat -> string

  function WaitingOf(waiting: map<string, seq<nat>>, key: string): seq<nat> {
    if key in waiting then waiting[key] else []
  }

  /** Buffer a batch of records, read from one offset on, by source. */
  function Buffer(src: Sources, waiting: map<string, seq<nat>>, from: nat, count: nat): map<string, seq<nat>> {
    if count == 0 then waiting
    else
      var before := Buffer(src, waiting, from, count - 1);
      var offset := from + count - 1;
      before[src(offset) := WaitingOf(before, src(offset)) + [offset]]
  }

  function Held(waiting: map<string, seq<nat>>): set<nat> {
    set key, k | key in waiting && 0 <= k < |waiting[key]| :: waiting[key][k]
  }

  /** How many of a source's waiting records are scored: whole windows, or all of them when it is released. */
  function Ready(waiting: seq<nat>, window: nat, released: bool): (n: nat)
    requires window > 0
    ensures n <= |waiting|
  {
    if released then |waiting| else |waiting| / window * window
  }

  function ScoredNow(waiting: map<string, seq<nat>>, window: nat, released: set<string>): set<nat>
    requires window > 0
  {
    set key, k | key in waiting && 0 <= k < Ready(waiting[key], window, key in released) :: waiting[key][k]
  }

  function Left(waiting: map<string, seq<nat>>, window: nat, released: set<string>): map<string, seq<nat>>
    requires window > 0
  {
    map key | key in waiting :: waiting[key][Ready(waiting[key], window, key in released)..]
  }

  function Emit(w: Worker, waiting: map<string, seq<nat>>, window: nat, released: set<string>): Worker
    requires window > 0
  {
    w.(scored := w.scored + ScoredNow(waiting, window, released), waiting := Left(waiting, window, released))
  }

  datatype WorkerStep =
    | Produce(records: nat)
    | ReadBatch(limit: nat)
    | Flush
    | Release(sources: set<string>)
    | Crash
    | CrashInBatch(limit: nat, windows: set<(string, nat)>)
    | CrashInRelease(sources: set<string>, windows: set<(string, nat)>)

  /** Where a read of so many records ends. */
  function NextPosition(w: Worker, limit: nat): nat {
    if w.position + limit < w.end then w.position + limit else w.end
  }

  /** Buffer the records up to a position and score the windows that fill. */
  function ReadTo(src: Sources, window: nat, w: Worker, next: nat): Worker
    requires window > 0
  {
    if next <= w.position then w
    else Emit(w, Buffered(src, w, next), window, {})
  }

  /** The buffer once the records up to a position are in it. */
  function Buffered(src: Sources, w: Worker, next: nat): map<string, seq<nat>> {
    if next <= w.position then w.waiting else Buffer(src, w.waiting, w.position, next - w.position)
  }

  /** Of the records that are ready, those in some of the windows, told by source and number. */
  function ScoredIn(waiting: map<string, seq<nat>>, window: nat, released: set<string>, windows: set<(string, nat)>): set<nat>
    requires window > 0
  {
    set key, k | key in waiting && 0 <= k < Ready(waiting[key], window, key in released) && (key, k / window) in windows
      :: waiting[key][k]
  }

  /** The process ends after some windows were scored and before anything was committed. */
  function Interrupted(src: Sources, window: nat, w: Worker, next: nat, released: set<string>, windows: set<(string, nat)>): Worker
    requires window > 0
  {
    w.(scored := w.scored + ScoredIn(Buffered(src, w, next), window, released, windows),
       position := ResumeFrom(w.committed, 0),
       waiting := map[])
  }

  function ApplyWorker(src: Sources, window: nat, w: Worker, step: WorkerStep): Worker
    requires window > 0
  {
    match step
    case Produce(records) => w.(end := w.end + records)
    case ReadBatch(limit) =>
      var next := NextPosition(w, limit);
      if next <= w.position then w
      else ReadTo(src, window, w, next).(committed := Commit(w.committed, 0, next - 1), position := next)
    case Flush => Emit(w, w.waiting, window, w.waiting.Keys)
    case Release(sources) =>
      // Sources whose oldest record has waited too long are scored as they are.
      Emit(w, w.waiting, window, sources)
    case Crash => w.(position := ResumeFrom(w.committed, 0), waiting := map[])
    case CrashInBatch(limit, windows) => Interrupted(src, window, w, NextPosition(w, limit), {}, windows)
    case CrashInRelease(sources, windows) => Interrupted(src, window, w, w.position, sources, windows)
  }

  predicate IsCrash(step: WorkerStep) {
    step.Crash? || step.CrashInBatch? || step.CrashInRelease?
  }

  /** Every committed record was scored, is waiting to be, or was lost, and what was lost is neither. */
  ghost predicate Accounted(w: Worker, lost: set<nat>) {
    && w.position == ResumeFrom(w.committed, 0) <= w.end
    && Shares(w.position, w.scored, Held(w.waiting), lost)
  }

  ghost predicate Shares(position: nat, scored: set<nat>, held: set<nat>, lost: set<nat>) {
    && held <= Below(position) && lost <= Below(position)
    && Below(position) <= scored + held + lost
    && lost !! scored + held
  }

  lemma EmitKeepsRecords(w: Worker, waiting: map<string, seq<nat>>, window: nat, released: set<string>)
    requires window > 0
    ensures var w' := Emit(w, waiting, window, released);
            && w'.scored + Held(w'.waiting) == w.scored + Held(waiting)
            && Held(w'.waiting) <= Held(waiting) && w.scored <= w'.scored
            && w'.end == w.end && w'.committed == w.committed && w'.position == w.position
  {
    var left, now := Left(waiting, window, released), ScoredNow(waiting, window, released);
    assert now <= Held(waiting);
    forall o | o in Held(left) ensures o in Held(waiting) {
      var key, k :| key in left && 0 <= k < |left[key]| && left[key][k] == o;
      assert waiting[key][Ready(waiting[key], window, key in released) + k] == o;
    }
    forall o | o in Held(waiting) && o !in now ensures o in Held(left) {
      var key, k :| key in waiting && 0 <= k < |waiting[key]| && waiting[key][k] == o;
      assert left[key][k - Ready(waiting[key], window, key in released)] == o;
    }
  }

  lemma {:induction false} BufferHolds(src: Sources, waiting: map<string, seq<nat>>, from: nat, count: nat)
    ensures Held(Buffer(src, waiting, from, count)) == Held(waiting) + (Below(from + count) - Below(from))
  {
    hide Held;
    if count > 0 {
      BufferHolds(src, waiting, from, count - 1);
      AddOne(Buffer(src, waiting, from, count - 1), src(from + count - 1), from + count - 1);
    }
  }

  lemma AddOne(waiting: map<string, seq<nat>>, key: string, o: nat)
    ensures Held(waiting[key := WaitingOf(waiting, key) + [o]]) == Held(waiting) + {o}
  {
    var waiting' := waiting[key := WaitingOf(waiting, key) + [o]];
    assert waiting'[key][|WaitingOf(waiting, key)|] == o;
    forall x | x in Held(waiting) ensures x in Held(waiting') {
      var a, i :| a in waiting && 0 <= i < |waiting[a]| && waiting[a][i] == x;
      assert waiting'[a][i] == x;
    }
    forall x | x in Held(waiting') && x != o ensures x in Held(waiting) {
      var a, i :| a in waiting' && 0 <= i < |waiting'[a]| && waiting'[a][i] == x;
      assert waiting[a][i] == x;
    }
  }

  /** Reading on moves records from the log into windows and the buffer, and none is dropped. */
  lemma ReadToKeepsRecords(src: Sources, window: nat, w: Worker, next: nat)
    requires window > 0 && w.position <= next
    ensures var w' := ReadTo(src, window, w, next);
            && w'.scored + Held(w'.waiting) == w.scored + Held(w.waiting) + (Below(next) - Below(w.position))
            && w.scored <= w'.scored && w'.end == w.end && w'.committed == w.committed
  {
    hide Held, Emit, Buffer;
    if next > w.position {
      var waiting := Buffer(src, w.waiting, w.position, next - w.position);
      BufferHolds(src, w.waiting, w.position, next - w.position);
      EmitKeepsRecords(w, waiting, window, {});
      assert w.scored + (Held(w.waiting) + (Below(next) - Below(w.position)))
          == w.scored + Held(w.waiting) + (Below(next) - Below(w.position));
    } else {
      assert Below(next) - Below(w.position) == {};
    }
  }

  lemma SharesAfterRead(position: nat, scored: set<nat>, held: set<nat>, lost: set<nat>,
                        next: nat, scored': set<nat>, held': set<nat>)
    requires Shares(position, scored, held, lost) && position <= next
    requires scored' + held' == scored + held + (Below(next) - Below(position)) && held' <= Below(next)
    ensures Shares(next, scored', held', lost)
  {
    forall o | o in Below(next) ensures o in scored' + held' + lost {
      assert o in Below(position) || o in Below(next) - Below(position);
    }
    forall o | o in scored' + held' ensures o !in lost {
      assert o in scored || o in held || o in Below(next) - Below(position);
    }
  }

  lemma HeldAfterRead(src: Sources, window: nat, w: Worker, next: nat)
    requires window > 0 && w.position < next && Held(w.waiting) <= Below(w.position)
    ensures Held(ReadTo(src, window, w, next).waiting) <= Below(next)
  {
    hide Held, Emit, Buffer;
    var waiting := Buffer(src, w.waiting, w.position, next - w.position);
    BufferHolds(src, w.waiting, w.position, next - w.position);
    EmitKeepsRecords(w, waiting, window, {});
  }

  lemma ReadKeepsAccount(src: Sources, window: nat, w: Worker, limit: nat, lost: set<nat>)
    requires window > 0 && Accounted(w, lost)
    ensures Accounted(ApplyWorker(src, window, w, ReadBatch(limit)), lost)
  {
    hide Held, ReadTo, Shares;
    var next := NextPosition(w, limit);
    if next > w.position {
      ReadToKeepsRecords(src, window, w, next);
      HeldIsBelow(w, lost);
      HeldAfterRead(src, window, w, next);
      var w' := ReadTo(src, window, w, next);
      SharesAfterRead(w.position, w.scored, Held(w.waiting), lost, next, w'.scored, Held(w'.waiting));
    }
  }

  lemma HeldIsBelow(w: Worker, lost: set<nat>)
    requires Accounted(w, lost)
    ensures Held(w.waiting) <= Below(w.position)
  {
  }

  /** A flush scores everything that was committed and not lost. */
  lemma FlushScoresTheRest(src: Sources, window: nat, w: Worker, lost: set<nat>)
    requires window > 0 && Accounted(w, lost)
    ensures var w' := ApplyWorker(src, window, w, Flush);
            Accounted(w', lost) && w'.position == w.position && Below(w.position) - w'.scored == lost
  {
    EmitKeepsRecords(w, w.waiting, window, w.waiting.Keys);
    assert Held(Left(w.waiting, window, w.waiting.Keys)) == {};
  }

  lemma ReleaseKeepsAccount(src: Sources, window: nat, w: Worker, sources: set<string>, lost: set<nat>)
    requires window > 0 && Accounted(w, lost)
    ensures Accounted(ApplyWorker(src, window, w, Release(sources)), lost)
  {
    hide Held, Emit;
    EmitKeepsRecords(w, w.waiting, window, sources);
    var w' := Emit(w, w.waiting, window, sources);
    assert forall o :: o in w'.scored + Held(w'.waiting) <==> o in w.scored + Held(w.waiting);
  }

  /** What a crash loses: the records that waited and were in no window scored before it. */
  function LostBy(src: Sources, window: nat, w: Worker, step: WorkerStep): set<nat>
    requires window > 0
  {
    match step
    case Crash => Held(w.waiting) - w.scored
    case CrashInBatch(limit, windows) =>
      Held(w.waiting) - w.scored - ScoredIn(Buffered(src, w, NextPosition(w, limit)), window, {}, windows)
    case CrashInRelease(sources, windows) => Held(w.waiting) - w.scored - ScoredIn(w.waiting, window, sources, windows)
    case _ => {}
  }

  lemma ScoredWereHeld(waiting: map<string, seq<nat>>, window: nat, released: set<string>, windows: set<(string, nat)>)
    requires window > 0
    ensures ScoredIn(waiting, window, released, windows) <= Held(waiting)
  {
  }

  lemma BufferedHolds(src: Sources, w: Worker, next: nat)
    requires w.position <= next
    ensures Held(Buffered(src, w, next)) == Held(w.waiting) + (Below(next) - Below(w.position))
  {
    hide Held, Buffer;
    if next > w.position {
      BufferHolds(src, w.waiting, w.position, next - w.position);
    } else {
      assert Below(next) - Below(w.position) == {};
    }
  }

  /** A restart loses exactly that: earlier commits cover the buffer, and a crash forgets it. */
  lemma CrashLosesExactlyWhatWaits(src: Sources, window: nat, w: Worker, step: WorkerStep, lost: set<nat>)
    requires window > 0 && Accounted(w, lost) && IsCrash(step)
    ensures Accounted(ApplyWorker(src, window, w, step), lost + LostBy(src, window, w, step))
  {
    hide Buffered, ScoredIn, Held, Shares;
    NothingHeld();
    match step
    case Crash => SharesAfterCrash(w.position, w.scored, Held(w.waiting), lost, {}, w.position);
    case CrashInBatch(limit, windows) =>
      var next := NextPosition(w, limit);
      BufferedHolds(src, w, next);
      ScoredWereHeld(Buffered(src, w, next), window, {}, windows);
      SharesAfterCrash(w.position, w.scored, Held(w.waiting), lost, ScoredIn(Buffered(src, w, next), window, {}, windows), next);
    case CrashInRelease(sources, windows) =>
      BufferedHolds(src, w, w.position);
      BufferedNow(src, w);
      ScoredWereHeld(w.waiting, window, sources, windows);
      SharesAfterCrash(w.position, w.scored, Held(w.waiting), lost, ScoredIn(w.waiting, window, sources, windows), w.position);
  }

  lemma NothingHeld()
    ensures Held(map[]) == {}
  {
  }

  lemma BufferedNow(src: Sources, w: Worker)
    ensures Buffered(src, w, w.position) == w.waiting
  {
  }

  lemma SharesAfterCrash(position: nat, scored: set<nat>, held: set<nat>, lost: set<nat>, last: set<nat>, next: nat)
    requires Shares(position, scored, held, lost) && position <= next
    requires last <= held + (Below(next) - Below(position))
    ensures Shares(position, scored + last, {}, lost + (held - scored - last))
    ensures Shares(position, scored, {}, lost + (held - scored))
  {
    assert forall o :: o in lost ==> o in Below(position) && o !in scored && o !in held;
  }

  const IDLE := Worker(0, map[], 0, {}, map[])

  function RunWorker(src: Sources, window: nat, steps: seq<WorkerStep>): Worker
    requires window > 0
  {
    if steps == [] then IDLE
    else ApplyWorker(src, window, RunWorker(src, window, steps[..|steps| - 1]), steps[|steps| - 1])
  }

  /** What the crashes of a run lost. */
  function LostIn(src: Sources, window: nat, steps: seq<WorkerStep>): set<nat>
    requires window > 0
  {
    if steps == [] then {}
    else
      var before := steps[..|steps| - 1];
      LostIn(src, window, before) + LostBy(src, window, RunWorker(src, window, before), steps[|steps| - 1])
  }

  /** After any run each committed record was scored, waits, or waited unscored at some crash. */
  lemma {:induction false} RunsAreAccountedFor(src: Sources, window: nat, steps: seq<WorkerStep>)
    requires window > 0
    ensures Accounted(RunWorker(src, window, steps), LostIn(src, window, steps))
  {
    hide Accounted, Held, ApplyWorker;
    if steps == [] {
      IdleIsAccountedFor();
    } else {
      var n := |steps| - 1;
      var w, lost := RunWorker(src, window, steps[..n]), LostIn(src, window, steps[..n]);
      RunsAreAccountedFor(src, window, steps[..n]);
      if IsCrash(steps[n]) {
        CrashLosesExactlyWhatWaits(src, window, w, steps[n], lost);
      } else {
        match steps[n] {
          case Produce(records) => ProduceKeepsAccount(src, window, w, records, lost);
          case ReadBatch(limit) => ReadKeepsAccount(src, window, w, limit, lost);
          case Flush => FlushScoresTheRest(src, window, w, lost);
          case Release(sources) => ReleaseKeepsAccount(src, window, w, sources, lost);
        }
        assert lost + {} == lost;
      }
    }
  }

  lemma IdleIsAccountedFor()
    ensures Accounted(IDLE, {})
  {
  }

  lemma ProduceKeepsAccount(src: Sources, window: nat, w: Worker, records: nat, lost: set<nat>)
    requires window > 0 && Accounted(w, lost)
    ensures Accounted(ApplyWorker(src, window, w, Produce(records)), lost)
  {
  }

  /**
   * "A crash replays at most one batch" is the whole story exactly when no crash finds an unscored record in
   * the buffer: once a run has ended with a flush, every committed record was scored if and only if nothing
   * was lost at any of its crashes.
   */
  lemma EveryRecordIsScoredExactly(src: Sources, window: nat, steps: seq<WorkerStep>)
    requires window > 0
    ensures var w := ApplyWorker(src, window, RunWorker(src, window, steps), Flush);
            && w.position == ResumeFrom(w.committed, 0)
            && (Below(w.position) <= w.scored
                <==> forall i :: 0 <= i < |steps| ==> LostBy(src, window, RunWorker(src, window, steps[..i]), steps[i]) == {})
  {
    hide RunWorker, ApplyWorker, Held, LostBy;
    RunsAreAccountedFor(src, window, steps);
    FlushScoresTheRest(src, window, RunWorker(src, window, steps), LostIn(src, window, steps));
    NothingLostExactly(src, window, steps);
  }

  lemma {:induction false} NothingLostExactly(src: Sources, window: nat, steps: seq<WorkerStep>)
    requires window > 0
    ensures LostIn(src, window, steps) == {}
            <==> forall i :: 0 <= i < |steps| ==> LostBy(src, window, RunWorker(src, window, steps[..i]), steps[i]) == {}
  {
    hide RunWorker, LostBy;
    if steps != [] {
      var n := |steps| - 1;
      NothingLostExactly(src, window, steps[..n]);
      assert forall i :: 0 <= i < n ==> steps[..n][..i] == steps[..i] && steps[..n][i] == steps[i];
    }
  }

  // ----- A record that is lost ----------------------------------------------

  lemma OneRecordIsBuffered(src: Sources)
    ensures Buffer(src, map[], 0, 1) == map[src(0) := [0]]
  {
    var none: map<string, seq<nat>> := map[];
    assert Buffer(src, none, 0, 0) == none;
    assert WaitingOf(none, src(0)) + [0] == [0];
    assert Buffer(src, none, 0, 1) == none[src(0) := [0]];
  }

  lemma NothingIsReady(source: string, offset: nat)
    ensures ScoredNow(map[source := [offset]], 50, {}) == {}
  {
    var waiting := map[source := [offset]];
    assert Ready(waiting[source], 50, false) == 0;
    assert forall key :: key in waiting ==> key == source;
  }

  /** A record that fills no window is read and committed, and none is scored. */
  lemma OneRecordIsRead(src: Sources, w: Worker)
    requires w == IDLE.(end := 1)
    ensures var w' := ApplyWorker(src, 50, w, ReadBatch(1));
            w'.position == 1 && ResumeFrom(w'.committed, 0) == 1 && w'.scored == {}
  {
    hide Buffer, ScoredNow, Left;
    OneRecordIsBuffered(src);
    NothingIsReady(src(0), 0);
  }

  lemma NothingWaitsAfterCrash(src: Sources, w: Worker)
    ensures var w' := ApplyWorker(src, 50, ApplyWorker(src, 50, w, Crash), Flush);
            w'.position == ResumeFrom(w.committed, 0) && w'.scored == w.scored
  {
    assert ScoredNow(map[], 50, {}) == {};
  }

  lemma ThreeSteps(src: Sources, window: nat, a: WorkerStep, b: WorkerStep, c: WorkerStep)
    requires window > 0
    ensures RunWorker(src, window, [a, b, c])
            == ApplyWorker(src, window, ApplyWorker(src, window, ApplyWorker(src, window, IDLE, a), b), c)
  {
    hide ApplyWorker;
    assert [a, b, c][..2] == [a, b] && [a, b][..1] == [a] && [a][..0] == [];
    assert RunWorker(src, window, [a]) == ApplyWorker(src, window, IDLE, a);
    assert RunWorker(src, window, [a, b]) == ApplyWorker(src, window, RunWorker(src, window, [a]), b);
  }

  /** A single record read before its window fills, then a restart: the record is committed and never scored. */
  lemma CrashLosesABufferedRecord(src: Sources)
    ensures var steps := [Produce(1), ReadBatch(1), Crash];
            var w := ApplyWorker(src, 50, RunWorker(src, 50, steps), Flush);
            w.position == 1 && 0 !in w.scored
  {
    var w1 := ApplyWorker(src, 50, IDLE, Produce(1));
    assert w1 == IDLE.(end := 1);
    hide ApplyWorker, RunWorker;
    ThreeSteps(src, 50, Produce(1), ReadBatch(1), Crash);
    OneRecordIsRead(src, w1);
    NothingWaitsAfterCrash(src, ApplyWorker(src, 50, w1, ReadBatch(1)));
  }
}
