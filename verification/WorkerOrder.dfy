/** The order in which the scoring worker takes records, and where a consumer stands. */
module WorkerOrder {
  import opened Wrappers
  import opened Offsets

  // ----- Where a consumer stands ----------------------------------------------

  /** Commits in any order leave a consumer just after the greatest of them, and at the beginning without any. */
  lemma ResumesAfterGreatest(commits: seq<(nat, nat)>, partition: nat, n: nat)
    ensures ResumeFrom(CommitAll(map[], commits), partition) == n
            <==> (forall o: nat :: WasCommitted(commits, partition, o) ==> o < n)
                 && (n > 0 ==> WasCommitted(commits, partition, n - 1))
  {
    hide CommitAll, WasCommitted;
    CommittedIsGreatest(commits, partition);
    var c := CommitAll(map[], commits);
    if partition in c && n > 0 && WasCommitted(commits, partition, n - 1) {
      assert n - 1 <= c[partition];
    }
  }

  lemma {:induction false} BelowSize(n: nat)
    ensures |Below(n)| == n
  {
    if n > 0 {
      BelowSize(n - 1);
      var before := Below(n - 1);
      hide Below;
      assert n - 1 !in before;
      assert |before + {n - 1}| == |before| + 1;
    }
  }

  /** The lag is the number of offsets that are there and still to be read. */
  lemma LagCounts(c: Committed, partition: nat, end: nat)
    ensures Lag(c, partition, end) == |Below(end) - Below(ResumeFrom(c, partition))|
  {
    var from := ResumeFrom(c, partition);
    var unread := Below(end) - Below(from);
    BelowSize(end);
    BelowSize(from);
    if from <= end {
      assert Below(end) == Below(from) + unread;
      assert |Below(end)| == |Below(from)| + |unread|;
    } else {
      assert unread == {};
    }
  }

  /**
   * A batch emits the next records there are, at most so many; committing it moves the resume point just past
   * the last of them, unless it stands further on already.
   */
  lemma BatchIsExact(f: Feed, limit: nat)
    requires f.position <= f.end
    ensures var f' := Apply(f, EmitBatch(limit));
            && (forall o: nat :: o in f'.emitted <==>
                  o in f.emitted || (f.position <= o < f.position + limit && o < f.end))
            && f'.position == (if f.position + limit <= f.end then f.position + limit else f.end)
            && f'.committed == f.committed
            && (f'.position > f.position ==>
                  ResumeFrom(Apply(f', CommitBatch).committed, 0)
                  == if ResumeFrom(f.committed, 0) >= f'.position then ResumeFrom(f.committed, 0) else f'.position)
  {
  }

  /** After a restart the next batch begins just past the last commit: what was committed is not emitted again. */
  lemma RestartReadsOn(f: Feed, limit: nat)
    requires ResumeFrom(f.committed, 0) <= f.end
    ensures var from, f' := ResumeFrom(f.committed, 0), Apply(Apply(f, Restart), EmitBatch(limit));
            && Apply(f, Restart).position == from && f'.committed == f.committed
            && (forall o: nat :: o in f'.emitted <==> o in f.emitted || (from <= o < from + limit && o < f.end))
            && f'.position == if from + limit <= f.end then from + limit else f.end
  {
    BatchIsExact(Apply(f, Restart), limit);
  }

  // ----- Windows are filled oldest first ------------------------------------------

  /** Some of a source's records, oldest first. */
  ghost predicate OldestFirst(src: Sources, key: string, offsets: seq<nat>, bound: nat) {
    && (forall k :: 0 <= k < |offsets| ==> src(offsets[k]) == key && offsets[k] < bound)
    && (forall j, k :: 0 <= j < k < |offsets| ==> offsets[j] < offsets[k])
  }

  ghost predicate AllOldestFirst(src: Sources, waiting: map<string, seq<nat>>, bound: nat) {
    forall key :: key in waiting ==> OldestFirst(src, key, waiting[key], bound)
  }

  lemma {:induction false} BufferInOrder(src: Sources, waiting: map<string, seq<nat>>, from: nat, count: nat)
    requires AllOldestFirst(src, waiting, from)
    ensures AllOldestFirst(src, Buffer(src, waiting, from, count), from + count)
  {
    hide OldestFirst;
    if count > 0 {
      BufferInOrder(src, waiting, from, count - 1);
      var before := Buffer(src, waiting, from, count - 1);
      var offset := from + count - 1;
      forall key | key in before ensures OldestFirst(src, key, before[key], offset + 1) {
        BoundGrows(src, key, before[key], offset);
      }
      NextIsNewest(src, before, offset);
    }
  }

  lemma BoundGrows(src: Sources, key: string, offsets: seq<nat>, bound: nat)
    requires OldestFirst(src, key, offsets, bound)
    ensures OldestFirst(src, key, offsets, bound + 1)
  {
  }

  lemma NextIsNewest(src: Sources, waiting: map<string, seq<nat>>, offset: nat)
    requires AllOldestFirst(src, waiting, offset)
    ensures OldestFirst(src, src(offset), WaitingOf(waiting, src(offset)) + [offset], offset + 1)
  {
  }

  ghost predicate WholeWindows(records: nat, window: nat) {
    exists full: nat :: records == full * window
  }

  /** The oldest `n` records are scored and the others wait: whole windows, or all of a released source. */
  ghost predicate TakesOldest(before: seq<nat>, after: seq<nat>, n: nat, window: nat, released: bool, scored: set<nat>) {
    && n <= |before| && after == before[n..]
    && (forall k :: 0 <= k < n ==> before[k] in scored)
    && (if released then n == |before| else |before| - n < window && WholeWindows(n, window))
  }

  /** How a source's records are shared out: whole windows of the oldest are scored, and the newest wait. */
  ghost predicate SharedOut(before: seq<nat>, after: seq<nat>, window: nat, released: bool, scored: set<nat>) {
    exists n: nat :: TakesOldest(before, after, n, window, released, scored)
  }

  lemma ReadyIsWhole(waiting: seq<nat>, window: nat)
    requires window > 0
    ensures |waiting| - Ready(waiting, window, false) < window
    ensures WholeWindows(Ready(waiting, window, false), window)
  {
    var full := |waiting| / window;
    assert Ready(waiting, window, false) == full * window;
  }

  lemma SourceSharesOut(w: Worker, waiting: map<string, seq<nat>>, window: nat, released: set<string>, key: string)
    requires window > 0 && key in waiting
    ensures var w' := Emit(w, waiting, window, released);
            key in w'.waiting && SharedOut(waiting[key], w'.waiting[key], window, key in released, w'.scored)
  {
    hide Ready, ScoredNow, Left, SharedOut;
    var now := ScoredNow(waiting, window, released);
    LeftAt(waiting, window, released, key);
    ReadyAreScored(waiting, window, released, key);
    SharesSource(waiting[key], window, key in released, w.scored + now);
  }

  lemma LeftAt(waiting: map<string, seq<nat>>, window: nat, released: set<string>, key: string)
    requires window > 0 && key in waiting
    ensures var left := Left(waiting, window, released);
            key in left && left[key] == waiting[key][Ready(waiting[key], window, key in released)..]
  {
    hide Ready;
  }

  lemma SharesSource(offsets: seq<nat>, window: nat, released: bool, scored: set<nat>)
    requires window > 0 && forall k :: 0 <= k < Ready(offsets, window, released) ==> offsets[k] in scored
    ensures SharedOut(offsets, offsets[Ready(offsets, window, released)..], window, released, scored)
  {
    hide Ready, WholeWindows;
    if released {
      ReleasedIsReady(offsets, window);
    } else {
      ReadyIsWhole(offsets, window);
    }
    var n := Ready(offsets, window, released);
    assert TakesOldest(offsets, offsets[n..], n, window, released, scored);
  }

  lemma ReadyAreScored(waiting: map<string, seq<nat>>, window: nat, released: set<string>, key: string)
    requires window > 0 && key in waiting
    ensures forall k :: 0 <= k < Ready(waiting[key], window, key in released) ==> waiting[key][k] in ScoredNow(waiting, window, released)
  {
    hide Ready;
  }

  lemma ReleasedIsReady(waiting: seq<nat>, window: nat)
    requires window > 0
    ensures Ready(waiting, window, true) == |waiting|
  {
  }

  lemma ScoredWereWaiting(w: Worker, waiting: map<string, seq<nat>>, window: nat, released: set<string>, o: nat)
    requires window > 0 && o in Emit(w, waiting, window, released).scored && o !in w.scored
    ensures ScoredFrom(waiting, Emit(w, waiting, window, released).waiting, o)
  {
    hide Ready;
    var w' := Emit(w, waiting, window, released);
    assert o in ScoredNow(waiting, window, released);
    var key, k :| key in waiting && 0 <= k < Ready(waiting[key], window, key in released) && waiting[key][k] == o;
    assert |w'.waiting[key]| == |waiting[key]| - Ready(waiting[key], window, key in released);
  }

  /** Scoring takes whole windows of each source's oldest records, all of them of a released source, and nothing else. */
  lemma EmitSharesOut(w: Worker, waiting: map<string, seq<nat>>, window: nat, released: set<string>)
    requires window > 0
    ensures var w' := Emit(w, waiting, window, released);
            && w'.waiting.Keys == waiting.Keys
            && (forall key :: key in waiting ==>
                  SharedOut(waiting[key], w'.waiting[key], window, key in released, w'.scored))
            && (forall o :: o in w'.scored ==> o in w.scored || ScoredFrom(waiting, w'.waiting, o))
  {
    hide SharedOut, ScoredFrom, ScoredNow, Ready;
    var w' := Emit(w, waiting, window, released);
    forall key | key in waiting ensures SharedOut(waiting[key], w'.waiting[key], window, key in released, w'.scored) {
      SourceSharesOut(w, waiting, window, released, key);
    }
    forall o | o in w'.scored && o !in w.scored ensures ScoredFrom(waiting, w'.waiting, o) {
      ScoredWereWaiting(w, waiting, window, released, o);
    }
  }

  /** The record was among those of a source that no longer wait. */
  ghost predicate ScoredFrom(before: map<string, seq<nat>>, after: map<string, seq<nat>>, o: nat) {
    exists key, k :: key in before && key in after && 0 <= k < |before[key]| - |after[key]| && before[key][k] == o
  }

  ghost predicate ShortOf(waiting: map<string, seq<nat>>, window: nat) {
    forall key :: key in waiting ==> |waiting[key]| < window
  }

  lemma EmitInOrder(src: Sources, w: Worker, waiting: map<string, seq<nat>>, window: nat, released: set<string>, bound: nat)
    requires window > 0 && AllOldestFirst(src, waiting, bound)
    ensures AllOldestFirst(src, Emit(w, waiting, window, released).waiting, bound)
    ensures ShortOf(Emit(w, waiting, window, released).waiting, window)
  {
    hide Emit, ScoredFrom;
    EmitSharesOut(w, waiting, window, released);
    var after := Emit(w, waiting, window, released).waiting;
    forall key | key in after ensures OldestFirst(src, key, after[key], bound) && |after[key]| < window {
      assert key in waiting.Keys;
      assert SharedOut(waiting[key], after[key], window, key in released, Emit(w, waiting, window, released).scored);
    }
  }

  /** The worker's step reads at most so many records, all it may, and commits the last one read. */
  lemma ReadCommitsWhatItRead(src: Sources, window: nat, w: Worker, limit: nat)
    requires window > 0 && w.position <= w.end
    ensures var w' := ApplyWorker(src, window, w, ReadBatch(limit));
            && w'.end == w.end && w.position <= w'.position <= w.end && w'.position - w.position <= limit
            && (w'.position == w.end || w'.position - w.position == limit)
            && (if w'.position == w.position then w' == w
                else ResumeFrom(w'.committed, 0)
                     == if w'.position >= ResumeFrom(w.committed, 0) then w'.position else ResumeFrom(w.committed, 0))
  {
    hide Buffered, ScoredNow, Left;
  }

  /**
   * After any run each source waits with less than a window of its own records, all of them read, oldest first.
   */
  lemma {:induction false} WaitingIsInOrder(src: Sources, window: nat, steps: seq<WorkerStep>)
    requires window > 0
    ensures var w := RunWorker(src, window, steps);
            AllOldestFirst(src, w.waiting, w.position) && ShortOf(w.waiting, window)
  {
    hide ApplyWorker, AllOldestFirst, ShortOf, Shares, Held;
    if steps == [] {
      NothingWaits(src, window, 0);
    } else {
      var n := |steps| - 1;
      WaitingIsInOrder(src, window, steps[..n]);
      StepKeepsOrder(src, window, RunWorker(src, window, steps[..n]), steps[n]);
    }
  }

  lemma NothingWaits(src: Sources, window: nat, bound: nat)
    requires window > 0
    ensures AllOldestFirst(src, map[], bound) && ShortOf(map[], window)
  {
  }

  lemma StepKeepsOrder(src: Sources, window: nat, w: Worker, step: WorkerStep)
    requires window > 0 && AllOldestFirst(src, w.waiting, w.position) && ShortOf(w.waiting, window)
    ensures var w' := ApplyWorker(src, window, w, step);
            AllOldestFirst(src, w'.waiting, w'.position) && ShortOf(w'.waiting, window)
  {
    hide AllOldestFirst, ShortOf, Emit, Buffer, ScoredIn, Commit, ResumeFrom;
    match step
    case ReadBatch(limit) =>
      var next := NextPosition(w, limit);
      if next > w.position {
        BufferInOrder(src, w.waiting, w.position, next - w.position);
        EmitInOrder(src, w, Buffer(src, w.waiting, w.position, next - w.position), window, {}, next);
      }
    case Flush => EmitInOrder(src, w, w.waiting, window, w.waiting.Keys, w.position); EmitStands(w, window, w.waiting.Keys);
    case Release(sources) => EmitInOrder(src, w, w.waiting, window, sources, w.position); EmitStands(w, window, sources);
    case Produce(_) =>
    case _ => NothingWaits(src, window, ResumeFrom(w.committed, 0));
  }

  lemma EmitStands(w: Worker, window: nat, released: set<string>)
    requires window > 0
    ensures Emit(w, w.waiting, window, released).position == w.position
  {
  }
}
