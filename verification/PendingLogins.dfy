/** Sign-ins that were started and wait for their callback: single use, expiring, bounded. */
module PendingLogins {
  import opened Wrappers

  datatype Login = Login(state: string, nonce: string, verifier: string, createdAt: real)

  datatype Limits = Limits(ttl: real, cap: int)

  /** The store's entries, oldest insertion first. */
  type Entries = seq<Login>

  predicate Expired(p: Login, ttl: real, now: real) {
    now - p.createdAt > ttl
  }

  function Prune(q: Entries, ttl: real, now: real): Entries {
    if q == [] then []
    else if Expired(q[0], ttl, now) then Prune(q[1..], ttl, now)
    else [q[0]] + Prune(q[1..], ttl, now)
  }

  function Find(q: Entries, state: string): Option<Login> {
    if q == [] then None else if q[0].state == state then Some(q[0]) else Find(q[1..], state)
  }

  function Without(q: Entries, state: string): Entries {
    if q == [] then []
    else if q[0].state == state then Without(q[1..], state)
    else [q[0]] + Without(q[1..], state)
  }

  /** Store under the login's state: in place when the state is there already, at the end otherwise. */
  function Insert(q: Entries, p: Login): Entries {
    if q == [] then [p] else if q[0].state == p.state then [p] + q[1..] else [q[0]] + Insert(q[1..], p)
  }

  /** Drop the oldest entries until there is room for one more; there never is without a positive cap. */
  function Evict(q: Entries, cap: int): Result<Entries, ()> {
    if |q| < cap then Ok(q) else if q == [] then Err(()) else Evict(q[1..], cap)
  }

  function Create(q: Entries, p: Login, l: Limits, now: real): (Entries, Result<Login, ()>) {
    match Evict(Prune(q, l.ttl, now), l.cap)
    case Ok(room) => (Insert(room, p), Ok(p))
    case Err(_) => ([], Err(()))
  }

  function Take(q: Entries, state: string, l: Limits, now: real): (Entries, Option<Login>) {
    var found := Find(q, state);
    (Prune(Without(q, state), l.ttl, now),
     if found.None? || Expired(found.value, l.ttl, now) then None else found)
  }

  // ----- Runs ---------------------------------------------------------------

  datatype Event = Starting(login: Login, now: real) | Redeeming(state: string, now: real)

  function Step(q: Entries, e: Event, l: Limits): Entries {
    match e
    case Starting(login, now) => Create(q, login, l, now).0
    case Redeeming(state, now) => Take(q, state, l, now).0
  }

  function Run(events: seq<Event>, l: Limits): Entries {
    if events == [] then [] else Step(Run(events[..|events| - 1], l), events[|events| - 1], l)
  }

  /** Every sign-in has a state of its own, and the store's clock never goes back. */
  ghost predicate Proper(events: seq<Event>) {
    && (forall i, j :: 0 <= i < j < |events| && events[i].Starting? && events[j].Starting?
          ==> events[i].login.state != events[j].login.state)
    && (forall i, j :: 0 <= i < j < |events| ==> events[i].now <= events[j].now)
  }

  /** What the callback got, at an event that asks for a state. */
  function Redeemed(events: seq<Event>, j: nat, l: Limits): Option<Login>
    requires j < |events|
  {
    if events[j].Redeeming? then Take(Run(events[..j], l), events[j].state, l, events[j].now).1 else None
  }

  function StartsIn(events: seq<Event>): nat {
    if events == [] then 0 else StartsIn(events[..|events| - 1]) + (if events[|events| - 1].Starting? then 1 else 0)
  }

  // ----- The pieces ---------------------------------------------------------

  lemma CatAssociates(a: Entries, b: Entries, c: Entries)
    ensures a + b + c == a + (b + c)
  {
  }

  lemma RestOfCat(a: Entries, b: Entries)
    ensures a == [] ==> a + b == b
    ensures a != [] ==> a + b != [] && (a + b)[0] == a[0] && (a + b)[1..] == a[1..] + b
  {
  }

  lemma {:induction false} PruneCat(a: Entries, b: Entries, ttl: real, now: real)
    ensures Prune(a + b, ttl, now) == Prune(a, ttl, now) + Prune(b, ttl, now)
  {
    hide Expired;
    RestOfCat(a, b);
    if a == [] {
      RestOfCat(Prune(a, ttl, now), Prune(b, ttl, now));
    } else {
      PruneCat(a[1..], b, ttl, now);
      CatAssociates([a[0]], Prune(a[1..], ttl, now), Prune(b, ttl, now));
    }
  }

  lemma {:induction false} WithoutCat(a: Entries, b: Entries, state: string)
    ensures Without(a + b, state) == Without(a, state) + Without(b, state)
  {
    RestOfCat(a, b);
    if a == [] {
      RestOfCat(Without(a, state), Without(b, state));
    } else {
      WithoutCat(a[1..], b, state);
      CatAssociates([a[0]], Without(a[1..], state), Without(b, state));
    }
  }

  lemma {:induction false} PruneOnlyDrops(q: Entries, ttl: real, now: real)
    ensures |Prune(q, ttl, now)| <= |q|
    ensures forall p :: p in Prune(q, ttl, now) <==> p in q && !Expired(p, ttl, now)
  {
    if q != [] {
      PruneOnlyDrops(q[1..], ttl, now);
      assert q == [q[0]] + q[1..];
    }
  }

  lemma {:induction false} WithoutOnlyDrops(q: Entries, state: string)
    ensures |Without(q, state)| <= |q|
    ensures forall p :: p in Without(q, state) <==> p in q && p.state != state
  {
    if q != [] {
      WithoutOnlyDrops(q[1..], state);
      assert q == [q[0]] + q[1..];
    }
  }

  /** Eviction ends exactly when the cap is positive, and keeps the newest entries that leave a place free. */
  lemma {:induction false} EvictKeepsNewest(q: Entries, cap: int)
    ensures Evict(q, cap).Ok? <==> cap > 0
    ensures cap > 0 ==> Evict(q, cap) == Ok(if |q| < cap then q else q[|q| - (cap - 1)..])
  {
    if |q| >= cap && q != [] {
      EvictKeepsNewest(q[1..], cap);
    }
  }

  lemma {:induction false} FindIsIn(q: Entries, state: string)
    ensures Find(q, state).Some? <==> exists p :: p in q && p.state == state
    ensures Find(q, state).Some? ==> Find(q, state).value in q && Find(q, state).value.state == state
  {
    if q != [] {
      FindIsIn(q[1..], state);
      assert q == [q[0]] + q[1..];
    }
  }

  lemma {:induction false} InsertNew(q: Entries, p: Login)
    requires forall e :: e in q ==> e.state != p.state
    ensures Insert(q, p) == q + [p]
  {
    if q != [] {
      assert forall e :: e in q[1..] ==> e in q;
      InsertNew(q[1..], p);
    }
  }

  lemma {:induction false} InsertIsBounded(q: Entries, p: Login)
    ensures |Insert(q, p)| <= |q| + 1
    ensures forall e :: e in Insert(q, p) ==> e == p || e in q
  {
    if q != [] {
      InsertIsBounded(q[1..], p);
    }
  }

  ghost predicate DistinctStates(q: Entries) {
    forall i, j :: 0 <= i < j < |q| ==> q[i].state != q[j].state
  }

  /** A state that is stored already keeps its place and gets the new login; another one joins at the end. */
  lemma {:induction false} InsertReplaces(q: Entries, p: Login)
    requires DistinctStates(q)
    ensures forall k :: 0 <= k < |q| && q[k].state == p.state ==> Insert(q, p) == q[k := p]
    ensures (forall k :: 0 <= k < |q| ==> q[k].state != p.state) ==> Insert(q, p) == q + [p]
    ensures DistinctStates(Insert(q, p))
  {
    if q != [] && q[0].state != p.state {
      InsertReplaces(q[1..], p);
      assert forall k :: 0 < k < |q| ==> q[k] == q[1..][k - 1];
      InsertIsBounded(q[1..], p);
    }
  }

  lemma {:induction false} PruneKeepsDistinct(q: Entries, ttl: real, now: real)
    requires DistinctStates(q)
    ensures DistinctStates(Prune(q, ttl, now))
  {
    hide Expired;
    if q != [] {
      var rest := Prune(q[1..], ttl, now);
      PruneKeepsDistinct(q[1..], ttl, now);
      PruneOnlyDrops(q[1..], ttl, now);
      forall k | 0 <= k < |rest| ensures rest[k].state != q[0].state {
        assert rest[k] in rest;
      }
    }
  }

  lemma {:induction false} WithoutKeepsDistinct(q: Entries, state: string)
    requires DistinctStates(q)
    ensures DistinctStates(Without(q, state))
  {
    if q != [] {
      var rest := Without(q[1..], state);
      WithoutKeepsDistinct(q[1..], state);
      WithoutOnlyDrops(q[1..], state);
      forall k | 0 <= k < |rest| ensures rest[k].state != q[0].state {
        assert rest[k] in rest;
      }
    }
  }

  /** In every run each state is stored once at most, whatever states are started again. */
  lemma {:induction false} StatesAreDistinct(events: seq<Event>, l: Limits)
    ensures DistinctStates(Run(events, l))
  {
    hide Prune, Without, Insert, Evict, DistinctStates;
    if events == [] {
      NoStates();
    } else {
      var n := |events| - 1;
      var q := Run(events[..n], l);
      StatesAreDistinct(events[..n], l);
      match events[n]
      case Starting(login, now) =>
        var pruned := Prune(q, l.ttl, now);
        PruneKeepsDistinct(q, l.ttl, now);
        EvictKeepsNewest(pruned, l.cap);
        NoStates();
        if l.cap > 0 {
          TailIsDistinct(pruned, if |pruned| < l.cap then 0 else |pruned| - (l.cap - 1));
          InsertReplaces(Evict(pruned, l.cap).value, login);
        }
      case Redeeming(state, now) =>
        WithoutKeepsDistinct(q, state);
        PruneKeepsDistinct(Without(q, state), l.ttl, now);
    }
  }

  lemma NoStates()
    ensures DistinctStates([])
  {
  }

  lemma TailIsDistinct(q: Entries, k: nat)
    requires DistinctStates(q) && k <= |q|
    ensures DistinctStates(q[k..])
  {
  }

  // ----- The cap ------------------------------------------------------------

  /** The store never holds more logins than its cap, whatever was started or redeemed. */
  lemma {:induction false} CapIsNeverExceeded(events: seq<Event>, l: Limits)
    requires l.cap > 0
    ensures |Run(events, l)| <= l.cap
  {
    hide Evict, Insert, Prune, Without;
    if events != [] {
      var n := |events| - 1;
      CapIsNeverExceeded(events[..n], l);
      var q := Run(events[..n], l);
      match events[n]
      case Starting(login, now) =>
        EvictKeepsNewest(Prune(q, l.ttl, now), l.cap);
        InsertIsBounded(Evict(Prune(q, l.ttl, now), l.cap).value, login);
      case Redeeming(state, now) =>
        WithoutOnlyDrops(q, state);
        PruneOnlyDrops(Without(q, state), l.ttl, now);
    }
  }

  /** A start fails exactly without a positive cap. */
  lemma CreateFailsExactly(q: Entries, p: Login, l: Limits, now: real)
    ensures Create(q, p, l, now).1.Err? <==> l.cap <= 0
    ensures l.cap > 0 ==> p in Create(q, p, l, now).0
  {
    EvictKeepsNewest(Prune(q, l.ttl, now), l.cap);
    if l.cap > 0 {
      InsertHolds(Evict(Prune(q, l.ttl, now), l.cap).value, p);
    }
  }

  lemma {:induction false} InsertHolds(q: Entries, p: Login)
    ensures p in Insert(q, p)
  {
    if q != [] {
      InsertHolds(q[1..], p);
    }
  }

  // ----- Where entries come from --------------------------------------------

  ghost predicate StartedBefore(events: seq<Event>, p: Login) {
    exists i :: 0 <= i < |events| && events[i].Starting? && events[i].login == p
  }

  lemma {:induction false} EveryEntryWasStarted(events: seq<Event>, l: Limits)
    ensures forall p :: p in Run(events, l) ==> StartedBefore(events, p)
  {
    hide Step, StartedBefore;
    if events != [] {
      var n := |events| - 1;
      EveryEntryWasStarted(events[..n], l);
      StepAddsOnlyItsLogin(Run(events[..n], l), events[n], l);
      forall p | p in Run(events, l) ensures StartedBefore(events, p) {
        StartedEarlier(events, p);
      }
    }
  }

  lemma StartedEarlier(events: seq<Event>, p: Login)
    requires events != []
    ensures StartedBefore(events, p)
            <==> StartedBefore(events[..|events| - 1], p) || (events[|events| - 1].Starting? && events[|events| - 1].login == p)
  {
    var n := |events| - 1;
    if StartedBefore(events[..n], p) {
      var i :| 0 <= i < n && events[..n][i].Starting? && events[..n][i].login == p;
      assert events[i].Starting? && events[i].login == p;
    }
    if StartedBefore(events, p) {
      var i :| 0 <= i < |events| && events[i].Starting? && events[i].login == p;
      assert i < n ==> events[..n][i] == events[i];
    }
  }

  lemma StepAddsOnlyItsLogin(q: Entries, e: Event, l: Limits)
    ensures forall p :: p in Step(q, e, l) ==> p in q || (e.Starting? && e.login == p)
    ensures e.Redeeming? ==> forall p :: p in Step(q, e, l) <==> p in q && p.state != e.state && !Expired(p, l.ttl, e.now)
  {
    hide Evict, Insert, Prune, Without, Expired;
    match e
    case Starting(login, now) =>
      var pruned := Prune(q, l.ttl, now);
      PruneOnlyDrops(q, l.ttl, now);
      EvictKeepsNewest(pruned, l.cap);
      if l.cap > 0 {
        var room := Evict(pruned, l.cap).value;
        assert forall p :: p in room ==> p in pruned;
        InsertIsBounded(room, login);
      }
    case Redeeming(state, now) =>
      WithoutOnlyDrops(q, state);
      PruneOnlyDrops(Without(q, state), l.ttl, now);
  }

  // ----- Single use ---------------------------------------------------------

  /** What a callback gets was started under that state, and is not older than the limit. */
  lemma RedeemedWasStarted(events: seq<Event>, j: nat, l: Limits)
    requires j < |events| && Redeemed(events, j, l).Some?
    ensures var p := Redeemed(events, j, l).value;
            p.state == events[j].state && StartedBefore(events[..j], p) && events[j].now - p.createdAt <= l.ttl
  {
    FindIsIn(Run(events[..j], l), events[j].state);
    EveryEntryWasStarted(events[..j], l);
  }

  /** Once a state was asked for, with or without success, it is gone for the rest of the run. */
  lemma {:induction false} AskedForIsGone(events: seq<Event>, j: nat, l: Limits)
    requires Proper(events) && j < |events| && events[j].Redeeming? && StartedState(events[..j], events[j].state)
    ensures forall p :: p in Run(events, l) ==> p.state != events[j].state
  {
    hide Step;
    var n := |events| - 1;
    StepAddsOnlyItsLogin(Run(events[..n], l), events[n], l);
    if j < n {
      assert events[..n][..j] == events[..j] && events[..n][j] == events[j];
      AskedForIsGone(events[..n], j, l);
      var i :| 0 <= i < j && events[..j][i].Starting? && events[..j][i].login.state == events[j].state;
      assert events[i].Starting? && events[i].login.state == events[j].state;
    }
  }

  ghost predicate StartedState(events: seq<Event>, state: string) {
    exists i :: 0 <= i < |events| && events[i].Starting? && events[i].login.state == state
  }

  /** No state is redeemed twice. */
  lemma RedeemedAtMostOnce(events: seq<Event>, i: nat, j: nat, l: Limits)
    requires Proper(events) && i < j < |events| && Redeemed(events, i, l).Some? && Redeemed(events, j, l).Some?
    ensures events[i].state != events[j].state
  {
    hide Run, Find;
    if events[i].state == events[j].state {
      RedeemedWasStarted(events, i, l);
      assert events[..j][..i] == events[..i] && events[..j][i] == events[i];
      AskedForIsGone(events[..j], i, l);
      FindIsIn(Run(events[..j], l), events[j].state);
      assert false;
    }
  }

  /** An event leaves no login behind that is older than the limit, but for the one it starts. */
  lemma NothingOldStays(events: seq<Event>, l: Limits)
    requires events != []
    ensures var e := events[|events| - 1];
            forall p :: p in Run(events, l) ==> e.now - p.createdAt <= l.ttl || (e.Starting? && p == e.login)
  {
    hide Evict, Insert, Prune, Without;
    var n := |events| - 1;
    var q := Run(events[..n], l);
    match events[n]
    case Starting(login, now) =>
      var pruned := Prune(q, l.ttl, now);
      PruneOnlyDrops(q, l.ttl, now);
      EvictKeepsNewest(pruned, l.cap);
      if l.cap > 0 {
        var room := Evict(pruned, l.cap).value;
        assert forall p :: p in room ==> p in pruned;
        InsertIsBounded(room, login);
      }
    case Redeeming(state, now) => PruneOnlyDrops(Without(q, state), l.ttl, now);
  }

  // ----- What is kept -------------------------------------------------------

  /** The login is stored, with at most so many newer ones behind it. */
  ghost predicate Waits(q: Entries, p: Login, newer: int) {
    exists a: Entries, b: Entries :: q == a + [p] + b && |b| <= newer
  }

  lemma PruneKeepsWaiting(q: Entries, p: Login, newer: int, ttl: real, now: real)
    requires Waits(q, p, newer) && !Expired(p, ttl, now)
    ensures Waits(Prune(q, ttl, now), p, newer)
  {
    hide Expired;
    var a: Entries, b: Entries :| q == a + [p] + b && |b| <= newer;
    PruneCat(a + [p], b, ttl, now);
    PruneCat(a, [p], ttl, now);
    assert Prune([p], ttl, now) == [p] by {
      assert Prune([p][1..], ttl, now) == [];
    }
    PruneOnlyDrops(b, ttl, now);
  }

  lemma WithoutKeepsWaiting(q: Entries, p: Login, newer: int, state: string)
    requires Waits(q, p, newer) && p.state != state
    ensures Waits(Without(q, state), p, newer)
  {
    var a: Entries, b: Entries :| q == a + [p] + b && |b| <= newer;
    WithoutCat(a + [p], b, state);
    WithoutCat(a, [p], state);
    assert Without([p], state) == [p] by {
      assert Without([p][1..], state) == [];
    }
    WithoutOnlyDrops(b, state);
  }

  lemma EvictKeepsWaiting(q: Entries, p: Login, newer: int, cap: int)
    requires Waits(q, p, newer) && newer + 1 < cap
    ensures Evict(q, cap).Ok? && Waits(Evict(q, cap).value, p, newer)
  {
    EvictKeepsNewest(q, cap);
    var a: Entries, b: Entries :| q == a + [p] + b && |b| <= newer;
    if |q| >= cap {
      DropFront(a, p, b, |q| - (cap - 1));
    }
  }

  lemma DropFront(a: Entries, p: Login, b: Entries, k: nat)
    requires k <= |a|
    ensures (a + [p] + b)[k..] == a[k..] + [p] + b
  {
  }

  lemma AppendKeepsWaiting(q: Entries, p: Login, newer: int, x: Login)
    requires Waits(q, p, newer)
    ensures Waits(q + [x], p, newer + 1)
  {
    var a: Entries, b: Entries :| q == a + [p] + b && |b| <= newer;
    assert q + [x] == a + [p] + (b + [x]);
  }

  /** The state of a new sign-in is not in the store, so the login joins at the end. */
  lemma NewStateIsNotStored(events: seq<Event>, l: Limits)
    requires Proper(events) && events != [] && events[|events| - 1].Starting?
    ensures forall e :: e in Run(events[..|events| - 1], l) ==> e.state != events[|events| - 1].login.state
  {
    hide Run;
    var n := |events| - 1;
    EveryEntryWasStarted(events[..n], l);
    forall e | e in Run(events[..n], l) ensures e.state != events[n].login.state {
      var i :| 0 <= i < n && events[..n][i].Starting? && events[..n][i].login == e;
      assert events[i].login == e;
    }
  }

  lemma CreateJoinsAtTheEnd(q: Entries, p: Login, l: Limits, now: real)
    requires l.cap > 0 && forall e :: e in q ==> e.state != p.state
    ensures var room := Evict(Prune(q, l.ttl, now), l.cap); room.Ok? && Create(q, p, l, now).0 == room.value + [p]
  {
    PruneOnlyDrops(q, l.ttl, now);
    EvictKeepsNewest(Prune(q, l.ttl, now), l.cap);
    var room := Evict(Prune(q, l.ttl, now), l.cap).value;
    assert forall e :: e in room ==> e in Prune(q, l.ttl, now);
    InsertNew(room, p);
  }

  /** Nobody asked for the state after its login was started, and it has not expired by some time. */
  ghost predicate Usable(events: seq<Event>, i: nat, l: Limits, now: real)
    requires i < |events| && events[i].Starting?
  {
    && (forall j :: i < j < |events| ==> !(events[j].Redeeming? && events[j].state == events[i].login.state))
    && now - events[i].login.createdAt <= l.ttl
  }

  /** A login that was neither asked for nor expired is still there unless as many newer ones as the cap were started. */
  lemma {:induction false} KeptUnlessCrowdedOut(events: seq<Event>, i: nat, l: Limits)
    requires Proper(events) && i < |events| && events[i].Starting?
    requires Usable(events, i, l, events[|events| - 1].now)
    requires StartsIn(events[i + 1..]) < l.cap
    ensures Waits(Run(events, l), events[i].login, StartsIn(events[i + 1..]))
  {
    hide Prune, Evict, Without, Insert, Waits, Usable, Proper, Step;
    var n := |events| - 1;
    if i == n {
      JustStartedWaits(events, l);
      assert events[i + 1..] == [];
    } else {
      UsableEarlier(events, i, l);
      assert events[i + 1..][..n - (i + 1)] == events[..n][i + 1..];
      KeptUnlessCrowdedOut(events[..n], i, l);
      var newer := StartsIn(events[..n][i + 1..]);
      PruneKeeps(events, i, l, newer);
    }
  }

  lemma JustStartedWaits(events: seq<Event>, l: Limits)
    requires Proper(events) && events != [] && events[|events| - 1].Starting? && l.cap > 0
    ensures Waits(Run(events, l), events[|events| - 1].login, 0)
  {
    hide Prune, Evict, Insert;
    var n := |events| - 1;
    var p, q := events[n].login, Run(events[..n], l);
    NewStateIsNotStored(events, l);
    CreateJoinsAtTheEnd(q, p, l, events[n].now);
    var room := Evict(Prune(q, l.ttl, events[n].now), l.cap).value;
    assert room + [p] == room + [p] + [];
  }

  lemma UsableEarlier(events: seq<Event>, i: nat, l: Limits)
    requires Proper(events) && i < |events| - 1 && events[i].Starting?
    requires Usable(events, i, l, events[|events| - 1].now)
    ensures var n := |events| - 1;
            Proper(events[..n]) && Usable(events[..n], i, l, events[..n][n - 1].now)
  {
    var n := |events| - 1;
    assert events[..n][n - 1].now <= events[n].now;
    assert forall j :: i < j < n ==> events[..n][j] == events[j];
  }

  lemma PruneKeeps(events: seq<Event>, i: nat, l: Limits, newer: nat)
    requires Proper(events) && i < |events| - 1 && events[i].Starting?
    requires Usable(events, i, l, events[|events| - 1].now)
    requires Waits(Run(events[..|events| - 1], l), events[i].login, newer)
    requires events[|events| - 1].Starting? ==> newer + 1 < l.cap
    ensures Waits(Run(events, l), events[i].login, if events[|events| - 1].Starting? then newer + 1 else newer)
  {
    hide Prune, Evict, Without, Insert, Waits;
    var n := |events| - 1;
    var p, q, now := events[i].login, Run(events[..n], l), events[n].now;
    match events[n]
    case Starting(login, _) =>
      NewStateIsNotStored(events, l);
      CreateJoinsAtTheEnd(q, login, l, now);
      PruneKeepsWaiting(q, p, newer, l.ttl, now);
      EvictKeepsWaiting(Prune(q, l.ttl, now), p, newer, l.cap);
      AppendKeepsWaiting(Evict(Prune(q, l.ttl, now), l.cap).value, p, newer, login);
    case Redeeming(state, _) =>
      WithoutKeepsWaiting(q, p, newer, state);
      PruneKeepsWaiting(Without(q, state), p, newer, l.ttl, now);
  }

  /**
   * A callback gets the very login that was started under its state if the login is not older than the limit,
   * was not asked for before, and fewer newer ones than the cap were started meanwhile.
   */
  lemma UsableIsRedeemed(events: seq<Event>, i: nat, j: nat, l: Limits)
    requires Proper(events) && i < j < |events| && events[i].Starting?
    requires events[j].Redeeming? && events[j].state == events[i].login.state
    requires Usable(events[..j], i, l, events[j].now) && StartsIn(events[i + 1..j]) < l.cap
    ensures Redeemed(events, j, l) == Some(events[i].login)
  {
    hide Run, Find;
    var q, p := Run(events[..j], l), events[i].login;
    assert events[..j][i + 1..] == events[i + 1..j];
    assert Usable(events[..j], i, l, events[..j][j - 1].now);
    KeptUnlessCrowdedOut(events[..j], i, l);
    assert p in q;
    FindIsIn(q, p.state);
    var found := Find(q, p.state).value;
    EveryEntryWasStarted(events[..j], l);
    var k :| 0 <= k < j && events[..j][k].Starting? && events[..j][k].login == found;
    assert events[k].login.state == events[i].login.state && events[k].Starting?;
    assert k == i;
  }

  // ----- The store as it runs -----------------------------------------------

  class PendingLoginStore {
    var entries: Entries
    const limits: Limits

    constructor (limits: Limits)
      ensures entries == [] && this.limits == limits
    {
      entries, this.limits := [], limits;
    }

    /** Collect what has not expired. */
    method DropExpired(now: real)
      modifies this`entries
      ensures entries == Prune(old(entries), limits.ttl, now)
    {
      hide Expired;
      var kept: Entries, k := [], 0;
      while k < |entries|
        invariant 0 <= k <= |entries|
        invariant kept + Prune(entries[k..], limits.ttl, now) == Prune(entries, limits.ttl, now)
      {
        if !Expired(entries[k], limits.ttl, now) {
          kept := kept + [entries[k]];
        }
        k := k + 1;
      }
      entries := kept;
    }

    method Start(login: Login, now: real) returns (r: Result<Login, ()>)
      modifies this`entries
      ensures (entries, r) == Create(old(entries), login, limits, now)
    {
      DropExpired(now);
      while |entries| >= limits.cap
        invariant Evict(entries, limits.cap) == Evict(Prune(old(entries), limits.ttl, now), limits.cap)
        decreases |entries|
      {
        if entries == [] {
          return Err(());
        }
        entries := entries[1..];
      }
      entries := Insert(entries, login);
      r := Ok(login);
    }

    method Redeem(state: string, now: real) returns (r: Option<Login>)
      modifies this`entries
      ensures (entries, r) == Take(old(entries), state, limits, now)
    {
      var pending := Find(entries, state);
      entries := Without(entries, state);
      DropExpired(now);
      if pending.None? || Expired(pending.value, limits.ttl, now) {
        return None;
      }
      r := pending;
    }
  }
}
