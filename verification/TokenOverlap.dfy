/**
 * Rotations that overlap. `Tokens` takes a rotation in one piece; here the calls of several request threads
 * interleave, each looking at its token and family, then asking whether the token is spent, then marking it.
 */
module TokenOverlap {
  import opened Wrappers
  import opened Tokens

  type RefreshToken = t: Token | t.Refresh? witness Refresh("", "", "", 0, 0, "")

  /**
   * A rotation under way: its token, and once it was told that the token is not spent, what the clock read
   * then and how many rotations had been completed by then.
   */
  datatype Call = Looked(token: RefreshToken) | Passed(token: RefreshToken, read: real, seen: nat)

  /** The service and its open calls, with an observer's note of the token ids that rotated and of the clock. */
  datatype World = World(auth: Auth, calls: map<nat, Call>, rotated: seq<Jti>, clock: real)

  datatype Step =
    | Login(subject: string, role: string, family: Family, ids: Ids, now: real)
    | Look(call: nat, token: Token, now: real)
    | Ask(call: nat, now: real)
    | Mark(call: nat, newRole: Option<string>, ids: Ids, now: real)
    | RevokeNow(family: Family)

  function Start(now: real): World {
    World(EMPTY_AUTH, map[], [], now)
  }

  /** The pair a completed rotation returns. */
  function Successors(l: Lifetimes, token: RefreshToken, newRole: Option<string>, ids: Ids, now: real): Pair {
    MakePair(l, token.subject, if newRole.Some? then newRole.value else token.role, token.family, ids, now)
  }

  function Apply(l: Lifetimes, w: World, step: Step): World {
    match step
    case Login(subject, role, family, ids, now) =>
      w.(auth := Issue(l, w.auth, subject, role, family, ids, now).0, clock := now)
    case Look(call, token, now) =>
      var w' := w.(clock := now);
      if call in w.calls || VerifyRefresh(w.auth, token, now).Err? || token.family in w.auth.revoked then w'
      else w'.(calls := w.calls[call := Looked(token)])
    case Ask(call, now) =>
      var w' := w.(clock := now);
      if call !in w.calls || !w.calls[call].Looked? then w'
      else
        var token := w.calls[call].token;
        var (auth, spent) := IsSpent(w.auth, token.jti, now);
        if spent then w'.(auth := auth.(revoked := auth.revoked + {token.family}), calls := w.calls - {call})
        else w'.(auth := auth, calls := w.calls[call := Passed(token, now, |w.rotated|)])
    case Mark(call, newRole, ids, now) =>
      var w' := w.(clock := now);
      if !Marks(w, step) then w'
      else
        var token := w.calls[call].token;
        var spent := w.auth.(spent := w.auth.spent[token.jti := (token.family, token.exp)]);
        World(Sign(spent, Successors(l, token, newRole, ids, now)), w.calls - {call}, w.rotated + [token.jti], now)
    case RevokeNow(family) => w.(auth := w.auth.(revoked := w.auth.revoked + {family}))
  }

  /** The step completes a rotation: neither the token nor its family is looked at again. */
  predicate Marks(w: World, step: Step) {
    step.Mark? && step.call in w.calls && w.calls[step.call].Passed?
  }

  /** New tokens carry new ids, and the clock does not run backwards. */
  ghost predicate Plausible(w: World, step: Step) {
    match step
    case Login(_, _, _, ids, now) => w.clock <= now && FreshIds(w, ids)
    case Mark(_, _, ids, now) => w.clock <= now && FreshIds(w, ids)
    case Look(_, _, now) => w.clock <= now
    case Ask(_, now) => w.clock <= now
    case RevokeNow(_) => true
  }

  ghost predicate FreshIds(w: World, ids: Ids) {
    && ids.access != ids.refresh
    && forall t :: t in w.auth.signed ==> t.jti != ids.access && t.jti != ids.refresh
  }

  function Run(l: Lifetimes, start: real, steps: seq<Step>): World {
    if steps == [] then Start(start) else Apply(l, Run(l, start, steps[..|steps| - 1]), steps[|steps| - 1])
  }

  ghost predicate PlausibleRun(l: Lifetimes, start: real, steps: seq<Step>)
    decreases |steps|
  {
    steps == [] ||
    var n := |steps| - 1;
    PlausibleRun(l, start, steps[..n]) && Plausible(Run(l, start, steps[..n]), steps[n])
  }

  // ----- Without an overlap ---------------------------------------------------

  /** A call that nothing interrupts is a rotation in one piece, with the same three readings of the clock. */
  lemma AloneIsRotate(l: Lifetimes, w: World, call: nat, token: Token, newRole: Option<string>, ids: Ids, t: Clock)
    requires call !in w.calls
    ensures var w' := Apply(l, Apply(l, Apply(l, w, Look(call, token, t.decode)), Ask(call, t.spent)), Mark(call, newRole, ids, t.pair));
            var (a, r) := Rotate(l, w.auth, token, newRole, ids, t);
            && w'.auth == a && w'.calls == w.calls && w'.clock == t.pair
            && w'.rotated == (if r.Ok? then w.rotated + [token.jti] else w.rotated)
  {
    hide MakePair, Sign, IsSpent;
    var w1 := Apply(l, w, Look(call, token, t.decode));
    if call in w1.calls {
      var w2 := Apply(l, w1, Ask(call, t.spent));
      assert w2.calls == if IsSpent(w.auth, token.jti, t.spent).1 then w.calls
                         else w.calls[call := Passed(token, t.spent, |w.rotated|)];
    }
  }

  /** A revocation here is what an accepted logout does. */
  lemma RevokeNowIsLogout(l: Lifetimes, w: World, token: Token, now: real)
    requires Revoke(w.auth, token, now).1.Ok?
    ensures token.Refresh? && Apply(l, w, RevokeNow(token.family)).auth == Revoke(w.auth, token, now).0
  {
  }

  // ----- What every interleaving keeps --------------------------------------

  ghost predicate UniqueIds(signed: set<Token>) {
    forall s, t :: s in signed && t in signed && s.jti == t.jti ==> s == t
  }

  /** A token that rotated is remembered as spent until the clock has reached its expiry. */
  ghost predicate Remembered(w: World) {
    forall t :: t in w.auth.signed && t.Refresh? && t.jti in w.rotated ==>
      (t.jti in w.auth.spent && w.auth.spent[t.jti] == (t.family, t.exp)) || t.exp as real <= w.clock
  }

  ghost predicate HasToken(signed: set<Token>, j: Jti) {
    exists t :: t in signed && t.jti == j
  }

  ghost predicate KnownIds(w: World) {
    forall j :: j in w.rotated ==> HasToken(w.auth.signed, j)
  }

  /** A call that was told its token is not spent asked before any rotation of it, or at or after its expiry. */
  ghost predicate CallOk(w: World, c: Call) {
    && c.token in w.auth.signed
    && (c.Passed? ==>
          && c.seen <= |w.rotated|
          && (c.token.jti in w.rotated[..c.seen] ==> c.token.exp as real <= c.read))
  }

  ghost predicate CallsOk(w: World) {
    forall k :: k in w.calls ==> CallOk(w, w.calls[k])
  }

  ghost predicate WorldOk(w: World) {
    UniqueIds(w.auth.signed) && Remembered(w) && KnownIds(w) && CallsOk(w)
  }

  /** Signing a pair with new ids: no other token has them, and nothing that rotated does. */
  lemma SigningKeepsIds(w: World, p: Pair, ids: Ids)
    requires UniqueIds(w.auth.signed) && KnownIds(w) && FreshIds(w, ids)
    requires p.access.jti == ids.access && p.refresh.jti == ids.refresh
    ensures var signed := w.auth.signed + {p.access, p.refresh};
            && UniqueIds(signed) && (forall j :: j in w.rotated ==> HasToken(signed, j))
            && p.access.jti !in w.rotated && p.refresh.jti !in w.rotated
  {
    var signed := w.auth.signed + {p.access, p.refresh};
    forall j | j in w.rotated ensures HasToken(signed, j) && j != ids.access && j != ids.refresh {
      assert HasToken(w.auth.signed, j);
      var t :| t in w.auth.signed && t.jti == j;
      assert t in signed;
    }
  }

  lemma LoginKeepsOk(l: Lifetimes, w: World, step: Step)
    requires WorldOk(w) && step.Login? && Plausible(w, step)
    ensures WorldOk(Apply(l, w, step))
  {
    hide UniqueIds, FreshIds, HasToken;
    SigningKeepsIds(w, Issue(l, w.auth, step.subject, step.role, step.family, step.ids, step.now).1, step.ids);
  }

  lemma LookKeepsOk(l: Lifetimes, w: World, step: Step)
    requires WorldOk(w) && (step.Look? || step.RevokeNow?) && Plausible(w, step)
    ensures WorldOk(Apply(l, w, step))
  {
    hide UniqueIds, HasToken;
  }

  lemma AskKeepsOk(l: Lifetimes, w: World, step: Step)
    requires WorldOk(w) && step.Ask? && Plausible(w, step)
    ensures WorldOk(Apply(l, w, step))
  {
    hide HasToken;
    if step.call in w.calls && w.calls[step.call].Looked? {
      assert CallOk(w, w.calls[step.call]);
      assert w.rotated[..|w.rotated|] == w.rotated;
    }
  }

  lemma MarkKeepsOk(l: Lifetimes, w: World, step: Step)
    requires WorldOk(w) && Marks(w, step) && Plausible(w, step)
    ensures WorldOk(Apply(l, w, step))
  {
    hide FreshIds, HasToken;
    var w', token := Apply(l, w, step), w.calls[step.call].token;
    assert CallOk(w, w.calls[step.call]);
    SigningKeepsIds(w, Successors(l, token, step.newRole, step.ids, step.now), step.ids);
    assert HasToken(w'.auth.signed, token.jti) by { SignedIsThere(w'.auth.signed, token); }
    forall k | k in w'.calls ensures CallOk(w', w'.calls[k]) {
      assert CallOk(w, w.calls[k]);
      if w.calls[k].Passed? {
        assert w'.rotated[..w.calls[k].seen] == w.rotated[..w.calls[k].seen];
      }
    }
  }

  lemma SignedIsThere(signed: set<Token>, t: Token)
    requires t in signed
    ensures HasToken(signed, t.jti)
  {
  }

  lemma StepKeepsOk(l: Lifetimes, w: World, step: Step)
    requires WorldOk(w) && Plausible(w, step)
    ensures WorldOk(Apply(l, w, step))
  {
    hide WorldOk, Plausible, Marks;
    match step
    case Login(_, _, _, _, _) => LoginKeepsOk(l, w, step);
    case Ask(_, _) => AskKeepsOk(l, w, step);
    case Mark(_, _, _, now) =>
      if Marks(w, step) {
        MarkKeepsOk(l, w, step);
      } else {
        LaterIsOk(w, step);
      }
    case _ => LookKeepsOk(l, w, step);
  }

  lemma LaterIsOk(w: World, step: Step)
    requires WorldOk(w) && step.Mark? && Plausible(w, step)
    ensures WorldOk(w.(clock := step.now))
  {
  }

  lemma {:induction false} RunIsOk(l: Lifetimes, start: real, steps: seq<Step>)
    requires PlausibleRun(l, start, steps)
    ensures WorldOk(Run(l, start, steps))
  {
    hide Apply, Plausible;
    if steps != [] {
      var n := |steps| - 1;
      RunIsOk(l, start, steps[..n]);
      StepKeepsOk(l, Run(l, start, steps[..n]), steps[n]);
    }
  }

  // ----- Single use ---------------------------------------------------------

  ghost predicate EachOnce(rotated: seq<Jti>) {
    forall i, j :: 0 <= i < j < |rotated| ==> rotated[i] != rotated[j]
  }

  /** The call asked about its token before a rotation of it that was completed by now. */
  ghost predicate Overlaps(w: World, step: Step) {
    && Marks(w, step)
    && var c := w.calls[step.call];
       c.seen <= |w.rotated| && c.token.jti in w.rotated[c.seen..]
  }

  /** The call asked about a token that had rotated when the clock had reached its expiry. */
  ghost predicate AskedTooLate(w: World, step: Step) {
    && Marks(w, step)
    && var c := w.calls[step.call];
       c.seen <= |w.rotated| && c.token.jti in w.rotated[..c.seen] && c.token.exp as real <= c.read
  }

  lemma EachOnceAfter(l: Lifetimes, w: World, step: Step)
    requires WorldOk(w) && Plausible(w, step)
    ensures EachOnce(Apply(l, w, step).rotated) <==> EachOnce(w.rotated) && !Overlaps(w, step) && !AskedTooLate(w, step)
  {
    hide FreshIds, UniqueIds, HasToken, IsSpent, VerifyRefresh, Issue, Successors;
    if Marks(w, step) {
      var c := w.calls[step.call];
      assert CallOk(w, c);
      assert w.rotated == w.rotated[..c.seen] + w.rotated[c.seen..];
      OnceMore(w.rotated, c.token.jti);
    }
  }

  lemma OnceMore(rotated: seq<Jti>, j: Jti)
    ensures EachOnce(rotated + [j]) <==> EachOnce(rotated) && j !in rotated
  {
    var more := rotated + [j];
    if EachOnce(more) {
      assert forall i :: 0 <= i < |rotated| ==> more[i] == rotated[i] != more[|rotated|];
    }
  }

  ghost predicate NeverTwice(l: Lifetimes, start: real, steps: seq<Step>) {
    forall k :: 0 <= k < |steps| ==>
      !Overlaps(Run(l, start, steps[..k]), steps[k]) && !AskedTooLate(Run(l, start, steps[..k]), steps[k])
  }

  lemma NeverTwiceOneMore(l: Lifetimes, start: real, steps: seq<Step>)
    requires steps != []
    ensures var n := |steps| - 1;
            var w := Run(l, start, steps[..n]);
            NeverTwice(l, start, steps)
            <==> NeverTwice(l, start, steps[..n]) && !Overlaps(w, steps[n]) && !AskedTooLate(w, steps[n])
  {
    hide Run, Overlaps, AskedTooLate;
    var n := |steps| - 1;
    assert forall k :: 0 <= k < n ==> steps[..n][..k] == steps[..k] && steps[..n][k] == steps[k];
  }

  /**
   * In every interleaving of calls each token id rotates at most once exactly when no completed rotation had
   * asked about its token before an earlier rotation of it was completed, nor after one but at or past the
   * token's expiry.
   */
  lemma {:induction false} SingleUseExactly(l: Lifetimes, start: real, steps: seq<Step>)
    requires PlausibleRun(l, start, steps)
    ensures EachOnce(Run(l, start, steps).rotated) <==> NeverTwice(l, start, steps)
  {
    hide Apply, Plausible, WorldOk, Overlaps, AskedTooLate, NeverTwice, EachOnce;
    if steps == [] {
      NothingYet(l, start);
    } else {
      var n := |steps| - 1;
      SingleUseExactly(l, start, steps[..n]);
      RunIsOk(l, start, steps[..n]);
      EachOnceAfter(l, Run(l, start, steps[..n]), steps[n]);
      NeverTwiceOneMore(l, start, steps);
    }
  }

  lemma NothingYet(l: Lifetimes, start: real)
    ensures EachOnce(Start(start).rotated) && NeverTwice(l, start, [])
  {
  }

  // ----- Two calls at once --------------------------------------------------

  function Shared(l: Lifetimes): Token {
    Refresh("ana", "viewer", "login", 0, l.refresh, "r1")
  }

  /** One login, one open call that passed its question, and another that is about to. */
  function RaceSteps(l: Lifetimes): seq<Step> {
    [Login("ana", "viewer", "login", Ids("a1", "r1"), 0.0), Look(1, Shared(l), 0.5), Look(2, Shared(l), 0.5),
     Ask(1, 0.5), Ask(2, 0.5), Mark(1, None, Ids("a2", "r2"), 0.5), Mark(2, None, Ids("a3", "r3"), 0.5)]
  }

  function OutrunSteps(l: Lifetimes): seq<Step> {
    [Login("ana", "viewer", "login", Ids("a1", "r1"), 0.0), Look(1, Shared(l), 0.5), Ask(1, 0.5),
     RevokeNow("login"), Mark(1, None, Ids("a2", "r2"), 0.5)]
  }

  function PairAt(l: Lifetimes, ids: Ids): Pair {
    Pair(Access("ana", "viewer", 0, l.access, ids.access), Refresh("ana", "viewer", "login", 0, l.refresh, ids.refresh))
  }

  function Signed(l: Lifetimes, ids: Ids): set<Token> {
    {PairAt(l, ids).access, PairAt(l, ids).refresh}
  }

  lemma RunIsAt(l: Lifetimes, start: real, steps: seq<Step>, k: nat)
    requires k < |steps|
    ensures Run(l, start, steps[..k + 1]) == Apply(l, Run(l, start, steps[..k]), steps[k])
    ensures PlausibleRun(l, start, steps[..k]) && Plausible(Run(l, start, steps[..k]), steps[k])
            ==> PlausibleRun(l, start, steps[..k + 1])
    ensures Run(l, start, steps[..0]) == Start(start) && PlausibleRun(l, start, steps[..0])
  {
    hide Apply, Plausible;
    assert steps[..k + 1][..k] == steps[..k] && steps[..k + 1][k] == steps[k];
  }

  lemma LoggedIn(l: Lifetimes)
    ensures var first := Login("ana", "viewer", "login", Ids("a1", "r1"), 0.0);
            && Apply(l, Start(0.0), first) == World(Auth(map[], {}, Signed(l, Ids("a1", "r1"))), map[], [], 0.0)
            && Plausible(Start(0.0), first)
  {
    assert {} + Signed(l, Ids("a1", "r1")) == Signed(l, Ids("a1", "r1"));
  }

  /** Two overlapping calls look, ask and mark: both rotate the one token, with the clock standing still. */
  lemma OverlapRotatesTwice(l: Lifetimes)
    requires l.refresh >= 1
    ensures PlausibleRun(l, 0.0, RaceSteps(l))
    ensures Run(l, 0.0, RaceSteps(l)).rotated == ["r1", "r1"]
  {
    hide Run, PlausibleRun, Apply, Plausible;
    var steps, t := RaceSteps(l), Shared(l);
    assert steps[..7] == steps;
    var auth := Auth(map[], {}, Signed(l, Ids("a1", "r1")));
    LoggedIn(l);
    RunIsAt(l, 0.0, steps, 0);
    RunIsAt(l, 0.0, steps, 1);
    RunIsAt(l, 0.0, steps, 2);
    RunIsAt(l, 0.0, steps, 3);
    RunIsAt(l, 0.0, steps, 4);
    RunIsAt(l, 0.0, steps, 5);
    RunIsAt(l, 0.0, steps, 6);
    TwoLook(l, auth, t);
    TwoAsk(l, auth, t);
    TwoMark(l, t);
  }

  lemma TwoLook(l: Lifetimes, auth: Auth, t: RefreshToken)
    requires t in auth.signed && t.exp >= 1 && auth.revoked == {}
    ensures var w := World(auth, map[], [], 0.0);
            var w1 := Apply(l, w, Look(1, t, 0.5));
            && Apply(l, w1, Look(2, t, 0.5)) == World(auth, map[1 := Looked(t), 2 := Looked(t)], [], 0.5)
            && Plausible(w, Look(1, t, 0.5)) && Plausible(w1, Look(2, t, 0.5))
  {
    assert map[][1 := Looked(t)][2 := Looked(t)] == map[1 := Looked(t), 2 := Looked(t)];
  }

  lemma TwoAsk(l: Lifetimes, auth: Auth, t: RefreshToken)
    requires t.jti !in auth.spent
    ensures var w := World(auth, map[1 := Looked(t), 2 := Looked(t)], [], 0.5);
            var w1 := Apply(l, w, Ask(1, 0.5));
            && Apply(l, w1, Ask(2, 0.5)) == World(auth, map[1 := Passed(t, 0.5, 0), 2 := Passed(t, 0.5, 0)], [], 0.5)
            && Plausible(w, Ask(1, 0.5)) && Plausible(w1, Ask(2, 0.5))
  {
    var calls: map<nat, Call> := map[1 := Looked(t), 2 := Looked(t)];
    assert calls[1 := Passed(t, 0.5, 0)][2 := Passed(t, 0.5, 0)] == map[1 := Passed(t, 0.5, 0), 2 := Passed(t, 0.5, 0)];
  }

  lemma TwoMark(l: Lifetimes, t: RefreshToken)
    requires t == Shared(l)
    ensures var w := World(Auth(map[], {}, Signed(l, Ids("a1", "r1"))), map[1 := Passed(t, 0.5, 0), 2 := Passed(t, 0.5, 0)], [], 0.5);
            var w1 := Apply(l, w, Mark(1, None, Ids("a2", "r2"), 0.5));
            && Apply(l, w1, Mark(2, None, Ids("a3", "r3"), 0.5)).rotated == ["r1", "r1"]
            && Plausible(w, Mark(1, None, Ids("a2", "r2"), 0.5)) && Plausible(w1, Mark(2, None, Ids("a3", "r3"), 0.5))
  {
  }

  /** A rotation that passed its questions makes a pair in a family that was revoked meanwhile. */
  lemma RotationOutrunsRevocation(l: Lifetimes)
    requires l.refresh >= 1
    ensures var w := Run(l, 0.0, OutrunSteps(l));
            && PlausibleRun(l, 0.0, OutrunSteps(l))
            && "login" in w.auth.revoked && PairAt(l, Ids("a2", "r2")).access in w.auth.signed
            && !exists k :: 0 <= k < 4 && PairAt(l, Ids("a2", "r2")).access in Run(l, 0.0, OutrunSteps(l)[..k]).auth.signed
  {
    hide Run, PlausibleRun;
    var steps, t := OutrunSteps(l), Shared(l);
    assert steps[..5] == steps;
    LoggedIn(l);
    RunIsAt(l, 0.0, steps, 0);
    RunIsAt(l, 0.0, steps, 1);
    RunIsAt(l, 0.0, steps, 2);
    RunIsAt(l, 0.0, steps, 3);
    RunIsAt(l, 0.0, steps, 4);
  }
}
