/** Runs of the token service: single use, one live token per login, and the tail after a revocation. */
module TokenRuns {
  import opened Wrappers
  import opened Tokens

  datatype Step =
    | DoIssue(subject: string, role: string, family: Family, ids: Ids, now: real)
    | DoRotate(token: Token, newRole: Option<string>, ids: Ids, t: Clock)
    | DoRevoke(token: Token, now: real)

  /**
   * The service, with an observer's note of the pairs made, the token ids that rotated, when each
   * family was first revoked, and the last clock reading.
   */
  datatype World = World(auth: Auth, pairs: seq<Pair>, rotated: seq<Jti>, revokedAt: map<Family, real>, clock: real)

  function Start(now: real): World {
    World(EMPTY_AUTH, [], [], map[], now)
  }

  function RevokedNow(w: World, auth: Auth, family: Family, now: real): map<Family, real> {
    if family in auth.revoked && family !in w.revokedAt then w.revokedAt[family := now] else w.revokedAt
  }

  function Apply(l: Lifetimes, w: World, step: Step): World {
    match step
    case DoIssue(subject, role, family, ids, now) =>
      var (a, p) := Issue(l, w.auth, subject, role, family, ids, now);
      w.(auth := a, pairs := w.pairs + [p], clock := now)
    case DoRotate(token, role, ids, t) =>
      var (a, r) := Rotate(l, w.auth, token, role, ids, t);
      if r.Ok? then w.(auth := a, pairs := w.pairs + [r.value], rotated := w.rotated + [token.jti], clock := t.pair)
      else if token.Refresh? then w.(auth := a, revokedAt := RevokedNow(w, a, token.family, t.spent), clock := t.pair)
      else w.(auth := a, clock := t.pair)
    case DoRevoke(token, now) =>
      var (a, _) := Revoke(w.auth, token, now);
      if token.Refresh? then w.(auth := a, revokedAt := RevokedNow(w, a, token.family, now), clock := now)
      else w.(auth := a, clock := now)
  }

  // ----- What a run may assume ----------------------------------------------

  ghost predicate FreshIds(w: World, ids: Ids) {
    && ids.access != ids.refresh
    && forall t :: t in w.auth.signed ==> t.jti != ids.access && t.jti != ids.refresh
  }

  ghost predicate FreshFamily(w: World, family: Family) {
    && family !in w.auth.revoked
    && forall k :: 0 <= k < |w.pairs| ==> w.pairs[k].refresh.Refresh? ==> w.pairs[k].refresh.family != family
  }

  /** The clock does not run backwards, and new identifiers are new. */
  ghost predicate Plausible(w: World, step: Step) {
    match step
    case DoIssue(_, _, family, ids, now) => w.clock <= now && FreshIds(w, ids) && FreshFamily(w, family)
    case DoRotate(_, _, ids, t) => w.clock <= t.decode <= t.spent <= t.pair && FreshIds(w, ids)
    case DoRevoke(_, now) => w.clock <= now
  }

  /** The token's expiry falls between the two clock readings of one rotation. */
  predicate Straddles(step: Step) {
    step.DoRotate? && step.t.decode < step.token.exp as real <= step.t.spent
  }

  ghost predicate PlausibleRun(l: Lifetimes, start: real, steps: seq<Step>)
    decreases |steps|
  {
    steps == [] ||
    var n := |steps| - 1;
    PlausibleRun(l, start, steps[..n]) && Plausible(Run(l, start, steps[..n]), steps[n])
  }

  function Run(l: Lifetimes, start: real, steps: seq<Step>): World {
    if steps == [] then Start(start)
    else Apply(l, Run(l, start, steps[..|steps| - 1]), steps[|steps| - 1])
  }

  // ----- Invariants ---------------------------------------------------------

  predicate IsPair(l: Lifetimes, p: Pair, signed: set<Token>, clock: real) {
    && p.access.Access? && p.refresh.Refresh?
    && p.access in signed && p.refresh in signed
    && p.access.exp == p.access.iat + l.access
    && p.access.iat as real <= clock
  }

  ghost predicate MadeWith(pairs: seq<Pair>, t: Token) {
    exists k :: 0 <= k < |pairs| && (t == pairs[k].access || t == pairs[k].refresh)
  }

  ghost predicate UniqueIds(signed: set<Token>) {
    forall s, t :: s in signed && t in signed && s.jti == t.jti ==> s == t
  }

  /** The signed tokens are those of the pairs made, and no two share an id. */
  ghost predicate PairsOk(l: Lifetimes, w: World) {
    && (forall k :: 0 <= k < |w.pairs| ==> IsPair(l, w.pairs[k], w.auth.signed, w.clock))
    && (forall t :: t in w.auth.signed ==> MadeWith(w.pairs, t))
    && UniqueIds(w.auth.signed)
  }

  predicate InSpent(a: Auth, t: Token)
    requires t.Refresh?
  {
    t.jti in a.spent && a.spent[t.jti] == (t.family, t.exp)
  }

  predicate HasRotated(w: World, jti: Jti) {
    jti in w.rotated
  }

  /** A token that rotated is remembered as spent until it expires; nothing else is. */
  ghost predicate Remembered(w: World) {
    && (forall t :: t in w.auth.signed && t.Refresh? && HasRotated(w, t.jti) ==>
          InSpent(w.auth, t) || t.exp as real <= w.clock)
    && (forall j :: j in w.auth.spent ==> HasRotated(w, j))
    && (forall j :: HasRotated(w, j) ==> exists t :: t in w.auth.signed && t.jti == j)
  }

  predicate Unspent(w: World, t: Token) {
    t.Refresh? && t in w.auth.signed && !HasRotated(w, t.jti)
  }

  /** A login has at most one refresh token that has not rotated. */
  ghost predicate OneUnspent(w: World, family: Family) {
    forall s, t :: Unspent(w, s) && Unspent(w, t) && s.family == family && t.family == family ==> s == t
  }

  /** Some refresh token of every login has not rotated. */
  ghost predicate SomeUnspent(w: World) {
    forall t :: t in w.auth.signed && t.Refresh? ==> HasUnspent(w, t.family)
  }

  ghost predicate HasUnspent(w: World, family: Family) {
    exists u :: Unspent(w, u) && u.family == family
  }

  ghost predicate EachOnce(w: World) {
    forall i, j :: 0 <= i < j < |w.rotated| ==> w.rotated[i] != w.rotated[j]
  }

  /**
   * A spent token is presented in a family that stands, and its expiry falls between the two readings: what
   * the branches of a rotation look at, said of the store before it.
   */
  predicate Repeats(w: World, step: Step) {
    && step.DoRotate? && step.token.Refresh? && step.token in w.auth.signed
    && step.token.family !in w.auth.revoked && step.token.jti in w.auth.spent
    && Straddles(step)
  }

  /** No pair was made in a family after it was revoked. */
  ghost predicate RevokedOk(w: World) {
    && w.revokedAt.Keys == w.auth.revoked
    && (forall f :: f in w.revokedAt ==> w.revokedAt[f] <= w.clock)
    && (forall k :: 0 <= k < |w.pairs| && w.pairs[k].refresh.Refresh? && w.pairs[k].refresh.family in w.revokedAt ==>
          w.pairs[k].access.iat as real <= w.revokedAt[w.pairs[k].refresh.family])
  }

  ghost predicate WorldOk(l: Lifetimes, w: World) {
    PairsOk(l, w) && Remembered(w) && RevokedOk(w)
  }

  // ----- Making a pair ------------------------------------------------------

  lemma FloorBelow(now: real)
    ensures now.Floor as real <= now
  {
  }

  lemma NewPairOk(l: Lifetimes, w: World, p: Pair, ids: Ids, now: real, w': World)
    requires PairsOk(l, w) && FreshIds(w, ids) && w.clock <= now
    requires p.access.Access? && p.refresh.Refresh? && p.access.jti == ids.access && p.refresh.jti == ids.refresh
    requires p.access.exp == p.access.iat + l.access && p.access.iat as real <= now
    requires w'.pairs == w.pairs + [p] && w'.auth.signed == w.auth.signed + {p.access, p.refresh} && w'.clock == now
    ensures PairsOk(l, w')
  {
    forall t | t in w'.auth.signed ensures MadeWith(w'.pairs, t) {
      if t in w.auth.signed {
        assert MadeWith(w.pairs, t);
        var k :| 0 <= k < |w.pairs| && (t == w.pairs[k].access || t == w.pairs[k].refresh);
        assert w'.pairs[k] == w.pairs[k];
      } else {
        assert w'.pairs[|w.pairs|] == p;
      }
    }
    forall k | 0 <= k < |w'.pairs| ensures IsPair(l, w'.pairs[k], w'.auth.signed, w'.clock) {
      if k < |w.pairs| {
        assert IsPair(l, w.pairs[k], w.auth.signed, w.clock);
      }
    }
  }

  lemma IssueKeepsOk(l: Lifetimes, w: World, step: Step)
    requires WorldOk(l, w) && step.DoIssue? && Plausible(w, step)
    ensures WorldOk(l, Apply(l, w, step))
  {
    hide PairsOk, MadeWith;
    var w' := Apply(l, w, step);
    var p := Issue(l, w.auth, step.subject, step.role, step.family, step.ids, step.now).1;
    FloorBelow(step.now);
    NewPairOk(l, w, p, step.ids, step.now, w');
    NoOneYet(l, w, step.family);
    assert Remembered(w') by {
      forall j | HasRotated(w', j) ensures exists t :: t in w'.auth.signed && t.jti == j {
        assert HasRotated(w, j);
        var t :| t in w.auth.signed && t.jti == j;
        assert t in w'.auth.signed;
      }
      assert !HasRotated(w, step.ids.refresh);
    }
  }

  lemma NoOneYet(l: Lifetimes, w: World, family: Family)
    requires PairsOk(l, w) && FreshFamily(w, family)
    ensures forall t :: Unspent(w, t) ==> t.family != family
  {
    forall t | Unspent(w, t) ensures t.family != family {
      assert MadeWith(w.pairs, t);
      var k :| 0 <= k < |w.pairs| && (t == w.pairs[k].access || t == w.pairs[k].refresh);
      assert IsPair(l, w.pairs[k], w.auth.signed, w.clock);
    }
  }

  // ----- Rotating -----------------------------------------------------------

  function RotatePair(l: Lifetimes, step: Step): Pair
    requires step.DoRotate? && step.token.Refresh?
  {
    MakePair(l, step.token.subject, if step.newRole.Some? then step.newRole.value else step.token.role,
             step.token.family, step.ids, step.t.pair)
  }

  /**
   * In every reachable state, an unexpired refresh token of an unrevoked family rotates exactly when it has
   * not rotated before or its expiry falls between the readings, and otherwise it revokes its family.
   */
  lemma RotateOutcome(l: Lifetimes, w: World, step: Step)
    requires WorldOk(l, w) && step.DoRotate? && Plausible(w, step)
    ensures var (a, r) := Rotate(l, w.auth, step.token, step.newRole, step.ids, step.t);
            var token := step.token;
            var usable := token.Refresh? && token in w.auth.signed && token.exp as real > step.t.decode
                          && token.family !in w.auth.revoked;
            && (r.Ok? <==> usable && (!HasRotated(w, token.jti) || Straddles(step)))
            && (r == Err(Reused) <==> usable && HasRotated(w, token.jti) && !Straddles(step))
            && (r.Ok? ==> r.value == RotatePair(l, step)
                          && a == Sign(w.auth.(spent := w.auth.spent[token.jti := (token.family, token.exp)]), r.value))
            && (r == Err(Reused) ==> a == w.auth.(revoked := w.auth.revoked + {token.family}))
            && (r.Err? && r != Err(Reused) ==> a == w.auth)
            && (Repeats(w, step) <==> r.Ok? && HasRotated(w, token.jti))
  {
    hide PairsOk, RevokedOk, MakePair;
    var token := step.token;
    if token.jti in w.auth.spent {
      assert (w.auth.spent - {token.jti})[token.jti := (if token.Refresh? then token.family else "", token.exp)]
          == w.auth.spent[token.jti := (if token.Refresh? then token.family else "", token.exp)];
    }
  }

  lemma FreshIsUnrotated(w: World, ids: Ids)
    requires Remembered(w) && FreshIds(w, ids)
    ensures !HasRotated(w, ids.access) && !HasRotated(w, ids.refresh)
  {
  }

  lemma RotatedOneMore(w: World, jti: Jti, w': World)
    requires w'.rotated == w.rotated + [jti]
    ensures forall j :: HasRotated(w', j) <==> HasRotated(w, j) || j == jti
  {
    assert w'.rotated[|w.rotated|] == jti;
  }

  lemma RotatedKeepsRemembered(l: Lifetimes, w: World, token: Token, p: Pair, ids: Ids, w': World)
    requires Remembered(w) && token.Refresh? && token in w.auth.signed && UniqueIds(w'.auth.signed) && w.clock <= w'.clock
    requires FreshIds(w, ids) && p.access.jti == ids.access && p.refresh.jti == ids.refresh
    requires w'.rotated == w.rotated + [token.jti]
    requires w'.auth.spent == w.auth.spent[token.jti := (token.family, token.exp)]
    requires w'.auth.signed == w.auth.signed + {p.access, p.refresh}
    ensures Remembered(w')
  {
    hide HasRotated;
    FreshIsUnrotated(w, ids);
    RotatedOneMore(w, token.jti, w');
    forall j | HasRotated(w', j) ensures exists t :: t in w'.auth.signed && t.jti == j {
      if HasRotated(w, j) {
        var t :| t in w.auth.signed && t.jti == j;
        assert t in w'.auth.signed;
      } else {
        assert token in w'.auth.signed;
      }
    }
    forall t | t in w'.auth.signed && t.Refresh? && HasRotated(w', t.jti)
      ensures InSpent(w'.auth, t) || t.exp as real <= w'.clock
    {
      if t.jti == token.jti {
        assert token in w'.auth.signed && t == token;
      } else {
        assert HasRotated(w, t.jti);
      }
    }
  }

  lemma AddedPairKeepsRevokedOk(w: World, p: Pair, w': World)
    requires RevokedOk(w) && p.refresh.Refresh? && p.refresh.family !in w.auth.revoked && w.clock <= w'.clock
    requires w'.pairs == w.pairs + [p] && w'.auth.revoked == w.auth.revoked && w'.revokedAt == w.revokedAt
    ensures RevokedOk(w')
  {
    assert forall f :: f in w.revokedAt <==> f in w.auth.revoked;
  }

  lemma RotateOkKeepsOk(l: Lifetimes, w: World, step: Step)
    requires WorldOk(l, w) && step.DoRotate? && Plausible(w, step)
    requires Rotate(l, w.auth, step.token, step.newRole, step.ids, step.t).1.Ok?
    ensures WorldOk(l, Apply(l, w, step))
  {
    hide Rotate, PairsOk, Remembered, RevokedOk, UniqueIds, FreshIds;
    RotateOutcome(l, w, step);
    FloorBelow(step.t.pair);
    var w' := Apply(l, w, step);
    var p := RotatePair(l, step);
    NewPairOk(l, w, p, step.ids, step.t.pair, w');
    PairsHaveUniqueIds(l, w');
    RotatedKeepsRemembered(l, w, step.token, p, step.ids, w');
    AddedPairKeepsRevokedOk(w, p, w');
  }

  lemma PairsHaveUniqueIds(l: Lifetimes, w: World)
    requires PairsOk(l, w)
    ensures UniqueIds(w.auth.signed)
  {
  }

  /** Revoking a family, or failing to, keeps everything. */
  lemma RevokedKeepsOk(l: Lifetimes, w: World, w': World, family: Family, now: real)
    requires WorldOk(l, w) && w.clock <= now <= w'.clock
    requires w'.auth == w.auth || w'.auth == w.auth.(revoked := w.auth.revoked + {family})
    requires w'.pairs == w.pairs && w'.rotated == w.rotated
    requires w'.revokedAt == RevokedNow(w, w'.auth, family, now)
    ensures WorldOk(l, w')
  {
    RevokedKeepsPairs(l, w, w');
    assert RevokedOk(w') by { hide PairsOk, Remembered; RevokedIsLate(l, w, w', family, now); }
    assert Remembered(w') by {
      assert forall j :: HasRotated(w', j) == HasRotated(w, j);
    }
  }

  lemma RevokedKeepsPairs(l: Lifetimes, w: World, w': World)
    requires PairsOk(l, w) && w.clock <= w'.clock && w'.auth.signed == w.auth.signed && w'.pairs == w.pairs
    ensures PairsOk(l, w')
  {
    forall k | 0 <= k < |w'.pairs| ensures IsPair(l, w'.pairs[k], w'.auth.signed, w'.clock) {
      assert IsPair(l, w.pairs[k], w.auth.signed, w.clock);
    }
  }

  lemma RevokedIsLate(l: Lifetimes, w: World, w': World, family: Family, now: real)
    requires WorldOk(l, w) && w.clock <= now <= w'.clock
    requires w'.auth == w.auth || w'.auth == w.auth.(revoked := w.auth.revoked + {family})
    requires w'.pairs == w.pairs && w'.revokedAt == RevokedNow(w, w'.auth, family, now)
    ensures RevokedOk(w')
  {
    hide Remembered, MadeWith, UniqueIds;
    forall k | 0 <= k < |w.pairs| ensures w.pairs[k].access.iat as real <= now {
      assert IsPair(l, w.pairs[k], w.auth.signed, w.clock);
    }
    assert forall f :: f in w.revokedAt <==> f in w.revokedAt.Keys;
  }

  lemma StepKeepsOk(l: Lifetimes, w: World, step: Step)
    requires WorldOk(l, w) && Plausible(w, step)
    ensures WorldOk(l, Apply(l, w, step))
  {
    hide WorldOk, Rotate, Issue, FreshIds, FreshFamily;
    match step
    case DoIssue(_, _, _, _, _) => IssueKeepsOk(l, w, step);
    case DoRotate(token, _, _, t) =>
      RotateOutcome(l, w, step);
      var (a, r) := Rotate(l, w.auth, token, step.newRole, step.ids, t);
      if r.Ok? {
        RotateOkKeepsOk(l, w, step);
      } else if token.Refresh? {
        RevokedKeepsOk(l, w, Apply(l, w, step), token.family, t.spent);
      } else {
        LaterIsOk(l, w, Apply(l, w, step));
      }
    case DoRevoke(token, now) =>
      if token.Refresh? {
        RevokedKeepsOk(l, w, Apply(l, w, step), token.family, now);
      } else {
        LaterIsOk(l, w, Apply(l, w, step));
      }
  }

  lemma LaterIsOk(l: Lifetimes, w: World, w': World)
    requires WorldOk(l, w) && w.clock <= w'.clock && w' == w.(clock := w'.clock)
    ensures WorldOk(l, w')
  {
    RevokedKeepsPairs(l, w, w');
    assert forall j :: HasRotated(w', j) == HasRotated(w, j);
  }

  lemma {:induction false} RunIsOk(l: Lifetimes, start: real, steps: seq<Step>)
    requires PlausibleRun(l, start, steps)
    ensures WorldOk(l, Run(l, start, steps))
  {
    hide WorldOk, Apply, Plausible;
    if steps == [] {
      StartIsOk(l, start);
    } else {
      var n := |steps| - 1;
      RunIsOk(l, start, steps[..n]);
      StepKeepsOk(l, Run(l, start, steps[..n]), steps[n]);
    }
  }

  lemma StartIsOk(l: Lifetimes, start: real)
    ensures WorldOk(l, Start(start))
  {
  }

  // ----- Single use ---------------------------------------------------------

  lemma EachOnceAfter(l: Lifetimes, w: World, step: Step)
    requires WorldOk(l, w) && Plausible(w, step)
    ensures EachOnce(Apply(l, w, step)) <==> EachOnce(w) && !Repeats(w, step)
  {
    hide WorldOk, Rotate, Issue, Plausible, Repeats, Straddles;
    if step.DoRotate? {
      RotateOutcome(l, w, step);
      var w' := Apply(l, w, step);
      if w'.rotated != w.rotated {
        assert w'.rotated == w.rotated + [step.token.jti];
        if HasRotated(w, step.token.jti) {
          var i :| 0 <= i < |w.rotated| && w.rotated[i] == step.token.jti;
          assert w'.rotated[i] == w'.rotated[|w.rotated|];
        }
        assert forall i :: 0 <= i < |w.rotated| ==> w'.rotated[i] == w.rotated[i];
      }
    } else {
      OnlyRotationsRepeat(w, step);
    }
  }

  lemma OnlyRotationsRepeat(w: World, step: Step)
    requires !step.DoRotate?
    ensures !Repeats(w, step)
  {
  }

  /** No rotation of the run was a repeat. */
  ghost predicate NeverRepeats(l: Lifetimes, start: real, steps: seq<Step>) {
    forall k :: 0 <= k < |steps| ==> !Repeats(Run(l, start, steps[..k]), steps[k])
  }

  lemma NeverRepeatsOneMore(l: Lifetimes, start: real, steps: seq<Step>)
    requires steps != []
    ensures var n := |steps| - 1;
            NeverRepeats(l, start, steps)
            <==> NeverRepeats(l, start, steps[..n]) && !Repeats(Run(l, start, steps[..n]), steps[n])
  {
    hide Run, Repeats;
    var n := |steps| - 1;
    assert forall k :: 0 <= k < n ==> steps[..n][..k] == steps[..k] && steps[..n][k] == steps[k];
  }

  /**
   * Over any run each refresh token id rotates at most once exactly when no step presented a spent token of
   * a standing family with its expiry between the two readings.
   */
  lemma {:induction false} EachTokenRotatesOnceExactly(l: Lifetimes, start: real, steps: seq<Step>)
    requires PlausibleRun(l, start, steps)
    ensures EachOnce(Run(l, start, steps)) <==> NeverRepeats(l, start, steps)
  {
    hide Plausible, Apply, WorldOk, Repeats, EachOnce, NeverRepeats;
    if steps == [] {
      NothingRotatedYet(l, start);
    } else {
      var n := |steps| - 1;
      EachTokenRotatesOnceExactly(l, start, steps[..n]);
      RunIsOk(l, start, steps[..n]);
      EachOnceAfter(l, Run(l, start, steps[..n]), steps[n]);
      NeverRepeatsOneMore(l, start, steps);
    }
  }

  lemma NothingRotatedYet(l: Lifetimes, start: real)
    ensures EachOnce(Start(start)) && NeverRepeats(l, start, [])
    ensures SomeUnspent(Start(start)) && forall f :: OneUnspent(Start(start), f)
  {
  }

  /** One clock reading per rotation is enough: then no expiry falls between two. */
  lemma EachTokenRotatesOnce(l: Lifetimes, start: real, steps: seq<Step>)
    requires PlausibleRun(l, start, steps) && forall k :: 0 <= k < |steps| ==> !Straddles(steps[k])
    ensures EachOnce(Run(l, start, steps))
  {
    hide PlausibleRun, Run, EachOnce, Straddles;
    EachTokenRotatesOnceExactly(l, start, steps);
  }

  // ----- One live token per login -------------------------------------------

  /** The unspent tokens after a rotation: those before it but the one spent, and the new one. */
  lemma UnspentAfterRotation(w: World, token: Token, p: Pair, ids: Ids, w': World)
    requires Remembered(w) && FreshIds(w, ids) && token.Refresh? && token in w.auth.signed
    requires p.access.Access? && p.refresh.Refresh? && p.access.jti == ids.access && p.refresh.jti == ids.refresh
    requires w'.rotated == w.rotated + [token.jti] && w'.auth.signed == w.auth.signed + {p.access, p.refresh}
    ensures forall t :: Unspent(w', t) <==> (Unspent(w, t) && t.jti != token.jti) || t == p.refresh
    ensures !Unspent(w, p.refresh)
  {
    hide HasRotated;
    FreshIsUnrotated(w, ids);
    RotatedOneMore(w, token.jti, w');
  }

  lemma UnspentAfterIssue(l: Lifetimes, w: World, step: Step)
    requires WorldOk(l, w) && step.DoIssue? && Plausible(w, step)
    ensures var w' := Apply(l, w, step);
            var p := Issue(l, w.auth, step.subject, step.role, step.family, step.ids, step.now).1;
            && (forall t :: Unspent(w', t) <==> Unspent(w, t) || t == p.refresh)
            && (forall t :: Unspent(w, t) ==> t.family != step.family)
            && p.refresh.Refresh? && p.refresh.family == step.family
            && w'.auth.signed == w.auth.signed + {p.access, p.refresh} && p.access.Access?
  {
    hide PairsOk, RevokedOk;
    FreshIsUnrotated(w, step.ids);
    NoOneYet(l, w, step.family);
    var w' := Apply(l, w, step);
    assert forall j :: HasRotated(w', j) == HasRotated(w, j);
  }

  lemma IssueKeepsUnspent(l: Lifetimes, w: World, step: Step, family: Family)
    requires WorldOk(l, w) && SomeUnspent(w) && step.DoIssue? && Plausible(w, step)
    ensures SomeUnspent(Apply(l, w, step))
    ensures OneUnspent(Apply(l, w, step), family) <==> OneUnspent(w, family)
  {
    hide WorldOk, HasRotated, Plausible, Issue;
    UnspentAfterIssue(l, w, step);
    var w' := Apply(l, w, step);
    var p := Issue(l, w.auth, step.subject, step.role, step.family, step.ids, step.now).1;
    assert Unspent(w', p.refresh);
    forall t | t in w'.auth.signed && t.Refresh? ensures HasUnspent(w', t.family) {
      if t in w.auth.signed {
        assert HasUnspent(w, t.family);
        var u :| Unspent(w, u) && u.family == t.family;
        assert Unspent(w', u);
      }
    }
    if OneUnspent(w', family) {
      assert forall t :: Unspent(w, t) ==> Unspent(w', t);
    }
    if OneUnspent(w, family) {
      assert forall t :: Unspent(w', t) && t != p.refresh ==> Unspent(w, t) && t.family != step.family;
    }
  }

  lemma RotationKeepsUnspent(w: World, token: Token, p: Pair, ids: Ids, w': World, family: Family)
    requires Remembered(w) && SomeUnspent(w) && UniqueIds(w.auth.signed) && FreshIds(w, ids)
    requires token.Refresh? && token in w.auth.signed
    requires p.access.Access? && p.refresh.Refresh? && p.access.jti == ids.access && p.refresh.jti == ids.refresh
    requires p.refresh.family == token.family
    requires w'.rotated == w.rotated + [token.jti] && w'.auth.signed == w.auth.signed + {p.access, p.refresh}
    ensures SomeUnspent(w')
    ensures OneUnspent(w', family) <==> OneUnspent(w, family) && !(HasRotated(w, token.jti) && token.family == family)
  {
    hide Remembered, FreshIds;
    UnspentAfterRotation(w, token, p, ids, w');
    SomeStayUnspent(w, token, p, w');
    assert HasUnspent(w, token.family);
    var u :| Unspent(w, u) && u.family == token.family;
    if token.family != family {
      assert forall t :: Unspent(w, t) && t.family == family ==> t.jti != token.jti;
      assert forall t :: t != p.refresh ==> (Unspent(w', t) <==> Unspent(w, t) && t.jti != token.jti);
    } else if HasRotated(w, token.jti) {
      assert Unspent(w', u) && Unspent(w', p.refresh) && u != p.refresh;
    } else {
      assert Unspent(w, token);
      OnlyThePresented(w, token, p, w');
    }
  }

  /** Another unspent token of the family stays beside the new one. */
  lemma OnlyThePresented(w: World, token: Token, p: Pair, w': World)
    requires UniqueIds(w.auth.signed) && Unspent(w, token) && !Unspent(w, p.refresh)
    requires p.refresh.Refresh? && p.refresh.family == token.family
    requires forall t :: Unspent(w', t) <==> (Unspent(w, t) && t.jti != token.jti) || t == p.refresh
    ensures OneUnspent(w', token.family) <==> OneUnspent(w, token.family)
  {
    assert Unspent(w', p.refresh);
    if OneUnspent(w', token.family) {
      forall s | Unspent(w, s) && s.family == token.family ensures s == token {
        assert s.jti != token.jti ==> Unspent(w', s);
      }
    }
    if OneUnspent(w, token.family) {
      forall s | Unspent(w', s) && s.family == token.family ensures s == p.refresh {
        assert s != p.refresh ==> Unspent(w, s);
      }
    }
  }

  lemma SomeStayUnspent(w: World, token: Token, p: Pair, w': World)
    requires SomeUnspent(w) && UniqueIds(w.auth.signed) && token.Refresh? && token in w.auth.signed
    requires p.access.Access? && p.refresh.Refresh? && p.refresh.family == token.family
    requires w'.auth.signed == w.auth.signed + {p.access, p.refresh}
    requires forall t :: Unspent(w', t) <==> (Unspent(w, t) && t.jti != token.jti) || t == p.refresh
    ensures SomeUnspent(w')
  {
    assert Unspent(w', p.refresh);
    forall t | t in w'.auth.signed && t.Refresh? ensures HasUnspent(w', t.family) {
      if t.family == token.family {
        assert p.refresh.family == t.family;
      } else {
        assert HasUnspent(w, t.family);
        var u :| Unspent(w, u) && u.family == t.family;
        assert Unspent(w', u);
      }
    }
  }

  lemma SameUnspent(w: World, w': World, family: Family)
    requires w'.rotated == w.rotated && w'.auth.signed == w.auth.signed && SomeUnspent(w)
    ensures SomeUnspent(w') && (OneUnspent(w', family) <==> OneUnspent(w, family))
  {
    assert forall t :: Unspent(w', t) == Unspent(w, t);
    forall t | t in w'.auth.signed && t.Refresh? ensures HasUnspent(w', t.family) {
      assert HasUnspent(w, t.family);
      var u :| Unspent(w, u) && u.family == t.family;
      assert Unspent(w', u);
    }
  }

  lemma UnspentAfter(l: Lifetimes, w: World, step: Step, family: Family)
    requires WorldOk(l, w) && SomeUnspent(w) && Plausible(w, step)
    ensures SomeUnspent(Apply(l, w, step))
    ensures OneUnspent(Apply(l, w, step), family)
            <==> OneUnspent(w, family) && !(Repeats(w, step) && step.token.family == family)
  {
    hide SomeUnspent, OneUnspent, Rotate, Issue, Repeats, Remembered, UniqueIds, FreshIds, RevokedOk, Straddles;
    match step
    case DoIssue(_, _, _, _, _) => OnlyRotationsRepeat(w, step); IssueKeepsUnspent(l, w, step, family);
    case DoRotate(token, role, ids, t) =>
      RotateOutcome(l, w, step);
      var w' := Apply(l, w, step);
      if Rotate(l, w.auth, token, role, ids, t).1.Ok? {
        PairsHaveUniqueIds(l, w);
        RotationKeepsUnspent(w, token, RotatePair(l, step), ids, w', family);
      } else {
        SameUnspent(w, w', family);
      }
    case DoRevoke(_, _) =>
      OnlyRotationsRepeat(w, step);
      SameUnspent(w, Apply(l, w, step), family);
  }

  /** No rotation of this login's tokens was a repeat. */
  ghost predicate NeverRepeatsIn(l: Lifetimes, start: real, steps: seq<Step>, family: Family) {
    forall k :: 0 <= k < |steps| && steps[k].DoRotate? && steps[k].token.Refresh? && steps[k].token.family == family
      ==> !Repeats(Run(l, start, steps[..k]), steps[k])
  }

  /** A login has at most one unspent refresh token exactly when no rotation of its tokens was a repeat. */
  lemma {:induction false} OneUnspentExactly(l: Lifetimes, start: real, steps: seq<Step>, family: Family)
    requires PlausibleRun(l, start, steps)
    ensures SomeUnspent(Run(l, start, steps))
    ensures OneUnspent(Run(l, start, steps), family) <==> NeverRepeatsIn(l, start, steps, family)
  {
    hide Plausible, Apply, WorldOk, Repeats, OneUnspent, SomeUnspent, NeverRepeatsIn;
    if steps == [] {
      NothingRotatedYet(l, start);
      NeverRepeatsInNothing(l, start, family);
    } else {
      var n := |steps| - 1;
      OneUnspentExactly(l, start, steps[..n], family);
      RunIsOk(l, start, steps[..n]);
      UnspentAfter(l, Run(l, start, steps[..n]), steps[n], family);
      NeverRepeatsInOneMore(l, start, steps, family);
    }
  }

  lemma NeverRepeatsInNothing(l: Lifetimes, start: real, family: Family)
    ensures NeverRepeatsIn(l, start, [], family)
  {
  }

  lemma NeverRepeatsInOneMore(l: Lifetimes, start: real, steps: seq<Step>, family: Family)
    requires steps != []
    ensures var n := |steps| - 1;
            NeverRepeatsIn(l, start, steps, family)
            <==> NeverRepeatsIn(l, start, steps[..n], family)
                 && !(Repeats(Run(l, start, steps[..n]), steps[n]) && steps[n].token.family == family)
  {
    hide Run, Straddles;
    var n := |steps| - 1;
    assert forall k :: 0 <= k < n ==> steps[..n][..k] == steps[..k] && steps[..n][k] == steps[k];
  }

  /** A refresh token that would rotate now. */
  predicate LiveAt(w: World, t: Token, now: real) {
    t.Refresh? && t in w.auth.signed && t.family !in w.auth.revoked && now < t.exp as real && !HasRotated(w, t.jti)
  }

  /** A login has at most one live refresh token, whatever happened to the tokens of other logins. */
  lemma OneLiveToken(l: Lifetimes, start: real, steps: seq<Step>, s: Token, t: Token, now: real)
    requires PlausibleRun(l, start, steps)
    requires LiveAt(Run(l, start, steps), s, now) && LiveAt(Run(l, start, steps), t, now) && s.family == t.family
    requires NeverRepeatsIn(l, start, steps, s.family)
    ensures s == t
  {
    hide PlausibleRun, Run, NeverRepeatsIn, HasRotated;
    OneUnspentExactly(l, start, steps, s.family);
    assert Unspent(Run(l, start, steps), s) && Unspent(Run(l, start, steps), t);
  }

  /**
   * When the two readings differ, a spent token whose entry is still remembered rotates again exactly
   * when its expiry falls between them: the entry is forgotten after the token was still accepted.
   */
  lemma SpentTokenRotatesAgainExactly(l: Lifetimes, w: World, step: Step)
    requires step.DoRotate? && step.token.Refresh? && step.token in w.auth.signed
    requires InSpent(w.auth, step.token) && step.token.family !in w.auth.revoked
    ensures Rotate(l, w.auth, step.token, step.newRole, step.ids, step.t).1.Ok? <==> Straddles(step)
  {
    hide MakePair;
  }

  // ----- Revocation ---------------------------------------------------------

  lemma StepKeepsRevoked(l: Lifetimes, w: World, step: Step)
    ensures w.auth.revoked <= Apply(l, w, step).auth.revoked
    ensures forall f :: f in w.revokedAt ==>
              f in Apply(l, w, step).revokedAt && Apply(l, w, step).revokedAt[f] == w.revokedAt[f]
  {
    hide MakePair;
  }

  /** A revoked family stays revoked, and the time of its first revocation is kept. */
  lemma {:induction false} RevokedForever(l: Lifetimes, start: real, steps: seq<Step>, i: nat, family: Family)
    requires i <= |steps| && family in Run(l, start, steps[..i]).auth.revoked
    ensures family in Run(l, start, steps).auth.revoked
    ensures family in Run(l, start, steps[..i]).revokedAt ==>
              family in Run(l, start, steps).revokedAt
              && Run(l, start, steps).revokedAt[family] == Run(l, start, steps[..i]).revokedAt[family]
  {
    hide Apply;
    if i == |steps| {
      assert steps[..i] == steps;
    } else {
      var n := |steps| - 1;
      assert steps[..n][..i] == steps[..i];
      RevokedForever(l, start, steps[..n], i, family);
      StepKeepsRevoked(l, Run(l, start, steps[..n]), steps[n]);
    }
  }

  /** Presenting a spent, unexpired token leaves its family without a live refresh token for ever. */
  lemma ReplayEndsFamily(l: Lifetimes, start: real, steps: seq<Step>, i: nat, t: Token, now: real)
    requires PlausibleRun(l, start, steps)
    requires i < |steps| && steps[i].DoRotate? && !Straddles(steps[i])
    requires var w, token := Run(l, start, steps[..i]), steps[i].token;
             token.Refresh? && token in w.auth.signed && HasRotated(w, token.jti) && steps[i].t.decode < token.exp as real
    requires t.Refresh? && t.family == steps[i].token.family
    ensures !LiveAt(Run(l, start, steps), t, now)
  {
    hide Apply, WorldOk, Straddles, HasRotated, Plausible;
    var before, step := steps[..i], steps[i];
    var w := Run(l, start, before);
    PlausiblePrefix(l, start, steps, i);
    RunIsOk(l, start, before);
    assert steps[..i + 1][..i] == before;
    SpentTokenRevokes(l, w, step);
    RevokedForever(l, start, steps, i + 1, step.token.family);
  }

  lemma SpentTokenRevokes(l: Lifetimes, w: World, step: Step)
    requires WorldOk(l, w) && step.DoRotate? && Plausible(w, step) && !Straddles(step)
    requires step.token.Refresh? && step.token in w.auth.signed && HasRotated(w, step.token.jti)
    requires step.t.decode < step.token.exp as real
    ensures step.token.family in Apply(l, w, step).auth.revoked
  {
    hide WorldOk, Rotate, Straddles, HasRotated, Plausible;
    RotateOutcome(l, w, step);
  }

  lemma {:induction false} PlausiblePrefix(l: Lifetimes, start: real, steps: seq<Step>, i: nat)
    requires PlausibleRun(l, start, steps) && i < |steps|
    ensures PlausibleRun(l, start, steps[..i]) && Plausible(Run(l, start, steps[..i]), steps[i])
  {
    hide Plausible, Apply;
    var n := |steps| - 1;
    if i < n {
      PlausiblePrefix(l, start, steps[..n], i);
      assert steps[..n][..i] == steps[..i];
    }
  }

  /**
   * A revocation has a bounded tail. From the time a family is revoked plus the access lifetime on,
   * no access token of that login verifies, whenever its pair was made.
   */
  lemma RevocationTail(l: Lifetimes, start: real, steps: seq<Step>, k: nat, now: real)
    requires PlausibleRun(l, start, steps)
    requires var w := Run(l, start, steps);
             && k < |w.pairs| && w.pairs[k].refresh.Refresh? && w.pairs[k].refresh.family in w.revokedAt
             && now >= w.revokedAt[w.pairs[k].refresh.family] + l.access as real
    ensures VerifyAccess(Run(l, start, steps).auth, Run(l, start, steps).pairs[k].access, now) == Err(Expired)
  {
    hide Run, PlausibleRun, Remembered, MadeWith, UniqueIds;
    RunIsOk(l, start, steps);
    var w := Run(l, start, steps);
    assert IsPair(l, w.pairs[k], w.auth.signed, w.clock);
  }

  /** No call makes a pair in a revoked family, whatever the clocks read; a login's family is a new one. */
  lemma NoPairAfterRevocation(l: Lifetimes, w: World, step: Step)
    requires step.DoIssue? ==> step.family !in w.auth.revoked
    ensures var w' := Apply(l, w, step);
            && w.pairs <= w'.pairs
            && forall k :: |w.pairs| <= k < |w'.pairs| ==>
                 w'.pairs[k].refresh.Refresh? && w'.pairs[k].refresh.family !in w.auth.revoked
  {
  }

  // ----- A token that rotates twice -----------------------------------------

  /** The refresh token of the login below: its second rotation reads the clock on both sides of the expiry. */
  function Twice(l: Lifetimes): Token {
    Refresh("ana", "viewer", "login", 0, l.refresh, "r1")
  }

  function TwiceSteps(l: Lifetimes): seq<Step> {
    var exp := l.refresh as real;
    [DoIssue("ana", "viewer", "login", Ids("a1", "r1"), 0.0),
     DoRotate(Twice(l), None, Ids("a2", "r2"), Clock(1.0, 1.0, 1.0)),
     DoRotate(Twice(l), None, Ids("a3", "r3"), Clock(exp - 0.5, exp, exp))]
  }

  function TwicePair(l: Lifetimes, at: int, ids: Ids): Pair {
    Pair(Access("ana", "viewer", at, at + l.access, ids.access),
         Refresh("ana", "viewer", "login", at, at + l.refresh, ids.refresh))
  }

  function TwiceWorld(l: Lifetimes, pairs: seq<Pair>, signed: set<Token>, rotated: seq<Jti>, clock: real): World {
    World(Auth(if rotated == [] then map[] else map["r1" := ("login", l.refresh)], {}, signed), pairs, rotated, map[], clock)
  }

  lemma RunIsAt(l: Lifetimes, start: real, steps: seq<Step>, k: nat)
    requires k < |steps|
    ensures Run(l, start, steps[..k + 1]) == Apply(l, Run(l, start, steps[..k]), steps[k])
    ensures Run(l, start, steps[..0]) == Start(start)
  {
    assert steps[..k + 1][..k] == steps[..k] && steps[..k + 1][k] == steps[k];
  }

  lemma TwiceRuns(l: Lifetimes)
    requires l.refresh >= 2
    ensures var steps, exp := TwiceSteps(l), l.refresh as real;
            var p1, p2, p3 := TwicePair(l, 0, Ids("a1", "r1")), TwicePair(l, 1, Ids("a2", "r2")), TwicePair(l, l.refresh, Ids("a3", "r3"));
            && Run(l, 0.0, steps[..0]) == Start(0.0)
            && Run(l, 0.0, steps[..1]) == TwiceWorld(l, [p1], {p1.access, p1.refresh}, [], 0.0)
            && Run(l, 0.0, steps[..2])
               == TwiceWorld(l, [p1, p2], {p1.access, p1.refresh} + {p2.access, p2.refresh}, ["r1"], 1.0)
            && Run(l, 0.0, steps)
               == TwiceWorld(l, [p1, p2, p3], {p1.access, p1.refresh} + {p2.access, p2.refresh} + {p3.access, p3.refresh},
                             ["r1", "r1"], exp)
  {
    var steps := TwiceSteps(l);
    var p1, p2, p3 := TwicePair(l, 0, Ids("a1", "r1")), TwicePair(l, 1, Ids("a2", "r2")), TwicePair(l, l.refresh, Ids("a3", "r3"));
    hide Run;
    assert steps[..3] == steps;
    RunIsAt(l, 0.0, steps, 0);
    RunIsAt(l, 0.0, steps, 1);
    RunIsAt(l, 0.0, steps, 2);
    var w1 := Run(l, 0.0, steps[..1]);
    assert w1 == Apply(l, Start(0.0), steps[0]);
    assert {} + {p1.access, p1.refresh} == {p1.access, p1.refresh};
    assert w1 == TwiceWorld(l, [p1], {p1.access, p1.refresh}, [], 0.0);
    var w2 := Run(l, 0.0, steps[..2]);
    assert w2 == Apply(l, w1, steps[1]);
    assert Twice(l) == p1.refresh;
    assert map[]["r1" := ("login", l.refresh)] == map["r1" := ("login", l.refresh)];
    assert w2 == TwiceWorld(l, [p1, p2], {p1.access, p1.refresh} + {p2.access, p2.refresh}, ["r1"], 1.0);
    var w3 := Run(l, 0.0, steps);
    assert w3 == Apply(l, w2, steps[2]);
    var spent: map<Jti, (Family, int)> := map["r1" := ("login", l.refresh)];
    assert (spent - {"r1"})["r1" := ("login", l.refresh)] == spent;
  }

  /**
   * A run from the start in which one refresh token rotates twice: each step is plausible, and at the end its
   * login has two live refresh tokens.
   */
  lemma TokenRotatesTwice(l: Lifetimes)
    requires l.refresh >= 2
    ensures var w := Run(l, 0.0, TwiceSteps(l));
            var s, t := Refresh("ana", "viewer", "login", 1, 1 + l.refresh, "r2"),
                        Refresh("ana", "viewer", "login", l.refresh, l.refresh + l.refresh, "r3");
            && PlausibleRun(l, 0.0, TwiceSteps(l))
            && w.rotated == ["r1", "r1"]
            && LiveAt(w, s, l.refresh as real) && LiveAt(w, t, l.refresh as real)
  {
    hide Run;
    TwiceRuns(l);
    var steps := TwiceSteps(l);
    assert steps[..3] == steps && steps[..3][..2] == steps[..2] && steps[..2][..1] == steps[..1] && steps[..1][..0] == [];
    assert PlausibleRun(l, 0.0, steps[..0]);
    assert PlausibleRun(l, 0.0, steps[..1]);
    assert PlausibleRun(l, 0.0, steps[..2]);
    assert PlausibleRun(l, 0.0, steps[..3]);
  }
}
