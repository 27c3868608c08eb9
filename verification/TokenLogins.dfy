/** Logins over runs of the token service: what a pair says, what verifies, and what a logout ends. */
module TokenLogins {
  import opened Wrappers
  import opened Tokens
  import opened TokenRuns

  // ----- Logging out --------------------------------------------------------

  /** A logout is accepted exactly for a signed refresh token that has not expired, and a refusal changes nothing. */
  lemma RevokesExactly(a: Auth, token: Token, now: real)
    ensures var (a', r) := Revoke(a, token, now);
            && (r.Ok? <==> token in a.signed && token.Refresh? && now < token.exp as real)
            && (r == Err(Expired) <==> token in a.signed && token.exp as real <= now)
            && (r.Err? && r.error != Expired ==> r.error == Malformed)
            && (r.Err? ==> a' == a)
            && (r.Ok? ==> forall f :: f in a'.revoked <==> f in a.revoked || f == token.family)
            && a'.spent == a.spent && a'.signed == a.signed
  {
  }

  /** The step is a logout that is accepted. */
  predicate LogsOut(w: World, step: Step) {
    step.DoRevoke? && step.token.Refresh? && step.token in w.auth.signed && step.now < step.token.exp as real
  }

  lemma LogoutRevokes(l: Lifetimes, w: World, step: Step)
    requires LogsOut(w, step)
    ensures var w' := Apply(l, w, step);
            && step.token.family in w'.auth.revoked
            && w'.pairs == w.pairs && w'.rotated == w.rotated
            && w'.auth.signed == w.auth.signed && w'.auth.spent == w.auth.spent
            && forall f :: f != step.token.family ==> (f in w'.auth.revoked <==> f in w.auth.revoked)
  {
    hide Revoke;
    RevokesExactly(w.auth, step.token, step.now);
  }

  lemma RunTo(l: Lifetimes, start: real, steps: seq<Step>, i: nat)
    requires i < |steps|
    ensures Run(l, start, steps[..i + 1]) == Apply(l, Run(l, start, steps[..i]), steps[i])
  {
    assert steps[..i + 1][..i] == steps[..i];
  }

  /**
   * After an accepted logout no refresh token of that login is ever live again and none rotates, whoever holds
   * it; the standing of every other login and of every token is what it was.
   */
  lemma LogoutEndsLogin(l: Lifetimes, start: real, steps: seq<Step>, i: nat, t: Token, now: real, role: Option<string>, ids: Ids, c: Clock)
    requires i < |steps| && LogsOut(Run(l, start, steps[..i]), steps[i])
    requires t.Refresh? && t.family == steps[i].token.family
    ensures !LiveAt(Run(l, start, steps), t, now)
    ensures var (a, r) := Rotate(l, Run(l, start, steps).auth, t, role, ids, c);
            && r.Err? && a == Run(l, start, steps).auth
            && (t in a.signed && c.decode < t.exp as real ==> r.error == RevokedFamily)
    ensures var w, w' := Run(l, start, steps[..i]), Run(l, start, steps[..i + 1]);
            && w'.pairs == w.pairs && w'.rotated == w.rotated && w'.auth.signed == w.auth.signed && w'.auth.spent == w.auth.spent
            && forall f :: f != t.family ==> (f in w'.auth.revoked <==> f in w.auth.revoked)
  {
    hide Run, Apply, MakePair, Sign, IsSpent, HasRotated;
    RunTo(l, start, steps, i);
    LogoutRevokes(l, Run(l, start, steps[..i]), steps[i]);
    RevokedForever(l, start, steps, i + 1, t.family);
  }

  /** An access lifetime after an accepted logout, no access token of that login verifies. */
  lemma LogoutEndsAccess(l: Lifetimes, start: real, steps: seq<Step>, i: nat, k: nat, now: real)
    requires PlausibleRun(l, start, steps)
    requires i < |steps| && LogsOut(Run(l, start, steps[..i]), steps[i])
    requires var w := Run(l, start, steps);
             k < |w.pairs| && w.pairs[k].refresh.Refresh? && w.pairs[k].refresh.family == steps[i].token.family
    requires now >= steps[i].now + l.access as real
    ensures VerifyAccess(Run(l, start, steps).auth, Run(l, start, steps).pairs[k].access, now).Err?
  {
    hide Run, Apply, PlausibleRun, Plausible, PairsOk, Remembered, VerifyAccess;
    var family := steps[i].token.family;
    RunTo(l, start, steps, i);
    LogoutRevokes(l, Run(l, start, steps[..i]), steps[i]);
    PlausiblePrefix(l, start, steps, i);
    PlausibleTo(l, start, steps, i);
    RunIsOk(l, start, steps[..i + 1]);
    var w' := Run(l, start, steps[..i + 1]);
    assert family in w'.revokedAt.Keys;
    LogoutClock(l, Run(l, start, steps[..i]), steps[i]);
    RevokedForever(l, start, steps, i + 1, family);
    RevocationTail(l, start, steps, k, now);
  }

  lemma PlausibleTo(l: Lifetimes, start: real, steps: seq<Step>, i: nat)
    requires PlausibleRun(l, start, steps) && i < |steps|
    ensures PlausibleRun(l, start, steps[..i + 1])
  {
    if i + 1 == |steps| {
      assert steps[..i + 1] == steps;
    } else {
      PlausiblePrefix(l, start, steps, i + 1);
    }
  }

  lemma LogoutClock(l: Lifetimes, w: World, step: Step)
    requires step.DoRevoke?
    ensures Apply(l, w, step).clock == step.now
  {
    hide Revoke;
  }

  // ----- What an access token proves ----------------------------------------

  /**
   * In every run an access token verifies exactly when it is that of a pair the service made and has not
   * expired; a refresh token never does.
   */
  lemma AccessVerifiesExactly(l: Lifetimes, start: real, steps: seq<Step>, token: Token, now: real)
    requires PlausibleRun(l, start, steps)
    ensures var w := Run(l, start, steps);
            var r := VerifyAccess(w.auth, token, now);
            var made := exists k :: 0 <= k < |w.pairs| && w.pairs[k].access == token;
            && (r.Ok? <==> made && now < token.exp as real)
            && (r.Ok? ==> r.value == token && token.Access?)
            && (made && token.exp as real <= now ==> r == Err(Expired))
            && (token.Refresh? ==> r == Err(Malformed) || r == Err(Expired))
  {
    hide Run, PlausibleRun, Remembered, RevokedOk, UniqueIds;
    RunIsOk(l, start, steps);
    var w := Run(l, start, steps);
    if token in w.auth.signed {
      assert MadeWith(w.pairs, token);
      var k :| 0 <= k < |w.pairs| && (token == w.pairs[k].access || token == w.pairs[k].refresh);
      assert IsPair(l, w.pairs[k], w.auth.signed, w.clock);
    }
    assert forall k :: 0 <= k < |w.pairs| ==> IsPair(l, w.pairs[k], w.auth.signed, w.clock);
  }

  // ----- What a pair says ---------------------------------------------------

  /** Both tokens of a pair name one subject and one role, begin at one whole second, and last their lifetimes. */
  ghost predicate IsTwin(l: Lifetimes, p: Pair) {
    && p.access.Access? && p.refresh.Refresh?
    && p.access.subject == p.refresh.subject && p.access.role == p.refresh.role && p.access.iat == p.refresh.iat
    && p.access.exp - p.access.iat == l.access && p.refresh.exp - p.refresh.iat == l.refresh
  }

  /** The second a clock shows. */
  predicate SecondOf(iat: int, now: real) {
    iat as real <= now < (iat + 1) as real
  }

  /** A login makes one pair, for its subject, role and family. */
  lemma LoginMakes(l: Lifetimes, w: World, step: Step)
    requires step.DoIssue?
    ensures var w', n := Apply(l, w, step), |w.pairs|;
            && |w'.pairs| == n + 1 && w'.pairs[..n] == w.pairs
            && var p := w'.pairs[n];
               && IsTwin(l, p) && SecondOf(p.access.iat, step.now)
               && p.access.subject == step.subject && p.access.role == step.role && p.refresh.family == step.family
               && p.access.jti == step.ids.access && p.refresh.jti == step.ids.refresh
  {
  }

  /** A rotation makes a pair for the subject and family of its token, with the new role if it is given one, or none. */
  lemma RotationMakes(l: Lifetimes, w: World, step: Step)
    requires step.DoRotate?
    ensures var w', n := Apply(l, w, step), |w.pairs|;
            && (w'.pairs == w.pairs || (|w'.pairs| == n + 1 && w'.pairs[..n] == w.pairs))
            && (|w'.pairs| == n + 1 ==>
                  var p := w'.pairs[n];
                  && step.token.Refresh? && step.token in w.auth.signed
                  && IsTwin(l, p) && SecondOf(p.access.iat, step.t.pair)
                  && p.access.subject == step.token.subject && p.refresh.family == step.token.family
                  && p.access.role == (match step.newRole case Some(role) => role case None => step.token.role)
                  && p.access.jti == step.ids.access && p.refresh.jti == step.ids.refresh)
  {
    hide IsSpent;
  }

  /** Some login of the run began the family, for the subject. */
  ghost predicate Began(steps: seq<Step>, family: Family, subject: string) {
    exists j :: 0 <= j < |steps| && steps[j].DoIssue? && steps[j].family == family && steps[j].subject == subject
  }

  ghost predicate OfLogin(l: Lifetimes, steps: seq<Step>, p: Pair) {
    IsTwin(l, p) && Began(steps, p.refresh.family, p.refresh.subject)
  }

  lemma BeganStays(steps: seq<Step>, family: Family, subject: string)
    requires steps != [] && Began(steps[..|steps| - 1], family, subject)
    ensures Began(steps, family, subject)
  {
    var n := |steps| - 1;
    var j :| 0 <= j < n && steps[..n][j].DoIssue? && steps[..n][j].family == family && steps[..n][j].subject == subject;
    assert steps[j].DoIssue? && steps[j].family == family && steps[j].subject == subject;
  }

  /** Every pair of a run is for the subject that began its family, however often the login was rotated. */
  lemma {:induction false} PairsAreOfTheirLogin(l: Lifetimes, start: real, steps: seq<Step>)
    requires PlausibleRun(l, start, steps)
    ensures var w := Run(l, start, steps); forall k :: 0 <= k < |w.pairs| ==> OfLogin(l, steps, w.pairs[k])
  {
    hide Plausible, Apply, Began, Remembered, RevokedOk, UniqueIds, IsPair;
    if steps != [] {
      var n := |steps| - 1;
      var before, step := steps[..n], steps[n];
      PairsAreOfTheirLogin(l, start, before);
      RunIsOk(l, start, before);
      var w, w' := Run(l, start, before), Run(l, start, steps);
      MakesAtMostOne(l, w, step);
      forall k | 0 <= k < |w'.pairs| ensures OfLogin(l, steps, w'.pairs[k]) {
        if k < |w.pairs| {
          assert w'.pairs[k] == w.pairs[k];
          BeganStays(steps, w.pairs[k].refresh.family, w.pairs[k].refresh.subject);
        } else {
          NewPairIsOfLogin(l, w, steps);
        }
      }
    }
  }

  lemma MakesAtMostOne(l: Lifetimes, w: World, step: Step)
    ensures var w' := Apply(l, w, step);
            w'.pairs == w.pairs || (|w'.pairs| == |w.pairs| + 1 && w'.pairs[..|w.pairs|] == w.pairs)
  {
    hide MakePair;
  }

  lemma NewPairIsOfLogin(l: Lifetimes, w: World, steps: seq<Step>)
    requires steps != [] && (forall t :: t in w.auth.signed ==> MadeWith(w.pairs, t))
    requires forall k :: 0 <= k < |w.pairs| ==> OfLogin(l, steps[..|steps| - 1], w.pairs[k])
    requires |Apply(l, w, steps[|steps| - 1]).pairs| == |w.pairs| + 1
    ensures OfLogin(l, steps, Apply(l, w, steps[|steps| - 1]).pairs[|w.pairs|])
  {
    hide Apply;
    var n := |steps| - 1;
    var step := steps[n];
    match step
    case DoIssue(_, _, _, _, _) => LoginMakes(l, w, step);
    case DoRotate(token, _, _, _) =>
      RotationMakes(l, w, step);
      assert MadeWith(w.pairs, token);
      var k :| 0 <= k < |w.pairs| && (token == w.pairs[k].access || token == w.pairs[k].refresh);
      assert OfLogin(l, steps[..n], w.pairs[k]);
      BeganStays(steps, token.family, token.subject);
    case DoRevoke(_, _) => LogoutMakesNone(l, w, step);
  }

  lemma LogoutMakesNone(l: Lifetimes, w: World, step: Step)
    requires step.DoRevoke?
    ensures Apply(l, w, step).pairs == w.pairs
  {
  }

  // ----- A logout, and a rotation after it -----------------------------------

  function LogoutSteps(l: Lifetimes): seq<Step> {
    [DoIssue("ana", "viewer", "login", Ids("a1", "r1"), 0.0), DoRevoke(Twice(l), 1.0)]
  }

  /** Two seconds after a login and one after its logout, its refresh token is refused as revoked. */
  lemma RotationAfterLogout(l: Lifetimes)
    requires l.refresh >= 3
    ensures var w := Run(l, 0.0, LogoutSteps(l));
            && PlausibleRun(l, 0.0, LogoutSteps(l))
            && LiveAt(Run(l, 0.0, LogoutSteps(l)[..1]), Twice(l), 1.0)
            && Rotate(l, w.auth, Twice(l), None, Ids("a2", "r2"), Clock(2.0, 2.0, 2.0)).1 == Err(RevokedFamily)
  {
    hide Run;
    var steps, t := LogoutSteps(l), Twice(l);
    assert steps[..2] == steps && steps[..2][..1] == steps[..1] && steps[..1][..0] == [];
    RunIsAt(l, 0.0, steps, 0);
    RunIsAt(l, 0.0, steps, 1);
    var w1 := Run(l, 0.0, steps[..1]);
    assert w1 == Apply(l, Start(0.0), steps[0]);
    assert t in w1.auth.signed;
    assert LogsOut(w1, steps[1]);
    LogoutEndsLogin(l, 0.0, steps, 1, t, 1.0, None, Ids("a2", "r2"), Clock(2.0, 2.0, 2.0));
    assert PlausibleRun(l, 0.0, steps[..0]);
    assert PlausibleRun(l, 0.0, steps[..1]);
    assert PlausibleRun(l, 0.0, steps[..2]);
  }
}
