/** The token service and its refresh store as they run. */
module TokenServiceObject {
  import opened Wrappers
  import opened Tokens

  class InMemoryRefreshStore {
    var spent: map<Jti, (Family, int)>
    var revoked: set<Family>

    constructor ()
      ensures spent == map[] && revoked == {}
    {
      spent, revoked := map[], {};
    }

    /** Whether a token id was spent; asking after its expiry forgets it. */
    method LookUp(jti: Jti, now: real) returns (isSpent: bool)
      modifies this`spent
      ensures forall signed: set<Token> ::
                (Auth(spent, revoked, signed), isSpent) == IsSpent(Auth(old(spent), revoked, signed), jti, now)
    {
      if jti !in spent {
        return false;
      }
      if spent[jti].1 as real <= now {
        spent := spent - {jti};
        return false;
      }
      isSpent := true;
    }

    method MarkSpent(jti: Jti, family: Family, exp: int)
      modifies this`spent
      ensures spent == old(spent)[jti := (family, exp)]
    {
      spent := spent[jti := (family, exp)];
    }

    method RevokeFamily(family: Family)
      modifies this`revoked
      ensures revoked == old(revoked) + {family}
    {
      revoked := revoked + {family};
    }
  }

  class TokenService {
    const store: InMemoryRefreshStore
    const lifetimes: Lifetimes
    /** The tokens whose signature this service's secret vouches for. */
    var signed: set<Token>

    constructor (store: InMemoryRefreshStore, lifetimes: Lifetimes)
      ensures this.store == store && this.lifetimes == lifetimes && signed == {}
    {
      this.store, this.lifetimes, signed := store, lifetimes, {};
    }

    function State(): Auth
      reads this, store
    {
      Auth(store.spent, store.revoked, signed)
    }

    method NewPair(subject: string, role: string, family: Family, ids: Ids, now: real) returns (p: Pair)
      modifies this`signed
      ensures p == MakePair(lifetimes, subject, role, family, ids, now)
      ensures State() == Sign(old(State()), p)
    {
      var issued := now.Floor;
      var access := Access(subject, role, issued, issued + lifetimes.access, ids.access);
      var refresh := Refresh(subject, role, family, issued, issued + lifetimes.refresh, ids.refresh);
      signed := signed + {access, refresh};
      p := Pair(access, refresh);
    }

    method IssuePair(subject: string, role: string, family: Family, ids: Ids, now: real) returns (p: Pair)
      modifies this`signed
      ensures (State(), p) == Issue(lifetimes, old(State()), subject, role, family, ids, now)
    {
      p := NewPair(subject, role, family, ids, now);
    }

    method VerifyAccessToken(token: Token, now: real) returns (r: Result<Token, TokenError>)
      ensures r == VerifyAccess(State(), token, now)
    {
      var decoded := Decode(State(), token, now);
      if decoded.Ok? && !token.Access? {
        return Err(Malformed);
      }
      r := decoded;
    }

    /** Spend a refresh token for a new pair; a spent one revokes its family. */
    method RotateToken(token: Token, role: Option<string>, ids: Ids, t: Clock) returns (r: Result<Pair, TokenError>)
      modifies this`signed, store
      ensures (State(), r) == Rotate(lifetimes, old(State()), token, role, ids, t)
    {
      var claims := VerifyRefresh(State(), token, t.decode);
      if claims.Err? {
        return Err(claims.error);
      }
      if token.family in store.revoked {
        return Err(RevokedFamily);
      }
      var isSpent := store.LookUp(token.jti, t.spent);
      assert (Auth(store.spent, store.revoked, signed), isSpent) == IsSpent(old(State()), token.jti, t.spent);
      if isSpent {
        store.RevokeFamily(token.family);
        return Err(Reused);
      }
      store.MarkSpent(token.jti, token.family, token.exp);
      var p := NewPair(token.subject, if role.Some? then role.value else token.role, token.family, ids, t.pair);
      r := Ok(p);
    }

    method RevokeToken(token: Token, now: real) returns (r: Result<(), TokenError>)
      modifies store
      ensures (State(), r) == Revoke(old(State()), token, now)
    {
      var claims := VerifyRefresh(State(), token, now);
      if claims.Err? {
        return Err(claims.error);
      }
      store.RevokeFamily(token.family);
      r := Ok(());
    }
  }
}
