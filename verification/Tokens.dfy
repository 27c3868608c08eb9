/**
 * Access and refresh tokens: rotation with replay detection and family revocation.
 *
 * A token is taken at its claims. Its signature verifies exactly when this service signed it. Clock
 * readings and fresh identifiers are parameters of each call.
 */
module Tokens {
  import opened Wrappers

  type Jti = string
  type Family = string

  datatype Token =
    | Access(subject: string, role: string, iat: int, exp: int, jti: Jti)
    | Refresh(subject: string, role: string, family: Family, iat: int, exp: int, jti: Jti)

  datatype Pair = Pair(access: Token, refresh: Token)

  datatype TokenError = Malformed | Expired | RevokedFamily | Reused

  datatype Lifetimes = Lifetimes(access: int, refresh: int)

  /** The refresh store and the tokens whose signature the secret vouches for. */
  datatype Auth = Auth(spent: map<Jti, (Family, int)>, revoked: set<Family>, signed: set<Token>)

  const EMPTY_AUTH := Auth(map[], {}, {})

  function Decode(a: Auth, token: Token, now: real): Result<Token, TokenError> {
    if token !in a.signed then Err(Malformed)
    else if token.exp as real <= now then Err(Expired)
    else Ok(token)
  }

  function VerifyAccess(a: Auth, token: Token, now: real): Result<Token, TokenError> {
    match Decode(a, token, now)
    case Err(e) => Err(e)
    case Ok(t) => if t.Access? then Ok(t) else Err(Malformed)
  }

  function VerifyRefresh(a: Auth, token: Token, now: real): (r: Result<Token, TokenError>)
    ensures r.Ok? ==> r.value == token && token.Refresh?
  {
    match Decode(a, token, now)
    case Err(e) => Err(e)
    case Ok(t) => if t.Refresh? then Ok(t) else Err(Malformed)
  }

  /** Whether a token id was spent; an entry past its own expiry is forgotten. */
  function IsSpent(a: Auth, jti: Jti, now: real): (Auth, bool) {
    if jti !in a.spent then (a, false)
    else if a.spent[jti].1 as real <= now then (a.(spent := a.spent - {jti}), false)
    else (a, true)
  }

  /** The fresh identifiers of one pair. */
  datatype Ids = Ids(access: Jti, refresh: Jti)

  function MakePair(l: Lifetimes, subject: string, role: string, family: Family, ids: Ids, now: real): Pair {
    var issued := now.Floor;
    Pair(Access(subject, role, issued, issued + l.access, ids.access),
         Refresh(subject, role, family, issued, issued + l.refresh, ids.refresh))
  }

  function Sign(a: Auth, p: Pair): Auth {
    a.(signed := a.signed + {p.access, p.refresh})
  }

  function Issue(l: Lifetimes, a: Auth, subject: string, role: string, family: Family, ids: Ids, now: real): (Auth, Pair) {
    var p := MakePair(l, subject, role, family, ids, now);
    (Sign(a, p), p)
  }

  /** The clock is read when the token is decoded, when it is looked up as spent, and when the pair is made. */
  datatype Clock = Clock(decode: real, spent: real, pair: real)

  function Rotate(l: Lifetimes, a: Auth, token: Token, role: Option<string>, ids: Ids, t: Clock): (Auth, Result<Pair, TokenError>) {
    match VerifyRefresh(a, token, t.decode)
    case Err(e) => (a, Err(e))
    case Ok(r) =>
      if r.family in a.revoked then (a, Err(RevokedFamily))
      else
        var (a1, spent) := IsSpent(a, r.jti, t.spent);
        if spent then (a1.(revoked := a1.revoked + {r.family}), Err(Reused))
        else
          var a2 := a1.(spent := a1.spent[r.jti := (r.family, r.exp)]);
          var p := MakePair(l, r.subject, if role.Some? then role.value else r.role, r.family, ids, t.pair);
          (Sign(a2, p), Ok(p))
  }

  function Revoke(a: Auth, token: Token, now: real): (Auth, Result<(), TokenError>) {
    match VerifyRefresh(a, token, now)
    case Err(e) => (a, Err(e))
    case Ok(r) => (a.(revoked := a.revoked + {r.family}), Ok(()))
  }
}
