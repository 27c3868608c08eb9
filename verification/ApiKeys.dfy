/** Machine credentials: issuing, verifying, revoking and erasing API keys. */
module ApiKeys {
  import opened Wrappers
  import opened Decimal
  import opened ApiKeyFormat
  import opened Text

  // ----- The store ----------------------------------------------------------

  datatype Scope = IngestWrite | AlertsRead

  /** A keyed digest of a whole key, which only that key has; a missing row is compared with the dummy. */
  datatype Digest = Mac(of: string) | Dummy

  datatype Record = Record(
    id: nat,
    name: string,
    owner: string,
    scopes: set<Scope>,
    digest: Digest,
    createdAt: int,
    revokedAt: Option<int>,
    lastUsedAt: Option<int>)

  datatype Store = Store(byId: map<nat, Record>, nextId: nat)

  datatype Request = Request(name: string, owner: string, scopes: set<Scope>, at: int)
  datatype Issued = Issued(record: Record, key: string)
  datatype Refusal = InvalidRecord | InvalidKey(reason: FormatError) | InvalidKeyFormat

  const EMPTY := Store(map[], 1)

  predicate ValidRecord(r: Record) {
    && r.id >= 1
    && !Blank(r.name) && !Blank(r.owner) && r.scopes != {}
    && (r.revokedAt.Some? ==> r.revokedAt.value >= r.createdAt)
  }

  /** The record built for an id; its digest covers the whole key. */
  function Build(id: nat, req: Request, secret: string): Result<Record, Refusal> {
    match FormatKey(id, secret)
    case Err(reason) => Err(InvalidKey(reason))
    case Ok(key) =>
      var r := Record(id, req.name, req.owner, req.scopes, Mac(key), req.at, None, None);
      if ValidRecord(r) then Ok(r) else Err(InvalidRecord)
  }

  /** Issue a key. A refused request leaves the store alone and does not use up the id. */
  function IssueKey(s: Store, req: Request, secret: string): (Store, Result<Issued, Refusal>) {
    match Build(s.nextId, req, secret)
    case Err(e) => (s, Err(e))
    case Ok(r) => (Store(s.byId[s.nextId := r], s.nextId + 1), Ok(Issued(r, r.digest.of)))
  }

  /** Revoke a key, keeping the first revocation; a time before the key's creation is refused. */
  function Revoke(s: Store, id: int, at: int): (Store, Result<Option<Record>, Refusal>) {
    if id < 0 || id !in s.byId then (s, Ok(None))
    else
      var r := s.byId[id].(revokedAt := if s.byId[id].revokedAt.Some? then s.byId[id].revokedAt else Some(at));
      if ValidRecord(r) then (s.(byId := s.byId[id := r]), Ok(Some(r))) else (s, Err(InvalidRecord))
  }

  /** Record a use, unless one was recorded within the interval. */
  function Touch(s: Store, id: int, at: int, interval: int): (Store, bool) {
    if id < 0 || id !in s.byId then (s, false)
    else if s.byId[id].lastUsedAt.Some? && at - s.byId[id].lastUsedAt.value < interval then (s, false)
    else (s.(byId := s.byId[id := s.byId[id].(lastUsedAt := Some(at))]), true)
  }

  function OwnedBy(s: Store, owner: string): set<nat> {
    set id | id in s.byId && s.byId[id].owner == owner
  }

  function Renamed(r: Record, replacement: string): Record {
    r.(owner := replacement, revokedAt := if r.revokedAt.Some? then r.revokedAt else Some(r.createdAt))
  }

  function Size(ids: set<nat>): nat {
    |ids|
  }

  /** One row removed, or revoked under another owner. */
  function ErasedRow(byId: map<nat, Record>, id: nat, replacement: string): map<nat, Record>
    requires id in byId
  {
    if replacement == [] then byId - {id} else byId[id := Renamed(byId[id], replacement)]
  }

  /** The rows with some of them removed, or revoked under another owner. */
  function Erased(byId: map<nat, Record>, ids: set<nat>, replacement: string): map<nat, Record> {
    if replacement == [] then byId - ids
    else map id | id in byId :: if id in ids then Renamed(byId[id], replacement) else byId[id]
  }

  /** Remove an owner: the rows go, or with a replacement they are revoked and carry it instead. */
  function EraseOwner(s: Store, owner: string, replacement: string): (Store, Result<nat, Refusal>) {
    var owned := OwnedBy(s, owner);
    if owned != {} && replacement != [] && Blank(replacement) then (s, Err(InvalidRecord))
    else (s.(byId := Erased(s.byId, owned, replacement)), Ok(Size(owned)))
  }

  function StoredDigest(s: Store, id: nat): Digest {
    if id in s.byId then s.byId[id].digest else Dummy
  }

  /** Resolve a presented string to a live record, recording the use. */
  function VerifyKey(s: Store, presented: string, at: int, interval: int): (Store, Result<Option<Record>, Refusal>) {
    match ParseKey(presented)
    case None => (s, Err(InvalidKeyFormat))
    case Some(parsed) =>
      if Mac(presented) != StoredDigest(s, parsed.id) || parsed.id !in s.byId then (s, Ok(None))
      else if s.byId[parsed.id].revokedAt.Some? then (s, Ok(None))
      else
        var s' := Touch(s, parsed.id, at, interval).0;
        (s', Ok(Some(s'.byId[parsed.id])))
  }

  // ----- Runs ---------------------------------------------------------------

  datatype Event =
    | Issuing(req: Request, secret: string)
    | Verifying(presented: string, at: int)
    | Revoking(id: int, at: int)
    | Touching(id: int, at: int)
    | Erasing(owner: string, replacement: string)

  function Step(s: Store, e: Event, interval: int): Store {
    match e
    case Issuing(req, secret) => IssueKey(s, req, secret).0
    case Verifying(presented, at) => VerifyKey(s, presented, at, interval).0
    case Revoking(id, at) => Revoke(s, id, at).0
    case Touching(id, at) => Touch(s, id, at, interval).0
    case Erasing(owner, replacement) => EraseOwner(s, owner, replacement).0
  }

  function Run(events: seq<Event>, interval: int): Store {
    if events == [] then EMPTY else Step(Run(events[..|events| - 1], interval), events[|events| - 1], interval)
  }

  /** What an event handed to the operator, if it issued a key. */
  function IssuedAt(events: seq<Event>, i: nat, interval: int): Option<Issued>
    requires i < |events|
  {
    if !events[i].Issuing? then None
    else
      match IssueKey(Run(events[..i], interval), events[i].req, events[i].secret).1
      case Ok(issued) => Some(issued)
      case Err(_) => None
  }

  /** Whether an event ends the life of a key, told from the event and what was issued alone. */
  predicate Ends(e: Event, issued: Record) {
    match e
    case Revoking(id, at) => id == issued.id && at >= issued.createdAt
    case Erasing(owner, replacement) => owner == issued.owner && (replacement == [] || !Blank(replacement))
    case _ => false
  }

  ghost predicate NeverEnded(events: seq<Event>, i: nat, issued: Record) {
    forall j :: i < j < |events| ==> !Ends(events[j], issued)
  }

  /** What a record must look like for it to be an issued one, possibly ended since. */
  ghost predicate Descends(s: Store, issued: Record, live: bool) {
    && issued.id < s.nextId && ValidRecord(issued) && issued.revokedAt.None?
    && (issued.id in s.byId ==>
          && s.byId[issued.id].id == issued.id
          && s.byId[issued.id].digest == issued.digest && s.byId[issued.id].createdAt == issued.createdAt
          && (s.byId[issued.id].revokedAt.Some? ==> s.byId[issued.id].revokedAt.value >= issued.createdAt)
          && !Blank(s.byId[issued.id].name) && !Blank(s.byId[issued.id].owner)
          && s.byId[issued.id].scopes != {}
          && (s.byId[issued.id].revokedAt.None? ==> s.byId[issued.id].owner == issued.owner))
    && (live <==> issued.id in s.byId && s.byId[issued.id].revokedAt.None?)
  }

  lemma StepKeepsDescent(s: Store, e: Event, interval: int, issued: Record, live: bool)
    requires Descends(s, issued, live)
    ensures Descends(Step(s, e, interval), issued, live && !Ends(e, issued))
  {
    hide Blank, ParseKey, FormatKey;
  }

  /** One event later: what was issued is in the store under its id, and the id is used up. */
  lemma IssuingStores(s: Store, req: Request, secret: string)
    requires IssueKey(s, req, secret).1.Ok?
    ensures var issued := IssueKey(s, req, secret).1.value;
            && issued.record.id == s.nextId && issued.record.digest == Mac(issued.key)
            && FormatKey(s.nextId, secret) == Ok(issued.key)
            && issued.record.owner == req.owner && issued.record.createdAt == req.at
            && Descends(IssueKey(s, req, secret).0, issued.record, true)
  {
    hide Blank, FormatKey;
  }

  /** An issued key is live to the end of a run exactly when nothing after it ended it. */
  lemma {:induction false} Fate(events: seq<Event>, i: nat, interval: int)
    requires i < |events| && IssuedAt(events, i, interval).Some?
    ensures var issued := IssuedAt(events, i, interval).value;
            Descends(Run(events, interval), issued.record, NeverEnded(events, i, issued.record))
  {
    hide Descends, Ends, Step, IssueKey, FormatKey;
    var n := |events| - 1;
    var issued := IssuedAt(events, i, interval).value;
    if i == n {
      IssuingStores(Run(events[..i], interval), events[i].req, events[i].secret);
      IssuingIsItsStep(Run(events[..i], interval), events[i], interval);
    } else {
      assert events[..n][..i] == events[..i] && events[..n][i] == events[i];
      Fate(events[..n], i, interval);
      StepKeepsDescent(Run(events[..n], interval), events[n], interval, issued.record, NeverEnded(events[..n], i, issued.record));
      assert forall j :: i < j < n ==> events[..n][j] == events[j];
      assert NeverEnded(events, i, issued.record) <==> NeverEnded(events[..n], i, issued.record) && !Ends(events[n], issued.record);
    }
  }

  lemma IssuingIsItsStep(s: Store, e: Event, interval: int)
    requires e.Issuing?
    ensures Step(s, e, interval) == IssueKey(s, e.req, e.secret).0
  {
  }

  lemma StepAddsOnlyWhatItIssues(s: Store, e: Event, interval: int)
    ensures s.nextId <= Step(s, e, interval).nextId
    ensures forall id :: id in Step(s, e, interval).byId && id !in s.byId
              ==> e.Issuing? && IssueKey(s, e.req, e.secret).1.Ok? && id == s.nextId
  {
    hide ParseKey, FormatKey, Blank;
  }

  /** Every record was issued at some point of the run. */
  lemma {:induction false} Origin(events: seq<Event>, interval: int, id: nat) returns (i: nat)
    requires id in Run(events, interval).byId
    ensures i < |events| && IssuedAt(events, i, interval).Some? && IssuedAt(events, i, interval).value.record.id == id
  {
    hide Step, IssueKey;
    var n := |events| - 1;
    if n < 0 {
      assert false;
    } else {
      var before := Run(events[..n], interval);
      StepAddsOnlyWhatItIssues(before, events[n], interval);
      if id in before.byId {
        i := Origin(events[..n], interval, id);
        assert events[..n][..i] == events[..i] && events[..n][i] == events[i];
      } else {
        i := n;
        IssuingStores(before, events[n].req, events[n].secret);
      }
    }
  }

  /** Ids are never handed out twice, whatever was revoked or erased in between. */
  lemma IdsAreNeverReused(events: seq<Event>, i: nat, j: nat, interval: int)
    requires i < j < |events| && IssuedAt(events, i, interval).Some? && IssuedAt(events, j, interval).Some?
    ensures IssuedAt(events, i, interval).value.record.id < IssuedAt(events, j, interval).value.record.id
    ensures IssuedAt(events, i, interval).value.key != IssuedAt(events, j, interval).value.key
  {
    hide Step, IssueKey, Run, FormatKey, Ends;
    assert events[..j][..i] == events[..i] && events[..j][i] == events[i];
    Fate(events[..j], i, interval);
    var si, sj := Run(events[..i], interval), Run(events[..j], interval);
    IssuingStores(si, events[i].req, events[i].secret);
    IssuingStores(sj, events[j].req, events[j].secret);
    if FormatKey(si.nextId, events[i].secret) == FormatKey(sj.nextId, events[j].secret) {
      FormatKeyInjective(si.nextId, events[i].secret, sj.nextId, events[j].secret);
      assert false;
    }
  }

  /**
   * After any run, a string is accepted exactly when some event of the run issued that very string, under
   * an id of at most nineteen digits, and no later event revoked it or erased its owner.
   */
  lemma VerifiesExactly(events: seq<Event>, presented: string, at: int, interval: int)
    ensures var result := VerifyKey(Run(events, interval), presented, at, interval).1;
            (result.Ok? && result.value.Some?)
            <==> exists i :: 0 <= i < |events| && IssuedAndLive(events, i, interval, presented)
  {
    var s := Run(events, interval);
    if VerifyKey(s, presented, at, interval).1.Ok? && VerifyKey(s, presented, at, interval).1.value.Some? {
      AcceptedWasIssued(events, presented, interval);
    }
    forall i | 0 <= i < |events| && IssuedAndLive(events, i, interval, presented)
      ensures VerifyKey(s, presented, at, interval).1.Ok? && VerifyKey(s, presented, at, interval).1.value.Some?
    {
      IssuedIsAccepted(events, i, presented, interval);
    }
  }

  ghost predicate IssuedAndLive(events: seq<Event>, i: nat, interval: int, key: string)
    requires i < |events|
  {
    && IssuedAt(events, i, interval).Some?
    && var issued := IssuedAt(events, i, interval).value;
       && issued.key == key && issued.record.id < Pow10(ID_DIGITS)
       && NeverEnded(events, i, issued.record)
  }

  /** The string names a live record, and the record's digest is of that string. */
  ghost predicate Accepted(s: Store, presented: string) {
    && ParseKey(presented).Some?
    && var id := ParseKey(presented).value.id;
       id in s.byId && s.byId[id].digest == Mac(presented) && s.byId[id].revokedAt.None?
  }

  lemma AcceptedWasIssued(events: seq<Event>, presented: string, interval: int)
    requires Accepted(Run(events, interval), presented)
    ensures exists i :: 0 <= i < |events| && IssuedAndLive(events, i, interval, presented)
  {
    hide Run, ParseKey, IssueKey, NeverEnded, FormatKey, Pow10;
    var id := ParseKey(presented).value.id;
    var i := Origin(events, interval, id);
    Fate(events, i, interval);
    IssuingStores(Run(events[..i], interval), events[i].req, events[i].secret);
    RoundTripExactly(id, events[i].secret);
    assert IssuedAndLive(events, i, interval, presented);
  }

  lemma IssuedIsAccepted(events: seq<Event>, i: nat, presented: string, interval: int)
    requires i < |events| && IssuedAndLive(events, i, interval, presented)
    ensures Accepted(Run(events, interval), presented)
  {
    hide Run, ParseKey, IssueKey, NeverEnded, Pow10;
    Fate(events, i, interval);
    IssuingStores(Run(events[..i], interval), events[i].req, events[i].secret);
    var id := IssuedAt(events, i, interval).value.record.id;
    ShowLength(id, ID_DIGITS);
    ParseOfFormatted(id, events[i].secret);
  }

  lemma StepKeepsRevocation(s: Store, e: Event, interval: int, id: nat)
    requires id in s.byId && s.byId[id].revokedAt.Some? && id < s.nextId
    ensures var s' := Step(s, e, interval);
            id < s'.nextId && (id in s'.byId ==> s'.byId[id].revokedAt == s.byId[id].revokedAt)
  {
    hide ParseKey, FormatKey, Blank;
  }

  lemma {:induction false} ErasedStaysErased(events: seq<Event>, interval: int, m: nat, id: nat)
    requires m <= |events|
    requires id < Run(events[..m], interval).nextId && id !in Run(events[..m], interval).byId
    ensures id < Run(events, interval).nextId && id !in Run(events, interval).byId
  {
    hide Step;
    var n := |events| - 1;
    if m == |events| {
      assert events[..m] == events;
    } else {
      assert events[..n][..m] == events[..m];
      ErasedStaysErased(events[..n], interval, m, id);
      StepAddsOnlyWhatItIssues(Run(events[..n], interval), events[n], interval);
    }
  }

  /** A revocation keeps its first time for as long as the row exists, and no run brings the key back. */
  lemma {:induction false} FirstRevocationIsKept(events: seq<Event>, interval: int, m: nat, id: nat)
    requires m <= |events|
    requires id in Run(events[..m], interval).byId && Run(events[..m], interval).byId[id].revokedAt.Some?
    ensures id in Run(events, interval).byId
            ==> Run(events, interval).byId[id].revokedAt == Run(events[..m], interval).byId[id].revokedAt
  {
    hide Step;
    var n := |events| - 1;
    if m == |events| {
      assert events[..m] == events;
    } else {
      assert events[..n][..m] == events[..m];
      FirstRevocationIsKept(events[..n], interval, m, id);
      var before := Run(events[..n], interval);
      if id in before.byId {
        StoredIdsAreUsed(events[..n], interval, id);
        StepKeepsRevocation(before, events[n], interval, id);
      } else {
        StoredIdsAreUsed(events[..m], interval, id);
        NextIdGrows(events[..n], interval, m);
        StepAddsOnlyWhatItIssues(before, events[n], interval);
      }
    }
  }

  lemma StoredIdsAreUsed(events: seq<Event>, interval: int, id: nat)
    requires id in Run(events, interval).byId
    ensures id < Run(events, interval).nextId
  {
    hide Run, IssueKey, NeverEnded;
    var i := Origin(events, interval, id);
    Fate(events, i, interval);
  }

  lemma {:induction false} NextIdGrows(events: seq<Event>, interval: int, m: nat)
    requires m <= |events|
    ensures Run(events[..m], interval).nextId <= Run(events, interval).nextId
  {
    hide Step;
    var n := |events| - 1;
    if m == |events| {
      assert events[..m] == events;
    } else {
      assert events[..n][..m] == events[..m];
      NextIdGrows(events[..n], interval, m);
      StepAddsOnlyWhatItIssues(Run(events[..n], interval), events[n], interval);
    }
  }

  // ----- The store as it runs -----------------------------------------------

  class InMemoryApiKeyStore {
    var byId: map<nat, Record>
    var nextId: nat
    const touchInterval: int

    constructor (touchInterval: int)
      ensures State() == EMPTY && this.touchInterval == touchInterval
    {
      byId, nextId, this.touchInterval := map[], 1, touchInterval;
    }

    function State(): Store
      reads this
    {
      Store(byId, nextId)
    }

    method Create(req: Request, secret: string) returns (r: Result<Issued, Refusal>)
      modifies this
      ensures (State(), r) == IssueKey(old(State()), req, secret)
    {
      var candidate := nextId;
      var built := Build(candidate, req, secret);
      if built.Err? {
        return Err(built.error);
      }
      byId := byId[candidate := built.value];
      nextId := nextId + 1;
      r := Ok(Issued(built.value, built.value.digest.of));
    }

    method RevokeKey(id: int, at: int) returns (r: Result<Option<Record>, Refusal>)
      modifies this`byId
      ensures (State(), r) == Revoke(old(State()), id, at)
    {
      if id < 0 || id !in byId {
        return Ok(None);
      }
      var existing := byId[id];
      var updated := existing;
      if existing.revokedAt.None? {
        updated := existing.(revokedAt := Some(at));
      }
      if !ValidRecord(updated) {
        return Err(InvalidRecord);
      }
      byId := byId[id := updated];
      r := Ok(Some(updated));
    }

    method TouchKey(id: int, at: int) returns (touched: bool)
      modifies this`byId
      ensures (State(), touched) == Touch(old(State()), id, at, touchInterval)
    {
      if id < 0 || id !in byId {
        return false;
      }
      if byId[id].lastUsedAt.Some? && at - byId[id].lastUsedAt.value < touchInterval {
        return false;
      }
      byId := byId[id := byId[id].(lastUsedAt := Some(at))];
      touched := true;
    }

    method Verify(presented: string, at: int) returns (r: Result<Option<Record>, Refusal>)
      modifies this`byId
      ensures (State(), r) == VerifyKey(old(State()), presented, at, touchInterval)
    {
      var parsed := ParseKey(presented);
      if parsed.None? {
        return Err(InvalidKeyFormat);
      }
      var id := parsed.value.id;
      if id !in byId || Mac(presented) != byId[id].digest || byId[id].revokedAt.Some? {
        return Ok(None);
      }
      var _ := TouchKey(id, at);
      r := Ok(Some(byId[id]));
    }

    method EraseRow(id: nat, replacement: string)
      requires id in byId
      modifies this`byId
      ensures byId == ErasedRow(old(byId), id, replacement)
    {
      if replacement == [] {
        byId := byId - {id};
      } else {
        byId := byId[id := Renamed(byId[id], replacement)];
      }
    }

    /** Go through a snapshot of the ids and remove or rename the owner's rows. */
    method EraseKeysOf(owner: string, replacement: string) returns (r: Result<nat, Refusal>)
      modifies this`byId
      ensures (State(), r) == EraseOwner(old(State()), owner, replacement)
    {
      hide Erased, ErasedRow, Blank, OwnedBy, EraseOwner, Size;
      ghost var before := byId;
      ghost var owned := OwnedBy(State(), owner);
      ghost var erased: set<nat> := {};
      var todo, affected := byId.Keys, 0;
      ErasedNone(before, replacement);
      SizeOneMore({}, 0);
      EraseOwnerResult(State(), owner, replacement);
      while todo != {}
        invariant todo <= before.Keys && todo !! erased
        invariant erased <= owned <= erased + todo
        invariant byId == Erased(before, erased, replacement)
        invariant affected == Size(erased)
        invariant replacement != [] && Blank(replacement) ==> erased == {}
        decreases todo
      {
        var id :| id in todo;
        todo := todo - {id};
        ErasedOneMore(before, erased, id, replacement);
        SizeOneMore(erased, id);
        if byId[id].owner == owner {
          if replacement != [] && Blank(replacement) {
            return Err(InvalidRecord);
          }
          EraseRow(id, replacement);
          erased, affected := erased + {id}, affected + 1;
        }
      }
      assert erased == owned;
      r := Ok(affected);
    }
  }

  lemma SizeOneMore(ids: set<nat>, id: nat)
    ensures Size({}) == 0 && (id !in ids ==> Size(ids + {id}) == Size(ids) + 1)
  {
  }

  /** The rows of an owner, and what erasing them gives. */
  lemma EraseOwnerResult(s: Store, owner: string, replacement: string)
    ensures forall id :: id in OwnedBy(s, owner) <==> id in s.byId && s.byId[id].owner == owner
    ensures EraseOwner(s, owner, replacement)
            == if OwnedBy(s, owner) != {} && replacement != [] && Blank(replacement) then (s, Err(InvalidRecord))
               else (Store(Erased(s.byId, OwnedBy(s, owner), replacement), s.nextId), Ok(Size(OwnedBy(s, owner))))
  {
  }

  lemma ErasedNone(byId: map<nat, Record>, replacement: string)
    ensures Erased(byId, {}, replacement) == byId
  {
  }

  lemma ErasedOneMore(byId: map<nat, Record>, ids: set<nat>, id: nat, replacement: string)
    requires id in byId && id !in ids
    ensures var m := Erased(byId, ids, replacement);
            && id in m && m[id] == byId[id]
            && Erased(byId, ids + {id}, replacement) == ErasedRow(m, id, replacement)
  {
  }
}
