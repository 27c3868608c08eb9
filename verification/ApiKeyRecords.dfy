/** What the records of the API-key store say: as issued, as verified, as used, and as ended. */
module ApiKeyRecords {
  import opened Wrappers
  import opened Decimal
  import opened ApiKeyFormat
  import opened ApiKeys
  import opened Text

  // ----- Issuing ----------------------------------------------------------------

  /** The record says what was asked for, and no one has used or revoked it. */
  predicate IsRecordOf(r: Record, req: Request) {
    && r.name == req.name && r.owner == req.owner && r.scopes == req.scopes && r.createdAt == req.at
    && r.revokedAt.None? && r.lastUsedAt.None?
  }

  /**
   * A key is issued exactly when its text can be written and the request names the key, its owner and some scope;
   * the store then holds one record more, under the next id, and a refusal leaves it alone.
   */
  lemma IssuedExactly(s: Store, req: Request, secret: string)
    ensures var (s', r) := IssueKey(s, req, secret);
            && (r.Ok? <==> FormatKey(s.nextId, secret).Ok? && s.nextId >= 1
                           && !Blank(req.name) && !Blank(req.owner) && req.scopes != {})
            && (r.Err? ==> s' == s && (r.error == InvalidRecord <==> FormatKey(s.nextId, secret).Ok?))
            && (r.Ok? ==>
                  var record := r.value.record;
                  && IsRecordOf(record, req) && record.id == s.nextId && record.digest == Mac(r.value.key)
                  && s'.nextId == s.nextId + 1
                  && s'.byId.Keys == s.byId.Keys + {s.nextId} && s'.byId[s.nextId] == record
                  && forall id :: id in s.byId && id != s.nextId ==> s'.byId[id] == s.byId[id])
  {
    hide Blank, FormatKey;
  }

  // ----- The four ways a record changes -----------------------------------------

  /** One record is another, and all the others are as they were. */
  ghost predicate OnlyChanges(s: Store, s': Store, id: nat) {
    && s'.nextId == s.nextId && s'.byId.Keys == s.byId.Keys
    && forall other :: other in s.byId && other != id ==> s'.byId[other] == s.byId[other]
  }

  /**
   * A revocation is refused exactly for a key not yet revoked and a time before its creation; an unknown id is
   * answered with nothing; and otherwise the row is revoked at the time it was revoked first.
   */
  lemma RevokedExactly(s: Store, id: int, at: int)
    requires forall k :: k in s.byId ==> ValidRecord(s.byId[k])
    ensures var (s', r) := Revoke(s, id, at);
            var known := id >= 0 && id in s.byId;
            && (r.Err? <==> known && s.byId[id].revokedAt.None? && at < s.byId[id].createdAt)
            && (!known || r.Err? ==> s' == s && (r.Ok? ==> r.value.None?))
            && (known && r.Ok? ==>
                  && OnlyChanges(s, s', id) && r.value == Some(s'.byId[id])
                  && s'.byId[id].revokedAt == (if s.byId[id].revokedAt.Some? then s.byId[id].revokedAt else Some(at))
                  && SameBut(s.byId[id], s'.byId[id]) && s'.byId[id].lastUsedAt == s.byId[id].lastUsedAt
                  && s'.byId[id].owner == s.byId[id].owner)
  {
    hide Blank;
  }

  /** The parts of a record that no event changes. */
  predicate SameBut(r: Record, r': Record) {
    r'.id == r.id && r'.name == r.name && r'.scopes == r.scopes && r'.digest == r.digest && r'.createdAt == r.createdAt
  }

  /** A use is recorded exactly for a stored key with no use within the interval before it. */
  lemma TouchedExactly(s: Store, id: int, at: int, interval: int)
    ensures var (s', touched) := Touch(s, id, at, interval);
            && (touched <==> id >= 0 && id in s.byId
                             && (s.byId[id].lastUsedAt.Some? ==> at >= s.byId[id].lastUsedAt.value + interval))
            && (!touched ==> s' == s)
            && (touched ==>
                  && OnlyChanges(s, s', id) && s'.byId[id].lastUsedAt == Some(at)
                  && SameBut(s.byId[id], s'.byId[id]) && s'.byId[id].owner == s.byId[id].owner
                  && s'.byId[id].revokedAt == s.byId[id].revokedAt)
  {
  }

  /** The owner's row after an erasure: carried over to the replacement, and revoked since its creation if it was live. */
  predicate CarriedOver(r: Record, r': Record, replacement: string) {
    && SameBut(r, r') && r'.owner == replacement && r'.lastUsedAt == r.lastUsedAt
    && (match r.revokedAt case Some(at) => r'.revokedAt == Some(at) case None => r'.revokedAt == Some(r.createdAt))
  }

  /**
   * An erasure is refused exactly for an owner with keys and a replacement of white space alone; otherwise every
   * key of the owner goes, or is carried over to the replacement, no other key is touched, and they are counted.
   */
  lemma ErasedExactly(s: Store, owner: string, replacement: string)
    ensures var (s', r) := EraseOwner(s, owner, replacement);
            var keys := set id | id in s.byId && s.byId[id].owner == owner;
            && (r.Err? <==> keys != {} && replacement != "" && Blank(replacement))
            && (r.Err? ==> s' == s)
            && (r.Ok? ==>
                  && s'.nextId == s.nextId && r.value == |keys|
                  && (forall id :: id in s'.byId <==> id in s.byId && (id in keys ==> replacement != ""))
                  && (forall id :: id in s'.byId && id !in keys ==> s'.byId[id] == s.byId[id])
                  && (forall id :: id in s'.byId && id in keys ==> CarriedOver(s.byId[id], s'.byId[id], replacement)))
  {
    hide Blank;
    var keys := set id | id in s.byId && s.byId[id].owner == owner;
    assert OwnedBy(s, owner) == keys;
    assert Size(OwnedBy(s, owner)) == |keys|;
    assert OwnedBy(s, owner) == {} <==> keys == {};
  }

  // ----- Over runs ----------------------------------------------------------------

  /** What stays of an issued record for as long as its row is stored; while it is live, its owner too. */
  ghost predicate Keeps(s: Store, issued: Record) {
    && issued.id < s.nextId
    && (issued.id in s.byId ==>
          && SameBut(issued, s.byId[issued.id])
          && (s.byId[issued.id].revokedAt.None? ==> s.byId[issued.id].owner == issued.owner))
  }

  lemma StepKeeps(s: Store, e: Event, interval: int, issued: Record)
    requires Keeps(s, issued)
    ensures Keeps(Step(s, e, interval), issued)
  {
    hide Blank, ParseKey, FormatKey;
  }

  /** A stored record keeps the id, name, scopes, digest and creation time it was issued with, and its owner while it lives. */
  lemma {:induction false} IssuedIsKept(events: seq<Event>, i: nat, interval: int)
    requires i < |events| && IssuedAt(events, i, interval).Some?
    ensures Keeps(Run(events, interval), IssuedAt(events, i, interval).value.record)
    ensures IsRecordOf(IssuedAt(events, i, interval).value.record, events[i].req)
  {
    hide Step, IssueKey, Keeps, IsRecordOf;
    var n := |events| - 1;
    if i == n {
      IssuedExactly(Run(events[..i], interval), events[i].req, events[i].secret);
      JustIssued(Run(events[..i], interval), events[i], interval);
    } else {
      assert events[..n][..i] == events[..i] && events[..n][i] == events[i];
      IssuedIsKept(events[..n], i, interval);
      StepKeeps(Run(events[..n], interval), events[n], interval, IssuedAt(events, i, interval).value.record);
    }
  }

  lemma JustIssued(s: Store, e: Event, interval: int)
    requires e.Issuing? && IssueKey(s, e.req, e.secret).1.Ok?
    ensures Keeps(Step(s, e, interval), IssueKey(s, e.req, e.secret).1.value.record)
  {
    hide IssueKey;
    IssuedExactly(s, e.req, e.secret);
  }

  /** The record of an accepted key, from the store before it was presented. */
  lemma AcceptedRecord(s: Store, presented: string, at: int, interval: int)
    requires VerifyKey(s, presented, at, interval).1.Ok? && VerifyKey(s, presented, at, interval).1.value.Some?
    ensures var r := VerifyKey(s, presented, at, interval).1.value.value;
            && ParseKey(presented).Some? && ParseKey(presented).value.id in s.byId
            && var stored := s.byId[ParseKey(presented).value.id];
               && SameBut(stored, r) && r.owner == stored.owner && r.revokedAt.None? && stored.revokedAt.None?
               && r.lastUsedAt.Some?
               && (r.lastUsedAt == Some(at) || (r.lastUsedAt == stored.lastUsedAt && at - r.lastUsedAt.value < interval))
  {
    hide ParseKey;
  }

  /** Presenting an accepted key changes its own row to the record it is answered with; any other changes nothing. */
  lemma PresentingChangesOnlyItsRow(s: Store, presented: string, at: int, interval: int)
    ensures var (s', r) := VerifyKey(s, presented, at, interval);
            if r.Ok? && r.value.Some?
            then ParseKey(presented).Some?
                 && var id := ParseKey(presented).value.id;
                    id in s'.byId && s'.byId[id] == r.value.value && OnlyChanges(s, s', id)
            else s' == s
  {
    hide ParseKey;
  }

  /**
   * Whoever presents an accepted key gets the record it was issued with: name, owner, scopes and creation time,
   * not revoked, and used now or within the interval before.
   */
  lemma VerifiedIsIssued(events: seq<Event>, presented: string, at: int, interval: int)
    requires var r := VerifyKey(Run(events, interval), presented, at, interval).1; r.Ok? && r.value.Some?
    ensures var r := VerifyKey(Run(events, interval), presented, at, interval).1.value.value;
            exists i :: 0 <= i < |events| && IssuedAndLive(events, i, interval, presented)
                        && var req := events[i].req;
                           r.name == req.name && r.owner == req.owner && r.scopes == req.scopes && r.createdAt == req.at
                           && r.id == IssuedAt(events, i, interval).value.record.id && r.revokedAt.None?
                           && r.lastUsedAt.Some? && (r.lastUsedAt.value == at || at - r.lastUsedAt.value < interval)
  {
    hide Run, ParseKey, IssueKey, NeverEnded, FormatKey, VerifyKey, IssuedAndLive, IssuedAt;
    VerifiesExactly(events, presented, at, interval);
    AcceptedRecord(Run(events, interval), presented, at, interval);
    var i :| 0 <= i < |events| && IssuedAndLive(events, i, interval, presented);
    IssuedParses(events, i, presented, interval);
    IssuedIsKept(events, i, interval);
  }

  /** The text of an issued key leads to its own id. */
  lemma IssuedParses(events: seq<Event>, i: nat, presented: string, interval: int)
    requires i < |events| && IssuedAndLive(events, i, interval, presented)
    ensures IssuedAt(events, i, interval).Some? && events[i].Issuing?
    ensures ParseKey(presented).Some? ==> ParseKey(presented).value.id == IssuedAt(events, i, interval).value.record.id
  {
    hide Run, ParseKey, NeverEnded, IssueKey, Pow10;
    IssuingStores(Run(events[..i], interval), events[i].req, events[i].secret);
    ShowLength(IssuedAt(events, i, interval).value.record.id, ID_DIGITS);
    ParseOfFormatted(IssuedAt(events, i, interval).value.record.id, events[i].secret);
  }

  // ----- How a key ended ------------------------------------------------------------

  /** The event is the first that ended the key. */
  ghost predicate FirstEnd(events: seq<Event>, i: nat, j: nat, issued: Record) {
    i < j < |events| && Ends(events[j], issued) && forall k :: i < k < j ==> !Ends(events[k], issued)
  }

  lemma EndingMarks(s: Store, e: Event, interval: int, issued: Record)
    requires Descends(s, issued, true) && Ends(e, issued)
    ensures var s' := Step(s, e, interval);
            match e
            case Revoking(_, at) => issued.id in s'.byId && s'.byId[issued.id].revokedAt == Some(at)
            case Erasing(_, replacement) =>
              if replacement == "" then issued.id !in s'.byId
              else issued.id in s'.byId && s'.byId[issued.id].revokedAt == Some(issued.createdAt)
                   && s'.byId[issued.id].owner == replacement
            case _ => true
  {
    hide Blank;
  }

  /**
   * At the end of a run a row tells how its key ended first: by a revocation, at that event's time; by an
   * erasure under another name, at its own creation; and after an erasure without one there is no row.
   */
  lemma EndIsRecorded(events: seq<Event>, i: nat, j: nat, interval: int)
    requires i < |events| && IssuedAt(events, i, interval).Some?
    requires FirstEnd(events, i, j, IssuedAt(events, i, interval).value.record)
    ensures var issued, s := IssuedAt(events, i, interval).value.record, Run(events, interval);
            match events[j]
            case Revoking(_, at) => issued.id in s.byId ==> s.byId[issued.id].revokedAt == Some(at)
            case Erasing(_, replacement) =>
              if replacement == "" then issued.id !in s.byId
              else issued.id in s.byId ==> s.byId[issued.id].revokedAt == Some(issued.createdAt)
            case _ => false
  {
    hide Run, Step, IssueKey, Ends, Descends;
    var issued := IssuedAt(events, i, interval).value.record;
    assert events[..j][..i] == events[..i] && events[..j][i] == events[i];
    Fate(events[..j], i, interval);
    assert NeverEnded(events[..j], i, issued) by {
      assert forall k :: i < k < j ==> events[..j][k] == events[k];
    }
    EndingMarks(Run(events[..j], interval), events[j], interval, issued);
    EndsHow(events[j], issued);
    RunOneMore(events, j, interval);
    var s' := Run(events[..j + 1], interval);
    DescentUses(Run(events[..j], interval), issued, events[j], interval);
    if issued.id in s'.byId {
      FirstRevocationIsKept(events, interval, j + 1, issued.id);
    } else {
      ErasedStaysErased(events, interval, j + 1, issued.id);
    }
  }

  lemma EndsHow(e: Event, issued: Record)
    requires Ends(e, issued)
    ensures e.Revoking? || e.Erasing?
  {
  }

  lemma DescentUses(s: Store, issued: Record, e: Event, interval: int)
    requires Descends(s, issued, true)
    ensures issued.id < Step(s, e, interval).nextId
  {
    StepAddsOnlyWhatItIssues(s, e, interval);
  }

  lemma RunOneMore(events: seq<Event>, j: nat, interval: int)
    requires j < |events|
    ensures Run(events[..j + 1], interval) == Step(Run(events[..j], interval), events[j], interval)
  {
    assert events[..j + 1][..j] == events[..j] && events[..j + 1][j] == events[j];
  }
}
