/** What an erasure reports and what the ledger keeps of it. */
module ErasureReports {
  import opened Wrappers
  import ApiKeys
  import opened Erasure
  import opened Text

  // ----- Refusals -----------------------------------------------------------

  /** A request is refused exactly for a blank or overlong subject or a blank requester, and then changes nothing. */
  lemma RefusedExactly(targets: seq<Target>, hash: Hash, w: World, kind: Kind, value: string, requester: string, at: int)
    ensures var (w', r) := Request(targets, hash, w, kind, value, requester, at);
            && (r == Err(BlankSubject) <==> Blank(value))
            && (r == Err(LongSubject) <==> !Blank(value) && |value| > 512)
            && (r == Err(NoRequester) <==> !Blank(value) && |value| <= 512 && Blank(requester))
            && (r.Err? ==> w' == w && (r.error == BlankSubject || r.error == LongSubject || r.error == NoRequester))
  {
    hide Blank, Cascade, Has, Tombstone;
  }

  // ----- Counts -------------------------------------------------------------

  /** The rows that hold a value. */
  function RowsWith(m: Entities, value: string): set<EntityKey> {
    set k | k in m && k.1 == value
  }

  predicate IsFirstOfKind(targets: seq<Target>, kind: Kind, i: nat)
    requires i < |targets|
  {
    KindOf(targets[i], kind) && forall j :: 0 <= j < i ==> !KindOf(targets[j], kind)
  }

  /**
   * The first target of the subject's kind reports the rows it moved, or one for a user who was there; every
   * other target reports none. A value that is its own tombstone is found again each time.
   */
  ghost predicate Counts(targets: seq<Target>, s: Stores, subject: Subject, tombstone: string, i: nat, affected: nat)
    requires i < |targets|
  {
    if !KindOf(targets[i], subject.kind) then affected == 0
    else if subject.kind == User then
      affected == if IsFirstOfKind(targets, User, i) && subject.value in s.users then 1 else 0
    else
      affected == if IsFirstOfKind(targets, Entity, i) || subject.value == tombstone then |RowsWith(s.entities, subject.value)| else 0
  }

  ghost predicate Tells(targets: seq<Target>, s: Stores, subject: Subject, tombstone: string, outcomes: seq<Outcome>) {
    && |outcomes| == |targets|
    && forall i :: 0 <= i < |targets| ==>
         outcomes[i].name == targets[i].name && Counts(targets, s, subject, tombstone, i, outcomes[i].affected)
  }

  lemma NamedAreTheRows(m: Entities, value: string)
    requires Keyed(m)
    ensures Named(m, value, None) == RowsWith(m, value)
  {
  }

  lemma NoneWithAfter(m: Entities, value: string, tombstone: string)
    requires Keyed(m) && value != tombstone
    ensures RowsWith(Redact(m, value, tombstone, None), value) == {}
    ensures Keyed(Redact(m, value, tombstone, None))
  {
    hide Redact;
    RedactEffect(m, value, tombstone, None);
  }

  /** What the next target reports, after the targets before it. */
  lemma NextCounts(targets: seq<Target>, s: Stores, subject: Subject, tombstone: string)
    requires Keyed(s.entities) && targets != []
    ensures var n := |targets| - 1;
            var before := Cascade(targets[..n], s, subject, tombstone).0;
            Counts(targets, s, subject, tombstone, n, EraseIn(targets[n], before, subject, tombstone).1)
  {
    hide Cascade, Redact, Reaches, Keyed, Named, RowsWith;
    var n := |targets| - 1;
    var before := Cascade(targets[..n], s, subject, tombstone).0;
    CascadeEffect(targets[..n], s, subject, tombstone);
    FirstReached(targets, subject.kind);
    NamedAreTheRows(s.entities, subject.value);
    EraseUserEffect(s, subject.value);
    if subject.kind == Entity && Reaches(targets[..n], Entity) {
      if subject.value == tombstone {
        RedactToItself(s.entities, subject.value, None);
      } else {
        NoneWithAfter(s.entities, subject.value, tombstone);
        NamedAreTheRows(Redact(s.entities, subject.value, tombstone, None), subject.value);
      }
    }
  }

  lemma FirstReached(targets: seq<Target>, kind: Kind)
    requires targets != []
    ensures var n := |targets| - 1; IsFirstOfKind(targets, kind, n) <==> KindOf(targets[n], kind) && !Reaches(targets[..n], kind)
  {
    var n := |targets| - 1;
    assert forall j :: 0 <= j < n ==> targets[..n][j] == targets[j];
    assert Reaches(targets[..n], kind) <==> exists j :: 0 <= j < n && KindOf(targets[..n][j], kind);
  }

  /** The outcomes name the targets in order, and count what each of them changed. */
  lemma {:induction false} OutcomesTell(targets: seq<Target>, s: Stores, subject: Subject, tombstone: string)
    requires Keyed(s.entities)
    ensures Tells(targets, s, subject, tombstone, Cascade(targets, s, subject, tombstone).1)
  {
    hide EraseIn, Keyed, RowsWith, KindOf;
    if targets != [] {
      var n := |targets| - 1;
      OutcomesTell(targets[..n], s, subject, tombstone);
      NextCounts(targets, s, subject, tombstone);
      var outcomes := Cascade(targets[..n], s, subject, tombstone).1;
      forall i | 0 <= i < n
        ensures targets[..n][i] == targets[i]
        ensures Counts(targets, s, subject, tombstone, i, outcomes[i].affected)
      {
        assert Counts(targets[..n], s, subject, tombstone, i, outcomes[i].affected);
        FirstInPrefix(targets, n, User, i);
        FirstInPrefix(targets, n, Entity, i);
      }
    }
  }

  lemma FirstInPrefix(targets: seq<Target>, n: nat, kind: Kind, i: nat)
    requires i < n <= |targets|
    ensures IsFirstOfKind(targets[..n], kind, i) <==> IsFirstOfKind(targets, kind, i)
  {
    assert forall j :: 0 <= j < n ==> targets[..n][j] == targets[j];
  }

  // ----- Reports and entries --------------------------------------------------

  /** The report and the ledger's new entry of a request that is answered for the first time. */
  ghost predicate IsFirstReport(targets: seq<Target>, hash: Hash, w: World, w': World, e: Event, report: Report)
    requires e.Asking?
  {
    && report.kind == e.subject.kind && report.tombstone == "erased:" + hash(e.subject) && report.at == e.at
    && !report.alreadyErased && report.ledgerSequence == Some(|w.ledger| + 1)
    && Tells(targets, w.stores, e.subject, report.tombstone, report.outcomes)
    && w'.ledger == w.ledger + [LedgerEntry(|w.ledger| + 1, report.tombstone, report.kind, e.at, e.requester, report.outcomes)]
  }

  /** The report of a repeated request: nothing affected anywhere, and no new entry. */
  predicate IsRepeatReport(targets: seq<Target>, hash: Hash, e: Event, report: Report)
    requires e.Asking?
  {
    && report.kind == e.subject.kind && report.tombstone == "erased:" + hash(e.subject) && report.at == e.at
    && report.alreadyErased && report.ledgerSequence.None?
    && |report.outcomes| == |targets|
    && forall i :: 0 <= i < |targets| ==> report.outcomes[i].name == targets[i].name && report.outcomes[i].affected == 0
  }

  /** Every answered request is reported as what it is: the first for its subject, with its counts, or a repeat. */
  lemma ReportsAreExact(targets: seq<Target>, hash: Hash, events: seq<Event>, e: Event)
    requires Injective(hash) && Proper(e)
    ensures var w := Run(targets, hash, events);
            var (w', r) := Request(targets, hash, w, e.subject.kind, e.subject.value, e.requester, e.at);
            && r.Ok?
            && if Asked(events, e.subject) then IsRepeatReport(targets, hash, e, r.value) && w' == w
               else IsFirstReport(targets, hash, w, w', e, r.value)
  {
    hide Run, Asked, Injective, Has, Tells, Blank;
    var w := Run(targets, hash, events);
    RunIsKeyed(targets, hash, events);
    LedgerHasExactly(targets, hash, events, e.subject);
    OutcomesTell(targets, w.stores, e.subject, Tombstone(hash, e.subject));
  }

  /** The ledger entry tells of this event: who asked when, and what it did to the stores as they were. */
  ghost predicate EntryTells(targets: seq<Target>, hash: Hash, events: seq<Event>, entry: LedgerEntry, j: nat)
    requires j < |events|
  {
    var e := events[j];
    && Proper(e) && !Asked(events[..j], e.subject)
    && entry.at == e.at && entry.requestedBy == e.requester && entry.kind == e.subject.kind
    && entry.tombstone == "erased:" + hash(e.subject)
    && Tells(targets, Run(targets, hash, events[..j]).stores, e.subject, entry.tombstone, entry.targets)
  }

  lemma LedgerGrows(targets: seq<Target>, hash: Hash, events: seq<Event>, e: Event)
    requires Injective(hash)
    ensures var w := Run(targets, hash, events);
            var w' := Step(targets, hash, w, e);
            if Proper(e) && !Asked(events, e.subject)
            then |w'.ledger| == |w.ledger| + 1 && w'.ledger[..|w.ledger|] == w.ledger
                 && EntryTells(targets, hash, events + [e], w'.ledger[|w.ledger|], |events|)
            else w'.ledger == w.ledger
  {
    hide Run, Asked, Injective, Tells;
    assert (events + [e])[..|events|] == events;
    if e.Asking? {
      RefusedExactly(targets, hash, Run(targets, hash, events), e.subject.kind, e.subject.value, e.requester, e.at);
      if Proper(e) {
        ReportsAreExact(targets, hash, events, e);
      }
    }
  }

  lemma EntryStays(targets: seq<Target>, hash: Hash, events: seq<Event>, n: nat, entry: LedgerEntry, j: nat)
    requires j < n <= |events| && EntryTells(targets, hash, events[..n], entry, j)
    ensures EntryTells(targets, hash, events, entry, j)
  {
    hide Run, Asked, Tells, Proper;
    assert events[..n][..j] == events[..j];
  }

  /** Every ledger entry tells of the first proper request for its subject. */
  lemma {:induction false} EntriesTell(targets: seq<Target>, hash: Hash, events: seq<Event>, k: nat)
    requires Injective(hash) && k < |Run(targets, hash, events).ledger|
    ensures exists j :: 0 <= j < |events| && EntryTells(targets, hash, events, Run(targets, hash, events).ledger[k], j)
  {
    hide Step, Injective, EntryTells, Asked;
    var n := |events| - 1;
    assert events != [];
    assert events == events[..n] + [events[n]];
    var w := Run(targets, hash, events[..n]);
    LedgerGrows(targets, hash, events[..n], events[n]);
    if k < |w.ledger| {
      EntriesTell(targets, hash, events[..n], k);
      var j :| 0 <= j < n && EntryTells(targets, hash, events[..n], w.ledger[k], j);
      EntryStays(targets, hash, events, n, w.ledger[k], j);
    }
  }

  // ----- What was added -------------------------------------------------------

  /** The row stands in the store as it was added. */
  predicate Stands(s: Stores, kind: string, value: string, meta: string) {
    (kind, value) in s.entities && s.entities[(kind, value)] == Row(kind, value, meta)
  }

  /** The event neither adds the row again nor asks for its value to be erased. */
  predicate Spares(e: Event, kind: string, value: string) {
    match e
    case Seeing(k, v, _) => (k, v) != (kind, value)
    case Asking(subject, _, _) => subject != Subject(Entity, value)
    case _ => true
  }

  lemma StepKeepsRow(targets: seq<Target>, hash: Hash, w: World, e: Event, kind: string, value: string, meta: string)
    requires Keyed(w.stores.entities) && NotATombstone(hash, value)
    requires Stands(w.stores, kind, value, meta) && Spares(e, kind, value)
    ensures Stands(Step(targets, hash, w, e).stores, kind, value, meta)
  {
    hide Cascade, Redact, EraseUser, Has, NotATombstone, Keyed, Tombstone, ApiKeys.Step, Blank;
    if e.Asking? {
      TombstoneIsNot(hash, e.subject, value);
      CascadeEffect(targets, w.stores, e.subject, Tombstone(hash, e.subject));
      RedactEffect(w.stores.entities, e.subject.value, Tombstone(hash, e.subject), None);
      EraseUserEffect(w.stores, e.subject.value);
    }
  }

  /**
   * An entity that was added stands with what was said of it last, until its own value is asked to be erased:
   * whatever else is added or erased meanwhile.
   */
  lemma {:induction false} AddedStands(targets: seq<Target>, hash: Hash, events: seq<Event>, i: nat)
    requires i < |events| && events[i].Seeing? && !Blank(events[i].value) && NotATombstone(hash, events[i].value)
    requires forall j :: i < j < |events| ==> Spares(events[j], events[i].kind, events[i].value)
    ensures Stands(Run(targets, hash, events).stores, events[i].kind, events[i].value, events[i].meta)
  {
    hide NotATombstone, Spares, Keyed, Blank;
    var n := |events| - 1;
    var e := events[i];
    if i < n {
      hide Step, Stands;
      assert events[..n][i] == events[i];
      AddedStands(targets, hash, events[..n], i);
      RunIsKeyed(targets, hash, events[..n]);
      StepKeepsRow(targets, hash, Run(targets, hash, events[..n]), events[n], e.kind, e.value, e.meta);
    }
  }
}
