/** Erasing a person or an entity everywhere, once: the ledger, the cascade, and what the stores hold afterwards. */
module Erasure {
  import opened Wrappers
  import ApiKeys
  import opened Text

  // ----- Subjects and tombstones --------------------------------------------

  datatype Kind = User | Entity
  datatype Subject = Subject(kind: Kind, value: string)

  datatype Refusal = BlankSubject | LongSubject | NoRequester | NoTargets | SameName

  const LONGEST_SUBJECT := 512

  function NewSubject(kind: Kind, value: string): Result<Subject, Refusal> {
    if Blank(value) then Err(BlankSubject)
    else if |value| > LONGEST_SUBJECT then Err(LongSubject)
    else Ok(Subject(kind, value))
  }

  /** The keyed hash of a subject, which no other subject shares. */
  type Hash = Subject -> string

  ghost predicate Injective(hash: Hash) {
    forall a: Subject, b: Subject :: hash(a) == hash(b) ==> a == b
  }

  function Tombstone(hash: Hash, s: Subject): string {
    "erased:" + hash(s)
  }

  /** No subject's tombstone reads like this value. */
  ghost predicate NotATombstone(hash: Hash, value: string) {
    forall s: Subject :: Tombstone(hash, s) != value
  }

  lemma TombstonesDiffer(hash: Hash, a: Subject, b: Subject)
    requires Injective(hash) && Tombstone(hash, a) == Tombstone(hash, b)
    ensures a == b
  {
    assert Tombstone(hash, a)[7..] == hash(a) && Tombstone(hash, b)[7..] == hash(b);
  }

  // ----- The stores ---------------------------------------------------------

  type EntityKey = (string, string)
  datatype Row = Row(kind: string, value: string, meta: string)
  type Entities = map<EntityKey, Row>

  /** The key of a row is its kind and value. */
  ghost predicate Keyed(m: Entities) {
    forall k :: k in m ==> k == (m[k].kind, m[k].value)
  }

  /** Whether a row is of the kind asked for, if one is. */
  predicate OfKind(k: EntityKey, kind: Option<string>) {
    kind.None? || k.0 == kind.value
  }

  function Named(m: Entities, value: string, kind: Option<string>): set<EntityKey> {
    set k | k in m && m[k].value == value && OfKind(k, kind)
  }

  /** Move every row of a value to another value, in one kind or in all. */
  function Redact(m: Entities, value: string, replacement: string, kind: Option<string>): Entities {
    RedactSome(m, Named(m, value, kind), value, replacement)
  }

  /** The same for some of the rows. */
  function RedactSome(m: Entities, keys: set<EntityKey>, value: string, replacement: string): Entities
    requires forall k :: k in keys ==> k in m
  {
    if value == replacement then m
    else
      (m - keys) + map k | k in Moved(keys, replacement) && (k.0, value) in keys :: m[(k.0, value)].(value := replacement)
  }

  function Moved(keys: set<EntityKey>, replacement: string): set<EntityKey> {
    set k | k in keys :: (k.0, replacement)
  }

  datatype Stores = Stores(entities: Entities, users: set<string>, keys: ApiKeys.Store)

  // ----- The service --------------------------------------------------------

  datatype Target = EntityTarget(name: string) | UserTarget(name: string)

  datatype Outcome = Outcome(name: string, affected: nat)

  datatype LedgerEntry = LedgerEntry(
    sequence: nat,
    tombstone: string,
    kind: Kind,
    at: int,
    requestedBy: string,
    targets: seq<Outcome>)

  datatype Report = Report(
    kind: Kind,
    tombstone: string,
    at: int,
    outcomes: seq<Outcome>,
    alreadyErased: bool,
    ledgerSequence: Option<nat>)

  predicate KindOf(t: Target, kind: Kind) {
    match t
    case EntityTarget(_) => kind == Entity
    case UserTarget(_) => kind == User
  }

  /** Deleting a user takes the user's keys along; nothing is deleted for a user that is not there. */
  function EraseUser(s: Stores, owner: string): (Stores, nat) {
    if owner !in s.users then (s, 0)
    else (s.(users := s.users - {owner}, keys := ApiKeys.EraseOwner(s.keys, owner, "").0), 1)
  }

  function EraseIn(t: Target, s: Stores, subject: Subject, tombstone: string): (Stores, nat) {
    if !KindOf(t, subject.kind) then (s, 0)
    else if t.UserTarget? then EraseUser(s, subject.value)
    else (s.(entities := Redact(s.entities, subject.value, tombstone, None)), |Named(s.entities, subject.value, None)|)
  }

  /** Go through the targets in order. */
  function Cascade(targets: seq<Target>, s: Stores, subject: Subject, tombstone: string): (Stores, seq<Outcome>) {
    if targets == [] then (s, [])
    else
      var n := |targets| - 1;
      var (before, outcomes) := Cascade(targets[..n], s, subject, tombstone);
      var (after, affected) := EraseIn(targets[n], before, subject, tombstone);
      (after, outcomes + [Outcome(targets[n].name, affected)])
  }

  function Untouched(targets: seq<Target>): seq<Outcome> {
    seq(|targets|, i requires 0 <= i < |targets| => Outcome(targets[i].name, 0))
  }

  predicate Has(ledger: seq<LedgerEntry>, tombstone: string) {
    exists i :: 0 <= i < |ledger| && ledger[i].tombstone == tombstone
  }

  datatype World = World(stores: Stores, ledger: seq<LedgerEntry>)

  function Erase(targets: seq<Target>, hash: Hash, w: World, subject: Subject, requester: string, at: int)
    : (World, Result<Report, Refusal>)
  {
    var tombstone := Tombstone(hash, subject);
    if Blank(requester) then (w, Err(NoRequester))
    else if Has(w.ledger, tombstone) then
      (w, Ok(Report(subject.kind, tombstone, at, Untouched(targets), true, None)))
    else
      var (stores, outcomes) := Cascade(targets, w.stores, subject, tombstone);
      var n := |w.ledger| + 1;
      (World(stores, w.ledger + [LedgerEntry(n, tombstone, subject.kind, at, requester, outcomes)]),
       Ok(Report(subject.kind, tombstone, at, outcomes, false, Some(n))))
  }

  /** A request names its subject; one that names none is refused before anything is looked at. */
  function Request(targets: seq<Target>, hash: Hash, w: World, kind: Kind, value: string, requester: string, at: int)
    : (World, Result<Report, Refusal>)
  {
    match NewSubject(kind, value)
    case Err(e) => (w, Err(e))
    case Ok(subject) => Erase(targets, hash, w, subject, requester, at)
  }

  // ----- Redacting ----------------------------------------------------------

  /** Which keys there are afterwards, and what they hold. */
  lemma RedactEffect(m: Entities, value: string, replacement: string, kind: Option<string>)
    requires Keyed(m)
    ensures var m' := Redact(m, value, replacement, kind);
            && Keyed(m')
            && (forall k :: k in m' <==> (k in m && (k.1 != value || !OfKind(k, kind) || value == replacement))
                                         || (k.1 == replacement && (k.0, value) in m && OfKind(k, kind)))
            && (forall k :: k in m && k.1 != replacement && (k.1 != value || !OfKind(k, kind)) ==> m'[k] == m[k])
            && (forall k :: k in m && !OfKind(k, kind) ==> m'[k] == m[k])
            && (forall k :: k in m && k.1 == value && OfKind(k, kind) ==> m'[(k.0, replacement)] == m[k].(value := replacement))
  {
    hide Redact, OfKind;
    RedactDomain(m, value, replacement, kind);
    var m' := Redact(m, value, replacement, kind);
    forall k | k in m' ensures RowAfter(m, m', value, replacement, kind, k) {
      RedactRow(m, value, replacement, kind, k);
    }
    assert forall k: EntityKey, n: EntityKey :: k.0 == n.0 ==> OfKind(k, kind) == OfKind(n, kind) by {
      KindOfKey(kind);
    }
  }

  lemma KindOfKey(kind: Option<string>)
    ensures forall k: EntityKey, n: EntityKey :: k.0 == n.0 ==> OfKind(k, kind) == OfKind(n, kind)
  {
  }

  lemma RedactDomain(m: Entities, value: string, replacement: string, kind: Option<string>)
    requires Keyed(m)
    ensures forall k :: k in Redact(m, value, replacement, kind)
              <==> (k in m && (k.1 != value || !OfKind(k, kind) || value == replacement))
                   || (k.1 == replacement && (k.0, value) in m && OfKind(k, kind))
  {
    if value != replacement {
      MovedExactly(m, value, replacement, kind);
    }
  }

  /** What a row holds after redaction: the moved row under its new value, or what it held before. */
  ghost predicate RowAfter(m: Entities, m': Entities, value: string, replacement: string, kind: Option<string>, k: EntityKey)
    requires k in m'
  {
    if value != replacement && k.1 == replacement && (k.0, value) in m && OfKind(k, kind)
    then m'[k] == m[(k.0, value)].(value := replacement)
    else k in m && m'[k] == m[k]
  }

  lemma RedactRow(m: Entities, value: string, replacement: string, kind: Option<string>, k: EntityKey)
    requires Keyed(m) && k in Redact(m, value, replacement, kind)
    ensures RowAfter(m, Redact(m, value, replacement, kind), value, replacement, kind, k)
  {
    if value != replacement {
      MovedExactly(m, value, replacement, kind);
    }
  }

  lemma {:induction false} MovedSize(keys: set<EntityKey>, value: string, replacement: string)
    requires forall k :: k in keys ==> k.1 == value
    ensures |Moved(keys, replacement)| == |keys|
  {
    if keys != {} {
      var k :| k in keys;
      MovedSize(keys - {k}, value, replacement);
      assert Moved(keys, replacement) == Moved(keys - {k}, replacement) + {(k.0, replacement)};
      assert (k.0, replacement) !in Moved(keys - {k}, replacement);
    }
  }

  /** Redacting keeps the number of rows exactly when no kind it reaches holds both the value and its replacement. */
  lemma CountConservedExactly(m: Entities, value: string, replacement: string, kind: Option<string>)
    requires Keyed(m)
    ensures |Redact(m, value, replacement, kind)| == |m|
            <==> value == replacement || forall k :: k in m && k.1 == value && OfKind(k, kind) ==> (k.0, replacement) !in m
  {
    hide Redact, Moved;
    if value != replacement {
      var keys := Named(m, value, kind);
      var moved := Moved(keys, replacement);
      RedactedKeys(m, value, replacement, kind);
      MovedSize(keys, value, replacement);
      ReplacedSize(m.Keys, keys, moved);
      MovedExactly(m, value, replacement, kind);
      if k :| k in m && k.1 == value && OfKind(k, kind) && (k.0, replacement) in m {
        assert (k.0, replacement) in moved && (k.0, replacement) in m.Keys - keys;
      }
    } else {
      assert Redact(m, value, replacement, kind) == m by {
        RedactToItself(m, value, kind);
      }
    }
  }

  lemma MovedExactly(m: Entities, value: string, replacement: string, kind: Option<string>)
    requires Keyed(m)
    ensures forall k: EntityKey :: k in Moved(Named(m, value, kind), replacement)
              <==> k.1 == replacement && (k.0, value) in m && OfKind(k, kind)
  {
    forall k: EntityKey | k.1 == replacement && (k.0, value) in m && OfKind(k, kind)
      ensures k in Moved(Named(m, value, kind), replacement)
    {
      assert (k.0, value) in Named(m, value, kind);
    }
  }

  lemma RedactedKeys(m: Entities, value: string, replacement: string, kind: Option<string>)
    requires Keyed(m) && value != replacement
    ensures Redact(m, value, replacement, kind).Keys
            == (m.Keys - Named(m, value, kind)) + Moved(Named(m, value, kind), replacement)
  {
    hide Redact;
    RedactEffect(m, value, replacement, kind);
    MovedExactly(m, value, replacement, kind);
  }

  lemma RedactToItself(m: Entities, value: string, kind: Option<string>)
    ensures Redact(m, value, value, kind) == m
  {
  }

  lemma ReplacedSize(all: set<EntityKey>, gone: set<EntityKey>, come: set<EntityKey>)
    requires gone <= all && |come| == |gone|
    ensures |(all - gone) + come| == |all| <==> (all - gone) !! come
  {
    assert |all - gone| == |all| - |gone|;
    assert |(all - gone) + come| == |all - gone| + |come| - |(all - gone) * come|;
  }

  lemma RedactTwice(m: Entities, value: string, replacement: string, kind: Option<string>)
    requires Keyed(m)
    ensures Redact(Redact(m, value, replacement, kind), value, replacement, kind) == Redact(m, value, replacement, kind)
  {
    if value != replacement {
      RedactEffect(m, value, replacement, kind);
      assert Named(Redact(m, value, replacement, kind), value, kind) == {};
    }
  }

  // ----- The cascade --------------------------------------------------------

  predicate Reaches(targets: seq<Target>, kind: Kind) {
    exists i :: 0 <= i < |targets| && KindOf(targets[i], kind)
  }

  lemma ReachesOneMore(targets: seq<Target>, kind: Kind)
    requires targets != []
    ensures Reaches(targets, kind) <==> Reaches(targets[..|targets| - 1], kind) || KindOf(targets[|targets| - 1], kind)
  {
    var n := |targets| - 1;
    if Reaches(targets[..n], kind) {
      var i :| 0 <= i < n && KindOf(targets[..n][i], kind);
      assert KindOf(targets[i], kind);
    }
    if Reaches(targets, kind) && !KindOf(targets[n], kind) {
      var i :| 0 <= i < |targets| && KindOf(targets[i], kind);
      assert KindOf(targets[..n][i], kind);
    }
  }

  /** However many targets there are, a subject's own kind of store is changed once and no other is. */
  lemma {:induction false} CascadeEffect(targets: seq<Target>, s: Stores, subject: Subject, tombstone: string)
    requires Keyed(s.entities)
    ensures var s' := Cascade(targets, s, subject, tombstone).0;
            s' == if !Reaches(targets, subject.kind) then s
                  else if subject.kind == User then EraseUser(s, subject.value).0
                  else s.(entities := Redact(s.entities, subject.value, tombstone, None))
    ensures |Cascade(targets, s, subject, tombstone).1| == |targets|
  {
    hide Redact, Reaches, Keyed;
    if targets == [] {
      NothingReached(subject.kind);
    } else {
      var n := |targets| - 1;
      CascadeEffect(targets[..n], s, subject, tombstone);
      ReachesOneMore(targets, subject.kind);
      RedactTwice(s.entities, subject.value, tombstone, None);
    }
  }

  lemma NothingReached(kind: Kind)
    ensures !Reaches([], kind)
  {
  }

  /** Erasing a user removes exactly that user and, when the user was there, exactly the user's keys. */
  lemma EraseUserEffect(s: Stores, owner: string)
    ensures var s' := EraseUser(s, owner).0;
            && s'.users == s.users - {owner} && s'.entities == s.entities
            && (forall id :: id in s'.keys.byId <==> id in s.keys.byId && (s.keys.byId[id].owner != owner || owner !in s.users))
            && (forall id :: id in s'.keys.byId ==> s'.keys.byId[id] == s.keys.byId[id])
            && (ApiKeys.OwnedBy(s'.keys, owner) == {} <==> owner in s.users || ApiKeys.OwnedBy(s.keys, owner) == {})
  {
    if owner !in s.users {
      assert s.users - {owner} == s.users;
    }
  }

  // ----- Runs ---------------------------------------------------------------

  datatype Event =
    | Asking(subject: Subject, requester: string, at: int)
    | Seeing(kind: string, value: string, meta: string)
    | Joining(user: string)
    | KeyWork(event: ApiKeys.Event, interval: int)

  function Step(targets: seq<Target>, hash: Hash, w: World, e: Event): World {
    match e
    case Asking(subject, requester, at) => Request(targets, hash, w, subject.kind, subject.value, requester, at).0
    case Seeing(kind, value, meta) =>
      if Blank(value) then w
      else w.(stores := w.stores.(entities := w.stores.entities[(kind, value) := Row(kind, value, meta)]))
    case Joining(user) =>
      if Blank(user) then w else w.(stores := w.stores.(users := w.stores.users + {user}))
    case KeyWork(event, interval) => w.(stores := w.stores.(keys := ApiKeys.Step(w.stores.keys, event, interval)))
  }

  const FRESH := World(Stores(map[], {}, ApiKeys.EMPTY), [])

  function Run(targets: seq<Target>, hash: Hash, events: seq<Event>): World {
    if events == [] then FRESH
    else Step(targets, hash, Run(targets, hash, events[..|events| - 1]), events[|events| - 1])
  }

  /** A request that names a subject and that somebody answers for. */
  predicate Proper(e: Event) {
    e.Asking? && NewSubject(e.subject.kind, e.subject.value).Ok? && !Blank(e.requester)
  }

  predicate Asked(events: seq<Event>, subject: Subject) {
    exists i :: 0 <= i < |events| && Proper(events[i]) && events[i].subject == subject
  }

  /** The run without the requests that repeat an earlier one. */
  function WithoutRepeats(events: seq<Event>): seq<Event> {
    if events == [] then []
    else
      var n := |events| - 1;
      var e := events[n];
      WithoutRepeats(events[..n]) + (if Proper(e) && Asked(events[..n], e.subject) then [] else [e])
  }

  /** The subjects asked for, each where it was asked for first. */
  function Subjects(events: seq<Event>): seq<Subject> {
    if events == [] then []
    else
      var n := |events| - 1;
      var e := events[n];
      Subjects(events[..n]) + (if Proper(e) && !Asked(events[..n], e.subject) then [e.subject] else [])
  }

  lemma AskedOneMore(events: seq<Event>, subject: Subject)
    requires events != []
    ensures var n := |events| - 1;
            Asked(events, subject) <==> Asked(events[..n], subject) || (Proper(events[n]) && events[n].subject == subject)
  {
    var n := |events| - 1;
    if Asked(events[..n], subject) {
      var i :| 0 <= i < n && Proper(events[..n][i]) && events[..n][i].subject == subject;
      assert Proper(events[i]) && events[i].subject == subject;
    }
    if Asked(events, subject) {
      var i :| 0 <= i < |events| && Proper(events[i]) && events[i].subject == subject;
      assert i < n ==> events[..n][i] == events[i];
    }
  }

  lemma {:induction false} SubjectsAreTheAsked(events: seq<Event>, subject: Subject)
    ensures subject in Subjects(events) <==> Asked(events, subject)
  {
    hide Asked;
    if events == [] {
      NobodyAsked(subject);
    } else {
      AskedOneMore(events, subject);
      SubjectsAreTheAsked(events[..|events| - 1], subject);
    }
  }

  lemma NobodyAsked(subject: Subject)
    ensures !Asked([], subject)
  {
  }

  // ----- The ledger ---------------------------------------------------------

  /** Entry by entry: numbered from one, and holding the tombstone of the subject that was asked for in that place. */
  ghost predicate Records(hash: Hash, ledger: seq<LedgerEntry>, subjects: seq<Subject>) {
    && |ledger| == |subjects|
    && forall i :: 0 <= i < |ledger| ==>
         && ledger[i].sequence == i + 1
         && ledger[i].tombstone == Tombstone(hash, subjects[i])
         && ledger[i].kind == subjects[i].kind
  }

  lemma HasExactly(hash: Hash, ledger: seq<LedgerEntry>, subjects: seq<Subject>, subject: Subject)
    requires Injective(hash) && Records(hash, ledger, subjects)
    ensures Has(ledger, Tombstone(hash, subject)) <==> subject in subjects
  {
    if Has(ledger, Tombstone(hash, subject)) {
      var i :| 0 <= i < |ledger| && ledger[i].tombstone == Tombstone(hash, subject);
      TombstonesDiffer(hash, subjects[i], subject);
    }
    if subject in subjects {
      var i :| 0 <= i < |subjects| && subjects[i] == subject;
      assert ledger[i].tombstone == Tombstone(hash, subject);
    }
  }

  lemma StepRecords(targets: seq<Target>, hash: Hash, w: World, e: Event, subjects: seq<Subject>)
    requires Injective(hash) && Records(hash, w.ledger, subjects)
    ensures Records(hash, Step(targets, hash, w, e).ledger,
                    subjects + if Proper(e) && e.subject !in subjects then [e.subject] else [])
  {
    hide Cascade, Has, Tombstone, Injective;
    if Proper(e) {
      HasExactly(hash, w.ledger, subjects, e.subject);
    }
  }

  /**
   * The ledger is the list of subjects asked for, in the order of their first requests: numbered 1 to n,
   * one entry each, so no tombstone occurs twice.
   */
  lemma {:induction false} LedgerIsFirstRequests(targets: seq<Target>, hash: Hash, events: seq<Event>)
    requires Injective(hash)
    ensures var ledger := Run(targets, hash, events).ledger;
            && Records(hash, ledger, Subjects(events))
            && forall i, j :: 0 <= i < j < |ledger| ==> ledger[i].tombstone != ledger[j].tombstone
  {
    hide Step, Asked, Injective;
    if events != [] {
      var n := |events| - 1;
      LedgerIsFirstRequests(targets, hash, events[..n]);
      StepRecords(targets, hash, Run(targets, hash, events[..n]), events[n], Subjects(events[..n]));
      if events[n].Asking? {
        SubjectsAreTheAsked(events[..n], events[n].subject);
      }
    }
    TombstonesAreDistinct(hash, Run(targets, hash, events).ledger, events);
  }

  lemma TombstonesAreDistinct(hash: Hash, ledger: seq<LedgerEntry>, events: seq<Event>)
    requires Injective(hash) && Records(hash, ledger, Subjects(events))
    ensures forall i, j :: 0 <= i < j < |ledger| ==> ledger[i].tombstone != ledger[j].tombstone
  {
    hide Tombstone, Injective, Subjects;
    SubjectsAreDistinct(events);
    var subjects := Subjects(events);
    forall i, j | 0 <= i < j < |ledger| ensures ledger[i].tombstone != ledger[j].tombstone {
      if ledger[i].tombstone == ledger[j].tombstone {
        TombstonesDiffer(hash, subjects[i], subjects[j]);
        assert false;
      }
    }
  }

  lemma {:induction false} SubjectsAreDistinct(events: seq<Event>)
    ensures forall i, j :: 0 <= i < j < |Subjects(events)| ==> Subjects(events)[i] != Subjects(events)[j]
  {
    hide Asked;
    if events != [] {
      var n := |events| - 1;
      SubjectsAreDistinct(events[..n]);
      if events[n].Asking? {
        SubjectsAreTheAsked(events[..n], events[n].subject);
      }
    }
  }

  /** A repeated request changes nothing and says so. */
  lemma RepeatChangesNothing(targets: seq<Target>, hash: Hash, events: seq<Event>, e: Event)
    requires Injective(hash) && Proper(e)
    ensures var w := Run(targets, hash, events);
            var report := Request(targets, hash, w, e.subject.kind, e.subject.value, e.requester, e.at).1;
            && report.Ok?
            && (report.value.alreadyErased <==> Asked(events, e.subject))
            && (Asked(events, e.subject) ==> Step(targets, hash, w, e) == w)
  {
    hide Cascade, Asked, Run, Subjects, Injective;
    LedgerIsFirstRequests(targets, hash, events);
    HasExactly(hash, Run(targets, hash, events).ledger, Subjects(events), e.subject);
    SubjectsAreTheAsked(events, e.subject);
  }

  /** Any run of requests leaves the stores and the ledger as the run without its repeats does. */
  lemma {:induction false} RepeatsDoNotMatter(targets: seq<Target>, hash: Hash, events: seq<Event>)
    requires Injective(hash)
    ensures Run(targets, hash, WithoutRepeats(events)) == Run(targets, hash, events)
  {
    hide Step, Asked, Injective;
    if events != [] {
      var n := |events| - 1;
      RepeatsDoNotMatter(targets, hash, events[..n]);
      var kept := WithoutRepeats(events[..n]);
      if Proper(events[n]) && Asked(events[..n], events[n].subject) {
        RepeatChangesNothing(targets, hash, events[..n], events[n]);
        assert WithoutRepeats(events) == kept;
      } else {
        assert WithoutRepeats(events) == kept + [events[n]];
        assert (kept + [events[n]])[..|kept|] == kept;
      }
    }
  }

  // ----- What is left of a subject ------------------------------------------

  ghost predicate Occurs(m: Entities, value: string) {
    exists k :: k in m && k.1 == value
  }

  lemma StepKeepsKeyed(targets: seq<Target>, hash: Hash, w: World, e: Event)
    requires Keyed(w.stores.entities)
    ensures Keyed(Step(targets, hash, w, e).stores.entities)
  {
    hide Cascade, Redact, EraseUser, Has, Tombstone;
    if e.Asking? {
      CascadeEffect(targets, w.stores, e.subject, Tombstone(hash, e.subject));
      RedactEffect(w.stores.entities, e.subject.value, Tombstone(hash, e.subject), None);
      EraseUserEffect(w.stores, e.subject.value);
    }
  }

  lemma {:induction false} RunIsKeyed(targets: seq<Target>, hash: Hash, events: seq<Event>)
    ensures Keyed(Run(targets, hash, events).stores.entities)
  {
    hide Step;
    if events != [] {
      RunIsKeyed(targets, hash, events[..|events| - 1]);
      StepKeepsKeyed(targets, hash, Run(targets, hash, events[..|events| - 1]), events[|events| - 1]);
    }
  }

  predicate Adds(e: Event, subject: Subject) {
    !Blank(subject.value)
    && if subject.kind == Entity then e.Seeing? && e.value == subject.value else e.Joining? && e.user == subject.value
  }

  /** Whether the stores still hold the subject under its own name. */
  ghost predicate Present(s: Stores, subject: Subject) {
    if subject.kind == Entity then Occurs(s.entities, subject.value) else subject.value in s.users
  }

  /** Only an addition brings a subject in, and only its own first request takes it out. */
  lemma PresenceAfterStep(targets: seq<Target>, hash: Hash, w: World, e: Event, subject: Subject)
    requires Keyed(w.stores.entities) && NotATombstone(hash, subject.value) && Reaches(targets, subject.kind)
    ensures Present(Step(targets, hash, w, e).stores, subject)
            <==> Adds(e, subject)
                 || (Present(w.stores, subject)
                     && !(Proper(e) && e.subject == subject && !Has(w.ledger, Tombstone(hash, subject))))
  {
    hide Cascade, Redact, EraseUser, Has, NotATombstone, Keyed;
    if e.Asking? {
      var tombstone := Tombstone(hash, e.subject);
      TombstoneIsNot(hash, e.subject, subject.value);
      CascadeEffect(targets, w.stores, e.subject, tombstone);
      EraseUserEffect(w.stores, e.subject.value);
      PresenceAfterRedact(w.stores.entities, e.subject.value, tombstone, subject.value);
    } else if e.Seeing? {
      PresenceAfterAdd(w.stores.entities, e, subject.value);
    }
  }

  lemma TombstoneIsNot(hash: Hash, s: Subject, value: string)
    requires NotATombstone(hash, value)
    ensures Tombstone(hash, s) != value
  {
  }

  lemma PresenceAfterRedact(m: Entities, value: string, tombstone: string, v: string)
    requires Keyed(m) && tombstone != v
    ensures Occurs(Redact(m, value, tombstone, None), v) <==> Occurs(m, v) && value != v
  {
    hide Redact;
    RedactEffect(m, value, tombstone, None);
  }

  lemma PresenceAfterAdd(m: Entities, e: Event, v: string)
    requires e.Seeing?
    ensures Occurs(m[(e.kind, e.value) := Row(e.kind, e.value, e.meta)], v) <==> Occurs(m, v) || e.value == v
  {
    var m' := m[(e.kind, e.value) := Row(e.kind, e.value, e.meta)];
    assert (e.kind, e.value) in m';
    if Occurs(m, v) {
      var k :| k in m && k.1 == v;
      assert k in m';
    }
  }

  /** Some event from a point of the run on adds the subject. */
  ghost predicate AddedSince(events: seq<Event>, i: int, subject: Subject) {
    exists j :: i <= j < |events| && 0 <= j && Adds(events[j], subject)
  }

  lemma AddedSinceOneMore(events: seq<Event>, i: int, subject: Subject)
    requires events != [] && i <= |events| - 1
    ensures var n := |events| - 1;
            AddedSince(events, i, subject) <==> AddedSince(events[..n], i, subject) || Adds(events[n], subject)
  {
    var n := |events| - 1;
    if AddedSince(events[..n], i, subject) {
      var j :| i <= j < n && 0 <= j && Adds(events[..n][j], subject);
      assert Adds(events[j], subject);
    }
    if AddedSince(events, i, subject) {
      var j :| i <= j < |events| && 0 <= j && Adds(events[j], subject);
      assert j < n ==> events[..n][j] == events[j];
    }
  }

  /**
   * After the first request for a subject, the stores hold the subject again exactly when something added it
   * after that request: the ledger answers later requests, so a value that comes back stays.
   */
  lemma {:induction false} ErasedUntilAddedAgain(targets: seq<Target>, hash: Hash, events: seq<Event>, i: nat)
    requires Injective(hash) && i < |events| && Proper(events[i]) && !Asked(events[..i], events[i].subject)
    requires NotATombstone(hash, events[i].subject.value) && Reaches(targets, events[i].subject.kind)
    ensures Present(Run(targets, hash, events).stores, events[i].subject) <==> AddedSince(events, i + 1, events[i].subject)
  {
    hide Step, Asked, Injective, Present, Adds, Reaches, NotATombstone, Keyed, Has, Tombstone, AddedSince;
    var n := |events| - 1;
    var subject, before := events[i].subject, Run(targets, hash, events[..n]);
    RunIsKeyed(targets, hash, events[..n]);
    PresenceAfterStep(targets, hash, before, events[n], subject);
    LedgerHasExactly(targets, hash, events[..n], subject);
    RequestsAddNothing(events[i], subject);
    if i == n {
      NothingAddedSinceEnd(events, subject);
    } else {
      assert events[..n][..i] == events[..i] && events[..n][i] == events[i];
      AddedSinceOneMore(events, i + 1, subject);
      ErasedUntilAddedAgain(targets, hash, events[..n], i);
      AskedAt(events[..n], i);
    }
  }

  lemma RequestsAddNothing(e: Event, subject: Subject)
    requires e.Asking?
    ensures !Adds(e, subject)
  {
  }

  lemma NothingAddedSinceEnd(events: seq<Event>, subject: Subject)
    ensures !AddedSince(events, |events|, subject)
  {
  }

  lemma AskedAt(events: seq<Event>, i: nat)
    requires i < |events| && Proper(events[i])
    ensures Asked(events, events[i].subject)
  {
  }

  lemma LedgerHasExactly(targets: seq<Target>, hash: Hash, events: seq<Event>, subject: Subject)
    requires Injective(hash)
    ensures Has(Run(targets, hash, events).ledger, Tombstone(hash, subject)) <==> Asked(events, subject)
  {
    hide Run, Subjects, Asked, Has, Tombstone, Injective;
    LedgerIsFirstRequests(targets, hash, events);
    HasExactly(hash, Run(targets, hash, events).ledger, Subjects(events), subject);
    SubjectsAreTheAsked(events, subject);
  }

  // ----- What is conserved --------------------------------------------------

  /** Nothing that is added reads like a tombstone. */
  ghost predicate PlainAdditions(hash: Hash, events: seq<Event>) {
    forall i :: 0 <= i < |events| && events[i].Seeing? ==> NotATombstone(hash, events[i].value)
  }

  lemma {:induction false} TombstonesOnlyOfErased(targets: seq<Target>, hash: Hash, events: seq<Event>, subject: Subject)
    requires Injective(hash) && PlainAdditions(hash, events)
    requires Occurs(Run(targets, hash, events).stores.entities, Tombstone(hash, subject))
    ensures Asked(events, subject)
  {
    hide Step, Asked, Injective, Keyed, Has, Tombstone, Occurs, NotATombstone;
    if events == [] {
      NothingOccurs(Tombstone(hash, subject));
    } else {
      var n := |events| - 1;
      var before := Run(targets, hash, events[..n]);
      RunIsKeyed(targets, hash, events[..n]);
      AskedOneMore(events, subject);
      assert PlainAdditions(hash, events[..n]) by {
        assert forall i :: 0 <= i < n ==> events[..n][i] == events[i];
      }
      if Occurs(before.stores.entities, Tombstone(hash, subject)) {
        TombstonesOnlyOfErased(targets, hash, events[..n], subject);
      } else {
        TombstoneAppears(targets, hash, before, events[n], subject);
      }
    }
  }

  lemma NothingOccurs(value: string)
    ensures !Occurs(FRESH.stores.entities, value)
  {
  }

  lemma TombstoneAppears(targets: seq<Target>, hash: Hash, w: World, e: Event, subject: Subject)
    requires Injective(hash) && Keyed(w.stores.entities)
    requires e.Seeing? ==> NotATombstone(hash, e.value)
    requires !Occurs(w.stores.entities, Tombstone(hash, subject))
    requires Occurs(Step(targets, hash, w, e).stores.entities, Tombstone(hash, subject))
    ensures Proper(e) && e.subject == subject
  {
    hide Cascade, Redact, Has, Injective, NotATombstone, Keyed, Tombstone, Occurs, EraseUser;
    if e.Asking? {
      CascadeEffect(targets, w.stores, e.subject, Tombstone(hash, e.subject));
      EraseUserEffect(w.stores, e.subject.value);
      OccursAfterRedact(w.stores.entities, e.subject.value, Tombstone(hash, e.subject), Tombstone(hash, subject));
      if Tombstone(hash, e.subject) == Tombstone(hash, subject) {
        TombstonesDiffer(hash, e.subject, subject);
      }
    } else if e.Seeing? {
      PresenceAfterAdd(w.stores.entities, e, Tombstone(hash, subject));
      TombstoneIsNot(hash, subject, e.value);
    }
  }

  lemma OccursAfterRedact(m: Entities, value: string, tombstone: string, v: string)
    requires Keyed(m)
    ensures Occurs(Redact(m, value, tombstone, None), v) ==> Occurs(m, v) || v == tombstone
  {
    hide Redact;
    RedactEffect(m, value, tombstone, None);
  }

  /**
   * In a run whose entity values are never tombstones, an erasure keeps the number of entity rows, and every
   * row with another value is as it was.
   */
  lemma ErasureConservesEntities(targets: seq<Target>, hash: Hash, events: seq<Event>, e: Event)
    requires Injective(hash) && PlainAdditions(hash, events) && e.Asking?
    ensures var before, after := Run(targets, hash, events).stores.entities,
                                 Step(targets, hash, Run(targets, hash, events), e).stores.entities;
            && |after| == |before|
            && forall k :: k in before && k.1 != e.subject.value ==> k in after && after[k] == before[k]
  {
    hide Run, Cascade, Redact, Has, Injective, Tombstone, EraseUser, Reaches, Asked, PlainAdditions;
    var w, tombstone := Run(targets, hash, events), Tombstone(hash, e.subject);
    RunIsKeyed(targets, hash, events);
    if Proper(e) && !Has(w.ledger, tombstone) {
      LedgerHasExactly(targets, hash, events, e.subject);
      assert !Occurs(w.stores.entities, tombstone) by {
        if Occurs(w.stores.entities, tombstone) {
          TombstonesOnlyOfErased(targets, hash, events, e.subject);
        }
      }
      CascadeEffect(targets, w.stores, e.subject, tombstone);
      EraseUserEffect(w.stores, e.subject.value);
      RedactEffect(w.stores.entities, e.subject.value, tombstone, None);
      CountConservedExactly(w.stores.entities, e.subject.value, tombstone, None);
    }
  }

  // ----- The keys of an erased user -----------------------------------------

  /** The event gives keys to an owner: it issues one, or renames another owner's. */
  predicate GivesKeys(e: Event, owner: string) {
    e.KeyWork? && match e.event
                  case Issuing(req, _) => req.owner == owner
                  case Erasing(_, replacement) => replacement == owner
                  case _ => false
  }

  lemma KeyWorkGivesNone(s: ApiKeys.Store, event: ApiKeys.Event, interval: int, owner: string)
    requires ApiKeys.OwnedBy(s, owner) == {} && !GivesKeys(KeyWork(event, interval), owner)
    ensures ApiKeys.OwnedBy(ApiKeys.Step(s, event, interval), owner) == {}
  {
    var s' := ApiKeys.Step(s, event, interval);
    forall id | id in s'.byId ensures s'.byId[id].owner != owner {
      assert id in s.byId ==> (s.byId[id].owner == owner <==> id in ApiKeys.OwnedBy(s, owner));
    }
  }

  lemma StepGivesNoKeys(targets: seq<Target>, hash: Hash, w: World, e: Event, owner: string)
    requires Keyed(w.stores.entities)
    requires ApiKeys.OwnedBy(w.stores.keys, owner) == {} && !GivesKeys(e, owner)
    ensures ApiKeys.OwnedBy(Step(targets, hash, w, e).stores.keys, owner) == {}
  {
    hide Cascade, EraseUser, Redact, Has, Keyed, ApiKeys.Step;
    match e
    case Asking(subject, _, _) =>
      CascadeEffect(targets, w.stores, subject, Tombstone(hash, subject));
      EraseUserEffect(w.stores, subject.value);
      var keys := Step(targets, hash, w, e).stores.keys;
      forall id | id in keys.byId ensures keys.byId[id].owner != owner {
        assert id in w.stores.keys.byId && (w.stores.keys.byId[id].owner == owner <==> id in ApiKeys.OwnedBy(w.stores.keys, owner));
      }
    case KeyWork(event, interval) => KeyWorkGivesNone(w.stores.keys, event, interval, owner);
    case _ =>
  }

  /** The first request for a user who is there takes all the user's keys. */
  lemma RequestTakesKeys(targets: seq<Target>, hash: Hash, w: World, e: Event)
    requires Keyed(w.stores.entities) && Proper(e) && e.subject.kind == User && Reaches(targets, User)
    requires e.subject.value in w.stores.users && !Has(w.ledger, Tombstone(hash, e.subject))
    ensures ApiKeys.OwnedBy(Step(targets, hash, w, e).stores.keys, e.subject.value) == {}
  {
    hide Cascade, EraseUser, Redact, Has, Keyed, Reaches;
    CascadeEffect(targets, w.stores, e.subject, Tombstone(hash, e.subject));
    EraseUserEffect(w.stores, e.subject.value);
  }

  /**
   * After the first request for a user who was there, no key of that owner exists until one is issued to the
   * owner again or another owner's keys are renamed to it.
   */
  lemma {:induction false} KeysStayGone(targets: seq<Target>, hash: Hash, events: seq<Event>, i: nat)
    requires Injective(hash) && i < |events| && Proper(events[i]) && !Asked(events[..i], events[i].subject)
    requires events[i].subject.kind == User && Reaches(targets, User)
    requires events[i].subject.value in Run(targets, hash, events[..i]).stores.users
    requires forall j :: i < j < |events| ==> !GivesKeys(events[j], events[i].subject.value)
    ensures ApiKeys.OwnedBy(Run(targets, hash, events).stores.keys, events[i].subject.value) == {}
  {
    hide Step, Asked, Injective, Reaches, Keyed, Has, Tombstone, GivesKeys, ApiKeys.OwnedBy;
    var n := |events| - 1;
    var before := Run(targets, hash, events[..n]);
    RunIsKeyed(targets, hash, events[..n]);
    if i == n {
      LedgerHasExactly(targets, hash, events[..n], events[i].subject);
      RequestTakesKeys(targets, hash, before, events[n]);
    } else {
      assert events[..n][..i] == events[..i];
      KeysStayGone(targets, hash, events[..n], i);
      StepGivesNoKeys(targets, hash, before, events[n], events[i].subject.value);
    }
  }
}
