/** The erasure service, its ledger and its stores as they run. */
module ErasureServiceObject {
  import opened Wrappers
  import opened Erasure
  import opened Text
  import ApiKeys

  class InMemoryErasureLedger {
    var entries: seq<LedgerEntry>

    constructor ()
      ensures entries == []
    {
      entries := [];
    }

    method HasTombstone(tombstone: string) returns (found: bool)
      ensures found <==> Has(entries, tombstone)
    {
      var i := 0;
      while i < |entries|
        invariant 0 <= i <= |entries|
        invariant forall j :: 0 <= j < i ==> entries[j].tombstone != tombstone
      {
        if entries[i].tombstone == tombstone {
          return true;
        }
        i := i + 1;
      }
      found := false;
    }

    method Append(entry: LedgerEntry)
      modifies this
      ensures entries == old(entries) + [entry]
    {
      entries := entries + [entry];
    }
  }

  class InMemoryEntityStore {
    var entities: Entities

    constructor ()
      ensures entities == map[]
    {
      entities := map[];
    }

    /** Register an entity; one without a value is refused. */
    method Add(kind: string, value: string, meta: string) returns (accepted: bool)
      modifies this
      ensures accepted <==> !Blank(value)
      ensures entities == if accepted then old(entities)[(kind, value) := Row(kind, value, meta)] else old(entities)
    {
      if Blank(value) {
        return false;
      }
      entities := entities[(kind, value) := Row(kind, value, meta)];
      accepted := true;
    }

    /** Go through a snapshot of the rows and move each one that holds the value. */
    method RedactValue(value: string, replacement: string, kind: Option<string>) returns (affected: nat)
      requires Keyed(entities)
      modifies this
      ensures entities == Redact(old(entities), value, replacement, kind)
      ensures affected == |Named(old(entities), value, kind)|
    {
      hide RedactSome, Size;
      var rows := entities;
      ghost var named := Named(rows, value, kind);
      ghost var done: set<EntityKey> := {};
      var todo := rows.Keys;
      affected := 0;
      RedactNone(rows, value, replacement);
      SizeOneMore({}, ("", ""));
      while todo != {}
        invariant todo <= rows.Keys && todo !! done
        invariant done <= named <= done + todo
        invariant entities == RedactSome(rows, done, value, replacement)
        invariant affected == Size(done)
        decreases todo
      {
        var key :| key in todo;
        todo := todo - {key};
        if rows[key].value == value && OfKind(key, kind) {
          RedactOneMore(rows, done, key, value, replacement, kind);
          SizeOneMore(done, key);
          entities := entities[(key.0, replacement) := rows[key].(value := replacement)];
          if key.1 != replacement {
            entities := entities - {key};
          }
          done, affected := done + {key}, affected + 1;
        }
      }
      assert done == named;
      SizeIs(named);
    }
  }

  function Size(keys: set<EntityKey>): nat {
    |keys|
  }

  lemma SizeOneMore(keys: set<EntityKey>, key: EntityKey)
    ensures Size({}) == 0 && (key !in keys ==> Size(keys + {key}) == Size(keys) + 1)
  {
  }

  lemma SizeIs(keys: set<EntityKey>)
    ensures Size(keys) == |keys|
  {
  }

  lemma RedactNone(m: Entities, value: string, replacement: string)
    ensures RedactSome(m, {}, value, replacement) == m
  {
  }

  lemma RedactOneMore(m: Entities, keys: set<EntityKey>, key: EntityKey, value: string, replacement: string,
                      kind: Option<string>)
    requires Keyed(m) && keys <= Named(m, value, kind) && key in Named(m, value, kind) && key !in keys
    ensures var moved := RedactSome(m, keys, value, replacement)[(key.0, replacement) := m[key].(value := replacement)];
            RedactSome(m, keys + {key}, value, replacement) == if key.1 != replacement then moved - {key} else moved
  {
    hide Moved, Named;
    assert key == (key.0, value) && key in m && m[key].value == value by { NamedHere(m, key, value, kind); }
    if value != replacement {
      MovedOneMore(keys, key, replacement);
      MovedKeys(keys, replacement);
      forall k | k in keys ensures k in m {
        NamedHere(m, k, value, kind);
      }
      MoveOneMore(m, keys, key, value, replacement);
    }
  }

  lemma NamedHere(m: Entities, key: EntityKey, value: string, kind: Option<string>)
    requires Keyed(m) && key in Named(m, value, kind)
    ensures key == (key.0, value) && key in m && m[key].value == value
  {
  }

  lemma MoveOneMore(m: Entities, keys: set<EntityKey>, key: EntityKey, value: string, replacement: string)
    requires value != replacement && key == (key.0, value) && key in m && key !in keys
    requires forall k :: k in keys ==> k in m
    requires Moved(keys + {key}, replacement) == Moved(keys, replacement) + {(key.0, replacement)}
    requires forall k :: k in Moved(keys, replacement) ==> k.1 == replacement
    ensures RedactSome(m, keys + {key}, value, replacement)
            == RedactSome(m, keys, value, replacement)[(key.0, replacement) := m[key].(value := replacement)] - {key}
  {
    hide Moved;
    var some, all := RedactSome(m, keys, value, replacement), RedactSome(m, keys + {key}, value, replacement);
    assert all.Keys == some.Keys + {(key.0, replacement)} - {key};
  }

  lemma MovedOneMore(keys: set<EntityKey>, key: EntityKey, replacement: string)
    ensures Moved(keys + {key}, replacement) == Moved(keys, replacement) + {(key.0, replacement)}
  {
  }

  lemma MovedKeys(keys: set<EntityKey>, replacement: string)
    ensures forall k :: k in Moved(keys, replacement) ==> k.1 == replacement
  {
  }

  class InMemoryUserStore {
    var users: set<string>
    const keys: ApiKeys.InMemoryApiKeyStore

    constructor (keys: ApiKeys.InMemoryApiKeyStore)
      ensures users == {} && this.keys == keys
    {
      users, this.keys := {}, keys;
    }

    /** Register a user; one without an identifier is refused. */
    method Add(user: string) returns (accepted: bool)
      modifies this`users
      ensures accepted <==> !Blank(user)
      ensures users == if accepted then old(users) + {user} else old(users)
    {
      if Blank(user) {
        return false;
      }
      users := users + {user};
      accepted := true;
    }

    method EraseOwner(owner: string) returns (affected: nat)
      modifies this, keys`byId
      ensures forall entities ::
                (Stores(entities, users, keys.State()), affected)
                == EraseUser(Stores(entities, old(users), old(keys.State())), owner)
    {
      if owner !in users {
        return 0;
      }
      users := users - {owner};
      var _ := keys.EraseKeysOf(owner, "");
      affected := 1;
    }
  }

  /** The names of the targets as a list. */
  function NameList(targets: seq<Target>): seq<string> {
    seq(|targets|, i requires 0 <= i < |targets| => targets[i].name)
  }

  ghost predicate Distinct(names: seq<string>) {
    forall i, j :: 0 <= i < j < |names| ==> names[i] != names[j]
  }

  function AsSet(names: seq<string>): set<string> {
    set i | 0 <= i < |names| :: names[i]
  }

  lemma DistinctOneMore(names: seq<string>)
    requires names != []
    ensures var n := |names| - 1;
            Distinct(names) <==> Distinct(names[..n]) && names[n] !in AsSet(names[..n])
  {
    var n := |names| - 1;
    assert forall i :: 0 <= i < n ==> names[..n][i] == names[i];
    if Distinct(names[..n]) && names[n] !in AsSet(names[..n]) {
      assert forall i :: 0 <= i < n ==> names[..n][i] in AsSet(names[..n]);
    }
  }

  lemma AsSetOneMore(names: seq<string>)
    requires names != []
    ensures var n := |names| - 1;
            AsSet(names) == AsSet(names[..n]) + {names[n]}
  {
    var n := |names| - 1;
    forall x | x in AsSet(names) ensures x in AsSet(names[..n]) + {names[n]} {
      var i :| 0 <= i < |names| && names[i] == x;
      assert i < n ==> names[..n][i] == x;
    }
    assert forall i :: 0 <= i < n ==> names[..n][i] == names[i];
  }

  /** Comparing the number of names with the number of different names tells whether one repeats. */
  lemma {:induction false} DistinctBySize(names: seq<string>)
    ensures |AsSet(names)| <= |names|
    ensures |AsSet(names)| == |names| <==> Distinct(names)
  {
    hide Distinct, AsSet;
    if names == [] {
      NoNames();
    } else {
      var n := |names| - 1;
      DistinctBySize(names[..n]);
      DistinctOneMore(names);
      AsSetOneMore(names);
      var before := AsSet(names[..n]);
      assert names[n] in before ==> before + {names[n]} == before;
    }
  }

  lemma NoNames()
    ensures AsSet([]) == {} && Distinct([])
  {
  }

  class ErasureService {
    const targets: seq<Target>
    const hash: Hash
    const ledger: InMemoryErasureLedger
    const entityStore: InMemoryEntityStore
    const userStore: InMemoryUserStore

    constructor (targets: seq<Target>, hash: Hash, ledger: InMemoryErasureLedger,
                 entityStore: InMemoryEntityStore, userStore: InMemoryUserStore)
      ensures this.targets == targets && this.hash == hash && this.ledger == ledger
      ensures this.entityStore == entityStore && this.userStore == userStore
    {
      this.targets, this.hash, this.ledger := targets, hash, ledger;
      this.entityStore, this.userStore := entityStore, userStore;
    }

    /** A service without targets, or with two of one name, is refused. */
    static method Build(targets: seq<Target>, hash: Hash, ledger: InMemoryErasureLedger,
                        entityStore: InMemoryEntityStore, userStore: InMemoryUserStore)
      returns (r: Result<ErasureService, Refusal>)
      ensures r.Ok? <==> targets != [] && Distinct(NameList(targets))
      ensures r.Err? ==> r.error == if targets == [] then NoTargets else SameName
      ensures r.Ok? ==> fresh(r.value) && r.value.targets == targets && r.value.ledger == ledger
    {
      if targets == [] {
        return Err(NoTargets);
      }
      var names := NameList(targets);
      DistinctBySize(names);
      if |AsSet(names)| != |names| {
        return Err(SameName);
      }
      var service := new ErasureService(targets, hash, ledger, entityStore, userStore);
      r := Ok(service);
    }

    function Held(): Stores
      reads entityStore, userStore, userStore.keys
    {
      Stores(entityStore.entities, userStore.users, userStore.keys.State())
    }

    function State(): World
      reads ledger, entityStore, userStore, userStore.keys
    {
      World(Held(), ledger.entries)
    }

    /** Name the subject, then erase it; a request that names none changes nothing. */
    method Ask(kind: Kind, value: string, requester: string, at: int) returns (r: Result<Report, Refusal>)
      requires Keyed(entityStore.entities)
      modifies ledger, entityStore, userStore, userStore.keys`byId
      ensures (State(), r) == Request(targets, hash, old(State()), kind, value, requester, at)
      ensures Keyed(entityStore.entities)
    {
      var subject := NewSubject(kind, value);
      if subject.Err? {
        return Err(subject.error);
      }
      r := EraseSubject(subject.value, requester, at);
    }

    method EraseOne(t: Target, subject: Subject, tombstone: string) returns (affected: nat)
      requires Keyed(entityStore.entities)
      modifies entityStore, userStore, userStore.keys`byId
      ensures (Held(), affected) == EraseIn(t, old(Held()), subject, tombstone)
      ensures Keyed(entityStore.entities)
    {
      hide Redact;
      if !KindOf(t, subject.kind) {
        return 0;
      }
      ghost var before := entityStore.entities;
      match t
      case UserTarget(_) => affected := userStore.EraseOwner(subject.value);
      case EntityTarget(_) =>
        affected := entityStore.RedactValue(subject.value, tombstone, None);
        RedactEffect(before, subject.value, tombstone, None);
    }

    method EraseSubject(subject: Subject, requester: string, at: int) returns (r: Result<Report, Refusal>)
      requires Keyed(entityStore.entities)
      modifies ledger, entityStore, userStore, userStore.keys`byId
      ensures (State(), r) == Erase(targets, hash, old(State()), subject, requester, at)
      ensures Keyed(entityStore.entities)
    {
      hide EraseIn, Has, Tombstone;
      if Blank(requester) {
        return Err(NoRequester);
      }
      var tombstone := Tombstone(hash, subject);
      var repeated := ledger.HasTombstone(tombstone);
      if repeated {
        return Ok(Report(subject.kind, tombstone, at, Untouched(targets), true, None));
      }
      var outcomes: seq<Outcome>, i := [], 0;
      while i < |targets|
        invariant 0 <= i <= |targets|
        invariant (Held(), outcomes) == Cascade(targets[..i], old(Held()), subject, tombstone)
        invariant Keyed(entityStore.entities) && ledger.entries == old(ledger.entries)
      {
        var affected := EraseOne(targets[i], subject, tombstone);
        outcomes := outcomes + [Outcome(targets[i].name, affected)];
        i := i + 1;
        assert targets[..i][..i - 1] == targets[..i - 1];
      }
      assert targets[..i] == targets;
      var sequence := |ledger.entries| + 1;
      ledger.Append(LedgerEntry(sequence, tombstone, subject.kind, at, requester, outcomes));
      r := Ok(Report(subject.kind, tombstone, at, outcomes, false, Some(sequence)));
    }
  }
}
