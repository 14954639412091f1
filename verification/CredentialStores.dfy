/** The two credential stores: a map with a keyring, and a table with a keyring. */
module CredentialStores {
  import opened Accounts
  import opened Texts
  import opened Wrappers

  // ----- The keyring -----

  class InMemoryKeyring {
    var entries: map<string, string>

    constructor ()
      ensures entries == map[]
    {
      entries := map[];
    }

    method Store(keyId: string, secret: string)
      modifies this
      ensures entries == old(entries)[keyId := secret]
    {
      entries := entries[keyId := secret];
    }

    method Load(keyId: string) returns (secret: Option<string>)
      ensures secret == if keyId in entries then Some(entries[keyId]) else None
    {
      secret := if keyId in entries then Some(entries[keyId]) else None;
    }

    method Delete(keyId: string)
      modifies this
      ensures entries == old(entries) - {keyId}
    {
      entries := entries - {keyId};
    }
  }

  // ----- Sorting and picking -----

  ghost predicate DistinctKeys(list: seq<Account>) {
    forall i, j :: 0 <= i < j < |list| ==> list[i].Key() != list[j].Key()
  }

  lemma KeyLessTotal(a: Key, b: Key)
    ensures KeyLess(a, b) || a == b || KeyLess(b, a)
    ensures !(KeyLess(a, b) && KeyLess(b, a))
  {
    LessIsTotal(a.0, b.0);
    LessIsTotal(a.1, b.1);
  }

  lemma KeyLessTransitive(a: Key, b: Key, c: Key)
    requires KeyLess(a, b) && KeyLess(b, c)
    ensures KeyLess(a, c)
  {
    if Less(a.0, b.0) && Less(b.0, c.0) {
      LessIsTransitive(a.0, b.0, c.0);
    } else if a.0 == b.0 == c.0 {
      LessIsTransitive(a.1, b.1, c.1);
    }
  }

  /** One account put in its place. */
  method Insert(list: seq<Account>, a: Account) returns (r: seq<Account>)
    requires Sorted(list) && forall i :: 0 <= i < |list| ==> list[i].Key() != a.Key()
    ensures Sorted(r) && forall x :: x in r <==> x in list || x == a
  {
    hide KeyLess;
    var p := 0;
    while p < |list| && KeyLess(list[p].Key(), a.Key())
      invariant p <= |list|
      invariant forall i :: 0 <= i < p ==> KeyLess(list[i].Key(), a.Key())
    {
      p := p + 1;
    }
    forall i | p <= i < |list|
      ensures KeyLess(a.Key(), list[i].Key())
    {
      KeyLessTotal(a.Key(), list[p].Key());
      if i > p {
        KeyLessTransitive(a.Key(), list[p].Key(), list[i].Key());
      }
    }
    r := list[..p] + [a] + list[p..];
    assert list == list[..p] + list[p..];
  }

  method SortByKey(list: seq<Account>) returns (sorted: seq<Account>)
    requires DistinctKeys(list)
    ensures Sorted(sorted) && forall a :: a in sorted <==> a in list
  {
    hide KeyLess;
    sorted := [];
    for i := 0 to |list|
      invariant Sorted(sorted) && forall a :: a in sorted <==> a in list[..i]
    {
      forall j | 0 <= j < |sorted|
        ensures sorted[j].Key() != list[i].Key()
      {
        assert sorted[j] in list[..i];
      }
      assert list[..i + 1] == list[..i] + [list[i]];
      sorted := Insert(sorted, list[i]);
    }
    assert list[..|list|] == list;
  }

  /** The eligible account used least recently; the first in the list among equals. */
  method PickLeastRecent(candidates: seq<Account>, now: Time) returns (best: Option<Account>)
    requires Sorted(candidates) && forall a, b :: a in candidates && b in candidates ==> a.provider == b.provider
    ensures best.None? <==> forall a :: a in candidates ==> !a.EligibleAt(now)
    ensures best.Some? ==> best.value in candidates && best.value.EligibleAt(now)
    ensures best.Some? ==> forall a :: a in candidates && a.EligibleAt(now) ==> Preferred(best.value, a)
  {
    best := None;
    for i := 0 to |candidates|
      invariant best.None? <==> forall j :: 0 <= j < i ==> !candidates[j].EligibleAt(now)
      invariant best.Some? ==> best.value in candidates[..i] && best.value.EligibleAt(now)
      invariant best.Some? ==> forall j :: 0 <= j < i && candidates[j].EligibleAt(now) ==> Preferred(best.value, candidates[j])
    {
      var c := candidates[i];
      if c.EligibleAt(now) && (best.None? || UsedBefore(c.lastUsedAt, best.value.lastUsedAt)) {
        best := Some(c);
      } else if best.Some? {
        var k :| 0 <= k < i && candidates[k] == best.value;
        LessIrreflexive(c.provider);
        assert KeyLess(candidates[k].Key(), c.Key());
      }
    }
  }

  lemma LessIrreflexive(s: string)
    ensures !Less(s, s)
  {
    LessIsTotal(s, s);
  }

  // ----- The in-memory store -----

  class InMemoryCredentialStore {
    const catalog: map<string, string>
    const backend: InMemoryKeyring
    var rows: map<Key, Account>

    ghost function Contents(): State
      reads this, backend
    {
      State(rows, backend.entries)
    }

    ghost predicate Valid()
      reads this, backend
    {
      Inv(Contents())
    }

    constructor (catalog: map<string, string>)
      ensures this.catalog == catalog && Valid() && Contents() == EMPTY && fresh(backend)
    {
      this.catalog := catalog;
      backend := new InMemoryKeyring();
      rows := map[];
    }

    /** The loop over the rows of a provider that sets which one is the default. */
    method AssignDefault(provider: string, name: Option<string>)
      modifies this`rows
      ensures rows == Defaulted(old(rows), provider, name)
    {
      ghost var before := rows;
      var todo := rows.Keys;
      while todo != {}
        invariant todo <= rows.Keys == before.Keys
        invariant forall k :: k in rows ==> rows[k] == if k in todo then before[k] else Defaulted(before, provider, name)[k]
      {
        var k :| k in todo;
        todo := todo - {k};
        var row := rows[k];
        if row.provider == provider {
          rows := rows[k := row.(isDefault := name == Some(row.name))];
        }
      }
    }

    /** Rows of a provider. */
    method CountOf(provider: string) returns (count: nat)
      ensures count == 0 <==> !HasAccounts(rows, provider)
    {
      count := |set k | k in rows && rows[k].provider == provider|;
      CountedRows(rows, provider);
    }

    method Add(account: NewAccount, now: Time, id: string, keyId: string) returns (r: Reply)
      requires Valid() && Fresh(Contents(), Op.Add(account, now, id, keyId))
      modifies this`rows, backend
      ensures Step(catalog, old(Contents()), Op.Add(account, now, id, keyId), Contents(), r)
      ensures Valid()
    {
      hide Checked, Defaulted, HasAccounts, Inv, Fresh;
      ghost var before, op := Contents(), Op.Add(account, now, id, keyId);
      FreshRow(before, op);
      var endpoint := Checked(catalog, account);
      if endpoint.Err? {
        return Failed(endpoint.error);
      }
      backend.Store(keyId, account.apiKey);
      var row := Account(id, account.provider, account.name, endpoint.value, keyId, account.setDefault, Active, None, None, now);
      var key := row.Key();
      if key in rows {
        backend.Delete(keyId);
        assert Contents() == before;
        return Failed(Duplicate(key));
      }
      if row.isDefault {
        AssignDefault(row.provider, None);
      }
      var count := CountOf(row.provider);
      DefaultedHas(before.rows, row.provider);
      if count == 0 {
        row := row.(isDefault := true);
      }
      rows := rows[key := row];
      r := Added(row);
      StepKeepsInv(catalog, before, op, Contents(), r);
    }

    /** The values of the map, of one provider if one is asked for, in no particular order. */
    method Values(provider: Option<string>) returns (list: seq<Account>)
      requires UnderKeys(rows)
      ensures DistinctKeys(list) && forall a :: a in list <==> Selected(rows, provider, a)
    {
      list := [];
      var todo := rows.Keys;
      while todo != {}
        invariant todo <= rows.Keys
        invariant DistinctKeys(list)
        invariant forall a :: a in list <==> Selected(rows, provider, a) && a.Key() !in todo
      {
        var k :| k in todo;
        todo := todo - {k};
        var row := rows[k];
        assert row.Key() == k;
        if provider.None? || row.provider == provider.value {
          list := list + [row];
        }
      }
    }

    method List() returns (r: Reply)
      requires Valid()
      ensures Step(catalog, Contents(), Op.List, Contents(), r)
    {
      var all := Values(None);
      all := SortByKey(all);
      r := Reply.Accounts(all);
    }

    method ListForProvider(provider: string) returns (r: Reply)
      requires Valid()
      ensures Step(catalog, Contents(), Op.ListForProvider(provider), Contents(), r)
    {
      var filtered := Values(Some(provider));
      filtered := SortByKey(filtered);
      r := Reply.Accounts(filtered);
    }

    method Remove(key: Key) returns (r: Reply)
      requires Valid()
      modifies this`rows, backend
      ensures Step(catalog, old(Contents()), Op.Remove(key), Contents(), r)
      ensures Valid()
    {
      hide Inv;
      ghost var before := Contents();
      if key !in rows {
        return Failed(NotFound(key));
      }
      var removed := rows[key];
      rows := rows - {key};
      backend.Delete(removed.keyId);
      r := Done;
      StepKeepsInv(catalog, before, Op.Remove(key), Contents(), r);
    }

    method SetDefault(key: Key) returns (r: Reply)
      requires Valid()
      modifies this`rows
      ensures Step(catalog, old(Contents()), Op.SetDefault(key), Contents(), r)
      ensures Valid()
    {
      hide Inv, Defaulted;
      ghost var before := Contents();
      if key !in rows {
        return Failed(NotFound(key));
      }
      AssignDefault(key.0, Some(key.1));
      r := Done;
      StepKeepsInv(catalog, before, Op.SetDefault(key), Contents(), r);
    }

    method GetDefault(provider: string) returns (r: Reply)
      requires Valid()
      ensures Step(catalog, Contents(), Op.GetDefault(provider), Contents(), r)
    {
      var todo := rows.Keys;
      while todo != {}
        invariant todo <= rows.Keys
        invariant forall k :: k in rows && k !in todo ==> !(rows[k].provider == provider && rows[k].isDefault)
      {
        var k :| k in todo;
        todo := todo - {k};
        if rows[k].provider == provider && rows[k].isDefault {
          return Reply.Default(Some(rows[k]));
        }
      }
      r := Reply.Default(None);
    }

    method LoadKey(key: Key) returns (r: Reply)
      requires Valid()
      ensures Step(catalog, Contents(), Op.LoadKey(key), Contents(), r)
    {
      if key !in rows {
        return Failed(NotFound(key));
      }
      var account := rows[key];
      var secret := backend.Load(account.keyId);
      r := if secret.Some? then Secret(secret.value) else Failed(OrphanedKey(key, account.keyId));
    }

    method Resolve(provider: string, now: Time) returns (r: Reply)
      requires Valid()
      ensures Step(catalog, Contents(), Op.Resolve(provider, now), Contents(), r)
    {
      hide IsListing, Sorted, Preferred, IsChoice, ResolveStep, Inv, UsedBefore;
      var listed := ListForProvider(provider);
      var candidates := listed.accounts;
      ListedProvider(rows, provider, candidates);
      var chosen := PickLeastRecent(candidates, now);
      ListedChoice(rows, provider, now, candidates, chosen);
      if chosen.None? {
        NoneIsStep(Contents(), provider, now);
        return Failed(NoEligible(provider));
      }
      var a := chosen.value;
      ChoiceIsRow(rows, provider, now, a);
      var loaded := LoadKey(a.Key());
      r := if loaded.Secret? then Chosen(a, loaded.secret) else loaded;
      ChosenIsStep(Contents(), provider, now, a, r);
    }

    /** The three operations that rewrite one row. */
    method MarkCooldown(key: Key, until: Time) returns (r: Reply)
      requires Valid()
      modifies this`rows
      ensures Step(catalog, old(Contents()), Op.MarkCooldown(key, until), Contents(), r)
      ensures Valid()
    {
      hide Inv;
      ghost var before := Contents();
      if key !in rows {
        return Failed(NotFound(key));
      }
      rows := rows[key := rows[key].(status := Cooldown)];
      rows := rows[key := rows[key].(cooldownUntil := Some(until))];
      r := Done;
      StepKeepsInv(catalog, before, Op.MarkCooldown(key, until), Contents(), r);
    }

    method MarkDead(key: Key) returns (r: Reply)
      requires Valid()
      modifies this`rows
      ensures Step(catalog, old(Contents()), Op.MarkDead(key), Contents(), r)
      ensures Valid()
    {
      hide Inv;
      ghost var before := Contents();
      if key !in rows {
        return Failed(NotFound(key));
      }
      rows := rows[key := rows[key].(status := Dead)];
      rows := rows[key := rows[key].(cooldownUntil := None)];
      r := Done;
      StepKeepsInv(catalog, before, Op.MarkDead(key), Contents(), r);
    }

    method ClearStatus(key: Key) returns (r: Reply)
      requires Valid()
      modifies this`rows
      ensures Step(catalog, old(Contents()), Op.ClearStatus(key), Contents(), r)
      ensures Valid()
    {
      hide Inv;
      ghost var before := Contents();
      if key !in rows {
        return Failed(NotFound(key));
      }
      rows := rows[key := rows[key].(status := Active)];
      rows := rows[key := rows[key].(cooldownUntil := None)];
      r := Done;
      StepKeepsInv(catalog, before, Op.ClearStatus(key), Contents(), r);
    }

    method Perform(op: Op) returns (r: Reply)
      requires Valid() && Fresh(Contents(), op)
      modifies this`rows, backend
      ensures Step(catalog, old(Contents()), op, Contents(), r)
      ensures Valid()
    {
      hide Step, Inv, Fresh;
      match op {
        case Add(account, now, id, keyId) => r := Add(account, now, id, keyId);
        case List => r := List();
        case ListForProvider(provider) => r := ListForProvider(provider);
        case Remove(key) => r := Remove(key);
        case SetDefault(key) => r := SetDefault(key);
        case GetDefault(provider) => r := GetDefault(provider);
        case LoadKey(key) => r := LoadKey(key);
        case Resolve(provider, now) => r := Resolve(provider, now);
        case MarkCooldown(key, until) => r := MarkCooldown(key, until);
        case MarkDead(key) => r := MarkDead(key);
        case ClearStatus(key) => r := ClearStatus(key);
      }
    }
  }

  lemma ChoiceIsRow(rows: map<Key, Account>, provider: string, now: Time, a: Account)
    requires IsChoice(rows, provider, now, a)
    ensures a.Key() in rows && rows[a.Key()] == a
  {
    hide Preferred;
  }

  lemma DefaultedHas(rows: map<Key, Account>, provider: string)
    ensures HasAccounts(Defaulted(rows, provider, None), provider) <==> HasAccounts(rows, provider)
  {
    if HasAccounts(rows, provider) {
      var k :| k in rows && rows[k].provider == provider;
      assert Defaulted(rows, provider, None)[k].provider == provider;
    }
  }

  lemma CountedRows(rows: map<Key, Account>, provider: string)
    ensures |set k | k in rows && rows[k].provider == provider| == 0 <==> !HasAccounts(rows, provider)
  {
    var s := set k | k in rows && rows[k].provider == provider;
    assert |s| == 0 <==> s == {};
    if HasAccounts(rows, provider) {
      var k :| k in rows && rows[k].provider == provider;
      assert k in s;
    } else {
      assert forall k :: k !in s;
    }
  }

  /** A choice among the listed accounts of a provider is a choice among its rows. */
  lemma ListedChoice(rows: map<Key, Account>, provider: string, now: Time, list: seq<Account>, best: Option<Account>)
    requires IsListing(rows, Some(provider), list)
    requires best.None? <==> forall a :: a in list ==> !a.EligibleAt(now)
    requires best.Some? ==> best.value in list && best.value.EligibleAt(now)
    requires best.Some? ==> forall a :: a in list && a.EligibleAt(now) ==> Preferred(best.value, a)
    ensures best.None? <==> forall a :: !Candidate(rows, provider, now, a)
    ensures best.Some? ==> IsChoice(rows, provider, now, best.value)
  {
    hide Sorted, Selected, Preferred;
    assert forall a :: a in list && a.EligibleAt(now) <==> Candidate(rows, provider, now, a);
  }

  lemma ListedProvider(rows: map<Key, Account>, provider: string, list: seq<Account>)
    requires IsListing(rows, Some(provider), list)
    ensures forall a, b :: a in list && b in list ==> a.provider == b.provider
    ensures Sorted(list)
  {
    hide Sorted;
  }

  lemma ChosenIsStep(s: State, provider: string, now: Time, a: Account, r: Reply)
    requires IsChoice(s.rows, provider, now, a) && r == ChosenReply(a, SecretOf(s, a.Key()))
    ensures ResolveStep(s, provider, now, r)
  {
    hide Preferred;
    assert Candidate(s.rows, provider, now, a);
  }

  lemma NoneIsStep(s: State, provider: string, now: Time)
    requires forall a :: !Candidate(s.rows, provider, now, a)
    ensures ResolveStep(s, provider, now, Failed(NoEligible(provider)))
  {
  }
}
