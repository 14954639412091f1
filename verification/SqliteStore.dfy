/** The store over a table and a keyring. A table is a set of rows; a transaction works on a copy
    that becomes the table when it commits, so that leaving it early is the rollback. */
module SqliteStore {
  import opened Accounts
  import opened CredentialStores
  import opened Texts
  import opened Wrappers

  /** A row as stored: times are texts with whole seconds, modelled as those seconds. */
  datatype TableRow = TableRow(
    id: string, provider: string, name: string, endpoint: string, keyId: string, isDefault: int,
    status: string, cooldownUntil: Option<int>, lastUsedAt: Option<int>, createdAt: int)
  {
    function Key(): Key { (provider, name) }
  }

  type Table = set<TableRow>

  // ----- Rows and accounts -----

  function Seconds(t: Time): int { t / SECOND }

  function AtSecond(seconds: Option<int>): Option<Time> {
    if seconds.Some? then Some(seconds.value * SECOND) else None
  }

  function StatusText(s: Status): string {
    match s case Active => "active" case Cooldown => "cooldown" case Dead => "dead"
  }

  function StatusFromText(s: string): Status {
    if s == "cooldown" then Cooldown else if s == "dead" then Dead else Active
  }

  function ToAccount(r: TableRow): Account {
    Account(r.id, r.provider, r.name, r.endpoint, r.keyId, r.isDefault != 0, StatusFromText(r.status),
            AtSecond(r.cooldownUntil), AtSecond(r.lastUsedAt), r.createdAt * SECOND)
  }

  /** The operation with its times to whole seconds. */
  function Truncated(op: Op): Op {
    match op
    case Add(account, now, id, keyId) => Op.Add(account, Floor(now), id, keyId)
    case MarkCooldown(key, until) => Op.MarkCooldown(key, Floor(until))
    case _ => op
  }

  /** Status texts are read back as written, and times as whole seconds. */
  lemma StoredThenRead(s: Status, t: Time)
    ensures StatusFromText(StatusText(s)) == s
    ensures AtSecond(Some(Seconds(t))) == Some(Floor(t))
  {
    assert StatusText(Active)[0] != StatusText(Cooldown)[0] && StatusText(Active)[0] != StatusText(Dead)[0];
    assert StatusText(Cooldown)[0] != StatusText(Dead)[0];
  }

  // ----- Tables and rows by key -----

  /** The table holds one row for every key of `rows`, which reads as the account there. */
  ghost predicate Represents(table: Table, rows: map<Key, Account>) {
    && (forall r :: r in table ==> r.Key() in rows && rows[r.Key()] == ToAccount(r))
    && (forall k :: k in rows ==> exists r :: r in table && r.Key() == k)
    && (forall q, r :: q in table && r in table && q.Key() == r.Key() ==> q == r)
    && (forall r :: r in table ==> r.isDefault == 0 || r.isDefault == 1)
  }

  /** The constraints of the table: primary key, two unique columns or pairs, the partial index that
      allows one default per provider, and the check on the flag. */
  predicate Constraints(table: Table) {
    && (forall q, r :: q in table && r in table && Conflict(q, r) ==> q == r)
    && (forall r :: r in table ==> r.isDefault == 0 || r.isDefault == 1)
  }

  predicate Conflict(q: TableRow, r: TableRow) {
    || q.id == r.id
    || q.Key() == r.Key()
    || q.keyId == r.keyId
    || (q.provider == r.provider && q.isDefault == 1 && r.isDefault == 1)
  }

  // ----- Statements -----

  /** `UPDATE … SET is_default = … WHERE provider = …`. */
  function UpdateDefaults(table: Table, provider: string): Table {
    set r | r in table :: WithoutFlag(r, provider)
  }

  function WithoutFlag(r: TableRow, provider: string): TableRow {
    if r.provider == provider then r.(isDefault := 0) else r
  }

  /** `UPDATE … SET is_default = 1 WHERE provider = … AND label = …`. */
  function UpdateDefault(table: Table, key: Key): Table {
    set r | r in table :: if r.Key() == key then r.(isDefault := 1) else r
  }

  function UpdateDefaultById(table: Table, id: string): Table {
    set r | r in table :: if r.id == id then r.(isDefault := 1) else r
  }

  /** `UPDATE … SET status = …, cooldown_until = … WHERE provider = … AND label = …`. */
  function UpdateStatus(table: Table, key: Key, status: string, cooldownUntil: Option<int>): Table {
    set r | r in table :: if r.Key() == key then r.(status := status, cooldownUntil := cooldownUntil) else r
  }

  function WithKey(table: Table, key: Key): Table {
    set r | r in table && r.Key() == key
  }

  function OfProvider(table: Table, provider: string): Table {
    set r | r in table && r.provider == provider
  }

  // ----- What statements mean for rows by key -----

  lemma UpdatedDefaults(table: Table, rows: map<Key, Account>, provider: string)
    requires Represents(table, rows)
    ensures Represents(UpdateDefaults(table, provider), Defaulted(rows, provider, None))
  {
    hide UpdateDefaults, Defaulted, WithoutFlag;
    var after, next := UpdateDefaults(table, provider), Defaulted(rows, provider, None);
    forall k | k in next
      ensures exists r :: r in after && r.Key() == k
    {
      UpdatedKey(table, rows, provider, k);
    }
    forall r | r in after
      ensures r.Key() in next && next[r.Key()] == ToAccount(r) && (r.isDefault == 0 || r.isDefault == 1)
    {
      UpdatedReads(table, rows, provider, r);
    }
    forall q, r | q in after && r in after && q.Key() == r.Key()
      ensures q == r
    {
      UpdatedFrom(table, provider, q);
      UpdatedFrom(table, provider, r);
    }
  }

  lemma UpdatedFrom(table: Table, provider: string, r: TableRow)
    requires r in UpdateDefaults(table, provider)
    ensures exists q :: q in table && q.Key() == r.Key() && r == WithoutFlag(q, provider)
  {
  }

  lemma UpdatedKey(table: Table, rows: map<Key, Account>, provider: string, k: Key)
    requires Represents(table, rows) && k in Defaulted(rows, provider, None)
    ensures exists r :: r in UpdateDefaults(table, provider) && r.Key() == k
  {
    assert k in rows;
    var r :| r in table && r.Key() == k;
    assert WithoutFlag(r, provider) in UpdateDefaults(table, provider) && WithoutFlag(r, provider).Key() == k;
  }

  lemma UpdatedReads(table: Table, rows: map<Key, Account>, provider: string, r: TableRow)
    requires Represents(table, rows) && r in UpdateDefaults(table, provider)
    ensures r.Key() in Defaulted(rows, provider, None) && Defaulted(rows, provider, None)[r.Key()] == ToAccount(r)
    ensures r.isDefault == 0 || r.isDefault == 1
  {
    hide UpdateDefaults;
    UpdatedFrom(table, provider, r);
    var q :| q in table && q.Key() == r.Key() && r == WithoutFlag(q, provider);
    assert rows[q.Key()] == ToAccount(q);
  }

  /** Rewriting the row under one key. */
  lemma UpdatedRow(table: Table, rows: map<Key, Account>, key: Key, row: TableRow, changed: TableRow)
    requires Represents(table, rows) && row in table && row.Key() == changed.Key() == key
    requires changed.isDefault == 0 || changed.isDefault == 1
    ensures Represents(table - {row} + {changed}, rows[key := ToAccount(changed)])
  {
    var after := table - {row} + {changed};
    var next := rows[key := ToAccount(changed)];
    forall k | k in next
      ensures exists r :: r in after && r.Key() == k
    {
      if k == key {
        assert changed in after;
      } else {
        var r :| r in table && r.Key() == k;
        assert r in after;
      }
    }
  }

  lemma InsertedRow(table: Table, rows: map<Key, Account>, row: TableRow)
    requires Represents(table, rows) && row.Key() !in rows && (row.isDefault == 0 || row.isDefault == 1)
    ensures Represents(table + {row}, rows[row.Key() := ToAccount(row)])
  {
    var after := table + {row};
    var next := rows[row.Key() := ToAccount(row)];
    forall k | k in next
      ensures exists r :: r in after && r.Key() == k
    {
      if k == row.Key() {
        assert row in after;
      } else {
        var r :| r in table && r.Key() == k;
        assert r in after;
      }
    }
  }

  lemma DeletedRow(table: Table, rows: map<Key, Account>, key: Key)
    requires Represents(table, rows)
    ensures Represents(table - WithKey(table, key), rows - {key})
  {
    var after := table - WithKey(table, key);
    forall k | k in rows - {key}
      ensures exists r :: r in after && r.Key() == k
    {
      var r :| r in table && r.Key() == k;
      assert r in after;
    }
  }

  /** A key has a row in the table exactly when it is in `rows`, and then one row. */
  lemma RowsWithKey(table: Table, rows: map<Key, Account>, key: Key)
    requires Represents(table, rows)
    ensures key !in rows ==> WithKey(table, key) == {}
    ensures key in rows ==> exists r :: r in table && r.Key() == key && WithKey(table, key) == {r}
    ensures |WithKey(table, key)| == 0 <==> key !in rows
  {
    if key in rows {
      var r :| r in table && r.Key() == key;
      assert WithKey(table, key) == {r};
    } else {
      assert WithKey(table, key) == {};
    }
  }

  /** No statement of a transaction meets a constraint: they follow from the rows it stands for. */
  lemma ConstraintsHold(table: Table, rows: map<Key, Account>)
    requires Represents(table, rows) && OneDefault(rows) && OwnIds(rows)
    ensures Constraints(table)
  {
  }

  /** An insert with new identifiers is refused exactly when the provider has the label already. */
  lemma RefusedIsDuplicate(table: Table, rows: map<Key, Account>, row: TableRow)
    requires Represents(table, rows)
    requires forall k :: k in rows ==> rows[k].id != row.id && rows[k].keyId != row.keyId
    requires row.isDefault == 1 ==> forall k :: k in rows && rows[k].provider == row.provider ==> !rows[k].isDefault
    ensures (exists q :: q in table && Conflict(q, row)) <==> row.Key() in rows
  {
    forall q | q in table
      ensures Conflict(q, row) <==> q.Key() == row.Key()
    {
      assert rows[q.Key()] == ToAccount(q);
    }
    if row.Key() in rows {
      var q :| q in table && q.Key() == row.Key();
      assert Conflict(q, row);
    }
  }

  lemma OneMore(table: Table, row: TableRow)
    requires row !in table
    ensures var s := OfProvider(table, row.provider); |OfProvider(table + {row}, row.provider)| == 1 <==> s == {}
  {
    var s := OfProvider(table, row.provider);
    assert OfProvider(table + {row}, row.provider) == s + {row};
    assert |s| == 0 <==> s == {};
  }

  lemma CountIsOne(table: Table, rows: map<Key, Account>, row: TableRow)
    requires Represents(table, rows) && row.Key() !in rows
    ensures |OfProvider(table + {row}, row.provider)| == 1 <==> !HasAccounts(rows, row.provider)
  {
    var s := OfProvider(table, row.provider);
    OneMore(table, row);
    if HasAccounts(rows, row.provider) {
      var k :| k in rows && rows[k].provider == row.provider;
      var r :| r in table && r.Key() == k;
      assert r in s;
    } else {
      assert forall r :: r in table ==> rows[r.Key()].provider != row.provider;
    }
  }

  lemma UpdatedById(table: Table, row: TableRow)
    requires row !in table && forall r :: r in table ==> r.id != row.id
    ensures UpdateDefaultById(table + {row}, row.id) == table + {row} - {row} + {row.(isDefault := 1)}
  {
    var left, right := UpdateDefaultById(table + {row}, row.id), table + {row} - {row} + {row.(isDefault := 1)};
    assert row in table + {row};
    forall r | r in right
      ensures r in left
    {
      if r != row.(isDefault := 1) {
        assert r in table + {row};
      }
    }
  }

  lemma UpdatedByKey(table: Table, row: TableRow)
    requires WithKey(table, row.Key()) == {row}
    ensures UpdateDefault(table, row.Key()) == table - {row} + {row.(isDefault := 1)}
    ensures forall s, c :: UpdateStatus(table, row.Key(), s, c) == table - {row} + {row.(status := s, cooldownUntil := c)}
  {
    assert row in WithKey(table, row.Key());
    assert forall r :: r in table && r.Key() == row.Key() ==> r in WithKey(table, row.Key());
  }

  lemma NothingUpdated(table: Table, key: Key)
    requires WithKey(table, key) == {}
    ensures forall s, c :: UpdateStatus(table, key, s, c) == table
  {
    assert forall r :: r in table && r.Key() == key ==> r in WithKey(table, key);
  }

  // ----- The store -----

  class SqliteCredentialStore {
    const catalog: map<string, string>
    const keyring: InMemoryKeyring
    var table: Table
    ghost var rows: map<Key, Account>

    ghost function Contents(): State
      reads this, keyring
    {
      State(rows, keyring.entries)
    }

    ghost predicate Valid()
      reads this, keyring
    {
      Represents(table, rows) && Inv(Contents())
    }

    constructor (catalog: map<string, string>)
      ensures this.catalog == catalog && Valid() && Contents() == EMPTY && fresh(keyring)
    {
      this.catalog := catalog;
      keyring := new InMemoryKeyring();
      table, rows := {}, map[];
    }

    /** The transaction of `Add`: the table to commit, or nothing when the insert meets a constraint. */
    static method AddTransaction(table: Table, ghost rows: map<Key, Account>, account: NewAccount, endpoint: string,
                                 now: Time, id: string, keyId: string)
      returns (committed: Option<Table>, ghost after: map<Key, Account>)
      requires Represents(table, rows) && UnderKeys(rows) && OneDefault(rows) && OwnIds(rows)
      requires forall k :: k in rows ==> rows[k].id != id && rows[k].keyId != keyId
      ensures committed.None? <==> (account.provider, account.name) in rows
      ensures committed.Some? ==> Represents(committed.value, after)
      ensures committed.Some? ==>
                var others := if account.setDefault then Defaulted(rows, account.provider, None) else rows;
                after == others[(account.provider, account.name) := NewRow(rows, account, endpoint, Floor(now), id, keyId)]
    {
      hide Defaulted, HasAccounts, UnderKeys, OneDefault, OwnIds, Represents, UpdateDefaults, UpdateDefaultById;
      hide OfProvider, Conflict, StatusFromText, Constraints, ToAccount;
      var key := (account.provider, account.name);
      var tx := table;
      after := rows;
      if account.setDefault {
        tx := UpdateDefaults(tx, account.provider);
        UpdatedDefaults(table, rows, account.provider);
        after := Defaulted(rows, account.provider, None);
        DefaultedKeepsConstraints(tx, rows, account.provider);
        assert Constraints(tx);
      }
      ghost var others := after;
      FreshMid(rows, account, id, keyId, others);
      var row := TableRow(id, account.provider, account.name, endpoint, keyId, if account.setDefault then 1 else 0,
                          "active", None, None, Seconds(now));
      ReadBack(row, now);
      RefusedIsDuplicate(tx, others, row);
      if exists q :: q in tx && Conflict(q, row) {
        return None, rows;
      }
      CountIsOne(tx, others, row);
      DefaultedHas(rows, account.provider);
      InsertedRow(tx, others, row);
      IdsDiffer(tx, others, row);
      UpdatedById(tx, row);
      tx := tx + {row};
      after := others[key := ToAccount(row)];
      var count := |OfProvider(tx, account.provider)|;
      if count == 1 {
        UpdatedRow(tx, after, key, row, row.(isDefault := 1));
        tx := UpdateDefaultById(tx, id);
        after := after[key := ToAccount(row.(isDefault := 1))];
      }
      committed := Some(tx);
    }

    method Add(account: NewAccount, now: Time, id: string, keyId: string) returns (r: Reply)
      requires Valid() && Fresh(Contents(), Op.Add(account, now, id, keyId))
      modifies this`table, this`rows, keyring
      ensures Step(catalog, old(Contents()), Truncated(Op.Add(account, now, id, keyId)), Contents(), r)
      ensures Valid()
    {
      hide Checked, Defaulted, HasAccounts, Inv, Fresh, Represents, WithKey, ToAccount;
      ghost var before, op := Contents(), Truncated(Op.Add(account, now, id, keyId));
      FreshRow(before, Op.Add(account, now, id, keyId));
      InvIs(before);
      var endpoint := Checked(catalog, account);
      if endpoint.Err? {
        return Failed(endpoint.error);
      }
      var key := (account.provider, account.name);
      keyring.Store(keyId, account.apiKey);
      ghost var after: map<Key, Account>;
      var committed: Option<Table>;
      committed, after := AddTransaction(table, rows, account, endpoint.value, now, id, keyId);
      if committed.None? {
        keyring.Delete(keyId);
        assert Contents() == before;
        return Failed(Duplicate(key));
      }
      table, rows := committed.value, after;
      RowsWithKey(table, rows, key);
      var found :| found in WithKey(table, key);
      FoundIs(table, rows, key, found);
      r := Added(ToAccount(found));
      SameFresh(before, Op.Add(account, now, id, keyId));
      StepKeepsInv(catalog, before, op, Contents(), r);
    }

    /** `SELECT … ORDER BY provider, label`, of one provider if one is asked for. */
    method Select(provider: Option<string>) returns (list: seq<Account>)
      requires Valid()
      ensures IsListing(rows, provider, list)
    {
      hide Inv, Sorted, StatusFromText;
      list := [];
      var todo := table;
      while todo != {}
        invariant todo <= table
        invariant DistinctKeys(list)
        invariant forall a :: a in list ==> Selected(rows, provider, a) && forall r :: r in todo ==> r.Key() != a.Key()
        invariant forall r :: r in table && r !in todo && (provider.None? || r.provider == provider.value) ==> ToAccount(r) in list
      {
        var row :| row in todo;
        todo := todo - {row};
        if provider.None? || row.provider == provider.value {
          list := list + [ToAccount(row)];
        }
      }
      forall a | Selected(rows, provider, a)
        ensures a in list
      {
        var r :| r in table && r.Key() == a.Key();
        assert ToAccount(r) == a;
      }
      list := SortByKey(list);
    }

    method List() returns (r: Reply)
      requires Valid()
      ensures Step(catalog, Contents(), Op.List, Contents(), r)
    {
      hide IsListing, Valid;
      var out := Select(None);
      r := Reply.Accounts(out);
    }

    method ListForProvider(provider: string) returns (r: Reply)
      requires Valid()
      ensures Step(catalog, Contents(), Op.ListForProvider(provider), Contents(), r)
    {
      hide IsListing, Valid;
      var out := Select(Some(provider));
      r := Reply.Accounts(out);
    }

    /** `SELECT … WHERE provider = … AND label = …`. */
    method Lookup(key: Key) returns (account: Option<Account>)
      requires Represents(table, rows)
      ensures account == if key in rows then Some(rows[key]) else None
    {
      hide Represents, ToAccount, WithKey;
      RowsWithKey(table, rows, key);
      var found := WithKey(table, key);
      if found == {} {
        return None;
      }
      var row :| row in found;
      FoundIs(table, rows, key, row);
      account := Some(ToAccount(row));
    }

    method Remove(key: Key) returns (r: Reply)
      requires Valid()
      modifies this`table, this`rows, keyring
      ensures Step(catalog, old(Contents()), Op.Remove(key), Contents(), r)
      ensures Valid()
    {
      hide Inv, Represents, WithKey;
      ghost var before := Contents();
      var tx := table;
      var found := Lookup(key);
      if found.None? {
        return Failed(NotFound(key));
      }
      tx := tx - WithKey(tx, key);
      DeletedRow(table, rows, key);
      table, rows := tx, rows - {key};
      keyring.Delete(found.value.keyId);
      r := Done;
      StepKeepsInv(catalog, before, Op.Remove(key), Contents(), r);
    }

    method SetDefault(key: Key) returns (r: Reply)
      requires Valid()
      modifies this`table, this`rows
      ensures Step(catalog, old(Contents()), Op.SetDefault(key), Contents(), r)
      ensures Valid()
    {
      hide Inv, Represents, WithKey, UpdateDefaults, UpdateDefault, Defaulted, Constraints, UnderKeys, OneDefault, OwnIds, KeyringMatches;
      ghost var before := Contents();
      InvIs(before);
      RowsWithKey(table, rows, key);
      var tx := table;
      var count := |WithKey(tx, key)|;
      if count == 0 {
        return Failed(NotFound(key));
      }
      tx := UpdateDefaults(tx, key.0);
      UpdatedDefaults(table, rows, key.0);
      ghost var mid := Defaulted(rows, key.0, None);
      DefaultedKeepsConstraints(tx, rows, key.0);
      assert Constraints(tx);
      DefaultedIdentity(rows, key.0, None);
      DefaultUpdated(tx, mid, key);
      tx := UpdateDefault(tx, key);
      TwoUpdates(rows, key);
      table, rows := tx, mid[key := mid[key].(isDefault := true)];
      r := Done;
      StepKeepsInv(catalog, before, Op.SetDefault(key), Contents(), r);
      assert Constraints(table) by {
        InvIs(Contents());
        ConstraintsHold(table, rows);
      }
    }

    method GetDefault(provider: string) returns (r: Reply)
      requires Valid()
      ensures Step(catalog, Contents(), Op.GetDefault(provider), Contents(), r)
    {
      hide StatusFromText;
      var found := set row | row in table && row.provider == provider && row.isDefault == 1;
      if found == {} {
        forall a | Selected(rows, Some(provider), a)
          ensures !a.isDefault
        {
          var row :| row in table && row.Key() == a.Key();
          assert row !in found;
        }
        return Reply.Default(None);
      }
      var row :| row in found;
      r := Reply.Default(Some(ToAccount(row)));
    }

    method LoadKey(key: Key) returns (r: Reply)
      requires Valid()
      ensures Step(catalog, Contents(), Op.LoadKey(key), Contents(), r)
    {
      hide Inv, Represents;
      var account := Lookup(key);
      if account.None? {
        return Failed(NotFound(key));
      }
      var secret := keyring.Load(account.value.keyId);
      r := if secret.Some? then Secret(secret.value) else Failed(OrphanedKey(key, account.value.keyId));
    }

    method Resolve(provider: string, now: Time) returns (r: Reply)
      requires Valid()
      ensures Step(catalog, Contents(), Op.Resolve(provider, now), Contents(), r)
    {
      hide IsListing, Sorted, Preferred, IsChoice, ResolveStep, Inv, UsedBefore, Represents;
      var candidates := Select(Some(provider));
      ListedProvider(rows, provider, candidates);
      var chosen := PickLeastRecent(candidates, now);
      ListedChoice(rows, provider, now, candidates, chosen);
      if chosen.None? {
        NoneIsStep(Contents(), provider, now);
        return Failed(NoEligible(provider));
      }
      var a := chosen.value;
      ChoiceIsRow(rows, provider, now, a);
      var secret := keyring.Load(a.keyId);
      r := if secret.Some? then Chosen(a, secret.value) else Failed(OrphanedKey(a.Key(), a.keyId));
      ChosenIsStep(Contents(), provider, now, a, r);
    }

    /** The three statements that set the status of one row, in one step each. */
    method WriteStatus(key: Key, status: Status, cooldownUntil: Option<Time>) returns (r: Reply)
      requires Valid()
      modifies this`table, this`rows
      ensures RowStep(old(Contents()), key,
                      (a: Account) => a.(status := status, cooldownUntil := FloorAll(cooldownUntil)), Contents(), r)
      ensures Represents(table, rows)
    {
      hide Inv, Represents, WithKey, UpdateStatus, StatusText;
      var seconds := if cooldownUntil.Some? then Some(Seconds(cooldownUntil.value)) else None;
      RowsWithKey(table, rows, key);
      var affected := |WithKey(table, key)|;
      StatusUpdated(table, rows, key, status, cooldownUntil);
      table := UpdateStatus(table, key, StatusText(status), seconds);
      if affected == 0 {
        return Failed(NotFound(key));
      }
      rows := rows[key := rows[key].(status := status, cooldownUntil := FloorAll(cooldownUntil))];
      r := Done;
    }

    method MarkCooldown(key: Key, until: Time) returns (r: Reply)
      requires Valid()
      modifies this`table, this`rows
      ensures Step(catalog, old(Contents()), Truncated(Op.MarkCooldown(key, until)), Contents(), r)
      ensures Valid()
    {
      hide Inv, Represents;
      ghost var before := Contents();
      r := WriteStatus(key, Cooldown, Some(until));
      assert Step(catalog, before, Op.MarkCooldown(key, Floor(until)), Contents(), r);
      StepKeepsInv(catalog, before, Op.MarkCooldown(key, Floor(until)), Contents(), r);
    }

    method MarkDead(key: Key) returns (r: Reply)
      requires Valid()
      modifies this`table, this`rows
      ensures Step(catalog, old(Contents()), Op.MarkDead(key), Contents(), r)
      ensures Valid()
    {
      hide Inv, Represents;
      ghost var before := Contents();
      r := WriteStatus(key, Dead, None);
      assert Step(catalog, before, Op.MarkDead(key), Contents(), r);
      StepKeepsInv(catalog, before, Op.MarkDead(key), Contents(), r);
    }

    method ClearStatus(key: Key) returns (r: Reply)
      requires Valid()
      modifies this`table, this`rows
      ensures Step(catalog, old(Contents()), Op.ClearStatus(key), Contents(), r)
      ensures Valid()
    {
      hide Inv, Represents;
      ghost var before := Contents();
      r := WriteStatus(key, Active, None);
      assert Step(catalog, before, Op.ClearStatus(key), Contents(), r);
      StepKeepsInv(catalog, before, Op.ClearStatus(key), Contents(), r);
    }

    method Perform(op: Op) returns (r: Reply)
      requires Valid() && Fresh(Contents(), op)
      modifies this`table, this`rows, keyring
      ensures Step(catalog, old(Contents()), Truncated(op), Contents(), r)
      ensures Valid()
    {
      hide Step, Inv, Fresh, Represents;
      match op {
        case Add(account, now, id, keyId) => r := Add(account, now, id, keyId);
        case List => r := List();
        case ListForProvider(provider) => r := ListForProvider(provider);
        case Remove(key) => r := Remove(key);
        case SetDefault(key) => r := SetDefault(key);
        case GetDefault(provider) => r := GetDefault(provider);
        case LoadKey(key) => r := LoadKey(key);
        case Resolve(provider, now) => r := Resolve(provider, now);
        case MarkCooldown(key, until) => r := MarkCooldown(key, until);
        case MarkDead(key) => r := MarkDead(key);
        case ClearStatus(key) => r := ClearStatus(key);
      }
    }
  }

  function FloorAll(t: Option<Time>): Option<Time> {
    if t.Some? then Some(Floor(t.value)) else None
  }

  lemma DefaultUpdated(table: Table, rows: map<Key, Account>, key: Key)
    requires Represents(table, rows) && key in rows
    ensures Represents(UpdateDefault(table, key), rows[key := rows[key].(isDefault := true)])
  {
    hide Represents, UpdateDefault, WithKey, StatusFromText;
    RowsWithKey(table, rows, key);
    var row :| row in table && row.Key() == key && WithKey(table, key) == {row};
    FoundIs(table, rows, key, row);
    UpdatedByKey(table, row);
    UpdatedRow(table, rows, key, row, row.(isDefault := 1));
  }

  /** Clearing the defaults of a provider and setting one is moving the default. */
  lemma TwoUpdates(rows: map<Key, Account>, key: Key)
    requires UnderKeys(rows) && key in rows
    ensures var mid := Defaulted(rows, key.0, None);
            key in mid && mid[key := mid[key].(isDefault := true)] == Defaulted(rows, key.0, Some(key.1))
  {
    assert forall k :: k in rows ==> rows[k].Key() == k;
  }

  lemma StatusUpdated(table: Table, rows: map<Key, Account>, key: Key, status: Status, cooldownUntil: Option<Time>)
    requires Represents(table, rows)
    ensures var seconds := if cooldownUntil.Some? then Some(Seconds(cooldownUntil.value)) else None;
            var after := UpdateStatus(table, key, StatusText(status), seconds);
            if key in rows
            then Represents(after, rows[key := rows[key].(status := status, cooldownUntil := FloorAll(cooldownUntil))])
            else after == table
  {
    hide Represents, UpdateStatus, WithKey, StatusText, StatusFromText;
    RowsWithKey(table, rows, key);
    if key in rows {
      var row :| row in table && row.Key() == key && WithKey(table, key) == {row};
      FoundIs(table, rows, key, row);
      UpdatedByKey(table, row);
      var seconds := if cooldownUntil.Some? then Some(Seconds(cooldownUntil.value)) else None;
      StoredThenRead(status, if cooldownUntil.Some? then cooldownUntil.value else 0);
      FlagOf(table, rows, row);
      UpdatedRow(table, rows, key, row, row.(status := StatusText(status), cooldownUntil := seconds));
    } else {
      NothingUpdated(table, key);
    }
  }

  lemma FlagOf(table: Table, rows: map<Key, Account>, row: TableRow)
    requires Represents(table, rows) && row in table
    ensures row.isDefault == 0 || row.isDefault == 1
  {
  }

  lemma SameFresh(s: State, op: Op)
    ensures Fresh(s, op) <==> Fresh(s, Truncated(op))
  {
  }

  lemma ReadBack(row: TableRow, now: Time)
    requires row.status == "active" && row.createdAt == Seconds(now)
    ensures ToAccount(row) == Account(row.id, row.provider, row.name, row.endpoint, row.keyId, row.isDefault != 0, Active,
                                      AtSecond(row.cooldownUntil), AtSecond(row.lastUsedAt), Floor(now))
    ensures ToAccount(row.(isDefault := 1)) == ToAccount(row).(isDefault := true)
  {
    StoredThenRead(Active, now);
  }

  lemma FreshMid(rows: map<Key, Account>, a: NewAccount, id: string, keyId: string, mid: map<Key, Account>)
    requires forall k :: k in rows ==> rows[k].id != id && rows[k].keyId != keyId
    requires mid == if a.setDefault then Defaulted(rows, a.provider, None) else rows
    ensures mid.Keys == rows.Keys
    ensures forall k :: k in mid ==> mid[k].id != id && mid[k].keyId != keyId
    ensures a.setDefault ==> forall k :: k in mid && mid[k].provider == a.provider ==> !mid[k].isDefault
  {
  }

  lemma DefaultedKeepsConstraints(table: Table, rows: map<Key, Account>, provider: string)
    requires Represents(table, Defaulted(rows, provider, None))
    requires UnderKeys(rows) && OneDefault(rows) && OwnIds(rows)
    ensures Constraints(table)
  {
    hide *;
    DefaultedOne(rows, provider, None);
    DefaultedIdentity(rows, provider, None);
    OwnIdsStay(rows, Defaulted(rows, provider, None));
    ConstraintsHold(table, Defaulted(rows, provider, None));
  }

  lemma OwnIdsStay(rows: map<Key, Account>, other: map<Key, Account>)
    requires OwnIds(rows) && SameIdentity(rows, other)
    ensures OwnIds(other)
  {
  }

  lemma IdsDiffer(table: Table, rows: map<Key, Account>, row: TableRow)
    requires Represents(table, rows) && forall k :: k in rows ==> rows[k].id != row.id
    ensures forall r :: r in table ==> r.id != row.id
  {
  }

  lemma FoundIs(table: Table, rows: map<Key, Account>, key: Key, found: TableRow)
    requires Represents(table, rows) && found in WithKey(table, key)
    ensures key in rows && ToAccount(found) == rows[key]
  {
  }
}
