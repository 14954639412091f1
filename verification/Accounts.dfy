/** Credential accounts, and what each operation of a credential store has to do: the contract the
    in-memory store and the SQLite store share. */
module Accounts {
  import opened Texts
  import opened Wrappers

  /** A point in time, in nanoseconds from the epoch. */
  type Time = int

  const SECOND: Time := 1_000_000_000

  /** The time to whole seconds, as its text in the table has it. */
  function Floor(t: Time): Time { t - t % SECOND }

  datatype Status = Active | Cooldown | Dead

  datatype Account = Account(
    id: string, provider: string, name: string, endpoint: string, keyId: string, isDefault: bool,
    status: Status, cooldownUntil: Option<Time>, lastUsedAt: Option<Time>, createdAt: Time)
  {
    predicate EligibleAt(now: Time) {
      match status
      case Active => true
      case Cooldown => cooldownUntil.None? || now >= cooldownUntil.value
      case Dead => false
    }

    function Key(): Key { (provider, name) }
  }

  /** Provider and label (the label is the field `name`). */
  type Key = (string, string)

  datatype NewAccount = NewAccount(provider: string, name: string, endpoint: Option<string>, apiKey: string, setDefault: bool)

  datatype Reason = BadProvider | BadLabel | EmptyKey | BadEndpoint | NoEndpoint

  datatype Error =
    | InvalidInput(reason: Reason)
    | NotFound(key: Key)
    | Duplicate(key: Key)
    | NoEligible(provider: string)
    | OrphanedKey(key: Key, keyId: string)

  // ----- Checks of the input -----

  predicate Lower(c: char) { 'a' <= c <= 'z' }
  predicate Upper(c: char) { 'A' <= c <= 'Z' }
  predicate Numeral(c: char) { '0' <= c <= '9' }

  predicate ValidProvider(provider: string) {
    && 0 < |provider| <= 64
    && forall i :: 0 <= i < |provider| ==> var c := provider[i]; Lower(c) || Numeral(c) || c in "-_:"
  }

  predicate ValidLabel(name: string) {
    && 0 < |name| <= 64
    && forall i :: 0 <= i < |name| ==> var c := name[i]; Lower(c) || Upper(c) || Numeral(c) || c in "-_."
  }

  predicate ValidEndpoint(endpoint: string) {
    "https://" <= endpoint || "http://localhost" <= endpoint || "http://127.0.0.1" <= endpoint
  }

  /** The endpoint a new account gets, or why the account is refused. `catalog` holds the default
      endpoints of the known providers. */
  function Checked(catalog: map<string, string>, a: NewAccount): Result<string, Error> {
    if !ValidProvider(a.provider) then Err(InvalidInput(BadProvider))
    else if !ValidLabel(a.name) then Err(InvalidInput(BadLabel))
    else if a.apiKey == [] then Err(InvalidInput(EmptyKey))
    else if a.endpoint.Some? then
      if ValidEndpoint(a.endpoint.value) then Ok(a.endpoint.value) else Err(InvalidInput(BadEndpoint))
    else if a.provider in catalog then Ok(catalog[a.provider])
    else Err(InvalidInput(NoEndpoint))
  }

  // ----- States, operations, replies -----

  /** The accounts by provider and label, and the keyring. */
  datatype State = State(rows: map<Key, Account>, secrets: map<string, string>)

  const EMPTY := State(map[], map[])

  /** An operation with what it reads from outside: the clock, and the two new identifiers. */
  datatype Op =
    | Add(account: NewAccount, now: Time, id: string, keyId: string)
    | List
    | ListForProvider(provider: string)
    | Remove(key: Key)
    | SetDefault(key: Key)
    | GetDefault(provider: string)
    | LoadKey(key: Key)
    | Resolve(provider: string, now: Time)
    | MarkCooldown(key: Key, until: Time)
    | MarkDead(key: Key)
    | ClearStatus(key: Key)

  datatype Reply =
    | Added(account: Account)
    | Accounts(accounts: seq<Account>)
    | Default(found: Option<Account>)
    | Secret(secret: string)
    | Chosen(chosen: Account, secret: string)
    | Done
    | Failed(error: Error)

  // ----- Listings and choices -----

  predicate KeyLess(a: Key, b: Key) {
    Less(a.0, b.0) || (a.0 == b.0 && Less(a.1, b.1))
  }

  predicate Sorted(list: seq<Account>) {
    forall i, j :: 0 <= i < j < |list| ==> KeyLess(list[i].Key(), list[j].Key())
  }

  /** Whether `a` is a row, of the provider asked for if one is. */
  predicate Selected(rows: map<Key, Account>, provider: Option<string>, a: Account) {
    && a.Key() in rows && rows[a.Key()] == a
    && (provider.Some? ==> a.provider == provider.value)
  }

  /** `list` holds exactly the selected rows, in the order of provider and label. */
  ghost predicate IsListing(rows: map<Key, Account>, provider: Option<string>, list: seq<Account>) {
    Sorted(list) && forall a :: a in list <==> Selected(rows, provider, a)
  }

  /** `None` is before every time. */
  predicate UsedBefore(a: Option<Time>, b: Option<Time>) {
    b.Some? && (a.None? || a.value < b.value)
  }

  /** Least recently used first, then by label. */
  predicate Preferred(a: Account, b: Account) {
    UsedBefore(a.lastUsedAt, b.lastUsedAt) || (a.lastUsedAt == b.lastUsedAt && (a.name == b.name || Less(a.name, b.name)))
  }

  predicate Candidate(rows: map<Key, Account>, provider: string, now: Time, a: Account) {
    Selected(rows, Some(provider), a) && a.EligibleAt(now)
  }

  ghost predicate IsChoice(rows: map<Key, Account>, provider: string, now: Time, a: Account) {
    Candidate(rows, provider, now, a) && forall b :: Candidate(rows, provider, now, b) ==> Preferred(a, b)
  }

  // ----- The steps -----

  predicate HasAccounts(rows: map<Key, Account>, provider: string) {
    exists k :: k in rows && rows[k].provider == provider
  }

  /** The rows with the default of a provider moved to one label, or to none. */
  function Defaulted(rows: map<Key, Account>, provider: string, name: Option<string>): map<Key, Account> {
    map k | k in rows ::
      if rows[k].provider == provider then rows[k].(isDefault := name == Some(rows[k].name)) else rows[k]
  }

  function NewRow(rows: map<Key, Account>, a: NewAccount, endpoint: string, now: Time, id: string, keyId: string): Account {
    Account(id, a.provider, a.name, endpoint, keyId, a.setDefault || !HasAccounts(rows, a.provider), Active, None, None, now)
  }

  ghost predicate AddStep(catalog: map<string, string>, s: State, op: Op, t: State, r: Reply)
    requires op.Add?
  {
    var a := op.account;
    var key := (a.provider, a.name);
    var endpoint := Checked(catalog, a);
    if endpoint.Err? then t == s && r == Failed(endpoint.error)
    else if key in s.rows then t == s && r == Failed(Duplicate(key))
    else
      var others := if a.setDefault then Defaulted(s.rows, a.provider, None) else s.rows;
      var row := NewRow(s.rows, a, endpoint.value, op.now, op.id, op.keyId);
      t == State(others[key := row], s.secrets[op.keyId := a.apiKey]) && r == Added(row)
  }

  /** The secret of a row, or the error that its key is lost. */
  function SecretOf(s: State, key: Key): Result<string, Error>
    requires key in s.rows
  {
    var keyId := s.rows[key].keyId;
    if keyId in s.secrets then Ok(s.secrets[keyId]) else Err(OrphanedKey(key, keyId))
  }

  function SecretReply(secret: Result<string, Error>): Reply {
    if secret.Ok? then Secret(secret.value) else Failed(secret.error)
  }

  function ChosenReply(a: Account, secret: Result<string, Error>): Reply {
    if secret.Ok? then Chosen(a, secret.value) else Failed(secret.error)
  }

  ghost predicate ResolveStep(s: State, provider: string, now: Time, r: Reply) {
    if exists a :: Candidate(s.rows, provider, now, a)
    then exists a :: IsChoice(s.rows, provider, now, a) && r == ChosenReply(a, SecretOf(s, a.Key()))
    else r == Failed(NoEligible(provider))
  }

  ghost predicate DefaultStep(s: State, provider: string, r: Reply) {
    && r.Default?
    && (r.found.Some? ==> Selected(s.rows, Some(provider), r.found.value) && r.found.value.isDefault)
    && (r.found.None? ==> forall a :: Selected(s.rows, Some(provider), a) ==> !a.isDefault)
  }

  /** One row rewritten. */
  ghost predicate RowStep(s: State, key: Key, row: Account -> Account, t: State, r: Reply) {
    if key in s.rows then t == s.(rows := s.rows[key := row(s.rows[key])]) && r == Done
    else t == s && r == Failed(NotFound(key))
  }

  /** What one operation does: `t` is the state after it and `r` the reply. */
  ghost predicate Step(catalog: map<string, string>, s: State, op: Op, t: State, r: Reply) {
    match op
    case Add(_, _, _, _) => AddStep(catalog, s, op, t, r)
    case List => t == s && r.Accounts? && IsListing(s.rows, None, r.accounts)
    case ListForProvider(provider) => t == s && r.Accounts? && IsListing(s.rows, Some(provider), r.accounts)
    case Remove(key) =>
      if key in s.rows then t == State(s.rows - {key}, s.secrets - {s.rows[key].keyId}) && r == Done
      else t == s && r == Failed(NotFound(key))
    case SetDefault(key) =>
      if key in s.rows then t == s.(rows := Defaulted(s.rows, key.0, Some(key.1))) && r == Done
      else t == s && r == Failed(NotFound(key))
    case GetDefault(provider) => t == s && DefaultStep(s, provider, r)
    case LoadKey(key) =>
      && t == s
      && r == if key in s.rows then SecretReply(SecretOf(s, key)) else Failed(NotFound(key))
    case Resolve(provider, now) => t == s && ResolveStep(s, provider, now, r)
    case MarkCooldown(key, until) =>
      RowStep(s, key, (a: Account) => a.(status := Cooldown, cooldownUntil := Some(until)), t, r)
    case MarkDead(key) => RowStep(s, key, (a: Account) => a.(status := Dead, cooldownUntil := None), t, r)
    case ClearStatus(key) => RowStep(s, key, (a: Account) => a.(status := Active, cooldownUntil := None), t, r)
  }

  // ----- What every operation keeps -----

  /** Rows under their own keys, one default per provider, own identifiers for every row, and a keyring
      that holds the keys of the rows and nothing else. */
  ghost predicate Inv(s: State) {
    UnderKeys(s.rows) && OneDefault(s.rows) && OwnIds(s.rows) && KeyringMatches(s.rows, s.secrets)
  }

  predicate UnderKeys(rows: map<Key, Account>) {
    forall k :: k in rows ==> rows[k].Key() == k
  }

  predicate OneDefault(rows: map<Key, Account>) {
    forall j, k :: j in rows && k in rows && rows[j].provider == rows[k].provider && rows[j].isDefault && rows[k].isDefault ==> j == k
  }

  predicate OwnIds(rows: map<Key, Account>) {
    forall j, k :: j in rows && k in rows && (rows[j].keyId == rows[k].keyId || rows[j].id == rows[k].id) ==> j == k
  }

  predicate KeyringMatches(rows: map<Key, Account>, secrets: map<string, string>) {
    && (forall k :: k in rows ==> rows[k].keyId in secrets)
    && (forall x :: x in secrets ==> HasKeyId(rows, x))
  }

  predicate HasKeyId(rows: map<Key, Account>, x: string) {
    exists k :: k in rows && rows[k].keyId == x
  }

  /** New identifiers are not in use. */
  predicate Fresh(s: State, op: Op) {
    op.Add? ==> op.keyId !in s.secrets && forall k :: k in s.rows ==> s.rows[k].id != op.id && s.rows[k].keyId != op.keyId
  }

  lemma StepKeepsInv(catalog: map<string, string>, s: State, op: Op, t: State, r: Reply)
    requires Inv(s) && Fresh(s, op) && Step(catalog, s, op, t, r)
    ensures Inv(t)
  {
    hide IsListing, ResolveStep, DefaultStep, Checked, UnderKeys, OneDefault, OwnIds, KeyringMatches, Defaulted, Fresh;
    match op {
      case Add(_, _, _, _) =>
        if t != s {
          AddKeepsInv(catalog, s, op, t, r);
        }
      case Remove(key) =>
        if t != s {
          RemoveKeepsInv(s, key);
        }
      case SetDefault(key) =>
        DefaultedRows(s, key.0, Some(key.1));
      case MarkCooldown(key, until) =>
        if key in s.rows {
          UpdateKeepsInv(s, key, t.rows[key]);
        }
      case MarkDead(key) =>
        if key in s.rows {
          UpdateKeepsInv(s, key, t.rows[key]);
        }
      case ClearStatus(key) =>
        if key in s.rows {
          UpdateKeepsInv(s, key, t.rows[key]);
        }
      case _ =>
    }
  }

  lemma RemoveKeepsInv(s: State, key: Key)
    requires Inv(s) && key in s.rows
    ensures Inv(State(s.rows - {key}, s.secrets - {s.rows[key].keyId}))
  {
    var rows, secrets := s.rows - {key}, s.secrets - {s.rows[key].keyId};
    forall x | x in secrets
      ensures HasKeyId(rows, x)
    {
      var k :| k in s.rows && s.rows[k].keyId == x;
      assert k in rows;
    }
  }

  /** Rows with the same identifiers under the same keys. */
  predicate SameIdentity(rows: map<Key, Account>, other: map<Key, Account>) {
    && rows.Keys == other.Keys
    && forall k :: k in rows ==> rows[k].Key() == other[k].Key() && rows[k].id == other[k].id && rows[k].keyId == other[k].keyId
  }

  lemma IdentityKeepsInv(s: State, rows: map<Key, Account>)
    requires Inv(s) && SameIdentity(s.rows, rows)
    ensures UnderKeys(rows) && OwnIds(rows) && KeyringMatches(rows, s.secrets)
  {
    forall x | x in s.secrets
      ensures HasKeyId(rows, x)
    {
      var k :| k in s.rows && s.rows[k].keyId == x;
      assert k in rows;
    }
  }

  lemma DefaultedRows(s: State, provider: string, name: Option<string>)
    requires Inv(s)
    ensures Inv(s.(rows := Defaulted(s.rows, provider, name)))
  {
    hide *;
    InvIs(s);
    DefaultedIdentity(s.rows, provider, name);
    IdentityKeepsInv(s, Defaulted(s.rows, provider, name));
    DefaultedOne(s.rows, provider, name);
    InvIs(s.(rows := Defaulted(s.rows, provider, name)));
  }

  lemma InvIs(s: State)
    ensures Inv(s) <==> UnderKeys(s.rows) && OneDefault(s.rows) && OwnIds(s.rows) && KeyringMatches(s.rows, s.secrets)
  {
    hide UnderKeys, OneDefault, OwnIds, KeyringMatches;
  }

  lemma DefaultedIdentity(rows: map<Key, Account>, provider: string, name: Option<string>)
    ensures SameIdentity(rows, Defaulted(rows, provider, name))
  {
  }

  /** At most one row has the label that becomes the default. */
  lemma DefaultedOne(rows: map<Key, Account>, provider: string, name: Option<string>)
    requires UnderKeys(rows) && OneDefault(rows)
    ensures OneDefault(Defaulted(rows, provider, name))
  {
    var after := Defaulted(rows, provider, name);
    forall j, k | j in after && k in after && after[j].provider == after[k].provider && after[j].isDefault && after[k].isDefault
      ensures j == k
    {
      assert rows[j].Key() == j && rows[k].Key() == k;
    }
  }

  lemma UpdateKeepsInv(s: State, key: Key, row: Account)
    requires Inv(s) && key in s.rows
    requires row.Key() == s.rows[key].Key() && row.id == s.rows[key].id && row.keyId == s.rows[key].keyId
    requires row.isDefault == s.rows[key].isDefault
    ensures Inv(s.(rows := s.rows[key := row]))
  {
    hide *;
    InvIs(s);
    var rows := s.rows[key := row];
    UpdateIdentity(s.rows, key, row);
    IdentityKeepsInv(s, rows);
    UpdateOneDefault(s.rows, key, row);
    InvIs(s.(rows := rows));
  }

  lemma UpdateIdentity(rows: map<Key, Account>, key: Key, row: Account)
    requires key in rows && row.Key() == rows[key].Key() && row.id == rows[key].id && row.keyId == rows[key].keyId
    ensures SameIdentity(rows, rows[key := row])
  {
  }

  lemma UpdateOneDefault(rows: map<Key, Account>, key: Key, row: Account)
    requires OneDefault(rows) && key in rows && row.Key() == rows[key].Key() && row.isDefault == rows[key].isDefault
    ensures OneDefault(rows[key := row])
  {
  }

  lemma AddKeepsInv(catalog: map<string, string>, s: State, op: Op, t: State, r: Reply)
    requires Inv(s) && Fresh(s, op) && op.Add? && AddStep(catalog, s, op, t, r) && t != s
    ensures Inv(t)
  {
    hide Checked, Defaulted, OneDefault, UnderKeys, OwnIds, KeyringMatches, Fresh, Inv;
    var a := op.account;
    var key := (a.provider, a.name);
    var others := if a.setDefault then Defaulted(s.rows, a.provider, None) else s.rows;
    if a.setDefault {
      DefaultedRows(s, a.provider, None);
    }
    DefaultedIdentity(s.rows, a.provider, None);
    FreshAfterDefaulted(s, op);
    FreshRow(s.(rows := others), op);
    NoOtherDefault(s.rows, a);
    InsertKeepsInv(s.(rows := others), key, t.rows[key], a.apiKey);
  }

  lemma FreshAfterDefaulted(s: State, op: Op)
    requires op.Add? && Fresh(s, op)
    ensures Fresh(s.(rows := Defaulted(s.rows, op.account.provider, None)), op)
  {
  }

  lemma FreshRow(s: State, op: Op)
    requires op.Add? && Fresh(s, op)
    ensures op.keyId !in s.secrets && forall k :: k in s.rows ==> s.rows[k].id != op.id && s.rows[k].keyId != op.keyId
  {
  }

  lemma NoOtherDefault(rows: map<Key, Account>, a: NewAccount)
    ensures var others := if a.setDefault then Defaulted(rows, a.provider, None) else rows;
            a.setDefault || !HasAccounts(rows, a.provider) ==>
              forall k :: k in others && others[k].provider == a.provider ==> !others[k].isDefault
  {
  }

  lemma InsertKeepsInv(s: State, key: Key, row: Account, secret: string)
    requires Inv(s) && key !in s.rows && row.Key() == key
    requires row.keyId !in s.secrets && forall k :: k in s.rows ==> s.rows[k].id != row.id && s.rows[k].keyId != row.keyId
    requires row.isDefault ==> forall k :: k in s.rows && s.rows[k].provider == row.provider ==> !s.rows[k].isDefault
    ensures Inv(State(s.rows[key := row], s.secrets[row.keyId := secret]))
  {
    var rows, secrets := s.rows[key := row], s.secrets[row.keyId := secret];
    forall x | x in secrets
      ensures HasKeyId(rows, x)
    {
      if x == row.keyId {
        assert key in rows;
      } else {
        var k :| k in s.rows && s.rows[k].keyId == x;
        assert k in rows;
      }
    }
  }
}
