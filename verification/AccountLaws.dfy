/** What the operations on accounts mean for their status, their default and the choice among them. */
module AccountLaws {
  import opened Accounts
  import opened CredentialLaws
  import opened Texts
  import opened Wrappers

  // ----- The status of an account over a run -----

  /** Operation `i` succeeded and set the status of the account under `k`. */
  predicate SetsStatus(run: Run, i: nat, k: Key)
    requires i < |run.ops| && i < |run.replies|
  {
    match run.ops[i]
    case Add(a, _, _, _) => run.replies[i].Added? && k == (a.provider, a.name)
    case MarkCooldown(key, _) => run.replies[i].Done? && k == key
    case MarkDead(key) => run.replies[i].Done? && k == key
    case ClearStatus(key) => run.replies[i].Done? && k == key
    case _ => false
  }

  /** Operation `i` is the last before `n` that did. */
  predicate IsLastStatus(run: Run, n: nat, k: Key, i: nat)
    requires n <= |run.ops| && n <= |run.replies|
  {
    i < n && SetsStatus(run, i, k) && forall j: nat :: i < j < n ==> !SetsStatus(run, j, k)
  }

  /** The status that the operation gives. */
  predicate HasStatus(op: Op, a: Account) {
    match op
    case MarkCooldown(_, until) => a.status == Cooldown && a.cooldownUntil == Some(until)
    case MarkDead(_) => a.status == Dead
    case _ => a.status == Active
  }

  lemma StatusStep(catalog: map<string, string>, run: Run, n: nat, k: Key)
    requires IsRun(catalog, run) && n < |run.ops| && k in run.states[n + 1].rows
    ensures var t := run.states[n + 1].rows[k];
            if SetsStatus(run, n, k) then HasStatus(run.ops[n], t)
            else && k in run.states[n].rows && run.states[n].rows[k].status == t.status
                 && run.states[n].rows[k].cooldownUntil == t.cooldownUntil
  {
    hide IsListing, ResolveStep, DefaultStep, Checked, HasAccounts;
    assert Step(catalog, run.states[n], run.ops[n], run.states[n + 1], run.replies[n]);
  }

  /** In every state of a run each account has the status that the last operation on its status gave it. */
  lemma {:induction false} StatusFollowsHistory(catalog: map<string, string>, run: Run, n: nat, k: Key) returns (i: nat)
    requires IsRun(catalog, run) && n <= |run.ops| && k in run.states[n].rows
    ensures IsLastStatus(run, n, k, i) && HasStatus(run.ops[i], run.states[n].rows[k])
  {
    hide Step, SetsStatus;
    StatusStep(catalog, run, n - 1, k);
    if SetsStatus(run, n - 1, k) {
      i := n - 1;
    } else {
      i := StatusFollowsHistory(catalog, run, n - 1, k);
    }
  }

  // ----- Which accounts are handed out -----

  /** The account can be used: it is active, or its cooldown has no end or one that is not after `now`. */
  predicate Usable(a: Account, now: Time) {
    a.status == Active || (a.status == Cooldown && (a.cooldownUntil == None || a.cooldownUntil.value <= now))
  }

  lemma EligibleIsUsable(a: Account, now: Time)
    ensures a.EligibleAt(now) <==> Usable(a, now)
  {
  }

  /** A resolve in a run chooses the usable account of the provider with the least label, and is refused
      exactly when the provider has no usable account. */
  lemma ChosenIsUsable(catalog: map<string, string>, run: Run, n: nat)
    requires IsRun(catalog, run) && OwnNewIds(run.ops) && n < |run.ops| && run.ops[n].Resolve?
    ensures var rows, op, r := run.states[n].rows, run.ops[n], run.replies[n];
            && (r.Chosen? <==> exists k :: k in rows && rows[k].provider == op.provider && Usable(rows[k], op.now))
            && (!r.Chosen? ==> r == Failed(NoEligible(op.provider)))
            && (r.Chosen? ==>
                  && r.chosen.Key() in rows && rows[r.chosen.Key()] == r.chosen && r.chosen.provider == op.provider
                  && Usable(r.chosen, op.now)
                  && forall k :: k in rows && rows[k].provider == op.provider && Usable(rows[k], op.now) && k != r.chosen.Key() ==>
                       Less(r.chosen.name, rows[k].name))
  {
    RunShape(catalog, run);
    hide IsRun, OwnNewIds, Usable, Inv, MadeBy, Account.EligibleAt, Less;
    var rows, op, r := run.states[n].rows, run.ops[n], run.replies[n];
    ResolveInRun(catalog, run, n);
    RunKeepsInv(catalog, run, n);
    RowsUnderKeys(run.states[n]);
    forall a
      ensures Candidate(rows, op.provider, op.now, a) <==>
              a.Key() in rows && rows[a.Key()] == a && a.provider == op.provider && Usable(a, op.now)
    {
      EligibleIsUsable(a, op.now);
    }
    forall k | k in rows && rows[k].provider == op.provider && Usable(rows[k], op.now)
      ensures Candidate(rows, op.provider, op.now, rows[k])
    {
    }
  }

  lemma RowsUnderKeys(s: State)
    requires Inv(s)
    ensures forall k :: k in s.rows ==> s.rows[k].Key() == k
  {
  }

  /** The operation leaves the account usable at `now`. */
  predicate Allows(op: Op, now: Time) {
    match op
    case Add(_, _, _, _) => true
    case ClearStatus(_) => true
    case MarkCooldown(_, until) => until <= now
    case _ => false
  }

  /** In terms of the operations: an account is handed out only if the last operation on its status was its
      addition, a clearing, or a cooldown that is over; after being marked dead it is not, until it is
      cleared, cooled down, or removed and added again. A provider is refused exactly when no account of it
      has such a last operation. */
  lemma ChoiceFollowsHistory(catalog: map<string, string>, run: Run, n: nat)
    requires IsRun(catalog, run) && OwnNewIds(run.ops) && n < |run.ops| && run.ops[n].Resolve?
    ensures run.replies[n].Chosen? ==>
              exists i: nat :: i < n && IsLastStatus(run, n, run.replies[n].chosen.Key(), i) && Allows(run.ops[i], run.ops[n].now)
    ensures run.replies[n].Chosen? <==>
              exists k, i: nat :: k in run.states[n].rows && k.0 == run.ops[n].provider && i < n
                                  && IsLastStatus(run, n, k, i) && Allows(run.ops[i], run.ops[n].now)
  {
    RunShape(catalog, run);
    hide IsRun, OwnNewIds, Usable, Inv, MadeBy, Less, IsLastStatus, Allows;
    var rows, op, r := run.states[n].rows, run.ops[n], run.replies[n];
    ChosenIsUsable(catalog, run, n);
    RunKeepsInv(catalog, run, n);
    RowsUnderKeys(run.states[n]);
    if r.Chosen? {
      var i := UsableByHistory(catalog, run, n, r.chosen.Key(), op.now);
    }
    if k, i: nat :| k in rows && k.0 == op.provider && i < n && IsLastStatus(run, n, k, i) && Allows(run.ops[i], op.now) {
      var j := UsableByHistory(catalog, run, n, k, op.now);
      OneLastStatus(run, n, k, i, j);
    }
  }

  lemma RunShape(catalog: map<string, string>, run: Run)
    requires IsRun(catalog, run)
    ensures |run.replies| == |run.ops| && |run.states| == |run.ops| + 1
  {
    hide Step;
  }

  lemma OneLastStatus(run: Run, n: nat, k: Key, i: nat, j: nat)
    requires n <= |run.ops| && n <= |run.replies| && IsLastStatus(run, n, k, i) && IsLastStatus(run, n, k, j)
    ensures i == j
  {
    hide SetsStatus;
  }

  lemma UsableByHistory(catalog: map<string, string>, run: Run, n: nat, k: Key, now: Time) returns (i: nat)
    requires IsRun(catalog, run) && n <= |run.ops| && k in run.states[n].rows
    ensures i < n && IsLastStatus(run, n, k, i) && (Usable(run.states[n].rows[k], now) <==> Allows(run.ops[i], now))
  {
    hide Step;
    i := StatusFollowsHistory(catalog, run, n, k);
  }

  // ----- Defaults -----

  /** The provider has an account. */
  predicate Has(s: State, provider: string) {
    exists k :: k in s.rows && s.rows[k].provider == provider
  }

  /** Who is a default after an operation: an addition takes the default when it asks for it or is the
      provider's first, setting the default moves it, and every other account stays as it was. */
  lemma DefaultMoves(catalog: map<string, string>, s: State, op: Op, t: State, r: Reply, k: Key)
    requires Inv(s) && Step(catalog, s, op, t, r) && k in t.rows
    ensures t.rows[k].isDefault <==>
            if op.Add? && r.Added? && k == (op.account.provider, op.account.name) then op.account.setDefault || !Has(s, k.0)
            else if op.Add? && r.Added? && op.account.setDefault && k.0 == op.account.provider then false
            else if op.SetDefault? && r.Done? && k.0 == op.key.0 then k == op.key
            else k in s.rows && s.rows[k].isDefault
  {
    hide IsListing, ResolveStep, DefaultStep, Checked, OneDefault, OwnIds, KeyringMatches;
  }

  // ----- What is added -----

  /** 1 to 64 characters: small letters, digits, the given marks, and capital letters where allowed. */
  predicate Spelled(text: string, capitals: bool, marks: string) {
    && 1 <= |text| <= 64
    && forall i :: 0 <= i < |text| ==>
         || 'a' <= text[i] <= 'z' || '0' <= text[i] <= '9'
         || (capitals && 'A' <= text[i] <= 'Z') || text[i] in marks
  }

  /** The endpoint leads to a host by TLS, or to this machine. */
  predicate Allowed(endpoint: string) {
    "https://" <= endpoint || "http://localhost" <= endpoint || "http://127.0.0.1" <= endpoint
  }

  /** An addition succeeds exactly for a well-formed provider and label, a key, an endpoint that is allowed
      or known, and a label that is not taken; then this is the new row. */
  lemma AddedExactly(catalog: map<string, string>, s: State, op: Op, t: State, r: Reply)
    requires op.Add? && Step(catalog, s, op, t, r)
    ensures var a := op.account;
            && (r.Added? <==>
                  && Spelled(a.provider, false, "-_:") && Spelled(a.name, true, "-_.")
                  && a.apiKey != [] && (a.provider, a.name) !in s.rows
                  && (if a.endpoint.Some? then Allowed(a.endpoint.value) else a.provider in catalog))
            && (r.Added? ==>
                  && r.account == t.rows[(a.provider, a.name)]
                  && r.account.id == op.id && r.account.keyId == op.keyId && r.account.createdAt == op.now
                  && r.account.provider == a.provider && r.account.name == a.name
                  && r.account.endpoint == (if a.endpoint.Some? then a.endpoint.value else catalog[a.provider])
                  && r.account.status == Active && r.account.lastUsedAt == None
                  && t.secrets[op.keyId] == a.apiKey)
  {
    var a := op.account;
    assert ValidProvider(a.provider) <==> Spelled(a.provider, false, "-_:");
    assert ValidLabel(a.name) <==> Spelled(a.name, true, "-_.");
    hide ValidProvider, ValidLabel, Spelled, HasAccounts;
  }

  // ----- Order of choice and keys -----

  /** The account chosen among rows was never used, or all others eligible were used, and no earlier. */
  lemma LeastRecentFirst(rows: map<Key, Account>, provider: string, now: Time, a: Account, b: Account)
    requires IsChoice(rows, provider, now, a) && Candidate(rows, provider, now, b)
    ensures a.lastUsedAt == None || (b.lastUsedAt.Some? && a.lastUsedAt.value <= b.lastUsedAt.value)
    ensures a.lastUsedAt == b.lastUsedAt ==> a.name == b.name || Less(a.name, b.name)
  {
    hide Less, Candidate;
  }

  /** In a run a key that is loaded is the one given when the account was added, and it is refused exactly
      for an account that is not there; no key is ever lost. */
  lemma LoadKeyInRun(catalog: map<string, string>, run: Run, n: nat)
    requires IsRun(catalog, run) && OwnNewIds(run.ops) && n < |run.ops| && run.ops[n].LoadKey?
    ensures var rows, k, r := run.states[n].rows, run.ops[n].key, run.replies[n];
            if k !in rows then r == Failed(NotFound(k))
            else && r.Secret?
                 && exists i :: 0 <= i < n && run.ops[i].Add? && k == (run.ops[i].account.provider, run.ops[i].account.name)
                                && rows[k].keyId == run.ops[i].keyId && r.secret == run.ops[i].account.apiKey
  {
    hide Inv;
    RunKeepsInv(catalog, run, n);
    assert Step(catalog, run.states[n], run.ops[n], run.states[n + 1], run.replies[n]);
    var rows, k := run.states[n].rows, run.ops[n].key;
    if k in rows {
      var i :| 0 <= i < n && MadeBy(run.ops[i], k, rows[k], run.states[n].secrets);
    }
  }
}
