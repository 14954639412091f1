/** What holds over any run of a credential store, and why the two stores agree. */
module CredentialLaws {
  import opened Accounts
  import opened CredentialStores
  import opened SqliteStore
  import opened Texts
  import opened Wrappers

  // ----- One step has one outcome -----

  lemma {:induction false} SortedListsAgree(a: seq<Account>, b: seq<Account>)
    requires Sorted(a) && Sorted(b) && forall x :: x in a <==> x in b
    ensures a == b
    decreases |a|
  {
    hide KeyLess;
    if a == [] {
      HasMember(b);
    } else {
      assert a[0] in b && b != [] && b[0] in a;
      HeadsAgree(a, b);
      forall x
        ensures x in a[1..] <==> x in b[1..]
      {
        InTail(a, x);
        InTail(b, x);
      }
      SortedListsAgree(a[1..], b[1..]);
      assert a == [a[0]] + a[1..] && b == [b[0]] + b[1..];
    }
  }

  lemma HasMember(b: seq<Account>)
    ensures b == [] || exists x :: x in b
  {
    if b != [] {
      assert b[0] in b;
    }
  }

  /** In a sorted list the tail is the list without the head. */
  lemma InTail(a: seq<Account>, x: Account)
    requires Sorted(a) && a != []
    ensures x in a[1..] <==> x in a && x != a[0]
  {
    hide KeyLess;
    assert a == [a[0]] + a[1..];
    KeyLessTotal(x.Key(), x.Key());
    if x in a[1..] {
      var i :| 0 <= i < |a[1..]| && a[1..][i] == x;
      assert KeyLess(a[0].Key(), a[i + 1].Key());
    }
  }

  lemma HeadsAgree(a: seq<Account>, b: seq<Account>)
    requires Sorted(a) && Sorted(b) && a != [] && b != [] && a[0] in b && b[0] in a
    ensures a[0] == b[0]
  {
    hide KeyLess, Sorted;
    KeyLessTotal(a[0].Key(), b[0].Key());
    HeadIsFirst(a, b[0]);
    HeadIsFirst(b, a[0]);
  }

  lemma HeadIsFirst(a: seq<Account>, x: Account)
    requires Sorted(a) && x in a
    ensures x == a[0] || KeyLess(a[0].Key(), x.Key())
  {
    hide KeyLess;
    var i :| 0 <= i < |a| && a[i] == x;
    assert i > 0 ==> KeyLess(a[0].Key(), a[i].Key());
  }

  lemma ChoicesAgree(rows: map<Key, Account>, provider: string, now: Time, a: Account, b: Account)
    requires IsChoice(rows, provider, now, a) && IsChoice(rows, provider, now, b)
    ensures a == b
  {
    LessIsTotal(a.name, b.name);
    assert Preferred(a, b) && Preferred(b, a);
    assert a.Key() == b.Key();
  }

  lemma DefaultsAgree(s: State, provider: string, r: Reply, q: Reply)
    requires Inv(s) && DefaultStep(s, provider, r) && DefaultStep(s, provider, q)
    ensures r == q
  {
    hide KeyringMatches, OwnIds;
    if r.found.Some? && q.found.Some? {
      var a, b := r.found.value, q.found.value;
      assert a.Key() in s.rows && b.Key() in s.rows;
    }
  }

  lemma ResolvesAgree(s: State, provider: string, now: Time, r: Reply, q: Reply)
    requires ResolveStep(s, provider, now, r) && ResolveStep(s, provider, now, q)
    ensures r == q
  {
    hide Preferred, SecretOf, Account.EligibleAt;
    if exists a :: Candidate(s.rows, provider, now, a) {
      var a :| IsChoice(s.rows, provider, now, a) && r == ChosenReply(a, SecretOf(s, a.Key()));
      var b :| IsChoice(s.rows, provider, now, b) && q == ChosenReply(b, SecretOf(s, b.Key()));
      ChoicesAgree(s.rows, provider, now, a, b);
    }
  }

  /** An operation on a store has one outcome. */
  lemma StepIsDeterministic(catalog: map<string, string>, s: State, op: Op, t: State, r: Reply, u: State, q: Reply)
    requires Inv(s) && Step(catalog, s, op, t, r) && Step(catalog, s, op, u, q)
    ensures t == u && r == q
  {
    hide Inv, Sorted, Selected, ResolveStep, DefaultStep, Checked, Defaulted, SecretOf, NewRow;
    match op {
      case List => SortedListsAgree(r.accounts, q.accounts);
      case ListForProvider(_) => SortedListsAgree(r.accounts, q.accounts);
      case GetDefault(provider) => DefaultsAgree(s, provider, r, q);
      case Resolve(provider, now) => ResolvesAgree(s, provider, now, r, q);
      case _ =>
    }
  }

  // ----- Runs -----

  datatype Run = Run(ops: seq<Op>, replies: seq<Reply>, states: seq<State>)

  ghost predicate IsRun(catalog: map<string, string>, run: Run) {
    && |run.replies| == |run.ops| && |run.states| == |run.ops| + 1 && run.states[0] == EMPTY
    && forall i :: 0 <= i < |run.ops| ==> Step(catalog, run.states[i], run.ops[i], run.states[i + 1], run.replies[i])
  }

  /** Every new identifier is used by one operation only. */
  predicate OwnNewIds(ops: seq<Op>) {
    forall i, j :: 0 <= i < j < |ops| && ops[i].Add? && ops[j].Add? ==> ops[i].id != ops[j].id && ops[i].keyId != ops[j].keyId
  }

  /** Row `a` under key `k` was made by `op`, and the keyring holds the secret given then. */
  predicate MadeBy(op: Op, k: Key, a: Account, secrets: map<string, string>) {
    && op.Add? && k == (op.account.provider, op.account.name) && a.id == op.id && a.keyId == op.keyId
    && a.keyId in secrets && secrets[a.keyId] == op.account.apiKey
  }

  /** The row under `k` after a step was there before, with the same identifiers, last use and secret,
      or was made by the step. */
  ghost predicate Kept(s: State, t: State, k: Key)
    requires k in t.rows
  {
    && k in s.rows && t.rows[k].id == s.rows[k].id && t.rows[k].keyId == s.rows[k].keyId
    && t.rows[k].lastUsedAt == s.rows[k].lastUsedAt
    && t.rows[k].keyId in s.secrets && t.rows[k].keyId in t.secrets && t.secrets[t.rows[k].keyId] == s.secrets[t.rows[k].keyId]
  }

  lemma RowsComeFrom(catalog: map<string, string>, s: State, op: Op, t: State, r: Reply, k: Key)
    requires Inv(s) && Fresh(s, op) && Step(catalog, s, op, t, r) && k in t.rows
    ensures Kept(s, t, k) || (MadeBy(op, k, t.rows[k], t.secrets) && t.rows[k].lastUsedAt.None?)
  {
    hide IsListing, ResolveStep, DefaultStep, Checked, HasAccounts, OneDefault, UnderKeys, HasKeyId;
    assert k in s.rows ==> s.rows[k].keyId in s.secrets;
  }

  /** What is known of state `n` of a run: the invariant, and that every row and its secret come from
      one of the operations before. */
  ghost predicate Known(run: Run, n: nat)
    requires n < |run.states| && n <= |run.ops|
  {
    Inv(run.states[n]) && forall k :: k in run.states[n].rows ==> Origin(run, n, k)
  }

  ghost predicate Origin(run: Run, n: nat, k: Key)
    requires n < |run.states| && n <= |run.ops| && k in run.states[n].rows
  {
    && run.states[n].rows[k].lastUsedAt.None?
    && exists i :: 0 <= i < n && MadeBy(run.ops[i], k, run.states[n].rows[k], run.states[n].secrets)
  }

  lemma {:induction false} RunIsKnown(catalog: map<string, string>, run: Run, n: nat)
    requires IsRun(catalog, run) && OwnNewIds(run.ops) && n <= |run.ops|
    ensures Known(run, n)
    ensures n < |run.ops| ==> Fresh(run.states[n], run.ops[n])
  {
    hide Step, Inv, Fresh, OwnNewIds, MadeBy, Origin;
    if n == 0 {
      EmptyKeepsInv();
    } else {
      RunIsKnown(catalog, run, n - 1);
      var s, op, t, r := run.states[n - 1], run.ops[n - 1], run.states[n], run.replies[n - 1];
      assert Step(catalog, s, op, t, r);
      StepKeepsInv(catalog, s, op, t, r);
      forall k | k in t.rows
        ensures Origin(run, n, k)
      {
        RowsComeFrom(catalog, s, op, t, r, k);
        OriginStays(run, n, k);
      }
    }
    if n < |run.ops| {
      KnownIsFresh(run, n);
    }
  }

  lemma EmptyKeepsInv()
    ensures Inv(EMPTY)
  {
  }

  lemma OriginStays(run: Run, n: nat, k: Key)
    requires 0 < n < |run.states| && n <= |run.ops| && k in run.states[n].rows
    requires var s, t := run.states[n - 1], run.states[n];
             || (Kept(s, t, k) && Origin(run, n - 1, k))
             || (MadeBy(run.ops[n - 1], k, t.rows[k], t.secrets) && t.rows[k].lastUsedAt.None?)
    ensures Origin(run, n, k)
  {
    var s, t := run.states[n - 1], run.states[n];
    if Kept(s, t, k) && Origin(run, n - 1, k) {
      var i :| 0 <= i < n - 1 && MadeBy(run.ops[i], k, s.rows[k], s.secrets);
      assert MadeBy(run.ops[i], k, t.rows[k], t.secrets);
    }
  }

  lemma KnownIsFresh(run: Run, n: nat)
    requires n < |run.ops| && |run.states| == |run.ops| + 1 && Known(run, n) && OwnNewIds(run.ops)
    ensures Fresh(run.states[n], run.ops[n])
  {
    hide UnderKeys, OneDefault, OwnIds;
    var s, op := run.states[n], run.ops[n];
    if op.Add? {
      forall k | k in s.rows
        ensures s.rows[k].id != op.id && s.rows[k].keyId != op.keyId
      {
        assert Origin(run, n, k);
        var i :| 0 <= i < n && MadeBy(run.ops[i], k, s.rows[k], s.secrets);
      }
      assert op.keyId in s.secrets ==> HasKeyId(s.rows, op.keyId);
    }
  }

  /** Every state of every run keeps the invariant: one default per provider, a keyring with exactly
      the keys of the rows, each with the secret that was given when the row was added. */
  lemma RunKeepsInv(catalog: map<string, string>, run: Run, n: nat)
    requires IsRun(catalog, run) && OwnNewIds(run.ops) && n <= |run.ops|
    ensures Inv(run.states[n])
    ensures forall k :: k in run.states[n].rows ==>
                          exists i :: 0 <= i < n && MadeBy(run.ops[i], k, run.states[n].rows[k], run.states[n].secrets)
  {
    hide Inv, MadeBy;
    RunIsKnown(catalog, run, n);
    forall k | k in run.states[n].rows
      ensures exists i :: 0 <= i < n && MadeBy(run.ops[i], k, run.states[n].rows[k], run.states[n].secrets)
    {
      assert Origin(run, n, k);
    }
  }

  /** Runs of the same operations give the same replies and pass through the same states. */
  lemma {:induction false} RunsAgree(catalog: map<string, string>, a: Run, b: Run, n: nat)
    requires IsRun(catalog, a) && IsRun(catalog, b) && a.ops == b.ops && OwnNewIds(a.ops) && n <= |a.ops|
    ensures a.states[n] == b.states[n]
    ensures forall i :: 0 <= i < n ==> a.replies[i] == b.replies[i]
  {
    hide Step, Known;
    if n > 0 {
      RunsAgree(catalog, a, b, n - 1);
      RunIsKnown(catalog, a, n - 1);
      KnownInv(a, n - 1);
      StepIsDeterministic(catalog, a.states[n - 1], a.ops[n - 1], a.states[n], a.replies[n - 1], b.states[n], b.replies[n - 1]);
    }
  }

  lemma KnownInv(run: Run, n: nat)
    requires n < |run.states| && n <= |run.ops| && Known(run, n)
    ensures Inv(run.states[n])
  {
  }

  /** An operation that fails leaves the store as it was; for a refused add that includes the defaults
      it cleared and the secret it stored. */
  lemma FailureChangesNothing(catalog: map<string, string>, s: State, op: Op, t: State, r: Reply)
    requires Step(catalog, s, op, t, r) && r.Failed?
    ensures t == s
  {
    hide IsListing, ResolveStep, DefaultStep, Checked, Defaulted;
  }

  // ----- Choosing an account -----

  /** Resolving in a run: the account chosen is eligible and the one with the least label, since no
      operation ever records a use; its secret is the one given when it was added; and a provider with
      an eligible account is never refused. */
  lemma ResolveInRun(catalog: map<string, string>, run: Run, n: nat)
    requires IsRun(catalog, run) && OwnNewIds(run.ops) && n < |run.ops| && run.ops[n].Resolve?
    ensures var s, op, r := run.states[n], run.ops[n], run.replies[n];
            if r.Chosen?
            then && Candidate(s.rows, op.provider, op.now, r.chosen)
                 && (forall b :: Candidate(s.rows, op.provider, op.now, b) ==> b == r.chosen || Less(r.chosen.name, b.name))
                 && exists i :: 0 <= i < n && MadeBy(run.ops[i], r.chosen.Key(), r.chosen, s.secrets) && r.secret == run.ops[i].account.apiKey
            else r == Failed(NoEligible(op.provider)) && forall b :: !Candidate(s.rows, op.provider, op.now, b)
  {
    hide Inv, Fresh, OwnNewIds, Known, Account.EligibleAt;
    var s, op, r := run.states[n], run.ops[n], run.replies[n];
    assert Step(catalog, s, op, run.states[n + 1], r);
    RunIsKnown(catalog, run, n);
    KnownInv(run, n);
    if a :| IsChoice(s.rows, op.provider, op.now, a) && r == ChosenReply(a, SecretOf(s, a.Key())) {
      KnownOrigin(run, n, a.Key());
      var i :| 0 <= i < n && MadeBy(run.ops[i], a.Key(), s.rows[a.Key()], s.secrets);
      forall b | Candidate(s.rows, op.provider, op.now, b)
        ensures b == a || Less(a.name, b.name)
      {
        KnownOrigin(run, n, b.Key());
      }
    }
  }

  lemma KnownOrigin(run: Run, n: nat, k: Key)
    requires n < |run.states| && n <= |run.ops| && Known(run, n) && k in run.states[n].rows
    ensures Origin(run, n, k)
  {
    hide Inv, Origin;
  }

  // ----- The two stores -----

  function AllTruncated(ops: seq<Op>): (r: seq<Op>)
    ensures |r| == |ops|
  {
    seq(|ops|, i requires 0 <= i < |ops| => Truncated(ops[i]))
  }

  /** The operation stores a time only to whole seconds. */
  predicate Whole(op: Op) {
    match op
    case Add(_, now, _, _) => now % SECOND == 0
    case MarkCooldown(_, until) => until % SECOND == 0
    case _ => true
  }

  lemma WholeIsTruncated(op: Op)
    ensures Whole(op) <==> Truncated(op) == op
  {
  }

  /** Any operations on the in-memory store. */
  method RunInMemory(catalog: map<string, string>, ops: seq<Op>) returns (replies: seq<Reply>, ghost run: Run)
    requires OwnNewIds(ops)
    ensures IsRun(catalog, run) && run.ops == ops && run.replies == replies
  {
    hide Step, Inv, Fresh, OwnNewIds;
    var store := new InMemoryCredentialStore(catalog);
    replies := [];
    run := Run([], [], [EMPTY]);
    for i := 0 to |ops|
      invariant store.Valid() && fresh(store) && fresh(store.backend) && store.catalog == catalog
      invariant IsRun(catalog, run) && run.ops == ops[..i] && run.replies == replies
      invariant store.Contents() == run.states[i]
    {
      NextIsFresh(catalog, run, ops[i], ops);
      var r := store.Perform(ops[i]);
      run := Extended(run, ops[i], r, store.Contents());
      replies := replies + [r];
    }
    assert ops[..|ops|] == ops;
  }

  /** Any operations on the SQLite store: a run of the operations with their times to whole seconds. */
  method RunSqlite(catalog: map<string, string>, ops: seq<Op>) returns (replies: seq<Reply>, ghost run: Run)
    requires OwnNewIds(ops)
    ensures IsRun(catalog, run) && run.ops == AllTruncated(ops) && run.replies == replies
  {
    hide Step, Inv, Fresh, OwnNewIds, Truncated;
    var store := new SqliteCredentialStore(catalog);
    replies := [];
    run := Run([], [], [EMPTY]);
    SameIds(ops);
    for i := 0 to |ops|
      invariant store.Valid() && fresh(store) && fresh(store.keyring) && store.catalog == catalog
      invariant IsRun(catalog, run) && run.ops == AllTruncated(ops)[..i] && run.replies == replies
      invariant store.Contents() == run.states[i]
    {
      NextIsFresh(catalog, run, AllTruncated(ops)[i], AllTruncated(ops));
      SameFresh(store.Contents(), ops[i]);
      var r := store.Perform(ops[i]);
      run := Extended(run, Truncated(ops[i]), r, store.Contents());
      replies := replies + [r];
    }
    assert AllTruncated(ops)[..|ops|] == AllTruncated(ops);
  }

  ghost function Extended(run: Run, op: Op, r: Reply, t: State): Run {
    Run(run.ops + [op], run.replies + [r], run.states + [t])
  }

  lemma SameIds(ops: seq<Op>)
    requires OwnNewIds(ops)
    ensures OwnNewIds(AllTruncated(ops))
  {
  }

  lemma NextIsFresh(catalog: map<string, string>, run: Run, op: Op, ops: seq<Op>)
    requires IsRun(catalog, run) && OwnNewIds(ops) && |run.ops| < |ops| && run.ops + [op] == ops[..|run.ops| + 1]
    ensures Fresh(run.states[|run.ops|], op)
  {
    hide Step, Inv, Fresh, Known;
    var n := |run.ops|;
    assert run.ops == ops[..n];
    RunIsKnown(catalog, run, n);
    var longer := Run(ops[..n + 1], run.replies + [Done], run.states + [EMPTY]);
    KnownInLonger(run, longer, n);
    KnownIsFresh(longer, n);
  }

  lemma KnownInLonger(run: Run, longer: Run, n: nat)
    requires |run.ops| == n && n < |run.states| && n < |longer.states| && n <= |longer.ops| && Known(run, n)
    requires longer.ops[..n] == run.ops && longer.states[n] == run.states[n]
    ensures Known(longer, n)
  {
    hide Inv, MadeBy;
    forall k | k in longer.states[n].rows
      ensures Origin(longer, n, k)
    {
      assert Origin(run, n, k);
      var i :| 0 <= i < n && MadeBy(run.ops[i], k, run.states[n].rows[k], run.states[n].secrets);
      assert longer.ops[i] == longer.ops[..n][i];
    }
  }

  /** The SQLite store gives the replies of the in-memory store, over any operations whose stored times
      are whole seconds. `a` and `b` are the runs of the two stores. */
  method RunBoth(catalog: map<string, string>, ops: seq<Op>)
    returns (inMemory: seq<Reply>, sqlite: seq<Reply>, ghost a: Run, ghost b: Run)
    requires OwnNewIds(ops) && forall i :: 0 <= i < |ops| ==> Whole(ops[i])
    ensures IsRun(catalog, a) && a.ops == ops && a.replies == inMemory
    ensures IsRun(catalog, b) && b.ops == AllTruncated(ops) == ops && b.replies == sqlite
    ensures inMemory == sqlite && a.states == b.states
  {
    hide Step, Inv, OwnNewIds, Truncated, Whole;
    inMemory, a := RunInMemory(catalog, ops);
    sqlite, b := RunSqlite(catalog, ops);
    forall i | 0 <= i < |ops|
      ensures Truncated(ops[i]) == ops[i]
    {
      WholeIsTruncated(ops[i]);
    }
    assert AllTruncated(ops) == ops;
    forall n | 0 <= n <= |ops|
      ensures a.states[n] == b.states[n]
    {
      RunsAgree(catalog, a, b, n);
    }
    RunsAgree(catalog, a, b, |ops|);
  }

  /** The store refuses the operation before it stores a time. */
  predicate Refused(catalog: map<string, string>, s: State, op: Op) {
    match op
    case Add(a, _, _, _) => Checked(catalog, a).Err? || (a.provider, a.name) in s.rows
    case MarkCooldown(key, _) => key !in s.rows
    case _ => false
  }

  /** From the same contents the two stores do the same exactly when the operation stores whole seconds,
      or is refused for its input, a taken label or an unknown one. */
  lemma StoresAgreeExactly(catalog: map<string, string>, s: State, op: Op, t: State, r: Reply, u: State, q: Reply)
    requires Inv(s) && Step(catalog, s, op, t, r) && Step(catalog, s, Truncated(op), u, q)
    ensures t == u && r == q <==> Whole(op) || Refused(catalog, s, op)
  {
    hide Inv, Checked, Defaulted, HasAccounts, IsListing, ResolveStep, DefaultStep;
    if Whole(op) {
      WholeIsTruncated(op);
      StepIsDeterministic(catalog, s, op, t, r, u, q);
    } else if op.MarkCooldown? && op.key in s.rows {
      assert t.rows[op.key].cooldownUntil == Some(op.until) && u.rows[op.key].cooldownUntil == Some(Floor(op.until));
    }
  }

  /** The two runs are in the same states and get the same replies up to operation `n`. */
  predicate SameUpTo(a: Run, b: Run, n: nat)
    requires n <= |a.replies| && n <= |b.replies| && n < |a.states| && n < |b.states|
  {
    a.states[..n + 1] == b.states[..n + 1] && a.replies[..n] == b.replies[..n]
  }

  /** Operation `i` stores whole seconds or is refused where it comes in the run. */
  predicate Harmless(catalog: map<string, string>, run: Run, i: nat)
    requires i < |run.ops| && i < |run.states|
  {
    Whole(run.ops[i]) || Refused(catalog, run.states[i], run.ops[i])
  }

  lemma SameOneMore(catalog: map<string, string>, a: Run, b: Run, n: nat)
    requires IsRun(catalog, a) && IsRun(catalog, b) && b.ops == AllTruncated(a.ops) && OwnNewIds(a.ops)
    requires n < |a.ops| && SameUpTo(a, b, n)
    ensures SameUpTo(a, b, n + 1) <==> Harmless(catalog, a, n)
  {
    hide Step, Known, OwnNewIds, Inv, Whole, Refused, Truncated;
    assert a.states[..n + 1][n] == b.states[..n + 1][n];
    RunIsKnown(catalog, a, n);
    KnownInv(a, n);
    StoresAgreeExactly(catalog, a.states[n], a.ops[n], a.states[n + 1], a.replies[n], b.states[n + 1], b.replies[n]);
    assert a.states[..n + 2] == a.states[..n + 1] + [a.states[n + 1]] && b.states[..n + 2] == b.states[..n + 1] + [b.states[n + 1]];
    assert a.replies[..n + 1] == a.replies[..n] + [a.replies[n]] && b.replies[..n + 1] == b.replies[..n] + [b.replies[n]];
  }

  lemma SameBefore(a: Run, b: Run, m: nat, n: nat)
    requires m <= n <= |a.replies| && n <= |b.replies| && n < |a.states| && n < |b.states| && SameUpTo(a, b, n)
    ensures SameUpTo(a, b, m)
  {
    assert a.states[..m + 1] == a.states[..n + 1][..m + 1] && b.states[..m + 1] == b.states[..n + 1][..m + 1];
    assert a.replies[..m] == a.replies[..n][..m] && b.replies[..m] == b.replies[..n][..m];
  }

  lemma {:induction false} SameExactly(catalog: map<string, string>, a: Run, b: Run, n: nat)
    requires IsRun(catalog, a) && IsRun(catalog, b) && b.ops == AllTruncated(a.ops) && OwnNewIds(a.ops) && n <= |a.ops|
    ensures SameUpTo(a, b, n) <==> forall i :: 0 <= i < n ==> Harmless(catalog, a, i)
  {
    hide Step, OwnNewIds, Harmless, SameUpTo;
    if n == 0 {
      SameAtStart(a, b);
    } else {
      SameExactly(catalog, a, b, n - 1);
      if SameUpTo(a, b, n) {
        SameBefore(a, b, n - 1, n);
      }
      if SameUpTo(a, b, n - 1) {
        SameOneMore(catalog, a, b, n - 1);
      }
    }
  }

  lemma SameAtStart(a: Run, b: Run)
    requires |a.states| > 0 && |b.states| > 0 && a.states[0] == b.states[0]
    ensures SameUpTo(a, b, 0)
  {
  }

  /** Over a whole run the two stores pass through the same states with the same replies exactly when
      every operation stores whole seconds or is refused where it comes. */
  lemma RunsAgreeExactly(catalog: map<string, string>, a: Run, b: Run)
    requires IsRun(catalog, a) && IsRun(catalog, b) && b.ops == AllTruncated(a.ops) && OwnNewIds(a.ops)
    ensures a.states == b.states && a.replies == b.replies <==> forall i :: 0 <= i < |a.ops| ==> Harmless(catalog, a, i)
  {
    hide Step, OwnNewIds, Harmless;
    SameExactly(catalog, a, b, |a.ops|);
    var n := |a.ops|;
    assert a.states[..n + 1] == a.states && b.states[..n + 1] == b.states && a.replies[..n] == a.replies && b.replies[..n] == b.replies;
  }

  /** Where the truncation shows: within the last second of a cooldown that does not end on a whole
      second, the SQLite store already hands the account out. */
  lemma CooldownEndsEarly(catalog: map<string, string>, s: State, key: Key, until: Time, t: State, u: State, r: Reply, q: Reply, now: Time)
    requires Inv(s) && key in s.rows && forall k :: k in s.rows ==> k == key
    requires Step(catalog, s, Op.MarkCooldown(key, until), t, Done) && Step(catalog, s, Truncated(Op.MarkCooldown(key, until)), u, Done)
    requires Floor(until) <= now < until
    requires Step(catalog, t, Op.Resolve(key.0, now), t, r) && Step(catalog, u, Op.Resolve(key.0, now), u, q)
    ensures r == Failed(NoEligible(key.0)) && q.Chosen? && q.chosen.Key() == key
  {
    hide Less;
    assert s.rows[key].Key() == key && s.rows[key].keyId in s.secrets;
    var a := u.rows[key];
    assert Candidate(u.rows, key.0, now, a);
    forall b
      ensures !Candidate(t.rows, key.0, now, b)
    {
      if b.Key() in t.rows {
        assert b.Key() == key;
      }
    }
  }
}
