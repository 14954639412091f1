/** The sessions table and its listing, which sorts by the timestamp text. */
module Sessions {
  import opened MachineInts
  import opened Texts
  import opened Timestamps
  import opened Wrappers
  import Utf8

  datatype Session = Session(
    id: string, cwd: string, projectRoot: Option<string>, createdAt: string, updatedAt: string, summary: Option<string>)

  datatype NewSession = NewSession(
    id: string, cwd: string, projectRoot: Option<string>, createdAt: Option<string>, summary: Option<string>)

  datatype Error = InvalidId | Exists | NotFound(id: string)

  /** Nothing but white space. */
  predicate Blank(id: string) {
    Utf8.Trim(id) == []
  }

  function Limit(limit: Option<nat>): nat {
    var n := if limit.Some? then limit.value else 1000;
    if n < 10_000 then n else 10_000
  }

  // ----- What a listing is -----

  predicate Matches(table: map<string, Session>, cwd: Option<string>, s: Session) {
    s.id in table && table[s.id] == s && (cwd.Some? ==> s.cwd == cwd.value)
  }

  /** Later texts first; equal texts in any order. */
  predicate Descending(list: seq<Session>) {
    forall i, j :: 0 <= i < j < |list| ==> !Less(list[i].updatedAt, list[j].updatedAt)
  }

  predicate OwnIds(list: seq<Session>) {
    forall i, j :: 0 <= i < j < |list| ==> list[i].id != list[j].id
  }

  /** The first `limit` matching sessions by descending text: what is left out is not later than what
      is listed, and is left out only for the limit. */
  ghost predicate IsListing(table: map<string, Session>, cwd: Option<string>, limit: nat, list: seq<Session>) {
    && Descending(list) && OwnIds(list) && |list| <= limit
    && (forall s :: s in list ==> Matches(table, cwd, s))
    && forall m :: Matches(table, cwd, m) && m !in list ==>
                     |list| == limit && forall s :: s in list ==> !Less(s.updatedAt, m.updatedAt)
  }

  /** The text of each session in `touched` is that of the clock reading there. */
  predicate Stamped(table: map<string, Session>, touched: map<string, u64>) {
    forall id :: id in touched ==> id in table && table[id].id == id && table[id].updatedAt == NowIso(touched[id])
  }

  /** The store stamped the session, before year 10000. */
  predicate Dated(touched: map<string, u64>, id: string) {
    id in touched && touched[id] < FIRST_SECOND_OF_YEAR_10000
  }

  /** In a listing the sessions that the store stamped before year 10000 are in the order of their last
      change, the latest first, and those left out changed no later than those listed, whatever texts
      the callers gave the other sessions. */
  lemma ListingIsNewestFirst(table: map<string, Session>, touched: map<string, u64>, cwd: Option<string>, limit: nat, list: seq<Session>)
    requires Stamped(table, touched) && IsListing(table, cwd, limit, list)
    ensures forall i, j :: 0 <= i < j < |list| && Dated(touched, list[i].id) && Dated(touched, list[j].id) ==>
              touched[list[i].id] >= touched[list[j].id]
    ensures forall m, s :: Matches(table, cwd, m) && m !in list && s in list && Dated(touched, m.id) && Dated(touched, s.id) ==>
              touched[s.id] >= touched[m.id]
  {
    hide NowIso, Less;
    forall a, b | Matches(table, cwd, a) && Matches(table, cwd, b) && !Less(a.updatedAt, b.updatedAt)
                  && Dated(touched, a.id) && Dated(touched, b.id)
      ensures touched[a.id] >= touched[b.id]
    {
      TextOrderIsTimeOrder(touched[a.id], touched[b.id]);
    }
  }

  // ----- The store -----

  class SessionStore {
    var table: map<string, Session>
    /** The clock reading at the last change of a session, where the store wrote the time itself. */
    ghost var touched: map<string, u64>

    ghost predicate Valid()
      reads this
    {
      (forall id :: id in table ==> table[id].id == id) && Stamped(table, touched)
    }

    constructor ()
      ensures Valid() && table == map[] && touched == map[]
    {
      table, touched := map[], map[];
    }

    method Create(n: NewSession, now: u64) returns (r: Result<Session, Error>)
      requires Valid()
      modifies this
      ensures Valid()
      ensures r.Ok? <==> !Blank(n.id) && n.id !in old(table)
      ensures r.Err? ==> unchanged(this) && r.error == if Blank(n.id) then InvalidId else Exists
      ensures r.Ok? ==>
                var at := if n.createdAt.Some? then n.createdAt.value else NowIso(now);
                && r.value == Session(n.id, n.cwd, n.projectRoot, at, at, n.summary)
                && table == old(table)[n.id := r.value]
                && touched == if n.createdAt.None? then old(touched)[n.id := now] else old(touched) - {n.id}
    {
      hide NowIso, Blank;
      if Blank(n.id) {
        return Err(InvalidId);
      }
      var createdAt := if n.createdAt.Some? then n.createdAt.value else NowIso(now);
      var updatedAt := createdAt;
      if n.id in table {
        return Err(Exists);
      }
      table := table[n.id := Session(n.id, n.cwd, n.projectRoot, createdAt, updatedAt, n.summary)];
      touched := if n.createdAt.None? then touched[n.id := now] else touched - {n.id};
      r := Ok(table[n.id]);
    }

    method UpdateSummary(id: string, summary: string, now: u64) returns (r: Result<Session, Error>)
      requires Valid()
      modifies this
      ensures Valid()
      ensures r.Ok? <==> !Blank(id) && id in old(table)
      ensures r.Err? ==> unchanged(this) && r.error == if Blank(id) then InvalidId else NotFound(id)
      ensures r.Ok? ==>
                && r.value == old(table)[id].(summary := Some(summary), updatedAt := NowIso(now))
                && table == old(table)[id := r.value] && touched == old(touched)[id := now]
    {
      hide NowIso, Blank;
      if Blank(id) {
        return Err(InvalidId);
      }
      if id !in table {
        return Err(NotFound(id));
      }
      table := table[id := table[id].(summary := Some(summary), updatedAt := NowIso(now))];
      touched := touched[id := now];
      r := Ok(table[id]);
    }

    method Delete(id: string) returns (r: Result<bool, Error>)
      requires Valid()
      modifies this
      ensures Valid()
      ensures r == if Blank(id) then Err(InvalidId) else Ok(id in old(table))
      ensures table == (if r.Ok? then old(table) - {id} else old(table))
      ensures touched == (if r.Ok? then old(touched) - {id} else old(touched))
    {
      hide NowIso, Blank;
      if Blank(id) {
        return Err(InvalidId);
      }
      r := Ok(id in table);
      table, touched := table - {id}, touched - {id};
    }

    /** One session put in front of the first whose text is not later. */
    static method Place(list: seq<Session>, s: Session) returns (r: seq<Session>)
      requires Descending(list) && OwnIds(list) && forall i :: 0 <= i < |list| ==> list[i].id != s.id
      ensures Descending(r) && OwnIds(r) && |r| == |list| + 1 && forall x :: x in r <==> x in list || x == s
    {
      hide Less, OwnIds;
      var p := 0;
      while p < |list| && Less(s.updatedAt, list[p].updatedAt)
        invariant p <= |list|
        invariant forall i :: 0 <= i < p ==> Less(s.updatedAt, list[i].updatedAt)
      {
        p := p + 1;
      }
      forall i | 0 <= i < p
        ensures !Less(list[i].updatedAt, s.updatedAt)
      {
        LessIsTotal(list[i].updatedAt, s.updatedAt);
      }
      forall i | p <= i < |list|
        ensures !Less(s.updatedAt, list[i].updatedAt)
      {
        NotEarlier(s.updatedAt, list[p].updatedAt, list[i].updatedAt);
      }
      r := list[..p] + [s] + list[p..];
      Placed(list, p, s);
    }

    /** All matching sessions, sorted. */
    method Collect(cwd: Option<string>) returns (all: seq<Session>)
      requires Valid()
      ensures Descending(all) && OwnIds(all) && forall s :: s in all <==> Matches(table, cwd, s)
    {
      hide Descending, OwnIds, Stamped;
      all := [];
      NothingPlaced();
      var todo := table.Keys;
      while todo != {}
        invariant todo <= table.Keys
        invariant Descending(all) && OwnIds(all)
        invariant forall s :: s in all <==> Matches(table, cwd, s) && s.id !in todo
      {
        var id :| id in todo;
        todo := todo - {id};
        if cwd.None? || table[id].cwd == cwd.value {
          forall i | 0 <= i < |all|
            ensures all[i].id != id
          {
            assert all[i] in all;
          }
          all := Place(all, table[id]);
        }
      }
    }

    method List(cwd: Option<string>, limit: Option<nat>) returns (list: seq<Session>)
      requires Valid()
      ensures limit.None? ==> IsListing(table, cwd, 1000, list)
      ensures limit.Some? && limit.value <= 10_000 ==> IsListing(table, cwd, limit.value, list)
      ensures limit.Some? && limit.value > 10_000 ==> IsListing(table, cwd, 10_000, list)
      ensures forall i, j :: 0 <= i < j < |list| && Dated(touched, list[i].id) && Dated(touched, list[j].id) ==>
                touched[list[i].id] >= touched[list[j].id]
    {
      hide Less, Stamped, Descending, OwnIds, Matches;
      var all := Collect(cwd);
      var n := Limit(limit);
      list := if |all| <= n then all else all[..n];
      FirstOf(all, n, list);
      ListingIsNewestFirst(table, touched, cwd, n, list);
    }
  }

  lemma NothingPlaced()
    ensures Descending([]) && OwnIds([])
  {
  }

  lemma Placed(list: seq<Session>, p: nat, s: Session)
    requires p <= |list| && Descending(list) && OwnIds(list)
    requires forall i :: 0 <= i < |list| ==> list[i].id != s.id
    requires forall i :: 0 <= i < p ==> !Less(list[i].updatedAt, s.updatedAt)
    requires forall i :: p <= i < |list| ==> !Less(s.updatedAt, list[i].updatedAt)
    ensures var r := list[..p] + [s] + list[p..];
            Descending(r) && OwnIds(r) && forall x :: x in r <==> x in list || x == s
  {
    hide Less;
    assert list == list[..p] + list[p..];
  }

  lemma NotEarlier(a: string, b: string, c: string)
    requires !Less(a, b) && (b == c || !Less(b, c))
    ensures !Less(a, c)
  {
    LessIsTotal(a, b);
    LessIsTotal(b, c);
    if Less(c, b) && Less(b, a) {
      LessIsTransitive(c, b, a);
    }
    LessIsTotal(a, c);
  }

  lemma FirstOf(all: seq<Session>, n: nat, list: seq<Session>)
    requires Descending(all) && OwnIds(all) && list == if |all| <= n then all else all[..n]
    ensures Descending(list) && OwnIds(list) && |list| <= n
    ensures forall s :: s in list ==> s in all
    ensures forall m :: m in all && m !in list ==> |list| == n && forall s :: s in list ==> !Less(s.updatedAt, m.updatedAt)
  {
    hide Less;
    var rest := all[|list|..];
    assert all == list + rest;
    forall m | m in rest
      ensures |list| == n && forall s :: s in list ==> !Less(s.updatedAt, m.updatedAt)
    {
      var k :| 0 <= k < |rest| && rest[k] == m;
      assert all[|list| + k] == m;
    }
  }
}
