/** Which block markers the parser meets in a text, what edit they make, and which edits survive
    being written out and parsed. */
module ParseLaws {
  import opened EditFormats
  import opened EditLaws
  import opened Fuzzy
  import opened FuzzyLaws
  import opened Texts
  import opened Wrappers

  // ----- Markers in texts -----

  predicate Marker(m: string) {
    m != [] && NoNewline(m)
  }

  lemma FoundAt(text: string, m: string, i: nat)
    requires OccursAt(text, m, i) && forall k: nat :: k < i ==> !OccursAt(text, m, k)
    ensures Find(text, m) == Some(i)
  {
    hide FindFrom;
  }

  /** A marker has no newline, so it occurs in a line exactly when it occurs with more lines after. */
  lemma OccursInLine(x: string, m: string, rest: string, k: nat)
    requires Marker(m) && k <= |x|
    ensures OccursAt(x + "\n" + rest, m, k) <==> OccursAt(x, m, k)
  {
    var s := x + "\n" + rest;
    if k + |m| <= |x| {
      assert s[k..k + |m|] == x[k..k + |m|];
    } else if k + |m| <= |s| {
      assert s[k..k + |m|][|x| - k] == '\n' != m[|x| - k];
    }
  }

  /** A marker occurs behind a newline exactly when it occurs in the text after the newline. */
  lemma OccursBehind(x: string, m: string, k: nat)
    requires Marker(m)
    ensures !OccursAt("\n" + x, m, 0)
    ensures OccursAt("\n" + x, m, k + 1) <==> OccursAt(x, m, k)
  {
    var s := "\n" + x;
    if |m| <= |s| {
      assert s[0..|m|][0] == '\n' != m[0];
    }
    if k + |m| <= |x| {
      assert s[k + 1..k + 1 + |m|] == x[k..k + |m|];
    }
  }

  lemma FindBehind(x: string, m: string)
    requires Marker(m)
    ensures Find("\n" + x, m) == if Find(x, m).Some? then Some(Find(x, m).value + 1) else None
  {
    hide FindFrom, Marker, OccursAt;
    forall k: nat
      ensures OccursAt("\n" + x, m, k) <==> k > 0 && OccursAt(x, m, k - 1)
    {
      OccursBehind(x, m, if k > 0 then k - 1 else 0);
    }
    if Find(x, m).Some? {
      FoundAt("\n" + x, m, Find(x, m).value + 1);
    }
  }

  lemma OccursWhereWritten(x: string, m: string, rest: string)
    ensures OccursAt(x + "\n" + (m + rest), m, |x| + 1)
  {
  }

  /** The first marker of a line followed by a line that starts with the marker. */
  lemma FindInLine(x: string, m: string, rest: string)
    requires Marker(m)
    ensures Find(x + "\n" + (m + rest), m) == if Find(x, m).Some? then Find(x, m) else Some(|x| + 1)
  {
    hide FindFrom, Marker, OccursAt;
    var s := x + "\n" + (m + rest);
    forall k: nat | k <= |x|
      ensures OccursAt(s, m, k) <==> OccursAt(x, m, k)
    {
      OccursInLine(x, m, m + rest, k);
    }
    if Find(x, m).Some? {
      OccursWithin(x, m, Find(x, m).value);
      FoundAt(s, m, Find(x, m).value);
    } else {
      OccursWhereWritten(x, m, rest);
      FoundAt(s, m, |x| + 1);
    }
  }

  lemma NoneInSuffix(x: string, m: string, n: nat)
    requires Find(x, m).None? && n <= |x|
    ensures Find(x[n..], m).None? && (m != [] ==> !(m <= x[n..]))
  {
    hide FindFrom;
    forall k: nat | OccursAt(x[n..], m, k)
      ensures OccursAt(x, m, n + k)
    {
      assert x[n..][k..k + |m|] == x[n + k..n + k + |m|];
    }
    assert m <= x[n..] <==> OccursAt(x[n..], m, 0);
  }

  lemma PrefixOfLine(x: string, m: string, rest: string)
    requires Marker(m)
    ensures m <= x + "\n" + rest <==> m <= x
  {
    OccursInLine(x, m, rest, 0);
    assert forall s: string :: m <= s <==> OccursAt(s, m, 0);
  }

  // ----- Bodies -----

  /** The body between a marker's line and the next marker: the text up to the marker if the text
      itself holds it, and else the text between its newlines. */
  lemma BodyIs(x: string, m: string, rest: string)
    requires Marker(m)
    ensures UpTo("\n" + (x + "\n" + (m + rest)), m) ==
            if Find(x, m).Some? then "\n" + x[..Find(x, m).value] else "\n" + x + "\n"
  {
    hide Find, Marker;
    var s := x + "\n" + (m + rest);
    FindInLine(x, m, rest);
    FindBehind(s, m);
    if Find(x, m).Some? {
      var k := Find(x, m).value;
      assert ("\n" + s)[..k + 1] == "\n" + x[..k];
    } else {
      assert ("\n" + s)[..|x| + 2] == "\n" + x + "\n";
    }
  }

  predicate TrimmedText(x: string) {
    x == [] || (x[0] != '\n' && x[|x| - 1] != '\n')
  }

  lemma {:induction false} TrimStartThen(x: string)
    ensures TrimStart(x + "\n") == if TrimStart(x) == [] then [] else TrimStart(x) + "\n"
  {
    if x != [] && x[0] == '\n' {
      assert (x + "\n")[1..] == x[1..] + "\n";
      TrimStartThen(x[1..]);
    } else if x == [] {
      assert ("\n")[1..] == [] && x + "\n" == "\n";
    }
  }

  lemma {:induction false} TrimEndAtMost(x: string)
    ensures |TrimEnd(x)| <= |x|
  {
    if x != [] && x[|x| - 1] == '\n' {
      TrimEndAtMost(x[..|x| - 1]);
    }
  }

  lemma {:induction false} TrimStartAtMost(x: string)
    ensures |TrimStart(x)| <= |x|
  {
    if x != [] && x[0] == '\n' {
      TrimStartAtMost(x[1..]);
    }
  }

  lemma TrimAfterNewline(x: string)
    ensures Trim("\n" + x) == Trim(x) && |Trim(x)| <= |x|
  {
    assert ("\n" + x)[1..] == x;
    TrimStartAtMost(x);
    TrimEndAtMost(TrimStart(x));
  }

  lemma TrimBeforeNewline(x: string)
    ensures Trim(x + "\n") == Trim(x)
  {
    TrimStartThen(x);
    var t := TrimStart(x);
    assert (t + "\n")[..|t|] == t;
  }

  /** Trimming changes nothing exactly when no newline is at either end. */
  lemma TrimIsIdentity(x: string)
    ensures Trim(x) == x <==> TrimmedText(x)
  {
    if x != [] {
      if x[0] == '\n' {
        assert "\n" + x[1..] == x;
        TrimAfterNewline(x[1..]);
      } else if x[|x| - 1] == '\n' {
        var y := x[..|x| - 1];
        assert y + "\n" == x;
        TrimBeforeNewline(y);
        TrimAfterNewline(y);
      }
    }
  }

  /** A body comes back as written exactly when it holds no marker that ends it and has no newline at
      either end. */
  lemma BodyRoundTrip(x: string, m: string, rest: string)
    requires Marker(m)
    ensures var body := Trim(UpTo("\n" + (x + "\n" + (m + rest)), m));
            && (body == x <==> Find(x, m).None? && TrimmedText(x))
            && (Find(x, m).None? ==> body == Trim(x))
  {
    hide Find, Marker, Trim, UpTo, TrimmedText;
    BodyIs(x, m, rest);
    if Find(x, m).Some? {
      var k := Find(x, m).value;
      TrimAfterNewline(x[..k]);
      FoundBefore(x, m);
    } else {
      TrimIsIdentity(x);
      TrimAfterNewline(x);
      TrimBeforeNewline("\n" + x);
    }
  }

  lemma FoundBefore(x: string, m: string)
    requires Marker(m) && Find(x, m).Some?
    ensures Find(x, m).value < |x|
  {
    hide FindFrom;
  }

  // ----- The walk of the parser -----

  /** A text gathered once is never replaced. */
  lemma {:induction false} GatheredStays(cursor: string, blocks: Blocks)
    requires blocks.search.Some?
    ensures Gather(cursor, blocks).search == blocks.search
    ensures blocks.replace.Some? ==> Gather(cursor, blocks) == blocks
    decreases |cursor|
  {
    hide Find, Trim, UpTo, FirstNewline, Gather;
    var at := Find(cursor, OPEN);
    if at.None? {
      NoMarker(cursor, blocks);
    } else {
      GatherStep(cursor, blocks);
      var rest := cursor[at.value..];
      if SEARCH <= rest || REPLACE <= rest {
        var marker, end := if SEARCH <= rest then SEARCH else REPLACE, if SEARCH <= rest then REPLACE else END;
        var n := FirstNewline(rest);
        if n < |rest| {
          GatheredStays(rest[n + 1..], Store(blocks, Trim(UpTo(rest[|marker|..], end))));
        }
      } else if END <= rest {
        GatheredStays(rest[|END|..], blocks);
      } else {
        GatheredStays(rest[|OPEN|..], blocks);
      }
    }
  }

  /** The step behind a marker `m` that starts a block ending at `end`. */
  lemma BlockStep(m: string, end: string, text: string, blocks: Blocks)
    requires (m == SEARCH && end == REPLACE) || (m == REPLACE && end == END)
    ensures Gather(m + ("\n" + text), blocks) == Gather(text, Store(blocks, Trim(UpTo("\n" + text, end))))
  {
    hide Find, Trim, UpTo, FirstNewline, Store, Gather;
    var s := m + ("\n" + text);
    assert OPEN <= s && m <= s && s[|m|..] == "\n" + text && s[|m| + 1..] == text && s[0..] == s;
    FoundFirst(s, OPEN);
    GatherStep(s, blocks);
    assert NoNewline(m);
    FirstNewlineAfter(m, s);
    assert m == REPLACE ==> !(SEARCH <= s) by {
      assert s[3] == m[3];
    }
  }

  // ----- The markers of a text -----

  /** How many `<` stand directly before position `p`. */
  function Opens(text: string, p: nat): nat
    requires p <= |text|
  {
    if p > 0 && text[p - 1] == '<' then 1 + Opens(text, p - 1) else 0
  }

  /** A block marker the parser can see: it takes `<` in threes from the start of their run, so a
      marker behind one or two more `<` is hidden. */
  predicate SeenAt(text: string, p: nat) {
    p < |text| && (SEARCH <= text[p..] || REPLACE <= text[p..]) && Opens(text, p) % 3 == 0
  }

  /** The first marker seen from `p` on. */
  function NextSeen(text: string, p: nat): (r: Option<nat>)
    requires p <= |text|
    ensures r.Some? ==> p <= r.value < |text| && SeenAt(text, r.value) && forall q: nat :: p <= q < r.value ==> !SeenAt(text, q)
    ensures r.None? ==> forall q: nat :: p <= q ==> !SeenAt(text, q)
    decreases |text| - p
  {
    if p == |text| then None
    else if SeenAt(text, p) then Some(p)
    else NextSeen(text, p + 1)
  }

  lemma NextSeenIs(text: string, p: nat, q: nat)
    requires p <= q < |text| && SeenAt(text, q) && forall k: nat :: p <= k < q ==> !SeenAt(text, k)
    ensures NextSeen(text, p) == Some(q)
  {
    hide SeenAt;
    SeenWithin(text, q);
  }

  lemma NoneSeen(text: string, p: nat)
    requires p <= |text| && forall q: nat :: p <= q ==> !SeenAt(text, q)
    ensures NextSeen(text, p) == None
  {
    hide SeenAt;
  }

  lemma SeenWithin(text: string, p: nat)
    requires SeenAt(text, p)
    ensures p < |text| && OPEN <= text[p..]
  {
  }

  /** The body of the block that starts at a marker. */
  function BodyAt(text: string, p: nat): string
    requires SeenAt(text, p)
  {
    if SEARCH <= text[p..] then Trim(UpTo(text[p..][|SEARCH|..], REPLACE)) else Trim(UpTo(text[p..][|REPLACE|..], END))
  }

  /** The start of the next line, or the end of the text. */
  function NextLine(text: string, p: nat): (n: nat)
    requires p <= |text|
    ensures p <= n <= |text|
    ensures p < |text| ==> p < n
  {
    var n := FirstNewline(text[p..]);
    if p + n < |text| then p + n + 1 else |text|
  }

  /** The markers met from `p` on: the first one seen in each line. */
  function MetFrom(text: string, p: nat): seq<nat>
    requires p <= |text|
    decreases |text| - p
  {
    var q := NextSeen(text, p);
    if q.None? then []
    else [q.value] + MetFrom(text, NextLine(text, q.value))
  }

  /** The first marker seen in its line. */
  predicate FirstOfLine(text: string, q: nat) {
    SeenAt(text, q) && forall p: nat :: p < q && SeenAt(text, p) ==> !NoNewline(text[p..q])
  }

  /** The runs of `<` in a text and in its rest from `base` on, where no run is cut out of step. */
  lemma {:induction false} OpensShift(text: string, base: nat, p: nat)
    requires base <= p <= |text| && Opens(text, base) % 3 == 0
    ensures Opens(text[base..], p - base) % 3 == Opens(text, p) % 3
    decreases p
  {
    if p > base {
      assert text[base..][p - base - 1] == text[p - 1];
      OpensShift(text, base, p - 1);
    }
  }

  lemma SeenShift(text: string, base: nat, p: nat)
    requires base <= p && base <= |text| && Opens(text, base) % 3 == 0
    ensures SeenAt(text[base..], p - base) <==> SeenAt(text, p)
  {
    if p < |text| {
      OpensShift(text, base, p);
      assert text[base..][p - base..] == text[p..];
    }
  }

  /** The markers of the rest are those of the text. */
  lemma NextSeenShift(text: string, base: nat)
    requires base <= |text| && Opens(text, base) % 3 == 0
    ensures NextSeen(text[base..], 0) ==
            if NextSeen(text, base).Some? then Some(NextSeen(text, base).value - base) else None
    ensures NextSeen(text, base).Some? ==>
              BodyAt(text[base..], NextSeen(text, base).value - base) == BodyAt(text, NextSeen(text, base).value)
  {
    hide SeenAt, Opens, UpTo, Trim, NextSeen;
    var rest, r := text[base..], NextSeen(text, base);
    forall k: nat | base <= k
      ensures SeenAt(rest, k - base) <==> SeenAt(text, k)
    {
      SeenShift(text, base, k);
    }
    if r.Some? {
      SeenWithin(text, r.value);
      assert rest[r.value - base..] == text[r.value..];
      forall k: nat | k < r.value - base
        ensures !SeenAt(rest, k)
      {
        assert !SeenAt(text, base + k);
        assert base + k - base == k;
      }
      NextSeenIs(rest, 0, r.value - base);
    } else {
      forall k: nat
        ensures !SeenAt(rest, k)
      {
        assert !SeenAt(text, base + k) && base + k - base == k;
      }
      NoneSeen(rest, 0);
    }
  }

  /** What the parser finds first: nothing before `at` is seen. */
  lemma FirstOpen(text: string, at: nat)
    requires Find(text, OPEN) == Some(at)
    ensures at + |OPEN| <= |text| && OPEN <= text[at..] && Opens(text, at) == 0
    ensures forall p: nat :: p < at ==> !SeenAt(text, p)
  {
    hide FindFrom, Opens, SeenAt;
    OpenWithin(text, OPEN);
    forall p: nat | p < at
      ensures !SeenAt(text, p)
    {
      SeenIsOpen(text, p);
    }
    NotInRun(text, at);
  }

  lemma SeenIsOpen(text: string, p: nat)
    ensures SeenAt(text, p) ==> OccursAt(text, OPEN, p)
  {
    if SeenAt(text, p) {
      SeenWithin(text, p);
    }
  }

  lemma NotInRun(text: string, at: nat)
    requires OccursAt(text, OPEN, at) && (at > 0 ==> !OccursAt(text, OPEN, at - 1))
    ensures Opens(text, at) == 0
  {
    if at > 0 {
      assert text[at - 1..at + 2] == [text[at - 1]] + text[at..at + 3][..2];
      assert OPEN == ['<'] + OPEN[..2];
    }
  }

  /** A `<<<` that starts no block is passed: nothing is seen in what is skipped, and the rest starts
      in step. */
  lemma OtherOpen(text: string, at: nat)
    requires at <= |text| && OPEN <= text[at..] && Opens(text, at) == 0
    requires !(SEARCH <= text[at..]) && !(REPLACE <= text[at..])
    ensures var base := at + if END <= text[at..] then |END| else |OPEN|;
            && base <= |text| && Opens(text, base) % 3 == 0
            && forall p: nat :: at <= p < base ==> !SeenAt(text, p)
  {
    var base := at + if END <= text[at..] then |END| else |OPEN|;
    assert text[at] == '<' && text[at + 1] == '<' && text[at + 2] == '<' by {
      assert text[at..][0] == '<' && text[at..][1] == '<' && text[at..][2] == '<';
    }
    assert Opens(text, at + 1) == 1 && Opens(text, at + 2) == 2 && Opens(text, at + 3) == 3;
    if END <= text[at..] {
      assert text[at + 3] == 'E' && text[at + 4] == 'N' && text[at + 5] == 'D' by {
        assert text[at..][3] == 'E' && text[at..][4] == 'N' && text[at..][5] == 'D';
      }
    }
  }

  lemma NoneSeenWithoutOpen(text: string)
    requires Find(text, OPEN).None?
    ensures NextSeen(text, 0).None?
  {
    hide FindFrom, SeenAt, OccursAt;
    forall p: nat
      ensures !SeenAt(text, p)
    {
      SeenIsOpen(text, p);
    }
    NoneSeen(text, 0);
  }

  /** The parser takes the block of the first marker seen, and goes on behind the marker's line. */
  lemma {:induction false} GatherFirst(text: string, blocks: Blocks)
    ensures match NextSeen(text, 0)
            case None => Gather(text, blocks) == blocks
            case Some(p) => Gather(text, blocks) == AfterBlock(text[p..], Store(blocks, BodyAt(text, p)))
    decreases |text|
  {
    hide Find, SeenAt, Opens, Gather, UpTo, Trim, Store, AfterBlock, NextSeen;
    var found := Find(text, OPEN);
    if found.None? {
      NoneSeenWithoutOpen(text);
      NoMarker(text, blocks);
    } else {
      var at := found.value;
      GatherStep(text, blocks);
      FirstOpen(text, at);
      if SEARCH <= text[at..] || REPLACE <= text[at..] {
        SeenHere(text, at);
        NextSeenIs(text, 0, at);
      } else {
        OtherOpen(text, at);
        var base := at + if END <= text[at..] then |END| else |OPEN|;
        assert text[base..] == text[at..][base - at..];
        GatherFirst(text[base..], blocks);
        NextSeenShift(text, base);
        SkipUnseen(text, base);
        if NextSeen(text, base).Some? {
          assert text[base..][NextSeen(text, base).value - base..] == text[NextSeen(text, base).value..];
        }
      }
    }
  }

  lemma SeenHere(text: string, p: nat)
    requires p < |text| && (SEARCH <= text[p..] || REPLACE <= text[p..]) && Opens(text, p) == 0
    ensures SeenAt(text, p)
  {
  }

  lemma SkipUnseen(text: string, base: nat)
    requires base <= |text| && forall p: nat :: p < base ==> !SeenAt(text, p)
    ensures NextSeen(text, 0) == NextSeen(text, base)
  {
    hide SeenAt;
    var r := NextSeen(text, base);
    if r.Some? {
      SeenWithin(text, r.value);
      NextSeenIs(text, 0, r.value);
    } else {
      NoneSeen(text, 0);
    }
  }

  // ----- What a text parses to -----

  lemma NoneOpen(text: string, n: nat)
    requires 0 < n <= |text| && text[n - 1] == '\n'
    ensures Opens(text, n) == 0
  {
  }

  /** Lines start in step. */
  lemma LineStart(text: string, p: nat)
    requires p < |text|
    ensures var n := NextLine(text, p); Opens(text, n) % 3 == 0 || n == |text|
    ensures var n := NextLine(text, p); n < |text| ==> text[n - 1] == '\n'
  {
    hide Opens, FirstNewline;
    var n := FirstNewline(text[p..]);
    if p + n < |text| {
      assert text[p + n] == text[p..][n];
      NoneOpen(text, p + n + 1);
    }
  }

  /** Behind a block marker the parser goes on in the next line. */
  lemma AfterLine(text: string, p: nat, blocks: Blocks)
    requires p < |text|
    ensures AfterBlock(text[p..], blocks) == Gather(text[NextLine(text, p)..], blocks)
  {
    hide Gather, FirstNewline;
    var n := FirstNewline(text[p..]);
    if n < |text[p..]| {
      assert text[p..][n + 1..] == text[p + n + 1..];
    } else {
      assert text[|text|..] == [];
      NothingToGather(blocks);
    }
  }

  /** The bodies of the first two markers met become search and replace text. */
  lemma GatheredFromMarkers(text: string)
    ensures Gather(text, Blocks(None, None)) ==
            var p := NextSeen(text, 0);
            if p.None? then Blocks(None, None)
            else
              var q := NextSeen(text, NextLine(text, p.value));
              Blocks(Some(BodyAt(text, p.value)), if q.None? then None else Some(BodyAt(text, q.value)))
  {
    hide *;
    GatherFirst(text, Blocks(None, None));
    var p := NextSeen(text, 0);
    if p.Some? {
      var one := BodyAt(text, p.value);
      SeenWithin(text, p.value);
      StoreIs(Blocks(None, None), one);
      AfterLine(text, p.value, Blocks(Some(one), None));
      SecondBody(text, NextLine(text, p.value), one) by {
        RestIsInStep(text, p.value);
      }
    }
  }

  lemma RestIsInStep(text: string, p: nat)
    requires p < |text|
    ensures var n := NextLine(text, p); n <= |text| && (Opens(text, n) % 3 == 0 || n == |text|)
  {
    LineStart(text, p);
  }

  lemma SecondBody(text: string, n: nat, one: string)
    requires n <= |text| && (Opens(text, n) % 3 == 0 || n == |text|)
    ensures Gather(text[n..], Blocks(Some(one), None)) ==
            var q := NextSeen(text, n);
            Blocks(Some(one), if q.None? then None else Some(BodyAt(text, q.value)))
  {
    hide *;
    if n == |text| {
      NothingLeft(text, Blocks(Some(one), None));
    } else {
      var rest := text[n..];
      GatherFirst(rest, Blocks(Some(one), None));
      NextSeenShift(text, n);
      var q := NextSeen(rest, 0);
      if q.Some? {
        var two := BodyAt(rest, q.value);
        StoreIs(Blocks(Some(one), None), two);
        AfterLine(rest, q.value, Blocks(Some(one), Some(two)));
        GatheredStays(rest[NextLine(rest, q.value)..], Blocks(Some(one), Some(two)));
      }
    }
  }

  lemma NothingLeft(text: string, blocks: Blocks)
    ensures NextSeen(text, |text|) == None && Gather(text[|text|..], blocks) == blocks
  {
    assert text[|text|..] == [];
    NothingToGather(blocks);
  }

  /** What every text parses to: no search block is reported exactly when no marker is met, no replace
      block exactly when one is met, and otherwise the first two bodies make the edit, whichever
      markers they have. */
  lemma ParsedByMarkers(text: string)
    ensures var met := MetFrom(text, 0);
            && (Parsed(text) == Err(NoSearchBlock) <==> |met| == 0)
            && (Parsed(text) == Err(NoReplaceBlock) <==> |met| == 1)
            && (forall k :: 0 <= k < |met| ==> SeenAt(text, met[k]))
            && (|met| >= 2 ==> Parsed(text) == Ok(SearchReplace(Edit(BodyAt(text, met[0]), BodyAt(text, met[1]), None))))
  {
    hide Gather, SeenAt, BodyAt, NextSeen, NextLine;
    GatheredFromMarkers(text);
    MetAreSeen(text, 0);
    MetTwice(text);
  }

  lemma {:induction false} MetAreSeen(text: string, p: nat)
    requires p <= |text|
    ensures forall k :: 0 <= k < |MetFrom(text, p)| ==> SeenAt(text, MetFrom(text, p)[k])
    decreases |text| - p
  {
    hide SeenAt, NextLine;
    var q := NextSeen(text, p);
    if q.Some? {
      SeenWithin(text, q.value);
      MetAreSeen(text, NextLine(text, q.value));
    }
  }

  lemma MetTwice(text: string)
    ensures var met, p := MetFrom(text, 0), NextSeen(text, 0);
            if p.None? then met == []
            else
              var q := NextSeen(text, NextLine(text, p.value));
              if q.None? then met == [p.value] else |met| >= 2 && met[0] == p.value && met[1] == q.value
  {
    hide SeenAt, NextLine, NextSeen;
  }

  /** The markers met are the first ones seen in their lines. */
  lemma {:induction false} MetExactly(text: string, p: nat, q: nat)
    requires p <= |text| && (p == 0 || p == |text| || text[p - 1] == '\n')
    ensures q in MetFrom(text, p) <==> p <= q && FirstOfLine(text, q)
    decreases |text| - p
  {
    hide SeenAt, NextLine, FirstOfLine, NoNewline;
    var r := NextSeen(text, p);
    if r.None? {
      FirstOfLineIs(text, q);
    } else {
      var n := NextLine(text, r.value);
      SeenWithin(text, r.value);
      LineStart(text, r.value);
      MetExactly(text, n, q);
      FirstOfLineIs(text, q);
      if q < r.value {
      } else if q == r.value {
        LeastIsFirst(text, p, q);
      } else if q < n {
        SameLine(text, r.value, q);
      }
    }
  }

  lemma FirstOfLineIs(text: string, q: nat)
    ensures FirstOfLine(text, q) ==> SeenAt(text, q)
    ensures SeenAt(text, q) ==> q < |text|
  {
  }

  lemma LeastIsFirst(text: string, p: nat, q: nat)
    requires p <= q && p <= |text| && (p == 0 || p == |text| || text[p - 1] == '\n')
    requires SeenAt(text, q) && forall k: nat :: p <= k < q ==> !SeenAt(text, k)
    ensures FirstOfLine(text, q)
  {
    hide Opens;
    forall k: nat | k < q && SeenAt(text, k)
      ensures !NoNewline(text[k..q])
    {
      assert k < p;
      assert text[k..q][p - 1 - k] == text[p - 1];
    }
  }

  lemma SameLine(text: string, p: nat, q: nat)
    requires p < |text| && p < q < NextLine(text, p) && SeenAt(text, p)
    ensures !FirstOfLine(text, q)
  {
    hide SeenAt;
    BeforeFirstNewline(text[p..]);
    assert text[p..q] == text[p..][..q - p];
    var n := FirstNewline(text[p..]);
    assert q - p <= n;
    assert text[p..][..q - p] == text[p..][..n][..q - p];
  }

  lemma StoreIs(blocks: Blocks, body: string)
    ensures blocks.search.None? && blocks.replace.None? ==> Store(blocks, body) == Blocks(Some(body), None)
    ensures blocks.search.Some? && blocks.replace.None? ==> Store(blocks, body) == Blocks(blocks.search, Some(body))
  {
  }

  // ----- Markers in one line and the lines after it -----

  lemma {:induction false} OpensOfPrefix(x: string, more: string, p: nat)
    requires p <= |x|
    ensures Opens(x + more, p) == Opens(x, p)
  {
    if p > 0 {
      OpensOfPrefix(x, more, p - 1);
    }
  }

  /** A text's markers do not depend on the lines after it. */
  lemma SeenInLine(x: string, rest: string, p: nat)
    requires p <= |x|
    ensures SeenAt(x + "\n" + rest, p) <==> SeenAt(x, p)
    ensures (x + "\n" + rest)[p..] == x[p..] + "\n" + rest
    ensures SEARCH <= x[p..] + "\n" + rest <==> SEARCH <= x[p..]
    ensures REPLACE <= x[p..] + "\n" + rest <==> REPLACE <= x[p..]
  {
    MarkersHaveNoNewline();
    PrefixOfLine(x[p..], SEARCH, rest);
    PrefixOfLine(x[p..], REPLACE, rest);
    OpensOfPrefix(x, "\n" + rest, p);
    assert x + "\n" + rest == x + ("\n" + rest);
  }

  lemma MarkersHaveNoNewline()
    ensures Marker(SEARCH) && Marker(REPLACE) && Marker(END) && Marker(OPEN)
  {
  }

  lemma NewlineBetween(x: string, rest: string)
    ensures var s := x + "\n" + rest;
            |s| == |x| + 1 + |rest| && s[|x|] == '\n' && s[|x| + 1..] == rest
  {
  }

  /** The next marker is in the text, where there is one. */
  lemma SeenInFirstLines(x: string, rest: string)
    requires NextSeen(x, 0).Some?
    ensures NextSeen(x + "\n" + rest, 0) == NextSeen(x, 0)
  {
    hide *;
    var s, q := x + "\n" + rest, NextSeen(x, 0).value;
    NewlineBetween(x, rest);
    forall p: nat | p <= q
      ensures SeenAt(s, p) <==> SeenAt(x, p)
    {
      SeenInLine(x, rest, p);
    }
    NextSeenIs(s, 0, q);
  }

  /** A line starts at `n`, `rest` is the text from there, and no marker is seen before. */
  predicate NoneBefore(s: string, n: nat, rest: string) {
    0 < n <= |s| && s[n - 1] == '\n' && s[n..] == rest && NextSeen(s, 0) == NextSeen(s, n)
  }

  /** Otherwise it is the next in the lines after. */
  lemma SeenFromLine(s: string, n: nat, rest: string)
    requires NoneBefore(s, n, rest)
    ensures var q := NextSeen(rest, 0);
            && NextSeen(s, 0) == (if q.Some? then Some(n + q.value) else None)
            && (q.Some? ==> BodyAt(s, n + q.value) == BodyAt(rest, q.value))
  {
    hide SeenAt, NextSeen, BodyAt, Opens;
    NotAfterNewline(s, n - 1);
    NextSeenShift(s, n);
  }

  lemma NoneInFirstLines(x: string, rest: string, s: string)
    requires NextSeen(x, 0).None? && s == x + "\n" + rest
    ensures NoneBefore(s, |x| + 1, rest)
  {
    hide SeenAt, NextSeen;
    NewlineBetween(x, rest);
    forall p: nat | p < |x| + 1
      ensures !SeenAt(s, p)
    {
      SeenInLine(x, rest, p);
    }
    SkipUnseen(s, |x| + 1);
  }

  lemma NotAfterNewline(s: string, n: nat)
    requires n < |s| && s[n] == '\n'
    ensures Opens(s, n + 1) == 0
  {
  }

  /** Text in which no marker is seen is passed over, hidden markers and other `<<<` included. */
  lemma TextIsPassed(u: string, rest: string, blocks: Blocks)
    requires NextSeen(u, 0).None?
    ensures Gather(u + "\n" + rest, blocks) == Gather(rest, blocks)
  {
    hide Gather, SeenAt, NextSeen, BodyAt, AfterBlock, Store;
    var s := u + "\n" + rest;
    NoneInFirstLines(u, rest, s);
    SeenFromLine(s, |u| + 1, rest);
    NewlineBetween(u, rest);
    GatherFirst(s, blocks);
    GatherFirst(rest, blocks);
    var p := NextSeen(rest, 0);
    if p.Some? {
      assert s[|u| + 1 + p.value..] == s[|u| + 1..][p.value..];
    }
  }

  // ----- Round trip -----

  /** An edit in the form the format documents. */
  function Printed(search: string, replace: string): string {
    SEARCH + ("\n" + (search + "\n" + Replacement(replace)))
  }

  /** The form of a printed edit, as models are told to write it. */
  lemma PrintedForm(search: string, replace: string)
    ensures Printed(search, replace) == "<<<SEARCH\n" + search + "\n<<<REPLACE\n" + replace + "\n<<<END\n"
  {
    assert SEARCH + "\n" == "<<<SEARCH\n" && "\n" + (REPLACE + "\n") == "\n<<<REPLACE\n" && "\n" + (END + "\n") == "\n<<<END\n";
  }

  function Replacement(replace: string): string {
    REPLACE + ("\n" + (replace + "\n" + (END + "\n")))
  }

  lemma PrintedIs(search: string, replace: string)
    ensures Printed(search, replace) == SEARCH + ("\n" + (search + "\n" + Replacement(replace)))
    ensures Replacement(replace) == REPLACE + ("\n" + (replace + "\n" + (END + "\n")))
  {
  }

  /** The replace marker of a printed edit is seen, with the replacement as its body. */
  lemma ReplacementIsSeen(replace: string)
    ensures var r := Replacement(replace);
            && NextSeen(r, 0) == Some(0)
            && BodyAt(r, 0) == Trim(UpTo("\n" + (replace + "\n" + (END + "\n")), END))
  {
    hide Trim, UpTo;
    var r := Replacement(replace);
    assert r[0..] == r && REPLACE <= r && r[|REPLACE|..] == "\n" + (replace + "\n" + (END + "\n"));
    assert !(SEARCH <= r) by {
      assert r[3] == REPLACE[3];
    }
  }

  /** A search marker seen in a text without replace marker makes the rest of the text the body. */
  lemma SearchMarkerInText(search: string, more: string, j: nat)
    requires Find(search, REPLACE).None? && SeenAt(search, j)
    ensures j + |SEARCH| <= |search| && SeenAt(search + "\n" + (REPLACE + more), j)
    ensures BodyAt(search + "\n" + (REPLACE + more), j) == Trim(search[j + |SEARCH|..])
  {
    hide Opens, Find, Trim, FindFrom, OccursAt;
    var s := search + "\n" + (REPLACE + more);
    SeenInLine(search, REPLACE + more, j);
    NoneInSuffix(search, REPLACE, j);
    assert SEARCH <= search[j..];
    var x := search[j + |SEARCH|..];
    assert search[j..][|SEARCH|..] == x;
    assert s[j..][|SEARCH|..] == x + "\n" + (REPLACE + more);
    NoneInSuffix(search, REPLACE, j + |SEARCH|);
    MarkersHaveNoNewline();
    FindInLine(x, REPLACE, more);
    assert (x + "\n" + (REPLACE + more))[..|x| + 1] == x + "\n";
    TrimBeforeNewline(x);
  }

  /** What the parser gathers from a printed edit, for all texts: the second body is the replacement,
      or what stands behind a search marker seen in the search text. */
  lemma PrintedIsGathered(search: string, replace: string) returns (second: string)
    ensures Gather(Printed(search, replace), Blocks(None, None)) ==
            Blocks(Some(Trim(UpTo("\n" + (search + "\n" + Replacement(replace)), REPLACE))), Some(second))
    ensures NextSeen(search, 0).None? ==> second == Trim(UpTo("\n" + (replace + "\n" + (END + "\n")), END))
    ensures NextSeen(search, 0).Some? && Find(search, REPLACE).None? ==>
              NextSeen(search, 0).value + |SEARCH| <= |search| && second == Trim(search[NextSeen(search, 0).value + |SEARCH|..])
  {
    hide *;
    var text := search + "\n" + Replacement(replace);
    var one := Trim(UpTo("\n" + text, REPLACE));
    PrintedIs(search, replace);
    BlockStep(SEARCH, REPLACE, text, Blocks(None, None));
    StoreIs(Blocks(None, None), one);
    GatherFirst(text, Blocks(Some(one), None));
    if NextSeen(search, 0).Some? {
      SeenInFirstLines(search, Replacement(replace));
    } else {
      NoneInFirstLines(search, Replacement(replace), text);
      SeenFromLine(text, |search| + 1, Replacement(replace));
    }
    ReplacementIsSeen(replace);
    var q := NextSeen(text, 0).value;
    second := BodyAt(text, q);
    StoreIs(Blocks(Some(one), None), second);
    AfterLine(text, q, Blocks(Some(one), Some(second)));
    GatheredStays(text[NextLine(text, q)..], Blocks(Some(one), Some(second)));
    if NextSeen(search, 0).Some? && Find(search, REPLACE).None? {
      SearchMarkerInText(search, "\n" + (replace + "\n" + (END + "\n")), q);
    }
  }

  /** Which edits come back. The search text holds no replace marker and no newline at an end. Where
      no search marker is seen in it, the same goes for the replacement and the end marker; where one
      is seen, the replacement is what stands behind it. */
  predicate ComesBack(search: string, replace: string) {
    && Find(search, REPLACE).None? && TrimmedText(search)
    && match NextSeen(search, 0)
       case None => Find(replace, END).None? && TrimmedText(replace)
       case Some(j) => j + |SEARCH| <= |search| && Trim(search[j + |SEARCH|..]) == replace
  }

  /** A printed edit parses to the same edit exactly when it comes back, for all search texts and
      replacements; hidden markers and other `<<<` are no obstacle. */
  lemma RoundTripExactness(search: string, replace: string)
    ensures Parsed(Printed(search, replace)) == Ok(SearchReplace(Edit(search, replace, None))) <==> ComesBack(search, replace)
  {
    hide Find, Gather, Trim, UpTo, Printed, TrimmedText, Marker, SeenAt, NextSeen;
    MarkersHaveNoNewline();
    var second := PrintedIsGathered(search, replace);
    PrintedIs(search, replace);
    BodyRoundTrip(search, REPLACE, "\n" + (replace + "\n" + (END + "\n")));
    BodyRoundTrip(replace, END, "\n");
  }

  /** The condition is not that both texts are free of markers: this edit parses, with b as its
      replacement instead of c. */
  lemma SeenMarkerExample()
    ensures var search := "a\n<<<SEARCH\nb";
            && Find(search, REPLACE).None? && TrimmedText(search)
            && !ComesBack(search, "c") && ComesBack(search, "b")
  {
    hide SeenAt, FindFrom, Trim, OccursAt;
    var search := "a\n<<<SEARCH\nb";
    SearchMarkerIsSeen();
    NextSeenIs(search, 0, 2);
    assert search[2 + |SEARCH|..] == "\n" + "b";
    TrimAfterNewline("b");
    TrimIsIdentity("b");
    NoReplaceMarker(search);
  }

  lemma SearchMarkerIsSeen()
    ensures var search := "a\n<<<SEARCH\nb";
            SeenAt(search, 2) && !SeenAt(search, 0) && !SeenAt(search, 1)
  {
    var search := "a\n<<<SEARCH\nb";
    assert search[2..] == "<<<SEARCH\nb" && SEARCH <= search[2..];
    assert search[0..][0] == 'a' && search[1..][0] == '\n';
  }

  /** A marker behind one more `<` is hidden: no search block is found in this text. */
  lemma HiddenMarkerExample()
    ensures Parsed("<<<<SEARCH") == Err(NoSearchBlock)
  {
    hide Gather, FindFrom, OccursAt;
    var text := "<<<<SEARCH";
    forall p: nat
      ensures !SeenAt(text, p)
    {
      if 0 < p < |text| {
        assert Opens(text, 1) == 1 && text[p..][0] == text[p];
      } else if p == 0 {
        assert text[0..][3] == '<';
      }
    }
    NoneSeen(text, 0);
    GatherFirst(text, Blocks(None, None));
  }

  lemma NoReplaceMarker(s: string)
    requires forall i :: 0 <= i < |s| ==> s[i] != 'P'
    ensures Find(s, REPLACE).None?
  {
    hide FindFrom;
    forall i: nat
      ensures !OccursAt(s, REPLACE, i)
    {
      if i + |REPLACE| <= |s| {
        assert s[i..i + |REPLACE|][5] == s[i + 5] && REPLACE[5] == 'P';
      }
    }
  }

  /** The parser does not ask for a replace marker: a second search block is taken as the
      replacement, and is part of the search text as well. */
  lemma SecondSearchBlock(search: string, replace: string)
    requires NextSeen(search, 0).None?
    ensures var again := SEARCH + ("\n" + replace);
            Parsed(SEARCH + ("\n" + (search + "\n" + again))) ==
            Ok(SearchReplace(Edit(Trim(UpTo("\n" + (search + "\n" + again), REPLACE)), Trim(UpTo("\n" + replace, REPLACE)), None)))
  {
    hide *;
    var again := SEARCH + ("\n" + replace);
    var text := search + "\n" + again;
    var body := Trim(UpTo("\n" + text, REPLACE));
    BlockStep(SEARCH, REPLACE, text, Blocks(None, None));
    StoreIs(Blocks(None, None), body);
    TextIsPassed(search, again, Blocks(Some(body), None));
    BlockStep(SEARCH, REPLACE, replace, Blocks(Some(body), None));
    var second := Trim(UpTo("\n" + replace, REPLACE));
    StoreIs(Blocks(Some(body), None), second);
    GatheredStays(replace, Blocks(Some(body), Some(second)));
    GatheredIsParsed(SEARCH + ("\n" + text));
  }

  lemma GatheredIsParsed(text: string)
    ensures var b := Gather(text, Blocks(None, None));
            b.search.Some? && b.replace.Some? ==>
              Parsed(text) == Ok(SearchReplace(Edit(b.search.value, b.replace.value, None)))
  {
    hide Gather;
  }
}
