/** Which window the search returns, and which bytes its range covers. */
module FuzzyLaws {
  import opened Fuzzy
  import opened Texts
  import opened Wrappers

  // ----- The best window -----

  /** What is known about the leader `l` of the windows: it reaches the threshold, no window leads it
      by more than the margin, and earlier ones score less. */
  predicate Leads(scores: seq<real>, threshold: real, l: nat) {
    && l < |scores| && scores[l] >= threshold
    && (forall i :: 0 <= i < |scores| ==> scores[i] <= scores[l] + AMBIGUITY_MARGIN)
    && (forall i :: 0 <= i < l ==> scores[i] < scores[l])
  }

  /** A later window that counts as a tie with the leader. */
  predicate Ties(scores: seq<real>, threshold: real, l: nat, i: nat) {
    l < i < |scores| && scores[i] >= threshold && Abs(scores[i] - scores[l]) <= AMBIGUITY_MARGIN
  }

  /** Nothing leads exactly when no window reaches the threshold; ties are counted exactly when a
      later window is within the margin. */
  lemma {:induction false} LeaderFacts(scores: seq<real>, threshold: real)
    ensures var b := Scan(scores, threshold);
            && (b.leader.None? <==> forall i :: 0 <= i < |scores| ==> scores[i] < threshold)
            && (b.leader.None? ==> b.tied == 0)
            && (b.leader.Some? ==> Leads(scores, threshold, b.leader.value))
            && (b.leader.Some? ==> (b.tied == 0 <==> forall i: nat :: !Ties(scores, threshold, b.leader.value, i)))
  {
    if scores != [] {
      var n := |scores| - 1;
      LeaderFacts(scores[..n], threshold);
      var before, b := Scan(scores[..n], threshold), Scan(scores, threshold);
      if before.leader.Some? {
        var l := before.leader.value;
        assert forall i: nat :: i < n ==> (Ties(scores, threshold, l, i) <==> Ties(scores[..n], threshold, l, i));
        assert Ties(scores, threshold, l, n) <==>
               scores[n] >= threshold && Abs(scores[n] - scores[l]) <= AMBIGUITY_MARGIN;
      }
    }
  }

  /** An unambiguous leader scores strictly above every other window; a rival within the margin can
      only come before it. */
  lemma FoundIsStrictMaximum(scores: seq<real>, threshold: real)
    requires Scan(scores, threshold).leader.Some? && Scan(scores, threshold).tied == 0
    ensures var l := Scan(scores, threshold).leader.value;
            && scores[l] >= threshold
            && (forall i :: 0 <= i < |scores| && i != l ==> scores[i] < scores[l])
            && (forall i :: l < i < |scores| && scores[i] >= threshold ==> scores[i] < scores[l] - AMBIGUITY_MARGIN)
  {
    LeaderFacts(scores, threshold);
    var l := Scan(scores, threshold).leader.value;
    assert forall i: nat :: l < i < |scores| ==> !Ties(scores, threshold, l, i);
  }

  /** The windows that count as ties with the leader. */
  function TiedWindows(scores: seq<real>, threshold: real, l: nat): set<nat> {
    set i: nat | i < |scores| && Ties(scores, threshold, l, i)
  }

  /** The ties counted are all the later windows within the margin of the leader. */
  lemma {:induction false} TiesAreCounted(scores: seq<real>, threshold: real)
    ensures var b := Scan(scores, threshold);
            b.leader.Some? ==> b.tied == |TiedWindows(scores, threshold, b.leader.value)|
  {
    if scores != [] {
      var n := |scores| - 1;
      TiesAreCounted(scores[..n], threshold);
      var b := Scan(scores, threshold);
      if b.leader == Some(n) {
        assert TiedWindows(scores, threshold, n) == {};
      } else if b.leader.Some? {
        var l := b.leader.value;
        TiedOneMore(scores, threshold, l);
      }
    }
  }

  lemma TiedOneMore(scores: seq<real>, threshold: real, l: nat)
    requires scores != [] && l < |scores| - 1
    ensures var n := |scores| - 1;
            |TiedWindows(scores, threshold, l)| == |TiedWindows(scores[..n], threshold, l)| + if Ties(scores, threshold, l, n) then 1 else 0
  {
    var n := |scores| - 1;
    var before, more := TiedWindows(scores[..n], threshold, l), TiedWindows(scores, threshold, l);
    assert more == before + if Ties(scores, threshold, l, n) then {n} else {};
    assert n !in before;
  }

  /** Ambiguous means that the leader has a later rival within the margin, and the ties are all of them. */
  lemma AmbiguousHasRival(scores: seq<real>, threshold: real) returns (i: nat)
    requires Scan(scores, threshold).leader.Some? && Scan(scores, threshold).tied > 0
    ensures Ties(scores, threshold, Scan(scores, threshold).leader.value, i)
    ensures Scan(scores, threshold).tied == |TiedWindows(scores, threshold, Scan(scores, threshold).leader.value)|
  {
    LeaderFacts(scores, threshold);
    TiesAreCounted(scores, threshold);
    i :| Ties(scores, threshold, Scan(scores, threshold).leader.value, i);
  }

  /** Window `w` reaches the threshold and leads every other that does by more than the margin. */
  predicate ClearWinner(scores: seq<real>, threshold: real, w: nat) {
    && w < |scores| && scores[w] >= threshold
    && forall i :: 0 <= i < |scores| && i != w && scores[i] >= threshold ==> scores[i] + AMBIGUITY_MARGIN < scores[w]
  }

  /** Another window reaches the threshold within the margin of window `w`. */
  predicate HasRival(scores: seq<real>, threshold: real, w: nat)
    requires w < |scores|
  {
    exists i :: 0 <= i < |scores| && i != w && scores[i] >= threshold && Abs(scores[i] - scores[w]) <= AMBIGUITY_MARGIN
  }

  /** A clear winner is found, whatever windows below the threshold score. */
  lemma {:induction false} ClearWinnerIsFound(scores: seq<real>, threshold: real, w: nat)
    requires ClearWinner(scores, threshold, w)
    ensures Scan(scores, threshold) == Best(Some(w), 0)
  {
    var n := |scores| - 1;
    LeaderFacts(scores[..n], threshold);
    if w < n {
      ClearWinnerIsFound(scores[..n], threshold, w);
    }
  }

  /** When the documented guarantee holds: a window is found and has no rival exactly when it is the
      clear winner. */
  lemma FoundWithoutRival(scores: seq<real>, threshold: real, w: nat)
    requires w < |scores|
    ensures Scan(scores, threshold) == Best(Some(w), 0) && !HasRival(scores, threshold, w)
            <==> ClearWinner(scores, threshold, w)
  {
    if ClearWinner(scores, threshold, w) {
      ClearWinnerIsFound(scores, threshold, w);
    } else if Scan(scores, threshold) == Best(Some(w), 0) {
      FoundIsStrictMaximum(scores, threshold);
    }
  }

  /** A found window can have a rival within the margin: 0.82 is within 0.02 of 0.83, but it was
      measured against the earlier leader 0.80. */
  lemma FoundMayHaveRival()
    ensures var scores := [0.80, 0.82, 0.83];
            && Scan(scores, DEFAULT_THRESHOLD) == Best(Some(2), 0)
            && HasRival(scores, DEFAULT_THRESHOLD, 2)
  {
    var scores := [0.80, 0.82, 0.83];
    assert scores[..2] == [0.80, 0.82] && scores[..2][..1] == [0.80] && [0.80][..0] == [];
    assert Scan([0.80], DEFAULT_THRESHOLD) == Best(Some(0), 0);
    assert Scan([0.80, 0.82], DEFAULT_THRESHOLD) == Best(Some(0), 1);
    assert Abs(scores[1] - scores[2]) <= AMBIGUITY_MARGIN;
  }

  // ----- Byte ranges -----

  /** Where line `k` starts when every line before it takes its length and one newline. */
  function Offset(pieces: seq<string>, k: nat): nat
    requires k <= |pieces|
  {
    if k == 0 then 0 else Offset(pieces, k - 1) + |pieces[k - 1]| + 1
  }

  /** Lines with a newline after each. */
  function Terminated(pieces: seq<string>): string {
    if pieces == [] then [] else pieces[0] + "\n" + Terminated(pieces[1..])
  }

  lemma {:induction false} TerminatedLength(pieces: seq<string>)
    ensures |Terminated(pieces)| == Offset(pieces, |pieces|)
  {
    if pieces != [] {
      TerminatedLength(pieces[1..]);
      OffsetOfTail(pieces, |pieces| - 1);
      assert |Terminated(pieces)| == |pieces[0]| + 1 + |Terminated(pieces[1..])|;
    }
  }

  lemma {:induction false} OffsetOfTail(pieces: seq<string>, k: nat)
    requires pieces != [] && k <= |pieces[1..]|
    ensures Offset(pieces, k + 1) == |pieces[0]| + 1 + Offset(pieces[1..], k)
  {
    if k > 0 {
      OffsetOfTail(pieces, k - 1);
    }
  }

  lemma {:induction false} OffsetOfPrefix(pieces: seq<string>, k: nat, m: nat)
    requires k <= m <= |pieces|
    ensures Offset(pieces[..m], k) == Offset(pieces, k)
  {
    if k > 0 {
      OffsetOfPrefix(pieces, k - 1, m);
    }
  }

  /** A text cut at a line boundary: the lines before with their newlines, then the others. */
  lemma {:induction false} JoinFromLine(pieces: seq<string>, k: nat)
    requires k < |pieces|
    ensures Join(pieces) == Terminated(pieces[..k]) + Join(pieces[k..])
    decreases k
  {
    if k == 0 {
      assert pieces[0..] == pieces;
    } else {
      JoinFromLine(pieces[1..], k - 1);
      JoinFirst(pieces[0], pieces[1..]);
      assert pieces == [pieces[0]] + pieces[1..];
      assert pieces[1..][k - 1..] == pieces[k..];
      assert pieces[..k][1..] == pieces[1..][..k - 1];
    }
  }

  lemma StartsAfterLast(s: string)
    requires s != []
    ensures Starts(s) == Starts(s[..|s| - 1]) + if s[|s| - 1] == '\n' then [|s|] else []
  {
  }

  function Shifted(starts: seq<nat>, distance: nat): (r: seq<nat>)
    ensures |r| == |starts|
  {
    seq(|starts|, i requires 0 <= i < |starts| => distance + starts[i])
  }

  lemma ShiftedThen(a: seq<nat>, b: seq<nat>, distance: nat)
    ensures Shifted(a + b, distance) == Shifted(a, distance) + Shifted(b, distance)
  {
  }

  /** Line starts of two texts with a newline between them. */
  lemma {:induction false} StartsThen(a: string, b: string)
    ensures Starts(a + "\n" + b) == Starts(a) + Shifted(Starts(b), |a| + 1)
    decreases |b|
  {
    hide Starts, Shifted;
    var s := a + "\n" + b;
    StartsAfterLast(s);
    if b == [] {
      assert s[..|s| - 1] == a && s[|s| - 1] == '\n';
      EmptyShifted(|a| + 1);
    } else {
      var c := b[..|b| - 1];
      assert s[..|s| - 1] == a + "\n" + c && s[|s| - 1] == b[|b| - 1];
      StartsThen(a, c);
      StartsAfterLast(b);
      if b[|b| - 1] == '\n' {
        ShiftedThen(Starts(c), [|b|], |a| + 1);
        OneShifted(|b|, |a| + 1);
        assert Starts(a) + Shifted(Starts(c), |a| + 1) + [|s|] == Starts(a) + (Shifted(Starts(c), |a| + 1) + [|s|]);
      } else {
        assert Starts(b) == Starts(c);
        assert Starts(s) == Starts(a + "\n" + c);
      }
    }
  }

  lemma EmptyShifted(distance: nat)
    ensures Shifted(Starts([]), distance) == [distance]
  {
  }

  lemma OneShifted(start: nat, distance: nat)
    ensures Shifted([start], distance) == [distance + start]
  {
  }

  lemma {:induction false} OneLineStarts(line: string)
    requires NoNewline(line)
    ensures Starts(line) == [0]
  {
    if line != [] {
      OneLineStarts(line[..|line| - 1]);
    }
  }

  lemma {:induction false} StartsAreOffsets(pieces: seq<string>)
    requires pieces != [] && forall i :: 0 <= i < |pieces| ==> NoNewline(pieces[i])
    ensures |Starts(Join(pieces))| == |pieces|
    ensures forall i :: 0 <= i < |pieces| ==> Starts(Join(pieces))[i] == Offset(pieces, i)
    decreases |pieces|
  {
    OneLineStarts(pieces[0]);
    if |pieces| > 1 {
      var rest := pieces[1..];
      StartsAreOffsets(rest);
      StartsThen(pieces[0], Join(rest));
      assert Starts(Join(pieces)) == Starts(pieces[0]) + Shifted(Starts(Join(rest)), |pieces[0]| + 1) by {
        JoinFirst(pieces[0], rest);
        assert pieces == [pieces[0]] + rest;
      }
      hide Starts, Join, NoNewline, Offset;
      forall i | 0 <= i < |pieces|
        ensures Starts(Join(pieces))[i] == Offset(pieces, i)
      {
        if i > 0 {
          OffsetOfTail(pieces, i - 1);
        } else {
          OffsetZero(pieces);
        }
      }
    }
  }

  lemma OffsetZero(pieces: seq<string>)
    ensures Offset(pieces, 0) == 0
  {
  }

  // ----- What a byte range covers -----

  /** The text from the end of line `b - 1` on. */
  function After(pieces: seq<string>, b: nat): string
    requires b <= |pieces|
  {
    if b == |pieces| then [] else "\n" + Join(pieces[b..])
  }

  /** A text in three parts: lines before a window, the window, lines after it. */
  lemma ThreeParts(pieces: seq<string>, a: nat, b: nat)
    requires a < b <= |pieces|
    ensures Join(pieces) == Terminated(pieces[..a]) + Join(pieces[a..b]) + After(pieces, b)
  {
    hide *;
    JoinFromLine(pieces, a);
    AfterIs(pieces, b);
    SliceTail(pieces, a, b);
    if b == |pieces| {
      NothingAfter(Terminated(pieces[..a]) + Join(pieces[a..]));
    } else {
      JoinThen(pieces[a..b], pieces[b..]);
      Associative(Terminated(pieces[..a]), Join(pieces[a..b]), "\n", Join(pieces[b..]));
    }
  }

  lemma SliceTail(pieces: seq<string>, a: nat, b: nat)
    requires a < b <= |pieces|
    ensures pieces[a..] == pieces[a..b] + pieces[b..] && pieces[a..b] != []
    ensures b == |pieces| ==> pieces[a..b] == pieces[a..]
  {
  }

  lemma AfterIs(pieces: seq<string>, b: nat)
    requires b <= |pieces|
    ensures After(pieces, b) == if b == |pieces| then [] else "\n" + Join(pieces[b..])
  {
    hide Join;
  }

  lemma NothingAfter(x: string)
    ensures x + [] == x
  {
  }

  lemma Associative(x: string, y: string, n: string, z: string)
    ensures x + (y + n + z) == x + y + (n + z)
  {
  }

  lemma PrefixLength(pieces: seq<string>, k: nat)
    requires k <= |pieces|
    ensures |Terminated(pieces[..k])| == Offset(pieces, k)
  {
    hide *;
    TerminatedLength(pieces[..k]);
    OffsetOfPrefix(pieces, k, k);
    assert |pieces[..k]| == k;
  }

  /** A line starts one past the end of the line before. */
  lemma NextLineStart(pieces: seq<string>, a: nat, b: nat)
    requires a < b < |pieces|
    ensures Offset(pieces, b) == Offset(pieces, a) + |Join(pieces[a..b])| + 1
  {
    hide Join, Terminated, Offset;
    ThreeParts(pieces, a, b);
    JoinFromLine(pieces, b);
    PrefixLength(pieces, a);
    PrefixLength(pieces, b);
  }

  lemma {:induction false} LastOfJoin(parts: seq<string>)
    requires parts != [] && parts[|parts| - 1] != []
    ensures Join(parts) != []
    ensures var last := parts[|parts| - 1]; Join(parts)[|Join(parts)| - 1] == last[|last| - 1]
  {
    if |parts| > 1 {
      LastOfJoin(parts[1..]);
    }
  }

  /** Window `[a, b)` of the lines of `src` and the part of `src` its byte range covers. */
  predicate Covers(src: string, a: nat, b: nat, r: Range)
    requires a < b <= |RawLines(src)|
  {
    && r.start <= r.end <= |src|
    && src[..r.start] == Terminated(Split(src)[..a])
    && src[r.start..r.end] == Join(RawLines(src)[a..b])
    && src[r.end..] == After(Split(src), b)
  }

  lemma CutInThree(src: string, x: string, y: string, z: string)
    requires src == x + y + z
    ensures src[..|x|] == x && src[|x|..|x| + |y|] == y && src[|x| + |y|..] == z
  {
  }

  /** The starts of the lines of a text are the offsets of its pieces. */
  lemma StartsOfSplit(src: string)
    ensures |Starts(src)| == |Split(src)|
    ensures forall i :: 0 <= i < |Split(src)| ==> Starts(src)[i] == Offset(Split(src), i)
  {
    hide *;
    SplitGivesLines(src);
    SplitThenJoin(src);
    StartsAreOffsets(Split(src));
  }

  lemma RawIsSplit(src: string, a: nat, b: nat)
    requires a < b <= |RawLines(src)|
    ensures b <= |Split(src)| && RawLines(src)[a..b] == Split(src)[a..b]
    ensures b == |Split(src)| ==> Split(src)[b - 1] != []
  {
    hide Split;
  }

  /** The end of the range: before the newline of the last line, or the end of the text. */
  lemma RangeEnds(src: string, a: nat, b: nat)
    requires a < b <= |RawLines(src)|
    ensures b <= |Split(src)|
    ensures ByteRange(src, a, b) ==
            Range(Offset(Split(src), a), Offset(Split(src), a) + |Join(Split(src)[a..b])|)
  {
    hide Split, Starts, Join, Offset, Terminated, RawLines, NoNewline;
    RawIsSplit(src, a, b);
    StartsOfSplit(src);
    SplitThenJoin(src);
    SplitGivesLines(src);
    var pieces := Split(src);
    ThreeParts(pieces, a, b);
    PrefixLength(pieces, a);
    if b < |pieces| {
      NextLineStart(pieces, a, b);
      var end := Offset(pieces, b);
      assert src[end - 1] == After(pieces, b)[0];
    } else {
      LastOfJoin(pieces);
      LastIsNoNewline(pieces[b - 1]);
    }
  }

  lemma LastIsNoNewline(line: string)
    requires NoNewline(line) && line != []
    ensures line[|line| - 1] != '\n'
  {
  }

  /** The range of a window of lines covers exactly those lines without the newline after them:
      nothing of the text before or after. */
  lemma RangeCoversWindow(src: string, a: nat, b: nat)
    requires a < b <= |RawLines(src)|
    ensures Covers(src, a, b, ByteRange(src, a, b))
  {
    hide Split, Starts, Join, Offset, Terminated, RawLines, ByteRange, After;
    RangeEnds(src, a, b);
    RawIsSplit(src, a, b);
    var pieces := Split(src);
    SplitThenJoin(src);
    ThreeParts(pieces, a, b);
    PrefixLength(pieces, a);
    CutInThree(src, Terminated(pieces[..a]), Join(pieces[a..b]), After(pieces, b));
  }

  /** Whether line `i` ends in a carriage return that `Lines` drops. */
  predicate LosesCr(src: string, i: nat)
    requires i < |RawLines(src)|
  {
    var raw := RawLines(src)[i];
    i < |Split(src)| - 1 && raw != [] && raw[|raw| - 1] == '\r'
  }

  lemma JoinIsInjective(a: seq<string>, b: seq<string>)
    requires a != [] && b != []
    requires forall i :: 0 <= i < |a| ==> NoNewline(a[i])
    requires forall i :: 0 <= i < |b| ==> NoNewline(b[i])
    ensures Join(a) == Join(b) <==> a == b
  {
    hide *;
    JoinThenSplit(a);
    JoinThenSplit(b);
  }

  lemma RawAndLines(src: string, i: nat)
    requires i < |RawLines(src)|
    ensures NoNewline(RawLines(src)[i]) && NoNewline(Lines(src)[i])
    ensures Lines(src)[i] == RawLines(src)[i] <==> !LosesCr(src, i)
  {
    hide Split;
    SplitGivesLines(src);
  }

  lemma CoveredParts(src: string, a: nat, b: nat, r: Range)
    requires a < b <= |RawLines(src)| && Covers(src, a, b, r)
    ensures b <= |Split(src)| && r.start <= r.end <= |src|
    ensures src[..r.start] == Terminated(Split(src)[..a])
    ensures src[r.start..r.end] == Join(RawLines(src)[a..b])
    ensures src[r.end..] == After(Split(src), b)
  {
    hide Split, Join, Terminated, After;
  }

  /** The text at a window's range is the window that was scored exactly when none of its lines
      ends in CR LF; without carriage returns that is always. */
  lemma SliceIsWindow(src: string, a: nat, n: nat)
    requires 0 < n && a + n <= |Lines(src)|
    ensures Covers(src, a, a + n, ByteRange(src, a, a + n))
    ensures var r := ByteRange(src, a, a + n);
            src[r.start..r.end] == Window(Lines(src), a, n) <==> forall i: nat :: a <= i < a + n ==> !LosesCr(src, i)
  {
    hide Split, Join, RawLines, Lines, ByteRange, NoNewline, LosesCr, Covers, Terminated, After;
    RangeCoversWindow(src, a, a + n);
    CoveredParts(src, a, a + n, ByteRange(src, a, a + n));
    var raw, lines := RawLines(src)[a..a + n], Lines(src)[a..a + n];
    assert raw == lines <==> forall i: nat :: a <= i < a + n ==> !LosesCr(src, i) by {
      SameWhereNoCr(src, a, n);
    }
    forall k | 0 <= k < n
      ensures NoNewline(raw[k]) && NoNewline(lines[k])
    {
      RawAndLines(src, a + k);
    }
    JoinIsInjective(raw, lines);
  }

  lemma SameWhereNoCr(src: string, a: nat, n: nat)
    requires a + n <= |Lines(src)|
    ensures RawLines(src)[a..a + n] == Lines(src)[a..a + n] <==> forall i: nat :: a <= i < a + n ==> !LosesCr(src, i)
  {
    hide Split, RawLines, Lines, LosesCr, NoNewline;
    var raw, lines := RawLines(src), Lines(src);
    forall i: nat | a <= i < a + n
      ensures lines[i] == raw[i] <==> !LosesCr(src, i)
    {
      RawAndLines(src, i);
    }
    if raw[a..a + n] == lines[a..a + n] {
      forall i: nat | a <= i < a + n
        ensures raw[i] == lines[i]
      {
        assert raw[i] == raw[a..a + n][i - a] && lines[i] == lines[a..a + n][i - a];
      }
    }
  }

  // ----- Lines -----

  lemma {:induction false} LastPiece(src: string)
    ensures Split(src)[|Split(src)| - 1] == [] <==> src == [] || src[|src| - 1] == '\n'
    decreases |src|
  {
    var n := FirstNewline(src);
    if n == |src| {
      BeforeFirstNewline(src);
      assert src[..n] == src;
    } else {
      LastPiece(src[n + 1..]);
    }
  }

  /** The lines of a text are its pieces between newlines; a final newline starts no further line, and a
      carriage return in front of a newline belongs to it. */
  lemma LinesOfText(src: string)
    ensures |Lines(src)| == |Split(src)| - if src == [] || src[|src| - 1] == '\n' then 1 else 0
    ensures forall i :: 0 <= i < |Lines(src)| ==>
              Split(src)[i] == Lines(src)[i] || (i + 1 < |Split(src)| && Split(src)[i] == Lines(src)[i] + "\r")
    ensures forall i :: 0 <= i < |Lines(src)| && i + 1 < |Split(src)| && Lines(src)[i] == Split(src)[i] && Lines(src)[i] != [] ==>
              Lines(src)[i][|Lines(src)[i]| - 1] != '\r'
  {
    hide Split;
    LastPiece(src);
  }

  // ----- The search as a whole -----

  /** Windows are searched: there is something to find and it does not occur exactly. */
  predicate SearchesWindows(haystack: string, needle: string) {
    && needle != [] && Find(haystack, needle).None?
    && 0 < |Lines(needle)| <= |Lines(haystack)|
  }

  function WindowScores(haystack: string, needle: string, score: Similarity): seq<real>
    requires SearchesWindows(haystack, needle)
  {
    Scores(Lines(haystack), Join(Lines(needle)), |Lines(needle)|, score)
  }

  /** The text of the `n` lines from line `w` on. */
  function LinesAt(src: string, w: nat, n: nat): string
    requires 0 < n && w + n <= |Lines(src)|
  {
    Join(Lines(src)[w..w + n])
  }

  /** One score for each window, and score `w` is that of the lines from `w` on against those searched. */
  predicate ScoresLines(haystack: string, needle: string, score: Similarity, scores: seq<real>)
    requires SearchesWindows(haystack, needle)
  {
    && |scores| == |Lines(haystack)| - |Lines(needle)| + 1
    && forall w: nat :: w < |scores| ==> scores[w] == score(Join(Lines(needle)), LinesAt(haystack, w, |Lines(needle)|))
  }

  lemma ScoresAreOfLines(haystack: string, needle: string, score: Similarity)
    requires SearchesWindows(haystack, needle)
    ensures ScoresLines(haystack, needle, score, WindowScores(haystack, needle, score))
  {
    hide Lines, Join, Find;
    var scores, n := WindowScores(haystack, needle, score), |Lines(needle)|;
    forall w: nat | w < |scores|
      ensures scores[w] == score(Join(Lines(needle)), LinesAt(haystack, w, n))
    {
      assert LinesAt(haystack, w, n) == Window(Lines(haystack), w, n);
    }
  }

  /** Window `w` scores strictly above every other. */
  predicate StrictMaximum(scores: seq<real>, w: nat) {
    w < |scores| && forall i :: 0 <= i < |scores| && i != w ==> scores[i] < scores[w]
  }

  /** What the answer `r` of a search over windows of `n` lines says about their scores. */
  ghost predicate AnswersSearch(haystack: string, n: nat, scores: seq<real>, threshold: real, r: Match) {
    match r
    case NoMatch =>
      forall i :: 0 <= i < |scores| ==> scores[i] < threshold
    case Found(range) =>
      exists w: nat :: (StrictMaximum(scores, w) && scores[w] >= threshold && range == ByteRange(haystack, w, w + n)
                        && (ClearWinner(scores, threshold, w) <==> !HasRival(scores, threshold, w)))
    case Ambiguous(count) =>
      exists l: nat :: (Leads(scores, threshold, l) && count == |TiedWindows(scores, threshold, l)| + 1 && count > 1)
  }

  lemma FoundMeans(haystack: string, n: nat, scores: seq<real>, threshold: real, r: Match) returns (w: nat)
    requires AnswersSearch(haystack, n, scores, threshold, r) && r.Found?
    ensures w < |scores| && StrictMaximum(scores, w) && scores[w] >= threshold && r.range == ByteRange(haystack, w, w + n)
    ensures ClearWinner(scores, threshold, w) <==> !HasRival(scores, threshold, w)
  {
    hide ByteRange, ClearWinner, HasRival;
    w :| StrictMaximum(scores, w) && scores[w] >= threshold && r.range == ByteRange(haystack, w, w + n)
         && (ClearWinner(scores, threshold, w) <==> !HasRival(scores, threshold, w));
  }

  lemma WindowCount(haystack: string, needle: string, score: Similarity)
    requires SearchesWindows(haystack, needle)
    ensures 0 < |Lines(needle)| <= |Lines(haystack)|
    ensures |WindowScores(haystack, needle, score)| == |Lines(haystack)| - |Lines(needle)| + 1
  {
    hide Lines, Find, Join;
  }

  /** What a window search answers: nothing when no window reaches the threshold; else the range of
      a strict maximum, which has no rival exactly when it is the clear winner, or that there are
      rivals. A clear winner is never missed. */
  lemma WindowSearch(haystack: string, needle: string, threshold: real, score: Similarity)
    requires SearchesWindows(haystack, needle) && haystack != []
    ensures var r, scores := FindBlockSpec(haystack, needle, threshold, score), WindowScores(haystack, needle, score);
            && ScoresLines(haystack, needle, score, scores)
            && AnswersSearch(haystack, |Lines(needle)|, scores, threshold, r)
            && forall w: nat :: ClearWinner(scores, threshold, w) ==> r == Found(ByteRange(haystack, w, w + |Lines(needle)|))
  {
    hide Scan, Lines, Scores, ByteRange, Find, Join, AnswersSearch, ClearWinner, Answer, ScoresLines;
    ScoresAreOfLines(haystack, needle, score);
    ScanAnswers(haystack, |Lines(needle)|, WindowScores(haystack, needle, score), threshold);
  }

  lemma ScanAnswers(haystack: string, n: nat, scores: seq<real>, threshold: real)
    ensures var r := Answer(Scan(scores, threshold), haystack, n);
            && AnswersSearch(haystack, n, scores, threshold, r)
            && forall w: nat :: ClearWinner(scores, threshold, w) ==> r == Found(ByteRange(haystack, w, w + n))
  {
    hide Scan, ByteRange, ClearWinner, HasRival, TiedWindows;
    LeaderFacts(scores, threshold);
    var b := Scan(scores, threshold);
    if b.leader.Some? {
      if b.tied == 0 {
        FoundIsStrictMaximum(scores, threshold);
        FoundWithoutRival(scores, threshold, b.leader.value);
        assert StrictMaximum(scores, b.leader.value);
      } else {
        TiesAreCounted(scores, threshold);
        assert Leads(scores, threshold, b.leader.value);
      }
    }
    forall w: nat | ClearWinner(scores, threshold, w)
      ensures b == Best(Some(w), 0)
    {
      ClearWinnerIsFound(scores, threshold, w);
    }
  }

  /** A needle that occurs exactly is found at its first occurrence, whatever the scores. */
  lemma ExactSearch(haystack: string, needle: string, threshold: real, score: Similarity, i: nat)
    requires needle != [] && OccursAt(haystack, needle, i)
    ensures var r := FindBlockSpec(haystack, needle, threshold, score);
            && r.Found? && r.range.start <= i && OccursAt(haystack, needle, r.range.start)
            && r.range.end == r.range.start + |needle|
            && forall k: nat :: k < r.range.start ==> !OccursAt(haystack, needle, k)
  {
    hide FindFrom, Lines, Scan, Scores;
    assert haystack != [];
    var exact := Find(haystack, needle);
  }
}
