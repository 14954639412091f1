/** Locating a search block in a file: exactly, or as the best-scoring window of lines.

    The similarity of two texts is a parameter; nothing is assumed about it. */
module Fuzzy {
  import opened Texts
  import opened Wrappers

  const DEFAULT_THRESHOLD := 0.7
  const AMBIGUITY_MARGIN := 0.02

  type Similarity = (string, string) -> real

  datatype Range = Range(start: nat, end: nat)

  // ----- Exact search -----

  predicate OccursAt(haystack: string, needle: string, i: nat) {
    i + |needle| <= |haystack| && haystack[i..i + |needle|] == needle
  }

  /** The first occurrence. */
  function Find(haystack: string, needle: string): (r: Option<nat>)
    ensures r.Some? ==> OccursAt(haystack, needle, r.value) && forall i: nat :: i < r.value ==> !OccursAt(haystack, needle, i)
    ensures r.None? ==> forall i: nat :: !OccursAt(haystack, needle, i)
  {
    FindFrom(haystack, needle, 0)
  }

  function FindFrom(haystack: string, needle: string, from: nat): (r: Option<nat>)
    ensures r.Some? ==> from <= r.value && OccursAt(haystack, needle, r.value)
    ensures r.Some? ==> forall i: nat :: from <= i < r.value ==> !OccursAt(haystack, needle, i)
    ensures r.None? ==> forall i: nat :: from <= i ==> !OccursAt(haystack, needle, i)
    decreases |haystack| - from
  {
    if from + |needle| > |haystack| then None
    else if OccursAt(haystack, needle, from) then Some(from)
    else FindFrom(haystack, needle, from + 1)
  }

  // ----- Lines and windows -----

  /** The lines of a text as they stand: cut at newlines, without an empty piece at the end. */
  function RawLines(src: string): seq<string> {
    var pieces := Split(src);
    if pieces[|pieces| - 1] == [] then pieces[..|pieces| - 1] else pieces
  }

  /** The lines without the carriage return in front of their newline. */
  function Lines(src: string): (lines: seq<string>)
    ensures |lines| == |RawLines(src)|
  {
    var raw := RawLines(src);
    seq(|raw|, i requires 0 <= i < |raw| => if i < |Split(src)| - 1 then StripCr(raw[i]) else raw[i])
  }

  function Window(lines: seq<string>, start: nat, n: nat): string
    requires 0 < n && start + n <= |lines|
  {
    Join(lines[start..start + n])
  }

  /** Scores of the windows, in order. */
  function Scores(lines: seq<string>, blob: string, n: nat, score: Similarity): (scores: seq<real>)
    requires 0 < n <= |lines|
    ensures |scores| == |lines| - n + 1
  {
    seq(|lines| - n + 1, i requires 0 <= i < |lines| - n + 1 => score(blob, Window(lines, i, n)))
  }

  // ----- The best window -----

  /** The leading window so far, and how many later windows are within the margin of it. */
  datatype Best = Best(leader: Option<nat>, tied: nat)

  function Abs(x: real): real { if x < 0.0 then -x else x }

  function Scan(scores: seq<real>, threshold: real): (b: Best)
    ensures b.leader.Some? ==> b.leader.value < |scores|
  {
    if scores == [] then Best(None, 0)
    else
      var n := |scores| - 1;
      var b, s := Scan(scores[..n], threshold), scores[n];
      if s < threshold then b
      else if b.leader.None? then Best(Some(n), 0)
      else if Abs(s - scores[b.leader.value]) <= AMBIGUITY_MARGIN then b.(tied := b.tied + 1)
      else if s > scores[b.leader.value] then Best(Some(n), 0)
      else b
  }

  // ----- Byte ranges -----

  /** Where lines start: at 0 and after every newline. */
  function Starts(src: string): (starts: seq<nat>)
    ensures |starts| > 0
  {
    if src == [] then [0]
    else Starts(src[..|src| - 1]) + if src[|src| - 1] == '\n' then [|src|] else []
  }

  /** The bytes of lines `first` to `last` (excluded), without the newline after them. */
  function ByteRange(src: string, first: nat, last: nat): Range {
    var starts := Starts(src);
    var start := if first < |starts| then starts[first] else |src|;
    var end := if last < |starts| then starts[last] else |src|;
    Range(start, if end > start && end <= |src| && src[end - 1] == '\n' then end - 1 else end)
  }

  method LineRangeToByteRange(src: string, first: nat, last: nat) returns (r: Range)
    ensures r == ByteRange(src, first, last)
  {
    var starts: seq<nat> := [0];
    for i := 0 to |src|
      invariant starts == Starts(src[..i])
    {
      assert src[..i + 1][..i] == src[..i];
      if src[i] == '\n' {
        starts := starts + [i + 1];
      }
    }
    assert src[..|src|] == src;
    var start := if first < |starts| then starts[first] else |src|;
    var end := if last < |starts| then starts[last] else |src|;
    if end > start && end > 0 && end <= |src| && src[end - 1] == '\n' {
      end := end - 1;
    }
    return Range(start, end);
  }

  // ----- The search -----

  datatype Match = NoMatch | Found(range: Range) | Ambiguous(count: nat)

  function FindBlockSpec(haystack: string, needle: string, threshold: real, score: Similarity): Match {
    if needle == [] || haystack == [] then NoMatch
    else
      var exact := Find(haystack, needle);
      if exact.Some? then Found(Range(exact.value, exact.value + |needle|))
      else
        var lines, n := Lines(haystack), |Lines(needle)|;
        if |lines| < n || n == 0 then NoMatch
        else
          Answer(Scan(Scores(lines, Join(Lines(needle)), n, score), threshold), haystack, n)
  }

  function Answer(best: Best, haystack: string, n: nat): Match {
    if best.leader.None? then NoMatch
    else if best.tied == 0 then Found(ByteRange(haystack, best.leader.value, best.leader.value + n))
    else Ambiguous(best.tied + 1)
  }

  /** A text that is not empty has a line. */
  lemma NonEmptyHasLines(src: string)
    requires src != []
    ensures |Lines(src)| > 0
  {
  }

  lemma SpecWithoutExact(haystack: string, needle: string, threshold: real, score: Similarity)
    requires needle != [] && haystack != [] && Find(haystack, needle).None? && 0 < |Lines(needle)|
    ensures FindBlockSpec(haystack, needle, threshold, score) ==
            if |Lines(haystack)| < |Lines(needle)| then NoMatch
            else Answer(Scan(Scores(Lines(haystack), Join(Lines(needle)), |Lines(needle)|, score), threshold), haystack, |Lines(needle)|)
  {
    hide Lines, Join, Find, Scan, Scores, Answer;
  }

  lemma SpecWithExact(haystack: string, needle: string, threshold: real, score: Similarity)
    ensures needle == [] || haystack == [] ==> FindBlockSpec(haystack, needle, threshold, score) == NoMatch
    ensures needle != [] && haystack != [] && Find(haystack, needle).Some? ==>
              var i := Find(haystack, needle).value;
              FindBlockSpec(haystack, needle, threshold, score) == Found(Range(i, i + |needle|))
  {
    hide Lines, Join, Find, Scan, Scores, Answer;
  }

  method FindBlock(haystack: string, needle: string, threshold: real, score: Similarity) returns (r: Match)
    ensures r == FindBlockSpec(haystack, needle, threshold, score)
  {
    hide Lines, RawLines, Split, Join, ByteRange, Find, FindFrom, OccursAt, Scan, Scores, FindBlockSpec;
    SpecWithExact(haystack, needle, threshold, score);
    if needle == [] || haystack == [] {
      return NoMatch;
    }
    var exact := Find(haystack, needle);
    if exact.Some? {
      return Found(Range(exact.value, exact.value + |needle|));
    }
    var hayLines, needleLines := Lines(haystack), Lines(needle);
    var n := |needleLines|;
    NonEmptyHasLines(needle);
    SpecWithoutExact(haystack, needle, threshold, score);
    if |hayLines| < n {
      return NoMatch;
    }
    var blob := Join(needleLines);
    var best, tied := BestWindow(haystack, hayLines, blob, n, threshold, score);
    if best.None? {
      return NoMatch;
    }
    return if tied == [] then Found(best.value) else Ambiguous(|tied| + 1);
  }

  /** The loop over the windows: the best one and the ranges of those tied with it. */
  method BestWindow(haystack: string, lines: seq<string>, blob: string, n: nat, threshold: real, score: Similarity)
    returns (range: Option<Range>, tied: seq<Range>)
    requires 0 < n <= |lines|
    ensures var b := Scan(Scores(lines, blob, n, score), threshold);
            && (range.Some? <==> b.leader.Some?)
            && (range.Some? ==> range.value == ByteRange(haystack, b.leader.value, b.leader.value + n))
            && |tied| == b.tied
  {
    hide Scan, Window, ByteRange;
    ghost var scores := Scores(lines, blob, n, score);
    var best: Option<(Range, real)> := None;
    tied := [];
    ghost var b := Best(None, 0);
    NoScores(threshold);
    assert scores[..0] == [];
    for start := 0 to |lines| - n + 1
      invariant b == Scan(scores[..start], threshold)
      invariant best.Some? <==> b.leader.Some?
      invariant best.Some? ==> best.value == (ByteRange(haystack, b.leader.value, b.leader.value + n), scores[b.leader.value])
      invariant |tied| == b.tied
    {
      NextScore(scores, start, threshold);
      b := Scan(scores[..start + 1], threshold);
      var s := score(blob, Window(lines, start, n));
      if s < threshold {
        continue;
      }
      var range := LineRangeToByteRange(haystack, start, start + n);
      if best.None? {
        best, tied := Some((range, s)), [];
      } else if Abs(s - best.value.1) <= AMBIGUITY_MARGIN {
        tied := tied + [range];
      } else if s > best.value.1 {
        best, tied := Some((range, s)), [];
      }
    }
    assert scores[..|lines| - n + 1] == scores;
    range := if best.Some? then Some(best.value.0) else None;
  }

  lemma NoScores(threshold: real)
    ensures Scan([], threshold) == Best(None, 0)
  {
  }

  lemma NextScore(scores: seq<real>, i: nat, threshold: real)
    requires i < |scores|
    ensures var b, s := Scan(scores[..i], threshold), scores[i];
            Scan(scores[..i + 1], threshold) ==
            if s < threshold then b
            else if b.leader.None? then Best(Some(i), 0)
            else if Abs(s - scores[b.leader.value]) <= AMBIGUITY_MARGIN then b.(tied := b.tied + 1)
            else if s > scores[b.leader.value] then Best(Some(i), 0)
            else b
  {
    assert scores[..i + 1][..i] == scores[..i];
  }
}
