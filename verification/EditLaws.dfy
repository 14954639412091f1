/** What an applied edit changes, and which edits survive being written out and parsed. */
module EditLaws {
  import opened EditFormats
  import opened Fuzzy
  import opened FuzzyLaws
  import opened Texts
  import opened Wrappers

  // ----- Applying -----

  /** An exact match: the first occurrence is replaced, and nothing else. */
  lemma ExactEdit(content: string, edit: Edit, score: Similarity, i: nat)
    requires edit.search != [] && OccursAt(content, edit.search, i)
    requires forall k: nat :: k < i ==> !OccursAt(content, edit.search, k)
    ensures Applied(content, edit, score) == Ok(content[..i] + edit.replace + content[i + |edit.search|..])
  {
    hide FindBlockSpec, OccursAt, Find;
    ExactSearch(content, edit.search, DEFAULT_THRESHOLD, score, i);
    OccursWithin(content, edit.search, i);
  }

  lemma OccursWithin(haystack: string, needle: string, i: nat)
    requires OccursAt(haystack, needle, i)
    ensures i + |needle| <= |haystack|
  {
  }

  /** Lines around a spliced text stay lines. */
  lemma SpliceLines(pieces: seq<string>, a: nat, b: nat, replace: string)
    requires a < b <= |pieces| && forall i :: 0 <= i < |pieces| ==> NoNewline(pieces[i])
    ensures Split(Terminated(pieces[..a]) + replace + After(pieces, b)) == pieces[..a] + Split(replace) + pieces[b..]
  {
    hide Split, Join, Terminated, NoNewline, After;
    var r := Split(replace);
    SplitGivesLines(replace);
    SplitThenJoin(replace);
    AfterIs(pieces, b);
    var lines := pieces[..a] + r + pieces[b..];
    assert lines[..a] == pieces[..a] && lines[a..] == r + pieces[b..];
    JoinFromLine(lines, a);
    if b == |pieces| {
      NothingAfter(Terminated(pieces[..a]) + replace);
      assert r + pieces[b..] == r;
    } else {
      JoinThen(r, pieces[b..]);
      Associative(Terminated(pieces[..a]), replace, "\n", Join(pieces[b..]));
    }
    JoinThenSplit(lines);
  }

  /** Replacing the window of `n` lines from line `w` on: the lines before and after it stay. */
  lemma WindowEdit(content: string, w: nat, n: nat, replace: string)
    requires 0 < n && w + n <= |Lines(content)|
    ensures var range, pieces := ByteRange(content, w, w + n), Split(content);
            && range.start <= range.end <= |content| && w + n <= |pieces|
            && Split(Spliced(content, range, replace)) == pieces[..w] + Split(replace) + pieces[w + n..]
  {
    hide Split, Join, Terminated, NoNewline, After, Lines, ByteRange, RawLines;
    SameCount(content);
    RangeCoversWindow(content, w, w + n);
    CoveredParts(content, w, w + n, ByteRange(content, w, w + n));
    hide Covers;
    SplitGivesLines(content);
    SpliceLines(Split(content), w, w + n, replace);
  }

  lemma SameCount(src: string)
    ensures |Lines(src)| == |RawLines(src)|
  {
  }

  /** The outcome of replacing lines `[w, w + n)` of `content`. */
  predicate ReplacesLines(content: string, w: nat, n: nat, replace: string, out: string) {
    w + n <= |Split(content)| && Split(out) == Split(content)[..w] + Split(replace) + Split(content)[w + n..]
  }

  /** The similarity of the searched lines to the `n` lines of `content` from line `w` on. */
  function Similar(content: string, search: string, score: Similarity, w: nat): real
    requires 0 < |Lines(search)| && w + |Lines(search)| <= |Lines(content)|
  {
    score(Join(Lines(search)), LinesAt(content, w, |Lines(search)|))
  }

  /** The lines from `w` on are similar to the searched ones by 0.7 or more, and more than those from any
      other line on. */
  predicate MostSimilar(content: string, search: string, score: Similarity, w: nat) {
    && 0 < |Lines(search)| && w + |Lines(search)| <= |Lines(content)|
    && Similar(content, search, score, w) >= 0.7
    && forall v: nat :: v + |Lines(search)| <= |Lines(content)| && v != w ==>
         Similar(content, search, score, v) < Similar(content, search, score, w)
  }

  /** A fuzzy edit that succeeds replaces the lines that are the most similar to the searched ones, and
      every other line stays as it was, carriage returns included. */
  lemma FuzzyEdit(content: string, edit: Edit, score: Similarity) returns (w: nat)
    requires SearchesWindows(content, edit.search) && content != []
    requires Applied(content, edit, score).Ok?
    ensures MostSimilar(content, edit.search, score, w)
    ensures ReplacesLines(content, w, |Lines(edit.search)|, edit.replace, Applied(content, edit, score).value)
  {
    hide *;
    var n := |Lines(edit.search)|;
    var found := FindBlockSpec(content, edit.search, DEFAULT_THRESHOLD, score);
    AppliedMeans(content, edit, score);
    WindowSearch(content, edit.search, DEFAULT_THRESHOLD, score);
    w := FoundMeans(content, n, WindowScores(content, edit.search, score), DEFAULT_THRESHOLD, found);
    WindowCount(content, edit.search, score);
    MaximumIsMostSimilar(content, edit.search, score, w);
    WindowEdit(content, w, n, edit.replace);
    ReplacesMeans(content, w, n, edit.replace, Applied(content, edit, score).value);
  }

  lemma MaximumIsMostSimilar(content: string, search: string, score: Similarity, w: nat)
    requires SearchesWindows(content, search)
    requires var scores := WindowScores(content, search, score);
             ScoresLines(content, search, score, scores) && StrictMaximum(scores, w) && scores[w] >= DEFAULT_THRESHOLD
    ensures MostSimilar(content, search, score, w)
  {
    hide Lines, Join, Find, LinesAt, WindowScores;
    var scores := WindowScores(content, search, score);
    forall v: nat | v + |Lines(search)| <= |Lines(content)|
      ensures v < |scores| && Similar(content, search, score, v) == scores[v]
    {
    }
  }

  lemma AppliedMeans(content: string, edit: Edit, score: Similarity)
    requires Applied(content, edit, score).Ok?
    ensures var found := FindBlockSpec(content, edit.search, DEFAULT_THRESHOLD, score);
            && found.Found? && found.range.start <= found.range.end <= |content|
            && Applied(content, edit, score).value == Spliced(content, found.range, edit.replace)
  {
    hide FindBlockSpec, Spliced;
    FoundWithin(content, edit.search, DEFAULT_THRESHOLD, score);
  }

  lemma ReplacesMeans(content: string, w: nat, n: nat, replace: string, out: string)
    requires w + n <= |Split(content)| && Split(out) == Split(content)[..w] + Split(replace) + Split(content)[w + n..]
    ensures ReplacesLines(content, w, n, replace, out)
  {
    hide Split;
  }

  /** A batch is the sequence of its parts: the second part starts from what the first part made,
      and nothing of the batch is kept when any edit fails. */
  lemma {:induction false} BatchInParts(content: string, first: seq<Edit>, second: seq<Edit>, score: Similarity)
    ensures var before := AppliedAll(content, first, score);
            AppliedAll(content, first + second, score) ==
            if before.Err? then before else AppliedAll(before.value, second, score)
    decreases |second|
  {
    hide Applied;
    if second == [] {
      assert first + second == first;
    } else {
      var n := |second| - 1;
      BatchInParts(content, first, second[..n], score);
      assert (first + second)[..|first + second| - 1] == first + second[..n];
    }
  }

  /** Nothing is found for an empty search, in an empty file, or for more lines than the file has. */
  lemma NothingToSearch(content: string, edit: Edit, score: Similarity)
    requires || edit.search == [] || content == []
             || (Find(content, edit.search).None? && |Lines(content)| < |Lines(edit.search)|)
    ensures Applied(content, edit, score) == Err(SearchNotFound)
  {
    hide Lines, Find;
  }

  /** The windows behind window `l` that reach 0.7 and are within 0.02 of it. */
  function Rivals(content: string, search: string, score: Similarity, l: nat): set<nat>
    requires 0 < |Lines(search)| && l + |Lines(search)| <= |Lines(content)|
  {
    set i: nat | l < i <= |Lines(content)| - |Lines(search)|
                 && Similar(content, search, score, i) >= 0.7
                 && -0.02 <= Similar(content, search, score, i) - Similar(content, search, score, l) <= 0.02
  }

  /** Window `l` reaches 0.7, those before it are less similar, and those behind it by at most 0.02 more. */
  predicate LeadsLines(content: string, search: string, score: Similarity, l: nat) {
    && 0 < |Lines(search)| && l + |Lines(search)| <= |Lines(content)|
    && Similar(content, search, score, l) >= 0.7
    && forall i: nat :: i + |Lines(search)| <= |Lines(content)| ==>
         && Similar(content, search, score, i) <= Similar(content, search, score, l) + 0.02
         && (i < l ==> Similar(content, search, score, i) < Similar(content, search, score, l))
  }

  /** Why a fuzzy edit fails: no lines are similar enough, or the leading ones have rivals, and the error
      counts them all. */
  lemma FuzzyFailure(content: string, edit: Edit, score: Similarity)
    requires SearchesWindows(content, edit.search) && content != []
    requires Applied(content, edit, score).Err?
    ensures Applied(content, edit, score).error.SearchNotFound? || Applied(content, edit, score).error.AmbiguousMatch?
    ensures Applied(content, edit, score).error.SearchNotFound? ==>
              forall w: nat :: w + |Lines(edit.search)| <= |Lines(content)| ==> Similar(content, edit.search, score, w) < 0.7
    ensures Applied(content, edit, score).error.AmbiguousMatch? ==>
              exists l: nat :: LeadsLines(content, edit.search, score, l) && Rivals(content, edit.search, score, l) != {}
                               && Applied(content, edit, score).error.count == 1 + |Rivals(content, edit.search, score, l)|
  {
    hide FindBlockSpec, Lines, Find, Join, WindowScores, LinesAt;
    var scores := WindowScores(content, edit.search, score);
    WindowSearch(content, edit.search, DEFAULT_THRESHOLD, score);
    forall w: nat | w + |Lines(edit.search)| <= |Lines(content)|
      ensures w < |scores| && Similar(content, edit.search, score, w) == scores[w]
    {
    }
    if Applied(content, edit, score).error.AmbiguousMatch? {
      var count := Applied(content, edit, score).error.count;
      var l: nat :| Leads(scores, DEFAULT_THRESHOLD, l) && count == |TiedWindows(scores, DEFAULT_THRESHOLD, l)| + 1 && count > 1;
      RivalsAreTied(content, edit.search, score, scores, l);
      assert LeadsLines(content, edit.search, score, l);
    }
  }

  lemma RivalsAreTied(content: string, search: string, score: Similarity, scores: seq<real>, l: nat)
    requires 0 < |Lines(search)| && l < |scores| == |Lines(content)| - |Lines(search)| + 1
    requires forall w: nat :: w < |scores| ==> Similar(content, search, score, w) == scores[w]
    ensures Rivals(content, search, score, l) == TiedWindows(scores, DEFAULT_THRESHOLD, l)
  {
    hide Lines, Similar;
  }

  /** A batch of one edit is that edit, with its outcome or its error; an empty one keeps the content, and a
      whole file replaces it. */
  lemma BatchOfOne(content: string, edit: Edit, score: Similarity)
    ensures Outcome(content, ToolUseEdit([edit]), score) == Outcome(content, SearchReplace(edit), score)
    ensures Outcome(content, ToolUseEdit([edit]), score) == Applied(content, edit, score)
    ensures Outcome(content, ToolUseEdit([]), score) == Ok(content)
    ensures Outcome(content, WholeFile(edit.replace), score) == Ok(edit.replace)
  {
    hide Applied;
    assert [edit][..|[edit]| - 1] == [];
    assert AppliedAll(content, [], score) == Ok(content);
  }

  /** The texts an edit of a batch is applied to: what the edits before it make of the content. */
  ghost predicate Passes(content: string, edits: seq<Edit>, score: Similarity, texts: seq<string>) {
    && |texts| == |edits| + 1 && texts[0] == content
    && forall i :: 0 <= i < |edits| ==> Applied(texts[i], edits[i], score) == Ok(texts[i + 1])
  }

  lemma {:induction false} BatchPasses(content: string, edits: seq<Edit>, score: Similarity) returns (texts: seq<string>)
    requires AppliedAll(content, edits, score).Ok?
    ensures Passes(content, edits, score, texts) && AppliedAll(content, edits, score) == Ok(texts[|edits|])
  {
    hide Applied;
    if edits == [] {
      texts := [content];
    } else {
      var n := |edits| - 1;
      var before := BatchPasses(content, edits[..n], score);
      texts := before + [AppliedAll(content, edits, score).value];
      forall i | 0 <= i < |edits|
        ensures Applied(texts[i], edits[i], score) == Ok(texts[i + 1])
      {
        assert i < n ==> edits[..n][i] == edits[i];
      }
    }
  }

  lemma {:induction false} PassesIsBatch(content: string, edits: seq<Edit>, score: Similarity, texts: seq<string>)
    requires Passes(content, edits, score, texts)
    ensures AppliedAll(content, edits, score) == Ok(texts[|edits|])
  {
    hide Applied;
    if edits != [] {
      var n := |edits| - 1;
      assert Passes(content, edits[..n], score, texts[..|edits|]);
      PassesIsBatch(content, edits[..n], score, texts[..|edits|]);
    }
  }

  /** A batch makes `out` exactly when there is a chain of texts from the content to `out` in which each
      edit makes the next text of the one before. */
  lemma BatchExactly(content: string, edits: seq<Edit>, score: Similarity, out: string)
    ensures Outcome(content, ToolUseEdit(edits), score) == Ok(out) <==>
            exists texts :: Passes(content, edits, score, texts) && texts[|edits|] == out
  {
    hide Applied, AppliedAll, Passes;
    if AppliedAll(content, edits, score).Ok? {
      var texts := BatchPasses(content, edits, score);
    }
    forall texts | Passes(content, edits, score, texts)
      ensures |texts| == |edits| + 1 && AppliedAll(content, edits, score) == Ok(texts[|edits|])
    {
      PassesIsBatch(content, edits, score, texts);
      PassesLength(content, edits, score, texts);
    }
  }

  lemma PassesLength(content: string, edits: seq<Edit>, score: Similarity, texts: seq<string>)
    requires Passes(content, edits, score, texts)
    ensures |texts| == |edits| + 1
  {
  }

  /** A batch fails with an error exactly when one of its edits does, after a chain of texts through all
      edits before it. */
  lemma BatchFailsExactly(content: string, edits: seq<Edit>, score: Similarity, e: Error)
    ensures Outcome(content, ToolUseEdit(edits), score) == Err(e) <==> exists n: nat :: FailsFirst(content, edits, score, n, e)
  {
    hide Applied, AppliedAll;
    if AppliedAll(content, edits, score) == Err(e) {
      var n := FirstFailure(content, edits, score);
    }
    if n: nat :| FailsFirst(content, edits, score, n, e) {
      var texts :| Passes(content, edits[..n], score, texts) && Applied(texts[n], edits[n], score) == Err(e);
      PassesIsBatch(content, edits[..n], score, texts);
      BatchStops(content, edits, score, n, e);
    }
  }

  /** The edits before edit `n` pass, and it fails with `e` on what they make. */
  ghost predicate FailsFirst(content: string, edits: seq<Edit>, score: Similarity, n: nat, e: Error) {
    && n < |edits|
    && exists texts :: Passes(content, edits[..n], score, texts) && Applied(texts[n], edits[n], score) == Err(e)
  }

  lemma BatchStops(content: string, edits: seq<Edit>, score: Similarity, n: nat, e: Error)
    requires n < |edits| && AppliedAll(content, edits[..n], score).Ok?
    requires Applied(AppliedAll(content, edits[..n], score).value, edits[n], score) == Err(e)
    ensures AppliedAll(content, edits, score) == Err(e)
  {
    hide Applied;
    assert edits[..n + 1][..n] == edits[..n];
    FailureStays(content, edits, score, n + 1);
  }

  lemma {:induction false} FirstFailure(content: string, edits: seq<Edit>, score: Similarity) returns (n: nat)
    requires AppliedAll(content, edits, score).Err?
    ensures FailsFirst(content, edits, score, n, AppliedAll(content, edits, score).error)
  {
    hide Applied;
    n := |edits| - 1;
    var before := AppliedAll(content, edits[..n], score);
    if before.Ok? {
      var texts := BatchPasses(content, edits[..n], score);
    } else {
      n := FirstFailure(content, edits[..n], score);
      assert edits[..|edits| - 1][..n] == edits[..n];
    }
  }
}
