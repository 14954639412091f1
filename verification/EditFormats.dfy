/** Edits of a file's content: applying a search and replace edit, and parsing one from a model's
    text with the three markers. */
module EditFormats {
  import opened Fuzzy
  import opened Texts
  import opened Wrappers
  import FuzzyLaws

  datatype Edit = Edit(search: string, replace: string, anchor: Option<string>)

  datatype Operation = WholeFile(content: string) | SearchReplace(edit: Edit) | ToolUseEdit(edits: seq<Edit>)

  datatype Error = SearchNotFound | AmbiguousMatch(count: nat) | NoSearchBlock | NoReplaceBlock

  // ----- Applying -----

  /** `content` with the bytes of a range replaced. */
  function Spliced(content: string, range: Range, replace: string): string
    requires range.start <= range.end <= |content|
  {
    content[..range.start] + replace + content[range.end..]
  }

  /** A range the search finds lies within the text it searched. */
  lemma FoundWithin(content: string, search: string, threshold: real, score: Similarity)
    ensures var m := FindBlockSpec(content, search, threshold, score);
            m.Found? ==> m.range.start <= m.range.end <= |content|
  {
    hide ByteRange, Scan, Scores, Join, Lines, Find, Answer;
    var m := FindBlockSpec(content, search, threshold, score);
    if m.Found? {
      if Find(content, search).Some? {
        FuzzyLaws.ExactSearch(content, search, threshold, score, Find(content, search).value);
      } else {
        WindowFoundWithin(content, search, threshold, score);
      }
    }
  }

  lemma WindowFoundWithin(content: string, search: string, threshold: real, score: Similarity)
    requires content != [] && FuzzyLaws.SearchesWindows(content, search)
    requires FindBlockSpec(content, search, threshold, score).Found?
    ensures var range := FindBlockSpec(content, search, threshold, score).range;
            range.start <= range.end <= |content|
  {
    hide *;
    FuzzyLaws.WindowSearch(content, search, threshold, score);
    var scores := FuzzyLaws.WindowScores(content, search, score);
    var w := FuzzyLaws.FoundMeans(content, |Lines(search)|, scores, threshold, FindBlockSpec(content, search, threshold, score));
    FuzzyLaws.WindowCount(content, search, score);
    WindowWithin(content, w, |Lines(search)|);
  }

  lemma WindowWithin(content: string, w: nat, n: nat)
    requires 0 < n && w + n <= |Lines(content)|
    ensures var r := ByteRange(content, w, w + n); r.start <= r.end <= |content|
  {
    hide *;
    FuzzyLaws.RangeCoversWindow(content, w, w + n);
    FuzzyLaws.CoveredParts(content, w, w + n, ByteRange(content, w, w + n));
  }

  function Applied(content: string, edit: Edit, score: Similarity): Result<string, Error> {
    FoundWithin(content, edit.search, DEFAULT_THRESHOLD, score);
    match FindBlockSpec(content, edit.search, DEFAULT_THRESHOLD, score)
    case NoMatch => Err(SearchNotFound)
    case Ambiguous(count) => Err(AmbiguousMatch(count))
    case Found(range) => Ok(Spliced(content, range, edit.replace))
  }

  method ApplySingle(content: string, edit: Edit, score: Similarity) returns (r: Result<string, Error>)
    ensures r == Applied(content, edit, score)
  {
    hide FindBlockSpec;
    var found := FindBlock(content, edit.search, DEFAULT_THRESHOLD, score);
    FoundWithin(content, edit.search, DEFAULT_THRESHOLD, score);
    match found {
      case NoMatch => return Err(SearchNotFound);
      case Ambiguous(count) => return Err(AmbiguousMatch(count));
      case Found(range) =>
        var out := content[..range.start];
        out := out + edit.replace;
        out := out + content[range.end..];
        return Ok(out);
    }
  }

  /** Edits applied one after the other, each to the outcome of those before it. */
  function AppliedAll(content: string, edits: seq<Edit>, score: Similarity): Result<string, Error> {
    if edits == [] then Ok(content)
    else
      var before := AppliedAll(content, edits[..|edits| - 1], score);
      if before.Err? then before else Applied(before.value, edits[|edits| - 1], score)
  }

  function Outcome(content: string, op: Operation, score: Similarity): Result<string, Error> {
    match op
    case WholeFile(text) => Ok(text)
    case SearchReplace(edit) => Applied(content, edit, score)
    case ToolUseEdit(edits) => AppliedAll(content, edits, score)
  }

  method ApplyEditOperation(content: string, op: Operation, score: Similarity) returns (r: Result<string, Error>)
    ensures r == Outcome(content, op, score)
  {
    hide Applied;
    match op {
      case WholeFile(text) => return Ok(text);
      case SearchReplace(edit) => r := ApplySingle(content, edit, score);
      case ToolUseEdit(edits) =>
        var acc := content;
        for i := 0 to |edits|
          invariant AppliedAll(content, edits[..i], score) == Ok(acc)
        {
          var next := ApplySingle(acc, edits[i], score);
          assert edits[..i + 1][..i] == edits[..i];
          if next.Err? {
            FailureStays(content, edits, score, i + 1);
            return next;
          }
          acc := next.value;
        }
        assert edits[..|edits|] == edits;
        return Ok(acc);
    }
  }

  /** Once an edit of a batch fails, the batch fails in the same way. */
  lemma {:induction false} FailureStays(content: string, edits: seq<Edit>, score: Similarity, n: nat)
    requires n <= |edits| && AppliedAll(content, edits[..n], score).Err?
    ensures AppliedAll(content, edits, score) == AppliedAll(content, edits[..n], score)
    decreases |edits| - n
  {
    hide Applied;
    if n == |edits| {
      assert edits[..n] == edits;
    } else {
      assert edits[..n + 1][..n] == edits[..n];
      FailureStays(content, edits, score, n + 1);
    }
  }

  // ----- Parsing -----

  const OPEN := "<<<"
  const SEARCH := "<<<SEARCH"
  const REPLACE := "<<<REPLACE"
  const END := "<<<END"

  /** The two texts gathered so far. */
  datatype Blocks = Blocks(search: Option<string>, replace: Option<string>)

  function TrimStart(s: string): string {
    if s != [] && s[0] == '\n' then TrimStart(s[1..]) else s
  }

  function TrimEnd(s: string): string {
    if s != [] && s[|s| - 1] == '\n' then TrimEnd(s[..|s| - 1]) else s
  }

  /** Without the newlines at both ends. */
  function Trim(s: string): string {
    TrimEnd(TrimStart(s))
  }

  /** The text up to the first `end`, or all of it. */
  function UpTo(text: string, end: string): string {
    var i := Find(text, end);
    if i.Some? then text[..i.value] else text
  }

  /** A body goes to the first of the two texts that is still missing, whatever its marker. */
  function Store(blocks: Blocks, body: string): Blocks {
    if blocks.search.None? && blocks.replace.None? then blocks.(search := Some(body))
    else if blocks.search.Some? && blocks.replace.None? then blocks.(replace := Some(body))
    else blocks
  }

  function ConsumeBlock(cursor: string, at: nat, startMarker: string, endMarker: string): string
    requires at + |startMarker| <= |cursor|
  {
    var bodyStart := at + |startMarker|;
    var i := Find(cursor[bodyStart..], endMarker);
    cursor[bodyStart..if i.Some? then bodyStart + i.value else |cursor|]
  }

  /** What is gathered from the rest of the text. */
  function Gather(cursor: string, blocks: Blocks): Blocks
    decreases |cursor|, 2
  {
    var at := Find(cursor, OPEN);
    if at.None? then blocks else AtMarker(cursor[at.value..], blocks)
  }

  function AtMarker(rest: string, blocks: Blocks): Blocks
    requires OPEN <= rest
    decreases |rest|, 1
  {
    if SEARCH <= rest then AfterBlock(rest, Store(blocks, Trim(UpTo(rest[|SEARCH|..], REPLACE))))
    else if REPLACE <= rest then AfterBlock(rest, Store(blocks, Trim(UpTo(rest[|REPLACE|..], END))))
    else if END <= rest then Gather(rest[|END|..], blocks)
    else Gather(rest[|OPEN|..], blocks)
  }

  /** Going on behind the line of a marker, not behind its block. */
  function AfterBlock(rest: string, blocks: Blocks): Blocks
    requires rest != []
    decreases |rest|, 0
  {
    var n := FirstNewline(rest);
    if n < |rest| then Gather(rest[n + 1..], blocks) else blocks
  }

  function Parsed(text: string): Result<Operation, Error> {
    var blocks := Gather(text, Blocks(None, None));
    if blocks.search.None? then Err(NoSearchBlock)
    else if blocks.replace.None? then Err(NoReplaceBlock)
    else Ok(SearchReplace(Edit(blocks.search.value, blocks.replace.value, None)))
  }

  /** A marker that is found lies within the text. */
  lemma OpenWithin(cursor: string, marker: string)
    ensures var at := Find(cursor, marker); at.Some? ==> at.value + |marker| <= |cursor| && marker <= cursor[at.value..]
  {
    hide FindFrom;
  }

  lemma BlockIsUpTo(cursor: string, at: nat, startMarker: string, endMarker: string)
    requires at <= |cursor| && startMarker <= cursor[at..]
    ensures ConsumeBlock(cursor, at, startMarker, endMarker) == UpTo(cursor[at..][|startMarker|..], endMarker)
  {
    hide Find;
    assert cursor[at..][|startMarker|..] == cursor[at + |startMarker|..];
  }

  lemma FoundFirst(text: string, marker: string)
    ensures Find(text, marker) == Some(0) <==> marker <= text
  {
    hide FindFrom;
    assert marker <= text <==> OccursAt(text, marker, 0);
  }

  /** The gathering at the first `<<<`, one step unfolded. */
  lemma GatherStep(cursor: string, blocks: Blocks)
    requires Find(cursor, OPEN).Some?
    ensures var at := Find(cursor, OPEN).value;
            && at + |OPEN| <= |cursor|
            && var rest := cursor[at..];
            OPEN <= rest && Gather(cursor, blocks) ==
            if SEARCH <= rest then AfterBlock(rest, Store(blocks, Trim(UpTo(rest[|SEARCH|..], REPLACE))))
            else if REPLACE <= rest then AfterBlock(rest, Store(blocks, Trim(UpTo(rest[|REPLACE|..], END))))
            else if END <= rest then Gather(rest[|END|..], blocks)
            else Gather(rest[|OPEN|..], blocks)
  {
    hide Find, Store, Trim, UpTo, AfterBlock;
    OpenWithin(cursor, OPEN);
    var rest := cursor[Find(cursor, OPEN).value..];
    assert Gather(cursor, blocks) == AtMarker(rest, blocks);
  }

  lemma NoMarker(cursor: string, blocks: Blocks)
    requires Find(cursor, OPEN).None?
    ensures Gather(cursor, blocks) == blocks
  {
    hide Find;
  }

  lemma NothingToGather(blocks: Blocks)
    ensures Gather([], blocks) == blocks
  {
  }

  method Parse(modelOutput: string) returns (r: Result<Operation, Error>)
    ensures r == Parsed(modelOutput)
  {
    hide Find, Trim, OccursAt, UpTo, ConsumeBlock, FirstNewline, Gather;
    var search: Option<string>, replace: Option<string> := None, None;
    var cursor := modelOutput;
    while cursor != []
      invariant Gather(cursor, Blocks(search, replace)) == Gather(modelOutput, Blocks(None, None))
      decreases |cursor|
    {
      var next := Find(cursor, OPEN);
      if next.None? {
        NoMarker(cursor, Blocks(search, replace));
        break;
      }
      var at := next.value;
      OpenWithin(cursor, OPEN);
      GatherStep(cursor, Blocks(search, replace));
      var afterMarker := cursor[at..];
      FoundFirst(afterMarker, SEARCH);
      FoundFirst(afterMarker, REPLACE);
      FoundFirst(afterMarker, END);
      var body: string;
      if Find(afterMarker, SEARCH) == Some(0) {
        body := ConsumeBlock(cursor, at, SEARCH, REPLACE);
        BlockIsUpTo(cursor, at, SEARCH, REPLACE);
      } else if Find(afterMarker, REPLACE) == Some(0) {
        body := ConsumeBlock(cursor, at, REPLACE, END);
        BlockIsUpTo(cursor, at, REPLACE, END);
      } else if Find(afterMarker, END) == Some(0) {
        cursor := cursor[at + |END|..];
        assert cursor == afterMarker[|END|..];
        continue;
      } else {
        cursor := cursor[at + |OPEN|..];
        assert cursor == afterMarker[|OPEN|..];
        continue;
      }
      body := Trim(body);
      if search.None? && replace.None? {
        search := Some(body);
      } else if search.Some? && replace.None? {
        replace := Some(body);
      }
      cursor := cursor[at..];
      var idx := FirstNewline(cursor);
      if idx < |cursor| {
        cursor := cursor[idx + 1..];
      } else {
        assert Gather(modelOutput, Blocks(None, None)) == Blocks(search, replace);
        break;
      }
    }
    NothingToGather(Blocks(search, replace));
    if search.None? {
      return Err(NoSearchBlock);
    }
    if replace.None? {
      return Err(NoReplaceBlock);
    }
    return Ok(SearchReplace(Edit(search.value, replace.value, None)));
  }
}
