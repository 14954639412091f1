/** The interpretation of an event stream in the HTML Living Standard, sections 9.2.5 and 9.2.6, and
    exactly when the parser's differs from it. */
module SseStandard {
  import opened Sse
  import opened SseLaws
  import opened Texts
  import opened Wrappers

  // ----- The standard -----

  /** The byte order mark in UTF-8. */
  const BOM: string := [0xEF as char, 0xBB as char, 0xBF as char]

  function WithoutBom(text: string): string {
    if BOM <= text then text[|BOM|..] else text
  }

  predicate Ends(c: char) { c == '\n' || c == '\r' }

  /** The index of the first carriage return or newline, or the length where there is none. */
  function FirstEnd(s: string): (n: nat)
    ensures n <= |s|
    ensures n < |s| ==> Ends(s[n])
    ensures forall i :: 0 <= i < n ==> !Ends(s[i])
  {
    if s == [] || Ends(s[0]) then 0 else 1 + FirstEnd(s[1..])
  }

  /** Complete lines: each ends in CR LF, LF or CR. */
  function StandardLines(text: string): seq<string>
    decreases |text|
  {
    var n := FirstEnd(text);
    if n == |text| then []
    else [text[..n]] + StandardLines(text[if text[n] == '\r' && n + 1 < |text| && text[n + 1] == '\n' then n + 2 else n + 1..])
  }

  /** The field name of a line: the characters before the first colon, or all of them. */
  function StandardName(line: string): string {
    if line == [] || line[0] == ':' then [] else [line[0]] + StandardName(line[1..])
  }

  /** The value: what follows the first colon, without a space in front; empty where there is no colon. */
  function StandardValue(line: string): string {
    if line == [] then []
    else if line[0] != ':' then StandardValue(line[1..])
    else if |line| > 1 && line[1] == ' ' then line[2..]
    else line[1..]
  }

  lemma {:induction false} FieldsAgree(line: string)
    ensures FieldName(line) == StandardName(line) && FieldValue(line) == StandardValue(line)
  {
    if line != [] && line[0] != ':' {
      FieldsAgree(line[1..]);
      var n := FindColon(line);
      assert FindColon(line[1..]) == n - 1 && line[..n] == [line[0]] + line[1..][..n - 1];
    }
  }

  /** Events dispatched, from the event type and data buffers on. A blank line dispatches nothing where
      the data buffer is empty; an empty type means `message`. */
  function StandardEvents(lines: seq<string>, kind: string, data: string): seq<Event> {
    if lines == [] then []
    else
      var line, rest := lines[0], lines[1..];
      if line == [] then
        (if data == [] then [] else [Event(if kind == [] then "message" else kind,
                                              if data[|data| - 1] == '\n' then data[..|data| - 1] else data)])
        + StandardEvents(rest, "", "")
      else if line[0] == ':' then StandardEvents(rest, kind, data)
      else if StandardName(line) == "event" then StandardEvents(rest, StandardValue(line), data)
      else if StandardName(line) == "data" then StandardEvents(rest, kind, data + StandardValue(line) + "\n")
      else StandardEvents(rest, kind, data)
  }

  function Standard(text: string): seq<Event> {
    StandardEvents(StandardLines(WithoutBom(text)), "", "")
  }

  // ----- The parser on lines -----

  /** Complete lines as the parser cuts them. */
  function ParserLines(text: string): seq<string>
    decreases |text|
  {
    var n := FirstNewline(text);
    if n == |text| then [] else [StripCr(text[..n])] + ParserLines(text[n + 1..])
  }

  /** The fields at each blank line that ends an event. */
  function Completed(lines: seq<string>, p: Pending): seq<Pending> {
    if lines == [] then []
    else if EndsEvent(lines[0], p) then [p] + Completed(lines[1..], NOTHING)
    else Completed(lines[1..], AfterLine(lines[0], p))
  }

  function EventsOf(blocks: seq<Pending>): seq<Event> {
    if blocks == [] then [] else [EventOf(blocks[0])] + EventsOf(blocks[1..])
  }

  /** The parser dispatches one event for each completed block. */
  lemma {:induction false} ParserReads(text: string, p: Pending)
    ensures Drain(State(text, p)).0 == EventsOf(Completed(ParserLines(text), p))
    decreases |text|
  {
    hide FirstNewline, StripCr, AfterLine, EndsEvent, EventOf, Drain;
    var s, n := State(text, p), FirstNewline(text);
    if n == |text| {
      NothingDrained(s);
    } else {
      var line, rest := StripCr(text[..n]), text[n + 1..];
      assert ([line] + ParserLines(rest))[1..] == ParserLines(rest);
      if EndsEvent(line, p) {
        ParserReads(rest, NOTHING);
        DrainAfterNext(s, EventOf(p), State(rest, NOTHING));
        assert ([p] + Completed(ParserLines(rest), NOTHING))[1..] == Completed(ParserLines(rest), NOTHING);
      } else {
        ParserReads(rest, AfterLine(line, p));
        DrainByNext(s, State(rest, AfterLine(line, p)));
      }
    }
  }

  // ----- The same lines -----

  function Kind(p: Pending): string {
    if p.name.Some? then p.name.value else ""
  }

  /** What the standard dispatches for a completed block. */
  function Dispatched(p: Pending): seq<Event> {
    if p.data == [] then [] else [Event(if Kind(p) == [] then "message" else Kind(p), StripNewline(p.data))]
  }

  function AllDispatched(blocks: seq<Pending>): seq<Event> {
    if blocks == [] then [] else Dispatched(blocks[0]) + AllDispatched(blocks[1..])
  }

  lemma BlankRead(lines: seq<string>, p: Pending)
    requires lines != [] && lines[0] == []
    ensures StandardEvents(lines, Kind(p), p.data) == Dispatched(p) + StandardEvents(lines[1..], "", "")
    ensures EndsEvent(lines[0], p) <==> p != NOTHING
    ensures p == NOTHING ==> Dispatched(p) == [] && AfterLine(lines[0], p) == p
  {
    hide StandardName, StandardValue, FieldName, FieldValue;
  }

  lemma FieldRead(lines: seq<string>, p: Pending)
    requires lines != [] && lines[0] != []
    ensures StandardEvents(lines, Kind(p), p.data) ==
              StandardEvents(lines[1..], Kind(AfterLine(lines[0], p)), AfterLine(lines[0], p).data)
    ensures !EndsEvent(lines[0], p)
  {
    hide StandardName, StandardValue, FieldName, FieldValue;
    FieldsAgree(lines[0]);
  }

  /** One line of the standard, in the parser's terms. */
  lemma StandardStep(lines: seq<string>, p: Pending)
    requires lines != []
    ensures StandardEvents(lines, Kind(p), p.data) ==
              if EndsEvent(lines[0], p) then Dispatched(p) + StandardEvents(lines[1..], "", "")
              else StandardEvents(lines[1..], Kind(AfterLine(lines[0], p)), AfterLine(lines[0], p).data)
  {
    hide StandardEvents, EndsEvent, AfterLine, Dispatched;
    if lines[0] == [] {
      BlankRead(lines, p);
      assert [] + StandardEvents(lines[1..], "", "") == StandardEvents(lines[1..], "", "");
    } else {
      FieldRead(lines, p);
    }
  }

  lemma CompletedStep(lines: seq<string>, p: Pending)
    requires lines != []
    ensures AllDispatched(Completed(lines, p)) ==
              if EndsEvent(lines[0], p) then Dispatched(p) + AllDispatched(Completed(lines[1..], NOTHING))
              else AllDispatched(Completed(lines[1..], AfterLine(lines[0], p)))
  {
    hide AfterLine, Dispatched;
    if EndsEvent(lines[0], p) {
      assert ([p] + Completed(lines[1..], NOTHING))[1..] == Completed(lines[1..], NOTHING);
    }
  }

  /** On the same lines the standard completes the same blocks. */
  lemma {:induction false} StandardReads(lines: seq<string>, p: Pending)
    ensures StandardEvents(lines, Kind(p), p.data) == AllDispatched(Completed(lines, p))
    decreases |lines|
  {
    if lines == [] {
      NoLinesRead(p);
    } else {
      hide AfterLine, EndsEvent, StandardEvents, Completed, AllDispatched, Dispatched;
      StandardStep(lines, p);
      CompletedStep(lines, p);
      StandardReads(lines[1..], NOTHING);
      StandardReads(lines[1..], AfterLine(lines[0], p));
    }
  }

  lemma NoLinesRead(p: Pending)
    ensures StandardEvents([], Kind(p), p.data) == AllDispatched(Completed([], p))
  {
  }

  /** A block with data and without an empty name. */
  predicate Regular(p: Pending) {
    p.data != [] && p.name != Some("")
  }

  lemma {:induction false} DispatchedAtMost(blocks: seq<Pending>)
    ensures |AllDispatched(blocks)| <= |blocks| == |EventsOf(blocks)|
  {
    if blocks != [] {
      DispatchedAtMost(blocks[1..]);
    }
  }

  lemma {:induction false} BlocksAgreeExactly(blocks: seq<Pending>)
    ensures EventsOf(blocks) == AllDispatched(blocks) <==> forall i :: 0 <= i < |blocks| ==> Regular(blocks[i])
  {
    hide StripNewline;
    if blocks != [] {
      var rest := blocks[1..];
      BlocksAgreeExactly(rest);
      DispatchedAtMost(rest);
      assert forall i :: 0 < i < |blocks| ==> blocks[i] == rest[i - 1];
      assert EventsOf(blocks)[0] == EventOf(blocks[0]) && EventsOf(blocks)[1..] == EventsOf(rest);
      if blocks[0].data != [] {
        assert AllDispatched(blocks)[0] == Dispatched(blocks[0])[0] && AllDispatched(blocks)[1..] == AllDispatched(rest);
      } else {
        assert AllDispatched(blocks) == AllDispatched(rest);
      }
    }
  }

  /** On the same lines parser and standard dispatch the same events exactly when every completed block
      has data and no empty name. */
  lemma LinesReadAlikeExactly(lines: seq<string>)
    ensures EventsOf(Completed(lines, NOTHING)) == StandardEvents(lines, "", "")
            <==> forall i :: 0 <= i < |Completed(lines, NOTHING)| ==> Regular(Completed(lines, NOTHING)[i])
  {
    hide Completed, StandardEvents, EventsOf, Regular;
    StandardReads(lines, NOTHING);
    BlocksAgreeExactly(Completed(lines, NOTHING));
  }

  // ----- The same text -----

  /** A carriage return that no newline follows. */
  predicate LoneCr(text: string) {
    exists i :: 0 <= i < |text| && LoneCrAt(text, i)
  }

  predicate LoneCrAt(text: string, i: nat) {
    i < |text| && text[i] == '\r' && (i + 1 < |text| ==> text[i + 1] != '\n')
  }

  lemma LoneCrBehind(text: string, n: nat)
    requires n <= |text| && forall i :: 0 <= i < n ==> !LoneCrAt(text, i)
    ensures LoneCr(text) <==> LoneCr(text[n..])
  {
    if LoneCr(text) {
      var i :| 0 <= i < |text| && LoneCrAt(text, i);
      assert LoneCrAt(text[n..], i - n);
    }
    if LoneCr(text[n..]) {
      var i :| 0 <= i < |text[n..]| && LoneCrAt(text[n..], i);
      assert LoneCrAt(text, n + i);
    }
  }

  /** A prefix without newline changes the first of the parser's lines, not their number. */
  lemma SameNumberOfLines(prefix: string, text: string)
    requires NoNewline(prefix)
    ensures |ParserLines(prefix + text)| == |ParserLines(text)|
  {
    hide StripCr, FirstNewline;
    var n := FirstNewline(text);
    NewlineBehind(prefix, text);
    if n < |text| {
      assert (prefix + text)[|prefix| + n + 1..] == text[n + 1..];
    }
  }

  lemma {:induction false} NewlineBehind(prefix: string, text: string)
    requires NoNewline(prefix)
    ensures FirstNewline(prefix + text) == |prefix| + FirstNewline(text)
  {
    if prefix == [] {
      assert prefix + text == text;
    } else {
      assert (prefix + text)[1..] == prefix[1..] + text;
      NewlineBehind(prefix[1..], text);
    }
  }

  /** Without a lone carriage return the lines are the same; with one the standard has more. */
  lemma {:induction false} LinesWithoutBom(text: string)
    ensures |StandardLines(text)| >= |ParserLines(text)|
    ensures if LoneCr(text) then |StandardLines(text)| > |ParserLines(text)| else StandardLines(text) == ParserLines(text)
    decreases |text|
  {
    hide LoneCr, LoneCrAt, ParserLines, StripCr, FirstNewline;
    var n := FirstEnd(text);
    if n == |text| {
      NoLineEnds(text);
    } else if text[n] == '\n' {
      NewlineEnds(text, n);
      LinesWithoutBom(text[n + 1..]);
    } else if n + 1 < |text| && text[n + 1] == '\n' {
      CrLfEnds(text, n);
      LinesWithoutBom(text[n + 2..]);
    } else {
      CrEnds(text, n);
      LinesWithoutBom(text[n + 1..]);
    }
  }

  lemma NoLineEnds(text: string)
    requires FirstEnd(text) == |text|
    ensures ParserLines(text) == [] && !LoneCr(text)
  {
    assert forall i :: 0 <= i < |text| ==> text[i] != '\n' && text[i] != '\r';
  }

  lemma NewlineEnds(text: string, n: nat)
    requires n == FirstEnd(text) < |text| && text[n] == '\n'
    ensures ParserLines(text) == [text[..n]] + ParserLines(text[n + 1..])
    ensures LoneCr(text) <==> LoneCr(text[n + 1..])
  {
    hide LoneCr, ParserLines, FirstNewline, FirstEnd;
    FirstNewlineAfter(text[..n], text);
    ParserFirst(text);
    assert StripCr(text[..n]) == text[..n];
    LoneCrBehind(text, n + 1);
  }

  lemma ParserFirst(text: string)
    ensures var n := FirstNewline(text);
            ParserLines(text) == if n == |text| then [] else [StripCr(text[..n])] + ParserLines(text[n + 1..])
  {
    hide StripCr, FirstNewline;
  }

  lemma CrLfEnds(text: string, n: nat)
    requires n == FirstEnd(text) < |text| && text[n] == '\r' && n + 1 < |text| && text[n + 1] == '\n'
    ensures ParserLines(text) == [text[..n]] + ParserLines(text[n + 2..])
    ensures LoneCr(text) <==> LoneCr(text[n + 2..])
  {
    hide LoneCr, ParserLines, FirstNewline, FirstEnd;
    FirstNewlineAfter(text[..n + 1], text);
    ParserFirst(text);
    assert StripCr(text[..n + 1]) == text[..n];
    LoneCrBehind(text, n + 2);
  }

  lemma CrEnds(text: string, n: nat)
    requires n == FirstEnd(text) < |text| && text[n] == '\r' && (n + 1 < |text| ==> text[n + 1] != '\n')
    ensures |ParserLines(text)| == |ParserLines(text[n + 1..])| && LoneCr(text)
  {
    assert LoneCrAt(text, n);
    assert text == text[..n + 1] + text[n + 1..];
    SameNumberOfLines(text[..n + 1], text[n + 1..]);
  }

  /** Parser and standard take the same lines exactly when no carriage return stands alone and no byte
      order mark leads a first line. */
  lemma LinesAgreeExactly(text: string)
    ensures ParserLines(text) == StandardLines(WithoutBom(text))
            <==> !LoneCr(text) && !(BOM <= text && ParserLines(text) != [])
  {
    hide LoneCr, ParserLines, StandardLines;
    LinesWithoutBom(WithoutBom(text));
    if BOM <= text {
      var u := text[|BOM|..];
      assert text == BOM + u;
      assert forall i :: 0 <= i < |BOM| ==> text[i] == BOM[i];
      LoneCrBehind(text, |BOM|);
      SameNumberOfLines(BOM, u);
      BomStays(u);
    }
  }

  /** The parser keeps a leading byte order mark in its first line. */
  lemma BomStays(u: string)
    ensures ParserLines(BOM + u) != [] ==> ParserLines(u) != [] && ParserLines(BOM + u)[0] != ParserLines(u)[0]
  {
    NewlineBehind(BOM, u);
    SameNumberOfLines(BOM, u);
    var n := FirstNewline(u);
    if n < |u| {
      var x := (BOM + u)[..|BOM| + n];
      assert x == BOM + u[..n];
      StripAfter(BOM, u[..n]);
      assert |StripCr(x)| == |BOM| + |StripCr(u[..n])|;
    }
  }

  /** For every text: lines and events are both the standard's exactly when no carriage return stands
      alone, no byte order mark leads a line, and every completed block has data and no empty name. */
  lemma ParserIsStandard(text: string)
    ensures ParserLines(text) == StandardLines(WithoutBom(text)) && Drain(State(text, NOTHING)).0 == Standard(text)
            <==>
            && !LoneCr(text) && !(BOM <= text && ParserLines(text) != [])
            && forall i :: 0 <= i < |Completed(ParserLines(text), NOTHING)| ==> Regular(Completed(ParserLines(text), NOTHING)[i])
  {
    hide *;
    LinesAgreeExactly(text);
    ParserReads(text, NOTHING);
    LinesReadAlikeExactly(ParserLines(text));
    StandardIs(text);
  }

  lemma StandardIs(text: string)
    ensures Standard(text) == StandardEvents(StandardLines(WithoutBom(text)), "", "")
  {
  }

  // ----- One text for each difference -----

  predicate Plain(s: string) {
    forall i :: 0 <= i < |s| ==> !Ends(s[i])
  }

  /** A plain line in front of a text. */
  lemma PlainLine(line: string, rest: string)
    requires Plain(line)
    ensures ParserLines(line + "\n" + rest) == [line] + ParserLines(rest)
    ensures StandardLines(line + "\n" + rest) == [line] + StandardLines(rest)
    ensures rest != [] && rest[0] != '\n' ==> StandardLines(line + "\r" + rest) == [line] + StandardLines(rest)
  {
    hide ParserLines, StandardLines;
    LineThen(line, "\n", rest);
    LineThen(line, "\r", rest);
    NewlineEnds(line + "\n" + rest, |line|);
    StandardFirst(line + "\n" + rest);
    StandardFirst(line + "\r" + rest);
  }

  lemma StandardFirst(text: string)
    ensures var n := FirstEnd(text);
            n < |text| ==>
              StandardLines(text) ==
              [text[..n]] + StandardLines(text[if text[n] == '\r' && n + 1 < |text| && text[n + 1] == '\n' then n + 2 else n + 1..])
  {
    hide FirstEnd;
  }

  lemma LineThen(line: string, end: string, rest: string)
    requires Plain(line) && |end| == 1 && Ends(end[0])
    ensures var s := line + end + rest;
            && FirstEnd(s) == |line| && s[|line|] == end[0] && s[..|line|] == line && s[|line| + 1..] == rest
            && (rest != [] ==> s[|line| + 1] == rest[0])
  {
    FirstEndAfter(line, line + end + rest);
  }

  lemma {:induction false} FirstEndAfter(line: string, s: string)
    requires Plain(line) && line < s && Ends(s[|line|])
    ensures FirstEnd(s) == |line|
  {
    if line != [] {
      FirstEndAfter(line[1..], s[1..]);
    }
  }

  lemma NoLines()
    ensures ParserLines("") == [] && StandardLines("") == [] && Completed([], NOTHING) == [] && EventsOf([]) == []
  {
  }

  /** A text whose parser lines are a field line and a blank one. */
  lemma TwoLines(line: string, p: Pending)
    requires line != [] && NoNewline(line) && (line[|line| - 1] != '\r') && p == AfterLine(line, NOTHING)
    ensures Drain(State(line + "\n" + "\n", NOTHING)).0 == if p == NOTHING then [] else [EventOf(p)]
  {
    hide AfterLine, EventOf, FirstNewline, ParserLines, Drain, Completed, EventsOf;
    var text := line + "\n" + "\n";
    ParserReads(text, NOTHING);
    FirstNewlineAfter(line, text);
    assert text[..|line|] == line && text[|line| + 1..] == "\n";
    ParserFirst(text);
    BlankLine();
    BlockOfTwo(line, p);
  }

  lemma BlockOfTwo(line: string, p: Pending)
    requires line != [] && p == AfterLine(line, NOTHING)
    ensures EventsOf(Completed([line] + [""], NOTHING)) == if p == NOTHING then [] else [EventOf(p)]
  {
    hide AfterLine, EventOf;
    assert ([line] + [""])[1..] == [""] && [""][1..] == [];
    assert Completed([""], p) == if p == NOTHING then [] else [p];
    assert [EventOf(p)] + EventsOf([]) == [EventOf(p)] && (p != NOTHING ==> [p][1..] == []);
  }

  lemma BlankLine()
    ensures ParserLines("\n") == [""] && StandardLines("\n") == [""]
  {
    assert "\n"[1..] == "" && "\n"[..0] == "";
    NoLines();
  }

  /** The blocks of one field line, or two, and a blank line. */
  lemma BlockOfLines(first: string, second: string, p: Pending, q: Pending)
    requires first != [] && second != [] && p == AfterLine(first, NOTHING) && q == AfterLine(second, p)
    ensures Completed([first] + [""], NOTHING) == if p == NOTHING then [] else [p]
    ensures Completed([first, second] + [""], NOTHING) == if q == NOTHING then [] else [q]
  {
    hide AfterLine;
    assert ([first] + [""])[1..] == [""] && ([first, second] + [""])[1..] == [second, ""] && [second, ""][1..] == [""] && [""][1..] == [];
    assert Completed([""], p) == (if p == NOTHING then [] else [p]) && Completed([""], q) == (if q == NOTHING then [] else [q]);
  }

  /** A name without data: the parser dispatches an event, the standard none. */
  lemma NameWithoutData(name: string)
    requires Plain(name)
    ensures var text := ("event: " + name) + "\n" + "\n";
            Drain(State(text, NOTHING)).0 == [Event(name, "")] && Standard(text) == []
  {
    hide AfterLine, Drain, StandardLines, StandardEvents, Completed, FieldName, FieldValue;
    var line, p := "event: " + name, Pending(Some(name), "");
    FieldTaken("event", name, NOTHING);
    assert line == "event" + ": " + name;
    TwoLines(line, p);
    BlockOfLines(line, line, p, AfterLine(line, p));
    PlainLine(line, "\n");
    BlankLine();
    NoBom(line + "\n" + "\n");
    StandardOfBlock(line + "\n" + "\n", p);
  }

  lemma FieldTaken(field: string, value: string, p: Pending)
    requires field == "event" || field == "data"
    ensures var line := field + ": " + value;
            && line != []
            && AfterLine(line, p) == if field == "event" then p.(name := Some(value)) else p.(data := p.data + value + "\n")
  {
    FieldLine(field, value);
  }

  lemma NoBom(text: string)
    requires text != [] && text[0] as int < 0x80
    ensures WithoutBom(text) == text
  {
    assert BOM[0] as int == 0xEF;
  }

  /** An empty name: the parser keeps it, the standard takes `message`. */
  lemma EmptyName(value: string)
    requires Plain(value)
    ensures var text := "event: " + "\n" + (("data: " + value) + "\n" + "\n");
            Drain(State(text, NOTHING)).0 == [Event("", value)] && Standard(text) == [Event("message", value)]
  {
    hide AfterLine, Drain, StandardLines, StandardEvents, ParserLines, Completed, FieldName, FieldValue, WithoutBom, Standard;
    var first, second := "event: ", "data: " + value;
    var text := first + "\n" + (second + "\n" + "\n");
    var p := Pending(Some(""), "");
    var q := Pending(Some(""), value + "\n");
    FieldTaken("event", "", NOTHING);
    FieldTaken("data", value, p);
    assert first == "event" + ": " + "" && second == "data" + ": " + value && "" + value + "\n" == value + "\n";
    BlockOfLines(first, second, p, q);
    PlainLine(first, second + "\n" + "\n");
    PlainLine(second, "\n");
    BlankLine();
    assert [first] + ([second] + [""]) == [first, second] + [""];
    assert text[0] == 'e';
    NoBom(text);
    ParserOfBlock(text, q);
    StandardOfBlock(text, q);
    LastNewlineStripped(value);
  }

  /** A lone carriage return: the parser keeps it in the value, to the standard it ends the line. */
  lemma LoneCrInData(v: string, w: string)
    requires Plain(v) && Plain(w)
    ensures var text := ("data: " + v + "\r" + ("data: " + w)) + "\n" + "\n";
            && Drain(State(text, NOTHING)).0 == [Event("message", v + "\r" + ("data: " + w))]
            && Standard(text) == [Event("message", v + "\n" + w)]
  {
    hide AfterLine, Drain, Standard;
    LoneCrParsed(v, "data: " + w);
    LoneCrInStandard(v, w);
  }

  lemma LoneCrParsed(v: string, second: string)
    requires Plain(v) && Plain(second) && second != []
    ensures Drain(State(("data: " + v + "\r" + second) + "\n" + "\n", NOTHING)).0 == [Event("message", v + "\r" + second)]
  {
    hide AfterLine, Drain;
    var value := v + "\r" + second;
    FieldTaken("data", value, NOTHING);
    assert "data: " + v + "\r" + second == "data" + ": " + value;
    assert "" + value + "\n" == value + "\n";
    TwoLines("data: " + v + "\r" + second, Pending(None, value + "\n"));
    LastNewlineStripped(value);
  }

  lemma LoneCrInStandard(v: string, w: string)
    requires Plain(v) && Plain(w)
    ensures Standard(("data: " + v + "\r" + ("data: " + w)) + "\n" + "\n") == [Event("message", v + "\n" + w)]
  {
    hide AfterLine, StandardLines, StandardEvents, Completed, FieldName, FieldValue, WithoutBom, Standard;
    var first, second := "data: " + v, "data: " + w;
    var text := (first + "\r" + second) + "\n" + "\n";
    var p, q := Pending(None, v + "\n"), Pending(None, v + "\n" + w + "\n");
    FieldTaken("data", v, NOTHING);
    FieldTaken("data", w, p);
    assert first == "data" + ": " + v && second == "data" + ": " + w && "" + v + "\n" == v + "\n";
    BlockOfLines(first, second, p, q);
    assert text == first + "\r" + (second + "\n" + "\n");
    LinesAtCr(first, second);
    NoBom(text);
    StandardOfBlock(text, q);
    LastNewlineStripped(v + "\n" + w);
  }

  lemma LinesAtCr(first: string, second: string)
    requires Plain(first) && Plain(second) && second != []
    ensures StandardLines(first + "\r" + (second + "\n" + "\n")) == [first, second] + [""]
  {
    hide StandardLines;
    assert (second + "\n" + "\n")[0] == second[0];
    PlainLine(first, second + "\n" + "\n");
    PlainLine(second, "\n");
    BlankLine();
  }

  lemma ParserOfBlock(text: string, q: Pending)
    requires Completed(ParserLines(text), NOTHING) == if q == NOTHING then [] else [q]
    ensures Drain(State(text, NOTHING)).0 == if q == NOTHING then [] else [EventOf(q)]
  {
    hide ParserLines, Completed, Drain;
    ParserReads(text, NOTHING);
    assert q != NOTHING ==> [q][1..] == [] && [EventOf(q)] + [] == [EventOf(q)];
  }

  lemma StandardOfBlock(text: string, q: Pending)
    requires Completed(StandardLines(WithoutBom(text)), NOTHING) == if q == NOTHING then [] else [q]
    ensures Standard(text) == if q == NOTHING then [] else Dispatched(q)
  {
    hide StandardLines, Completed, StandardEvents;
    StandardReads(StandardLines(WithoutBom(text)), NOTHING);
    assert q != NOTHING ==> [q][1..] == [] && Dispatched(q) + [] == Dispatched(q);
  }

  /** A leading byte order mark: the parser takes it for a part of the first field's name. */
  lemma LeadingBom(value: string)
    requires Plain(value)
    ensures var text := (BOM + ("data: " + value)) + "\n" + "\n";
            Drain(State(text, NOTHING)).0 == [] && Standard(text) == [Event("message", value)]
  {
    hide AfterLine, Drain, StandardLines, StandardEvents, ParserLines, Completed, FieldValue, Standard;
    var line := "data: " + value;
    var text := (BOM + line) + "\n" + "\n";
    var p := Pending(None, value + "\n");
    MarkedField(value);
    TwoLines(BOM + line, NOTHING);
    FieldTaken("data", value, NOTHING);
    assert line == "data" + ": " + value && "" + value + "\n" == value + "\n";
    BlockOfLines(line, line, p, AfterLine(line, p));
    assert text == BOM + (line + "\n" + "\n");
    PlainLine(line, "\n");
    BlankLine();
    StandardOfBlock(text, p);
    LastNewlineStripped(value);
  }

  lemma MarkedField(value: string)
    ensures AfterLine(BOM + ("data: " + value), NOTHING) == NOTHING
  {
    var line, field := BOM + ("data: " + value), BOM + "data";
    assert line[..|field|] == field && line[|field|] == ':';
    assert field[0] == BOM[0];
    ColonAfter(field, line);
  }

  /** A lone carriage return can also change nothing, so its absence is not necessary for equal events:
      here it stands in a comment in front of a comment. */
  lemma HarmlessCr()
    ensures var text := ":\r:" + "\n" + "\n";
            LoneCr(text) && Drain(State(text, NOTHING)).0 == [] && Standard(text) == []
  {
    hide Drain, StandardLines, StandardEvents, ParserLines, WithoutBom, Standard, FieldName;
    var text := ":\r:" + "\n" + "\n";
    assert LoneCrAt(text, 1);
    TwoLines(":\r:", NOTHING);
    assert text == ":" + "\r" + (":" + "\n" + "\n") && (":" + "\n" + "\n")[0] == ':';
    PlainLine(":", ":" + "\n" + "\n");
    PlainLine(":", "\n");
    BlankLine();
    BlockOfLines(":", ":", NOTHING, NOTHING);
    assert [":"] + ([":"] + [""]) == [":", ":"] + [""];
    assert text[0] == ':';
    NoBom(text);
    StandardOfBlock(text, NOTHING);
  }
}
