/** The parser's events do not depend on how the stream was cut into chunks, and an encoded list of
    events parses back. */
module SseLaws {
  import opened Sse
  import opened Texts
  import opened Wrappers
  import Utf8

  // ----- Chunks -----

  /** All events the buffer still holds, and the state after the last of them. */
  function Drain(s: State): (r: (seq<Event>, State))
    decreases |s.buf|
  {
    var (e, t) := Next(s);
    if e.None? then ([], t) else ([e.value] + Drain(t).0, Drain(t).1)
  }

  function Fed(s: State, bytes: string): State {
    s.(buf := s.buf + bytes)
  }

  lemma FirstNewlineThen(s: string, x: string)
    requires FirstNewline(s) < |s|
    ensures FirstNewline(s + x) == FirstNewline(s)
    ensures (s + x)[..FirstNewline(s)] == s[..FirstNewline(s)]
    ensures (s + x)[FirstNewline(s) + 1..] == s[FirstNewline(s) + 1..] + x
  {
    var n := FirstNewline(s);
    BeforeFirstNewline(s);
    FirstNewlineAfter(s[..n], s + x);
  }

  /** An event that is complete is not changed by what is fed later; without one, the lines that
      were taken can be taken before or after feeding. */
  lemma {:induction false} NextThenFed(s: State, x: string)
    ensures Next(s).0.Some? ==> Next(Fed(s, x)) == (Next(s).0, Fed(Next(s).1, x))
    ensures Next(s).0.None? ==> Next(Fed(s, x)) == Next(Fed(Next(s).1, x))
    decreases |s.buf|
  {
    hide AfterLine, EndsEvent, EventOf, StripCr, FirstNewline;
    var n := FirstNewline(s.buf);
    if n < |s.buf| {
      FirstNewlineThen(s.buf, x);
      var line, rest := StripCr(s.buf[..n]), s.buf[n + 1..];
      if !EndsEvent(line, s.pending) {
        NextThenFed(State(rest, AfterLine(line, s.pending)), x);
      }
    }
  }

  function Taken(e: Option<Event>): seq<Event> {
    if e.Some? then [e.value] else []
  }

  lemma DrainByNext(a: State, b: State)
    requires Next(a) == Next(b)
    ensures Drain(a) == Drain(b)
  {
    hide Next;
  }

  lemma DrainAfterNext(a: State, e: Event, t: State)
    requires Next(a) == (Some(e), t)
    ensures Drain(a) == ([e] + Drain(t).0, Drain(t).1)
  {
    hide Next;
  }

  lemma TakeThenFeed(s: State, x: string)
    ensures var (e, t) := Next(s);
            Drain(Fed(s, x)) == (Taken(e) + Drain(Fed(t, x)).0, Drain(Fed(t, x)).1)
  {
    hide Next, Drain, Fed;
    NextThenFed(s, x);
    var (e, t) := Next(s);
    if e.None? {
      DrainByNext(Fed(s, x), Fed(t, x));
      assert [] + Drain(Fed(t, x)).0 == Drain(Fed(t, x)).0;
    } else {
      DrainAfterNext(Fed(s, x), e.value, Fed(t, x));
    }
  }

  datatype Op = Feed(bytes: string) | TakeNext

  /** Feeding and taking in any order: the events taken, and the parser's state. */
  function Run(s: State, ops: seq<Op>): (seq<Event>, State)
    decreases |ops|
  {
    if ops == [] then ([], s)
    else match ops[0]
      case Feed(bytes) => Run(Fed(s, if Utf8.Valid(bytes) then bytes else ""), ops[1..])
      case TakeNext =>
        var (e, t) := Next(s);
        var rest := Run(t, ops[1..]);
        (Taken(e) + rest.0, rest.1)
  }

  /** The stream that the chunks carry: those that are UTF-8, in order. */
  function Stream(ops: seq<Op>): string {
    if ops == [] then []
    else (if ops[0].Feed? && Utf8.Valid(ops[0].bytes) then ops[0].bytes else []) + Stream(ops[1..])
  }

  /** However the stream is cut and whenever events are taken, the events taken and the events left
      are those of one feed of the whole stream, and so is the final state. */
  lemma {:induction false} ChunksDoNotMatter(s: State, ops: seq<Op>)
    ensures var (taken, t) := Run(s, ops);
            && taken + Drain(t).0 == Drain(Fed(s, Stream(ops))).0
            && Drain(t).1 == Drain(Fed(s, Stream(ops))).1
    decreases |ops|
  {
    hide Next, Drain, Utf8.Valid, Stream;
    StreamFirst(ops);
    if ops == [] {
      assert Fed(s, []) == s;
    } else {
      var later := Stream(ops[1..]);
      match ops[0]
      case Feed(bytes) =>
        var kept := if Utf8.Valid(bytes) then bytes else "";
        ChunksDoNotMatter(Fed(s, kept), ops[1..]);
        FedTwice(s, kept, later);
      case TakeNext =>
        var (e, t) := Next(s);
        ChunksDoNotMatter(t, ops[1..]);
        TakeThenFeed(s, later);
        Regroup(Taken(e), Run(t, ops[1..]).0, Drain(Run(t, ops[1..]).1).0);
    }
  }

  lemma StreamFirst(ops: seq<Op>)
    ensures Stream(ops) ==
            if ops == [] then []
            else if ops[0].Feed? then (if Utf8.Valid(ops[0].bytes) then ops[0].bytes else "") + Stream(ops[1..])
            else Stream(ops[1..])
  {
    hide Utf8.Valid;
  }

  lemma Regroup(a: seq<Event>, b: seq<Event>, c: seq<Event>)
    ensures a + b + c == a + (b + c)
  {
  }

  /** Chunks that are each UTF-8 carry the whole stream, which then is UTF-8; and only they do. */
  lemma {:induction false} StreamIsWhole(chunks: seq<string>)
    ensures Stream(Feeds(chunks)) == Concat(chunks) <==> forall i :: 0 <= i < |chunks| ==> Utf8.Valid(chunks[i])
    ensures |Stream(Feeds(chunks))| <= |Concat(chunks)|
    ensures Utf8.Valid(Stream(Feeds(chunks)))
  {
    if chunks != [] {
      var rest := chunks[1..];
      StreamIsWhole(rest);
      assert Feeds(chunks)[1..] == Feeds(rest);
      var a, b := chunks[0], Stream(Feeds(rest));
      if Utf8.Valid(a) {
        Utf8.ValidThen(a, b);
        assert (a + b)[|a|..] == b && (a + Concat(rest))[|a|..] == Concat(rest);
        assert forall i :: 0 < i < |chunks| ==> chunks[i] == rest[i - 1];
      } else {
        assert Stream(Feeds(chunks)) == b;
      }
    }
  }

  function Feeds(chunks: seq<string>): seq<Op> {
    if chunks == [] then [] else [Feed(chunks[0])] + Feeds(chunks[1..])
  }

  function Concat(chunks: seq<string>): string {
    if chunks == [] then [] else chunks[0] + Concat(chunks[1..])
  }

  // ----- What a loop over chunks needs -----

  lemma EmptyParserHasNothing()
    ensures Next(State("", NOTHING)).0 == None
  {
  }

  lemma NextShrinks(s: State)
    requires Next(s).0.Some?
    ensures |Next(s).1.buf| < |s.buf|
  {
  }

  /** When no event is left, none appears by asking again. */
  lemma {:induction false} NothingAfterNone(s: State)
    requires Next(s).0.None?
    ensures Next(Next(s).1) == Next(s)
    decreases |s.buf|
  {
    hide AfterLine, EndsEvent, EventOf, StripCr;
    var n := FirstNewline(s.buf);
    if n < |s.buf| {
      var line, rest := StripCr(s.buf[..n]), s.buf[n + 1..];
      NothingAfterNone(State(rest, AfterLine(line, s.pending)));
    }
  }

  lemma StreamOfFirst(chunks: seq<string>)
    requires chunks != []
    ensures Stream(Feeds(chunks)) ==
              (if Utf8.Valid(chunks[0]) then chunks[0] else "") + Stream(Feeds(chunks[1..]))
  {
    hide Utf8.Valid;
    var rest := Feeds(chunks[1..]);
    assert Feeds(chunks) == [Feed(chunks[0])] + rest && ([Feed(chunks[0])] + rest)[1..] == rest;
  }

  lemma FedTwice(s: State, x: string, y: string)
    ensures Fed(Fed(s, x), y) == Fed(s, x + y)
  {
    assert s.buf + x + y == s.buf + (x + y);
  }

  /** The first of some chunks is fed, the stream of the others is still to come. */
  lemma FeedOne(s: State, chunks: seq<string>)
    requires chunks != []
    ensures var kept := if Utf8.Valid(chunks[0]) then chunks[0] else "";
            Fed(s, Stream(Feeds(chunks))) == Fed(Fed(s, kept), Stream(Feeds(chunks[1..])))
  {
    hide *;
    StreamOfFirst(chunks);
    FedTwice(s, if Utf8.Valid(chunks[0]) then chunks[0] else "", Stream(Feeds(chunks[1..])));
  }

  lemma DrainedParser(s: State)
    requires Next(s).0 == None
    ensures Drain(Fed(s, Stream(Feeds([])))).0 == []
  {
    assert Fed(s, []) == s;
  }

  // ----- Lines -----

  /** The text of a list of lines. */
  function Text(lines: seq<string>): string {
    if lines == [] then [] else lines[0] + "\n" + Text(lines[1..])
  }

  /** What a list of lines amounts to: the events it completes and the fields left over. */
  function Interpret(lines: seq<string>, p: Pending): (seq<Event>, Pending)
    decreases |lines|
  {
    if lines == [] then ([], p)
    else
      var line := StripCr(lines[0]);
      if EndsEvent(line, p) then
        var rest := Interpret(lines[1..], NOTHING);
        ([EventOf(p)] + rest.0, rest.1)
      else Interpret(lines[1..], AfterLine(line, p))
  }

  lemma {:induction false} DrainInterprets(lines: seq<string>, p: Pending)
    requires forall i :: 0 <= i < |lines| ==> NoNewline(lines[i])
    ensures Drain(State(Text(lines), p)) == (Interpret(lines, p).0, State("", Interpret(lines, p).1))
    decreases |lines|
  {
    if lines != [] {
      var s := Text(lines);
      FirstNewlineAfter(lines[0], s);
      assert s[..|lines[0]|] == lines[0] && s[|lines[0]| + 1..] == Text(lines[1..]);
      var line := StripCr(lines[0]);
      if EndsEvent(line, p) {
        DrainInterprets(lines[1..], NOTHING);
      } else {
        DrainInterprets(lines[1..], AfterLine(line, p));
      }
    }
  }

  /** Comments and the fields the parser ignores: `id`, `retry` and unknown ones. */
  predicate Ignored(rawLine: string) {
    var line := StripCr(rawLine);
    line != [] && (line[0] == ':' || (FieldName(line) != "event" && FieldName(line) != "data"))
  }

  function Relevant(lines: seq<string>): seq<string> {
    if lines == [] then []
    else (if Ignored(lines[0]) then [] else [lines[0]]) + Relevant(lines[1..])
  }

  /** Ignored lines may stand anywhere. */
  lemma {:induction false} IgnoredLinesDoNotMatter(lines: seq<string>, p: Pending)
    ensures Interpret(lines, p) == Interpret(Relevant(lines), p)
    decreases |lines|
  {
    if lines != [] {
      var line := StripCr(lines[0]);
      var rest := Relevant(lines[1..]);
      if Ignored(lines[0]) {
        assert Relevant(lines) == rest;
        IgnoredLinesDoNotMatter(lines[1..], p);
      } else {
        assert Relevant(lines)[1..] == rest;
        IgnoredLinesDoNotMatter(lines[1..], NOTHING);
        IgnoredLinesDoNotMatter(lines[1..], AfterLine(line, p));
      }
    }
  }

  // ----- Encoded events -----

  function DataLines(parts: seq<string>): seq<string> {
    if parts == [] then [] else ["data: " + parts[0]] + DataLines(parts[1..])
  }

  function EventLines(e: Event): seq<string> {
    ["event: " + e.name] + DataLines(Split(e.data)) + [""]
  }

  function Encode(events: seq<Event>): seq<string> {
    if events == [] then [] else EventLines(events[0]) + Encode(events[1..])
  }

  /** Lines without a trailing carriage return each, joined by newlines. */
  function JoinStripped(parts: seq<string>): string
    requires parts != []
  {
    if |parts| == 1 then StripCr(parts[0]) else StripCr(parts[0]) + "\n" + JoinStripped(parts[1..])
  }

  /** The event as it comes back: a carriage return before a line end is lost. */
  function Received(e: Event): Event {
    Event(StripCr(e.name), JoinStripped(Split(e.data)))
  }

  function ReceivedAll(events: seq<Event>): seq<Event> {
    if events == [] then [] else [Received(events[0])] + ReceivedAll(events[1..])
  }

  lemma FieldLine(field: string, value: string)
    requires field == "event" || field == "data"
    ensures var line := field + ": " + value;
            line != [] && line[0] != ':' && FieldName(line) == field && FieldValue(line) == value
  {
    var line := field + ": " + value;
    ColonAfter(field, line);
    assert line[|field|] == ':' && line[|field| + 1] == ' ' && line[|field| + 2..] == value;
    assert line[..|field|] == field;
  }

  lemma {:induction false} ColonAfter(field: string, line: string)
    requires ':' !in field && field < line && line[|field|] == ':'
    ensures FindColon(line) == |field|
  {
    if field != [] {
      assert field == [field[0]] + field[1..];
      ColonAfter(field[1..], line[1..]);
    }
  }

  lemma StripAfter(prefix: string, value: string)
    requires prefix != [] && prefix[|prefix| - 1] != '\r'
    ensures StripCr(prefix + value) == prefix + StripCr(value)
  {
    if value == [] {
      assert prefix + value == prefix;
    } else {
      assert (prefix + value)[|prefix + value| - 1] == value[|value| - 1];
    }
  }

  lemma EventLineTaken(name: string, p: Pending)
    ensures var line := StripCr("event: " + name);
            line != [] && AfterLine(line, p) == p.(name := Some(StripCr(name)))
  {
    StripAfter("event: ", name);
    FieldLine("event", StripCr(name));
    assert "event" + ": " + StripCr(name) == "event: " + StripCr(name);
  }

  lemma DataLineTaken(value: string, p: Pending)
    ensures var line := StripCr("data: " + value);
            line != [] && AfterLine(line, p) == p.(data := p.data + StripCr(value) + "\n")
  {
    StripAfter("data: ", value);
    FieldLine("data", StripCr(value));
    assert "data" + ": " + StripCr(value) == "data: " + StripCr(value);
  }

  lemma InterpretField(raw: string, more: seq<string>, p: Pending, q: Pending)
    requires StripCr(raw) != [] && AfterLine(StripCr(raw), p) == q
    ensures Interpret([raw] + more, p) == Interpret(more, q)
  {
    hide StripCr, AfterLine;
    assert ([raw] + more)[1..] == more;
  }

  lemma InterpretBlank(more: seq<string>, p: Pending)
    requires p != NOTHING
    ensures Interpret([""] + more, p) == ([EventOf(p)] + Interpret(more, NOTHING).0, Interpret(more, NOTHING).1)
  {
    hide AfterLine, EventOf;
    assert ([""] + more)[1..] == more;
  }

  /** Data lines collect their values, and the blank line after them ends the event. */
  lemma {:induction false} DataLinesTaken(parts: seq<string>, p: Pending, rest: seq<string>)
    requires parts != [] && p.name.Some?
    ensures Interpret(DataLines(parts) + ([""] + rest), p) ==
              ([Event(p.name.value, p.data + JoinStripped(parts))] + Interpret(rest, NOTHING).0,
               Interpret(rest, NOTHING).1)
    decreases |parts|
  {
    hide AfterLine, StripCr, Interpret;
    var more := DataLines(parts[1..]) + ([""] + rest);
    var q := p.(data := p.data + StripCr(parts[0]) + "\n");
    DataLineTaken(parts[0], p);
    InterpretField("data: " + parts[0], more, p, q);
    assert DataLines(parts) + ([""] + rest) == ["data: " + parts[0]] + more;
    CollectedData(p.data, parts);
    if |parts| == 1 {
      assert more == [""] + rest;
      InterpretBlank(rest, q);
    } else {
      DataLinesTaken(parts[1..], q, rest);
    }
  }

  lemma CollectedData(data: string, parts: seq<string>)
    requires parts != []
    ensures var longer := data + StripCr(parts[0]) + "\n";
            data + JoinStripped(parts) ==
              if |parts| == 1 then StripNewline(longer) else longer + JoinStripped(parts[1..])
  {
    hide StripCr;
    var value := StripCr(parts[0]);
    if |parts| == 1 {
      LastNewlineStripped(data + value);
    } else {
      Regrouped(data, value, JoinStripped(parts[1..]));
    }
  }

  lemma LastNewlineStripped(s: string)
    ensures StripNewline(s + "\n") == s
  {
    assert (s + "\n")[..|s|] == s;
  }

  lemma Regrouped(a: string, b: string, c: string)
    ensures a + (b + "\n" + c) == a + b + "\n" + c
  {
  }

  lemma EncodeFirst(events: seq<Event>)
    requires events != []
    ensures Encode(events) ==
              ["event: " + events[0].name] + (DataLines(Split(events[0].data)) + ([""] + Encode(events[1..])))
  {
    hide Split, DataLines;
  }

  /** One encoded event in front of other lines. */
  lemma OneReceived(e: Event, rest: seq<string>)
    ensures Interpret(["event: " + e.name] + (DataLines(Split(e.data)) + ([""] + rest)), NOTHING) ==
              ([Received(e)] + Interpret(rest, NOTHING).0, Interpret(rest, NOTHING).1)
  {
    hide AfterLine, StripCr, Interpret, Split, DataLines, JoinStripped;
    var p := Pending(Some(StripCr(e.name)), "");
    EventLineTaken(e.name, NOTHING);
    InterpretField("event: " + e.name, DataLines(Split(e.data)) + ([""] + rest), NOTHING, p);
    DataLinesTaken(Split(e.data), p, rest);
    assert "" + JoinStripped(Split(e.data)) == JoinStripped(Split(e.data));
  }

  lemma NothingInterpreted()
    ensures Interpret(Encode([]), NOTHING) == (ReceivedAll([]), NOTHING)
  {
  }

  /** Interpreting encoded events gives each of them back, less the carriage returns at line ends. */
  lemma {:induction false} EncodedAreReceived(events: seq<Event>)
    ensures Interpret(Encode(events), NOTHING) == (ReceivedAll(events), NOTHING)
  {
    hide Interpret, Encode, Received, DataLines, Split;
    if events == [] {
      NothingInterpreted();
    } else {
      EncodedAreReceived(events[1..]);
      EncodeFirst(events);
      OneReceived(events[0], Encode(events[1..]));
    }
  }

  // ----- Main round trip -----

  /** Neither the name nor a line of the data ends in a carriage return. */
  predicate NoCrAtLineEnd(e: Event) {
    StripCr(e.name) == e.name && forall i :: 0 <= i < |Split(e.data)| ==> StripCr(Split(e.data)[i]) == Split(e.data)[i]
  }

  lemma {:induction false} StrippedLength(parts: seq<string>)
    requires parts != []
    ensures |JoinStripped(parts)| <= |Join(parts)|
    ensures JoinStripped(parts) == Join(parts) <==> forall i :: 0 <= i < |parts| ==> StripCr(parts[i]) == parts[i]
    decreases |parts|
  {
    if |parts| > 1 {
      StrippedLength(parts[1..]);
      var a, b := StripCr(parts[0]) + "\n", JoinStripped(parts[1..]);
      var c, d := parts[0] + "\n", Join(parts[1..]);
      assert forall i :: 0 < i < |parts| ==> parts[i] == parts[1..][i - 1];
      if a + b == c + d {
        assert |a| == |c|;
        assert (a + b)[|a|..] == b && (c + d)[|c|..] == d;
      }
    }
  }

  lemma ReceivedUnchanged(e: Event)
    ensures Received(e) == e <==> NoCrAtLineEnd(e)
  {
    hide Split, StripCr, JoinStripped, Join;
    SplitThenJoin(e.data);
    StrippedLength(Split(e.data));
  }

  lemma {:induction false} AllReceivedUnchanged(events: seq<Event>)
    ensures ReceivedAll(events) == events <==> forall i :: 0 <= i < |events| ==> NoCrAtLineEnd(events[i])
  {
    hide Received, NoCrAtLineEnd;
    if events != [] {
      ReceivedUnchanged(events[0]);
      AllReceivedUnchanged(events[1..]);
      assert events == [events[0]] + events[1..];
      assert forall i :: 0 < i < |events| ==> events[i] == events[1..][i - 1];
      assert ReceivedAll(events)[0] == Received(events[0]) && ReceivedAll(events)[1..] == ReceivedAll(events[1..]);
    }
  }

  /** An encoded list of events, with ignored lines inserted anywhere, parses to the same events, up
      to carriage returns at line ends; nothing is left over. */
  lemma EncodedThenParsed(events: seq<Event>, lines: seq<string>)
    requires forall i :: 0 <= i < |events| ==> NoNewline(events[i].name)
    requires forall i :: 0 <= i < |lines| ==> NoNewline(lines[i])
    requires Relevant(lines) == Encode(events)
    ensures Drain(State(Text(lines), NOTHING)) == (ReceivedAll(events), State("", NOTHING))
    ensures Drain(State(Text(lines), NOTHING)).0 == events <==>
              forall i :: 0 <= i < |events| ==> NoCrAtLineEnd(events[i])
  {
    hide *;
    DrainInterprets(lines, NOTHING);
    IgnoredLinesDoNotMatter(lines, NOTHING);
    EncodedAreReceived(events);
    AllReceivedUnchanged(events);
  }

  // ----- Names with newlines never come back -----

  lemma {:induction false} ParsedNamesHaveNoNewline(s: State)
    requires s.pending.name.Some? ==> NoNewline(s.pending.name.value)
    ensures forall i :: 0 <= i < |Drain(s).0| ==> NoNewline(Drain(s).0[i].name)
    decreases |s.buf|
  {
    hide FirstNewline, AfterLine, EndsEvent, EventOf, StripCr, NoNewline, Drain;
    var n := FirstNewline(s.buf);
    if n == |s.buf| {
      NothingDrained(s);
    } else {
      var line, rest := StripCr(s.buf[..n]), s.buf[n + 1..];
      if EndsEvent(line, s.pending) {
        var t := State(rest, NOTHING);
        ParsedNamesHaveNoNewline(t);
        DrainAfterNext(s, EventOf(s.pending), t);
        NameOfEvent(s.pending);
      } else {
        var t := State(rest, AfterLine(line, s.pending));
        BeforeFirstNewline(s.buf);
        NameAfterLine(s.buf[..n], s.pending);
        ParsedNamesHaveNoNewline(t);
        DrainByNext(s, t);
      }
    }
  }

  lemma NothingDrained(s: State)
    requires Next(s).0.None?
    ensures Drain(s).0 == []
  {
    hide Next;
  }

  lemma NameOfEvent(p: Pending)
    requires p.name.Some? ==> NoNewline(p.name.value)
    ensures NoNewline(EventOf(p).name)
  {
  }

  lemma NameAfterLine(raw: string, p: Pending)
    requires NoNewline(raw) && (p.name.Some? ==> NoNewline(p.name.value))
    ensures var q := AfterLine(StripCr(raw), p); q.name.Some? ==> NoNewline(q.name.value)
  {
    ValueHasNoNewline(StripCr(raw));
    hide FieldValue, FieldName, StripCr;
  }

  lemma ValueHasNoNewline(line: string)
    requires NoNewline(line)
    ensures NoNewline(FieldValue(line))
  {
  }

  /** The round trip is exact for just those lists whose names have no newline and whose names and
      data lines do not end in a carriage return. */
  lemma RoundTripExactness(events: seq<Event>)
    ensures Drain(State(Text(Encode(events)), NOTHING)).0 == events <==>
              forall i :: 0 <= i < |events| ==> NoNewline(events[i].name) && NoCrAtLineEnd(events[i])
  {
    hide Drain, Text, Encode, NoNewline, NoCrAtLineEnd;
    ParsedNamesHaveNoNewline(State(Text(Encode(events)), NOTHING));
    if forall i :: 0 <= i < |events| ==> NoNewline(events[i].name) {
      EncodedLines(events);
      EncodedThenParsed(events, Encode(events));
    }
  }

  /** Single lines, none of them ignored. */
  predicate Plain(lines: seq<string>) {
    forall i :: 0 <= i < |lines| ==> NoNewline(lines[i]) && !Ignored(lines[i])
  }

  lemma PlainThen(a: seq<string>, b: seq<string>)
    requires Plain(a) && Plain(b)
    ensures Plain(a + b)
  {
    hide NoNewline, Ignored;
  }

  lemma {:induction false} DataLinesArePlain(parts: seq<string>)
    requires forall i :: 0 <= i < |parts| ==> NoNewline(parts[i])
    ensures Plain(DataLines(parts))
  {
    if parts != [] {
      DataLinesArePlain(parts[1..]);
      FieldIsPlain("data", parts[0]);
      hide Plain;
      assert "data" + ": " + parts[0] == "data: " + parts[0];
      PlainThen(["data: " + parts[0]], DataLines(parts[1..]));
    }
  }

  lemma FieldIsPlain(field: string, value: string)
    requires NoNewline(value) && (field == "event" || field == "data")
    ensures Plain([field + ": " + value])
  {
    StripAfter(field + ": ", value);
    FieldLine(field, StripCr(value));
  }

  lemma {:induction false} NothingIgnored(lines: seq<string>)
    requires Plain(lines)
    ensures Relevant(lines) == lines
  {
    if lines != [] {
      NothingIgnored(lines[1..]);
    }
  }

  lemma {:induction false} EncodedLinesArePlain(events: seq<Event>)
    requires forall i :: 0 <= i < |events| ==> NoNewline(events[i].name)
    ensures Plain(Encode(events))
  {
    if events != [] {
      EncodedLinesArePlain(events[1..]);
      FieldIsPlain("event", events[0].name);
      SplitGivesLines(events[0].data);
      DataLinesArePlain(Split(events[0].data));
      assert Plain([""]);
      EncodeFirst(events);
      hide Plain, DataLines, Split, Encode, NoNewline;
      var data, rest := DataLines(Split(events[0].data)), Encode(events[1..]);
      assert "event" + ": " + events[0].name == "event: " + events[0].name;
      PlainThen([""], rest);
      PlainThen(data, [""] + rest);
      PlainThen(["event: " + events[0].name], data + ([""] + rest));
    }
  }

  lemma EncodedLines(events: seq<Event>)
    requires forall i :: 0 <= i < |events| ==> NoNewline(events[i].name)
    ensures forall i :: 0 <= i < |Encode(events)| ==> NoNewline(Encode(events)[i])
    ensures Relevant(Encode(events)) == Encode(events)
  {
    EncodedLinesArePlain(events);
    NothingIgnored(Encode(events));
  }
}
