/** The Anthropic adapter: decoded events are assembled into the response and passed on as stream
    events. */
module Anthropic {
  import opened Json
  import opened JsonText
  import opened SseLaws
  import opened Streaming
  import opened Wrappers
  import Events
  import JsonLaws
  import Sse
  import Timestamps
  import Utf8

  // ----- Looking into JSON values -----

  function Field(v: Value, key: string): Option<Value> {
    if v.Object? then Events.Get(v.members, key) else None
  }

  function AsText(v: Option<Value>): Option<string> {
    match v case Some(String(text)) => Some(text) case _ => None
  }

  function DigitsValue(digits: string): nat
    requires DigitRun(digits) == |digits|
    decreases |digits|
  {
    if digits == [] then 0
    else
      var n := |digits| - 1;
      JsonLaws.DigitRunOfPrefix(digits, n);
      10 * DigitsValue(digits[..n]) + (digits[n] as nat - '0' as nat)
  }

  /** An unsigned 64-bit integer. */
  function AsU64(v: Option<Value>): Option<nat> {
    match v
    case Some(Number(token)) =>
      if DigitRun(token) == |token| && DigitsValue(token) < 0x1_0000_0000_0000_0000 then Some(DigitsValue(token))
      else None
    case _ => None
  }

  // ----- What an event says -----

  datatype Tool = Tool(id: string, name: string)

  datatype Meaning =
    | BlockStart(at: Option<nat>, tool: Option<Tool>)
    | TextDelta(text: string)
    | ArgsDelta(index: nat, partial: string)
    | MessageDelta(stopReason: Option<string>, outputTokens: Option<nat>)
    | Other

  function OrElse<T>(o: Option<T>, default: T): T {
    if o.Some? then o.value else default
  }

  function StartMeaning(v: Value): Meaning {
    var block := Field(v, "content_block");
    var isTool := block.Some? && AsText(Field(block.value, "type")) == Some("tool_use");
    var id := if isTool then AsText(Field(block.value, "id")) else None;
    BlockStart(AsU64(Field(v, "index")),
               if id.Some? then Some(Tool(id.value, OrElse(AsText(Field(block.value, "name")), ""))) else None)
  }

  function DeltaMeaning(v: Value): Meaning {
    var delta := Field(v, "delta");
    if delta.None? then Other
    else match AsText(Field(delta.value, "type"))
      case None => Other
      case Some(kind) =>
        if kind == "text_delta" then TextDelta(OrElse(AsText(Field(delta.value, "text")), ""))
        else if kind == "input_json_delta" then
          ArgsDelta(OrElse(AsU64(Field(v, "index")), 0), OrElse(AsText(Field(delta.value, "partial_json")), ""))
        else Other
  }

  function EndMeaning(v: Value): Meaning {
    var delta, usage := Field(v, "delta"), Field(v, "usage");
    MessageDelta(if delta.Some? then AsText(Field(delta.value, "stop_reason")) else None,
                 if usage.Some? then AsU64(Field(usage.value, "output_tokens")) else None)
  }

  /** Unknown events and events whose data is not JSON say nothing. */
  function MeaningOf(e: Sse.Event): Meaning {
    var v := ParseText(e.data);
    if v.None? then Other
    else if e.name == "content_block_start" then StartMeaning(v.value)
    else if e.name == "content_block_delta" then DeltaMeaning(v.value)
    else if e.name == "message_delta" then EndMeaning(v.value)
    else Other
  }

  // ----- Assembling -----

  datatype Assembled = Assembled(model: string, text: string, argBuffers: seq<string>, names: seq<string>,
                                 outputTokens: nat, stopReason: StopReason)
  {
    predicate Valid() { |argBuffers| == |names| }
  }

  function Fresh(model: string): Assembled {
    Assembled(model, "", [], [], 0, Stop)
  }

  function Skeleton(model: string): Response {
    Response("", Stop, [], 0, model)
  }

  function Marker(id: string): string {
    "__id:" + (id + "__")
  }

  /** The id of a marker; None for any other text. */
  function MarkedId(s: string): Option<string> {
    if "__id:" <= s && |s| >= 7 && s[|s| - 2..] == "__" then Some(s[5..|s| - 2]) else None
  }

  function Empty(n: nat): seq<string> {
    seq(n, _ => "")
  }

  /** Buffers for at least `n` blocks. */
  function Grown(a: Assembled, n: nat): (b: Assembled)
    requires a.Valid()
    ensures b.Valid() && |b.argBuffers| >= n && |b.argBuffers| >= |a.argBuffers|
  {
    if n <= |a.argBuffers| then a
    else
      var more := Empty(n - |a.argBuffers|);
      a.(argBuffers := a.argBuffers + more, names := a.names + more)
  }

  function AfterBlockStart(a: Assembled, index: Option<nat>, tool: Option<Tool>): (b: Assembled)
    requires a.Valid()
    ensures b.Valid()
  {
    var i := OrElse(index, 0);
    if tool.Some? then
      var g := Grown(a, i + 1);
      g.(names := g.names[i := tool.value.name], argBuffers := g.argBuffers[i := Marker(tool.value.id)])
    else if index.Some? then Grown(a, i + 1) else a
  }

  /** The first fragment replaces the marker and carries its id on; later ones are appended. */
  function AfterArgsDelta(a: Assembled, i: nat, partial: string): (r: (Assembled, Option<StreamEvent>))
    requires a.Valid()
    ensures r.0.Valid()
  {
    if i >= |a.argBuffers| then (a, None)
    else
      var id := MarkedId(a.argBuffers[i]);
      var kept := if id.Some? then "" else a.argBuffers[i];
      (a.(argBuffers := a.argBuffers[i := kept + partial]),
       Some(ToolCallDelta(if id == Some("") then None else id, None, Some(partial))))
  }

  function StopReasonOf(s: string): StopReason {
    if s == "end_turn" || s == "stop_sequence" then Stop
    else if s == "max_tokens" then Length
    else if s == "tool_use" then StopReason.ToolUse
    else Stop
  }

  /** The assembler after an event, and what is passed on. */
  function Effect(a: Assembled, m: Meaning): (r: (Assembled, Option<StreamEvent>))
    requires a.Valid()
    ensures r.0.Valid()
  {
    match m
    case BlockStart(index, tool) => (AfterBlockStart(a, index, tool), None)
    case TextDelta(text) => if text == [] then (a, None) else (a.(text := a.text + text), Some(ContentDelta(text)))
    case ArgsDelta(index, partial) => AfterArgsDelta(a, index, partial)
    case MessageDelta(reason, tokens) =>
      (a.(stopReason := if reason.Some? then StopReasonOf(reason.value) else a.stopReason,
          outputTokens := if tokens.Some? then tokens.value % 0x1_0000_0000 else a.outputTokens), None)
    case Other => (a, None)
  }

  /** The call of buffer `i`, if the buffer is not empty. */
  function CallOf(a: Assembled, i: nat): seq<ToolCall>
    requires a.Valid() && i < |a.argBuffers|
  {
    if a.argBuffers[i] == [] then []
    else [ToolCall("toolu_stream_" + Timestamps.Decimal(i), a.names[i], ArgsValue(a.argBuffers[i]))]
  }

  /** Calls of the first `n` buffers. */
  function FinalCalls(a: Assembled, n: nat): seq<ToolCall>
    requires a.Valid() && n <= |a.argBuffers|
  {
    if n == 0 then [] else FinalCalls(a, n - 1) + CallOf(a, n - 1)
  }

  function Finalized(a: Assembled): Response
    requires a.Valid()
  {
    Response(a.text, a.stopReason, FinalCalls(a, |a.argBuffers|), a.outputTokens, a.model)
  }

  class AssembledResponse {
    const model: string
    var text: string
    var toolArgBuffers: seq<string>
    var toolNames: seq<string>
    var outputTokens: nat
    var stopReason: StopReason

    function View(): Assembled
      reads this
    {
      Assembled(model, text, toolArgBuffers, toolNames, outputTokens, stopReason)
    }

    ghost predicate Valid()
      reads this
    {
      View().Valid()
    }

    constructor (model: string)
      ensures Valid() && View() == Fresh(model)
    {
      this.model := model;
      text, toolArgBuffers, toolNames, outputTokens, stopReason := "", [], [], 0, Stop;
    }

    method GrowTo(n: nat)
      requires Valid()
      modifies this`toolArgBuffers, this`toolNames
      ensures Valid() && View() == Grown(old(View()), n)
    {
      ghost var a := View();
      while |toolArgBuffers| < n
        invariant Valid() && |toolArgBuffers| >= |a.argBuffers|
        invariant |toolArgBuffers| <= n || toolArgBuffers == a.argBuffers
        invariant toolArgBuffers == a.argBuffers + Empty(|toolArgBuffers| - |a.argBuffers|)
        invariant toolNames == a.names + Empty(|toolArgBuffers| - |a.argBuffers|)
      {
        toolArgBuffers := toolArgBuffers + [""];
        toolNames := toolNames + [""];
      }
    }

    method HandleBlockStart(index: Option<nat>, tool: Option<Tool>)
      requires Valid()
      modifies this`toolArgBuffers, this`toolNames
      ensures Valid() && View() == AfterBlockStart(old(View()), index, tool)
    {
      if index.Some? {
        GrowTo(index.value + 1);
      }
      if tool.Some? {
        var idx := OrElse(index, 0);
        GrowTo(idx + 1);
        toolNames := toolNames[idx := tool.value.name];
        toolArgBuffers := toolArgBuffers[idx := "__id:" + (tool.value.id + "__")];
      }
    }

    method HandleInputJsonDelta(idx: nat, partial: string) returns (r: Option<StreamEvent>)
      requires Valid()
      modifies this`toolArgBuffers
      ensures Valid() && (View(), r) == AfterArgsDelta(old(View()), idx, partial)
    {
      if idx >= |toolArgBuffers| {
        return None;
      }
      var existing := toolArgBuffers[idx];
      var stripped := MarkedId(existing);
      if stripped.Some? {
        toolArgBuffers := toolArgBuffers[idx := partial];
        assert "" + partial == partial;
      } else {
        toolArgBuffers := toolArgBuffers[idx := existing + partial];
      }
      return Some(ToolCallDelta(if stripped.None? || stripped.value == [] then None else stripped, None, Some(partial)));
    }

    /** One decoded event: what it says, and what that does. */
    method Decode(e: Sse.Event) returns (r: Option<StreamEvent>)
      requires Valid()
      modifies this
      ensures Valid() && (View(), r) == Effect(old(View()), MeaningOf(e))
    {
      match MeaningOf(e) {
        case BlockStart(index, tool) =>
          HandleBlockStart(index, tool);
          return None;
        case TextDelta(more) =>
          if more == [] {
            return None;
          }
          text := text + more;
          return Some(ContentDelta(more));
        case ArgsDelta(index, partial) =>
          r := HandleInputJsonDelta(index, partial);
        case MessageDelta(reason, tokens) =>
          if reason.Some? {
            stopReason := StopReasonOf(reason.value);
          }
          if tokens.Some? {
            outputTokens := tokens.value % 0x1_0000_0000;
          }
          return None;
        case Other =>
          return None;
      }
    }

    method Finalize() returns (r: Response)
      requires Valid()
      ensures r == Finalized(View())
    {
      var calls := [];
      for i := 0 to |toolArgBuffers|
        invariant calls == FinalCalls(View(), i)
      {
        if toolArgBuffers[i] != [] {
          calls := calls +
            [ToolCall("toolu_stream_" + Timestamps.Decimal(i), toolNames[i], ArgsValue(toolArgBuffers[i]))];
        }
      }
      return Response(text, stopReason, calls, outputTokens, model);
    }
  }

  // ----- The stream loop -----

  /** Assembler and sink after a list of events. */
  function Delivered(a: Assembled, s: Captured, events: seq<Sse.Event>): (r: (Assembled, Captured))
    requires a.Valid() && s.Valid()
    ensures r.0.Valid() && r.1.Valid()
    decreases |events|
  {
    if events == [] then (a, s)
    else
      var (b, out) := Effect(a, MeaningOf(events[0]));
      Delivered(b, if out.Some? then Sent(s, out.value) else s, events[1..])
  }

  /** The sink after a whole stream of events. */
  function Streamed(s: Captured, model: string, events: seq<Sse.Event>): Captured
    requires s.Valid()
  {
    var (a, t) := Delivered(Fresh(model), Sent(s, MessageStart(Skeleton(model))), events);
    Sent(t, MessageStop(Finalized(a)))
  }

  /** The sink after a stream that breaks off: what had arrived, and no final response. */
  function Interrupted(s: Captured, model: string, events: seq<Sse.Event>): Captured
    requires s.Valid()
  {
    Delivered(Fresh(model), Sent(s, MessageStart(Skeleton(model))), events).1
  }

  lemma {:induction false} DeliveredThen(a: Assembled, s: Captured, xs: seq<Sse.Event>, ys: seq<Sse.Event>)
    requires a.Valid() && s.Valid()
    ensures var (b, t) := Delivered(a, s, xs);
            Delivered(a, s, xs + ys) == Delivered(b, t, ys)
    decreases |xs|
  {
    hide Effect, MeaningOf, Sent;
    if xs == [] {
      assert xs + ys == ys;
    } else {
      var (b, out) := Effect(a, MeaningOf(xs[0]));
      assert (xs + ys)[1..] == xs[1..] + ys;
      DeliveredThen(b, if out.Some? then Sent(s, out.value) else s, xs[1..], ys);
    }
  }

  /** Decodes one event and sends what it gives. */
  method DeliverEvent(event: Sse.Event, assembled: AssembledResponse, sink: CapturingStreamSink)
    requires assembled.Valid() && sink.Valid()
    modifies assembled, sink
    ensures assembled.Valid() && sink.Valid()
    ensures (assembled.View(), sink.View()) == Delivered(old(assembled.View()), old(sink.View()), [event])
  {
    hide Effect, MeaningOf, Sent;
    var out := assembled.Decode(event);
    if out.Some? {
      sink.Send(out.value);
    }
    assert [event][1..] == [];
  }

  /** Takes and delivers every event the parser holds. */
  method DrainParser(parser: Sse.SseParser, assembled: AssembledResponse, sink: CapturingStreamSink, ghost later: string)
    returns (ghost taken: seq<Sse.Event>)
    requires assembled.Valid() && sink.Valid()
    modifies parser, assembled, sink
    ensures assembled.Valid() && sink.Valid()
    ensures (assembled.View(), sink.View()) == Delivered(old(assembled.View()), old(sink.View()), taken)
    ensures taken + Drain(Fed(parser.View(), later)).0 == Drain(Fed(old(parser.View()), later)).0
    ensures Sse.Next(parser.View()).0 == None
  {
    hide Effect, MeaningOf, Sent, Drain, Sse.Next, Fed, Assembled.Valid;
    ghost var a, s := assembled.View(), sink.View();
    ghost var all := Drain(Fed(parser.View(), later)).0;
    taken := [];
    while true
      invariant assembled.Valid() && sink.Valid()
      invariant (assembled.View(), sink.View()) == Delivered(a, s, taken)
      invariant taken + Drain(Fed(parser.View(), later)).0 == all
      decreases |parser.buf|
    {
      ghost var before := parser.View();
      TakeThenFeed(before, later);
      var event := parser.NextEvent();
      if event == None {
        NothingAfterNone(before);
        return;
      }
      NextShrinks(before);
      DeliveredThen(a, s, taken, [event.value]);
      DeliverEvent(event.value, assembled, sink);
      taken := taken + [event.value];
    }
  }

  /** The streaming request, once the chunks of the reply are known: feed, drain, decode, send. The
      transport may break off behind the last chunk. */
  method StreamResponse(chunks: seq<string>, broken: Option<string>, model: string, sink: CapturingStreamSink)
    returns (r: Result<(), string>)
    requires sink.Valid()
    modifies sink
    ensures sink.Valid()
    ensures r == if broken.Some? then Err(broken.value) else Ok(())
    ensures var events := Drain(Sse.State(Stream(Feeds(chunks)), Sse.NOTHING)).0;
            sink.View() == if broken.Some? then Interrupted(old(sink.View()), model, events)
                           else Streamed(old(sink.View()), model, events)
  {
    hide Effect, MeaningOf, Sent, Drain, Sse.Next, Stream, Feeds, Finalized;
    var parser := new Sse.SseParser();
    var assembled := new AssembledResponse(model);
    sink.Send(MessageStart(Skeleton(model)));
    ghost var s, taken := sink.View(), [];
    ghost var all := Drain(Sse.State(Stream(Feeds(chunks)), Sse.NOTHING)).0;
    assert Fed(parser.View(), Stream(Feeds(chunks))) == Sse.State(Stream(Feeds(chunks)), Sse.NOTHING);
    assert chunks[0..] == chunks;
    EmptyParserHasNothing();
    for k := 0 to |chunks|
      invariant sink.Valid() && assembled.Valid()
      invariant (assembled.View(), sink.View()) == Delivered(Fresh(model), s, taken)
      invariant taken + Drain(Fed(parser.View(), Stream(Feeds(chunks[k..])))).0 == all
      invariant Sse.Next(parser.View()).0 == None
    {
      ghost var later := Stream(Feeds(chunks[k + 1..]));
      FeedOne(parser.View(), chunks[k..]);
      parser.Feed(chunks[k]);
      ghost var more := DrainParser(parser, assembled, sink, later);
      DeliveredThen(Fresh(model), s, taken, more);
      taken := taken + more;
    }
    assert chunks[|chunks|..] == [];
    DrainedParser(parser.View());
    assert taken == all;
    if broken.Some? {
      return Err(broken.value);
    }
    var response := assembled.Finalize();
    sink.Send(MessageStop(response));
    return Ok(());
  }

  /** The captured result depends on the stream alone: any two ways to cut it into chunks of whole
      characters give the same. */
  lemma StreamingIgnoresChunks(s: Captured, model: string, chunks: seq<string>, others: seq<string>)
    requires s.Valid() && Concat(chunks) == Concat(others)
    requires forall i :: 0 <= i < |chunks| ==> Utf8.Valid(chunks[i])
    requires forall i :: 0 <= i < |others| ==> Utf8.Valid(others[i])
    ensures Streamed(s, model, Drain(Sse.State(Stream(Feeds(chunks)), Sse.NOTHING)).0) ==
            Streamed(s, model, Drain(Sse.State(Stream(Feeds(others)), Sse.NOTHING)).0)
  {
    hide *;
    StreamIsWhole(chunks);
    StreamIsWhole(others);
  }
}
