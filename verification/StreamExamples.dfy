/** Streams that carry given tool blocks, and the streams on which assembler and sink part. */
module StreamExamples {
  import opened Anthropic
  import opened Json
  import opened JsonText
  import opened StreamLaws
  import opened Streaming
  import opened Wrappers
  import Events
  import JsonLaws
  import Sse
  import Timestamps

  // ----- Numbers in events -----

  lemma {:induction false} DigitRunThen(s: string, c: char)
    requires DigitRun(s) == |s| && IsDigit(c)
    ensures DigitRun(s + [c]) == |s| + 1
  {
    if s == [] {
      assert s + [c] == [c];
    } else {
      DigitRunThen(s[1..], c);
      assert (s + [c])[1..] == s[1..] + [c];
    }
  }

  /** A decimal text reads back as its number and is a JSON number. */
  lemma {:induction false} DecimalReads(n: nat)
    ensures var s := Timestamps.Decimal(n);
            && s != [] && DigitRun(s) == |s| && DigitsValue(s) == n
            && (s[0] == '0' ==> n == 0) && (n == 0 ==> s == "0")
  {
    var s := Timestamps.Decimal(n);
    if n < 10 {
      assert s[..0] == [];
    } else {
      var t := Timestamps.Decimal(n / 10);
      DecimalReads(n / 10);
      DigitRunThen(t, Timestamps.Digit(n % 10));
      assert s[..|s| - 1] == t;
    }
  }

  lemma DecimalIsToken(n: nat)
    ensures IsNumberToken(Timestamps.Decimal(n))
  {
    var s := Timestamps.Decimal(n);
    DecimalReads(n);
    hide Timestamps.Decimal, DigitsValue;
    assert s[|s|..] == [] && s[0..] == s;
  }

  // ----- Events that carry a tool block -----

  function EventOf(m: Meaning): Sse.Event {
    match m
    case BlockStart(Some(index), Some(tool)) =>
      Sse.Event("content_block_start", Print(Object([
        Member("index", Number(Timestamps.Decimal(index))),
        Member("content_block", Object([
          Member("type", String("tool_use")), Member("id", String(tool.id)), Member("name", String(tool.name))]))])))
    case ArgsDelta(index, partial) =>
      Sse.Event("content_block_delta", Print(Object([
        Member("index", Number(Timestamps.Decimal(index))),
        Member("delta", Object([Member("type", String("input_json_delta")), Member("partial_json", String(partial))]))])))
    case BlockStart(Some(index), None) =>
      Sse.Event("content_block_start", Print(Object([
        Member("index", Number(Timestamps.Decimal(index))),
        Member("content_block", Object([Member("type", String("text")), Member("text", String(""))]))])))
    case TextDelta(text) =>
      Sse.Event("content_block_delta", Print(Object([
        Member("delta", Object([Member("type", String("text_delta")), Member("text", String(text))]))])))
    case MessageDelta(Some(reason), Some(tokens)) =>
      Sse.Event("message_delta", Print(Object([
        Member("delta", Object([Member("stop_reason", String(reason))])),
        Member("usage", Object([Member("output_tokens", Number(Timestamps.Decimal(tokens)))]))])))
    case _ => Sse.Event("ping", "")
  }

  /** A block's start with an index, text, a fragment, a full message delta, with numbers in 64 bits, or
      nothing. */
  predicate Sendable(m: Meaning) {
    match m
    case BlockStart(Some(index), _) => index < 0x1_0000_0000_0000_0000
    case ArgsDelta(index, _) => index < 0x1_0000_0000_0000_0000
    case TextDelta(_) => true
    case MessageDelta(Some(_), Some(tokens)) => tokens < 0x1_0000_0000_0000_0000
    case Other => true
    case _ => false
  }

  lemma EventCarries(m: Meaning)
    requires Sendable(m)
    ensures MeaningOf(EventOf(m)) == m
  {
    match m
    case BlockStart(Some(index), Some(tool)) => StartCarries(index, tool);
    case BlockStart(Some(index), None) => TextStartCarries(index);
    case ArgsDelta(index, partial) => DeltaCarries(index, partial);
    case TextDelta(text) => TextCarries(text);
    case MessageDelta(Some(reason), Some(tokens)) => EndCarries(reason, tokens);
    case Other =>
  }

  lemma TextStartCarries(index: nat)
    requires index < 0x1_0000_0000_0000_0000
    ensures MeaningOf(EventOf(BlockStart(Some(index), None))) == BlockStart(Some(index), None)
  {
    hide Print, ParseText, DigitsValue, DigitRun, Timestamps.Decimal, Events.Get, IsNumberToken;
    var block := [Member("type", String("text")), Member("text", String(""))];
    var all := [Member("index", Number(Timestamps.Decimal(index))), Member("content_block", Object(block))];
    DecimalReads(index);
    DecimalIsToken(index);
    assert block[0].key == "type" && block[1].key == "text";
    Events.GetAll(block);
    assert all[0].key == "index" && all[1].key == "content_block";
    Events.GetAll(all);
    Shallow(Object(all));
    JsonLaws.TextRoundTrip(Object(all));
  }

  lemma TextCarries(text: string)
    ensures MeaningOf(EventOf(TextDelta(text))) == TextDelta(text)
  {
    hide Print, ParseText, Events.Get;
    var delta := [Member("type", String("text_delta")), Member("text", String(text))];
    var all := [Member("delta", Object(delta))];
    assert delta[0].key == "type" && delta[1].key == "text";
    Events.GetAll(delta);
    assert all[0].key == "delta";
    Events.GetAll(all);
    Shallow(Object(all));
    JsonLaws.TextRoundTrip(Object(all));
  }

  lemma EndCarries(reason: string, tokens: nat)
    requires tokens < 0x1_0000_0000_0000_0000
    ensures MeaningOf(EventOf(MessageDelta(Some(reason), Some(tokens)))) == MessageDelta(Some(reason), Some(tokens))
  {
    hide Print, ParseText, DigitsValue, DigitRun, Timestamps.Decimal, Events.Get, IsNumberToken;
    var delta, usage := [Member("stop_reason", String(reason))], [Member("output_tokens", Number(Timestamps.Decimal(tokens)))];
    var all := [Member("delta", Object(delta)), Member("usage", Object(usage))];
    DecimalReads(tokens);
    DecimalIsToken(tokens);
    assert delta[0].key == "stop_reason" && usage[0].key == "output_tokens";
    Events.GetAll(delta);
    Events.GetAll(usage);
    assert all[0].key == "delta" && all[1].key == "usage";
    Events.GetAll(all);
    Flat(Object(all));
    JsonLaws.TextRoundTrip(Object(all));
  }

  /** Members whose objects hold strings and numbers nest at most twice. */
  lemma Flat(v: Value)
    requires v.Object?
    requires forall i :: 0 <= i < |v.members| ==> v.members[i].value.Object?
    requires forall i, j :: 0 <= i < |v.members| && 0 <= j < |v.members[i].value.members| ==>
               v.members[i].value.members[j].value.String? || v.members[i].value.members[j].value.Number?
    ensures JsonLaws.Nesting(v) <= 2
  {
    FlatMembers(v.members, 1) by {
      forall i | 0 <= i < |v.members|
        ensures JsonLaws.Nesting(v.members[i].value) <= 1
      {
        FlatMembers(v.members[i].value.members, 0);
      }
    }
  }

  lemma StartCarries(index: nat, tool: Tool)
    requires index < 0x1_0000_0000_0000_0000
    ensures MeaningOf(EventOf(BlockStart(Some(index), Some(tool)))) == BlockStart(Some(index), Some(tool))
  {
    hide Print, ParseText, DigitsValue, DigitRun, Timestamps.Decimal, Events.Get, IsNumberToken;
    var block := [Member("type", String("tool_use")), Member("id", String(tool.id)), Member("name", String(tool.name))];
    var all := [Member("index", Number(Timestamps.Decimal(index))), Member("content_block", Object(block))];
    DecimalReads(index);
    DecimalIsToken(index);
    assert block[0].key == "type" && block[1].key == "id" && block[2].key == "name";
    Events.GetAll(block);
    assert all[0].key == "index" && all[1].key == "content_block";
    Events.GetAll(all);
    Shallow(Object(all));
    JsonLaws.TextRoundTrip(Object(all));
  }

  lemma DeltaCarries(index: nat, partial: string)
    requires index < 0x1_0000_0000_0000_0000
    ensures MeaningOf(EventOf(ArgsDelta(index, partial))) == ArgsDelta(index, partial)
  {
    hide Print, ParseText, DigitsValue, DigitRun, Timestamps.Decimal, Events.Get, IsNumberToken;
    var delta := [Member("type", String("input_json_delta")), Member("partial_json", String(partial))];
    var all := [Member("index", Number(Timestamps.Decimal(index))), Member("delta", Object(delta))];
    DecimalReads(index);
    DecimalIsToken(index);
    assert delta[0].key == "type" && delta[1].key == "partial_json";
    Events.GetAll(delta);
    assert all[0].key == "index" && all[1].key == "delta";
    Events.GetAll(all);
    Shallow(Object(all));
    JsonLaws.TextRoundTrip(Object(all));
  }

  /** Members that are no containers, or hold none, nest at most twice. */
  lemma Shallow(v: Value)
    requires v.Object?
    requires forall i :: 0 <= i < |v.members| ==> !v.members[i].value.Array?
    requires forall i, j :: 0 <= i < |v.members| && v.members[i].value.Object? && 0 <= j < |v.members[i].value.members| ==>
               v.members[i].value.members[j].value.String?
    ensures JsonLaws.Nesting(v) <= 2
  {
    FlatMembers(v.members, 1) by {
      forall i | 0 <= i < |v.members|
        ensures JsonLaws.Nesting(v.members[i].value) <= 1
      {
        if v.members[i].value.Object? {
          FlatMembers(v.members[i].value.members, 0);
        }
      }
    }
  }

  lemma {:induction false} FlatMembers(members: seq<Member>, n: nat)
    requires forall i :: 0 <= i < |members| ==> JsonLaws.Nesting(members[i].value) <= n
    ensures JsonLaws.MembersNesting(members) <= n
  {
    if members != [] {
      FlatMembers(members[1..], n);
    }
  }

  function EventsOf(ms: seq<Meaning>): (events: seq<Sse.Event>)
    ensures |events| == |ms|
  {
    seq(|ms|, i requires 0 <= i < |ms| => EventOf(ms[i]))
  }

  /** All of this can be sent: these events say just that. */
  lemma {:induction false} EventsCarry(ms: seq<Meaning>)
    requires forall i :: 0 <= i < |ms| ==> Sendable(ms[i])
    ensures Meanings(EventsOf(ms)) == ms
  {
    hide EventOf, MeaningOf;
    if ms != [] {
      var n := |ms| - 1;
      EventsCarry(ms[..n]);
      EventCarries(ms[n]);
      assert EventsOf(ms)[..n] == EventsOf(ms[..n]);
      assert ms == ms[..n] + [ms[n]];
    }
  }

  // ----- Streams where the two do not agree -----

  /** One more event of a stream. */
  lemma Next(ms: seq<Meaning>, m: Meaning)
    ensures Collect(ms + [m]) == Routed(Collect(ms), m)
    ensures Keyed(ms + [m]) <==> Keyed(ms) && KeyedStep(Collect(ms), m)
    ensures KeptApart(ms + [m]) <==> KeptApart(ms) && !Stray(Collect(ms), m)
  {
    hide Routed, KeyedStep, Stray;
    var more := ms + [m];
    assert more[..|ms|] == ms;
    forall n | 0 <= n < |ms|
      ensures Stray(Collect(more[..n]), more[n]) <==> Stray(Collect(ms[..n]), ms[n])
    {
      assert more[..n] == ms[..n];
    }
    if KeptApart(more) {
      forall n | 0 <= n < |ms|
        ensures !Stray(Collect(ms[..n]), ms[n])
      {
        assert !Stray(Collect(more[..n]), more[n]);
      }
    }
  }

  /** A block whose only fragment is empty: its call is in the sink and not in the response. */
  lemma EmptyFragmentExample(model: string) returns (events: seq<Sse.Event>)
    ensures var t := Streamed(NOTHING_CAPTURED, model, events);
            && Keyed(Meanings(events)) && KeptApart(Meanings(events))
            && Collect(Meanings(events)).recs == [ToolRecord(0, "t", "n", Some(""))]
            && t.Valid() && t.final.Some? && !(exists c :: Answers(t.final.value, Collect(Meanings(events)).recs[0], c))
            && exists n :: 0 <= n < |t.calls| && t.calls[n].id == "t"
  {
    hide Streamed, EventsOf, Answers;
    var start, fragment := BlockStart(Some(0), Some(Tool("t", "n"))), ArgsDelta(0, "");
    var ms := [] + [start] + [fragment];
    Next([], start);
    Next([] + [start], fragment);
    events := EventsOf(ms);
    EventsCarry(ms);
    StreamedArguments(model, events, 0);
  }

  /** Two blocks whose fragments alternate: the last fragment of the first block is stray, and the sink
      gives it to the second. */
  lemma MisroutedExample(model: string) returns (events: seq<Sse.Event>)
    ensures var t := Streamed(NOTHING_CAPTURED, model, events);
            && Keyed(Meanings(events)) && !KeptApart(Meanings(events))
            && t.Valid() && t.final.Some? && t.argBuffers == ["x", "yz"]
            && ToolCall(StreamId(0), "f", ArgsValue("xz")) in t.final.value.toolCalls
            && ToolCall(StreamId(1), "g", ArgsValue("y")) in t.final.value.toolCalls
  {
    hide Streamed, EventsOf, Applied, ArgsValue, StreamId, FinalCalls, Collect, Keyed, KeptApart, Tracks;
    var ms := TwoBlocks("x", "y", "z");
    events := EventsOf(ms);
    AllSendable("x", "y", "z");
    EventsCarry(ms);
    TwoBlocksRouted("x", "y", "z");
    assert "x" + "z" == "xz" && "y" + "z" == "yz";
    var a, t := StreamedIsApplied(model, events);
    StreamTracks(model, Sent(NOTHING_CAPTURED, MessageStart(Skeleton(model))), ms);
    TrackedBlock(a, t, Collect(ms), 0);
    TrackedBlock(a, t, Collect(ms), 1);
  }

  lemma AllSendable(x: string, y: string, z: string)
    ensures forall i :: 0 <= i < |TwoBlocks(x, y, z)| ==> Sendable(TwoBlocks(x, y, z)[i])
  {
  }

  /** The final response holds the text of a tracked block. */
  lemma TrackedBlock(a: Assembled, t: Captured, b: Blocks, p: nat)
    requires a.Valid() && t.Valid() && Tracks(a, t, b) && p < |b.recs|
    requires b.recs[p].args.Some? && b.recs[p].args.value != []
    ensures t.argBuffers == b.texts
    ensures ToolCall(StreamId(b.recs[p].index), b.recs[p].name, ArgsValue(b.recs[p].args.value)) in Finalized(a).toolCalls
  {
    hide ArgsValue, StreamId, FinalCalls;
    assert Assembles(a, b.recs[p]);
    CallIsInResponse(a, |a.argBuffers|, b.recs[p].index);
    StreamIdIs(b.recs[p].index);
  }

  function TwoBlocks(x: string, y: string, z: string): seq<Meaning> {
    [] + [BlockStart(Some(0), Some(Tool("a", "f")))] + [BlockStart(Some(1), Some(Tool("b", "g")))]
    + [ArgsDelta(0, x)] + [ArgsDelta(1, y)] + [ArgsDelta(0, z)]
  }

  /** Up to the stray fragment the blocks are kept apart, although both start before either has text. */
  lemma TwoBlocksRouted(x: string, y: string, z: string)
    requires z != [] && MarkedId(x) == None
    ensures var ms := TwoBlocks(x, y, z);
            && Keyed(ms) && !KeptApart(ms) && KeptApart(ms[..4])
            && Collect(ms).recs == [ToolRecord(0, "a", "f", Some(x + z)), ToolRecord(1, "b", "g", Some(y))]
            && Collect(ms).order == [0, 1] && Collect(ms).texts == [x, y + z]
  {
    hide Collect, Keyed, KeptApart, MarkedId;
    var first, second := BlockStart(Some(0), Some(Tool("a", "f"))), BlockStart(Some(1), Some(Tool("b", "g")));
    var m1 := [] + [first];
    var m2 := m1 + [second];
    var m3 := m2 + [ArgsDelta(0, x)];
    var m4 := m3 + [ArgsDelta(1, y)];
    assert "" + x == x && "" + y == y;
    NoBlocks();
    Next([], first);
    Next(m1, second);
    var a, b := ToolRecord(0, "a", "f", None), ToolRecord(1, "b", "g", None);
    assert Collect(m2) == Blocks([a, b], [], [], 2, map[]);
    Next(m2, ArgsDelta(0, x));
    PositionOfTwo(a, b);
    assert Collect(m3) == Blocks([a.(args := Some(x)), b], [0], [x], 2, map[]);
    PositionOfTwo(a.(args := Some(x)), b);
    Next(m3, ArgsDelta(1, y));
    assert Collect(m4) == Blocks([a.(args := Some(x)), b.(args := Some(y))], [0, 1], [x, y], 2, map[]);
    PositionOfTwo(a.(args := Some(x)), b.(args := Some(y)));
    Next(m4, ArgsDelta(0, z));
    assert TwoBlocks(x, y, z)[..4] == m4;
  }

  /** The texts of the calls can differ and mean the same: a stray blank behind `null`. */
  lemma HarmlessStray(model: string) returns (events: seq<Sse.Event>)
    ensures var t, recs := Streamed(NOTHING_CAPTURED, model, events), Collect(Meanings(events)).recs;
            && Keyed(Meanings(events)) && !KeptApart(Meanings(events)) && |recs| == 2
            && t.Valid() && t.final.Some? && !HoldsTexts(t, recs)
            && ArgumentsShared(t, recs[0]) && ArgumentsShared(t, recs[1])
  {
    hide Streamed, EventsOf, ArgsValue, Collect, Keyed, KeptApart, HoldsTexts, Answers, ArgumentsShared, MarkedId;
    var ms := TwoBlocks("null", "null", " ");
    events := EventsOf(ms);
    AllSendable("null", "null", " ");
    EventsCarry(ms);
    NullIsUnmarked();
    TwoBlocksRouted("null", "null", " ");
    NullMeansNull();
    StreamedBuffers(model, events);
    StreamedArguments(model, events, 0);
    StreamedArguments(model, events, 1);
    CallTextIs(Collect(ms), 0);
    CallTextIs(Collect(ms), 1);
  }

  lemma NullIsUnmarked()
    ensures MarkedId("null") == None
  {
  }

  lemma NullMeansNull()
    ensures ArgsValue("null") == Null && ArgsValue("null" + " ") == Null
  {
    hide ParseValue;
    JsonLaws.PrintedParses(Null, "", DEPTH);
    JsonLaws.PrintedParses(Null, " ", DEPTH);
    assert "null" + "" == "null" && " "[1..] == "";
  }

  lemma NoBlocks()
    ensures Collect([]) == NO_BLOCKS && Keyed([]) && KeptApart([])
  {
  }

  lemma PositionOfTwo(a: ToolRecord, b: ToolRecord)
    requires a.index == 0 && b.index == 1
    ensures Position([a, b], 0) == 0 && Position([a, b], 1) == 1
  {
    assert [a, b][1..] == [b];
  }
}
