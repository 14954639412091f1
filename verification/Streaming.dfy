/** Provider-independent stream events and the sink that captures them. */
module Streaming {
  import opened Json
  import opened JsonText
  import opened Wrappers

  datatype ToolCall = ToolCall(id: string, name: string, args: Value)

  datatype StopReason = Stop | Length | ToolUse

  datatype Response = Response(content: string, stopReason: StopReason, toolCalls: seq<ToolCall>,
                               outputTokens: nat, model: string)

  datatype StreamEvent =
    | MessageStart(skeleton: Response)
    | ContentDelta(text: string)
    | ToolCallDelta(id: Option<string>, nameDelta: Option<string>, argsDelta: Option<string>)
    | MessageStop(response: Response)
    | Failure(detail: string)

  /** Argument text becomes the JSON value it spells, or a string where it spells none. */
  function ArgsValue(text: string): Value {
    match ParseText(text) case Some(v) => v case None => String(text)
  }

  datatype Captured = Captured(text: string, calls: seq<ToolCall>, argBuffers: seq<string>, nameBuffers: seq<string>,
                               final: Option<Response>, lastError: Option<string>, eventCount: nat)
  {
    predicate Valid() { |argBuffers| == |calls| && |nameBuffers| == |calls| }
  }

  const NOTHING_CAPTURED := Captured("", [], [], [], None, None, 0)

  /** The position of the first call with the id, or the number of calls. */
  function FindCall(calls: seq<ToolCall>, id: string): (n: nat)
    ensures n <= |calls|
    ensures n < |calls| ==> calls[n].id == id
  {
    if calls == [] || calls[0].id == id then 0 else 1 + FindCall(calls[1..], id)
  }

  /** A call with the id is there, added at the end if need be. */
  function WithCall(s: Captured, id: string): (t: Captured)
    requires s.Valid()
    ensures t.Valid() && FindCall(s.calls, id) < |t.calls|
  {
    if FindCall(s.calls, id) < |s.calls| then s
    else s.(calls := s.calls + [ToolCall(id, "", Null)], argBuffers := s.argBuffers + [""],
            nameBuffers := s.nameBuffers + [""])
  }

  function AppendTo(buffers: seq<string>, n: nat, more: Option<string>): (r: seq<string>)
    requires n < |buffers|
    ensures |r| == |buffers|
  {
    if more.Some? then buffers[n := buffers[n] + more.value] else buffers
  }

  /** The sink after one more event. A delta without id goes to the last call, if there is one. */
  function Sent(s: Captured, e: StreamEvent): (t: Captured)
    requires s.Valid()
    ensures t.Valid()
  {
    var c := s.(eventCount := s.eventCount + 1);
    match e
    case MessageStart(_) => c
    case ContentDelta(text) => c.(text := s.text + text)
    case MessageStop(response) => c.(final := Some(response))
    case Failure(detail) => c.(lastError := Some(detail))
    case ToolCallDelta(id, name, args) =>
      var d := if id.Some? then WithCall(c, id.value) else c;
      var n := if id.Some? then FindCall(c.calls, id.value) else if |c.calls| == 0 then 0 else |c.calls| - 1;
      if n < |d.calls| then
        d.(nameBuffers := AppendTo(d.nameBuffers, n, name), argBuffers := AppendTo(d.argBuffers, n, args))
      else d
  }

  class CapturingStreamSink {
    var text: string
    var toolCalls: seq<ToolCall>
    var toolCallArgBuffers: seq<string>
    var toolCallNameBuffers: seq<string>
    var finalResponse: Option<Response>
    var lastError: Option<string>
    var eventCount: nat

    function View(): Captured
      reads this
    {
      Captured(text, toolCalls, toolCallArgBuffers, toolCallNameBuffers, finalResponse, lastError, eventCount)
    }

    ghost predicate Valid()
      reads this
    {
      View().Valid()
    }

    constructor ()
      ensures Valid() && View() == NOTHING_CAPTURED
    {
      text, toolCalls, toolCallArgBuffers, toolCallNameBuffers := "", [], [], [];
      finalResponse, lastError, eventCount := None, None, 0;
    }

    method Send(e: StreamEvent)
      requires Valid()
      modifies this
      ensures Valid() && View() == Sent(old(View()), e)
    {
      eventCount := eventCount + 1;
      match e {
        case MessageStart(_) =>
        case ContentDelta(more) => text := text + more;
        case MessageStop(response) => finalResponse := Some(response);
        case Failure(detail) => lastError := Some(detail);
        case ToolCallDelta(id, nameDelta, argsDelta) =>
          var idx := if |toolCalls| == 0 then 0 else |toolCalls| - 1;
          if id.Some? {
            idx := FindCall(toolCalls, id.value);
            if idx == |toolCalls| {
              toolCalls := toolCalls + [ToolCall(id.value, "", Null)];
              toolCallArgBuffers := toolCallArgBuffers + [""];
              toolCallNameBuffers := toolCallNameBuffers + [""];
            }
          }
          if idx < |toolCalls| {
            if nameDelta.Some? {
              toolCallNameBuffers := toolCallNameBuffers[idx := toolCallNameBuffers[idx] + nameDelta.value];
            }
            if argsDelta.Some? {
              toolCallArgBuffers := toolCallArgBuffers[idx := toolCallArgBuffers[idx] + argsDelta.value];
            }
          }
      }
    }

    /** Buffered names fill empty names, buffered arguments are parsed; empty buffers change nothing. */
    method FinalizeToolCalls() returns (calls: seq<ToolCall>)
      requires Valid()
      modifies this`toolCalls
      ensures Valid() && calls == toolCalls && |calls| == |old(toolCalls)|
      ensures forall i :: 0 <= i < |calls| ==> calls[i] == Promoted(old(View()), i)
    {
      ghost var before := View();
      for i := 0 to |toolCalls|
        invariant Valid() && |toolCalls| == |before.calls|
        invariant forall j :: 0 <= j < |toolCalls| ==> toolCalls[j] == if j < i then Promoted(before, j) else before.calls[j]
      {
        var call := toolCalls[i];
        if call.name == [] {
          call := call.(name := toolCallNameBuffers[i]);
        }
        if toolCallArgBuffers[i] != [] {
          call := call.(args := ArgsValue(toolCallArgBuffers[i]));
        }
        toolCalls := toolCalls[i := call];
      }
      calls := toolCalls;
    }
  }

  /** The i-th call with its buffers promoted. */
  function Promoted(s: Captured, i: nat): ToolCall
    requires s.Valid() && i < |s.calls|
  {
    var call := s.calls[i];
    ToolCall(call.id, if call.name == [] then s.nameBuffers[i] else call.name,
             if s.argBuffers[i] == [] then call.args else ArgsValue(s.argBuffers[i]))
  }
}
