/** What the capturing sink keeps of any events it is sent. */
module SinkLaws {
  import opened Json
  import opened JsonText
  import opened Streaming
  import opened Wrappers

  /** The sink after a list of events. */
  function AllSent(events: seq<StreamEvent>): (s: Captured)
    ensures s.Valid()
  {
    if events == [] then NOTHING_CAPTURED else Sent(AllSent(events[..|events| - 1]), events[|events| - 1])
  }

  function TextIn(events: seq<StreamEvent>): string {
    if events == [] then ""
    else TextIn(events[..|events| - 1]) + if events[|events| - 1].ContentDelta? then events[|events| - 1].text else ""
  }

  /** The last response and the last failure sent, if any. */
  function LastResponse(events: seq<StreamEvent>): Option<Response> {
    if events == [] then None
    else if events[|events| - 1].MessageStop? then Some(events[|events| - 1].response)
    else LastResponse(events[..|events| - 1])
  }

  function LastFailure(events: seq<StreamEvent>): Option<string> {
    if events == [] then None
    else if events[|events| - 1].Failure? then Some(events[|events| - 1].detail)
    else LastFailure(events[..|events| - 1])
  }

  /** The sink counts all events, joins the texts in order, and keeps the last response and failure. */
  lemma {:induction false} SinkKeeps(events: seq<StreamEvent>)
    ensures var s := AllSent(events);
            && s.eventCount == |events| && s.text == TextIn(events)
            && s.final == LastResponse(events) && s.lastError == LastFailure(events)
  {
    if events != [] {
      var n := |events| - 1;
      SinkKeeps(events[..n]);
      var s := AllSent(events[..n]);
      assert s.text + "" == s.text;
    }
  }

  /** The text of a buffer, or nothing where there is none. */
  function BufferAt(buffers: seq<string>, n: nat): string {
    if n < |buffers| then buffers[n] else ""
  }

  function More(delta: Option<string>): string {
    if delta.Some? then delta.value else ""
  }

  /** A delta with an id extends name and arguments of the first call with that id, which is added at the
      end where there is none; every other call keeps its own. */
  lemma DeltaWithId(s: Captured, id: string, name: Option<string>, args: Option<string>)
    requires s.Valid()
    ensures var t, p := Sent(s, ToolCallDelta(Some(id), name, args)), FindCall(s.calls, id);
            && p < |t.calls| && t.calls[p].id == id && (forall k :: 0 <= k < p ==> s.calls[k].id != id)
            && t.calls == (if p < |s.calls| then s.calls else s.calls + [ToolCall(id, "", Null)])
            && t.nameBuffers[p] == BufferAt(s.nameBuffers, p) + More(name)
            && t.argBuffers[p] == BufferAt(s.argBuffers, p) + More(args)
            && forall k :: 0 <= k < |s.calls| && k != p ==> t.nameBuffers[k] == s.nameBuffers[k] && t.argBuffers[k] == s.argBuffers[k]
  {
    FirstCall(s.calls, id);
    var p := FindCall(s.calls, id);
    assert BufferAt(s.nameBuffers, p) + "" == BufferAt(s.nameBuffers, p) && BufferAt(s.argBuffers, p) + "" == BufferAt(s.argBuffers, p);
  }

  lemma {:induction false} FirstCall(calls: seq<ToolCall>, id: string)
    ensures forall k :: 0 <= k < FindCall(calls, id) ==> calls[k].id != id
  {
    if calls != [] && calls[0].id != id {
      FirstCall(calls[1..], id);
    }
  }

  /** A delta without an id extends the last call, and does nothing where there is none. */
  lemma DeltaWithoutId(s: Captured, name: Option<string>, args: Option<string>)
    requires s.Valid()
    ensures var t := Sent(s, ToolCallDelta(None, name, args));
            && t.calls == s.calls
            && (forall k :: 0 <= k < |s.calls| - 1 ==> t.nameBuffers[k] == s.nameBuffers[k] && t.argBuffers[k] == s.argBuffers[k])
            && (s.calls != [] ==>
                  var n := |s.calls| - 1;
                  t.nameBuffers[n] == s.nameBuffers[n] + More(name) && t.argBuffers[n] == s.argBuffers[n] + More(args))
  {
    if s.calls != [] {
      var n := |s.calls| - 1;
      assert s.nameBuffers[n] + "" == s.nameBuffers[n] && s.argBuffers[n] + "" == s.argBuffers[n];
    }
  }

  /** A finalized call keeps its name, or takes the one in its buffer where it has none, and has the value its argument
      text spells, the text itself where it spells none, or its own where there is no text. */
  lemma FinalizedCall(s: Captured, n: nat)
    requires s.Valid() && n < |s.calls|
    ensures Promoted(s, n).id == s.calls[n].id
    ensures Promoted(s, n).name == if s.calls[n].name != [] then s.calls[n].name else s.nameBuffers[n]
    ensures s.argBuffers[n] == [] ==> Promoted(s, n).args == s.calls[n].args
    ensures s.argBuffers[n] != [] ==>
              match ParseText(s.argBuffers[n])
              case Some(v) => Promoted(s, n).args == v
              case None => Promoted(s, n).args == String(s.argBuffers[n])
  {
    hide ParseText;
  }
}
