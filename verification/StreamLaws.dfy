/** Two accumulators see one stream: the assembler that builds the response and the sink that
    captures the events. Where they agree, and where they do not. */
module StreamLaws {
  import opened Anthropic
  import opened Json
  import opened JsonText
  import opened Streaming
  import opened Wrappers
  import JsonLaws
  import Sse
  import Timestamps

  /** Assembler and sink after a list of event meanings. */
  function Applied(a: Assembled, s: Captured, ms: seq<Meaning>): (r: (Assembled, Captured))
    requires a.Valid() && s.Valid()
    ensures r.0.Valid() && r.1.Valid()
  {
    if ms == [] then (a, s)
    else
      var (b, t) := Applied(a, s, ms[..|ms| - 1]);
      AppliedOne(b, t, ms[|ms| - 1])
  }

  function AppliedOne(a: Assembled, s: Captured, m: Meaning): (r: (Assembled, Captured))
    requires a.Valid() && s.Valid()
    ensures r.0.Valid() && r.1.Valid()
  {
    var (b, out) := Effect(a, m);
    (b, if out.Some? then Sent(s, out.value) else s)
  }

  function Meanings(events: seq<Sse.Event>): (ms: seq<Meaning>)
    ensures |ms| == |events|
  {
    if events == [] then [] else Meanings(events[..|events| - 1]) + [MeaningOf(events[|events| - 1])]
  }

  lemma {:induction false} DeliveredIsApplied(a: Assembled, s: Captured, events: seq<Sse.Event>)
    requires a.Valid() && s.Valid()
    ensures Delivered(a, s, events) == Applied(a, s, Meanings(events))
  {
    hide Effect, MeaningOf, Sent;
    if events != [] {
      var n := |events| - 1;
      DeliveredIsApplied(a, s, events[..n]);
      DeliveredThen(a, s, events[..n], [events[n]]);
      assert events == events[..n] + [events[n]] && [events[n]][1..] == [];
      assert Meanings(events)[..n] == Meanings(events[..n]);
    }
  }

  // ----- What the stream says about tools -----

  /** A tool block of the stream: its text so far, None before the first fragment. */
  datatype ToolRecord = ToolRecord(index: nat, id: string, name: string, args: Option<string>)

  /** The tool blocks in the order of their starts, the positions of those with a fragment in the order
      of their first fragments, and what a sink makes of the fragments: a first one starts the text of
      a new call, any other goes to the last call. Fragments can also name a block that is no tool
      block: `size` counts the blocks there are, and `others` has the texts of such blocks. */
  datatype Blocks = Blocks(recs: seq<ToolRecord>, order: seq<nat>, texts: seq<string>, size: nat, others: map<nat, string>)

  const NO_BLOCKS := Blocks([], [], [], 0, map[])

  function WithFragment(r: ToolRecord, partial: string): ToolRecord {
    r.(args := Some(OrElse(r.args, "") + partial))
  }

  /** The position of the block with the index, or the number of blocks. */
  function Position(recs: seq<ToolRecord>, index: nat): (p: nat)
    ensures p <= |recs|
    ensures p < |recs| ==> recs[p].index == index
    ensures forall q :: 0 <= q < p ==> recs[q].index != index
  {
    if recs == [] || recs[0].index == index then 0 else 1 + Position(recs[1..], index)
  }

  function OtherText(b: Blocks, index: nat): string {
    if index in b.others then b.others[index] else ""
  }

  function AtLeast(size: nat, n: nat): nat {
    if size < n then n else size
  }

  function LastExtended(texts: seq<string>, partial: string): (r: seq<string>)
    ensures |r| == |texts|
  {
    if texts == [] then [] else texts[|texts| - 1 := texts[|texts| - 1] + partial]
  }

  function Routed(b: Blocks, m: Meaning): Blocks {
    match m
    case BlockStart(at, tool) =>
      b.(recs := if tool.Some? then b.recs + [ToolRecord(OrElse(at, 0), tool.value.id, tool.value.name, None)] else b.recs,
         size := if tool.Some? || at.Some? then AtLeast(b.size, OrElse(at, 0) + 1) else b.size)
    case ArgsDelta(index, partial) =>
      var p := Position(b.recs, index);
      if p < |b.recs| then
        var recs := b.recs[p := WithFragment(b.recs[p], partial)];
        if b.recs[p].args.None? then b.(recs := recs, order := b.order + [p], texts := b.texts + [partial])
        else b.(recs := recs, texts := LastExtended(b.texts, partial))
      else if index < b.size then
        b.(others := b.others[index := OtherText(b, index) + partial], texts := LastExtended(b.texts, partial))
      else b
    case _ => b
  }

  function Collect(ms: seq<Meaning>): Blocks {
    if ms == [] then NO_BLOCKS else Routed(Collect(ms[..|ms| - 1]), ms[|ms| - 1])
  }

  function CollectText(ms: seq<Meaning>): string {
    if ms == [] then []
    else CollectText(ms[..|ms| - 1]) + if ms[|ms| - 1].TextDelta? then ms[|ms| - 1].text else ""
  }

  predicate FreshTool(recs: seq<ToolRecord>, index: nat, id: string) {
    id != "" && forall i :: 0 <= i < |recs| ==> recs[i].index != index && recs[i].id != id
  }

  /** An event that keeps blocks apart by their keys: a tool block has its own index and non-empty id,
      and no fragment comes when its block's text so far reads as an id marker. Blocks may interleave,
      and fragments may name any block, or none. */
  predicate KeyedStep(b: Blocks, m: Meaning) {
    match m
    case BlockStart(at, Some(tool)) => FreshTool(b.recs, OrElse(at, 0), tool.id)
    case ArgsDelta(index, _) =>
      var p := Position(b.recs, index);
      if p == |b.recs| then MarkedId(OtherText(b, index)) == None
      else b.recs[p].args.Some? ==> MarkedId(b.recs[p].args.value) == None
    case _ => true
  }

  predicate Keyed(ms: seq<Meaning>) {
    ms == [] || (Keyed(ms[..|ms| - 1]) && KeyedStep(Collect(ms[..|ms| - 1]), ms[|ms| - 1]))
  }

  /** A fragment with text that comes while there is a call, for a block that is there, has not its first
      fragment in it, and is not the one with the last call. */
  predicate Stray(b: Blocks, m: Meaning) {
    m.ArgsDelta? && m.partial != [] && b.order != [] &&
    var p := Position(b.recs, m.index);
    if p == |b.recs| then m.index < b.size else b.recs[p].args.Some? && b.order[|b.order| - 1] != p
  }

  /** No fragment of the stream is stray. */
  predicate KeptApart(ms: seq<Meaning>) {
    forall n :: 0 <= n < |ms| ==> !Stray(Collect(ms[..n]), ms[n])
  }

  // ----- What the two accumulators hold -----

  predicate Distinct(recs: seq<ToolRecord>) {
    && (forall i :: 0 <= i < |recs| ==> recs[i].id != "")
    && (forall i, j :: 0 <= i < j < |recs| ==> recs[i].index != recs[j].index && recs[i].id != recs[j].id)
  }

  /** A block's text, or the marker that waits for the first fragment. */
  function TextOf(r: ToolRecord): string {
    if r.args.Some? then r.args.value else Marker(r.id)
  }

  /** The assembler's buffer of a block. */
  predicate Assembles(a: Assembled, r: ToolRecord)
    requires a.Valid()
  {
    r.index < |a.argBuffers| && a.names[r.index] == r.name && a.argBuffers[r.index] == TextOf(r)
  }

  /** Calls are made for the blocks with a fragment, once each. */
  predicate Ordered(b: Blocks) {
    && |b.texts| == |b.order|
    && (forall k :: 0 <= k < |b.order| ==> b.order[k] < |b.recs| && b.recs[b.order[k]].args.Some?)
    && (forall j, k :: 0 <= j < k < |b.order| ==> b.order[j] != b.order[k])
    && (forall p: nat :: p < |b.recs| && b.recs[p].args.Some? ==> p in b.order)
  }

  /** The sink's calls and buffers. */
  predicate Captures(s: Captured, b: Blocks)
    requires s.Valid() && Ordered(b)
  {
    && |s.calls| == |b.order| && s.argBuffers == b.texts
    && (forall k :: 0 <= k < |b.order| ==> s.calls[k] == ToolCall(b.recs[b.order[k]].id, "", Null) && s.nameBuffers[k] == "")
  }

  /** The assembler's buffers of all blocks. */
  predicate Holds(a: Assembled, b: Blocks)
    requires a.Valid()
  {
    && |a.argBuffers| == b.size
    && (forall i :: 0 <= i < |b.recs| ==> Assembles(a, b.recs[i]))
    && (forall i :: 0 <= i < b.size && Position(b.recs, i) == |b.recs| ==> a.argBuffers[i] == OtherText(b, i))
    && (forall i :: i in b.others ==> i < b.size)
  }

  predicate Tracks(a: Assembled, s: Captured, b: Blocks)
    requires a.Valid() && s.Valid()
  {
    Distinct(b.recs) && Ordered(b) && Holds(a, b) && Captures(s, b)
  }

  lemma MarkerCarriesId(id: string)
    ensures MarkedId(Marker(id)) == Some(id)
  {
    var s := Marker(id);
    assert s[5..|s| - 2] == id && s[|s| - 2..] == "__";
  }

  lemma StartKeepsBuffers(a: Assembled, recs: seq<ToolRecord>, at: Option<nat>, tool: Option<Tool>)
    requires a.Valid() && forall i :: 0 <= i < |recs| ==> Assembles(a, recs[i])
    requires tool.Some? ==> FreshTool(recs, OrElse(at, 0), tool.value.id)
    ensures forall i :: 0 <= i < |recs| ==> Assembles(AfterBlockStart(a, at, tool), recs[i])
    ensures tool.Some? ==> Assembles(AfterBlockStart(a, at, tool), ToolRecord(OrElse(at, 0), tool.value.id, tool.value.name, None))
  {
    hide Marker;
  }

  lemma {:induction false} NoSuchCall(calls: seq<ToolCall>, id: string)
    requires forall i :: 0 <= i < |calls| ==> calls[i].id != id
    ensures FindCall(calls, id) == |calls|
  {
    if calls != [] {
      NoSuchCall(calls[1..], id);
    }
  }

  lemma StartTracks(a: Assembled, s: Captured, b: Blocks, at: Option<nat>, tool: Option<Tool>)
    requires a.Valid() && s.Valid() && Tracks(a, s, b) && KeyedStep(b, BlockStart(at, tool))
    ensures Tracks(AfterBlockStart(a, at, tool), s, Routed(b, BlockStart(at, tool)))
  {
    hide Marker, Assembles, AfterBlockStart, Position;
    StartHolds(a, b, at, tool);
    if tool.Some? {
      var more := b.recs + [ToolRecord(OrElse(at, 0), tool.value.id, tool.value.name, None)];
      assert forall i :: 0 <= i < |b.recs| ==> more[i] == b.recs[i];
    }
  }

  lemma {:induction false} PositionInMore(recs: seq<ToolRecord>, r: ToolRecord, index: nat)
    ensures Position(recs + [r], index) ==
            if Position(recs, index) < |recs| || r.index == index then Position(recs, index) else |recs| + 1
  {
    if recs != [] {
      assert (recs + [r])[1..] == recs[1..] + [r];
      PositionInMore(recs[1..], r, index);
    }
  }

  lemma StartHolds(a: Assembled, b: Blocks, at: Option<nat>, tool: Option<Tool>)
    requires a.Valid() && Holds(a, b) && KeyedStep(b, BlockStart(at, tool))
    ensures Holds(AfterBlockStart(a, at, tool), Routed(b, BlockStart(at, tool)))
  {
    hide Marker, Assembles, Position;
    StartKeepsBuffers(a, b.recs, at, tool);
    var c, d := Routed(b, BlockStart(at, tool)), AfterBlockStart(a, at, tool);
    if tool.Some? {
      var r := ToolRecord(OrElse(at, 0), tool.value.id, tool.value.name, None);
      assert c.recs == b.recs + [r];
      forall i: nat | i < c.size && Position(c.recs, i) == |c.recs|
        ensures d.argBuffers[i] == OtherText(c, i)
      {
        PositionInMore(b.recs, r, i);
      }
    }
  }

  /** The assembler's part of a fragment. */
  lemma FragmentAssembled(a: Assembled, recs: seq<ToolRecord>, p: nat, partial: string)
    requires a.Valid() && p < |recs| && Distinct(recs)
    requires forall i :: 0 <= i < |recs| ==> Assembles(a, recs[i])
    requires recs[p].args.Some? ==> MarkedId(recs[p].args.value) == None
    ensures var (b, out) := AfterArgsDelta(a, recs[p].index, partial);
            && out == Some(ToolCallDelta(if recs[p].args.Some? then None else Some(recs[p].id), None, Some(partial)))
            && forall i :: 0 <= i < |recs| ==> Assembles(b, if i == p then WithFragment(recs[p], partial) else recs[i])
  {
    hide Marker, MarkedId;
    MarkerCarriesId(recs[p].id);
    var b := AfterArgsDelta(a, recs[p].index, partial).0;
    forall i | 0 <= i < |recs|
      ensures Assembles(b, if i == p then WithFragment(recs[p], partial) else recs[i])
    {
      assert Assembles(a, recs[i]) && Assembles(a, recs[p]);
    }
  }

  lemma NewCallIsOrdered(b: Blocks, p: nat, partial: string)
    requires Ordered(b) && p < |b.recs| && b.recs[p].args.None?
    ensures Ordered(b.(recs := b.recs[p := WithFragment(b.recs[p], partial)], order := b.order + [p], texts := b.texts + [partial]))
  {
    var c := b.(recs := b.recs[p := WithFragment(b.recs[p], partial)], order := b.order + [p], texts := b.texts + [partial]);
    forall q: nat | q < |c.recs| && c.recs[q].args.Some?
      ensures q in c.order
    {
      assert q == p || b.recs[q].args.Some?;
    }
  }

  /** The sink after a delta with an id it has no call for. */
  lemma NewCall(s: Captured, id: string, partial: string)
    requires s.Valid() && forall k :: 0 <= k < |s.calls| ==> s.calls[k].id != id
    ensures var t := Sent(s, ToolCallDelta(Some(id), None, Some(partial)));
            && t.calls == s.calls + [ToolCall(id, "", Null)]
            && t.argBuffers == s.argBuffers + [partial] && t.nameBuffers == s.nameBuffers + [""]
  {
    NoSuchCall(s.calls, id);
    assert "" + partial == partial;
  }

  /** The sink's part of a first fragment: a new call. */
  lemma FirstFragmentCaptured(s: Captured, b: Blocks, p: nat, partial: string)
    requires s.Valid() && Distinct(b.recs) && Ordered(b) && Captures(s, b)
    requires p < |b.recs| && b.recs[p].args.None?
    ensures var t := Sent(s, ToolCallDelta(Some(b.recs[p].id), None, Some(partial)));
            var c := b.(recs := b.recs[p := WithFragment(b.recs[p], partial)], order := b.order + [p], texts := b.texts + [partial]);
            Ordered(c) && Captures(t, c)
  {
    hide Sent;
    forall k | 0 <= k < |s.calls|
      ensures s.calls[k].id != b.recs[p].id
    {
      assert b.order[k] != p;
    }
    NewCall(s, b.recs[p].id, partial);
    NewCallIsOrdered(b, p, partial);
  }

  /** The sink's part of a later fragment: the last call gets it. */
  lemma LaterFragmentCaptured(s: Captured, b: Blocks, p: nat, partial: string)
    requires s.Valid() && Distinct(b.recs) && Ordered(b) && Captures(s, b)
    requires p < |b.recs| && b.recs[p].args.Some?
    ensures b.texts != []
    ensures var t := Sent(s, ToolCallDelta(None, None, Some(partial)));
            var c := b.(recs := b.recs[p := WithFragment(b.recs[p], partial)], texts := LastExtended(b.texts, partial));
            Ordered(c) && Captures(t, c)
  {
    assert p in b.order;
    var c := b.(recs := b.recs[p := WithFragment(b.recs[p], partial)]);
    assert forall q: nat :: q < |b.recs| ==> (c.recs[q].args.Some? <==> b.recs[q].args.Some?) && c.recs[q].id == b.recs[q].id;
  }

  /** The assembler after a fragment for a tool block. */
  lemma FragmentHolds(a: Assembled, b: Blocks, p: nat, partial: string, order: seq<nat>, texts: seq<string>)
    requires a.Valid() && Holds(a, b) && Distinct(b.recs) && p < |b.recs|
    requires b.recs[p].args.Some? ==> MarkedId(b.recs[p].args.value) == None
    ensures var (c, out) := AfterArgsDelta(a, b.recs[p].index, partial);
            && out == Some(ToolCallDelta(if b.recs[p].args.Some? then None else Some(b.recs[p].id), None, Some(partial)))
            && Holds(c, Blocks(b.recs[p := WithFragment(b.recs[p], partial)], order, texts, b.size, b.others))
  {
    hide MarkedId, Marker, Assembles, Position;
    FragmentAssembled(a, b.recs, p, partial);
    assert Assembles(a, b.recs[p]) ==> b.recs[p].index < |a.argBuffers| by {
      AssembledWithin(a, b.recs[p]);
    }
    var recs := b.recs[p := WithFragment(b.recs[p], partial)];
    var c := AfterArgsDelta(a, b.recs[p].index, partial).0;
    forall i: nat | i < b.size
      ensures Position(recs, i) == Position(b.recs, i)
      ensures Position(b.recs, i) == |b.recs| ==> c.argBuffers[i] == a.argBuffers[i]
    {
      SamePosition(b.recs, p, partial, i);
    }
  }

  lemma AssembledWithin(a: Assembled, r: ToolRecord)
    requires a.Valid()
    ensures Assembles(a, r) ==> r.index < |a.argBuffers|
  {
  }

  lemma {:induction false} SamePosition(recs: seq<ToolRecord>, p: nat, partial: string, index: nat)
    requires p < |recs|
    ensures Position(recs[p := WithFragment(recs[p], partial)], index) == Position(recs, index)
    ensures Position(recs, index) == |recs| ==> recs[p].index != index
  {
    var more := recs[p := WithFragment(recs[p], partial)];
    if p == 0 {
      assert more[1..] == recs[1..];
    } else if recs[0].index != index {
      assert more[1..] == recs[1..][p - 1 := WithFragment(recs[1..][p - 1], partial)];
      SamePosition(recs[1..], p - 1, partial, index);
    }
  }

  /** The assembler after a fragment for a block that is no tool block, or not there. */
  lemma OtherFragmentHolds(a: Assembled, b: Blocks, index: nat, partial: string)
    requires a.Valid() && Holds(a, b) && Position(b.recs, index) == |b.recs| && MarkedId(OtherText(b, index)) == None
    ensures var (c, out) := AfterArgsDelta(a, index, partial);
            && out == (if index < b.size then Some(ToolCallDelta(None, None, Some(partial))) else None)
            && Holds(c, Routed(b, ArgsDelta(index, partial)))
  {
    hide MarkedId, Marker, Position;
    var c := AfterArgsDelta(a, index, partial).0;
    forall i | 0 <= i < |b.recs|
      ensures Assembles(c, b.recs[i])
    {
      assert Assembles(a, b.recs[i]) && b.recs[i].index != index by {
        NoPosition(b.recs, index, i);
      }
    }
  }

  /** The sink after it: the last call gets the fragment, if there is a call. */
  lemma OtherFragmentCaptured(s: Captured, b: Blocks, partial: string)
    requires s.Valid() && Ordered(b) && Captures(s, b)
    ensures var t := Sent(s, ToolCallDelta(None, None, Some(partial)));
            var c := b.(texts := LastExtended(b.texts, partial));
            Ordered(c) && Captures(t, c)
  {
  }

  lemma OtherFragmentTracks(a: Assembled, s: Captured, b: Blocks, index: nat, partial: string)
    requires a.Valid() && s.Valid() && Tracks(a, s, b)
    requires Position(b.recs, index) == |b.recs| && MarkedId(OtherText(b, index)) == None
    ensures var (c, t) := AppliedOne(a, s, ArgsDelta(index, partial));
            Tracks(c, t, Routed(b, ArgsDelta(index, partial)))
  {
    hide AfterArgsDelta, Sent, MarkedId, Marker, Position, Holds, Distinct, LastExtended, OtherText;
    OtherFragmentHolds(a, b, index, partial);
    OtherFragmentCaptured(s, b, partial);
  }

  lemma NoPosition(recs: seq<ToolRecord>, index: nat, i: nat)
    requires Position(recs, index) == |recs| && i < |recs|
    ensures recs[i].index != index
  {
  }

  lemma FragmentTracks(a: Assembled, s: Captured, b: Blocks, index: nat, partial: string)
    requires a.Valid() && s.Valid() && Tracks(a, s, b) && KeyedStep(b, ArgsDelta(index, partial))
    ensures var (c, t) := AppliedOne(a, s, ArgsDelta(index, partial));
            Tracks(c, t, Routed(b, ArgsDelta(index, partial)))
  {
    hide AfterArgsDelta, Sent, MarkedId, Holds, Ordered, Captures;
    var p := Position(b.recs, index);
    if p == |b.recs| {
      OtherFragmentTracks(a, s, b, index, partial);
    } else {
      if b.recs[p].args.None? {
        FragmentHolds(a, b, p, partial, b.order + [p], b.texts + [partial]);
        FirstFragmentCaptured(s, b, p, partial);
      } else {
        FragmentHolds(a, b, p, partial, b.order, LastExtended(b.texts, partial));
        LaterFragmentCaptured(s, b, p, partial);
      }
    }
  }

  lemma OtherTracks(a: Assembled, s: Captured, b: Blocks, m: Meaning)
    requires a.Valid() && s.Valid() && Tracks(a, s, b) && !m.BlockStart? && !m.ArgsDelta?
    ensures var (c, t) := AppliedOne(a, s, m); Tracks(c, t, b)
  {
    hide Position, Marker;
    var (c, t) := AppliedOne(a, s, m);
    assert forall i :: 0 <= i < |b.recs| ==> Assembles(a, b.recs[i]) ==> Assembles(c, b.recs[i]);
  }

  // ----- Texts -----

  /** The text of the sink, of the response and of the stream are the same, for every stream. */
  lemma {:induction false} TextsAgree(a: Assembled, s: Captured, ms: seq<Meaning>)
    requires a.Valid() && s.Valid()
    ensures var (b, t) := Applied(a, s, ms);
            b.text == a.text + CollectText(ms) && t.text == s.text + CollectText(ms)
  {
    if ms == [] {
      assert a.text + [] == a.text && s.text + [] == s.text;
    } else {
      TextsAgree(a, s, ms[..|ms| - 1]);
      var (b, t) := Applied(a, s, ms[..|ms| - 1]);
      TextStep(b, t, ms[|ms| - 1]);
    }
  }

  lemma TextStep(a: Assembled, s: Captured, m: Meaning)
    requires a.Valid() && s.Valid()
    ensures var (b, t) := AppliedOne(a, s, m);
            var more := if m.TextDelta? then m.text else "";
            b.text == a.text + more && t.text == s.text + more
  {
    assert a.text + "" == a.text && s.text + "" == s.text;
  }

  // ----- Arguments -----

  /** Along every stream whose blocks have their own keys, interleaved or not, assembler and sink hold
      what the stream says. */
  lemma {:induction false} StreamTracks(model: string, s: Captured, ms: seq<Meaning>)
    requires s.Valid() && s.calls == [] && Keyed(ms)
    ensures var (a, t) := Applied(Fresh(model), s, ms);
            Tracks(a, t, Collect(ms))
  {
    if ms != [] {
      var n := |ms| - 1;
      StreamTracks(model, s, ms[..n]);
      var (a, t) := Applied(Fresh(model), s, ms[..n]);
      hide Applied, AfterBlockStart, AfterArgsDelta, Tracks, KeyedStep;
      match ms[n]
      case BlockStart(at, tool) => StartTracks(a, t, Collect(ms[..n]), at, tool); StepAgrees(model, s, ms);
      case ArgsDelta(index, partial) => FragmentTracks(a, t, Collect(ms[..n]), index, partial); StepAgrees(model, s, ms);
      case _ => OtherTracks(a, t, Collect(ms[..n]), ms[n]); StepAgrees(model, s, ms);
    }
  }

  lemma StepAgrees(model: string, s: Captured, ms: seq<Meaning>)
    requires s.Valid() && ms != []
    ensures var (a, t) := Applied(Fresh(model), s, ms[..|ms| - 1]);
            Applied(Fresh(model), s, ms) == AppliedOne(a, t, ms[|ms| - 1])
  {
  }

  // ----- When the buffers agree -----

  /** Every call of the sink holds the text that the assembler holds for the block with its id. */
  predicate BuffersAgree(a: Assembled, s: Captured, recs: seq<ToolRecord>)
    requires a.Valid() && s.Valid()
  {
    forall n, i :: 0 <= n < |s.calls| && 0 <= i < |recs| && s.calls[n].id == recs[i].id ==>
                     recs[i].index < |a.argBuffers| && s.argBuffers[n] == a.argBuffers[recs[i].index]
  }

  predicate Matches(b: Blocks)
    requires Ordered(b)
  {
    forall k :: 0 <= k < |b.order| ==> b.texts[k] == b.recs[b.order[k]].args.value
  }

  lemma AgreeIsMatch(a: Assembled, s: Captured, b: Blocks)
    requires a.Valid() && s.Valid() && Tracks(a, s, b)
    ensures BuffersAgree(a, s, b.recs) <==> Matches(b)
  {
    hide Marker;
    if BuffersAgree(a, s, b.recs) {
      forall k | 0 <= k < |b.order|
        ensures b.texts[k] == b.recs[b.order[k]].args.value
      {
        assert s.calls[k].id == b.recs[b.order[k]].id && Assembles(a, b.recs[b.order[k]]);
      }
    }
    if Matches(b) {
      forall n, i | 0 <= n < |s.calls| && 0 <= i < |b.recs| && s.calls[n].id == b.recs[i].id
        ensures b.recs[i].index < |a.argBuffers| && s.argBuffers[n] == a.argBuffers[b.recs[i].index]
      {
        assert i == b.order[n] && Assembles(a, b.recs[i]);
      }
    }
  }

  /** A stray fragment, and nothing else, parts texts that matched: it extends its block in the
      assembler and another block's call in the sink. */
  lemma StrayParts(b: Blocks, m: Meaning)
    requires Ordered(b) && Matches(b) && KeyedStep(b, m) && Ordered(Routed(b, m))
    ensures Matches(Routed(b, m)) <==> !Stray(b, m)
  {
    hide MarkedId, Position;
    if m.ArgsDelta? {
      if Position(b.recs, m.index) == |b.recs| {
        OtherParts(b, m);
      } else {
        ToolParts(b, m);
      }
    }
  }

  lemma OtherParts(b: Blocks, m: Meaning)
    requires Ordered(b) && Matches(b) && m.ArgsDelta? && Position(b.recs, m.index) == |b.recs| && Ordered(Routed(b, m))
    ensures Matches(Routed(b, m)) <==> !Stray(b, m)
  {
    hide Position;
    var c, last := Routed(b, m), |b.order| - 1;
    if m.index < b.size && last >= 0 {
      assert c.texts[last] == b.texts[last] + m.partial;
      assert b.texts[last] == b.recs[b.order[last]].args.value;
      if m.partial == [] {
        assert b.texts[last] + [] == b.texts[last];
      } else {
        assert |c.texts[last]| != |b.texts[last]|;
      }
    }
  }

  lemma ToolParts(b: Blocks, m: Meaning)
    requires Ordered(b) && Matches(b) && m.ArgsDelta? && Position(b.recs, m.index) < |b.recs| && Ordered(Routed(b, m))
    ensures Matches(Routed(b, m)) <==> !Stray(b, m)
  {
    var p, c := Position(b.recs, m.index), Routed(b, m);
    if b.recs[p].args.Some? {
      assert p in b.order;
      var last := |b.order| - 1;
      var q := b.order[last];
      assert c.texts[last] == b.texts[last] + m.partial;
      if q == p {
        assert c.recs[q].args.value == b.recs[q].args.value + m.partial;
      } else if m.partial == [] {
        assert forall x: string :: x + [] == x;
      }
    } else {
      assert "" + m.partial == m.partial;
    }
  }

  /** What a stray fragment does: its block gets it in the assembler, the call of another block gets it in
      the sink, and buffers that agreed no longer do. */
  lemma InterleavedFragmentIsMisrouted(a: Assembled, s: Captured, b: Blocks, m: Meaning)
    requires a.Valid() && s.Valid() && Tracks(a, s, b) && KeyedStep(b, m) && Stray(b, m)
    ensures var (c, t) := AppliedOne(a, s, m);
            var n := |s.argBuffers| - 1;
            && m.index < |a.argBuffers| && c == a.(argBuffers := a.argBuffers[m.index := a.argBuffers[m.index] + m.partial])
            && t.calls == s.calls && n >= 0
            && (forall i :: 0 <= i < |b.recs| && b.recs[i].index == m.index ==> s.calls[n].id != b.recs[i].id)
            && t.argBuffers == s.argBuffers[n := s.argBuffers[n] + m.partial]
            && (BuffersAgree(a, s, b.recs) ==> !BuffersAgree(c, t, Routed(b, m).recs))
  {
    hide AppliedOne, Routed, Tracks, Distinct, Ordered, Holds, Captures, KeyedStep, Stray, BuffersAgree;
    StrayTracks(a, s, b, m);
    StrayAgreement(a, s, b, m);
    StrayAssembled(a, s, b, m);
    StrayCaptured(s, AppliedOne(a, s, m).1, b, m);
  }

  lemma StrayTracks(a: Assembled, s: Captured, b: Blocks, m: Meaning)
    requires a.Valid() && s.Valid() && Tracks(a, s, b) && KeyedStep(b, m) && Stray(b, m)
    ensures m.ArgsDelta? && Distinct(b.recs) && Ordered(b) && Holds(a, b) && Captures(s, b)
    ensures var (c, t) := AppliedOne(a, s, m);
            Tracks(c, t, Routed(b, m)) && Ordered(Routed(b, m)) && Captures(t, Routed(b, m))
  {
    hide AppliedOne, Routed, Distinct, Ordered, Holds, Captures, KeyedStep;
    FragmentTracks(a, s, b, m.index, m.partial);
  }

  lemma StrayAgreement(a: Assembled, s: Captured, b: Blocks, m: Meaning)
    requires a.Valid() && s.Valid() && Tracks(a, s, b) && KeyedStep(b, m) && Stray(b, m)
    ensures var (c, t) := AppliedOne(a, s, m);
            BuffersAgree(a, s, b.recs) ==> !BuffersAgree(c, t, Routed(b, m).recs)
  {
    hide *;
    StrayTracks(a, s, b, m);
    var (c, t) := AppliedOne(a, s, m);
    AgreeIsMatch(a, s, b);
    AgreeIsMatch(c, t, Routed(b, m));
    if Matches(b) {
      StrayParts(b, m);
    }
  }

  lemma StrayAssembled(a: Assembled, s: Captured, b: Blocks, m: Meaning)
    requires a.Valid() && s.Valid() && Holds(a, b) && KeyedStep(b, m) && Stray(b, m)
    ensures m.index < |a.argBuffers|
    ensures AppliedOne(a, s, m).0 == a.(argBuffers := a.argBuffers[m.index := a.argBuffers[m.index] + m.partial])
  {
    hide MarkedId, Marker;
    var p := Position(b.recs, m.index);
    assert p < |b.recs| ==> Assembles(a, b.recs[p]);
  }

  lemma StrayCaptured(s: Captured, t: Captured, b: Blocks, m: Meaning)
    requires s.Valid() && t.Valid() && Ordered(b) && Captures(s, b) && Stray(b, m) && Distinct(b.recs)
    requires Ordered(Routed(b, m)) && Captures(t, Routed(b, m))
    ensures t.calls == s.calls && s.calls != []
    ensures var n := |s.calls| - 1;
            && t.argBuffers == s.argBuffers[n := s.argBuffers[n] + m.partial]
            && forall i :: 0 <= i < |b.recs| && b.recs[i].index == m.index ==> s.calls[n].id != b.recs[i].id
  {
    var c, n := Routed(b, m), |s.calls| - 1;
    StrayRouted(b, m);
    forall k | 0 <= k < |s.calls|
      ensures t.calls[k] == s.calls[k]
    {
      assert c.recs[b.order[k]].id == b.recs[b.order[k]].id;
    }
    forall i | 0 <= i < |b.recs| && b.recs[i].index == m.index
      ensures s.calls[n].id != b.recs[i].id
    {
      assert i != b.order[n];
    }
  }

  /** A stray fragment makes no call, and its block is not that of the last call. */
  lemma StrayRouted(b: Blocks, m: Meaning)
    requires Ordered(b) && Distinct(b.recs) && Stray(b, m)
    ensures var c := Routed(b, m);
            && |c.recs| == |b.recs| && (forall i :: 0 <= i < |b.recs| ==> c.recs[i].id == b.recs[i].id)
            && c.order == b.order && c.texts == LastExtended(b.texts, m.partial)
    ensures forall i :: 0 <= i < |b.recs| && b.recs[i].index == m.index ==> i != b.order[|b.order| - 1]
  {
  }

  lemma {:induction false} KeyedPrefix(ms: seq<Meaning>, n: nat)
    requires Keyed(ms) && n <= |ms|
    ensures Keyed(ms[..n])
    ensures n < |ms| ==> KeyedStep(Collect(ms[..n]), ms[n])
  {
    hide KeyedStep;
    if n < |ms| {
      var m := |ms| - 1;
      if n < m {
        KeyedPrefix(ms[..m], n);
        assert ms[..m][..n] == ms[..n] && ms[..m][n] == ms[n];
      }
    } else {
      assert ms[..n] == ms;
    }
  }

  lemma CollectIsOrdered(ms: seq<Meaning>)
    requires Keyed(ms)
    ensures Ordered(Collect(ms))
  {
    hide Collect, Ordered, Keyed;
    StreamTracks("", NOTHING_CAPTURED, ms);
  }

  lemma MatchNext(ms: seq<Meaning>, n: nat)
    requires Keyed(ms) && n < |ms|
    ensures Ordered(Collect(ms[..n])) && Ordered(Collect(ms[..n + 1]))
    ensures Matches(Collect(ms[..n])) ==> (Matches(Collect(ms[..n + 1])) <==> !Stray(Collect(ms[..n]), ms[n]))
  {
    hide *;
    KeyedPrefix(ms, n);
    KeyedPrefix(ms, n + 1);
    CollectIsOrdered(ms[..n]);
    CollectIsOrdered(ms[..n + 1]);
    CollectNext(ms, n);
    if Matches(Collect(ms[..n])) {
      StrayParts(Collect(ms[..n]), ms[n]);
    }
  }

  lemma {:induction false} MatchWithoutStray(ms: seq<Meaning>, n: nat)
    requires Keyed(ms) && n <= |ms|
    requires forall k :: 0 <= k < n ==> !Stray(Collect(ms[..k]), ms[k])
    ensures Ordered(Collect(ms[..n])) && Matches(Collect(ms[..n]))
  {
    hide *;
    if n == 0 {
      NothingMatches(ms);
    } else {
      MatchWithoutStray(ms, n - 1);
      MatchNext(ms, n - 1);
    }
  }

  lemma NothingMatches(ms: seq<Meaning>)
    ensures Ordered(Collect(ms[..0])) && Matches(Collect(ms[..0]))
  {
  }

  lemma CollectNext(ms: seq<Meaning>, n: nat)
    requires n < |ms|
    ensures Collect(ms[..n + 1]) == Routed(Collect(ms[..n]), ms[n])
  {
    assert ms[..n + 1][..n] == ms[..n];
  }

  // ----- What a stray fragment leaves for good -----

  function ArgLength(recs: seq<ToolRecord>, p: nat): nat {
    if p < |recs| && recs[p].args.Some? then |recs[p].args.value| else 0
  }

  /** The length of all texts. */
  function TextTotal(texts: seq<string>): nat {
    if texts == [] then 0 else TextTotal(texts[..|texts| - 1]) + |texts[|texts| - 1]|
  }

  /** The length of the texts of the blocks with a call. */
  function CalledTotal(recs: seq<ToolRecord>, order: seq<nat>): nat {
    if order == [] then 0 else CalledTotal(recs, order[..|order| - 1]) + ArgLength(recs, order[|order| - 1])
  }

  /** A call that is not the last is shorter than its block, or the calls together are longer than their
      blocks. */
  ghost predicate Parted(b: Blocks)
    requires Ordered(b)
  {
    || (exists k :: 0 <= k < |b.order| - 1 && |b.texts[k]| < ArgLength(b.recs, b.order[k]))
    || CalledTotal(b.recs, b.order) < TextTotal(b.texts)
  }

  lemma {:induction false} MatchingTotals(recs: seq<ToolRecord>, order: seq<nat>, texts: seq<string>)
    requires |texts| == |order| && forall k :: 0 <= k < |order| ==> |texts[k]| == ArgLength(recs, order[k])
    ensures TextTotal(texts) == CalledTotal(recs, order)
  {
    if order != [] {
      MatchingTotals(recs, order[..|order| - 1], texts[..|texts| - 1]);
    }
  }

  lemma PartedIsNoMatch(b: Blocks)
    requires Ordered(b) && Parted(b)
    ensures !Matches(b)
  {
    if Matches(b) {
      MatchingTotals(b.recs, b.order, b.texts);
    }
  }

  lemma {:induction false} SameCalledTotal(recs: seq<ToolRecord>, more: seq<ToolRecord>, order: seq<nat>)
    requires forall k :: 0 <= k < |order| ==> ArgLength(recs, order[k]) == ArgLength(more, order[k])
    ensures CalledTotal(recs, order) == CalledTotal(more, order)
  {
    if order != [] {
      SameCalledTotal(recs, more, order[..|order| - 1]);
    }
  }

  /** A fragment counts for the called blocks once, if its block is called. */
  lemma {:induction false} MoreCalledTotal(recs: seq<ToolRecord>, order: seq<nat>, p: nat, partial: string)
    requires p < |recs| && forall j, k :: 0 <= j < k < |order| ==> order[j] != order[k]
    ensures var more := recs[p := WithFragment(recs[p], partial)];
            && (p in order ==> CalledTotal(more, order) == CalledTotal(recs, order) + |partial|)
            && (p !in order ==> CalledTotal(more, order) == CalledTotal(recs, order))
  {
    if order != [] {
      var n := |order| - 1;
      assert order == order[..n] + [order[n]];
      MoreCalledTotal(recs, order[..n], p, partial);
    }
  }

  lemma LastExtendedTotal(texts: seq<string>, partial: string)
    ensures TextTotal(LastExtended(texts, partial)) == TextTotal(texts) + if texts == [] then 0 else |partial|
  {
    if texts != [] {
      var n := |texts| - 1;
      assert LastExtended(texts, partial)[..n] == texts[..n];
    }
  }

  lemma PartedStaysAtStart(b: Blocks, m: Meaning)
    requires Ordered(b) && Ordered(Routed(b, m)) && !m.ArgsDelta? && Parted(b)
    ensures Parted(Routed(b, m))
  {
    SameCalledTotal(b.recs, Routed(b, m).recs, b.order);
    assert forall k :: 0 <= k < |b.order| ==> ArgLength(Routed(b, m).recs, b.order[k]) == ArgLength(b.recs, b.order[k]);
  }

  /** A fragment leaves the texts of all calls but the last, and shortens no block. */
  lemma FragmentKeepsOthers(b: Blocks, m: Meaning, k: nat)
    requires Ordered(b) && m.ArgsDelta? && k < |b.order| - 1
    ensures var c := Routed(b, m);
            && |c.order| >= |b.order| && |c.texts| == |c.order|
            && c.texts[k] == b.texts[k] && c.order[k] == b.order[k]
            && ArgLength(b.recs, b.order[k]) <= ArgLength(c.recs, c.order[k])
  {
  }

  lemma FirstFragmentTotals(b: Blocks, p: nat, partial: string)
    requires Ordered(b) && p < |b.recs| && b.recs[p].args.None?
    ensures CalledTotal(b.recs[p := WithFragment(b.recs[p], partial)], b.order + [p]) == CalledTotal(b.recs, b.order) + |partial|
    ensures TextTotal(b.texts + [partial]) == TextTotal(b.texts) + |partial|
  {
    MoreCalledTotal(b.recs, b.order, p, partial);
    assert p !in b.order;
    assert (b.order + [p])[..|b.order|] == b.order && (b.texts + [partial])[..|b.texts|] == b.texts;
  }

  lemma LaterFragmentTotals(b: Blocks, p: nat, partial: string)
    requires Ordered(b) && p < |b.recs| && b.recs[p].args.Some?
    ensures CalledTotal(b.recs[p := WithFragment(b.recs[p], partial)], b.order) == CalledTotal(b.recs, b.order) + |partial|
    ensures b.texts != []
  {
    MoreCalledTotal(b.recs, b.order, p, partial);
    assert p in b.order;
  }

  /** A fragment makes the calls longer by at least what it makes the called blocks longer. */
  lemma FragmentTotals(b: Blocks, m: Meaning)
    requires Ordered(b) && m.ArgsDelta?
    ensures |b.texts| == |b.order|
    ensures var c := Routed(b, m);
            CalledTotal(c.recs, c.order) + TextTotal(b.texts) <= TextTotal(c.texts) + CalledTotal(b.recs, b.order)
  {
    hide LastExtended, Position, CalledTotal, TextTotal, WithFragment;
    var p := Position(b.recs, m.index);
    LastExtendedTotal(b.texts, m.partial);
    if p < |b.recs| {
      if b.recs[p].args.None? {
        FirstFragmentTotals(b, p, m.partial);
      } else {
        LaterFragmentTotals(b, p, m.partial);
      }
    }
  }

  lemma PartedStaysAtFragment(b: Blocks, m: Meaning)
    requires Ordered(b) && Ordered(Routed(b, m)) && m.ArgsDelta? && Parted(b)
    ensures Parted(Routed(b, m))
  {
    hide Routed, Ordered, CalledTotal, TextTotal, ArgLength;
    FragmentTotals(b, m);
    if k :| 0 <= k < |b.order| - 1 && |b.texts[k]| < ArgLength(b.recs, b.order[k]) {
      FragmentKeepsOthers(b, m, k);
    }
  }

  lemma ExtendsLast(texts: seq<string>, partial: string)
    ensures forall k :: 0 <= k < |texts| - 1 ==> LastExtended(texts, partial)[k] == texts[k]
  {
  }

  lemma StrayIsParted(b: Blocks, m: Meaning)
    requires Ordered(b) && Matches(b) && Ordered(Routed(b, m)) && Stray(b, m)
    ensures Parted(Routed(b, m))
  {
    hide TextTotal, CalledTotal, LastExtended;
    var p, c := Position(b.recs, m.index), Routed(b, m);
    if p < |b.recs| {
      assert p in b.order;
      ExtendsLast(b.texts, m.partial);
      var j :| 0 <= j < |b.order| && b.order[j] == p;
      assert c.texts[j] == b.texts[j] && |c.texts[j]| < ArgLength(c.recs, c.order[j]);
    } else {
      LastExtendedTotal(b.texts, m.partial);
      MatchingTotals(b.recs, b.order, b.texts);
    }
  }

  /** From the first stray fragment on, the texts stay parted. */
  lemma {:induction false} PartedForGood(ms: seq<Meaning>, n: nat)
    requires Keyed(ms) && n <= |ms| && exists k :: 0 <= k < n && Stray(Collect(ms[..k]), ms[k])
    ensures Ordered(Collect(ms[..n])) && Parted(Collect(ms[..n]))
  {
    hide *;
    KeyedPrefix(ms, n - 1);
    KeyedPrefix(ms, n);
    CollectIsOrdered(ms[..n - 1]);
    CollectIsOrdered(ms[..n]);
    CollectNext(ms, n - 1);
    if exists k :: 0 <= k < n - 1 && Stray(Collect(ms[..k]), ms[k]) {
      PartedForGood(ms, n - 1);
      if ms[n - 1].ArgsDelta? {
        PartedStaysAtFragment(Collect(ms[..n - 1]), ms[n - 1]);
      } else {
        PartedStaysAtStart(Collect(ms[..n - 1]), ms[n - 1]);
      }
    } else {
      MatchWithoutStray(ms, n - 1);
      StrayIsParted(Collect(ms[..n - 1]), ms[n - 1]);
    }
  }

  /** After a stream with own keys every call of the sink has its block's text exactly when no fragment
      was stray. */
  lemma MatchExactly(ms: seq<Meaning>)
    requires Keyed(ms)
    ensures Ordered(Collect(ms)) && (Matches(Collect(ms)) <==> KeptApart(ms))
  {
    hide Collect, Stray, Matches, Ordered, Keyed, Parted;
    assert ms[..|ms|] == ms;
    CollectIsOrdered(ms);
    if KeptApart(ms) {
      MatchWithoutStray(ms, |ms|);
    } else {
      PartedForGood(ms, |ms|);
      PartedIsNoMatch(Collect(ms));
    }
  }

  /** What a stream leaves, and when the buffers of assembler and sink agree at its end: exactly when no
      fragment was stray. */
  lemma ArgumentsAgree(model: string, s: Captured, ms: seq<Meaning>)
    requires s.Valid() && s.calls == [] && Keyed(ms)
    ensures var (a, t) := Applied(Fresh(model), s, ms);
            && Tracks(a, t, Collect(ms))
            && (BuffersAgree(a, t, Collect(ms).recs) <==> KeptApart(ms))
            && (Matches(Collect(ms)) <==> KeptApart(ms))
  {
    hide Applied, BuffersAgree, KeptApart, Collect, Keyed, Tracks, Ordered, Matches;
    StreamTracks(model, s, ms);
    var (a, t) := Applied(Fresh(model), s, ms);
    MatchExactly(ms);
    AgreeIsMatch(a, t, Collect(ms));
  }

  lemma KeptApartPrefix(ms: seq<Meaning>, n: nat)
    requires n <= |ms| && KeptApart(ms)
    ensures KeptApart(ms[..n])
  {
    hide Stray, Collect;
    forall k | 0 <= k < n
      ensures !Stray(Collect(ms[..n][..k]), ms[..n][k])
    {
      assert ms[..n][..k] == ms[..k];
    }
  }

  /** Agreement after every prefix is the same as agreement at the end. */
  lemma BuffersAgreeExactly(model: string, s: Captured, ms: seq<Meaning>)
    requires s.Valid() && s.calls == [] && Keyed(ms)
    ensures (forall n :: 0 <= n <= |ms| ==>
               var (a, t) := Applied(Fresh(model), s, ms[..n]);
               BuffersAgree(a, t, Collect(ms[..n]).recs)) <==> KeptApart(ms)
  {
    hide Applied, BuffersAgree, KeptApart, Collect, Keyed, Tracks, Matches;
    assert ms[..|ms|] == ms;
    forall n | 0 <= n <= |ms|
      ensures var (a, t) := Applied(Fresh(model), s, ms[..n]);
              BuffersAgree(a, t, Collect(ms[..n]).recs) <==> KeptApart(ms[..n])
    {
      KeyedPrefix(ms, n);
      ArgumentsAgree(model, s, ms[..n]);
    }
    if KeptApart(ms) {
      forall n | 0 <= n <= |ms|
        ensures KeptApart(ms[..n])
      {
        KeptApartPrefix(ms, n);
      }
    }
  }

  // ----- The finished response -----

  lemma {:induction false} CallIsInResponse(a: Assembled, n: nat, i: nat)
    requires a.Valid() && i < n <= |a.argBuffers| && a.argBuffers[i] != []
    ensures ToolCall("toolu_stream_" + Timestamps.Decimal(i), a.names[i], ArgsValue(a.argBuffers[i])) in FinalCalls(a, n)
  {
    hide ArgsValue, Timestamps.Decimal;
    if i + 1 < n {
      CallIsInResponse(a, n - 1, i);
    }
  }

  lemma {:induction false} ResponseIsBuffers(a: Assembled, n: nat, c: ToolCall)
    requires a.Valid() && n <= |a.argBuffers| && c in FinalCalls(a, n)
    ensures exists i :: 0 <= i < n && a.argBuffers[i] != [] && c == ToolCall(StreamId(i), a.names[i], ArgsValue(a.argBuffers[i]))
  {
    hide ArgsValue, StreamId;
    if c in FinalCalls(a, n - 1) {
      ResponseIsBuffers(a, n - 1, c);
    } else {
      StreamIdIs(n - 1);
      assert c in CallOf(a, n - 1);
    }
  }

  /** The id that the response gives to the call of a block. */
  function StreamId(index: nat): string {
    "toolu_stream_" + Timestamps.Decimal(index)
  }

  lemma StreamIdIs(index: nat)
    ensures StreamId(index) == "toolu_stream_" + Timestamps.Decimal(index)
  {
  }

  lemma {:induction false} DecimalIsInjective(m: nat, n: nat)
    requires Timestamps.Decimal(m) == Timestamps.Decimal(n)
    ensures m == n
  {
    var x, y := Timestamps.Decimal(m), Timestamps.Decimal(n);
    assert x[|x| - 1] == y[|y| - 1];
    if m >= 10 && n >= 10 {
      assert x[..|x| - 1] == Timestamps.Decimal(m / 10) && y[..|y| - 1] == Timestamps.Decimal(n / 10);
      DecimalIsInjective(m / 10, n / 10);
    }
  }

  lemma StreamIdIsInjective(m: nat, n: nat)
    requires StreamId(m) == StreamId(n)
    ensures m == n
  {
    assert StreamId(m)[13..] == Timestamps.Decimal(m) && StreamId(n)[13..] == Timestamps.Decimal(n);
    DecimalIsInjective(m, n);
  }

  /** What the whole stream leaves in the sink, in terms of the meanings of its events. */
  lemma StreamedIsApplied(model: string, events: seq<Sse.Event>) returns (a: Assembled, t: Captured)
    ensures a.Valid() && t.Valid()
    ensures (a, t) == Applied(Fresh(model), Sent(NOTHING_CAPTURED, MessageStart(Skeleton(model))), Meanings(events))
    ensures Streamed(NOTHING_CAPTURED, model, events) ==
              t.(final := Some(Finalized(a)), eventCount := t.eventCount + 1)
  {
    hide Applied, Effect;
    DeliveredIsApplied(Fresh(model), Sent(NOTHING_CAPTURED, MessageStart(Skeleton(model))), events);
    var delivered := Delivered(Fresh(model), Sent(NOTHING_CAPTURED, MessageStart(Skeleton(model))), events);
    a, t := delivered.0, delivered.1;
  }

  /** For every stream the sink's text is the text of the final response. */
  lemma StreamedText(model: string, events: seq<Sse.Event>)
    ensures var t := Streamed(NOTHING_CAPTURED, model, events);
            && t.text == CollectText(Meanings(events))
            && t.final.Some? && t.final.value.content == t.text
  {
    hide Streamed, Applied;
    var a, t := StreamedIsApplied(model, events);
    TextsAgree(Fresh(model), Sent(NOTHING_CAPTURED, MessageStart(Skeleton(model))), Meanings(events));
    assert "" + CollectText(Meanings(events)) == CollectText(Meanings(events));
  }

  // ----- Stop reason and usage -----

  /** What the last message delta with a reason says, None where none has one. */
  function LastReason(ms: seq<Meaning>): Option<string> {
    if ms == [] then None
    else
      var m := ms[|ms| - 1];
      if m.MessageDelta? && m.stopReason.Some? then m.stopReason else LastReason(ms[..|ms| - 1])
  }

  /** What the last message delta with a count says. */
  function LastTokens(ms: seq<Meaning>): Option<nat> {
    if ms == [] then None
    else
      var m := ms[|ms| - 1];
      if m.MessageDelta? && m.outputTokens.Some? then m.outputTokens else LastTokens(ms[..|ms| - 1])
  }

  /** The stop reason that the answers of the interface stand for. */
  predicate Means(reason: Option<string>, stop: StopReason) {
    && (stop == StopReason.ToolUse <==> reason == Some("tool_use"))
    && (stop == StopReason.Length <==> reason == Some("max_tokens"))
    && (stop == StopReason.Stop <==> reason != Some("tool_use") && reason != Some("max_tokens"))
  }

  lemma {:induction false} ReasonAndUsage(model: string, s: Captured, ms: seq<Meaning>)
    requires s.Valid()
    ensures var a := Applied(Fresh(model), s, ms).0;
            && Means(LastReason(ms), a.stopReason)
            && a.outputTokens == OrElse(LastTokens(ms), 0) % 0x1_0000_0000
            && a.model == model
  {
    if ms != [] {
      var n := |ms| - 1;
      ReasonAndUsage(model, s, ms[..n]);
      var (a, t) := Applied(Fresh(model), s, ms[..n]);
      DeltaOnly(a, t, ms[n]);
      StepAgrees(model, s, ms);
    }
  }

  /** Only a message delta touches stop reason and usage. */
  lemma DeltaOnly(a: Assembled, s: Captured, m: Meaning)
    requires a.Valid() && s.Valid()
    ensures var b := AppliedOne(a, s, m).0;
            && b.model == a.model
            && (if m.MessageDelta? && m.stopReason.Some? then Means(m.stopReason, b.stopReason) else b.stopReason == a.stopReason)
            && b.outputTokens == (if m.MessageDelta? && m.outputTokens.Some? then m.outputTokens.value % 0x1_0000_0000 else a.outputTokens)
  {
  }

  /** For every stream: the final response stops for a tool call exactly when the last reason given is
      `tool_use`, for its length exactly when it is `max_tokens`, and normally otherwise; its usage is the
      last count given, in 32 bits; and it names the model asked for. */
  lemma StreamedEnd(model: string, events: seq<Sse.Event>)
    ensures var t, ms := Streamed(NOTHING_CAPTURED, model, events), Meanings(events);
            && t.final.Some?
            && Means(LastReason(ms), t.final.value.stopReason)
            && t.final.value.outputTokens == OrElse(LastTokens(ms), 0) % 0x1_0000_0000
            && t.final.value.model == model
  {
    hide Streamed, Applied, Means;
    var a, t := StreamedIsApplied(model, events);
    ReasonAndUsage(model, Sent(NOTHING_CAPTURED, MessageStart(Skeleton(model))), Meanings(events));
  }

  lemma MarkerIsNoText(id: string)
    ensures ArgsValue(Marker(id)) == String(Marker(id))
  {
    JsonLaws.SkipNothing(Marker(id));
    assert Marker(id)[0] == '_';
  }

  /** Call `c` of the final response is that of block `r`. */
  predicate Answers(response: Response, r: ToolRecord, c: ToolCall) {
    c in response.toolCalls && c.id == StreamId(r.index)
  }

  /** What the response holds for a block: the call with its name and its text, where there is text or
      a marker, and nothing where all its fragments were empty. */
  lemma ResponseOfBlock(a: Assembled, r: ToolRecord)
    requires a.Valid() && Assembles(a, r)
    ensures (exists c :: Answers(Finalized(a), r, c)) <==> r.args.None? || r.args.value != []
    ensures forall c :: Answers(Finalized(a), r, c) ==> c == ToolCall(StreamId(r.index), r.name, ArgsValue(TextOf(r)))
  {
    hide ArgsValue, StreamId, FinalCalls;
    forall c | Answers(Finalized(a), r, c)
      ensures TextOf(r) != [] && c == ToolCall(StreamId(r.index), r.name, ArgsValue(TextOf(r)))
    {
      ResponseIsBuffers(a, |a.argBuffers|, c);
      var i :| 0 <= i < |a.argBuffers| && a.argBuffers[i] != [] && c == ToolCall(StreamId(i), a.names[i], ArgsValue(a.argBuffers[i]));
      StreamIdIsInjective(i, r.index);
    }
    if TextOf(r) != [] {
      CallIsInResponse(a, |a.argBuffers|, r.index);
      StreamIdIs(r.index);
      assert Answers(Finalized(a), r, ToolCall(StreamId(r.index), a.names[r.index], ArgsValue(a.argBuffers[r.index])));
    }
  }

  /** What the sink holds for a block: one call without name, where the block had a fragment. */
  lemma SinkOfBlock(s: Captured, b: Blocks, p: nat)
    requires s.Valid() && Distinct(b.recs) && Ordered(b) && Captures(s, b) && p < |b.recs|
    ensures (exists n :: 0 <= n < |s.calls| && s.calls[n].id == b.recs[p].id) <==> b.recs[p].args.Some?
    ensures forall n :: 0 <= n < |s.calls| && s.calls[n].id == b.recs[p].id ==> b.order[n] == p && Promoted(s, n).name == ""
  {
    hide ArgsValue;
    if b.recs[p].args.Some? {
      var k :| 0 <= k < |b.order| && b.order[k] == p;
      assert s.calls[k].id == b.recs[p].id;
    }
    forall n | 0 <= n < |s.calls| && s.calls[n].id == b.recs[p].id
      ensures b.order[n] == p
    {
      assert s.calls[n].id == b.recs[b.order[n]].id;
    }
  }

  /** The call has what is in its buffer as its arguments when it is finalized. */
  lemma SinkArguments(s: Captured, b: Blocks, p: nat)
    requires s.Valid() && Distinct(b.recs) && Ordered(b) && Captures(s, b) && p < |b.recs|
    ensures forall n :: 0 <= n < |s.calls| && s.calls[n].id == b.recs[p].id ==>
              b.recs[p].args.Some? && Promoted(s, n) == ToolCall(b.recs[p].id, "", Finished(CallText(b, p)))
  {
    hide ArgsValue;
    SinkOfBlock(s, b, p);
    forall n | 0 <= n < |s.calls| && s.calls[n].id == b.recs[p].id
      ensures s.argBuffers[n] == CallText(b, p)
    {
      CallTextIs(b, n);
    }
  }

  /** The arguments of a finalized call of the sink. */
  function Finished(text: string): Value {
    if text == [] then Null else ArgsValue(text)
  }

  /** The text of the call of block `p`, or no text. */
  function CallText(b: Blocks, p: nat): string
    requires |b.texts| == |b.order|
    decreases |b.order|
  {
    if b.order == [] then []
    else
      var n := |b.order| - 1;
      if b.order[n] == p then b.texts[n] else CallText(b.(order := b.order[..n], texts := b.texts[..n]), p)
  }

  lemma {:induction false} CallTextIs(b: Blocks, n: nat)
    requires |b.texts| == |b.order| && n < |b.order|
    requires forall j, k :: 0 <= j < k < |b.order| ==> b.order[j] != b.order[k]
    ensures CallText(b, b.order[n]) == b.texts[n]
    decreases |b.order|
  {
    var m := |b.order| - 1;
    if n < m {
      CallTextIs(b.(order := b.order[..m], texts := b.texts[..m]), n);
    }
  }

  /** The finished sink and the response in it both have a call for block `r`, with equal arguments. */
  ghost predicate ArgumentsShared(t: Captured, r: ToolRecord)
    requires t.Valid() && t.final.Some?
  {
    exists n, c :: 0 <= n < |t.calls| && t.calls[n].id == r.id && Answers(t.final.value, r, c) && c.args == Promoted(t, n).args
  }

  /** Every call of the sink has the text that the stream gives its block. */
  ghost predicate HoldsTexts(t: Captured, recs: seq<ToolRecord>)
    requires t.Valid()
  {
    forall n, i :: 0 <= n < |t.calls| && 0 <= i < |recs| && t.calls[n].id == recs[i].id ==> recs[i].args == Some(t.argBuffers[n])
  }

  lemma HoldsIsMatch(t: Captured, b: Blocks)
    requires t.Valid() && Distinct(b.recs) && Ordered(b) && Captures(t, b)
    ensures HoldsTexts(t, b.recs) <==> Matches(b)
  {
    if HoldsTexts(t, b.recs) {
      forall k | 0 <= k < |b.order|
        ensures b.texts[k] == b.recs[b.order[k]].args.value
      {
        assert t.calls[k].id == b.recs[b.order[k]].id;
      }
    }
    if Matches(b) {
      forall n, i | 0 <= n < |t.calls| && 0 <= i < |b.recs| && t.calls[n].id == b.recs[i].id
        ensures b.recs[i].args == Some(t.argBuffers[n])
      {
        assert i == b.order[n];
      }
    }
  }

  /** At the end of a whole stream with own keys the sink's calls hold the texts of their blocks exactly
      when no fragment was stray. */
  lemma StreamedBuffers(model: string, events: seq<Sse.Event>)
    requires Keyed(Meanings(events))
    ensures var t := Streamed(NOTHING_CAPTURED, model, events);
            t.Valid() && (HoldsTexts(t, Collect(Meanings(events)).recs) <==> KeptApart(Meanings(events)))
  {
    hide Streamed, Applied, Keyed, KeptApart, Collect, Distinct, Ordered, Holds, Captures, Matches, HoldsTexts, Finalized, BuffersAgree;
    var b := Collect(Meanings(events));
    var a, t := StreamedIsApplied(model, events);
    ArgumentsAgree(model, Sent(NOTHING_CAPTURED, MessageStart(Skeleton(model))), Meanings(events));
    var done := t.(final := Some(Finalized(a)), eventCount := t.eventCount + 1);
    SameCalls(t, done, b);
    HoldsIsMatch(done, b);
  }

  /** For every tool block of a stream with own keys: the response has its call exactly when the block had
      no fragment or one with text, with the block's name and text; the sink exactly when it had a
      fragment, without name. They hold the same arguments exactly when the block had text and its call's
      text means the same, which it does where no fragment was stray. */
  lemma StreamedArguments(model: string, events: seq<Sse.Event>, k: nat)
    requires Keyed(Meanings(events)) && k < |Collect(Meanings(events)).recs|
    ensures var b, t := Collect(Meanings(events)), Streamed(NOTHING_CAPTURED, model, events);
            var r := b.recs[k];
            && t.Valid() && t.final.Some? && |b.texts| == |b.order|
            && ((exists c :: Answers(t.final.value, r, c)) <==> r.args.None? || r.args.value != [])
            && (forall c :: Answers(t.final.value, r, c) ==> c == ToolCall(StreamId(r.index), r.name, ArgsValue(TextOf(r))))
            && ((exists n :: 0 <= n < |t.calls| && t.calls[n].id == r.id) <==> r.args.Some?)
            && (forall n :: 0 <= n < |t.calls| && t.calls[n].id == r.id ==> Promoted(t, n) == ToolCall(r.id, "", Finished(CallText(b, k))))
            && (ArgumentsShared(t, r) <==> r.args.Some? && r.args.value != [] && Finished(CallText(b, k)) == ArgsValue(r.args.value))
            && (KeptApart(Meanings(events)) ==> (ArgumentsShared(t, r) <==> r.args.Some? && r.args.value != []))
  {
    hide Streamed, Applied, Keyed, KeptApart, Collect, Distinct, Ordered, Holds, Captures, Matches, Assembles, Finalized, ArgsValue, Answers, Promoted, ArgumentsShared, CallText, BuffersAgree;
    var b := Collect(Meanings(events));
    var a, t := StreamedIsApplied(model, events);
    ArgumentsAgree(model, Sent(NOTHING_CAPTURED, MessageStart(Skeleton(model))), Meanings(events));
    var done := t.(final := Some(Finalized(a)), eventCount := t.eventCount + 1);
    SameCalls(t, done, b);
    HeldBlock(a, b, k);
    ResponseOfBlock(a, b.recs[k]);
    SinkOfBlock(done, b, k);
    SinkArguments(done, b, k);
    SharedExactly(done, b.recs[k], CallText(b, k));
    if KeptApart(Meanings(events)) {
      MatchingText(b, k);
    }
  }

  lemma MatchingText(b: Blocks, p: nat)
    requires Ordered(b) && Matches(b) && p < |b.recs|
    ensures b.recs[p].args.Some? ==> CallText(b, p) == b.recs[p].args.value
  {
    if b.recs[p].args.Some? {
      var n :| 0 <= n < |b.order| && b.order[n] == p;
      CallTextIs(b, n);
    }
  }

  lemma HeldBlock(a: Assembled, b: Blocks, k: nat)
    requires a.Valid() && Holds(a, b) && k < |b.recs|
    ensures Assembles(a, b.recs[k])
  {
  }

  lemma SameCalls(t: Captured, done: Captured, b: Blocks)
    requires t.Valid() && Ordered(b) && Captures(t, b)
    requires done == t.(final := done.final, eventCount := done.eventCount)
    ensures done.Valid() && Captures(done, b) && |b.texts| == |b.order|
  {
  }

  lemma SharedExactly(t: Captured, r: ToolRecord, text: string)
    requires t.Valid() && t.final.Some?
    requires (exists c :: Answers(t.final.value, r, c)) <==> r.args.None? || r.args.value != []
    requires forall c :: Answers(t.final.value, r, c) ==> c == ToolCall(StreamId(r.index), r.name, ArgsValue(TextOf(r)))
    requires (exists n :: 0 <= n < |t.calls| && t.calls[n].id == r.id) <==> r.args.Some?
    requires forall n :: 0 <= n < |t.calls| && t.calls[n].id == r.id ==> Promoted(t, n) == ToolCall(r.id, "", Finished(text))
    ensures ArgumentsShared(t, r) <==> r.args.Some? && r.args.value != [] && Finished(text) == ArgsValue(r.args.value)
  {
    hide Answers, ArgsValue, Promoted, Finished;
    if r.args.Some? && r.args.value != [] && Finished(text) == ArgsValue(r.args.value) {
      var c :| Answers(t.final.value, r, c);
      var n :| 0 <= n < |t.calls| && t.calls[n].id == r.id;
      assert c.args == Promoted(t, n).args;
    }
  }

  /** A tool block without any fragment is missing from the sink, while the final response shows its
      id marker as the arguments. */
  lemma MarkerLeaks(model: string, events: seq<Sse.Event>, k: nat)
    requires Keyed(Meanings(events)) && k < |Collect(Meanings(events)).recs|
    requires Collect(Meanings(events)).recs[k].args.None?
    ensures var r, t := Collect(Meanings(events)).recs[k], Streamed(NOTHING_CAPTURED, model, events);
            && t.final.Some?
            && Answers(t.final.value, r, ToolCall(StreamId(r.index), r.name, String(Marker(r.id))))
            && forall n :: 0 <= n < |t.calls| ==> t.calls[n].id != r.id
  {
    hide Streamed, Keyed, Collect, ArgsValue, Answers, Marker;
    StreamedArguments(model, events, k);
    var r, t := Collect(Meanings(events)).recs[k], Streamed(NOTHING_CAPTURED, model, events);
    MarkerIsNoText(r.id);
    var c :| Answers(t.final.value, r, c);
  }
}
