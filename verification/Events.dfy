/** Session events and their JSON form: known variants by tag, everything else kept as it is. */
module Events {
  import opened Json
  import opened Wrappers

  datatype Role = User | Assistant | System | Tool

  datatype Block =
    | TextBlock(text: string)
    | ToolUse(callId: string, name: string, arguments: Value)
    | ToolResult(callId: string, output: Value)

  datatype Content = Text(text: string) | Blocks(blocks: seq<Block>)

  datatype EndReason = Stopped | Limit | FailedUnexpectedly | Cancelled

  /** Identifiers, paths and timestamps are carried as their texts. */
  datatype SessionEvent =
    | SessionStarted(id: string, cwd: string, projectRoot: Option<string>, timestamp: string)
    | MessageAdded(messageId: string, role: Role, content: Content, timestamp: string)
    | ToolCallRequested(callId: string, tool: string, args: Value, timestamp: string)
    | ToolCallCompleted(callId: string, output: Value, timestamp: string)
    | CheckpointCreated(checkpointId: string, title: string, timestamp: string)
    | SessionPaused(timestamp: string)
    | SessionResumed(cwd: string, timestamp: string)
    | SessionEnded(reason: EndReason, timestamp: string)
    | Unknown(payload: Value)

  // ----- Encoding -----

  function RoleText(r: Role): string {
    match r case User => "user" case Assistant => "assistant" case System => "system" case Tool => "tool"
  }

  function ReasonText(r: EndReason): string {
    match r
    case Stopped => "stopped" case Limit => "limit" case FailedUnexpectedly => "failed" case Cancelled => "cancelled"
  }

  function BlockToJson(b: Block): Value {
    match b
    case TextBlock(text) => Object([Member("type", String("text")), Member("text", String(text))])
    case ToolUse(callId, name, arguments) =>
      Object([Member("type", String("tool_use")), Member("call_id", String(callId)),
              Member("name", String(name)), Member("arguments", arguments)])
    case ToolResult(callId, output) =>
      Object([Member("type", String("tool_result")), Member("call_id", String(callId)), Member("output", output)])
  }

  function BlocksToJson(blocks: seq<Block>): (items: seq<Value>)
    ensures |items| == |blocks|
    ensures forall i :: 0 <= i < |blocks| ==> items[i] == BlockToJson(blocks[i])
  {
    if blocks == [] then [] else [BlockToJson(blocks[0])] + BlocksToJson(blocks[1..])
  }

  function ContentToJson(c: Content): Value {
    match c case Text(text) => String(text) case Blocks(blocks) => Array(BlocksToJson(blocks))
  }

  function ToJson(e: SessionEvent): Value {
    match e
    case SessionStarted(id, cwd, root, timestamp) =>
      Object([Member("type", String("session_started")), Member("id", String(id)), Member("cwd", String(cwd)),
              Member("project_root", if root.Some? then String(root.value) else Null),
              Member("timestamp", String(timestamp))])
    case MessageAdded(messageId, role, content, timestamp) =>
      Object([Member("type", String("message_added")), Member("message_id", String(messageId)),
              Member("role", String(RoleText(role))), Member("content", ContentToJson(content)),
              Member("timestamp", String(timestamp))])
    case ToolCallRequested(callId, tool, args, timestamp) =>
      Object([Member("type", String("tool_call_requested")), Member("call_id", String(callId)),
              Member("tool", String(tool)), Member("args", args), Member("timestamp", String(timestamp))])
    case ToolCallCompleted(callId, output, timestamp) =>
      Object([Member("type", String("tool_call_completed")), Member("call_id", String(callId)),
              Member("output", output), Member("timestamp", String(timestamp))])
    case CheckpointCreated(checkpointId, title, timestamp) =>
      Object([Member("type", String("checkpoint_created")), Member("checkpoint_id", String(checkpointId)),
              Member("label", String(title)), Member("timestamp", String(timestamp))])
    case SessionPaused(timestamp) =>
      Object([Member("type", String("session_paused")), Member("timestamp", String(timestamp))])
    case SessionResumed(cwd, timestamp) =>
      Object([Member("type", String("session_resumed")), Member("cwd", String(cwd)),
              Member("timestamp", String(timestamp))])
    case SessionEnded(reason, timestamp) =>
      Object([Member("type", String("session_ended")), Member("reason", String(ReasonText(reason))),
              Member("timestamp", String(timestamp))])
    case Unknown(payload) => payload
  }

  // ----- Decoding -----

  /** The last member with the key. */
  function Get(members: seq<Member>, key: string): Option<Value> {
    if members == [] then None
    else
      var later := Get(members[1..], key);
      if later.Some? then later
      else if members[0].key == key then Some(members[0].value) else None
  }

  function GetString(members: seq<Member>, key: string): Option<string> {
    match Get(members, key) case Some(String(text)) => Some(text) case _ => None
  }

  /** A missing member and null both mean None; anything else must be a string. */
  function GetOptionalString(members: seq<Member>, key: string): Option<Option<string>> {
    match Get(members, key)
    case None => Some(None)
    case Some(Null) => Some(None)
    case Some(String(text)) => Some(Some(text))
    case _ => None
  }

  function RoleFrom(text: string): Option<Role> {
    if text == "user" then Some(User) else if text == "assistant" then Some(Assistant)
    else if text == "system" then Some(System) else if text == "tool" then Some(Tool) else None
  }

  function ReasonFrom(text: string): Option<EndReason> {
    if text == "stopped" then Some(Stopped) else if text == "limit" then Some(Limit)
    else if text == "failed" then Some(FailedUnexpectedly) else if text == "cancelled" then Some(Cancelled) else None
  }

  function BlockFrom(v: Value): Option<Block> {
    if !v.Object? then None else
    var m := v.members;
    match GetString(m, "type")
    case None => None
    case Some(tag) =>
      if tag == "text" then
        var text := GetString(m, "text");
        if text.Some? then Some(TextBlock(text.value)) else None
      else if tag == "tool_use" then
        var callId, name, arguments := GetString(m, "call_id"), GetString(m, "name"), Get(m, "arguments");
        if callId.Some? && name.Some? && arguments.Some? then
          Some(ToolUse(callId.value, name.value, arguments.value)) else None
      else if tag == "tool_result" then
        var callId, output := GetString(m, "call_id"), Get(m, "output");
        if callId.Some? && output.Some? then Some(ToolResult(callId.value, output.value)) else None
      else None
  }

  function BlocksFrom(items: seq<Value>): Option<seq<Block>> {
    if items == [] then Some([])
    else
      var head, tail := BlockFrom(items[0]), BlocksFrom(items[1..]);
      if head.Some? && tail.Some? then Some([head.value] + tail.value) else None
  }

  function ContentFrom(v: Value): Option<Content> {
    match v
    case String(text) => Some(Text(text))
    case Array(items) =>
      var blocks := BlocksFrom(items);
      if blocks.Some? then Some(Blocks(blocks.value)) else None
    case _ => None
  }

  /** Decoding by the tag of a known variant; None for an unknown tag or a malformed payload. */
  function KnownFrom(v: Value): Option<SessionEvent> {
    if !v.Object? then None else
    var m := v.members;
    var tag, at := GetString(m, "type"), GetString(m, "timestamp");
    if tag.None? || at.None? then None
    else if tag.value == "session_started" then
      var id, cwd, root := GetString(m, "id"), GetString(m, "cwd"), GetOptionalString(m, "project_root");
      if id.Some? && cwd.Some? && root.Some? then
        Some(SessionStarted(id.value, cwd.value, root.value, at.value)) else None
    else if tag.value == "message_added" then
      var id, role, content := GetString(m, "message_id"), GetString(m, "role"), Get(m, "content");
      if id.Some? && role.Some? && RoleFrom(role.value).Some? && content.Some? && ContentFrom(content.value).Some? then
        Some(MessageAdded(id.value, RoleFrom(role.value).value, ContentFrom(content.value).value, at.value)) else None
    else if tag.value == "tool_call_requested" then
      var id, tool, args := GetString(m, "call_id"), GetString(m, "tool"), Get(m, "args");
      if id.Some? && tool.Some? && args.Some? then
        Some(ToolCallRequested(id.value, tool.value, args.value, at.value)) else None
    else if tag.value == "tool_call_completed" then
      var id, output := GetString(m, "call_id"), Get(m, "output");
      if id.Some? && output.Some? then Some(ToolCallCompleted(id.value, output.value, at.value)) else None
    else if tag.value == "checkpoint_created" then
      var id, title := GetString(m, "checkpoint_id"), GetString(m, "label");
      if id.Some? && title.Some? then Some(CheckpointCreated(id.value, title.value, at.value)) else None
    else if tag.value == "session_paused" then Some(SessionPaused(at.value))
    else if tag.value == "session_resumed" then
      var cwd := GetString(m, "cwd");
      if cwd.Some? then Some(SessionResumed(cwd.value, at.value)) else None
    else if tag.value == "session_ended" then
      var reason := GetString(m, "reason");
      if reason.Some? && ReasonFrom(reason.value).Some? then
        Some(SessionEnded(ReasonFrom(reason.value).value, at.value)) else None
    else None
  }

  const KNOWN_TAGS := [
    "session_started", "message_added", "tool_call_requested", "tool_call_completed",
    "checkpoint_created", "session_paused", "session_resumed", "session_ended"]

  /** The tag of a value, or "unknown" where there is none. */
  function TagOf(v: Value): string {
    if v.Object? && GetString(v.members, "type").Some? then GetString(v.members, "type").value else "unknown"
  }

  /** None stands for the error "malformed event payload". */
  function FromJson(v: Value): Option<SessionEvent> {
    var known := KnownFrom(v);
    if known.Some? then known
    else if TagOf(v) in KNOWN_TAGS then None
    else Some(Unknown(v))
  }

  // ----- Round trip -----

  lemma {:induction false} GetAt(members: seq<Member>, i: nat)
    requires i < |members|
    requires forall a, b :: 0 <= a < b < |members| ==> members[a].key != members[b].key
    ensures Get(members, members[i].key) == Some(members[i].value)
  {
    if i == 0 {
      GetNone(members[1..], members[0].key);
    } else {
      GetAt(members[1..], i - 1);
    }
  }

  lemma {:induction false} GetNone(members: seq<Member>, key: string)
    requires forall a :: 0 <= a < |members| ==> members[a].key != key
    ensures Get(members, key) == None
  {
    if members != [] {
      GetNone(members[1..], key);
    }
  }

  /** The members of an object with distinct keys can be looked up one by one. */
  lemma GetAll(members: seq<Member>)
    requires forall a, b :: 0 <= a < b < |members| ==> members[a].key != members[b].key
    ensures forall i :: 0 <= i < |members| ==> Get(members, members[i].key) == Some(members[i].value)
  {
    forall i | 0 <= i < |members|
      ensures Get(members, members[i].key) == Some(members[i].value)
    {
      GetAt(members, i);
    }
  }

  lemma BlockRoundTrip(b: Block)
    ensures BlockFrom(BlockToJson(b)) == Some(b)
  {
    hide Get;
    var m := BlockToJson(b).members;
    GetAll(m);
    assert m[0].key == "type" && m[1].key == if b.TextBlock? then "text" else "call_id";
    assert b.ToolUse? ==> m[2].key == "name" && m[3].key == "arguments";
    assert b.ToolResult? ==> m[2].key == "output";
  }

  lemma {:induction false} BlocksRoundTrip(blocks: seq<Block>)
    ensures BlocksFrom(BlocksToJson(blocks)) == Some(blocks)
  {
    if blocks != [] {
      BlockRoundTrip(blocks[0]);
      BlocksRoundTrip(blocks[1..]);
      assert BlocksToJson(blocks)[1..] == BlocksToJson(blocks[1..]);
      assert blocks == [blocks[0]] + blocks[1..];
    }
  }

  lemma StartedRoundTrip(e: SessionEvent)
    requires e.SessionStarted?
    ensures KnownFrom(ToJson(e)) == Some(e)
  {
    hide Get;
    var m := ToJson(e).members;
    GetAll(m);
    assert m[0].key == "type" && m[1].key == "id" && m[2].key == "cwd" && m[3].key == "project_root";
    assert m[|m| - 1].key == "timestamp";
  }

  lemma SessionVariantsRoundTrip(e: SessionEvent)
    requires e.SessionPaused? || e.SessionResumed? || e.SessionEnded?
    ensures KnownFrom(ToJson(e)) == Some(e)
  {
    hide Get;
    var m := ToJson(e).members;
    GetAll(m);
    assert m[0].key == "type" && m[|m| - 1].key == "timestamp";
    assert e.SessionResumed? ==> m[1].key == "cwd";
    assert e.SessionEnded? ==> m[1].key == "reason";
  }

  lemma ToolVariantsRoundTrip(e: SessionEvent)
    requires e.ToolCallRequested? || e.ToolCallCompleted? || e.CheckpointCreated?
    ensures KnownFrom(ToJson(e)) == Some(e)
  {
    hide Get;
    var m := ToJson(e).members;
    GetAll(m);
    assert m[0].key == "type" && m[|m| - 1].key == "timestamp";
    assert e.ToolCallRequested? ==> m[1].key == "call_id" && m[2].key == "tool" && m[3].key == "args";
    assert e.ToolCallCompleted? ==> m[1].key == "call_id" && m[2].key == "output";
    assert e.CheckpointCreated? ==> m[1].key == "checkpoint_id" && m[2].key == "label";
  }

  lemma MessageRoundTrip(e: SessionEvent)
    requires e.MessageAdded?
    ensures KnownFrom(ToJson(e)) == Some(e)
  {
    hide Get, BlocksFrom, BlocksToJson;
    var m := ToJson(e).members;
    GetAll(m);
    assert m[0].key == "type" && m[4].key == "timestamp";
    assert m[1].key == "message_id" && m[2].key == "role" && m[3].key == "content";
    if e.content.Blocks? {
      BlocksRoundTrip(e.content.blocks);
    }
  }

  lemma KnownRoundTrip(e: SessionEvent)
    requires !e.Unknown?
    ensures KnownFrom(ToJson(e)) == Some(e)
  {
    hide KnownFrom, ToJson;
    if e.MessageAdded? {
      MessageRoundTrip(e);
    } else if e.ToolCallRequested? || e.ToolCallCompleted? || e.CheckpointCreated? {
      ToolVariantsRoundTrip(e);
    } else if e.SessionStarted? {
      StartedRoundTrip(e);
    } else {
      SessionVariantsRoundTrip(e);
    }
  }

  /** A known variant carries a known tag. */
  lemma KnownHasTag(v: Value)
    requires KnownFrom(v).Some?
    ensures TagOf(v) in KNOWN_TAGS
  {
    assert forall i :: 0 <= i < 8 ==> KNOWN_TAGS[i] in KNOWN_TAGS;
  }

  /** An event decodes to itself exactly when it is a known variant or its payload does not carry
      the tag of one. */
  lemma EventRoundTrip(e: SessionEvent)
    ensures FromJson(ToJson(e)) == Some(e) <==> (e.Unknown? ==> TagOf(e.payload) !in KNOWN_TAGS)
    ensures KnownFrom(ToJson(e)).Some? ==> !KnownFrom(ToJson(e)).value.Unknown?
  {
    hide Get;
    if e.Unknown? {
      if KnownFrom(e.payload).Some? {
        KnownHasTag(e.payload);
      }
    } else {
      KnownRoundTrip(e);
    }
  }
}
