/** The bytes of a log line: member names, tags and spellings that other readers rely on. */
module WireFormat {
  import opened Events
  import opened Json
  import opened JsonText
  import opened SessionLog
  import opened Wrappers

  // ----- Objects as text -----

  datatype Field = Field(key: string, text: string)

  /** Fields with their keys in quotes, a colon behind each key and a comma between two. */
  function Fields(fields: seq<Field>): string {
    if fields == [] then []
    else
      "\"" + fields[0].key + "\":" + fields[0].text + (if |fields| == 1 then "" else ",") + Fields(fields[1..])
  }

  /** No character of the text needs an escape. */
  predicate Plain(s: string) {
    forall i :: 0 <= i < |s| ==> s[i] >= ' ' && s[i] != '\"' && s[i] != '\\'
  }

  lemma {:induction false} PlainQuote(s: string)
    requires Plain(s)
    ensures Escape(s) == s && Quote(s) == "\"" + s + "\""
  {
    if s != [] {
      PlainQuote(s[1..]);
      assert s == [s[0]] + s[1..];
    }
  }

  /** The members as fields, their values printed. */
  function PrintedFields(members: seq<Member>): (fields: seq<Field>)
    ensures |fields| == |members|
  {
    seq(|members|, i requires 0 <= i < |members| => Field(members[i].key, Print(members[i].value)))
  }

  lemma MembersUnfold(members: seq<Member>, first: bool)
    requires members != []
    ensures PrintMembers(members, first) ==
              (if first then [] else ",") +
              (Quote(members[0].key) + (":" + (Print(members[0].value) + PrintMembers(members[1..], false))))
  {
  }

  lemma FieldsUnfold(members: seq<Member>)
    requires members != []
    ensures Fields(PrintedFields(members)) ==
              "\"" + members[0].key + "\":" + Print(members[0].value) + (if |members| == 1 then "" else ",")
              + Fields(PrintedFields(members[1..]))
  {
    hide Print;
    assert PrintedFields(members)[1..] == PrintedFields(members[1..]);
  }

  lemma Regroup(comma: string, key: string, value: string, more: string, rest: string)
    ensures comma + ("\"" + key + "\"" + (":" + (value + (more + rest)))) ==
            comma + ("\"" + key + "\":" + value + more + rest)
  {
    assert "\"" + ":" == "\":";
  }

  lemma {:induction false} MembersForm(members: seq<Member>, first: bool)
    requires forall i :: 0 <= i < |members| ==> Plain(members[i].key)
    ensures PrintMembers(members, first) == (if first || members == [] then "" else ",") + Fields(PrintedFields(members))
    decreases |members|
  {
    if members != [] {
      hide Plain, Print, Fields, PrintMembers, PrintedFields, Quote;
      MembersForm(members[1..], false);
      PlainQuote(members[0].key);
      MembersUnfold(members, first);
      FieldsUnfold(members);
      Regroup(if first then "" else ",", members[0].key, Print(members[0].value), if |members| == 1 then "" else ",",
              Fields(PrintedFields(members[1..])));
    }
  }

  lemma ObjectForm(members: seq<Member>)
    requires forall i :: 0 <= i < |members| ==> Plain(members[i].key)
    ensures Print(Object(members)) == "{" + Fields(PrintedFields(members)) + "}"
  {
    hide Plain, PrintMembers;
    MembersForm(members, true);
  }

  /** A name in quotes. */
  function Tag(name: string): string {
    "\"" + name + "\""
  }

  // ----- Blocks and content -----

  function BlockWire(b: Block): string {
    match b
    case TextBlock(text) => "{" + Fields([Field("type", Tag("text")), Field("text", Quote(text))]) + "}"
    case ToolUse(callId, name, arguments) =>
      "{" + Fields([Field("type", Tag("tool_use")), Field("call_id", Quote(callId)), Field("name", Quote(name)),
                    Field("arguments", Print(arguments))]) + "}"
    case ToolResult(callId, output) =>
      "{" + Fields([Field("type", Tag("tool_result")), Field("call_id", Quote(callId)), Field("output", Print(output))]) + "}"
  }

  function BlocksWire(blocks: seq<Block>): string {
    if blocks == [] then [] else BlockWire(blocks[0]) + (if |blocks| == 1 then "" else ",") + BlocksWire(blocks[1..])
  }

  function ContentWire(c: Content): string {
    match c case Text(text) => Quote(text) case Blocks(blocks) => "[" + BlocksWire(blocks) + "]"
  }

  function RoleWire(r: Role): string {
    match r
    case User => Tag("user") case Assistant => Tag("assistant") case System => Tag("system") case Tool => Tag("tool")
  }

  function ReasonWire(r: EndReason): string {
    match r
    case Stopped => Tag("stopped") case Limit => Tag("limit")
    case FailedUnexpectedly => Tag("failed") case Cancelled => Tag("cancelled")
  }

  /** The line of an event, without its newline. */
  function Wire(e: SessionEvent): string {
    match e
    case SessionStarted(id, cwd, root, at) =>
      "{" + Fields([Field("type", Tag("session_started")), Field("id", Quote(id)), Field("cwd", Quote(cwd)),
                    Field("project_root", if root.Some? then Quote(root.value) else "null"), Field("timestamp", Quote(at))]) + "}"
    case MessageAdded(id, role, content, at) =>
      "{" + Fields([Field("type", Tag("message_added")), Field("message_id", Quote(id)),
                    Field("role", RoleWire(role)),
                    Field("content", ContentWire(content)), Field("timestamp", Quote(at))]) + "}"
    case ToolCallRequested(id, tool, args, at) =>
      "{" + Fields([Field("type", Tag("tool_call_requested")), Field("call_id", Quote(id)), Field("tool", Quote(tool)),
                    Field("args", Print(args)), Field("timestamp", Quote(at))]) + "}"
    case ToolCallCompleted(id, output, at) =>
      "{" + Fields([Field("type", Tag("tool_call_completed")), Field("call_id", Quote(id)), Field("output", Print(output)),
                    Field("timestamp", Quote(at))]) + "}"
    case CheckpointCreated(id, title, at) =>
      "{" + Fields([Field("type", Tag("checkpoint_created")), Field("checkpoint_id", Quote(id)), Field("label", Quote(title)),
                    Field("timestamp", Quote(at))]) + "}"
    case SessionPaused(at) => "{" + Fields([Field("type", Tag("session_paused")), Field("timestamp", Quote(at))]) + "}"
    case SessionResumed(cwd, at) =>
      "{" + Fields([Field("type", Tag("session_resumed")), Field("cwd", Quote(cwd)), Field("timestamp", Quote(at))]) + "}"
    case SessionEnded(reason, at) =>
      "{" + Fields([Field("type", Tag("session_ended")),
                    Field("reason", ReasonWire(reason)),
                    Field("timestamp", Quote(at))]) + "}"
    case Unknown(payload) => Print(payload)
  }

  /** A quoted name. */
  lemma Name(s: string)
    requires Plain(s)
    ensures Print(String(s)) == Tag(s)
  {
    PlainQuote(s);
  }

  lemma SessionStartedTag()
    ensures Print(String("session_started")) == Tag("session_started")
  {
    hide Print, Tag;
    Name("session_started");
  }

  lemma SessionPausedTag()
    ensures Print(String("session_paused")) == Tag("session_paused")
  {
    hide Print, Tag;
    Name("session_paused");
  }

  lemma SessionResumedTag()
    ensures Print(String("session_resumed")) == Tag("session_resumed")
  {
    hide Print, Tag;
    Name("session_resumed");
  }

  lemma SessionEndedTag()
    ensures Print(String("session_ended")) == Tag("session_ended")
  {
    hide Print, Tag;
    Name("session_ended");
  }

  lemma MessageAddedTag()
    ensures Print(String("message_added")) == Tag("message_added")
  {
    hide Print, Tag;
    Name("message_added");
  }

  lemma ToolCallRequestedTag()
    ensures Print(String("tool_call_requested")) == Tag("tool_call_requested")
  {
    hide Print, Tag;
    Name("tool_call_requested");
  }

  lemma ToolCallCompletedTag()
    ensures Print(String("tool_call_completed")) == Tag("tool_call_completed")
  {
    hide Print, Tag;
    Name("tool_call_completed");
  }

  lemma CheckpointCreatedTag()
    ensures Print(String("checkpoint_created")) == Tag("checkpoint_created")
  {
    hide Print, Tag;
    Name("checkpoint_created");
  }

  lemma TextTag()
    ensures Print(String("text")) == Tag("text")
  {
    hide Print, Tag;
    Name("text");
  }

  lemma ToolUseTag()
    ensures Print(String("tool_use")) == Tag("tool_use")
  {
    hide Print, Tag;
    Name("tool_use");
  }

  lemma ToolResultTag()
    ensures Print(String("tool_result")) == Tag("tool_result")
  {
    hide Print, Tag;
    Name("tool_result");
  }

  lemma CommonKeys()
    ensures Plain("type") && Plain("timestamp") && Plain("id") && Plain("cwd") && Plain("project_root")
  {
  }

  lemma ToolKeys()
    ensures Plain("call_id") && Plain("tool") && Plain("args") && Plain("output") && Plain("checkpoint_id") && Plain("label")
  {
  }

  lemma OtherKeys()
    ensures Plain("message_id") && Plain("role") && Plain("content") && Plain("reason")
  {
  }

  lemma BlockKeys()
    ensures Plain("text") && Plain("name") && Plain("arguments")
  {
  }

  lemma BlockForm(b: Block)
    ensures Print(BlockToJson(b)) == BlockWire(b)
  {
    hide Print, Fields, Quote, Tag, Plain;
    var members := BlockToJson(b).members;
    CommonKeys();
    ToolKeys();
    BlockKeys();
    ObjectForm(members);
    TextTag();
    ToolUseTag();
    ToolResultTag();
    StringForms();
    match b
    case TextBlock(text) =>
      assert PrintedFields(members) == [Field("type", Tag("text")), Field("text", Quote(text))];
    case ToolUse(callId, name, arguments) =>
      assert PrintedFields(members) == [Field("type", Tag("tool_use")), Field("call_id", Quote(callId)), Field("name", Quote(name)),
                                        Field("arguments", Print(arguments))];
    case ToolResult(callId, output) =>
      assert PrintedFields(members) == [Field("type", Tag("tool_result")), Field("call_id", Quote(callId)), Field("output", Print(output))];
  }

  lemma StringForms()
    ensures forall s: string :: Print(String(s)) == Quote(s)
    ensures Print(Null) == "null"
  {
  }

  lemma {:induction false} BlocksForm(blocks: seq<Block>, first: bool)
    ensures PrintItems(BlocksToJson(blocks), first) == (if first || blocks == [] then "" else ",") + BlocksWire(blocks)
    decreases |blocks|
  {
    hide Print, BlockWire, BlockToJson;
    if blocks != [] {
      var items := BlocksToJson(blocks);
      BlocksForm(blocks[1..], false);
      BlockForm(blocks[0]);
      assert items[1..] == BlocksToJson(blocks[1..]);
      var comma := if |blocks| == 1 then "" else ",";
      assert PrintItems(items, first) == (if first then [] else ",") + (BlockWire(blocks[0]) + (comma + BlocksWire(blocks[1..])));
    }
  }

  lemma ContentForm(c: Content)
    ensures Print(ContentToJson(c)) == ContentWire(c)
  {
    hide PrintItems, BlocksWire, Quote;
    if c.Blocks? {
      BlocksForm(c.blocks, true);
    }
  }

  lemma StartedForm(e: SessionEvent)
    requires e.SessionStarted?
    ensures Print(ToJson(e)) == Wire(e)
  {
    hide Print, Fields, Quote, Tag, Plain;
    var members := ToJson(e).members;
    CommonKeys();
    ObjectForm(members);
    StringForms();
    SessionStartedTag();
    assert PrintedFields(members) == [
      Field("type", Tag("session_started")), Field("id", Quote(e.id)), Field("cwd", Quote(e.cwd)),
      Field("project_root", if e.projectRoot.Some? then Quote(e.projectRoot.value) else "null"),
      Field("timestamp", Quote(e.timestamp))];
  }

  lemma PausedForm(e: SessionEvent)
    requires e.SessionPaused?
    ensures Print(ToJson(e)) == Wire(e)
  {
    hide Print, Fields, Quote, Tag, Plain;
    var members := ToJson(e).members;
    CommonKeys();
    ObjectForm(members);
    StringForms();
    SessionPausedTag();
    assert PrintedFields(members) == [Field("type", Tag("session_paused")), Field("timestamp", Quote(e.timestamp))];
  }

  lemma ResumedForm(e: SessionEvent)
    requires e.SessionResumed?
    ensures Print(ToJson(e)) == Wire(e)
  {
    hide Print, Fields, Quote, Tag, Plain;
    var members := ToJson(e).members;
    CommonKeys();
    ObjectForm(members);
    StringForms();
    SessionResumedTag();
    assert PrintedFields(members) == [
      Field("type", Tag("session_resumed")), Field("cwd", Quote(e.cwd)), Field("timestamp", Quote(e.timestamp))];
  }

  lemma EndedForm(e: SessionEvent)
    requires e.SessionEnded?
    ensures Print(ToJson(e)) == Wire(e)
  {
    hide Print, Fields, Quote, Tag, Plain;
    var members := ToJson(e).members;
    CommonKeys();
    OtherKeys();
    ObjectForm(members);
    StringForms();
    SessionEndedTag();
    ReasonForm(e.reason);
    hide ReasonWire, ReasonText;
    assert PrintedFields(members) == [
      Field("type", Tag("session_ended")), Field("reason", ReasonWire(e.reason)), Field("timestamp", Quote(e.timestamp))];
  }

  lemma MessageForm(e: SessionEvent)
    requires e.MessageAdded?
    ensures Print(ToJson(e)) == Wire(e)
  {
    hide Print, Fields, Quote, Tag, ContentToJson, ContentWire, RoleWire, RoleText, Plain;
    var members := ToJson(e).members;
    CommonKeys();
    OtherKeys();
    ObjectForm(members);
    StringForms();
    MessageAddedTag();
    RoleForm(e.role);
    ContentForm(e.content);
    assert PrintedFields(members) ==
      [Field("type", Tag("message_added")), Field("message_id", Quote(e.messageId)), Field("role", RoleWire(e.role)),
       Field("content", ContentWire(e.content)), Field("timestamp", Quote(e.timestamp))];
  }

  lemma RequestedForm(e: SessionEvent)
    requires e.ToolCallRequested?
    ensures Print(ToJson(e)) == Wire(e)
  {
    hide Print, Fields, Quote, Tag, Plain;
    var members := ToJson(e).members;
    CommonKeys();
    ToolKeys();
    ObjectForm(members);
    StringForms();
    ToolCallRequestedTag();
    assert PrintedFields(members) == [
      Field("type", Tag("tool_call_requested")), Field("call_id", Quote(e.callId)), Field("tool", Quote(e.tool)),
      Field("args", Print(e.args)), Field("timestamp", Quote(e.timestamp))];
  }

  lemma CompletedForm(e: SessionEvent)
    requires e.ToolCallCompleted?
    ensures Print(ToJson(e)) == Wire(e)
  {
    hide Print, Fields, Quote, Tag, Plain;
    var members := ToJson(e).members;
    CommonKeys();
    ToolKeys();
    ObjectForm(members);
    StringForms();
    ToolCallCompletedTag();
    assert PrintedFields(members) == [
      Field("type", Tag("tool_call_completed")), Field("call_id", Quote(e.callId)), Field("output", Print(e.output)),
      Field("timestamp", Quote(e.timestamp))];
  }

  lemma CheckpointForm(e: SessionEvent)
    requires e.CheckpointCreated?
    ensures Print(ToJson(e)) == Wire(e)
  {
    hide Print, Fields, Quote, Tag, Plain;
    var members := ToJson(e).members;
    CommonKeys();
    ToolKeys();
    ObjectForm(members);
    StringForms();
    CheckpointCreatedTag();
    assert PrintedFields(members) == [
      Field("type", Tag("checkpoint_created")), Field("checkpoint_id", Quote(e.checkpointId)), Field("label", Quote(e.title)),
      Field("timestamp", Quote(e.timestamp))];
  }

  lemma ReasonForm(r: EndReason)
    ensures Print(String(ReasonText(r))) == ReasonWire(r)
  {
    hide Print, Tag;
    match r
    case Stopped => Name("stopped");
    case Limit => Name("limit");
    case FailedUnexpectedly => Name("failed");
    case Cancelled => Name("cancelled");
  }

  lemma RoleForm(r: Role)
    ensures Print(String(RoleText(r))) == RoleWire(r)
  {
    hide Print, Tag;
    match r
    case User => Name("user");
    case Assistant => Name("assistant");
    case System => Name("system");
    case Tool => Name("tool");
  }

  /** The bytes written for every event. */
  lemma LineForm(e: SessionEvent)
    ensures EventText(e) == Wire(e)
  {
    hide Print, ToJson, Wire;
    match e
    case SessionStarted(_, _, _, _) => StartedForm(e);
    case MessageAdded(_, _, _, _) => MessageForm(e);
    case ToolCallRequested(_, _, _, _) => RequestedForm(e);
    case ToolCallCompleted(_, _, _) => CompletedForm(e);
    case CheckpointCreated(_, _, _) => CheckpointForm(e);
    case SessionPaused(_) => PausedForm(e);
    case SessionResumed(_, _) => ResumedForm(e);
    case SessionEnded(_, _) => EndedForm(e);
    case Unknown(_) => UnknownForm(e);
  }

  lemma UnknownForm(e: SessionEvent)
    requires e.Unknown?
    ensures Print(ToJson(e)) == Wire(e)
  {
    hide Print;
  }

  // ----- Strings -----

  /** How RFC 8259 section 7 writes the characters that have a short escape. */
  lemma EscapesOfRfc8259()
    ensures Quote("\"") == "\"\\\"\"" && Quote("\\") == "\"\\\\\""
    ensures Quote([8 as char]) == "\"\\b\"" && Quote([9 as char]) == "\"\\t\"" && Quote([10 as char]) == "\"\\n\""
    ensures Quote([12 as char]) == "\"\\f\"" && Quote([13 as char]) == "\"\\r\""
  {
    hide Escape, Quote;
    OneEscaped('\"');
    OneEscaped('\\');
    OneEscaped(8 as char);
    OneEscaped(9 as char);
    OneEscaped(10 as char);
    OneEscaped(12 as char);
    OneEscaped(13 as char);
  }

  /** Other control characters are written by their number; all other characters stand for themselves. */
  lemma OtherCharacters(c: char)
    ensures Plain([c]) ==> Quote([c]) == "\"" + [c] + "\""
    ensures c < ' ' && c as int !in [8, 9, 10, 12, 13] ==>
              && |Quote([c])| == 8 && Quote([c])[..5] == "\"\\u00" && Quote([c])[7] == '\"'
              && Hexadecimal(Quote([c])[5], c as int / 16) && Hexadecimal(Quote([c])[6], c as int % 16)
  {
    hide Escape, Quote;
    OneEscaped(c);
    if Plain([c]) {
      PlainQuote([c]);
    }
  }

  lemma OneEscaped(c: char)
    ensures Quote([c]) == "\"" + (EscapeByte(c) + "\"")
  {
    hide EscapeByte;
    assert [c][1..] == [] && Escape([]) == [];
    assert EscapeByte(c) + [] == EscapeByte(c);
  }

  /** `d` is the digit of value `n`, in small letters. */
  predicate Hexadecimal(d: char, n: int) {
    (0 <= n < 10 && d as int == '0' as int + n) || (10 <= n < 16 && d as int == 'a' as int + n - 10)
  }

  /** What a short escape in a text that is read stands for. */
  lemma EscapesReadBack()
    ensures ParseString("\\" + ("b" + "\"")) == Done([8 as char], "") && ParseString("\\" + ("t" + "\"")) == Done([9 as char], "")
    ensures ParseString("\\" + ("n" + "\"")) == Done([10 as char], "") && ParseString("\\" + ("f" + "\"")) == Done([12 as char], "")
    ensures ParseString("\\" + ("r" + "\"")) == Done([13 as char], "") && ParseString("\\" + ("/" + "\"")) == Done("/", "")
    ensures ParseString("\\" + ("\"" + "\"")) == Done("\"", "") && ParseString("\\" + ("\\" + "\"")) == Done("\\", "")
  {
    hide ParseString;
    ShortEscape('b', [8 as char]);
    ShortEscape('t', [9 as char]);
    ShortEscape('n', [10 as char]);
    ShortEscape('f', [12 as char]);
    ShortEscape('r', [13 as char]);
    ShortEscape('/', "/");
    ShortEscape('\"', "\"");
    ShortEscape('\\', "\\");
  }

  /** The escape of a code point by its number. */
  lemma CodesReadBack()
    ensures ParseString("\\" + ("u" + "0041") + "\"") == Done("A", "")
    ensures ParseString("\\" + ("u" + "00e9") + "\"") == Done([0xC3 as char, 0xA9 as char], "")
  {
    hide ParseString;
    assert ("u" + "0041" + "\"")[1..] == "0041\"" && "0041\""[4..] == "\"";
    assert ("u" + "00e9" + "\"")[1..] == "00e9\"" && "00e9\""[4..] == "\"";
    CodeEscape("0041", "A");
    CodeEscape("00e9", [0xC3 as char, 0xA9 as char]);
  }

  lemma EndOfString()
    ensures ParseString("\"") == Done("", "")
  {
  }

  lemma ShortEscape(c: char, value: string)
    requires EscapeSequence([c] + "\"") == Done(value, "\"")
    ensures ParseString(['\\'] + ([c] + "\"")) == Done(value, "")
  {
    hide EscapeSequence;
    EndOfString();
    var s := ['\\'] + ([c] + "\"");
    assert s[1..] == [c] + "\"" && value + "" == value;
  }

  lemma CodeEscape(digits: string, value: string)
    requires EscapeSequence("u" + digits + "\"") == Done(value, "\"")
    ensures ParseString("\\" + ("u" + digits) + "\"") == Done(value, "")
  {
    hide EscapeSequence;
    EndOfString();
    var s := "\\" + ("u" + digits) + "\"";
    assert s[1..] == "u" + digits + "\"" && value + "" == value;
  }
}
