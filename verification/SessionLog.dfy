/** The session log: one JSON event a line, appended by the writer, repaired and replayed by the
    reader, and folded into the session state by the orchestrator. */
module SessionLog {
  import opened Events
  import opened JsonText
  import opened Texts
  import opened Wrappers
  import Utf8

  // ----- The state reducer -----

  datatype SessionStatus = New | Active | Paused | Ended

  datatype Message = Message(id: string, role: Role, content: Content, timestamp: string)

  datatype Checkpoint = Checkpoint(id: string, title: string, timestamp: string)

  datatype Snapshot = Snapshot(
    id: Option<string>, status: SessionStatus, cwd: Option<string>, projectRoot: Option<string>,
    messages: seq<Message>, lastCheckpoint: Option<Checkpoint>, endReason: Option<EndReason>,
    eventCount: nat, startedAt: Option<string>, endedAt: Option<string>)

  const FRESH := Snapshot(None, New, None, None, [], None, None, 0, None, None)

  datatype LogError = Io | Parse(line: nat) | AlreadyStarted(id: string)

  /** The state after one more event, or why the event is refused. */
  function Reduced(s: Snapshot, e: SessionEvent): Result<Snapshot, LogError> {
    var counted := s.(eventCount := s.eventCount + 1);
    match e
    case SessionStarted(id, cwd, root, timestamp) =>
      if s.status == Active then Err(AlreadyStarted(id))
      else Ok(counted.(id := Some(id), status := Active, cwd := Some(cwd), projectRoot := root,
                       startedAt := Some(timestamp)))
    case MessageAdded(id, role, content, timestamp) =>
      Ok(counted.(messages := s.messages + [Message(id, role, content, timestamp)]))
    case CheckpointCreated(id, title, timestamp) =>
      Ok(counted.(lastCheckpoint := Some(Checkpoint(id, title, timestamp))))
    case SessionPaused(_) => Ok(counted.(status := Paused))
    case SessionResumed(cwd, _) => Ok(counted.(status := Active, cwd := Some(cwd)))
    case SessionEnded(reason, timestamp) =>
      Ok(counted.(status := Ended, endReason := Some(reason), endedAt := Some(timestamp)))
    case _ => Ok(counted)
  }

  class SessionState {
    var id: Option<string>
    var status: SessionStatus
    var cwd: Option<string>
    var projectRoot: Option<string>
    var messages: seq<Message>
    var lastCheckpoint: Option<Checkpoint>
    var endReason: Option<EndReason>
    var eventCount: nat
    var startedAt: Option<string>
    var endedAt: Option<string>

    function View(): Snapshot
      reads this
    {
      Snapshot(id, status, cwd, projectRoot, messages, lastCheckpoint, endReason, eventCount, startedAt, endedAt)
    }

    constructor ()
      ensures View() == FRESH
    {
      id, status, cwd, projectRoot, messages := None, New, None, None, [];
      lastCheckpoint, endReason, eventCount, startedAt, endedAt := None, None, 0, None, None;
    }

    /** A refused event changes nothing. */
    method Apply(e: SessionEvent) returns (r: Result<(), LogError>)
      modifies this
      ensures match Reduced(old(View()), e)
              case Ok(s) => r == Ok(()) && View() == s
              case Err(error) => r == Err(error) && View() == old(View())
    {
      match e {
        case SessionStarted(newId, newCwd, root, timestamp) =>
          if status == Active {
            return Err(AlreadyStarted(newId));
          }
          id, status, cwd, projectRoot := Some(newId), Active, Some(newCwd), root;
          startedAt := Some(timestamp);
        case MessageAdded(messageId, role, content, timestamp) =>
          messages := messages + [Message(messageId, role, content, timestamp)];
        case ToolCallRequested(_, _, _, _) =>
        case ToolCallCompleted(_, _, _) =>
        case CheckpointCreated(checkpointId, title, timestamp) =>
          lastCheckpoint := Some(Checkpoint(checkpointId, title, timestamp));
        case SessionPaused(_) =>
          status := Paused;
        case SessionResumed(newCwd, _) =>
          status := Active;
          cwd := Some(newCwd);
        case SessionEnded(reason, timestamp) =>
          status := Ended;
          endReason := Some(reason);
          endedAt := Some(timestamp);
        case Unknown(_) =>
      }
      eventCount := eventCount + 1;
      return Ok(());
    }
  }

  // ----- The file and the writer -----

  /** The bytes of the rollout file; an absent file is an empty one. */
  class LogFile {
    var bytes: string

    constructor ()
      ensures bytes == ""
    {
      bytes := "";
    }
  }

  function EventText(e: SessionEvent): string {
    Print(ToJson(e))
  }

  /** One event, one line. */
  method Append(file: LogFile, e: SessionEvent)
    modifies file
    ensures file.bytes == old(file.bytes) + (EventText(e) + "\n")
  {
    var line := EventText(e);
    line := line + "\n";
    file.bytes := file.bytes + line;
  }

  // ----- Tail repair -----

  /** Where the last line starts: just after the last newline. */
  function TailStart(bytes: string): (n: nat)
    ensures n <= |bytes|
  {
    if bytes == [] then 0
    else if bytes[|bytes| - 1] == '\n' then |bytes|
    else TailStart(bytes[..|bytes| - 1])
  }

  /** An unterminated last line is kept when it is blank or a whole JSON text. */
  predicate KeepsTail(tail: string) {
    Utf8.Valid(tail) && (Utf8.Trim(tail) == [] || ParseText(Utf8.Trim(tail)).Some?)
  }

  function Repaired(bytes: string): string {
    if KeepsTail(bytes[TailStart(bytes)..]) then bytes else bytes[..TailStart(bytes)]
  }

  method RepairTruncatedTail(file: LogFile)
    modifies file
    ensures file.bytes == Repaired(old(file.bytes))
  {
    var bytes := file.bytes;
    if bytes == [] {
      return;
    }
    if bytes[|bytes| - 1] == '\n' {
      assert bytes[TailStart(bytes)..] == [];
      return;
    }
    // rposition of the newline
    var start := |bytes|;
    assert bytes[..start] == bytes;
    while start > 0 && bytes[start - 1] != '\n'
      invariant 0 <= start <= |bytes|
      invariant TailStart(bytes) == TailStart(bytes[..start])
    {
      assert bytes[..start][..start - 1] == bytes[..start - 1];
      start := start - 1;
    }
    var tail := bytes[start..];
    if !Utf8.Valid(tail) {
      file.bytes := bytes[..start];
      return;
    }
    var text := Utf8.Trim(tail);
    if text == [] {
      return;
    }
    if ParseText(text).Some? {
      return;
    }
    file.bytes := bytes[..start];
  }

  // ----- The line iterator -----

  /** The first line, without its newline and a carriage return before that. */
  function FirstLine(s: string): string {
    var n := FirstNewline(s);
    if n < |s| then StripCr(s[..n]) else s[..n]
  }

  function AfterFirstLine(s: string): (rest: string)
    ensures s != [] ==> |rest| < |s|
  {
    var n := FirstNewline(s);
    if n < |s| then s[n + 1..] else []
  }

  function Decode(text: string): Option<SessionEvent> {
    var v := ParseText(text);
    if v.Some? then FromJson(v.value) else None
  }

  datatype Item = End | Item(event: Result<SessionEvent, LogError>, rest: string, lines: nat)

  /** The next event in `rest`, `lines` lines having been read before it. Blank lines are skipped. */
  function NextItem(rest: string, lines: nat): (r: Item)
    ensures r.Item? ==> |r.rest| < |rest|
    decreases |rest|
  {
    if rest == [] then End else
    var line, more := FirstLine(rest), AfterFirstLine(rest);
    if !Utf8.Valid(line) then Item(Err(Io), more, lines)
    else
      var text := Utf8.Trim(line);
      if text == [] then NextItem(more, lines + 1)
      else
        var e := Decode(text);
        Item(if e.Some? then Ok(e.value) else Err(Parse(lines + 1)), more, lines + 1)
  }

  class EventIter {
    var rest: string
    var lines: nat

    constructor (file: LogFile)
      ensures rest == file.bytes && lines == 0
    {
      rest, lines := file.bytes, 0;
    }

    method Next() returns (r: Option<Result<SessionEvent, LogError>>)
      modifies this
      ensures match NextItem(old(rest), old(lines))
              case End => r == None
              case Item(event, more, count) => r == Some(event) && rest == more && lines == count
    {
      hide Utf8.Valid, Utf8.Trim, Decode, FirstLine, AfterFirstLine;
      while rest != []
        invariant NextItem(rest, lines) == NextItem(old(rest), old(lines))
        decreases |rest|
      {
        var raw := FirstLine(rest);
        rest := AfterFirstLine(rest);
        if !Utf8.Valid(raw) {
          return Some(Err(Io));
        }
        lines := lines + 1;
        var trimmed := Utf8.Trim(raw);
        if trimmed == [] {
          continue;
        }
        var e := Decode(trimmed);
        return Some(if e.Some? then Ok(e.value) else Err(Parse(lines)));
      }
      return None;
    }
  }

  // ----- Replay -----

  /** The fold of the events in `rest` over `s`; the first error ends it. */
  function Replayed(rest: string, lines: nat, s: Snapshot): Result<Snapshot, LogError>
    decreases |rest|
  {
    match NextItem(rest, lines)
    case End => Ok(s)
    case Item(Err(error), _, _) => Err(error)
    case Item(Ok(e), more, count) =>
      var next := Reduced(s, e);
      if next.Err? then Err(next.error) else Replayed(more, count, next.value)
  }

  method Replay(file: LogFile, state: SessionState) returns (r: Result<(), LogError>)
    modifies state
    ensures file.bytes == old(file.bytes)
    ensures match Replayed(file.bytes, 0, old(state.View()))
            case Ok(s) => r == Ok(()) && state.View() == s
            case Err(error) => r == Err(error)
  {
    var iter := new EventIter(file);
    while true
      invariant fresh(iter) && file.bytes == old(file.bytes)
      invariant Replayed(iter.rest, iter.lines, state.View()) == Replayed(file.bytes, 0, old(state.View()))
      decreases |iter.rest|
    {
      var item := iter.Next();
      if item == None {
        return Ok(());
      }
      if item.value.Err? {
        return Err(item.value.error);
      }
      var applied := state.Apply(item.value.value);
      if applied.Err? {
        return applied;
      }
    }
  }

  // ----- The orchestrator -----

  /** What opening a log leaves in the file, and the state it starts from. */
  function Opened(bytes: string): (string, Result<Snapshot, LogError>) {
    (Repaired(bytes), Replayed(Repaired(bytes), 0, FRESH))
  }

  class Orchestrator {
    const file: LogFile
    const state: SessionState

    constructor (file: LogFile, state: SessionState)
      ensures this.file == file && this.state == state
    {
      this.file, this.state := file, state;
    }

    /** The event goes to the file first: a refused one stays there. */
    method Emit(e: SessionEvent) returns (r: Result<(), LogError>)
      modifies file, state
      ensures file.bytes == old(file.bytes) + (EventText(e) + "\n")
      ensures match Reduced(old(state.View()), e)
              case Ok(s) => r == Ok(()) && state.View() == s
              case Err(error) => r == Err(error) && state.View() == old(state.View())
    {
      Append(file, e);
      r := state.Apply(e);
    }
  }

  method Open(file: LogFile) returns (r: Result<Orchestrator, LogError>)
    modifies file
    ensures file.bytes == Opened(old(file.bytes)).0
    ensures match Opened(old(file.bytes)).1
            case Ok(s) => r.Ok? && r.value.file == file && fresh(r.value.state) && r.value.state.View() == s
            case Err(error) => r == Err(error)
  {
    var state := new SessionState();
    RepairTruncatedTail(file);
    var replayed := Replay(file, state);
    if replayed.Err? {
      return Err(replayed.error);
    }
    var orchestrator := new Orchestrator(file, state);
    return Ok(orchestrator);
  }
}
