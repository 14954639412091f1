/** The incremental Server-Sent Events parser.

    Against the event stream interpretation of the HTML Living Standard (sections 9.2.5 and 9.2.6)
    the parser ends lines at newlines only, dispatches an event that has a name but no data, keeps
    an empty name empty, and drops a chunk that is not UTF-8 by itself. */
module Sse {
  import opened Texts
  import opened Wrappers
  import Utf8

  datatype Event = Event(name: string, data: string)

  /** The fields received for the event under construction. */
  datatype Pending = Pending(name: Option<string>, data: string)

  const NOTHING := Pending(None, "")

  datatype State = State(buf: string, pending: Pending)

  // ----- One line -----

  function FindColon(s: string): (n: nat)
    ensures n <= |s|
    ensures n < |s| ==> s[n] == ':'
  {
    if s == [] || s[0] == ':' then 0 else 1 + FindColon(s[1..])
  }

  function FieldName(line: string): string {
    line[..FindColon(line)]
  }

  /** What follows the colon, without one leading space. */
  function FieldValue(line: string): string {
    var n := FindColon(line);
    if n == |line| then []
    else if n + 1 < |line| && line[n + 1] == ' ' then line[n + 2..]
    else line[n + 1..]
  }

  /** Only a newline at the very end is dropped. */
  function StripNewline(s: string): string {
    if s != [] && s[|s| - 1] == '\n' then s[..|s| - 1] else s
  }

  /** A blank line ends an event, if there is one. */
  predicate EndsEvent(line: string, p: Pending) {
    line == [] && p != NOTHING
  }

  function EventOf(p: Pending): Event {
    Event(if p.name.Some? then p.name.value else "message", StripNewline(p.data))
  }

  /** The fields after a line that ends no event. */
  function AfterLine(line: string, p: Pending): Pending {
    if line == [] || line[0] == ':' then p
    else if FieldName(line) == "event" then p.(name := Some(FieldValue(line)))
    else if FieldName(line) == "data" then p.(data := p.data + FieldValue(line) + "\n")
    else p
  }

  // ----- The parser -----

  /** One call of `next_event`: lines are taken until an event is complete or no line is left. */
  function Next(s: State): (r: (Option<Event>, State))
    ensures |r.1.buf| <= |s.buf|
    ensures r.0.Some? ==> |r.1.buf| < |s.buf|
    decreases |s.buf|
  {
    var n := FirstNewline(s.buf);
    if n == |s.buf| then (None, s)
    else
      var line, rest := StripCr(s.buf[..n]), s.buf[n + 1..];
      if EndsEvent(line, s.pending) then (Some(EventOf(s.pending)), State(rest, NOTHING))
      else Next(State(rest, AfterLine(line, s.pending)))
  }

  class SseParser {
    var buf: string
    var pendingName: Option<string>
    var pendingData: string

    function View(): State
      reads this
    {
      State(buf, Pending(pendingName, pendingData))
    }

    constructor ()
      ensures View() == State("", NOTHING)
    {
      buf, pendingName, pendingData := "", None, "";
    }

    /** A chunk that is not UTF-8 is dropped as a whole. */
    method Feed(bytes: string)
      modifies this
      ensures View() == old(View()).(buf := old(buf) + if Utf8.Valid(bytes) then bytes else "")
    {
      if Utf8.Valid(bytes) {
        buf := buf + bytes;
      }
    }

    method NextEvent() returns (r: Option<Event>)
      modifies this
      ensures (r, View()) == Next(old(View()))
    {
      hide FirstNewline, FieldName, FieldValue;
      var n := FirstNewline(buf);
      while n < |buf|
        invariant n == FirstNewline(buf) && Next(View()) == Next(old(View()))
        decreases |buf|
      {
        var line := buf[..n];
        buf := buf[n + 1..];
        n := FirstNewline(buf);
        if line != [] && line[|line| - 1] == '\r' {
          line := line[..|line| - 1];
        }
        if line == [] {
          if pendingData == [] && pendingName == None {
            continue;
          }
          var name := if pendingName.Some? then pendingName.value else "message";
          var data := pendingData;
          pendingName, pendingData := None, "";
          if data != [] && data[|data| - 1] == '\n' {
            data := data[..|data| - 1];
          }
          return Some(Event(name, data));
        }
        if line[0] == ':' {
          continue;
        }
        var field, value := FieldName(line), FieldValue(line);
        if field == "event" {
          pendingName := Some(value);
        } else if field == "data" {
          pendingData := pendingData + value;
          pendingData := pendingData + "\n";
        }
      }
      return None;
    }
  }
}
