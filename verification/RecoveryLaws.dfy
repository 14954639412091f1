/** Crash recovery: what a reopened log holds, wherever the last write was cut. */
module RecoveryLaws {
  import opened Events
  import opened Json
  import opened JsonLaws
  import opened JsonText
  import opened SessionLog
  import opened Texts
  import opened Wrappers
  import Utf8

  // ----- Printed values are UTF-8 -----

  /** Every text in a value is UTF-8, as every Rust string is. */
  predicate Utf8Texts(v: Value) {
    match v
    case String(text) => Utf8.Valid(text)
    case Array(items) => forall i :: 0 <= i < |items| ==> Utf8Texts(items[i])
    case Object(members) =>
      forall i :: 0 <= i < |members| ==> Utf8.Valid(members[i].key) && Utf8Texts(members[i].value)
    case _ => true
  }

  lemma HighByteIsNotEscaped(c: char)
    requires c as int >= 0x80
    ensures EscapeByte(c) == [c]
  {
  }

  lemma {:induction false} EscapeOfHighBytes(text: string, n: nat)
    requires n <= |text| && forall i :: 0 <= i < n ==> text[i] as int >= 0x80
    ensures Escape(text) == text[..n] + Escape(text[n..])
  {
    hide EscapeByte;
    if n > 0 {
      EscapeOfHighBytes(text[1..], n - 1);
      HighByteIsNotEscaped(text[0]);
      assert Escape(text) == [text[0]] + Escape(text[1..]);
      assert text[1..][n - 1..] == text[n..];
      assert text[..n] == [text[0]] + text[1..][..n - 1];
    }
  }

  lemma EscapedAsciiIsUtf8(c: char)
    requires c as int < 0x80
    ensures Utf8.Valid(EscapeByte(c))
  {
    Utf8.AsciiIsValid(EscapeByte(c));
  }

  lemma {:induction false} EscapeIsUtf8(text: string)
    requires Utf8.Valid(text)
    ensures Utf8.Valid(Escape(text))
    decreases |text|
  {
    if text != [] {
      Utf8.FirstSequence(text);
      var n := Utf8.SequenceLength(text);
      EscapeIsUtf8(text[n..]);
      hide EscapeByte, Utf8.SequenceLength;
      if n == 1 {
        EscapedAsciiIsUtf8(text[0]);
        Utf8.ValidThen(EscapeByte(text[0]), Escape(text[1..]));
      } else {
        EscapeOfHighBytes(text, n);
        Utf8.ValidThen(text[..n], Escape(text[n..]));
      }
    }
  }

  lemma QuoteIsUtf8(text: string)
    requires Utf8.Valid(text)
    ensures Utf8.Valid(Quote(text))
  {
    EscapeIsUtf8(text);
    Utf8.AsciiIsValid("\"");
    Utf8.ValidThen(Escape(text), "\"");
    Utf8.ValidThen("\"", Escape(text) + "\"");
  }

  lemma {:induction false} PrintIsUtf8(v: Value)
    requires WellFormed(v) && Utf8Texts(v)
    ensures Utf8.Valid(Print(v))
    decreases v, 0
  {
    hide Utf8.Valid;
    match v
    case Null => Utf8.AsciiIsValid("null");
    case Bool(b) => Utf8.AsciiIsValid(Print(v));
    case Number(token) => TokenIsNumberText(token); Utf8.AsciiIsValid(token);
    case String(text) => QuoteIsUtf8(text);
    case Array(items) => ItemsAreUtf8(items, true); Bracketed("[", PrintItems(items, true), "]");
    case Object(members) => MembersAreUtf8(members, true); Bracketed("{", PrintMembers(members, true), "}");
  }

  /** ASCII characters around UTF-8 text leave it UTF-8. */
  lemma Bracketed(open: string, middle: string, close: string)
    requires Utf8.Ascii(open) && Utf8.Valid(middle) && Utf8.Ascii(close)
    ensures Utf8.Valid(open + (middle + close))
  {
    Utf8.AsciiIsValid(open);
    Utf8.AsciiIsValid(close);
    Utf8.ValidThen(middle, close);
    Utf8.ValidThen(open, middle + close);
  }

  lemma {:induction false} ItemsAreUtf8(items: seq<Value>, first: bool)
    requires forall i :: 0 <= i < |items| ==> WellFormed(items[i]) && Utf8Texts(items[i])
    ensures Utf8.Valid(PrintItems(items, first))
    decreases items, 1
  {
    if items != [] {
      PrintIsUtf8(items[0]);
      ItemsAreUtf8(items[1..], false);
      hide Utf8.Valid, Print;
      Utf8.AsciiIsValid(if first then "" else ",");
      Utf8.ValidThen(Print(items[0]), PrintItems(items[1..], false));
      Utf8.ValidThen(if first then "" else ",", Print(items[0]) + PrintItems(items[1..], false));
    } else {
      Utf8.AsciiIsValid("");
    }
  }

  lemma {:induction false} MembersAreUtf8(members: seq<Member>, first: bool)
    requires forall i :: 0 <= i < |members| ==>
               WellFormed(members[i].value) && Utf8.Valid(members[i].key) && Utf8Texts(members[i].value)
    ensures Utf8.Valid(PrintMembers(members, first))
    decreases members, 1
  {
    if members != [] {
      QuoteIsUtf8(members[0].key);
      PrintIsUtf8(members[0].value);
      MembersAreUtf8(members[1..], false);
      hide Utf8.Valid, Print, Quote;
      var tail := PrintMembers(members[1..], false);
      Utf8.ValidThen(Print(members[0].value), tail);
      Utf8.AsciiIsValid(":");
      Utf8.ValidThen(":", Print(members[0].value) + tail);
      Utf8.ValidThen(Quote(members[0].key), ":" + (Print(members[0].value) + tail));
      Utf8.AsciiIsValid(if first then "" else ",");
      Utf8.ValidThen(if first then "" else ",", Quote(members[0].key) + (":" + (Print(members[0].value) + tail)));
    } else {
      Utf8.AsciiIsValid("");
    }
  }

  // ----- Log texts -----

  /** An event whose line the log can carry: texts are UTF-8, numbers are number tokens, nesting
      stays within the parser's allowance, and the payload of an unknown event has no known tag. */
  predicate Sound(e: SessionEvent) {
    var v := ToJson(e);
    && WellFormed(v) && Utf8Texts(v) && Nesting(v) < DEPTH
    && (e.Unknown? ==> TagOf(e.payload) !in KNOWN_TAGS)
  }

  /** The value written is no bare number: those alone have parts that are values again. */
  predicate SelfDelimiting(e: SessionEvent) {
    !ToJson(e).Number?
  }

  /** A cut that leaves a part of a line, where the line is not a bare number. */
  predicate TellingCut(e: SessionEvent, k: nat) {
    0 < k < |EventText(e)| ==> SelfDelimiting(e)
  }

  predicate AllSound(events: seq<SessionEvent>) {
    forall i :: 0 <= i < |events| ==> Sound(events[i])
  }

  function Line(e: SessionEvent): string {
    EventText(e) + "\n"
  }

  /** The log of a list of events: whole lines only. */
  function LogText(events: seq<SessionEvent>): string {
    if events == [] then [] else Line(events[0]) + LogText(events[1..])
  }

  /** The state after a list of events, or the first refusal. */
  function Fold(s: Snapshot, events: seq<SessionEvent>): Result<Snapshot, LogError>
    decreases |events|
  {
    if events == [] then Ok(s)
    else
      var next := Reduced(s, events[0]);
      if next.Err? then Err(next.error) else Fold(next.value, events[1..])
  }

  lemma {:induction false} LogTextThen(a: seq<SessionEvent>, b: seq<SessionEvent>)
    ensures LogText(a + b) == LogText(a) + LogText(b)
  {
    if a == [] {
      assert a + b == b;
    } else {
      assert (a + b)[1..] == a[1..] + b;
      LogTextThen(a[1..], b);
    }
  }

  lemma LogTextOne(e: SessionEvent)
    ensures LogText([e]) == Line(e)
  {
    assert Line(e) + LogText([]) == Line(e);
  }

  lemma {:induction false} LogEndsWithNewline(events: seq<SessionEvent>)
    ensures LogText(events) == [] || LogText(events)[|LogText(events)| - 1] == '\n'
  {
    if events != [] {
      LogEndsWithNewline(events[1..]);
    }
  }

  lemma {:induction false} FoldThen(s: Snapshot, a: seq<SessionEvent>, b: seq<SessionEvent>)
    ensures Fold(s, a + b) == var r := Fold(s, a); if r.Err? then r else Fold(r.value, b)
    decreases |a|
  {
    if a == [] {
      assert a + b == b;
    } else {
      assert (a + b)[1..] == a[1..] + b;
      if Reduced(s, a[0]).Ok? {
        FoldThen(Reduced(s, a[0]).value, a[1..], b);
      }
    }
  }

  // ----- One line -----

  /** What the reader needs to know about an event's text. */
  lemma TextFacts(e: SessionEvent)
    requires Sound(e)
    ensures var t := EventText(e);
            && t != [] && NoNewline(t) && Utf8.Valid(t) && Utf8.Trim(t) == t
            && Utf8.Visible(t[0]) && !IsSpace(t[0]) && t[|t| - 1] != '\r'
            && Decode(t) == Some(e)
  {
    hide *;
    SoundIs(e);
    var v := ToJson(e);
    TextRoundTrip(v);
    EventRoundTrip(e);
    DecodeIs(e);
    if v.Number? {
      NumberTextFacts(v.token);
    } else {
      OtherTextFacts(v);
    }
  }

  lemma SoundIs(e: SessionEvent)
    requires Sound(e)
    ensures var v := ToJson(e);
            && WellFormed(v) && Utf8Texts(v) && Nesting(v) < DEPTH && EventText(e) == Print(v)
            && (e.Unknown? ==> TagOf(e.payload) !in KNOWN_TAGS)
            && (v.Number? ==> IsNumberToken(v.token) && Print(v) == v.token)
  {
    hide ToJson, Utf8Texts, TagOf;
  }

  lemma DecodeIs(e: SessionEvent)
    requires ParseText(EventText(e)) == Some(ToJson(e)) && FromJson(ToJson(e)) == Some(e)
    ensures Decode(EventText(e)) == Some(e)
  {
    hide ToJson, FromJson, ParseText, EventText;
  }

  lemma OtherTextFacts(v: Value)
    requires WellFormed(v) && Utf8Texts(v) && !v.Number?
    ensures var t := Print(v);
            && t != [] && NoNewline(t) && Utf8.Valid(t) && Utf8.Trim(t) == t
            && Utf8.Visible(t[0]) && !IsSpace(t[0]) && t[|t| - 1] != '\r'
  {
    hide WellFormed, Utf8Texts, Print, NoNewline, Utf8.Valid, Utf8.Trim;
    PrintHasNoNewline(v);
    PrintIsUtf8(v);
    PrintedEnds(v);
    Utf8.TrimVisibleEnds(Print(v));
  }

  lemma NumberTextFacts(token: string)
    requires IsNumberToken(token)
    ensures token != [] && NoNewline(token) && Utf8.Valid(token) && Utf8.Trim(token) == token
    ensures Utf8.Visible(token[0]) && !IsSpace(token[0]) && token[|token| - 1] != '\r'
  {
    hide Utf8.Valid, Utf8.Trim, UnsignedPart;
    TokenIsNumberText(token);
    NumberStartsWell(token);
    TextOfNumberCharacters(token);
  }

  /** Splitting off a line, terminated or last. */
  lemma SplitLine(line: string, rest: string)
    requires line != [] && NoNewline(line) && line[|line| - 1] != '\r'
    ensures FirstLine(line + "\n" + rest) == line && AfterFirstLine(line + "\n" + rest) == rest
    ensures FirstLine(line) == line && AfterFirstLine(line) == []
  {
    var s := line + "\n" + rest;
    FirstNewlineAfter(line, s);
    FirstNewlineAfter(line, line);
    assert s[..|line|] == line && s[|line| + 1..] == rest;
    assert line[..|line|] == line;
  }

  /** A line that is neither blank nor malformed gives one item. */
  lemma NextItemOfLine(line: string, rest: string, lines: nat, item: Result<SessionEvent, LogError>)
    requires line != [] && NoNewline(line) && line[|line| - 1] != '\r'
    requires Utf8.Valid(line) && Utf8.Trim(line) != []
    requires item == var e := Decode(Utf8.Trim(line)); if e.Some? then Ok(e.value) else Err(Parse(lines + 1))
    ensures NextItem(line + "\n" + rest, lines) == Item(item, rest, lines + 1)
    ensures NextItem(line, lines) == Item(item, [], lines + 1)
  {
    SplitLine(line, rest);
    hide FirstLine, AfterFirstLine, Decode, NoNewline, Utf8.Valid, Utf8.Trim;
    assert line + "\n" + rest != [];
  }

  /** An event's text in front of a newline, or at the end of the file, is the next item. */
  lemma NextItemIsEvent(e: SessionEvent, rest: string, lines: nat)
    requires Sound(e)
    ensures NextItem(Line(e) + rest, lines) == Item(Ok(e), rest, lines + 1)
    ensures NextItem(EventText(e), lines) == Item(Ok(e), [], lines + 1)
  {
    TextFacts(e);
    hide EventText, Decode, NextItem, NoNewline, Utf8.Valid, Utf8.Trim;
    NextItemOfLine(EventText(e), rest, lines, Ok(e));
  }

  /** Replaying a log with something after it: the fold first, then the rest. */
  lemma {:induction false} ReplayThen(events: seq<SessionEvent>, rest: string, lines: nat, s: Snapshot)
    requires AllSound(events)
    ensures Replayed(LogText(events) + rest, lines, s) ==
              var r := Fold(s, events); if r.Err? then r else Replayed(rest, lines + |events|, r.value)
    decreases |events|
  {
    hide Reduced, Line, NextItem;
    if events == [] {
      assert LogText(events) + rest == rest;
    } else {
      assert LogText(events) + rest == Line(events[0]) + (LogText(events[1..]) + rest);
      NextItemIsEvent(events[0], LogText(events[1..]) + rest, lines);
      var next := Reduced(s, events[0]);
      if next.Ok? {
        ReplayThen(events[1..], rest, lines + 1, next.value);
      }
    }
  }

  lemma ReplayIsFold(events: seq<SessionEvent>)
    requires AllSound(events)
    ensures Replayed(LogText(events), 0, FRESH) == Fold(FRESH, events)
  {
    assert LogText(events) + [] == LogText(events);
    ReplayThen(events, [], 0, FRESH);
  }

  // ----- The repaired tail -----

  lemma {:induction false} TailStartAfter(whole: string, tail: string)
    requires NoNewline(tail) && (whole == [] || whole[|whole| - 1] == '\n')
    ensures TailStart(whole + tail) == |whole|
    decreases |tail|
  {
    if tail == [] {
      assert whole + tail == whole;
    } else {
      assert (whole + tail)[..|whole + tail| - 1] == whole + tail[..|tail| - 1];
      TailStartAfter(whole, tail[..|tail| - 1]);
    }
  }

  /** Repair looks only at what follows the last newline. */
  lemma RepairedTail(events: seq<SessionEvent>, tail: string)
    requires NoNewline(tail)
    ensures Repaired(LogText(events) + tail) == if KeepsTail(tail) then LogText(events) + tail else LogText(events)
  {
    hide KeepsTail, TailStart;
    LogEndsWithNewline(events);
    TailStartAfter(LogText(events), tail);
    var bytes := LogText(events) + tail;
    assert bytes[|LogText(events)|..] == tail && bytes[..|LogText(events)|] == LogText(events);
  }

  /** A torn line is kept only if it is empty or lacks nothing but its newline. */
  lemma TornTail(e: SessionEvent, k: nat)
    requires Sound(e) && k <= |EventText(e)| && TellingCut(e, k)
    ensures NoNewline(EventText(e)[..k])
    ensures KeepsTail(EventText(e)[..k]) <==> k == 0 || k == |EventText(e)|
  {
    TextFacts(e);
    var t, p := EventText(e), EventText(e)[..k];
    if k == |t| {
      assert p == t;
    } else if k > 0 {
      TrimOfPrefix(t, k);
      ProperPrefixIsNoText(ToJson(e), |Utf8.Trim(p)|);
    }
  }

  lemma TrimOfPrefix(t: string, k: nat)
    requires 0 < k <= |t| && Utf8.Visible(t[0])
    ensures Utf8.Trim(t[..k]) <= t[..k] && Utf8.Trim(t[..k]) != []
    ensures Utf8.Trim(t[..k]) == t[..|Utf8.Trim(t[..k])|]
  {
    var p := t[..k];
    VisibleStart(p);
    hide Utf8.TrimStart, Utf8.TrimEnd, Utf8.Visible;
    Utf8.TrimEndKeepsVisible(p, 0);
    var r := Utf8.TrimEnd(p);
    assert r == p[..|r|] == t[..|r|];
  }

  lemma VisibleStart(p: string)
    requires p != [] && Utf8.Visible(p[0])
    ensures Utf8.TrimStart(p) == p
  {
  }

  // ----- Main results -----

  /** A log of whole lines reopens to itself and to the fold of its events. */
  lemma WholeLogReopens(events: seq<SessionEvent>)
    requires AllSound(events)
    ensures Opened(LogText(events)) == (LogText(events), Fold(FRESH, events))
  {
    assert LogText(events) + [] == LogText(events);
    RepairedTail(events, []);
    ReplayIsFold(events);
  }

  /** With the whole event but no newline, the event counts and its line stays open. */
  lemma OpenLineReopens(before: seq<SessionEvent>, e: SessionEvent)
    requires AllSound(before) && Sound(e)
    ensures Opened(LogText(before) + EventText(e)) == (LogText(before) + EventText(e), Fold(FRESH, before + [e]))
  {
    hide *;
    var t := EventText(e);
    WholeCutIsTelling(e);
    TornTail(e, |t|);
    assert t[..|t|] == t;
    RepairedTail(before, t);
    OpenedIs(LogText(before) + t);
    ReplayThen(before, t, 0, FRESH);
    FoldThen(FRESH, before, [e]);
    var s := Fold(FRESH, before);
    if s.Ok? {
      OneEventReplayed(e, |before|, s.value);
    }
  }

  lemma WholeCutIsTelling(e: SessionEvent)
    ensures TellingCut(e, |EventText(e)|)
  {
  }

  lemma OneEventReplayed(e: SessionEvent, lines: nat, s: Snapshot)
    requires Sound(e)
    ensures Replayed(EventText(e), lines, s) == Fold(s, [e])
  {
    hide *;
    NextItemIsEvent(e, [], lines);
    OneItemReplayed(EventText(e), e, lines, s);
  }

  lemma OneItemReplayed(line: string, e: SessionEvent, lines: nat, s: Snapshot)
    requires NextItem(line, lines) == Item(Ok(e), [], lines + 1)
    ensures Replayed(line, lines, s) == Fold(s, [e])
  {
    hide Reduced, NextItem;
    EndOfLog(lines + 1);
  }

  lemma EndOfLog(lines: nat)
    ensures NextItem([], lines) == End
  {
  }

  /** A crash leaves `k` bytes of the last line. Reopening then finds exactly the completed events,
      in whole lines; the one exception is a cut just before the newline, where the event is found
      too but its line stays open. */
  lemma CrashRecovery(before: seq<SessionEvent>, e: SessionEvent, k: nat)
    requires AllSound(before) && Sound(e) && k <= |Line(e)| && TellingCut(e, k)
    ensures Opened(LogText(before) + Line(e)[..k]) ==
              if k < |EventText(e)| then (LogText(before), Fold(FRESH, before))
              else if k == |EventText(e)| then (LogText(before) + EventText(e), Fold(FRESH, before + [e]))
              else (LogText(before + [e]), Fold(FRESH, before + [e]))
  {
    var t := EventText(e);
    if k == |t| {
      assert Line(e)[..k] == t;
      OpenLineReopens(before, e);
    } else if k < |t| {
      assert Line(e)[..k] == t[..k];
      TornTail(e, k);
      RepairedTail(before, t[..k]);
      hide EventText, KeepsTail;
      assert LogText(before) + [] == LogText(before);
      ReplayIsFold(before);
    } else {
      assert Line(e)[..k] == Line(e);
      LogTextThen(before, [e]);
      LogTextOne(e);
      WholeLogReopens(before + [e]);
    }
  }

  predicate WholeLines(bytes: string) {
    bytes == [] || bytes[|bytes| - 1] == '\n'
  }

  /** Reopening leaves only whole lines exactly when the cut is not the one before the newline. */
  lemma WholeLinesExactly(before: seq<SessionEvent>, e: SessionEvent, k: nat)
    requires AllSound(before) && Sound(e) && k <= |Line(e)| && TellingCut(e, k)
    ensures WholeLines(Opened(LogText(before) + Line(e)[..k]).0) <==> k != |EventText(e)|
  {
    hide *;
    CrashRecovery(before, e, k);
    LogIsWhole(before);
    LogIsWhole(before + [e]);
    TextFacts(e);
    OpenLineIsNotWhole(LogText(before), EventText(e));
  }

  lemma LogIsWhole(events: seq<SessionEvent>)
    ensures WholeLines(LogText(events))
  {
    LogEndsWithNewline(events);
  }

  lemma OpenLineIsNotWhole(whole: string, t: string)
    requires t != [] && NoNewline(t)
    ensures !WholeLines(whole + t)
  {
    assert (whole + t)[|whole + t| - 1] == t[|t| - 1];
  }

  // ----- Runs of sessions, each ended by a crash or not -----

  /** The events emitted after one open, and how much of the last line reached the file. */
  datatype Life = Life(events: seq<SessionEvent>, cut: nat)

  predicate PossibleLife(l: Life) {
    && AllSound(l.events)
    && (l.events != [] ==> var last := l.events[|l.events| - 1]; l.cut <= |Line(last)| && TellingCut(last, l.cut))
  }

  /** The cut is not the one between the last event and its newline. */
  predicate CutElsewhere(l: Life) {
    l.events != [] ==> l.cut != |EventText(l.events[|l.events| - 1])|
  }

  function Written(l: Life): string
    requires PossibleLife(l)
  {
    if l.events == [] then []
    else
      var n := |l.events| - 1;
      LogText(l.events[..n]) + Line(l.events[n])[..l.cut]
  }

  /** The events whose whole text reached the file. */
  function CompletedIn(l: Life): seq<SessionEvent> {
    if l.events == [] then []
    else
      var n := |l.events| - 1;
      if l.cut < |EventText(l.events[n])| then l.events[..n] else l.events
  }

  function Completed(lives: seq<Life>): seq<SessionEvent> {
    if lives == [] then [] else Completed(lives[..|lives| - 1]) + CompletedIn(lives[|lives| - 1])
  }

  /** The file after the lives, or the error of an open that failed. */
  function RunLives(lives: seq<Life>): Result<string, LogError>
    requires forall i :: 0 <= i < |lives| ==> PossibleLife(lives[i])
  {
    if lives == [] then Ok("")
    else
      var n := |lives| - 1;
      var bytes := RunLives(lives[..n]);
      if bytes.Err? then bytes else
      var (repaired, state) := Opened(bytes.value);
      if state.Err? then Err(state.error) else Ok(repaired + Written(lives[n]))
  }

  lemma OneLife(before: seq<SessionEvent>, l: Life)
    requires AllSound(before) && PossibleLife(l) && CutElsewhere(l)
    ensures AllSound(before + CompletedIn(l))
    ensures Opened(LogText(before) + Written(l)) ==
              (LogText(before + CompletedIn(l)), Fold(FRESH, before + CompletedIn(l)))
  {
    hide Opened, Line, EventText, Sound;
    if l.events == [] {
      assert LogText(before) + [] == LogText(before) && before + [] == before;
      WholeLogReopens(before);
    } else {
      var n := |l.events| - 1;
      var kept, last := before + l.events[..n], l.events[n];
      LogTextThen(before, l.events[..n]);
      CrashRecovery(kept, last, l.cut);
      assert LogText(before) + Written(l) == LogText(kept) + Line(last)[..l.cut];
      assert kept + [last] == before + l.events;
    }
  }

  /** Over any number of lives: as long as no cut falls just before a newline and the completed
      events are accepted, every open succeeds, and the next one finds whole lines and the state
      that the completed events fold to. */
  lemma {:induction false} RecoveryOverRuns(lives: seq<Life>)
    requires forall i :: 0 <= i < |lives| ==> PossibleLife(lives[i]) && CutElsewhere(lives[i])
    requires Fold(FRESH, Completed(lives)).Ok?
    ensures AllSound(Completed(lives)) && RunLives(lives).Ok?
    ensures Opened(RunLives(lives).value) == (LogText(Completed(lives)), Fold(FRESH, Completed(lives)))
  {
    hide Opened, Written, CompletedIn, Sound, PossibleLife, CutElsewhere, Fold, LogText;
    if lives == [] {
      assert LogText([]) == "" by { LogOfNothing(); }
      WholeLogReopens([]);
    } else {
      var n := |lives| - 1;
      FoldThen(FRESH, Completed(lives[..n]), CompletedIn(lives[n]));
      RecoveryOverRuns(lives[..n]);
      OneLife(Completed(lives[..n]), lives[n]);
    }
  }

  /** The open after the lives succeeds, finds whole lines and folds the completed events. */
  predicate ReopensWell(lives: seq<Life>)
    requires forall i :: 0 <= i < |lives| ==> PossibleLife(lives[i])
  {
    var bytes := RunLives(lives);
    bytes.Ok? && WholeLines(Opened(bytes.value).0) && Opened(bytes.value).1 == Fold(FRESH, Completed(lives))
  }

  lemma {:induction false} AcceptedBefore(lives: seq<Life>, n: nat)
    requires n <= |lives| && Fold(FRESH, Completed(lives)).Ok?
    ensures Fold(FRESH, Completed(lives[..n])).Ok?
  {
    hide CompletedIn, Fold;
    if n == |lives| {
      assert lives[..n] == lives;
    } else {
      var m := |lives| - 1;
      FoldThen(FRESH, Completed(lives[..m]), CompletedIn(lives[m]));
      AcceptedBefore(lives[..m], n);
      assert lives[..m][..n] == lives[..n];
    }
  }

  /** A life cut just before a newline leaves a line open. */
  lemma OpenLife(before: seq<SessionEvent>, l: Life)
    requires AllSound(before) && PossibleLife(l) && !CutElsewhere(l)
    ensures !WholeLines(Opened(LogText(before) + Written(l)).0)
  {
    hide Opened, Line, EventText, Sound, WholeLines;
    var n := |l.events| - 1;
    var kept, last := before + l.events[..n], l.events[n];
    LogTextThen(before, l.events[..n]);
    WholeLinesExactly(kept, last, l.cut);
    assert LogText(before) + Written(l) == LogText(kept) + Line(last)[..l.cut];
  }

  lemma CutAfterGoodLives(lives: seq<Life>)
    requires lives != [] && forall i :: 0 <= i < |lives| ==> PossibleLife(lives[i])
    requires forall i :: 0 <= i < |lives| - 1 ==> CutElsewhere(lives[i])
    requires Fold(FRESH, Completed(lives)).Ok? && ReopensWell(lives)
    ensures CutElsewhere(lives[|lives| - 1])
  {
    hide Opened, Written, Sound, PossibleLife, CutElsewhere, Fold, LogText, WholeLines;
    var n := |lives| - 1;
    AcceptedBefore(lives, n);
    RecoveryOverRuns(lives[..n]);
    if !CutElsewhere(lives[n]) {
      OpenLife(Completed(lives[..n]), lives[n]);
    }
  }

  /** For lives whose completed events are accepted: every open finds whole lines and the fold of the
      completed events exactly when no cut falls just before a newline. */
  lemma {:induction false} RecoveryExactness(lives: seq<Life>)
    requires forall i :: 0 <= i < |lives| ==> PossibleLife(lives[i])
    requires Fold(FRESH, Completed(lives)).Ok?
    ensures (forall n :: 0 <= n <= |lives| ==> ReopensWell(lives[..n])) <==> forall i :: 0 <= i < |lives| ==> CutElsewhere(lives[i])
  {
    hide PossibleLife, CutElsewhere, ReopensWell, Fold, Completed;
    if forall i :: 0 <= i < |lives| ==> CutElsewhere(lives[i]) {
      forall n | 0 <= n <= |lives|
        ensures ReopensWell(lives[..n])
      {
        AcceptedBefore(lives, n);
        GoodLives(lives[..n]);
      }
    } else if lives != [] {
      var m := |lives| - 1;
      AcceptedBefore(lives, m);
      RecoveryExactness(lives[..m]);
      assert lives[..|lives|] == lives;
      assert forall n :: 0 <= n <= m ==> lives[..m][..n] == lives[..n];
      if forall n :: 0 <= n <= |lives| ==> ReopensWell(lives[..n]) {
        assert forall i :: 0 <= i < m ==> CutElsewhere(lives[..m][i]);
        CutAfterGoodLives(lives);
      }
    }
  }

  lemma GoodLives(lives: seq<Life>)
    requires forall i :: 0 <= i < |lives| ==> PossibleLife(lives[i]) && CutElsewhere(lives[i])
    requires Fold(FRESH, Completed(lives)).Ok?
    ensures ReopensWell(lives)
  {
    hide Opened, PossibleLife, CutElsewhere, Fold, Completed, LogText, WholeLines;
    RecoveryOverRuns(lives);
    LogIsWhole(Completed(lives));
  }

  lemma LogOfNothing()
    ensures LogText([]) == ""
  {
  }

  // ----- What the exceptions lead to -----

  /** After a cut just before the newline, the next append lands on the open line. Unless nothing of
      it is written, the line is spoiled: torn, it is dropped with the event that had been found
      before; complete, it makes every later open fail on that line. */
  lemma AppendToOpenLine(before: seq<SessionEvent>, e: SessionEvent, next: SessionEvent, k: nat)
    requires AllSound(before) && Sound(e) && SelfDelimiting(e) && Sound(next) && k <= |Line(next)|
    ensures Opened(LogText(before) + EventText(e) + Line(next)[..k]) ==
              if k == 0 then (LogText(before) + EventText(e), Fold(FRESH, before + [e]))
              else if k <= |EventText(next)| then (LogText(before), Fold(FRESH, before))
              else (LogText(before) + EventText(e) + Line(next),
                    var s := Fold(FRESH, before); if s.Err? then s else Err(Parse(|before| + 1)))
  {
    hide *;
    LineLength(next);
    if k == 0 {
      assert LogText(before) + EventText(e) + Line(next)[..k] == LogText(before) + EventText(e);
      OpenLineReopens(before, e);
    } else if k <= |EventText(next)| {
      TornJoin(before, e, next, k);
    } else {
      JoinedLine(before, e, next);
      assert Line(next)[..k] == Line(next);
    }
  }

  lemma LineLength(e: SessionEvent)
    ensures |Line(e)| == |EventText(e)| + 1
  {
    hide EventText;
  }

  lemma TornJoin(before: seq<SessionEvent>, e: SessionEvent, next: SessionEvent, k: nat)
    requires AllSound(before) && Sound(e) && SelfDelimiting(e) && Sound(next) && 0 < k <= |EventText(next)|
    ensures Opened(LogText(before) + EventText(e) + Line(next)[..k]) == (LogText(before), Fold(FRESH, before))
  {
    hide EventText, Line, KeepsTail, Decode, Sound, LogText, Fold, Repaired, NoNewline, Utf8.Trim, Replayed;
    var t, p := EventText(e), EventText(next)[..k];
    JoinedTail(e, next, k);
    RepairedTail(before, t + p);
    ReplayIsFold(before);
    LineStart(next, k);
    assert LogText(before) + t + p == LogText(before) + (t + p);
  }

  lemma LineStart(e: SessionEvent, k: nat)
    requires k <= |EventText(e)|
    ensures Line(e)[..k] == EventText(e)[..k]
  {
  }

  /** Trimming two texts in a row leaves the first and the start of the second. */
  lemma TrimOfTwo(t: string, p: string) returns (more: string)
    requires t != [] && Utf8.Visible(t[0]) && p != [] && Utf8.Visible(p[0]) && !IsSpace(p[0])
    ensures Utf8.Trim(t + p) == t + more && SkipSpace(more) != []
    ensures more != [] && more[0] == p[0]
  {
    assert Utf8.TrimStart(t + p) == t + p;
    Utf8.TrimEndKeepsVisible(t + p, |t|);
    var r := Utf8.Trim(t + p);
    more := r[|t|..];
    assert r == t + more;
    SkipNothing(more);
  }

  lemma NotKept(tail: string)
    requires Utf8.Trim(tail) != [] && ParseText(Utf8.Trim(tail)) == None
    ensures !KeepsTail(tail) && Decode(Utf8.Trim(tail)) == None
  {
  }

  lemma JoinedTail(e: SessionEvent, next: SessionEvent, k: nat)
    requires Sound(e) && SelfDelimiting(e) && Sound(next) && 0 < k <= |EventText(next)|
    ensures NoNewline(EventText(e) + EventText(next)[..k])
    ensures !KeepsTail(EventText(e) + EventText(next)[..k])
    ensures Decode(Utf8.Trim(EventText(e) + EventText(next)[..k])) == None
    ensures Utf8.Trim(EventText(e) + EventText(next)[..k]) != []
  {
    hide EventText, Sound, Utf8.Trim, Utf8.Valid, ParseText, Decode, KeepsTail, SkipSpace, Utf8.Visible, IsSpace;
    TextFacts(e);
    TextFacts(next);
    var t, p := EventText(e), EventText(next)[..k];
    assert p[0] == EventText(next)[0];
    assert NoNewline(t + p);
    hide *;
    var more := TrimOfTwo(t, p);
    JoinedIsNoText(e, more);
    NotKept(t + p);
  }

  lemma JoinedIsNoText(e: SessionEvent, more: string)
    requires Sound(e) && SelfDelimiting(e) && SkipSpace(more) != []
    ensures ParseText(EventText(e) + more) == None
  {
    NothingFollows(ToJson(e), more);
  }

  lemma JoinedLine(before: seq<SessionEvent>, e: SessionEvent, next: SessionEvent)
    requires AllSound(before) && Sound(e) && SelfDelimiting(e) && Sound(next)
    ensures Opened(LogText(before) + EventText(e) + Line(next)) ==
              (LogText(before) + EventText(e) + Line(next),
               var s := Fold(FRESH, before); if s.Err? then s else Err(Parse(|before| + 1)))
  {
    hide *;
    var line := EventText(e) + EventText(next) + "\n";
    var bytes := LogText(before) + EventText(e) + Line(next);
    JoinedText(LogText(before), e, next);
    JoinedReplayed(e, next, |before|);
    TerminatedIsKept(bytes);
    OpenedIs(bytes);
    ReplayThen(before, line, 0, FRESH);
  }

  lemma JoinedText(log: string, e: SessionEvent, next: SessionEvent)
    ensures var bytes := log + EventText(e) + Line(next);
            && bytes == log + (EventText(e) + EventText(next) + "\n")
            && bytes != [] && bytes[|bytes| - 1] == '\n'
  {
    hide EventText;
  }

  lemma JoinedReplayed(e: SessionEvent, next: SessionEvent, lines: nat)
    requires Sound(e) && SelfDelimiting(e) && Sound(next)
    ensures forall s :: Replayed(EventText(e) + EventText(next) + "\n", lines, s) == Err(Parse(lines + 1))
  {
    hide EventText, Sound, NextItem;
    JoinedItem(e, next, lines);
  }

  /** Two events on one line are one line that does not decode. */
  lemma JoinedItem(e: SessionEvent, next: SessionEvent, lines: nat)
    requires Sound(e) && SelfDelimiting(e) && Sound(next)
    ensures NextItem(EventText(e) + EventText(next) + "\n", lines) == Item(Err(Parse(lines + 1)), [], lines + 1)
  {
    hide *;
    var t, u := EventText(e), EventText(next);
    TextFacts(e);
    TextFacts(next);
    JoinedTail(e, next, |u|);
    assert u[..|u|] == u;
    Utf8.ValidThen(t, u);
    assert (t + u)[|t + u| - 1] == u[|u| - 1];
    NextItemOfLine(t + u, [], lines, Err(Parse(lines + 1)));
    assert t + u + "\n" + [] == t + u + "\n";
  }

  lemma TerminatedIsKept(bytes: string)
    requires bytes != [] && bytes[|bytes| - 1] == '\n'
    ensures Repaired(bytes) == bytes
  {
    assert bytes[TailStart(bytes)..] == [];
  }

  /** `emit` writes before it applies: an event that the state refuses stays in the log, and every
      later open ends with that same refusal, whatever was appended after it. */
  lemma RefusedEventStays(before: seq<SessionEvent>, e: SessionEvent, more: seq<SessionEvent>)
    requires AllSound(before) && Sound(e) && AllSound(more)
    requires Fold(FRESH, before).Ok? && Reduced(Fold(FRESH, before).value, e).Err?
    ensures Opened(LogText(before + [e] + more)) ==
              (LogText(before + [e] + more), Err(Reduced(Fold(FRESH, before).value, e).error))
  {
    hide Reduced, Sound, Opened, LogText;
    var events := [e] + more;
    assert before + [e] + more == before + events;
    assert events[0] == e;
    WholeLogReopens(before + events);
    FoldThen(FRESH, before, events);
  }

  /** Starting a session twice is such an event. */
  lemma SecondStartStays(start: SessionEvent, more: seq<SessionEvent>)
    requires Sound(start) && start.SessionStarted? && AllSound(more)
    ensures Opened(LogText([start] + [start] + more)) ==
              (LogText([start] + [start] + more), Err(AlreadyStarted(start.id)))
  {
    hide Sound, Opened, LogText;
    StartIsRefused(start);
    RefusedEventStays([start], start, more);
  }

  lemma StartIsRefused(start: SessionEvent)
    requires start.SessionStarted?
    ensures Fold(FRESH, [start]).Ok? && Reduced(Fold(FRESH, [start]).value, start) == Err(AlreadyStarted(start.id))
  {
    assert [start][1..] == [];
  }

  lemma StartExists() returns (start: SessionEvent)
    ensures start.SessionStarted? && Sound(start)
  {
    hide Utf8.Valid, TagOf;
    start := SessionStarted("s", "/", None, "t");
    var m := ToJson(start).members;
    forall i | 0 <= i < |m|
      ensures Utf8.Valid(m[i].key) && Utf8Texts(m[i].value)
    {
      AsciiMember(m[i]);
    }
    FlatMembers(m);
  }

  lemma AsciiMember(m: Member)
    requires m.value.String? || m.value.Null?
    requires forall i :: 0 <= i < |m.key| ==> m.key[i] as int < 0x80
    requires m.value.String? ==> forall i :: 0 <= i < |m.value.text| ==> m.value.text[i] as int < 0x80
    ensures Utf8.Valid(m.key) && Utf8Texts(m.value)
  {
    hide Utf8.Valid;
    Utf8.AsciiIsValid(m.key);
    if m.value.String? {
      Utf8.AsciiIsValid(m.value.text);
    }
  }

  lemma {:induction false} FlatMembers(members: seq<Member>)
    requires forall i :: 0 <= i < |members| ==> Nesting(members[i].value) == 0
    ensures MembersNesting(members) == 0
  {
    if members != [] {
      FlatMembers(members[1..]);
    }
  }

  /** The payload of an unknown event may be a bare number. Its torn line is replayed, as an event
      nobody emitted, exactly when what is left of the token is again a number. */
  lemma TornNumber(before: seq<SessionEvent>, token: string, k: nat)
    requires AllSound(before) && IsNumberToken(token) && 0 < k < |token|
    ensures EventText(Unknown(Number(token))) == token
    ensures var p := token[..k];
            Opened(LogText(before) + p) ==
              if IsNumberToken(p) then (LogText(before) + p, Fold(FRESH, before + [Unknown(Number(p))]))
              else (LogText(before), Fold(FRESH, before))
  {
    hide *;
    var p := token[..k];
    PrefixOfNumber(token, k);
    NumberIsItsText(token);
    RepairedTail(before, p);
    OpenedIs(LogText(before) + p);
    if IsNumberToken(p) {
      ReplayThen(before, p, 0, FRESH);
      FoldThen(FRESH, before, [Unknown(Number(p))]);
      var s := Fold(FRESH, before);
      if s.Ok? {
        NumberReplayed(p, |before|, s.value);
      }
    } else {
      ReplayIsFold(before);
    }
  }

  lemma NumberIsItsText(token: string)
    ensures EventText(Unknown(Number(token))) == token
  {
  }

  lemma OpenedIs(bytes: string)
    ensures Opened(bytes) == (Repaired(bytes), Replayed(Repaired(bytes), 0, FRESH))
  {
  }

  /** Such tokens exist: 12, cut after the first digit. */
  lemma TornNumberExample()
    ensures IsNumberToken("12") && IsNumberToken("12"[..1])
  {
    assert "12"[1..] == "2" && "2"[1..] == "" && "12"[2..] == "" && "12"[..1] == "1";
    assert DigitRun("2") == 1 && DigitRun("12") == 2 && DigitRun("1") == 1;
  }

  /** What the next append makes of a line left open by a bare number: number and appended text are one
      token where they can be one, and that number is replayed in place of the event. Otherwise both are
      lost: torn, the line is dropped; complete, it makes every later open fail. */
  lemma AppendToOpenNumber(before: seq<SessionEvent>, token: string, next: SessionEvent, k: nat)
    requires AllSound(before) && IsNumberToken(token) && Sound(next) && k <= |Line(next)|
    ensures var whole := k > |EventText(next)|;
            var t := token + EventText(next)[..if whole then |EventText(next)| else k];
            Opened(LogText(before) + token + Line(next)[..k]) ==
              if IsNumberToken(t) then (LogText(before) + t + (if whole then "\n" else ""), Fold(FRESH, before + [Unknown(Number(t))]))
              else if !whole then (LogText(before), Fold(FRESH, before))
              else (LogText(before) + t + "\n", var s := Fold(FRESH, before); if s.Err? then s else Err(Parse(|before| + 1)))
  {
    hide *;
    LineLength(next);
    var u := EventText(next);
    var whole := k > |u|;
    var t := token + u[..if whole then |u| else k];
    NumberLine(LogText(before), token, next, k);
    NothingAppended(token, u);
    if IsNumberToken(t) {
      NumberIsSound(t);
      NumberIsItsText(t);
      if whole {
        NumberLogReopens(before, t);
      } else {
        OpenLineReopens(before, Unknown(Number(t)));
        assert LogText(before) + t + "" == LogText(before) + t;
      }
    } else {
      TextFacts(next);
      NumberTail(token, next, if whole then |u| else k);
      if whole {
        SpoiledLine(before, t);
      } else {
        RepairedTail(before, t);
        OpenedIs(LogText(before) + t);
        ReplayIsFold(before);
      }
    }
  }

  lemma NothingAppended(token: string, u: string)
    ensures token + u[..0] == token
  {
  }

  lemma NumberLine(log: string, token: string, next: SessionEvent, k: nat)
    requires k <= |Line(next)|
    ensures |Line(next)| == |EventText(next)| + 1
    ensures log + token + Line(next)[..k] ==
              if k > |EventText(next)| then log + (token + EventText(next)[..|EventText(next)|]) + "\n"
              else log + (token + EventText(next)[..k])
  {
    hide EventText;
    var u := EventText(next);
    assert u[..|u|] == u;
    if k > |u| {
      assert Line(next)[..k] == u + "\n";
    } else {
      assert Line(next)[..k] == u[..k];
    }
  }

  lemma NumberIsSound(token: string)
    requires IsNumberToken(token)
    ensures Sound(Unknown(Number(token)))
  {
    hide IsNumberToken;
  }

  lemma NumberLogReopens(before: seq<SessionEvent>, token: string)
    requires AllSound(before) && Sound(Unknown(Number(token))) && EventText(Unknown(Number(token))) == token
    ensures Opened(LogText(before) + token + "\n") == (LogText(before) + token + "\n", Fold(FRESH, before + [Unknown(Number(token))]))
  {
    hide Opened, Fold, Sound, EventText;
    var e := Unknown(Number(token));
    LogTextThen(before, [e]);
    LogTextOne(e);
    WholeLogReopens(before + [e]);
    assert LogText(before) + (token + "\n") == LogText(before) + token + "\n";
  }

  /** A number and text behind it that do not make a number are no line. */
  lemma NumberTail(token: string, next: SessionEvent, k: nat)
    requires IsNumberToken(token) && Sound(next) && 0 < k <= |EventText(next)|
    requires !IsNumberToken(token + EventText(next)[..k])
    ensures var t := token + EventText(next)[..k];
            && NoNewline(t) && !KeepsTail(t) && Decode(Utf8.Trim(t)) == None && Utf8.Trim(t) != []
            && (k == |EventText(next)| ==> Utf8.Valid(t) && t[|t| - 1] != '\r')
  {
    hide *;
    TextFacts(next);
    NumberTextFacts(token);
    var u, p := EventText(next), EventText(next)[..k];
    var t := token + p;
    NoNewlines(token, u, k);
    if k == |u| {
      assert p == u;
      Utf8.ValidThen(token, u);
      assert t[|t| - 1] == u[|u| - 1];
    }
    SoundIs(next);
    if ToJson(next).Number? {
      TokenIsNumberText(token);
      TokenIsNumberText(u);
      NumberCharacters(token, u, k);
      NumberStartsWell(token);
      assert t[0] == token[0];
      TextOfNumberCharacters(t);
      NumberTextParses(t);
    } else {
      assert p[0] == u[0];
      var more := TrimOfTwo(token, p);
      OtherStart(ToJson(next));
      NumberThenOther(token, more);
    }
    NotKept(t);
  }

  lemma NoNewlines(t: string, u: string, k: nat)
    requires NoNewline(t) && NoNewline(u) && k <= |u|
    ensures NoNewline(t + u[..k])
  {
  }

  lemma NumberCharacters(t: string, u: string, k: nat)
    requires NumberText(t) && NumberText(u) && k <= |u|
    ensures NumberText(t + u[..k])
  {
    hide InNumber;
  }

  /** A value that is no number does not go on where a number ends. */
  lemma OtherStart(v: Value)
    requires !v.Number?
    ensures Print(v) != [] && !InNumber(Print(v)[0])
  {
  }

  lemma NumberThenOther(token: string, more: string)
    requires IsNumberToken(token) && more != [] && !InNumber(more[0]) && !IsSpace(more[0])
    ensures ParseText(token + more) == None
  {
    hide ParseValue, NumberLength, IsDigit, InNumber, SkipSpace;
    NumberStartsWell(token);
    NumberLengthThen(token, more);
    ParseNumberText(token + more);
    assert (token + more)[|token|..] == more;
    SkipNothing(more);
  }

  /** A whole line that is no event makes every open fail there, unless an event before it is refused. */
  lemma SpoiledLine(before: seq<SessionEvent>, t: string)
    requires AllSound(before) && t != [] && NoNewline(t) && Utf8.Valid(t) && t[|t| - 1] != '\r'
    requires Utf8.Trim(t) != [] && Decode(Utf8.Trim(t)) == None
    ensures Opened(LogText(before) + t + "\n") ==
              (LogText(before) + t + "\n", var s := Fold(FRESH, before); if s.Err? then s else Err(Parse(|before| + 1)))
  {
    hide *;
    var bytes := LogText(before) + t + "\n";
    assert bytes == LogText(before) + (t + "\n") && bytes[|bytes| - 1] == '\n';
    NextItemOfLine(t, [], |before|, Err(Parse(|before| + 1)));
    assert t + "\n" + [] == t + "\n";
    SpoiledReplayed(t, |before|);
    TerminatedIsKept(bytes);
    OpenedIs(bytes);
    ReplayThen(before, t + "\n", 0, FRESH);
  }

  lemma SpoiledReplayed(t: string, lines: nat)
    requires NextItem(t + "\n", lines) == Item(Err(Parse(lines + 1)), [], lines + 1)
    ensures forall s :: Replayed(t + "\n", lines, s) == Err(Parse(lines + 1))
  {
    hide NextItem;
  }

  /** 1 left open and then 2 appended is replayed as 12, an event that was never emitted. */
  lemma JoinedNumberExample()
    ensures Sound(Unknown(Number("1"))) && Sound(Unknown(Number("2")))
    ensures Opened("1" + "2\n") == ("12\n", Fold(FRESH, [Unknown(Number("12"))]))
  {
    hide *;
    TornNumberExample();
    OneDigit();
    NumberIsSound("1");
    NumberIsSound("2");
    NumberIsItsText("2");
    NoEvents();
    LineOfTwo();
    AppendToOpenNumber([], "1", Unknown(Number("2")), 2);
    assert "2"[..1] == "2" && "1" + "2" == "12";
    assert "" + ("1" + "2") + "\n" == "12\n" && "" + "1" + "2\n" == "1" + "2\n";
    assert [] + [Unknown(Number("12"))] == [Unknown(Number("12"))];
  }

  lemma LineOfTwo()
    ensures Line(Unknown(Number("2"))) == "2\n" && "2\n"[..2] == "2\n"
  {
    NumberIsItsText("2");
  }

  lemma OneDigit()
    ensures IsNumberToken("1") && IsNumberToken("2")
  {
    assert "1"[1..] == "" && "2"[1..] == "" && DigitRun("1") == 1 && DigitRun("2") == 1;
  }

  lemma NoEvents()
    ensures LogText([]) == "" && AllSound([])
  {
  }

  lemma PrefixOfNumber(token: string, k: nat)
    requires IsNumberToken(token) && 0 < k < |token|
    ensures var p := token[..k];
            && NoNewline(p) && Utf8.Valid(p) && Utf8.Trim(p) == p && p[|p| - 1] != '\r'
            && Decode(p) == (if IsNumberToken(p) then Some(Unknown(Number(p))) else None)
            && (KeepsTail(p) <==> IsNumberToken(p))
  {
    var p := token[..k];
    TokenIsNumberText(token);
    TextOfNumberCharacters(p);
    NumberStartsWell(token);
    assert p[0] == token[0];
    hide Utf8.Valid, Utf8.Trim, IsNumberToken, ParseText, NumberText, NoNewline;
    NumberTextParses(p);
  }

  lemma TextOfNumberCharacters(p: string)
    requires p != [] && NumberText(p)
    ensures NoNewline(p) && Utf8.Valid(p) && Utf8.Trim(p) == p && p[|p| - 1] != '\r'
  {
    Utf8.AsciiIsValid(p);
    Utf8.TrimVisibleEnds(p);
  }

  lemma NumberIsNoSpace(c: char)
    requires InNumber(c)
    ensures !IsSpace(c)
  {
  }

  /** A text of number characters is a number or no JSON text. */
  lemma NumberTextParses(p: string)
    requires p != [] && NumberText(p) && (IsDigit(p[0]) || p[0] == '-')
    ensures ParseText(p) == if IsNumberToken(p) then Some(Number(p)) else None
  {
    hide ParseValue, NumberLength, SkipSpace, IsDigit;
    ParseNumberText(p);
    var n := NumberLength(p);
    if n.Some? {
      if n.value < |p| {
        NumberIsNoSpace(p[n.value]);
        assert p[n.value..][0] == p[n.value];
        SkipNothing(p[n.value..]);
      } else {
        assert p[..n.value] == p && p[n.value..] == [];
        SkipAllSpace();
      }
    }
  }

  lemma SkipAllSpace()
    ensures SkipSpace([]) == []
  {
  }

  lemma ParseNumberText(p: string)
    requires p != [] && (IsDigit(p[0]) || p[0] == '-')
    ensures ParseValue(p, DEPTH) ==
              var n := NumberLength(p); if n.None? then Fail else Done(Number(p[..n.value]), p[n.value..])
  {
    hide NumberLength;
    SkipNothing(p);
  }

  lemma NumberStartsWell(token: string)
    requires IsNumberToken(token)
    ensures IsDigit(token[0]) || token[0] == '-'
  {
  }

  lemma NumberReplayed(p: string, lines: nat, s: Snapshot)
    requires p != [] && NoNewline(p) && Utf8.Valid(p) && Utf8.Trim(p) == p && p[|p| - 1] != '\r'
    requires Decode(p) == Some(Unknown(Number(p)))
    ensures Replayed(p, lines, s) == Fold(s, [Unknown(Number(p))])
  {
    hide *;
    NextItemOfLine(p, [], lines, Ok(Unknown(Number(p))));
    OneItemReplayed(p, Unknown(Number(p)), lines, s);
  }
}
