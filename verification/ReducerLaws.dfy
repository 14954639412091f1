/** What the state of a session says about its events, and which event lists are refused. */
module ReducerLaws {
  import opened Events
  import opened RecoveryLaws
  import opened SessionLog
  import opened Wrappers

  // ----- The last event of a kind -----

  datatype Kind = Starting | Moving | ChangingStatus | Checkpointing | Ending

  predicate Is(e: SessionEvent, kind: Kind) {
    match kind
    case Starting => e.SessionStarted?
    case Moving => e.SessionStarted? || e.SessionResumed?
    case ChangingStatus => e.SessionStarted? || e.SessionResumed? || e.SessionPaused? || e.SessionEnded?
    case Checkpointing => e.CheckpointCreated?
    case Ending => e.SessionEnded?
  }

  /** Event `i` is of the kind, and no later one is. */
  predicate IsLast(events: seq<SessionEvent>, kind: Kind, i: nat) {
    i < |events| && Is(events[i], kind) && forall j :: i < j < |events| ==> !Is(events[j], kind)
  }

  function Last(events: seq<SessionEvent>, kind: Kind): (r: Option<SessionEvent>)
    ensures r.None? ==> forall i :: 0 <= i < |events| ==> !Is(events[i], kind)
    ensures r.Some? ==> exists i: nat :: IsLast(events, kind, i) && events[i] == r.value
  {
    if events == [] then None
    else
      var n := |events| - 1;
      if Is(events[n], kind) then assert IsLast(events, kind, n); Some(events[n])
      else
        var r := Last(events[..n], kind);
        assert forall i: nat :: IsLast(events[..n], kind, i) ==> IsLast(events, kind, i);
        r
  }

  function StatusAfter(e: Option<SessionEvent>): SessionStatus {
    match e
    case Some(SessionStarted(_, _, _, _)) => Active
    case Some(SessionResumed(_, _)) => Active
    case Some(SessionPaused(_)) => Paused
    case Some(SessionEnded(_, _)) => Ended
    case _ => New
  }

  // ----- The transcript -----

  function MessagesIn(events: seq<SessionEvent>): nat {
    if events == [] then 0
    else MessagesIn(events[..|events| - 1]) + if events[|events| - 1].MessageAdded? then 1 else 0
  }

  /** The messages are those of the events, in their order: the message of event `i` has as many before
      it as there are such events before `i`. */
  predicate Transcribes(messages: seq<Message>, events: seq<SessionEvent>) {
    && |messages| == MessagesIn(events)
    && forall i :: 0 <= i < |events| && events[i].MessageAdded? ==>
         && MessagesIn(events[..i]) < |messages|
         && messages[MessagesIn(events[..i])] ==
              Message(events[i].messageId, events[i].role, events[i].content, events[i].timestamp)
  }

  /** Status and directory are what the last event that speaks of them says. */
  predicate DescribesPhase(s: Snapshot, events: seq<SessionEvent>) {
    && s.status == StatusAfter(Last(events, ChangingStatus))
    && s.cwd == match Last(events, Moving)
                case Some(SessionStarted(_, cwd, _, _)) => Some(cwd)
                case Some(SessionResumed(cwd, _)) => Some(cwd)
                case _ => None
  }

  /** Session, project root and start are those of the last start. */
  predicate DescribesStart(s: Snapshot, events: seq<SessionEvent>) {
    match Last(events, Starting)
    case Some(SessionStarted(id, _, root, timestamp)) =>
      s.id == Some(id) && s.projectRoot == root && s.startedAt == Some(timestamp)
    case _ => s.id == None && s.projectRoot == None && s.startedAt == None
  }

  /** The checkpoint is the last one, and reason and time of the end are those of the last end. */
  predicate DescribesEnd(s: Snapshot, events: seq<SessionEvent>) {
    && s.lastCheckpoint == (match Last(events, Checkpointing)
                            case Some(CheckpointCreated(id, title, timestamp)) => Some(Checkpoint(id, title, timestamp))
                            case _ => None)
    && match Last(events, Ending)
       case Some(SessionEnded(reason, timestamp)) => s.endReason == Some(reason) && s.endedAt == Some(timestamp)
       case _ => s.endReason == None && s.endedAt == None
  }

  /** Everything the state holds, in terms of the events. */
  predicate Describes(s: Snapshot, events: seq<SessionEvent>) {
    && s.eventCount == |events| && Transcribes(s.messages, events)
    && DescribesPhase(s, events) && DescribesStart(s, events) && DescribesEnd(s, events)
  }

  lemma TranscribesNext(messages: seq<Message>, more: seq<Message>, events: seq<SessionEvent>, e: SessionEvent)
    requires Transcribes(messages, events)
    requires more == messages + if e.MessageAdded? then [Message(e.messageId, e.role, e.content, e.timestamp)] else []
    ensures Transcribes(more, events + [e])
  {
    var all := events + [e];
    assert all[..|events|] == events;
    forall i | 0 <= i < |all| && all[i].MessageAdded?
      ensures MessagesIn(all[..i]) < |more|
      ensures more[MessagesIn(all[..i])] == Message(all[i].messageId, all[i].role, all[i].content, all[i].timestamp)
    {
      if i < |events| {
        assert all[..i] == events[..i];
      }
    }
  }

  lemma LastNext(events: seq<SessionEvent>, e: SessionEvent, kind: Kind)
    ensures Last(events + [e], kind) == if Is(e, kind) then Some(e) else Last(events, kind)
  {
    assert (events + [e])[..|events|] == events;
  }

  lemma FoldNext(events: seq<SessionEvent>, e: SessionEvent)
    ensures Fold(FRESH, events + [e]) ==
              var s := Fold(FRESH, events); if s.Err? then s else Reduced(s.value, e)
  {
    FoldThen(FRESH, events, [e]);
    assert [e][1..] == [];
  }

  lemma PhaseNext(s: Snapshot, t: Snapshot, events: seq<SessionEvent>, e: SessionEvent)
    requires DescribesPhase(s, events) && Reduced(s, e) == Ok(t)
    ensures DescribesPhase(t, events + [e])
  {
    hide Last;
    LastNext(events, e, ChangingStatus);
    LastNext(events, e, Moving);
  }

  lemma StartNext(s: Snapshot, t: Snapshot, events: seq<SessionEvent>, e: SessionEvent)
    requires DescribesStart(s, events) && Reduced(s, e) == Ok(t)
    ensures DescribesStart(t, events + [e])
  {
    hide Last;
    LastNext(events, e, Starting);
  }

  lemma EndNext(s: Snapshot, t: Snapshot, events: seq<SessionEvent>, e: SessionEvent)
    requires DescribesEnd(s, events) && Reduced(s, e) == Ok(t)
    ensures DescribesEnd(t, events + [e])
  {
    hide Last;
    LastNext(events, e, Checkpointing);
    LastNext(events, e, Ending);
  }

  lemma DescribesNext(s: Snapshot, t: Snapshot, events: seq<SessionEvent>, e: SessionEvent)
    requires Describes(s, events) && Reduced(s, e) == Ok(t)
    ensures Describes(t, events + [e])
  {
    hide Last, Transcribes, DescribesPhase, DescribesStart, DescribesEnd;
    TranscribesNext(s.messages, t.messages, events, e);
    PhaseNext(s, t, events, e);
    StartNext(s, t, events, e);
    EndNext(s, t, events, e);
  }

  /** What replaying makes of events that are not refused: all messages in the order they came, and
      status, directory, session, checkpoint and end as the last event that speaks of them says. */
  lemma {:induction false} FoldDescribes(events: seq<SessionEvent>)
    ensures Fold(FRESH, events).Ok? ==> Describes(Fold(FRESH, events).value, events)
  {
    if events != [] {
      hide Describes, Fold, Reduced;
      var n := |events| - 1;
      FoldDescribes(events[..n]);
      FoldNext(events[..n], events[n]);
      assert events[..n] + [events[n]] == events;
      var s, t := Fold(FRESH, events[..n]), Fold(FRESH, events);
      if t.Ok? {
        DescribesNext(s.value, t.value, events[..n], events[n]);
      }
    }
  }

  // ----- Refusals -----

  /** Event `i` starts a session while the last change of status before it left one active. */
  predicate StartsAgain(events: seq<SessionEvent>, i: nat) {
    i < |events| && events[i].SessionStarted? && StatusAfter(Last(events[..i], ChangingStatus)) == Active
  }

  lemma RefusedNext(events: seq<SessionEvent>, e: SessionEvent)
    requires Fold(FRESH, events).Ok?
    ensures Fold(FRESH, events + [e]).Err? <==> StartsAgain(events + [e], |events|)
    ensures Fold(FRESH, events + [e]).Err? ==> Fold(FRESH, events + [e]) == Err(AlreadyStarted(e.id))
  {
    hide Fold, Last, Transcribes;
    FoldNext(events, e);
    FoldDescribes(events);
    assert (events + [e])[..|events|] == events;
  }

  /** Events are refused exactly when one of them starts a session that is active, and the refusal names
      the session of the first that does. */
  lemma {:induction false} RefusedExactly(events: seq<SessionEvent>)
    ensures Fold(FRESH, events).Ok? <==> forall i: nat :: !StartsAgain(events, i)
    ensures Fold(FRESH, events).Err? ==>
              exists i: nat :: StartsAgain(events, i) && (forall j: nat :: j < i ==> !StartsAgain(events, j))
                               && Fold(FRESH, events) == Err(AlreadyStarted(events[i].id))
  {
    hide Fold;
    if events == [] {
      NothingFolds();
    } else {
      var n := |events| - 1;
      RefusedExactly(events[..n]);
      assert events[..n] + [events[n]] == events;
      forall i: nat | i < n
        ensures StartsAgain(events, i) <==> StartsAgain(events[..n], i)
      {
        assert events[..n][..i] == events[..i];
      }
      if Fold(FRESH, events[..n]).Ok? {
        RefusedNext(events[..n], events[n]);
      } else {
        FoldNext(events[..n], events[n]);
      }
    }
  }

  lemma NothingFolds()
    ensures Fold(FRESH, []) == Ok(FRESH)
  {
  }

  /** Opening a log of whole lines: the state describes the events that were written, or names the first
      session that was started again. */
  lemma OpenedDescribes(events: seq<SessionEvent>)
    requires AllSound(events)
    ensures Opened(LogText(events)).0 == LogText(events)
    ensures var r := Opened(LogText(events)).1;
            && (r.Ok? ==> Describes(r.value, events))
            && (r.Ok? <==> forall i: nat :: !StartsAgain(events, i))
            && (r.Err? ==> exists i: nat :: StartsAgain(events, i) && (forall j: nat :: j < i ==> !StartsAgain(events, j))
                                            && r.error == AlreadyStarted(events[i].id))
  {
    hide Opened, LogText, Fold, Sound, Describes, StartsAgain;
    WholeLogReopens(events);
    FoldDescribes(events);
    RefusedExactly(events);
  }
}
