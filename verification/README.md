# Verified models of the coding agent's core

This project models six parts of the agent and proves what each of them is for. The models follow
the code: same branches, same errors, same constants. Where the code differs from its comments or
documentation the model follows the code, and a lemma shows the difference.

- **DAG runtime and supervisor** (`Paths`, `DepthFirst`, `Dag`, `DagLaws`, `LifecycleLaws`,
  `Supervisor`, `SupervisorLaws`). A graph with
  stable indices that stays acyclic by adding an edge, testing and rolling back; scheduling by
  topological order; the lifecycle of a node; one plan, execute and critique turn.
- **Session log** (`Json`, `JsonText`, `JsonLaws`, `Utf8`, `Events`, `SessionLog`, `RecoveryLaws`, `ReducerLaws`,
  `WireFormat`, `NumberGrammar`, `Utf8Laws`). A
  byte-exact JSON printer and parser (RFC 8259), event encoding, the appending writer, tail repair, the
  line iterator, replay and the reducer; a crash is a cut of the last append at any byte.
- **Streaming decoder** (`Sse`, `SseLaws`, `SseStandard`, `Streaming`, `SinkLaws`, `Anthropic`,
  `StreamLaws`, `StreamExamples`). The incremental
  Server-Sent Events parser, the block assembler and the capturing sink, from chunks to responses.
- **Edit formats** (`Fuzzy`, `FuzzyLaws`, `EditFormats`, `EditLaws`, `ParseLaws`). The search for the best window of
  lines, byte ranges of lines, splicing, and the parser of the three markers.
- **Calendar and timestamps** (`MachineInts`, `Calendar`, `MarchYears`, `CalendarLaws`, `Timestamps`,
  `TimestampLaws`, `Sessions`). Seconds to
  Gregorian dates in 32 and 64 bit arithmetic, the timestamp text (RFC 3339), and listings sorted by it.
- **Credential stores** (`Accounts`, `CredentialStores`, `SqliteStore`, `CredentialLaws`,
  `AccountLaws`). A map with a
  keyring and a table with a keyring, both proved against one description of every operation.

`Texts` and `Wrappers` hold byte strings, lines, options and results. Objects that the source changes
in place are classes here; each of their methods is proved against a function or relation on values,
and the laws are proved about those. `dafny verify dfyconfig.toml` checks everything.

## Where the code and its documentation differ

- `crates/core/src/orchestrator.rs:61-63` says that a failed step of `emit` leaves the other untouched.
  The event is written first, so a refused event stays in the log for good (`RefusedEventStays`,
  `SecondStartStays`).
- `crates/rollout/src/reader.rs:185-188` says that the next append after a kept tail starts a fresh line.
  It lands on the same line and spoils it (`AppendToOpenLine`); runs recover exactly when no cut falls
  there (`RecoveryExactness`).
- `crates/rollout/src/reader.rs:145-148` repairs a torn line when it does not parse. A payload that is a
  bare number can be torn into another number, which is kept and replayed (`TornNumber`), and two numbers
  on one line are replayed as a third (`AppendToOpenNumber`, `JoinedNumberExample`).
- `crates/dag-runtime/src/types.rs:94` says that the start of an edge completes before its end may start.
  A turn picks nodes by label and does not look at edges (`PickIgnoresEdges`); a node of a turn is claimed
  with all its predecessors completed exactly when each ran earlier in the turn or was completed before
  it (`TurnPicksReadyExactly`).
- `crates/edit-formats/src/fuzzy.rs:5-7` promises a match only if no other window is near the best. An
  earlier window within the margin goes unnoticed (`FoundMayHaveRival`); a window is found and has no
  rival exactly when it is the clear winner (`FoundWithoutRival`).
- `crates/edit-formats/src/parsers.rs:104-107` reports a missing replace block. The parser counts the
  markers it meets and does not look at which they are (`ParsedByMarkers`, `SecondSearchBlock`).
- `crates/credentials/src/store.rs:7-10` says that selection spreads the load. No operation records a
  use, so the account with the least label is chosen every time (`ResolveInRun`).
- The SQLite store keeps times to whole seconds, the in-memory store exactly
  (`StoresAgreeExactly`, `CooldownEndsEarly`).
- The sink gives later fragments to its last call, whichever block they are for
  (`BuffersAgreeExactly`, `MisroutedExample`); the response drops a block whose fragments are all empty
  and shows the id marker of one without fragments (`StreamedArguments`, `MarkerLeaks`,
  `EmptyFragmentExample`).
- The Server-Sent Events parser differs from sections 9.2.5 and 9.2.6 of the HTML Living Standard. Its
  lines are the standard's exactly when no carriage return stands alone and no byte order mark leads
  (`LinesAgreeExactly`, `LoneCrInData`, `LeadingBom`). On the same lines its events are the standard's
  exactly when every completed block has data and no empty name (`LinesReadAlikeExactly`,
  `NameWithoutData`, `EmptyName`). A chunk that is not UTF-8 by itself is dropped (`StreamIsWhole`).

## Model

| member | source | states |
|---|---|---|
| Calendar.YearOfEraBounds | crates/thread-store/src/store.rs:196-197 | the division by 365 with its three corrections gives the year that holds the day, for every day of a 400-year era |
| MarchYears.MarchDateIsRight | crates/thread-store/src/store.rs:199-202 | month and day from the fifth-month formula are a valid date with the right day number, on every day of a March year |
| CalendarLaws.EpochIsCalendar | crates/thread-store/src/store.rs:192-205 | for every 64-bit second count no step over- or underflows, and the result is the Gregorian date of that second with the year cut to 32 bits |
| CalendarLaws.EpochExactness | crates/thread-store/src/store.rs:192-205 | the result is valid and names the given second exactly while the year fits 32 bits |
| CalendarLaws.EpochInvertsToSeconds | crates/memories/src/store.rs:195-208 | converting the second count of any date that fits gives that date back |
| CalendarLaws.BeforeIsEarlier | crates/thread-store/src/store.rs:192-205 | date order is second order, so no two dates share a second |
| Timestamps.TextOrderIsTimeOrder | crates/thread-store/src/store.rs:181-188 | below year 10000 two timestamp texts compare as the clock readings do |
| Timestamps.TextOrderExactness | crates/memories/src/store.rs:186-193 | text order is time order for all clocks below a bound exactly when the bound is at most the start of year 10000 |
| Timestamps.Year10000SortsFirst | crates/thread-store/src/store.rs:181-188 | a later reading whose text sorts before an earlier one |
| TimestampLaws.NowReadsBack | crates/thread-store/src/store.rs:181-188 | the text of every clock reading has the form of RFC 3339 section 5.6 and reads back, field by field, to the date; before year 10000 it has 20 characters and that date is the second read |
| Sessions.SessionStore.Create | crates/thread-store/src/store.rs:47-70 | adds exactly one row stamped with the clock or the caller's text; a blank id and a taken one are refused with their own errors and change nothing |
| Sessions.SessionStore.UpdateSummary | crates/thread-store/src/store.rs:141-156 | rewrites summary and time of one row; a blank id and an unknown one are refused with their own errors and change nothing |
| Sessions.SessionStore.Delete | crates/thread-store/src/store.rs:159-166 | removes exactly the row asked for and says whether there was one |
| Sessions.SessionStore.List | crates/thread-store/src/store.rs:73-92 | the first rows by descending text up to the limit, 1000 where none is given and 10000 at most, which for stamped rows is from the latest change to the earliest |
| Sessions.ListingIsNewestFirst | crates/thread-store/src/store.rs:72-92 | most recent first, as documented, among the rows that the store stamped before year 10000: listed by time of last change, and none left out that changed later than one listed, whatever texts the callers gave other rows |
| Paths.NewEdgeCycle | crates/dag-runtime/src/graph.rs:110-113 | one more edge on an acyclic graph closes a cycle exactly when its end reaches its start |
| DepthFirst.Search.Visit | crates/dag-runtime/src/graph.rs:113 | the depth-first visit finds a real cycle or finishes everything reachable |
| DepthFirst.TopologicalOrder | crates/dag-runtime/src/graph.rs:212-217 | reports a cycle exactly when there is one, and otherwise an order of all nodes that respects every edge |
| Dag.RollbackIsExact | crates/dag-runtime/src/graph.rs:114-123 | the edge the rollback removes is the tentative one, because acyclicity leaves no earlier parallel edge |
| Dag.AddNodeKeepsValid | crates/dag-runtime/src/graph.rs:92-94 | a new node takes a free index and disturbs no other |
| Dag.DagGraph.AddNode | crates/dag-runtime/src/graph.rs:92-94 | the index returned was free and now holds the node |
| Dag.DagGraph.AddEdge | crates/dag-runtime/src/graph.rs:98-131 | refuses with CycleDetected exactly self-loops and edges whose end reaches their start, with NodeNotFound for the missing node, and leaves the graph as it was on every refusal |
| Dag.DagGraph.Toposort | crates/dag-runtime/src/graph.rs:212-217 | an order of exactly the live nodes that respects every edge, or an error exactly for a cyclic graph |
| Dag.DagGraph.IsReady | crates/dag-runtime/src/graph.rs:229-243 | the loop over predecessors decides readiness: pending with every predecessor completed |
| Dag.DagGraph.NextReady | crates/dag-runtime/src/graph.rs:225-247 | the first ready node of some topological order, or None exactly when nothing is ready |
| Dag.DagGraph.Claim | crates/dag-runtime/src/graph.rs:257-278 | claimed by another first, then the status; a re-claim is a no-op; a refusal changes nothing |
| Dag.DagGraph.Release | crates/dag-runtime/src/graph.rs:282-289 | drops the claim, and returns a running node to pending |
| Dag.DagGraph.Complete | crates/dag-runtime/src/graph.rs:297-314 | only a running node completes; a completed one keeps its first output |
| Dag.DagGraph.Fail | crates/dag-runtime/src/graph.rs:318-324 | overwrites any status with Failed |
| Dag.DagGraph.Skip | crates/dag-runtime/src/graph.rs:328-333 | overwrites any status with Skipped |
| Dag.DagGraph.RemoveNode | crates/dag-runtime/src/graph.rs:337-339 | takes out the node and the edges at it and keeps every other index |
| DagLaws.ReachableGraphs | crates/dag-runtime/src/graph.rs:92-339 | after any operations the graph is acyclic and sound, and claims mark exactly the running nodes |
| DagLaws.EmptyIsValid | crates/dag-runtime/src/graph.rs:80-90 | every run of operations can start: the empty graph is sound |
| DagLaws.OthersUntouched | crates/dag-runtime/src/graph.rs:92-339 | an operation leaves every node it does not name at its index with its contents |
| DagLaws.RemovedIndexIsReused | crates/dag-runtime/src/graph.rs:335-339 | the index of a removed node goes to the next node added |
| DagLaws.TerminalStays | crates/dag-runtime/src/graph.rs:257-339 | exactly which operations change a node that is done: removal, and fail or skip when they say something new |
| DagLaws.ReplayIsIdempotent | crates/dag-runtime/src/graph.rs:291-314 | delivering any completions gives the graph that the first completion of each node gives |
| DagLaws.NothingReady | crates/dag-runtime/src/graph.rs:225-247 | in every sound graph nothing is ready exactly when every pending node ends a path that starts at a running, failed or skipped node and has only pending nodes after it |
| DagLaws.BlockedIsWaiting | crates/dag-runtime/src/graph.rs:225-247 | where completed nodes have only completed predecessors, nothing is ready exactly when every pending node has a running, failed or skipped ancestor |
| DagLaws.BlockedYetReady | crates/dag-runtime/src/graph.rs:225-324 | claim, complete and fail lead to a graph where a node with a failed ancestor is ready |
| DagLaws.RunRespectsEdges | crates/dag-runtime/src/graph.rs:225-324 | over a whole run no node is taken twice, and each only after all its predecessors completed |
| DagLaws.RunIsBounded | crates/dag-runtime/src/graph.rs:225-324 | a run has at most one round for each live node |
| DagLaws.RunStops | crates/dag-runtime/src/graph.rs:225-324 | a run stops with None exactly when every node still pending has a failed ancestor |
| DagLaws.RunWithoutFailureCompletesAll | crates/dag-runtime/src/graph.rs:225-324 | a run that stops without a failure has completed every node |
| LifecycleLaws.ClaimExactly | crates/dag-runtime/src/graph.rs:257-278 | when a claim succeeds, what it makes of the node, and which error comes first |
| LifecycleLaws.CompleteExactly | crates/dag-runtime/src/graph.rs:297-314 | when a completion succeeds, what it makes of the node, and which error it gives |
| LifecycleLaws.EndAndRelease | crates/dag-runtime/src/graph.rs:282-333 | what fail, skip and release make of a node, field by field, and nothing for a missing one |
| LifecycleLaws.ClaimThenRelease | crates/dag-runtime/src/graph.rs:257-289 | releasing a claimed node gives back the pending node and the graph as it was |
| LifecycleLaws.ClaimKeepsOthersOut | crates/dag-runtime/src/graph.rs:257-289 | between claim and release nobody else can claim the node |
| LifecycleLaws.AddEdgeExactly | crates/dag-runtime/src/graph.rs:98-131 | an edge is taken exactly when it joins two nodes and the graph stays acyclic; the refusal names the missing node, the first one first, or the edge |
| Supervisor.Plan | crates/agents/src/planner.rs:75-88 | plans of 1 to 16 steps pass unchanged, others are planning errors |
| Supervisor.FindOrAddNode | crates/agents/src/supervisor.rs:215-226 | the first pending node with the label, or a new one exactly when there is none |
| Supervisor.ExecuteStep | crates/agents/src/supervisor.rs:172-208 | the step runs the first pending node with its label, or a new one exactly when there is none; claim and completion cannot be refused, the node ends as the executor answered, and nothing else changes |
| Supervisor.ExecutePlan | crates/agents/src/supervisor.rs:164-211 | the executions are those up to the first failure, all before it succeeded; graph and nodes are what these steps make in order; the k-th node has the k-th step's label and the k-th output; no other node changed |
| Supervisor.RunTurn | crates/agents/src/supervisor.rs:104-160 | outcome, plans made and executions made are the function of the replies below; at most 3 plans and 48 executions; the graph is what the steps of the plans make of it in order, their nodes carry their labels and ends, and no error comes from the graph |
| SupervisorLaws.TurnExactly | crates/agents/src/supervisor.rs:104-160 | for all replies: a turn has an outcome after so many plans and executions exactly when all plans before the last are good, all their steps succeed, the critic reflects on each, and the last one ends with that outcome, spelled out for a refused plan, a failed step, each verdict of the critic, its error, and the third reflection |
| SupervisorLaws.SuccessExactly | crates/agents/src/supervisor.rs:139-143 | a turn succeeds with a value exactly when a plan is reached and good, all its steps succeed, the last with that value, and the critic accepts |
| SupervisorLaws.RejectedExactly | crates/agents/src/supervisor.rs:149-151 | a turn is rejected for a reason exactly when a plan is reached and good, all its steps succeed, and the critic rejects it for that reason |
| SupervisorLaws.ExecutionFailedExactly | crates/agents/src/supervisor.rs:132-138 | a turn fails with a message exactly when the first execution that fails, for a step of a reached good plan, has that message |
| SupervisorLaws.ErrorExactly | crates/agents/src/supervisor.rs:104-160 | a turn ends in an error exactly when a reached plan is refused with it, or is good and executed and the critic fails with it |
| SupervisorLaws.ExhaustedExactly | crates/agents/src/supervisor.rs:113-118 | a turn exhausts its reflections exactly when the critic reflects on three good plans whose steps all succeed |
| SupervisorLaws.TurnStopsAtFailure | crates/agents/src/supervisor.rs:126-134 | every execution of a turn but the last succeeded, so a turn executes nothing after a failure |
| SupervisorLaws.StepNode | crates/agents/src/supervisor.rs:172-226 | every field of the node a step leaves: a found node keeps its inputs, a new one has the step's, and outputs or message are the execution's |
| Supervisor.RanIsProgress | crates/agents/src/supervisor.rs:164-211 | what any steps do: their nodes, once each, end as the executor answered and carry the steps' labels, the graph stays sound, and no other node changes |
| Supervisor.RanThen | crates/agents/src/supervisor.rs:164-211 | steps in two parts are the first part and then the second |
| SupervisorLaws.TurnLeavesOthersAlone | crates/agents/src/supervisor.rs:104-211 | a turn leaves no new running node and no change to a node that was running or done |
| SupervisorLaws.PickIsReadyExactly | crates/agents/src/supervisor.rs:172-180 | after steps that succeeded, the next step's node is claimed with all its predecessors completed exactly when each of them is among the nodes that ran or was completed before |
| SupervisorLaws.TurnPicksReadyExactly | crates/agents/src/supervisor.rs:172-180 | the same for every node of every turn, with no condition on the executor's replies |
| SupervisorLaws.PickIgnoresEdges | crates/agents/src/supervisor.rs:215-226 | selection is by label: a sound graph and a step that runs a node whose predecessor is pending |
| JsonLaws.ParseValueThen | crates/rollout/src/reader.rs:178-181 | a complete value is parsed the same with anything behind it |
| JsonLaws.PrintedParses | crates/rollout/src/writer.rs:50-51 | printing then parsing is the identity within the nesting allowance and fails beyond it |
| JsonLaws.TextRoundTrip | crates/rollout/src/writer.rs:50-51 | a printed value reads back as itself exactly when it nests at most 127 deep |
| JsonLaws.ProperPrefixIsNoText | crates/rollout/src/reader.rs:178-196 | no proper prefix of a printed value other than a number is a JSON text (RFC 8259 section 2) |
| JsonLaws.NothingFollows | crates/rollout/src/reader.rs:178-196 | two values on a line are no JSON text |
| JsonLaws.PrintHasNoNewline | crates/rollout/src/writer.rs:50-53 | one value is one line (RFC 8259 section 7) |
| Events.EventRoundTrip | crates/protocol/src/event.rs:241-255 | an event decodes to itself exactly when it is known or its payload does not carry a known tag |
| WireFormat.LineForm | crates/protocol/src/event.rs:21-150 | the bytes of every event's line: member names, their order, tags and spellings |
| WireFormat.EscapesOfRfc8259 | crates/rollout/src/writer.rs:50-51 | the short escapes are those of RFC 8259 section 7 |
| WireFormat.OtherCharacters | crates/rollout/src/writer.rs:50-51 | other control characters are written by number, all others as they are |
| WireFormat.EscapesReadBack | crates/rollout/src/reader.rs:178-181 | what each short escape is read as |
| NumberGrammar.TokenExactly | crates/rollout/src/reader.rs:178-181 | number tokens are exactly the texts of the grammar of RFC 8259 section 6 |
| SessionLog.SessionState.Apply | crates/core/src/state.rs:83-147 | a refused event changes nothing; an accepted one is folded in |
| ReducerLaws.FoldDescribes | crates/core/src/state.rs:83-147 | for every list of events that is not refused: all messages in the order they came, one for each message event with its fields, the number of events, and status, directory, session, checkpoint and end as the last event that speaks of them says |
| ReducerLaws.RefusedExactly | crates/core/src/state.rs:85-95 | events are refused exactly when one of them starts a session while one is active, and the refusal names the first such |
| ReducerLaws.OpenedDescribes | crates/core/src/orchestrator.rs:46-72 | opening a log of whole lines gives the state that describes the events written, or that refusal |
| SessionLog.Append | crates/rollout/src/writer.rs:50-56 | the file grows by the event's text and one newline |
| SessionLog.RepairTruncatedTail | crates/rollout/src/reader.rs:149-203 | cuts the file after its last newline exactly when the tail is not a JSON text |
| SessionLog.EventIter.Next | crates/rollout/src/reader.rs:103-132 | the next non-blank line as an event or an error with its line number |
| SessionLog.Replay | crates/rollout/src/reader.rs:68-74 | the state folded from every line, or the first error; the file is not changed |
| SessionLog.Orchestrator.Emit | crates/core/src/orchestrator.rs:64-72 | the event is in the file whether or not the state accepts it |
| SessionLog.Open | crates/core/src/orchestrator.rs:46-59 | repair, then replay: the file and the state, or the error, that the bytes determine |
| RecoveryLaws.PrintIsUtf8 | crates/rollout/src/writer.rs:50-51 | a printed value of UTF-8 texts is UTF-8 |
| Utf8Laws.ValidExactly | crates/rollout/src/reader.rs:162-181 | a byte string is valid exactly when it encodes a list of Unicode scalar values (RFC 3629) |
| Utf8Laws.TrimExactly | crates/rollout/src/reader.rs:162-181 | trimming takes characters with the property White_Space from both ends and leaves none there |
| RecoveryLaws.TornTail | crates/rollout/src/reader.rs:162-196 | a torn line is kept exactly when it is empty or lacks only its newline |
| RecoveryLaws.CrashRecovery | crates/core/src/orchestrator.rs:46-59 | for a cut at any byte of the last line, the exact file and state after reopening; a bare number, which can be torn into another, has its own law |
| RecoveryLaws.WholeLinesExactly | crates/rollout/src/reader.rs:149-203 | reopening leaves whole lines exactly when the cut is not the one before the newline |
| RecoveryLaws.RecoveryOverRuns | crates/core/src/orchestrator.rs:46-72 | over any number of open, emit and crash rounds, with no cut just before a newline and accepted events, each reopen finds whole lines and the fold of the completed events |
| RecoveryLaws.RecoveryExactness | crates/core/src/orchestrator.rs:46-72 | for rounds whose completed events are accepted, every reopen finds whole lines and the fold of the completed events exactly when no cut falls just before a newline |
| RecoveryLaws.AppendToOpenLine | crates/rollout/src/reader.rs:183-190 | what a later append does to a line left open by an event that is no bare number, for every cut of that append |
| RecoveryLaws.AppendToOpenNumber | crates/rollout/src/reader.rs:162-196 | what a later append does to a line left open by a bare number, for every cut of that append: one number replayed in place of both exactly when the text is one number token, and otherwise both lost or a line that no open passes |
| RecoveryLaws.JoinedNumberExample | crates/rollout/src/reader.rs:162-196 | 1 and then 2 are replayed as 12 |
| RecoveryLaws.RefusedEventStays | crates/core/src/orchestrator.rs:61-72 | a refused event makes every later open fail in the same way |
| RecoveryLaws.SecondStartStays | crates/core/src/state.rs:85-95 | starting a session twice is refused, and every later open fails with AlreadyStarted |
| RecoveryLaws.StartExists | crates/core/src/state.rs:85-95 | there is such a start |
| RecoveryLaws.TornNumber | crates/rollout/src/reader.rs:162-196 | a torn number line is replayed exactly when the rest is a number again |
| RecoveryLaws.TornNumberExample | crates/rollout/src/reader.rs:162-196 | such a line exists |
| Sse.SseParser.Feed | crates/provider/src/sse.rs:37-42 | a UTF-8 chunk is appended, any other dropped |
| Sse.SseParser.NextEvent | crates/provider/src/sse.rs:45-102 | the loop over lines takes events as the recursive reading of the buffer does |
| SseLaws.ChunksDoNotMatter | crates/provider/src/sse.rs:37-102 | for any cutting and any times of taking, the events taken and left and the final state are those of one feed |
| SseLaws.StreamIsWhole | crates/provider/src/sse.rs:37-42 | the chunks carry the whole stream exactly when each is UTF-8 |
| SseLaws.IgnoredLinesDoNotMatter | crates/provider/src/sse.rs:78-98 | comment, id, retry and other lines can stand anywhere |
| SseLaws.EncodedThenParsed | crates/provider/src/sse.rs:45-102 | an encoded list of events with ignored lines inserted parses to the events up to carriage returns, and to the same events exactly when no line ends in one |
| SseLaws.ParsedNamesHaveNoNewline | crates/provider/src/sse.rs:45-102 | no event comes out with a newline in its name |
| SseLaws.RoundTripExactness | crates/provider/src/sse.rs:45-102 | encoding then parsing is the identity exactly for names without newline and lines without a final carriage return |
| SseStandard.ParserReads | crates/provider/src/sse.rs:45-102 | the parser dispatches one event for each block that a blank line ends with a field pending |
| SseStandard.LinesAgreeExactly | crates/provider/src/sse.rs:47-56 | the parser's lines are those of section 9.2.5 of the HTML Living Standard exactly when no carriage return stands alone and no byte order mark leads a line |
| SseStandard.LinesReadAlikeExactly | crates/provider/src/sse.rs:58-100 | on the same lines the events are those of section 9.2.6 exactly when every completed block has data and no empty name |
| SseStandard.ParserIsStandard | crates/provider/src/sse.rs:45-102 | for every text, lines and events are both the standard's exactly when no carriage return stands alone, no byte order mark leads a line, and every completed block has data and no empty name |
| SseStandard.NameWithoutData | crates/provider/src/sse.rs:58-73 | for every name, a block with a name only is dispatched by the parser and not by the standard |
| SseStandard.EmptyName | crates/provider/src/sse.rs:63-66 | for every value, an empty name stays empty in the parser and becomes message in the standard |
| SseStandard.LoneCrInData | crates/provider/src/sse.rs:47-56 | for every two values, a lone carriage return between data lines stays in the value in the parser and ends the line in the standard |
| SseStandard.LeadingBom | crates/provider/src/sse.rs:37-42 | for every value, a leading byte order mark makes the parser lose the first field |
| SseStandard.HarmlessCr | crates/provider/src/sse.rs:47-56 | a text with a lone carriage return for which both give the same events, so the condition on lines is not necessary for equal events |
| Streaming.CapturingStreamSink.Send | crates/provider/src/stream.rs:108-158 | one stream event folded into text, calls and buffers |
| Streaming.CapturingStreamSink.FinalizeToolCalls | crates/provider/src/stream.rs:164-189 | the loop promotes each call from its own buffers and changes nothing for empty ones |
| SinkLaws.SinkKeeps | crates/provider/src/stream.rs:108-158 | for any events: the sink counts them all, joins the texts in order, and keeps the last response and the last failure |
| SinkLaws.DeltaWithId | crates/provider/src/stream.rs:121-152 | a delta with an id extends name and arguments of the first call with it, added at the end if need be, and of no other |
| SinkLaws.DeltaWithoutId | crates/provider/src/stream.rs:145-155 | a delta without an id extends the last call, and nothing where there is none |
| SinkLaws.FinalizedCall | crates/provider/src/stream.rs:164-188 | a finalized call keeps its name or takes the buffered one, and has the value its argument text spells or the text itself |
| Anthropic.AssembledResponse.HandleBlockStart | crates/provider/src/adapters/anthropic.rs:320-360 | grows the buffers and leaves the id marker at the block |
| Anthropic.AssembledResponse.HandleInputJsonDelta | crates/provider/src/adapters/anthropic.rs:394-428 | the first fragment replaces the marker and carries the id, later ones are appended |
| Anthropic.AssembledResponse.Decode | crates/provider/src/adapters/anthropic.rs:304-318 | one event's effect on the assembler and what it sends |
| Anthropic.AssembledResponse.Finalize | crates/provider/src/adapters/anthropic.rs:281-301 | the loop over buffers gives one call for each buffer with text |
| Anthropic.DrainParser | crates/provider/src/adapters/anthropic.rs:223-231 | takes every event the parser holds, and delivers them in order |
| Anthropic.StreamResponse | crates/provider/src/adapters/anthropic.rs:196-236 | the loop over chunks gives the sink that one feed of the whole stream gives; when the transport breaks off, what had arrived and no final response |
| Anthropic.StreamingIgnoresChunks | crates/provider/src/adapters/anthropic.rs:196-236 | two ways to cut a stream at character boundaries give the same captured result |
| StreamLaws.TextsAgree | crates/provider/src/adapters/anthropic.rs:382-392 | assembler and sink hold the same text after any events |
| StreamLaws.StreamTracks | crates/provider/src/adapters/anthropic.rs:320-428 | for streams whose tool blocks have own indices and ids and in which no fragment follows marker-like text, interleaved or not, fragments for text blocks and for no block included: what assembler and sink hold |
| StreamLaws.BuffersAgreeExactly | crates/provider/src/stream.rs:121-152 | for such streams, each call of the sink holds its block's text after every prefix exactly when no fragment is stray: has text, comes after the first call and is for another block than the last call's, first fragments aside |
| StreamLaws.ArgumentsAgree | crates/provider/src/adapters/anthropic.rs:320-428 | for such streams, at the end every call of the sink holds what the assembler holds for its block exactly when no fragment was stray |
| StreamLaws.PartedForGood | crates/provider/src/stream.rs:121-152 | from the first stray fragment on, either a call that is not the last is shorter than its block or the calls together are longer than their blocks, whatever follows |
| StreamLaws.StreamedText | crates/provider/src/stream.rs:108-158 | the sink's text is the text of the final response, for every stream |
| StreamLaws.StreamedEnd | crates/provider/src/adapters/anthropic.rs:430-462 | for every stream: the stop reason is ToolUse exactly when the last reason given is `tool_use`, Length exactly when it is `max_tokens`, Stop otherwise; the output tokens are the last count given, modulo 2^32 |
| StreamLaws.StreamedArguments | crates/provider/src/adapters/anthropic.rs:281-301 | for every tool block of such a stream: its call is in the response, with its name and text, exactly when it had no fragment or one with text, and in the sink, with the text of its buffer, exactly when it had a fragment; the arguments are equal exactly when the block had text and the two texts mean the same, which they do without stray fragments |
| StreamLaws.StreamedBuffers | crates/provider/src/stream.rs:121-152 | at the end of a whole stream every call of the sink holds its block's text exactly when no fragment was stray |
| StreamLaws.MarkerLeaks | crates/provider/src/adapters/anthropic.rs:281-301 | in such a stream a tool block without fragments shows its id marker as arguments in the response and is missing from the sink |
| StreamLaws.InterleavedFragmentIsMisrouted | crates/provider/src/stream.rs:121-152 | a stray fragment extends its block in the assembler and another block's call in the sink, and buffers that agreed no longer do |
| StreamLaws.StrayParts | crates/provider/src/stream.rs:121-152 | one more event keeps matching texts matching exactly when it is no stray fragment |
| StreamExamples.EventsCarry | crates/provider/src/adapters/anthropic.rs:320-428 | every start of a tool or text block, text, fragment and message delta with 64-bit numbers is what some event says, so the streams of the laws exist |
| StreamExamples.EmptyFragmentExample | crates/provider/src/adapters/anthropic.rs:283-285 | a stream of two events after which the sink has a call and the response has none |
| StreamExamples.MisroutedExample | crates/provider/src/stream.rs:121-152 | a stream of five events after which sink and response hold different arguments |
| StreamExamples.HarmlessStray | crates/provider/src/stream.rs:121-152 | a stream with a stray fragment after which the texts differ and mean the same |
| Fuzzy.Find | crates/edit-formats/src/fuzzy.rs:48-50 | the first occurrence, or None exactly when there is none |
| Fuzzy.FindBlock | crates/edit-formats/src/fuzzy.rs:37-95 | the exact occurrence, else the answer of the scan over all windows |
| Fuzzy.BestWindow | crates/edit-formats/src/fuzzy.rs:59-86 | the loop over windows keeps leader and ties as the scan over scores does |
| Fuzzy.LineRangeToByteRange | crates/edit-formats/src/fuzzy.rs:112-133 | the loop over characters finds the line starts that give the range |
| FuzzyLaws.LeaderFacts | crates/edit-formats/src/fuzzy.rs:59-86 | no leader exactly when no window reaches the threshold; no later tie exactly when the count is zero; earlier windows score less |
| FuzzyLaws.FoundIsStrictMaximum | crates/edit-formats/src/fuzzy.rs:59-95 | a found window scores strictly above every other, and above later ones by more than the margin |
| FuzzyLaws.AmbiguousHasRival | crates/edit-formats/src/fuzzy.rs:72-94 | an ambiguous answer has a later rival within the margin, and the ties counted are all such rivals |
| FuzzyLaws.TiesAreCounted | crates/edit-formats/src/fuzzy.rs:68-93 | the ties of a leader are exactly the later windows at the threshold within the margin of it |
| FuzzyLaws.ClearWinnerIsFound | crates/edit-formats/src/fuzzy.rs:59-95 | a window at the threshold that leads every other one there by more than the margin is always the one returned |
| FuzzyLaws.FoundWithoutRival | crates/edit-formats/src/fuzzy.rs:59-95 | a window is found and no other window at the threshold is within the margin exactly when it is the clear winner |
| FuzzyLaws.FoundMayHaveRival | crates/edit-formats/src/fuzzy.rs:68-84 | three scores where a found window has a rival within the margin |
| FuzzyLaws.WindowSearch | crates/edit-formats/src/fuzzy.rs:37-95 | what each of the three answers of a search over windows means, the number of tied windows included; a clear winner is never missed, and a found window has no rival exactly when it is one |
| FuzzyLaws.ScoresAreOfLines | crates/edit-formats/src/fuzzy.rs:63-66 | score `w` is the similarity of the searched lines to the lines from `w` on, one for each window |
| FuzzyLaws.LinesOfText | crates/edit-formats/src/fuzzy.rs:52-53 | the lines are the pieces between newlines, without a carriage return in front of one and without an empty piece at the end |
| FuzzyLaws.ExactSearch | crates/edit-formats/src/fuzzy.rs:47-50 | a text that occurs is found at its first occurrence, whatever the scores |
| FuzzyLaws.StartsAreOffsets | crates/edit-formats/src/fuzzy.rs:113-119 | the line starts are the sums of the lengths of the lines before |
| FuzzyLaws.RangeCoversWindow | crates/edit-formats/src/fuzzy.rs:112-133 | the range of a window covers exactly its lines and their separators, and nothing before or after, carriage returns included |
| FuzzyLaws.SliceIsWindow | crates/edit-formats/src/fuzzy.rs:112-133 | the text at the range is the window that was scored exactly when none of its lines ends in CR LF |
| EditFormats.FoundWithin | crates/edit-formats/src/apply.rs:44-47 | a found range lies within the content, so the slices of the splice are in bounds |
| EditFormats.ApplySingle | crates/edit-formats/src/apply.rs:34-49 | the content with the found range replaced, or the search's own error |
| EditFormats.ApplyEditOperation | crates/edit-formats/src/apply.rs:12-32 | the loop over a batch applies each edit to the outcome of those before, up to the first failure |
| EditFormats.FailureStays | crates/edit-formats/src/apply.rs:24-28 | a batch fails as its first failing edit does |
| EditFormats.Parse | crates/edit-formats/src/parsers.rs:48-115 | the loop ends on every input and gathers what the recursive reading gathers |
| EditLaws.ExactEdit | crates/edit-formats/src/apply.rs:34-49 | an exact match replaces the first occurrence and nothing else |
| EditLaws.WindowEdit | crates/edit-formats/src/apply.rs:43-48 | replacing a window's range replaces those lines and keeps every line before and after |
| EditLaws.FuzzyEdit | crates/edit-formats/src/apply.rs:34-49 | a fuzzy edit that succeeds replaces the lines whose own text is similar to the searched ones by 0.7 or more and strictly more than the text of any other window, and no others |
| EditLaws.FuzzyFailure | crates/edit-formats/src/apply.rs:34-49 | why a fuzzy edit fails: no window's text is similar enough, or the leading one has rivals, and the error counts them all |
| EditLaws.NothingToSearch | crates/edit-formats/src/fuzzy.rs:37-57 | an empty search, an empty file and too few lines are SearchNotFound |
| EditLaws.BatchInParts | crates/edit-formats/src/apply.rs:23-30 | a batch is its first part followed by its second, and a failure keeps nothing |
| EditLaws.BatchOfOne | crates/edit-formats/src/apply.rs:12-32 | a batch of one edit is that edit, an empty one keeps the content, and a whole file replaces it |
| EditLaws.BatchExactly | crates/edit-formats/src/apply.rs:23-30 | a batch makes a text exactly when a chain of texts leads from the content to it, each made by the next edit |
| EditLaws.BatchFailsExactly | crates/edit-formats/src/apply.rs:23-30 | a batch fails with an error exactly when one of its edits does on what the edits before it make |
| ParseLaws.BodyRoundTrip | crates/edit-formats/src/parsers.rs:118-130 | a block's text comes back exactly when it holds no ending marker and has no newline at either end |
| ParseLaws.TextIsPassed | crates/edit-formats/src/parsers.rs:55-78 | text in which no marker is seen is passed over, markers behind a fourth or fifth `<` and other `<<<` included |
| ParseLaws.GatherFirst | crates/edit-formats/src/parsers.rs:55-95 | from any text the parser takes the block of the first marker seen and goes on behind that marker's line |
| ParseLaws.MetExactly | crates/edit-formats/src/parsers.rs:55-95 | the markers met are exactly the first ones seen in their lines, where a marker is seen when the `<` before it come in threes |
| ParseLaws.ParsedByMarkers | crates/edit-formats/src/parsers.rs:48-115 | for every text: no search block is reported exactly when no marker is met, no replace block exactly when one is, and otherwise the first two bodies are the edit |
| ParseLaws.HiddenMarkerExample | crates/edit-formats/src/parsers.rs:72-78 | a search marker behind one more `<` is not seen |
| ParseLaws.GatheredStays | crates/edit-formats/src/parsers.rs:81-87 | a text gathered once is never replaced by a later block |
| ParseLaws.RoundTripExactness | crates/edit-formats/src/parsers.rs:48-130 | for all texts, a printed edit parses to itself exactly when the search text holds no replace marker and no newline at an end, and the replacement is the text behind a search marker seen in it or, where none is, holds no end marker and no newline at an end |
| ParseLaws.PrintedForm | crates/edit-formats/src/parsers.rs:13-28 | the form of a printed edit, character by character, is the documented one |
| ParseLaws.SeenMarkerExample | crates/edit-formats/src/parsers.rs:48-130 | a search text with a search marker, whose edit comes back with one replacement and not with another |
| ParseLaws.SecondSearchBlock | crates/edit-formats/src/parsers.rs:81-105 | the edit that two search blocks without a replace marker make |
| Accounts.StepKeepsInv | crates/credentials/src/store.rs:138-323 | every operation keeps one default per provider, own identifiers for every row, and a keyring with exactly the rows' keys |
| CredentialStores.InMemoryKeyring.Store | crates/credentials/src/keyring_backend.rs:261-267 | one entry is written |
| CredentialStores.InMemoryKeyring.Load | crates/credentials/src/keyring_backend.rs:269-276 | the entry, or None exactly when there is none |
| CredentialStores.InMemoryKeyring.Delete | crates/credentials/src/keyring_backend.rs:278-284 | the entry is gone and no other |
| CredentialStores.SortByKey | crates/credentials/src/store.rs:193-202 | the same accounts by provider and label |
| CredentialStores.PickLeastRecent | crates/credentials/src/store.rs:271-274 | an eligible account no other eligible one is preferred to, or None exactly when there is none |
| CredentialStores.InMemoryCredentialStore.AssignDefault | crates/credentials/src/store.rs:236-240 | the loop over rows moves the default of one provider and touches no other |
| CredentialStores.InMemoryCredentialStore.Add | crates/credentials/src/store.rs:138-191 | the contract of adding; a duplicate takes back the stored secret |
| CredentialStores.InMemoryCredentialStore.List | crates/credentials/src/store.rs:193-202 | all rows by provider and label |
| CredentialStores.InMemoryCredentialStore.ListForProvider | crates/credentials/src/store.rs:204-213 | the rows of a provider by label |
| CredentialStores.InMemoryCredentialStore.Remove | crates/credentials/src/store.rs:215-225 | row and secret are gone, or NotFound and no change |
| CredentialStores.InMemoryCredentialStore.SetDefault | crates/credentials/src/store.rs:227-242 | the default of the provider moves, or NotFound and no change |
| CredentialStores.InMemoryCredentialStore.GetDefault | crates/credentials/src/store.rs:244-250 | a default row of the provider, or None exactly when it has none |
| CredentialStores.InMemoryCredentialStore.LoadKey | crates/credentials/src/store.rs:252-261 | the row's own secret, NotFound or OrphanedKey |
| CredentialStores.InMemoryCredentialStore.Resolve | crates/credentials/src/store.rs:263-280 | the eligible row least by last use then label with its own secret, or NoEligible exactly when no row is eligible |
| CredentialStores.InMemoryCredentialStore.MarkCooldown | crates/credentials/src/store.rs:282-294 | status and time of one row, or NotFound and no change |
| CredentialStores.InMemoryCredentialStore.MarkDead | crates/credentials/src/store.rs:296-308 | status of one row, or NotFound and no change |
| CredentialStores.InMemoryCredentialStore.ClearStatus | crates/credentials/src/store.rs:310-322 | status of one row, or NotFound and no change |
| SqliteStore.StoredThenRead | crates/credentials/src/sqlite.rs:59-103 | a status text reads back as the status, and a time as the time to whole seconds |
| SqliteStore.ConstraintsHold | crates/state/src/migrations.rs:45-62 | the table's constraints follow from the invariant, so no update meets one |
| SqliteStore.RefusedIsDuplicate | crates/credentials/src/sqlite.rs:171-179 | with new identifiers the insert violates a constraint exactly when the label is taken |
| SqliteStore.SqliteCredentialStore.AddTransaction | crates/credentials/src/sqlite.rs:134-185 | commits the new row with the defaults moved, or nothing at all for a duplicate, cleared defaults included |
| SqliteStore.SqliteCredentialStore.Add | crates/credentials/src/sqlite.rs:106-207 | the contract of adding with the clock to whole seconds |
| SqliteStore.SqliteCredentialStore.Select | crates/credentials/src/sqlite.rs:209-233 | the selected rows as accounts in key order |
| SqliteStore.SqliteCredentialStore.List | crates/credentials/src/sqlite.rs:209-220 | all rows by provider and label |
| SqliteStore.SqliteCredentialStore.ListForProvider | crates/credentials/src/sqlite.rs:222-233 | the rows of a provider by label |
| SqliteStore.SqliteCredentialStore.Remove | crates/credentials/src/sqlite.rs:235-267 | row and secret are gone, or NotFound and no change |
| SqliteStore.SqliteCredentialStore.SetDefault | crates/credentials/src/sqlite.rs:269-293 | two updates in one transaction move the default without meeting the one-default index |
| SqliteStore.SqliteCredentialStore.GetDefault | crates/credentials/src/sqlite.rs:295-308 | a default row of the provider, or None exactly when it has none |
| SqliteStore.SqliteCredentialStore.LoadKey | crates/credentials/src/sqlite.rs:310-332 | the row's own secret, NotFound or OrphanedKey |
| SqliteStore.SqliteCredentialStore.Resolve | crates/credentials/src/sqlite.rs:334-358 | the same choice as the in-memory store from the same rows |
| SqliteStore.SqliteCredentialStore.WriteStatus | crates/credentials/src/sqlite.rs:360-408 | the status statements change one row, or none when the count is zero |
| SqliteStore.SqliteCredentialStore.MarkCooldown | crates/credentials/src/sqlite.rs:360-375 | the contract with the time to whole seconds |
| SqliteStore.SqliteCredentialStore.MarkDead | crates/credentials/src/sqlite.rs:377-391 | status of one row, or NotFound and no change |
| SqliteStore.SqliteCredentialStore.ClearStatus | crates/credentials/src/sqlite.rs:393-407 | status of one row, or NotFound and no change |
| CredentialLaws.StepIsDeterministic | crates/credentials/src/store.rs:34-71 | the shared contract leaves one outcome to every operation |
| CredentialLaws.RunKeepsInv | crates/credentials/src/store.rs:138-323 | in every state of every run the invariant holds and each row's secret is the one given when it was added |
| CredentialLaws.FailureChangesNothing | crates/credentials/src/sqlite.rs:134-185 | an operation that fails leaves rows and keyring as they were |
| CredentialLaws.ResolveInRun | crates/credentials/src/store.rs:263-280 | in any run the choice is the eligible account with the least label, with its own secret, and is refused exactly when none is eligible |
| AccountLaws.ChosenIsUsable | crates/credentials/src/model.rs:28-43 | in any run the account chosen is active, or in a cooldown without a time or with one that is over, has the least label of those, and NoEligible is replied exactly when there is none |
| AccountLaws.StatusFollowsHistory | crates/credentials/src/store.rs:282-322 | in every state of a run an account has the status that the last operation on its status gave it |
| AccountLaws.ChoiceFollowsHistory | crates/credentials/src/store.rs:263-322 | an account is handed out only if that last operation was its addition, a clearing, or a cooldown that is over, so never after being marked dead; a provider is refused exactly when none of its accounts has such a one |
| AccountLaws.DefaultMoves | crates/credentials/src/store.rs:160-242 | who is a default after each operation: an addition that asks for it or is the provider's first, the account set, and otherwise whoever was |
| AccountLaws.AddedExactly | crates/credentials/src/model.rs:137-179 | when an addition succeeds, in terms of the characters of its texts, and every field of the new row |
| AccountLaws.LeastRecentFirst | crates/credentials/src/store.rs:271-274 | a choice was never used or not later than any other eligible account, and by label among equals |
| AccountLaws.LoadKeyInRun | crates/credentials/src/store.rs:252-261 | in any run a loaded key is the one given at the addition, and no key is ever lost |
| CredentialLaws.RunsAgree | crates/credentials/src/store.rs:34-71 | runs of the same operations pass through the same states with the same replies |
| CredentialLaws.RunInMemory | crates/credentials/src/store.rs:137-323 | any operations on the in-memory store are a run of the contract |
| CredentialLaws.RunSqlite | crates/credentials/src/sqlite.rs:105-408 | any operations on the SQLite store are a run of the contract with times to whole seconds |
| CredentialLaws.RunBoth | crates/credentials/src/sqlite.rs:105-408 | any operations with whole-second times, run on both stores: both are runs of the contract for these operations, with the same states and replies |
| CredentialLaws.StoresAgreeExactly | crates/credentials/src/sqlite.rs:101-103 | from the same contents the stores do the same exactly when the stored time is a whole second, or the input is refused, the label taken or the account unknown |
| CredentialLaws.RunsAgreeExactly | crates/credentials/src/sqlite.rs:105-408 | over any operations the two stores pass through the same states with the same replies exactly when each operation stores whole seconds or is refused where it comes |
| CredentialLaws.CooldownEndsEarly | crates/credentials/src/sqlite.rs:360-375 | within the last second of a cooldown with a fraction, only the SQLite store hands the account out |

## Left out

- HTTP, processes, the async runtime, mutexes and connection pools; replies of providers, planner, executor and critic are arbitrary inputs.
- Dag.DagGraph.Toposort: gives some order that respects every edge; that `petgraph` gives the same order every time, by internal index, is not modelled.
- Dag.DagGraph.NextReady: gives the first ready node of some such order, so which of several ready nodes comes first is open.
- The 32-bit width of node indices, and `validate`, `to_json` and `status_counts` of the graph.
- Supervisor.RunTurn: feedback appended to the goal text, and node identifiers, have no effect in the model because all replies are arbitrary.
- Floating point: JSON numbers are their tokens, so conversion to a float and tokens out of its range are not modelled; similarity scores are arbitrary reals, so the distance function is not modelled.
- JSON objects are lists of members in order; the map of the JSON library, which sorts or merges equal keys, is not modelled.
- The identifiers, paths and timestamps inside an event are any texts; that they parse as UUIDs or dates is not modelled.
- The array form in which an internally tagged enum can also be read.
- A missing log file is an empty one, and directories, permissions and write errors are not modelled.
- EditFormats.Parse: the anchor, which the parser never fills, and the tool-use and whole-file parsers, which add no case of their own.
- Slices at positions inside a multi-byte character: ranges are proved to lie within the text, on bytes.
- The operating system and file keyrings, failing keyrings, SQL errors other than constraints, and the texts of error messages.
- SqliteStore.StoredThenRead: the RFC 3339 text of a column stands as its number of whole seconds, without its digits and their parsing.
- StreamLaws.StreamTracks: streams that repeat a tool's index or id, have an empty id, or continue text that reads as an id marker are not covered.
- Decoding of bytes that are not UTF-8 in the standard's interpretation, which puts replacement characters.
- Times outside the years 0 to 9999 in the table's text columns, and leap seconds.
- The metadata column of accounts, which both stores leave at the empty object.
- The catalog of default endpoints is a parameter.
- Sessions.SessionStore.List: rows with equal texts come in any order, as in the database.
- Session look-up by prefix, and the memories store beyond its copy of the calendar and its timestamp.
- Request building and the non-streaming completion of the adapter, the shared sink, the terminal interface, the tools, the sandbox and the MCP layer.
