# Cardputer Zero OS: a verified model

This project models the parts of Cardputer Zero OS that keep state or speak a
protocol, in Dafny, and proves what they promise:

- **The window agent** (`Codec`, `Framing`, `Tasks`, `Agent`, `AgentReplies`,
  `AgentCommands`, `AgentInvariants`, `AgentRuns`, `AgentHistory`,
  `AgentFraming`, `ServicePass`, `AgentTurns`, `WindowAgent`): the server
  between the compositor and task clients. `Agent.dfy` gives its steps as
  functions on values; `WindowAgent.dfy` is the object with its fields, each
  method proved to take exactly such a step; the other files prove what each
  step does and keeps, over every sequence of steps and every run of the main
  loop.
- **The one-command client** of that server (`ShellControl`).
- **The Esc key policy** (`KeyPolicy`): an early-firing timed machine against the
  rule that classifies a press at its release.
- **The greeter and its login helper** (`Greeter`, `GreeterKeys`,
  `GreeterWindow`, `LoginRequest`), and the pixel painting it shares with the
  prompt (`Canvas`).
- **The polkit prompt and agent** (`PolkitSecret`).
- **Two configuration rewriters** of the setup scripts (`ConfigRewrite`,
  `LightdmRewrite`).

`dafny verify dfyconfig.toml` checks everything.

## How to read it

A byte string is a Dafny `string` whose characters stand for bytes; nothing
depends on their being below 256. Everything outside the programs - compositor
events, what poll, read, write and recv return, clock readings, key presses,
the users a reload finds, what the login helper answers - is an argument, and
the results hold for all of them. Where the source loops for ever, the loop is
over the finite list of turns the environment brings, and every result is about
all such lists.

Histories (bytes received, lines handled, reply units queued, bytes written,
the traffic with the compositor, frames committed and released, requests sent)
are fields of the value-level states and ghost state of the objects; the code
never reads them.

Places where the code does not do what one would first guess, modelled as the
code has them, each with an input that shows it and its exact condition:

- The agent's service loop re-reads the poll entry at the loop index after
  dropping a client, so one hang-up drops every client behind it
  (`ServicePass.HangupCascade`, `ServicePass.NeighbourDropped`; exactly when it
  does no harm: `ServicePass.JudgedByOwnIff`, `ServicePass.DropsTheirOwnIff`,
  `ServicePass.HangupsDropTheirOwnIff`).
- A `done` event reopens a closed task. The handle rules therefore rest on the
  compositor sending no `done` after `closed`, which the foreign-toplevel
  protocol guarantees (`AgentRuns.ClosedHandleAsked`, `AgentRuns.DoneAfterClosed`;
  `AgentRuns.EventHandlesIff`).
- The protocol description has non-printable bytes encoded; the encoder leaves
  bytes from 128 up as they are (`Codec.AccentSentBare`;
  `Codec.EncodedPrintableIff`).
- Rewriting `config.txt` twice can differ from rewriting it once
  (`ConfigRewrite.EmptyFileMoves`; `ConfigRewrite.RewriteFixpoint`).
- A press of Esc without a release after a long action makes the machine run an
  action the release rule would not (`KeyPolicy.LostRelease`;
  `KeyPolicy.RefinesRuleIff`).
- User names that end in CR, hold a newline, or exceed 64 bytes do not survive
  the trip to the login helper (`LoginRequest.NewlineLosesName`;
  `LoginRequest.RoundTripIff`).
- Keys behind Enter in the same batch of events are still handled: erase keys
  shorten the secret the polkit prompt writes, and Escape or a closed window
  takes the answer back (`PolkitSecret.LostBehindEnter`;
  `PolkitSecret.SubmittedIff`).

## Model

| member | source | states |
|---|---|---|
| `Text.Find` | window-agent/zero-window-agent.cpp:159-166 | the first occurrence of a character at or after a place, and the length if there is none |
| `Text.SplitJoin` | window-agent/zero-window-agent.cpp:155-169 | pieces without the separator survive being joined with it and split again |
| `Text.JoinSplit` | window-agent/zero-window-agent.cpp:155-169 | joining the pieces of any text gives the text back |
| `Text.SplitAppend` | window-agent/zero-window-agent.cpp:660-667 | splitting a concatenation: all pieces of the first part but its last are final, the last is continued by the second part |
| `Codec.Encode` | window-agent/zero-window-agent.cpp:105-120 | the encoding loop computes the recursive encoding |
| `Codec.Decode` | window-agent/zero-window-agent.cpp:136-153 | the decoding loop, with its look-ahead for a complete triplet, computes the recursive decoding |
| `Codec.SplitFields` | window-agent/zero-window-agent.cpp:155-169 | the splitting loop yields the decoded pieces between tabs, always at least one |
| `Codec.DecodeEncoded` | docs/window-agent.md:66-74 | decoding undoes encoding, for every byte string |
| `Codec.EncodedIsClean` | window-agent/zero-window-agent.cpp:105-120 | no control byte - so no tab, CR or LF - is left in an encoded field |
| `Codec.EncodedPrintableIff` | window-agent/zero-window-agent.cpp:105-120 | every byte sent for a field is printable if and only if the field is ASCII: the description promises it for all fields |
| `Codec.AccentSentBare` | window-agent/zero-window-agent.cpp:105-120 | two bytes from 128 up that are sent as they are |
| `Codec.EncodedByte` | window-agent/zero-window-agent.cpp:105-120 | what is sent of each byte: itself from the blank on, but for DEL and the percent sign, else a percent sign and its two upper-case digits |
| `Codec.DecodedTriplet` | window-agent/zero-window-agent.cpp:122-153 | a percent sign and two digits in either case are read as one byte |
| `Codec.DecodedPlain` | window-agent/zero-window-agent.cpp:136-153 | anything else is read as it stands, a percent sign without two digits behind it too |
| `Codec.EncodeDecodedIff` | window-agent/zero-window-agent.cpp:105-153 | encoding undoes decoding exactly for canonical texts, and those are exactly what the encoder can produce |
| `Codec.SplitMessage` | window-agent/zero-window-agent.cpp:105-169 | any non-empty list of byte-string fields survives encoding, joining with tabs and splitting, and the line holds no CR or LF |
| `Framing.FeedAllLines` | window-agent/zero-window-agent.cpp:652-684 | from any point of a connection: accepted reads yield the newline split of rest and stream, rejected ones a prefix of it |
| `Framing.ChunkingIndependence` | window-agent/zero-window-agent.cpp:652-684 | the lines taken are a prefix of the newline split of the stream, and all of it when no read was rejected |
| `Framing.TwoChunkings` | window-agent/zero-window-agent.cpp:652-684 | two ways of cutting a stream into reads, neither rejected, leave the same lines and the same rest |
| `Framing.CrStripped` | window-agent/zero-window-agent.cpp:665-667 | one CR before the newline belongs to the line end, and no other does |
| `Framing.RejectableIff` | window-agent/zero-window-agent.cpp:655-661 | some way of cutting a stream into reads of at most 512 bytes is rejected if and only if at some byte the buffered rest plus one read exceeds 4096 |
| `Framing.ShortLinesAccepted` | window-agent/zero-window-agent.cpp:655-661 | a stream whose lines are all at most 3584 bytes is never rejected, however it is cut |
| `Framing.LongLineRejectable` | window-agent/zero-window-agent.cpp:655-661 | the bound is sharp: a 3585-byte line with enough bytes behind it can be rejected |
| `Framing.HandledLineBound` | window-agent/zero-window-agent.cpp:655-667 | no line taken, before its CR is stripped, exceeds 4095 bytes |
| `Framing.LinesOfWire` | window-agent/zero-window-agent.cpp:494-498 | newline-free lines written with a newline each are read back as those lines |
| `Framing.MessagesArrive` | docs/window-agent.md:66-74 | any messages of any fields, in any reads that are not rejected, arrive as the same fields |
| `Tasks.FindTask` | window-agent/zero-window-agent.cpp:431-447 | a task found is open and has the id the text parses to; if none is found, no open task has it |
| `Tasks.FirstOpen` | window-agent/zero-window-agent.cpp:449-467 | the first open task with a property, and none only if there is none |
| `Tasks.ParsePrintedId` | window-agent/zero-window-agent.cpp:431-439 | the number parse reads a printed id back, and a printed id needs no escapes |
| `Tasks.ParseIdIff` | window-agent/zero-window-agent.cpp:431-439 | exactly which texts are ids, and of which number: a `t`, then up to a NUL white space, an optional plus and digits that are not 0 |
| `Tasks.PrintedIdResolves` | window-agent/zero-window-agent.cpp:431-447 | a printed id resolves to the open task that has it, and to nothing exactly when there is none: closed, or no longer listed |
| `Tasks.StateFlags` | window-agent/zero-window-agent.cpp:171-193 | the comma-separated state field tells all four flags apart |
| `Tasks.AllFlags` | docs/window-agent.md:110-116 | with all flags set the state field is the one the description shows |
| `Tasks.TaskLineIsMessage` | window-agent/zero-window-agent.cpp:517-519 | a task line is the message of the five fields the protocol names |
| `Tasks.ReadsBack` | docs/window-agent.md:99-116 | a reader of the protocol reads a task line as that task's id, app id, title and flags |
| `Tasks.SnapshotRead` | window-agent/zero-window-agent.cpp:510-522 | whatever came before, a reader reads a snapshot as exactly the open tasks in order |
| `AgentReplies.RespondCases` | window-agent/zero-window-agent.cpp:557-633 | every line gets no reply, a snapshot, or exactly one line: a greeting, its `ok`, or a refusal |
| `AgentReplies.RespondShape` | window-agent/zero-window-agent.cpp:557-633 | a line is answered exactly if it has a verb, by one reply unit of the kind its verb asks for; only `subscribe` subscribes |
| `AgentReplies.UnitRead` | window-agent/zero-window-agent.cpp:494-522 | a reader between snapshots is again between snapshots after any reply unit, and one-line replies do not disturb it |
| `AgentReplies.RequestsTargetOpen` | window-agent/zero-window-agent.cpp:557-633 | no command destroys a handle or sends a request to a task that is not open |
| `AgentReplies.OkMeansDone` | window-agent/zero-window-agent.cpp:572-629 | a command that acts is answered `ok` exactly when requests were sent; `active-is-shell` exactly when the active task is the shell |
| `AgentReplies.ActionOnPrintedId` | docs/window-agent.md:121-130 | activate, minimize, restore and close with a printed id reach the open task that has it, with the protocol's requests |
| `AgentReplies.ActionOnGoneId` | docs/window-agent.md:170-174 | with an id no open task has, for whatever reason, each of them requests nothing and is refused with the documented fields |
| `AgentCommands.PlainVerbs` | window-agent/zero-window-agent.cpp:557-571 | no verb, nothing; `hello`, the greeting's three fields; `list` and `subscribe`, a snapshot, and only the second subscribes |
| `AgentCommands.UnknownVerbs` | window-agent/zero-window-agent.cpp:630-632 | any verb but the eleven is refused by its name |
| `AgentCommands.TaskVerbs` | window-agent/zero-window-agent.cpp:572-600 | `activate`, `minimize`, `restore` and `close`: refused without an id, as not found without an open task, or for want of a seat, each with its documented fields; else the protocol's requests to that task, confirmed |
| `AgentCommands.FocusShellVerb` | window-agent/zero-window-agent.cpp:601-612 | `focus-shell` activates the first open task with the shell's app id or title, is refused for want of a seat, and as not found exactly when there is no such task |
| `AgentCommands.ActiveIsShellVerb` | window-agent/zero-window-agent.cpp:613-619 | `active-is-shell` is confirmed exactly when the first open activated task has the shell's app id or title |
| `AgentCommands.ActiveVerbs` | window-agent/zero-window-agent.cpp:620-629 | `minimize-active` and `close-active` ask that of the first open activated task that is not the shell, and are refused exactly when there is none |
| `AgentInvariants.LastAfter` | window-agent/zero-window-agent.cpp:494-522 | a one-line reply leaves a reader's last snapshot alone, a snapshot unit replaces it by the view sent |
| `AgentInvariants.AnsweredKeeps` | window-agent/zero-window-agent.cpp:557-633 | handling a line keeps output conserved and replies paired, and brings a new subscriber up to date |
| `AgentInvariants.PushSnapshotKeeps` | window-agent/zero-window-agent.cpp:539-546 | a broadcast keeps a connection's invariants and brings a subscriber up to date |
| `AgentInvariants.FirstLineKeeps` | window-agent/zero-window-agent.cpp:663-669 | taking a line out of the buffer keeps lines handled and bytes buffered accounting for all bytes received |
| `AgentInvariants.DrainKeeps` | window-agent/zero-window-agent.cpp:662-669 | handling all complete lines keeps every connection's invariants and leaves no newline buffered; nobody else changes |
| `AgentInvariants.ReadKeeps` | window-agent/zero-window-agent.cpp:652-684 | a sequence of reads that keeps the client keeps the invariant |
| `AgentInvariants.FlushTakes` | window-agent/zero-window-agent.cpp:686-702 | for any outcomes of write: exactly the bytes the socket took, at most all there are, leave the front of the output; the client goes exactly if an error or a count of 0 comes while output is left |
| `AgentInvariants.FlushKeeps` | window-agent/zero-window-agent.cpp:686-702 | any sequence of writes keeps the invariant: what is written and what waits are what was queued |
| `AgentInvariants.VisitKeeps` | window-agent/zero-window-agent.cpp:760-777 | servicing one client, dropped or not, keeps the invariant |
| `AgentInvariants.EventKeeps` | window-agent/zero-window-agent.cpp:351-429 | every compositor event marks the change, so the invariant holds |
| `AgentInvariants.OpenTasksView` | window-agent/zero-window-agent.cpp:474-492 | pruning does not alter the view |
| `AgentInvariants.PruneKeeps` | window-agent/zero-window-agent.cpp:474-492 | pruning keeps the invariant |
| `AgentInvariants.BroadcastKeeps` | window-agent/zero-window-agent.cpp:720-726 | broadcasting before the flag is cleared leaves every subscriber up to date |
| `AgentInvariants.DrainedBytes` | window-agent/zero-window-agent.cpp:686-702 | when output is drained, the bytes written split into exactly the lines queued |
| `AgentInvariants.TaskTellsLast` | window-agent/zero-window-agent.cpp:372-429 | any list of events leaves a task with the last title and app id, the flags of the last state array by the protocol's numbers, and closed if `closed` came last |
| `AgentFraming.DrainLines` | window-agent/zero-window-agent.cpp:662-669 | the agent handles exactly the lines of its buffer and keeps the rest |
| `AgentFraming.ReadIsFeed` | window-agent/zero-window-agent.cpp:652-684 | for any outcomes of its reads, signals, errors and the end of the stream included: the lines handled are the framing model's, stripped, and the client stays exactly if the outcomes do not end the connection and the model does not reject |
| `AgentFraming.ShortLinesHandled` | window-agent/zero-window-agent.cpp:655-669 | in any state of a run, so over any number of visits: a client whose lines so far and to come are at most 3584 bytes is kept unless the reads end the connection, and all its lines are handled |
| `AgentRuns.EventHandlesIff` | protocols/wlr-foreign-toplevel-management-unstable-v1.xml:217-224 | exactly the events that announce a handle twice, or report `done` after `closed`, put the handles in disorder |
| `AgentRuns.DoneAfterClosed` | window-agent/zero-window-agent.cpp:417-422 | and then the minimize command for the shown id sends a request to a closed handle |
| `AgentRuns.ClosedHandleAsked` | window-agent/zero-window-agent.cpp:417-422 | a run of three events that gets there |
| `AgentRuns.PruneHandles` | window-agent/zero-window-agent.cpp:474-492 | pruning destroys the handle of every closed toplevel and keeps the handle rules |
| `AgentRuns.PrunedInOrder` | window-agent/zero-window-agent.cpp:474-492 | one destroy for each closed task, in the order of the tasks; the others stay in order |
| `AgentRuns.RequestsHandles` | window-agent/zero-window-agent.cpp:557-633 | requests to open tasks keep the handle rules |
| `AgentRuns.StepKeeps` | window-agent/zero-window-agent.cpp:718-781 | each step keeps both invariants |
| `AgentRuns.StepsKeep` | window-agent/zero-window-agent.cpp:718-781 | any sequence of steps keeps both invariants |
| `AgentRuns.ReachableView` | window-agent/zero-window-agent.cpp:720-726 | in every reachable state: all bytes queued to a client split into its lines, and with no change outstanding what a subscriber reads of them ends in a snapshot of exactly the open tasks |
| `AgentRuns.ReachableReplies` | window-agent/zero-window-agent.cpp:557-684 | in every reachable state: the handled lines are the stripped lines of the bytes received, each command has one reply unit in order, and only subscribers get anything else |
| `AgentRuns.ReachableHandles` | protocols/wlr-foreign-toplevel-management-unstable-v1.xml:217-234 | in every reachable state, given the protocol's guarantee: requests only to announced, not closed, not destroyed handles; destroy only after `closed`; ids increasing, never reused; no handle leaks |
| `AgentRuns.DestroyedOnce` | protocols/wlr-foreign-toplevel-management-unstable-v1.xml:226-234 | after a destroy, no further request names that handle |
| `AgentRuns.TurnIsSteps` | window-agent/zero-window-agent.cpp:718-781 | a turn is exactly: the queued events, prune, broadcast, then if poll reports the delivered events, the accepted connections and one visit for each client in turn; only a failing poll and a lost display end the loop |
| `AgentRuns.RunIsSteps` | window-agent/zero-window-agent.cpp:718-781 | a run is exactly the steps of its turns, up to where the loop ends, and legal if the events are |
| `AgentRuns.RunKeeps` | window-agent/zero-window-agent.cpp:718-781 | both invariants hold after any turns of the main loop |
| `AgentRuns.TurnTop` | window-agent/zero-window-agent.cpp:721-726 | at the top of each turn every subscriber is up to date, and a handle is destroyed exactly if it is closed |
| `AgentHistory.ReachableId` | window-agent/zero-window-agent.cpp:431-447 | in every reachable state, whatever the compositor sent: a printed id resolves to the open task that has it and otherwise to nothing |
| `AgentHistory.IdNeverReturns` | window-agent/zero-window-agent.cpp:351-363 | an id without a task never gets one again, whatever the compositor sends |
| `AgentHistory.IdsCount` | window-agent/zero-window-agent.cpp:351-363 | ids are given out from 1 on, one after the other, whatever else happens |
| `AgentHistory.PrunedIdRefused` | window-agent/zero-window-agent.cpp:431-447 | an action on the id of a task that was pruned, at whatever point of a run, is refused ever after, whatever was announced since |
| `AgentHistory.AnnouncedId` | window-agent/zero-window-agent.cpp:351-447 | an id given out to a toplevel resolves to that toplevel until its `closed` event and to nothing afterwards |
| `AgentHistory.ActionOnAnnouncedId` | window-agent/zero-window-agent.cpp:572-595 | over every run that obeys the protocol: an action on an id given out is refused as not found exactly when its toplevel is gone, and otherwise goes to that toplevel only |
| `AgentHistory.TaskTells` | window-agent/zero-window-agent.cpp:351-429 | every task of a reachable state is what the events delivered to it since it was announced make of it, and nothing else |
| `AgentHistory.ReachableTaskTells` | window-agent/zero-window-agent.cpp:372-429 | so over every run a task has the last title and app id delivered to it, the flags of its last state array, and is closed if `closed` came after any `done` |
| `ServicePass.ServeLocal` | window-agent/zero-window-agent.cpp:652-702 | serving a client depends on nothing but its own record, the tasks and the seat, and changes no other client |
| `ServicePass.PassOffset` | window-agent/zero-window-agent.cpp:760-777 | after v visits with k drops: the survivors in order, each as its own service left it, then the untouched suffix; the client that stood at v is judged by entry v-k |
| `ServicePass.PassLeavesSurvivors` | window-agent/zero-window-agent.cpp:760-777 | the pass leaves exactly the clients that stayed, in order |
| `ServicePass.ServedSocket` | window-agent/zero-window-agent.cpp:760-777 | whichever entry judges it, a client that stays is the connection it was |
| `ServicePass.HangupCascade` | window-agent/zero-window-agent.cpp:763-765 | a hang-up reported at place j leaves at most the j clients before it |
| `ServicePass.JudgedByOwnIff` | window-agent/zero-window-agent.cpp:760-777 | for every pass: each client is judged by its own entry if and only if each but the last is kept by its own entry |
| `ServicePass.DropsTheirOwnIff` | window-agent/zero-window-agent.cpp:760-777 | for every pass, whatever was reported and whatever the sockets did: the clients dropped are those their own entries drop if and only if each client is treated alike by its own entry and by the one as many places before it as clients before it are to go |
| `ServicePass.HangupsDropTheirOwnIff` | window-agent/zero-window-agent.cpp:760-777 | when the first client to be dropped hung up, whatever else happened: exactly the clients before it are left, and that is right if and only if every client behind it was to be dropped too |
| `ServicePass.NeighbourDropped` | window-agent/zero-window-agent.cpp:760-777 | two clients, the first hanging up with input unread: the second is dropped with it |
| `AgentTurns.ReadAnswers` | window-agent/zero-window-agent.cpp:652-684 | whatever the reads do, each line that comes out of them is answered once, in order, with what it queues and what it requests |
| `AgentTurns.ServeDoes` | window-agent/zero-window-agent.cpp:760-777 | what one visit does: what came is received, its lines handled and answered, then what the socket takes of the output goes; and exactly when the client stays |
| `AgentTurns.Met` | window-agent/zero-window-agent.cpp:752-758 | the clients polled stand first, as they were, and the accepted descriptors behind them in order, each a fresh connection |
| `AgentTurns.OwnEntryKeepsIff` | window-agent/zero-window-agent.cpp:763-775 | a client is kept by its own entry exactly without an error or hang-up and with reads and writes that go on |
| `AgentTurns.TurnServes` | window-agent/zero-window-agent.cpp:718-778 | after any turn: a client kept by its own entry, behind none that is not, stands where it stood with everything poll reported for it done |
| `AgentTurns.TurnDropsHangup` | window-agent/zero-window-agent.cpp:763-765 | if the first client to go hung up, the turn ends with exactly the clients before it |
| `AgentTurns.TurnAccepts` | window-agent/zero-window-agent.cpp:756-777 | a new connection has no entry of its own: it is left alone, and stands in order at the end, unless more clients than new ones before it were dropped |
| `AgentTurns.FinishedStops` | window-agent/zero-window-agent.cpp:365-370 | the manager's `finished`, and nothing else, stops the loop |
| `AgentTurns.NothingToTell` | window-agent/zero-window-agent.cpp:720-726 | with nothing changed, nothing closed and no event, the top of a turn sends nothing |
| `AgentTurns.PruningIsTold` | window-agent/zero-window-agent.cpp:489-491 | pruning a task is a change to tell |
| `AgentTurns.ToldOnce` | window-agent/zero-window-agent.cpp:539-546 | a change is told to every subscriber in one snapshot behind what was queued, and to nobody else |
| `WindowAgents.Task.GetStateString` | window-agent/zero-window-agent.cpp:171-193 | builds the state field with commas between the names of the set flags |
| `WindowAgents.WindowAgent.ManagerToplevel` | window-agent/zero-window-agent.cpp:351-363 | a new task at the end with the next id; the change is marked |
| `WindowAgents.WindowAgent.ManagerFinished` | window-agent/zero-window-agent.cpp:365-370 | stops the loop; the change is marked |
| `WindowAgents.WindowAgent.HandleTitle` | window-agent/zero-window-agent.cpp:372-377 | changes one task's title, an absent one to empty |
| `WindowAgents.WindowAgent.HandleAppId` | window-agent/zero-window-agent.cpp:379-384 | changes one task's app id |
| `WindowAgents.WindowAgent.HandleState` | window-agent/zero-window-agent.cpp:386-415 | the loop over the state array sets the flags to membership in it |
| `WindowAgents.WindowAgent.HandleDone` | window-agent/zero-window-agent.cpp:417-422 | reopens the task, as the source does |
| `WindowAgents.WindowAgent.HandleClosed` | window-agent/zero-window-agent.cpp:424-429 | closes the task |
| `WindowAgents.WindowAgent.LookUpTask` | window-agent/zero-window-agent.cpp:431-447 | the loop finds the task `FindTask` names |
| `WindowAgents.WindowAgent.LookUpActive` | window-agent/zero-window-agent.cpp:449-457 | the loop finds the first open activated task, the shell counting or not |
| `WindowAgents.WindowAgent.LookUpShell` | window-agent/zero-window-agent.cpp:459-467 | the loop finds the first open shell task |
| `WindowAgents.WindowAgent.PruneClosed` | window-agent/zero-window-agent.cpp:474-492 | erasing in place leaves the open tasks, destroys the closed ones in order, and marks the change if there were any |
| `WindowAgents.WindowAgent.SendSnapshot` | window-agent/zero-window-agent.cpp:510-522 | appends exactly the lines of a snapshot of the open tasks |
| `WindowAgents.WindowAgent.BroadcastSnapshot` | window-agent/zero-window-agent.cpp:539-546 | appends a snapshot to every subscriber and nothing to others |
| `WindowAgents.WindowAgent.PerformAction` | window-agent/zero-window-agent.cpp:577-595 | the requests of an action, or failure without a seat |
| `WindowAgents.WindowAgent.HandleCommand` | window-agent/zero-window-agent.cpp:557-633 | the command chain queues and requests exactly what the response defines |
| `WindowAgents.WindowAgent.AcceptClient` | window-agent/zero-window-agent.cpp:635-650 | new connections at the end of the list |
| `WindowAgents.WindowAgent.DrainInput` | window-agent/zero-window-agent.cpp:662-669 | the inner loop handles every complete line |
| `WindowAgents.WindowAgent.ReadClient` | window-agent/zero-window-agent.cpp:652-684 | the read loop takes the step the read outcomes define, with its verdict |
| `WindowAgents.WindowAgent.FlushClient` | window-agent/zero-window-agent.cpp:686-702 | the write loop takes the step the write outcomes define, with its verdict |
| `WindowAgents.WindowAgent.CloseClient` | window-agent/zero-window-agent.cpp:704-708 | erases one client, keeping the others in order |
| `WindowAgents.WindowAgent.ServeClients` | window-agent/zero-window-agent.cpp:760-777 | the service loop is the pass of the model, and ends because the clients still ahead become fewer |
| `WindowAgents.WindowAgent.RunTurn` | window-agent/zero-window-agent.cpp:718-778 | one turn of the main loop, in the source's order |
| `WindowAgents.WindowAgent.RunLoop` | window-agent/zero-window-agent.cpp:718-781 | the main loop is the model's run |
| `WindowAgents.RunAgent` | window-agent/zero-window-agent.cpp:718-781 | an agent driven through any turns ends with the invariant, and with the handle rules if the events were legal |
| `ShellControl.AgentCommand` | files/usr/local/bin/zero-shell-control:45-52 | the receive loop and exit status, for any outcomes of recv |
| `ShellControl.ExitIsPrefix` | files/usr/local/bin/zero-shell-control:51-52 | looking at the first line only is looking at the data received |
| `ShellControl.StatusOfLine` | files/usr/local/bin/zero-shell-control:45-52 | however a reply is cut, the status is 0 exactly when its first line starts with `ok` and a tab |
| `ShellControl.StatusIff` | files/usr/local/bin/zero-shell-control:43-52 | for any outcomes of recv: status 0 exactly if what came starts with `ok` and a tab and a newline came or the peer closed; a timeout is a failure |
| `ShellControl.OneCommandStatus` | files/usr/local/bin/zero-shell-control:40-52 | against a connection that brought at most one command: status 0 only for the `ok` to it, however little of the reply came, and always for that once a whole line came |
| `ShellControl.ReachableStatus` | files/usr/local/bin/zero-shell-control:40-52 | the same in every reachable state of the agent, for the command and newline the script sends, of which any part may have come |
| `KeyPolicy.EventLoop` | files/usr/local/bin/zero-key-policy:221-265 | the loop runs the actions of the machine |
| `KeyPolicy.CycleIsClassified` | files/usr/local/bin/zero-key-policy:225-265 | from any state, press, anything but Esc down or up, release: exactly one action, close-active exactly if held for the threshold |
| `KeyPolicy.HeldActions` | files/usr/local/bin/zero-key-policy:226-235 | while held, at most one action, and only once the threshold has passed |
| `KeyPolicy.TimeoutIsExact` | files/usr/local/bin/zero-key-policy:226-230 | the timeout asked for ends exactly when the key has been down for the threshold, or at once if that is past |
| `KeyPolicy.LongActionOnTime` | files/usr/local/bin/zero-key-policy:226-258 | with a select on time both ways, the long action of a held key runs exactly when it has been down for the threshold |
| `KeyPolicy.QuietUntilPress` | files/usr/local/bin/zero-key-policy:225-265 | after an action nothing runs before the next press, however the clock behaves |
| `KeyPolicy.PressBetween` | files/usr/local/bin/zero-key-policy:225-265 | on any trace two actions have a press between them |
| `KeyPolicy.AheadOfRule` | files/usr/local/bin/zero-key-policy:225-265 | from any state, the machine's action count is the release rule's plus the action fired for a key still held plus the presses that meet a fired key |
| `KeyPolicy.StateByTrace` | files/usr/local/bin/zero-key-policy:221-265 | what the machine remembers, read off the trace: the press the key is held since, and whether a timeout or a late repeat came while it was held |
| `KeyPolicy.RefinesRuleIff` | files/usr/local/bin/zero-key-policy:225-265 | over timely traces whose presses are all released: one action more than the release rule for every press of a key held, and found held, for the threshold; the same actions in order if and only if there is no such press |
| `KeyPolicy.LostRelease` | files/usr/local/bin/zero-key-policy:225-265 | a trace with a lost release where the machine runs two actions and the rule one |
| `Greeter.MenuWindow` | greeter/zero-greeter-wayland.cpp:1079-1091 | the menu window shows valid rows only, always the highlighted one, one row above it where the list allows |
| `Greeter.MenuShowsSelection` | greeter/zero-greeter-wayland.cpp:1103-1110 | up to three rows are drawn, as many as there are users, and exactly one is highlighted, the selected user's |
| `Greeter.RenderBuffers` | greeter/zero-greeter-wayland.cpp:1135-1150 | a frame goes only into a buffer the compositor does not have, and shows the state it was drawn from |
| `Greeter.RenderShows` | greeter/zero-greeter-wayland.cpp:1135-1150 | a due redraw stays due exactly when there is no surface yet or both buffers are out; otherwise the current state is on screen |
| `Greeter.LoginKeeps` | greeter/zero-greeter-wayland.cpp:744-775 | an attempt sends the selected user's name and the typed password, empties the password and keeps the invariant |
| `Greeter.KeysymKeeps` | greeter/zero-greeter-wayland.cpp:795-896 | every key in every mode keeps the invariant |
| `Greeter.EventKeeps` | greeter/zero-greeter-wayland.cpp:563-653 | every event keeps the invariant, buffer releases included |
| `Greeter.RunKeeps` | greeter/zero-greeter-wayland.cpp:1152-1170 | over every run with any user reloads: selections in range, password bounded, screen current unless a redraw is due, no frame drawn into a busy buffer |
| `Greeter.ChoosingUser` | greeter/zero-greeter-wayland.cpp:818-828 | Enter shows the highlighted user in the user field with an empty password; Escape leaves both |
| `Greeter.OpeningUserMenu` | greeter/zero-greeter-wayland.cpp:797-832 | the user menu opens on the user of the user field, whatever users are found; after any moves Escape leaves user and password, and Enter at once chooses that user |
| `Greeter.BackUndoesForward` | greeter/zero-greeter-wayland.cpp:803-817 | moving the highlight back undoes moving it on, around the ends too |
| `Greeter.SentRequestArrives` | greeter/zero-greeter-wayland.cpp:379-381 | in every state of a run exactly Enter in the login view, with a user there and a helper that starts, sends a request, one; read in any chunks it is parsed as the user in the user field and the password typed, exactly for plain names |
| `GreeterKeys.TypingAppends` | greeter/zero-greeter-wayland.cpp:898-910 | printable bytes typed one by one stand behind what was there, in order; nothing else changes but the status |
| `GreeterKeys.EraseTakesLast` | greeter/zero-greeter-wayland.cpp:884-892 | an erase key takes the last byte away, if there is one |
| `GreeterKeys.EraseUndoesTyping` | greeter/zero-greeter-wayland.cpp:884-910 | so it undoes a key that typed something |
| `GreeterKeys.OtherTextsIgnored` | greeter/zero-greeter-wayland.cpp:898-910 | any other text, or a full password, leaves everything as it is |
| `GreeterKeys.ClosedTakesNoText` | greeter/zero-greeter-wayland.cpp:619-639 | a closed window takes no more text, though its batch of events goes on |
| `GreeterKeys.TypedIsSent` | greeter/zero-greeter-wayland.cpp:744-762 | the request Enter sends is the name, a newline, the password that was there with everything typed since behind it, and a newline |
| `GreeterKeys.AttemptDoes` | greeter/zero-greeter-wayland.cpp:744-775 | without a user nothing is sent and the user is told; with one the helper's answer decides session, mode, status and error, and the password is forgotten |
| `GreeterKeys.BusyIsShown` | greeter/zero-greeter-wayland.cpp:752-757 | a frame saying that it is busy goes out before the attempt, exactly if there is a surface and a free buffer |
| `GreeterKeys.StartedIgnoresKeys` | greeter/zero-greeter-wayland.cpp:860-862 | once the session starts no key does anything |
| `GreeterKeys.UserMenuMoves` | greeter/zero-greeter-wayland.cpp:797-832 | which keys move the highlight of the user menu which way, around the ends; the others do nothing, and none types |
| `GreeterKeys.PowerMenuMoves` | greeter/zero-greeter-wayland.cpp:834-858 | the same for the three entries of the power menu, and which keys leave it |
| `GreeterKeys.EscapeOpensPowerMenu` | greeter/zero-greeter-wayland.cpp:873-879 | Escape opens the power menu on cancel, a second Escape goes back, and user and password stay |
| `GreeterKeys.TabKeepsPlace` | greeter/zero-greeter-wayland.cpp:865-872 | a reload keeps the selected place if the new list has it |
| `GreeterKeys.FramesTell` | greeter/zero-greeter-wayland.cpp:1012-1070 | what two states with the same frame have in common: user, password length below twelve, status, error, menu and entry |
| `GreeterKeys.SurfaceEvents` | greeter/zero-greeter-wayland.cpp:555-575 | a configured surface is due a redraw, and a closed window ends the loop |
| `GreeterKeys.TurnHandlesEvents` | greeter/zero-greeter-wayland.cpp:1152-1170 | a turn handles all its events in order, and redrawing in between makes no difference to them |
| `GreeterKeys.RunHandlesEvents` | greeter/zero-greeter-wayland.cpp:1152-1170 | so a run is its events, frames apart, up to where the loop ends |
| `GreeterKeys.TurnRedraws` | greeter/zero-greeter-wayland.cpp:1152-1159 | a turn that finds a redraw due, with a surface and a free buffer, puts the current state on screen; one that finds none due draws nothing |
| `GreeterWindows.GreeterWindow.ClampSelection` | greeter/zero-greeter-wayland.cpp:733-742 | reduces both selections into the list, or to 0 |
| `GreeterWindows.GreeterWindow.ReloadUsers` | greeter/zero-greeter-wayland.cpp:727-731 | replaces the list and clamps |
| `GreeterWindows.GreeterWindow.PickBuffer` | greeter/zero-greeter-wayland.cpp:678-686 | the first buffer that is not busy |
| `GreeterWindows.GreeterWindow.Redraw` | greeter/zero-greeter-wayland.cpp:1135-1150 | the redraw is the model's, busy flag and dirty flag included |
| `GreeterWindows.GreeterWindow.MenuTop` | greeter/zero-greeter-wayland.cpp:1079-1091 | the first visible row by the source's two clamps |
| `GreeterWindows.GreeterWindow.DrawUserMenu` | greeter/zero-greeter-wayland.cpp:1103-1110 | the rows drawn are the model's |
| `GreeterWindows.GreeterWindow.TryLogin` | greeter/zero-greeter-wayland.cpp:744-775 | the login attempt is the model's, redraw included |
| `GreeterWindows.GreeterWindow.UserMenuKey` | greeter/zero-greeter-wayland.cpp:797-832 | the user menu's keys |
| `GreeterWindows.GreeterWindow.PowerMenuKey` | greeter/zero-greeter-wayland.cpp:834-858 | the power menu's keys |
| `GreeterWindows.GreeterWindow.LoginKey` | greeter/zero-greeter-wayland.cpp:864-895 | the login view's keys, and which are left to text entry |
| `GreeterWindows.GreeterWindow.HandleKeysym` | greeter/zero-greeter-wayland.cpp:795-896 | the key dispatch by mode |
| `GreeterWindows.GreeterWindow.HandleText` | greeter/zero-greeter-wayland.cpp:898-910 | text entry |
| `GreeterWindows.GreeterWindow.RunLoop` | greeter/zero-greeter-wayland.cpp:1152-1170 | the main loop is the model's run |
| `GreeterWindows.RunGreeter` | greeter/zero-greeter-wayland.cpp:1174-1181 | a greeter driven through any turns ends with the invariant |
| `LoginRequest.WriteAll` | greeter/zero-greeter-wayland.cpp:301-317 | short writes deliver a prefix, and success is reported exactly when it is everything |
| `LoginRequest.ThroughIsTaken` | greeter/zero-greeter-wayland.cpp:301-317 | what gets through is exactly what the socket took before an error, at most all there was |
| `LoginRequest.ReadRequest` | greeter/zero-greeter-auth.cpp:54-93 | the helper's read loop, cap, split and trims, for any outcomes of read |
| `LoginRequest.ReceivedByTotal` | greeter/zero-greeter-auth.cpp:58-73 | rejection by the 4096-byte cap depends on the total only, and otherwise the parse of the whole stream decides |
| `LoginRequest.NoStreamNoLogin` | greeter/zero-greeter-auth.cpp:58-66 | a stream that is not read to its end is no login |
| `LoginRequest.ParseRequest` | greeter/zero-greeter-auth.cpp:75-92 | what the helper parses of a request whose name has no newline |
| `LoginRequest.RoundTripIff` | greeter/zero-greeter-wayland.cpp:379-381 | for every password the greeter can hold, name and password come back unchanged if and only if the name is 1 to 64 bytes without newline and not ending in CR |
| `LoginRequest.TruncatedRequest` | greeter/zero-greeter-auth.cpp:75-92 | what the helper makes of any part of a request: no login until the name's newline came, then one with as much of the password as came, the typed one exactly when all but the last newline came |
| `LoginRequest.NewlineInName` | greeter/zero-greeter-auth.cpp:75-92 | a name with a newline is taken for what stands before it, and the password for what stands behind it, up to 256 bytes |
| `Canvas.FillRect` | greeter/zero-greeter-wayland.cpp:917-929 | changes exactly the part of the rectangle on the screen, for all coordinates |
| `Canvas.FillRectMinMax` | polkit-agent/zero-polkit-prompt-wayland.cpp:538-550 | the other bounds paint the same pixels |
| `Canvas.CellRect` | greeter/zero-greeter-wayland.cpp:947-948 | the rectangle of one glyph bit is one cell of the text's grid |
| `Canvas.DrawText` | greeter/zero-greeter-wayland.cpp:939-954 | changes exactly the clipped pixels whose cell is a set glyph bit, the scale raised to 1 |
| `Canvas.DrawTextPrompt` | polkit-agent/zero-polkit-prompt-wayland.cpp:560-576 | the same without raising the scale: nothing is drawn for 0 or less |
| `PolkitSecret.PromptWindow.HandleKeysym` | polkit-agent/zero-polkit-prompt-wayland.cpp:499-519 | Enter, Escape and the erase keys |
| `PolkitSecret.PromptWindow.HandleText` | polkit-agent/zero-polkit-prompt-wayland.cpp:521-531 | printable characters up to 128 |
| `PolkitSecret.PromptWindow.Dispatch` | polkit-agent/zero-polkit-prompt-wayland.cpp:378-398 | a key press: the keysym first, the text only while running |
| `PolkitSecret.PromptWindow.RunLoop` | polkit-agent/zero-polkit-prompt-wayland.cpp:660-685 | the loop ends between batches only, writes the secret if accepted, and forgets it |
| `PolkitSecret.BatchesKeepSecret` | polkit-agent/zero-polkit-prompt-wayland.cpp:499-531 | every run keeps the secret printable and at most 128 bytes |
| `PolkitSecret.TypingAppends` | polkit-agent/zero-polkit-prompt-wayland.cpp:521-531 | printable bytes typed one by one stand behind what was there, in order |
| `PolkitSecret.EraseTakesLast` | polkit-agent/zero-polkit-prompt-wayland.cpp:509-515 | an erase key takes the last byte away, if there is one |
| `PolkitSecret.OtherTextsIgnored` | polkit-agent/zero-polkit-prompt-wayland.cpp:521-531 | any other text, or a full secret, changes nothing |
| `PolkitSecret.TypedIsRecovered` | polkit-agent/zero-polkit-prompt-wayland.cpp:678-682 | from the keys to the agent: bytes typed one by one, then Enter, are written with a newline, and the agent recovers exactly them |
| `PolkitSecret.FillBuffer` | polkit-agent/zero-polkit-agent.c:125-141 | the read loop stays inside the 264-byte buffer with a byte for the NUL, whatever the pipe holds |
| `PolkitSecret.StripInPlace` | polkit-agent/zero-polkit-agent.c:152-155 | strips trailing line ends in place |
| `PolkitSecret.SecureClear` | polkit-agent/zero-polkit-agent.c:54-63 | zeroes exactly the bytes before the first NUL |
| `PolkitSecret.ReadResponse` | polkit-agent/zero-polkit-agent.c:125-158 | the response is the stripped, NUL-cut text in the buffer, or nothing if the prompt failed; the buffer ends wiped if no NUL was sent |
| `PolkitSecret.TakenIsFixed` | polkit-agent/zero-polkit-agent.c:126-141 | however the pipe is read, short of a read error, the buffer ends with all bytes or the first 263 |
| `PolkitSecret.TakenUpToFailure` | polkit-agent/zero-polkit-agent.c:126-141 | when a read fails, the buffer holds what the reads before it brought |
| `PolkitSecret.RecoversIff` | polkit-agent/zero-polkit-agent.c:125-157 | exactly which secrets come back unchanged: at most 263 bytes, no NUL, no trailing line end |
| `PolkitSecret.SecretArrives` | polkit-agent/zero-polkit-prompt-wayland.cpp:678-682 | over every accepted run of the prompt and any reads, the agent recovers exactly the secret |
| `PolkitSecret.SubmittedIff` | polkit-agent/zero-polkit-prompt-wayland.cpp:386-391 | over every run that comes to an Enter: nothing is written exactly when a cancellation has the last word in its batch; otherwise what the erase keys behind it leave is; so the secret as it stood there exactly when neither happens, or there was nothing to erase |
| `PolkitSecret.LostBehindEnter` | polkit-agent/zero-polkit-prompt-wayland.cpp:386-391 | both losses, for one typed character |
| `ConfigRewrite.StripManaged` | scripts/setup-internal-drm-display.sh:158-168 | the filter with its block flag |
| `ConfigRewrite.RewriteConfig` | scripts/setup-internal-drm-display.sh:158-184 | filter, block and base lines |
| `ConfigRewrite.StripKeepsUnmanaged` | scripts/setup-internal-drm-display.sh:158-168 | the filter keeps exactly the lines that are no marker, no managed overlay and in no open block, in order |
| `ConfigRewrite.RewriteShape` | scripts/setup-internal-drm-display.sh:158-184 | the rewritten file is the kept lines, the block and the base lines if needed; filtering it again keeps the base lines |
| `ConfigRewrite.OneBlock` | scripts/setup-internal-drm-display.sh:170-177 | the rewritten file has the managed block once and nothing else managed |
| `ConfigRewrite.RewriteFixpoint` | scripts/setup-internal-drm-display.sh:157-186 | a third rewrite changes nothing after two; a second changes nothing exactly when the kept lines have the base overlay |
| `ConfigRewrite.EmptyFileMoves` | scripts/setup-internal-drm-display.sh:157-186 | from an empty file the second rewrite moves the base lines before the block |
| `ConfigRewrite.KindsByText` | scripts/setup-internal-drm-display.sh:160-166 | on the text: which lines open and close a managed block, and which load a managed overlay, blanks and parameters included |
| `ConfigRewrite.OverlaysInForce` | scripts/setup-internal-drm-display.sh:157-186 | on the text: the rewritten file loads the display overlay in one line and the experimental one in none, and sets the base overlay |
| `ConfigRewrite.BlocksDropped` | scripts/setup-internal-drm-display.sh:160-164 | a block of either name goes with everything in it |
| `LightdmRewrite.RewriteConfig` | scripts/setup-lightdm-policy.sh:49-73 | the rewriter with its flag |
| `LightdmRewrite.OneGreeterNoAutologin` | scripts/setup-lightdm-policy.sh:43-73 | no autologin key in force; one greeter session in force, the managed one, exactly if there was any |
| `LightdmRewrite.RewriteIdempotent` | scripts/setup-lightdm-policy.sh:49-73 | a second rewrite changes nothing |
| `LightdmRewrite.OldLinesKept` | scripts/setup-lightdm-policy.sh:49-73 | every old line is still there in order, untouched or as a comment, but for repetitions of the managed line |
| `LightdmRewrite.AutologinDisabled` | scripts/setup-lightdm-policy.sh:69-72 | on the text: a line that sets one of the four autologin keys, written out, blanks included, becomes a comment wherever it stands |
| `LightdmRewrite.NoAutologinLeft` | scripts/setup-lightdm-policy.sh:69-72 | on the text: no line of the rewritten file sets one of the four |
| `LightdmRewrite.OneGreeterLeft` | scripts/setup-lightdm-policy.sh:50-68 | on the text: at most one line of the rewritten file sets `greeter-session`, exactly if one did before, and it is the managed one |
| `LightdmRewrite.GreeterReplaced` | scripts/setup-lightdm-policy.sh:50-68 | on the text: what a greeter session becomes, by its value with blanks trimmed and whether one came before |
| `LightdmRewrite.OtherLinesUntouched` | scripts/setup-lightdm-policy.sh:73-73 | a line that sets none of the five keys is untouched |

## Left out

- Wayland, xkb, GLib, polkit, PAM, logind and systemd calls: only their events, requests and answers appear.
- Socket setup, fork and exec, pipes, shared memory, signals, file permissions: operating-system plumbing.
- `write_snapshot` and the `--once` mode: the same lines as a snapshot, to standard output.
- Task ids at or beyond 2^31 and the saturation of the number parse: ids are unbounded here; below 2^31 the two agree.
- The running flag a signal clears: a run simply has fewer turns.
- Screen layout, glyph tables, colours and the shortening of displayed names: a glyph is a parameter of the text drawing, a frame is the values it is drawn from, without the clock text.
- Coordinates near the ends of `int`: painting is over unbounded integers, which agree while sums do not overflow.
- Rounding of the key policy's clock: times are reals.
- The UTF-8 decoding of a reply in the one-command client: the prefix it looks for is ASCII, which decoding leaves alone.
- Launching the power helper from the greeter, and the mapping of exit codes to messages: the outcome is a parameter.
- The environment-file and kernel command-line edits of the setup scripts, the remaining scripts, units and helpers: straight-line configuration.
- LoginRequest.WriteAll: outcomes that run out count as an error, because the list of outcomes is finite.
