// The window agent's state and steps as functions on values
// (window-agent/zero-window-agent.cpp).  `WindowAgent.dfy` has the methods that
// change the state in place, each proved to take exactly these steps.
module Agent {
  import opened Text
  import opened Codec
  import opened Framing
  import opened Tasks
  import opened Wrappers

  datatype Request =
    | Activate(handle: nat)
    | SetMinimized(handle: nat)
    | UnsetMinimized(handle: nat)
    | CloseToplevel(handle: nat)
    | Destroy(handle: nat)

  // What passed over the compositor connection: a toplevel announced and given
  // an id, its `closed` event, and the requests the agent sent.
  datatype Entry = New(handle: nat, id: nat) | Gone(handle: nat) | Sent(request: Request)

  // What the agent queued to a client: one reply to one line, or a snapshot
  // because the tasks changed.
  datatype Unit = Reply(request: string, lines: seq<string>) | Broadcast(lines: seq<string>)

  // A connection.  The last four fields are its history: bytes read, lines
  // handled, units queued, bytes the socket accepted.
  datatype Client = Client(
    fd: nat, subscribed: bool, input: string, output: string,
    received: string, handled: seq<string>, units: seq<Unit>, written: string)

  function NewClient(fd: nat): Client {
    Client(fd, false, "", "", "", [], [], "")
  }

  // `seat` says whether the compositor offered a seat; `log` is the history of
  // the compositor connection.
  datatype State = State(
    tasks: seq<TaskInfo>, clients: seq<Client>,
    changed: bool, nextId: nat, running: bool, seat: bool, log: seq<Entry>)

  function Initial(seat: bool): State {
    State([], [], false, 1, true, seat, [])
  }

  // ---- compositor events -----------------------------------------------------

  datatype TaskEvent =
    | Title(text: Option<string>)
    | AppId(text: Option<string>)
    | States(entries: seq<nat>)
    | Done
    | Closed

  // `OnTask` is delivered to the task whose listener stands at `index`.
  datatype Event = Toplevel(handle: nat) | Finished | OnTask(index: nat, event: TaskEvent)

  function TextOr(text: Option<string>): string {
    if text.Some? then text.value else ""
  }

  function Changed(t: TaskInfo, e: TaskEvent): TaskInfo {
    match e
    case Title(text) => t.(title := TextOr(text))
    case AppId(text) => t.(appId := TextOr(text))
    case States(entries) => t.(
      maximized := 0 in entries, minimized := 1 in entries,
      activated := 2 in entries, fullscreen := 3 in entries)
    case Done => t.(closed := false)
    case Closed => t.(closed := true)
  }

  function OnEvent(st: State, e: Event): State {
    match e
    case Toplevel(handle) =>
      st.(tasks := st.tasks + [TaskInfo(st.nextId, handle, "", "", false, false, false, false, false)],
          nextId := st.nextId + 1, changed := true, log := st.log + [New(handle, st.nextId)])
    case Finished => st.(running := false, changed := true)
    case OnTask(i, te) =>
      if i >= |st.tasks| then st
      else
        var t := st.tasks[i];
        st.(tasks := st.tasks[i := Changed(t, te)], changed := true,
            log := if te.Closed? then st.log + [Gone(t.handle)] else st.log)
  }

  // ---- prune and broadcast ---------------------------------------------------

  function OpenTasks(tasks: seq<TaskInfo>): seq<TaskInfo> {
    if tasks == [] then []
    else (if tasks[0].closed then [] else [tasks[0]]) + OpenTasks(tasks[1..])
  }

  function Destroys(tasks: seq<TaskInfo>): seq<Entry> {
    if tasks == [] then []
    else (if tasks[0].closed then [Sent(Destroy(tasks[0].handle))] else []) + Destroys(tasks[1..])
  }

  function Prune(st: State): State {
    st.(tasks := OpenTasks(st.tasks), log := st.log + Destroys(st.tasks),
        changed := st.changed || exists k :: 0 <= k < |st.tasks| && st.tasks[k].closed)
  }

  function Push(c: Client, u: Unit): Client {
    c.(output := c.output + Wire(u.lines), units := c.units + [u])
  }

  function PushSnapshot(c: Client, tasks: seq<TaskInfo>): Client {
    if c.subscribed then Push(c, Broadcast(SnapshotLines(tasks))) else c
  }

  function PushAll(clients: seq<Client>, tasks: seq<TaskInfo>): (r: seq<Client>)
    ensures |r| == |clients|
    ensures forall k :: 0 <= k < |clients| ==> r[k] == PushSnapshot(clients[k], tasks)
  {
    seq(|clients|, k requires 0 <= k < |clients| => PushSnapshot(clients[k], tasks))
  }

  function BroadcastChange(st: State): State {
    if st.changed then st.(clients := PushAll(st.clients, st.tasks), changed := false) else st
  }

  // ---- commands ----------------------------------------------------------------

  datatype TaskAction = DoActivate | DoMinimize | DoRestore | DoClose

  datatype Command =
    | Nothing
    | Hello
    | ListTasks
    | Subscribe
    | ToTask(action: TaskAction)
    | FocusShell
    | ActiveIsShell
    | ToActive(action: TaskAction)
    | Unknown

  function CommandOf(verb: string): Command {
    if verb == "" then Nothing
    else if verb == "hello" then Hello
    else if verb == "list" then ListTasks
    else if verb == "subscribe" then Subscribe
    else if verb == "activate" then ToTask(DoActivate)
    else if verb == "minimize" then ToTask(DoMinimize)
    else if verb == "restore" then ToTask(DoRestore)
    else if verb == "close" then ToTask(DoClose)
    else if verb == "focus-shell" then FocusShell
    else if verb == "active-is-shell" then ActiveIsShell
    else if verb == "minimize-active" then ToActive(DoMinimize)
    else if verb == "close-active" then ToActive(DoClose)
    else Unknown
  }

  datatype Refusal = MissingId | NoTask | NoShell | NoActive | ShellNotActive | NoSeat | UnknownVerb(verb: string)

  function RefusalCode(r: Refusal): string {
    match r
    case MissingId => "bad-request"
    case NoTask => "not-found"
    case NoShell => "not-found"
    case NoActive => "not-found"
    case ShellNotActive => "not-active"
    case NoSeat => "unsupported"
    case UnknownVerb(_) => "unknown-command"
  }

  function RefusalText(r: Refusal): string {
    match r
    case MissingId => "missing task id"
    case NoTask => "task not found"
    case NoShell => "shell task not found"
    case NoActive => "no active non-shell task"
    case ShellNotActive => "shell is not active"
    case NoSeat => "no Wayland seat"
    case UnknownVerb(verb) => verb
  }

  function OkLine(request: string): string { "ok\t" + Encoded(request) }

  function ErrorLine(code: string, message: string): string {
    "error\t" + (Encoded(code) + ("\t" + Encoded(message)))
  }

  function HelloLine(): string { "hello\tZWA1\tzero-window-agent" }

  // What handling a line does: lines queued to its client, requests sent to the
  // compositor, and whether the client becomes a subscriber.
  datatype Answer = Answer(lines: seq<string>, requests: seq<Request>, subscribe: bool)

  function Accepted(verb: string, requests: seq<Request>): Answer {
    Answer([OkLine(verb)], requests, false)
  }

  function Refused(r: Refusal): Answer {
    Answer([ErrorLine(RefusalCode(r), RefusalText(r))], [], false)
  }

  // The requests one action on one handle takes.
  function ActionRequests(action: TaskAction, seat: bool, h: nat): seq<Request> {
    match action
    case DoActivate => [Activate(h)]
    case DoMinimize => [SetMinimized(h)]
    case DoRestore => [UnsetMinimized(h)] + if seat then [Activate(h)] else []
    case DoClose => [CloseToplevel(h)]
  }

  function Act(
      tasks: seq<TaskInfo>, seat: bool, verb: string, action: TaskAction, target: Option<nat>, missing: Refusal): Answer
    requires target.Some? ==> target.value < |tasks|
  {
    if target.None? then Refused(missing)
    else if action.DoActivate? && !seat then Refused(NoSeat)
    else Accepted(verb, ActionRequests(action, seat, tasks[target.value].handle))
  }

  function Verb(line: string): string { SplitTabs(line)[0] }

  function Respond(tasks: seq<TaskInfo>, seat: bool, line: string): Answer {
    var fields := SplitTabs(line);
    var verb := fields[0];
    match CommandOf(verb)
    case Nothing => Answer([], [], false)
    case Hello => Answer([HelloLine()], [], false)
    case ListTasks => Answer(SnapshotLines(tasks), [], false)
    case Subscribe => Answer(SnapshotLines(tasks), [], true)
    case ToTask(action) =>
      if |fields| < 2 then Refused(MissingId)
      else Act(tasks, seat, verb, action, FindTask(tasks, fields[1]), NoTask)
    case FocusShell => Act(tasks, seat, verb, DoActivate, ShellTask(tasks), NoShell)
    case ActiveIsShell =>
      var target := ActiveTask(tasks, true);
      if target.Some? && IsShell(tasks[target.value]) then Accepted(verb, []) else Refused(ShellNotActive)
    case ToActive(action) => Act(tasks, seat, verb, action, ActiveTask(tasks, false), NoActive)
    case Unknown => Refused(UnknownVerb(verb))
  }

  function SentAll(requests: seq<Request>): (entries: seq<Entry>)
    ensures |entries| == |requests|
    ensures forall k :: 0 <= k < |requests| ==> entries[k] == Sent(requests[k])
  {
    seq(|requests|, k requires 0 <= k < |requests| => Sent(requests[k]))
  }

  function Answered(c: Client, line: string, a: Answer): Client {
    c.(subscribed := c.subscribed || a.subscribe,
       handled := c.handled + [line],
       output := c.output + Wire(a.lines),
       units := if a.lines == [] then c.units else c.units + [Reply(line, a.lines)])
  }

  function Handle(st: State, i: nat, line: string): State
    requires i < |st.clients|
  {
    var a := Respond(st.tasks, st.seat, line);
    st.(clients := st.clients[i := Answered(st.clients[i], line, a)], log := st.log + SentAll(a.requests))
  }

  // ---- reading, writing, dropping ------------------------------------------------

  // Take the first complete line out of client `i`'s input buffer and handle it.
  function HandleFirst(st: State, i: nat): (r: State)
    requires i < |st.clients| && !Free('\n', st.clients[i].input)
    ensures |r.clients| == |st.clients|
    ensures |r.clients[i].input| < |st.clients[i].input|
  {
    var c := st.clients[i];
    var at := FirstNewline(c.input);
    Handle(st.(clients := st.clients[i := c.(input := c.input[at + 1..])]), i, StripCr(c.input[..at]))
  }

  // Handle every complete line in client `i`'s input buffer.
  function Drain(st: State, i: nat): (r: State)
    requires i < |st.clients|
    ensures |r.clients| == |st.clients|
    decreases |st.clients[i].input|
  {
    if Free('\n', st.clients[i].input) then st else Drain(HandleFirst(st, i), i)
  }

  function FirstNewline(s: string): (at: nat)
    requires !Free('\n', s)
    ensures at < |s| && s[at] == '\n' && Free('\n', s[..at])
  {
    FindFrom(s, '\n', 0)
  }

  datatype Read = Data(chunk: Chunk) | Eof | ReadBlocked | ReadInterrupted | ReadFailed
  datatype Write = Took(count: nat) | WriteBlocked | WriteInterrupted | WriteFailed

  // A state, and whether the client just served stays connected.
  datatype Served = Served(state: State, keep: bool)

  function Buffer(st: State, i: nat, chunk: Chunk): State
    requires i < |st.clients|
  {
    var c := st.clients[i];
    st.(clients := st.clients[i := c.(input := c.input + chunk, received := c.received + chunk)])
  }

  // The outcomes of successive reads; past the last one a read would block.
  function ReadClient(st: State, i: nat, results: seq<Read>): (r: Served)
    requires i < |st.clients|
    ensures |r.state.clients| == |st.clients|
    decreases |results|
  {
    if results == [] then Served(st, true)
    else match results[0]
      case Data(chunk) =>
        var buffered := Buffer(st, i, chunk);
        if |buffered.clients[i].input| > MAX_LINE then Served(buffered, false)
        else ReadClient(Drain(buffered, i), i, results[1..])
      case Eof => Served(st, false)
      case ReadBlocked => Served(st, true)
      case ReadInterrupted => ReadClient(st, i, results[1..])
      case ReadFailed => Served(st, false)
  }

  function Wrote(c: Client, n: nat): Client
    requires n <= |c.output|
  {
    c.(output := c.output[n..], written := c.written + c.output[..n])
  }

  function FlushClient(st: State, i: nat, results: seq<Write>): (r: Served)
    requires i < |st.clients|
    ensures |r.state.clients| == |st.clients|
    decreases |results|
  {
    var c := st.clients[i];
    if c.output == "" || results == [] then Served(st, true)
    else match results[0]
      case Took(n) =>
        var count := Min(n, |c.output|);
        if count == 0 then Served(st, false)
        else FlushClient(st.(clients := st.clients[i := Wrote(c, count)]), i, results[1..])
      case WriteBlocked => Served(st, true)
      case WriteInterrupted => FlushClient(st, i, results[1..])
      case WriteFailed => Served(st, false)
  }

  function Drop(st: State, i: nat): State
    requires i < |st.clients|
  {
    st.(clients := st.clients[..i] + st.clients[i + 1..])
  }

  // ---- one service pass -----------------------------------------------------------

  // What poll reported for one entry: an error or hang-up, input, room for output.
  datatype PollEntry = PollEntry(error: bool, readable: bool, writable: bool)

  const QUIET: PollEntry := PollEntry(false, false, false)

  // What the socket of one visited client does.
  datatype Io = Io(readResults: seq<Read>, writeResults: seq<Write>)

  function EntryAt(entries: seq<PollEntry>, i: nat): PollEntry {
    if i < |entries| then entries[i] else QUIET
  }

  function IoAt(io: seq<Io>, v: nat): Io {
    if v < |io| then io[v] else Io([], [])
  }

  function Serve(st: State, i: nat, entry: PollEntry, io: Io): (r: Served)
    requires i < |st.clients|
    ensures |r.state.clients| == |st.clients|
  {
    if entry.error then Served(st, false)
    else
      var read := if entry.readable then ReadClient(st, i, io.readResults) else Served(st, true);
      if read.keep && entry.writable then FlushClient(read.state, i, io.writeResults) else read
  }

  function Visit(st: State, i: nat, entry: PollEntry, io: Io): State
    requires i < |st.clients|
  {
    var served := Serve(st, i, entry, io);
    if served.keep then served.state else Drop(served.state, i)
  }

  // The pass after `v` visits, the loop variable then, and the clients dropped.
  datatype Pass = Pass(state: State, index: nat, drops: nat)

  // One turn of the pass's loop: the client at `index` is judged by the entry
  // at `index`, and only a client that stays moves `index` on.
  function Advance(p: Pass, entries: seq<PollEntry>, io: Io): (q: Pass)
    requires p.index < |p.state.clients|
    ensures q.index + q.drops == p.index + p.drops + 1
    ensures |q.state.clients| + q.drops == |p.state.clients| + p.drops
  {
    var entry := EntryAt(entries, p.index);
    var next := Visit(p.state, p.index, entry, io);
    if Serve(p.state, p.index, entry, io).keep then Pass(next, p.index + 1, p.drops)
    else Pass(next, p.index, p.drops + 1)
  }

  function PassAt(st: State, entries: seq<PollEntry>, io: seq<Io>, v: nat): (p: Pass)
    requires v <= |st.clients|
    ensures p.index + p.drops == v
    ensures |p.state.clients| + p.drops == |st.clients|
  {
    if v == 0 then Pass(st, 0, 0)
    else Advance(PassAt(st, entries, io, v - 1), entries, IoAt(io, v - 1))
  }

  function ServePass(st: State, entries: seq<PollEntry>, io: seq<Io>): State {
    PassAt(st, entries, io, |st.clients|).state
  }

  // ---- the main loop ----------------------------------------------------------------

  // What one turn of the loop meets: events already queued, then what poll says.
  // `revents` are the client entries, in the order of the clients polled.
  datatype Turn = Turn(pending: seq<Event>, poll: Poll)
  datatype Poll =
    | PollInterrupted
    | PollFailed
    | TimedOut
    | Ready(events: seq<Event>, displayLost: bool, accepted: seq<nat>, revents: seq<PollEntry>, io: seq<Io>)

  function OnEvents(st: State, events: seq<Event>): State
    decreases |events|
  {
    if events == [] then st else OnEvents(OnEvent(st, events[0]), events[1..])
  }

  function Accept(st: State, fd: nat): State {
    st.(clients := st.clients + [NewClient(fd)])
  }

  function AcceptAll(st: State, fds: seq<nat>): State
    decreases |fds|
  {
    if fds == [] then st else AcceptAll(Accept(st, fds[0]), fds[1..])
  }

  // One client entry per polled client: missing reports are quiet ones.
  function PolledEntries(revents: seq<PollEntry>, clients: nat): (entries: seq<PollEntry>)
    ensures |entries| == clients
    ensures forall k :: 0 <= k < clients ==> entries[k] == EntryAt(revents, k)
  {
    seq(clients, k requires 0 <= k < clients => EntryAt(revents, k))
  }

  function LoopTop(st: State, turn: Turn): State {
    BroadcastChange(Prune(OnEvents(st, turn.pending)))
  }

  // The state after one turn, and whether the loop goes on.
  function OneTurn(st: State, turn: Turn): Served {
    var top := LoopTop(st, turn);
    match turn.poll
    case PollInterrupted => Served(top, true)
    case PollFailed => Served(top, false)
    case TimedOut => Served(top, true)
    case Ready(events, lost, fds, revents, io) =>
      if lost then Served(OnEvents(top, events), false)
      else
        var entries := PolledEntries(revents, |top.clients|);
        Served(ServePass(AcceptAll(OnEvents(top, events), fds), entries, io), true)
  }

  function Run(st: State, turns: seq<Turn>): State
    decreases |turns|
  {
    if turns == [] || !st.running then st
    else
      var one := OneTurn(st, turns[0]);
      if one.keep then Run(one.state, turns[1..]) else one.state
  }
}
