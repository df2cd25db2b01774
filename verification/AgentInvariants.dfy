// What every step of the window agent keeps, and what therefore holds over
// every run: the subscribers' view, the pairing of replies with requests, the
// conservation of output, and the lifetime of toplevel handles.
module AgentInvariants {
  import opened Text
  import opened Codec
  import opened Framing
  import opened Tasks
  import opened Agent
  import opened AgentReplies
  import opened Wrappers

  // ---- what holds of one connection ------------------------------------------

  function Queued(units: seq<Unit>): seq<string> {
    if units == [] then [] else units[0].lines + Queued(units[1..])
  }

  // The lines replied to, in order, and the handled lines that carry a command.
  function Replied(units: seq<Unit>): seq<string> {
    if units == [] then []
    else (if units[0].Reply? then [units[0].request] else []) + Replied(units[1..])
  }

  function Commands(lines: seq<string>): seq<string> {
    if lines == [] then []
    else (if CommandIn(lines[0]).Nothing? then [] else [lines[0]]) + Commands(lines[1..])
  }

  predicate Subscribed(lines: seq<string>) {
    exists k :: 0 <= k < |lines| && CommandIn(lines[k]).Subscribe?
  }

  ghost predicate UnitsOk(units: seq<Unit>) {
    forall k :: 0 <= k < |units| ==> UnitOk(units[k])
  }

  // Nothing queued is lost, repeated or reordered on its way to the socket.
  ghost predicate OutputOk(c: Client) {
    c.written + c.output == Wire(Queued(c.units))
  }

  // One reply per command, in the order of the commands; snapshots besides
  // replies only for clients that subscribed.
  ghost predicate RepliesOk(c: Client) {
    && Replied(c.units) == Commands(c.handled)
    && UnitsOk(c.units)
    && (c.subscribed <==> Subscribed(c.handled))
    && (!c.subscribed ==> forall k :: 0 <= k < |c.units| ==> c.units[k].Reply?)
  }

  // Lines handled and bytes buffered account for all bytes received; no line
  // was longer than the buffer allows.
  ghost predicate InputOk(c: Client) {
    && c.handled + StripAll(Lines(c.input)) == StripAll(Lines(c.received))
    && Residue(c.input) == Residue(c.received)
    && |c.input| <= MAX_LINE
    && forall k :: 0 <= k < |c.handled| ==> |c.handled[k]| < 4096
  }

  ghost predicate ClientOk(c: Client) {
    OutputOk(c) && RepliesOk(c) && InputOk(c)
  }

  // Between two reads no complete line is left in the buffer.
  ghost predicate AtRest(c: Client) {
    Free('\n', c.input)
  }

  // What a reader of everything queued so far holds as the last snapshot.
  function LastSnapshot(c: Client): Option<seq<TaskView>> {
    ObserveAll(NOTHING_READ, Queued(c.units)).last
  }

  ghost predicate ClientsOk(st: State) {
    forall i :: 0 <= i < |st.clients| ==> ClientOk(st.clients[i])
  }

  ghost predicate AllAtRest(st: State) {
    forall i :: 0 <= i < |st.clients| ==> AtRest(st.clients[i])
  }

  // The subscribers' view: with no change outstanding, the last snapshot queued
  // to each subscriber reads as exactly the open tasks.
  ghost predicate Coherent(st: State) {
    !st.changed ==>
      forall i :: 0 <= i < |st.clients| && st.clients[i].subscribed ==>
        LastSnapshot(st.clients[i]) == Some(View(st.tasks))
  }

  // ---- what holds of the compositor connection ------------------------------------

  ghost predicate IsNew(log: seq<Entry>, handle: nat) {
    exists id :: New(handle, id) in log
  }

  // A request is in order after `before`: its handle was announced and not yet
  // destroyed, and it is destroyed exactly if its `closed` event came.
  ghost predicate SafeAfter(before: seq<Entry>, q: Request) {
    && IsNew(before, q.handle)
    && Sent(Destroy(q.handle)) !in before
    && (q.Destroy? <==> Gone(q.handle) in before)
  }

  ghost predicate SafeLog(log: seq<Entry>) {
    forall k :: 0 <= k < |log| && log[k].Sent? ==> SafeAfter(log[..k], log[k].request)
  }

  // Ids are given out in increasing order, each to a new handle.
  ghost predicate IdsOk(log: seq<Entry>, nextId: nat) {
    && (forall k :: 0 <= k < |log| && log[k].New? ==> 0 < log[k].id < nextId)
    && (forall j, k :: 0 <= j < k < |log| && log[j].New? && log[k].New? ==>
          log[j].id < log[k].id && log[j].handle != log[k].handle)
  }

  ghost predicate TaskOk(t: TaskInfo, log: seq<Entry>) {
    && New(t.handle, t.id) in log
    && Sent(Destroy(t.handle)) !in log
    && (t.closed <==> Gone(t.handle) in log)
  }

  predicate Tracked(tasks: seq<TaskInfo>, handle: nat) {
    exists i :: 0 <= i < |tasks| && tasks[i].handle == handle
  }

  predicate DistinctHandles(tasks: seq<TaskInfo>) {
    forall i, j :: 0 <= i < j < |tasks| ==> tasks[i].handle != tasks[j].handle
  }

  // Every announced handle is tracked until it is destroyed: none leaks.
  ghost predicate NoLeak(st: State) {
    forall handle :: IsNew(st.log, handle) ==> Tracked(st.tasks, handle) || Sent(Destroy(handle)) in st.log
  }

  ghost predicate HandlesOk(st: State) {
    && SafeLog(st.log)
    && IdsOk(st.log, st.nextId)
    && (forall i :: 0 <= i < |st.tasks| ==> TaskOk(st.tasks[i], st.log))
    && Ascending(st.tasks) && DistinctHandles(st.tasks)
    && (forall handle :: Gone(handle) in st.log ==> IsNew(st.log, handle))
    && NoLeak(st)
  }

  ghost predicate NumberedBelow(st: State) {
    forall i :: 0 <= i < |st.tasks| ==> 0 < st.tasks[i].id < st.nextId
  }

  // The invariant without the handles needs nothing of the compositor.
  ghost predicate Inv(st: State) {
    ClientsOk(st) && AllAtRest(st) && Coherent(st) && NumberedBelow(st) && st.nextId > 0 && Ascending(st.tasks)
  }

  // What the handles need of a compositor event: a toplevel event brings a new
  // handle, and `done` does not follow `closed`.  The protocol guarantees more:
  // no event at all follows `closed`.
  ghost predicate Legal(st: State, e: Event) {
    match e
    case Toplevel(handle) => !IsNew(st.log, handle)
    case Finished => true
    case OnTask(i, te) => i < |st.tasks| && te.Done? ==> Gone(st.tasks[i].handle) !in st.log
  }

  // ---- appending to histories ------------------------------------------------------

  lemma {:induction false} QueuedSnoc(units: seq<Unit>, u: Unit)
    ensures Queued(units + [u]) == Queued(units) + u.lines
    ensures Replied(units + [u]) == Replied(units) + if u.Reply? then [u.request] else []
  {
    if units == [] {
      assert units + [u] == [u];
      assert Queued([u][1..]) == [] && Replied([u][1..]) == [];
    } else {
      assert (units + [u])[1..] == units[1..] + [u];
      QueuedSnoc(units[1..], u);
      Assoc(units[0].lines, Queued(units[1..]), u.lines);
    }
  }

  lemma {:induction false} CommandsSnoc(lines: seq<string>, line: string)
    ensures Commands(lines + [line]) == Commands(lines) + if CommandIn(line).Nothing? then [] else [line]
  {
    hide CommandOf, SplitTabs;
    if lines == [] {
      assert lines + [line] == [line];
      assert Commands([line][1..]) == [];
    } else {
      assert (lines + [line])[1..] == lines[1..] + [line];
      CommandsSnoc(lines[1..], line);
    }
  }

  lemma {:induction false} UnitsRead(units: seq<Unit>, r: Reader)
    requires UnitsOk(units) && r.pending.None?
    ensures ObserveAll(r, Queued(units)).pending.None?
    ensures AllFree('\n', Queued(units))
    decreases |units|
  {
    hide Observe, UnitOk;
    if units != [] {
      hide ObserveAll;
      UnitRead(units[0], r);
      ObserveAppend(r, units[0].lines, Queued(units[1..]));
      UnitsRead(units[1..], ObserveAll(r, units[0].lines));
    }
  }

  // One more unit at the end of a client's queue, as its reader sees it.
  lemma LastAfter(units: seq<Unit>, u: Unit, tasks: seq<TaskInfo>)
    requires UnitsOk(units) && UnitOk(u)
    ensures u.Reply? && !WantsSnapshot(CommandIn(u.request)) ==>
      ObserveAll(NOTHING_READ, Queued(units + [u])).last == ObserveAll(NOTHING_READ, Queued(units)).last
    ensures u.lines == SnapshotLines(tasks) && Numbered(tasks) ==>
      ObserveAll(NOTHING_READ, Queued(units + [u])).last == Some(View(tasks))
  {
    hide UnitOk, Observe, ObserveAll, Queued, CommandOf, SnapshotLines, SplitTabs, View;
    QueuedSnoc(units, u);
    UnitsRead(units, NOTHING_READ);
    var r := ObserveAll(NOTHING_READ, Queued(units));
    ObserveAppend(NOTHING_READ, Queued(units), u.lines);
    UnitRead(u, r);
    if u.lines == SnapshotLines(tasks) && Numbered(tasks) {
      SnapshotRead(tasks, r);
    }
  }

  // Bytes a client read from a drained queue are the lines queued to it.
  lemma DrainedBytes(c: Client)
    requires ClientOk(c) && c.output == ""
    ensures Lines(c.written) == Queued(c.units) && Residue(c.written) == ""
  {
    UnitsRead(c.units, NOTHING_READ);
    LinesOfWire(Queued(c.units));
    assert c.written + c.output == c.written;
  }

  // ---- what each step keeps: connections ---------------------------------------------

  lemma {:induction false} CommandsSubscribed(lines: seq<string>, line: string)
    ensures Subscribed(lines + [line]) <==> Subscribed(lines) || CommandIn(line).Subscribe?
  {
    hide CommandOf, SplitTabs;
    var all := lines + [line];
    if Subscribed(lines) {
      var k :| 0 <= k < |lines| && CommandIn(lines[k]).Subscribe?;
      assert all[k] == lines[k];
    }
    assert all[|lines|] == line;
  }

  // Queueing the answer to a line keeps output and replies in order.
  lemma AnsweredKeeps(c: Client, line: string, tasks: seq<TaskInfo>, seat: bool)
    requires OutputOk(c) && RepliesOk(c) && Numbered(tasks)
    ensures var d := Answered(c, line, Respond(tasks, seat, line));
      && OutputOk(d) && RepliesOk(d)
      && (d.subscribed && !c.subscribed ==> LastSnapshot(d) == Some(View(tasks)))
      && (LastSnapshot(c) == Some(View(tasks)) ==> LastSnapshot(d) == Some(View(tasks)))
  {
    hide Respond, CommandOf, SplitTabs, SnapshotLines, Observe, ObserveAll, View, UnitOk;
    var a := Respond(tasks, seat, line);
    RespondShape(tasks, seat, line);
    CommandsSnoc(c.handled, line);
    CommandsSubscribed(c.handled, line);
    if a.lines == [] {
      assert c.output + Wire(a.lines) == c.output;
    } else {
      var u := Reply(line, a.lines);
      AnsweredUnit(c, u);
      QueuedSnoc(c.units, u);
      AnsweredRead(c, line, tasks, seat);
      hide Queued, Commands, Subscribed, Wire;
    }
  }

  lemma AnsweredRead(c: Client, line: string, tasks: seq<TaskInfo>, seat: bool)
    requires UnitsOk(c.units) && Numbered(tasks) && !CommandIn(line).Nothing?
    ensures var r := LastSnapshot(c.(units := c.units + [Reply(line, Respond(tasks, seat, line).lines)]));
      && (CommandIn(line).Subscribe? ==> r == Some(View(tasks)))
      && (LastSnapshot(c) == Some(View(tasks)) ==> r == Some(View(tasks)))
  {
    hide Respond, CommandOf, SplitTabs, SnapshotLines, Observe, ObserveAll, View, UnitOk, Queued;
    RespondShape(tasks, seat, line);
    RespondCases(tasks, seat, line);
    LastAfter(c.units, Reply(line, Respond(tasks, seat, line).lines), tasks);
  }

  lemma AnsweredUnit(c: Client, u: Unit)
    requires OutputOk(c)
    ensures OutputOk(Push(c, u))
  {
    QueuedSnoc(c.units, u);
    WireAppend(Queued(c.units), u.lines);
    Assoc(c.written, c.output, Wire(u.lines));
  }

  lemma PushSnapshotKeeps(c: Client, tasks: seq<TaskInfo>)
    requires ClientOk(c) && Numbered(tasks)
    ensures ClientOk(PushSnapshot(c, tasks))
    ensures c.subscribed ==> LastSnapshot(PushSnapshot(c, tasks)) == Some(View(tasks))
    ensures PushSnapshot(c, tasks).input == c.input && PushSnapshot(c, tasks).subscribed == c.subscribed
  {
    hide CommandOf, SplitTabs, SnapshotLines, Observe, ObserveAll, View;
    var u := Broadcast(SnapshotLines(tasks));
    AnsweredUnit(c, u);
    QueuedSnoc(c.units, u);
    LastAfter(c.units, u, tasks);
  }

  // Taking the first complete line out of the buffer and handling it.
  lemma FirstLineKeeps(c: Client, at: nat)
    requires InputOk(c) && at < |c.input| && c.input[at] == '\n' && Free('\n', c.input[..at])
    ensures var d := c.(input := c.input[at + 1..], handled := c.handled + [StripCr(c.input[..at])]); InputOk(d)
  {
    var line, rest := c.input[..at], c.input[at + 1..];
    assert c.input == line + ['\n'] + rest;
    LinesOfFirst(line, rest);
    hide Lines, Residue, StripCr;
    assert StripAll([line] + Lines(rest)) == [StripCr(line)] + StripAll(Lines(rest));
    Assoc(c.handled, [StripCr(line)], StripAll(Lines(rest)));
    StripShorter(line);
  }

  lemma StripShorter(line: string)
    ensures |StripCr(line)| <= |line|
  {
  }

  lemma HandleFirstClient(st: State, i: nat)
    requires i < |st.clients| && ClientOk(st.clients[i]) && Numbered(st.tasks)
    requires !Free('\n', st.clients[i].input)
    ensures var c, d := st.clients[i], HandleFirst(st, i).clients[i];
      && ClientOk(d)
      && (d.subscribed && !c.subscribed ==> LastSnapshot(d) == Some(View(st.tasks)))
      && (LastSnapshot(c) == Some(View(st.tasks)) ==> LastSnapshot(d) == Some(View(st.tasks)))
      && (c.subscribed ==> d.subscribed)
  {
    hide Respond, StripCr, Lines, Residue, OutputOk, RepliesOk, InputOk, LastSnapshot, View, Wire;
    var c := st.clients[i];
    var at := FirstNewline(c.input);
    var line := StripCr(c.input[..at]);
    var e := c.(input := c.input[at + 1..]);
    FirstLineKeeps(c, at);
    SameQueue(c, e);
    AnsweredKeeps(e, line, st.tasks, st.seat);
    var taken := c.(input := c.input[at + 1..], handled := c.handled + [line]);
    SameInput(taken, Answered(e, line, Respond(st.tasks, st.seat, line)));
  }

  // Handling a line changes one client and the compositor traffic only.
  lemma HandleFirstFrame(st: State, i: nat)
    requires i < |st.clients| && !Free('\n', st.clients[i].input)
    ensures SameServer(st, HandleFirst(st, i)) && OthersSame(st, HandleFirst(st, i), i)
  {
    hide Respond, Wire, StripCr;
  }

  lemma HandleFirstKeeps(st: State, i: nat)
    requires i < |st.clients| && ClientsOk(st) && Coherent(st) && NumberedBelow(st)
    requires !Free('\n', st.clients[i].input)
    ensures ClientsOk(HandleFirst(st, i)) && Coherent(HandleFirst(st, i))
  {
    HandleFirstClient(st, i);
    HandleFirstFrame(st, i);
    hide ClientOk, HandleFirst, LastSnapshot, View;
  }

  lemma SameQueue(c: Client, e: Client)
    requires OutputOk(c) && RepliesOk(c)
    requires e == c.(input := e.input, received := e.received)
    ensures OutputOk(e) && RepliesOk(e) && LastSnapshot(e) == LastSnapshot(c)
  {
    hide UnitsOk, Replied, Commands, Subscribed;
  }

  lemma SameInput(c: Client, d: Client)
    requires InputOk(c) && d.input == c.input && d.received == c.received && d.handled == c.handled
    ensures InputOk(d)
  {
    hide Lines, Residue, StripAll;
  }

  // What no step of a visit touches.
  predicate SameServer(st: State, r: State) {
    && r.tasks == st.tasks && r.changed == st.changed && r.nextId == st.nextId
    && r.running == st.running && r.seat == st.seat
  }

  predicate OthersSame(st: State, r: State, i: nat) {
    && |r.clients| == |st.clients|
    && forall k :: 0 <= k < |st.clients| && k != i ==> r.clients[k] == st.clients[k]
  }

  lemma {:induction false} DrainKeeps(st: State, i: nat)
    requires i < |st.clients| && ClientsOk(st) && Coherent(st) && NumberedBelow(st)
    ensures var r := Drain(st, i);
      && ClientsOk(r) && Coherent(r) && AtRest(r.clients[i])
      && SameServer(st, r) && OthersSame(st, r, i)
    decreases |st.clients[i].input|
  {
    hide ClientsOk, Coherent, HandleFirst;
    if !Free('\n', st.clients[i].input) {
      HandleFirstKeeps(st, i);
      HandleFirstFrame(st, i);
      DrainKeeps(HandleFirst(st, i), i);
    }
  }

  lemma BufferKeeps(st: State, i: nat, chunk: Chunk)
    requires i < |st.clients| && ClientsOk(st) && AtRest(st.clients[i]) && Coherent(st)
    requires |st.clients[i].input + chunk| <= MAX_LINE
    ensures ClientsOk(Buffer(st, i, chunk)) && Coherent(Buffer(st, i, chunk))
  {
    hide OutputOk, RepliesOk, LastSnapshot, View;
    var c := st.clients[i];
    var d := Buffer(st, i, chunk).clients[i];
    SameQueue(c, d);
    ResidueOfFree(c.input);
    LinesAppend(c.received, chunk);
    hide Lines, Residue;
    assert c.handled + StripAll([]) == c.handled;
    assert c.input + chunk == d.input;
    assert StripAll(Lines(c.received) + Lines(d.input)) == StripAll(Lines(c.received)) + StripAll(Lines(d.input));
  }

  lemma {:induction false} ReadKeeps(st: State, i: nat, results: seq<Read>)
    requires i < |st.clients| && Inv(st)
    ensures var r := ReadClient(st, i, results);
      SameServer(st, r.state) && OthersSame(st, r.state, i) && (r.keep ==> Inv(r.state))
    decreases |results|
  {
    hide ClientOk, LastSnapshot, View, Drain;
    if results != [] {
      match results[0]
      case Data(chunk) =>
        var buffered := Buffer(st, i, chunk);
        if |buffered.clients[i].input| <= MAX_LINE {
          BufferKeeps(st, i, chunk);
          DrainKeeps(buffered, i);
          ReadKeeps(Drain(buffered, i), i, results[1..]);
        }
      case ReadInterrupted => ReadKeeps(st, i, results[1..]);
      case _ =>
    }
  }

  lemma WroteClient(c: Client, n: nat)
    requires ClientOk(c) && n <= |c.output|
    ensures var d := Wrote(c, n);
      ClientOk(d) && LastSnapshot(d) == LastSnapshot(c) && d.subscribed == c.subscribed && d.input == c.input
  {
    hide Queued, UnitsOk, Replied, Commands, Subscribed, Observe, ObserveAll, Lines, Residue;
    assert c.output == c.output[..n] + c.output[n..];
    Assoc(c.written, c.output[..n], c.output[n..]);
  }

  lemma WroteKeeps(st: State, i: nat, n: nat, d: Client)
    requires i < |st.clients| && Inv(st) && n <= |st.clients[i].output| && d == Wrote(st.clients[i], n)
    ensures Inv(st.(clients := st.clients[i := d]))
  {
    hide ClientOk, LastSnapshot, View, Wrote;
    WroteClient(st.clients[i], n);
  }

  // The bytes a socket takes in successive writes, until one takes none, would
  // block or fails; and whether it is the end of the connection that stops them.
  function Taking(results: seq<Write>): nat
    decreases |results|
  {
    if results == [] then 0
    else match results[0]
      case Took(n) => if n == 0 then 0 else n + Taking(results[1..])
      case WriteInterrupted => Taking(results[1..])
      case WriteBlocked => 0
      case WriteFailed => 0
  }

  predicate Breaks(results: seq<Write>)
    decreases |results|
  {
    results != [] &&
    match results[0]
    case Took(n) => n == 0 || Breaks(results[1..])
    case WriteInterrupted => Breaks(results[1..])
    case WriteBlocked => false
    case WriteFailed => true
  }

  // The client with the first `k` bytes of its output gone to the socket.
  predicate Flushed(c: Client, d: Client, k: nat) {
    k <= |c.output| && d == c.(output := c.output[k..], written := c.written + c.output[..k])
  }

  lemma FlushedTwice(c: Client, d: Client, e: Client, a: nat, b: nat)
    requires Flushed(c, d, a) && Flushed(d, e, b)
    ensures Flushed(c, e, a + b)
  {
    assert c.output[..a] + c.output[a..][..b] == c.output[..a + b];
    assert c.output[a..][b..] == c.output[a + b..];
    Assoc(c.written, c.output[..a], c.output[a..][..b]);
  }

  lemma FlushedOnce(c: Client, k: nat)
    requires k <= |c.output|
    ensures Flushed(c, Wrote(c, k), k) && |Wrote(c, k).output| == |c.output| - k
    ensures Flushed(c, c, 0)
  {
    assert c.output[0..] == c.output && c.written + c.output[..0] == c.written;
  }

  // For any outcomes of its writes: exactly the bytes the socket took, at most all
  // there are, leave the front of the output; and the client goes exactly if
  // the writes break while output is left.
  lemma {:induction false} FlushTakes(st: State, i: nat, results: seq<Write>)
    requires i < |st.clients|
    ensures var c, r := st.clients[i], FlushClient(st, i, results);
      && Flushed(c, r.state.clients[i], Min(|c.output|, Taking(results)))
      && r.state.log == st.log
      && (r.keep <==> !Breaks(results) || Taking(results) >= |c.output|)
    decreases |results|
  {
    hide Flushed, Wrote;
    var c := st.clients[i];
    FlushedOnce(c, 0);
    if c.output != "" && results != [] {
      match results[0]
      case Took(n) =>
        var count := Min(n, |c.output|);
        if count != 0 {
          var d := Wrote(c, count);
          var next := st.(clients := st.clients[i := d]);
          FlushedOnce(c, count);
          FlushTakes(next, i, results[1..]);
          FlushedTwice(c, d, FlushClient(next, i, results[1..]).state.clients[i],
                       count, Min(|d.output|, Taking(results[1..])));
        }
      case WriteInterrupted => FlushTakes(st, i, results[1..]);
      case _ =>
    }
  }

  lemma {:induction false} FlushKeeps(st: State, i: nat, results: seq<Write>)
    requires i < |st.clients| && Inv(st)
    ensures var r := FlushClient(st, i, results);
      SameServer(st, r.state) && OthersSame(st, r.state, i) && Inv(r.state)
    decreases |results|
  {
    hide Inv, Wrote;
    var c := st.clients[i];
    if c.output != "" && results != [] {
      match results[0]
      case Took(n) =>
        var count := Min(n, |c.output|);
        if count != 0 {
          WroteKeeps(st, i, count, Wrote(c, count));
          FlushKeeps(st.(clients := st.clients[i := Wrote(c, count)]), i, results[1..]);
        }
      case WriteInterrupted => FlushKeeps(st, i, results[1..]);
      case _ =>
    }
  }

  // A visit keeps the invariant; only the visited client changes or goes.
  lemma VisitKeeps(st: State, i: nat, entry: PollEntry, io: Io)
    requires i < |st.clients| && Inv(st)
    ensures Inv(Visit(st, i, entry, io)) && SameServer(st, Visit(st, i, entry, io))
    ensures OthersSame(st, Serve(st, i, entry, io).state, i)
  {
    hide ClientOk, LastSnapshot, View, ReadClient, FlushClient;
    if !entry.error {
      var read := if entry.readable then ReadClient(st, i, io.readResults) else Served(st, true);
      if entry.readable {
        ReadKeeps(st, i, io.readResults);
      }
      if read.keep && entry.writable {
        FlushKeeps(read.state, i, io.writeResults);
      }
    }
    DropKeeps(st, Serve(st, i, entry, io).state, i);
  }

  lemma DropKeeps(st: State, r: State, i: nat)
    requires i < |st.clients| && Inv(st) && SameServer(st, r) && OthersSame(st, r, i)
    ensures Inv(Drop(r, i))
  {
    hide ClientOk, LastSnapshot, View;
    var d := Drop(r, i);
    forall k | 0 <= k < |d.clients|
      ensures d.clients[k] == st.clients[if k < i then k else k + 1]
    {
    }
  }

  // ---- what each step keeps: tasks ------------------------------------------------

  lemma EventKeeps(st: State, e: Event)
    requires Inv(st)
    ensures Inv(OnEvent(st, e))
  {
    hide ClientOk, LastSnapshot, View;
  }

  // What the compositor said last about a task, found from the last event back.
  function LastTitle(events: seq<TaskEvent>): string {
    if events == [] || Last(events) == Title(None) then ""
    else if Last(events).Title? then Last(events).text.value
    else LastTitle(Init(events))
  }

  function LastAppId(events: seq<TaskEvent>): string {
    if events == [] || Last(events) == AppId(None) then ""
    else if Last(events).AppId? then Last(events).text.value
    else LastAppId(Init(events))
  }

  function LastStates(events: seq<TaskEvent>): seq<nat> {
    if events == [] then [] else if Last(events).States? then Last(events).entries else LastStates(Init(events))
  }

  predicate LastClosed(events: seq<TaskEvent>) {
    events != [] && (Last(events).Closed? || (!Last(events).Done? && LastClosed(Init(events))))
  }

  function AfterEvents(t: TaskInfo, events: seq<TaskEvent>): TaskInfo
    decreases |events|
  {
    if events == [] then t else AfterEvents(Changed(t, events[0]), events[1..])
  }

  lemma {:induction false} AfterSnoc(t: TaskInfo, events: seq<TaskEvent>, e: TaskEvent)
    ensures AfterEvents(t, events + [e]) == Changed(AfterEvents(t, events), e)
    decreases |events|
  {
    if events == [] {
      assert [e][1..] == [];
    } else {
      assert (events + [e])[1..] == events[1..] + [e];
      AfterSnoc(Changed(t, events[0]), events[1..], e);
    }
  }

  // A task tells what the compositor said last: after any events since it was
  // announced, its title and app id are those of the last such event, its flags
  // the members of the last state array, and it is closed if `closed` came last.
  // The numbers are the protocol's state entries.
  lemma {:induction false} TaskTellsLast(id: nat, handle: nat, events: seq<TaskEvent>)
    ensures var s := LastStates(events);
      AfterEvents(TaskInfo(id, handle, "", "", false, false, false, false, false), events)
      == TaskInfo(id, handle, LastAppId(events), LastTitle(events), 2 in s, 1 in s, 0 in s, 3 in s, LastClosed(events))
  {
    if events != [] {
      TaskTellsLast(id, handle, Init(events));
      AfterSnoc(TaskInfo(id, handle, "", "", false, false, false, false, false), Init(events), Last(events));
      assert Init(events) + [Last(events)] == events;
    }
  }

  // Pruning leaves the view as it is.
  lemma {:induction false} OpenTasksView(tasks: seq<TaskInfo>)
    ensures View(OpenTasks(tasks)) == View(tasks)
  {
    if tasks != [] {
      OpenTasksView(tasks[1..]);
      var rest := OpenTasks(tasks[1..]);
      if tasks[0].closed {
        assert OpenTasks(tasks) == rest;
      } else {
        assert ([tasks[0]] + rest)[1..] == rest;
      }
    }
  }

  // The open tasks are the tasks that are not closed, in their order.
  lemma {:induction false} OpenTasksIn(tasks: seq<TaskInfo>)
    ensures forall t :: t in OpenTasks(tasks) <==> t in tasks && !t.closed
  {
    if tasks != [] {
      OpenTasksIn(tasks[1..]);
      assert tasks == [tasks[0]] + tasks[1..];
    }
  }

  lemma {:induction false} OpenTasksAscend(tasks: seq<TaskInfo>)
    requires Ascending(tasks)
    ensures Ascending(OpenTasks(tasks))
  {
    if tasks != [] {
      OpenTasksAscend(tasks[1..]);
      OpenTasksIn(tasks[1..]);
      OpenTasksStep(tasks);
      hide OpenTasks;
      AscendingCons(tasks[0], OpenTasks(tasks[1..]));
    }
  }

  lemma AscendingCons(t: TaskInfo, rest: seq<TaskInfo>)
    requires Ascending(rest) && forall u :: u in rest ==> t.id < u.id
    ensures Ascending([t] + rest)
  {
  }

  lemma {:induction false} OpenTasksDistinct(tasks: seq<TaskInfo>)
    requires DistinctHandles(tasks)
    ensures DistinctHandles(OpenTasks(tasks))
  {
    if tasks != [] {
      var rest := tasks[1..];
      assert forall k :: 0 <= k < |rest| ==> rest[k] == tasks[k + 1];
      OpenTasksDistinct(rest);
      OpenTasksIn(rest);
      OpenTasksStep(tasks);
      hide OpenTasks;
      assert forall t :: t in rest ==> tasks[0].handle != t.handle;
      assert forall k :: 0 <= k < |OpenTasks(rest)| ==> OpenTasks(rest)[k] in rest;
    }
  }

  lemma OpenTasksStep(tasks: seq<TaskInfo>)
    requires tasks != []
    ensures OpenTasks(tasks) == if tasks[0].closed then OpenTasks(tasks[1..]) else [tasks[0]] + OpenTasks(tasks[1..])
  {
  }

  lemma PruneKeeps(st: State)
    requires Inv(st)
    ensures Inv(Prune(st))
  {
    OpenTasksView(st.tasks);
    OpenTasksIn(st.tasks);
    OpenTasksAscend(st.tasks);
    hide ClientOk, LastSnapshot, View, OpenTasks;
    var open := OpenTasks(st.tasks);
    assert forall k :: 0 <= k < |open| ==> open[k] in open;
  }

  lemma BroadcastKeeps(st: State)
    requires Inv(st)
    ensures Inv(BroadcastChange(st)) && !BroadcastChange(st).changed
  {
    hide ClientOk, LastSnapshot, View, PushSnapshot;
    if st.changed {
      forall i | 0 <= i < |st.clients|
        ensures var c, d := st.clients[i], PushSnapshot(st.clients[i], st.tasks);
          ClientOk(d) && AtRest(d) && (d.subscribed ==> LastSnapshot(d) == Some(View(st.tasks)))
      {
        PushSnapshotKeeps(st.clients[i], st.tasks);
      }
    }
  }

  lemma AcceptKeeps(st: State, fd: nat)
    requires Inv(st)
    ensures Inv(Accept(st, fd))
  {
    NewClientOk(fd);
    hide ClientOk, LastSnapshot, View, NewClient;
  }

  lemma NewClientOk(fd: nat)
    ensures ClientOk(NewClient(fd)) && AtRest(NewClient(fd)) && !NewClient(fd).subscribed
  {
    ResidueOfFree("");
  }
}
