// Toplevel handles over the agent's steps, and the two main results over every
// reachable state and every run of the main loop.
module AgentRuns {
  import opened Text
  import opened Framing
  import opened Tasks
  import opened Agent
  import opened AgentReplies
  import opened AgentInvariants
  import opened Wrappers

  // ---- handles: what one more entry in the traffic keeps ----------------------------

  lemma SafeLogSnoc(log: seq<Entry>, e: Entry)
    requires SafeLog(log)
    requires e.Sent? ==> SafeAfter(log, e.request)
    ensures SafeLog(log + [e])
  {
    hide SafeAfter;
    var all := log + [e];
    forall k | 0 <= k < |all| && all[k].Sent?
      ensures SafeAfter(all[..k], all[k].request)
    {
      if k < |log| {
        assert all[..k] == log[..k];
      } else {
        assert all[..k] == log;
      }
    }
  }

  lemma DestroyedIsNew(log: seq<Entry>, handle: nat)
    requires SafeLog(log) && Sent(Destroy(handle)) in log
    ensures IsNew(log, handle)
  {
    var k :| 0 <= k < |log| && log[k] == Sent(Destroy(handle));
    assert SafeAfter(log[..k], log[k].request);
    var id :| New(handle, id) in log[..k];
    assert New(handle, id) in log;
  }

  lemma ToplevelHandles(st: State, handle: nat)
    requires HandlesOk(st) && NumberedBelow(st) && st.nextId > 0 && Legal(st, Toplevel(handle))
    ensures HandlesOk(OnEvent(st, Toplevel(handle)))
  {
    var e := New(handle, st.nextId);
    var r := OnEvent(st, Toplevel(handle));
    SafeLogSnoc(st.log, e);
    assert e in r.log;
    assert Sent(Destroy(handle)) !in st.log by {
      if Sent(Destroy(handle)) in st.log {
        DestroyedIsNew(st.log, handle);
      }
    }
    forall h
      ensures IsNew(r.log, h) <==> IsNew(st.log, h) || h == handle
    {
      if IsNew(st.log, h) {
        var id :| New(h, id) in st.log;
        assert New(h, id) in r.log;
      }
      assert h == handle ==> IsNew(r.log, h);
    }
    hide SafeLog, Legal;
    ToplevelTracked(st, handle);
    ToplevelIds(st, handle);
  }

  lemma ToplevelIds(st: State, handle: nat)
    requires IdsOk(st.log, st.nextId) && !IsNew(st.log, handle) && st.nextId > 0
    ensures IdsOk(st.log + [New(handle, st.nextId)], st.nextId + 1)
  {
    forall k | 0 <= k < |st.log| && st.log[k].New?
      ensures st.log[k].handle != handle
    {
      assert New(st.log[k].handle, st.log[k].id) in st.log;
    }
  }

  lemma ToplevelTracked(st: State, handle: nat)
    ensures var r := OnEvent(st, Toplevel(handle));
      forall h :: Tracked(st.tasks, h) || h == handle ==> Tracked(r.tasks, h)
  {
    var r := OnEvent(st, Toplevel(handle));
    assert r.tasks[|st.tasks|].handle == handle;
    forall h | Tracked(st.tasks, h)
      ensures Tracked(r.tasks, h)
    {
      var i :| 0 <= i < |st.tasks| && st.tasks[i].handle == h;
      assert r.tasks[i].handle == h;
    }
  }

  // One task changed, and with it at most that its handle is now gone.
  lemma OneTaskHandles(st: State, i: nat, t: TaskInfo, log: seq<Entry>)
    requires HandlesOk(st) && i < |st.tasks|
    requires t.handle == st.tasks[i].handle && t.id == st.tasks[i].id
    requires t.closed <==> Gone(t.handle) in log
    requires log == st.log || log == st.log + [Gone(t.handle)]
    ensures HandlesOk(st.(tasks := st.tasks[i := t], log := log))
  {
    hide SafeLog, IdsOk, IsNew, Tracked, Ascending, DistinctHandles;
    var r := st.(tasks := st.tasks[i := t], log := log);
    var e := Gone(t.handle);
    SafeLogSnoc(st.log, e);
    IdsSnoc(st.log, e, st.nextId);
    OrderSame(st.tasks, i, t);
    forall h
      ensures IsNew(log, h) <==> IsNew(st.log, h)
      ensures Tracked(r.tasks, h) <==> Tracked(st.tasks, h)
    {
      NewSame(st.log, e, h);
      TrackedSame(st.tasks, i, t, h);
    }
    TasksStayOk(st, i, t, log);
    assert TaskOk(st.tasks[i], st.log);
    AnnouncedIsNew(st.log, t.handle, t.id);
    hide TaskOk;
  }

  lemma AnnouncedIsNew(log: seq<Entry>, handle: nat, id: nat)
    requires New(handle, id) in log
    ensures IsNew(log, handle)
  {
  }

  lemma OrderSame(tasks: seq<TaskInfo>, i: nat, t: TaskInfo)
    requires i < |tasks| && t.handle == tasks[i].handle && t.id == tasks[i].id
    requires Ascending(tasks) && DistinctHandles(tasks)
    ensures Ascending(tasks[i := t]) && DistinctHandles(tasks[i := t])
  {
  }

  lemma TasksStayOk(st: State, i: nat, t: TaskInfo, log: seq<Entry>)
    requires i < |st.tasks| && t.handle == st.tasks[i].handle && t.id == st.tasks[i].id
    requires forall k :: 0 <= k < |st.tasks| ==> TaskOk(st.tasks[k], st.log)
    requires DistinctHandles(st.tasks)
    requires t.closed <==> Gone(t.handle) in log
    requires log == st.log || log == st.log + [Gone(t.handle)]
    ensures var tasks := st.tasks[i := t]; forall k :: 0 <= k < |tasks| ==> TaskOk(tasks[k], log)
  {
    var tasks := st.tasks[i := t];
    forall k | 0 <= k < |tasks|
      ensures TaskOk(tasks[k], log)
    {
      assert TaskOk(st.tasks[k], st.log);
      assert k != i ==> st.tasks[k].handle != t.handle;
    }
  }

  lemma TaskEventHandles(st: State, i: nat, te: TaskEvent)
    requires HandlesOk(st) && Legal(st, OnTask(i, te))
    ensures HandlesOk(OnEvent(st, OnTask(i, te)))
  {
    if i < |st.tasks| {
      assert TaskOk(st.tasks[i], st.log);
      OneTaskHandles(st, i, Changed(st.tasks[i], te), OnEvent(st, OnTask(i, te)).log);
      hide HandlesOk;
    }
  }

  lemma NewSame(log: seq<Entry>, e: Entry, h: nat)
    requires !e.New?
    ensures IsNew(log + [e], h) <==> IsNew(log, h)
  {
    if IsNew(log, h) {
      var id :| New(h, id) in log;
      assert New(h, id) in log + [e];
    }
  }

  lemma TrackedSame(tasks: seq<TaskInfo>, i: nat, t: TaskInfo, h: nat)
    requires i < |tasks| && t.handle == tasks[i].handle
    ensures Tracked(tasks[i := t], h) <==> Tracked(tasks, h)
  {
    var other := tasks[i := t];
    assert forall k :: 0 <= k < |tasks| ==> other[k].handle == tasks[k].handle;
  }

  lemma IdsSnoc(log: seq<Entry>, e: Entry, nextId: nat)
    requires IdsOk(log, nextId) && !e.New?
    ensures IdsOk(log + [e], nextId)
  {
  }

  lemma EventHandles(st: State, e: Event)
    requires HandlesOk(st) && NumberedBelow(st) && st.nextId > 0 && Legal(st, e)
    ensures HandlesOk(OnEvent(st, e))
  {
    match e
    case Toplevel(handle) => ToplevelHandles(st, handle);
    case Finished => SameHandles(st, OnEvent(st, e));
    case OnTask(i, te) => TaskEventHandles(st, i, te);
  }

  // Exactly the events that are not legal put the handles in disorder.
  lemma EventHandlesIff(st: State, e: Event)
    requires HandlesOk(st) && NumberedBelow(st) && st.nextId > 0
    ensures HandlesOk(OnEvent(st, e)) <==> Legal(st, e)
  {
    if Legal(st, e) {
      EventHandles(st, e);
    } else {
      var r := OnEvent(st, e);
      match e
      case Toplevel(handle) =>
        var id :| New(handle, id) in st.log;
        var j :| 0 <= j < |st.log| && st.log[j] == New(handle, id);
        assert r.log[j] == st.log[j] && r.log[|st.log|] == New(handle, st.nextId);
        assert !IdsOk(r.log, r.nextId);
      case OnTask(i, te) =>
        assert !r.tasks[i].closed && Gone(r.tasks[i].handle) in r.log;
        assert !TaskOk(r.tasks[i], r.log);
    }
  }

  // And it matters: after a `done` for a closed toplevel, minimizing that task by
  // the id a snapshot shows for it sends a request to the closed handle.
  lemma DoneAfterClosed(st: State, i: nat)
    requires HandlesOk(st) && NumberedBelow(st)
    requires i < |st.tasks| && Gone(st.tasks[i].handle) in st.log
    ensures var r := OnEvent(st, OnTask(i, Done));
      var a := Respond(r.tasks, r.seat, ActionLine(DoMinimize, st.tasks[i].id));
      a.requests == [SetMinimized(st.tasks[i].handle)] && !SafeLog(r.log + SentAll(a.requests))
  {
    var r := OnEvent(st, OnTask(i, Done));
    ActionOnPrintedId(r.tasks, r.seat, i, st.tasks[i].id, DoMinimize);
    hide Respond, ActionLine;
    var all := r.log + SentAll([SetMinimized(st.tasks[i].handle)]);
    var k := |r.log|;
    assert all[k].Sent? && all[..k] == r.log;
    assert !SafeAfter(all[..k], all[k].request);
  }

  // Nothing but tasks, traffic and the next id matters to handles.
  lemma SameHandles(st: State, r: State)
    requires HandlesOk(st) && r.tasks == st.tasks && r.log == st.log && r.nextId == st.nextId
    ensures HandlesOk(r)
  {
    hide SafeLog, IdsOk, TaskOk, IsNew, Tracked;
  }

  // ---- handles: requests and pruning -------------------------------------------------

  ghost predicate OpenHandle(st: State, handle: nat) {
    exists k :: 0 <= k < |st.tasks| && !st.tasks[k].closed && st.tasks[k].handle == handle
  }

  lemma RequestHandles(st: State, q: Request)
    requires HandlesOk(st) && !q.Destroy? && OpenHandle(st, q.handle)
    ensures HandlesOk(st.(log := st.log + [Sent(q)]))
  {
    var e, r := Sent(q), st.(log := st.log + [Sent(q)]);
    var k :| 0 <= k < |st.tasks| && !st.tasks[k].closed && st.tasks[k].handle == q.handle;
    assert TaskOk(st.tasks[k], st.log);
    SafeLogSnoc(st.log, e);
    IdsSnoc(st.log, e, st.nextId);
    forall h
      ensures IsNew(r.log, h) <==> IsNew(st.log, h)
    {
      NewSame(st.log, e, h);
    }
    hide SafeLog, IdsOk, IsNew, Tracked;
  }

  lemma {:induction false} RequestsHandles(st: State, requests: seq<Request>)
    requires HandlesOk(st)
    requires forall q :: q in requests ==> !q.Destroy? && OpenHandle(st, q.handle)
    ensures HandlesOk(st.(log := st.log + SentAll(requests)))
    decreases |requests|
  {
    hide HandlesOk;
    if requests == [] {
      assert st.log + SentAll(requests) == st.log;
    } else {
      var next := st.(log := st.log + [Sent(requests[0])]);
      RequestHandles(st, requests[0]);
      assert forall q :: q in requests ==> OpenHandle(next, q.handle) by {
        forall q | q in requests
          ensures OpenHandle(next, q.handle)
        {
          assert OpenHandle(st, q.handle);
        }
      }
      RequestsHandles(next, requests[1..]);
      assert SentAll(requests) == [Sent(requests[0])] + SentAll(requests[1..]);
      Assoc(st.log, [Sent(requests[0])], SentAll(requests[1..]));
    }
  }

  lemma HandleFirstHandles(st: State, i: nat)
    requires i < |st.clients| && HandlesOk(st) && !Free('\n', st.clients[i].input)
    ensures HandlesOk(HandleFirst(st, i))
  {
    hide Respond, StripCr, Wire, HandlesOk;
    var at := FirstNewline(st.clients[i].input);
    var line := StripCr(st.clients[i].input[..at]);
    RequestsTargetOpen(st.tasks, st.seat, line);
    var requests := Respond(st.tasks, st.seat, line).requests;
    forall q | q in requests
      ensures !q.Destroy? && OpenHandle(st, q.handle)
    {
    }
    RequestsHandles(st, requests);
    SameHandles(st.(log := st.log + SentAll(requests)), HandleFirst(st, i));
  }

  lemma {:induction false} DrainHandles(st: State, i: nat)
    requires i < |st.clients| && HandlesOk(st)
    ensures HandlesOk(Drain(st, i))
    decreases |st.clients[i].input|
  {
    hide HandlesOk, HandleFirst;
    if !Free('\n', st.clients[i].input) {
      HandleFirstHandles(st, i);
      DrainHandles(HandleFirst(st, i), i);
    }
  }

  lemma {:induction false} ReadHandles(st: State, i: nat, results: seq<Read>)
    requires i < |st.clients| && HandlesOk(st)
    ensures HandlesOk(ReadClient(st, i, results).state)
    decreases |results|
  {
    hide HandlesOk, Drain;
    if results != [] {
      match results[0]
      case Data(chunk) =>
        var buffered := Buffer(st, i, chunk);
        SameHandles(st, buffered);
        DrainHandles(buffered, i);
        if |buffered.clients[i].input| <= MAX_LINE {
          ReadHandles(Drain(buffered, i), i, results[1..]);
        }
      case ReadInterrupted => ReadHandles(st, i, results[1..]);
      case _ =>
    }
  }

  lemma {:induction false} FlushHandles(st: State, i: nat, results: seq<Write>)
    requires i < |st.clients| && HandlesOk(st)
    ensures HandlesOk(FlushClient(st, i, results).state)
    decreases |results|
  {
    hide HandlesOk, Wrote;
    var c := st.clients[i];
    if c.output != "" && results != [] {
      match results[0]
      case Took(n) =>
        var count := Min(n, |c.output|);
        if count != 0 {
          var next := st.(clients := st.clients[i := Wrote(c, count)]);
          SameHandles(st, next);
          FlushHandles(next, i, results[1..]);
        }
      case WriteInterrupted => FlushHandles(st, i, results[1..]);
      case _ =>
    }
  }

  lemma VisitHandles(st: State, i: nat, entry: PollEntry, io: Io)
    requires i < |st.clients| && HandlesOk(st)
    ensures HandlesOk(Visit(st, i, entry, io))
  {
    hide HandlesOk, ReadClient, FlushClient;
    if !entry.error {
      var read := if entry.readable then ReadClient(st, i, io.readResults) else Served(st, true);
      ReadHandles(st, i, io.readResults);
      FlushHandles(read.state, i, io.writeResults);
    }
    var served := Serve(st, i, entry, io).state;
    SameHandles(served, Drop(served, i));
  }

  // Destroying the handles of the closed tasks, one by one.
  lemma {:induction false} DestroysSafe(log: seq<Entry>, tasks: seq<TaskInfo>)
    requires SafeLog(log) && DistinctHandles(tasks)
    requires forall i :: 0 <= i < |tasks| ==> TaskOk(tasks[i], log)
    ensures SafeLog(log + Destroys(tasks))
    decreases |tasks|
  {
    if tasks == [] {
      assert log + Destroys(tasks) == log;
    } else {
      var t, rest := tasks[0], tasks[1..];
      assert forall i :: 0 <= i < |rest| ==> rest[i] == tasks[i + 1];
      if t.closed {
        var e := Sent(Destroy(t.handle));
        assert TaskOk(t, log);
        SafeLogSnoc(log, e);
        forall i | 0 <= i < |rest|
          ensures TaskOk(rest[i], log + [e])
        {
          assert TaskOk(tasks[i + 1], log);
        }
        hide SafeLog, TaskOk;
        DestroysSafe(log + [e], rest);
        Assoc(log, [e], Destroys(rest));
      } else {
        assert Destroys(tasks) == Destroys(rest);
        DestroysSafe(log, rest);
      }
    }
  }

  lemma {:induction false} DestroysIn(tasks: seq<TaskInfo>)
    ensures forall e :: e in Destroys(tasks) <==>
      exists i :: 0 <= i < |tasks| && tasks[i].closed && e == Sent(Destroy(tasks[i].handle))
  {
    if tasks != [] {
      var rest := tasks[1..];
      DestroysIn(rest);
      assert forall i :: 0 <= i < |rest| ==> rest[i] == tasks[i + 1];
      forall e | e in Destroys(tasks)
        ensures exists i :: 0 <= i < |tasks| && tasks[i].closed && e == Sent(Destroy(tasks[i].handle))
      {
        if e in Destroys(rest) {
          var i :| 0 <= i < |rest| && rest[i].closed && e == Sent(Destroy(rest[i].handle));
          assert tasks[i + 1].closed;
        } else {
          assert tasks[0].closed;
        }
      }
    }
  }

  lemma {:induction false} IdsMore(log: seq<Entry>, more: seq<Entry>, nextId: nat)
    requires IdsOk(log, nextId) && forall k :: 0 <= k < |more| ==> !more[k].New?
    ensures IdsOk(log + more, nextId)
    ensures forall h :: IsNew(log + more, h) <==> IsNew(log, h)
    decreases |more|
  {
    if more == [] {
      assert log + more == log;
    } else {
      IdsSnoc(log, more[0], nextId);
      forall h
        ensures IsNew(log + [more[0]], h) <==> IsNew(log, h)
      {
        NewSame(log, more[0], h);
      }
      hide IdsOk, IsNew;
      IdsMore(log + [more[0]], more[1..], nextId);
      assert log + more == log + [more[0]] + more[1..];
    }
  }

  // One destroy for each closed task, in the order of the tasks, and what is kept
  // stays in order too.
  lemma {:induction false} PrunedInOrder(a: seq<TaskInfo>, t: TaskInfo, b: seq<TaskInfo>)
    ensures Destroys(a + [t] + b) == Destroys(a) + (if t.closed then [Sent(Destroy(t.handle))] else []) + Destroys(b)
    ensures OpenTasks(a + [t] + b) == OpenTasks(a) + (if t.closed then [] else [t]) + OpenTasks(b)
    decreases |a|
  {
    if a == [] {
      assert a + [t] + b == [t] + b && ([t] + b)[1..] == b;
    } else {
      assert (a + [t] + b)[0] == a[0] && (a + [t] + b)[1..] == a[1..] + [t] + b;
      PrunedInOrder(a[1..], t, b);
    }
  }

  lemma PrunedTracked(tasks: seq<TaskInfo>, handle: nat)
    requires Tracked(tasks, handle)
    ensures Tracked(OpenTasks(tasks), handle) || Sent(Destroy(handle)) in Destroys(tasks)
  {
    OpenTasksIn(tasks);
    DestroysIn(tasks);
    hide OpenTasks, Destroys;
    var i :| 0 <= i < |tasks| && tasks[i].handle == handle;
    if !tasks[i].closed {
      assert tasks[i] in OpenTasks(tasks);
      var k :| 0 <= k < |OpenTasks(tasks)| && OpenTasks(tasks)[k] == tasks[i];
    }
  }

  lemma PrunedTaskOk(st: State, t: TaskInfo)
    requires HandlesOk(st) && t in OpenTasks(st.tasks)
    ensures TaskOk(t, Prune(st).log)
  {
    OpenTasksIn(st.tasks);
    DestroysIn(st.tasks);
    hide OpenTasks, Destroys, SafeLog, IdsOk, IsNew, Tracked;
    var j :| 0 <= j < |st.tasks| && st.tasks[j] == t;
    assert TaskOk(st.tasks[j], st.log);
    assert Sent(Destroy(t.handle)) !in Destroys(st.tasks);
  }

  lemma PrunedOpen(st: State, t: TaskInfo)
    requires HandlesOk(st) && t in OpenTasks(st.tasks)
    ensures Gone(t.handle) !in st.log
  {
    OpenTasksIn(st.tasks);
    var j :| 0 <= j < |st.tasks| && st.tasks[j] == t;
    assert TaskOk(st.tasks[j], st.log);
  }

  lemma PruneHandles(st: State)
    requires HandlesOk(st)
    ensures HandlesOk(Prune(st))
    ensures forall handle :: Gone(handle) in st.log ==> Sent(Destroy(handle)) in Prune(st).log
  {
    var r := Prune(st);
    DestroysSafe(st.log, st.tasks);
    OpenTasksAscend(st.tasks);
    OpenTasksDistinct(st.tasks);
    DestroysIn(st.tasks);
    forall k | 0 <= k < |Destroys(st.tasks)|
      ensures !Destroys(st.tasks)[k].New? && !Destroys(st.tasks)[k].Gone?
    {
      assert Destroys(st.tasks)[k] in Destroys(st.tasks);
    }
    IdsMore(st.log, Destroys(st.tasks), st.nextId);
    forall i | 0 <= i < |r.tasks|
      ensures TaskOk(r.tasks[i], r.log)
    {
      PrunedTaskOk(st, r.tasks[i]);
    }
    forall handle | IsNew(r.log, handle)
      ensures Tracked(r.tasks, handle) || Sent(Destroy(handle)) in r.log
    {
      if Tracked(st.tasks, handle) {
        PrunedTracked(st.tasks, handle);
      }
    }
    forall handle | Gone(handle) in st.log
      ensures Sent(Destroy(handle)) in r.log
    {
      assert IsNew(r.log, handle);
      if Tracked(r.tasks, handle) {
        var i :| 0 <= i < |r.tasks| && r.tasks[i].handle == handle;
        PrunedOpen(st, r.tasks[i]);
        assert false;
      }
    }
    hide OpenTasks, Destroys, SafeLog, IdsOk, IsNew, Tracked, TaskOk;
  }

  // ---- reachable states ------------------------------------------------------------

  // The agent's steps, at the grain at which other steps can come between.
  datatype Step =
    | EventStep(event: Event)
    | PruneStep
    | BroadcastStep
    | AcceptStep(fd: nat)
    | VisitStep(index: nat, entry: PollEntry, io: Io)

  function Apply(st: State, s: Step): State {
    match s
    case EventStep(e) => OnEvent(st, e)
    case PruneStep => Prune(st)
    case BroadcastStep => BroadcastChange(st)
    case AcceptStep(fd) => Accept(st, fd)
    case VisitStep(i, entry, io) => if i < |st.clients| then Visit(st, i, entry, io) else st
  }

  function ApplyAll(st: State, steps: seq<Step>): State
    decreases |steps|
  {
    if steps == [] then st else ApplyAll(Apply(st, steps[0]), steps[1..])
  }

  // Every compositor event on the way obeys the protocol.
  ghost predicate LegalSteps(st: State, steps: seq<Step>)
    decreases |steps|
  {
    steps == [] || ((steps[0].EventStep? ==> Legal(st, steps[0].event)) && LegalSteps(Apply(st, steps[0]), steps[1..]))
  }

  lemma StepKeeps(st: State, s: Step)
    requires Inv(st)
    ensures Inv(Apply(st, s))
    ensures HandlesOk(st) && (s.EventStep? ==> Legal(st, s.event)) ==> HandlesOk(Apply(st, s))
  {
    match s
    case EventStep(e) =>
      EventKeeps(st, e);
      if HandlesOk(st) && Legal(st, e) {
        EventHandles(st, e);
      }
    case PruneStep =>
      PruneKeeps(st);
      if HandlesOk(st) {
        PruneHandles(st);
      }
    case BroadcastStep =>
      BroadcastKeeps(st);
      if HandlesOk(st) {
        SameHandles(st, BroadcastChange(st));
      }
    case AcceptStep(fd) =>
      AcceptKeeps(st, fd);
      if HandlesOk(st) {
        SameHandles(st, Accept(st, fd));
      }
    case VisitStep(i, entry, io) =>
      if i < |st.clients| {
        VisitKeeps(st, i, entry, io);
        if HandlesOk(st) {
          VisitHandles(st, i, entry, io);
        }
      }
  }

  lemma {:induction false} StepsKeep(st: State, steps: seq<Step>)
    requires Inv(st)
    ensures Inv(ApplyAll(st, steps))
    ensures HandlesOk(st) && LegalSteps(st, steps) ==> HandlesOk(ApplyAll(st, steps))
    decreases |steps|
  {
    hide Inv, HandlesOk, Legal, Apply;
    if steps != [] {
      StepKeeps(st, steps[0]);
      StepsKeep(Apply(st, steps[0]), steps[1..]);
    }
  }

  // Main result 1, for every sequence of steps whatever the compositor sends:
  // with no change outstanding, what each subscriber will have read once its
  // output drains - cut into lines, split at tabs, decoded - ends in a snapshot
  // of exactly the open tasks; output is conserved; replies pair with commands.
  lemma ReachableView(seat: bool, steps: seq<Step>, i: nat)
    requires i < |ApplyAll(Initial(seat), steps).clients|
    ensures var st := ApplyAll(Initial(seat), steps);
      var c := st.clients[i];
      var bytes := c.written + c.output;
      && Lines(bytes) == Queued(c.units) && Residue(bytes) == ""
      && ObserveAll(NOTHING_READ, Lines(bytes)).pending == None
      && (!st.changed && c.subscribed ==> ObserveAll(NOTHING_READ, Lines(bytes)).last == Some(View(st.tasks)))
  {
    StepsKeep(Initial(seat), steps);
    var st := ApplyAll(Initial(seat), steps);
    var c := st.clients[i];
    hide ApplyAll, Lines, Residue, View, ObserveAll, UnitOk;
    assert ClientOk(c);
    UnitsRead(c.units, NOTHING_READ);
    LinesOfWire(Queued(c.units));
  }

  lemma ReachableReplies(seat: bool, steps: seq<Step>, i: nat)
    requires i < |ApplyAll(Initial(seat), steps).clients|
    ensures var c := ApplyAll(Initial(seat), steps).clients[i];
      && c.handled == StripAll(Lines(c.received)) && c.input == Residue(c.received)
      && (forall k :: 0 <= k < |c.handled| ==> |c.handled[k]| < 4096)
      && RepliesOk(c)
  {
    StepsKeep(Initial(seat), steps);
    var st := ApplyAll(Initial(seat), steps);
    hide ApplyAll, Lines, Residue, UnitOk, StripCr, RepliesOk;
    assert ClientOk(st.clients[i]) && AtRest(st.clients[i]);
    ResidueOfFree(st.clients[i].input);
    assert StripAll([]) == [];
    assert st.clients[i].handled + [] == st.clients[i].handled;
  }

  // Main result 2, when the compositor obeys the protocol: requests go only to
  // announced handles that are neither closed nor destroyed, each handle is
  // destroyed at most once and only after `closed`, and ids are never reused.
  lemma ReachableHandles(seat: bool, steps: seq<Step>)
    requires LegalSteps(Initial(seat), steps)
    ensures HandlesOk(ApplyAll(Initial(seat), steps))
  {
    StepsKeep(Initial(seat), steps);
  }

  lemma DestroyedOnce(log: seq<Entry>, j: nat, k: nat)
    requires SafeLog(log) && j < k < |log|
    requires log[j].Sent? && log[j].request.Destroy? && log[k].Sent?
    ensures log[k].request.handle != log[j].request.handle
  {
    assert SafeAfter(log[..k], log[k].request);
    assert log[j] in log[..k];
  }

  // A compositor that breaks the protocol gets there in three events: a request to
  // a handle it has closed.
  lemma ClosedHandleAsked(seat: bool)
    ensures var st := ApplyAll(Initial(seat),
        [EventStep(Toplevel(7)), EventStep(OnTask(0, Closed))] + [EventStep(OnTask(0, Done))]);
      var a := Respond(st.tasks, st.seat, ActionLine(DoMinimize, 1));
      a.requests == [SetMinimized(7)] && !SafeLog(st.log + SentAll(a.requests))
  {
    var steps, last := [EventStep(Toplevel(7)), EventStep(OnTask(0, Closed))], EventStep(OnTask(0, Done));
    ApplyAppend(Initial(seat), steps, [last]);
    var st := ClosedAtOnce(seat);
    OneStep(st, last);
    hide ApplyAll, HandlesOk, Respond, ActionLine;
    DoneAfterClosed(st, 0);
  }

  lemma ClosedAtOnce(seat: bool) returns (st: State)
    ensures st == ApplyAll(Initial(seat), [EventStep(Toplevel(7)), EventStep(OnTask(0, Closed))])
    ensures HandlesOk(st) && NumberedBelow(st) && |st.tasks| == 1
    ensures st.tasks[0].id == 1 && st.tasks[0].handle == 7 && Gone(7) in st.log
  {
    hide HandlesOk, ApplyAll, Prune, BroadcastChange, Accept, Visit;
    var announced, closed := EventStep(Toplevel(7)), EventStep(OnTask(0, Closed));
    assert [announced, closed] == [announced] + [closed];
    ApplyAppend(Initial(seat), [announced], [closed]);
    OneStep(Initial(seat), announced);
    var one := OnEvent(Initial(seat), Toplevel(7));
    st := OnEvent(one, OnTask(0, Closed));
    OneStep(one, closed);
    StartHandles(seat);
    EventHandles(Initial(seat), Toplevel(7));
    EventHandles(one, OnTask(0, Closed));
    assert st.log[1] == Gone(7);
  }

  lemma StartHandles(seat: bool)
    ensures HandlesOk(Initial(seat)) && NumberedBelow(Initial(seat))
  {
  }

  // ---- the main loop is made of these steps ---------------------------------------------

  lemma {:induction false} ApplyAppend(st: State, a: seq<Step>, b: seq<Step>)
    ensures ApplyAll(st, a + b) == ApplyAll(ApplyAll(st, a), b)
    ensures LegalSteps(st, a + b) <==> LegalSteps(st, a) && LegalSteps(ApplyAll(st, a), b)
    decreases |a|
  {
    hide Apply, Legal;
    if a == [] {
      assert a + b == b;
    } else {
      assert (a + b)[1..] == a[1..] + b;
      ApplyAppend(Apply(st, a[0]), a[1..], b);
    }
  }

  ghost predicate LegalEvents(st: State, events: seq<Event>)
    decreases |events|
  {
    events == [] || (Legal(st, events[0]) && LegalEvents(OnEvent(st, events[0]), events[1..]))
  }

  // Every event of every turn obeys the protocol, up to where the loop ends.
  ghost predicate LegalTurns(st: State, turns: seq<Turn>)
    decreases |turns|
  {
    turns == [] || !st.running ||
    (LegalTurn(st, turns[0]) && (OneTurn(st, turns[0]).keep ==> LegalTurns(OneTurn(st, turns[0]).state, turns[1..])))
  }

  ghost predicate LegalTurn(st: State, turn: Turn) {
    && LegalEvents(st, turn.pending)
    && (turn.poll.Ready? ==> LegalEvents(LoopTop(st, turn), turn.poll.events))
  }

  // The steps a run of the loop takes: events as they are delivered, connections as
  // they are accepted, and one visit for each client there is, in turn.
  function EventSteps(events: seq<Event>): (steps: seq<Step>)
    ensures |steps| == |events| && forall k :: 0 <= k < |events| ==> steps[k] == EventStep(events[k])
  {
    seq(|events|, k requires 0 <= k < |events| => EventStep(events[k]))
  }

  function AcceptSteps(fds: seq<nat>): (steps: seq<Step>)
    ensures |steps| == |fds| && forall k :: 0 <= k < |fds| ==> steps[k] == AcceptStep(fds[k])
  {
    seq(|fds|, k requires 0 <= k < |fds| => AcceptStep(fds[k]))
  }

  // The next client visited is the one with as many clients from it on as there
  // are visits left.
  function VisitSteps(st: State, entries: seq<PollEntry>, io: seq<Io>, v: nat): (steps: seq<Step>)
    requires v <= |st.clients|
    ensures |ApplyAll(st, steps).clients| >= |st.clients| - v
  {
    if v == 0 then []
    else
      var before := VisitSteps(st, entries, io, v - 1);
      var next := |ApplyAll(st, before).clients| - (|st.clients| - (v - 1));
      var visit := VisitStep(next, EntryAt(entries, next), IoAt(io, v - 1));
      ApplyAppend(st, before, [visit]);
      OneStep(ApplyAll(st, before), visit);
      before + [visit]
  }

  function TurnSteps(st: State, turn: Turn): seq<Step> {
    var top := EventSteps(turn.pending) + [PruneStep] + [BroadcastStep];
    match turn.poll
    case Ready(events, lost, fds, revents, io) =>
      var polled := |ApplyAll(st, top).clients|;
      if lost then top + EventSteps(events)
      else
        var ready := top + EventSteps(events) + AcceptSteps(fds);
        var met := ApplyAll(st, ready);
        ready + VisitSteps(met, PolledEntries(revents, polled), io, |met.clients|)
    case _ => top
  }

  // Only a failing poll and a lost display end the loop.
  predicate GoesOn(turn: Turn) {
    !turn.poll.PollFailed? && !(turn.poll.Ready? && turn.poll.displayLost)
  }

  function RunSteps(st: State, turns: seq<Turn>): seq<Step>
    decreases |turns|
  {
    if turns == [] || !st.running then []
    else
      var steps := TurnSteps(st, turns[0]);
      if GoesOn(turns[0]) then steps + RunSteps(ApplyAll(st, steps), turns[1..]) else steps
  }

  lemma OneStep(st: State, s: Step)
    ensures ApplyAll(st, [s]) == Apply(st, s)
    ensures !s.EventStep? ==> LegalSteps(st, [s])
  {
    assert [s][1..] == [];
  }

  lemma {:induction false} EventsAreSteps(st: State, events: seq<Event>)
    ensures ApplyAll(st, EventSteps(events)) == OnEvents(st, events)
    ensures LegalSteps(st, EventSteps(events)) <==> LegalEvents(st, events)
    decreases |events|
  {
    hide OnEvent, Legal;
    if events != [] {
      EventsAreSteps(OnEvent(st, events[0]), events[1..]);
      assert EventSteps(events)[1..] == EventSteps(events[1..]);
    }
  }

  lemma {:induction false} AcceptsAreSteps(st: State, fds: seq<nat>)
    ensures ApplyAll(st, AcceptSteps(fds)) == AcceptAll(st, fds) && LegalSteps(st, AcceptSteps(fds))
    decreases |fds|
  {
    hide Legal, Accept;
    if fds != [] {
      AcceptsAreSteps(Accept(st, fds[0]), fds[1..]);
      assert AcceptSteps(fds)[1..] == AcceptSteps(fds[1..]);
    }
  }

  lemma {:induction false} PassIsSteps(st: State, entries: seq<PollEntry>, io: seq<Io>, v: nat)
    requires v <= |st.clients|
    ensures var steps := VisitSteps(st, entries, io, v);
      ApplyAll(st, steps) == PassAt(st, entries, io, v).state && LegalSteps(st, steps)
  {
    hide Legal, Visit, Serve;
    if v > 0 {
      PassIsSteps(st, entries, io, v - 1);
      var p := PassAt(st, entries, io, v - 1);
      var last := VisitStep(p.index, EntryAt(entries, p.index), IoAt(io, v - 1));
      assert Advance(p, entries, IoAt(io, v - 1)).state == Apply(p.state, last);
      var before := VisitSteps(st, entries, io, v - 1);
      ApplyAppend(st, before, [last]);
      OneStep(p.state, last);
      assert VisitSteps(st, entries, io, v) == before + [last];
    }
  }

  lemma TopIsSteps(st: State, turn: Turn)
    ensures var top := EventSteps(turn.pending) + [PruneStep] + [BroadcastStep];
      && ApplyAll(st, top) == LoopTop(st, turn)
      && (LegalSteps(st, top) <==> LegalEvents(st, turn.pending))
  {
    hide OnEvents, ApplyAll, LegalSteps, Prune, BroadcastChange;
    EventsAreSteps(st, turn.pending);
    var events, afterEvents := EventSteps(turn.pending), OnEvents(st, turn.pending);
    ApplyAppend(st, events, [PruneStep]);
    OneStep(afterEvents, PruneStep);
    ApplyAppend(st, events + [PruneStep], [BroadcastStep]);
    OneStep(Prune(afterEvents), BroadcastStep);
  }

  // A turn is exactly these steps, in this order.
  lemma TurnIsSteps(st: State, turn: Turn)
    ensures ApplyAll(st, TurnSteps(st, turn)) == OneTurn(st, turn).state
    ensures OneTurn(st, turn).keep <==> GoesOn(turn)
    ensures LegalTurn(st, turn) ==> LegalSteps(st, TurnSteps(st, turn))
  {
    hide OnEvents, ApplyAll, LegalSteps, LoopTop, AcceptAll, PassAt, LegalEvents, VisitSteps;
    TopIsSteps(st, turn);
    var steps, top := EventSteps(turn.pending) + [PruneStep] + [BroadcastStep], LoopTop(st, turn);
    match turn.poll
    case Ready(events, lost, fds, revents, io) =>
      EventsAreSteps(top, events);
      ApplyAppend(st, steps, EventSteps(events));
      if !lost {
        var more, happened := steps + EventSteps(events), OnEvents(top, events);
        AcceptsAreSteps(happened, fds);
        ApplyAppend(st, more, AcceptSteps(fds));
        var met, entries := AcceptAll(happened, fds), PolledEntries(revents, |top.clients|);
        PassIsSteps(met, entries, io, |met.clients|);
        ApplyAppend(st, more + AcceptSteps(fds), VisitSteps(met, entries, io, |met.clients|));
      }
    case _ =>
  }

  // So is a run of the loop.
  lemma {:induction false} RunIsSteps(st: State, turns: seq<Turn>)
    ensures ApplyAll(st, RunSteps(st, turns)) == Run(st, turns)
    ensures LegalTurns(st, turns) ==> LegalSteps(st, RunSteps(st, turns))
    decreases |turns|
  {
    hide OneTurn, LegalTurn, Legal, Apply, TurnSteps;
    if turns != [] && st.running {
      TurnIsSteps(st, turns[0]);
      var one := OneTurn(st, turns[0]);
      if one.keep {
        RunIsSteps(one.state, turns[1..]);
        hide ApplyAll, LegalSteps;
        ApplyAppend(st, TurnSteps(st, turns[0]), RunSteps(one.state, turns[1..]));
      }
    }
  }

  // Both main results for the main loop itself.
  lemma RunKeeps(seat: bool, turns: seq<Turn>)
    ensures Inv(Run(Initial(seat), turns))
    ensures LegalTurns(Initial(seat), turns) ==> HandlesOk(Run(Initial(seat), turns))
  {
    hide LegalTurns, Legal, Run;
    RunIsSteps(Initial(seat), turns);
    StepsKeep(Initial(seat), RunSteps(Initial(seat), turns));
  }

  // At the top of every turn, once changes are broadcast, every subscriber is up
  // to date, and every toplevel whose `closed` event came has been destroyed.
  lemma TurnTop(st: State, turn: Turn)
    requires Inv(st)
    ensures var top := LoopTop(st, turn); Inv(top) && !top.changed
    ensures HandlesOk(st) && LegalEvents(st, turn.pending) ==>
      forall handle :: Gone(handle) in LoopTop(st, turn).log <==> Sent(Destroy(handle)) in LoopTop(st, turn).log
  {
    hide OnEvents, LegalEvents, Prune, Inv, HandlesOk;
    EventsAreSteps(st, turn.pending);
    StepsKeep(st, EventSteps(turn.pending));
    var mid := OnEvents(st, turn.pending);
    PruneKeeps(mid);
    BroadcastKeeps(Prune(mid));
    if HandlesOk(st) && LegalEvents(st, turn.pending) {
      PruneHandles(mid);
      PrunedGone(mid);
    }
  }

  lemma PrunedGone(st: State)
    requires HandlesOk(Prune(st))
    requires forall handle :: Gone(handle) in st.log ==> Sent(Destroy(handle)) in Prune(st).log
    ensures forall handle :: Gone(handle) in Prune(st).log <==> Sent(Destroy(handle)) in Prune(st).log
  {
    DestroysIn(st.tasks);
    var log := Prune(st).log;
    forall handle | Sent(Destroy(handle)) in log
      ensures Gone(handle) in log
    {
      var k :| 0 <= k < |log| && log[k] == Sent(Destroy(handle));
      assert SafeAfter(log[..k], log[k].request);
    }
    forall handle | Gone(handle) in log
      ensures Gone(handle) in st.log
    {
    }
  }
}
