// What tasks and ids stand for over whole runs: a task is what the compositor said
// of it, and an id that was given out names one toplevel for ever.
module AgentHistory {
  import opened Text
  import opened Codec
  import opened Tasks
  import opened Agent
  import opened AgentReplies
  import opened AgentInvariants
  import opened AgentRuns
  import opened Wrappers

  predicate HasId(tasks: seq<TaskInfo>, id: nat) {
    exists i :: 0 <= i < |tasks| && tasks[i].id == id
  }

  // ---- what one step does to the tasks ------------------------------------------------

  // Every step but a compositor event only ever removes closed tasks.
  lemma QuietStep(st: State, s: Step)
    requires Inv(st) && !s.EventStep?
    ensures var r := Apply(st, s);
      && r.nextId == st.nextId
      && forall k :: 0 <= k < |r.tasks| ==> r.tasks[k] in st.tasks && (s.PruneStep? ==> !r.tasks[k].closed)
  {
    match s
    case PruneStep =>
      OpenTasksIn(st.tasks);
      hide OpenTasks;
      assert forall k :: 0 <= k < |OpenTasks(st.tasks)| ==> OpenTasks(st.tasks)[k] in OpenTasks(st.tasks);
    case VisitStep(i, entry, io) =>
      if i < |st.clients| {
        VisitKeeps(st, i, entry, io);
      }
      hide Visit, Inv;
    case _ => hide Inv;
  }

  lemma StepIds(st: State, s: Step, id: nat)
    requires Inv(st) && id < st.nextId && !HasId(st.tasks, id)
    ensures id < Apply(st, s).nextId && !HasId(Apply(st, s).tasks, id)
  {
    hide Apply, Inv, DeliveredBy, AfterEvents;
    StepNextId(st, s);
    var tasks := Apply(st, s).tasks;
    forall k | 0 <= k < |tasks|
      ensures tasks[k].id != id
    {
      var was := StepTells(st, s, k);
      if was.Some? {
        var j :| 0 <= j < |st.tasks| && st.tasks[j] == was.value;
      }
    }
  }

  // An id without a task never gets one again, whatever the compositor sends.
  lemma {:induction false} IdNeverReturns(st: State, steps: seq<Step>, id: nat)
    requires Inv(st) && id < st.nextId && !HasId(st.tasks, id)
    ensures Inv(ApplyAll(st, steps)) && !HasId(ApplyAll(st, steps).tasks, id)
    decreases |steps|
  {
    hide Inv, HasId, Apply;
    if steps != [] {
      StepIds(st, steps[0], id);
      StepKeeps(st, steps[0]);
      IdNeverReturns(Apply(st, steps[0]), steps[1..], id);
    }
  }

  // In every reachable state, whatever the compositor sent: a printed id resolves
  // to the open task that has it and to nothing if there is none.
  lemma ReachableId(seat: bool, steps: seq<Step>, id: nat)
    requires id > 0
    ensures var tasks := ApplyAll(Initial(seat), steps).tasks;
      && (forall i: nat :: FindTask(tasks, IdText(id)) == Some(i) <==> OpenAt(tasks, i, id))
      && (FindTask(tasks, IdText(id)) == None <==> forall i: nat :: !OpenAt(tasks, i, id))
  {
    StepsKeep(Initial(seat), steps);
    hide ApplyAll, FindTask, OpenAt;
    PrintedIdResolves(ApplyAll(Initial(seat), steps).tasks, id);
  }

  // A client may act on an id from any old snapshot: once the task was pruned the
  // action is refused for good, whatever was announced since.
  lemma PrunedIdRefused(seat: bool, before: seq<Step>, i: nat, after: seq<Step>, action: TaskAction)
    requires var st := ApplyAll(Initial(seat), before); i < |st.tasks| && st.tasks[i].closed
    ensures var id := ApplyAll(Initial(seat), before).tasks[i].id;
      var r := ApplyAll(Initial(seat), before + [PruneStep] + after);
      Respond(r.tasks, r.seat, ActionLine(action, id)) == Refused(NoTask)
  {
    var st := ApplyAll(Initial(seat), before);
    var id, pruned := st.tasks[i].id, Prune(st);
    StepsKeep(Initial(seat), before);
    ApplyAppend(Initial(seat), before, [PruneStep]);
    OneStep(st, PruneStep);
    ApplyAppend(Initial(seat), before + [PruneStep], after);
    hide ApplyAll;
    PrunedHasNot(st, i);
    PruneKeeps(st);
    IdNeverReturns(pruned, after, id);
    var r := ApplyAll(pruned, after);
    hide Respond, ActionLine, Prune;
    assert forall k: nat :: !OpenAt(r.tasks, k, id);
    ActionOnGoneId(r.tasks, r.seat, id, action);
  }

  lemma PrunedHasNot(st: State, i: nat)
    requires Inv(st) && i < |st.tasks| && st.tasks[i].closed
    ensures 0 < st.tasks[i].id < Prune(st).nextId && !HasId(Prune(st).tasks, st.tasks[i].id)
  {
    OpenTasksIn(st.tasks);
    hide OpenTasks, ClientsOk, AllAtRest, Coherent;
    var open := OpenTasks(st.tasks);
    forall k | 0 <= k < |open|
      ensures open[k].id != st.tasks[i].id
    {
      assert open[k] in open;
      var j :| 0 <= j < |st.tasks| && st.tasks[j] == open[k];
    }
  }

  // ---- ids under the protocol's guarantee -----------------------------------------------

  lemma SameEntry(log: seq<Entry>, nextId: nat, h: nat, g: nat, id: nat, n: nat)
    requires IdsOk(log, nextId) && New(h, id) in log && New(g, n) in log
    ensures h == g <==> id == n
  {
    var j :| 0 <= j < |log| && log[j] == New(h, id);
    var k :| 0 <= k < |log| && log[k] == New(g, n);
  }

  lemma DestroyedIsGone(log: seq<Entry>, handle: nat)
    ensures SafeLog(log) && Sent(Destroy(handle)) in log ==> Gone(handle) in log
  {
    if k :| SafeLog(log) && 0 <= k < |log| && log[k] == Sent(Destroy(handle)) {
      assert SafeAfter(log[..k], log[k].request);
    }
  }

  // An id that was given out to a toplevel resolves to that very toplevel until
  // its `closed` event, and to nothing afterwards, pruned or not.
  lemma AnnouncedId(st: State, handle: nat, id: nat)
    requires HandlesOk(st) && New(handle, id) in st.log
    ensures id > 0
    ensures Gone(handle) in st.log ==> forall i: nat :: !OpenAt(st.tasks, i, id)
    ensures Gone(handle) !in st.log ==> exists i: nat :: OpenAt(st.tasks, i, id) && st.tasks[i].handle == handle
  {
    forall i: nat | OpenAt(st.tasks, i, id)
      ensures Gone(handle) !in st.log
    {
      assert TaskOk(st.tasks[i], st.log);
      SameEntry(st.log, st.nextId, handle, st.tasks[i].handle, id, id);
    }
    if Gone(handle) !in st.log {
      assert IsNew(st.log, handle);
      DestroyedIsGone(st.log, handle);
      var i :| 0 <= i < |st.tasks| && st.tasks[i].handle == handle;
      assert TaskOk(st.tasks[i], st.log);
      SameEntry(st.log, st.nextId, handle, handle, id, st.tasks[i].id);
      assert OpenAt(st.tasks, i, id);
    }
  }

  lemma ActionOnAnnounced(st: State, handle: nat, id: nat, action: TaskAction)
    requires HandlesOk(st) && New(handle, id) in st.log
    ensures var a := Respond(st.tasks, st.seat, ActionLine(action, id));
      && (Gone(handle) in st.log <==> a == Refused(NoTask))
      && (Gone(handle) !in st.log && (st.seat || !action.DoActivate?) ==> a.requests != [])
      && forall q :: q in a.requests ==> q.handle == handle
  {
    AnnouncedId(st, handle, id);
    assert Ascending(st.tasks);
    hide HandlesOk, Ascending, Respond, ActionLine, Refused, OpenAt;
    if Gone(handle) in st.log {
      ActionOnGoneId(st.tasks, st.seat, id, action);
    } else {
      var i: nat :| OpenAt(st.tasks, i, id) && st.tasks[i].handle == handle;
      ActionAtTask(st.tasks, st.seat, i, id, action);
    }
  }

  lemma ActionAtTask(tasks: seq<TaskInfo>, seat: bool, i: nat, id: nat, action: TaskAction)
    requires Ascending(tasks) && id > 0 && OpenAt(tasks, i, id)
    ensures var a := Respond(tasks, seat, ActionLine(action, id));
      && a != Refused(NoTask) && (seat || !action.DoActivate? ==> a.requests != [])
      && forall q :: q in a.requests ==> q.handle == tasks[i].handle
  {
    hide Ascending, Respond, ActionLine, Refused, OkLine, ActionVerb, FindTask, ActionRequests;
    ActionAnswer(tasks, seat, id, action);
    PrintedIdResolves(tasks, id);
    RefusalsDiffer();
    RequestsOfAction(action, seat, tasks[i].handle);
  }

  // So over every run that obeys the protocol an action on an id is refused as
  // not found exactly when its toplevel is gone, and otherwise - but for want of
  // a seat - requests something of that toplevel and of no other.
  lemma ActionOnAnnouncedId(seat: bool, steps: seq<Step>, handle: nat, id: nat, action: TaskAction)
    requires LegalSteps(Initial(seat), steps) && New(handle, id) in ApplyAll(Initial(seat), steps).log
    ensures var st := ApplyAll(Initial(seat), steps);
      var a := Respond(st.tasks, st.seat, ActionLine(action, id));
      && (Gone(handle) in st.log <==> a == Refused(NoTask))
      && (Gone(handle) !in st.log && (st.seat || !action.DoActivate?) ==> a.requests != [])
      && forall q :: q in a.requests ==> q.handle == handle
  {
    hide ApplyAll, LegalSteps, Inv, HandlesOk, Respond, ActionLine, Refused;
    ReachableHandles(seat, steps);
    ActionOnAnnounced(ApplyAll(Initial(seat), steps), handle, id, action);
  }

  lemma RequestsOfAction(action: TaskAction, seat: bool, h: nat)
    ensures var requests := ActionRequests(action, seat, h);
      requests != [] && forall q :: q in requests ==> q.handle == h
  {
  }

  lemma RefusalsDiffer()
    ensures Refused(NoTask) != Refused(NoSeat) && Refused(NoTask).requests == [] && Refused(NoSeat).requests == []
  {
    ErrorLineFields("not-found", "task not found");
    ErrorLineFields("unsupported", "no Wayland seat");
    hide SplitTabs, ErrorLine;
    assert |"not-found"| != |"unsupported"|;
  }

  // ---- what a task tells -----------------------------------------------------------------

  // The events one step delivers to the listener of the task with this id.
  function DeliveredBy(st: State, s: Step, id: nat): seq<TaskEvent> {
    if s.EventStep? && s.event.OnTask? && s.event.index < |st.tasks| && st.tasks[s.event.index].id == id
    then [s.event.event]
    else []
  }

  function Delivered(st: State, steps: seq<Step>, id: nat): seq<TaskEvent> {
    if steps == [] then []
    else Delivered(st, Init(steps), id) + DeliveredBy(ApplyAll(st, Init(steps)), Last(steps), id)
  }

  function Announced(id: nat, handle: nat): TaskInfo {
    TaskInfo(id, handle, "", "", false, false, false, false, false)
  }

  // A task that tells what was delivered to it.
  predicate Tells(t: TaskInfo, events: seq<TaskEvent>) {
    t == AfterEvents(Announced(t.id, t.handle), events)
  }

  lemma SnocStep(st: State, steps: seq<Step>)
    requires steps != []
    ensures ApplyAll(st, steps) == Apply(ApplyAll(st, Init(steps)), Last(steps))
  {
    ApplyAppend(st, Init(steps), [Last(steps)]);
    OneStep(ApplyAll(st, Init(steps)), Last(steps));
    hide Apply, ApplyAll;
    assert Init(steps) + [Last(steps)] == steps;
  }

  lemma StepNextId(st: State, s: Step)
    requires Inv(st)
    ensures Apply(st, s).nextId >= st.nextId
  {
    if !s.EventStep? {
      QuietStep(st, s);
    }
    hide Inv, Visit;
  }

  // How many toplevels the steps announce.
  function Announcements(steps: seq<Step>): nat {
    if steps == [] then 0
    else Announcements(Init(steps)) + if Last(steps).EventStep? && Last(steps).event.Toplevel? then 1 else 0
  }

  // Ids are given out from 1 on, one after the other.
  lemma {:induction false} IdsCount(seat: bool, steps: seq<Step>)
    ensures ApplyAll(Initial(seat), steps).nextId == 1 + Announcements(steps)
  {
    if steps != [] {
      SnocStep(Initial(seat), steps);
      StepsKeep(Initial(seat), Init(steps));
      IdsCount(seat, Init(steps));
      var st, s := ApplyAll(Initial(seat), Init(steps)), Last(steps);
      hide Inv, ApplyAll, Apply;
      StepCounts(st, s);
    }
  }

  lemma StepCounts(st: State, s: Step)
    requires Inv(st)
    ensures Apply(st, s).nextId == st.nextId + if s.EventStep? && s.event.Toplevel? then 1 else 0
  {
    if !s.EventStep? {
      QuietStep(st, s);
    }
    hide Inv, Visit, Prune, BroadcastChange, Accept;
  }

  // Nothing is delivered to a task before it is announced.
  lemma {:induction false} DeliveredLater(seat: bool, steps: seq<Step>, id: nat)
    requires id >= ApplyAll(Initial(seat), steps).nextId
    ensures Delivered(Initial(seat), steps, id) == []
  {
    if steps != [] {
      SnocStep(Initial(seat), steps);
      StepsKeep(Initial(seat), Init(steps));
      var st := ApplyAll(Initial(seat), Init(steps));
      StepNextId(st, Last(steps));
      DeliveredLater(seat, Init(steps), id);
      hide ApplyAll, Apply, ClientsOk, AllAtRest, Coherent;
    }
  }

  // What one step does to one task, told by the events it delivers.
  lemma StepTells(st: State, s: Step, i: nat) returns (was: Option<TaskInfo>)
    requires Inv(st) && i < |Apply(st, s).tasks|
    ensures var t := Apply(st, s).tasks[i];
      was.None? ==> t == Announced(st.nextId, t.handle) && DeliveredBy(st, s, t.id) == []
    ensures var t := Apply(st, s).tasks[i];
      was.Some? ==>
        was.value in st.tasks && was.value.id == t.id && t == AfterEvents(was.value, DeliveredBy(st, s, t.id))
  {
    if s.EventStep? {
      hide ClientsOk, AllAtRest, Coherent;
      was := EventTells(st, s.event, i);
    } else {
      QuietStep(st, s);
      hide Inv, Apply;
      was := Some(Apply(st, s).tasks[i]);
      NoneDelivered(was.value);
    }
  }

  lemma EventTells(st: State, e: Event, i: nat) returns (was: Option<TaskInfo>)
    requires NumberedBelow(st) && Ascending(st.tasks) && i < |OnEvent(st, e).tasks|
    ensures var t := OnEvent(st, e).tasks[i];
      was.None? ==> t == Announced(st.nextId, t.handle) && DeliveredBy(st, EventStep(e), t.id) == []
    ensures var t := OnEvent(st, e).tasks[i];
      was.Some? ==> was.value in st.tasks && was.value.id == t.id
    ensures var t := OnEvent(st, e).tasks[i];
      was.Some? ==> t == AfterEvents(was.value, DeliveredBy(st, EventStep(e), t.id))
  {
    was := if i < |st.tasks| then Some(st.tasks[i]) else None;
    if was.Some? {
      if e.OnTask? && e.index == i {
        hide Changed, AfterEvents;
        OneDelivered(st.tasks[i], e.event);
        SameTask(st.tasks[i], e.event);
      } else {
        hide Changed, AfterEvents;
        NoneDelivered(st.tasks[i]);
        assert e.OnTask? && e.index < |st.tasks| ==> st.tasks[e.index].id != st.tasks[i].id;
      }
    }
  }

  lemma SameTask(t: TaskInfo, e: TaskEvent)
    ensures Changed(t, e).id == t.id && Changed(t, e).handle == t.handle
  {
  }

  lemma OneDelivered(t: TaskInfo, e: TaskEvent)
    ensures AfterEvents(t, [e]) == Changed(t, e)
  {
    assert [e][1..] == [];
  }

  lemma TellsStep(st: State, s: Step, i: nat, events: seq<TaskEvent>)
    requires Inv(st) && i < |Apply(st, s).tasks|
    requires Apply(st, s).tasks[i].id >= st.nextId ==> events == []
    requires forall u :: u in st.tasks && u.id == Apply(st, s).tasks[i].id ==> Tells(u, events)
    ensures var t := Apply(st, s).tasks[i]; Tells(t, events + DeliveredBy(st, s, t.id))
  {
    hide Inv, Apply, DeliveredBy, AfterEvents;
    var t := Apply(st, s).tasks[i];
    var was := StepTells(st, s, i);
    if was.None? {
      assert events + DeliveredBy(st, s, t.id) == [];
      NoneDelivered(t);
    } else {
      AfterAppend(was.value, DeliveredBy(st, s, t.id), []);
      AfterAppend(Announced(t.id, was.value.handle), events, DeliveredBy(st, s, t.id));
    }
  }

  lemma {:induction false} TaskTells(seat: bool, steps: seq<Step>, i: nat)
    requires i < |ApplyAll(Initial(seat), steps).tasks|
    ensures var t := ApplyAll(Initial(seat), steps).tasks[i]; Tells(t, Delivered(Initial(seat), steps, t.id))
  {
    hide Inv, Apply, ApplyAll, DeliveredBy, Tells, Initial;
    if steps == [] {
      StartsEmpty(seat, steps);
    } else {
      var start, init, s := Initial(seat), Init(steps), Last(steps);
      SnocStep(start, steps);
      StartsEmpty(seat, init);
      var st := ApplyAll(start, init);
      var id := Apply(st, s).tasks[i].id;
      if id >= st.nextId {
        DeliveredLater(seat, init, id);
      }
      forall u | u in st.tasks && u.id == id
        ensures Tells(u, Delivered(start, init, id))
      {
        var k :| 0 <= k < |st.tasks| && st.tasks[k] == u;
        TaskTells(seat, init, k);
      }
      TellsStep(st, s, i, Delivered(start, init, id));
    }
  }

  lemma StartsEmpty(seat: bool, steps: seq<Step>)
    ensures Inv(ApplyAll(Initial(seat), steps))
    ensures steps == [] ==> ApplyAll(Initial(seat), steps).tasks == []
  {
    StepsKeep(Initial(seat), steps);
  }

  lemma NoneDelivered(t: TaskInfo)
    ensures AfterEvents(t, []) == t
  {
  }

  lemma {:induction false} AfterAppend(t: TaskInfo, a: seq<TaskEvent>, b: seq<TaskEvent>)
    ensures AfterEvents(t, a + b) == AfterEvents(AfterEvents(t, a), b)
    ensures AfterEvents(t, a).id == t.id && AfterEvents(t, a).handle == t.handle
    decreases |a|
  {
    hide Changed;
    if a == [] {
      assert a + b == b;
    } else {
      assert (a + b)[1..] == a[1..] + b;
      SameTask(t, a[0]);
      AfterAppend(Changed(t, a[0]), a[1..], b);
    }
  }

  // Over every run a task tells what the compositor said last of it: title and
  // app id of the last such events delivered to it, the flags the members of its
  // last state array, closed if `closed` came after any `done`.
  lemma ReachableTaskTells(seat: bool, steps: seq<Step>, i: nat)
    requires i < |ApplyAll(Initial(seat), steps).tasks|
    ensures var t := ApplyAll(Initial(seat), steps).tasks[i];
      var events := Delivered(Initial(seat), steps, t.id);
      var states := LastStates(events);
      && t.title == LastTitle(events) && t.appId == LastAppId(events)
      && (t.maximized <==> 0 in states) && (t.minimized <==> 1 in states)
      && (t.activated <==> 2 in states) && (t.fullscreen <==> 3 in states)
      && (t.closed <==> LastClosed(events))
  {
    TaskTells(seat, steps, i);
    hide ApplyAll, AfterEvents;
    var t := ApplyAll(Initial(seat), steps).tasks[i];
    TaskTellsLast(t.id, t.handle, Delivered(Initial(seat), steps, t.id));
  }
}
