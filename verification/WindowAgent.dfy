// The window agent as the source has it: tasks and clients changed in place by
// event handlers, commands and the main loop (window-agent/zero-window-agent.cpp).
// Each method is proved to take the step `Agent.dfy` defines for it, so every
// result about those steps holds of this object.
module WindowAgents {
  import opened Text
  import opened Codec
  import opened Framing
  import opened Tasks
  import opened Agent
  import AgentCommands
  import AgentInvariants
  import AgentRuns
  import opened Wrappers

  class Task {
    const id: nat
    const handle: nat
    var appId: string
    var title: string
    var activated: bool
    var minimized: bool
    var maximized: bool
    var fullscreen: bool
    var closed: bool

    constructor (id: nat, handle: nat)
      ensures Info() == TaskInfo(id, handle, "", "", false, false, false, false, false)
    {
      this.id, this.handle := id, handle;
      appId, title := "", "";
      activated, minimized, maximized, fullscreen, closed := false, false, false, false, false;
    }

    ghost function Info(): TaskInfo
      reads this
    {
      TaskInfo(id, handle, appId, title, activated, minimized, maximized, fullscreen, closed)
    }

    predicate IsShellTask()
      reads this
      ensures IsShellTask() <==> IsShell(Info())
    {
      appId == "cardputer-zero-shell" || title == "Cardputer Zero Shell"
    }

    // The flag names in their fixed order, commas between them.
    method GetStateString() returns (state: string)
      ensures state == StateString(Info())
    {
      hide Joined, Named, OneIf;
      ghost var names := [];
      NothingJoined();
      state := "";
      state, names := AddIf(activated, state, names, "activated");
      state, names := AddIf(minimized, state, names, "minimized");
      state, names := AddIf(maximized, state, names, "maximized");
      state, names := AddIf(fullscreen, state, names, "fullscreen");
      StateJoined(Info());
    }

    static method AddIf(flag: bool, state: string, ghost names: seq<string>, name: string)
      returns (r: string, ghost all: seq<string>)
      requires state == Joined(names) && Named(names) && name != ""
      ensures all == names + OneIf(flag, name) && Named(all)
      ensures r == Joined(names + OneIf(flag, name))
    {
      r := state;
      all := names + OneIf(flag, name);
      if flag {
        r := AddName(state, names, name);
      } else {
        assert all == names;
      }
    }

    static ghost function Joined(names: seq<string>): string {
      if names == [] then "" else Join(',', names)
    }

    static lemma NothingJoined()
      ensures Joined([]) == "" && Named([])
      ensures forall names: seq<string> :: [] + names == names
    {
    }

    static lemma StateJoined(t: TaskInfo)
      ensures StateString(t) == Joined(StateNames(t))
    {
    }

    static predicate Named(names: seq<string>) {
      forall k :: 0 <= k < |names| ==> |names[k]| > 0
    }

    static method AddName(state: string, ghost names: seq<string>, name: string) returns (r: string)
      requires state == Joined(names)
      requires |name| > 0 && Named(names)
      ensures r == Joined(names + [name])
    {
      r := state;
      if r != "" {
        r := r + [','];
      }
      r := r + name;
      if names != [] {
        JoinSnoc(names, name);
      }
    }

    static lemma {:induction false} JoinSnoc(names: seq<string>, name: string)
      requires names != [] && forall k :: 0 <= k < |names| ==> |names[k]| > 0
      ensures Join(',', names + [name]) == Join(',', names) + [','] + name
      ensures Join(',', names) != ""
    {
      var all := names + [name];
      if |names| == 1 {
        assert all[1..] == [name];
      } else {
        assert all[1..] == names[1..] + [name];
        JoinSnoc(names[1..], name);
        hide Join;
        var a, rest := names[0] + [','], Join(',', names[1..]);
        JoinTwo(names);
        JoinTwo(all);
        assert a + (rest + [','] + name) == a + rest + [','] + name;
      }
    }

    static lemma JoinTwo(names: seq<string>)
      requires |names| > 1
      ensures Join(',', names) == names[0] + [','] + Join(',', names[1..])
    {
    }
  }

  ghost function Infos(tasks: seq<Task>): (r: seq<TaskInfo>)
    reads tasks
    ensures |r| == |tasks|
    ensures forall k :: 0 <= k < |tasks| ==> r[k] == tasks[k].Info()
  {
    if tasks == [] then [] else [tasks[0].Info()] + Infos(tasks[1..])
  }

  // A connection as the source keeps it, and as `Agent.Client` records it with
  // its history.
  datatype Connection = Connection(fd: nat, subscribed: bool, input: string, output: string)

  function WithoutHistory(c: Client): Connection {
    Connection(c.fd, c.subscribed, c.input, c.output)
  }

  class WindowAgent {
    var tasks: seq<Task>
    var clients: seq<Connection>
    var changed: bool
    var nextId: nat
    var running: bool
    const seat: bool
    ghost var log: seq<Entry>
    ghost var histories: seq<Client>

    ghost predicate Valid()
      reads this
    {
      && (forall i, j :: 0 <= i < j < |tasks| ==> tasks[i] != tasks[j])
      && |histories| == |clients|
      && (forall i :: 0 <= i < |clients| ==> clients[i] == WithoutHistory(histories[i]))
    }

    // The value of `Agent.State` this object stands for.
    ghost function Abs(): State
      reads this, tasks
    {
      State(Infos(tasks), histories, changed, nextId, running, seat, log)
    }

    constructor (seat: bool)
      ensures Valid() && tasks == [] && Abs() == Initial(seat)
    {
      this.seat := seat;
      tasks, clients, changed, nextId, running := [], [], false, 1, true;
      log, histories := [], [];
    }

    // ---- compositor events ---------------------------------------------------------

    method MarkChanged()
      modifies this`changed
      ensures changed
    {
      changed := true;
    }

    method ManagerToplevel(handle: nat)
      requires Valid()
      modifies this
      ensures Valid() && Abs() == OnEvent(old(Abs()), Toplevel(handle))
      ensures |tasks| == |old(tasks)| + 1 && tasks[..|old(tasks)|] == old(tasks) && fresh(tasks[|old(tasks)|])
    {
      hide Infos;
      var task := new Task(nextId, handle);
      log := log + [New(handle, nextId)];
      nextId := nextId + 1;
      tasks := tasks + [task];
      MarkChanged();
      assert Infos(tasks) == old(Infos(tasks)) + [task.Info()];
    }

    method ManagerFinished()
      requires Valid()
      modifies this`running, this`changed
      ensures Valid() && Abs() == OnEvent(old(Abs()), Finished)
    {
      running := false;
      MarkChanged();
    }

    method HandleTitle(task: Task, ghost i: nat, title: Option<string>)
      requires Valid() && i < |tasks| && tasks[i] == task
      modifies task`title, this`changed
      ensures Valid() && Abs() == OnEvent(old(Abs()), OnTask(i, Title(title)))
    {
      hide Infos;
      task.title := if title.Some? then title.value else "";
      MarkChanged();
    }

    method HandleAppId(task: Task, ghost i: nat, appId: Option<string>)
      requires Valid() && i < |tasks| && tasks[i] == task
      modifies task`appId, this`changed
      ensures Valid() && Abs() == OnEvent(old(Abs()), OnTask(i, AppId(appId)))
    {
      hide Infos;
      task.appId := if appId.Some? then appId.value else "";
      MarkChanged();
    }

    method HandleState(task: Task, ghost i: nat, entries: seq<nat>)
      requires Valid() && i < |tasks| && tasks[i] == task
      modifies task`maximized, task`minimized, task`activated, task`fullscreen, this`changed
      ensures Valid() && Abs() == OnEvent(old(Abs()), OnTask(i, States(entries)))
    {
      hide Infos;
      task.maximized := false;
      task.minimized := false;
      task.activated := false;
      task.fullscreen := false;
      for n := 0 to |entries|
        invariant task.maximized == (0 in entries[..n])
        invariant task.minimized == (1 in entries[..n])
        invariant task.activated == (2 in entries[..n])
        invariant task.fullscreen == (3 in entries[..n])
      {
        assert entries[..n + 1] == entries[..n] + [entries[n]];
        match entries[n]
        case 0 => task.maximized := true;
        case 1 => task.minimized := true;
        case 2 => task.activated := true;
        case 3 => task.fullscreen := true;
        case _ =>
      }
      assert entries[..|entries|] == entries;
      assert Infos(tasks) == old(Infos(tasks))[i := Changed(old(task.Info()), States(entries))];
      MarkChanged();
    }

    method HandleDone(task: Task, ghost i: nat)
      requires Valid() && i < |tasks| && tasks[i] == task
      modifies task`closed, this`changed
      ensures Valid() && Abs() == OnEvent(old(Abs()), OnTask(i, Done))
    {
      hide Infos;
      task.closed := false;
      assert Infos(tasks) == old(Infos(tasks))[i := Changed(old(task.Info()), Done)];
      MarkChanged();
    }

    method HandleClosed(task: Task, ghost i: nat)
      requires Valid() && i < |tasks| && tasks[i] == task
      modifies task`closed, this`changed, this`log
      ensures Valid() && Abs() == OnEvent(old(Abs()), OnTask(i, Closed))
    {
      hide Infos;
      task.closed := true;
      assert Infos(tasks) == old(Infos(tasks))[i := Changed(old(task.Info()), Closed)];
      log := log + [Gone(task.handle)];
      MarkChanged();
    }

    // An event reaches the listener it was added with; an index that names no
    // task has no listener.
    method Dispatch(e: Event)
      requires Valid()
      modifies this, tasks
      ensures Valid() && Abs() == OnEvent(old(Abs()), e)
      ensures forall k :: 0 <= k < |tasks| ==> tasks[k] in old(tasks) || fresh(tasks[k])
    {
      match e
      case Toplevel(handle) => ManagerToplevel(handle);
      case Finished => ManagerFinished();
      case OnTask(i, te) =>
        if i < |tasks| {
          match te
          case Title(text) => HandleTitle(tasks[i], i, text);
          case AppId(text) => HandleAppId(tasks[i], i, text);
          case States(entries) => HandleState(tasks[i], i, entries);
          case Done => HandleDone(tasks[i], i);
          case Closed => HandleClosed(tasks[i], i);
        }
    }

    // ---- looking tasks up --------------------------------------------------------------

    method LookUpTask(id: string) returns (task: Task?)
      requires Valid()
      ensures var r := FindTask(Infos(tasks), id);
        if r.None? then task == null else task == tasks[r.value]
    {
      hide Infos, FindTask, ParseId;
      ghost var infos := Infos(tasks);
      task := null;
      var numeric := ParseId(id);
      if numeric.None? {
        TaskFound(infos, id, |tasks|);
        return;
      }
      for i := 0 to |tasks|
        invariant forall k :: 0 <= k < i ==> infos[k].closed || Some(infos[k].id as int) != ParseId(id)
      {
        if !tasks[i].closed && tasks[i].id == numeric.value {
          TaskFound(infos, id, i);
          return tasks[i];
        }
      }
      TaskFound(infos, id, |tasks|);
    }

    static lemma TaskFound(infos: seq<TaskInfo>, id: string, i: nat)
      requires i <= |infos| && forall k :: 0 <= k < i ==> infos[k].closed || Some(infos[k].id as int) != ParseId(id)
      requires i < |infos| ==> !infos[i].closed && Some(infos[i].id as int) == ParseId(id)
      ensures FindTask(infos, id) == if i < |infos| then Some(i) else None
    {
      hide ParseId;
    }

    method LookUpActive(includeShell: bool) returns (task: Task?)
      requires Valid()
      ensures var r := ActiveTask(Infos(tasks), includeShell);
        if r.None? then task == null else task == tasks[r.value]
    {
      hide Infos, IsShell, ActiveTask;
      ghost var infos := Infos(tasks);
      task := null;
      for i := 0 to |tasks|
        invariant forall k :: 0 <= k < i ==> !Eligible(infos[k], includeShell)
      {
        if !tasks[i].closed && tasks[i].activated && (includeShell || !tasks[i].IsShellTask()) {
          ActiveFound(infos, includeShell, i);
          return tasks[i];
        }
      }
      ActiveFound(infos, includeShell, |tasks|);
    }

    static predicate Eligible(t: TaskInfo, includeShell: bool) {
      !t.closed && t.activated && (includeShell || !IsShell(t))
    }

    static lemma ActiveFound(infos: seq<TaskInfo>, includeShell: bool, i: nat)
      requires i <= |infos| && forall k :: 0 <= k < i ==> !Eligible(infos[k], includeShell)
      requires i < |infos| ==> Eligible(infos[i], includeShell)
      ensures ActiveTask(infos, includeShell) == if i < |infos| then Some(i) else None
    {
      hide IsShell;
    }

    method LookUpShell() returns (task: Task?)
      requires Valid()
      ensures var r := ShellTask(Infos(tasks));
        if r.None? then task == null else task == tasks[r.value]
    {
      hide Infos, IsShell, ShellTask;
      ghost var infos := Infos(tasks);
      task := null;
      for i := 0 to |tasks|
        invariant forall k :: 0 <= k < i ==> infos[k].closed || !IsShell(infos[k])
      {
        if !tasks[i].closed && tasks[i].IsShellTask() {
          ShellFound(infos, i);
          return tasks[i];
        }
      }
      ShellFound(infos, |tasks|);
    }

    static lemma ShellFound(infos: seq<TaskInfo>, i: nat)
      requires i <= |infos| && forall k :: 0 <= k < i ==> infos[k].closed || !IsShell(infos[k])
      requires i < |infos| ==> !infos[i].closed && IsShell(infos[i])
      ensures ShellTask(infos) == if i < |infos| then Some(i) else None
    {
      hide IsShell;
    }

    // ---- prune, send, broadcast ----------------------------------------------------------

    method PruneClosed()
      requires Valid()
      modifies this`tasks, this`log, this`changed
      ensures Valid() && Abs() == Prune(old(Abs()))
      ensures forall k :: 0 <= k < |tasks| ==> tasks[k] in old(tasks)
    {
      hide Infos, OpenTasks, Destroys;
      var removed := EraseClosed();
      if removed {
        MarkChanged();
      }
    }

    // The loop of the above: destroy and erase the closed tasks.
    method EraseClosed() returns (removed: bool)
      requires Valid()
      modifies this`tasks, this`log
      ensures Valid() && Infos(tasks) == OpenTasks(old(Infos(tasks))) && log == old(log) + Destroys(old(Infos(tasks)))
      ensures removed <==> exists k :: 0 <= k < |old(tasks)| && old(Infos(tasks))[k].closed
      ensures forall k :: 0 <= k < |tasks| ==> tasks[k] in old(tasks)
    {
      hide Infos, OpenTasks, Destroys, Pruning;
      ghost var all := Infos(tasks);
      removed := false;
      var it := 0;
      assert tasks[0..] == tasks && tasks[..0] == [];
      PruneStart(all, log);
      while it < |tasks|
        invariant it <= |tasks| && Valid()
        invariant forall k :: 0 <= k < |tasks| ==> tasks[k] in old(tasks)
        invariant Pruning(all, old(log), Infos(tasks[..it]), Infos(tasks[it..]), log)
        invariant |log| >= |old(log)| && (removed <==> |log| > |old(log)|)
        decreases |tasks| - it
      {
        InfosStep(tasks, it);
        PruneStep(all, old(log), Infos(tasks[..it]), tasks[it].Info(), Infos(tasks[it + 1..]), log);
        if tasks[it].closed {
          EraseAt(it);
          removed := true;
        } else {
          it := it + 1;
        }
      }
      assert tasks[..it] == tasks && tasks[it..] == [];
      PruneEnd(all, old(log), Infos(tasks), log);
    }

    method EraseAt(it: nat)
      requires Valid() && it < |tasks|
      modifies this`tasks, this`log
      ensures Valid() && log == old(log) + [Sent(Destroy(old(tasks)[it].handle))]
      ensures |tasks| == |old(tasks)| - 1 && tasks[..it] == old(tasks)[..it] && tasks[it..] == old(tasks)[it + 1..]
      ensures forall k :: 0 <= k < |tasks| ==> tasks[k] in old(tasks)
    {
      log := log + [Sent(Destroy(tasks[it].handle))];
      tasks := tasks[..it] + tasks[it + 1..];
    }

    // Part way through pruning `all`: `kept` is decided, `rest` is not.
    static ghost predicate Pruning(
        all: seq<TaskInfo>, start: seq<Entry>, kept: seq<TaskInfo>, rest: seq<TaskInfo>, log: seq<Entry>)
    {
      kept + OpenTasks(rest) == OpenTasks(all) && log + Destroys(rest) == start + Destroys(all)
    }

    static lemma PruneStart(all: seq<TaskInfo>, start: seq<Entry>)
      ensures Pruning(all, start, [], all, start)
    {
    }

    static lemma PruneStep(
        all: seq<TaskInfo>, start: seq<Entry>, kept: seq<TaskInfo>, t: TaskInfo, rest: seq<TaskInfo>, log: seq<Entry>)
      requires Pruning(all, start, kept, [t] + rest, log)
      ensures if t.closed then Pruning(all, start, kept, rest, log + [Sent(Destroy(t.handle))])
              else Pruning(all, start, kept + [t], rest, log)
    {
      assert ([t] + rest)[1..] == rest;
      if t.closed {
        Assoc(log, [Sent(Destroy(t.handle))], Destroys(rest));
        assert OpenTasks([t] + rest) == OpenTasks(rest);
      } else {
        Assoc(kept, [t], OpenTasks(rest));
        assert Destroys([t] + rest) == Destroys(rest);
      }
    }

    static lemma PruneEnd(all: seq<TaskInfo>, start: seq<Entry>, kept: seq<TaskInfo>, log: seq<Entry>)
      requires Pruning(all, start, kept, [], log)
      ensures kept == OpenTasks(all) && log == start + Destroys(all)
      ensures log != start <==> exists k :: 0 <= k < |all| && all[k].closed
    {
      DestroysAny(all);
      assert kept + [] == kept && log + [] == log;
    }

    static lemma {:induction false} DestroysAny(infos: seq<TaskInfo>)
      ensures Destroys(infos) != [] <==> exists k :: 0 <= k < |infos| && infos[k].closed
    {
      if infos != [] {
        DestroysAny(infos[1..]);
        assert infos == [infos[0]] + infos[1..];
        assert forall k :: 1 <= k < |infos| ==> infos[k] == infos[1..][k - 1];
        if k :| 0 <= k < |infos[1..]| && infos[1..][k].closed {
          assert infos[k + 1].closed;
        }
      }
    }

    // The infos around place `i`.
    static lemma InfosStep(tasks: seq<Task>, i: nat)
      requires i < |tasks|
      ensures Infos(tasks[..i + 1]) == Infos(tasks[..i]) + [tasks[i].Info()]
      ensures Infos(tasks[i..]) == [tasks[i].Info()] + Infos(tasks[i + 1..])
    {
      assert tasks[i..][1..] == tasks[i + 1..];
    }

    // The client at `i` with more output: the one effect of every send.
    ghost predicate Queued(before: seq<Client>, i: nat, text: string)
      reads this
    {
      && Valid() && i < |before|
      && histories == before[i := before[i].(output := before[i].output + text)]
    }

    method Send(i: nat, line: string)
      requires Valid() && i < |clients|
      modifies this`clients, this`histories
      ensures Queued(old(histories), i, Wire([line]))
    {
      var client := clients[i];
      client := client.(output := client.output + line);
      client := client.(output := client.output + ['\n']);
      clients := clients[i := client];
      WireOne(line);
      histories := histories[i := histories[i].(output := client.output)];
      assert old(histories[i].output) + Wire([line]) == client.output;
    }

    method SendError(i: nat, code: string, message: string)
      requires Valid() && i < |clients|
      modifies this`clients, this`histories
      ensures Queued(old(histories), i, Wire([ErrorLine(code, message)]))
    {
      var a := Encode(code);
      var b := Encode(message);
      Send(i, "error\t" + (a + ("\t" + b)));
    }

    method SendOk(i: nat, request: string)
      requires Valid() && i < |clients|
      modifies this`clients, this`histories
      ensures Queued(old(histories), i, Wire([OkLine(request)]))
    {
      var a := Encode(request);
      Send(i, "ok\t" + a);
    }

    method SendSnapshot(i: nat)
      requires Valid() && i < |clients|
      modifies this`clients, this`histories
      ensures Queued(old(histories), i, Wire(SnapshotLines(Infos(tasks))))
    {
      hide TaskLine, Wire, TaskLines, Infos;
      ghost var before := histories;
      ghost var sent := ["snapshot-begin"];
      Send(i, "snapshot-begin");
      assert tasks[0..] == tasks;
      for k := 0 to |tasks|
        invariant i < |before| == |clients|
        invariant Queued(before, i, Wire(sent))
        invariant sent + TaskLines(Infos(tasks[k..])) == ["snapshot-begin"] + TaskLines(Infos(tasks))
      {
        TaskLinesStep(tasks, k);
        if tasks[k].closed {
          continue;
        }
        var line := BuildTaskLine(tasks[k]);
        SendMore(i, line, before, sent);
        Assoc(sent, [line], TaskLines(Infos(tasks[k + 1..])));
        sent := sent + [line];
      }
      SendMore(i, "snapshot-end", before, sent);
      TaskLinesNone(Infos(tasks[|tasks|..]));
      assert sent + [] == sent;
    }

    // One more line behind what was sent since `before`.
    method SendMore(i: nat, line: string, ghost before: seq<Client>, ghost sent: seq<string>)
      requires Valid() && i < |clients| && Queued(before, i, Wire(sent))
      modifies this`clients, this`histories
      ensures Queued(before, i, Wire(sent + [line]))
    {
      hide Wire;
      ghost var middle := histories;
      Send(i, line);
      QueuedTwice(before, middle, i, sent, line);
    }

    static lemma TaskLinesNone(infos: seq<TaskInfo>)
      requires infos == []
      ensures TaskLines(infos) == []
    {
    }

    static method BuildTaskLine(task: Task) returns (line: string)
      ensures line == TaskLine(task.Info())
    {
      var app := Encode(task.appId);
      var title := Encode(task.title);
      var flags := task.GetStateString();
      var state := Encode(flags);
      line := "task\tt" + (Decimal(task.id) + ("\t" + (app + ("\t" + (title + ("\t" + state))))));
    }

    static lemma TaskLinesStep(tasks: seq<Task>, i: nat)
      requires i < |tasks|
      ensures TaskLines(Infos(tasks[i..]))
           == (if tasks[i].closed then [] else [TaskLine(tasks[i].Info())]) + TaskLines(Infos(tasks[i + 1..]))
    {
      hide TaskLine;
      assert tasks[i..][1..] == tasks[i + 1..];
      assert Infos(tasks[i..])[1..] == Infos(tasks[i + 1..]);
    }

    // Two sends to one client are one longer one.
    lemma QueuedTwice(before: seq<Client>, middle: seq<Client>, i: nat, sent: seq<string>, line: string)
      requires i < |before| && middle == before[i := before[i].(output := before[i].output + Wire(sent))]
      requires Queued(middle, i, Wire([line]))
      ensures Queued(before, i, Wire(sent + [line]))
    {
      WireAppend(sent, [line]);
      Assoc(before[i].output, Wire(sent), Wire([line]));
    }

    // History only: why the last lines were queued.
    ghost method Record(i: nat, c: Client)
      requires Valid() && i < |histories| && WithoutHistory(c) == clients[i]
      modifies this`histories
      ensures Valid() && histories == old(histories)[i := c]
    {
      histories := histories[i := c];
    }

    method BroadcastSnapshot()
      requires Valid()
      modifies this`clients, this`histories
      ensures Valid() && histories == PushAll(old(histories), Infos(tasks))
    {
      hide SnapshotLines, Wire;
      ghost var infos, before := Infos(tasks), histories;
      for i := 0 to |clients|
        invariant Valid() && |clients| == |before|
        invariant forall k :: 0 <= k < i ==> histories[k] == PushSnapshot(before[k], infos)
        invariant forall k :: i <= k < |before| ==> histories[k] == before[k]
      {
        if clients[i].subscribed {
          SendSnapshot(i);
          Record(i, histories[i].(units := histories[i].units + [Broadcast(SnapshotLines(infos))]));
        }
      }
    }

    // ---- commands --------------------------------------------------------------------

    // A request to the compositor.
    ghost method Request(q: Request)
      requires Valid()
      modifies this`log
      ensures Valid() && log == old(log) + [Sent(q)]
    {
      log := log + [Sent(q)];
    }

    method ActivateTask(task: Task) returns (ok: bool)
      requires Valid()
      modifies this`log
      ensures Valid() && ok == seat
      ensures log == old(log) + if seat then [Sent(Activate(task.handle))] else []
    {
      if !seat {
        return false;
      }
      Request(Activate(task.handle));
      return true;
    }

    // What `Agent.Respond` says for the line is what was queued and requested.
    ghost predicate Responded(before: seq<Client>, traffic: seq<Entry>, i: nat, a: Answer)
      reads this
    {
      && Valid() && i < |before|
      && histories == before[i := before[i].(subscribed := before[i].subscribed || a.subscribe,
                                             output := before[i].output + Wire(a.lines))]
      && log == traffic + SentAll(a.requests)
    }

    method Refuse(i: nat, r: Refusal)
      requires Valid() && i < |clients|
      modifies this`clients, this`histories
      ensures Responded(old(histories), old(log), i, Refused(r))
    {
      hide RefusalCode, RefusalText, Wire, ErrorLine;
      SendError(i, RefusalCode(r), RefusalText(r));
      assert log + SentAll([]) == log;
    }

    method Confirm(i: nat, verb: string, ghost traffic: seq<Entry>, ghost requests: seq<Agent.Request>)
      requires Valid() && i < |clients| && log == traffic + SentAll(requests)
      modifies this`clients, this`histories
      ensures Responded(old(histories), traffic, i, Accepted(verb, requests))
    {
      hide Wire, OkLine;
      SendOk(i, verb);
    }

    // The requests of one action; false when it needs a seat and there is none.
    method PerformAction(task: Task, verb: string, ghost action: TaskAction) returns (ok: bool)
      requires Valid() && CommandOf(verb) == ToTask(action)
      modifies this`log
      ensures Valid() && ok == !(action.DoActivate? && !seat)
      ensures log == old(log) + SentAll(if ok then ActionRequests(action, seat, task.handle) else [])
    {
      hide CommandOf;
      AgentCommands.VerbAction(verb, action);
      ok := true;
      if verb == "activate" {
        ok := ActivateTask(task);
      } else if verb == "minimize" {
        Request(SetMinimized(task.handle));
      } else if verb == "restore" {
        Request(UnsetMinimized(task.handle));
        var _ := ActivateTask(task);
      } else if verb == "close" {
        Request(CloseToplevel(task.handle));
      }
    }

    // activate, minimize, restore and close, with a task id.
    method TaskCommand(i: nat, verb: string, ghost action: TaskAction, id: string)
      requires Valid() && i < |clients| && CommandOf(verb) == ToTask(action)
      modifies this`clients, this`histories, this`log
      ensures var infos := Infos(tasks);
        Responded(old(histories), old(log), i, Act(infos, seat, verb, action, FindTask(infos, id), NoTask))
    {
      hide Refused, Accepted, FindTask, Infos, CommandOf, Wire, ActionRequests;
      ghost var traffic := log;
      var task := LookUpTask(id);
      if task == null {
        Refuse(i, NoTask);
        return;
      }
      var ok := PerformAction(task, verb, action);
      if !ok {
        assert log == traffic + [];
        assert traffic + [] == traffic;
        Refuse(i, NoSeat);
        return;
      }
      Confirm(i, verb, traffic, ActionRequests(action, seat, task.handle));
    }

    method FocusShellCommand(i: nat, verb: string)
      requires Valid() && i < |clients|
      modifies this`clients, this`histories, this`log
      ensures var infos := Infos(tasks);
        Responded(old(histories), old(log), i, Act(infos, seat, verb, DoActivate, ShellTask(infos), NoShell))
    {
      hide Refused, Accepted, ShellTask, Infos, Wire;
      ghost var traffic := log;
      var task := LookUpShell();
      if task == null {
        Refuse(i, NoShell);
        return;
      }
      var ok := ActivateTask(task);
      if !ok {
        assert traffic + [] == traffic;
        Refuse(i, NoSeat);
        return;
      }
      Confirm(i, verb, traffic, [Activate(task.handle)]);
    }

    method ActiveIsShellCommand(i: nat, verb: string)
      requires Valid() && i < |clients|
      modifies this`clients, this`histories, this`log
      ensures var target := ActiveTask(Infos(tasks), true);
        Responded(old(histories), old(log), i,
          if target.Some? && IsShell(Infos(tasks)[target.value]) then Accepted(verb, []) else Refused(ShellNotActive))
    {
      hide Refused, Accepted, ActiveTask, Infos, Wire, IsShell;
      var task := LookUpActive(true);
      if task != null && task.IsShellTask() {
        assert log == log + SentAll([]);
        Confirm(i, verb, log, []);
      } else {
        Refuse(i, ShellNotActive);
      }
    }

    method ActiveCommand(i: nat, verb: string, ghost action: TaskAction)
      requires Valid() && i < |clients| && (action.DoMinimize? || action.DoClose?)
      requires verb == "minimize-active" <==> action.DoMinimize?
      modifies this`clients, this`histories, this`log
      ensures var infos := Infos(tasks);
        Responded(old(histories), old(log), i, Act(infos, seat, verb, action, ActiveTask(infos, false), NoActive))
    {
      hide Refused, Accepted, ActiveTask, Infos, Wire;
      ghost var traffic := log;
      var task := LookUpActive(false);
      if task == null {
        Refuse(i, NoActive);
        return;
      }
      if verb == "minimize-active" {
        Request(SetMinimized(task.handle));
      } else {
        Request(CloseToplevel(task.handle));
      }
      Confirm(i, verb, traffic, ActionRequests(action, seat, task.handle));
    }

    lemma NothingResponded(i: nat)
      requires Valid() && i < |clients|
      ensures Responded(histories, log, i, Answer([], [], false))
    {
      assert log + SentAll([]) == log;
      assert histories[i].output + Wire([]) == histories[i].output;
    }

    method HelloCommand(i: nat)
      requires Valid() && i < |clients|
      modifies this`clients, this`histories
      ensures Responded(old(histories), log, i, Answer([HelloLine()], [], false))
    {
      hide Wire;
      Send(i, "hello\tZWA1\tzero-window-agent");
      assert log + SentAll([]) == log;
    }

    method ListCommand(i: nat)
      requires Valid() && i < |clients|
      modifies this`clients, this`histories
      ensures Responded(old(histories), log, i, Answer(SnapshotLines(Infos(tasks)), [], false))
    {
      hide Wire, SnapshotLines;
      SendSnapshot(i);
      assert log + SentAll([]) == log;
    }

    method SubscribeCommand(i: nat)
      requires Valid() && i < |clients|
      modifies this`clients, this`histories
      ensures Responded(old(histories), log, i, Answer(SnapshotLines(Infos(tasks)), [], true))
    {
      hide Wire, SnapshotLines;
      clients := clients[i := clients[i].(subscribed := true)];
      histories := histories[i := histories[i].(subscribed := true)];
      SendSnapshot(i);
      assert log + SentAll([]) == log;
    }

    // Everything a line makes the agent do, but for its record in the history.
    method Execute(i: nat, line: string)
      requires Valid() && i < |clients|
      modifies this`clients, this`histories, this`log
      ensures Responded(old(histories), old(log), i, Respond(Infos(tasks), seat, line))
    {
      var fields := SplitFields(line);
      var command := fields[0];
      AgentCommands.VerbCommand(command);
      hide CommandOf, Responded, Refused, Accepted, Act, FindTask, ActiveTask, ShellTask, Infos, SnapshotLines;
      hide SplitTabs, IsShell, HelloLine;
      if command == "" {
        NothingResponded(i);
      } else if command == "hello" {
        HelloCommand(i);
      } else if command == "list" {
        ListCommand(i);
      } else if command == "subscribe" {
        SubscribeCommand(i);
      } else if command == "activate" || command == "minimize" || command == "restore" || command == "close" {
        if |fields| < 2 {
          Refuse(i, MissingId);
        } else {
          TaskCommand(i, command, CommandOf(command).action, fields[1]);
        }
      } else if command == "focus-shell" {
        FocusShellCommand(i, command);
      } else if command == "active-is-shell" {
        ActiveIsShellCommand(i, command);
      } else if command == "minimize-active" || command == "close-active" {
        ActiveCommand(i, command, CommandOf(command).action);
      } else {
        Refuse(i, UnknownVerb(command));
      }
    }

    method HandleCommand(i: nat, line: string)
      requires Valid() && i < |clients|
      modifies this`clients, this`histories, this`log
      ensures Valid() && Abs() == Handle(old(Abs()), i, line)
    {
      hide Respond, Infos, Wire;
      Execute(i, line);
      ghost var c, a := old(histories[i]), Respond(Infos(tasks), seat, line);
      Record(i, Answered(c, line, a));
    }

    // ---- clients ------------------------------------------------------------------------

    // accept4 until it fails: the descriptors it returned.
    method AcceptClient(fds: seq<nat>)
      requires Valid()
      modifies this`clients, this`histories
      ensures Valid() && Abs() == AcceptAll(old(Abs()), fds)
    {
      hide Infos, NewClient;
      for n := 0 to |fds|
        invariant Valid()
        invariant AcceptAll(Abs(), fds[n..]) == AcceptAll(old(Abs()), fds)
      {
        assert fds[n..][0] == fds[n] && fds[n..][1..] == fds[n + 1..];
        AcceptOne(fds[n]);
      }
    }

    method AcceptOne(fd: nat)
      requires Valid()
      modifies this`clients, this`histories
      ensures Valid() && Abs() == Accept(old(Abs()), fd)
    {
      hide Infos;
      clients := clients + [Connection(fd, false, "", "")];
      histories := histories + [NewClient(fd)];
    }

    // Take the first complete line out of the buffer and handle it.
    method HandleNextLine(i: nat, newline: nat)
      requires Valid() && i < |clients| && newline < |clients[i].input|
      requires clients[i].input[newline] == '\n' && Free('\n', clients[i].input[..newline])
      modifies this`clients, this`histories, this`log
      ensures Valid() && Abs() == HandleFirst(old(Abs()), i)
    {
      hide Infos, Handle;
      var input := clients[i].input;
      NewlineUnique(input, newline);
      var line := input[..newline];
      if line != "" && Last(line) == '\r' {
        line := Init(line);
      }
      clients := clients[i := clients[i].(input := input[newline + 1..])];
      histories := histories[i := histories[i].(input := input[newline + 1..])];
      HandleCommand(i, line);
    }

    static lemma NewlineUnique(s: string, at: nat)
      requires at < |s| && s[at] == '\n' && Free('\n', s[..at])
      ensures !Free('\n', s) && FirstNewline(s) == at
    {
      var first := FirstNewline(s);
      assert forall k :: 0 <= k < at ==> s[k] == s[..at][k];
      assert forall k :: 0 <= k < first ==> s[k] == s[..first][k];
    }

    method DrainInput(i: nat)
      requires Valid() && i < |clients|
      modifies this`clients, this`histories, this`log
      ensures Valid() && Abs() == Drain(old(Abs()), i)
    {
      hide Infos, HandleFirst;
      ghost var goal := Drain(Abs(), i);
      while true
        invariant Valid() && i < |clients| && tasks == old(tasks)
        invariant Drain(Abs(), i) == goal
        decreases |clients[i].input|
      {
        var newline := Find(clients[i].input, '\n', 0);
        assert clients[i].input[0..newline] == clients[i].input[..newline];
        if newline == |clients[i].input| {
          assert clients[i].input[..newline] == clients[i].input;
          return;
        }
        HandleNextLine(i, newline);
      }
    }

    method ReadClient(i: nat, results: seq<Read>) returns (keep: bool)
      requires Valid() && i < |clients|
      modifies this`clients, this`histories, this`log
      ensures Valid() && Served(Abs(), keep) == Agent.ReadClient(old(Abs()), i, results)
    {
      hide Infos, Drain;
      ghost var goal := Agent.ReadClient(Abs(), i, results);
      var next := 0;
      while next < |results|
        invariant next <= |results| && Valid() && i < |clients| && tasks == old(tasks)
        invariant Agent.ReadClient(Abs(), i, results[next..]) == goal
      {
        assert results[next..][0] == results[next] && results[next..][1..] == results[next + 1..];
        match results[next] {
        case Data(chunk) =>
          var input := clients[i].input + chunk;
          clients := clients[i := clients[i].(input := input)];
          histories := histories[i := histories[i].(input := input, received := histories[i].received + chunk)];
          if |input| > MAX_LINE {
            return false;
          }
          DrainInput(i);
        case Eof => return false;
        case ReadBlocked => return true;
        case ReadInterrupted =>
        case ReadFailed => return false;
        }
        next := next + 1;
      }
      return true;
    }

    static lemma FlushFields(st: State, i: nat, results: seq<Write>)
      requires i < |st.clients|
      ensures var c, d := st.clients[i], Agent.FlushClient(st, i, results).state.clients[i];
        var k := Min(|c.output|, AgentInvariants.Taking(results));
        0 <= k <= |c.output| && d.output == c.output[k..] && d.written == c.written + c.output[..k]
    {
      AgentInvariants.FlushTakes(st, i, results);
      hide AgentInvariants.Taking, Agent.FlushClient;
    }

    method FlushClient(i: nat, results: seq<Write>) returns (keep: bool)
      requires Valid() && i < |clients|
      modifies this`clients, this`histories
      ensures Valid() && Served(Abs(), keep) == Agent.FlushClient(old(Abs()), i, results)
      ensures var output := old(clients[i].output);
        var k := Min(|output|, AgentInvariants.Taking(results));
        clients[i].output == output[k..] && histories[i].written == old(histories[i].written) + output[..k]
    {
      hide Infos, AgentInvariants.Taking;
      FlushFields(Abs(), i, results);
      ghost var goal := Agent.FlushClient(Abs(), i, results);
      var next := 0;
      while clients[i].output != "" && next < |results|
        invariant next <= |results| && Valid() && i < |clients|
        invariant Agent.FlushClient(Abs(), i, results[next..]) == goal
        decreases |results| - next
      {
        assert results[next..][0] == results[next] && results[next..][1..] == results[next + 1..];
        match results[next] {
        case Took(n) =>
          var count := Min(n, |clients[i].output|);
          if count == 0 {
            return false;
          }
          clients := clients[i := clients[i].(output := clients[i].output[count..])];
          histories := histories[i := Wrote(histories[i], count)];
        case WriteBlocked => return true;
        case WriteInterrupted =>
        case WriteFailed => return false;
        }
        next := next + 1;
      }
      return true;
    }

    method CloseClient(i: nat)
      requires Valid() && i < |clients|
      modifies this`clients, this`histories
      ensures Valid() && Abs() == Drop(old(Abs()), i)
    {
      hide Infos;
      clients := clients[..i] + clients[i + 1..];
      histories := histories[..i] + histories[i + 1..];
    }

    // ---- the main loop --------------------------------------------------------------------

    // The client at `i`, judged by what poll reported for entry `i`.
    method ServeClient(i: nat, entry: PollEntry, io: Io) returns (keep: bool)
      requires Valid() && i < |clients|
      modifies this`clients, this`histories, this`log
      ensures Valid() && Served(Abs(), keep) == Serve(old(Abs()), i, entry, io)
    {
      hide Infos, Agent.ReadClient, Agent.FlushClient;
      keep := true;
      if entry.error {
        keep := false;
      }
      if keep && entry.readable {
        keep := ReadClient(i, io.readResults);
      }
      if keep && entry.writable {
        keep := FlushClient(i, io.writeResults);
      }
    }

    method ServeClients(entries: seq<PollEntry>, io: seq<Io>)
      requires Valid()
      modifies this`clients, this`histories, this`log
      ensures Valid() && Abs() == ServePass(old(Abs()), entries, io)
    {
      hide Infos, Serve;
      ghost var start, drops := Abs(), 0;
      var i, visits := 0, 0;
      while i < |clients|
        invariant i <= |clients| && Valid() && tasks == old(tasks)
        invariant visits <= |start.clients| && Pass(Abs(), i, drops) == PassAt(start, entries, io, visits)
        decreases |clients| - i
      {
        var entry := if i < |entries| then entries[i] else QUIET;
        var keep := ServeClient(i, entry, if visits < |io| then io[visits] else Io([], []));
        visits := visits + 1;
        if !keep {
          CloseClient(i);
          drops := drops + 1;
        } else {
          i := i + 1;
        }
      }
    }

    method DispatchAll(events: seq<Event>)
      requires Valid()
      modifies this, tasks
      ensures Valid() && Abs() == OnEvents(old(Abs()), events)
      ensures forall k :: 0 <= k < |tasks| ==> tasks[k] in old(tasks) || fresh(tasks[k])
    {
      hide Infos, OnEvent;
      ghost var goal := OnEvents(Abs(), events);
      for n := 0 to |events|
        invariant Valid() && OnEvents(Abs(), events[n..]) == goal
        invariant forall k :: 0 <= k < |tasks| ==> tasks[k] in old(tasks) || fresh(tasks[k])
      {
        assert events[n..][0] == events[n] && events[n..][1..] == events[n + 1..];
        Dispatch(events[n]);
      }
    }

    // The entries poll is given, one a client, with what it reports for them.
    method PollClients(revents: seq<PollEntry>) returns (entries: seq<PollEntry>)
      requires Valid()
      ensures entries == PolledEntries(revents, |clients|)
    {
      entries := [];
      for k := 0 to |clients|
        invariant |entries| == k && forall n :: 0 <= n < k ==> entries[n] == EntryAt(revents, n)
      {
        entries := entries + [EntryAt(revents, k)];
      }
    }

    method BroadcastIfChanged()
      requires Valid()
      modifies this`clients, this`histories, this`changed
      ensures Valid() && Abs() == BroadcastChange(old(Abs()))
    {
      hide Infos, PushAll;
      if changed {
        BroadcastSnapshot();
        changed := false;
      }
    }

    method StartTurn(pending: seq<Event>)
      requires Valid()
      modifies this, tasks
      ensures Valid() && Abs() == BroadcastChange(Prune(OnEvents(old(Abs()), pending)))
      ensures forall k :: 0 <= k < |tasks| ==> tasks[k] in old(tasks) || fresh(tasks[k])
    {
      hide Infos, OnEvents, Prune, BroadcastChange;
      DispatchAll(pending);
      PruneClosed();
      BroadcastIfChanged();
    }

    method RunTurn(turn: Turn) returns (goOn: bool)
      requires Valid()
      modifies this, tasks
      ensures Valid() && Served(Abs(), goOn) == OneTurn(old(Abs()), turn)
      ensures forall k :: 0 <= k < |tasks| ==> tasks[k] in old(tasks) || fresh(tasks[k])
    {
      hide Infos, OnEvents, BroadcastChange, Prune, AcceptAll, ServePass;
      StartTurn(turn.pending);
      match turn.poll {
        case PollInterrupted => return true;
        case PollFailed => return false;
        case TimedOut => return true;
        case Ready(events, displayLost, accepted, revents, io) =>
          var entries := PollClients(revents);
          DispatchAll(events);
          if displayLost {
            return false;
          }
          AcceptClient(accepted);
          ServeClients(entries, io);
          return true;
      }
    }

    // The main loop over the turns the environment brings.
    method RunLoop(turns: seq<Turn>)
      requires Valid()
      modifies this, tasks
      ensures Valid() && Abs() == Run(old(Abs()), turns)
    {
      hide Infos, OneTurn;
      ghost var goal := Run(Abs(), turns);
      var n := 0;
      while running && n < |turns|
        invariant n <= |turns| && Valid() && Run(Abs(), turns[n..]) == goal
        invariant forall k :: 0 <= k < |tasks| ==> tasks[k] in old(tasks) || fresh(tasks[k])
        decreases |turns| - n
      {
        assert turns[n..][0] == turns[n] && turns[n..][1..] == turns[n + 1..];
        var goOn := RunTurn(turns[n]);
        n := n + 1;
        if !goOn {
          return;
        }
      }
    }
  }

  // The agent from its start: whatever turns the environment brings, the object
  // the loop leaves behind has every property of the reachable states.
  method RunAgent(seat: bool, turns: seq<Turn>) returns (agent: WindowAgent)
    ensures fresh(agent) && agent.Valid() && agent.Abs() == Run(Initial(seat), turns)
    ensures AgentInvariants.Inv(agent.Abs())
    ensures AgentRuns.LegalTurns(Initial(seat), turns) ==> AgentInvariants.HandlesOk(agent.Abs())
  {
    agent := new WindowAgent(seat);
    agent.RunLoop(turns);
    AgentRuns.RunKeeps(seat, turns);
  }
}
