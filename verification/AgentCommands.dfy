// The commands of the window agent one by one: what each verb, written out, does
// and answers (window-agent/zero-window-agent.cpp, handle_command).
module AgentCommands {
  import opened Text
  import opened Codec
  import opened Tasks
  import opened Agent
  import opened AgentReplies
  import opened Wrappers

  lemma VerbCommand(verb: string)
    ensures var c := CommandOf(verb);
      && (verb == "" <==> c.Nothing?)
      && (verb == "hello" <==> c.Hello?)
      && (verb == "list" <==> c.ListTasks?)
      && (verb == "subscribe" <==> c.Subscribe?)
      && (verb == "activate" || verb == "minimize" || verb == "restore" || verb == "close" <==> c.ToTask?)
      && (verb == "focus-shell" <==> c.FocusShell?)
      && (verb == "active-is-shell" <==> c.ActiveIsShell?)
      && (verb == "minimize-active" <==> c == ToActive(DoMinimize))
      && (verb == "close-active" <==> c == ToActive(DoClose))
      && (c.ToActive? ==> c.action.DoMinimize? || c.action.DoClose?)
  {
  }

  lemma VerbAction(verb: string, action: TaskAction)
    requires CommandOf(verb) == ToTask(action)
    ensures verb == "activate" <==> action.DoActivate?
    ensures verb == "minimize" <==> action.DoMinimize?
    ensures verb == "restore" <==> action.DoRestore?
    ensures verb == "close" <==> action.DoClose?
  {
  }

  // ---- answers, as a client of the protocol reads them --------------------------------

  // One line that confirms `verb`, and these requests.
  predicate Confirms(a: Answer, verb: string, requests: seq<Request>) {
    && |a.lines| == 1 && Free('\n', a.lines[0]) && SplitTabs(a.lines[0]) == ["ok", verb]
    && a.requests == requests && !a.subscribe
  }

  // One line that refuses, and no request.
  predicate Refuses(a: Answer, code: string, text: string) {
    && |a.lines| == 1 && Free('\n', a.lines[0]) && SplitTabs(a.lines[0]) == ["error", code, text]
    && a.requests == [] && !a.subscribe
  }

  lemma AcceptedConfirms(verb: string, requests: seq<Request>)
    ensures Confirms(Accepted(verb, requests), verb, requests)
  {
    OkLineFields(verb);
    hide SplitTabs, OkLine;
  }

  lemma RefusedRefuses(r: Refusal)
    ensures Refuses(Refused(r), RefusalCode(r), RefusalText(r))
  {
    ErrorLineFields(RefusalCode(r), RefusalText(r));
    hide SplitTabs, ErrorLine, RefusalCode, RefusalText;
  }

  // An action is refused without a target or the seat it needs, and confirmed with
  // its requests otherwise.
  lemma ActAnswer(
      tasks: seq<TaskInfo>, seat: bool, verb: string, action: TaskAction, target: Option<nat>, missing: Refusal)
    requires target.Some? ==> target.value < |tasks|
    ensures var a := Act(tasks, seat, verb, action, target, missing);
      && (target.None? ==> Refuses(a, RefusalCode(missing), RefusalText(missing)))
      && (target.Some? ==>
            if action.DoActivate? && !seat then Refuses(a, "unsupported", "no Wayland seat")
            else Confirms(a, verb, ActionRequests(action, seat, tasks[target.value].handle)))
  {
    hide Refuses, Confirms, Refused, Accepted, ActionRequests, RefusalCode, RefusalText;
    RefusedRefuses(missing);
    SeatMissing();
    if target.Some? {
      AcceptedConfirms(verb, ActionRequests(action, seat, tasks[target.value].handle));
    }
  }

  lemma SeatMissing()
    ensures Refuses(Refused(NoSeat), "unsupported", "no Wayland seat")
  {
    RefusedRefuses(NoSeat);
    hide Refuses, Refused;
  }

  // No answer is two of these.
  lemma OneAnswer(a: Answer, verb: string, requests: seq<Request>, code: string, text: string)
    requires Refuses(a, code, text)
    ensures !Confirms(a, verb, requests)
    ensures forall other, more :: Refuses(a, other, more) ==> other == code && more == text
  {
    hide SplitTabs;
    assert ["error", code, text][1] == code && ["error", code, text][2] == text;
    forall other, more | Refuses(a, other, more)
      ensures other == code && more == text
    {
      assert ["error", other, more][1] == other && ["error", other, more][2] == more;
    }
    assert |["ok", verb]| == 2;
  }

  // ---- verbs without a task -------------------------------------------------------------

  // A line without a verb does nothing; `hello` is greeted; `list` and `subscribe`
  // get a snapshot, and only the second subscribes.
  lemma PlainVerbs(tasks: seq<TaskInfo>, seat: bool, line: string)
    ensures var v, a := SplitTabs(line)[0], Respond(tasks, seat, line);
      && (v == "" ==> a == Answer([], [], false))
      && (v == "hello" ==>
            && |a.lines| == 1 && SplitTabs(a.lines[0]) == ["hello", "ZWA1", "zero-window-agent"]
            && a.requests == [] && !a.subscribe)
      && (v == "list" ==> a == Answer(SnapshotLines(tasks), [], false))
      && (v == "subscribe" ==> a == Answer(SnapshotLines(tasks), [], true))
  {
    VerbCommand(SplitTabs(line)[0]);
    HelloFields();
    hide SplitTabs, CommandOf, SnapshotLines, OkLine, ErrorLine, HelloLine, RefusalCode, RefusalText;
    hide FindTask, ActiveTask, ShellTask, Act;
  }

  predicate KnownVerb(v: string) {
    || v == "" || v == "hello" || v == "list" || v == "subscribe" || v == "activate" || v == "minimize"
    || v == "restore" || v == "close" || v == "focus-shell" || v == "active-is-shell" || v == "minimize-active"
    || v == "close-active"
  }

  // Any other verb is refused by its name.
  lemma UnknownVerbs(tasks: seq<TaskInfo>, seat: bool, line: string)
    requires !KnownVerb(SplitTabs(line)[0])
    ensures Refuses(Respond(tasks, seat, line), "unknown-command", SplitTabs(line)[0])
  {
    var v := SplitTabs(line)[0];
    VerbCommand(v);
    RefusedRefuses(UnknownVerb(v));
    CommandKinds(v);
    hide SplitTabs, CommandOf, SnapshotLines, OkLine, ErrorLine, HelloLine;
    hide FindTask, ActiveTask, ShellTask, Act, Refuses, Refused;
  }

  lemma CommandKinds(v: string)
    ensures var c := CommandOf(v); c.ToActive? ==> c.action.DoMinimize? || c.action.DoClose?
  {
  }

  // ---- verbs with a task id --------------------------------------------------------------

  // What the protocol has for a task verb.
  function RequestsFor(v: string, seat: bool, h: nat): seq<Request> {
    if v == "activate" then [Activate(h)]
    else if v == "minimize" then [SetMinimized(h)]
    else if v == "restore" then [UnsetMinimized(h)] + if seat then [Activate(h)] else []
    else [CloseToplevel(h)]
  }

  predicate TaskVerb(v: string) {
    v == "activate" || v == "minimize" || v == "restore" || v == "close"
  }

  // A task verb asks for an id; with one that names an open task it asks of that
  // task what the protocol has for it, but for want of a seat; with any other it
  // is refused.
  lemma TaskVerbs(tasks: seq<TaskInfo>, seat: bool, line: string)
    requires TaskVerb(SplitTabs(line)[0])
    ensures var f, a := SplitTabs(line), Respond(tasks, seat, line);
      && (|f| == 1 ==> Refuses(a, "bad-request", "missing task id"))
      && (|f| > 1 && FindTask(tasks, f[1]).None? ==> Refuses(a, "not-found", "task not found"))
      && (|f| > 1 && FindTask(tasks, f[1]).Some? ==>
            if f[0] == "activate" && !seat then Refuses(a, "unsupported", "no Wayland seat")
            else Confirms(a, f[0], RequestsFor(f[0], seat, tasks[FindTask(tasks, f[1]).value].handle)))
  {
    hide Refuses, Confirms, FindTask, Respond;
    var f := SplitTabs(line);
    VerbCommand(f[0]);
    var action := CommandOf(f[0]).action;
    VerbAction(f[0], action);
    TaskAnswer(tasks, seat, line, action);
    hide SplitTabs, CommandOf, Act, RequestsFor, ActionRequests;
    if |f| == 1 {
      RefusedRefuses(MissingId);
    } else {
      var target := FindTask(tasks, f[1]);
      ActAnswer(tasks, seat, f[0], action, target, NoTask);
      if target.Some? {
        VerbRequests(f[0], action, seat, tasks[target.value].handle);
      }
    }
  }

  lemma TaskAnswer(tasks: seq<TaskInfo>, seat: bool, line: string, action: TaskAction)
    requires CommandOf(SplitTabs(line)[0]) == ToTask(action)
    ensures var f := SplitTabs(line);
      Respond(tasks, seat, line)
      == if |f| < 2 then Refused(MissingId) else Act(tasks, seat, f[0], action, FindTask(tasks, f[1]), NoTask)
  {
    hide SplitTabs, CommandOf, SnapshotLines, OkLine, HelloLine, FindTask, ActiveTask, ShellTask, Act, Refused;
  }

  lemma VerbRequests(v: string, action: TaskAction, seat: bool, h: nat)
    requires CommandOf(v) == ToTask(action)
    ensures ActionRequests(action, seat, h) == RequestsFor(v, seat, h)
  {
    VerbAction(v, action);
    hide CommandOf;
  }

  // ---- verbs about the shell and the active task -------------------------------------------

  predicate ShellAt(tasks: seq<TaskInfo>, i: nat) {
    i < |tasks| && !tasks[i].closed
    && (tasks[i].appId == "cardputer-zero-shell" || tasks[i].title == "Cardputer Zero Shell")
  }

  predicate ActiveAt(tasks: seq<TaskInfo>, i: nat) {
    i < |tasks| && !tasks[i].closed && tasks[i].activated
  }

  predicate FirstShell(tasks: seq<TaskInfo>, i: nat) {
    ShellAt(tasks, i) && forall k: nat :: k < i ==> !ShellAt(tasks, k)
  }

  predicate FirstActive(tasks: seq<TaskInfo>, i: nat) {
    ActiveAt(tasks, i) && forall k: nat :: k < i ==> !ActiveAt(tasks, k)
  }

  // The first active task that is not the shell.
  predicate FirstActiveApp(tasks: seq<TaskInfo>, i: nat) {
    && ActiveAt(tasks, i) && !ShellAt(tasks, i)
    && forall k: nat :: k < i ==> !ActiveAt(tasks, k) || ShellAt(tasks, k)
  }

  lemma ShellFirst(tasks: seq<TaskInfo>)
    ensures forall i: nat :: ShellTask(tasks) == Some(i) <==> FirstShell(tasks, i)
    ensures ShellTask(tasks) == None <==> forall i: nat :: !ShellAt(tasks, i)
  {
    forall i: nat
      ensures ShellAt(tasks, i) <==> i < |tasks| && !tasks[i].closed && IsShell(tasks[i])
    {
    }
    hide IsShell, ShellAt;
    var r := ShellTask(tasks);
    assert r.Some? ==> FirstShell(tasks, r.value);
  }

  lemma ActiveFirst(tasks: seq<TaskInfo>)
    ensures forall i: nat :: ActiveTask(tasks, true) == Some(i) <==> FirstActive(tasks, i)
    ensures ActiveTask(tasks, true) == None <==> forall i: nat :: !ActiveAt(tasks, i)
  {
    hide IsShell;
    var r := ActiveTask(tasks, true);
    assert r.Some? ==> FirstActive(tasks, r.value);
  }

  lemma ActiveAppFirst(tasks: seq<TaskInfo>)
    ensures forall i: nat :: ActiveTask(tasks, false) == Some(i) <==> FirstActiveApp(tasks, i)
    ensures ActiveTask(tasks, false) == None <==> forall i: nat :: ActiveAt(tasks, i) ==> ShellAt(tasks, i)
  {
    forall i: nat
      ensures ShellAt(tasks, i) <==> i < |tasks| && !tasks[i].closed && IsShell(tasks[i])
    {
    }
    hide IsShell, ShellAt;
    var r := ActiveTask(tasks, false);
    assert r.Some? ==> FirstActiveApp(tasks, r.value);
  }

  // `focus-shell` activates the first open task the shell is known by, its app id
  // or its title; it is refused without a seat, and as not found exactly when
  // there is no such task.
  lemma FocusShellVerb(tasks: seq<TaskInfo>, seat: bool, line: string)
    requires SplitTabs(line)[0] == "focus-shell"
    ensures forall i: nat :: FirstShell(tasks, i) ==>
      if seat then Confirms(Respond(tasks, seat, line), "focus-shell", [Activate(tasks[i].handle)])
      else Refuses(Respond(tasks, seat, line), "unsupported", "no Wayland seat")
    ensures (forall i: nat :: !ShellAt(tasks, i))
      <==> Refuses(Respond(tasks, seat, line), "not-found", "shell task not found")
  {
    hide Refuses, Confirms, Respond, ShellTask, FirstShell, ShellAt;
    var a, target := Respond(tasks, seat, line), ShellTask(tasks);
    FocusAnswer(tasks, seat, line);
    ShellFirst(tasks);
    ActAnswer(tasks, seat, "focus-shell", DoActivate, target, NoShell);
    hide SplitTabs, Act;
    if target.Some? {
      assert FirstShell(tasks, target.value);
      var requests := ActionRequests(DoActivate, seat, tasks[target.value].handle);
      NotNotFound(a, "focus-shell", requests, "shell task not found");
    }
  }

  lemma FocusAnswer(tasks: seq<TaskInfo>, seat: bool, line: string)
    requires SplitTabs(line)[0] == "focus-shell"
    ensures Respond(tasks, seat, line) == Act(tasks, seat, "focus-shell", DoActivate, ShellTask(tasks), NoShell)
  {
    VerbCommand(SplitTabs(line)[0]);
    hide SplitTabs, CommandOf, SnapshotLines, OkLine, HelloLine, FindTask, ActiveTask, ShellTask, Act, Refused;
  }

  lemma NotNotFound(a: Answer, verb: string, requests: seq<Request>, text: string)
    requires Confirms(a, verb, requests) || Refuses(a, "unsupported", "no Wayland seat")
    ensures !Refuses(a, "not-found", text)
  {
    hide Refuses, Confirms;
    if Refuses(a, "not-found", text) {
      OneAnswer(a, verb, requests, "not-found", text);
    }
  }

  // The two commands of the key policy ask for the first open activated task that
  // is not the shell to be minimized or closed, and are refused exactly when
  // there is none.
  lemma ActiveVerbs(tasks: seq<TaskInfo>, seat: bool, line: string)
    requires SplitTabs(line)[0] == "minimize-active" || SplitTabs(line)[0] == "close-active"
    ensures var v, a := SplitTabs(line)[0], Respond(tasks, seat, line);
      && (forall i: nat :: FirstActiveApp(tasks, i) ==>
            Confirms(a, v, [if v == "minimize-active" then SetMinimized(tasks[i].handle)
                            else CloseToplevel(tasks[i].handle)]))
      && ((forall i: nat :: ActiveAt(tasks, i) ==> ShellAt(tasks, i))
          <==> Refuses(a, "not-found", "no active non-shell task"))
  {
    hide Refuses, Confirms, Respond, ActiveTask, FirstActiveApp, ShellAt, ActiveAt;
    var v, a, target := SplitTabs(line)[0], Respond(tasks, seat, line), ActiveTask(tasks, false);
    var action := if v == "minimize-active" then DoMinimize else DoClose;
    ActiveAnswer(tasks, seat, line, action);
    ActiveAppFirst(tasks);
    ActAnswer(tasks, seat, v, action, target, NoActive);
    hide SplitTabs, Act;
    if target.Some? {
      assert FirstActiveApp(tasks, target.value);
      NotNotFound(a, v, ActionRequests(action, seat, tasks[target.value].handle), "no active non-shell task");
    }
  }

  lemma ActiveAnswer(tasks: seq<TaskInfo>, seat: bool, line: string, action: TaskAction)
    requires (SplitTabs(line)[0] == "minimize-active" && action.DoMinimize?)
      || (SplitTabs(line)[0] == "close-active" && action.DoClose?)
    ensures Respond(tasks, seat, line)
      == Act(tasks, seat, SplitTabs(line)[0], action, ActiveTask(tasks, false), NoActive)
  {
    VerbCommand(SplitTabs(line)[0]);
    hide SplitTabs, CommandOf, SnapshotLines, OkLine, HelloLine, FindTask, ActiveTask, ShellTask, Act, Refused;
  }

  // `active-is-shell` is confirmed exactly when the first open activated task is
  // the shell, refused otherwise, and asks for nothing.
  lemma ActiveIsShellVerb(tasks: seq<TaskInfo>, seat: bool, line: string)
    requires SplitTabs(line)[0] == "active-is-shell"
    ensures var a := Respond(tasks, seat, line);
      if exists i: nat :: FirstActive(tasks, i) && ShellAt(tasks, i) then Confirms(a, "active-is-shell", [])
      else Refuses(a, "not-active", "shell is not active")
  {
    hide Refuses, Confirms, Respond, ActiveTask, FirstActive, ActiveAt;
    var target := ActiveTask(tasks, true);
    ActiveFirst(tasks);
    IsShellAnswer(tasks, seat, line);
    AcceptedConfirms("active-is-shell", []);
    RefusedRefuses(ShellNotActive);
    hide SplitTabs, Accepted, Refused;
    assert target.Some? ==> FirstActive(tasks, target.value);
  }

  lemma IsShellAnswer(tasks: seq<TaskInfo>, seat: bool, line: string)
    requires SplitTabs(line)[0] == "active-is-shell"
    ensures var target := ActiveTask(tasks, true);
      Respond(tasks, seat, line)
      == if target.Some? && IsShell(tasks[target.value]) then Accepted("active-is-shell", [])
         else Refused(ShellNotActive)
  {
    VerbCommand(SplitTabs(line)[0]);
    hide SplitTabs, CommandOf, SnapshotLines, OkLine, HelloLine;
    hide FindTask, ActiveTask, ShellTask, Act, Refused, Accepted, IsShell;
  }
}
