// What the agent answers: the shape of every reply, what a reader makes of it,
// and what an `ok` tells about the requests that were sent.
module AgentReplies {
  import opened Text
  import opened Codec
  import opened Tasks
  import opened Agent

  function CommandIn(line: string): Command { CommandOf(Verb(line)) }

  predicate ReplyVerb(v: string) {
    v == "hello" || v == "ok" || v == "error"
  }

  // One line that is not part of a snapshot.
  predicate OneLine(lines: seq<string>) {
    |lines| == 1 && ReplyVerb(Verb(lines[0])) && Free('\n', lines[0])
  }

  // The one-line replies to a line: a greeting, its confirmation, or a refusal.
  ghost predicate IsReply(request: string, lines: seq<string>) {
    || lines == [HelloLine()]
    || lines == [OkLine(Verb(request))]
    || exists r: Refusal :: lines == Refused(r).lines
  }

  predicate Numbered(tasks: seq<TaskInfo>) {
    forall k :: 0 <= k < |tasks| ==> tasks[k].id > 0
  }

  ghost predicate IsSnapshot(lines: seq<string>) {
    exists tasks :: Numbered(tasks) && lines == SnapshotLines(tasks)
  }

  predicate WantsSnapshot(c: Command) {
    c.ListTasks? || c.Subscribe?
  }

  ghost predicate UnitOk(u: Unit) {
    match u
    case Reply(request, lines) =>
      && !CommandIn(request).Nothing?
      && if WantsSnapshot(CommandIn(request)) then IsSnapshot(lines) else IsReply(request, lines)
    case Broadcast(lines) => IsSnapshot(lines)
  }

  lemma OkLineFields(request: string)
    ensures SplitTabs(OkLine(request)) == ["ok", request] && Free('\n', OkLine(request))
  {
    var word := "ok";
    PlainEncoded(word);
    TwoFields(word, request);
    assert OkLine(request) == word + ("\t" + Encoded(request));
  }

  lemma ErrorLineFields(code: string, message: string)
    ensures SplitTabs(ErrorLine(code, message)) == ["error", code, message] && Free('\n', ErrorLine(code, message))
  {
    var word := "error";
    PlainEncoded(word);
    ThreeFields(word, code, message);
    var rest := Encoded(code) + ("\t" + Encoded(message));
    assert ErrorLine(code, message) == word + ("\t" + rest);
  }

  lemma HelloFields()
    ensures SplitTabs(HelloLine()) == ["hello", "ZWA1", "zero-window-agent"] && Free('\n', HelloLine())
  {
    hide SplitTabs, Encoded, HelloLine;
    var a, b, c := "hello", "ZWA1", "zero-window-agent";
    PlainEncoded(a);
    PlainEncoded(b);
    PlainEncoded(c);
    HelloText(a, b, c);
    ThreeFields(a, b, c);
  }

  lemma HelloText(a: string, b: string, c: string)
    requires a == "hello" && b == "ZWA1" && c == "zero-window-agent"
    ensures HelloLine() == a + ("\t" + (b + ("\t" + c)))
  {
  }

  lemma TwoFields(a: string, b: string)
    ensures var line := Encoded(a) + ("\t" + Encoded(b)); SplitTabs(line) == [a, b] && Free('\n', line)
  {
    MessageCons(a, [b]);
    assert [a] + [b] == [a, b];
    SplitMessage([a, b]);
    assert Message([b]) == Encoded(b);
  }

  lemma ThreeFields(a: string, b: string, c: string)
    ensures var line := Encoded(a) + ("\t" + (Encoded(b) + ("\t" + Encoded(c))));
      SplitTabs(line) == [a, b, c] && Free('\n', line)
  {
    assert Message([c]) == Encoded(c);
    MessageCons(b, [c]);
    assert [b] + [c] == [b, c];
    MessageCons(a, [b, c]);
    assert [a] + [b, c] == [a, b, c];
    SplitMessage([a, b, c]);
  }

  // The reply to a line that does not ask for a snapshot is one of three lines.
  lemma RespondCases(tasks: seq<TaskInfo>, seat: bool, line: string)
    ensures var c, a := CommandIn(line), Respond(tasks, seat, line);
      && (c.Nothing? ==> a == Answer([], [], false))
      && (WantsSnapshot(c) ==> a == Answer(SnapshotLines(tasks), [], c.Subscribe?))
      && (!c.Nothing? && !WantsSnapshot(c) ==> !a.subscribe && |a.lines| == 1)
      && (!c.Nothing? && !WantsSnapshot(c) ==>
            a.lines[0] == HelloLine() || a.lines[0] == OkLine(Verb(line)) || exists r: Refusal :: a == Refused(r))
  {
    hide SplitTabs, CommandOf, SnapshotLines, OkLine, ErrorLine, HelloLine, FindTask, ActiveTask, ShellTask;
    hide ActionRequests, RefusalCode, RefusalText;
  }

  lemma RespondShape(tasks: seq<TaskInfo>, seat: bool, line: string)
    requires Numbered(tasks)
    ensures var c, a := CommandIn(line), Respond(tasks, seat, line);
      && (a.lines == [] <==> c.Nothing?)
      && (a.subscribe <==> c.Subscribe?)
      && (!c.Nothing? ==> UnitOk(Reply(line, a.lines)))
  {
    hide Respond, SplitTabs, SnapshotLines, OkLine, HelloLine, CommandOf, Refused;
    RespondCases(tasks, seat, line);
    var c, a := CommandIn(line), Respond(tasks, seat, line);
    if !c.Nothing? && !WantsSnapshot(c) {
      assert a.lines == [a.lines[0]];
    }
    SnapshotLong(tasks);
  }

  lemma ReplyIsOneLine(request: string, lines: seq<string>)
    requires IsReply(request, lines)
    ensures OneLine(lines)
  {
    HelloFields();
    OkLineFields(Verb(request));
    hide SplitTabs, OkLine, ErrorLine, HelloLine, RefusalCode, RefusalText;
    if r: Refusal :| lines == Refused(r).lines {
      ErrorLineFields(RefusalCode(r), RefusalText(r));
    }
  }

  lemma SkipsReply(r: Reader, line: string)
    requires ReplyVerb(Verb(line))
    ensures Observe(r, line) == r
  {
    hide SplitTabs, ReadTask;
    var b, t, e := "snapshot-begin", "task", "snapshot-end";
    assert |b| == 14 && |t| == 4 && |e| == 12;
  }

  // A reader between snapshots takes a snapshot unit as its last one and is not
  // disturbed by any other unit; either way it is between snapshots again.
  lemma UnitRead(u: Unit, r: Reader)
    requires UnitOk(u) && r.pending.None?
    ensures AllFree('\n', u.lines)
    ensures ObserveAll(r, u.lines).pending.None?
    ensures u.Reply? && !WantsSnapshot(CommandIn(u.request)) ==> ObserveAll(r, u.lines) == r
  {
    hide Observe, SnapshotLines, SplitTabs, CommandOf, IsReply;
    if u.Reply? && !WantsSnapshot(CommandIn(u.request)) {
      ReplyIsOneLine(u.request, u.lines);
      SkipsReply(r, u.lines[0]);
      assert u.lines == [u.lines[0]];
      ObserveOne(r, u.lines[0]);
    } else {
      var tasks :| Numbered(tasks) && u.lines == SnapshotLines(tasks);
      SnapshotRead(tasks, r);
    }
  }

  lemma SnapshotLong(tasks: seq<TaskInfo>)
    ensures |SnapshotLines(tasks)| >= 2
  {
  }

  // Requests only ever go to open tasks, and never destroy anything.
  lemma RequestsTargetOpen(tasks: seq<TaskInfo>, seat: bool, line: string)
    ensures forall q :: q in Respond(tasks, seat, line).requests ==>
      !q.Destroy? && exists k :: 0 <= k < |tasks| && !tasks[k].closed && tasks[k].handle == q.handle
  {
    hide SplitTabs, CommandOf, SnapshotLines, OkLine, ErrorLine, HelloLine, RefusalCode, RefusalText;
    hide FindTask, ActiveTask, ShellTask;
  }

  lemma OkIsNoOther(v: string)
    ensures HelloLine() != OkLine(v)
    ensures forall code, message :: ErrorLine(code, message) != OkLine(v)
  {
    HelloFields();
    OkLineFields(v);
    forall code, message
      ensures ErrorLine(code, message) != OkLine(v)
    {
      ErrorLineFields(code, message);
    }
  }

  // For every command that acts on the compositor, `ok` is answered exactly
  // when requests were sent; `active-is-shell` is answered `ok` exactly when the
  // first open activated task is the shell, and sends nothing.
  lemma OkMeansDone(tasks: seq<TaskInfo>, seat: bool, line: string)
    ensures var v, c, a := Verb(line), CommandIn(line), Respond(tasks, seat, line);
      && (!c.ActiveIsShell? ==> (a.lines == [OkLine(v)] <==> a.requests != []))
      && (c.ActiveIsShell? ==> a.requests == [])
      && (c.ActiveIsShell? ==>
            var active := ActiveTask(tasks, true);
            a.lines == [OkLine(v)] <==> active.Some? && IsShell(tasks[active.value]))
  {
    OkIsNoOther(Verb(line));
    SnapshotLong(tasks);
    hide SplitTabs, CommandOf, SnapshotLines, OkLine, ErrorLine, HelloLine, RefusalCode, RefusalText;
    hide FindTask, ActiveTask, ShellTask, IsShell;
  }

  function ActionVerb(action: TaskAction): string {
    match action
    case DoActivate => "activate"
    case DoMinimize => "minimize"
    case DoRestore => "restore"
    case DoClose => "close"
  }

  lemma ActionVerbs(action: TaskAction)
    ensures CommandOf(ActionVerb(action)) == ToTask(action)
  {
    match action
    case DoActivate => assert |"activate"| == 8;
    case DoMinimize => assert |"minimize"| == 8 && "activate"[0] != "minimize"[0];
    case DoRestore => assert |"restore"| == 7;
    case DoClose => assert |"close"| == 5 && "hello"[0] != "close"[0];
  }

  function ActionLine(action: TaskAction, id: nat): string {
    Message([ActionVerb(action), IdText(id)])
  }

  lemma ActionAnswer(tasks: seq<TaskInfo>, seat: bool, id: nat, action: TaskAction)
    ensures Respond(tasks, seat, ActionLine(action, id))
      == Act(tasks, seat, ActionVerb(action), action, FindTask(tasks, IdText(id)), NoTask)
  {
    ActionVerbs(action);
    SplitMessage([ActionVerb(action), IdText(id)]);
    hide SplitTabs, CommandOf, SnapshotLines, HelloLine, FindTask, ActiveTask, ShellTask, IsShell, Act, Message;
  }

  // An action sent with a printed id reaches the open task that has it, as the
  // requests the protocol has for it.
  lemma ActionOnPrintedId(tasks: seq<TaskInfo>, seat: bool, i: nat, id: nat, action: TaskAction)
    requires Ascending(tasks) && id > 0 && OpenAt(tasks, i, id)
    ensures var a, h := Respond(tasks, seat, ActionLine(action, id)), tasks[i].handle;
      && (action.DoActivate? ==> if seat then a.requests == [Activate(h)] else a == Refused(NoSeat))
      && (action.DoMinimize? ==> a.requests == [SetMinimized(h)])
      && (action.DoRestore? ==> a.requests == [UnsetMinimized(h)] + if seat then [Activate(h)] else [])
      && (action.DoClose? ==> a.requests == [CloseToplevel(h)])
      && (a.requests != [] ==> a.lines == [OkLine(ActionVerb(action))])
  {
    ActionAnswer(tasks, seat, id, action);
    PrintedIdResolves(tasks, id);
    hide OkLine, ErrorLine, RefusalCode, RefusalText, FindTask, OpenAt, ActionVerb, ActionLine, Respond;
  }

  // If no open task has it, whatever the reason, the action is refused with the
  // fields the protocol description gives, and requests nothing.
  lemma ActionOnGoneId(tasks: seq<TaskInfo>, seat: bool, id: nat, action: TaskAction)
    requires Ascending(tasks) && id > 0 && forall i: nat :: !OpenAt(tasks, i, id)
    ensures var a := Respond(tasks, seat, ActionLine(action, id));
      && a == Refused(NoTask) && a.requests == []
      && |a.lines| == 1 && SplitTabs(a.lines[0]) == ["error", "not-found", "task not found"]
  {
    ActionAnswer(tasks, seat, id, action);
    PrintedIdResolves(tasks, id);
    ErrorLineFields("not-found", "task not found");
    hide SplitTabs, FindTask, OpenAt, ActionVerb, ActionLine, Respond, ErrorLine;
  }
}
