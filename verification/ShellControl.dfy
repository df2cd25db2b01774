// The client of one command: sends a line to the window agent and reads until a
// newline (files/usr/local/bin/zero-shell-control, agent_command).
module ShellControl {
  import opened Text
  import opened Codec
  import opened Framing
  import opened Tasks
  import opened Agent
  import opened AgentReplies
  import opened AgentInvariants
  import opened AgentRuns
  import opened Wrappers

  const RECV_SIZE: nat := 4096

  type Received = s: string | 0 < |s| <= RECV_SIZE witness "x"

  // One recv: bytes, end of stream, or the socket's timeout.
  datatype Recv = Bytes(chunk: Received) | Closed | TimedOut

  // Where Python's splitlines ends a line.
  predicate LineBreak(c: char) {
    '\n' <= c <= '\r' || 0x1C as char <= c <= 0x1E as char || c == 0x85 as char || c == '\U{2028}' || c == '\U{2029}'
  }

  function FirstLine(data: string): string {
    if data == "" || LineBreak(data[0]) then "" else [data[0]] + FirstLine(data[1..])
  }

  const OK_PREFIX: string := "ok\t"

  function ExitFor(data: string): nat {
    if OK_PREFIX <= FirstLine(data) then 0 else 1
  }

  // What the recv loop has read when it stops, or nothing when it times out.
  function Collected(data: string, recvs: seq<Recv>): Option<string>
    decreases |recvs|
  {
    if '\n' in data then Some(data)
    else if recvs == [] then None
    else match recvs[0]
      case Bytes(chunk) => Collected(data + chunk, recvs[1..])
      case Closed => Some(data)
      case TimedOut => None
  }

  // The exit status; an exception in the script is a failure too.
  function StatusOf(recvs: seq<Recv>): nat {
    var data := Collected("", recvs);
    if data.None? then 1 else ExitFor(data.value)
  }

  method AgentCommand(recvs: seq<Recv>) returns (status: nat)
    ensures status == StatusOf(recvs)
  {
    var data := "";
    var n := 0;
    while '\n' !in data
      invariant n <= |recvs| && Collected(data, recvs[n..]) == Collected("", recvs)
      decreases |recvs| - n
    {
      if n == |recvs| {
        return 1;
      }
      assert recvs[n..][0] == recvs[n] && recvs[n..][1..] == recvs[n + 1..];
      match recvs[n] {
        case Bytes(chunk) => data := data + chunk;
        case Closed => break;
        case TimedOut => return 1;
      }
      n := n + 1;
    }
    var line := if data == "" then "" else FirstLine(data);
    status := if OK_PREFIX <= line then 0 else 1;
  }

  // The bytes all the recvs up to the end of the stream or a timeout bring.
  function Arriving(recvs: seq<Recv>): string
    decreases |recvs|
  {
    if recvs == [] || !recvs[0].Bytes? then "" else recvs[0].chunk + Arriving(recvs[1..])
  }

  lemma {:induction false} FirstLinePrefix(data: string)
    ensures FirstLine(data) <= data
    ensures |FirstLine(data)| < |data| ==> LineBreak(data[|FirstLine(data)|])
  {
    if data != "" && !LineBreak(data[0]) {
      FirstLinePrefix(data[1..]);
    }
  }

  // No line break stands in the prefix, so it is looked for in the data itself.
  lemma ExitIsPrefix(data: string)
    ensures ExitFor(data) == 0 <==> OK_PREFIX <= data
  {
    FirstLinePrefix(data);
    assert forall k :: 0 <= k < |OK_PREFIX| ==> !LineBreak(OK_PREFIX[k]);
    assert forall k :: 0 <= k < |FirstLine(data)| ==> FirstLine(data)[k] == data[k];
  }

  lemma {:induction false} CollectedPrefix(data: string, recvs: seq<Recv>)
    ensures Collected(data, recvs).Some? ==> Collected(data, recvs).value <= data + Arriving(recvs)
    ensures '\n' in data + Arriving(recvs) ==> Collected(data, recvs).Some? && '\n' in Collected(data, recvs).value
    decreases |recvs|
  {
    if '\n' !in data && recvs != [] && recvs[0].Bytes? {
      CollectedPrefix(data + recvs[0].chunk, recvs[1..]);
      Assoc(data, recvs[0].chunk, Arriving(recvs[1..]));
    } else {
      assert '\n' !in data ==> data + Arriving(recvs) == data;
    }
  }

  // Looking for the prefix in the first line, or in any bytes up to and past it.
  lemma PrefixInFirstLine(line: string, rest: string, data: string)
    requires Free('\n', line) && '\n' in data && data <= line + ['\n'] + rest
    ensures OK_PREFIX <= data <==> OK_PREFIX <= line
  {
    var k :| 0 <= k < |data| && data[k] == '\n';
    var all := line + ['\n'] + rest;
    assert data[k] == all[k];
    assert k >= |line|;
    assert data[|line|] == all[|line|] == '\n';
    assert forall n :: 0 <= n < |OK_PREFIX| ==> OK_PREFIX[n] != '\n';
    assert forall n :: 0 <= n < |line| ==> line[n] == data[n];
  }

  // However the reply is cut into reads, the exit status is 0 exactly when its
  // first line starts as a confirmation does.
  lemma StatusOfLine(line: string, rest: string, recvs: seq<Recv>)
    requires Free('\n', line)
    requires Arriving(recvs) <= line + ['\n'] + rest && '\n' in Arriving(recvs)
    ensures Collected("", recvs).Some?
    ensures ExitFor(Collected("", recvs).value) == 0 <==> OK_PREFIX <= line
  {
    CollectedPrefix("", recvs);
    assert "" + Arriving(recvs) == Arriving(recvs);
    var data := Collected("", recvs).value;
    ExitIsPrefix(data);
    PrefixInFirstLine(line, rest, data);
  }

  lemma SnapshotNotOk(lines: seq<string>)
    requires IsSnapshot(lines)
    ensures lines[0] == "snapshot-begin" && Free('\n', lines[0]) && !(OK_PREFIX <= lines[0])
  {
    var word := "snapshot-begin";
    assert word[0] != OK_PREFIX[0];
  }

  lemma ReplyOkIff(request: string, lines: seq<string>)
    requires IsReply(request, lines)
    ensures OK_PREFIX <= lines[0] <==> lines == [OkLine(Verb(request))]
  {
    ReplyIsOneLine(request, lines);
    assert lines == [lines[0]];
    if lines == [HelloLine()] {
      OkIsNoOther(Verb(request));
      assert HelloLine()[0] == 'h';
    } else if r: Refusal :| lines == Refused(r).lines {
      OkIsNoOther(Verb(request));
      hide RefusalCode, RefusalText;
      assert ErrorLine(RefusalCode(r), RefusalText(r))[0] == 'e';
    }
  }

  // How the recvs end when no newline comes: the peer closes, or time runs out.
  predicate EndsClosed(recvs: seq<Recv>)
    decreases |recvs|
  {
    recvs != [] && (recvs[0].Closed? || (recvs[0].Bytes? && EndsClosed(recvs[1..])))
  }

  lemma {:induction false} CollectedAll(data: string, recvs: seq<Recv>)
    requires '\n' !in data + Arriving(recvs)
    ensures Collected(data, recvs) == if EndsClosed(recvs) then Some(data + Arriving(recvs)) else None
    decreases |recvs|
  {
    if recvs != [] && recvs[0].Bytes? {
      Assoc(data, recvs[0].chunk, Arriving(recvs[1..]));
      CollectedAll(data + recvs[0].chunk, recvs[1..]);
    } else {
      assert data + Arriving(recvs) == data;
    }
  }

  // The exact status, for any outcomes: 0 if what came starts with the prefix and
  // either a newline came or the peer closed; a timeout before that is a failure.
  lemma StatusIff(recvs: seq<Recv>)
    ensures StatusOf(recvs) == 0 <==> "ok\t" <= Arriving(recvs) && ('\n' in Arriving(recvs) || EndsClosed(recvs))
  {
    var all := Arriving(recvs);
    assert "" + all == all;
    CollectedPrefix("", recvs);
    if '\n' in all {
      var data := Collected("", recvs).value;
      ExitIsPrefix(data);
      PrefixBeforeNewline(data, all);
    } else {
      CollectedAll("", recvs);
      ExitIsPrefix(all);
    }
  }

  lemma PrefixBeforeNewline(data: string, all: string)
    requires data <= all && '\n' in data
    ensures OK_PREFIX <= data <==> OK_PREFIX <= all
  {
    var k :| 0 <= k < |data| && data[k] == '\n';
    assert all[k] == '\n';
    assert forall n :: 0 <= n < |OK_PREFIX| ==> OK_PREFIX[n] != '\n';
    assert k < |OK_PREFIX| ==> !(OK_PREFIX <= all);
  }

  // Whatever of the reply comes, even none or a part of its first line: if the
  // status is 0, that line starts with the prefix.
  lemma ZeroNeedsPrefix(line: string, rest: string, recvs: seq<Recv>)
    requires Free('\n', line) && Arriving(recvs) <= line + ['\n'] + rest && StatusOf(recvs) == 0
    ensures OK_PREFIX <= line
  {
    CollectedPrefix("", recvs);
    assert "" + Arriving(recvs) == Arriving(recvs);
    var data := Collected("", recvs).value;
    ExitIsPrefix(data);
    var all := line + ['\n'] + rest;
    assert data <= all && OK_PREFIX <= all;
    assert all[|line|] == '\n';
    assert forall n :: 0 <= n < |OK_PREFIX| ==> OK_PREFIX[n] != '\n' && OK_PREFIX[n] == all[n];
    assert forall n :: 0 <= n < |line| ==> line[n] == all[n];
  }

  lemma UnitOkIff(u: Unit)
    requires UnitOk(u) && u.Reply?
    ensures AllFree('\n', u.lines) && u.lines != []
    ensures OK_PREFIX <= u.lines[0] <==> u.lines == [OkLine(Verb(u.request))]
  {
    hide CommandOf, SplitTabs, OkLine, SnapshotLines, IsReply, OK_PREFIX;
    UnitRead(u, NOTHING_READ);
    if WantsSnapshot(CommandIn(u.request)) {
      SnapshotNotOk(u.lines);
      NotOneLine(u.lines, OkLine(Verb(u.request)));
    } else {
      ReplyIsOneLine(u.request, u.lines);
      ReplyOkIff(u.request, u.lines);
    }
  }

  // A connection that brought at most one command, not `subscribe`, queues no
  // more than its reply; the status is 0 only for the `ok` to it, and always for
  // that once a whole line of the reply has come.
  lemma OneCommandStatus(c: Client, command: string, recvs: seq<Recv>)
    requires ClientOk(c) && (c.handled == [] || c.handled == [command])
    requires !CommandIn(command).Nothing? && !CommandIn(command).Subscribe?
    requires Arriving(recvs) <= c.written
    ensures StatusOf(recvs) == 0 ==> c.units == [Reply(command, [OkLine(Verb(command))])]
    ensures '\n' in Arriving(recvs) ==>
      (StatusOf(recvs) == 0 <==> c.units == [Reply(command, [OkLine(Verb(command))])])
  {
    hide CommandOf, SplitTabs, OkLine, UnitOk, ExitFor, Collected, Arriving, OK_PREFIX;
    UnitsOfOne(c, command);
    if c.units == [] {
      assert c.written == "" && Arriving(recvs) == "";
      NothingCame(recvs);
    } else {
      var u := c.units[0];
      assert UnitOk(u);
      UnitOkIff(u);
      WireFirst(c, u);
      var line, rest := u.lines[0], Wire(u.lines[1..]);
      if StatusOf(recvs) == 0 {
        ZeroNeedsPrefix(line, rest, recvs);
      }
      if '\n' in Arriving(recvs) {
        StatusOfLine(line, rest, recvs);
      }
    }
  }

  lemma NothingCame(recvs: seq<Recv>)
    requires Arriving(recvs) == ""
    ensures StatusOf(recvs) != 0
  {
    CollectedPrefix("", recvs);
  }

  lemma WireFirst(c: Client, u: Unit)
    requires OutputOk(c) && c.units == [u] && u.lines != []
    ensures c.written <= u.lines[0] + ['\n'] + Wire(u.lines[1..])
  {
    assert c.units[1..] == [] && u.lines + [] == u.lines;
    assert Queued(c.units) == u.lines;
  }

  // The units of such a connection: none before its command is handled, then the
  // reply.
  lemma UnitsOfOne(c: Client, command: string)
    requires RepliesOk(c) && (c.handled == [] || c.handled == [command])
    requires !CommandIn(command).Nothing? && !CommandIn(command).Subscribe?
    ensures if c.handled == [] then c.units == []
            else |c.units| == 1 && c.units[0].Reply? && c.units[0].request == command
  {
    hide CommandOf, SplitTabs, UnitOk;
    RepliedAll(c.units);
    if c.handled != [] {
      assert c.handled[1..] == [] && Commands(c.handled) == [command];
      assert Replied(c.units)[0] == command;
    }
  }

  // The same for every state the agent can reach, and the client that sent its
  // command and a newline, of which any part may have come: the four commands of
  // the script are such.
  lemma ReachableStatus(seat: bool, steps: seq<Step>, i: nat, command: string, recvs: seq<Recv>)
    requires i < |ApplyAll(Initial(seat), steps).clients|
    requires Free('\n', command) && StripCr(command) == command
    requires !CommandIn(command).Nothing? && !CommandIn(command).Subscribe?
    requires var c := ApplyAll(Initial(seat), steps).clients[i];
      c.received <= command + ['\n'] && Arriving(recvs) <= c.written
    ensures var ok := [Reply(command, [OkLine(Verb(command))])];
      var units := ApplyAll(Initial(seat), steps).clients[i].units;
      && (StatusOf(recvs) == 0 ==> units == ok)
      && ('\n' in Arriving(recvs) ==> (StatusOf(recvs) == 0 <==> units == ok))
  {
    var st := ApplyAll(Initial(seat), steps);
    var c := st.clients[i];
    StepsKeep(Initial(seat), steps);
    assert ClientOk(c);
    ReachableReplies(seat, steps, i);
    hide ApplyAll, Inv, ClientOk, RepliesOk, StatusOf, Arriving, CommandOf, SplitTabs, OkLine;
    OneLineCame(command, c.received);
    OneCommandStatus(c, command, recvs);
  }

  lemma OneLineCame(command: string, received: string)
    requires Free('\n', command) && StripCr(command) == command && received <= command + ['\n']
    ensures StripAll(Lines(received)) == if received == command + ['\n'] then [command] else []
  {
    hide Lines, Residue;
    var all := command + ['\n'];
    if received == all {
      assert all == command + ['\n'] + "";
      LinesOfFirst(command, "");
      ResidueOfFree("");
      assert [command] + [] == [command];
    } else {
      assert |received| <= |command|;
      assert forall k :: 0 <= k < |received| ==> received[k] == command[k];
      ResidueOfFree(received);
    }
  }

  lemma NotOneLine(lines: seq<string>, line: string)
    requires IsSnapshot(lines)
    ensures lines != [line] && lines != []
  {
    var tasks :| Numbered(tasks) && lines == SnapshotLines(tasks);
    SnapshotLong(tasks);
  }

  lemma {:induction false} RepliedAll(units: seq<Unit>)
    requires forall k :: 0 <= k < |units| ==> units[k].Reply?
    ensures |Replied(units)| == |units|
    ensures forall k :: 0 <= k < |units| ==> Replied(units)[k] == units[k].request
  {
    if units != [] {
      RepliedAll(units[1..]);
    }
  }
}
