// What one turn of the agent's main loop does to each connection: bytes read, lines
// answered, bytes written, clients dropped and accepted
// (window-agent/zero-window-agent.cpp, run).
module AgentTurns {
  import opened Text
  import opened Framing
  import opened Tasks
  import opened Agent
  import opened AgentInvariants
  import opened AgentFraming
  import opened ServicePass
  import opened Wrappers

  // ---- lines read and answered ---------------------------------------------------------

  // The answers to lines in order: the lines queued, and the requests sent.
  function AnswerLines(tasks: seq<TaskInfo>, seat: bool, lines: seq<string>): seq<string> {
    if lines == [] then [] else Respond(tasks, seat, lines[0]).lines + AnswerLines(tasks, seat, lines[1..])
  }

  function AnswerRequests(tasks: seq<TaskInfo>, seat: bool, lines: seq<string>): seq<Request> {
    if lines == [] then [] else Respond(tasks, seat, lines[0]).requests + AnswerRequests(tasks, seat, lines[1..])
  }

  lemma {:induction false} AnswersAppend(tasks: seq<TaskInfo>, seat: bool, a: seq<string>, b: seq<string>)
    ensures AnswerLines(tasks, seat, a + b) == AnswerLines(tasks, seat, a) + AnswerLines(tasks, seat, b)
    ensures AnswerRequests(tasks, seat, a + b) == AnswerRequests(tasks, seat, a) + AnswerRequests(tasks, seat, b)
    decreases |a|
  {
    hide Respond;
    if a == [] {
      assert a + b == b;
    } else {
      assert (a + b)[1..] == a[1..] + b;
      AnswersAppend(tasks, seat, a[1..], b);
      var first := Respond(tasks, seat, a[0]);
      Assoc(first.lines, AnswerLines(tasks, seat, a[1..]), AnswerLines(tasks, seat, b));
      Assoc(first.requests, AnswerRequests(tasks, seat, a[1..]), AnswerRequests(tasks, seat, b));
    }
  }

  // Client `i` of `r` is that of `st` after these lines were answered.
  predicate HasAnswered(st: State, r: State, i: nat, lines: seq<string>)
    requires i < |st.clients| && i < |r.clients|
  {
    var c, d := st.clients[i], r.clients[i];
    && d.output == c.output + Wire(AnswerLines(st.tasks, st.seat, lines))
    && d.written == c.written
    && r.log == st.log + SentAll(AnswerRequests(st.tasks, st.seat, lines))
    && r.tasks == st.tasks && r.seat == st.seat
  }

  lemma AnsweredNothing(st: State, r: State, i: nat)
    requires i < |st.clients| && i < |r.clients|
    requires r.tasks == st.tasks && r.seat == st.seat && r.log == st.log
    requires r.clients[i].output == st.clients[i].output && r.clients[i].written == st.clients[i].written
    ensures HasAnswered(st, r, i, [])
  {
    assert st.clients[i].output + "" == st.clients[i].output && st.log + SentAll([]) == st.log;
  }

  lemma AnsweredMore(st: State, mid: State, r: State, i: nat, a: seq<string>, b: seq<string>)
    requires i < |st.clients| && i < |mid.clients| && i < |r.clients|
    requires HasAnswered(st, mid, i, a) && HasAnswered(mid, r, i, b)
    ensures HasAnswered(st, r, i, a + b)
  {
    hide Respond, Wire;
    AnswersAppend(st.tasks, st.seat, a, b);
    var x, y := AnswerLines(st.tasks, st.seat, a), AnswerLines(st.tasks, st.seat, b);
    WireAppend(x, y);
    Assoc(st.clients[i].output, Wire(x), Wire(y));
    var p, q := AnswerRequests(st.tasks, st.seat, a), AnswerRequests(st.tasks, st.seat, b);
    assert SentAll(p + q) == SentAll(p) + SentAll(q);
    Assoc(st.log, SentAll(p), SentAll(q));
  }

  lemma FirstAnswered(st: State, i: nat)
    requires i < |st.clients| && !Free('\n', st.clients[i].input)
    ensures var input := st.clients[i].input;
      HasAnswered(st, HandleFirst(st, i), i, [StripCr(input[..FirstNewline(input)])])
  {
    hide Respond, StripCr, Wire;
    var line := StripCr(st.clients[i].input[..FirstNewline(st.clients[i].input)]);
    var a := Respond(st.tasks, st.seat, line);
    assert [line][1..] == [] && a.lines + [] == a.lines && a.requests + [] == a.requests;
    assert AnswerLines(st.tasks, st.seat, [line]) == a.lines;
    assert AnswerRequests(st.tasks, st.seat, [line]) == a.requests;
  }

  // Draining answers exactly the lines of the buffer, in order.
  lemma {:induction false} DrainAnswers(st: State, i: nat)
    requires i < |st.clients|
    ensures HasAnswered(st, Drain(st, i), i, StripAll(Lines(st.clients[i].input)))
    decreases |st.clients[i].input|
  {
    hide HandleFirst, Lines, StripCr, HasAnswered, Respond;
    var input := st.clients[i].input;
    if Free('\n', input) {
      NothingDrained(st, i);
    } else {
      var next, line := HandleFirst(st, i), StripCr(input[..FirstNewline(input)]);
      FirstAnswered(st, i);
      FirstLineOf(st, i);
      DrainAnswers(next, i);
      hide Drain;
      var rest := StripAll(Lines(next.clients[i].input));
      AnsweredMore(st, next, Drain(next, i), i, [line], rest);
      assert StripAll(Lines(input)) == [line] + rest;
    }
  }

  lemma NothingDrained(st: State, i: nat)
    requires i < |st.clients| && Free('\n', st.clients[i].input)
    ensures HasAnswered(st, st, i, StripAll(Lines(st.clients[i].input)))
  {
    ResidueOfFree(st.clients[i].input);
    assert StripAll([]) == [];
    hide Lines, HasAnswered;
    AnsweredNothing(st, st, i);
  }

  lemma FirstLineOf(st: State, i: nat)
    requires i < |st.clients| && !Free('\n', st.clients[i].input)
    ensures var input := st.clients[i].input;
      Lines(input) == [input[..FirstNewline(input)]] + Lines(HandleFirst(st, i).clients[i].input)
  {
    hide Respond, Wire, Lines, StripCr;
    var input := st.clients[i].input;
    var at := FirstNewline(input);
    assert input == input[..at] + ['\n'] + input[at + 1..];
    LinesOfFirst(input[..at], input[at + 1..]);
  }

  // The lines that come out of chunks behind a buffered rest, until the buffer
  // overflows.
  function NewLines(rest: string, chunks: seq<Chunk>): seq<string>
    decreases |chunks|
  {
    if chunks == [] || |rest + chunks[0]| > 4096 then []
    else Lines(rest + chunks[0]) + NewLines(Residue(rest + chunks[0]), chunks[1..])
  }

  lemma {:induction false} NewLinesFed(f: Frame, chunks: seq<Chunk>)
    requires !f.rejected
    ensures FeedAll(f, chunks).lines == f.lines + NewLines(f.residue, chunks)
    decreases |chunks|
  {
    hide Lines, Residue;
    if chunks == [] {
      assert f.lines + [] == f.lines;
    } else {
      var g, input := Feed(f, chunks[0]), f.residue + chunks[0];
      if g.rejected {
        FeedRejected(g, chunks[1..]);
        assert f.lines + [] == f.lines;
      } else {
        NewLinesFed(g, chunks[1..]);
        Assoc(f.lines, Lines(input), NewLines(Residue(input), chunks[1..]));
      }
    }
  }

  // Whatever the reads do, each line that comes out of them is answered once, in
  // order, with what it queues and what it requests.
  lemma {:induction false} ReadAnswers(st: State, i: nat, results: seq<Read>)
    requires i < |st.clients|
    ensures HasAnswered(st, ReadClient(st, i, results).state, i,
                        StripAll(NewLines(st.clients[i].input, Brought(results))))
    decreases |results|
  {
    hide Drain, HasAnswered, Lines, Residue, StripCr;
    var c := st.clients[i];
    assert StripAll([]) == [];
    if results == [] || !(results[0].Data? || results[0].ReadInterrupted?) {
      AnsweredNothing(st, st, i);
    } else if results[0].ReadInterrupted? {
      ReadAnswers(st, i, results[1..]);
    } else {
      var chunk := results[0].chunk;
      var buffered := Buffer(st, i, chunk);
      assert Brought(results)[0] == chunk && Brought(results)[1..] == Brought(results[1..]);
      AnsweredNothing(st, buffered, i);
      if |c.input + chunk| <= 4096 {
        var next := Drain(buffered, i);
        DrainAnswers(buffered, i);
        DrainLines(buffered, i);
        ReadAnswers(next, i, results[1..]);
        var a, b := StripAll(Lines(c.input + chunk)), StripAll(NewLines(next.clients[i].input, Brought(results[1..])));
        AnsweredMore(st, buffered, next, i, [], a);
        AnsweredMore(st, next, ReadClient(next, i, results[1..]).state, i, [] + a, b);
        assert [] + a + b == StripAll(NewLines(c.input, Brought(results)));
      }
    }
  }

  // ---- one visit --------------------------------------------------------------------------

  // The chunks a visit reads: none unless input is reported.
  function Heard(entry: PollEntry, io: Io): seq<Chunk> {
    if entry.readable then Brought(io.readResults) else []
  }

  // Reading leaves the client connected: nothing ended the connection, and the
  // buffer never overflowed.
  predicate ReadsOn(c: Client, entry: PollEntry, io: Io) {
    entry.readable ==> !FeedAll(Frame([], c.input, false), Brought(io.readResults)).rejected && !Ends(io.readResults)
  }

  // The lines a visit handles, and the output there is once they are answered.
  function Handled(c: Client, entry: PollEntry, io: Io): seq<string> {
    StripAll(NewLines(c.input, Heard(entry, io)))
  }

  function Queued(c: Client, tasks: seq<TaskInfo>, seat: bool, lines: seq<string>): string {
    c.output + Wire(AnswerLines(tasks, seat, lines))
  }

  // How many bytes of it a visit writes.
  function Written(queued: string, entry: PollEntry, io: Io): (k: nat)
    ensures k <= |queued|
  {
    if entry.writable then Min(|queued|, Taking(io.writeResults)) else 0
  }

  predicate WritesOn(queued: string, entry: PollEntry, io: Io) {
    entry.writable ==> !Breaks(io.writeResults) || Taking(io.writeResults) >= |queued|
  }

  // What a visit does to a client without an error reported, and when it keeps it:
  // everything that came is received and its lines are handled and answered in
  // order; then what the socket takes of the output goes.
  lemma ServeDoes(st: State, i: nat, entry: PollEntry, io: Io)
    requires i < |st.clients| && !entry.error
    ensures var c, r := st.clients[i], Serve(st, i, entry, io);
      var d, lines := r.state.clients[i], Handled(c, entry, io);
      var queued := Queued(c, st.tasks, st.seat, lines);
      && d.handled == c.handled + lines
      && r.state.log == st.log + SentAll(AnswerRequests(st.tasks, st.seat, lines))
      && (r.keep <==> ReadsOn(c, entry, io) && WritesOn(queued, entry, io))
      && (ReadsOn(c, entry, io) ==>
            var k := Written(queued, entry, io);
            && d.received == c.received + Stream(Heard(entry, io))
            && d.output == queued[k..] && d.written == c.written + queued[..k])
  {
    hide ReadClient, FlushClient, HasAnswered, Flushed, Brought, Stream, NewLines;
    var c := st.clients[i];
    var read := if entry.readable then ReadClient(st, i, io.readResults) else Served(st, true);
    ReadDoes(st, i, entry, io, read);
    var d := read.state.clients[i];
    FlushTakes(read.state, i, io.writeResults);
    var flushed := FlushClient(read.state, i, io.writeResults).state.clients[i];
    FlushKept(d, flushed, Min(|d.output|, Taking(io.writeResults)));
    assert d.output[0..] == d.output && d.written + d.output[..0] == d.written;
  }

  lemma FlushKept(c: Client, d: Client, k: nat)
    requires Flushed(c, d, k)
    ensures d.handled == c.handled && d.received == c.received
    ensures k <= |c.output| && d.output == c.output[k..] && d.written == c.written + c.output[..k]
  {
  }

  lemma ReadDoes(st: State, i: nat, entry: PollEntry, io: Io, read: Served)
    requires i < |st.clients|
    requires read == if entry.readable then ReadClient(st, i, io.readResults) else Served(st, true)
    ensures var c, d := st.clients[i], read.state.clients[i];
      var lines := Handled(c, entry, io);
      && (read.keep <==> ReadsOn(c, entry, io))
      && d.handled == c.handled + lines
      && d.output == Queued(c, st.tasks, st.seat, lines) && d.written == c.written
      && read.state.log == st.log + SentAll(AnswerRequests(st.tasks, st.seat, lines))
      && (ReadsOn(c, entry, io) ==> d.received == c.received + Stream(Heard(entry, io)))
  {
    var c, f := st.clients[i], Frame([], st.clients[i].input, false);
    assert StripAll([]) == [] && c.handled + [] == c.handled;
    if entry.readable {
      hide ReadClient, Brought, FeedAll, NewLines, StripCr, Respond;
      ReadAnswers(st, i, io.readResults);
      ReadIsFeed(st, i, io.readResults, f, c.handled);
      NewLinesFed(f, Brought(io.readResults));
      assert [] + NewLines(c.input, Brought(io.readResults)) == NewLines(c.input, Brought(io.readResults));
    } else {
      hide HasAnswered;
      AnsweredNothing(st, st, i);
      assert NewLines(c.input, []) == [] && c.received + "" == c.received;
      NoAnswers(st, i);
    }
  }

  lemma NoAnswers(st: State, i: nat)
    requires i < |st.clients| && HasAnswered(st, st, i, [])
    ensures st.clients[i].output == Queued(st.clients[i], st.tasks, st.seat, [])
    ensures st.log == st.log + SentAll(AnswerRequests(st.tasks, st.seat, []))
  {
  }

  // ---- one turn -----------------------------------------------------------------------------

  function Polled(st: State, turn: Turn): seq<PollEntry>
    requires turn.poll.Ready?
  {
    PolledEntries(turn.poll.revents, |LoopTop(st, turn).clients|)
  }

  predicate IsServed(turn: Turn) {
    turn.poll.Ready? && !turn.poll.displayLost
  }

  lemma {:induction false} EventsLeaveClients(st: State, events: seq<Event>)
    ensures OnEvents(st, events).clients == st.clients
    decreases |events|
  {
    if events != [] {
      EventsLeaveClients(OnEvent(st, events[0]), events[1..]);
    }
  }

  lemma {:induction false} AcceptedStand(st: State, fds: seq<nat>)
    ensures var r := AcceptAll(st, fds);
      && |r.clients| == |st.clients| + |fds| && r.clients[..|st.clients|] == st.clients
      && r.tasks == st.tasks && r.seat == st.seat
      && forall k :: 0 <= k < |fds| ==> r.clients[|st.clients| + k] == NewClient(fds[k])
    decreases |fds|
  {
    hide NewClient;
    if fds == [] {
      assert st.clients[..|st.clients|] == st.clients;
    } else {
      var next := Accept(st, fds[0]);
      AcceptedStand(next, fds[1..]);
      var r := AcceptAll(st, fds);
      assert r.clients[..|st.clients|] == r.clients[..|next.clients|][..|st.clients|];
      forall k | 0 <= k < |fds|
        ensures r.clients[|st.clients| + k] == NewClient(fds[k])
      {
        if k == 0 {
          assert r.clients[|st.clients|] == r.clients[..|next.clients|][|st.clients|];
        } else {
          assert fds[1..][k - 1] == fds[k];
        }
      }
    }
  }

  // The state the clients of a turn are served in: the clients that were polled
  // stand first, as they were, and the accepted descriptors behind them, in
  // order, each a fresh connection.
  function Met(st: State, turn: Turn): (met: State)
    requires turn.poll.Ready?
    ensures var top := LoopTop(st, turn).clients;
      && |met.clients| == |top| + |turn.poll.accepted| && met.clients[..|top|] == top
      && forall k :: 0 <= k < |turn.poll.accepted| ==> met.clients[|top| + k] == NewClient(turn.poll.accepted[k])
  {
    var happened := OnEvents(LoopTop(st, turn), turn.poll.events);
    EventsLeaveClients(LoopTop(st, turn), turn.poll.events);
    AcceptedStand(happened, turn.poll.accepted);
    AcceptAll(happened, turn.poll.accepted)
  }

  // The manager's last event, and nothing else, stops the loop before its next turn.
  lemma {:induction false} FinishedStops(st: State, events: seq<Event>)
    ensures OnEvents(st, events).running <==> st.running && Finished !in events
    decreases |events|
  {
    if events != [] {
      FinishedStops(OnEvent(st, events[0]), events[1..]);
      assert events == [events[0]] + events[1..];
    }
  }

  // Once clients before it are all kept by their own entries, a client stands where
  // it stood to the end of the pass, as its own service left it.
  lemma {:induction false} StandsAfter(st: State, entries: seq<PollEntry>, io: seq<Io>, v: nat, w: nat)
    requires v < w <= |st.clients| && forall k :: 0 <= k <= v ==> KeptByOwn(st, entries, io, k)
    ensures v < |Survivors(st, entries, io, w)|
    ensures Survivors(st, entries, io, w)[v] == ServedBy(st, entries, io, v, v)
  {
    hide KeptByOwn, Stays, ServedBy, PassAt;
    if w == v + 1 {
      BeforeFirstDrop(st, entries, io, w);
    } else {
      StandsAfter(st, entries, io, v, w - 1);
    }
  }

  lemma ServedStands(st: State, entries: seq<PollEntry>, io: seq<Io>, v: nat)
    requires v < |st.clients| && forall k :: 0 <= k <= v ==> KeptByOwn(st, entries, io, k)
    ensures var left := ServePass(st, entries, io).clients;
      v < |left| && left[v] == ServedBy(st, entries, io, v, v)
  {
    hide KeptByOwn, ServedBy, ServePass, Survivors;
    PassLeavesSurvivors(st, entries, io);
    StandsAfter(st, entries, io, v, |st.clients|);
  }

  // When a client's own entry keeps it: no error or hang-up, and reads and writes
  // that go on.
  lemma OwnEntryKeepsIff(st: State, entries: seq<PollEntry>, io: seq<Io>, v: nat)
    requires v < |st.clients|
    ensures var c, entry := st.clients[v], EntryAt(entries, v);
      KeptByOwn(st, entries, io, v)
      <==> !entry.error && ReadsOn(c, entry, IoAt(io, v))
           && WritesOn(Queued(c, st.tasks, st.seat, Handled(c, entry, IoAt(io, v))), entry, IoAt(io, v))
  {
    if !EntryAt(entries, v).error {
      ServeDoes(st, v, EntryAt(entries, v), IoAt(io, v));
    }
    hide ReadClient, FlushClient, ReadsOn, WritesOn, Handled, Queued, EntryAt, IoAt;
  }

  // The main result about a turn: a polled client that is kept by its own entry, and
  // behind no client that is not, stands where it stood when the turn is over,
  // with what poll reported for it done.  What input brought is received, its
  // lines are handled and answered, and the output is shorter by what the
  // socket took.
  lemma TurnServes(st: State, turn: Turn, v: nat)
    requires IsServed(turn) && v < |LoopTop(st, turn).clients|
    requires forall k :: 0 <= k <= v ==> KeptByOwn(Met(st, turn), Polled(st, turn), turn.poll.io, k)
    ensures var c, met, left := LoopTop(st, turn).clients[v], Met(st, turn), OneTurn(st, turn).state.clients;
      var entry, io := EntryAt(turn.poll.revents, v), IoAt(turn.poll.io, v);
      var lines := Handled(c, entry, io);
      var queued := Queued(c, met.tasks, met.seat, lines);
      var k := Written(queued, entry, io);
      && v < |left|
      && left[v].received == c.received + Stream(Heard(entry, io))
      && left[v].handled == c.handled + lines
      && left[v].output == queued[k..] && left[v].written == c.written + queued[..k]
      && left[v].fd == c.fd
  {
    hide LoopTop, AcceptAll, OnEvents, ServePass, ReadsOn, WritesOn, Handled, Queued, Written, Heard, Serve, IoAt;
    var met, entries, io := Met(st, turn), Polled(st, turn), turn.poll.io;
    assert met.clients[v] == met.clients[..|LoopTop(st, turn).clients|][v];
    assert EntryAt(entries, v) == EntryAt(turn.poll.revents, v);
    ServedStands(met, entries, io, v);
    OwnEntryKeepsIff(met, entries, io, v);
    ServeDoes(met, v, EntryAt(entries, v), IoAt(io, v));
    ServedSocket(met, entries, io, v, v);
  }

  // If the first client to go by its own entry hung up, the turn ends with exactly
  // the clients before it.
  lemma TurnDropsHangup(st: State, turn: Turn, v: nat)
    requires IsServed(turn) && v < |LoopTop(st, turn).clients| && EntryAt(turn.poll.revents, v).error
    requires forall k :: 0 <= k < v ==> KeptByOwn(Met(st, turn), Polled(st, turn), turn.poll.io, k)
    ensures var left, top := OneTurn(st, turn).state.clients, LoopTop(st, turn).clients;
      |left| == v && forall k :: 0 <= k < v ==> left[k].fd == top[k].fd
  {
    hide LoopTop, AcceptAll, OnEvents, ServePass, ReadClient, FlushClient;
    var met, entries, io := Met(st, turn), Polled(st, turn), turn.poll.io;
    assert EntryAt(entries, v) == EntryAt(turn.poll.revents, v);
    OwnEntryKeepsIff(met, entries, io, v);
    FirstDropAt(met, entries, io, v);
    HangupsDropTheirOwnIff(met, entries, io);
    hide KeptByOwn, ServedBy;
    forall k | 0 <= k < v
      ensures ServePass(met, entries, io).clients[k].fd == LoopTop(st, turn).clients[k].fd
    {
      ServedSocket(met, entries, io, k, k);
      assert met.clients[k] == met.clients[..|LoopTop(st, turn).clients|][k];
    }
  }

  lemma FirstDropAt(st: State, entries: seq<PollEntry>, io: seq<Io>, v: nat)
    requires v < |st.clients| && !KeptByOwn(st, entries, io, v)
    requires forall k :: 0 <= k < v ==> KeptByOwn(st, entries, io, k)
    ensures FirstOwnDrop(st, entries, io, 0) == v
  {
    hide KeptByOwn;
    var j := FirstOwnDrop(st, entries, io, 0);
    assert j == |st.clients| || !KeptByOwn(st, entries, io, j);
  }

  // A connection accepted in the turn has no entry of its own.  It is left alone
  // unless more clients than there are new ones before it have been dropped; so
  // all new connections stand at the end, in order, when none was.
  lemma TurnAccepts(st: State, turn: Turn, q: nat)
    requires IsServed(turn) && q < |turn.poll.accepted|
    requires PassAt(Met(st, turn), Polled(st, turn), turn.poll.io, |LoopTop(st, turn).clients| + q).drops <= q
    ensures var polled, left := |LoopTop(st, turn).clients|, OneTurn(st, turn).state.clients;
      var drops := PassAt(Met(st, turn), Polled(st, turn), turn.poll.io, polled + q).drops;
      polled + q - drops < |left| && left[polled + q - drops] == NewClient(turn.poll.accepted[q])
  {
    hide LoopTop, AcceptAll, OnEvents, ServePass, NewClient, PassAt, ReadClient, FlushClient, Stays;
    var met, entries, io, v := Met(st, turn), Polled(st, turn), turn.poll.io, |LoopTop(st, turn).clients| + q;
    PassOffset(met, entries, io, v);
    StaysAsKept(met, entries, io, v);
    SurvivorsGrow(met, entries, io, v + 1, |met.clients|);
    PassLeavesSurvivors(met, entries, io);
  }

  lemma {:induction false} SurvivorsGrow(st: State, entries: seq<PollEntry>, io: seq<Io>, v: nat, w: nat)
    requires v <= w <= |st.clients|
    ensures Survivors(st, entries, io, v) <= Survivors(st, entries, io, w)
  {
    hide Stays, ServedBy, PassAt;
    if v < w {
      SurvivorsGrow(st, entries, io, v, w - 1);
    }
  }

  // ---- the top of a turn ----------------------------------------------------------------------

  // With nothing changed, nothing closed and no event, the top of a turn does
  // nothing at all: no snapshot is sent twice.
  lemma NothingToTell(st: State, turn: Turn)
    requires !st.changed && turn.pending == [] && forall k :: 0 <= k < |st.tasks| ==> !st.tasks[k].closed
    ensures LoopTop(st, turn) == st
  {
    NothingClosed(st.tasks);
    assert st.log + [] == st.log;
  }

  lemma {:induction false} NothingClosed(tasks: seq<TaskInfo>)
    requires forall k :: 0 <= k < |tasks| ==> !tasks[k].closed
    ensures OpenTasks(tasks) == tasks && Destroys(tasks) == []
  {
    if tasks != [] {
      assert forall k :: 0 <= k < |tasks[1..]| ==> tasks[1..][k] == tasks[k + 1];
      NothingClosed(tasks[1..]);
    }
  }

  // Pruning a task is a change to tell.
  lemma PruningIsTold(st: State)
    requires exists k :: 0 <= k < |st.tasks| && st.tasks[k].closed
    ensures Prune(st).changed
  {
  }

  // A change is told to every subscriber in one snapshot behind what was queued, and
  // to nobody else.
  lemma ToldOnce(st: State, k: nat)
    requires k < |st.clients| && Inv(st) && st.changed
    ensures var c, d := st.clients[k], BroadcastChange(st).clients[k];
      if !c.subscribed then d == c
      else exists lines ::
        && d.units == c.units + [Broadcast(lines)] && d.output == c.output + Wire(lines)
        && ObserveAll(NOTHING_READ, lines) == Reader(None, Some(View(st.tasks)))
  {
    hide ClientsOk, AllAtRest, Coherent, SnapshotLines, View;
    var c := st.clients[k];
    SnapshotRead(st.tasks, NOTHING_READ);
    assert BroadcastChange(st).clients[k] == PushSnapshot(c, st.tasks);
  }
}
