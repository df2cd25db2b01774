// The agent's read loop does what the framing model says, so the results about
// chunking and the line limit hold of the agent's own connections.
module AgentFraming {
  import opened Text
  import opened Framing
  import opened Agent
  import opened AgentInvariants

  // Draining handles exactly the lines of the buffer and leaves its residue.
  lemma {:induction false} DrainLines(st: State, i: nat)
    requires i < |st.clients|
    ensures var c, d := st.clients[i], Drain(st, i).clients[i];
      && d.handled == c.handled + StripAll(Lines(c.input)) && d.input == Residue(c.input)
      && d.received == c.received
    decreases |st.clients[i].input|
  {
    var c := st.clients[i];
    if Free('\n', c.input) {
      ResidueOfFree(c.input);
      hide Lines, Residue;
      assert c.handled + StripAll([]) == c.handled;
    } else {
      FirstHandled(st, i);
      var d := HandleFirst(st, i).clients[i];
      hide HandleFirst, Lines, Residue, StripCr;
      DrainLines(HandleFirst(st, i), i);
    }
  }

  lemma FirstHandled(st: State, i: nat)
    requires i < |st.clients| && !Free('\n', st.clients[i].input)
    ensures var c, d := st.clients[i], HandleFirst(st, i).clients[i];
      && d.handled + StripAll(Lines(d.input)) == c.handled + StripAll(Lines(c.input))
      && Residue(d.input) == Residue(c.input) && d.received == c.received
  {
    hide Respond, Wire, Lines, Residue, StripCr;
    var c := st.clients[i];
    var at := FirstNewline(c.input);
    var line, rest := c.input[..at], c.input[at + 1..];
    assert c.input == line + ['\n'] + rest;
    LinesOfFirst(line, rest);
    assert StripAll([line] + Lines(rest)) == [StripCr(line)] + StripAll(Lines(rest));
    Assoc(c.handled, [StripCr(line)], StripAll(Lines(rest)));
  }

  // The chunks that successive reads bring, signals apart, until one would block,
  // fails or finds the end of the stream; and whether they end the connection.
  function Brought(results: seq<Read>): seq<Chunk> {
    if results == [] then []
    else match results[0]
      case Data(chunk) => [chunk] + Brought(results[1..])
      case ReadInterrupted => Brought(results[1..])
      case _ => []
  }

  predicate Ends(results: seq<Read>) {
    results != [] &&
    match results[0]
    case Data(_) => Ends(results[1..])
    case ReadInterrupted => Ends(results[1..])
    case ReadBlocked => false
    case Eof => true
    case ReadFailed => true
  }

  // For any outcomes of its reads, the agent keeps a client exactly if they do not
  // end the connection and the framing model does not reject the chunks.  Unless
  // it rejects them, the lines handled, after those in `past`, are the model's
  // lines, stripped, with the model's rest behind them.
  lemma {:induction false} ReadIsFeed(st: State, i: nat, results: seq<Read>, f: Frame, past: seq<string>)
    requires i < |st.clients| && !f.rejected && f.residue == st.clients[i].input
    requires st.clients[i].handled == past + StripAll(f.lines)
    ensures var r, g := ReadClient(st, i, results), FeedAll(f, Brought(results));
      && (r.keep <==> !g.rejected && !Ends(results))
      && r.state.clients[i].input == g.residue
      && r.state.clients[i].handled == past + StripAll(g.lines)
      && (!g.rejected ==> r.state.clients[i].received == st.clients[i].received + Stream(Brought(results)))
    decreases |results|
  {
    hide Drain, Feed;
    if results != [] && results[0].Data? {
      var chunk, rest := results[0].chunk, results[1..];
      var buffered, g := Buffer(st, i, chunk), Feed(f, chunk);
      assert Brought(results)[0] == chunk && Brought(results)[1..] == Brought(rest);
      FedOne(st, i, chunk, f, past);
      if g.rejected {
        FeedRejected(g, Brought(rest));
      } else {
        ReadIsFeed(Drain(buffered, i), i, rest, g, past);
        Assoc(st.clients[i].received, chunk, Stream(Brought(rest)));
      }
    } else if results != [] && results[0].ReadInterrupted? {
      ReadIsFeed(st, i, results[1..], f, past);
    } else {
      assert st.clients[i].received + "" == st.clients[i].received;
    }
  }

  // One chunk: rejected exactly when the buffer grows too long.
  lemma FedOne(st: State, i: nat, chunk: Chunk, f: Frame, past: seq<string>)
    requires i < |st.clients| && !f.rejected && f.residue == st.clients[i].input
    requires st.clients[i].handled == past + StripAll(f.lines)
    ensures var buffered, g := Buffer(st, i, chunk), Feed(f, chunk);
      && (g.rejected <==> |buffered.clients[i].input| > MAX_LINE)
      && (g.rejected ==> buffered.clients[i].input == g.residue && g.lines == f.lines)
      && (!g.rejected ==>
            var d := Drain(buffered, i).clients[i];
            && d.input == g.residue && d.handled == past + StripAll(g.lines)
            && d.received == st.clients[i].received + chunk)
  {
    hide Drain, Lines, Residue, StripCr;
    DrainLines(Buffer(st, i, chunk), i);
    var input := f.residue + chunk;
    if |input| <= MAX_LINE {
      Assoc(past, StripAll(f.lines), StripAll(Lines(input)));
      assert StripAll(f.lines + Lines(input)) == StripAll(f.lines) + StripAll(Lines(input));
    }
  }

  // In every state of a run, so over any number of visits: a client whose lines
  // so far and in the reads to come are all at most 3584 bytes is kept by the
  // reads unless they end the connection themselves, however the bytes are cut
  // and whatever interrupts them, and all its lines are handled.
  lemma ShortLinesHandled(st: State, i: nat, results: seq<Read>)
    requires i < |st.clients| && Inv(st)
    requires ShortLines(st.clients[i].received + Stream(Brought(results)))
    ensures var r := ReadClient(st, i, results);
      var all := st.clients[i].received + Stream(Brought(results));
      && (r.keep <==> !Ends(results))
      && r.state.clients[i].received == all
      && r.state.clients[i].handled == StripAll(Lines(all)) && r.state.clients[i].input == Residue(all)
  {
    var c, chunks := st.clients[i], Brought(results);
    var all := c.received + Stream(chunks);
    var f := Frame(Lines(c.received), Residue(c.received), false);
    AccountedFor(st, i);
    hide ReadClient, Inv, Lines, Residue, Brought, FeedAll;
    ShortNeverOverflows(all);
    assert all[|c.received|..] == Stream(chunks) && all[..|c.received|] == c.received;
    NeverOverflows(all, |c.received|, f, chunks);
    assert [] + StripAll(f.lines) == StripAll(f.lines);
    ReadIsFeed(st, i, results, f, []);
    ResidueFree(c.received);
    FeedAllLines(f, chunks);
    LinesAppend(c.received, Stream(chunks));
    assert [] + StripAll(FeedAll(f, chunks).lines) == StripAll(FeedAll(f, chunks).lines);
  }

  lemma AccountedFor(st: State, i: nat)
    requires i < |st.clients| && Inv(st)
    ensures var c := st.clients[i]; c.input == Residue(c.received) && c.handled == StripAll(Lines(c.received))
  {
    hide OutputOk, RepliesOk, Coherent, Residue, Lines;
    var c := st.clients[i];
    assert ClientOk(c) && AtRest(c);
    ResidueOfFree(c.input);
    assert StripAll([]) == [] && c.handled + [] == c.handled;
  }
}
