// How the window agent cuts a client's byte stream into lines while it arrives
// in arbitrary reads (window-agent/zero-window-agent.cpp, read_client).
module Framing {
  import opened Text
  import opened Codec

  const MAX_LINE: nat := 4096
  const READ_SIZE: nat := 512

  // The bytes one successful read returns.
  type Chunk = s: string | 0 < |s| <= READ_SIZE witness "x"

  // The complete lines of a stream, and the newline-free rest behind them.
  function Lines(s: string): seq<string> { Init(SplitOn('\n', s)) }
  function Residue(s: string): string { Last(SplitOn('\n', s)) }

  function StripCr(line: string): string {
    if line != "" && Last(line) == '\r' then Init(line) else line
  }

  function StripAll(lines: seq<string>): (r: seq<string>)
    ensures |r| == |lines|
    ensures forall k :: 0 <= k < |lines| ==> r[k] == StripCr(lines[k])
  {
    seq(|lines|, k requires 0 <= k < |lines| => StripCr(lines[k]))
  }

  // One CR before the newline belongs to the line end, and no other does.
  lemma CrStripped(line: string)
    ensures StripCr(line + "\r") == line
    ensures line == "" || Last(line) != '\r' ==> StripCr(line) == line
  {
    assert Init(line + "\r") == line;
  }

  // A connection's input side: lines taken so far (before the CR strip), the
  // buffered rest, and whether a read overflowed the buffer.
  datatype Frame = Frame(lines: seq<string>, residue: string, rejected: bool)

  const FRESH: Frame := Frame([], "", false)

  function Feed(f: Frame, chunk: Chunk): Frame {
    if f.rejected then f
    else
      var input := f.residue + chunk;
      if |input| > MAX_LINE then Frame(f.lines, input, true)
      else Frame(f.lines + Lines(input), Residue(input), false)
  }

  function FeedAll(f: Frame, chunks: seq<Chunk>): Frame
    decreases |chunks|
  {
    if chunks == [] then f else FeedAll(Feed(f, chunks[0]), chunks[1..])
  }

  // The stream the reads bring.
  function Stream(chunks: seq<Chunk>): string {
    if chunks == [] then "" else chunks[0] + Stream(chunks[1..])
  }

  lemma LinesAppend(a: string, b: string)
    ensures Lines(a + b) == Lines(a) + Lines(Residue(a) + b)
    ensures Residue(a + b) == Residue(Residue(a) + b)
  {
    SplitAppend('\n', a, b);
  }

  lemma ResidueFree(s: string)
    ensures Free('\n', Residue(s)) && Lines(Residue(s)) == [] && Residue(Residue(s)) == Residue(s)
  {
    SplitFree('\n', s);
    SplitOfFree('\n', Residue(s));
  }

  lemma LinesLength(s: string)
    ensures |Residue(s)| <= |s|
    ensures forall k :: 0 <= k < |Lines(s)| ==> |Lines(s)[k]| < |s|
  {
    JoinSplit('\n', s);
    PartsBounded('\n', SplitOn('\n', s));
  }

  lemma {:induction false} PartsBounded(sep: char, parts: seq<string>)
    requires |parts| > 0
    ensures forall k :: 0 <= k < |parts| ==> |parts[k]| <= |Join(sep, parts)|
    ensures forall k :: 0 <= k < |parts| - 1 ==> |parts[k]| < |Join(sep, parts)|
  {
    if |parts| > 1 {
      PartsBounded(sep, parts[1..]);
      assert forall k :: 1 <= k < |parts| ==> parts[k] == parts[1..][k - 1];
    }
  }

  // From any point of a connection: an accepted stream yields exactly its own
  // lines and rest, and a rejected one yielded only a prefix of its lines.
  lemma {:induction false} FeedAllLines(f: Frame, chunks: seq<Chunk>)
    requires !f.rejected && Free('\n', f.residue)
    ensures var r := FeedAll(f, chunks);
      var s := f.residue + Stream(chunks);
      && r.lines <= f.lines + Lines(s)
      && (!r.rejected ==> r.lines == f.lines + Lines(s) && r.residue == Residue(s))
    decreases |chunks|
  {
    if chunks == [] {
      SplitOfFree('\n', f.residue);
      assert f.residue + Stream(chunks) == f.residue;
    } else {
      var g := Feed(f, chunks[0]);
      var input := f.residue + chunks[0];
      assert f.residue + Stream(chunks) == input + Stream(chunks[1..]);
      LinesAppend(input, Stream(chunks[1..]));
      if g.rejected {
        FeedRejected(g, chunks[1..]);
      } else {
        ResidueFree(input);
        FeedAllLines(g, chunks[1..]);
        assert f.lines + Lines(input) + Lines(Residue(input) + Stream(chunks[1..]))
            == f.lines + (Lines(input) + Lines(Residue(input) + Stream(chunks[1..])));
      }
    }
  }

  lemma {:induction false} FeedRejected(f: Frame, chunks: seq<Chunk>)
    requires f.rejected
    ensures FeedAll(f, chunks) == f
  {
    if chunks != [] {
      FeedRejected(f, chunks[1..]);
    }
  }

  // Framing of one connection does not depend on how its stream was cut up.
  lemma ChunkingIndependence(chunks: seq<Chunk>)
    ensures var r := FeedAll(FRESH, chunks);
      && r.lines <= Lines(Stream(chunks))
      && (!r.rejected ==> r.lines == Lines(Stream(chunks)) && r.residue == Residue(Stream(chunks)))
  {
    FeedAllLines(FRESH, chunks);
    assert "" + Stream(chunks) == Stream(chunks);
    assert [] + Lines(Stream(chunks)) == Lines(Stream(chunks));
  }

  lemma TwoChunkings(a: seq<Chunk>, b: seq<Chunk>)
    requires Stream(a) == Stream(b)
    requires !FeedAll(FRESH, a).rejected && !FeedAll(FRESH, b).rejected
    ensures FeedAll(FRESH, a) == FeedAll(FRESH, b)
  {
    ChunkingIndependence(a);
    ChunkingIndependence(b);
  }

  // A point of the stream where one read could overflow the buffer: what is
  // buffered before byte `p` together with as much as one read may take.
  predicate Overflows(s: string, p: nat)
    requires p <= |s|
  {
    |Residue(s[..p])| + (if |s| - p < 512 then |s| - p else 512) > 4096
  }

  // From byte `p` on, with the residue of the bytes before it in the buffer, no
  // chunking overflows when no later point can.
  lemma {:induction false} NeverOverflows(s: string, p: nat, f: Frame, chunks: seq<Chunk>)
    requires p <= |s| && s[p..] == Stream(chunks)
    requires !f.rejected && f.residue == Residue(s[..p])
    requires forall q :: p <= q <= |s| ==> !Overflows(s, q)
    ensures !FeedAll(f, chunks).rejected
    decreases |chunks|
  {
    if chunks != [] {
      var q := p + |chunks[0]|;
      assert q <= |s| by { assert |s[p..]| >= |chunks[0]|; }
      assert s[..q] == s[..p] + chunks[0];
      LinesAppend(s[..p], chunks[0]);
      assert !Overflows(s, p);
      assert s[q..] == s[p..][|chunks[0]|..];
      NeverOverflows(s, q, Feed(f, chunks[0]), chunks[1..]);
    }
  }

  // Single bytes up to `p`, one read of `n` bytes there, single bytes after it.
  function Cut(s: string, p: nat, n: nat): (chunks: seq<Chunk>)
    requires p + n <= |s| && 0 < n <= READ_SIZE
    ensures Stream(chunks) == s
    decreases |s|
  {
    if p > 0 then
      assert [s[0]] + s[1..] == s;
      [[s[0]]] + Cut(s[1..], p - 1, n)
    else if n < |s| then
      assert s[..n] + s[n..] == s;
      [s[..n]] + Cut(s[n..], 0, 1)
    else
      assert s[..n] == s;
      assert Stream([s]) == s + Stream([s][1..]);
      [s]
  }

  lemma CutStart(s: string, p: nat, n: nat)
    requires p + n <= |s| && 0 < n <= READ_SIZE
    ensures Cut(s, p, n) != []
    ensures p > 0 ==> Cut(s, p, n) == [[s[0]]] + Cut(s[1..], p - 1, n)
    ensures p == 0 ==> Cut(s, p, n)[0] == s[..n]
  {
  }

  lemma {:induction false} CutOverflows(f: Frame, s: string, p: nat, n: nat)
    requires p + n <= |s| && 0 < n <= READ_SIZE
    requires Free('\n', f.residue)
    requires |Residue(f.residue + s[..p])| + n > MAX_LINE
    ensures FeedAll(f, Cut(s, p, n)).rejected
    decreases p
  {
    hide Cut, Lines, Residue;
    var chunks := Cut(s, p, n);
    CutStart(s, p, n);
    var g := Feed(f, chunks[0]);
    if f.rejected {
      FeedRejected(f, chunks);
    } else if g.rejected {
      FeedRejected(g, chunks[1..]);
    } else if p == 0 {
      assert f.residue + s[..p] == f.residue;
      ResidueOfFree(f.residue);
      assert false;
    } else {
      var input, head := f.residue + [s[0]], s[1..][..p - 1];
      assert f.residue + s[..p] == input + head;
      LinesAppend(input, head);
      ResidueFree(input);
      CutOverflows(g, s[1..], p - 1, n);
    }
  }

  lemma ResidueOfFree(s: string)
    requires Free('\n', s)
    ensures Residue(s) == s && Lines(s) == []
  {
    SplitOfFree('\n', s);
  }

  // Exactly which streams some sequence of reads can get rejected.
  lemma RejectableIff(s: string)
    ensures (exists chunks: seq<Chunk> :: Stream(chunks) == s && FeedAll(FRESH, chunks).rejected)
       <==> (exists p :: 0 <= p <= |s| && Overflows(s, p))
  {
    if p :| 0 <= p <= |s| && Overflows(s, p) {
      LinesLength(s[..p]);
      var n := if |s| - p < READ_SIZE then |s| - p else READ_SIZE;
      if n == 0 {
        // the whole stream is one unfinished line that is already too long
        assert s[..p] == s;
        var q := LastByte(s);
        CutOverflows(FRESH, s, q, 1);
        assert Stream(Cut(s, q, 1)) == s;
      } else {
        assert "" + s[..p] == s[..p];
        CutOverflows(FRESH, s, p, n);
        assert Stream(Cut(s, p, n)) == s;
      }
    } else {
      forall chunks: seq<Chunk> | Stream(chunks) == s
        ensures !FeedAll(FRESH, chunks).rejected
      {
        assert s[0..] == s && s[..0] == "";
        NeverOverflows(s, 0, FRESH, chunks);
      }
    }
  }

  lemma LastByte(s: string) returns (q: nat)
    requires |Residue(s)| > MAX_LINE
    ensures q + 1 == |s|
    ensures |Residue("" + s[..q])| + 1 > MAX_LINE
  {
    LinesLength(s);
    q := |s| - 1;
    var head, tail := s[..q], [s[q]];
    assert s == head + tail && "" + head == head;
    LinesAppend(head, tail);
    if s[q] == '\n' {
      SplitAppend('\n', Residue(head), tail);
      SplitSeparator('\n');
      ResidueFree(head);
      SplitAppendFree('\n', Residue(head), tail);
      assert false;
    } else {
      ResidueFree(head);
      SplitOfFree('\n', Residue(head) + tail);
    }
  }

  lemma SplitSeparator(sep: char)
    ensures SplitOn(sep, [sep]) == ["", ""]
  {
    assert [sep][1..] == "";
  }

  // Lines of at most 3584 bytes, the unfinished one included.
  predicate ShortLines(s: string) {
    forall k :: 0 <= k < |SplitOn('\n', s)| ==> |SplitOn('\n', s)[k]| <= 3584
  }

  lemma ShortNeverOverflows(s: string)
    requires ShortLines(s)
    ensures forall q :: 0 <= q <= |s| ==> !Overflows(s, q)
  {
    forall q | 0 <= q <= |s|
      ensures !Overflows(s, q)
    {
      // what is buffered at `q` is the start of one of the lines of `s`
      assert s == s[..q] + s[q..];
      SplitAppend('\n', s[..q], s[q..]);
      ResidueFree(s[..q]);
      SplitAppendFree('\n', Residue(s[..q]), s[q..]);
      var k := |SplitOn('\n', s[..q])| - 1;
      assert SplitOn('\n', s)[k] == Residue(s[..q]) + SplitOn('\n', s[q..])[0];
    }
  }

  lemma ShortLinesAccepted(chunks: seq<Chunk>)
    requires ShortLines(Stream(chunks))
    ensures !FeedAll(FRESH, chunks).rejected
  {
    var s := Stream(chunks);
    ShortNeverOverflows(s);
    assert s[0..] == s && s[..0] == "";
    NeverOverflows(s, 0, FRESH, chunks);
  }

  // The bound is sharp: one byte more in a line, and enough bytes behind it,
  // and some sequence of reads is rejected.
  lemma LongLineRejectable(before: string, line: string, after: string)
    requires |line| == 3585 && Free('\n', line)
    requires before == "" || Last(before) == '\n'
    requires |after| >= 512
    ensures exists chunks: seq<Chunk> :: Stream(chunks) == before + line + after && FeedAll(FRESH, chunks).rejected
  {
    var s := before + line + after;
    var p := |before| + |line|;
    assert s[..p] == before + line;
    LinesAppend(before, line);
    assert Residue(before) == "" by {
      if before != "" {
        assert before == Init(before) + ['\n'];
        LinesAppend(Init(before), ['\n']);
        ResidueFree(Init(before));
        SplitSeparator('\n');
        SplitAppendFree('\n', Residue(Init(before)), ['\n']);
      }
    }
    assert "" + line == line;
    SplitOfFree('\n', line);
    assert Overflows(s, p);
    RejectableIff(s);
  }

  // No line that is handled ever exceeds 4095 bytes, before its CR is stripped.
  lemma {:induction false} HandledLineBound(f: Frame, chunks: seq<Chunk>)
    requires forall k :: 0 <= k < |f.lines| ==> |f.lines[k]| < 4096
    ensures forall k :: 0 <= k < |FeedAll(f, chunks).lines| ==> |FeedAll(f, chunks).lines[k]| < 4096
    decreases |chunks|
  {
    if chunks != [] {
      var input := f.residue + chunks[0];
      LinesLength(input);
      var g := Feed(f, chunks[0]);
      forall k | 0 <= k < |g.lines|
        ensures |g.lines[k]| < 4096
      {
        if k >= |f.lines| {
          assert !f.rejected && |input| <= MAX_LINE;
          assert g.lines[k] == Lines(input)[k - |f.lines|];
        }
      }
      HandledLineBound(g, chunks[1..]);
    }
  }

  // What a peer writes to send `lines`.
  function Wire(lines: seq<string>): string {
    if lines == [] then "" else lines[0] + ['\n'] + Wire(lines[1..])
  }

  lemma {:induction false} WireAppend(a: seq<string>, b: seq<string>)
    ensures Wire(a + b) == Wire(a) + Wire(b)
  {
    if a == [] {
      assert a + b == b;
    } else {
      assert (a + b)[1..] == a[1..] + b;
      WireAppend(a[1..], b);
    }
  }

  lemma WireOne(line: string)
    ensures Wire([line]) == line + ['\n']
  {
    assert [line][1..] == [];
  }

  lemma LinesOfFirst(line: string, rest: string)
    requires Free('\n', line)
    ensures Lines(line + ['\n'] + rest) == [line] + Lines(rest)
    ensures Residue(line + ['\n'] + rest) == Residue(rest)
  {
    SplitFirst('\n', line, rest);
    var parts := SplitOn('\n', line + ['\n'] + rest);
    assert Init(parts) == [line] + Init(SplitOn('\n', rest));
  }

  lemma {:induction false} LinesOfWire(lines: seq<string>)
    requires AllFree('\n', lines)
    ensures Lines(Wire(lines)) == lines && Residue(Wire(lines)) == ""
  {
    if lines != [] {
      LinesOfWire(lines[1..]);
      LinesOfFirst(lines[0], Wire(lines[1..]));
    }
  }

  function Messages(msgs: seq<seq<string>>): (lines: seq<string>)
    requires forall k :: 0 <= k < |msgs| ==> |msgs[k]| > 0
    ensures |lines| == |msgs|
    ensures forall k :: 0 <= k < |msgs| ==> lines[k] == Message(msgs[k])
  {
    seq(|msgs|, k requires 0 <= k < |msgs| => Message(msgs[k]))
  }

  function SplitAll(lines: seq<string>): (msgs: seq<seq<string>>)
    ensures |msgs| == |lines|
    ensures forall k :: 0 <= k < |lines| ==> msgs[k] == SplitTabs(lines[k])
  {
    seq(|lines|, k requires 0 <= k < |lines| => SplitTabs(lines[k]))
  }

  // The whole path: any messages of any non-empty lists of arbitrary fields,
  // sent as lines and received in any reads that are not rejected, arrive.
  lemma MessagesArrive(msgs: seq<seq<string>>, chunks: seq<Chunk>)
    requires forall k :: 0 <= k < |msgs| ==> |msgs[k]| > 0
    requires Stream(chunks) == Wire(Messages(msgs))
    requires !FeedAll(FRESH, chunks).rejected
    ensures SplitAll(StripAll(FeedAll(FRESH, chunks).lines)) == msgs
    ensures FeedAll(FRESH, chunks).residue == ""
  {
    var lines := Messages(msgs);
    forall k | 0 <= k < |msgs|
      ensures Free('\n', lines[k]) && StripCr(lines[k]) == lines[k] && SplitTabs(lines[k]) == msgs[k]
    {
      SplitMessage(msgs[k]);
    }
    LinesOfWire(lines);
    ChunkingIndependence(chunks);
    assert StripAll(lines) == lines;
    assert SplitAll(lines) == msgs;
  }
}
