// One servicing pass over the clients: which poll entry judges which client once
// clients have been dropped (window-agent/zero-window-agent.cpp, run).
module ServicePass {
  import opened Text
  import opened Agent
  import opened AgentInvariants

  // Whether the client visited as number `v` stays.
  predicate Stays(st: State, entries: seq<PollEntry>, io: seq<Io>, v: nat)
    requires v < |st.clients|
  {
    var p := PassAt(st, entries, io, v);
    Serve(p.state, p.index, EntryAt(entries, p.index), IoAt(io, v)).keep
  }

  // The client at `v` served first thing in the pass, judged by poll entry `e`:
  // whether it stays, and what becomes of it.
  predicate KeptBy(st: State, entries: seq<PollEntry>, io: seq<Io>, v: nat, e: nat)
    requires v < |st.clients|
  {
    Serve(st, v, EntryAt(entries, e), IoAt(io, v)).keep
  }

  function ServedBy(st: State, entries: seq<PollEntry>, io: seq<Io>, v: nat, e: nat): Client
    requires v < |st.clients|
  {
    Serve(st, v, EntryAt(entries, e), IoAt(io, v)).state.clients[v]
  }

  // The clients that stayed through the first `v` visits, as serving left them.
  function Survivors(st: State, entries: seq<PollEntry>, io: seq<Io>, v: nat): seq<Client>
    requires v <= |st.clients|
  {
    if v == 0 then []
    else
      Survivors(st, entries, io, v - 1) +
      if Stays(st, entries, io, v - 1) then [ServedBy(st, entries, io, v - 1, PassAt(st, entries, io, v - 1).index)]
      else []
  }

  // ---- what serving a client depends on ----------------------------------------------

  // The client at `i` of one state is the one at `j` of the other, and both
  // agents would answer it alike.
  predicate SameFor(a: State, i: nat, b: State, j: nat) {
    && i < |a.clients| && j < |b.clients| && a.clients[i] == b.clients[j]
    && a.tasks == b.tasks && a.seat == b.seat
  }

  lemma HandleFirstLocal(a: State, i: nat, b: State, j: nat)
    requires SameFor(a, i, b, j) && !Free('\n', a.clients[i].input)
    ensures SameFor(HandleFirst(a, i), i, HandleFirst(b, j), j)
    ensures SameServer(a, HandleFirst(a, i)) && OthersSame(a, HandleFirst(a, i), i)
    ensures HandleFirst(a, i).clients[i].fd == a.clients[i].fd
  {
    hide Respond;
    HandleFirstFrame(a, i);
  }

  lemma {:induction false} DrainLocal(a: State, i: nat, b: State, j: nat)
    requires SameFor(a, i, b, j)
    ensures SameFor(Drain(a, i), i, Drain(b, j), j)
    ensures SameServer(a, Drain(a, i)) && OthersSame(a, Drain(a, i), i)
    ensures Drain(a, i).clients[i].fd == a.clients[i].fd
    decreases |a.clients[i].input|
  {
    if !Free('\n', a.clients[i].input) {
      HandleFirstLocal(a, i, b, j);
      hide HandleFirst;
      DrainLocal(HandleFirst(a, i), i, HandleFirst(b, j), j);
    }
  }

  lemma {:induction false} ReadLocal(a: State, i: nat, b: State, j: nat, results: seq<Read>)
    requires SameFor(a, i, b, j)
    ensures var r, s := ReadClient(a, i, results), ReadClient(b, j, results);
      && r.keep == s.keep && SameFor(r.state, i, s.state, j)
      && SameServer(a, r.state) && OthersSame(a, r.state, i) && r.state.clients[i].fd == a.clients[i].fd
    decreases |results|
  {
    hide Drain;
    if results != [] {
      match results[0]
      case Data(chunk) =>
        var c, d := Buffer(a, i, chunk), Buffer(b, j, chunk);
        DrainLocal(c, i, d, j);
        ReadLocal(Drain(c, i), i, Drain(d, j), j, results[1..]);
      case ReadInterrupted => ReadLocal(a, i, b, j, results[1..]);
      case _ =>
    }
  }

  lemma {:induction false} FlushLocal(a: State, i: nat, b: State, j: nat, results: seq<Write>)
    requires SameFor(a, i, b, j)
    ensures var r, s := FlushClient(a, i, results), FlushClient(b, j, results);
      && r.keep == s.keep && SameFor(r.state, i, s.state, j)
      && SameServer(a, r.state) && OthersSame(a, r.state, i) && r.state.clients[i].fd == a.clients[i].fd
    decreases |results|
  {
    var c := a.clients[i];
    if c.output != "" && results != [] {
      match results[0]
      case Took(n) =>
        var count := Min(n, |c.output|);
        if count != 0 {
          var d := Wrote(c, count);
          FlushLocal(a.(clients := a.clients[i := d]), i, b.(clients := b.clients[j := d]), j, results[1..]);
        }
      case WriteInterrupted => FlushLocal(a, i, b, j, results[1..]);
      case _ =>
    }
  }

  // Serving a client looks at nothing but its own record, the tasks and the seat,
  // and changes nothing but that record and the compositor traffic.
  lemma ServeLocal(a: State, i: nat, b: State, j: nat, entry: PollEntry, io: Io)
    requires SameFor(a, i, b, j)
    ensures var r, s := Serve(a, i, entry, io), Serve(b, j, entry, io);
      && r.keep == s.keep && r.state.clients[i] == s.state.clients[j]
      && SameServer(a, r.state) && OthersSame(a, r.state, i) && r.state.clients[i].fd == a.clients[i].fd
  {
    hide ReadClient, FlushClient;
    ReadLocal(a, i, b, j, io.readResults);
    var r := if entry.readable then ReadClient(a, i, io.readResults) else Served(a, true);
    var s := if entry.readable then ReadClient(b, j, io.readResults) else Served(b, true);
    FlushLocal(r.state, i, s.state, j, io.writeResults);
  }

  // ---- the offset --------------------------------------------------------------------

  // The client list around `index` when the client there stays or goes.
  lemma AdvanceList(p: Pass, entries: seq<PollEntry>, io: Io)
    requires p.index < |p.state.clients|
    ensures var q, r := Advance(p, entries, io), Serve(p.state, p.index, EntryAt(entries, p.index), io);
      && q.index == (if r.keep then p.index + 1 else p.index)
      && q.state.clients[q.index..] == p.state.clients[p.index..][1..]
      && q.state.clients[..q.index] == p.state.clients[..p.index] + (if r.keep then [r.state.clients[p.index]] else [])
      && SameServer(p.state, q.state)
  {
    hide EntryAt, Serve;
    ServeLocal(p.state, p.index, p.state, p.index, EntryAt(entries, p.index), io);
    var r := Serve(p.state, p.index, EntryAt(entries, p.index), io);
    ListStep(p.state.clients, r.state.clients, p.index);
    assert p.state.clients[..p.index] + [] == p.state.clients[..p.index];
  }

  lemma ListStep(before: seq<Client>, served: seq<Client>, i: nat)
    requires i < |before| == |served|
    requires forall k :: 0 <= k < |before| && k != i ==> served[k] == before[k]
    ensures served[..i + 1] == before[..i] + [served[i]] && served[i + 1..] == before[i..][1..]
    ensures var dropped := served[..i] + served[i + 1..];
      dropped[..i] == before[..i] && dropped[i..] == before[i..][1..]
  {
    var dropped := served[..i] + served[i + 1..];
    assert dropped[..i] == served[..i] && dropped[i..] == served[i + 1..];
  }

  // The offset: after `v` visits with `k` drops the list is the survivors, each
  // as its own service left it, followed by the clients not yet visited,
  // untouched; the next client visited is the one that stood at `v` and is
  // judged by poll entry `v - k`.
  lemma {:induction false} PassOffset(st: State, entries: seq<PollEntry>, io: seq<Io>, v: nat)
    requires v <= |st.clients|
    ensures var p := PassAt(st, entries, io, v);
      && p.index == v - p.drops == |Survivors(st, entries, io, v)|
      && p.state.clients[..p.index] == Survivors(st, entries, io, v)
      && p.state.clients[p.index..] == st.clients[v..]
      && (v < |st.clients| ==> p.state.clients[p.index] == st.clients[v])
      && SameServer(st, p.state)
  {
    hide Advance, Serve, EntryAt, IoAt;
    if v == 0 {
      assert st.clients[v..] == st.clients;
    } else {
      PassOffset(st, entries, io, v - 1);
      var p := PassAt(st, entries, io, v - 1);
      AdvanceList(p, entries, IoAt(io, v - 1));
      ServeLocal(p.state, p.index, st, v - 1, EntryAt(entries, p.index), IoAt(io, v - 1));
      assert st.clients[v..] == st.clients[v - 1..][1..];
    }
    if v < |st.clients| {
      assert st.clients[v..][0] == st.clients[v];
    }
  }

  // After the whole pass exactly the survivors are left, in their order.
  lemma PassLeavesSurvivors(st: State, entries: seq<PollEntry>, io: seq<Io>)
    ensures ServePass(st, entries, io).clients == Survivors(st, entries, io, |st.clients|)
  {
    PassOffset(st, entries, io, |st.clients|);
    var p := PassAt(st, entries, io, |st.clients|);
    assert p.state.clients[..p.index] == p.state.clients;
  }

  // Serving never turns one client into another.
  lemma ServedSocket(st: State, entries: seq<PollEntry>, io: seq<Io>, v: nat, e: nat)
    requires v < |st.clients|
    ensures ServedBy(st, entries, io, v, e).fd == st.clients[v].fd
  {
    ServeLocal(st, v, st, v, EntryAt(entries, e), IoAt(io, v));
  }

  // An entry that reports a hang-up is never passed: it judges, and drops, every
  // client that moves into its place.
  lemma {:induction false} StopsAtHangup(st: State, entries: seq<PollEntry>, io: seq<Io>, j: nat, v: nat)
    requires j < |entries| && entries[j].error && v <= |st.clients|
    ensures PassAt(st, entries, io, v).index <= j
  {
    if v > 0 {
      StopsAtHangup(st, entries, io, j, v - 1);
    }
  }

  // So a hang-up at place `j` leaves at most the `j` clients before it.
  lemma HangupCascade(st: State, entries: seq<PollEntry>, io: seq<Io>, j: nat)
    requires j < |entries| && entries[j].error
    ensures |ServePass(st, entries, io).clients| <= j
  {
    StopsAtHangup(st, entries, io, j, |st.clients|);
  }

  // ---- when each client is judged by its own entry ---------------------------------------

  // What the loop seems to intend: the client at `v` judged by entry `v`.
  predicate KeptByOwn(st: State, entries: seq<PollEntry>, io: seq<Io>, v: nat)
    requires v < |st.clients|
  {
    KeptBy(st, entries, io, v, v)
  }

  // Whether a client stays, told from the state the pass starts in.
  lemma StaysAsKept(st: State, entries: seq<PollEntry>, io: seq<Io>, v: nat)
    requires v < |st.clients|
    ensures var p, q := PassAt(st, entries, io, v), PassAt(st, entries, io, v + 1);
      && p.drops <= v
      && (Stays(st, entries, io, v) <==> KeptBy(st, entries, io, v, v - p.drops))
      && q.drops == p.drops + if Stays(st, entries, io, v) then 0 else 1
  {
    hide Serve, EntryAt, IoAt;
    PassOffset(st, entries, io, v);
    var p := PassAt(st, entries, io, v);
    ServeLocal(p.state, p.index, st, v, EntryAt(entries, p.index), IoAt(io, v));
  }

  // No client has been dropped exactly if each was kept by its own entry.
  lemma {:induction false} NoDropsIff(st: State, entries: seq<PollEntry>, io: seq<Io>, v: nat)
    requires v <= |st.clients|
    ensures PassAt(st, entries, io, v).drops == 0 <==> forall k :: 0 <= k < v ==> KeptByOwn(st, entries, io, k)
  {
    hide Advance, KeptBy, Stays;
    if v > 0 {
      NoDropsIff(st, entries, io, v - 1);
      StaysAsKept(st, entries, io, v - 1);
      assert KeptByOwn(st, entries, io, v - 1) <==> KeptBy(st, entries, io, v - 1, v - 1);
    }
  }

  // Every client is judged by its own entry if and only if every client but the
  // last is kept by its own entry.
  lemma JudgedByOwnIff(st: State, entries: seq<PollEntry>, io: seq<Io>)
    ensures (forall v :: 0 <= v < |st.clients| ==> PassAt(st, entries, io, v).index == v)
       <==> (forall k :: 0 <= k < |st.clients| - 1 ==> KeptByOwn(st, entries, io, k))
  {
    hide PassAt, KeptByOwn;
    forall v | 0 <= v < |st.clients|
      ensures PassAt(st, entries, io, v).index == v <==> forall k :: 0 <= k < v ==> KeptByOwn(st, entries, io, k)
    {
      PassOffset(st, entries, io, v);
      NoDropsIff(st, entries, io, v);
    }
    if st.clients != [] {
      assert PassAt(st, entries, io, |st.clients| - 1).index == |st.clients| - 1
        <==> forall k :: 0 <= k < |st.clients| - 1 ==> KeptByOwn(st, entries, io, k);
    }
  }

  // ---- when the right clients are dropped ------------------------------------------------

  // How many of the first `v` clients their own entries would drop.
  function OwnDrops(st: State, entries: seq<PollEntry>, io: seq<Io>, v: nat): (n: nat)
    requires v <= |st.clients|
    ensures n <= v
  {
    if v == 0 then 0
    else OwnDrops(st, entries, io, v - 1) + if KeptByOwn(st, entries, io, v - 1) then 0 else 1
  }

  // The entry that is too far ahead by the drops before `v` says of the client at
  // `v` what its own entry says.
  predicate ShiftHarmless(st: State, entries: seq<PollEntry>, io: seq<Io>, v: nat)
    requires v < |st.clients|
  {
    KeptBy(st, entries, io, v, v - OwnDrops(st, entries, io, v)) <==> KeptByOwn(st, entries, io, v)
  }

  lemma {:induction false} DropsAsOwn(st: State, entries: seq<PollEntry>, io: seq<Io>, v: nat)
    requires v <= |st.clients|
    requires forall k :: 0 <= k < v ==> (Stays(st, entries, io, k) <==> KeptByOwn(st, entries, io, k))
    ensures PassAt(st, entries, io, v).drops == OwnDrops(st, entries, io, v)
  {
    hide Advance, KeptByOwn, Stays;
    if v > 0 {
      DropsAsOwn(st, entries, io, v - 1);
      StaysAsKept(st, entries, io, v - 1);
    }
  }

  lemma {:induction false} StaysAsOwn(st: State, entries: seq<PollEntry>, io: seq<Io>, v: nat)
    requires v <= |st.clients|
    requires forall k :: 0 <= k < v ==> ShiftHarmless(st, entries, io, k)
    ensures forall k :: 0 <= k < v ==> (Stays(st, entries, io, k) <==> KeptByOwn(st, entries, io, k))
  {
    hide KeptByOwn, Stays, KeptBy, PassAt, OwnDrops;
    if v > 0 {
      StaysAsOwn(st, entries, io, v - 1);
      DropsAsOwn(st, entries, io, v - 1);
      StaysAsKept(st, entries, io, v - 1);
      assert ShiftHarmless(st, entries, io, v - 1);
    }
  }

  // For every pass, whatever was reported and whatever the sockets did: exactly
  // the clients that their own entries drop are dropped, if and only if each
  // client is treated alike by its own entry and by the one as many places
  // before it as clients before it are to be dropped.
  lemma DropsTheirOwnIff(st: State, entries: seq<PollEntry>, io: seq<Io>)
    ensures (forall v :: 0 <= v < |st.clients| ==> (Stays(st, entries, io, v) <==> KeptByOwn(st, entries, io, v)))
       <==> (forall v :: 0 <= v < |st.clients| ==> ShiftHarmless(st, entries, io, v))
  {
    hide KeptByOwn, Stays, KeptBy, PassAt, OwnDrops, ShiftHarmless;
    if forall v :: 0 <= v < |st.clients| ==> (Stays(st, entries, io, v) <==> KeptByOwn(st, entries, io, v)) {
      forall v | 0 <= v < |st.clients|
        ensures ShiftHarmless(st, entries, io, v)
      {
        HarmlessWhereSame(st, entries, io, v);
      }
    }
    if forall v :: 0 <= v < |st.clients| ==> ShiftHarmless(st, entries, io, v) {
      StaysAsOwn(st, entries, io, |st.clients|);
    }
  }

  lemma HarmlessWhereSame(st: State, entries: seq<PollEntry>, io: seq<Io>, v: nat)
    requires v < |st.clients|
    requires forall k :: 0 <= k <= v ==> (Stays(st, entries, io, k) <==> KeptByOwn(st, entries, io, k))
    ensures ShiftHarmless(st, entries, io, v)
  {
    hide KeptByOwn, Stays, KeptBy, PassAt, OwnDrops;
    DropsAsOwn(st, entries, io, v);
    StaysAsKept(st, entries, io, v);
  }

  // ---- hang-ups ---------------------------------------------------------------------------

  // The first client its own entry drops, or the number of clients.
  function FirstOwnDrop(st: State, entries: seq<PollEntry>, io: seq<Io>, v: nat): (j: nat)
    requires v <= |st.clients|
    ensures v <= j <= |st.clients|
    ensures forall k :: v <= k < j ==> KeptByOwn(st, entries, io, k)
    ensures j < |st.clients| ==> !KeptByOwn(st, entries, io, j)
    decreases |st.clients| - v
  {
    if v == |st.clients| || !KeptByOwn(st, entries, io, v) then v else FirstOwnDrop(st, entries, io, v + 1)
  }

  // Up to there each client is served by its own entry, and stays.
  lemma {:induction false} BeforeFirstDrop(st: State, entries: seq<PollEntry>, io: seq<Io>, v: nat)
    requires v <= |st.clients| && forall k :: 0 <= k < v ==> KeptByOwn(st, entries, io, k)
    ensures var s := Survivors(st, entries, io, v);
      |s| == v && forall k :: 0 <= k < v ==> s[k] == ServedBy(st, entries, io, k, k) && Stays(st, entries, io, k)
  {
    hide PassAt, KeptBy, Stays, ServedBy;
    if v > 0 {
      BeforeFirstDrop(st, entries, io, v - 1);
      NoDropsIff(st, entries, io, v - 1);
      PassOffset(st, entries, io, v - 1);
      StaysAsKept(st, entries, io, v - 1);
      assert KeptByOwn(st, entries, io, v - 1) <==> KeptBy(st, entries, io, v - 1, v - 1);
    }
  }

  // Once an entry that reports an error has dropped a client, nobody stays.
  lemma {:induction false} NobodyBehind(st: State, entries: seq<PollEntry>, io: seq<Io>, j: nat, v: nat)
    requires j < v <= |st.clients| && EntryAt(entries, j).error
    requires forall k :: 0 <= k < j ==> KeptByOwn(st, entries, io, k)
    ensures PassAt(st, entries, io, v).index == j
    ensures Survivors(st, entries, io, v) == Survivors(st, entries, io, j)
    ensures forall k :: j <= k < v ==> !Stays(st, entries, io, k)
  {
    hide PassAt, Stays, KeptByOwn, Survivors, EntryAt;
    if v > j + 1 {
      NobodyBehind(st, entries, io, j, v - 1);
    } else {
      NoDropsIff(st, entries, io, j);
    }
    DroppedByError(st, entries, io, v - 1);
  }

  lemma DroppedByError(st: State, entries: seq<PollEntry>, io: seq<Io>, v: nat)
    requires v < |st.clients| && EntryAt(entries, PassAt(st, entries, io, v).index).error
    ensures !Stays(st, entries, io, v)
    ensures PassAt(st, entries, io, v + 1).index == PassAt(st, entries, io, v).index
    ensures Survivors(st, entries, io, v + 1) == Survivors(st, entries, io, v)
  {
    hide PassAt, EntryAt, IoAt, ServedBy, ReadClient, FlushClient;
    assert !Stays(st, entries, io, v);
    StaysAsKept(st, entries, io, v);
    hide Stays;
    assert Survivors(st, entries, io, v) + [] == Survivors(st, entries, io, v);
  }

  // When the first client to be dropped by its own entry hung up, whatever else
  // happened in the pass: exactly the clients before it are left, each served by
  // its own entry; and that is right if and only if every client behind it was
  // to be dropped too.
  lemma HangupsDropTheirOwnIff(st: State, entries: seq<PollEntry>, io: seq<Io>)
    requires var j := FirstOwnDrop(st, entries, io, 0); j < |st.clients| ==> EntryAt(entries, j).error
    ensures var j, left := FirstOwnDrop(st, entries, io, 0), ServePass(st, entries, io).clients;
      && |left| == j && (forall k :: 0 <= k < j ==> left[k] == ServedBy(st, entries, io, k, k))
      && ((forall v :: 0 <= v < |st.clients| ==> (Stays(st, entries, io, v) <==> KeptByOwn(st, entries, io, v)))
          <==> forall v :: j <= v < |st.clients| ==> !KeptByOwn(st, entries, io, v))
  {
    var j, n := FirstOwnDrop(st, entries, io, 0), |st.clients|;
    hide PassAt, KeptBy, KeptByOwn, Stays, ServedBy, Survivors, ServePass, EntryAt;
    PassLeavesSurvivors(st, entries, io);
    BeforeFirstDrop(st, entries, io, j);
    if j < n {
      NobodyBehind(st, entries, io, j, n);
    }
  }

  // Two clients connected, and the first hangs up with input still unread: the
  // second is dropped with it.
  lemma NeighbourDropped(seat: bool)
    ensures var st := AcceptAll(Initial(seat), [5, 6]);
      var entries := [PollEntry(true, true, false), QUIET];
      && |st.clients| == 2 && KeptByOwn(st, entries, [], 1) && !Stays(st, entries, [], 1)
      && ServePass(st, entries, []).clients == []
  {
    var one := Accept(Initial(seat), 5);
    assert [5, 6][1..] == [6] && [6][1..] == [];
    assert AcceptAll(Initial(seat), [5, 6]) == Accept(one, 6);
    var st := Accept(one, 6);
    var entries := [PollEntry(true, true, false), QUIET];
    assert FirstOwnDrop(st, entries, [], 0) == 0;
    HangupsDropTheirOwnIff(st, entries, []);
    NobodyBehind(st, entries, [], 0, 2);
  }
}
