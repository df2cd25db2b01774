// The polkit prompt and the agent that reads its output
// (polkit-agent/zero-polkit-prompt-wayland.cpp, polkit-agent/zero-polkit-agent.c).
module PolkitSecret {
  import opened Text
  import opened Wrappers

  // ---- the prompt -------------------------------------------------------------------

  datatype Keysym = Enter | Escape | Erase | OtherKey

  // A key press with the bytes it types, a closed window, a configured surface.
  datatype Event = Key(sym: Keysym, text: string) | CloseWindow | Configure

  datatype Prompt = Prompt(secret: string, accepted: bool, running: bool, dirty: bool)

  const OPENED: Prompt := Prompt("", false, true, true)

  function OnKeysym(p: Prompt, sym: Keysym): Prompt {
    match sym
    case Enter => p.(accepted := true, running := false)
    case Escape => p.(accepted := false, running := false)
    case Erase => if p.secret != "" then p.(secret := Init(p.secret), dirty := true) else p
    case OtherKey => p
  }

  function OnText(p: Prompt, text: string): Prompt {
    if |text| == 1 && Printable(text[0]) && |p.secret| < 128 then p.(secret := p.secret + text, dirty := true) else p
  }

  function OnEvent(p: Prompt, e: Event): Prompt {
    match e
    case Key(sym, text) =>
      var q := OnKeysym(p, sym);
      if q.running then OnText(q, text) else q
    case CloseWindow => p.(accepted := false, running := false)
    case Configure => p.(dirty := true)
  }

  function OnEvents(p: Prompt, events: seq<Event>): Prompt
    decreases |events|
  {
    if events == [] then p else OnEvents(OnEvent(p, events[0]), events[1..])
  }

  // The loop looks at `running` between batches of events only.
  function OnBatches(p: Prompt, batches: seq<seq<Event>>): Prompt
    decreases |batches|
  {
    if batches == [] || !p.running then p else OnBatches(OnEvents(p, batches[0]), batches[1..])
  }

  // What the prompt writes when it ends; nothing unless it was accepted.
  function Written(p: Prompt): Option<string> {
    if p.accepted then Some(p.secret + "\n") else None
  }

  class PromptWindow {
    var secret: string
    var accepted: bool
    var running: bool
    var dirty: bool

    ghost function Abs(): Prompt
      reads this
    {
      Prompt(secret, accepted, running, dirty)
    }

    constructor ()
      ensures Abs() == OPENED
    {
      secret, accepted, running, dirty := "", false, true, true;
    }

    method Submit()
      modifies this`accepted, this`running
      ensures accepted && !running
    {
      accepted := true;
      running := false;
    }

    method Cancel()
      modifies this`accepted, this`running
      ensures !accepted && !running
    {
      accepted := false;
      running := false;
    }

    method HandleKeysym(sym: Keysym)
      modifies this
      ensures Abs() == OnKeysym(old(Abs()), sym)
    {
      match sym
      case Enter => Submit();
      case Escape => Cancel();
      case Erase =>
        if secret != "" {
          secret := secret[..|secret| - 1];
          dirty := true;
        }
      case OtherKey =>
    }

    method HandleText(text: string)
      modifies this
      ensures Abs() == OnText(old(Abs()), text)
      ensures secret == old(secret) +
        if |text| == 1 && ' ' <= text[0] <= '~' && |old(secret)| < 128 then text else ""
    {
      if text == "" {
        return;
      }
      if |text| == 1 && Printable(text[0]) && |secret| < 128 {
        secret := secret + [text[0]];
        dirty := true;
        assert [text[0]] == text;
      }
    }

    method Dispatch(e: Event)
      modifies this
      ensures Abs() == OnEvent(old(Abs()), e)
    {
      match e
      case Key(sym, text) =>
        HandleKeysym(sym);
        if running {
          HandleText(text);
        }
      case CloseWindow => Cancel();
      case Configure => dirty := true;
    }

    method RunLoop(batches: seq<seq<Event>>) returns (written: Option<string>)
      modifies this
      ensures Abs().(secret := "") == OnBatches(old(Abs()), batches).(secret := "")
      ensures written == Written(OnBatches(old(Abs()), batches))
      ensures secret == ""
    {
      ghost var goal := OnBatches(Abs(), batches);
      var b := 0;
      while running && b < |batches|
        invariant b <= |batches| && OnBatches(Abs(), batches[b..]) == goal
        decreases |batches| - b
      {
        assert batches[b..][0] == batches[b] && batches[b..][1..] == batches[b + 1..];
        DispatchAll(batches[b]);
        b := b + 1;
      }
      written := if accepted then Some(secret + "\n") else None;
      secret := "";
    }

    method DispatchAll(events: seq<Event>)
      modifies this
      ensures Abs() == OnEvents(old(Abs()), events)
    {
      ghost var goal := OnEvents(Abs(), events);
      for n := 0 to |events|
        invariant OnEvents(Abs(), events[n..]) == goal
      {
        assert events[n..][0] == events[n] && events[n..][1..] == events[n + 1..];
        Dispatch(events[n]);
      }
    }
  }

  lemma {:induction false} EventsKeepSecret(p: Prompt, events: seq<Event>)
    requires TypedText(p.secret)
    ensures TypedText(OnEvents(p, events).secret)
    decreases |events|
  {
    if events != [] {
      EventsKeepSecret(OnEvent(p, events[0]), events[1..]);
    }
  }

  lemma {:induction false} BatchesKeepSecret(p: Prompt, batches: seq<seq<Event>>)
    requires TypedText(p.secret)
    ensures TypedText(OnBatches(p, batches).secret)
    decreases |batches|
  {
    if batches != [] && p.running {
      EventsKeepSecret(p, batches[0]);
      BatchesKeepSecret(OnEvents(p, batches[0]), batches[1..]);
    }
  }

  // ---- the agent's read loop -----------------------------------------------------------

  const BUFFER_SIZE: nat := 264

  // One read of the pipe: up to so many bytes, a signal, or an error.  After the
  // last of them reads bring all they are asked for.
  datatype PipeRead = UpTo(count: nat) | Interrupted | Failed

  // Bytes one read brings: what is wished for, at least one, at most what is
  // there and what fits before the final NUL; none at the end of the pipe.
  function Brought(wish: nat, left: nat, room: nat): nat {
    var atLeastOne := if wish == 0 then 1 else wish;
    var fits := if atLeastOne < room then atLeastOne else room;
    if fits < left then fits else left
  }

  // How many bytes of a pipe of `len` bytes are in the buffer when the loop ends.
  function Taken(len: nat, used: nat, reading: seq<PipeRead>): nat
    requires used < BUFFER_SIZE && used <= len
    decreases |reading|, len - used
  {
    var room := BUFFER_SIZE - used - 1;
    if reading != [] && reading[0].Failed? then used
    else if reading != [] && reading[0].Interrupted? then Taken(len, used, reading[1..])
    else
      var n := Brought(if reading == [] then room else reading[0].count, len - used, room);
      if n == 0 || used + n + 1 >= BUFFER_SIZE then used + n
      else Taken(len, used + n, if reading == [] then [] else reading[1..])
  }

  function StripEnd(s: string): string {
    if s != "" && (Last(s) == '\n' || Last(s) == '\r') then StripEnd(Init(s)) else s
  }

  // Fixed buffer filled at `used`, cut at trailing line ends, copied up to its
  // NUL and wiped.
  method ReadResponse(pipe: string, reading: seq<PipeRead>, exitedWell: bool)
    returns (response: Option<string>, output: array<char>)
    ensures fresh(output) && output.Length == 264
    ensures var came := pipe[..Min(|pipe|, Taken(|pipe|, 0, reading))];
      response == if exitedWell then Some(CString(StripEnd(came))) else None
    ensures '\0' !in pipe ==> forall k :: 0 <= k < output.Length ==> output[k] == '\0'
  {
    hide CString, StripEnd, Taken;
    output := new char[BUFFER_SIZE](_ => '\0');
    var used := FillBuffer(output, pipe, reading);
    if !exitedWell {
      Wipe(output, used);
      return None, output;
    }
    var text := CutAndWipe(output, used);
    response := Some(text);
  }

  method CutAndWipe(output: array<char>, filled: nat) returns (text: string)
    requires filled < output.Length && forall k :: filled <= k < output.Length ==> output[k] == '\0'
    modifies output
    ensures text == CString(StripEnd(old(output[..filled])))
    ensures '\0' !in old(output[..filled]) ==> forall k :: 0 <= k < output.Length ==> output[k] == '\0'
  {
    hide CString, StripEnd;
    StripEndPrefix(output[..filled]);
    output[filled] := '\0';
    var used := StripInPlace(output, filled);
    assert output[..] == output[..used] + ['\0'] + output[used + 1..];
    CStringStops(output[..used], output[used + 1..]);
    text := CString(output[..]);
    Wipe(output, used);
  }

  // Zeroes what is there, up to its first NUL.
  method Wipe(output: array<char>, used: nat)
    requires used <= output.Length && forall k :: used <= k < output.Length ==> output[k] == '\0'
    modifies output
    ensures '\0' !in old(output[..used]) ==> forall k :: 0 <= k < output.Length ==> output[k] == '\0'
  {
    hide CString;
    CStringFree(output[..used], output[used..]);
    assert output[..] == output[..used] + output[used..];
    SecureClear(output);
  }

  // The read loop: never past the buffer, one byte always left for the NUL.
  method FillBuffer(output: array<char>, pipe: string, reading: seq<PipeRead>) returns (used: nat)
    requires output.Length == BUFFER_SIZE && forall k :: 0 <= k < output.Length ==> output[k] == '\0'
    modifies output
    ensures used < BUFFER_SIZE && used <= |pipe| && used == Taken(|pipe|, 0, reading)
    ensures output[..used] == pipe[..used]
    ensures forall k :: used <= k < output.Length ==> output[k] == '\0'
  {
    used := 0;
    var r := 0;
    ghost var total := Taken(|pipe|, 0, reading);
    while true
      invariant r <= |reading| && used < BUFFER_SIZE && used <= |pipe|
      invariant output[..used] == pipe[..used]
      invariant forall k :: used <= k < output.Length ==> output[k] == '\0'
      invariant Taken(|pipe|, used, reading[r..]) == total
      decreases |reading| - r, |pipe| - used
    {
      var room := output.Length - used - 1;
      var wish := room;
      if r < |reading| {
        assert reading[r..][0] == reading[r] && reading[r..][1..] == reading[r + 1..];
        var outcome := reading[r];
        r := r + 1;
        if outcome.Failed? {
          break;
        }
        if outcome.Interrupted? {
          continue;
        }
        wish := outcome.count;
      }
      var n := Brought(wish, |pipe| - used, room);
      if n == 0 {
        break;
      }
      CopyIn(output, used, pipe, n);
      used := used + n;
      if used + 1 >= output.Length {
        break;
      }
    }
  }

  method StripInPlace(output: array<char>, filled: nat) returns (used: nat)
    requires filled < output.Length && output[filled] == '\0'
    modifies output
    ensures used <= filled && output[used] == '\0'
    ensures output[..used] == StripEnd(old(output[..filled]))
    ensures forall k :: used <= k < filled ==> output[k] == '\0'
    ensures forall k :: filled <= k < output.Length ==> output[k] == old(output[k])
  {
    used := filled;
    while used > 0 && (output[used - 1] == '\n' || output[used - 1] == '\r')
      invariant used <= filled && output[used] == '\0'
      invariant StripEnd(output[..used]) == StripEnd(old(output[..filled]))
      invariant forall k :: used <= k < filled ==> output[k] == '\0'
      invariant forall k :: filled <= k < output.Length ==> output[k] == old(output[k])
    {
      assert Init(output[..used]) == output[..used - 1];
      used := used - 1;
      output[used] := '\0';
    }
  }

  method CopyIn(output: array<char>, used: nat, pipe: string, n: nat)
    requires used + n <= output.Length && used + n <= |pipe|
    requires output[..used] == pipe[..used]
    modifies output
    ensures output[..used + n] == pipe[..used + n]
    ensures forall k :: used + n <= k < output.Length ==> output[k] == old(output[k])
  {
    for k := 0 to n
      invariant output[..used + k] == pipe[..used + k]
      invariant forall j :: used + k <= j < output.Length ==> output[j] == old(output[j])
    {
      output[used + k] := pipe[used + k];
      assert pipe[..used + k + 1] == pipe[..used + k] + [pipe[used + k]];
      assert output[..used + k + 1] == output[..used + k] + [output[used + k]];
    }
  }

  // Zeroes the bytes before the first NUL.
  method SecureClear(text: array<char>)
    modifies text
    ensures forall k :: 0 <= k < text.Length ==> text[k] == if k < |CString(old(text[..]))| then '\0' else old(text[k])
  {
    ghost var before := text[..];
    var p := 0;
    while p < text.Length && text[p] != '\0'
      invariant p <= text.Length && p + |CString(before[p..])| == |CString(before)|
      invariant forall k :: 0 <= k < text.Length ==> text[k] == if k < p then '\0' else before[k]
    {
      assert before[p..][1..] == before[p + 1..];
      text[p] := '\0';
      p := p + 1;
    }
  }

  // A C string does not end inside a part without NUL bytes.
  lemma {:induction false} CStringFree(a: string, b: string)
    ensures '\0' !in a ==> |CString(a + b)| >= |a|
  {
    if a != "" && '\0' !in a {
      assert (a + b)[1..] == a[1..] + b;
      CStringFree(a[1..], b);
    }
  }

  lemma {:induction false} CStringStops(a: string, b: string)
    ensures CString(a + ['\0'] + b) == CString(a)
  {
    if a == "" {
      assert a + ['\0'] + b == ['\0'] + b;
    } else {
      assert (a + ['\0'] + b)[1..] == a[1..] + ['\0'] + b;
      CStringStops(a[1..], b);
    }
  }

  // However the pipe is read, short of a read error, the buffer ends up with the
  // same bytes: all of them, or the first 263.
  lemma {:induction false} TakenIsFixed(len: nat, used: nat, reading: seq<PipeRead>)
    requires used < BUFFER_SIZE && used <= len
    requires forall k :: 0 <= k < |reading| ==> !reading[k].Failed?
    ensures Taken(len, used, reading) == Min(len, 263)
    decreases |reading|, len - used
  {
    var room := BUFFER_SIZE - used - 1;
    if reading != [] {
      assert forall k :: 0 <= k < |reading[1..]| ==> reading[1..][k] == reading[k + 1];
    }
    if reading != [] && reading[0].Interrupted? {
      TakenIsFixed(len, used, reading[1..]);
    } else {
      var n := Brought(if reading == [] then room else reading[0].count, len - used, room);
      if n != 0 && used + n + 1 < BUFFER_SIZE {
        TakenIsFixed(len, used + n, if reading == [] then [] else reading[1..]);
      }
    }
  }

  // Bytes that reads bring, at least one each, while there are any.
  function Offered(reading: seq<PipeRead>): nat
    requires forall k :: 0 <= k < |reading| ==> !reading[k].Failed?
  {
    if reading == [] then 0
    else (if reading[0].UpTo? then if reading[0].count == 0 then 1 else reading[0].count else 0) + Offered(reading[1..])
  }

  // When a read fails, the buffer holds what the reads before it brought.
  lemma {:induction false} TakenUpToFailure(len: nat, used: nat, reading: seq<PipeRead>, rest: seq<PipeRead>)
    requires used < BUFFER_SIZE && used <= len
    requires forall k :: 0 <= k < |reading| ==> !reading[k].Failed?
    ensures Taken(len, used, reading + [Failed] + rest) == Min(len, Min(263, used + Offered(reading)))
    decreases |reading|
  {
    var all := reading + [Failed] + rest;
    if reading == [] {
      assert all[0] == Failed;
    } else {
      assert all[0] == reading[0] && all[1..] == reading[1..] + [Failed] + rest;
      assert forall k :: 0 <= k < |reading[1..]| ==> reading[1..][k] == reading[k + 1];
      if reading[0].Interrupted? {
        TakenUpToFailure(len, used, reading[1..], rest);
      } else {
        var room := BUFFER_SIZE - used - 1;
        var n := Brought(reading[0].count, len - used, room);
        if n != 0 && used + n + 1 < BUFFER_SIZE {
          TakenUpToFailure(len, used + n, reading[1..], rest);
        }
      }
    }
  }

  // What the agent makes of a text that reaches it whole.
  function Recovered(written: string): string {
    CString(StripEnd(written[..Min(|written|, BUFFER_SIZE - 1)]))
  }

  lemma {:induction false} StripEndPrefix(s: string)
    ensures StripEnd(s) <= s
    ensures StripEnd(s) == "" || (Last(StripEnd(s)) != '\n' && Last(StripEnd(s)) != '\r')
  {
    if s != "" && (Last(s) == '\n' || Last(s) == '\r') {
      StripEndPrefix(Init(s));
    }
  }

  lemma {:induction false} CStringPrefix(s: string)
    ensures CString(s) <= s && '\0' !in CString(s)
  {
    if s != "" && s[0] != '\0' {
      CStringPrefix(s[1..]);
    }
  }

  predicate LineEnd(c: char) {
    c == '\n' || c == '\r'
  }

  // Secrets the agent's loop gives back: short enough, no NUL, no trailing line end.
  predicate Recoverable(secret: string) {
    |secret| <= 263 && '\0' !in secret && (secret == "" || !LineEnd(Last(secret)))
  }

  lemma RecoversPlain(secret: string)
    requires Recoverable(secret)
    ensures Recovered(secret + "\n") == secret
  {
    var written := secret + "\n";
    var kept := written[..Min(|written|, BUFFER_SIZE - 1)];
    CStringFixed(secret);
    assert StripEnd(secret) == secret;
    hide CString;
    if |secret| == BUFFER_SIZE - 1 {
      assert kept == secret;
    } else {
      assert kept == written && Init(written) == secret;
    }
  }

  lemma RecoversOnlyPlain(secret: string)
    requires Recovered(secret + "\n") == secret
    ensures Recoverable(secret)
  {
    var written := secret + "\n";
    var kept := written[..Min(|written|, BUFFER_SIZE - 1)];
    var stripped := StripEnd(kept);
    StripEndPrefix(kept);
    CStringPrefix(stripped);
    hide CString, StripEnd;
    assert secret <= stripped <= kept <= written;
    assert Last(written) == '\n';
    assert stripped == written[..|stripped|];
  }

  // Exactly which secrets the agent's loop gives back unchanged when they are
  // written to it with a newline behind them.
  lemma RecoversIff(secret: string)
    ensures Recovered(secret + "\n") == secret <==> Recoverable(secret)
  {
    hide Recovered, Recoverable;
    if Recoverable(secret) {
      RecoversPlain(secret);
    } else if Recovered(secret + "\n") == secret {
      RecoversOnlyPlain(secret);
    }
  }

  // The whole path: over every run of the prompt that ends accepted, in whatever
  // pieces its output is read, the agent recovers exactly the secret it held.
  lemma SecretArrives(batches: seq<seq<Event>>, reading: seq<PipeRead>)
    requires OnBatches(OPENED, batches).accepted
    requires forall k :: 0 <= k < |reading| ==> !reading[k].Failed?
    ensures var p := OnBatches(OPENED, batches);
      var pipe := Written(p).value;
      CString(StripEnd(pipe[..Min(|pipe|, Taken(|pipe|, 0, reading))])) == p.secret
  {
    var p := OnBatches(OPENED, batches);
    BatchesKeepSecret(OPENED, batches);
    hide OnBatches, CString, StripEnd, Taken;
    TakenIsFixed(|p.secret| + 1, 0, reading);
    assert Recoverable(p.secret);
    RecoversPlain(p.secret);
    assert Written(p).value == p.secret + "\n";
  }

  // ---- typing ----------------------------------------------------------------------------------

  // A key that types one printable byte.
  predicate TypesOne(e: Event) {
    e.Key? && e.sym.OtherKey? && |e.text| == 1 && ' ' <= e.text[0] <= '~'
  }

  predicate AllTyped(events: seq<Event>) {
    forall k :: 0 <= k < |events| ==> TypesOne(events[k])
  }

  // What keys type, in order.
  function Texts(events: seq<Event>): string {
    if events == [] then "" else (if events[0].Key? then events[0].text else "") + Texts(events[1..])
  }

  lemma {:induction false} TypingAppends(p: Prompt, events: seq<Event>)
    requires p.running && |p.secret| + |events| <= 128 && AllTyped(events)
    ensures var q := OnEvents(p, events);
      q == p.(secret := p.secret + Texts(events), dirty := q.dirty) && |Texts(events)| == |events|
    decreases |events|
  {
    if events == [] {
      assert p.secret + "" == p.secret;
    } else {
      var rest := events[1..];
      assert forall k :: 0 <= k < |rest| ==> rest[k] == events[k + 1];
      assert TypesOne(events[0]);
      TypingAppends(OnEvent(p, events[0]), rest);
      Assoc(p.secret, events[0].text, Texts(rest));
    }
  }

  // Any other text, a full secret, or a configured surface leaves the secret as it is.
  lemma OtherTextsIgnored(p: Prompt, e: Event)
    requires p.running && !(TypesOne(e) && |p.secret| < 128)
    ensures e.Key? && e.sym.OtherKey? ==> OnEvent(p, e) == p
    ensures e.Configure? ==> OnEvent(p, e) == p.(dirty := true)
  {
  }

  // An erase key, which types nothing printable, takes the last byte away, if there
  // is one.
  lemma EraseTakesLast(p: Prompt, e: Event)
    requires p.running && e.Key? && e.sym.Erase? && !(|e.text| == 1 && ' ' <= e.text[0] <= '~')
    ensures var q := OnEvent(p, e);
      && (p.secret == "" ==> q == p)
      && (p.secret != "" ==> q == p.(secret := q.secret, dirty := true) && exists c :: q.secret + [c] == p.secret)
  {
    if p.secret != "" {
      assert OnEvent(p, e).secret + [p.secret[|p.secret| - 1]] == p.secret;
    }
  }

  // The whole way, from the prompt's start to the agent: bytes typed one by one, then
  // Enter, are written with a newline behind them, and the agent recovers them.
  lemma TypedIsRecovered(keys: seq<Event>, text: string, reading: seq<PipeRead>)
    requires AllTyped(keys) && |keys| <= 128
    requires forall k :: 0 <= k < |reading| ==> !reading[k].Failed?
    ensures var written := Written(OnBatches(OPENED, [keys + [Key(Enter, text)]]));
      && written == Some(Texts(keys) + "\n")
      && CString(StripEnd(written.value[..Min(|written.value|, Taken(|written.value|, 0, reading))])) == Texts(keys)
  {
    var batches := [keys + [Key(Enter, text)]];
    TypingAppends(OPENED, keys);
    EventsAppend(OPENED, keys, [Key(Enter, text)]);
    OneEvent(OnEvents(OPENED, keys), Key(Enter, text));
    assert batches[1..] == [] && "" + Texts(keys) == Texts(keys);
    assert OnBatches(OPENED, batches) == OnEvents(OPENED, batches[0]);
    hide OnBatches, OnEvents, CString, StripEnd, Taken;
    SecretArrives(batches, reading);
  }

  // ---- keys behind the Enter --------------------------------------------------------------

  function Erases(events: seq<Event>): nat {
    if events == [] then 0
    else Erases(Init(events)) + if Last(events).Key? && Last(events).sym.Erase? then 1 else 0
  }

  // What the last event that decides anything decides: Enter accepts, Escape and
  // a closed window do not.
  function LastVerdict(events: seq<Event>): Option<bool> {
    if events == [] then None
    else match Last(events)
      case Key(Enter, _) => Some(true)
      case Key(Escape, _) => Some(false)
      case CloseWindow => Some(false)
      case _ => LastVerdict(Init(events))
  }

  lemma {:induction false} EventsAppend(p: Prompt, a: seq<Event>, b: seq<Event>)
    ensures OnEvents(p, a + b) == OnEvents(OnEvents(p, a), b)
    decreases |a|
  {
    hide OnEvent;
    if a == [] {
      assert a + b == b;
    } else {
      assert (a + b)[1..] == a[1..] + b;
      EventsAppend(OnEvent(p, a[0]), a[1..], b);
    }
  }

  // Events of the batch that come after the prompt stopped still take bytes away
  // and still change the verdict.
  lemma {:induction false} AfterStop(p: Prompt, events: seq<Event>)
    requires !p.running
    ensures var q, v := OnEvents(p, events), LastVerdict(events);
      && !q.running
      && q.secret == p.secret[..|p.secret| - Min(|p.secret|, Erases(events))]
      && q.accepted == if v.Some? then v.value else p.accepted
  {
    if events == [] {
      assert p.secret[..|p.secret|] == p.secret;
    } else {
      var init, last := Init(events), Last(events);
      assert init + [last] == events;
      AfterStop(p, init);
      EventsAppend(p, init, [last]);
      OneEvent(OnEvents(p, init), last);
      hide OnEvents, OnEvent;
      StoppedStep(OnEvents(p, init), last);
    }
  }

  lemma StoppedStep(p: Prompt, e: Event)
    requires !p.running
    ensures var q := OnEvent(p, e);
      && !q.running
      && q.secret == p.secret[..|p.secret| - if e.Key? && e.sym.Erase? && p.secret != "" then 1 else 0]
      && q.accepted == if e.CloseWindow? || (e.Key? && e.sym.Escape?) then false
                       else (e.Key? && e.sym.Enter?) || p.accepted
  {
    assert p.secret[..|p.secret|] == p.secret;
  }

  lemma OneEvent(p: Prompt, e: Event)
    ensures OnEvents(p, [e]) == OnEvent(p, e)
  {
    assert [e][1..] == [];
  }

  lemma {:induction false} StaysStopped(p: Prompt, events: seq<Event>)
    requires !p.running
    ensures !OnEvents(p, events).running
    decreases |events|
  {
    if events != [] {
      StaysStopped(OnEvent(p, events[0]), events[1..]);
    }
  }

  // The loop goes through whole batches up to the one that stops it.
  lemma {:induction false} BatchesStop(p: Prompt, early: seq<seq<Event>>, last: seq<Event>, late: seq<seq<Event>>)
    requires OnBatches(p, early).running && !OnEvents(OnBatches(p, early), last).running
    ensures OnBatches(p, early + [last] + late) == OnEvents(OnBatches(p, early), last)
    decreases |early|
  {
    hide OnEvents;
    var all := early + [last] + late;
    if early == [] {
      assert all == [last] + late && all[0] == last;
    } else {
      assert all[0] == early[0] && all[1..] == early[1..] + [last] + late;
      BatchesStop(OnEvents(p, early[0]), early[1..], last, late);
    }
  }

  // Over every run that comes to an Enter: what is written is what is left of
  // the secret as it stood there, if anything is written at all; so it is that
  // very secret exactly when no cancellation has the last word in the batch and
  // no erase key follows, or there was nothing to erase.
  lemma SubmittedIff(early: seq<seq<Event>>, typed: seq<Event>, text: string, after: seq<Event>, late: seq<seq<Event>>)
    requires OnEvents(OnBatches(OPENED, early), typed).running
    ensures var p := OnEvents(OnBatches(OPENED, early), typed);
      var written := Written(OnBatches(OPENED, early + [typed + [Key(Enter, text)] + after] + late));
      && (written.None? <==> LastVerdict(after) == Some(false))
      && (written.Some? ==> written.value == p.secret[..|p.secret| - Min(|p.secret|, Erases(after))] + "\n")
      && (written == Some(p.secret + "\n")
          <==> LastVerdict(after) != Some(false) && (Erases(after) == 0 || p.secret == ""))
  {
    var start := OnBatches(OPENED, early);
    var p := OnEvents(start, typed);
    var enter := Key(Enter, text);
    var batch := typed + [enter] + after;
    if !start.running {
      StaysStopped(start, typed);
    }
    EventsAppend(start, typed + [enter], after);
    EventsAppend(start, typed, [enter]);
    OneEvent(p, enter);
    AfterStop(OnEvent(p, enter), after);
    BatchesStop(OPENED, early, batch, late);
    hide OnBatches, OnEvents, LastVerdict, Erases;
    var kept := p.secret[..|p.secret| - Min(|p.secret|, Erases(after))];
    if kept + "\n" == p.secret + "\n" {
      assert |kept| == |p.secret|;
    }
  }

  // Both ways to lose a typed secret behind its Enter: an erase key, and Escape.
  lemma LostBehindEnter()
    ensures Written(OnBatches(OPENED, [[Key(OtherKey, "x"), Key(Enter, ""), Key(Erase, "")]])) == Some("\n")
    ensures Written(OnBatches(OPENED, [[Key(OtherKey, "x"), Key(Enter, ""), Key(Escape, "")]])) == None
  {
    var typed, p := [Key(OtherKey, "x")], OnEvent(OPENED, Key(OtherKey, "x"));
    OneEvent(OPENED, typed[0]);
    assert p.secret == "x";
    forall e: Event
      ensures e.Key? && e.sym.Escape? ==> LastVerdict([e]) == Some(false)
      ensures e.Key? && e.sym.Erase? ==> LastVerdict([e]) == None
    {
      assert Init([e]) == [];
    }
    assert Erases([Key(Erase, "")]) == 1 by { assert Init([Key(Erase, "")]) == []; }
    forall e: Event
      ensures [] + [typed + [Key(Enter, "")] + [e]] + [] == [[Key(OtherKey, "x"), Key(Enter, ""), e]]
    {
      assert typed + [Key(Enter, "")] + [e] == [Key(OtherKey, "x"), Key(Enter, ""), e];
    }
    SubmittedIff([], typed, "", [Key(Erase, "")], []);
    SubmittedIff([], typed, "", [Key(Escape, "")], []);
    hide OnBatches, OnEvents;
    assert [] + "\n" == "\n";
  }
}
