// The Esc long-press policy (files/usr/local/bin/zero-key-policy, main): an early
// firing timed machine, and the rule it stands for, which classifies a press when
// the key is released.
module KeyPolicy {
  import opened Text
  import opened Wrappers

  datatype Action = MinimizeActive | CloseActive

  // What one turn of the loop meets.  `now` is the monotonic clock as the branch
  // taken reads it; other keys, other event types and short reads are `Other`.
  datatype Wake =
    | Press(now: real)
    | Repeat(now: real)
    | Release(now: real)
    | Other(now: real)
    | Timeout(now: real)

  // A turn: the clock when the timeout is computed, and what select returned.
  datatype Turn = Turn(before: real, wake: Wake)

  // The loop's two variables.
  datatype Policy = Policy(escDownAt: Option<real>, longActionSent: bool)

  const IDLE: Policy := Policy(None, false)

  predicate Waiting(p: Policy) {
    p.escDownAt.Some? && !p.longActionSent
  }

  // The timeout passed to select; none waits for input only.
  function SelectTimeout(p: Policy, threshold: real, before: real): Option<real> {
    if Waiting(p) then
      var left := threshold - (before - p.escDownAt.value);
      Some(if left < 0.0 then 0.0 else left)
    else None
  }

  function Next(p: Policy, threshold: real, w: Wake): Policy {
    match w
    case Press(now) => Policy(Some(now), false)
    case Repeat(now) =>
      if Waiting(p) && now - p.escDownAt.value >= threshold then p.(longActionSent := true) else p
    case Release(_) => if p.escDownAt.Some? then IDLE else p
    case Other(_) => p
    case Timeout(_) => if Waiting(p) then p.(longActionSent := true) else p
  }

  // The action a turn runs, if any.
  function Emits(p: Policy, threshold: real, w: Wake): seq<Action> {
    match w
    case Press(_) => []
    case Repeat(now) => if Waiting(p) && now - p.escDownAt.value >= threshold then [CloseActive] else []
    case Release(now) =>
      if Waiting(p) then [if now - p.escDownAt.value >= threshold then CloseActive else MinimizeActive] else []
    case Other(_) => []
    case Timeout(_) => if Waiting(p) then [CloseActive] else []
  }

  function NextAll(p: Policy, threshold: real, turns: seq<Turn>): Policy
    decreases |turns|
  {
    if turns == [] then p else NextAll(Next(p, threshold, turns[0].wake), threshold, turns[1..])
  }

  function Actions(p: Policy, threshold: real, turns: seq<Turn>): seq<Action>
    decreases |turns|
  {
    if turns == [] then []
    else Emits(p, threshold, turns[0].wake) + Actions(Next(p, threshold, turns[0].wake), threshold, turns[1..])
  }

  // The clock does not run backwards, and select does not time out early, nor
  // at all without a timeout.
  predicate Timely(p: Policy, threshold: real, clock: real, t: Turn) {
    && clock <= t.before <= t.wake.now
    && (t.wake.Timeout? ==>
          var d := SelectTimeout(p, threshold, t.before);
          d.Some? && t.wake.now >= t.before + d.value)
  }

  predicate TimelyAll(p: Policy, threshold: real, clock: real, turns: seq<Turn>)
    decreases |turns|
  {
    turns == [] ||
    (&& Timely(p, threshold, clock, turns[0])
     && TimelyAll(Next(p, threshold, turns[0].wake), threshold, turns[0].wake.now, turns[1..]))
  }

  // The loop of `main` over the turns the environment brings.
  method EventLoop(threshold: real, turns: seq<Turn>) returns (actions: seq<Action>)
    ensures actions == Actions(IDLE, threshold, turns)
  {
    hide Actions;
    actions := [];
    var escDownAt, longActionSent := None, false;
    assert turns[0..] == turns && [] + Actions(IDLE, threshold, turns) == Actions(IDLE, threshold, turns);
    for n := 0 to |turns|
      invariant actions + Actions(Policy(escDownAt, longActionSent), threshold, turns[n..])
             == Actions(IDLE, threshold, turns)
    {
      ghost var p, before := Policy(escDownAt, longActionSent), actions;
      ActionsStep(p, threshold, turns, n, actions);
      match turns[n].wake {
        case Timeout(_) =>
          if escDownAt.Some? && !longActionSent {
            longActionSent := true;
            actions := actions + [CloseActive];
          }
        case Press(now) =>
          escDownAt := Some(now);
          longActionSent := false;
        case Repeat(now) =>
          if escDownAt.Some? {
            if !longActionSent && now - escDownAt.value >= threshold {
              longActionSent := true;
              actions := actions + [CloseActive];
            }
          }
        case Release(now) =>
          if escDownAt.Some? {
            var duration := now - escDownAt.value;
            if !longActionSent {
              actions := actions + [if duration >= threshold then CloseActive else MinimizeActive];
            }
            escDownAt := None;
            longActionSent := false;
          }
        case Other(_) =>
      }
      assert actions == before + Emits(p, threshold, turns[n].wake);
      assert Policy(escDownAt, longActionSent) == Next(p, threshold, turns[n].wake);
    }
    assert turns[|turns|..] == [];
    ActionsEnd(Policy(escDownAt, longActionSent), threshold, actions);
  }

  lemma ActionsEnd(p: Policy, threshold: real, actions: seq<Action>)
    ensures actions + Actions(p, threshold, []) == actions
  {
  }

  lemma ActionsStep(p: Policy, threshold: real, turns: seq<Turn>, n: nat, actions: seq<Action>)
    requires n < |turns|
    ensures var w, rest := turns[n].wake, turns[n + 1..];
      actions + Actions(p, threshold, turns[n..])
      == actions + Emits(p, threshold, w) + Actions(Next(p, threshold, w), threshold, rest)
  {
    assert turns[n..][0] == turns[n] && turns[n..][1..] == turns[n + 1..];
    var w, rest := turns[n].wake, turns[n + 1..];
    Assoc(actions, Emits(p, threshold, w), Actions(Next(p, threshold, w), threshold, rest));
  }

  // ---- one press, held and released -----------------------------------------------

  predicate HoldsKey(turns: seq<Turn>) {
    forall k :: 0 <= k < |turns| ==> !turns[k].wake.Press? && !turns[k].wake.Release?
  }

  // While the key is held the machine fires at most once, and only when the key
  // has been down for the threshold already.
  lemma {:induction false} HeldActions(p: Policy, threshold: real, clock: real, turns: seq<Turn>, end: real)
    requires p.escDownAt.Some? && HoldsKey(turns) && TimelyAll(p, threshold, clock, turns)
    requires forall k :: 0 <= k < |turns| ==> turns[k].wake.now <= end
    ensures var q, a := NextAll(p, threshold, turns), Actions(p, threshold, turns);
      && q.escDownAt == p.escDownAt
      && (p.longActionSent ==> a == [] && q.longActionSent)
      && (!p.longActionSent && q.longActionSent ==> a == [CloseActive] && end - p.escDownAt.value >= threshold)
      && (!p.longActionSent && !q.longActionSent ==> a == [])
    decreases |turns|
  {
    if turns != [] {
      var w := turns[0].wake;
      var next := Next(p, threshold, w);
      assert forall k :: 0 <= k < |turns[1..]| ==> turns[1..][k] == turns[k + 1];
      HeldActions(next, threshold, w.now, turns[1..], end);
      assert w.now <= end;
    }
  }

  lemma {:induction false} ClockAfter(p: Policy, threshold: real, clock: real, turns: seq<Turn>, last: Turn)
    requires TimelyAll(p, threshold, clock, turns + [last])
    ensures TimelyAll(p, threshold, clock, turns)
    ensures forall k :: 0 <= k < |turns| ==> turns[k].wake.now <= last.wake.now
    decreases |turns|
  {
    if turns != [] {
      var next := Next(p, threshold, turns[0].wake);
      assert (turns + [last])[1..] == turns[1..] + [last];
      ClockAfter(next, threshold, turns[0].wake.now, turns[1..], last);
      assert forall k :: 0 <= k < |turns[1..]| ==> turns[1..][k] == turns[k + 1];
      if |turns| == 1 {
        assert turns[1..] + [last] == [last];
      }
    }
  }

  lemma {:induction false} ActionsAppend(p: Policy, threshold: real, a: seq<Turn>, b: seq<Turn>)
    ensures NextAll(p, threshold, a + b) == NextAll(NextAll(p, threshold, a), threshold, b)
    ensures Actions(p, threshold, a + b) == Actions(p, threshold, a) + Actions(NextAll(p, threshold, a), threshold, b)
    decreases |a|
  {
    if a == [] {
      assert a + b == b;
    } else {
      assert (a + b)[1..] == a[1..] + b;
      ActionsAppend(Next(p, threshold, a[0].wake), threshold, a[1..], b);
    }
  }

  // The early machine agrees with classifying at release: whatever state it
  // starts in, a press, anything but Esc going down or up, and the release run
  // exactly one action, the long one exactly if the key was down long enough.
  lemma CycleIsClassified(p: Policy, threshold: real, clock: real, press: Turn, held: seq<Turn>, release: Turn)
    requires press.wake.Press? && release.wake.Release? && HoldsKey(held)
    requires TimelyAll(p, threshold, clock, [press] + held + [release])
    ensures Actions(p, threshold, [press] + held + [release])
         == [if release.wake.now - press.wake.now >= threshold then CloseActive else MinimizeActive]
    ensures NextAll(p, threshold, [press] + held + [release]) == IDLE
  {
    var down := Next(p, threshold, press.wake);
    assert ([press] + held + [release])[1..] == held + [release];
    ClockAfter(down, threshold, press.wake.now, held, release);
    HeldActions(down, threshold, press.wake.now, held, release.wake.now);
    var q := NextAll(down, threshold, held);
    ActionsAppend(down, threshold, held, [release]);
    assert [release][1..] == [];
    assert Actions(q, threshold, [release]) == Emits(q, threshold, release.wake) + [];
  }

  // ---- the long action is on time -----------------------------------------------------

  // The timeout asked for ends when the key has been down for the threshold, or at
  // once if that is past; there is none unless the machine waits for it.
  lemma TimeoutIsExact(p: Policy, threshold: real, before: real)
    ensures SelectTimeout(p, threshold, before).None? <==> !Waiting(p)
    ensures Waiting(p) ==>
      var due := p.escDownAt.value + threshold;
      before + SelectTimeout(p, threshold, before).value == if before < due then due else before
  {
  }

  // A turn that wakes no later than the timeout asked for.
  predicate Punctual(p: Policy, threshold: real, t: Turn) {
    var d := SelectTimeout(p, threshold, t.before);
    d.Some? ==> t.wake.now <= t.before + d.value
  }

  // So with a select that is on time both ways, while the key is held with its long
  // action still to come, a turn that begins before it is due ends by then, and
  // the timeout comes exactly then and runs it; a repeat that comes just then
  // runs it too.
  lemma LongActionOnTime(p: Policy, threshold: real, clock: real, t: Turn)
    requires Waiting(p) && Timely(p, threshold, clock, t) && Punctual(p, threshold, t)
    requires t.before <= p.escDownAt.value + threshold
    ensures var due := p.escDownAt.value + threshold;
      && t.wake.now <= due
      && (t.wake.Timeout? ==> t.wake.now == due && Emits(p, threshold, t.wake) == [CloseActive])
      && (t.wake.Repeat? ==> (Emits(p, threshold, t.wake) == [CloseActive] <==> t.wake.now == due))
  {
  }

  // ---- arbitrary traces --------------------------------------------------------------

  // No action runs again before the next press, however the clock behaves.
  lemma {:induction false} QuietUntilPress(p: Policy, threshold: real, turns: seq<Turn>)
    requires !Waiting(p) && forall k :: 0 <= k < |turns| ==> !turns[k].wake.Press?
    ensures Actions(p, threshold, turns) == []
    decreases |turns|
  {
    if turns != [] {
      assert forall k :: 0 <= k < |turns[1..]| ==> turns[1..][k] == turns[k + 1];
      QuietUntilPress(Next(p, threshold, turns[0].wake), threshold, turns[1..]);
    }
  }

  // Two actions, run by turns `i` and `j`, always have a press between them.
  lemma PressBetween(threshold: real, turns: seq<Turn>, i: nat, j: nat)
    requires i < j < |turns|
    requires Emits(NextAll(IDLE, threshold, turns[..i]), threshold, turns[i].wake) != []
    requires Emits(NextAll(IDLE, threshold, turns[..j]), threshold, turns[j].wake) != []
    ensures exists k :: i < k < j && turns[k].wake.Press?
  {
    if forall k :: i < k < j ==> !turns[k].wake.Press? {
      var p := NextAll(IDLE, threshold, turns[..i]);
      var fired := Next(p, threshold, turns[i].wake);
      var between := turns[i + 1..j];
      assert turns[..j] == turns[..i] + [turns[i]] + between;
      ActionsAppend(IDLE, threshold, turns[..i] + [turns[i]], between);
      ActionsAppend(IDLE, threshold, turns[..i], [turns[i]]);
      assert [turns[i]][1..] == [];
      assert NextAll(p, threshold, [turns[i]]) == fired;
      StaysQuiet(fired, threshold, between);
    }
  }

  lemma {:induction false} StaysQuiet(p: Policy, threshold: real, turns: seq<Turn>)
    requires !Waiting(p) && forall k :: 0 <= k < |turns| ==> !turns[k].wake.Press?
    ensures !Waiting(NextAll(p, threshold, turns))
    decreases |turns|
  {
    if turns != [] {
      assert forall k :: 0 <= k < |turns[1..]| ==> turns[1..][k] == turns[k + 1];
      StaysQuiet(Next(p, threshold, turns[0].wake), threshold, turns[1..]);
    }
  }

  // ---- the release-time rule over whole traces ------------------------------------------

  // The rule: remember the last press, classify at release, do nothing else.
  function RuleNext(down: Option<real>, w: Wake): Option<real> {
    match w
    case Press(now) => Some(now)
    case Release(_) => None
    case _ => down
  }

  function RuleEmits(down: Option<real>, threshold: real, w: Wake): seq<Action> {
    if w.Release? && down.Some? then [if w.now - down.value >= threshold then CloseActive else MinimizeActive] else []
  }

  function RuleActions(down: Option<real>, threshold: real, turns: seq<Turn>): seq<Action>
    decreases |turns|
  {
    if turns == [] then []
    else RuleEmits(down, threshold, turns[0].wake) + RuleActions(RuleNext(down, turns[0].wake), threshold, turns[1..])
  }

  // Presses that arrive while the key is down and its long action has run.
  function Represses(p: Policy, threshold: real, turns: seq<Turn>): nat
    decreases |turns|
  {
    if turns == [] then 0
    else
      (if turns[0].wake.Press? && p.escDownAt.Some? && p.longActionSent then 1 else 0)
      + Represses(Next(p, threshold, turns[0].wake), threshold, turns[1..])
  }

  predicate Coming(p: Policy, threshold: real, clock: real) {
    && (p.escDownAt.Some? ==> p.escDownAt.value <= clock)
    && (p.longActionSent ==> p.escDownAt.Some? && clock - p.escDownAt.value >= threshold)
  }

  function Early(p: Policy): nat { if p.longActionSent then 1 else 0 }

  // The machine is ahead of the rule by the action fired for a key still down,
  // and by one action for every press without a release before it.
  lemma {:induction false} AheadOfRule(p: Policy, threshold: real, clock: real, turns: seq<Turn>)
    requires TimelyAll(p, threshold, clock, turns) && Coming(p, threshold, clock)
    ensures |Actions(p, threshold, turns)| + Early(p)
         == |RuleActions(p.escDownAt, threshold, turns)| + Represses(p, threshold, turns)
            + Early(NextAll(p, threshold, turns))
    decreases |turns|
  {
    if turns != [] {
      AheadOfRule(Next(p, threshold, turns[0].wake), threshold, turns[0].wake.now, turns[1..]);
    }
  }

  function EarlyAction(p: Policy): seq<Action> {
    if p.longActionSent then [CloseActive] else []
  }

  lemma StepAsRule(p: Policy, threshold: real, clock: real, t: Turn)
    requires Timely(p, threshold, clock, t) && Coming(p, threshold, clock)
    requires !(t.wake.Press? && p.longActionSent)
    ensures var next := Next(p, threshold, t.wake);
      && EarlyAction(p) + Emits(p, threshold, t.wake) == RuleEmits(p.escDownAt, threshold, t.wake) + EarlyAction(next)
      && Coming(next, threshold, t.wake.now) && next.escDownAt == RuleNext(p.escDownAt, t.wake)
  {
  }

  lemma {:induction false} SameAsRule(p: Policy, threshold: real, clock: real, turns: seq<Turn>)
    requires TimelyAll(p, threshold, clock, turns) && Coming(p, threshold, clock)
    requires Represses(p, threshold, turns) == 0
    ensures EarlyAction(p) + Actions(p, threshold, turns)
         == RuleActions(p.escDownAt, threshold, turns) + EarlyAction(NextAll(p, threshold, turns))
    decreases |turns|
  {
    if turns == [] {
      assert EarlyAction(p) + [] == [] + EarlyAction(p);
    } else {
      var w, rest := turns[0].wake, turns[1..];
      var next := Next(p, threshold, w);
      StepAsRule(p, threshold, clock, turns[0]);
      SameAsRule(next, threshold, w.now, rest);
      hide EarlyAction, Emits, RuleEmits, Next, RuleNext;
      Assoc(EarlyAction(p), Emits(p, threshold, w), Actions(next, threshold, rest));
      Assoc(RuleEmits(p.escDownAt, threshold, w), EarlyAction(next), Actions(next, threshold, rest));
      Assoc(RuleEmits(p.escDownAt, threshold, w), RuleActions(next.escDownAt, threshold, rest),
            EarlyAction(NextAll(next, threshold, rest)));
    }
  }

  // ---- the same, told from the trace alone ---------------------------------------------

  // The key went down at turn `j` and is down still before turn `n`.
  predicate HeldSince(turns: seq<Turn>, j: nat, n: nat)
    requires n <= |turns|
  {
    && j < n && turns[j].wake.Press?
    && forall k :: j < k < n ==> !turns[k].wake.Press? && !turns[k].wake.Release?
  }

  // Turn `m`, while the key has been down since turn `j`, finds the threshold passed:
  // a timeout, or a repeat that late.
  predicate RunsOut(threshold: real, turns: seq<Turn>, j: nat, m: nat)
    requires j < m < |turns|
  {
    var w := turns[m].wake;
    w.Timeout? || (w.Repeat? && w.now - turns[j].wake.now >= threshold)
  }

  // Turn `n` presses a key that is down already, and was found held for the
  // threshold.
  predicate LatePress(threshold: real, turns: seq<Turn>, n: nat)
    requires n < |turns|
  {
    && turns[n].wake.Press?
    && exists j, m :: 0 <= j < m < n && HeldSince(turns, j, n) && RunsOut(threshold, turns, j, m)
  }

  // Every press among the first `n` turns is followed by a release among them.
  predicate Released(turns: seq<Turn>, n: nat)
    requires n <= |turns|
  {
    forall j :: 0 <= j < n && turns[j].wake.Press? ==> exists k :: j < k < n && turns[k].wake.Release?
  }

  // How many of the first `n` turns are late presses.
  function LatePresses(threshold: real, turns: seq<Turn>, n: nat): nat
    requires n <= |turns|
  {
    if n == 0 then 0
    else LatePresses(threshold, turns, n - 1) + if LatePress(threshold, turns, n - 1) then 1 else 0
  }

  function StateAt(threshold: real, turns: seq<Turn>, n: nat): Policy
    requires n <= |turns|
  {
    if n == 0 then IDLE else Next(StateAt(threshold, turns, n - 1), threshold, turns[n - 1].wake)
  }

  lemma {:induction false} StateAtIs(threshold: real, turns: seq<Turn>, n: nat)
    requires n <= |turns|
    ensures StateAt(threshold, turns, n) == NextAll(IDLE, threshold, turns[..n])
  {
    hide Next;
    if n > 0 {
      StateAtIs(threshold, turns, n - 1);
      assert turns[..n] == turns[..n - 1] + [turns[n - 1]];
      ActionsAppend(IDLE, threshold, turns[..n - 1], [turns[n - 1]]);
      assert [turns[n - 1]][1..] == [];
    }
  }

  // What the machine remembers, read off the trace.
  lemma {:induction false} StateByTrace(threshold: real, turns: seq<Turn>, n: nat)
    requires n <= |turns|
    ensures var p := StateAt(threshold, turns, n);
      && (p.escDownAt.None? ==> !p.longActionSent && forall j: nat :: !HeldSince(turns, j, n))
      && (p.escDownAt.Some? ==> exists j: nat :: HeldSince(turns, j, n) && turns[j].wake.now == p.escDownAt.value)
      && (forall j: nat :: HeldSince(turns, j, n) ==>
            p.escDownAt == Some(turns[j].wake.now)
            && (p.longActionSent <==> exists m :: j < m < n && RunsOut(threshold, turns, j, m)))
  {
    if n > 0 {
      StateByTrace(threshold, turns, n - 1);
      var p, w := StateAt(threshold, turns, n - 1), turns[n - 1].wake;
      hide StateAt;
      HeldStep(turns, n);
      if w.Press? {
        assert HeldSince(turns, n - 1, n);
      } else if !w.Release? && p.escDownAt.Some? {
        var j: nat :| HeldSince(turns, j, n - 1) && turns[j].wake.now == p.escDownAt.value;
        assert HeldSince(turns, j, n);
        assert RunsOut(threshold, turns, j, n - 1)
          <==> w.Timeout? || (w.Repeat? && w.now - turns[j].wake.now >= threshold);
      }
    }
  }

  lemma HeldStep(turns: seq<Turn>, n: nat)
    requires 0 < n <= |turns|
    ensures forall j: nat :: HeldSince(turns, j, n) <==>
      if turns[n - 1].wake.Press? then j == n - 1
      else HeldSince(turns, j, n - 1) && !turns[n - 1].wake.Release?
  {
  }

  lemma {:induction false} ReleasedIff(threshold: real, turns: seq<Turn>, n: nat)
    requires n <= |turns|
    ensures StateAt(threshold, turns, n).escDownAt.None? <==> Released(turns, n)
  {
    if n > 0 {
      ReleasedIff(threshold, turns, n - 1);
      var w := turns[n - 1].wake;
      assert w.Release? ==> Released(turns, n);
      assert !w.Press? && Released(turns, n - 1) ==> Released(turns, n);
      assert !w.Release? && Released(turns, n) ==> !w.Press? && Released(turns, n - 1);
    }
  }

  lemma LatePressIff(threshold: real, turns: seq<Turn>, n: nat)
    requires n < |turns|
    ensures var p := StateAt(threshold, turns, n);
      LatePress(threshold, turns, n) <==> turns[n].wake.Press? && p.escDownAt.Some? && p.longActionSent
  {
    StateByTrace(threshold, turns, n);
    hide StateAt, HeldSince, RunsOut;
    var p := StateAt(threshold, turns, n);
    if p.escDownAt.Some? {
      var j: nat :| HeldSince(turns, j, n) && turns[j].wake.now == p.escDownAt.value;
      if p.longActionSent {
        var m :| j < m < n && RunsOut(threshold, turns, j, m);
      }
    }
  }

  lemma {:induction false} RepressesSnoc(p: Policy, threshold: real, turns: seq<Turn>, t: Turn)
    ensures var q := NextAll(p, threshold, turns);
      Represses(p, threshold, turns + [t])
      == Represses(p, threshold, turns) + if t.wake.Press? && q.escDownAt.Some? && q.longActionSent then 1 else 0
    decreases |turns|
  {
    hide Next;
    if turns == [] {
      assert turns + [t] == [t] && [t][1..] == [];
    } else {
      assert (turns + [t])[1..] == turns[1..] + [t];
      RepressesSnoc(Next(p, threshold, turns[0].wake), threshold, turns[1..], t);
    }
  }

  lemma {:induction false} RepressesByTrace(threshold: real, turns: seq<Turn>, n: nat)
    requires n <= |turns|
    ensures Represses(IDLE, threshold, turns[..n]) == LatePresses(threshold, turns, n)
  {
    if n > 0 {
      RepressesByTrace(threshold, turns, n - 1);
      RepressesSnoc(IDLE, threshold, turns[..n - 1], turns[n - 1]);
      assert turns[..n] == turns[..n - 1] + [turns[n - 1]];
      StateAtIs(threshold, turns, n - 1);
      LatePressIff(threshold, turns, n - 1);
      hide LatePress, StateAt, NextAll;
    }
  }

  lemma {:induction false} NoneLate(threshold: real, turns: seq<Turn>, n: nat)
    requires n <= |turns|
    ensures LatePresses(threshold, turns, n) == 0 <==> forall k :: 0 <= k < n ==> !LatePress(threshold, turns, k)
  {
    hide LatePress;
    if n > 0 {
      NoneLate(threshold, turns, n - 1);
    }
  }

  // Over every timely trace whose presses are all released, the machine runs one
  // action more than the rule for every late press; so it runs exactly the
  // actions of the rule, in order, if and only if no press is late.
  lemma RefinesRuleIff(threshold: real, clock: real, turns: seq<Turn>)
    requires TimelyAll(IDLE, threshold, clock, turns) && Released(turns, |turns|)
    ensures |Actions(IDLE, threshold, turns)|
      == |RuleActions(None, threshold, turns)| + LatePresses(threshold, turns, |turns|)
    ensures Actions(IDLE, threshold, turns) == RuleActions(None, threshold, turns)
      <==> forall k :: 0 <= k < |turns| ==> !LatePress(threshold, turns, k)
  {
    hide LatePress, TimelyAll, Next, Released, Represses, StateAt, LatePresses;
    assert turns[..|turns|] == turns;
    RepressesByTrace(threshold, turns, |turns|);
    NoneLate(threshold, turns, |turns|);
    ReleasedIff(threshold, turns, |turns|);
    StateAtIs(threshold, turns, |turns|);
    AheadOfRule(IDLE, threshold, clock, turns);
    SentMeansDown(IDLE, threshold, turns);
    if Represses(IDLE, threshold, turns) == 0 {
      SameAsRule(IDLE, threshold, clock, turns);
      assert [] + Actions(IDLE, threshold, turns) == Actions(IDLE, threshold, turns);
      assert RuleActions(None, threshold, turns) + [] == RuleActions(None, threshold, turns);
    }
  }

  // The key held past 0.8 seconds, and pressed again with its release lost: two
  // actions, where the rule knows of one.
  lemma LostRelease()
    ensures var turns := [
        Turn(0.0, Press(0.0)), Turn(0.0, Timeout(0.8)), Turn(1.0, Press(1.0)), Turn(1.0, Release(1.1))];
      && TimelyAll(IDLE, 0.8, 0.0, turns) && Released(turns, 4) && LatePress(0.8, turns, 2)
      && Actions(IDLE, 0.8, turns) == [CloseActive, MinimizeActive]
      && RuleActions(None, 0.8, turns) == [MinimizeActive]
  {
    var a, b, c, d := Turn(0.0, Press(0.0)), Turn(0.0, Timeout(0.8)), Turn(1.0, Press(1.0)), Turn(1.0, Release(1.1));
    var turns := [a, b, c, d];
    assert turns[1..] == [b, c, d] && [b, c, d][1..] == [c, d] && [c, d][1..] == [d] && [d][1..] == [];
    assert HeldSince(turns, 0, 2) && RunsOut(0.8, turns, 0, 1);
    assert turns[3].wake.Release?;
  }

  lemma {:induction false} SentMeansDown(p: Policy, threshold: real, turns: seq<Turn>)
    requires p.longActionSent ==> p.escDownAt.Some?
    ensures NextAll(p, threshold, turns).longActionSent ==> NextAll(p, threshold, turns).escDownAt.Some?
    decreases |turns|
  {
    if turns != [] {
      SentMeansDown(Next(p, threshold, turns[0].wake), threshold, turns[1..]);
    }
  }
}
