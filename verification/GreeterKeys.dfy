// What keys do in the greeter, key by key and over whole sequences: typing, the two
// menus, the login attempt, and the turns of its loop
// (greeter/zero-greeter-wayland.cpp).
module GreeterKeys {
  import opened Text
  import opened Wrappers
  import opened Greeter

  // ---- typing ----------------------------------------------------------------------------

  // A key the login view leaves to text entry.
  predicate TextKey(e: Event) {
    e.Key? && (e.sym.OtherKey? || e.sym.Forward? || e.sym.Backward?)
  }

  // A key that types one printable byte there.
  predicate TypesOne(e: Event) {
    TextKey(e) && |e.text| == 1 && ' ' <= e.text[0] <= '~'
  }

  // What keys type, in order.
  function Texts(keys: seq<Event>): string {
    if keys == [] then "" else (if keys[0].Key? then keys[0].text else "") + Texts(keys[1..])
  }

  // The login view while a user types.
  predicate Typing(g: Ui) {
    InRange(g) && g.mode.Login? && g.running
  }

  // What typing may change besides the password.
  predicate SameButTyping(g: Ui, r: Ui) {
    r == g.(password := r.password, message := r.message, error := r.error, dirty := r.dirty)
  }

  lemma TypedOne(g: Ui, e: Event)
    requires Typing(g) && TypesOne(e) && |g.password| < 128
    ensures var r := OnEvent(g, e);
      && SameButTyping(g, r) && r.password == g.password + e.text
      && r.dirty && !r.error && r.message == "PAM AUTHENTICATION"
  {
    hide AttemptLogin, Reload, InRange;
  }

  // Printable bytes typed one by one stand behind what was there, in order.
  lemma {:induction false} TypingAppends(g: Ui, keys: seq<Event>)
    requires Typing(g) && |g.password| + |keys| <= 128
    requires forall k :: 0 <= k < |keys| ==> TypesOne(keys[k])
    ensures SameButTyping(g, OnEvents(g, keys)) && OnEvents(g, keys).password == g.password + Texts(keys)
    ensures |Texts(keys)| == |keys|
    decreases |keys|
  {
    if keys == [] {
      assert g.password + "" == g.password;
    } else {
      var rest := keys[1..];
      assert forall k :: 0 <= k < |rest| ==> rest[k] == keys[k + 1];
      TypedOne(g, keys[0]);
      hide OnEvent, InRange;
      TypingAppends(OnEvent(g, keys[0]), rest);
      Assoc(g.password, keys[0].text, Texts(rest));
    }
  }

  // An erase key takes the last byte away, if there is one.
  lemma EraseTakesLast(g: Ui, e: Event)
    requires Typing(g) && e.Key? && e.sym.Erase?
    ensures var r := OnEvent(g, e);
      && SameButTyping(g, r) && r.dirty && !r.error && r.message == "PAM AUTHENTICATION"
      && (g.password == "" ==> r.password == "")
      && (g.password != "" ==> exists c :: r.password + [c] == g.password)
  {
    hide AttemptLogin, Reload, InRange;
    var r := OnEvent(g, e);
    if g.password != "" {
      assert r.password + [g.password[|g.password| - 1]] == g.password;
    }
  }

  // So it undoes a key that typed something.
  lemma EraseUndoesTyping(g: Ui, typed: Event, erase: Event)
    requires Typing(g) && TypesOne(typed) && |g.password| < 128 && erase.Key? && erase.sym.Erase?
    ensures OnEvent(OnEvent(g, typed), erase).password == g.password
  {
    TypedOne(g, typed);
    var r := OnEvent(g, typed);
    EraseTakesLast(r, erase);
    hide OnEvent;
    assert |r.password| == |g.password| + 1;
  }

  // Any other text, or a full password, leaves everything as it is.
  lemma OtherTextsIgnored(g: Ui, e: Event)
    requires Typing(g) && TextKey(e) && !(TypesOne(e) && |g.password| < 128)
    ensures OnEvent(g, e) == g
  {
    hide AttemptLogin, Reload, InRange;
  }

  // A window that is closed takes no more text, though its batch goes on.
  lemma ClosedTakesNoText(g: Ui, e: Event)
    requires InRange(g) && !g.running && TextKey(e) && g.mode.Login?
    ensures OnEvent(g, e) == g
  {
    hide AttemptLogin, Reload, InRange;
  }

  // The whole way: the request Enter sends is the name, a newline, the password that
  // was there with what was typed since behind it, and a newline.
  lemma TypedIsSent(g: Ui, keys: seq<Event>, enter: Event)
    requires Typing(g) && g.users != [] && |g.password| + |keys| <= 128
    requires forall k :: 0 <= k < |keys| ==> TypesOne(keys[k])
    requires enter.Key? && enter.sym.Enter? && enter.helper.Answered?
    ensures OnEvent(OnEvents(g, keys), enter).requests
      == g.requests + [g.users[g.selected].name + "\n" + (g.password + Texts(keys)) + "\n"]
    ensures OnEvent(OnEvents(g, keys), enter).password == ""
  {
    TypingAppends(g, keys);
    hide OnEvents;
    AttemptDoes(OnEvents(g, keys), enter.helper);
    EnterAttempts(OnEvents(g, keys), enter);
  }

  // ---- the login attempt ----------------------------------------------------------------------

  lemma EnterAttempts(g: Ui, enter: Event)
    requires Typing(g) && enter.Key? && enter.sym.Enter?
    ensures OnEvent(g, enter) == AttemptLogin(g, enter.helper)
  {
    hide AttemptLogin, InRange;
  }

  predicate Succeeds(helper: Helper) {
    helper.Answered? && helper.ok
  }

  // Without a user nothing is sent and the user is told; with one the password is
  // sent to a helper that starts and forgotten, and the session starts exactly
  // if the helper says so.  The frame shown meanwhile says that it is busy.
  lemma AttemptDoes(g: Ui, helper: Helper)
    requires Typing(g)
    ensures var r := AttemptLogin(g, helper);
      && (g.users == [] ==>
            r == g.(message := "CREATE A USER FIRST", error := true, dirty := true))
      && (g.users != [] ==>
            && r.password == "" && r.message == helper.text && (r.error <==> !Succeeds(helper))
            && r.running == !Succeeds(helper) && r.mode == (if Succeeds(helper) then StartingSession else Login)
            && r.started == (Succeeds(helper) || g.started) && (!Succeeds(helper) ==> r.dirty)
            && r.users == g.users && r.selected == g.selected && r.configured == g.configured
            && r.requests == g.requests +
                 if helper.Answered? then [g.users[g.selected].name + "\n" + g.password + "\n"] else [])
  {
    hide Draw, InRange;
    assert g.requests + [] == g.requests;
  }

  lemma BusyIsShown(g: Ui, helper: Helper)
    requires Typing(g) && g.users != []
    ensures var r := AttemptLogin(g, helper);
      if g.configured && !(g.busy[0] && g.busy[1]) then
        exists b: nat, f :: r.log == g.log + [Committed(b, f)] && b < 2 && !g.busy[b]
          && (b == 0 || g.busy[0]) && f.status == "AUTHENTICATING" && !f.error && !f.cursor
      else r.log == g.log
  {
    var asking := g.(mode := Authenticating, message := BUSY_STATUS, error := false, dirty := true);
    var b := NextBuffer(asking);
    assert BUSY_STATUS != "";
    assert Draw(asking).status == "AUTHENTICATING";
    hide Draw;
    if g.configured && b.Some? {
      assert AttemptLogin(g, helper).log == g.log + [Committed(b.value, Draw(asking))];
    }
  }

  // Once the session starts no key does anything any more.
  lemma StartedIgnoresKeys(g: Ui, e: Event)
    requires InRange(g) && g.mode.StartingSession? && e.Key?
    ensures OnEvent(g, e) == g
  {
    hide InRange;
  }

  // ---- the menus --------------------------------------------------------------------------------

  // In the user menu Tab, Down and Right go one row on, Up and Left one back, around
  // the ends; keys that are none of these, nor Enter or Escape, do nothing.  No
  // key types there.
  lemma UserMenuMoves(g: Ui, e: Event)
    requires InRange(g) && g.mode.UserMenu? && e.Key? && !e.sym.Enter? && !e.sym.Escape?
    ensures var r, n, at := OnEvent(g, e), |g.users|, g.menuSelected;
      && OnlyMoved(g, r)
      && (n > 0 && (e.sym.Tab? || e.sym.Forward?) ==> r.menuSelected == if at == n - 1 then 0 else at + 1)
      && (n > 0 && e.sym.Backward? ==> r.menuSelected == if at == 0 then n - 1 else at - 1)
      && (e.sym.Tab? || e.sym.Forward? || e.sym.Backward? ==> r.dirty)
      && (e.sym.Erase? || e.sym.OtherKey? ==> r == g)
  {
    BrowseStep(g, e.sym);
    if g.users != [] {
      Around(g.menuSelected, |g.users|);
    }
  }

  // The power menu has three entries, gone through the same way; Enter and Escape go
  // back to the login view, and nothing else changes.
  lemma PowerMenuMoves(g: Ui, e: Event)
    requires InRange(g) && g.mode.PowerMenu? && e.Key?
    ensures var r, at := OnEvent(g, e), g.powerSelection;
      && r == g.(powerSelection := r.powerSelection, mode := r.mode, dirty := r.dirty)
      && (e.sym.Tab? || e.sym.Forward? ==> r.powerSelection == (if at == 2 then 0 else at + 1))
      && (e.sym.Backward? ==> r.powerSelection == (if at == 0 then 2 else at - 1))
      && (!e.sym.Tab? && !e.sym.Forward? && !e.sym.Backward? ==> r.powerSelection == at)
      && r.mode == (if e.sym.Enter? || e.sym.Escape? then Login else PowerMenu)
      && (!e.sym.Erase? && !e.sym.OtherKey? ==> r.dirty)
  {
    assert g.powerSelection < 3;
    hide InRange;
  }

  // Escape in the login view opens it on its last entry, cancel, and touches neither
  // the users nor the password.
  lemma EscapeOpensPowerMenu(g: Ui, e: Event)
    requires Typing(g) && e.Key? && e.sym.Escape?
    ensures var r := OnEvent(g, e);
      && Draw(r).menu == PowerRows(2) && Draw(r).user == Draw(g).user && r.password == g.password
      && !Draw(r).selecting && Draw(r).status == "PAM AUTHENTICATION" && !Draw(r).error
      && OnEvent(r, e).mode.Login? && OnEvent(r, e).password == g.password
  {
    hide AttemptLogin, Reload;
  }

  // Tab finds the users anew; one that still has its place stays selected.
  lemma TabKeepsPlace(g: Ui, e: Event)
    requires Typing(g) && e.Key? && e.sym.Tab?
    ensures var r := OnEvent(g, e);
      && r.users == e.found && r.mode.UserMenu? && r.menuSelected == r.selected && r.password == g.password
      && (g.selected < |e.found| ==> r.selected == g.selected)
      && Draw(r).selecting && Draw(r).status == "PAM AUTHENTICATION" && !Draw(r).error
  {
    hide AttemptLogin, InRange, Reload;
    ReloadRest(g, e.found);
    ReloadKeepsPlace(g, e.found);
  }

  lemma ReloadKeepsPlace(g: Ui, found: seq<User>)
    requires InRange(g)
    ensures g.selected < |found| ==> Reload(g, found).selected == g.selected
  {
  }

  // ---- what a frame shows -------------------------------------------------------------------------

  // A frame tells the user's name, how much of the password there is up to twelve
  // bytes, and which menu is open with which entry.
  lemma FramesTell(g: Ui, h: Ui)
    requires InRange(g) && InRange(h) && Draw(g) == Draw(h)
    ensures (g.users == [] <==> h.users == [])
    ensures g.users != [] ==> g.users[g.selected].name == h.users[h.selected].name
    ensures |g.password| < 12 ==> |h.password| == |g.password|
    ensures g.mode.Login? <==> h.mode.Login?
    ensures g.mode.PowerMenu? ==> h.mode.PowerMenu? && h.powerSelection == g.powerSelection
    ensures g.error == h.error && (g.message != "" && h.message != "" ==> g.message == h.message)
    ensures g.mode.UserMenu? && g.users != [] ==> h.mode.UserMenu? && h.users[h.menuSelected] == g.users[g.menuSelected]
  {
    if g.mode.UserMenu? && g.users != [] {
      MenuShowsSelection(g);
      MenuShowsSelection(h);
    }
  }

  // ---- turns ------------------------------------------------------------------------------------

  // The same but for what drawing touches.
  predicate Alike(g: Ui, h: Ui) {
    h == g.(busy := h.busy, dirty := h.dirty, log := h.log)
  }

  lemma AlikeTogether(g: Ui, h: Ui, r: Ui)
    ensures Alike(g, h) ==> Alike(h, g)
    ensures Alike(g, h) && Alike(h, r) ==> Alike(g, r)
  {
  }

  lemma RenderAlike(g: Ui)
    requires InRange(g)
    ensures Alike(g, Render(g))
  {
    hide Draw;
  }

  lemma EventAlike(g: Ui, h: Ui, e: Event)
    requires InRange(g) && InRange(h) && Alike(g, h)
    ensures Alike(OnEvent(g, e), OnEvent(h, e))
  {
    match e
    case Key(_, text, _, _) =>
      KeyAlike(g, h, e);
      var a, b := OnKeysym(g, e), OnKeysym(h, e);
      hide OnKeysym, InRange;
      TextAlike(a.ui, b.ui, text);
      hide OnText;
    case _ => hide InRange, OnKeysym, OnText;
  }

  lemma TextAlike(g: Ui, h: Ui, text: string)
    requires Alike(g, h)
    ensures Alike(OnText(g, text), OnText(h, text))
  {
  }

  lemma KeyAlike(g: Ui, h: Ui, k: Event)
    requires InRange(g) && InRange(h) && Alike(g, h) && k.Key?
    ensures Alike(OnKeysym(g, k).ui, OnKeysym(h, k).ui) && OnKeysym(g, k).taken == OnKeysym(h, k).taken
  {
    match g.mode
    case UserMenu =>
      UserMenuAlike(g, h, k.sym);
      hide OnUserMenuKey, OnPowerMenuKey, OnLoginKey;
    case PowerMenu =>
      PowerMenuAlike(g, h, k.sym);
      hide OnUserMenuKey, OnPowerMenuKey, OnLoginKey;
    case Login =>
      LoginAlike(g, h, k);
      hide OnUserMenuKey, OnPowerMenuKey, OnLoginKey;
    case _ => hide OnUserMenuKey, OnPowerMenuKey, OnLoginKey;
  }

  lemma UserMenuAlike(g: Ui, h: Ui, sym: Keysym)
    requires InRange(g) && InRange(h) && Alike(g, h)
    ensures Alike(OnUserMenuKey(g, sym), OnUserMenuKey(h, sym))
  {
    MovedAlike(g, h, 1);
    MovedAlike(g, h, -1);
    hide Moved, InRange;
  }

  lemma MovedAlike(g: Ui, h: Ui, delta: int)
    requires InRange(g) && InRange(h) && Alike(g, h) && -1 <= delta <= 1
    ensures Alike(Moved(g, delta), Moved(h, delta))
  {
  }

  lemma PowerMenuAlike(g: Ui, h: Ui, sym: Keysym)
    requires InRange(g) && InRange(h) && Alike(g, h)
    ensures Alike(OnPowerMenuKey(g, sym), OnPowerMenuKey(h, sym))
  {
    hide InRange;
  }

  lemma LoginAlike(g: Ui, h: Ui, k: Event)
    requires InRange(g) && InRange(h) && Alike(g, h) && k.Key?
    ensures Alike(OnLoginKey(g, k).ui, OnLoginKey(h, k).ui) && OnLoginKey(g, k).taken == OnLoginKey(h, k).taken
  {
    hide AttemptLogin, Reload, Alike;
    match k.sym
    case Tab =>
      ReloadAlike(g, h, k.found);
      OpenedAlike(Reload(g, k.found), Reload(h, k.found));
    case Escape => PowerAlike(g, h);
    case Enter => AttemptAlike(g, h, k.helper);
    case Erase => ErasedAlike(g, h);
    case _ =>
  }

  lemma OpenedAlike(g: Ui, h: Ui)
    requires Alike(g, h)
    ensures Alike(g.(menuSelected := g.selected, mode := UserMenu, message := "", error := false, dirty := true),
                  h.(menuSelected := h.selected, mode := UserMenu, message := "", error := false, dirty := true))
  {
  }

  lemma PowerAlike(g: Ui, h: Ui)
    requires Alike(g, h)
    ensures Alike(g.(powerSelection := 2, mode := PowerMenu, message := "", error := false, dirty := true),
                  h.(powerSelection := 2, mode := PowerMenu, message := "", error := false, dirty := true))
  {
  }

  lemma ErasedAlike(g: Ui, h: Ui)
    requires Alike(g, h)
    ensures Alike(g.(password := if g.password == "" then "" else Init(g.password),
                     message := DEFAULT_STATUS, error := false, dirty := true),
                  h.(password := if h.password == "" then "" else Init(h.password),
                     message := DEFAULT_STATUS, error := false, dirty := true))
  {
  }

  lemma ReloadAlike(g: Ui, h: Ui, found: seq<User>)
    requires InRange(g) && InRange(h) && Alike(g, h)
    ensures Alike(Reload(g, found), Reload(h, found))
  {
    assert h.selected == g.selected && h.menuSelected == g.menuSelected;
    hide InRange;
    if found != [] {
      var a, b := g.selected % |found|, g.menuSelected % |found|;
      assert Reload(g, found) == g.(users := found, selected := a, menuSelected := b);
      assert Reload(h, found) == h.(users := found, selected := a, menuSelected := b);
    }
  }

  lemma AttemptAlike(g: Ui, h: Ui, helper: Helper)
    requires InRange(g) && InRange(h) && Alike(g, h)
    ensures Alike(AttemptLogin(g, helper), AttemptLogin(h, helper))
  {
    if g.users != [] {
      BusyAlike(g, h);
      hide ShowBusy, InRange, LoginRequest.Request;
    }
  }

  lemma BusyAlike(g: Ui, h: Ui)
    requires InRange(g) && InRange(h) && Alike(g, h)
    ensures Alike(ShowBusy(g), ShowBusy(h))
    ensures ShowBusy(g).users == g.users && ShowBusy(g).selected == g.selected && ShowBusy(g).password == g.password
  {
    var a := g.(mode := Authenticating, message := BUSY_STATUS, error := false, dirty := true);
    var b := h.(mode := Authenticating, message := BUSY_STATUS, error := false, dirty := true);
    RenderAlike(a);
    RenderAlike(b);
    hide Render, InRange;
  }

  lemma {:induction false} EventsAlike(g: Ui, h: Ui, events: seq<Event>)
    requires InRange(g) && InRange(h) && Alike(g, h)
    ensures Alike(OnEvents(g, events), OnEvents(h, events))
    decreases |events|
  {
    hide OnEvent, Alike;
    if events != [] {
      EventAlike(g, h, events[0]);
      EventsAlike(OnEvent(g, events[0]), OnEvent(h, events[0]), events[1..]);
    }
  }

  lemma {:induction false} EventsAppend(g: Ui, a: seq<Event>, b: seq<Event>)
    requires InRange(g)
    ensures OnEvents(g, a + b) == OnEvents(OnEvents(g, a), b)
    decreases |a|
  {
    hide OnEvent;
    if a == [] {
      assert a + b == b;
    } else {
      assert (a + b)[1..] == a[1..] + b;
      EventsAppend(OnEvent(g, a[0]), a[1..], b);
    }
  }

  // A turn handles all its events, in order; redrawing in between makes no
  // difference to what they do.
  lemma TurnHandlesEvents(g: Ui, t: Turn)
    requires InRange(g)
    ensures Alike(OneTurn(g, t), OnEvents(g, t.pending + t.events))
  {
    hide OnEvent, Render, InRange;
    EventsAppend(g, t.pending, t.events);
    var ready := OnEvents(g, t.pending);
    if ready.dirty {
      RenderAlike(ready);
      AlikeTogether(ready, Render(ready), ready);
      EventsAlike(Render(ready), ready, t.events);
    }
  }

  // The events of the turns the loop takes: it looks at `running` between turns.
  function TakenEvents(g: Ui, turns: seq<Turn>): seq<Event>
    requires InRange(g)
    decreases |turns|
  {
    if turns == [] || !g.running then []
    else turns[0].pending + turns[0].events + TakenEvents(OneTurn(g, turns[0]), turns[1..])
  }

  // So a run is its events, frames apart, and what is proved of event sequences holds
  // of runs.
  lemma {:induction false} RunHandlesEvents(g: Ui, turns: seq<Turn>)
    requires InRange(g)
    ensures Alike(Run(g, turns), OnEvents(g, TakenEvents(g, turns)))
    decreases |turns|
  {
    if turns == [] || !g.running {
    } else {
      hide OneTurn, OnEvent, Alike, InRange;
      var next, here := OneTurn(g, turns[0]), turns[0].pending + turns[0].events;
      TurnHandlesEvents(g, turns[0]);
      RunHandlesEvents(next, turns[1..]);
      var rest := TakenEvents(next, turns[1..]);
      EventsAppend(g, here, rest);
      EventsAlike(next, OnEvents(g, here), rest);
      AlikeTogether(Run(next, turns[1..]), OnEvents(next, rest), OnEvents(OnEvents(g, here), rest));
    }
  }

  // A turn that finds a redraw due, with a surface and a buffer free, ends with the
  // current state on screen if nothing more came; one that finds none due draws
  // nothing.
  lemma TurnRedraws(g: Ui, t: Turn)
    requires UiOk(g) && t.events == []
    ensures var ready, r := OnEvents(g, t.pending), OneTurn(g, t);
      && (!ready.dirty ==> r == ready)
      && (ready.dirty && ready.configured && !(Outstanding(ready.log, 0) && Outstanding(ready.log, 1)) ==>
            !r.dirty && LastFrame(r.log) == Some(Draw(r)))
  {
    EventsKeep(g, t.pending);
    var ready := OnEvents(g, t.pending);
    hide OnEvents, UiOk, Outstanding, LastFrame, Draw, Render;
    if ready.dirty {
      RenderShows(ready);
    }
    NoEvents(ready);
    NoEvents(if ready.dirty then Render(ready) else ready);
  }

  lemma NoEvents(g: Ui)
    requires InRange(g)
    ensures OnEvents(g, []) == g
  {
  }

  // A configured surface is due a redraw, and a closed window ends the loop.
  lemma SurfaceEvents(g: Ui)
    requires InRange(g)
    ensures OnEvent(g, Configure) == g.(configured := true, dirty := true)
    ensures OnEvent(g, CloseWindow) == g.(running := false)
  {
  }
}
