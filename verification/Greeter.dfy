// The greeter's state machine on values: modes, selection, password, redraws and
// the two shared buffers (greeter/zero-greeter-wayland.cpp).
module Greeter {
  import opened Text
  import opened Wrappers
  import LoginRequest

  datatype Mode = Login | UserMenu | PowerMenu | Authenticating | StartingSession

  datatype User = User(name: string, uid: nat)

  // ---- what a frame shows -----------------------------------------------------------

  datatype Row = Row(user: User, highlighted: bool)

  datatype Menu = NoMenu | UserRows(rows: seq<Row>) | PowerRows(highlighted: nat)

  // The values a drawn frame depends on, the clock text apart: heading, user
  // field, password dots and cursor, status line and its colour, menu.
  datatype Frame = Frame(
    selecting: bool, user: Option<string>, dots: nat, cursor: bool, status: string, error: bool, menu: Menu)

  const DEFAULT_STATUS: string := "PAM AUTHENTICATION"
  const NO_USER_STATUS: string := "CREATE A USER FIRST"
  const BUSY_STATUS: string := "AUTHENTICATING"

  // The rows of the user menu: at most three, starting one above the selection
  // where the list allows.
  function Visible(users: nat): nat { if users < 3 then users else 3 }

  function MenuStart(users: nat, selected: nat): (start: int) {
    var wanted := if users == 0 then 0 else selected - 1;
    var low := if wanted < 0 then 0 else wanted;
    var fits := if low + Visible(users) > users then users - Visible(users) else low;
    if fits < 0 then 0 else fits
  }

  lemma MenuWindow(users: nat, selected: nat)
    requires selected < users
    ensures var start := MenuStart(users, selected);
      && 0 <= start && start + Visible(users) <= users
      && start <= selected < start + Visible(users)
      && (0 < selected < users - 1 ==> start == selected - 1)
  {
  }

  function MenuRows(users: seq<User>, selected: nat): (rows: seq<Row>)
    requires users != [] ==> selected < |users|
    ensures |rows| == Visible(|users|)
    ensures forall r :: 0 <= r < |rows| ==>
      var at := MenuStart(|users|, selected) + r; 0 <= at < |users| && rows[r] == Row(users[at], at == selected)
  {
    if users == [] then []
    else
      MenuWindow(|users|, selected);
      var start := MenuStart(|users|, selected);
      seq(Visible(|users|), r requires 0 <= r < Visible(|users|) => Row(users[start + r], start + r == selected))
  }

  // ---- state --------------------------------------------------------------------------

  // What passed between the greeter and the compositor about the two buffers.
  datatype Entry = Committed(buffer: nat, frame: Frame) | Released(buffer: nat)

  // `log` and `requests` (what was written to the login helper) are history.
  datatype Ui = Ui(
    mode: Mode, users: seq<User>, selected: nat, menuSelected: nat, powerSelection: nat,
    password: string, message: string, error: bool,
    dirty: bool, configured: bool, running: bool, started: bool,
    busy: seq<bool>, log: seq<Entry>, requests: seq<string>)

  // Both selections name a user, or are 0 when there is none.
  predicate InRange(g: Ui) {
    && (if g.users == [] then g.selected == 0 && g.menuSelected == 0
        else g.selected < |g.users| && g.menuSelected < |g.users|)
    && g.powerSelection < 3
    && |g.busy| == 2
  }

  function Opened(users: seq<User>): (g: Ui)
    ensures InRange(g)
  {
    Ui(Login, users, 0, 0, 2, "", DEFAULT_STATUS, false, true, false, true, false, [false, false], [], [])
  }

  function Draw(g: Ui): Frame
    requires InRange(g)
  {
    Frame(
      g.mode.UserMenu?,
      if g.users == [] then None else Some(g.users[g.selected].name),
      if |g.password| < 12 then |g.password| else 12,
      g.mode.Login?,
      if g.message == "" then DEFAULT_STATUS else g.message,
      g.error,
      match g.mode
      case UserMenu => UserRows(MenuRows(g.users, g.menuSelected))
      case PowerMenu => PowerRows(g.powerSelection)
      case _ => NoMenu)
  }

  function NextBuffer(g: Ui): Option<nat>
    requires |g.busy| == 2
  {
    if !g.busy[0] then Some(0) else if !g.busy[1] then Some(1) else None
  }

  function Render(g: Ui): (r: Ui)
    requires InRange(g)
    ensures InRange(r)
  {
    var buffer := NextBuffer(g);
    if !g.configured || buffer.None? then g
    else g.(busy := g.busy[buffer.value := true], dirty := false, log := g.log + [Committed(buffer.value, Draw(g))])
  }

  // ---- events ---------------------------------------------------------------------------

  datatype Keysym = Escape | Forward | Backward | Tab | Enter | Erase | OtherKey

  // What the login helper does with a request: never started, or an answer.
  datatype Helper = NotStarted(text: string) | Answered(ok: bool, text: string)

  // A key press comes with the bytes it types, the users a reload would find and
  // what the helper would do.
  datatype Event =
    | Key(sym: Keysym, text: string, found: seq<User>, helper: Helper)
    | Configure
    | CloseWindow
    | Release(buffer: nat)

  function Reload(g: Ui, found: seq<User>): (r: Ui)
    requires |g.busy| == 2 && g.powerSelection < 3
    ensures InRange(r)
  {
    if found == [] then g.(users := found, selected := 0, menuSelected := 0)
    else g.(users := found, selected := g.selected % |found|, menuSelected := g.menuSelected % |found|)
  }

  // The redraw that tells the user the attempt is under way.
  function ShowBusy(g: Ui): (r: Ui)
    requires InRange(g)
    ensures InRange(r)
  {
    Render(g.(mode := Authenticating, message := BUSY_STATUS, error := false, dirty := true))
  }

  function AfterLogin(g: Ui, helper: Helper): Ui {
    var ok := helper.Answered? && helper.ok;
    var done := g.(password := "", message := helper.text, error := !ok);
    if ok then done.(mode := StartingSession, started := true, running := false)
    else done.(mode := Login, dirty := true)
  }

  function AttemptLogin(g: Ui, helper: Helper): (r: Ui)
    requires InRange(g)
    ensures InRange(r)
  {
    if g.users == [] then g.(message := NO_USER_STATUS, error := true, dirty := true)
    else
      var shown := ShowBusy(g);
      var request := LoginRequest.Request(g.users[g.selected].name, g.password);
      var sent := if helper.NotStarted? then shown else shown.(requests := shown.requests + [request]);
      AfterLogin(sent, helper)
  }

  // A handler's result: the state, and whether the key was taken.
  datatype Handled = Handled(ui: Ui, taken: bool)

  function OnUserMenuKey(g: Ui, sym: Keysym): (r: Ui)
    requires InRange(g)
    ensures InRange(r)
  {
    match sym
    case Escape => g.(mode := Login, dirty := true)
    case Tab => Moved(g, 1)
    case Forward => Moved(g, 1)
    case Backward => Moved(g, -1)
    case Enter =>
      if g.users == [] then g
      else g.(selected := g.menuSelected, password := "", message := DEFAULT_STATUS, error := false,
              mode := Login, dirty := true)
    case Erase => g
    case OtherKey => g
  }

  function OnPowerMenuKey(g: Ui, sym: Keysym): (r: Ui)
    requires InRange(g)
    ensures InRange(r)
  {
    match sym
    case Escape => g.(mode := Login, dirty := true)
    case Tab => g.(powerSelection := (g.powerSelection + 1) % 3, dirty := true)
    case Forward => g.(powerSelection := (g.powerSelection + 1) % 3, dirty := true)
    case Backward => g.(powerSelection := (g.powerSelection + 2) % 3, dirty := true)
    case Enter => g.(mode := Login, dirty := true)
    case Erase => g
    case OtherKey => g
  }

  function OnLoginKey(g: Ui, k: Event): (r: Handled)
    requires InRange(g) && k.Key?
    ensures InRange(r.ui)
  {
    match k.sym
    case Tab =>
      var loaded := Reload(g, k.found);
      Handled(loaded.(menuSelected := loaded.selected, mode := UserMenu,
                      message := "", error := false, dirty := true), true)
    case Escape =>
      Handled(g.(powerSelection := 2, mode := PowerMenu, message := "", error := false, dirty := true), true)
    case Enter => Handled(AttemptLogin(g, k.helper), true)
    case Erase =>
      Handled(g.(password := if g.password == "" then "" else Init(g.password),
                 message := DEFAULT_STATUS, error := false, dirty := true), true)
    case Forward => Handled(g, false)
    case Backward => Handled(g, false)
    case OtherKey => Handled(g, false)
  }

  function OnKeysym(g: Ui, k: Event): (r: Handled)
    requires InRange(g) && k.Key?
    ensures InRange(r.ui)
  {
    match g.mode
    case UserMenu => Handled(OnUserMenuKey(g, k.sym), true)
    case PowerMenu => Handled(OnPowerMenuKey(g, k.sym), true)
    case Authenticating => Handled(g, true)
    case StartingSession => Handled(g, true)
    case Login => OnLoginKey(g, k)
  }

  // The highlight one row on or back, around the ends.
  function Moved(g: Ui, delta: int): (r: Ui)
    requires InRange(g) && -1 <= delta <= 1
    ensures InRange(r)
  {
    if g.users == [] then g.(dirty := true)
    else g.(menuSelected := (g.menuSelected + |g.users| + delta) % |g.users|, dirty := true)
  }

  function OnText(g: Ui, text: string): Ui {
    if g.mode.Login? && |text| == 1 && Printable(text[0]) && |g.password| < 128 then
      g.(password := g.password + text, message := DEFAULT_STATUS, error := false, dirty := true)
    else g
  }

  function OnEvent(g: Ui, e: Event): (r: Ui)
    requires InRange(g)
    ensures InRange(r)
  {
    match e
    case Key(_, text, _, _) =>
      var handled := OnKeysym(g, e);
      if !handled.ui.running || handled.taken then handled.ui else OnText(handled.ui, text)
    case Configure => g.(configured := true, dirty := true)
    case CloseWindow => g.(running := false)
    case Release(b) => if b < 2 then g.(busy := g.busy[b := false], log := g.log + [Released(b)]) else g
  }

  function OnEvents(g: Ui, events: seq<Event>): (r: Ui)
    requires InRange(g)
    ensures InRange(r)
    decreases |events|
  {
    if events == [] then g else OnEvents(OnEvent(g, events[0]), events[1..])
  }

  // One turn of the loop: queued events, a redraw if one is due, more events.
  datatype Turn = Turn(pending: seq<Event>, events: seq<Event>)

  function OneTurn(g: Ui, t: Turn): (r: Ui)
    requires InRange(g)
    ensures InRange(r)
  {
    var ready := OnEvents(g, t.pending);
    OnEvents(if ready.dirty then Render(ready) else ready, t.events)
  }

  function Run(g: Ui, turns: seq<Turn>): (r: Ui)
    requires InRange(g)
    ensures InRange(r)
    decreases |turns|
  {
    if turns == [] || !g.running then g else Run(OneTurn(g, turns[0]), turns[1..])
  }

  // ---- what every step keeps ----------------------------------------------------------------

  // A buffer is with the compositor when it was committed and not released since.
  predicate Outstanding(log: seq<Entry>, b: nat) {
    log != [] && if Last(log).buffer == b then Last(log).Committed? else Outstanding(Init(log), b)
  }

  function LastFrame(log: seq<Entry>): Option<Frame> {
    if log == [] then None
    else if Last(log).Committed? then Some(Last(log).frame)
    else LastFrame(Init(log))
  }

  // No frame was ever drawn into a buffer the compositor still had.
  ghost predicate NoTearing(log: seq<Entry>) {
    forall k :: 0 <= k < |log| && log[k].Committed? ==> !Outstanding(log[..k], log[k].buffer)
  }

  // Everything written to the helper was a name and a password typed here.
  predicate RequestOk(request: string, name: string, password: string) {
    TypedText(password) && request == LoginRequest.Request(name, password)
  }

  ghost predicate FromHere(request: string) {
    exists name, password :: RequestOk(request, name, password)
  }

  ghost predicate RequestsOk(requests: seq<string>) {
    forall k :: 0 <= k < |requests| ==> FromHere(requests[k])
  }

  lemma RequestsSnoc(requests: seq<string>, name: string, password: string)
    requires RequestsOk(requests) && TypedText(password)
    ensures RequestsOk(requests + [LoginRequest.Request(name, password)])
  {
    assert RequestOk(LoginRequest.Request(name, password), name, password);
    assert FromHere(LoginRequest.Request(name, password));
  }

  // A frame is drawn only into a buffer the compositor does not have, which is
  // what the busy flags say.
  ghost predicate BuffersOk(g: Ui) {
    && InRange(g)
    && (forall b :: 0 <= b < 2 ==> (g.busy[b] <==> Outstanding(g.log, b)))
    && NoTearing(g.log)
  }

  ghost predicate UiOk(g: Ui) {
    && BuffersOk(g)
    && TypedText(g.password)
    && !g.mode.Authenticating?
    && (g.running && !g.dirty ==> LastFrame(g.log) == Some(Draw(g)))
    && RequestsOk(g.requests)
  }

  lemma LogSnoc(log: seq<Entry>, e: Entry)
    requires NoTearing(log) && (e.Committed? ==> !Outstanding(log, e.buffer))
    ensures NoTearing(log + [e])
    ensures forall b :: Outstanding(log + [e], b) <==> if b == e.buffer then e.Committed? else Outstanding(log, b)
    ensures LastFrame(log + [e]) == if e.Committed? then Some(e.frame) else LastFrame(log)
  {
    var all := log + [e];
    assert Init(all) == log && Last(all) == e;
    forall k | 0 <= k < |all| && all[k].Committed?
      ensures !Outstanding(all[..k], all[k].buffer)
    {
      assert all[..k] == if k < |log| then log[..k] else log;
    }
  }

  lemma RenderBuffers(g: Ui)
    requires BuffersOk(g)
    ensures BuffersOk(Render(g))
    ensures var r := Render(g);
      && r == g.(busy := r.busy, dirty := r.dirty, log := r.log)
      && (r.dirty ==> r == g)
      && (!r.dirty && g.dirty ==> LastFrame(r.log) == Some(Draw(g)))
    ensures Render(g) == g || !Render(g).dirty
  {
    hide Outstanding, LastFrame, NoTearing, Draw;
    var buffer := NextBuffer(g);
    if g.configured && buffer.Some? {
      LogSnoc(g.log, Committed(buffer.value, Draw(g)));
    }
  }

  // A redraw is skipped exactly when there is no surface yet or both buffers are
  // out; then it stays due, and otherwise the frame on screen is the current one.
  lemma RenderShows(g: Ui)
    requires UiOk(g) && g.dirty
    ensures UiOk(Render(g))
    ensures Render(g).dirty <==> !g.configured || (Outstanding(g.log, 0) && Outstanding(g.log, 1))
    ensures !Render(g).dirty ==> LastFrame(Render(g).log) == Some(Draw(Render(g)))
  {
    RenderBuffers(g);
    DrawSame(g, Render(g));
    hide Outstanding, LastFrame, NoTearing, Draw;
  }

  lemma DrawSame(g: Ui, r: Ui)
    requires InRange(g) && InRange(r)
    requires r == g.(busy := r.busy, dirty := r.dirty, log := r.log, configured := r.configured, running := r.running)
    ensures Draw(r) == Draw(g)
  {
  }

  lemma LoginKeeps(g: Ui, helper: Helper)
    requires UiOk(g)
    ensures UiOk(AttemptLogin(g, helper))
    ensures g.users != [] ==> AttemptLogin(g, helper).password == ""
    ensures g.users != [] && helper.Answered? ==>
      AttemptLogin(g, helper).requests == g.requests + [LoginRequest.Request(g.users[g.selected].name, g.password)]
  {
    hide Outstanding, LastFrame, NoTearing, Draw, RequestsOk, LoginRequest.Request;
    if g.users != [] {
      var asking := g.(mode := Authenticating, message := BUSY_STATUS, error := false, dirty := true);
      RenderBuffers(asking);
      RequestsSnoc(g.requests, g.users[g.selected].name, g.password);
    }
  }

  lemma UserMenuKeeps(g: Ui, sym: Keysym)
    requires UiOk(g)
    ensures UiOk(OnUserMenuKey(g, sym))
  {
    hide Outstanding, LastFrame, NoTearing, Draw, Moved, RequestsOk;
    MovedRest(g, 1);
    MovedRest(g, -1);
  }

  lemma PowerMenuKeeps(g: Ui, sym: Keysym)
    requires UiOk(g)
    ensures UiOk(OnPowerMenuKey(g, sym))
  {
    hide Outstanding, LastFrame, NoTearing, Draw, RequestsOk;
  }

  lemma LoginKeyKeeps(g: Ui, k: Event)
    requires UiOk(g) && k.Key?
    ensures UiOk(OnLoginKey(g, k).ui)
  {
    hide Outstanding, LastFrame, NoTearing, Draw, AttemptLogin, Reload, RequestsOk;
    if k.sym.Enter? {
      LoginKeeps(g, k.helper);
    } else if k.sym.Tab? {
      ReloadRest(g, k.found);
    }
  }

  lemma KeysymKeeps(g: Ui, k: Event)
    requires UiOk(g) && k.Key?
    ensures UiOk(OnKeysym(g, k).ui)
  {
    hide UiOk, OnUserMenuKey, OnPowerMenuKey, OnLoginKey;
    match g.mode
    case UserMenu => UserMenuKeeps(g, k.sym);
    case PowerMenu => PowerMenuKeeps(g, k.sym);
    case Login => LoginKeyKeeps(g, k);
    case _ =>
  }

  lemma ReloadRest(g: Ui, found: seq<User>)
    requires InRange(g)
    ensures var r := Reload(g, found); r == g.(users := found, selected := r.selected, menuSelected := r.menuSelected)
  {
  }

  lemma MovedRest(g: Ui, delta: int)
    requires InRange(g) && -1 <= delta <= 1
    ensures var r := Moved(g, delta); r == g.(menuSelected := r.menuSelected, dirty := true)
  {
  }

  lemma TextKeeps(g: Ui, text: string)
    requires UiOk(g)
    ensures UiOk(OnText(g, text))
  {
    hide Outstanding, LastFrame, NoTearing, Draw, RequestsOk;
  }

  // A buffer comes back.
  lemma ReleaseBuffers(g: Ui, b: nat)
    requires BuffersOk(g) && b < 2
    ensures var r := g.(busy := g.busy[b := false], log := g.log + [Released(b)]);
      BuffersOk(r) && LastFrame(r.log) == LastFrame(g.log) && Draw(r) == Draw(g)
  {
    LogSnoc(g.log, Released(b));
    hide Outstanding, LastFrame, NoTearing;
    DrawSame(g, g.(busy := g.busy[b := false], log := g.log + [Released(b)]));
    hide Draw;
  }

  lemma ReleaseKeeps(g: Ui, b: nat)
    requires UiOk(g)
    ensures UiOk(OnEvent(g, Release(b)))
  {
    if b < 2 {
      ReleaseBuffers(g, b);
    }
    hide BuffersOk, LastFrame, RequestsOk, OnKeysym, OnText, Draw;
  }

  lemma EventKeeps(g: Ui, e: Event)
    requires UiOk(g)
    ensures UiOk(OnEvent(g, e))
  {
    match e
    case Key(_, text, _, _) =>
      KeysymKeeps(g, e);
      TextKeeps(OnKeysym(g, e).ui, text);
      hide UiOk, OnKeysym, OnText;
    case Release(b) => ReleaseKeeps(g, b);
    case _ => hide Outstanding, LastFrame, NoTearing, RequestsOk, OnKeysym, OnText, Draw;
  }

  lemma {:induction false} EventsKeep(g: Ui, events: seq<Event>)
    requires UiOk(g)
    ensures UiOk(OnEvents(g, events))
    decreases |events|
  {
    hide UiOk, OnEvent;
    if events != [] {
      EventKeeps(g, events[0]);
      UiRange(g);
      UiRange(OnEvent(g, events[0]));
      EventsKeep(OnEvent(g, events[0]), events[1..]);
    }
  }

  lemma UiRange(g: Ui)
    requires UiOk(g)
    ensures InRange(g)
  {
  }

  lemma TurnKeeps(g: Ui, t: Turn)
    requires UiOk(g)
    ensures UiOk(OneTurn(g, t))
  {
    EventsKeep(g, t.pending);
    var ready := OnEvents(g, t.pending);
    if ready.dirty {
      RenderShows(ready);
    }
    EventsKeep(if ready.dirty then Render(ready) else ready, t.events);
  }

  lemma {:induction false} RunKeepsFrom(g: Ui, turns: seq<Turn>)
    requires UiOk(g)
    ensures UiOk(Run(g, turns))
    decreases |turns|
  {
    hide UiOk, OneTurn;
    UiRange(g);
    if turns != [] && g.running {
      TurnKeeps(g, turns[0]);
      UiRange(OneTurn(g, turns[0]));
      RunKeepsFrom(OneTurn(g, turns[0]), turns[1..]);
    }
  }

  // Over every run, whatever keys come and whatever users reloads find: the
  // selections stay in range, the password is printable and bounded, what is on
  // screen is the current state unless a redraw is due, and no frame is drawn
  // into a buffer the compositor still has.
  lemma RunKeeps(users: seq<User>, turns: seq<Turn>)
    ensures UiOk(Run(Opened(users), turns))
  {
    assert UiOk(Opened(users));
    RunKeepsFrom(Opened(users), turns);
  }

  // The user menu shows the highlighted user in exactly one of its rows.
  lemma MenuShowsSelection(g: Ui)
    requires InRange(g) && g.mode.UserMenu? && g.users != []
    ensures var rows := Draw(g).menu.rows;
      && |rows| == Min(3, |g.users|)
      && exists r :: 0 <= r < |rows| && rows[r] == Row(g.users[g.menuSelected], true)
           && forall q :: 0 <= q < |rows| && rows[q].highlighted ==> q == r
  {
    MenuWindow(|g.users|, g.menuSelected);
    var rows := Draw(g).menu.rows;
    var r := g.menuSelected - MenuStart(|g.users|, g.menuSelected);
    assert rows[r] == Row(g.users[g.menuSelected], true);
  }

  // Enter in the user menu puts the highlighted user into the user field, with an
  // empty password; Escape leaves both as they were.
  lemma ChoosingUser(g: Ui)
    requires InRange(g) && g.mode.UserMenu?
    ensures var chosen, left := OnUserMenuKey(g, Enter), OnUserMenuKey(g, Escape);
      && (g.users != [] ==>
            chosen.mode.Login? && Draw(chosen).dots == 0
            && Draw(chosen).status == "PAM AUTHENTICATION" && !Draw(chosen).error
            && exists r :: 0 <= r < |Draw(g).menu.rows| && Draw(g).menu.rows[r].highlighted
                 && Draw(chosen).user == Some(Draw(g).menu.rows[r].user.name))
      && left.mode.Login? && Draw(left).user == Draw(g).user && left.password == g.password
  {
    if g.users != [] {
      MenuShowsSelection(g);
    }
  }

  function OnMenuKeys(g: Ui, syms: seq<Keysym>): (r: Ui)
    requires InRange(g)
    ensures InRange(r)
    decreases |syms|
  {
    if syms == [] then g else OnMenuKeys(OnUserMenuKey(g, syms[0]), syms[1..])
  }

  predicate OnlyMoved(g: Ui, r: Ui) {
    r == g.(menuSelected := r.menuSelected, dirty := r.dirty)
  }

  lemma BrowseStep(g: Ui, sym: Keysym)
    requires InRange(g) && !sym.Enter? && !sym.Escape?
    ensures OnlyMoved(g, OnUserMenuKey(g, sym))
  {
    MovedRest(g, 1);
    MovedRest(g, -1);
    hide Moved, InRange;
  }

  lemma {:induction false} BrowsingKeeps(g: Ui, syms: seq<Keysym>)
    requires InRange(g) && forall k :: 0 <= k < |syms| ==> !syms[k].Enter? && !syms[k].Escape?
    ensures OnlyMoved(g, OnMenuKeys(g, syms))
    decreases |syms|
  {
    hide InRange, OnUserMenuKey;
    if syms != [] {
      assert forall k :: 0 <= k < |syms[1..]| ==> syms[1..][k] == syms[k + 1];
      BrowseStep(g, syms[0]);
      BrowsingKeeps(OnUserMenuKey(g, syms[0]), syms[1..]);
    }
  }

  // The user menu opens on the user of the user field, whatever users a reload
  // finds; after any moves in it, Escape leaves that user and the password as
  // they were, and Enter at once chooses the user who was there.
  lemma OpeningUserMenu(g: Ui, k: Event, syms: seq<Keysym>)
    requires InRange(g) && g.mode.Login? && k.Key? && k.sym.Tab?
    requires forall n :: 0 <= n < |syms| ==> !syms[n].Enter? && !syms[n].Escape?
    ensures var menu := OnKeysym(g, k).ui;
      var left, chosen := OnUserMenuKey(OnMenuKeys(menu, syms), Escape), OnUserMenuKey(menu, Enter);
      && menu.mode.UserMenu? && menu.users == k.found
      && left.mode.Login? && Draw(left).user == Draw(menu).user && left.password == g.password
      && Draw(chosen).user == Draw(menu).user
  {
    var menu := OnKeysym(g, k).ui;
    ReloadRest(g, k.found);
    BrowsingKeeps(menu, syms);
    hide OnMenuKeys, AttemptLogin, Reload;
  }

  // One row back undoes one row on, around the ends too.
  lemma BackUndoesForward(g: Ui)
    requires InRange(g)
    ensures Moved(Moved(g, 1), -1).menuSelected == g.menuSelected
    ensures Moved(Moved(g, -1), 1).menuSelected == g.menuSelected
  {
    if g.users != [] {
      var n := |g.users|;
      Around(g.menuSelected, n);
      Around(Moved(g, 1).menuSelected, n);
      Around(Moved(g, -1).menuSelected, n);
    }
  }

  lemma Around(at: nat, n: nat)
    requires at < n
    ensures (at + n + 1) % n == if at == n - 1 then 0 else at + 1
    ensures (at + n - 1) % n == if at == 0 then n - 1 else at - 1
  {
    if at == n - 1 {
      assert at + n + 1 == 2 * n;
    } else {
      assert (at + n + 1) % n == at + 1;
    }
    if at > 0 {
      assert (at + n - 1) % n == at - 1;
    }
  }

  // Which event sends a request, and what the helper makes of it in any chunks: in
  // every state a run comes to, exactly Enter in the login view does, with a user
  // there and a helper that starts, one request; and what arrives is the user in
  // the user field and the password typed, exactly for plain names.
  lemma SentRequestArrives(g: Ui, e: Event) returns (name: string)
    requires UiOk(g)
    ensures Draw(g).user.Some? ==> Draw(g).user.value == name
    ensures OnEvent(g, e).requests ==
      if e.Key? && e.sym.Enter? && g.mode.Login? && Draw(g).user.Some? && e.helper.Answered?
      then g.requests + [LoginRequest.Request(name, g.password)]
      else g.requests
    ensures forall results :: LoginRequest.Stream(results) == Some(LoginRequest.Request(name, g.password)) ==>
      (LoginRequest.Received(results) == Some(LoginRequest.Login(name, g.password)) <==> LoginRequest.PlainName(name))
  {
    OnlyEnterSends(g, e);
    if e.Key? {
      LoginKeeps(g, e.helper);
      AttemptSends(g, e.helper);
    }
    name := if g.users == [] then "" else g.users[g.selected].name;
    hide BuffersOk, LastFrame, RequestsOk, OnEvent, AttemptLogin, LoginRequest.Request;
    hide LoginRequest.Stream, LoginRequest.Received;
    forall results | LoginRequest.Stream(results) == Some(LoginRequest.Request(name, g.password))
      ensures LoginRequest.Received(results) == Some(LoginRequest.Login(name, g.password))
        <==> LoginRequest.PlainName(name)
    {
      LoginRequest.RoundTripIff(name, g.password, results);
    }
  }

  lemma OnlyEnterSends(g: Ui, e: Event)
    requires UiOk(g)
    ensures OnEvent(g, e).requests ==
      if e.Key? && e.sym.Enter? && g.mode.Login? then AttemptLogin(g, e.helper).requests else g.requests
  {
    UiRange(g);
    hide UiOk, InRange;
    if e.Key? {
      KeysymSends(g, e);
      TextSendsNot(OnKeysym(g, e).ui, e.text);
      hide OnKeysym, OnText, AttemptLogin;
    } else {
      hide OnKeysym, OnText;
    }
  }

  lemma TextSendsNot(g: Ui, text: string)
    ensures OnText(g, text).requests == g.requests
  {
  }

  lemma KeysymSends(g: Ui, k: Event)
    requires InRange(g) && k.Key?
    ensures OnKeysym(g, k).ui.requests ==
      if k.sym.Enter? && g.mode.Login? then AttemptLogin(g, k.helper).requests else g.requests
  {
    MovedRest(g, 1);
    MovedRest(g, -1);
    ReloadRest(g, k.found);
    hide InRange, Moved, Reload, AttemptLogin;
  }

  lemma AttemptSends(g: Ui, helper: Helper)
    requires InRange(g)
    ensures g.users == [] || helper.NotStarted? ==> AttemptLogin(g, helper).requests == g.requests
  {
    hide InRange, Draw, LoginRequest.Request;
  }
}
