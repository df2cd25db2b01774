// The greeter window as the source has it: fields changed by key handlers, events
// and the redraw (greeter/zero-greeter-wayland.cpp).  Each method is proved to
// take the step `Greeter.dfy` defines for it.
module GreeterWindows {
  import opened Text
  import opened Wrappers
  import opened Greeter

  class GreeterWindow {
    var mode: Mode
    var users: seq<User>
    var selected: nat
    var menuSelected: nat
    var powerSelection: nat
    var password: string
    var message: string
    var error: bool
    var dirty: bool
    var configured: bool
    var running: bool
    var started: bool
    const busy: array<bool>
    ghost var log: seq<Entry>
    ghost var requests: seq<string>

    ghost function Abs(): Ui
      reads this, busy
    {
      Ui(mode, users, selected, menuSelected, powerSelection, password, message, error,
         dirty, configured, running, started, busy[..], log, requests)
    }

    ghost predicate Valid()
      reads this, busy
    {
      busy.Length == 2 && InRange(Abs())
    }

    constructor (found: seq<User>)
      ensures Valid() && fresh(busy) && Abs() == Opened(found)
    {
      mode, users, selected, menuSelected, powerSelection := Login, found, 0, 0, 2;
      password, message, error := "", DEFAULT_STATUS, false;
      dirty, configured, running, started := true, false, true, false;
      log, requests := [], [];
      busy := new bool[2](_ => false);
      new;
      assert busy[..] == [false, false];
    }

    method ClampSelection()
      requires busy.Length == 2 && powerSelection < 3
      modifies this`selected, this`menuSelected
      ensures Valid()
      ensures selected == (if users == [] then 0 else old(selected) % |users|)
      ensures menuSelected == (if users == [] then 0 else old(menuSelected) % |users|)
    {
      if users == [] {
        selected := 0;
        menuSelected := 0;
        return;
      }
      selected := selected % |users|;
      menuSelected := menuSelected % |users|;
    }

    method ReloadUsers(found: seq<User>)
      requires Valid()
      modifies this`users, this`selected, this`menuSelected
      ensures Valid() && Abs() == Reload(old(Abs()), found)
    {
      users := found;
      ClampSelection();
    }

    method PickBuffer() returns (buffer: nat)
      requires Valid()
      ensures buffer <= 2 && NextBuffer(Abs()) == if buffer < 2 then Some(buffer) else None
    {
      buffer := 0;
      while buffer < 2
        invariant buffer <= 2 && forall k :: 0 <= k < buffer ==> busy[k]
      {
        if !busy[buffer] {
          return;
        }
        buffer := buffer + 1;
      }
    }

    method Redraw()
      requires Valid()
      modifies this`dirty, this`log, busy
      ensures Valid() && Abs() == Render(old(Abs()))
    {
      if !configured {
        return;
      }
      var buffer := PickBuffer();
      if buffer == 2 {
        return;
      }
      log := log + [Committed(buffer, Draw(Abs()))];
      busy[buffer] := true;
      dirty := false;
      assert busy[..] == old(busy[..])[buffer := true];
    }

    // The first visible row of the user menu, as the drawing code finds it.
    method MenuTop() returns (start: int)
      requires Valid()
      ensures start == MenuStart(|users|, menuSelected)
    {
      var visible := if |users| < 3 then |users| else 3;
      start := if users == [] then 0 else menuSelected - 1;
      if start < 0 {
        start := 0;
      }
      if start + visible > |users| {
        start := |users| - visible;
      }
      if start < 0 {
        start := 0;
      }
    }

    method DrawUserMenu() returns (rows: seq<Row>)
      requires Valid()
      ensures rows == MenuRows(users, menuSelected)
    {
      rows := [];
      if users == [] {
        return;
      }
      MenuWindow(|users|, menuSelected);
      var start := MenuTop();
      var visible := if |users| < 3 then |users| else 3;
      for row := 0 to visible
        invariant |rows| == row
        invariant forall r :: 0 <= r < row ==> rows[r] == Row(users[start + r], start + r == menuSelected)
      {
        rows := rows + [Row(users[start + row], start + row == menuSelected)];
      }
    }

    method RedrawBusy()
      requires Valid()
      modifies this`mode, this`message, this`error, this`dirty, this`log, busy
      ensures Valid() && Abs() == ShowBusy(old(Abs()))
    {
      hide Render;
      mode := Authenticating;
      message := BUSY_STATUS;
      error := false;
      dirty := true;
      Redraw();
    }

    method FinishLogin(helper: Helper)
      requires Valid()
      modifies this
      ensures Valid() && Abs() == AfterLogin(old(Abs()), helper)
    {
      var ok := helper.Answered? && helper.ok;
      password := "";
      message := helper.text;
      error := !ok;
      if ok {
        mode := StartingSession;
        started := true;
        running := false;
        return;
      }
      mode := Login;
      dirty := true;
    }

    method TryLogin(helper: Helper)
      requires Valid()
      modifies this, busy
      ensures Valid() && Abs() == AttemptLogin(old(Abs()), helper)
    {
      hide ShowBusy, AfterLogin, LoginRequest.Request;
      if users == [] {
        message := NO_USER_STATUS;
        error := true;
        dirty := true;
        return;
      }
      var user := users[selected];
      var typed := password;
      RedrawBusy();
      if helper.Answered? {
        requests := requests + [LoginRequest.Request(user.name, typed)];
      }
      FinishLogin(helper);
    }

    method UserMenuKey(sym: Keysym)
      requires Valid()
      modifies this
      ensures Valid() && Abs() == OnUserMenuKey(old(Abs()), sym)
    {
      match sym {
        case Escape =>
          mode := Login;
          dirty := true;
        case Tab => NextUser();
        case Forward => NextUser();
        case Backward =>
          if users != [] {
            menuSelected := (menuSelected + |users| - 1) % |users|;
          }
          dirty := true;
        case Enter =>
          if users != [] {
            selected := menuSelected;
            password := "";
            message := DEFAULT_STATUS;
            error := false;
            mode := Login;
            dirty := true;
          }
        case Erase =>
        case OtherKey =>
      }
    }

    method NextUser()
      requires Valid()
      modifies this`menuSelected, this`dirty
      ensures Valid() && Abs() == Moved(old(Abs()), 1)
    {
      if users != [] {
        OnceAround(menuSelected, |users|);
        menuSelected := (menuSelected + 1) % |users|;
      }
      dirty := true;
    }

    static lemma OnceAround(at: nat, n: nat)
      requires at < n
      ensures (at + n + 1) % n == (at + 1) % n
    {
      if at + 1 < n {
        assert (at + n + 1) % n == at + 1;
      } else {
        assert at + n + 1 == 2 * n;
      }
    }

    method PowerMenuKey(sym: Keysym)
      requires Valid()
      modifies this
      ensures Valid() && Abs() == OnPowerMenuKey(old(Abs()), sym)
    {
      match sym {
        case Escape =>
          mode := Login;
          dirty := true;
        case Tab =>
          powerSelection := (powerSelection + 1) % 3;
          dirty := true;
        case Forward =>
          powerSelection := (powerSelection + 1) % 3;
          dirty := true;
        case Backward =>
          powerSelection := (powerSelection + 2) % 3;
          dirty := true;
        case Enter => RunPowerAction();
        case Erase =>
        case OtherKey =>
      }
    }

    // Starting the power helper touches nothing here; the menu closes either way.
    method RunPowerAction()
      requires Valid()
      modifies this`mode, this`dirty
      ensures Valid() && Abs() == old(Abs()).(mode := Login, dirty := true)
    {
      mode := Login;
      dirty := true;
    }

    method OpenUserMenu(found: seq<User>)
      requires Valid()
      modifies this
      ensures Valid()
      ensures var loaded := Reload(old(Abs()), found);
        Abs() == loaded.(menuSelected := loaded.selected, mode := UserMenu,
                         message := "", error := false, dirty := true)
    {
      ReloadUsers(found);
      hide Reload;
      menuSelected := selected;
      mode := UserMenu;
      message := "";
      error := false;
      dirty := true;
    }

    method OpenPowerMenu()
      requires Valid()
      modifies this
      ensures Valid()
      ensures Abs() == old(Abs()).(powerSelection := 2, mode := PowerMenu, message := "", error := false, dirty := true)
    {
      powerSelection := 2;
      mode := PowerMenu;
      message := "";
      error := false;
      dirty := true;
    }

    method EraseLast()
      requires Valid()
      modifies this
      ensures Valid()
      ensures Abs() == old(Abs()).(password := if old(password) == "" then "" else Init(old(password)),
                                   message := DEFAULT_STATUS, error := false, dirty := true)
    {
      if password != "" {
        password := password[..|password| - 1];
      }
      message := DEFAULT_STATUS;
      error := false;
      dirty := true;
    }

    method LoginKey(k: Event) returns (taken: bool)
      requires Valid() && k.Key?
      modifies this, busy
      ensures Valid() && Handled(Abs(), taken) == OnLoginKey(old(Abs()), k)
    {
      hide Reload, AttemptLogin, InRange;
      taken := true;
      match k.sym {
        case Tab => OpenUserMenu(k.found);
        case Escape => OpenPowerMenu();
        case Enter => TryLogin(k.helper);
        case Erase => EraseLast();
        case Forward => taken := false;
        case Backward => taken := false;
        case OtherKey => taken := false;
      }
    }

    method HandleKeysym(k: Event) returns (taken: bool)
      requires Valid() && k.Key?
      modifies this, busy
      ensures Valid() && Handled(Abs(), taken) == OnKeysym(old(Abs()), k)
    {
      hide OnUserMenuKey, OnPowerMenuKey, OnLoginKey;
      taken := true;
      match mode {
        case UserMenu => UserMenuKey(k.sym);
        case PowerMenu => PowerMenuKey(k.sym);
        case Authenticating =>
        case StartingSession =>
        case Login => taken := LoginKey(k);
      }
    }

    method HandleText(text: string)
      requires Valid()
      modifies this`password, this`message, this`error, this`dirty
      ensures Valid() && Abs() == OnText(old(Abs()), text)
      ensures password == old(password) +
        if mode.Login? && |text| == 1 && ' ' <= text[0] <= '~' && |old(password)| < 128 then text else ""
    {
      if mode != Login || text == "" {
        return;
      }
      if |text| == 1 && Printable(text[0]) && |password| < 128 {
        password := password + [text[0]];
        assert [text[0]] == text;
        message := DEFAULT_STATUS;
        error := false;
        dirty := true;
      }
    }

    method Dispatch(e: Event)
      requires Valid()
      modifies this, busy
      ensures Valid() && Abs() == OnEvent(old(Abs()), e)
    {
      hide OnKeysym, OnText;
      match e {
        case Key(_, text, _, _) =>
          var taken := HandleKeysym(e);
          if !running || taken {
            return;
          }
          HandleText(text);
        case Configure =>
          configured := true;
          dirty := true;
        case CloseWindow => running := false;
        case Release(b) =>
          if b < 2 {
            busy[b] := false;
            log := log + [Released(b)];
            assert busy[..] == old(busy[..])[b := false];
          }
      }
    }

    method DispatchAll(events: seq<Event>)
      requires Valid()
      modifies this, busy
      ensures Valid() && Abs() == OnEvents(old(Abs()), events)
    {
      hide OnEvent;
      ghost var goal := OnEvents(Abs(), events);
      for n := 0 to |events|
        invariant Valid() && OnEvents(Abs(), events[n..]) == goal
      {
        assert events[n..][0] == events[n] && events[n..][1..] == events[n + 1..];
        Dispatch(events[n]);
      }
    }

    method RunLoop(turns: seq<Turn>)
      requires Valid()
      modifies this, busy
      ensures Valid() && Abs() == Run(old(Abs()), turns)
    {
      hide OnEvents, Render;
      ghost var goal := Run(Abs(), turns);
      var t := 0;
      while running && t < |turns|
        invariant t <= |turns| && Valid() && Run(Abs(), turns[t..]) == goal
        decreases |turns| - t
      {
        assert turns[t..][0] == turns[t] && turns[t..][1..] == turns[t + 1..];
        DispatchAll(turns[t].pending);
        if dirty {
          Redraw();
        }
        DispatchAll(turns[t].events);
        t := t + 1;
      }
    }
  }

  // The greeter from its start, over any turns.
  method RunGreeter(found: seq<User>, turns: seq<Turn>) returns (window: GreeterWindow)
    ensures fresh(window) && window.Valid() && window.Abs() == Run(Opened(found), turns)
    ensures UiOk(window.Abs())
  {
    window := new GreeterWindow(found);
    window.RunLoop(turns);
    RunKeeps(found, turns);
  }
}
