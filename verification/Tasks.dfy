// The window agent's tasks, their ids on the wire, and the snapshots that
// describe them (window-agent/zero-window-agent.cpp).
module Tasks {
  import opened Text
  import opened Codec
  import opened Wrappers

  // A tracked toplevel.  `handle` stands for the protocol object.
  datatype TaskInfo = TaskInfo(
    id: nat, handle: nat, appId: string, title: string,
    activated: bool, minimized: bool, maximized: bool, fullscreen: bool, closed: bool)

  predicate IsShell(t: TaskInfo) {
    t.appId == "cardputer-zero-shell" || t.title == "Cardputer Zero Shell"
  }

  // ---- ids ---------------------------------------------------------------

  function Digit(n: nat): char
    requires n < 10
  {
    ('0' as int + n) as char
  }

  predicate IsDigit(c: char) {
    '0' <= c <= '9'
  }

  // std::to_string of a non-negative number.
  function Decimal(n: nat): (s: string)
    ensures |s| > 0
  {
    if n < 10 then [Digit(n)] else Decimal(n / 10) + [Digit(n % 10)]
  }

  function IdText(id: nat): string { "t" + Decimal(id) }

  predicate IsSpace(c: char) {
    c == ' ' || '\t' <= c <= '\r'
  }

  function SkipSpace(s: string): string {
    if s != "" && IsSpace(s[0]) then SkipSpace(s[1..]) else s
  }

  function LeadingDigits(s: string): (n: nat)
    ensures n <= |s|
    ensures forall k :: 0 <= k < n ==> IsDigit(s[k])
    ensures n < |s| ==> !IsDigit(s[n])
  {
    if s != "" && IsDigit(s[0]) then 1 + LeadingDigits(s[1..]) else 0
  }

  function DigitValue(c: char): nat
    requires IsDigit(c)
  {
    c as int - '0' as int
  }

  function DigitsValue(s: string): nat
    requires forall k :: 0 <= k < |s| ==> IsDigit(s[k])
  {
    if s == "" then 0 else 10 * DigitsValue(Init(s)) + DigitValue(Last(s))
  }

  datatype Parsed = Parsed(value: int, rest: string)

  // strtol(s, &end, 10) without its saturation at the ends of `long`: beyond
  // those ends both values differ from every `int` id.
  function Strtol(s: string): Parsed {
    var body := SkipSpace(s);
    var negative := body != "" && body[0] == '-';
    var digits := if body != "" && (body[0] == '-' || body[0] == '+') then body[1..] else body;
    var n := LeadingDigits(digits);
    if n == 0 then Parsed(0, s)
    else
      var v: int := DigitsValue(digits[..n]);
      Parsed(if negative then -v else v, digits[n..])
  }

  // The number a task-id field names.
  function ParseId(id: string): Option<int> {
    if |id| < 2 || id[0] != 't' then None
    else
      var p := Strtol(CString(id[1..]));
      if p.rest != "" || p.value <= 0 then None else Some(p.value)
  }

  // The first open task satisfying `p`.
  function FirstOpen(tasks: seq<TaskInfo>, p: TaskInfo -> bool): (r: Option<nat>)
    ensures r.Some? ==> r.value < |tasks| && !tasks[r.value].closed && p(tasks[r.value])
    ensures r.Some? ==> forall k :: 0 <= k < r.value ==> tasks[k].closed || !p(tasks[k])
    ensures r.None? ==> forall k :: 0 <= k < |tasks| ==> tasks[k].closed || !p(tasks[k])
  {
    if tasks == [] then None
    else if !tasks[0].closed && p(tasks[0]) then Some(0)
    else
      var r := FirstOpen(tasks[1..], p);
      assert forall k :: 1 <= k < |tasks| ==> tasks[k] == tasks[1..][k - 1];
      if r.Some? then Some(r.value + 1) else None
  }

  function FindTask(tasks: seq<TaskInfo>, id: string): (r: Option<nat>)
    ensures r.Some? ==> r.value < |tasks| && !tasks[r.value].closed && ParseId(id) == Some(tasks[r.value].id)
    ensures r.None? ==> forall k :: 0 <= k < |tasks| ==> tasks[k].closed || ParseId(id) != Some(tasks[k].id)
  {
    var numeric := ParseId(id);
    if numeric.None? then None else FirstOpen(tasks, (t: TaskInfo) => t.id == numeric.value)
  }

  function ActiveTask(tasks: seq<TaskInfo>, includeShell: bool): (r: Option<nat>)
    ensures r.Some? ==> r.value < |tasks| && !tasks[r.value].closed && tasks[r.value].activated
  {
    FirstOpen(tasks, (t: TaskInfo) => t.activated && (includeShell || !IsShell(t)))
  }

  function ShellTask(tasks: seq<TaskInfo>): (r: Option<nat>)
    ensures r.Some? ==> r.value < |tasks| && !tasks[r.value].closed && IsShell(tasks[r.value])
  {
    FirstOpen(tasks, (t: TaskInfo) => IsShell(t))
  }

  lemma {:induction false} DecimalDigits(n: nat)
    ensures forall k :: 0 <= k < |Decimal(n)| ==> IsDigit(Decimal(n)[k])
    ensures DigitsValue(Decimal(n)) == n
  {
    DecimalStep(n);
    hide Decimal, DigitsValue, Digit, IsDigit;
    if n < 10 {
      DigitsValueSnoc("", n);
      EmptyValue();
    } else {
      DecimalDigits(n / 10);
      DigitsValueSnoc(Decimal(n / 10), n % 10);
    }
  }

  lemma DecimalStep(n: nat)
    ensures Decimal(n) == if n < 10 then "" + [Digit(n)] else Decimal(n / 10) + [Digit(n % 10)]
  {
    assert "" + [Digit(n % 10)] == [Digit(n % 10)];
  }

  lemma EmptyValue()
    ensures DigitsValue("") == 0
  {
  }

  lemma DigitsValueSnoc(s: string, d: nat)
    requires d < 10 && forall k :: 0 <= k < |s| ==> IsDigit(s[k])
    ensures forall k :: 0 <= k <= |s| ==> IsDigit((s + [Digit(d)])[k])
    ensures DigitsValue(s + [Digit(d)]) == 10 * DigitsValue(s) + d
  {
    assert Init(s + [Digit(d)]) == s;
  }

  lemma {:induction false} LeadingDigitsAll(s: string)
    requires forall k :: 0 <= k < |s| ==> IsDigit(s[k])
    ensures LeadingDigits(s) == |s|
  {
  }

  lemma StrtolDigits(s: string)
    requires s != "" && forall k :: 0 <= k < |s| ==> IsDigit(s[k])
    ensures Strtol(s) == Parsed(DigitsValue(s), "")
  {
    LeadingDigitsAll(s);
    assert s[..|s|] == s && s[|s|..] == "";
    hide DigitsValue, LeadingDigits;
    assert SkipSpace(s) == s;
  }

  lemma ParsePrintedId(id: nat)
    requires id > 0
    ensures ParseId(IdText(id)) == Some(id)
    ensures Plain(IdText(id))
  {
    var s := Decimal(id);
    DecimalDigits(id);
    CStringFixed(s);
    StrtolDigits(s);
    hide Decimal, Strtol, CString, DigitsValue;
    assert IdText(id)[1..] == s;
  }

  predicate Ascending(tasks: seq<TaskInfo>) {
    forall i, j :: 0 <= i < j < |tasks| ==> tasks[i].id < tasks[j].id
  }

  // White space as the number parse has it: blank, tab, line and page ends.
  predicate Spaces(s: string) {
    forall k :: 0 <= k < |s| ==> s[k] == ' ' || '\t' <= s[k] <= '\r'
  }

  predicate Digits(s: string) {
    forall k :: 0 <= k < |s| ==> '0' <= s[k] <= '9'
  }

  lemma {:induction false} SkipsSpaces(spaces: string, rest: string)
    requires Spaces(spaces) && (rest == "" || !IsSpace(rest[0]))
    ensures SkipSpace(spaces + rest) == rest
  {
    if spaces == "" {
      assert spaces + rest == rest;
    } else {
      assert (spaces + rest)[1..] == spaces[1..] + rest;
      SkipsSpaces(spaces[1..], rest);
    }
  }

  lemma {:induction false} SkippedSpaces(s: string) returns (spaces: string)
    ensures s == spaces + SkipSpace(s) && Spaces(spaces)
  {
    if s != "" && IsSpace(s[0]) {
      var rest := SkippedSpaces(s[1..]);
      spaces := [s[0]] + rest;
      assert s == [s[0]] + s[1..];
    } else {
      spaces := "";
    }
  }

  // A number as the parse takes it: white space, an optional plus, digits.
  predicate IsNumber(text: string, spaces: string, sign: string, digits: string, n: int) {
    && Spaces(spaces) && (sign == "" || sign == "+") && digits != "" && Digits(digits)
    && text == spaces + (sign + digits) && DigitsValue(digits) == n
  }

  lemma NumberParsed(text: string, spaces: string, sign: string, digits: string, n: int)
    requires IsNumber(text, spaces, sign, digits, n)
    ensures Strtol(text) == Parsed(n, "")
  {
    SkipsSpaces(spaces, sign + digits);
    var body := sign + digits;
    assert sign == "+" ==> body[1..] == digits;
    assert sign == "" ==> body == digits;
    LeadingDigitsAll(digits);
    assert digits[..|digits|] == digits && digits[|digits|..] == "";
    hide DigitsValue, LeadingDigits, SkipSpace;
  }

  lemma ParsedNumber(text: string) returns (spaces: string, sign: string, digits: string)
    requires Strtol(text).rest == "" && Strtol(text).value > 0
    ensures IsNumber(text, spaces, sign, digits, Strtol(text).value)
  {
    spaces := SkippedSpaces(text);
    var body := SkipSpace(text);
    sign := if body != "" && body[0] == '+' then "+" else "";
    digits := if body != "" && (body[0] == '-' || body[0] == '+') then body[1..] else body;
    var n := LeadingDigits(digits);
    hide DigitsValue, LeadingDigits, SkipSpace;
    var parsed := Strtol(text);
    assert n > 0 && parsed.rest == digits[n..] && body[0] != '-';
    hide Strtol;
    AllOfIt(digits, n);
    assert body == sign + digits;
  }

  lemma AllOfIt(s: string, n: nat)
    requires n <= |s| && s[n..] == ""
    ensures n == |s| && s[..n] == s
  {
    assert |s[n..]| == |s| - n;
  }

  // Which texts are ids, and of which number: a `t`, then, up to a NUL, such a number
  // that is not 0.
  lemma ParseIdIff(id: string, n: int)
    requires n > 0
    ensures ParseId(id) == Some(n)
      <==> |id| >= 2 && id[0] == 't'
           && exists spaces, sign, digits :: IsNumber(CString(id[1..]), spaces, sign, digits, n)
  {
    hide Strtol, IsNumber;
    if |id| >= 2 && id[0] == 't' {
      var text := CString(id[1..]);
      if spaces, sign, digits :| IsNumber(text, spaces, sign, digits, n) {
        NumberParsed(text, spaces, sign, digits, n);
      }
      if Strtol(text) == Parsed(n, "") {
        var spaces, sign, digits := ParsedNumber(text);
        assert IsNumber(CString(id[1..]), spaces, sign, digits, n);
      }
    }
  }

  predicate OpenAt(tasks: seq<TaskInfo>, i: nat, id: nat) {
    i < |tasks| && tasks[i].id == id && !tasks[i].closed
  }

  // A printed id, whatever snapshot it is from, resolves to the open task that
  // has it, and to nothing if there is none: none with that id any more, or one
  // that is closed.
  lemma PrintedIdResolves(tasks: seq<TaskInfo>, id: nat)
    requires Ascending(tasks) && id > 0
    ensures forall i: nat :: FindTask(tasks, IdText(id)) == Some(i) <==> OpenAt(tasks, i, id)
    ensures FindTask(tasks, IdText(id)) == None <==> forall i: nat :: !OpenAt(tasks, i, id)
  {
    ParsePrintedId(id);
    hide FindTask, IdText;
    var r := FindTask(tasks, IdText(id));
    assert r.Some? ==> OpenAt(tasks, r.value, id);
    forall i: nat | OpenAt(tasks, i, id)
      ensures r == Some(i)
    {
    }
  }

  // ---- snapshots -----------------------------------------------------------

  function OneIf(b: bool, word: string): seq<string> {
    if b then [word] else []
  }

  function StateNames(t: TaskInfo): (names: seq<string>) {
    OneIf(t.activated, "activated") + OneIf(t.minimized, "minimized") +
    OneIf(t.maximized, "maximized") + OneIf(t.fullscreen, "fullscreen")
  }

  function StateString(t: TaskInfo): string {
    if StateNames(t) == [] then "" else Join(',', StateNames(t))
  }

  function TaskLine(t: TaskInfo): string {
    var app, title, state := Encoded(t.appId), Encoded(t.title), Encoded(StateString(t));
    "task\tt" + (Decimal(t.id) + ("\t" + (app + ("\t" + (title + ("\t" + state))))))
  }

  function TaskLines(tasks: seq<TaskInfo>): seq<string> {
    if tasks == [] then []
    else (if tasks[0].closed then [] else [TaskLine(tasks[0])]) + TaskLines(tasks[1..])
  }

  function SnapshotLines(tasks: seq<TaskInfo>): seq<string> {
    ["snapshot-begin"] + TaskLines(tasks) + ["snapshot-end"]
  }

  // What a client is told of one task, and of all of them.
  datatype TaskView = TaskView(
    id: string, appId: string, title: string,
    activated: bool, minimized: bool, maximized: bool, fullscreen: bool)

  function ViewOf(t: TaskInfo): TaskView {
    TaskView(IdText(t.id), t.appId, t.title, t.activated, t.minimized, t.maximized, t.fullscreen)
  }

  function View(tasks: seq<TaskInfo>): seq<TaskView> {
    if tasks == [] then []
    else (if tasks[0].closed then [] else [ViewOf(tasks[0])]) + View(tasks[1..])
  }

  // A reader written from the protocol description: it splits lines at tabs,
  // decodes the fields and keeps the last complete snapshot.  `pending` is the
  // snapshot being received.
  datatype Reader = Reader(pending: Option<seq<TaskView>>, last: Option<seq<TaskView>>)

  const NOTHING_READ: Reader := Reader(None, None)

  function ReadTask(f: seq<string>): TaskView
    requires |f| == 5
  {
    var names := SplitOn(',', f[4]);
    TaskView(f[1], f[2], f[3], "activated" in names, "minimized" in names, "maximized" in names, "fullscreen" in names)
  }

  function Observe(r: Reader, line: string): Reader {
    var f := SplitTabs(line);
    if f[0] == "snapshot-begin" then Reader(Some([]), r.last)
    else if f[0] == "task" && |f| == 5 && r.pending.Some? then Reader(Some(r.pending.value + [ReadTask(f)]), r.last)
    else if f[0] == "snapshot-end" && r.pending.Some? then Reader(None, r.pending)
    else r
  }

  function ObserveAll(r: Reader, lines: seq<string>): Reader
    decreases |lines|
  {
    if lines == [] then r else ObserveAll(Observe(r, lines[0]), lines[1..])
  }

  lemma {:induction false} ObserveAppend(r: Reader, a: seq<string>, b: seq<string>)
    ensures ObserveAll(r, a + b) == ObserveAll(ObserveAll(r, a), b)
    decreases |a|
  {
    if a == [] {
      assert a + b == b;
    } else {
      assert (a + b)[1..] == a[1..] + b;
      ObserveAppend(Observe(r, a[0]), a[1..], b);
    }
  }

  lemma AmongFour(a: string, i: string, x: string, f: string, t: TaskInfo)
    requires a != i && a != x && a != f && i != x && i != f && x != f
    ensures var names := OneIf(t.activated, a) + OneIf(t.minimized, i) + OneIf(t.maximized, x) + OneIf(t.fullscreen, f);
      && (a in names <==> t.activated) && (i in names <==> t.minimized)
      && (x in names <==> t.maximized) && (f in names <==> t.fullscreen)
  {
  }

  // The state field tells the four flags apart.
  lemma StateFlags(t: TaskInfo)
    ensures var names := SplitOn(',', StateString(t));
      && ("activated" in names <==> t.activated)
      && ("minimized" in names <==> t.minimized)
      && ("maximized" in names <==> t.maximized)
      && ("fullscreen" in names <==> t.fullscreen)
  {
    var a, i, x, f := "activated", "minimized", "maximized", "fullscreen";
    assert |a| == 9 && |i| == 9 && |x| == 9 && |f| == 10;
    assert a[0] != i[0] && a[0] != x[0] && i[1] != x[1];
    AmongFour(a, i, x, f, t);
    if StateNames(t) != [] {
      SplitJoin(',', StateNames(t));
    }
  }

  // With all flags set the field lists them in the description's order.
  lemma AllFlags(t: TaskInfo)
    requires t.activated && t.minimized && t.maximized && t.fullscreen
    ensures StateString(t) == "activated" + ("," + ("minimized" + ("," + ("maximized" + ("," + "fullscreen")))))
  {
    var a, i, x, f := "activated", "minimized", "maximized", "fullscreen";
    assert StateNames(t) == [a, i, x, f];
    JoinFour(a, i, x, f);
  }

  lemma JoinFour(a: string, b: string, c: string, d: string)
    ensures Join(',', [a, b, c, d]) == a + ("," + (b + ("," + (c + ("," + d)))))
  {
    assert [a, b, c, d][1..] == [b, c, d] && [b, c, d][1..] == [c, d] && [c, d][1..] == [d];
    assert Join(',', [c, d]) == c + [','] + d;
    assert Join(',', [b, c, d]) == b + [','] + Join(',', [c, d]);
    assert Join(',', [a, b, c, d]) == a + [','] + Join(',', [b, c, d]);
  }

  function TaskFields(t: TaskInfo): seq<string> {
    ["task", IdText(t.id), t.appId, t.title, StateString(t)]
  }

  lemma MessageCons(field: string, rest: seq<string>)
    requires |rest| > 0
    ensures Message([field] + rest) == Encoded(field) + ("\t" + Message(rest))
  {
    var tail := EncodeAll(rest);
    var all := [Encoded(field)] + tail;
    assert EncodeAll([field] + rest) == all;
    assert all[1..] == tail;
    assert Join('\t', all) == Encoded(field) + ['\t'] + Join('\t', tail);
  }

  lemma TaskPrefix(digits: string, rest: string)
    ensures "task" + ("\t" + (("t" + digits) + rest)) == "task\tt" + (digits + rest)
  {
  }

  lemma MessageOfFive(a: string, b: string, c: string, d: string, e: string)
    ensures Message([a, b, c, d, e])
         == Encoded(a) + ("\t" + (Encoded(b) + ("\t" + (Encoded(c) + ("\t" + (Encoded(d) + ("\t" + Encoded(e))))))))
  {
    assert Message([e]) == Encoded(e);
    MessageCons(d, [e]);
    assert [d] + [e] == [d, e];
    MessageCons(c, [d, e]);
    assert [c] + [d, e] == [c, d, e];
    MessageCons(b, [c, d, e]);
    assert [b] + [c, d, e] == [b, c, d, e];
    MessageCons(a, [b, c, d, e]);
    assert [a] + [b, c, d, e] == [a, b, c, d, e];
  }

  lemma TaskLineIsMessage(t: TaskInfo)
    requires t.id > 0
    ensures TaskLine(t) == Message(TaskFields(t))
  {
    hide Encoded, Message, Decimal, StateString;
    var app, title, state := Encoded(t.appId), Encoded(t.title), Encoded(StateString(t));
    var rest := "\t" + (app + ("\t" + (title + ("\t" + state))));
    MessageOfFive("task", IdText(t.id), t.appId, t.title, StateString(t));
    ParsePrintedId(t.id);
    PlainEncoded(IdText(t.id));
    PlainEncoded("task");
    TaskPrefix(Decimal(t.id), rest);
  }

  lemma TaskLineFields(t: TaskInfo)
    requires t.id > 0
    ensures SplitTabs(TaskLine(t)) == TaskFields(t)
    ensures Free('\n', TaskLine(t))
  {
    TaskLineIsMessage(t);
    SplitMessage(TaskFields(t));
  }

  lemma ReadsBack(t: TaskInfo, r: Reader)
    requires t.id > 0 && r.pending.Some?
    ensures Observe(r, TaskLine(t)) == Reader(Some(r.pending.value + [ViewOf(t)]), r.last)
  {
    TaskLineFields(t);
    StateFlags(t);
    var f := SplitTabs(TaskLine(t));
    assert |f[0]| == 4 && |f| == 5;
    assert ReadTask(f) == ViewOf(t);
  }

  lemma {:induction false} TaskLinesFree(tasks: seq<TaskInfo>)
    requires forall k :: 0 <= k < |tasks| ==> tasks[k].id > 0
    ensures AllFree('\n', TaskLines(tasks))
  {
    if tasks != [] {
      TaskLinesFree(tasks[1..]);
      TaskLineFields(tasks[0]);
    }
  }

  lemma ObserveCons(r: Reader, line: string, rest: seq<string>)
    ensures ObserveAll(r, [line] + rest) == ObserveAll(Observe(r, line), rest)
  {
    assert ([line] + rest)[1..] == rest;
  }

  lemma {:induction false} TaskLinesRead(tasks: seq<TaskInfo>, r: Reader)
    requires forall k :: 0 <= k < |tasks| ==> tasks[k].id > 0
    requires r.pending.Some?
    ensures ObserveAll(r, TaskLines(tasks)) == Reader(Some(r.pending.value + View(tasks)), r.last)
    decreases |tasks|
  {
    hide Observe, TaskLine, ViewOf;
    if tasks == [] {
      assert r.pending.value + View(tasks) == r.pending.value;
    } else if tasks[0].closed {
      TaskLinesRead(tasks[1..], r);
      assert TaskLines(tasks) == TaskLines(tasks[1..]) && View(tasks) == View(tasks[1..]);
    } else {
      hide ObserveAll;
      var t, rest := tasks[0], tasks[1..];
      ReadsBack(t, r);
      ObserveCons(r, TaskLine(t), TaskLines(rest));
      TaskLinesRead(rest, Reader(Some(r.pending.value + [ViewOf(t)]), r.last));
      Assoc(r.pending.value, [ViewOf(t)], View(rest));
    }
  }

  lemma PlainLine(word: string)
    requires Plain(word)
    ensures SplitTabs(word) == [word] && Free('\n', word)
  {
    PlainEncoded(word);
    SplitMessage([word]);
  }

  lemma BeginLine(r: Reader)
    ensures Observe(r, "snapshot-begin") == Reader(Some([]), r.last)
    ensures Free('\n', "snapshot-begin")
  {
    PlainLine("snapshot-begin");
  }

  lemma EndLine(r: Reader)
    requires r.pending.Some?
    ensures Observe(r, "snapshot-end") == Reader(None, r.pending)
    ensures Free('\n', "snapshot-end")
  {
    var word := EndWord();
    hide Observe;
    EndObserved(r, word);
  }

  lemma EndWord() returns (word: string)
    ensures word == "snapshot-end" && SplitTabs(word) == [word] && Free('\n', word)
  {
    word := "snapshot-end";
    PlainLine(word);
  }

  lemma EndObserved(r: Reader, word: string)
    requires r.pending.Some? && word == "snapshot-end" && SplitTabs(word) == [word]
    ensures Observe(r, word) == Reader(None, r.pending)
  {
    hide SplitTabs, ReadTask;
    assert |"snapshot-end"| == 12 && |"snapshot-begin"| == 14 && |"task"| == 4;
  }

  // A snapshot is read as exactly the open tasks, in order, whatever the reader
  // saw before it.
  lemma SnapshotRead(tasks: seq<TaskInfo>, r: Reader)
    requires forall k :: 0 <= k < |tasks| ==> tasks[k].id > 0
    ensures ObserveAll(r, SnapshotLines(tasks)) == Reader(None, Some(View(tasks)))
    ensures AllFree('\n', SnapshotLines(tasks))
  {
    hide Observe, ObserveAll, TaskLines, View;
    TaskLinesFree(tasks);
    BeginLine(r);
    var begun := Observe(r, "snapshot-begin");
    TaskLinesRead(tasks, begun);
    EndLine(ObserveAll(begun, TaskLines(tasks)));
    ObserveFramed(r, "snapshot-begin", TaskLines(tasks), "snapshot-end");
    assert [] + View(tasks) == View(tasks);
  }

  lemma ObserveOne(r: Reader, line: string)
    ensures ObserveAll(r, [line]) == Observe(r, line)
  {
    assert [line][1..] == [];
  }

  lemma ObserveFramed(r: Reader, first: string, lines: seq<string>, last: string)
    ensures ObserveAll(r, [first] + lines + [last]) == Observe(ObserveAll(Observe(r, first), lines), last)
    ensures Free('\n', first) && AllFree('\n', lines) && Free('\n', last) ==> AllFree('\n', [first] + lines + [last])
  {
    ObserveAppend(r, [first] + lines, [last]);
    ObserveOne(ObserveAll(r, [first] + lines), last);
    ObserveAppend(r, [first], lines);
    ObserveOne(r, first);
  }
}
