// The display manager configuration rewrite: one greeter session, no autologin
// (scripts/setup-lightdm-policy.sh).
module LightdmRewrite {
  import opened Text

  const GREETER_KEY: string := "greeter-session"
  const GREETER_NAME: string := "cardputer-zero-pi-greeter-labwc"
  const REPLACED: string := "# cardputer-zero-os replaced: "
  const DISABLED: string := "# cardputer-zero-os disabled: "

  function GreeterLine(): string { GREETER_KEY + "=" + GREETER_NAME }

  // An assignment to `key` that is in force: blanks, the key, blanks, `=`.
  predicate Assigns(line: string, key: string) {
    var body := SkipBlanks(line);
    key <= body &&
    var rest := SkipBlanks(body[|key|..]);
    rest != "" && rest[0] == '='
  }

  predicate IsAutologin(line: string) {
    || Assigns(line, "autologin-user")
    || Assigns(line, "autologin-session")
    || Assigns(line, "autologin-guest")
    || Assigns(line, "autologin-user-timeout")
  }

  datatype Kind = GreeterSession | Autologin | Other

  function KindOf(line: string): Kind {
    if Assigns(line, GREETER_KEY) then GreeterSession else if IsAutologin(line) then Autologin else Other
  }

  function DropBlanks(s: string): string {
    if s != "" && (Last(s) == ' ' || Last(s) == '\t') then DropBlanks(Init(s)) else s
  }

  // What the line assigns, blanks trimmed.
  function ValueOf(line: string): string
    requires Assigns(line, GREETER_KEY)
  {
    var afterKey := SkipBlanks(SkipBlanks(line)[|GREETER_KEY|..]);
    DropBlanks(SkipBlanks(afterKey[1..]))
  }

  // What one line becomes; `seen` says that the greeter line was written before.
  function Becomes(line: string, seen: bool): seq<string> {
    match KindOf(line)
    case GreeterSession =>
      (if ValueOf(line) == GREETER_NAME then [] else [REPLACED + line]) + (if seen then [] else [GreeterLine()])
    case Autologin => [DISABLED + line]
    case Other => [line]
  }

  function SeenAfter(line: string, seen: bool): bool {
    seen || KindOf(line).GreeterSession?
  }

  function Rewrite(lines: seq<string>, seen: bool): seq<string>
    decreases |lines|
  {
    if lines == [] then [] else Becomes(lines[0], seen) + Rewrite(lines[1..], SeenAfter(lines[0], seen))
  }

  method RewriteConfig(lines: seq<string>) returns (config: seq<string>)
    ensures config == Rewrite(lines, false)
  {
    hide Assigns, IsAutologin, ValueOf, GreeterLine;
    config := [];
    var greeterSeen := false;
    for n := 0 to |lines|
      invariant config + Rewrite(lines[n..], greeterSeen) == Rewrite(lines, false)
    {
      assert lines[n..][0] == lines[n] && lines[n..][1..] == lines[n + 1..];
      var line := lines[n];
      Assoc(config, Becomes(line, greeterSeen), Rewrite(lines[n + 1..], SeenAfter(line, greeterSeen)));
      ghost var before, seen := config, greeterSeen;
      match KindOf(line) {
        case GreeterSession =>
          if ValueOf(line) == GREETER_NAME {
            if !greeterSeen {
              config := config + [GreeterLine()];
              greeterSeen := true;
            }
          } else {
            config := config + [REPLACED + line];
            if !greeterSeen {
              config := config + [GreeterLine()];
              greeterSeen := true;
            }
          }
        case Autologin => config := config + [DISABLED + line];
        case Other => config := config + [line];
      }
      assert config == before + Becomes(line, seen);
    }
  }

  // ---- kinds of the lines written -----------------------------------------------------

  lemma CommentAssigns(line: string, key: string)
    requires line != "" && line[0] == '#' && key != "" && key[0] != '#'
    ensures !Assigns(line, key)
  {
    assert SkipBlanks(line) == line;
  }

  lemma CommentKind(line: string)
    requires line != "" && line[0] == '#'
    ensures KindOf(line).Other?
  {
    hide Assigns;
    CommentAssigns(line, GREETER_KEY);
    CommentAssigns(line, "autologin-user");
    CommentAssigns(line, "autologin-session");
    CommentAssigns(line, "autologin-guest");
    CommentAssigns(line, "autologin-user-timeout");
  }

  lemma GreeterKind()
    ensures KindOf(GreeterLine()).GreeterSession? && ValueOf(GreeterLine()) == GREETER_NAME
  {
    GreeterValue(GREETER_KEY, GREETER_NAME);
  }

  lemma GreeterValue(key: string, name: string)
    requires key == GREETER_KEY && name == GREETER_NAME
    ensures Assigns(key + "=" + name, key) && ValueOf(key + "=" + name) == name
  {
    assert key[0] == 'g' && name[0] == 'c' && Last(name) == 'c';
    var line := key + "=" + name;
    hide GREETER_KEY, GREETER_NAME;
    assert line[0] == key[0];
    assert SkipBlanks(line) == line;
    var rest := "=" + name;
    assert line[|key|..] == rest && rest[1..] == name;
    assert SkipBlanks(rest) == rest && SkipBlanks(name) == name && DropBlanks(name) == name;
  }

  // ---- the result -----------------------------------------------------------------------

  function Greeters(lines: seq<string>): nat {
    if lines == [] then 0 else (if KindOf(lines[0]).GreeterSession? then 1 else 0) + Greeters(lines[1..])
  }

  predicate NoAutologin(lines: seq<string>) {
    forall k :: 0 <= k < |lines| ==> !KindOf(lines[k]).Autologin?
  }

  // Every greeter session in force is the managed one.
  predicate OnlyManaged(lines: seq<string>) {
    forall k :: 0 <= k < |lines| && KindOf(lines[k]).GreeterSession? ==> lines[k] == GreeterLine()
  }

  lemma {:induction false} GreetersAppend(a: seq<string>, b: seq<string>)
    ensures Greeters(a + b) == Greeters(a) + Greeters(b)
  {
    hide KindOf;
    if a == [] {
      assert a + b == b;
    } else {
      assert (a + b)[1..] == a[1..] + b;
      GreetersAppend(a[1..], b);
    }
  }

  // What one line becomes has no autologin in force, and a greeter session only
  // as the first one written.
  lemma BecomesKinds(line: string, seen: bool)
    ensures var r := Becomes(line, seen);
      && NoAutologin(r)
      && Greeters(r) == (if KindOf(line).GreeterSession? && !seen then 1 else 0)
      && OnlyManaged(r)
  {
    GreeterKind();
    CommentKind(REPLACED + line);
    CommentKind(DISABLED + line);
    hide KindOf, ValueOf, GreeterLine;
    var r := Becomes(line, seen);
    if |r| == 2 {
      assert r == [r[0]] + [r[1]];
      GreetersAppend([r[0]], [r[1]]);
    }
    GreetersOne(REPLACED + line);
    GreetersOne(DISABLED + line);
    GreetersOne(GreeterLine());
    GreetersOne(line);
    hide REPLACED, DISABLED;
    assert [] + [GreeterLine()] == [GreeterLine()] && [REPLACED + line] + [] == [REPLACED + line];
  }

  lemma GreetersOne(line: string)
    ensures Greeters([line]) == if KindOf(line).GreeterSession? then 1 else 0
  {
    assert [line][1..] == [];
  }

  lemma {:induction false} RewriteKinds(lines: seq<string>, seen: bool)
    ensures NoAutologin(Rewrite(lines, seen))
    ensures Greeters(Rewrite(lines, seen)) == (if Greeters(lines) > 0 && !seen then 1 else 0)
    ensures OnlyManaged(Rewrite(lines, seen))
    decreases |lines|
  {
    hide KindOf, Becomes, GreeterLine;
    if lines != [] {
      var head, next := Becomes(lines[0], seen), SeenAfter(lines[0], seen);
      BecomesKinds(lines[0], seen);
      RewriteKinds(lines[1..], next);
      GreetersAppend(head, Rewrite(lines[1..], next));
    }
  }

  // The rewritten file has no autologin key in force; it has one greeter session
  // in force, the managed one, if the old file had any, and otherwise none.
  lemma OneGreeterNoAutologin(lines: seq<string>)
    ensures var config := Rewrite(lines, false);
      && NoAutologin(config)
      && Greeters(config) == (if Greeters(lines) > 0 then 1 else 0)
      && OnlyManaged(config)
  {
    RewriteKinds(lines, false);
  }

  // A file like that is left as it is.
  lemma {:induction false} RewriteSettled(lines: seq<string>, seen: bool)
    requires NoAutologin(lines) && Greeters(lines) <= (if seen then 0 else 1)
    requires OnlyManaged(lines)
    ensures Rewrite(lines, seen) == lines
    decreases |lines|
  {
    GreeterKind();
    hide KindOf, ValueOf, GreeterLine;
    if lines != [] {
      assert forall k :: 0 <= k < |lines[1..]| ==> lines[1..][k] == lines[k + 1];
      RewriteSettled(lines[1..], SeenAfter(lines[0], seen));
      assert [] + [lines[0]] == [lines[0]];
      assert Becomes(lines[0], seen) == [lines[0]];
      assert [lines[0]] + lines[1..] == lines;
    }
  }

  lemma RewriteIdempotent(lines: seq<string>)
    ensures Rewrite(Rewrite(lines, false), false) == Rewrite(lines, false)
  {
    RewriteKinds(lines, false);
    RewriteSettled(Rewrite(lines, false), false);
  }

  // ---- what is kept -----------------------------------------------------------------------

  // `a` can be had from `b` by leaving lines out.
  predicate Within(a: seq<string>, b: seq<string>)
    decreases |b|
  {
    a == [] || (b != [] && (if a[0] == b[0] then Within(a[1..], b[1..]) else Within(a, b[1..])))
  }

  // What must be left of an old line: the line itself, or its comment; only a
  // repetition of the managed line may go.
  function Trace(line: string): seq<string> {
    match KindOf(line)
    case GreeterSession => if ValueOf(line) == GREETER_NAME then [] else [REPLACED + line]
    case Autologin => [DISABLED + line]
    case Other => [line]
  }

  function Traces(lines: seq<string>): seq<string> {
    if lines == [] then [] else Trace(lines[0]) + Traces(lines[1..])
  }

  lemma {:induction false} WithinMore(a: seq<string>, b: seq<string>)
    requires Within(a, b) && a != []
    ensures Within(a[1..], b)
    decreases |b|, 1
  {
    if a[0] == b[0] {
      WithinTail(a[1..], b);
    } else {
      WithinMore(a, b[1..]);
      WithinTail(a[1..], b);
    }
  }

  // Matching a line greedily or passing it over makes no difference.
  lemma {:induction false} WithinTail(a: seq<string>, b: seq<string>)
    requires b != [] && Within(a, b[1..])
    ensures Within(a, b)
    decreases |b|, 0
  {
    if a != [] && a[0] == b[0] {
      WithinMore(a, b[1..]);
    }
  }

  lemma {:induction false} WithinPrefix(a: seq<string>, head: seq<string>, b: seq<string>)
    requires Within(a, b)
    ensures Within(a, head + b)
    decreases |head|
  {
    if head == [] {
      assert head + b == b;
    } else {
      assert (head + b)[1..] == head[1..] + b;
      WithinPrefix(a, head[1..], b);
      WithinTail(a, head + b);
    }
  }

  lemma {:induction false} WithinAppend(head: seq<string>, a: seq<string>, b: seq<string>)
    requires Within(a, b)
    ensures Within(head + a, head + b)
    decreases |head|
  {
    if head == [] {
      assert head + a == a && head + b == b;
    } else {
      assert (head + a)[1..] == head[1..] + a && (head + b)[1..] == head[1..] + b;
      WithinAppend(head[1..], a, b);
    }
  }

  // Every old line is still there, in order: untouched, or as a comment.
  lemma {:induction false} OldLinesKept(lines: seq<string>, seen: bool)
    ensures Within(Traces(lines), Rewrite(lines, seen))
    decreases |lines|
  {
    hide KindOf, ValueOf, GreeterLine, Within;
    if lines == [] {
      WithinEmpty(Rewrite(lines, seen));
    } else {
      var line, next := lines[0], SeenAfter(lines[0], seen);
      var kept, rest := Traces(lines[1..]), Rewrite(lines[1..], next);
      OldLinesKept(lines[1..], next);
      var extra := if KindOf(line).GreeterSession? && !seen then [GreeterLine()] else [];
      WithinPrefix(kept, extra, rest);
      WithinAppend(Trace(line), kept, extra + rest);
      assert Becomes(line, seen) == Trace(line) + extra by {
        hide REPLACED, DISABLED;
        assert Trace(line) + [] == Trace(line);
      }
      Assoc(Trace(line), extra, rest);
    }
  }

  lemma WithinEmpty(b: seq<string>)
    ensures Within([], b)
  {
  }

  // ---- the same on the text ---------------------------------------------------------------

  // A line that sets `key`: blanks, the key, blanks, `=`, anything.
  predicate IsSetting(line: string, a: string, key: string, b: string, rest: string) {
    Blank(a) && Blank(b) && line == a + (key + (b + ("=" + rest)))
  }

  ghost predicate Sets(line: string, key: string) {
    exists a, b, rest :: IsSetting(line, a, key, b, rest)
  }

  ghost predicate SetsAutologin(line: string) {
    || Sets(line, "autologin-user")
    || Sets(line, "autologin-session")
    || Sets(line, "autologin-guest")
    || Sets(line, "autologin-user-timeout")
  }

  lemma SettingAssigns(line: string, a: string, key: string, b: string, rest: string)
    requires IsSetting(line, a, key, b, rest) && key != "" && !StartsBlank(key)
    ensures Assigns(line, key) && SkipBlanks(line) == key + (b + ("=" + rest))
    ensures SkipBlanks(SkipBlanks(line)[|key|..]) == "=" + rest
  {
    var tail := b + ("=" + rest);
    SkipsBlanks(a, key + tail);
    assert (key + tail)[|key|..] == tail;
    SkipsBlanks(b, "=" + rest);
    hide SkipBlanks;
  }

  lemma AssignsSetting(line: string, key: string)
    requires Assigns(line, key)
    ensures Sets(line, key)
  {
    var a := SkippedBlanks(line);
    var body := SkipBlanks(line);
    var b := SkippedBlanks(body[|key|..]);
    var rest := SkipBlanks(body[|key|..]);
    hide SkipBlanks;
    assert rest == "=" + rest[1..];
    assert body == key + body[|key|..];
    assert IsSetting(line, a, key, b, rest[1..]);
  }

  // What the patterns of the script match is this text.
  lemma AssignsIff(line: string, key: string)
    requires key != "" && !StartsBlank(key)
    ensures Assigns(line, key) <==> Sets(line, key)
  {
    hide Assigns;
    if Sets(line, key) {
      var a, b, rest :| IsSetting(line, a, key, b, rest);
      SettingAssigns(line, a, key, b, rest);
    }
    if Assigns(line, key) {
      AssignsSetting(line, key);
    }
  }

  lemma AutologinIff(line: string)
    ensures IsAutologin(line) <==> SetsAutologin(line)
  {
    hide Assigns, Sets;
    AssignsIff(line, "autologin-user");
    AssignsIff(line, "autologin-session");
    AssignsIff(line, "autologin-guest");
    AssignsIff(line, "autologin-user-timeout");
  }

  // No line sets two of these.
  lemma OneOfTwo(line: string)
    requires SetsAutologin(line)
    ensures !Assigns(line, GREETER_KEY)
  {
    AutologinIff(line);
    FirstLetter(line, "autologin-user");
    FirstLetter(line, "autologin-session");
    FirstLetter(line, "autologin-guest");
    FirstLetter(line, "autologin-user-timeout");
    hide Assigns;
  }

  lemma FirstLetter(line: string, key: string)
    requires key != "" && key[0] == 'a'
    ensures Assigns(line, key) ==> !Assigns(line, GREETER_KEY)
  {
    hide SkipBlanks;
    assert GREETER_KEY[0] == 'g';
  }

  // The rewriting of a file around one of its lines.
  lemma {:induction false} RewriteAround(before: seq<string>, line: string, after: seq<string>, seen: bool)
    returns (s: bool)
    ensures s <==> seen || Greeters(before) > 0
    ensures Rewrite(before + [line] + after, seen)
      == Rewrite(before, seen) + Becomes(line, s) + Rewrite(after, SeenAfter(line, s))
    decreases |before|
  {
    hide KindOf, Becomes;
    var all := before + [line] + after;
    if before == [] {
      s := seen;
      assert all[0] == line && all[1..] == after;
      assert [] + Becomes(line, s) == Becomes(line, s);
    } else {
      assert all[0] == before[0] && all[1..] == before[1..] + [line] + after;
      s := RewriteAround(before[1..], line, after, SeenAfter(before[0], seen));
      var head, rest := Becomes(before[0], seen), Rewrite(before[1..], SeenAfter(before[0], seen));
      Assoc(head, rest, Becomes(line, s));
      Assoc(head, rest + Becomes(line, s), Rewrite(after, SeenAfter(line, s)));
    }
  }

  // A line that sets one of the four keys, anywhere in a file, is left as a comment.
  lemma AutologinDisabled(before: seq<string>, line: string, after: seq<string>)
    requires SetsAutologin(line)
    ensures exists head, tail ::
      Rewrite(before + [line] + after, false) == head + ["# cardputer-zero-os disabled: " + line] + tail
  {
    var s := RewriteAround(before, line, after, false);
    AutologinIff(line);
    OneOfTwo(line);
    hide IsAutologin, Assigns, Rewrite, SetsAutologin, Greeters, ValueOf;
    assert Becomes(line, s) == [DISABLED + line];
    var head, tail := Rewrite(before, false), Rewrite(after, SeenAfter(line, s));
    assert Rewrite(before + [line] + after, false) == head + ["# cardputer-zero-os disabled: " + line] + tail;
  }

  // And none that does is left in force.
  lemma NoAutologinLeft(lines: seq<string>)
    ensures forall k :: 0 <= k < |Rewrite(lines, false)| ==> !SetsAutologin(Rewrite(lines, false)[k])
  {
    OneGreeterNoAutologin(lines);
    var config := Rewrite(lines, false);
    hide Assigns, IsAutologin, Rewrite, ValueOf, SetsAutologin;
    forall k | 0 <= k < |config|
      ensures !SetsAutologin(config[k])
    {
      assert !KindOf(config[k]).Autologin?;
      if SetsAutologin(config[k]) {
        OneOfTwo(config[k]);
      }
      AutologinIff(config[k]);
    }
  }

  // Every greeter session left in force is the managed one, there is one at most, and
  // there is one exactly if there was any.
  lemma OneGreeterLeft(lines: seq<string>)
    ensures var config := Rewrite(lines, false);
      && (forall k :: 0 <= k < |config| && Sets(config[k], "greeter-session") ==>
            config[k] == "greeter-session=" + "cardputer-zero-pi-greeter-labwc")
      && (forall j, k :: 0 <= j < k < |config| && Sets(config[j], "greeter-session") ==>
            !Sets(config[k], "greeter-session"))
      && ((exists k :: 0 <= k < |config| && Sets(config[k], "greeter-session"))
          <==> exists k :: 0 <= k < |lines| && Sets(lines[k], "greeter-session"))
  {
    OneGreeterNoAutologin(lines);
    var config := Rewrite(lines, false);
    assert GreeterLine() == "greeter-session=" + "cardputer-zero-pi-greeter-labwc";
    hide Assigns, IsAutologin, Rewrite, ValueOf, Sets, GreeterLine;
    forall line: string
      ensures Sets(line, "greeter-session") <==> KindOf(line).GreeterSession?
    {
      AssignsIff(line, "greeter-session");
    }
    GreetersIff(config);
    GreetersIff(lines);
  }

  lemma {:induction false} GreetersIff(lines: seq<string>)
    ensures Greeters(lines) > 0 <==> exists k :: 0 <= k < |lines| && KindOf(lines[k]).GreeterSession?
    ensures Greeters(lines) <= 1 ==>
      forall j, k :: 0 <= j < k < |lines| && KindOf(lines[j]).GreeterSession? ==> !KindOf(lines[k]).GreeterSession?
  {
    hide KindOf;
    if lines != [] {
      GreetersIff(lines[1..]);
      assert forall k :: 0 <= k < |lines[1..]| ==> lines[1..][k] == lines[k + 1];
      assert forall k :: 0 < k < |lines| ==> lines[k] == lines[1..][k - 1];
    }
  }

  // A value without blanks at its ends.
  predicate Trimmed(value: string) {
    value == "" || (!StartsBlank(value) && Last(value) != ' ' && Last(value) != '\t')
  }

  lemma {:induction false} DropsBlanks(value: string, blanks: string)
    requires Blank(blanks) && Trimmed(value)
    ensures DropBlanks(value + blanks) == value
  {
    if blanks == "" {
      assert value + blanks == value;
    } else {
      assert Last(value + blanks) == Last(blanks) && Init(value + blanks) == value + Init(blanks);
      DropsBlanks(value, Init(blanks));
    }
  }

  lemma AllBlank(a: string, b: string)
    requires Blank(a) && Blank(b)
    ensures DropBlanks(SkipBlanks(a + b)) == ""
  {
    assert Blank(a + b) && a + b == (a + b) + "";
    SkipsBlanks(a + b, "");
  }

  // A greeter session with this value, blanks apart: the managed value stays once and
  // goes when it is repeated; any other stays as a comment, the managed line
  // behind the first of them all.
  lemma GreeterReplaced(a: string, b: string, c: string, value: string, d: string, seen: bool)
    requires Blank(a) && Blank(b) && Blank(c) && Blank(d) && Trimmed(value)
    ensures var line := a + ("greeter-session" + (b + ("=" + (c + (value + d)))));
      var managed := "greeter-session=" + "cardputer-zero-pi-greeter-labwc";
      Becomes(line, seen)
      == (if value == "cardputer-zero-pi-greeter-labwc" then [] else ["# cardputer-zero-os replaced: " + line])
         + if seen then [] else [managed]
  {
    var rest := c + (value + d);
    var line := a + ("greeter-session" + (b + ("=" + rest)));
    SettingAssigns(line, a, "greeter-session", b, rest);
    assert ("=" + rest)[1..] == rest;
    assert ValueOf(line) == DropBlanks(SkipBlanks(rest));
    if value == "" {
      assert value + d == d;
      AllBlank(c, d);
    } else {
      assert (value + d)[0] == value[0];
      SkipsBlanks(c, value + d);
      DropsBlanks(value, d);
    }
    hide Assigns, ValueOf, SkipBlanks, DropBlanks;
    assert GreeterLine() == "greeter-session=" + "cardputer-zero-pi-greeter-labwc";
  }

  // Any line that sets none of the five is untouched.
  lemma OtherLinesUntouched(line: string, seen: bool)
    requires !Sets(line, "greeter-session") && !SetsAutologin(line)
    ensures Becomes(line, seen) == [line]
  {
    AssignsIff(line, "greeter-session");
    AutologinIff(line);
    hide Assigns, IsAutologin, Sets, SetsAutologin;
  }
}
