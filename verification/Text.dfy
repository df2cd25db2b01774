// Byte strings and the separator-delimited texts built from them.  A byte is a
// `char` whose code is below 256; nothing here or in the importing modules
// depends on that bound, so every statement holds for more texts than needed.
module Text {

  // The pieces of `s` between the occurrences of `sep`: always at least one.
  function SplitOn(sep: char, s: string): (parts: seq<string>)
    ensures |parts| > 0
  {
    if s == "" then [""]
    else
      var rest := SplitOn(sep, s[1..]);
      if s[0] == sep then [""] + rest else [[s[0]] + rest[0]] + rest[1..]
  }

  function Join(sep: char, parts: seq<string>): string
    requires |parts| > 0
  {
    if |parts| == 1 then parts[0] else parts[0] + [sep] + Join(sep, parts[1..])
  }

  function Last<T>(s: seq<T>): T
    requires |s| > 0
  {
    s[|s| - 1]
  }

  function Init<T>(s: seq<T>): seq<T>
    requires |s| > 0
  {
    s[..|s| - 1]
  }

  function Min(a: int, b: int): int { if b < a then b else a }

  predicate Free(sep: char, s: string) {
    sep !in s
  }

  predicate AllFree(sep: char, parts: seq<string>) {
    forall k :: 0 <= k < |parts| ==> Free(sep, parts[k])
  }

  lemma Assoc<T>(a: seq<T>, b: seq<T>, c: seq<T>)
    ensures (a + b) + c == a + (b + c)
  {
  }

  lemma {:induction false} SplitFree(sep: char, s: string)
    ensures AllFree(sep, SplitOn(sep, s))
  {
    if s != "" {
      SplitFree(sep, s[1..]);
    }
  }

  lemma {:induction false} SplitOfFree(sep: char, s: string)
    requires Free(sep, s)
    ensures SplitOn(sep, s) == [s]
  {
    if s != "" {
      SplitOfFree(sep, s[1..]);
      assert [s[0]] + s[1..] == s;
    }
  }

  lemma {:induction false} JoinSplit(sep: char, s: string)
    ensures Join(sep, SplitOn(sep, s)) == s
  {
    if s != "" {
      var rest := SplitOn(sep, s[1..]);
      JoinSplit(sep, s[1..]);
      if s[0] == sep {
        assert ([""] + rest)[1..] == rest;
      } else if |rest| > 1 {
        assert ([[s[0]] + rest[0]] + rest[1..])[1..] == rest[1..];
      }
    }
  }

  // Splitting a concatenation: all pieces of `a` but the last are final, and the
  // last piece of `a` is continued by `b`.
  lemma {:induction false} SplitAppend(sep: char, a: string, b: string)
    ensures SplitOn(sep, a + b) == Init(SplitOn(sep, a)) + SplitOn(sep, Last(SplitOn(sep, a)) + b)
  {
    if a == "" {
      assert a + b == b;
      assert Last(SplitOn(sep, a)) + b == b;
    } else {
      SplitAppend(sep, a[1..], b);
      hide SplitOn;
      assert a == [a[0]] + a[1..];
      SplitAppendStep(sep, a[0], a[1..], b);
    }
  }

  lemma SplitAppendStep(sep: char, c: char, s: string, b: string)
    requires SplitOn(sep, s + b) == Init(SplitOn(sep, s)) + SplitOn(sep, Last(SplitOn(sep, s)) + b)
    ensures SplitOn(sep, [c] + s + b)
         == Init(SplitOn(sep, [c] + s)) + SplitOn(sep, Last(SplitOn(sep, [c] + s)) + b)
  {
    hide SplitOn;
    var rest := SplitOn(sep, s);
    var more := SplitOn(sep, Last(rest) + b);
    var parts := SplitOn(sep, [c] + s);
    SplitCons(sep, c, s);
    SplitCons(sep, c, s + b);
    Assoc([c], s, b);
    if c == sep {
      assert Init(parts) == [""] + Init(rest);
      Assoc([""], Init(rest), more);
    } else if |rest| > 1 {
      assert Last(parts) == Last(rest);
      assert Init(parts) == [[c] + rest[0]] + Init(rest)[1..];
      assert (Init(rest) + more)[1..] == Init(rest)[1..] + more;
      Assoc([[c] + rest[0]], Init(rest)[1..], more);
    } else {
      assert rest == [rest[0]] && parts == [[c] + rest[0]];
      assert Init(rest) == [] && Init(parts) == [];
      SplitCons(sep, c, rest[0] + b);
      Assoc([c], rest[0], b);
    }
  }

  lemma SplitCons(sep: char, c: char, s: string)
    ensures SplitOn(sep, [c] + s)
         == if c == sep then [""] + SplitOn(sep, s) else [[c] + SplitOn(sep, s)[0]] + SplitOn(sep, s)[1..]
  {
    assert ([c] + s)[1..] == s;
  }

  lemma {:induction false} SplitJoin(sep: char, parts: seq<string>)
    requires |parts| > 0
    requires AllFree(sep, parts)
    ensures SplitOn(sep, Join(sep, parts)) == parts
  {
    SplitOfFree(sep, parts[0]);
    if |parts| > 1 {
      var tail := [sep] + Join(sep, parts[1..]);
      SplitJoin(sep, parts[1..]);
      assert tail[1..] == Join(sep, parts[1..]);
      assert SplitOn(sep, tail) == [""] + parts[1..];
      SplitAppendFree(sep, parts[0], tail);
      assert Join(sep, parts) == parts[0] + tail;
      assert parts[0] + "" == parts[0];
    }
  }

  lemma {:induction false} SplitAppendFree(sep: char, a: string, b: string)
    requires Free(sep, a)
    ensures SplitOn(sep, a + b) == [a + SplitOn(sep, b)[0]] + SplitOn(sep, b)[1..]
  {
    if a == "" {
      assert a + b == b;
      assert a + SplitOn(sep, b)[0] == SplitOn(sep, b)[0];
    } else {
      assert (a + b)[1..] == a[1..] + b;
      SplitAppendFree(sep, a[1..], b);
      assert [a[0]] + (a[1..] + SplitOn(sep, b)[0]) == a + SplitOn(sep, b)[0];
    }
  }

  lemma SplitFirst(sep: char, head: string, tail: string)
    requires Free(sep, head)
    ensures SplitOn(sep, head + [sep] + tail) == [head] + SplitOn(sep, tail)
  {
    hide SplitOn;
    SplitCons(sep, sep, tail);
    SplitAppendFree(sep, head, [sep] + tail);
    Assoc(head, [sep], tail);
    assert head + "" == head;
  }

  // What a C string function sees of `s`: the bytes before the first NUL.
  function CString(s: string): string {
    if s == "" || s[0] == '\0' then "" else [s[0]] + CString(s[1..])
  }

  lemma {:induction false} CStringFixed(s: string)
    requires '\0' !in s
    ensures CString(s) == s
  {
    if s != "" {
      CStringFixed(s[1..]);
    }
  }

  // Where `c` first stands in `s` at or after `start`; `|s|` when it does not.
  function FindFrom(s: string, c: char, start: nat): (at: nat)
    requires start <= |s|
    ensures start <= at <= |s|
    ensures forall k :: start <= k < at ==> s[k] != c
    ensures at < |s| ==> s[at] == c
    decreases |s| - start
  {
    if start == |s| || s[start] == c then start else FindFrom(s, c, start + 1)
  }

  method Find(s: string, c: char, start: nat) returns (at: nat)
    requires start <= |s|
    ensures at == FindFrom(s, c, start)
    ensures start <= at <= |s| && Free(c, s[start..at]) && (at < |s| ==> s[at] == c)
  {
    at := start;
    while at < |s| && s[at] != c
      invariant start <= at <= |s|
      invariant FindFrom(s, c, at) == FindFrom(s, c, start)
    {
      at := at + 1;
    }
  }

  lemma FoundAt(s: string, c: char, start: nat, at: nat)
    requires start <= at < |s| && s[at] == c && forall k :: start <= k < at ==> s[k] != c
    ensures FindFrom(s, c, start) == at
  {
  }

  // Blanks at the start of a line, as the setup scripts' patterns have them.
  function SkipBlanks(s: string): string {
    if s != "" && (s[0] == ' ' || s[0] == '\t') then SkipBlanks(s[1..]) else s
  }

  predicate Blank(s: string) {
    forall k :: 0 <= k < |s| ==> s[k] == ' ' || s[k] == '\t'
  }

  predicate StartsBlank(s: string) {
    s != "" && (s[0] == ' ' || s[0] == '\t')
  }

  lemma {:induction false} SkipsBlanks(blanks: string, rest: string)
    requires Blank(blanks) && !StartsBlank(rest)
    ensures SkipBlanks(blanks + rest) == rest
  {
    if blanks == "" {
      assert blanks + rest == rest;
    } else {
      assert (blanks + rest)[1..] == blanks[1..] + rest;
      SkipsBlanks(blanks[1..], rest);
    }
  }

  lemma {:induction false} SkippedBlanks(s: string) returns (blanks: string)
    ensures s == blanks + SkipBlanks(s) && Blank(blanks) && !StartsBlank(SkipBlanks(s))
  {
    if StartsBlank(s) {
      var rest := SkippedBlanks(s[1..]);
      blanks := [s[0]] + rest;
      assert s == [s[0]] + s[1..];
    } else {
      blanks := "";
    }
  }

  // ---- typed text --------------------------------------------------------------

  predicate Printable(c: char) {
    ' ' <= c <= '~'
  }

  // What the greeter and the prompt can hold of typed keys.
  predicate TypedText(s: string) {
    |s| <= 128 && forall k :: 0 <= k < |s| ==> Printable(s[k])
  }
}
