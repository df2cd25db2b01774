// The ZWA1 field codec of the window agent: percent-encoding of single fields
// and splitting of a line at tabs (window-agent/zero-window-agent.cpp).
module Codec {
  import opened Text

  const HEX: string := "0123456789ABCDEF"

  predicate MustEscape(c: char) {
    c < ' ' || c == 0x7F as char || c == '%' || c == '\t'
  }

  function EncodeChar(c: char): string {
    if MustEscape(c) then ['%', HEX[c as int / 16], HEX[c as int % 16]] else [c]
  }

  function Encoded(value: string): string {
    if value == "" then "" else EncodeChar(value[0]) + Encoded(value[1..])
  }

  function HexValue(c: char): (v: int)
    ensures -1 <= v < 16
  {
    if '0' <= c <= '9' then c as int - '0' as int
    else if 'a' <= c <= 'f' then c as int - 'a' as int + 10
    else if 'A' <= c <= 'F' then c as int - 'A' as int + 10
    else -1
  }

  // Whether `s` starts with a triplet the decoder accepts.
  predicate Triplet(s: string) {
    |s| > 2 && s[0] == '%' && HexValue(s[1]) >= 0 && HexValue(s[2]) >= 0
  }

  function TripletChar(s: string): char
    requires Triplet(s)
  {
    (16 * HexValue(s[1]) + HexValue(s[2])) as char
  }

  function Decoded(value: string): string {
    if value == "" then ""
    else if Triplet(value) then [TripletChar(value)] + Decoded(value[3..])
    else [value[0]] + Decoded(value[1..])
  }

  function EncodeAll(fields: seq<string>): (texts: seq<string>)
    ensures |texts| == |fields|
    ensures forall k :: 0 <= k < |fields| ==> texts[k] == Encoded(fields[k])
  {
    seq(|fields|, k requires 0 <= k < |fields| => Encoded(fields[k]))
  }

  function DecodeAll(texts: seq<string>): (fields: seq<string>)
    ensures |fields| == |texts|
    ensures forall k :: 0 <= k < |texts| ==> fields[k] == Decoded(texts[k])
  {
    seq(|texts|, k requires 0 <= k < |texts| => Decoded(texts[k]))
  }

  function SplitTabs(line: string): (fields: seq<string>)
    ensures |fields| > 0
  {
    DecodeAll(SplitOn('\t', line))
  }

  // What one line carries: the encoded fields with tabs between them.
  function Message(fields: seq<string>): string
    requires |fields| > 0
  {
    Join('\t', EncodeAll(fields))
  }

  method Encode(value: string) returns (out: string)
    ensures out == Encoded(value)
  {
    hide Encoded;
    out := "";
    assert value[0..] == value;
    for i := 0 to |value|
      invariant out + Encoded(value[i..]) == Encoded(value)
    {
      var ch := value[i];
      ghost var before := out;
      EncodedStep(value, i);
      if ch < ' ' || ch == 0x7F as char || ch == '%' || ch == '\t' {
        out := out + ['%'];
        out := out + [HEX[ch as int / 16]];
        out := out + [HEX[ch as int % 16]];
      } else {
        out := out + [ch];
      }
      assert out == before + EncodeChar(ch);
      Assoc(before, EncodeChar(ch), Encoded(value[i + 1..]));
    }
    EncodedEmpty(value[|value|..]);
  }

  lemma EncodedEmpty(s: string)
    requires s == ""
    ensures Encoded(s) == ""
  {
  }

  lemma EncodedStep(value: string, i: nat)
    requires i < |value|
    ensures Encoded(value[i..]) == EncodeChar(value[i]) + Encoded(value[i + 1..])
  {
    assert value[i..][1..] == value[i + 1..];
  }

  method Decode(value: string) returns (out: string)
    ensures out == Decoded(value)
  {
    out := "";
    var i := 0;
    while i < |value|
      invariant 0 <= i <= |value|
      invariant out + Decoded(value[i..]) == Decoded(value)
    {
      if value[i] == '%' && i + 2 < |value| {
        var hi := HexValue(value[i + 1]);
        var lo := HexValue(value[i + 2]);
        if hi >= 0 && lo >= 0 {
          assert Triplet(value[i..]);
          out := out + [(16 * hi + lo) as char];
          i := i + 3;
          continue;
        }
      }
      assert !Triplet(value[i..]);
      out := out + [value[i]];
      i := i + 1;
    }
  }

  method SplitFields(line: string) returns (fields: seq<string>)
    ensures fields == SplitTabs(line)
  {
    hide SplitTabs, Decoded, FindFrom;
    fields := [];
    var start := 0;
    assert line[0..] == line && [] + SplitTabs(line) == SplitTabs(line);
    while start <= |line|
      invariant 0 <= start <= |line| + 1
      invariant start <= |line| ==> fields + SplitTabs(line[start..]) == SplitTabs(line)
      invariant start > |line| ==> fields == SplitTabs(line)
    {
      var tab := Find(line, '\t', start);
      SplitTabsStep(line[start..], tab - start);
      if tab == |line| {
        var field := Decode(line[start..]);
        fields := fields + [field];
        break;
      }
      assert line[start..][..tab - start] == line[start..tab];
      assert line[start..][tab - start + 1..] == line[tab + 1..];
      var field := Decode(line[start..tab]);
      Assoc(fields, [field], SplitTabs(line[tab + 1..]));
      fields := fields + [field];
      start := tab + 1;
    }
  }

  // One round of the splitter on what is left of a line, `tab` being where its
  // first tab stands or its length.
  lemma SplitTabsStep(rest: string, tab: nat)
    requires tab <= |rest| && Free('\t', rest[..tab])
    requires tab < |rest| ==> rest[tab] == '\t'
    ensures tab == |rest| ==> SplitTabs(rest) == [Decoded(rest)]
    ensures tab < |rest| ==> SplitTabs(rest) == [Decoded(rest[..tab])] + SplitTabs(rest[tab + 1..])
  {
    hide Decoded, SplitOn;
    if tab == |rest| {
      assert rest[..tab] == rest;
      SplitOfFree('\t', rest);
    } else {
      var head, tail := rest[..tab], rest[tab + 1..];
      assert rest == head + ['\t'] + tail;
      SplitFirst('\t', head, tail);
      DecodeAllCons(head, SplitOn('\t', tail));
    }
  }

  lemma DecodeAllCons(text: string, rest: seq<string>)
    ensures DecodeAll([text] + rest) == [Decoded(text)] + DecodeAll(rest)
  {
    hide Decoded;
  }

  lemma HexDigitValue(n: nat)
    requires n < 16
    ensures HexValue(HEX[n]) == n
    ensures ' ' <= HEX[n] < 0x7F as char && HEX[n] != '%'
  {
  }

  lemma DecodeEncodedChar(c: char, t: string)
    ensures Decoded(EncodeChar(c) + t) == [c] + Decoded(t)
  {
    var s := EncodeChar(c) + t;
    if MustEscape(c) {
      HexDigitValue(c as int / 16);
      HexDigitValue(c as int % 16);
      hide HEX, HexValue;
      assert s[3..] == t;
    } else {
      assert s[1..] == t;
    }
  }

  // Decoding undoes encoding, whatever follows the encoded text.
  lemma {:induction false} DecodeEncodedPrefix(value: string, t: string)
    ensures Decoded(Encoded(value) + t) == value + Decoded(t)
  {
    hide Decoded, EncodeChar;
    if value == "" {
      assert Encoded(value) + t == t && value + Decoded(t) == Decoded(t);
    } else {
      var c, rest := value[0], value[1..];
      Assoc(EncodeChar(c), Encoded(rest), t);
      DecodeEncodedChar(c, Encoded(rest) + t);
      DecodeEncodedPrefix(rest, t);
      assert [c] + rest == value;
      Assoc([c], rest, Decoded(t));
    }
  }

  lemma {:induction false} DecodeEncoded(value: string)
    ensures Decoded(Encoded(value)) == value
  {
    DecodeEncodedPrefix(value, "");
    assert Encoded(value) + "" == Encoded(value);
  }

  // No control byte survives encoding: in particular no tab, CR or LF.
  predicate Clean(s: string) {
    forall k :: 0 <= k < |s| ==> s[k] >= ' ' && s[k] != 0x7F as char
  }

  lemma {:induction false} EncodedIsClean(value: string)
    ensures Clean(Encoded(value))
  {
    if value != "" {
      if MustEscape(value[0]) {
        HexDigitValue(value[0] as int / 16);
        HexDigitValue(value[0] as int % 16);
      }
      EncodedIsClean(value[1..]);
    }
  }

  // The digit a number below sixteen has, in upper case.
  predicate UpperHex(d: char, n: nat) {
    n < 16 && d as int == if n < 10 then 48 + n else 55 + n
  }

  // In either case.
  predicate AnyHex(d: char, n: nat) {
    UpperHex(d, n) || (10 <= n < 16 && d as int == 87 + n)
  }

  // What is sent of one byte: itself from the blank on, but for DEL and the percent
  // sign; for any other a percent sign and its two digits.
  lemma EncodedByte(c: char)
    ensures c >= ' ' && c != 0x7F as char && c != '%' ==> Encoded([c]) == [c]
    ensures c < ' ' || c == 0x7F as char || c == '%' ==>
      var e := Encoded([c]);
      |e| == 3 && e[0] == '%' && UpperHex(e[1], c as int / 16) && UpperHex(e[2], c as int % 16)
  {
    assert [c][1..] == "";
    assert Encoded([c]) == EncodeChar(c) + "";
    if MustEscape(c) {
      HexDigits(c as int / 16);
      HexDigits(c as int % 16);
    }
  }

  lemma HexDigits(n: nat)
    requires n < 16
    ensures UpperHex(HEX[n], n)
  {
  }

  lemma {:induction false} EncodedAppend(a: string, b: string)
    ensures Encoded(a + b) == Encoded(a) + Encoded(b)
  {
    hide EncodeChar;
    if a == "" {
      assert a + b == b;
    } else {
      assert (a + b)[1..] == a[1..] + b;
      EncodedAppend(a[1..], b);
      Assoc(EncodeChar(a[0]), Encoded(a[1..]), Encoded(b));
    }
  }

  // A percent sign and two digits, in either case, are read as one byte; anything
  // else is read as it stands, a percent sign without two digits behind it too.
  lemma DecodedTriplet(h: char, l: char, m: nat, n: nat, rest: string)
    requires AnyHex(h, m) && AnyHex(l, n)
    ensures Decoded(['%', h, l] + rest) == [(16 * m + n) as char] + Decoded(rest)
  {
    var s := ['%', h, l] + rest;
    assert HexValue(h) == m && HexValue(l) == n;
    assert Triplet(s) && s[3..] == rest;
  }

  lemma DecodedPlain(c: char, rest: string)
    requires c == '%' ==> |rest| < 2 || forall m, n :: !(AnyHex(rest[0], m) && AnyHex(rest[1], n))
    ensures Decoded([c] + rest) == [c] + Decoded(rest)
  {
    var s := [c] + rest;
    assert s[1..] == rest;
    if Triplet(s) {
      assert AnyHex(rest[0], HexValue(s[1])) && AnyHex(rest[1], HexValue(s[2]));
    }
  }

  // Bytes that may be sent as they are, and ASCII.
  predicate AllPrintable(s: string) {
    forall k :: 0 <= k < |s| ==> Printable(s[k])
  }

  predicate Ascii(s: string) {
    forall k :: 0 <= k < |s| ==> s[k] < 128 as char
  }

  // The protocol description has every non-printable byte encoded; the encoder
  // does that for exactly the texts without bytes from 128 up.
  lemma {:induction false} EncodedPrintableIff(value: string)
    ensures AllPrintable(Encoded(value)) <==> Ascii(value)
  {
    if value != "" {
      var head, rest := EncodeChar(value[0]), Encoded(value[1..]);
      EncodedPrintableIff(value[1..]);
      EncodeCharPrintable(value[0]);
      assert forall k :: 0 <= k < |head| ==> (head + rest)[k] == head[k];
      assert forall k :: 0 <= k < |rest| ==> (head + rest)[|head| + k] == rest[k];
      assert forall k :: 1 <= k < |value| ==> value[k] == value[1..][k - 1];
      hide Encoded, EncodeChar, Printable;
      assert AllPrintable(head + rest) <==> AllPrintable(head) && AllPrintable(rest);
    }
  }

  lemma EncodeCharPrintable(c: char)
    ensures AllPrintable(EncodeChar(c)) <==> c < 128 as char
  {
    if MustEscape(c) {
      HexDigitValue(c as int / 16);
      HexDigitValue(c as int % 16);
    } else {
      assert EncodeChar(c)[0] == c;
    }
  }

  // The two bytes of an e with an acute accent are sent as they are.
  lemma AccentSentBare()
    ensures var value := [0xC3 as char, 0xA9 as char]; Encoded(value) == value && !AllPrintable(Encoded(value))
  {
    PlainEncoded([0xC3 as char, 0xA9 as char]);
  }

  // The texts the encoder can produce, recognised without the encoder: every
  // percent sign opens an upper-case triplet for a byte that needs one, and
  // nothing that needs a triplet stands bare.
  predicate Canonical(s: string) {
    if s == "" then true
    else if s[0] == '%' then
      && Triplet(s) && s[1] in HEX && s[2] in HEX
      && MustEscape(TripletChar(s))
      && Canonical(s[3..])
    else !MustEscape(s[0]) && Canonical(s[1..])
  }

  lemma {:induction false} CanonicalFixed(s: string)
    requires Canonical(s)
    ensures Encoded(Decoded(s)) == s
  {
    if s != "" {
      if s[0] == '%' {
        TripletEncoded(s);
        CanonicalFixed(s[3..]);
        hide EncodeChar, Triplet, TripletChar, Canonical;
        EncodedCons(TripletChar(s), Decoded(s[3..]));
        assert s == s[..3] + s[3..];
      } else {
        CanonicalFixed(s[1..]);
        EncodedCons(s[0], Decoded(s[1..]));
      }
    }
  }

  lemma EncodedCons(c: char, rest: string)
    ensures Encoded([c] + rest) == EncodeChar(c) + Encoded(rest)
  {
    assert ([c] + rest)[1..] == rest;
  }

  lemma TripletEncoded(s: string)
    requires s != "" && s[0] == '%' && Canonical(s)
    ensures EncodeChar(TripletChar(s)) == s[..3]
  {
    var i :| 0 <= i < |HEX| && HEX[i] == s[1];
    var j :| 0 <= j < |HEX| && HEX[j] == s[2];
    HexDigitValue(i);
    HexDigitValue(j);
    assert TripletChar(s) as int / 16 == i && TripletChar(s) as int % 16 == j;
  }

  lemma {:induction false} EncodedIsCanonical(value: string)
    ensures Canonical(Encoded(value))
  {
    if value != "" {
      EncodedIsCanonical(value[1..]);
      var s := Encoded(value);
      if MustEscape(value[0]) {
        HexDigitValue(value[0] as int / 16);
        HexDigitValue(value[0] as int % 16);
        assert s[3..] == Encoded(value[1..]);
      } else {
        assert s[1..] == Encoded(value[1..]);
      }
    }
  }

  // Re-encoding what was decoded gives the same text back for exactly the
  // canonical texts, which are exactly the encoder's outputs.
  lemma EncodeDecodedIff(s: string)
    ensures Encoded(Decoded(s)) == s <==> Canonical(s)
    ensures Canonical(s) <==> exists value :: Encoded(value) == s
  {
    if Canonical(s) {
      CanonicalFixed(s);
    }
    EncodedIsCanonical(Decoded(s));
    forall value | Encoded(value) == s
      ensures Canonical(s)
    {
      EncodedIsCanonical(value);
    }
  }

  // Texts that encoding leaves alone.
  predicate Plain(s: string) {
    forall k :: 0 <= k < |s| ==> !MustEscape(s[k])
  }

  lemma {:induction false} PlainEncoded(s: string)
    requires Plain(s)
    ensures Encoded(s) == s
  {
    if s != "" {
      PlainEncoded(s[1..]);
    }
  }

  lemma EncodedIsFree(value: string)
    ensures Free('\t', Encoded(value)) && Free('\n', Encoded(value)) && Free('\r', Encoded(value))
  {
    EncodedIsClean(value);
  }

  lemma {:induction false} JoinFree(sep: char, c: char, parts: seq<string>)
    requires |parts| > 0 && sep != c && AllFree(c, parts)
    ensures Free(c, Join(sep, parts))
  {
    if |parts| > 1 {
      JoinFree(sep, c, parts[1..]);
    }
  }

  // Fields survive a line: encode each, join with tabs, split, decode.
  lemma SplitMessage(fields: seq<string>)
    requires |fields| > 0
    ensures SplitTabs(Message(fields)) == fields
    ensures Free('\n', Message(fields)) && Free('\r', Message(fields))
  {
    var texts := EncodeAll(fields);
    forall k | 0 <= k < |fields|
      ensures Free('\t', texts[k]) && Free('\n', texts[k]) && Free('\r', texts[k])
      ensures Decoded(texts[k]) == fields[k]
    {
      EncodedIsFree(fields[k]);
      DecodeEncoded(fields[k]);
    }
    SplitJoin('\t', texts);
    JoinFree('\t', '\n', texts);
    JoinFree('\t', '\r', texts);
    assert DecodeAll(texts) == fields;
  }
}
