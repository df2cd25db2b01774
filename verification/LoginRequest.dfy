// The login request: written by the greeter, read back by its helper process
// (greeter/zero-greeter-wayland.cpp, greeter/zero-greeter-auth.cpp).
module LoginRequest {
  import opened Text
  import opened Framing
  import opened Wrappers

  const INPUT_CAP: nat := 4096
  const NAME_CAP: nat := 64
  const PASSWORD_CAP: nat := 256
  const HELPER_READ: nat := 256

  function Request(name: string, password: string): string {
    name + "\n" + password + "\n"
  }

  // ---- writing --------------------------------------------------------------------

  // Outcomes of successive writes: bytes taken, a signal, or an error.
  datatype Write = Took(count: nat) | WriteInterrupted | WriteFailed

  // How many of `left` bytes get through before an error or the last outcome.
  function Through(left: nat, results: seq<Write>): (n: nat)
    ensures n <= left
    decreases |results|
  {
    if left == 0 || results == [] then 0
    else match results[0]
      case Took(count) =>
        var m := if count < left then count else left;
        m + Through(left - m, results[1..])
      case WriteInterrupted => Through(left, results[1..])
      case WriteFailed => 0
  }

  // Short writes until all is sent; what gets through is the start of the data,
  // and success is reported exactly when it is all of it.
  method WriteAll(data: string, results: seq<Write>) returns (sent: bool, delivered: string)
    ensures delivered <= data && |delivered| == Through(|data|, results)
    ensures sent <==> delivered == data
  {
    var cursor: nat := 0;
    var n := 0;
    while |data| - cursor > 0
      invariant cursor <= |data| && n <= |results|
      invariant cursor + Through(|data| - cursor, results[n..]) == Through(|data|, results)
      decreases |results| - n
    {
      if n == |results| {
        return false, data[..cursor];
      }
      assert results[n..][0] == results[n] && results[n..][1..] == results[n + 1..];
      match results[n] {
        case Took(count) => cursor := cursor + if count < |data| - cursor then count else |data| - cursor;
        case WriteInterrupted =>
        case WriteFailed => return false, data[..cursor];
      }
      n := n + 1;
    }
    return true, data[..cursor];
  }

  // The bytes an error leaves a socket time to take.
  function Taking(results: seq<Write>): nat
    decreases |results|
  {
    if results == [] || results[0].WriteFailed? then 0
    else (if results[0].Took? then results[0].count else 0) + Taking(results[1..])
  }

  // What gets through is exactly what the socket took, at most all there was.
  lemma {:induction false} ThroughIsTaken(left: nat, results: seq<Write>)
    ensures Through(left, results) == Min(left, Taking(results))
    decreases |results|
  {
    if left != 0 && results != [] {
      match results[0]
      case Took(count) => ThroughIsTaken(left - Min(count, left), results[1..]);
      case WriteInterrupted => ThroughIsTaken(left, results[1..]);
      case WriteFailed =>
    }
  }

  // ---- reading --------------------------------------------------------------------

  type HelperChunk = s: string | 0 < |s| <= HELPER_READ witness "x"

  datatype Read = Data(chunk: HelperChunk) | Eof | ReadInterrupted | ReadFailed

  // The whole input, unless a read failed or the input outgrew its cap.
  function ReadInput(input: string, results: seq<Read>): Option<string>
    decreases |results|
  {
    if results == [] then None
    else match results[0]
      case Data(chunk) =>
        if |input + chunk| > INPUT_CAP then None else ReadInput(input + chunk, results[1..])
      case Eof => Some(input)
      case ReadInterrupted => ReadInput(input, results[1..])
      case ReadFailed => None
  }

  // A user name and password, as the helper takes them from its input.
  datatype Login = Login(name: string, password: string)

  function Parse(input: string): Option<Login> {
    var first := FindFrom(input, '\n', 0);
    if first == |input| then None
    else
      var second := FindFrom(input, '\n', first + 1);
      var name := StripCr(input[..first]);
      var password := StripCr(input[first + 1..second]);
      if 0 < |name| <= NAME_CAP && |password| <= PASSWORD_CAP then Some(Login(name, password)) else None
  }

  function Received(results: seq<Read>): Option<Login> {
    var input := ReadInput("", results);
    if input.None? then None else Parse(input.value)
  }

  method ReadRequest(results: seq<Read>) returns (login: Option<Login>)
    ensures login == Received(results)
  {
    var input := "";
    var n := 0;
    while true
      invariant n <= |results| && ReadInput(input, results[n..]) == ReadInput("", results)
      decreases |results| - n
    {
      if n == |results| {
        return None;
      }
      assert results[n..][0] == results[n] && results[n..][1..] == results[n + 1..];
      match results[n] {
        case Data(chunk) =>
          input := input + chunk;
          if |input| > INPUT_CAP {
            return None;
          }
        case Eof => break;
        case ReadInterrupted =>
        case ReadFailed => return None;
      }
      n := n + 1;
    }
    var first := Find(input, '\n', 0);
    if first == |input| {
      return None;
    }
    var second := Find(input, '\n', first + 1);
    var name := input[..first];
    var password := input[first + 1..second];
    if name != "" && Last(name) == '\r' {
      name := Init(name);
    }
    if password != "" && Last(password) == '\r' {
      password := Init(password);
    }
    return if name != "" && |name| <= NAME_CAP && |password| <= PASSWORD_CAP then Some(Login(name, password)) else None;
  }

  // ---- what arrives ------------------------------------------------------------------

  // The bytes of the reads up to the end of the stream; none if a read failed first.
  function Stream(results: seq<Read>): Option<string>
    decreases |results|
  {
    if results == [] then None
    else match results[0]
      case Data(chunk) =>
        var rest := Stream(results[1..]);
        if rest.None? then None else Some(results[0].chunk + rest.value)
      case Eof => Some("")
      case ReadInterrupted => Stream(results[1..])
      case ReadFailed => None
  }

  // The cap looks at the total only: a stream is taken whole, or refused for its
  // length, however it is cut into reads.
  lemma {:induction false} CapByTotal(input: string, results: seq<Read>)
    requires |input| <= INPUT_CAP && Stream(results).Some?
    ensures var all := input + Stream(results).value;
      ReadInput(input, results) == if |all| <= INPUT_CAP then Some(all) else None
    decreases |results|
  {
    match results[0]
    case Data(chunk) =>
      Assoc(input, chunk, Stream(results[1..]).value);
      if |input + chunk| <= INPUT_CAP {
        CapByTotal(input + chunk, results[1..]);
      }
    case Eof => assert input + "" == input;
    case ReadInterrupted => CapByTotal(input, results[1..]);
    case ReadFailed =>
  }

  // A stream that is not read to its end is no login.
  lemma {:induction false} NoStreamNoInput(input: string, results: seq<Read>)
    requires Stream(results).None?
    ensures ReadInput(input, results).None?
    decreases |results|
  {
    if results != [] {
      match results[0]
      case Data(chunk) => NoStreamNoInput(input + chunk, results[1..]);
      case ReadInterrupted => NoStreamNoInput(input, results[1..]);
      case _ =>
    }
  }

  lemma NoStreamNoLogin(results: seq<Read>)
    requires Stream(results).None?
    ensures Received(results).None?
  {
    NoStreamNoInput("", results);
  }

  lemma ReceivedByTotal(results: seq<Read>)
    requires Stream(results).Some?
    ensures Received(results) == if |Stream(results).value| <= 4096 then Parse(Stream(results).value) else None
  {
    CapByTotal("", results);
    assert "" + Stream(results).value == Stream(results).value;
  }

  // The names that survive the trip.
  predicate PlainName(name: string) {
    && 0 < |name| <= 64
    && '\n' !in name
    && Last(name) != '\r'
  }

  lemma ParseRequest(name: string, password: string)
    requires '\n' !in name && TypedText(password)
    ensures Parse(Request(name, password))
         == if 0 < |StripCr(name)| <= 64 then Some(Login(StripCr(name), password)) else None
  {
    var s := Request(name, password);
    var second := |name| + 1 + |password|;
    assert s[|name|] == '\n' && s[second] == '\n';
    assert forall k :: 0 <= k < |name| ==> s[k] == name[k];
    assert forall k :: |name| + 1 <= k < second ==> s[k] == password[k - |name| - 1];
    FoundAt(s, '\n', 0, |name|);
    FoundAt(s, '\n', |name| + 1, second);
    assert s[..|name|] == name && s[|name| + 1..second] == password;
  }

  lemma FirstLineName(name: string, password: string)
    requires '\n' in name
    ensures Parse(Request(name, password)).Some? ==> Parse(Request(name, password)).value.name != name
  {
    var s := Request(name, password);
    var k :| 0 <= k < |name| && name[k] == '\n';
    assert s[k] == '\n';
    var first := FindFrom(s, '\n', 0);
    assert |s[..first]| <= k;
  }

  // The round trip between the processes: for every password the greeter can
  // hold, what the helper reads of the request, in any chunks, is the name and
  // the password themselves if and only if the name is a plain one.
  lemma RoundTripIff(name: string, password: string, results: seq<Read>)
    requires TypedText(password)
    requires Stream(results) == Some(Request(name, password))
    ensures Received(results) == Some(Login(name, password)) <==> PlainName(name)
  {
    ReceivedByTotal(results);
    hide ReadInput, Received;
    if '\n' in name {
      FirstLineName(name, password);
    } else {
      ParseRequest(name, password);
    }
  }

  // Where the parts of a cut request stand.
  lemma CutRequest(name: string, password: string, n: nat) returns (cut: nat)
    requires '\n' !in name && TypedText(password) && |name| < n <= |Request(name, password)|
    ensures cut == Min(n - |name| - 1, |password|)
    ensures var came := Request(name, password)[..n];
      && FindFrom(came, '\n', 0) == |name| && came[..|name|] == name
      && FindFrom(came, '\n', |name| + 1) == |name| + 1 + cut
      && came[|name| + 1..|name| + 1 + cut] == password[..cut]
  {
    cut := Min(n - |name| - 1, |password|);
    var all, came := Request(name, password), Request(name, password)[..n];
    var tail := ['\n'] + password + ['\n'];
    assert all == name + tail;
    assert forall k :: 0 <= k < |name| ==> came[k] == name[k];
    assert came[|name|] == tail[0];
    FoundAt(came, '\n', 0, |name|);
    assert forall k :: 0 <= k < cut ==> came[|name| + 1 + k] == password[k];
    if |name| + 1 + cut < n {
      assert came[|name| + 1 + cut] == tail[1 + cut];
      FoundAt(came, '\n', |name| + 1, |name| + 1 + cut);
    }
  }

  lemma ParseTruncated(name: string, password: string, n: nat)
    requires PlainName(name) && TypedText(password) && n <= |Request(name, password)|
    ensures Parse(Request(name, password)[..n])
      == if n <= |name| then None else Some(Login(name, password[..Min(n - |name| - 1, |password|)]))
  {
    hide FindFrom;
    if n > |name| {
      var cut := CutRequest(name, password, n);
      hide Request;
    } else {
      assert Request(name, password)[..n] == name[..n];
    }
  }

  // When only the first `n` bytes get through: no login while the name's newline
  // is missing, then one with as much of the password as came.  So the helper
  // has the login as it was typed exactly when all but the last newline came.
  lemma TruncatedRequest(name: string, password: string, n: nat, results: seq<Read>)
    requires PlainName(name) && TypedText(password) && n <= |Request(name, password)|
    requires Stream(results) == Some(Request(name, password)[..n])
    ensures Received(results)
      == if n <= |name| then None else Some(Login(name, password[..Min(n - |name| - 1, |password|)]))
    ensures Received(results) == Some(Login(name, password)) <==> n >= |name| + 1 + |password|
  {
    ReceivedByTotal(results);
    ParseTruncated(name, password, n);
    hide Received, Stream, Parse, Request;
    var cut := Min(n - |name| - 1, |password|);
    assert n > |name| ==> (password[..cut] == password <==> cut == |password|);
  }

  // A name with a newline in it is taken for what stands before it, and the
  // password for what stands behind it.
  lemma NewlineInName(before: string, behind: string, password: string, results: seq<Read>)
    requires PlainName(before) && '\n' !in behind
    requires |Request(before + "\n" + behind, password)| <= 4096
    requires Stream(results) == Some(Request(before + "\n" + behind, password))
    ensures Received(results) == if |StripCr(behind)| <= 256 then Some(Login(before, StripCr(behind))) else None
  {
    ReceivedByTotal(results);
    hide Received, Stream, Request, Parse;
    ParseNewline(before, behind, password);
  }

  lemma ParseNewline(before: string, behind: string, password: string)
    requires PlainName(before) && '\n' !in behind
    ensures Parse(Request(before + "\n" + behind, password))
      == if |StripCr(behind)| <= 256 then Some(Login(before, StripCr(behind))) else None
  {
    var s := Request(before + "\n" + behind, password);
    hide Request;
    var first, second := |before|, |before| + 1 + |behind|;
    PartsOfThree(before, behind, password, s);
    FoundAt(s, '\n', 0, first);
    FoundAt(s, '\n', first + 1, second);
    hide FindFrom;
  }

  lemma PartsOfThree(a: string, b: string, c: string, s: string)
    requires s == Request(a + "\n" + b, c)
    ensures |a| + 1 + |b| < |s| && s[..|a|] == a && s[|a|] == '\n'
    ensures s[|a| + 1..|a| + 1 + |b|] == b && s[|a| + 1 + |b|] == '\n'
    ensures forall k :: 0 <= k < |a| ==> s[k] == a[k]
    ensures forall k :: |a| < k <= |a| + |b| ==> s[k] == b[k - |a| - 1]
  {
    assert s == a + ("\n" + (b + ("\n" + (c + "\n"))));
  }

  // Such a name: "a", a newline, "b".
  lemma NewlineLosesName()
    ensures Received([Data("a\nb\nx\n"), Eof]) == Some(Login("a", "b"))
  {
    var s := "a\nb\nx\n";
    var results := [Data(s), Eof];
    assert s == Request("a" + "\n" + "b", "x") && s + "" == s;
    assert results[1..] == [Eof] && Stream([Eof]) == Some("");
    hide Request, Received;
    NewlineInName("a", "b", "x", results);
  }
}
