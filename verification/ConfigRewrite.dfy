// The boot configuration rewrite of the display setup: an awk filter with a
// block flag and two appends (scripts/setup-internal-drm-display.sh).
module ConfigRewrite {
  import opened Text

  const BEGIN_DISPLAY: string := "# BEGIN cardputer-zero-internal-drm-display"
  const END_DISPLAY: string := "# END cardputer-zero-internal-drm-display"
  const BEGIN_EXPERIMENTAL: string := "# BEGIN cardputer-zero-kms-experimental"
  const END_EXPERIMENTAL: string := "# END cardputer-zero-kms-experimental"
  const DISPLAY_OVERLAY: string := "dtoverlay=cardputerzero-kms-display"
  const EXPERIMENTAL_OVERLAY: string := "dtoverlay=cardputerzero-kms-experimental"
  const BASE_OVERLAY: string := "dtoverlay=cardputerzero-overlay"

  function Comment(text: string): string { "# " + text }

  function Block(): (lines: seq<string>)
    ensures |lines| == 6
  {
    [BEGIN_DISPLAY,
     Comment("Expose the Cardputer Zero internal ST7789 display as a DRM/KMS output."),
     Comment("The base overlay remains responsible for keyboard, audio, m5ioe1, sensors,"),
     Comment("and backlight."),
     DISPLAY_OVERLAY,
     END_DISPLAY]
  }

  function Base(): seq<string> { [Comment("cardputer-zero-base-overlay"), BASE_OVERLAY] }

  // A line that sets one overlay: blanks around it, or parameters behind a comma.
  predicate SetsOverlay(line: string, overlay: string) {
    var body := SkipBlanks(line);
    overlay <= body &&
    var rest := body[|overlay|..];
    SkipBlanks(rest) == "" || rest[0] == ','
  }

  datatype Kind = Begin | End | Overlay | Plain

  function KindOf(line: string): Kind {
    if line == BEGIN_DISPLAY then Begin
    else if line == END_DISPLAY then End
    else if line == BEGIN_EXPERIMENTAL then Begin
    else if line == END_EXPERIMENTAL then End
    else if SetsOverlay(line, DISPLAY_OVERLAY) || SetsOverlay(line, EXPERIMENTAL_OVERLAY) then Overlay
    else Plain
  }

  function FlagAfter(lines: seq<string>, inBlock: bool): bool
    decreases |lines|
  {
    if lines == [] then inBlock
    else
      var flag := if KindOf(lines[0]).Begin? then true else if KindOf(lines[0]).End? then false else inBlock;
      FlagAfter(lines[1..], flag)
  }

  // The awk filter: managed blocks and managed overlay lines are dropped.
  function Strip(lines: seq<string>, inBlock: bool): seq<string>
    decreases |lines|
  {
    if lines == [] then []
    else match KindOf(lines[0])
      case Begin => Strip(lines[1..], true)
      case End => Strip(lines[1..], false)
      case Overlay => Strip(lines[1..], inBlock)
      case Plain => (if inBlock then [] else [lines[0]]) + Strip(lines[1..], inBlock)
  }

  predicate HasBase(lines: seq<string>) {
    exists k :: 0 <= k < |lines| && BASE_OVERLAY <= lines[k]
  }

  function Rewrite(lines: seq<string>): seq<string> {
    var kept := Strip(lines, false) + Block();
    if HasBase(kept) then kept else kept + Base()
  }

  method StripManaged(lines: seq<string>) returns (kept: seq<string>)
    ensures kept == Strip(lines, false)
  {
    hide KindOf;
    kept := [];
    var inBlock := false;
    for n := 0 to |lines|
      invariant kept + Strip(lines[n..], inBlock) == Strip(lines, false)
    {
      assert lines[n..][0] == lines[n] && lines[n..][1..] == lines[n + 1..];
      var line := lines[n];
      match KindOf(line) {
        case Begin => inBlock := true;
        case End => inBlock := false;
        case Overlay =>
        case Plain =>
          if !inBlock {
            Assoc(kept, [line], Strip(lines[n + 1..], inBlock));
            kept := kept + [line];
          }
      }
    }
  }

  method GrepBase(lines: seq<string>) returns (found: bool)
    ensures found == HasBase(lines)
  {
    for n := 0 to |lines|
      invariant forall k :: 0 <= k < n ==> !(BASE_OVERLAY <= lines[k])
    {
      if BASE_OVERLAY <= lines[n] {
        return true;
      }
    }
    return false;
  }

  method RewriteConfig(lines: seq<string>) returns (config: seq<string>)
    ensures config == Rewrite(lines)
  {
    hide HasBase, Block, Base;
    config := StripManaged(lines);
    config := config + Block();
    var found := GrepBase(config);
    if !found {
      config := config + Base();
    }
  }

  // ---- what is kept -----------------------------------------------------------------

  // Whether a managed block is open before line `i`: a begin line stands before
  // it with no end line in between.
  predicate BlockOpen(lines: seq<string>, i: nat)
    requires i <= |lines|
  {
    exists j :: 0 <= j < i && KindOf(lines[j]).Begin? && forall k :: j < k < i ==> !KindOf(lines[k]).End?
  }

  // The first `n` lines without the managed ones, in order.
  function Unmanaged(lines: seq<string>, n: nat): seq<string>
    requires n <= |lines|
  {
    if n == 0 then []
    else Unmanaged(lines, n - 1) +
         if KindOf(lines[n - 1]).Plain? && !BlockOpen(lines, n - 1) then [lines[n - 1]] else []
  }

  lemma BlockOpenStep(lines: seq<string>, n: nat)
    requires n < |lines|
    ensures BlockOpen(lines, n + 1) <==> KindOf(lines[n]).Begin? || (BlockOpen(lines, n) && !KindOf(lines[n]).End?)
  {
    hide KindOf;
    if BlockOpen(lines, n + 1) {
      var j :| 0 <= j < n + 1 && KindOf(lines[j]).Begin? && forall k :: j < k < n + 1 ==> !KindOf(lines[k]).End?;
      assert j < n ==> BlockOpen(lines, n) && !KindOf(lines[n]).End?;
    }
    if BlockOpen(lines, n) && !KindOf(lines[n]).End? {
      var j :| 0 <= j < n && KindOf(lines[j]).Begin? && forall k :: j < k < n ==> !KindOf(lines[k]).End?;
      assert forall k :: j < k < n + 1 ==> !KindOf(lines[k]).End?;
    }
  }

  lemma {:induction false} StripFrom(lines: seq<string>, n: nat)
    requires n <= |lines|
    ensures Unmanaged(lines, n) + Strip(lines[n..], BlockOpen(lines, n)) == Unmanaged(lines, |lines|)
    decreases |lines| - n
  {
    hide KindOf, BlockOpen;
    if n == |lines| {
      assert Unmanaged(lines, n) + [] == Unmanaged(lines, n);
    } else {
      BlockOpenStep(lines, n);
      StripFrom(lines, n + 1);
      assert lines[n..][0] == lines[n] && lines[n..][1..] == lines[n + 1..];
      var rest := Strip(lines[n + 1..], BlockOpen(lines, n + 1));
      if KindOf(lines[n]).Plain? && !BlockOpen(lines, n) {
        Assoc(Unmanaged(lines, n), [lines[n]], rest);
      } else {
        assert Unmanaged(lines, n) + [] == Unmanaged(lines, n);
        assert Strip(lines[n..], BlockOpen(lines, n)) == rest;
      }
    }
  }

  // The filter keeps exactly the unmanaged lines, in order.
  lemma StripKeepsUnmanaged(lines: seq<string>)
    ensures Strip(lines, false) == Unmanaged(lines, |lines|)
  {
    StripFrom(lines, 0);
    assert lines[0..] == lines && !BlockOpen(lines, 0);
    assert [] + Strip(lines, false) == Strip(lines, false);
  }

  // ---- fixpoint -----------------------------------------------------------------------

  predicate AllPlain(lines: seq<string>) {
    forall k :: 0 <= k < |lines| ==> KindOf(lines[k]).Plain?
  }

  lemma {:induction false} StripIsPlain(lines: seq<string>, inBlock: bool)
    ensures AllPlain(Strip(lines, inBlock))
    decreases |lines|
  {
    hide KindOf;
    if lines != [] {
      match KindOf(lines[0])
      case Begin => StripIsPlain(lines[1..], true);
      case End => StripIsPlain(lines[1..], false);
      case Overlay => StripIsPlain(lines[1..], inBlock);
      case Plain => StripIsPlain(lines[1..], inBlock);
    }
  }

  lemma {:induction false} StripAppend(a: seq<string>, b: seq<string>, inBlock: bool)
    ensures Strip(a + b, inBlock) == Strip(a, inBlock) + Strip(b, FlagAfter(a, inBlock))
    decreases |a|
  {
    hide KindOf;
    if a == [] {
      assert a + b == b;
    } else {
      assert (a + b)[1..] == a[1..] + b;
      match KindOf(a[0])
      case Begin => StripAppend(a[1..], b, true);
      case End => StripAppend(a[1..], b, false);
      case Overlay => StripAppend(a[1..], b, inBlock);
      case Plain => StripAppend(a[1..], b, inBlock);
    }
  }

  lemma {:induction false} StripPlain(lines: seq<string>)
    requires AllPlain(lines)
    ensures Strip(lines, false) == lines && !FlagAfter(lines, false)
  {
    hide KindOf;
    if lines != [] {
      assert forall k :: 0 <= k < |lines[1..]| ==> lines[1..][k] == lines[k + 1];
      StripPlain(lines[1..]);
    }
  }

  lemma BlockKinds()
    ensures KindOf(Block()[0]).Begin? && KindOf(Block()[5]).End?
    ensures KindOf(Block()[1]).Plain? && KindOf(Block()[2]).Plain? && KindOf(Block()[3]).Plain?
    ensures KindOf(Block()[4]).Overlay?
  {
    BeginKind();
    EndKind();
    OverlayKind();
    BlockComments();
    hide KindOf;
    CommentKind(Block()[1]);
    CommentKind(Block()[2]);
    CommentKind(Block()[3]);
  }

  // No marker is as long as one of the comments.
  lemma BlockComments()
    ensures forall k :: 1 <= k <= 3 ==> |Block()[k]| > 43 || |Block()[k]| < 37
    ensures forall k :: 1 <= k <= 3 ==> Block()[k][0] == '#'
  {
  }

  lemma BeginKind()
    ensures KindOf(BEGIN_DISPLAY).Begin?
  {
  }

  lemma EndKind()
    ensures KindOf(END_DISPLAY).End?
  {
    assert BEGIN_DISPLAY[2] == 'B' && END_DISPLAY[2] == 'E';
  }

  // A comment that is none of the markers, told by its length.
  lemma CommentKind(line: string)
    requires line != "" && line[0] == '#' && (|line| > 43 || |line| < 37)
    ensures KindOf(line).Plain?
  {
    assert |BEGIN_DISPLAY| == 43 && |END_DISPLAY| == 41 && |BEGIN_EXPERIMENTAL| == 39 && |END_EXPERIMENTAL| == 37;
    assert DISPLAY_OVERLAY[0] == 'd' && EXPERIMENTAL_OVERLAY[0] == 'd';
    assert SkipBlanks(line) == line;
  }

  lemma OverlayKind()
    ensures KindOf(DISPLAY_OVERLAY).Overlay?
  {
    var line := DISPLAY_OVERLAY;
    assert line[0] == 'd' && BEGIN_DISPLAY[0] == '#' && END_DISPLAY[0] == '#';
    assert BEGIN_EXPERIMENTAL[0] == '#' && END_EXPERIMENTAL[0] == '#';
    assert SkipBlanks(line) == line && line[|line|..] == "";
  }

  lemma BaseKinds()
    ensures AllPlain(Base()) && HasBase(Base())
  {
    CommentKind(Base()[0]);
    BasePlain();
    assert BASE_OVERLAY <= Base()[1];
  }

  lemma BasePlain()
    ensures KindOf(BASE_OVERLAY).Plain?
  {
    var line := BASE_OVERLAY;
    assert line[0] == 'd' && BEGIN_DISPLAY[0] == '#' && END_DISPLAY[0] == '#';
    assert BEGIN_EXPERIMENTAL[0] == '#' && END_EXPERIMENTAL[0] == '#';
    assert SkipBlanks(line) == line;
    assert line[24] == 'o' && DISPLAY_OVERLAY[24] == 'k' && EXPERIMENTAL_OVERLAY[24] == 'k';
  }

  lemma BlockStrips()
    ensures Strip(Block(), false) == [] && !FlagAfter(Block(), false)
  {
    BlockKinds();
    hide KindOf;
    var b := Block();
    StripInside(b[1..5]);
    assert b == [b[0]] + b[1..5] + [b[5]];
    StripAppend([b[0]] + b[1..5], [b[5]], false);
    StripAppend([b[0]], b[1..5], false);
    hide Block;
    assert [b[0]][1..] == [] && [b[5]][1..] == [];
    FlagAppend([b[0]] + b[1..5], [b[5]], false);
    FlagAppend([b[0]], b[1..5], false);
  }

  lemma {:induction false} FlagAppend(a: seq<string>, b: seq<string>, inBlock: bool)
    ensures FlagAfter(a + b, inBlock) == FlagAfter(b, FlagAfter(a, inBlock))
    decreases |a|
  {
    hide KindOf;
    if a == [] {
      assert a + b == b;
    } else {
      assert (a + b)[1..] == a[1..] + b;
      FlagAppend(a[1..], b, if KindOf(a[0]).Begin? then true else if KindOf(a[0]).End? then false else inBlock);
    }
  }

  lemma {:induction false} StripInside(lines: seq<string>)
    requires forall k :: 0 <= k < |lines| ==> !KindOf(lines[k]).Begin? && !KindOf(lines[k]).End?
    ensures Strip(lines, true) == [] && FlagAfter(lines, true)
  {
    hide KindOf;
    if lines != [] {
      assert forall k :: 0 <= k < |lines[1..]| ==> lines[1..][k] == lines[k + 1];
      StripInside(lines[1..]);
    }
  }

  lemma BlockHasNoBase()
    ensures !HasBase(Block())
  {
    var b := Block();
    assert BASE_OVERLAY[0] == 'd';
    BlockComments();
    assert b[0][0] == '#' && b[5][0] == '#';
    assert BASE_OVERLAY[24] == 'o' && b[4][24] == 'k';
  }

  lemma HasBaseAppend(a: seq<string>, b: seq<string>)
    ensures HasBase(a + b) <==> HasBase(a) || HasBase(b)
  {
    var all := a + b;
    if k :| 0 <= k < |a| && BASE_OVERLAY <= a[k] {
      assert all[k] == a[k];
    }
    if k :| 0 <= k < |b| && BASE_OVERLAY <= b[k] {
      assert all[|a| + k] == b[k];
    }
  }

  // The base lines a rewrite adds.
  function Added(lines: seq<string>): seq<string> {
    if HasBase(Strip(lines, false)) then [] else Base()
  }

  lemma RewriteShape(lines: seq<string>)
    ensures Rewrite(lines) == Strip(lines, false) + Block() + Added(lines)
    ensures Strip(Rewrite(lines), false) == Strip(lines, false) + Added(lines)
    ensures HasBase(Strip(Rewrite(lines), false))
  {
    var kept, added := Strip(lines, false), Added(lines);
    hide Strip, FlagAfter, Block, Base, AllPlain, HasBase;
    BlockHasNoBase();
    HasBaseAppend(kept, Block());
    BaseKinds();
    BlockStrips();
    StripIsPlain(lines, false);
    NoneAdded();
    StripPlain(kept);
    StripPlain(added);
    HasBaseAppend(kept, added);
    assert kept + Block() + [] == kept + Block();
    StripAppend(kept + Block(), added, false);
    StripAppend(kept, Block(), false);
    FlagAppend(kept, Block(), false);
    assert kept + [] == kept;
  }

  lemma NoneAdded()
    ensures AllPlain([])
  {
  }

  // Twice is as good as any number of times, and once is enough exactly when
  // the unmanaged lines already bring the base overlay.
  lemma RewriteFixpoint(lines: seq<string>)
    ensures Rewrite(Rewrite(Rewrite(lines))) == Rewrite(Rewrite(lines))
    ensures Rewrite(Rewrite(lines)) == Rewrite(lines) <==> HasBase(Strip(lines, false))
  {
    var once := Rewrite(lines);
    RewriteShape(lines);
    RewriteShape(once);
    RewriteShape(Rewrite(once));
    var kept, added := Strip(lines, false), Added(lines);
    Swapped(kept, added);
    hide Strip, Rewrite, HasBase, Block, Base;
    assert kept + added + [] == kept + added;
    assert kept + [] == kept && kept + Block() + [] == kept + Block();
  }

  // Starting from nothing, the second rewrite moves the base lines of the first.
  lemma EmptyFileMoves()
    ensures Rewrite([]) == Block() + Base()
    ensures Rewrite(Rewrite([])) == Base() + Block() != Rewrite([])
  {
    RewriteShape([]);
    RewriteShape(Rewrite([]));
    RewriteFixpoint([]);
    NothingKept();
    hide Rewrite, Block, Base, HasBase, Strip;
    assert [] + Block() + Base() == Block() + Base() && [] + Base() == Base();
    assert Base() + Block() + [] == Base() + Block();
  }

  lemma NothingKept()
    ensures Strip([], false) == [] && !HasBase([])
  {
  }

  // Base lines behind the block, or before it, make different files.
  lemma Swapped(kept: seq<string>, added: seq<string>)
    requires added == [] || added == Base()
    ensures kept + added + Block() == kept + Block() + added <==> added == []
  {
    if added == [] {
      assert kept + added + Block() == kept + Block() + added;
    } else {
      var n := |kept|;
      assert (kept + added + Block())[n] == Base()[0];
      assert (kept + Block() + added)[n] == Block()[0];
      assert Base()[0][2] == 'c' && Block()[0][2] == 'B';
    }
  }

  // The rewritten file has the managed block once, and nothing else managed.
  lemma OneBlock(lines: seq<string>)
    ensures var config, n := Rewrite(lines), |Strip(lines, false)|;
      && n + 6 <= |config| && config[n..n + 6] == Block()
      && forall k :: 0 <= k < |config| && !(n <= k < n + 6) ==> KindOf(config[k]).Plain?
  {
    RewriteShape(lines);
    StripIsPlain(lines, false);
    BaseKinds();
    hide KindOf, Strip, Base, Block, HasBase, Rewrite;
    var kept, config := Strip(lines, false), Rewrite(lines);
    assert config[|kept|..|kept| + 6] == Block();
  }

  // ---- the same on the text ---------------------------------------------------------------

  // A line that loads an overlay: blanks, the overlay, and blanks or a comma with
  // parameters behind it.
  predicate IsLoading(line: string, a: string, overlay: string, b: string) {
    Blank(a) && line == a + (overlay + b) && (Blank(b) || b[0] == ',')
  }

  ghost predicate Loads(line: string, overlay: string) {
    exists a, b :: IsLoading(line, a, overlay, b)
  }

  // What the patterns of the script match is this text.
  lemma LoadsIff(line: string, overlay: string)
    requires overlay != "" && !StartsBlank(overlay)
    ensures SetsOverlay(line, overlay) <==> Loads(line, overlay)
  {
    if a, b :| IsLoading(line, a, overlay, b) {
      SkipsBlanks(a, overlay + b);
      assert (overlay + b)[|overlay|..] == b;
      if Blank(b) {
        assert b + "" == b;
        SkipsBlanks(b, "");
      }
    }
    if SetsOverlay(line, overlay) {
      var a := SkippedBlanks(line);
      var body := SkipBlanks(line);
      var b := body[|overlay|..];
      var blanks := SkippedBlanks(b);
      assert SkipBlanks(b) == "" ==> blanks + "" == blanks;
      assert body == overlay + b;
      assert IsLoading(line, a, overlay, b);
    }
  }

  // Which lines mean something to the filter.
  lemma KindsByText(line: string)
    ensures KindOf(line).Begin? <==>
      line == "# BEGIN cardputer-zero-internal-drm-display" || line == "# BEGIN cardputer-zero-kms-experimental"
    ensures KindOf(line).End? <==>
      line == "# END cardputer-zero-internal-drm-display" || line == "# END cardputer-zero-kms-experimental"
    ensures KindOf(line).Overlay? <==>
      Loads(line, "dtoverlay=cardputerzero-kms-display") || Loads(line, "dtoverlay=cardputerzero-kms-experimental")
  {
    LoadsIff(line, "dtoverlay=cardputerzero-kms-display");
    LoadsIff(line, "dtoverlay=cardputerzero-kms-experimental");
    MarkersDiffer();
    NoMarkerLoads();
    hide SetsOverlay, Loads;
  }

  lemma MarkersDiffer()
    ensures BEGIN_DISPLAY != END_DISPLAY && BEGIN_DISPLAY != END_EXPERIMENTAL
    ensures BEGIN_EXPERIMENTAL != END_DISPLAY && BEGIN_EXPERIMENTAL != END_EXPERIMENTAL
  {
    assert BEGIN_DISPLAY[2] == 'B' && BEGIN_EXPERIMENTAL[2] == 'B';
    assert END_DISPLAY[2] == 'E' && END_EXPERIMENTAL[2] == 'E';
  }

  lemma NoMarkerLoads()
    ensures forall line ::
      line == BEGIN_DISPLAY || line == END_DISPLAY || line == BEGIN_EXPERIMENTAL || line == END_EXPERIMENTAL ==>
        !SetsOverlay(line, DISPLAY_OVERLAY) && !SetsOverlay(line, EXPERIMENTAL_OVERLAY)
  {
    assert DISPLAY_OVERLAY[0] == 'd' && EXPERIMENTAL_OVERLAY[0] == 'd';
    assert BEGIN_DISPLAY[0] == '#' && END_DISPLAY[0] == '#';
    assert BEGIN_EXPERIMENTAL[0] == '#' && END_EXPERIMENTAL[0] == '#';
  }

  // The script's promise: in the rewritten file the experimental overlay is not
  // loaded, the display overlay is, by one line, and the base overlay is set.
  lemma OverlaysInForce(lines: seq<string>)
    ensures var config, at := Rewrite(lines), |Strip(lines, false)| + 4;
      && at < |config| && config[at] == "dtoverlay=cardputerzero-kms-display"
      && (forall k :: 0 <= k < |config| ==> !Loads(config[k], "dtoverlay=cardputerzero-kms-experimental"))
      && (forall k :: 0 <= k < |config| && k != at ==> !Loads(config[k], "dtoverlay=cardputerzero-kms-display"))
      && exists k :: 0 <= k < |config| && "dtoverlay=cardputerzero-overlay" <= config[k]
  {
    OneBlock(lines);
    RewriteShape(lines);
    BaseStays(lines);
    var config, n := Rewrite(lines), |Strip(lines, false)|;
    BlockLoads();
    hide Rewrite, Strip, KindOf, Loads, Base, Block, Added;
    forall k | n <= k < n + 6
      ensures config[k] == Block()[k - n]
    {
      assert config[k] == config[n..n + 6][k - n];
    }
    forall k | 0 <= k < |config| && !(n <= k < n + 6)
      ensures !Loads(config[k], "dtoverlay=cardputerzero-kms-experimental")
      ensures !Loads(config[k], "dtoverlay=cardputerzero-kms-display")
    {
      KindsByText(config[k]);
    }
  }

  lemma BlockLoads()
    ensures Block()[4] == "dtoverlay=cardputerzero-kms-display"
    ensures forall j :: 0 <= j < 6 ==> !Loads(Block()[j], "dtoverlay=cardputerzero-kms-experimental")
    ensures forall j :: 0 <= j < 6 && j != 4 ==> !Loads(Block()[j], "dtoverlay=cardputerzero-kms-display")
  {
    BlockKinds();
    DisplayIsNotExperimental();
    BlockOverlay();
    hide KindOf, Loads, Block;
    forall j | 0 <= j < 6 && j != 4
      ensures !Loads(Block()[j], "dtoverlay=cardputerzero-kms-experimental")
      ensures !Loads(Block()[j], "dtoverlay=cardputerzero-kms-display")
    {
      KindsByText(Block()[j]);
      assert !KindOf(Block()[j]).Overlay?;
    }
  }

  lemma BlockOverlay()
    ensures Block()[4] == DISPLAY_OVERLAY == "dtoverlay=cardputerzero-kms-display"
  {
  }

  lemma DisplayIsNotExperimental()
    ensures !Loads(DISPLAY_OVERLAY, "dtoverlay=cardputerzero-kms-experimental")
  {
    LoadsIff(DISPLAY_OVERLAY, "dtoverlay=cardputerzero-kms-experimental");
    assert DISPLAY_OVERLAY[0] == 'd' && SkipBlanks(DISPLAY_OVERLAY) == DISPLAY_OVERLAY;
    assert |EXPERIMENTAL_OVERLAY| > |DISPLAY_OVERLAY|;
  }

  lemma BaseStays(lines: seq<string>)
    ensures exists k :: 0 <= k < |Rewrite(lines)| && "dtoverlay=cardputerzero-overlay" <= Rewrite(lines)[k]
  {
    var kept := Strip(lines, false) + Block();
    BaseKinds();
    HasBaseAppend(kept, Base());
    hide Strip, Block, Base;
    assert HasBase(Rewrite(lines));
    var k :| 0 <= k < |Rewrite(lines)| && BASE_OVERLAY <= Rewrite(lines)[k];
  }

  // Blocks of either name go with everything in them, wherever they stand behind a
  // part of the file that leaves none open.
  lemma BlocksDropped(before: seq<string>, first: string, inside: seq<string>, last: string, after: seq<string>)
    requires first == "# BEGIN cardputer-zero-internal-drm-display"
      || first == "# BEGIN cardputer-zero-kms-experimental"
    requires last == "# END cardputer-zero-internal-drm-display"
      || last == "# END cardputer-zero-kms-experimental"
    requires !FlagAfter(before, false)
    requires forall k :: 0 <= k < |inside| ==> !KindOf(inside[k]).Begin? && !KindOf(inside[k]).End?
    ensures Strip(before + ([first] + (inside + ([last] + after))), false) == Strip(before, false) + Strip(after, false)
  {
    KindsByText(first);
    KindsByText(last);
    BlockSkipped(before, first, inside, last, after);
  }

  lemma BlockSkipped(before: seq<string>, first: string, inside: seq<string>, last: string, after: seq<string>)
    requires KindOf(first).Begin? && KindOf(last).End? && !FlagAfter(before, false)
    requires forall k :: 0 <= k < |inside| ==> !KindOf(inside[k]).Begin? && !KindOf(inside[k]).End?
    ensures Strip(before + ([first] + (inside + ([last] + after))), false) == Strip(before, false) + Strip(after, false)
  {
    hide KindOf, FlagAfter;
    var rest, end := inside + ([last] + after), [last] + after;
    StripAppend(before, [first] + rest, false);
    assert ([first] + rest)[0] == first && ([first] + rest)[1..] == rest;
    StripAppend(inside, end, true);
    StripInside(inside);
    assert end[0] == last && end[1..] == after;
    assert [] + Strip(end, true) == Strip(end, true);
  }
}
