// Clipped painting into a pixel array: the two forms of `fill_rect`, and text
// (greeter/zero-greeter-wayland.cpp, polkit-agent/zero-polkit-prompt-wayland.cpp).
module Canvas {
  import opened Text

  const WIDTH: nat := 320
  const HEIGHT: nat := 170

  // The pixel stored at index `p` lies in column `p % WIDTH` of row `p / WIDTH`.
  predicate InRect(p: nat, x: int, y: int, w: int, h: int) {
    x <= p % WIDTH < x + w && y <= p / WIDTH < y + h
  }

  // The picture with the part of a rectangle that is on the screen in one colour.
  function Painted(picture: seq<nat>, x: int, y: int, w: int, h: int, value: nat): (r: seq<nat>)
    ensures |r| == |picture|
    ensures forall p :: 0 <= p < |picture| ==> r[p] == if InRect(p, x, y, w, h) then value else picture[p]
  {
    seq(|picture|, p requires 0 <= p < |picture| => if InRect(p, x, y, w, h) then value else picture[p])
  }

  function Clamp(v: int, lo: int, hi: int): int
    requires lo <= hi
  {
    if v < lo then lo else if v > hi then hi else v
  }

  function Max(a: int, b: int): int { if a < b then b else a }

  // Both loops of `fill_rect` over the columns and rows already clipped.
  method FillClipped(pixels: array<nat>, x0: int, y0: int, x1: int, y1: int, value: nat)
    requires pixels.Length == WIDTH * HEIGHT
    requires 0 <= x0 && 0 <= y0 && x1 <= WIDTH && y1 <= HEIGHT
    modifies pixels
    ensures pixels[..] == Painted(old(pixels[..]), x0, y0, x1 - x0, y1 - y0, value)
  {
    ghost var before := pixels[..];
    var yy := y0;
    while yy < y1
      invariant y0 <= yy && (yy <= y1 || yy == y0)
      invariant forall p :: 0 <= p < pixels.Length ==>
        pixels[p] == if InRect(p, x0, y0, x1 - x0, yy - y0) then value else before[p]
    {
      FillRow(pixels, x0, x1, yy, value);
      yy := yy + 1;
    }
  }

  method FillRow(pixels: array<nat>, x0: int, x1: int, yy: int, value: nat)
    requires pixels.Length == WIDTH * HEIGHT
    requires 0 <= x0 && 0 <= yy < HEIGHT && x1 <= WIDTH
    modifies pixels
    ensures forall p :: 0 <= p < pixels.Length ==>
      pixels[p] == if InRect(p, x0, yy, x1 - x0, 1) then value else old(pixels[p])
  {
    var xx := x0;
    while xx < x1
      invariant x0 <= xx && (xx <= x1 || xx == x0)
      invariant forall p :: 0 <= p < pixels.Length ==>
        pixels[p] == if InRect(p, x0, yy, xx - x0, 1) then value else old(pixels[p])
    {
      pixels[yy * WIDTH + xx] := value;
      xx := xx + 1;
    }
  }

  // The greeter clamps both corners.
  method FillRect(pixels: array<nat>, x: int, y: int, w: int, h: int, value: nat)
    requires pixels.Length == WIDTH * HEIGHT
    modifies pixels
    ensures pixels[..] == Painted(old(pixels[..]), x, y, w, h, value)
  {
    var x0 := Clamp(x, 0, WIDTH);
    var y0 := Clamp(y, 0, HEIGHT);
    var x1 := Clamp(x + w, 0, WIDTH);
    var y1 := Clamp(y + h, 0, HEIGHT);
    ghost var before := pixels[..];
    FillClipped(pixels, x0, y0, x1, y1, value);
    assert pixels[..] == Painted(before, x, y, w, h, value);
  }

  // The prompt takes the larger of the low corners and the smaller of the high
  // ones: the same pixels, though not the same bounds.
  method FillRectMinMax(pixels: array<nat>, x: int, y: int, w: int, h: int, value: nat)
    requires pixels.Length == WIDTH * HEIGHT
    modifies pixels
    ensures pixels[..] == Painted(old(pixels[..]), x, y, w, h, value)
  {
    var x0 := Max(0, x);
    var y0 := Max(0, y);
    var x1 := Min(WIDTH, x + w);
    var y1 := Min(HEIGHT, y + h);
    ghost var before := pixels[..];
    FillClipped(pixels, x0, y0, x1, y1, value);
    assert pixels[..] == Painted(before, x, y, w, h, value);
  }

  // ---- text ---------------------------------------------------------------------

  // Whether a glyph has a bit in a row (0 to 6) and column (0 to 4).
  type Font = (char, nat, nat) -> bool

  // Which cell, in units of `scale`, the pixel at `p` lies in, counted from (x, y).
  function CellX(p: nat, x: int, scale: int): int
    requires scale > 0
  {
    (p % WIDTH - x) / scale
  }

  function CellY(p: nat, y: int, scale: int): int
    requires scale > 0
  {
    (p / WIDTH - y) / scale
  }

  // A pixel shows text when its cell is a set bit of the glyph there: glyphs are
  // six cells apart, five wide and seven high.
  predicate Lit(p: nat, x: int, y: int, text: string, scale: int, font: Font)
    requires scale > 0
  {
    var cx, cy := CellX(p, x, scale), CellY(p, y, scale);
    && 0 <= cx && cx / 6 < |text| && cx % 6 < 5 && 0 <= cy < 7
    && font(text[cx / 6], cy, cx % 6)
  }

  // `d / scale == a` says that `d` lies in the `a`-th interval of length `scale`.
  lemma IntervalOf(d: int, scale: int, a: int)
    requires scale > 0
    ensures d / scale == a <==> a * scale <= d < a * scale + scale
  {
    assert d == (d / scale) * scale + d % scale;
    if a * scale <= d < a * scale + scale {
      SameQuotient(d / scale, a, d % scale, d - a * scale, scale);
    }
  }

  lemma SameQuotient(q: int, a: int, r: int, s: int, scale: int)
    requires 0 <= r < scale && 0 <= s < scale && q * scale + r == a * scale + s
    ensures q == a
  {
    assert (q - a) * scale == s - r;
    MultipleAtLeast(q - a, scale);
  }

  lemma MultipleAtLeast(d: int, scale: int)
    requires scale > 0
    ensures d >= 1 ==> d * scale >= scale
    ensures d <= -1 ==> d * scale <= -scale
  {
  }

  // The rectangle painted for one bit is one cell.
  lemma CellRect(p: nat, x: int, y: int, scale: int, k: nat, row: nat, col: nat)
    requires scale > 0
    ensures InRect(p, x + k * (6 * scale) + col * scale, y + row * scale, scale, scale)
       <==> CellX(p, x, scale) == 6 * k + col && CellY(p, y, scale) == row
  {
    IntervalOf(p % WIDTH - x, scale, 6 * k + col);
    IntervalOf(p / WIDTH - y, scale, row);
    assert (6 * k + col) * scale == k * (6 * scale) + col * scale;
  }

  // Whether the cell (cx, cy) comes before bit `col` of row `row` of glyph `k` in
  // painting order.
  predicate Earlier(cx: int, cy: int, k: nat, row: nat, col: nat) {
    cx / 6 < k || (cx / 6 == k && (cy < row || (cy == row && cx % 6 < col)))
  }

  predicate LitSoFar(p: nat, x: int, y: int, text: string, scale: int, font: Font, k: nat, row: nat, col: nat)
    requires scale > 0
  {
    Lit(p, x, y, text, scale, font) && Earlier(CellX(p, x, scale), CellY(p, y, scale), k, row, col)
  }

  // Everything painted so far, as the picture it makes of `before`.
  ghost predicate Shows(
      picture: seq<nat>, before: seq<nat>, x: int, y: int, text: string, color: nat, scale: int, font: Font,
      k: nat, row: nat, col: nat)
    requires scale > 0
  {
    && |picture| == |before|
    && forall p :: 0 <= p < |before| ==>
         picture[p] == if LitSoFar(p, x, y, text, scale, font, k, row, col) then color else before[p]
  }

  lemma NextBit(
      picture: seq<nat>, before: seq<nat>, x: int, y: int, text: string, color: nat, scale: int, font: Font,
      k: nat, row: nat, col: nat)
    requires scale > 0 && k < |text| && row < 7 && col < 5
    requires Shows(picture, before, x, y, text, color, scale, font, k, row, col)
    ensures var cell := Painted(picture, x + k * (6 * scale) + col * scale, y + row * scale, scale, scale, color);
      Shows(if font(text[k], row, col) then cell else picture, before, x, y, text, color, scale, font, k, row, col + 1)
  {
    hide CellX, CellY, InRect;
    forall p | 0 <= p < |before|
      ensures InRect(p, x + k * (6 * scale) + col * scale, y + row * scale, scale, scale)
         <==> CellX(p, x, scale) == 6 * k + col && CellY(p, y, scale) == row
    {
      CellRect(p, x, y, scale, k, row, col);
    }
  }

  lemma NextRow(
      picture: seq<nat>, before: seq<nat>, x: int, y: int, text: string, color: nat, scale: int, font: Font,
      k: nat, row: nat)
    requires scale > 0
    requires Shows(picture, before, x, y, text, color, scale, font, k, row, 5)
    ensures Shows(picture, before, x, y, text, color, scale, font, k, row + 1, 0)
  {
    hide CellX, CellY;
  }

  lemma NextGlyph(
      picture: seq<nat>, before: seq<nat>, x: int, y: int, text: string, color: nat, scale: int, font: Font, k: nat)
    requires scale > 0
    requires Shows(picture, before, x, y, text, color, scale, font, k, 7, 0)
    ensures Shows(picture, before, x, y, text, color, scale, font, k + 1, 0, 0)
  {
    hide CellX, CellY;
  }

  // The loops of both `draw_text`s; `prompt` picks the form of `fill_rect`.
  method DrawGlyphs(pixels: array<nat>, x: int, y: int, text: string, color: nat, scale: int, font: Font, prompt: bool)
    requires pixels.Length == WIDTH * HEIGHT
    modifies pixels
    ensures scale > 0 ==>
      forall p :: 0 <= p < pixels.Length ==>
        pixels[p] == if Lit(p, x, y, text, scale, font) then color else old(pixels[p])
    ensures scale <= 0 ==> pixels[..] == old(pixels[..])
  {
    hide Lit, LitSoFar, Shows;
    var cursor := x;
    ghost var before := pixels[..];
    if scale > 0 {
      ShowsNothing(before, x, y, text, color, scale, font);
    }
    for k := 0 to |text|
      invariant cursor == x + k * (6 * scale)
      invariant scale > 0 ==> Shows(pixels[..], before, x, y, text, color, scale, font, k, 0, 0)
      invariant scale <= 0 ==> pixels[..] == before
    {
      for row := 0 to 7
        invariant scale > 0 ==> Shows(pixels[..], before, x, y, text, color, scale, font, k, row, 0)
        invariant scale <= 0 ==> pixels[..] == before
      {
        for col := 0 to 5
          invariant scale > 0 ==> Shows(pixels[..], before, x, y, text, color, scale, font, k, row, col)
          invariant scale <= 0 ==> pixels[..] == before
        {
          if scale > 0 {
            NextBit(pixels[..], before, x, y, text, color, scale, font, k, row, col);
          }
          if font(text[k], row, col) {
            if prompt {
              FillRectMinMax(pixels, cursor + col * scale, y + row * scale, scale, scale, color);
            } else {
              FillRect(pixels, cursor + col * scale, y + row * scale, scale, scale, color);
            }
          }
        }
        if scale > 0 {
          NextRow(pixels[..], before, x, y, text, color, scale, font, k, row);
        }
      }
      if scale > 0 {
        NextGlyph(pixels[..], before, x, y, text, color, scale, font, k);
      }
      cursor := cursor + 6 * scale;
    }
    if scale > 0 {
      ShowsAll(pixels[..], before, x, y, text, color, scale, font);
      assert forall p :: 0 <= p < pixels.Length ==> pixels[p] == pixels[..][p];
    }
  }

  // The greeter raises the scale to at least 1.
  method DrawText(pixels: array<nat>, x: int, y: int, text: string, color: nat, wantedScale: int, font: Font)
    requires pixels.Length == WIDTH * HEIGHT
    modifies pixels
    ensures forall p :: 0 <= p < pixels.Length ==>
      pixels[p] == if Lit(p, x, y, text, Max(1, wantedScale), font) then color else old(pixels[p])
  {
    DrawGlyphs(pixels, x, y, text, color, Max(1, wantedScale), font, false);
  }

  // The prompt does not: a scale of 0 or less draws nothing.
  method DrawTextPrompt(pixels: array<nat>, x: int, y: int, text: string, color: nat, scale: int, font: Font)
    requires pixels.Length == WIDTH * HEIGHT
    modifies pixels
    ensures scale > 0 ==>
      forall p :: 0 <= p < pixels.Length ==>
        pixels[p] == if Lit(p, x, y, text, scale, font) then color else old(pixels[p])
    ensures scale <= 0 ==> pixels[..] == old(pixels[..])
  {
    DrawGlyphs(pixels, x, y, text, color, scale, font, true);
  }

  lemma ShowsNothing(before: seq<nat>, x: int, y: int, text: string, color: nat, scale: int, font: Font)
    requires scale > 0
    ensures Shows(before, before, x, y, text, color, scale, font, 0, 0, 0)
  {
    hide CellX, CellY;
  }

  lemma ShowsAll(picture: seq<nat>, before: seq<nat>, x: int, y: int, text: string, color: nat, scale: int, font: Font)
    requires scale > 0 && Shows(picture, before, x, y, text, color, scale, font, |text|, 0, 0)
    ensures |picture| == |before|
    ensures forall p :: 0 <= p < |before| ==>
      picture[p] == if Lit(p, x, y, text, scale, font) then color else before[p]
  {
    hide CellX, CellY;
  }
}
