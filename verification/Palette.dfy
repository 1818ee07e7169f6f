/** Colours, the palettes the encoder embeds, and nearest-colour search. */
module Palette {
  import opened Arithmetic

  /** A colour, or a working-buffer cell with three i16 channels. */
  datatype Rgb = Rgb(r: int, g: int, b: int) {
    predicate IsByteColour() {
      0 <= r <= 255 && 0 <= g <= 255 && 0 <= b <= 255
    }

    /** Luminance by 8-bit fixed-point weights that sum to 256. */
    function Luma(): int {
      (r * 54 + g * 183 + b * 19) / 256
    }
  }

  /** v is the luminance of r, g and b by the Rec. 709 weights 0.2126, 0.7152 and 0.0722, to within
      what 8-bit weights and rounding down can be off. */
  predicate IsLuminance(r: int, g: int, b: int, v: int) {
    -15148 < 10000 * v - (2126 * r + 7152 * g + 722 * b) <= 5148
  }

  /** The fixed-point luminance is that of Rec. 709, and gray is its own. */
  lemma {:induction false} LumaIsLuminance(c: Rgb)
    requires c.IsByteColour()
    ensures 0 <= c.Luma() <= 255 && IsLuminance(c.r, c.g, c.b, c.Luma())
    ensures c.r == c.g == c.b ==> c.Luma() == c.r
  {
    var l := c.r * 54 + c.g * 183 + c.b * 19;
    assert 256 * (l / 256) <= l < 256 * (l / 256) + 256;
  }

  predicate Colours(px: seq<Rgb>) {
    forall i :: 0 <= i < |px| ==> px[i].IsByteColour()
  }

  function Square(x: int): (s: int)
    ensures s >= 0 && (s == 0 <==> x == 0)
  {
    if x < 0 then MulNonNegative(-x, -x); x * x else MulNonNegative(x, x); x * x
  }

  function Distance(a: Rgb, b: Rgb): (d: int)
    ensures d >= 0 && (d == 0 <==> a == b)
  {
    Square(a.r - b.r) + Square(a.g - b.g) + Square(a.b - b.b)
  }

  /** The first index attaining the least distance to p. */
  ghost predicate FirstNearest(palette: seq<Rgb>, p: Rgb, i: int) {
    && 0 <= i < |palette|
    && (forall j :: 0 <= j < |palette| ==> Distance(p, palette[i]) <= Distance(p, palette[j]))
    && (forall j :: 0 <= j < i ==> Distance(p, palette[i]) < Distance(p, palette[j]))
  }

  function Nearest(palette: seq<Rgb>, p: Rgb): (i: int)
    requires palette != []
    ensures 0 <= i < |palette|
  {
    if |palette| == 1 then 0
    else
      var last := |palette| - 1;
      var best := Nearest(palette[..last], p);
      if Distance(p, palette[last]) < Distance(p, palette[best]) then last else best
  }

  /** The scan keeps the first true minimum. */
  lemma {:induction false} NearestIsFirst(palette: seq<Rgb>, p: Rgb)
    requires palette != []
    ensures FirstNearest(palette, p, Nearest(palette, p))
  {
    if |palette| > 1 {
      var last := |palette| - 1;
      var front := palette[..last];
      NearestIsFirst(front, p);
      assert forall j :: 0 <= j < last ==> front[j] == palette[j];
    }
  }

  /** Brute-force scan; the index is stored in a byte, and is 0 when there is nothing to scan. */
  method NearestIndex(palette: seq<Rgb>, p: Rgb) returns (bestI: int)
    requires Colours(palette) && p.IsByteColour()
    ensures bestI == if palette == [] then 0 else U8(Nearest(palette, p))
  {
    bestI := 0;
    var bestD := 0xFFFF_FFFF;
    var i := 0;
    while i < |palette|
      invariant 0 <= i <= |palette|
      invariant i == 0 ==> bestI == 0 && bestD == 0xFFFF_FFFF
      invariant i > 0 ==> bestI == U8(Nearest(palette[..i], p))
      invariant i > 0 ==> bestD == Distance(p, palette[Nearest(palette[..i], p)])
    {
      DistanceFitsU32(p, palette[i]);
      NearestExtend(palette, p, i);
      var d := Distance(p, palette[i]);
      if d < bestD {
        bestD := d;
        bestI := U8(i);
      }
      i := i + 1;
    }
    assert palette[..i] == palette;
  }

  lemma {:induction false} NearestExtend(palette: seq<Rgb>, p: Rgb, i: int)
    requires 0 <= i < |palette|
    ensures Nearest(palette[..i + 1], p) ==
      if i == 0 then 0
      else
        var best := Nearest(palette[..i], p);
        if Distance(p, palette[i]) < Distance(p, palette[best]) then i else best
  {
    assert palette[..i + 1][..i] == palette[..i];
  }

  lemma {:induction false} DistanceFitsU32(a: Rgb, b: Rgb)
    requires a.IsByteColour() && b.IsByteColour()
    ensures Distance(a, b) < 0xFFFF_FFFF
  {
    SquareBound(a.r - b.r);
    SquareBound(a.g - b.g);
    SquareBound(a.b - b.b);
  }

  lemma {:induction false} SquareBound(x: int)
    requires -255 <= x <= 255
    ensures Square(x) <= 65025
  {
    var m := if x < 0 then -x else x;
    assert Square(x) == m * m;
    MulMonotone(m, 255, m);
  }

  // ---- Embedded palettes ----

  const MAC_4_COLOR: seq<Rgb> := [Rgb(0xFF, 0xFF, 0xFF), Rgb(0xBF, 0xBF, 0xBF), Rgb(0x80, 0x80, 0x80), Rgb(0, 0, 0)]

  const MAC_16_COLOR: seq<Rgb> := [
    Rgb(0xFF, 0xFF, 0xFF), Rgb(0xFC, 0xF3, 0x05), Rgb(0xFF, 0x64, 0x02), Rgb(0xDD, 0x08, 0x06),
    Rgb(0xF2, 0x08, 0x84), Rgb(0x46, 0x00, 0xA5), Rgb(0x00, 0x00, 0xD4), Rgb(0x02, 0xAB, 0xEA),
    Rgb(0x1F, 0xB7, 0x14), Rgb(0x00, 0x64, 0x11), Rgb(0x56, 0x2C, 0x05), Rgb(0x90, 0x71, 0x3A),
    Rgb(0xC0, 0xC0, 0xC0), Rgb(0x80, 0x80, 0x80), Rgb(0x40, 0x40, 0x40), Rgb(0x00, 0x00, 0x00)]

  const LEVELS: seq<int> := [255, 204, 153, 102, 51, 0]

  /** Slot i of the 256-entry system palette: a 6x6x6 cube, then a 40-step gray ramp. */
  function SystemColour(i: int): (c: Rgb)
    requires 0 <= i < 256
    ensures c.IsByteColour()
  {
    if i < 216 then Rgb(LEVELS[i / 36], LEVELS[i / 6 % 6], LEVELS[i % 6])
    else var v := 255 - (i - 216) * 255 / 39; Rgb(v, v, v)
  }

  /** The cube steps through each channel by 51, red slowest and blue fastest, from full to none ... */
  lemma {:induction false} CubeSteps(r: int, g: int, b: int)
    requires 0 <= r < 6 && 0 <= g < 6 && 0 <= b < 6
    ensures 0 <= 36 * r + 6 * g + b < 256
    ensures SystemColour(36 * r + 6 * g + b) == Rgb(255 - 51 * r, 255 - 51 * g, 255 - 51 * b)
  {
    hide SystemColour;
    CubeSlot(r, g, b);
    LevelAt(r);
    LevelAt(g);
    LevelAt(b);
  }

  lemma {:induction false} LevelAt(i: int)
    requires 0 <= i < 6
    ensures LEVELS[i] == 255 - 51 * i
  {
    assert i == 0 || i == 1 || i == 2 || i == 3 || i == 4 || i == 5;
  }

  /** ... and the ramp from white to black in 39 even steps, rounded to the lighter. */
  lemma {:induction false} RampSteps(i: int)
    requires 0 <= i < 40
    ensures var c := SystemColour(216 + i); c.r == c.g == c.b && 0 <= 39 * c.r - 255 * (39 - i) < 39
  {
  }

  /** The colour tables run from white to black. */
  lemma {:induction false} TablesWhiteToBlack()
    ensures MAC_4_COLOR[0] == MAC_16_COLOR[0] == SystemColour(0) == Rgb(255, 255, 255)
    ensures MAC_4_COLOR[3] == MAC_16_COLOR[15] == SystemColour(255) == Rgb(0, 0, 0)
  {
    CubeSteps(0, 0, 0);
    RampSteps(39);
  }

  function MacSystemPalette(): (palette: seq<Rgb>)
    ensures |palette| == 256
    ensures Colours(palette)
  {
    var palette := seq(256, i requires 0 <= i < 256 => SystemColour(i));
    assert forall i :: 0 <= i < |palette| ==> palette[i] == SystemColour(i);
    palette
  }

  /** The i-th of n > 1 evenly spaced levels. */
  function GrayLevel(n: int, i: int): (v: int)
    requires n > 1 && 0 <= i < n
    ensures 0 <= v <= 255
    ensures i == 0 ==> v == 0
    ensures i == n - 1 ==> v == 255
  {
    DivAtMost(i * 255, n - 1, 255);
    DivModUnique(n - 1, 255, 0);
    i * 255 / (n - 1)
  }

  /** n evenly spaced grays from black to white; a single entry is white. */
  function GrayRamp(n: nat): (ramp: seq<Rgb>)
    ensures |ramp| == n
    ensures n > 0 ==> ramp[n - 1] == Rgb(255, 255, 255)
    ensures Colours(ramp)
    ensures n > 1 ==> ramp[0] == Rgb(0, 0, 0)
  {
    if n == 0 then []
    else if n == 1 then [Rgb(255, 255, 255)]
    else seq(n, i requires 0 <= i < n => Rgb(GrayLevel(n, i), GrayLevel(n, i), GrayLevel(n, i)))
  }

  lemma {:induction false} CubeIndex(r: int, g: int, b: int)
    requires 0 <= r < 6 && 0 <= g < 6 && 0 <= b < 6
    ensures var i := 36 * r + 6 * g + b; 0 <= i < 216 && i / 36 == r && i / 6 % 6 == g && i % 6 == b
  {
    var i, q := 36 * r + 6 * g + b, 6 * r + g;
    DivModUnique(6, q, b);
    DivModUnique(6, r, g);
    DivModUnique(36, r, 6 * g + b);
    assert i == q * 6 + b && i == r * 36 + (6 * g + b) && q == r * 6 + g;
  }

  lemma {:induction false} CubeSlot(r: int, g: int, b: int)
    requires 0 <= r < 6 && 0 <= g < 6 && 0 <= b < 6
    ensures 0 <= 36 * r + 6 * g + b < 256
    ensures SystemColour(36 * r + 6 * g + b) == Rgb(LEVELS[r], LEVELS[g], LEVELS[b])
  {
    CubeIndex(r, g, b);
  }

  ghost predicate Filled(out: seq<Rgb>, n: int) {
    |out| == 256 && n <= 256 && forall i :: 0 <= i < n ==> out[i] == SystemColour(i)
  }

  /** Cube first, red slowest, then the ramp. */
  method BuildPalette() returns (out: array<Rgb>)
    ensures fresh(out) && out[..] == MacSystemPalette()
  {
    out := new Rgb[256](_ => Rgb(0, 0, 0));
    var idx := 0;
    for r := 0 to 6
      invariant idx == 36 * r && Filled(out[..], idx)
    {
      for g := 0 to 6
        invariant idx == 36 * r + 6 * g && Filled(out[..], idx)
      {
        for b := 0 to 6
          invariant idx == 36 * r + 6 * g + b && Filled(out[..], idx)
        {
          CubeSlot(r, g, b);
          out[idx] := Rgb(LEVELS[r], LEVELS[g], LEVELS[b]);
          idx := idx + 1;
        }
      }
    }
    FillRamp(out, idx);
  }

  lemma {:induction false} RampSlot(i: int)
    requires 0 <= i < 40
    ensures var v := 255 - U8(i * 255 / 39); SystemColour(216 + i) == Rgb(v, v, v)
  {
  }

  method FillRamp(out: array<Rgb>, start: int)
    requires start == 216 && Filled(out[..], start)
    modifies out
    ensures out[..] == MacSystemPalette()
  {
    hide SystemColour;
    var idx := start;
    for i := 0 to 40
      invariant idx == start + i && Filled(out[..], idx)
    {
      RampSlot(i);
      var v := 255 - U8(i * 255 / 39);
      out[idx] := Rgb(v, v, v);
      idx := idx + 1;
    }
  }

  method BuildGrayRamp(n: nat) returns (out: array<Rgb>)
    ensures fresh(out) && out[..] == GrayRamp(n)
  {
    out := new Rgb[n](_ => Rgb(0, 0, 0));
    if n == 1 {
      out[0] := Rgb(255, 255, 255);
      return;
    }
    var i := 0;
    while i < n
      invariant 0 <= i <= n
      invariant forall j :: 0 <= j < i ==> out[j] == GrayRamp(n)[j]
    {
      assert GrayLevel(n, i) == i * 255 / (n - 1);
      var v := U8(i * 255 / (n - 1));
      out[i] := Rgb(v, v, v);
      i := i + 1;
    }
  }
}
