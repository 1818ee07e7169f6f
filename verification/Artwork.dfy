/** The artwork path: dither a decoded image for the requested depth and encode it as a picture. */
module Artwork {
  import opened Wrappers
  import opened Arithmetic
  import opened Bits
  import opened Grid
  import opened Diffusion
  import opened ErrorLedger
  import opened Palette
  import opened PixelRows
  import opened PictFormat
  import opened PictRoundTrip
  import opened PictEncoder
  import Atkinson
  import FloydSteinberg
  import OrderedBayer
  import PaletteDither

  datatype Depth = D1 | D2 | D4 | D8 | D24

  datatype Mode = Gray | Color

  datatype ArtworkError = Pict(e: PictError) | InvalidCombination

  /** Depth and mode pairs with an encoder. */
  predicate Supported(depth: Depth, mode: Option<Mode>) {
    depth == D1 || depth == D8 || depth == D24 || mode.Some?
  }

  function PixelAt(rgb: seq<byte>, i: nat): (c: Rgb)
    requires 3 * i + 2 < |rgb|
    ensures c.IsByteColour()
  {
    Rgb(rgb[3 * i], rgb[3 * i + 1], rgb[3 * i + 2])
  }

  function Pixels(rgb: seq<byte>): (px: seq<Rgb>)
    ensures |px| == |rgb| / 3
    ensures Colours(px)
    ensures forall i :: 0 <= i < |px| ==> px[i] == PixelAt(rgb, i)
  {
    var px := seq<Rgb>(|rgb| / 3, i requires 0 <= i < |rgb| / 3 => PixelAt(rgb, i));
    assert forall i :: 0 <= i < |px| ==> px[i] == PixelAt(rgb, i);
    px
  }

  function Grays(rgb: seq<byte>): (gray: seq<int>)
    ensures |gray| == |rgb| / 3
    ensures Bytes(gray)
    ensures forall i :: 0 <= i < |gray| ==> IsLuminance(rgb[3 * i], rgb[3 * i + 1], rgb[3 * i + 2], gray[i])
  {
    var px := Pixels(rgb);
    var gray := seq<int>(|px|, i requires 0 <= i < |px| => px[i].Luma());
    assert forall i :: 0 <= i < |gray| ==>
      0 <= gray[i] <= 255 && IsLuminance(rgb[3 * i], rgb[3 * i + 1], rgb[3 * i + 2], gray[i]) by {
      forall i | 0 <= i < |gray|
        ensures 0 <= gray[i] <= 255 && IsLuminance(rgb[3 * i], rgb[3 * i + 1], rgb[3 * i + 2], gray[i])
      {
        LumaIsLuminance(PixelAt(rgb, i));
      }
    }
    gray
  }

  ghost predicate BayerDrawn(w: int, h: int, gray: seq<int>, px: seq<int>)
    requires 0 <= w && 0 <= h && |gray| == Area(w, h)
  {
    |px| == |gray| && forall c :: 0 <= c < |px| ==> px[c] == OrderedBayer.BayerIndex(4, Col(w, c), Row(w, c), gray[c])
  }

  ghost predicate GrayDrawn(w: int, h: int, gray: seq<int>, levels: int, px: seq<int>)
    requires 0 <= w && 0 <= h && |gray| == Area(w, h) && levels >= 2
  {
    |px| == |gray| &&
    forall c :: 0 <= c < |px| ==> px[c] == FloydSteinberg.GrayPicker(levels, Image(w, h, gray))(Col(w, c), Row(w, c))
  }

  ghost predicate ColourDrawn(w: int, h: int, rgb: seq<Rgb>, palette: seq<Rgb>, px: seq<int>)
    requires 0 <= w && 0 <= h && |rgb| == Area(w, h) && 0 < |palette| <= 256
  {
    |px| == |rgb| &&
    forall c :: 0 <= c < |px| ==> px[c] == PaletteDither.Picker(palette, Image(w, h, rgb))(Col(w, c), Row(w, c))
  }

  /** What the picture for a depth and mode must show: size, palette and dithered pixels. */
  ghost predicate Depicts(depth: Depth, mode: Option<Mode>, w: int, h: int, rgb: seq<byte>, p: Picture)
    requires 0 <= w && 0 <= h && |rgb| == 3 * Area(w, h)
  {
    if depth == D24 then p == Direct(w, h, rgb)
    else if depth == D1 then
      p.Bitmap? && p == Bitmap(w, h, p.bits) && Atkinson.Packed(Image(w, h, Grays(rgb)), p.bits, h, 0)
    else
      && p.Indexed?
      && p == Indexed(w, h, PixelSize(depth), Clut(depth, mode), p.px)
      && if mode != Some(Gray) then ColourDrawn(w, h, Pixels(rgb), Clut(depth, mode), p.px)
         else if depth == D2 then BayerDrawn(w, h, Grays(rgb), p.px)
         else GrayDrawn(w, h, Grays(rgb), |Clut(depth, mode)|, p.px)
  }

  /** The colour byte triple i of the source shows. */
  predicate ShowsTriple(c: Rgb, rgb: seq<byte>, i: nat)
    requires 3 * i + 2 < |rgb|
  {
    c.r == rgb[3 * i] && c.g == rgb[3 * i + 1] && c.b == rgb[3 * i + 2]
  }

  predicate TripleIn(palette: seq<Rgb>, rgb: seq<byte>, i: nat)
    requires 3 * i + 2 < |rgb|
  {
    Rgb(rgb[3 * i], rgb[3 * i + 1], rgb[3 * i + 2]) in palette
  }

  function PixelSize(depth: Depth): (ps: int)
    requires depth == D2 || depth == D4 || depth == D8
    ensures ValidPixelSize(ps)
  {
    if depth == D2 then 2 else if depth == D4 then 4 else 8
  }

  /** The colour table a picture of this depth and mode carries. */
  function Clut(depth: Depth, mode: Option<Mode>): (palette: seq<Rgb>)
    requires depth == D2 || depth == D4 || depth == D8
    ensures |palette| == (if depth == D2 then 4 else if depth == D4 then 16 else 256)
    ensures Colours(palette)
  {
    if mode == Some(Gray) then GrayRamp(if depth == D2 then 4 else if depth == D4 then 16 else 256)
    else if depth == D2 then MAC_4_COLOR
    else if depth == D4 then MAC_16_COLOR
    else MacSystemPalette()
  }

  /** Pictures the encoder accepts but whose row width overruns its field. */
  predicate TooWide(depth: Depth, w: int) {
    (depth == D8 && w == 32767) || (depth == D24 && w > 8191)
  }

  /** Refused exactly for an unsupported pair or bad dimensions, and otherwise bytes that read back
      as the dithered image. */
  ghost predicate Encodes(depth: Depth, mode: Option<Mode>, w: int, h: int, rgb: seq<byte>, r: Result<seq<byte>, ArtworkError>)
    requires 0 <= w && 0 <= h && |rgb| == 3 * Area(w, h)
  {
    if !Supported(depth, mode) then r == Err(InvalidCombination)
    else if ValidateDims(w, h) != None then r == Err(Pict(ValidateDims(w, h).value))
    else
      && r.Ok?
      && match ReadPicture(r.value)
         case None => TooWide(depth, w)
         case Some(p) => !TooWide(depth, w) && Depicts(depth, mode, w, h, rgb, p)
  }

  function Lifted(r: Result<seq<byte>, PictError>): Result<seq<byte>, ArtworkError> {
    match r case Ok(bytes) => Ok(bytes) case Err(e) => Err(Pict(e))
  }

  lemma {:induction false} ClutFits(depth: Depth, mode: Option<Mode>)
    requires depth == D2 || depth == D4 || depth == D8
    ensures |Clut(depth, mode)| == Pow2(PixelSize(depth)) <= 256
  {
    ShlShl(1, 4, 4);
    assert Shl(1, 4) == 16 && Shl(16, 4) == 256;
    assert Shl(1, 2) == 4;
  }

  /** Encoding indices that fit the depth loses none of them. */
  method EncodeIndices(w: int, h: int, ps: int, palette: seq<Rgb>, px: seq<int>) returns (r: Result<seq<byte>, PictError>)
    requires 0 <= w && 0 <= h && |px| == Area(w, h) && Colours(palette)
    requires ValidPixelSize(ps) && |palette| == Pow2(ps) <= 256 && forall c :: 0 <= c < |px| ==> 0 <= px[c] < Pow2(ps)
    ensures ValidateDims(w, h) != None ==> r == Err(ValidateDims(w, h).value)
    ensures ValidateDims(w, h) == None ==>
      r.Ok? && ReadPicture(r.value) == if ps == 8 && w == 32767 then None else Some(Indexed(w, h, ps, palette, px))
  {
    hide ReadPicture, IndexedPicture, MaskedRow, Pow2;
    r := EncodePackbits(w, h, ps, palette, px);
    if ValidDims(w, h) {
      MaskKeepsLow(0, ps);
      IndexedExactRoundTrip(w, h, ps, palette, px);
    }
  }

  /** The bytes of a finished Atkinson image. */
  lemma {:induction false} PackedIsBytes(img: Image<int>, bits: seq<int>)
    requires img.Valid() && Atkinson.Packed(img, bits, img.h, 0)
    ensures |bits| == Area(BitStride(img.w), img.h) && forall c :: 0 <= c < |bits| ==> 0 <= bits[c] < 256
  {
    var stride := BitStride(img.w);
    forall c | 0 <= c < |bits|
      ensures 0 <= bits[c] < 256
    {
      GridOfCell(stride, img.h, c);
      Atkinson.PackedMeaning(img, bits, Col(stride, c), Row(stride, c), 0);
    }
  }

  method EncodeD1(w: int, h: int, rgb: seq<byte>) returns (r: Result<seq<byte>, ArtworkError>)
    requires 0 <= w && 0 <= h && |rgb| == 3 * Area(w, h)
    ensures forall mode :: Encodes(D1, mode, w, h, rgb, r)
  {
    hide ReadPicture, Atkinson.Packed, Area;
    var bits := Atkinson.Atkinson1Bit(w, h, Grays(rgb));
    PackedIsBytes(Image(w, h, Grays(rgb)), bits);
    var encoded := EncodeBitmap(w, h, bits);
    r := Lifted(encoded);
  }

  method EncodeGray(depth: Depth, w: int, h: int, rgb: seq<byte>) returns (r: Result<seq<byte>, ArtworkError>)
    requires 0 <= w && 0 <= h && |rgb| == 3 * Area(w, h) && (depth == D2 || depth == D4 || depth == D8)
    ensures Encodes(depth, Some(Gray), w, h, rgb, r)
  {
    hide ReadPicture, Area, Pow2, Clut, FloydSteinberg.GrayPicker, OrderedBayer.BayerIndex;
    ClutFits(depth, Some(Gray));
    var palette := Clut(depth, Some(Gray));
    var px;
    if depth == D2 {
      px := OrderedBayer.OrderedBayerGray(w, h, Grays(rgb), 4);
    } else {
      px := FloydSteinberg.FloydSteinbergGray(w, h, Grays(rgb), |palette|);
    }
    var encoded := EncodeIndices(w, h, PixelSize(depth), palette, px);
    r := Lifted(encoded);
  }

  method EncodeColor(depth: Depth, mode: Option<Mode>, w: int, h: int, rgb: seq<byte>) returns (r: Result<seq<byte>, ArtworkError>)
    requires 0 <= w && 0 <= h && |rgb| == 3 * Area(w, h)
    requires (mode == Some(Color) && (depth == D2 || depth == D4)) || (mode != Some(Gray) && depth == D8)
    ensures Encodes(depth, mode, w, h, rgb, r)
  {
    hide ReadPicture, Area, Pow2, Clut, PaletteDither.Picker;
    ClutFits(depth, mode);
    var palette := Clut(depth, mode);
    var px := PaletteDither.FloydSteinbergPalette(w, h, Pixels(rgb), palette);
    var encoded := EncodeIndices(w, h, PixelSize(depth), palette, px);
    r := Lifted(encoded);
  }

  method EncodeD24(w: int, h: int, rgb: seq<byte>) returns (r: Result<seq<byte>, ArtworkError>)
    requires 0 <= w && 0 <= h && |rgb| == 3 * Area(w, h)
    ensures forall mode :: Encodes(D24, mode, w, h, rgb, r)
  {
    hide ReadPicture, Area;
    var encoded := EncodeDirectBitsRectRgb(w, h, rgb);
    r := Lifted(encoded);
  }

  /** The dispatch on depth and mode. */
  method EncodePict(w: int, h: int, rgb: seq<byte>, depth: Depth, mode: Option<Mode>)
    returns (r: Result<seq<byte>, ArtworkError>)
    requires 0 <= w && 0 <= h && |rgb| == 3 * Area(w, h)
    ensures Encodes(depth, mode, w, h, rgb, r)
  {
    hide Depicts, ReadPicture, Area;
    match (depth, mode) {
      case (D1, _) => r := EncodeD1(w, h, rgb);
      case (D2, Some(Gray)) => r := EncodeGray(depth, w, h, rgb);
      case (D2, Some(Color)) => r := EncodeColor(depth, mode, w, h, rgb);
      case (D4, Some(Gray)) => r := EncodeGray(depth, w, h, rgb);
      case (D4, Some(Color)) => r := EncodeColor(depth, mode, w, h, rgb);
      case (D8, Some(Gray)) => r := EncodeGray(depth, w, h, rgb);
      case (D8, _) => r := EncodeColor(depth, mode, w, h, rgb);
      case (D24, _) => r := EncodeD24(w, h, rgb);
      case (_, None) => r := Err(InvalidCombination);
    }
  }

  // ---- What the pictures show ----

  lemma {:induction false} AllPicked(w: int, h: int, palette: seq<Rgb>, px: seq<Rgb>, out: seq<int>)
    requires 0 <= w && 0 <= h && |px| == Area(w, h) && 0 < |palette| <= 256 && ColourDrawn(w, h, px, palette, out)
    ensures Drawn(w, h, PaletteDither.Picker(palette, Image(w, h, px)), out, h, 0)
  {
    hide PaletteDither.Picker;
  }

  /** A picture in colour whose pixels are all entries of its table shows exactly the source's bytes. */
  lemma {:induction false} TableColoursShown(depth: Depth, mode: Option<Mode>, w: int, h: int, rgb: seq<byte>, p: Picture)
    requires 0 <= w && 0 <= h && |rgb| == 3 * Area(w, h) && Depicts(depth, mode, w, h, rgb, p)
    requires (depth == D2 || depth == D4 || depth == D8) && mode != Some(Gray)
    requires forall i :: 0 <= i < |rgb| / 3 ==> TripleIn(Clut(depth, mode), rgb, i)
    ensures p.Indexed? && |p.px| == |rgb| / 3 && p.palette == Clut(depth, mode)
    ensures forall i :: 0 <= i < |p.px| ==> 0 <= p.px[i] < |p.palette| && ShowsTriple(p.palette[p.px[i]], rgb, i)
  {
    hide Clut, PaletteDither.Picker;
    var palette, px := Clut(depth, mode), Pixels(rgb);
    forall i | 0 <= i < |px|
      ensures px[i] in palette
    {
      assert TripleIn(palette, rgb, i);
    }
    AllPicked(w, h, palette, px, p.px);
    PaletteDither.AllDrawn(palette, Image(w, h, px), p.px);
  }

  /** A gray picture of 16 or 256 levels shows at every pixel the gray of the level nearest to what
      that pixel holds: at most half a step lighter, and rounding more darker. */
  lemma {:induction false} GraysShown(depth: Depth, w: int, h: int, rgb: seq<byte>, p: Picture)
    requires 0 <= w && 0 <= h && |rgb| == 3 * Area(w, h) && Depicts(depth, Some(Gray), w, h, rgb, p)
    requires depth == D4 || depth == D8
    ensures p.Indexed? && |p.px| == |rgb| / 3
    ensures forall i :: 0 <= i < |p.px| ==> 0 <= p.px[i] < |p.palette| && ShowsNearly(w, h, rgb, p, i)
  {
    hide Clut, Grays, FloydSteinberg.GrayPicker;
    var n, img := |Clut(depth, Some(Gray))|, Image(w, h, Grays(rgb));
    forall i | 0 <= i < |p.px|
      ensures 0 <= p.px[i] < |p.palette| && ShowsNearly(w, h, rgb, p, i)
    {
      GrayShown(depth, w, h, rgb, p, i);
    }
  }

  /** Pixel i shows a gray within a step of what it holds. */
  ghost predicate ShowsNearly(w: int, h: int, rgb: seq<byte>, p: Picture, i: nat)
    requires 0 <= w && 0 <= h && |rgb| == 3 * Area(w, h) && i < |rgb| / 3
    requires p.Indexed? && i < |p.px| && 2 <= |p.palette| && p.px[i] < |p.palette|
  {
    var steps := |p.palette| - 1;
    var c, held := p.palette[p.px[i]], Clamp255(FloydSteinberg.GatheredAt(steps + 1, Image(w, h, Grays(rgb)), i));
    c.r == c.g == c.b && -127 <= steps * (held - c.r) <= 127 + steps - 1
  }

  lemma {:induction false} GrayShown(depth: Depth, w: int, h: int, rgb: seq<byte>, p: Picture, i: nat)
    requires 0 <= w && 0 <= h && |rgb| == 3 * Area(w, h) && Depicts(depth, Some(Gray), w, h, rgb, p)
    requires (depth == D4 || depth == D8) && i < |p.px|
    ensures i < |rgb| / 3 && 2 <= |p.palette| && 0 <= p.px[i] < |p.palette| && ShowsNearly(w, h, rgb, p, i)
  {
    hide FloydSteinberg.PickGray, Value, Grays;
    var n, img := |p.palette|, Image(w, h, Grays(rgb));
    GridOfCell(w, h, i);
    var held := FloydSteinberg.GatheredAt(n, img, i);
    assert p.px[i] == FloydSteinberg.PickGray(n, held);
    FloydSteinberg.PickGrayInRange(n, held);
    FloydSteinberg.ErrorWithinHalfStep(n, held);
    assert p.palette[p.px[i]].r == FloydSteinberg.GrayOf(n, p.px[i]);
  }
}
