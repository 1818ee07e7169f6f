/** The PICT version 2 byte stream: what the encoder emits as a function of the image, and an
    independent reader of such streams (Inside Macintosh: Imaging With QuickDraw, chapter 7 and
    appendix A). */
module PictFormat {
  import opened Wrappers
  import opened Bits
  import opened BigEndian
  import opened Grid
  import opened Palette
  import opened PixelRows
  import PackBits

  const OP_NOP: word := 0x0000
  const OP_CLIP: word := 0x0001
  const OP_VERSION: word := 0x0011
  const OP_DEF_HILITE: word := 0x001E
  const OP_BITS_RECT: word := 0x0090
  const OP_PACK_BITS_RECT: word := 0x0098
  const OP_DIRECT_BITS_RECT: word := 0x009A
  const OP_END_OF_PICTURE: word := 0x00FF
  const OP_HEADER: word := 0x0C00
  const VERSION_2: word := 0x02FF

  predicate ValidDims(w: int, h: int) {
    0 < w <= 32767 && 0 < h <= 32767
  }

  // ---- Emitted words ----

  function RectWords(w: int, h: int): (ws: seq<word>)
    requires ValidDims(w, h)
    ensures |ws| == 4
  {
    [0, 0, h, w]
  }

  /** Size, frame, version and header opcodes, default highlight, clip region. */
  function PreludeWords(w: int, h: int): (ws: seq<word>)
    requires ValidDims(w, h)
    ensures |ws| == 27
  {
    HeaderWords(w, h) + [OP_DEF_HILITE] + [OP_CLIP, 10] + RectWords(w, h)
  }

  function HeaderWords(w: int, h: int): (ws: seq<word>)
    requires ValidDims(w, h)
    ensures |ws| == 20
  {
    [0] + RectWords(w, h) + [OP_VERSION, VERSION_2, OP_HEADER, 0xFFFF, 0, 0x48, 0, 0x48, 0] + RectWords(w, h) + [0, 0]
  }

  /** `row_bytes | 0x8000` on a u16. */
  function Flagged(rb: int): word
    requires 0 <= rb < 0x1_0000
  {
    if rb < 0x8000 then rb + 0x8000 else rb
  }

  function PixmapWords(w: int, h: int, ps: int): (ws: seq<word>)
    requires ValidDims(w, h) && ValidPixelSize(ps)
    ensures |ws| == 23
  {
    [Flagged(RowBytes(w, ps))] + RectWords(w, h) + [0, 0, 0, 0, 0x48, 0, 0x48, 0, 0, ps, 1, ps, 0, 0, 0, 0, 0, 0]
  }

  /** Word j of the table: each entry is its index and three doubled channel bytes. */
  function EntryWord(palette: seq<Rgb>, j: int): word
    requires Colours(palette) && |palette| <= 0x1_0000 && 0 <= j < 4 * |palette|
  {
    var i := j / 4;
    var k := j % 4;
    if k == 0 then i
    else if k == 1 then palette[i].r * 257
    else if k == 2 then palette[i].g * 257
    else palette[i].b * 257
  }

  function EntryWords(palette: seq<Rgb>): (ws: seq<word>)
    requires Colours(palette) && |palette| <= 0x1_0000
    ensures |ws| == 4 * |palette|
  {
    seq(4 * |palette|, j requires 0 <= j < 4 * |palette| => EntryWord(palette, j))
  }

  function ColorTableWords(palette: seq<Rgb>): (ws: seq<word>)
    requires Colours(palette) && 0 < |palette| <= 0x1_0000
    ensures |ws| == 4 + 4 * |palette|
  {
    [0, 0, 0, |palette| - 1] + EntryWords(palette)
  }

  function PlacementWords(w: int, h: int): (ws: seq<word>)
    requires ValidDims(w, h)
    ensures |ws| == 9
  {
    RectWords(w, h) + RectWords(w, h) + [0]
  }

  // ---- Emitted rows ----

  /** One packed row behind its length: two bytes when rows are longer than 250, else one. The
      casts to the prefix width are part of it. */
  function Frame(rb: nat, packed: seq<byte>): seq<byte> {
    (if rb > 250 then Word(|packed| % 0x1_0000) else [|packed| % 0x100]) + packed
  }

  function RowFrame(row: seq<byte>, ps: int, rb: nat): seq<byte>
    requires ValidPixelSize(ps)
  {
    Frame(rb, PackBits.Packed(PackedRow(row, ps, rb)))
  }

  function Frames(px: seq<byte>, w: nat, ps: int, rb: nat): seq<byte>
    requires ValidPixelSize(ps) && w > 0
  {
    if |px| < w then [] else RowFrame(px[..w], ps, rb) + Frames(px[w..], w, ps, rb)
  }

  function EvenPad(s: seq<byte>): seq<byte> {
    if |s| % 2 == 1 then [0] else []
  }

  function Zeros(n: nat): (s: seq<byte>)
    ensures |s| == n
  {
    seq(n, i => 0)
  }

  /** Everything before the rows of an indexed picture. */
  function IndexedHead(w: int, h: int, ps: int, palette: seq<Rgb>): seq<word>
    requires ValidDims(w, h) && ValidPixelSize(ps) && Colours(palette) && 0 < |palette| <= 0x1_0000
  {
    PreludeWords(w, h) + [OP_PACK_BITS_RECT] + PixmapWords(w, h, ps) + ColorTableWords(palette) + PlacementWords(w, h)
  }

  /** 512 zero bytes, the head, the rows, a pad to even length, the end opcode. */
  function Assembled(head: seq<word>, data: seq<byte>): seq<byte> {
    Zeros(512) + Words(head) + data + EvenPad(data) + Word(OP_END_OF_PICTURE)
  }

  function IndexedPicture(w: int, h: int, ps: int, palette: seq<Rgb>, px: seq<byte>): seq<byte>
    requires ValidDims(w, h) && ValidPixelSize(ps) && Colours(palette) && 0 < |palette| <= 0x1_0000
  {
    Assembled(IndexedHead(w, h, ps, palette), Frames(px, w, ps, RowBytes(w, ps)))
  }

  // ---- Bitmaps and direct colour ----

  /** `bitmap_row_bytes`: whole words, cast to u16 with the top bit cleared. */
  function BitmapRowBytes(w: nat): word {
    (w + 15) / 16 * 2 % 0x1_0000 % 0x8000
  }

  function BitmapWords(w: int, h: int): (ws: seq<word>)
    requires ValidDims(w, h)
    ensures |ws| == 14
  {
    [BitmapRowBytes(w)] + RectWords(w, h) + PlacementWords(w, h)
  }

  /** Rows of stride bytes, each padded with zeros to rb. */
  function BitRows(bits: seq<byte>, stride: nat, rb: nat): seq<byte>
    requires 0 < stride <= rb
  {
    if |bits| < stride then [] else bits[..stride] + Zeros(rb - stride) + BitRows(bits[stride..], stride, rb)
  }

  function BitmapPicture(w: int, h: int, bits: seq<byte>): seq<byte>
    requires ValidDims(w, h)
  {
    Assembled(PreludeWords(w, h) + [OP_BITS_RECT] + BitmapWords(w, h), BitRows(bits, BitStride(w), BitmapRowBytes(w)))
  }

  function DirectPixmapWords(w: int, h: int): (ws: seq<word>)
    requires ValidDims(w, h)
    ensures |ws| == 25
  {
    [0, 0xFF] + [Flagged(4 * w % 0x1_0000)] + RectWords(w, h)
      + [0, 1, 0, 0, 0x48, 0, 0x48, 0, 16, 32, 3, 8, 0, 0, 0, 0, 0, 0]
  }

  function DirectWords(w: int, h: int): (ws: seq<word>)
    requires ValidDims(w, h)
    ensures |ws| == 34
  {
    DirectPixmapWords(w, h) + PlacementWords(w, h)
  }

  /** Each RGB triple behind a zero byte. */
  function PaddedPixels(rgb: seq<byte>): seq<byte> {
    if |rgb| < 3 then [] else [0] + rgb[..3] + PaddedPixels(rgb[3..])
  }

  function DirectPicture(w: int, h: int, rgb: seq<byte>): seq<byte>
    requires ValidDims(w, h)
  {
    Assembled(PreludeWords(w, h) + [OP_DIRECT_BITS_RECT] + DirectWords(w, h), PaddedPixels(rgb))
  }

  // ---- The reader ----

  datatype Rect = Rect(top: int, left: int, bottom: int, right: int)

  /** A rectangle stored at word i. */
  function RectAt(ws: seq<word>, i: nat): Rect
    requires i + 4 <= |ws|
  {
    Rect(ws[i], ws[i + 1], ws[i + 2], ws[i + 3])
  }

  /** A rectangle from the origin, w wide and h high. */
  function FromOrigin(w: int, h: int): Rect {
    Rect(0, 0, h, w)
  }

  /** 72 dots an inch, both ways, as two fixed-point numbers. */
  const RESOLUTION: seq<word> := [0x48, 0, 0x48, 0]

  datatype Picture =
    | Indexed(w: int, h: int, ps: int, palette: seq<Rgb>, px: seq<byte>)
    | Bitmap(w: int, h: int, bits: seq<byte>)
    | Direct(w: int, h: int, rgb: seq<byte>)

  /** Rows of packed indices: prefix, PackBits data that must fill rowBytes, w indices. */
  function ReadRows(s: seq<byte>, h: nat, w: nat, ps: int, rb: nat): Parsed<seq<byte>>
    requires ValidPixelSize(ps) && w <= rb * PerByte(ps)
    decreases h
  {
    if h == 0 then Got([], s)
    else
      match ReadRow(s, w, ps, rb)
      case Fail => Fail
      case Got(row, rest) =>
        match ReadRows(rest, h - 1, w, ps, rb)
        case Fail => Fail
        case Got(rows, rest') => Got(row + rows, rest')
  }

  function ReadCount(s: seq<byte>, rb: nat): (p: Parsed<int>)
    ensures p.Got? ==> p.value >= 0
  {
    if rb > 250 then
      match TakeWords(s, 1)
      case Fail => Fail
      case Got(ws, rest) => Got(ws[0], rest)
    else
      match TakeBytes(s, 1)
      case Fail => Fail
      case Got(bs, rest) => Got(bs[0], rest)
  }

  function ReadRow(s: seq<byte>, w: nat, ps: int, rb: nat): Parsed<seq<byte>>
    requires ValidPixelSize(ps) && w <= rb * PerByte(ps)
  {
    match ReadCount(s, rb)
    case Fail => Fail
    case Got(count, s1) =>
      match TakeBytes(s1, count)
      case Fail => Fail
      case Got(packed, s2) =>
        match PackBits.Unpack(packed)
        case None => Fail
        case Some(row) => if |row| == rb then Got(UnpackedRow(row, ps, w), s2) else Fail
  }

  /** Colours of a table of n entries numbered from 0; None if misnumbered. */
  function ReadEntries(ws: seq<word>, n: nat): Option<seq<Rgb>>
    requires |ws| == 4 * n
  {
    if forall i :: 0 <= i < n ==> ws[4 * i] == i
    then Some(seq(n, i requires 0 <= i < n => Rgb(ws[4 * i + 1] / 256, ws[4 * i + 2] / 256, ws[4 * i + 3] / 256)))
    else None
  }

  function ReadColorTable(s: seq<byte>): Parsed<seq<Rgb>> {
    match TakeWords(s, 4)
    case Fail => Fail
    case Got(head, s1) =>
      match TakeWords(s1, 4 * (head[3] as int + 1))
      case Fail => Fail
      case Got(entries, s2) =>
        match if head[..3] == [0, 0, 0] then ReadEntries(entries, head[3] as int + 1) else None
        case None => Fail
        case Some(palette) => Got(palette, s2)
  }

  /** One component a pixel of that size; no packing, no table handle. */
  predicate IndexedFields(pm: seq<word>, ps: int)
    requires |pm| == 23
  {
    && pm[5..9] == [0, 0, 0, 0] && pm[9..13] == RESOLUTION
    && pm[13..17] == [0, ps, 1, ps] && pm[17..] == [0, 0, 0, 0, 0, 0]
  }

  /** Three components of 8 bits in 32, unpacked. */
  predicate DirectFields(pm: seq<word>)
    requires |pm| == 25
  {
    && pm[..2] == [0, 0xFF] && pm[7..11] == [0, 1, 0, 0] && pm[11..15] == RESOLUTION
    && pm[15..19] == [16, 32, 3, 8] && pm[19..] == [0, 0, 0, 0, 0, 0]
  }

  datatype Pixmap = Pixmap(w: nat, h: nat, ps: int, rb: nat)

  /** The header of an indexed pixmap, which must fill the picture's frame. The row width comes from
      the low 15 bits of the first word, and a row must hold the image's pixels within that width. */
  function ReadPixmap(s: seq<byte>, frame: Rect): (p: Parsed<Pixmap>)
    ensures p.Got? ==> ValidPixelSize(p.value.ps) && p.value.w <= p.value.rb * PerByte(p.value.ps)
  {
    match TakeWords(s, 23)
    case Fail => Fail
    case Got(pm, rest) =>
      var bounds, rb, ps := RectAt(pm, 1), pm[0] as int - 0x8000, pm[14] as int;
      var h, w := bounds.bottom - bounds.top, bounds.right - bounds.left;
      if rb < 0 || h <= 0 || w <= 0 || bounds != FromOrigin(w, h) || bounds != frame then Fail
      else if !ValidPixelSize(ps) || w > rb * PerByte(ps) || !IndexedFields(pm, ps) then Fail
      else Got(Pixmap(w, h, ps, rb), rest)
  }

  /** Where an image comes from and goes to: the whole of it, into the whole picture, copied. */
  function ReadPlacement(s: seq<byte>, frame: Rect): Parsed<()> {
    match TakeWords(s, 9)
    case Fail => Fail
    case Got(ws, rest) => if RectAt(ws, 0) == frame && RectAt(ws, 4) == frame && ws[8] == 0 then Got((), rest) else Fail
  }

  /** The data of a PackBitsRect opcode holding a pixmap. */
  function ReadPackBitsRect(s: seq<byte>, frame: Rect): Parsed<Picture> {
    match ReadPixmap(s, frame)
    case Fail => Fail
    case Got(pm, s1) =>
      match ReadColorTable(s1)
      case Fail => Fail
      case Got(palette, s2) =>
        match ReadPlacement(s2, frame)
        case Fail => Fail
        case Got(_, s3) =>
          match ReadRows(s3, pm.h, pm.w, pm.ps, pm.rb)
          case Fail => Fail
          case Got(px, s4) => Got(Indexed(pm.w, pm.h, pm.ps, palette, px), s4)
  }

  /** The data of a BitsRect opcode: a bitmap whose rows are stored as they are. */
  function ReadBitsRect(s: seq<byte>, frame: Rect): Parsed<Picture> {
    match TakeWords(s, 1)
    case Fail => Fail
    case Got(first, s0) =>
      match TakeWords(s0, 4)
      case Fail => Fail
      case Got(bm, s1) =>
        var bounds, rb := RectAt(bm, 0), first[0] as int;
        var h, w := bounds.bottom - bounds.top, bounds.right - bounds.left;
        if rb >= 0x8000 || h <= 0 || w <= 0 || bounds != FromOrigin(w, h) || bounds != frame || w > rb * 8 then Fail
        else
          match ReadPlacement(s1, frame)
          case Fail => Fail
          case Got(_, s2) =>
            match ReadBitRows(s2, h, BitStride(w), rb)
            case Fail => Fail
            case Got(bits, s3) => Got(Bitmap(w, h, bits), s3)
  }

  /** h rows of rb bytes, of which the first stride hold bits. */
  function ReadBitRows(s: seq<byte>, h: nat, stride: nat, rb: nat): Parsed<seq<byte>>
    requires stride <= rb
    decreases h
  {
    if h == 0 then Got([], s)
    else
      match TakeBytes(s, rb)
      case Fail => Fail
      case Got(row, rest) =>
        match ReadBitRows(rest, h - 1, stride, rb)
        case Fail => Fail
        case Got(rows, rest') => Got(row[..stride] + rows, rest')
  }

  /** The data of a DirectBitsRect opcode with unpacked 32-bit pixels. */
  function ReadDirectBitsRect(s: seq<byte>, frame: Rect): Parsed<Picture> {
    match TakeWords(s, 25)
    case Fail => Fail
    case Got(pm, s1) =>
      var bounds, rb := RectAt(pm, 3), pm[2] as int - 0x8000;
      var h, w := bounds.bottom - bounds.top, bounds.right - bounds.left;
      if rb < 0 || h <= 0 || w <= 0 || bounds != FromOrigin(w, h) || bounds != frame || rb != 4 * w then Fail
      else if !DirectFields(pm) then Fail
      else
        match ReadPlacement(s1, frame)
        case Fail => Fail
        case Got(_, s2) =>
          match ReadPixels(s2, Area(w, h))
          case Fail => Fail
          case Got(rgb, s3) => Got(Direct(w, h, rgb), s3)
  }

  /** n pixels of a zero byte and three channels. */
  function ReadPixels(s: seq<byte>, n: int): Parsed<seq<byte>>
    decreases n
  {
    if n <= 0 then Got([], s)
    else if |s| < 4 || s[0] != 0 then Fail
    else
      match ReadPixels(s[4..], n - 1)
      case Fail => Fail
      case Got(rgb, rest) => Got(s[1..4] + rgb, rest)
  }

  function ReadImage(op: word, s: seq<byte>, frame: Rect): Parsed<Picture> {
    if op == OP_PACK_BITS_RECT then ReadPackBitsRect(s, frame)
    else if op == OP_BITS_RECT then ReadBitsRect(s, frame)
    else if op == OP_DIRECT_BITS_RECT then ReadDirectBitsRect(s, frame)
    else Fail
  }

  /** What the opcodes so far have done. */
  datatype Seen = Seen(hilite: bool, clip: Option<Rect>, image: Option<Picture>)

  /** A clip region that is a rectangle: its size of ten bytes, then the rectangle. */
  function ReadClip(s: seq<byte>): Parsed<Rect> {
    match TakeWords(s, 5)
    case Fail => Fail
    case Got(ws, rest) => if ws[0] == 10 then Got(RectAt(ws, 1), rest) else Fail
  }

  /** Opcodes until the end opcode, each at an even offset from the start of the total bytes. The
      image, of which there is one, is drawn clipped to a rectangle set before it. */
  function ReadOps(s: seq<byte>, total: int, frame: Rect, seen: Seen): Option<Seen>
    decreases |s|
  {
    if (total - |s|) % 2 == 1 then (if s == [] then None else ReadOps(s[1..], total, frame, seen))
    else
      match TakeWords(s, 1)
      case Fail => None
      case Got(op, rest) =>
        if op[0] == OP_END_OF_PICTURE then (if rest == [] then Some(seen) else None)
        else if op[0] == OP_NOP then ReadOps(rest, total, frame, seen)
        else if op[0] == OP_DEF_HILITE then ReadOps(rest, total, frame, seen.(hilite := true))
        else if op[0] == OP_CLIP then
          match ReadClip(rest)
          case Fail => None
          case Got(clip, rest') =>
            if |rest'| < |s| && seen.image == None then ReadOps(rest', total, frame, seen.(clip := Some(clip))) else None
        else if seen.image != None then None
        else
          match ReadImage(op[0], rest, frame)
          case Fail => None
          case Got(picture, rest') =>
            if |rest'| < |s| then ReadOps(rest', total, frame, seen.(image := Some(picture))) else None
  }

  /** The picture in a file: behind 512 bytes for the application and a size that readers of version 2
      ignore comes the frame; the header's rectangle and the clip must be the frame, too. */
  function ReadPicture(s: seq<byte>): Option<Picture> {
    if |s| < 512 then None
    else
      match TakeWords(s[512..], 8)
      case Fail => None
      case Got(ws, rest) =>
        var frame := RectAt(ws, 1);
        if ws[5] != OP_VERSION || ws[6] != VERSION_2 || ws[7] != OP_HEADER then None
        else
          match TakeWords(rest, 12)
          case Fail => None
          case Got(header, rest1) =>
            if header[..2] != [0xFFFF, 0] || header[2..6] != RESOLUTION || RectAt(header, 6) != frame || header[10..] != [0, 0]
            then None
            else
              match ReadOps(rest1, |s|, frame, Seen(false, None, None))
              case None => None
              case Some(seen) => if seen.hilite && seen.clip == Some(frame) then seen.image else None
  }
}
