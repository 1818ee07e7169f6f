/** Reading back what the encoder emits. */
module PictRoundTrip {
  import opened Wrappers
  import opened Bits
  import opened BigEndian
  import opened Grid
  import opened Palette
  import opened PixelRows
  import opened PictFormat
  import PackBits

  // ---- Rows ----

  lemma {:induction false} CountBack(rb: nat, packed: seq<byte>, rest: seq<byte>)
    requires if rb > 250 then |packed| < 0x1_0000 else |packed| < 0x100
    ensures ReadCount(Frame(rb, packed) + rest, rb) == Got(|packed|, packed + rest)
  {
    if rb > 250 {
      var n: word := |packed| % 0x1_0000;
      WordsOne(n);
      TakeWordsBack([n], packed + rest);
      assert Frame(rb, packed) + rest == Words([n]) + (packed + rest);
    } else {
      var n: byte := |packed| % 0x100;
      TakeBytesBack([n], packed + rest);
      assert Frame(rb, packed) + rest == [n] + (packed + rest);
    }
  }

  /** A framed row reads back as its masked pixels, whatever the prefix width. */
  lemma {:induction false} RowBack(row: seq<byte>, ps: int, rb: nat, rest: seq<byte>)
    requires ValidPixelSize(ps) && |row| <= rb * PerByte(ps) && rb <= 0x8000
    ensures ReadRow(RowFrame(row, ps, rb) + rest, |row|, ps, rb) == Got(MaskedRow(row, ps), rest)
  {
    var bytes := PackedRow(row, ps, rb);
    var packed := PackBits.Packed(bytes);
    PackBits.PrefixWideEnough(bytes);
    CountBack(rb, packed, rest);
    TakeBytesBack(packed, rest);
    PackBits.RoundTrip(bytes);
    RowRoundTrip(row, ps, rb);
  }

  lemma {:induction false} MaskedAppend(a: seq<byte>, b: seq<byte>, ps: int)
    requires ValidPixelSize(ps)
    ensures MaskedRow(a + b, ps) == MaskedRow(a, ps) + MaskedRow(b, ps)
  {
  }

  lemma {:induction false} RowsBack(px: seq<byte>, w: nat, h: nat, ps: int, rb: nat, rest: seq<byte>)
    requires ValidPixelSize(ps) && 0 < w <= rb * PerByte(ps) && rb <= 0x8000 && |px| == Area(w, h)
    ensures ReadRows(Frames(px, w, ps, rb) + rest, h, w, ps, rb) == Got(MaskedRow(px, ps), rest)
    decreases h
  {
    if h == 0 {
      assert px == [] && Frames(px, w, ps, rb) + rest == rest;
    } else {
      AreaNonNegative(w, h - 1);
      var row, tail := px[..w], px[w..];
      var more := Frames(tail, w, ps, rb) + rest;
      RowsBack(tail, w, h - 1, ps, rb, rest);
      RowBack(row, ps, rb, more);
      Assoc(RowFrame(row, ps, rb), Frames(tail, w, ps, rb), rest);
      MaskedAppend(row, tail, ps);
      assert row + tail == px;
    }
  }

  // ---- Tables ----

  lemma {:induction false} EntryBack(palette: seq<Rgb>, i: nat)
    requires Colours(palette) && i < |palette| <= 0x1_0000
    ensures EntryWord(palette, 4 * i) == i
    ensures Rgb(EntryWord(palette, 4 * i + 1) / 256, EntryWord(palette, 4 * i + 2) / 256,
                EntryWord(palette, 4 * i + 3) / 256) == palette[i]
  {
  }

  lemma {:induction false} EntriesBack(palette: seq<Rgb>)
    requires Colours(palette) && |palette| <= 0x1_0000
    ensures ReadEntries(EntryWords(palette), |palette|) == Some(palette)
  {
    hide EntryWord;
    var ws := EntryWords(palette);
    forall i | 0 <= i < |palette|
      ensures ws[4 * i] == i
      ensures Rgb(ws[4 * i + 1] / 256, ws[4 * i + 2] / 256, ws[4 * i + 3] / 256) == palette[i]
    {
      EntryBack(palette, i);
    }
    assert ReadEntries(ws, |palette|).Some?;
    assert ReadEntries(ws, |palette|).value == palette;
  }

  lemma {:induction false} ColorTableBack(palette: seq<Rgb>, rest: seq<byte>)
    requires Colours(palette) && 0 < |palette| <= 0x1_0000
    ensures ReadColorTable(Words(ColorTableWords(palette)) + rest) == Got(palette, rest)
  {
    var head: seq<word> := [0, 0, 0, |palette| - 1];
    var entries := EntryWords(palette);
    WordsAppend(head, entries);
    assert Words(head + entries) + rest == Words(head) + (Words(entries) + rest);
    TakeWordsBack(head, Words(entries) + rest);
    TakeWordsBack(entries, rest);
    EntriesBack(palette);
  }

  // ---- One image ----

  /** Reading back what is behind some words, and what is behind those. */
  lemma {:induction false} PlacementBack(w: int, h: int, rest: seq<byte>)
    requires ValidDims(w, h)
    ensures ReadPlacement(Words(PlacementWords(w, h)) + rest, FromOrigin(w, h)) == Got((), rest)
  {
    hide TakeWords, Words;
    var ws := PlacementWords(w, h);
    TakeWordsBack(ws, rest);
    assert ws == [0, 0, h, w, 0, 0, h, w, 0];
  }

  /** The data of the PackBitsRect opcode reads back as the image exactly when the row width fits
      in the 15 bits it shares a word with. */
  lemma {:induction false} PackBitsRectBack(w: int, h: int, ps: int, palette: seq<Rgb>, px: seq<byte>, rest: seq<byte>)
    requires ValidDims(w, h) && ValidPixelSize(ps) && Colours(palette) && 0 < |palette| <= 0x1_0000
    requires |px| == Area(w, h)
    ensures ReadPackBitsRect(Words(PixmapWords(w, h, ps)) + (Words(ColorTableWords(palette)) +
              (Words(PlacementWords(w, h)) + (Frames(px, w, ps, RowBytes(w, ps)) + rest))), FromOrigin(w, h))
      == if RowBytes(w, ps) < 0x8000 then Got(Indexed(w, h, ps, palette, MaskedRow(px, ps)), rest) else Fail
  {
    hide ReadRows, Frames, ReadColorTable, ReadPixmap, ReadPlacement, Words, RowBytes, MaskedRow, PixmapWords,
      ColorTableWords, PlacementWords;
    var rb := RowBytes(w, ps);
    var s3 := Frames(px, w, ps, rb) + rest;
    var s2 := Words(PlacementWords(w, h)) + s3;
    var s1 := Words(ColorTableWords(palette)) + s2;
    RowBytesHoldRow(w, ps);
    PixmapBack(w, h, ps, s1);
    if rb < 0x8000 {
      ColorTableBack(palette, s2);
      PlacementBack(w, h, s3);
      RowsBack(px, w, h, ps, rb, rest);
    }
  }

  lemma {:induction false} PixmapBack(w: int, h: int, ps: int, rest: seq<byte>)
    requires ValidDims(w, h) && ValidPixelSize(ps)
    ensures ReadPixmap(Words(PixmapWords(w, h, ps)) + rest, FromOrigin(w, h)) ==
      if RowBytes(w, ps) < 0x8000 then Got(Pixmap(w, h, ps, RowBytes(w, ps)), rest) else Fail
  {
    hide TakeWords, Words, RowBytes, PixmapWords, IndexedFields, RectAt;
    TakeWordsBack(PixmapWords(w, h, ps), rest);
    RowBytesHoldRow(w, ps);
    PixmapFields(w, h, ps);
  }

  lemma {:induction false} PixmapFields(w: int, h: int, ps: int)
    requires ValidDims(w, h) && ValidPixelSize(ps)
    ensures var pm := PixmapWords(w, h, ps);
      pm[0] == Flagged(RowBytes(w, ps)) && RectAt(pm, 1) == FromOrigin(w, h) && pm[14] == ps && IndexedFields(pm, ps)
  {
    RowBytesHoldRow(w, ps);
    hide RowBytes, Flagged;
    var pm := PixmapWords(w, h, ps);
    var flagged := Flagged(RowBytes(w, ps));
    assert pm == [flagged, 0, 0, h, w, 0, 0, 0, 0, 0x48, 0, 0x48, 0, 0, ps, 1, ps, 0, 0, 0, 0, 0, 0];
    hide PixmapWords, RectWords;
    assert pm[5..9] == [0, 0, 0, 0];
    assert pm[9..13] == RESOLUTION;
    assert pm[13..17] == [0, ps, 1, ps];
    assert pm[17..] == [0, 0, 0, 0, 0, 0];
  }

  // ---- Opcodes ----

  lemma {:induction false} EndBack(data: seq<byte>, total: int, frame: Rect, seen: Seen)
    requires total % 2 == 0
    ensures ReadOps(EvenPad(data) + Word(OP_END_OF_PICTURE), total, frame, seen) == Some(seen)
  {
    var end := Word(OP_END_OF_PICTURE);
    OpBack(OP_END_OF_PICTURE, []);
    assert end + [] == end;
    if |data| % 2 == 1 {
      assert ([0] + end)[1..] == end;
    } else {
      assert [] + end == end;
    }
  }

  lemma {:induction false} OpBack(op: word, rest: seq<byte>)
    ensures TakeWords(Word(op) + rest, 1) == Got([op], rest)
  {
    WordsOne(op);
    TakeWordsBack([op], rest);
  }

  predicate ImageOp(op: word) {
    op == OP_PACK_BITS_RECT || op == OP_BITS_RECT || op == OP_DIRECT_BITS_RECT
  }

  lemma {:induction false} HiliteBack(rest: seq<byte>, total: int, frame: Rect, seen: Seen)
    requires (total - |rest|) % 2 == 0
    ensures ReadOps(Word(OP_DEF_HILITE) + rest, total, frame, seen) == ReadOps(rest, total, frame, seen.(hilite := true))
  {
    hide Words, TakeWords, ReadImage, ReadClip;
    OpBack(OP_DEF_HILITE, rest);
  }

  lemma {:induction false} ClipBack(w: int, h: int, rest: seq<byte>, total: int, frame: Rect, seen: Seen)
    requires ValidDims(w, h) && (total - |rest|) % 2 == 0 && seen.image == None
    ensures ReadOps(Word(OP_CLIP) + (Words([10] + RectWords(w, h)) + rest), total, frame, seen) ==
      ReadOps(rest, total, frame, seen.(clip := Some(FromOrigin(w, h))))
  {
    hide Words, TakeWords, ReadImage;
    var region: seq<word> := [10] + RectWords(w, h);
    OpBack(OP_CLIP, Words(region) + rest);
    TakeWordsBack(region, rest);
    assert RectAt(region, 1) == FromOrigin(w, h);
  }

  lemma {:induction false} ImageBack(op: word, s: seq<byte>, tail: seq<byte>, total: int, frame: Rect, seen: Seen,
                                     image: Parsed<Picture>)
    requires ImageOp(op) && (total - |s|) % 2 == 0 && |tail| <= |s| && seen.image == None
    requires ReadImage(op, s, frame) == image && (image.Got? ==> image.rest == tail)
    ensures ReadOps(Word(op) + s, total, frame, seen) ==
      match image case Fail => None case Got(picture, _) => ReadOps(tail, total, frame, seen.(image := Some(picture)))
  {
    hide ReadImage, TakeWords, Words;
    OpBack(op, s);
  }

  /** Everything after the 512 zeros and the header words. */
  function AfterHeader(w: int, h: int, op: word, body: seq<word>, data: seq<byte>): seq<byte>
    requires ValidDims(w, h)
  {
    Word(OP_DEF_HILITE) + (Word(OP_CLIP) + (Words([10] + RectWords(w, h)) +
      (Word(op) + (Words(body) + (data + (EvenPad(data) + Word(OP_END_OF_PICTURE)))))))
  }

  lemma {:induction false} AfterHeaderBack(w: int, h: int, op: word, body: seq<word>, data: seq<byte>, total: int,
                                           image: Parsed<Picture>)
    requires ValidDims(w, h) && ImageOp(op) && total % 2 == 0
    requires var tail := EvenPad(data) + Word(OP_END_OF_PICTURE);
      ReadImage(op, Words(body) + (data + tail), FromOrigin(w, h)) == image && (image.Got? ==> image.rest == tail)
    ensures ReadOps(AfterHeader(w, h, op, body, data), total, FromOrigin(w, h), Seen(false, None, None)) ==
      match image case Fail => None case Got(picture, _) => Some(Seen(true, Some(FromOrigin(w, h)), Some(picture)))
  {
    hide ReadOps, ReadImage, Words;
    var frame := FromOrigin(w, h);
    var tail := EvenPad(data) + Word(OP_END_OF_PICTURE);
    var s := Words(body) + (data + tail);
    HiliteBack(Word(OP_CLIP) + (Words([10] + RectWords(w, h)) + (Word(op) + s)), total, frame, Seen(false, None, None));
    ClipBack(w, h, Word(op) + s, total, frame, Seen(true, None, None));
    ImageBack(op, s, tail, total, frame, Seen(true, Some(frame), None), image);
    if image.Got? {
      EndBack(data, total, frame, Seen(true, Some(frame), Some(image.value)));
    }
  }

  lemma {:induction false} HeadSplit(w: int, h: int, op: word, body: seq<word>, rest: seq<byte>)
    requires ValidDims(w, h)
    ensures Words(PreludeWords(w, h) + [op] + body) + rest ==
      Words(HeaderWords(w, h)[..8]) + (Words(HeaderWords(w, h)[8..]) +
        (Word(OP_DEF_HILITE) + (Word(OP_CLIP) + (Words([10] + RectWords(w, h)) +
          (Word(op) + (Words(body) + rest))))))
  {
    hide Words, HeaderWords;
    var hw, region := HeaderWords(w, h), [10] + RectWords(w, h);
    assert PreludeWords(w, h) == hw + [OP_DEF_HILITE] + [OP_CLIP] + region;
    WordsAppend(PreludeWords(w, h) + [op], body);
    WordsAppend(PreludeWords(w, h), [op]);
    WordsAppend(hw + [OP_DEF_HILITE] + [OP_CLIP], region);
    WordsAppend(hw + [OP_DEF_HILITE], [OP_CLIP]);
    WordsAppend(hw, [OP_DEF_HILITE]);
    WordsAppend(hw[..8], hw[8..]);
    assert hw[..8] + hw[8..] == hw;
    WordsOne(op);
    WordsOne(OP_DEF_HILITE);
    WordsOne(OP_CLIP);
  }

  lemma {:induction false} HeaderFields(w: int, h: int)
    requires ValidDims(w, h)
    ensures var ws, header := HeaderWords(w, h)[..8], HeaderWords(w, h)[8..];
      && RectAt(ws, 1) == FromOrigin(w, h) && ws[5] == OP_VERSION && ws[6] == VERSION_2 && ws[7] == OP_HEADER
      && header[..2] == [0xFFFF, 0] && header[2..6] == RESOLUTION && RectAt(header, 6) == FromOrigin(w, h)
      && header[10..] == [0, 0]
  {
    var hw := HeaderWords(w, h);
    assert hw == [0, 0, 0, h, w, OP_VERSION, VERSION_2, OP_HEADER, 0xFFFF, 0, 0x48, 0, 0x48, 0, 0, 0, h, w, 0, 0];
  }

  lemma {:induction false} AssembledBack(w: int, h: int, op: word, body: seq<word>, data: seq<byte>, image: Parsed<Picture>)
    requires ValidDims(w, h) && ImageOp(op)
    requires var tail := EvenPad(data) + Word(OP_END_OF_PICTURE);
      ReadImage(op, Words(body) + (data + tail), FromOrigin(w, h)) == image && (image.Got? ==> image.rest == tail)
    ensures ReadPicture(Assembled(PreludeWords(w, h) + [op] + body, data)) ==
      match image case Fail => None case Got(picture, _) => Some(picture)
  {
    hide ReadOps, ReadImage, Words, TakeWords, HeaderWords, RectAt, AfterHeader;
    var head := PreludeWords(w, h) + [op] + body;
    var s := Assembled(head, data);
    var hw := HeaderWords(w, h);
    var after := AfterHeader(w, h, op, body, data);
    HeadSplit(w, h, op, body, data + (EvenPad(data) + Word(OP_END_OF_PICTURE)));
    AfterHeaderIs(w, h, op, body, data);
    assert s[512..] == Words(hw[..8]) + (Words(hw[8..]) + after);
    TakeWordsBack(hw[..8], Words(hw[8..]) + after);
    TakeWordsBack(hw[8..], after);
    HeaderFields(w, h);
    AfterHeaderBack(w, h, op, body, data, |s|, image);
  }

  lemma {:induction false} AfterHeaderIs(w: int, h: int, op: word, body: seq<word>, data: seq<byte>)
    requires ValidDims(w, h)
    ensures AfterHeader(w, h, op, body, data) ==
      Word(OP_DEF_HILITE) + (Word(OP_CLIP) + (Words([10] + RectWords(w, h)) +
        (Word(op) + (Words(body) + (data + (EvenPad(data) + Word(OP_END_OF_PICTURE)))))))
  {
  }

  // ---- Main results ----

  /** Reading an encoded indexed picture gives back its size, depth, palette and masked indices, in
      every case but one: an 8-bit picture of the greatest width, whose row width needs the flag
      bit itself. */
  lemma {:induction false} IndexedRoundTrip(w: int, h: int, ps: int, palette: seq<Rgb>, px: seq<byte>)
    requires ValidDims(w, h) && ValidPixelSize(ps) && Colours(palette) && 0 < |palette| <= 0x1_0000
    requires |px| == Area(w, h)
    ensures ReadPicture(IndexedPicture(w, h, ps, palette, px)) ==
      if ps == 8 && w == 32767 then None else Some(Indexed(w, h, ps, palette, MaskedRow(px, ps)))
  {
    hide ReadPicture, ReadPackBitsRect, Words, Frames, RowBytes, PreludeWords, PixmapWords, ColorTableWords,
      PlacementWords, MaskedRow;
    var data := Frames(px, w, ps, RowBytes(w, ps));
    var tail := EvenPad(data) + Word(OP_END_OF_PICTURE);
    var pm, ct, pl := PixmapWords(w, h, ps), ColorTableWords(palette), PlacementWords(w, h);
    var body := pm + ct + pl;
    WordsAppend(pm + ct, pl);
    WordsAppend(pm, ct);
    assert Words(body) + (data + tail) == Words(pm) + (Words(ct) + (Words(pl) + (data + tail)));
    PackBitsRectBack(w, h, ps, palette, px, tail);
    RowBytesHoldRow(w, ps);
    AssembledBack(w, h, OP_PACK_BITS_RECT, body, data, ReadPackBitsRect(Words(body) + (data + tail), FromOrigin(w, h)));
    assert IndexedHead(w, h, ps, palette) == PreludeWords(w, h) + [OP_PACK_BITS_RECT] + body;
  }

  /** An index that already fits the depth is not changed by the masking. */
  lemma {:induction false} IndexedExactRoundTrip(w: int, h: int, ps: int, palette: seq<Rgb>, px: seq<byte>)
    requires ValidDims(w, h) && ValidPixelSize(ps) && Colours(palette) && 0 < |palette| <= 0x1_0000
    requires |px| == Area(w, h) && forall x :: 0 <= x < |px| ==> px[x] < Pow2(ps)
    ensures ReadPicture(IndexedPicture(w, h, ps, palette, px)) ==
      if ps == 8 && w == 32767 then None else Some(Indexed(w, h, ps, palette, px))
  {
    hide ReadPicture, IndexedPicture;
    IndexedRoundTrip(w, h, ps, palette, px);
    forall x | 0 <= x < |px|
      ensures MaskedRow(px, ps)[x] == px[x]
    {
      LowOfSmall(px[x], ps);
    }
    assert MaskedRow(px, ps) == px;
  }

  lemma {:induction false} BitRowsBack(bits: seq<byte>, h: nat, stride: nat, rb: nat, rest: seq<byte>)
    requires 0 < stride <= rb && |bits| == Area(stride, h)
    ensures ReadBitRows(BitRows(bits, stride, rb) + rest, h, stride, rb) == Got(bits, rest)
    decreases h
  {
    if h == 0 {
      assert BitRows(bits, stride, rb) + rest == rest;
    } else {
      AreaNonNegative(stride, h - 1);
      var row := bits[..stride] + Zeros(rb - stride);
      var more := BitRows(bits[stride..], stride, rb);
      BitRowsBack(bits[stride..], h - 1, stride, rb, rest);
      Assoc(row, more, rest);
      TakeBytesBack(row, more + rest);
      assert row[..stride] + bits[stride..] == bits;
    }
  }

  /** A bitmap's rows are the fewest whole words that hold their bits. */
  lemma {:induction false} BitmapRowsFit(w: int)
    requires 0 < w <= 32767
    ensures 0 < BitStride(w) <= BitmapRowBytes(w) < 0x8000
    ensures BitmapRowBytes(w) % 2 == 0 && w <= 8 * BitmapRowBytes(w) < w + 16
  {
    var words := (w + 15) / 16;
    assert 16 * words <= w + 15 < 16 * words + 16;
    SmallWords(2 * words);
    assert BitmapRowBytes(w) == 2 * words;
  }

  lemma {:induction false} SmallWords(n: nat)
    requires n < 0x8000
    ensures n % 0x1_0000 % 0x8000 == n
  {
  }

  lemma {:induction false} BitmapSplit(w: int, h: int, rest: seq<byte>)
    requires ValidDims(w, h)
    ensures Words(BitmapWords(w, h)) + rest ==
      Words([BitmapRowBytes(w)]) + (Words(RectWords(w, h)) + (Words(PlacementWords(w, h)) + rest))
  {
    hide Words, PlacementWords, RectWords, BitmapRowBytes;
    var rb, rect, place := BitmapRowBytes(w), RectWords(w, h), PlacementWords(w, h);
    WordsAppend([rb] + rect, place);
    WordsAppend([rb], rect);
  }

  lemma {:induction false} BitsRectBack(w: int, h: int, bits: seq<byte>, rest: seq<byte>)
    requires ValidDims(w, h) && |bits| == Area(BitStride(w), h)
    ensures 0 < BitStride(w) <= BitmapRowBytes(w)
    ensures ReadBitsRect(Words(BitmapWords(w, h)) + (BitRows(bits, BitStride(w), BitmapRowBytes(w)) + rest), FromOrigin(w, h))
      == Got(Bitmap(w, h, bits), rest)
  {
    BitmapRowsFit(w);
    hide Words, TakeWords, BitRows, PlacementWords, ReadBitRows, ReadPlacement, BitStride, BitmapRowBytes;
    var rb, rect, place := BitmapRowBytes(w), RectWords(w, h), PlacementWords(w, h);
    var s2 := BitRows(bits, BitStride(w), rb) + rest;
    BitmapSplit(w, h, s2);
    TakeWordsBack([rb], Words(rect) + (Words(place) + s2));
    TakeWordsBack(rect, Words(place) + s2);
    assert RectAt(rect, 0) == FromOrigin(w, h);
    hide RectWords, RectAt;
    PlacementBack(w, h, s2);
    BitRowsBack(bits, h, BitStride(w), rb, rest);
  }

  /** A bitmap picture of any valid size reads back as its bits. */
  lemma {:induction false} BitmapRoundTrip(w: int, h: int, bits: seq<byte>)
    requires ValidDims(w, h) && |bits| == Area(BitStride(w), h)
    ensures 0 < BitStride(w) <= BitmapRowBytes(w)
    ensures ReadPicture(BitmapPicture(w, h, bits)) == Some(Bitmap(w, h, bits))
  {
    BitmapRowsFit(w);
    hide ReadPicture, ReadBitsRect, Words, BitRows, PreludeWords, BitmapWords, BitStride, BitmapRowBytes;
    var data := BitRows(bits, BitStride(w), BitmapRowBytes(w));
    var tail := EvenPad(data) + Word(OP_END_OF_PICTURE);
    BitsRectBack(w, h, bits, tail);
    AssembledBack(w, h, OP_BITS_RECT, BitmapWords(w, h), data, Got(Bitmap(w, h, bits), tail));
  }

  lemma {:induction false} PixelsBack(rgb: seq<byte>, n: nat, rest: seq<byte>)
    requires |rgb| == 3 * n
    ensures ReadPixels(PaddedPixels(rgb) + rest, n) == Got(rgb, rest)
  {
    if n == 0 {
      assert PaddedPixels(rgb) + rest == rest;
    } else {
      var more := PaddedPixels(rgb[3..]) + rest;
      PixelsBack(rgb[3..], n - 1, rest);
      PixelBack(rgb[..3], more, n);
      assert PaddedPixels(rgb) + rest == [0] + rgb[..3] + more;
      assert rgb[..3] + rgb[3..] == rgb;
    }
  }

  lemma {:induction false} PixelBack(pixel: seq<byte>, more: seq<byte>, n: nat)
    requires |pixel| == 3 && n > 0
    ensures ReadPixels([0] + pixel + more, n) ==
      match ReadPixels(more, n - 1) case Fail => Fail case Got(rgb, rest) => Got(pixel + rgb, rest)
  {
    var s := [0] + pixel + more;
    assert s[4..] == more && s[1..4] == pixel;
  }

  lemma {:induction false} DirectPixmapFields(w: int, h: int)
    requires ValidDims(w, h)
    ensures var pm := DirectPixmapWords(w, h);
      pm[2] == Flagged(4 * w % 0x1_0000) && RectAt(pm, 3) == FromOrigin(w, h) && DirectFields(pm)
  {
    hide Flagged;
    var flagged := Flagged(4 * w % 0x1_0000);
    assert DirectPixmapWords(w, h) ==
      [0, 0xFF, flagged, 0, 0, h, w, 0, 1, 0, 0, 0x48, 0, 0x48, 0, 16, 32, 3, 8, 0, 0, 0, 0, 0, 0];
  }

  lemma {:induction false} DirectRectBack(w: int, h: int, rgb: seq<byte>, rest: seq<byte>)
    requires ValidDims(w, h) && |rgb| == 3 * Area(w, h)
    ensures ReadDirectBitsRect(Words(DirectWords(w, h)) + (PaddedPixels(rgb) + rest), FromOrigin(w, h)) ==
      if w <= 8191 then Got(Direct(w, h, rgb), rest) else Fail
  {
    hide Words, TakeWords, PaddedPixels, PlacementWords, ReadPixels, ReadPlacement, DirectPixmapWords, DirectFields, RectAt;
    var pm, place, s2 := DirectPixmapWords(w, h), PlacementWords(w, h), PaddedPixels(rgb) + rest;
    WordsAppend(pm, place);
    assert Words(DirectWords(w, h)) + s2 == Words(pm) + (Words(place) + s2);
    TakeWordsBack(pm, Words(place) + s2);
    DirectPixmapFields(w, h);
    PlacementBack(w, h, s2);
    AreaNonNegative(w, h);
    PixelsBack(rgb, Area(w, h), rest);
  }

  /** A direct-colour picture reads back as its pixels exactly when four bytes a pixel fit the 15
      bits of its row width. */
  lemma {:induction false} DirectRoundTrip(w: int, h: int, rgb: seq<byte>)
    requires ValidDims(w, h) && |rgb| == 3 * Area(w, h)
    ensures ReadPicture(DirectPicture(w, h, rgb)) == if w <= 8191 then Some(Direct(w, h, rgb)) else None
  {
    hide ReadPicture, ReadDirectBitsRect, Words, PaddedPixels, PreludeWords, DirectWords;
    var data := PaddedPixels(rgb);
    var tail := EvenPad(data) + Word(OP_END_OF_PICTURE);
    DirectRectBack(w, h, rgb, tail);
    AssembledBack(w, h, OP_DIRECT_BITS_RECT, DirectWords(w, h), data,
                  if w <= 8191 then Got(Direct(w, h, rgb), tail) else Fail);
  }
}
