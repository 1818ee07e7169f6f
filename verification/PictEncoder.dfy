/** The PICT encoder as it runs: writers that append to a growing byte vector, a row buffer
    refilled for every row, and the three entry points with their error returns. */
module PictEncoder {
  import opened Wrappers
  import opened Arithmetic
  import opened Bits
  import opened BigEndian
  import opened Grid
  import opened Palette
  import opened PixelRows
  import opened PictFormat
  import opened PictRoundTrip
  import PackBits

  datatype PictError =
    | ZeroDim
    | WidthTooLarge(width: int)
    | HeightTooLarge(height: int)
    | LenMismatch(got: int, expected: int)
    | InvalidPixelSize(size: int)

  /** Refusals of `validate_dims`, in its order. */
  function ValidateDims(w: int, h: int): (e: Option<PictError>)
    requires 0 <= w && 0 <= h
    ensures e == None <==> ValidDims(w, h)
  {
    if w == 0 || h == 0 then Some(ZeroDim)
    else if w > 32767 then Some(WidthTooLarge(w))
    else if h > 32767 then Some(HeightTooLarge(h))
    else None
  }

  lemma {:induction false} EntryAt(palette: seq<Rgb>, i: nat)
    requires Colours(palette) && i < |palette| <= 0x1_0000
    ensures EntryWords(palette)[4 * i..4 * i + 4] ==
      var c := palette[i]; [i, c.r * 256 + c.r, c.g * 256 + c.g, c.b * 256 + c.b]
  {
    var ws := EntryWords(palette);
    assert ws[4 * i..4 * i + 4] == [ws[4 * i], ws[4 * i + 1], ws[4 * i + 2], ws[4 * i + 3]];
  }

  /** The byte vector under construction. The words written since the last raw append are kept
      beside it for the proofs. */
  class Writer {
    var out: seq<byte>
    ghost var base: seq<byte>
    ghost var words: seq<word>

    ghost predicate Valid()
      reads this
    {
      out == base + Words(words)
    }

    constructor ()
      ensures Valid() && base == [] && words == []
    {
      out, base, words := [], [], [];
    }

    method WriteU16(v: word)
      requires Valid()
      modifies this
      ensures Valid() && base == old(base) && words == old(words) + [v]
    {
      WordsAppend(words, [v]);
      WordsOne(v);
      Assoc(base, Words(words), Word(v));
      out := out + [v / 256, v % 256];
      words := words + [v];
    }

    /** Two's complement of a signed 16-bit value. */
    method WriteI16(v: int)
      requires Valid() && I16_MIN <= v <= I16_MAX
      modifies this
      ensures Valid() && base == old(base) && words == old(words) + [v % 0x1_0000]
    {
      WriteU16(v % 0x1_0000);
    }

    method WriteU32(v: int)
      requires Valid() && 0 <= v < 0x1_0000_0000
      modifies this
      ensures Valid() && base == old(base) && words == old(words) + Long(v)
    {
      WriteU16(v / 0x1_0000);
      WriteU16(v % 0x1_0000);
      assert words == old(words) + Long(v);
    }

    /** Four bytes; the caller may take them back. */
    method DropU32(v: int)
      requires Valid() && 0 <= v < 0x1_0000_0000 && |words| >= 2 && words[|words| - 2..] == Long(v)
      modifies this
      ensures Valid() && base == old(base) && words == old(words)[..|old(words)| - 2]
    {
      ghost var kept := words[..|words| - 2];
      WordsAppend(kept, Long(v));
      assert words == kept + Long(v);
      Assoc(base, Words(kept), Words(Long(v)));
      out := out[..|out| - 4];
      words := kept;
    }

    /** Raw bytes. */
    method Extend(bytes: seq<byte>)
      requires Valid()
      modifies this
      ensures Valid() && base == out == old(out) + bytes && words == []
    {
      out := out + bytes;
      base, words := out, [];
    }

    method AlignEven()
      requires Valid()
      modifies this
      ensures Valid() && out == old(out) + EvenPad(old(out))
      ensures |old(out)| % 2 == 0 ==> base == old(base) && words == old(words)
      ensures |old(out)| % 2 == 1 ==> words == []
    {
      if |out| % 2 == 1 {
        Extend([0]);
      }
    }

    method WriteRect(w: int, h: int)
      requires Valid() && ValidDims(w, h)
      modifies this
      ensures Valid() && base == old(base) && words == old(words) + RectWords(w, h)
    {
      WriteI16(0);
      WriteI16(0);
      WriteI16(h);
      WriteI16(w);
      assert words == old(words) + RectWords(w, h);
    }

    /** The start of every picture. */
    method WriteCommonPrelude(w: int, h: int)
      requires Valid() && out == [] && ValidDims(w, h)
      modifies this
      ensures Valid() && base == Zeros(512) && words == PreludeWords(w, h)
    {
      Extend(Zeros(512));
      WriteHeader(w, h);
      WriteU16(OP_DEF_HILITE);
      WriteU16(OP_CLIP);
      WriteU16(10);
      WriteRect(w, h);
      assert words == PreludeWords(w, h);
      AlignEven();
    }

    method WriteHeader(w: int, h: int)
      requires Valid() && ValidDims(w, h)
      modifies this
      ensures Valid() && base == old(base) && words == old(words) + HeaderWords(w, h)
    {
      hide Valid;
      WriteU16(0);
      WriteRect(w, h);
      WriteU16(OP_VERSION);
      WriteU16(VERSION_2);
      WriteHeaderOp(w, h);
      assert words == old(words) + HeaderWords(w, h);
    }

    method WriteHeaderOp(w: int, h: int)
      requires Valid() && ValidDims(w, h)
      modifies this
      ensures Valid() && base == old(base)
      ensures words == old(words) + [OP_HEADER, 0xFFFF, 0, 0x48, 0, 0x48, 0] + RectWords(w, h) + [0, 0]
    {
      hide Valid, RectWords;
      WriteU16(OP_HEADER);
      WriteI16(-1);
      WriteU16(0);
      WriteResolution();
      WriteRect(w, h);
      WriteU32(0);
    }

    /** 72 dots an inch, both ways. */
    method WriteResolution()
      requires Valid()
      modifies this
      ensures Valid() && base == old(base) && words == old(words) + [0x48, 0, 0x48, 0]
    {
      hide Valid;
      WriteU32(0x0048_0000);
      WriteU32(0x0048_0000);
    }

    /** Row width, bounds, version, packing and an unused long field of a pixmap. */
    method WritePixmapBounds(rowBytes: word, w: int, h: int, packType: word)
      requires Valid() && ValidDims(w, h)
      modifies this
      ensures Valid() && base == old(base)
      ensures words == old(words) + [rowBytes] + RectWords(w, h) + [0, packType, 0, 0]
    {
      hide Valid, RectWords;
      WriteU16(rowBytes);
      WriteRect(w, h);
      WriteU16(0);
      WriteU16(packType);
      WriteU32(0);
    }

    method WritePixmapHeaderIndexed(w: int, h: int, ps: int)
      requires Valid() && ValidDims(w, h) && ValidPixelSize(ps)
      modifies this
      ensures Valid() && base == old(base) && words == old(words) + PixmapWords(w, h, ps)
    {
      hide Valid, RectWords;
      var rowBytes := RowBytes(w, ps);
      hide RowBytes;
      WritePixmapBounds(Flagged(rowBytes), w, h, 0);
      WriteResolution();
      WritePixelLayout(0, ps, 1, ps);
      assert words == old(words) + PixmapWords(w, h, ps);
    }

    /** Pixel type and sizes, then three unused long fields. */
    method WritePixelLayout(pixelType: word, pixelSize: word, cmpCount: word, cmpSize: word)
      requires Valid()
      modifies this
      ensures Valid() && base == old(base)
      ensures words == old(words) + [pixelType, pixelSize, cmpCount, cmpSize, 0, 0, 0, 0, 0, 0]
    {
      hide Valid;
      WriteU16(pixelType);
      WriteU16(pixelSize);
      WriteU16(cmpCount);
      WriteU16(cmpSize);
      WriteU32(0);
      WriteU32(0);
      WriteU32(0);
    }

    method WriteColorTable(palette: seq<Rgb>)
      requires Valid() && Colours(palette) && 0 < |palette| <= 0x1_0000
      modifies this
      ensures Valid() && base == old(base) && words == old(words) + ColorTableWords(palette)
    {
      hide EntryWord;
      WriteU32(0);
      WriteU16(0);
      WriteU16(|palette| - 1);
      ghost var entries := EntryWords(palette);
      ghost var head := words;
      for i := 0 to |palette|
        invariant Valid() && base == old(base)
        invariant words == head + entries[..4 * i]
      {
        WriteEntry(palette, i);
        assert entries[..4 * i] + entries[4 * i..4 * i + 4] == entries[..4 * (i + 1)];
      }
      assert words == old(words) + ColorTableWords(palette);
    }

    /** Entry i: its number and the three channels, each byte doubled into a word. */
    method WriteEntry(palette: seq<Rgb>, i: nat)
      requires Valid() && Colours(palette) && i < |palette| <= 0x1_0000
      modifies this
      ensures Valid() && base == old(base) && words == old(words) + EntryWords(palette)[4 * i..4 * i + 4]
    {
      hide Valid, EntryWords;
      var c := palette[i];
      WriteU16(i);
      WriteU16(c.r * 256 + c.r);
      WriteU16(c.g * 256 + c.g);
      WriteU16(c.b * 256 + c.b);
      EntryAt(palette, i);
    }

    method WritePlacement(w: int, h: int)
      requires Valid() && ValidDims(w, h)
      modifies this
      ensures Valid() && base == old(base) && words == old(words) + PlacementWords(w, h)
    {
      WriteRect(w, h);
      WriteRect(w, h);
      WriteU16(0);
      assert words == old(words) + PlacementWords(w, h);
    }

    /** The opcode, first as four bytes, which are dropped again, then as two. */
    method WriteDirectOpcode()
      requires Valid()
      modifies this
      ensures Valid() && base == old(base) && words == old(words) + [OP_DIRECT_BITS_RECT]
    {
      hide Valid;
      WriteU32(OP_DIRECT_BITS_RECT);
      DropU32(OP_DIRECT_BITS_RECT);
      WriteU16(OP_DIRECT_BITS_RECT);
    }

    method WriteDirectPixmap(w: int, h: int)
      requires Valid() && ValidDims(w, h)
      modifies this
      ensures Valid() && base == old(base) && words == old(words) + DirectWords(w, h)
    {
      hide Valid, RectWords, PlacementWords;
      WriteU32(0xFF);
      WritePixmapBounds(Flagged(4 * w % 0x1_0000), w, h, 1);
      WriteResolution();
      WritePixelLayout(16, 32, 3, 8);
      assert words == old(words) + DirectPixmapWords(w, h);
      hide DirectPixmapWords;
      WritePlacement(w, h);
      assert words == old(words) + DirectWords(w, h);
    }

    /** Length prefix and packed bytes of one row. */
    method WriteRow(rb: nat, packed: seq<byte>)
      requires Valid()
      modifies this
      ensures Valid() && out == old(out) + Frame(rb, packed)
    {
      ghost var before := out;
      if rb > 250 {
        Extend([]);
        WriteU16(|packed| % 0x1_0000);
        WordsOne(|packed| % 0x1_0000);
        assert words == [|packed| % 0x1_0000];
      } else {
        Extend([|packed| % 0x100]);
      }
      Extend(packed);
      assert out == before + Frame(rb, packed);
    }

    /** Pad to even length and close the picture. */
    method Finish()
      requires Valid()
      modifies this
      ensures Valid() && out == old(out) + EvenPad(old(out)) + Word(OP_END_OF_PICTURE)
    {
      AlignEven();
      Extend([]);
      WriteU16(OP_END_OF_PICTURE);
      WordsOne(OP_END_OF_PICTURE);
      assert words == [OP_END_OF_PICTURE];
    }
  }

  // ---- Rows so far ----

  /** done is what the rows of the first c pixels have emitted. */
  ghost predicate RowsDone(px: seq<byte>, w: nat, ps: int, rb: nat, c: nat, done: seq<byte>)
    requires ValidPixelSize(ps) && w > 0 && c <= |px|
  {
    Frames(px, w, ps, rb) == done + Frames(px[c..], w, ps, rb)
  }

  lemma {:induction false} RowsStart(px: seq<byte>, w: nat, ps: int, rb: nat)
    requires ValidPixelSize(ps) && w > 0
    ensures RowsDone(px, w, ps, rb, 0, [])
  {
    assert px[0..] == px;
  }

  lemma {:induction false} RowsNext(px: seq<byte>, w: nat, ps: int, rb: nat, c: nat, done: seq<byte>)
    requires ValidPixelSize(ps) && w > 0 && c + w <= |px| && RowsDone(px, w, ps, rb, c, done)
    ensures RowsDone(px, w, ps, rb, c + w, done + RowFrame(px[c..c + w], ps, rb))
  {
    hide RowFrame;
    var t := px[c..];
    assert t[..w] == px[c..c + w] && t[w..] == px[c + w..];
    Assoc(done, RowFrame(t[..w], ps, rb), Frames(t[w..], w, ps, rb));
  }

  lemma {:induction false} RowsEnd(px: seq<byte>, w: nat, ps: int, rb: nat, done: seq<byte>)
    requires ValidPixelSize(ps) && w > 0 && RowsDone(px, w, ps, rb, |px|, done)
    ensures done == Frames(px, w, ps, rb)
  {
    assert px[|px|..] == [];
    assert done + [] == done;
  }

  // ---- Indexed pictures ----

  /** What `encode_packbits` returns: the refusals in their order, or the picture. */
  function IndexedResult(w: int, h: int, ps: int, palette: seq<Rgb>, indices: seq<byte>): Result<seq<byte>, PictError>
    requires 0 <= w && 0 <= h && Colours(palette)
  {
    if !ValidPixelSize(ps) then Err(InvalidPixelSize(ps))
    else
      assert 0 < Pow2(ps) <= 256 by { MaskKeepsLow(0, ps); }
      if |palette| != Pow2(ps) then Err(LenMismatch(|palette|, Pow2(ps)))
      else if ValidateDims(w, h) != None then Err(ValidateDims(w, h).value)
      else if |indices| != Area(w, h) then Err(LenMismatch(|indices|, Area(w, h)))
      else Ok(IndexedPicture(w, h, ps, palette, indices))
  }

  /** A success decodes to the given image with every index cut to the pixel size, unless it is 8
      bits deep and 32767 wide. */
  method EncodePackbits(w: int, h: int, ps: int, palette: seq<Rgb>, indices: seq<byte>)
    returns (r: Result<seq<byte>, PictError>)
    requires 0 <= w && 0 <= h && Colours(palette)
    ensures r == IndexedResult(w, h, ps, palette, indices)
    ensures r.Ok? && !(ps == 8 && w == 32767) ==>
      ValidPixelSize(ps) && ReadPicture(r.value) == Some(Indexed(w, h, ps, palette, MaskedRow(indices, ps)))
  {
    hide ReadPicture, IndexedPicture, MaskedRow, Area;
    if ps != 1 && ps != 2 && ps != 4 && ps != 8 {
      return Err(InvalidPixelSize(ps));
    }
    MaskKeepsLow(0, ps);
    var expectedPalette := Shl(1, ps);
    if |palette| != expectedPalette {
      return Err(LenMismatch(|palette|, expectedPalette));
    }
    var refusal := ValidateDims(w, h);
    if refusal != None {
      return Err(refusal.value);
    }
    AreaIsProduct(w, h);
    var expected := w * h;
    if |indices| != expected {
      return Err(LenMismatch(|indices|, expected));
    }
    var picture := EmitIndexed(w, h, ps, palette, indices);
    IndexedRoundTrip(w, h, ps, palette, indices);
    r := Ok(picture);
  }

  method EmitIndexed(w: int, h: int, ps: int, palette: seq<Rgb>, indices: seq<byte>) returns (picture: seq<byte>)
    requires ValidDims(w, h) && ValidPixelSize(ps) && Colours(palette) && 0 < |palette| <= 0x1_0000
    requires |indices| == Area(w, h)
    ensures picture == IndexedPicture(w, h, ps, palette, indices)
  {
    hide Frames, RowBytes, IndexedHead, Words, Frame, Area, Writer.Valid;
    var writer := EmitIndexedHead(w, h, ps, palette);
    ghost var head := writer.out;
    WriteRows(w, h, ps, indices, writer);
    writer.Finish();
    picture := writer.out;
    ghost var data := Frames(indices, w, ps, RowBytes(w, ps));
    EvenPadBehind(head, data);
    assert picture == head + data + EvenPad(data) + Word(OP_END_OF_PICTURE);
  }

  lemma {:induction false} EvenPadBehind(head: seq<byte>, data: seq<byte>)
    requires |head| % 2 == 0
    ensures EvenPad(head + data) == EvenPad(data)
  {
  }

  method EmitIndexedHead(w: int, h: int, ps: int, palette: seq<Rgb>) returns (writer: Writer)
    requires ValidDims(w, h) && ValidPixelSize(ps) && Colours(palette) && 0 < |palette| <= 0x1_0000
    ensures fresh(writer) && writer.Valid() && |writer.out| % 2 == 0
    ensures writer.out == Zeros(512) + Words(IndexedHead(w, h, ps, palette))
  {
    hide PreludeWords, PixmapWords, ColorTableWords, PlacementWords, Words;
    writer := new Writer();
    writer.WriteCommonPrelude(w, h);
    writer.AlignEven();
    writer.WriteU16(OP_PACK_BITS_RECT);
    writer.WritePixmapHeaderIndexed(w, h, ps);
    writer.WriteColorTable(palette);
    writer.WritePlacement(w, h);
    assert writer.words == IndexedHead(w, h, ps, palette);
  }

  method WriteRows(w: int, h: int, ps: int, indices: seq<byte>, writer: Writer)
    requires ValidDims(w, h) && ValidPixelSize(ps) && |indices| == Area(w, h) && writer.Valid()
    modifies writer
    ensures writer.Valid() && writer.out == old(writer.out) + Frames(indices, w, ps, RowBytes(w, ps))
  {
    hide Area, RowsDone, Frames, RowFrame, RowBytes, PerByte, ValidPixelSize, Writer.Valid;
    var rowBytes := RowBytes(w, ps);
    var rowBuf := new int[rowBytes];
    AreaZero(w);
    RowsStart(indices, w, ps, rowBytes);
    ghost var done: seq<byte> := [];
    for y := 0 to h
      invariant writer.Valid() && writer.out == old(writer.out) + done
      invariant 0 <= Area(w, y) <= |indices| && RowsDone(indices, w, ps, rowBytes, Area(w, y), done)
    {
      RowWithin(w, h, y);
      RowBytesHoldRow(w, ps);
      var row := indices[y * w..y * w + w];
      WriteIndexRow(ps, row, rowBuf, writer);
      RowsNext(indices, w, ps, rowBytes, Area(w, y), done);
      done := done + RowFrame(row, ps, rowBytes);
    }
    RowsEnd(indices, w, ps, rowBytes, done);
  }

  lemma {:induction false} AreaZero(w: int)
    ensures Area(w, 0) == 0
  {
  }

  /** Row y lies inside the image. */
  lemma {:induction false} RowWithin(w: int, h: int, y: nat)
    requires ValidDims(w, h) && y < h
    ensures w > 0 && 0 <= y * w == Area(w, y) && Area(w, y + 1) == Area(w, y) + w <= Area(w, h)
  {
    AreaNonNegative(w, y);
    AreaIsProduct(w, y);
    AreaMonotone(w, y + 1, h);
  }

  /** Pack one row of indices into the row buffer, run-length encode it, and append it. */
  method WriteIndexRow(ps: int, row: seq<byte>, rowBuf: array<int>, writer: Writer)
    requires ValidPixelSize(ps) && |row| <= rowBuf.Length * PerByte(ps) && writer.Valid()
    modifies writer, rowBuf
    ensures writer.Valid() && writer.out == old(writer.out) + RowFrame(row, ps, rowBuf.Length)
  {
    PackRow(row, ps, rowBuf);
    var packed := PackBits.Pack(rowBuf[..]);
    writer.WriteRow(rowBuf.Length, packed);
  }

  /** The 8-bit wrapper. */
  method EncodeIndexed(w: int, h: int, palette: seq<Rgb>, indices: seq<byte>) returns (r: Result<seq<byte>, PictError>)
    requires 0 <= w && 0 <= h && Colours(palette) && |palette| == 256
    ensures r == IndexedResult(w, h, 8, palette, indices)
  {
    r := EncodePackbits(w, h, 8, palette, indices);
  }

  // ---- Bitmaps ----

  function BitmapResult(w: int, h: int, bits: seq<byte>): Result<seq<byte>, PictError>
    requires 0 <= w && 0 <= h
  {
    if ValidateDims(w, h) != None then Err(ValidateDims(w, h).value)
    else if |bits| != Area(BitStride(w), h) then Err(LenMismatch(|bits|, Area(BitStride(w), h)))
    else
      BitStrideFits(w);
      Ok(BitmapPicture(w, h, bits))
  }

  lemma {:induction false} BitStrideFits(w: int)
    requires 0 < w <= 32767
    ensures 0 < BitStride(w) <= BitmapRowBytes(w) && BitStride(w) <= 32767
  {
  }

  /** A success decodes to the given bits. */
  method EncodeBitmap(w: int, h: int, bits: seq<byte>) returns (r: Result<seq<byte>, PictError>)
    requires 0 <= w && 0 <= h
    ensures r == BitmapResult(w, h, bits)
    ensures r.Ok? ==> ReadPicture(r.value) == Some(Bitmap(w, h, bits))
  {
    hide ReadPicture, BitmapPicture, Area;
    var refusal := ValidateDims(w, h);
    if refusal != None {
      return Err(refusal.value);
    }
    var expectedRow := BitStride(w);
    AreaIsProduct(expectedRow, h);
    var expected := expectedRow * h;
    if |bits| != expected {
      return Err(LenMismatch(|bits|, expected));
    }
    BitStrideFits(w);
    var picture := EmitBitmap(w, h, bits);
    BitmapRoundTrip(w, h, bits);
    r := Ok(picture);
  }

  method EmitBitmap(w: int, h: int, bits: seq<byte>) returns (picture: seq<byte>)
    requires ValidDims(w, h) && |bits| == Area(BitStride(w), h)
    ensures 0 < BitStride(w) <= BitmapRowBytes(w)
    ensures picture == BitmapPicture(w, h, bits)
  {
    hide BitRows, PreludeWords, Words, BitStride, BitmapRowBytes, Area, RectWords;
    BitStrideFits(w);
    var writer := new Writer();
    writer.WriteCommonPrelude(w, h);
    writer.AlignEven();
    writer.WriteU16(OP_BITS_RECT);
    writer.WriteU16(BitmapRowBytes(w));
    writer.WriteRect(w, h);
    writer.WriteRect(w, h);
    writer.WriteRect(w, h);
    writer.WriteU16(0);
    assert writer.words == PreludeWords(w, h) + [OP_BITS_RECT] + BitmapWords(w, h);
    ghost var head := writer.out;
    WriteBitRows(BitStride(w), h, BitmapRowBytes(w), bits, writer);
    writer.Finish();
    picture := writer.out;
    ghost var data := BitRows(bits, BitStride(w), BitmapRowBytes(w));
    assert picture == head + data + EvenPad(head + data) + Word(OP_END_OF_PICTURE);
  }

  /** done is what the first c bytes of the bitmap have emitted. */
  ghost predicate BitRowsDone(bits: seq<byte>, stride: nat, rb: nat, c: nat, done: seq<byte>)
    requires 0 < stride <= rb && c <= |bits|
  {
    BitRows(bits, stride, rb) == done + BitRows(bits[c..], stride, rb)
  }

  lemma {:induction false} BitRowsNext(bits: seq<byte>, stride: nat, rb: nat, c: nat, done: seq<byte>)
    requires 0 < stride <= rb && c + stride <= |bits| && BitRowsDone(bits, stride, rb, c, done)
    ensures BitRowsDone(bits, stride, rb, c + stride, done + (bits[c..c + stride] + Zeros(rb - stride)))
  {
    var t := bits[c..];
    var row := t[..stride] + Zeros(rb - stride);
    assert t[..stride] == bits[c..c + stride] && t[stride..] == bits[c + stride..];
    Assoc(done, row, BitRows(t[stride..], stride, rb));
  }

  lemma {:induction false} BitRowsEnds(bits: seq<byte>, stride: nat, rb: nat, done: seq<byte>)
    requires 0 < stride <= rb
    ensures BitRowsDone(bits, stride, rb, 0, [])
    ensures BitRowsDone(bits, stride, rb, |bits|, done) ==> done == BitRows(bits, stride, rb)
  {
    assert bits[0..] == bits && bits[|bits|..] == [];
    assert done + [] == done;
  }

  method WriteBitRows(stride: nat, h: int, rb: nat, bits: seq<byte>, writer: Writer)
    requires 0 < stride <= rb && stride <= 32767 && 0 < h <= 32767 && |bits| == Area(stride, h) && writer.Valid()
    modifies writer
    ensures writer.Valid() && writer.out == old(writer.out) + BitRows(bits, stride, rb)
  {
    hide Area, BitRowsDone, BitRows, Writer.Valid;
    ghost var done: seq<byte> := [];
    AreaZero(stride);
    BitRowsEnds(bits, stride, rb, done);
    for y := 0 to h
      invariant writer.Valid() && writer.out == old(writer.out) + done
      invariant 0 <= Area(stride, y) <= |bits| && BitRowsDone(bits, stride, rb, Area(stride, y), done)
    {
      RowWithin(stride, h, y);
      var row := bits[y * stride..y * stride + stride];
      writer.Extend(row);
      writer.Extend(Zeros(rb - stride));
      BitRowsNext(bits, stride, rb, Area(stride, y), done);
      done := done + (row + Zeros(rb - stride));
    }
    BitRowsEnds(bits, stride, rb, done);
  }

  // ---- Direct colour ----

  function DirectResult(w: int, h: int, rgb: seq<byte>): Result<seq<byte>, PictError>
    requires 0 <= w && 0 <= h
  {
    if ValidateDims(w, h) != None then Err(ValidateDims(w, h).value)
    else if |rgb| != 3 * Area(w, h) then Err(LenMismatch(|rgb|, 3 * Area(w, h)))
    else Ok(DirectPicture(w, h, rgb))
  }

  /** A success decodes to the given pixels exactly up to width 8191. */
  method EncodeDirectBitsRectRgb(w: int, h: int, rgb: seq<byte>) returns (r: Result<seq<byte>, PictError>)
    requires 0 <= w && 0 <= h
    ensures r == DirectResult(w, h, rgb)
    ensures r.Ok? ==> ReadPicture(r.value) == if w <= 8191 then Some(Direct(w, h, rgb)) else None
  {
    hide ReadPicture, DirectPicture, Area;
    var refusal := ValidateDims(w, h);
    if refusal != None {
      return Err(refusal.value);
    }
    AreaIsProduct(w, h);
    var expected := w * h * 3;
    if |rgb| != expected {
      return Err(LenMismatch(|rgb|, expected));
    }
    var picture := EmitDirect(w, h, rgb);
    DirectRoundTrip(w, h, rgb);
    r := Ok(picture);
  }

  method EmitDirect(w: int, h: int, rgb: seq<byte>) returns (picture: seq<byte>)
    requires ValidDims(w, h) && |rgb| % 3 == 0
    ensures picture == DirectPicture(w, h, rgb)
  {
    hide PaddedPixels, PreludeWords, Words, DirectWords;
    var writer := new Writer();
    writer.WriteCommonPrelude(w, h);
    writer.AlignEven();
    writer.WriteDirectOpcode();
    writer.WriteDirectPixmap(w, h);
    assert writer.words == PreludeWords(w, h) + [OP_DIRECT_BITS_RECT] + DirectWords(w, h);
    ghost var head := writer.out;
    WritePixels(rgb, writer);
    writer.Finish();
    picture := writer.out;
    ghost var data := PaddedPixels(rgb);
    assert picture == head + data + EvenPad(head + data) + Word(OP_END_OF_PICTURE);
  }

  /** done is what the first c channel bytes have emitted. */
  ghost predicate PixelsDone(rgb: seq<byte>, c: nat, done: seq<byte>)
    requires c <= |rgb|
  {
    PaddedPixels(rgb) == done + PaddedPixels(rgb[c..])
  }

  lemma {:induction false} PixelsNext(rgb: seq<byte>, c: nat, done: seq<byte>)
    requires c + 3 <= |rgb| && PixelsDone(rgb, c, done)
    ensures PixelsDone(rgb, c + 3, done + [0, rgb[c], rgb[c + 1], rgb[c + 2]])
  {
    var t := rgb[c..];
    var pixel := [0, rgb[c], rgb[c + 1], rgb[c + 2]];
    assert [0] + t[..3] == pixel && t[3..] == rgb[c + 3..];
    Assoc(done, pixel, PaddedPixels(t[3..]));
  }

  lemma {:induction false} PixelsEnds(rgb: seq<byte>, done: seq<byte>)
    ensures PixelsDone(rgb, 0, [])
    ensures PixelsDone(rgb, |rgb|, done) ==> done == PaddedPixels(rgb)
  {
    assert rgb[0..] == rgb && rgb[|rgb|..] == [];
    assert done + [] == done;
  }

  /** Four bytes a pixel, unpacked. */
  method WritePixels(rgb: seq<byte>, writer: Writer)
    requires |rgb| % 3 == 0 && writer.Valid()
    modifies writer
    ensures writer.Valid() && writer.out == old(writer.out) + PaddedPixels(rgb)
  {
    hide PixelsDone, PaddedPixels, Writer.Valid;
    ghost var done: seq<byte> := [];
    PixelsEnds(rgb, done);
    var c := 0;
    while c < |rgb|
      invariant 0 <= c <= |rgb| && (|rgb| - c) % 3 == 0
      invariant writer.Valid() && writer.out == old(writer.out) + done && PixelsDone(rgb, c, done)
    {
      writer.Extend([0, rgb[c], rgb[c + 1], rgb[c + 2]]);
      PixelsNext(rgb, c, done);
      done := done + [0, rgb[c], rgb[c + 1], rgb[c + 2]];
      c := c + 3;
    }
    PixelsEnds(rgb, done);
  }
}
