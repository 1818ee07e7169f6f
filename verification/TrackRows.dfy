/** The fields of a row as a client reads them, tag by tag. */
module TrackRows {
  import opened Wrappers
  import opened Arithmetic
  import opened BigEndian
  import opened Dmap
  import opened TrackSort
  import opened Listing
  import opened PlaylistListing
  import opened Responses

  // ---- Numbers of any width ----

  function ReadUnsigned(s: seq<byte>): nat {
    if s == [] then 0 else ReadUnsigned(s[..|s| - 1]) * 256 + s[|s| - 1]
  }

  /** 256 to the width. */
  function Range256(width: nat): (p: nat)
    ensures p > 0
  {
    if width == 0 then 1 else 256 * Range256(width - 1)
  }

  lemma {:induction false} UnsignedBack(width: nat, v: nat)
    requires v < Range256(width)
    ensures ReadUnsigned(Unsigned(width, v)) == v
  {
    if width > 0 {
      UnsignedBack(width - 1, v / 256);
      assert Unsigned(width, v)[..width - 1] == Unsigned(width - 1, v / 256);
    }
  }

  lemma {:induction false} UnsignedCut(v: nat)
    ensures ReadUnsigned(Unsigned(2, v)) == v % 0x1_0000
  {
    var bytes := Unsigned(2, v);
    assert bytes == [v / 256 % 256, v % 256] by {
      assert Unsigned(2, v) == Unsigned(1, v / 256) + [v % 256];
      assert Unsigned(1, v / 256) == Unsigned(0, v / 256 / 256) + [v / 256 % 256];
    }
    assert bytes[..1] == [v / 256 % 256] && bytes[..1][..0] == [];
    assert ReadUnsigned(bytes[..1]) == ReadUnsigned(bytes[..1][..0]) * 256 + v / 256 % 256;
  }

  lemma {:induction false} LongBack(v: nat)
    requires v < U32
    ensures ReadUnsigned(Be32(v)) == v
  {
    Be32Back(v);
    var s := Be32(v);
    hide Be32;
    assert s[..3][..2] == s[..2] && s[..2][..1] == s[..1] && s[..1][..0] == [];
    assert ReadUnsigned(s[..1]) == ReadUnsigned(s[..1][..0]) * 256 + s[0];
    assert ReadUnsigned(s[..2]) == ReadUnsigned(s[..2][..1]) * 256 + s[1];
    assert ReadUnsigned(s[..3]) == ReadUnsigned(s[..3][..2]) * 256 + s[2];
  }

  // ---- Fields by their tags ----

  /** A tag and what is written under it, if anything is. */
  datatype Slot = Slot(tag: Tag, value: Option<seq<byte>>)

  function Written1(s: Slot): seq<Element> {
    if s.value.Some? then [Leaf(s.tag, s.value.value)] else []
  }

  function Flat(slots: seq<Slot>): seq<Element> {
    if slots == [] then [] else Flat(slots[..|slots| - 1]) + Written1(slots[|slots| - 1])
  }

  predicate DistinctTags(slots: seq<Slot>) {
    forall i, j :: 0 <= i < j < |slots| ==> slots[i].tag != slots[j].tag
  }

  lemma {:induction false} FieldValueAppend(a: seq<Element>, b: seq<Element>, t: Tag)
    ensures FieldValue(a + b, t) == if FieldValue(a, t).Some? then FieldValue(a, t) else FieldValue(b, t)
  {
    if a == [] {
      assert a + b == b;
    } else {
      FieldValueAppend(a[1..], b, t);
      assert (a + b)[1..] == a[1..] + b;
    }
  }

  lemma {:induction false} FlatOne(slots: seq<Slot>, s: Slot)
    ensures Flat(slots + [s]) == Flat(slots) + Written1(s)
  {
    assert (slots + [s])[..|slots|] == slots;
  }

  lemma {:induction false} FlatNothing()
    ensures Flat([]) == []
  {
  }

  lemma {:induction false} FlatAppend(a: seq<Slot>, b: seq<Slot>)
    ensures Flat(a + b) == Flat(a) + Flat(b)
    decreases |b|
  {
    hide Flat;
    if b == [] {
      FlatNothing();
      assert a + b == a && Flat(a) + [] == Flat(a);
    } else {
      var front, last := b[..|b| - 1], b[|b| - 1];
      FlatAppend(a, front);
      FlatOne(a + front, last);
      FlatOne(front, last);
      assert front + [last] == b && a + front + [last] == a + b;
    }
  }

  lemma {:induction false} AbsentTag(slots: seq<Slot>, t: Tag)
    requires forall i :: 0 <= i < |slots| ==> slots[i].tag != t
    ensures FieldValue(Flat(slots), t) == None
    decreases |slots|
  {
    if slots != [] {
      var n := |slots| - 1;
      AbsentTag(slots[..n], t);
      FieldValueAppend(Flat(slots[..n]), Written1(slots[n]), t);
      OneTag(slots[n], t);
    }
  }

  lemma {:induction false} OneTag(s: Slot, t: Tag)
    ensures FieldValue(Written1(s), t) == if s.tag == t then s.value else None
  {
    if s.value.Some? {
      assert Written1(s)[1..] == [];
    }
  }

  /** Under each of some distinct tags a client finds what was written there. */
  lemma {:induction false} SlotFound(slots: seq<Slot>, i: nat)
    requires DistinctTags(slots) && i < |slots|
    ensures FieldValue(Flat(slots), slots[i].tag) == slots[i].value
    decreases |slots|
  {
    hide FieldValue, Written1;
    var n, t := |slots| - 1, slots[i].tag;
    FieldValueAppend(Flat(slots[..n]), Written1(slots[n]), t);
    OneTag(slots[n], t);
    if i < n {
      SlotFound(slots[..n], i);
      assert slots[n].tag != t;
    } else {
      AbsentTag(slots[..n], t);
    }
  }

  // ---- Tracks ----

  function TextBytes(cs: Charset, s: Option<string>): Option<seq<byte>> {
    if s.Some? then Some(cs(s.value)) else None
  }

  function ShortBytes(v: Option<nat>): Option<seq<byte>> {
    if v.Some? then Some(Unsigned(2, v.value)) else None
  }

  function LongBytes(v: Option<nat>): Option<seq<byte>> {
    if v.Some? then Some(Be32(v.value)) else None
  }

  function HeadSlots(t: Track, cs: Charset): (s: seq<Slot>)
    ensures |s| == 10
  {
    [Slot("mikd", Some(Unsigned(1, 2))), Slot("miid", Some(Be32(t.id))), Slot("mper", Some(Unsigned(8, t.id))),
     Slot("minm", Some(cs(t.title))), Slot("asar", TextBytes(cs, t.artist)), Slot("asal", TextBytes(cs, t.album)),
     Slot("asaa", TextBytes(cs, t.albumArtist)), Slot("asgn", TextBytes(cs, t.genre)),
     Slot("asfm", Some(cs(FormatString(t.format)))), Slot("asdk", Some(Unsigned(1, 0)))]
  }

  function TailSlots(t: Track, place: Option<nat>): (s: seq<Slot>)
    ensures |s| == 8
  {
    [Slot("astn", ShortBytes(t.trackNumber)), Slot("asdn", ShortBytes(t.discNumber)), Slot("asyr", ShortBytes(t.year)),
     Slot("astm", LongBytes(t.durationMs)), Slot("asbr", ShortBytes(t.bitrateKbps)), Slot("assr", LongBytes(t.sampleRate)),
     Slot("assz", LongBytes(Capped(t.sizeBytes))), Slot("mpco", LongBytes(place))]
  }

  lemma {:induction false} FirstHalfIsFlat(t: Track, cs: Charset)
    ensures Flat(HeadSlots(t, cs)[..5]) ==
      [] + [Responses.U8("mikd", 2)] + [U32Field("miid", t.id)] + [U64("mper", t.id)] + [Leaf("minm", cs(t.title))]
      + OptText("asar", t.artist, cs)
  {
    hide Unsigned, Be32, FormatString, Flat;
    var s := HeadSlots(t, cs);
    FlatNothing();
    FlatStep(s, 0);
    FlatStep(s, 1);
    FlatStep(s, 2);
    FlatStep(s, 3);
    FlatStep(s, 4);
  }

  lemma {:induction false} HeadIsFlat(t: Track, cs: Charset)
    ensures TrackHead(t, cs) == Flat(HeadSlots(t, cs))
  {
    FirstHalfIsFlat(t, cs);
    hide Unsigned, Be32, FormatString, Flat;
    var s := HeadSlots(t, cs);
    FlatStep(s, 5);
    FlatStep(s, 6);
    FlatStep(s, 7);
    FlatStep(s, 8);
    FlatStep(s, 9);
    assert s[..10] == s;
  }

  lemma {:induction false} TailIsFlat(t: Track, place: Option<nat>)
    ensures TrackTail(t, place) == Flat(TailSlots(t, place))
  {
    hide Unsigned, Be32, Flat, Capped;
    var s := TailSlots(t, place);
    FlatNothing();
    FlatStep(s, 0);
    FlatStep(s, 1);
    FlatStep(s, 2);
    FlatStep(s, 3);
    FlatStep(s, 4);
    FlatStep(s, 5);
    FlatStep(s, 6);
    FlatStep(s, 7);
    assert s[..8] == s;
  }

  lemma {:induction false} FlatStep(s: seq<Slot>, i: nat)
    requires i < |s|
    ensures Flat(s[..i + 1]) == Flat(s[..i]) + Written1(s[i])
    ensures i == 0 ==> s[..0] == []
  {
    assert s[..i + 1] == s[..i] + [s[i]];
    FlatOne(s[..i], s[i]);
  }

  function TrackSlots(t: Track, place: Option<nat>, cs: Charset): (s: seq<Slot>)
    ensures |s| == 18
  {
    HeadSlots(t, cs) + TailSlots(t, place)
  }

  /** The last two letters tell the tags of a track apart. */
  function TagCode(t: Tag): int {
    t[2] as int * 128 + t[3] as int
  }

  const CODES: seq<int> := [13796, 13540, 13042, 14189, 12530, 12524, 12513, 13294, 13165, 12907,
    14958, 12910, 15602, 14957, 12658, 14834, 14842, 12783]

  lemma {:induction false} CodesDiffer(i: nat, j: nat)
    requires i < j < 18
    ensures CODES[i] != CODES[j]
  {
  }

  lemma {:induction false} HeadCodes(t: Track, cs: Charset, i: nat)
    requires i < 10
    ensures TagCode(HeadSlots(t, cs)[i].tag) == CODES[i]
  {
    hide Unsigned, Be32, TextBytes, FormatString;
  }

  lemma {:induction false} TailCodes(t: Track, place: Option<nat>, i: nat)
    requires i < 8
    ensures TagCode(TailSlots(t, place)[i].tag) == CODES[10 + i]
  {
    hide Unsigned, Be32, LongBytes, ShortBytes, Capped;
  }

  lemma {:induction false} TagsDistinct(t: Track, place: Option<nat>, cs: Charset)
    ensures DistinctTags(TrackSlots(t, place, cs))
  {
    hide TagCode, HeadSlots, TailSlots;
    var s := TrackSlots(t, place, cs);
    forall i, j | 0 <= i < j < |s|
      ensures s[i].tag != s[j].tag
    {
      SlotCode(t, place, cs, i);
      SlotCode(t, place, cs, j);
      CodesDiffer(i, j);
    }
  }

  lemma {:induction false} SlotCode(t: Track, place: Option<nat>, cs: Charset, i: nat)
    requires i < 18
    ensures TagCode(TrackSlots(t, place, cs)[i].tag) == CODES[i]
  {
    hide TagCode, HeadSlots, TailSlots;
    if i < 10 {
      HeadCodes(t, cs, i);
    } else {
      TailCodes(t, place, i - 10);
    }
  }

  /** The format a scanned file has by its extension in lower case. */
  function Classify(ext: string): Option<AudioFormat> {
    if ext == "mp3" then Some(Mp3)
    else if ext == "m4a" || ext == "aac" then Some(Aac)
    else if ext == "flac" then Some(Flac)
    else if ext == "wav" then Some(Wav)
    else if ext == "aiff" || ext == "aif" then Some(Aiff)
    else if ext == "ogg" || ext == "oga" then Some(Ogg)
    else None
  }

  /** What a client is told of a format is an extension by which a scanned file has it; lossless AAC goes
      by that of AAC, and an unknown format by one that is not scanned. */
  lemma {:induction false} FormatIsExtension(f: AudioFormat)
    ensures Classify(FormatString(f)) == if f == Alac then Some(Aac) else if f == OtherFormat then None else Some(f)
  {
  }

  /** What a client makes of a row: each field by its tag, in the protocol's own names. */
  datatype TrackRow = TrackRow(kind: Option<nat>, itemId: Option<nat>, persistentId: Option<nat>, itemName: Option<seq<byte>>,
    songArtist: Option<seq<byte>>, songAlbum: Option<seq<byte>>, songAlbumArtist: Option<seq<byte>>,
    songGenre: Option<seq<byte>>, songFormat: Option<seq<byte>>, dataKind: Option<nat>, songTrackNumber: Option<nat>,
    songDiscNumber: Option<nat>, songYear: Option<nat>, songTime: Option<nat>, songBitrate: Option<nat>,
    songSampleRate: Option<nat>, songSize: Option<nat>, containerItemId: Option<nat>)

  function NumberField(es: seq<Element>, t: Tag): Option<nat> {
    match FieldValue(es, t) case None => None case Some(bytes) => Some(ReadUnsigned(bytes))
  }

  function ReadTrackRow(es: seq<Element>): TrackRow {
    TrackRow(NumberField(es, "mikd"), NumberField(es, "miid"), NumberField(es, "mper"), FieldValue(es, "minm"),
             FieldValue(es, "asar"), FieldValue(es, "asal"), FieldValue(es, "asaa"), FieldValue(es, "asgn"),
             FieldValue(es, "asfm"), NumberField(es, "asdk"), NumberField(es, "astn"), NumberField(es, "asdn"),
             NumberField(es, "asyr"), NumberField(es, "astm"), NumberField(es, "asbr"), NumberField(es, "assr"),
             NumberField(es, "assz"), NumberField(es, "mpco"))
  }

  predicate Under(v: Option<nat>, limit: nat) {
    v.Some? ==> v.value < limit
  }

  /** A track whose numbers are of the widths they have in the source. */
  predicate Typed(t: Track) {
    && t.id < U32 && Under(t.trackNumber, 0x1_0000) && Under(t.discNumber, 0x1_0000) && Under(t.year, 0x1_0000)
    && Under(t.durationMs, U32) && Under(t.sampleRate, U32)
  }

  /** The row shows every field of the track as it is, but for a bit rate above 16 bits, which is cut,
      and a size above 32 bits, for which the greatest stands. */
  predicate ShowsTrack(row: TrackRow, t: Track, place: Option<nat>, cs: Charset) {
    ShowsTexts(row, t, cs) && ShowsShorts(row, t) && ShowsLongs(row, t, place)
  }

  predicate ShowsTexts(row: TrackRow, t: Track, cs: Charset) {
    && row.itemName == Some(cs(t.title)) && row.songArtist == TextBytes(cs, t.artist) && row.songAlbum == TextBytes(cs, t.album)
    && row.songAlbumArtist == TextBytes(cs, t.albumArtist) && row.songGenre == TextBytes(cs, t.genre)
    && row.songFormat == Some(cs(FormatString(t.format)))
  }

  predicate ShowsShorts(row: TrackRow, t: Track) {
    && row.kind == Some(2) && row.dataKind == Some(0)
    && row.songTrackNumber == t.trackNumber && row.songDiscNumber == t.discNumber && row.songYear == t.year
    && (row.songBitrate.Some? <==> t.bitrateKbps.Some?)
    && (t.bitrateKbps.Some? ==> row.songBitrate.value == t.bitrateKbps.value % 0x1_0000)
  }

  predicate ShowsLongs(row: TrackRow, t: Track, place: Option<nat>) {
    && row.itemId == Some(t.id) && row.persistentId == Some(t.id)
    && row.songTime == t.durationMs && row.songSampleRate == t.sampleRate
    && (row.songSize.Some? <==> t.sizeBytes.Some?)
    && (t.sizeBytes.Some? ==> row.songSize.value == Min(t.sizeBytes.value, 0xFFFF_FFFF))
    && row.containerItemId == place
  }

  lemma {:induction false} ShortBack(v: Option<nat>)
    requires Under(v, 0x1_0000)
    ensures v.Some? ==> ReadUnsigned(ShortBytes(v).value) == v.value
  {
    if v.Some? {
      UnsignedCut(v.value);
    }
  }

  lemma {:induction false} LongFieldBack(v: Option<nat>)
    requires Under(v, U32)
    ensures v.Some? ==> ReadUnsigned(LongBytes(v).value) == v.value
  {
    hide Be32, ReadUnsigned;
    if v.Some? {
      LongBack(v.value);
    }
  }

  lemma {:induction false} FixedBack(id: nat)
    requires id < U32
    ensures ReadUnsigned(Unsigned(1, 2)) == 2 && ReadUnsigned(Unsigned(1, 0)) == 0 && ReadUnsigned(Unsigned(8, id)) == id
  {
    assert Range256(1) == 256 * Range256(0) && Range256(2) == 256 * Range256(1) && Range256(3) == 256 * Range256(2);
    assert Range256(4) == 256 * Range256(3) && Range256(5) == 256 * Range256(4) && Range256(6) == 256 * Range256(5);
    assert Range256(7) == 256 * Range256(6) && Range256(8) == 256 * Range256(7);
    hide Unsigned, ReadUnsigned;
    UnsignedBack(1, 2);
    UnsignedBack(1, 0);
    UnsignedBack(8, id);
  }

  lemma {:induction false} FieldFound(t: Track, place: Option<nat>, cs: Charset, i: nat)
    requires i < 18
    ensures var s := TrackSlots(t, place, cs)[i]; FieldValue(TrackFields(t, place, cs), s.tag) == s.value
  {
    hide FieldValue, Flat, TrackHead, TrackTail, HeadSlots, TailSlots, DistinctTags;
    HeadIsFlat(t, cs);
    TailIsFlat(t, place);
    FlatAppend(HeadSlots(t, cs), TailSlots(t, place));
    TagsDistinct(t, place, cs);
    SlotFound(TrackSlots(t, place, cs), i);
  }

  lemma {:induction false} NumbersFound(t: Track, place: Option<nat>, cs: Charset)
    ensures FieldValue(TrackFields(t, place, cs), "mikd") == Some(Unsigned(1, 2))
    ensures FieldValue(TrackFields(t, place, cs), "miid") == Some(Be32(t.id))
    ensures FieldValue(TrackFields(t, place, cs), "mper") == Some(Unsigned(8, t.id))
    ensures FieldValue(TrackFields(t, place, cs), "minm") == Some(cs(t.title))
  {
    hide FieldValue, TrackFields, TailSlots, Unsigned, Be32, TextBytes, FormatString;
    FieldFound(t, place, cs, 0);
    FieldFound(t, place, cs, 1);
    FieldFound(t, place, cs, 2);
    FieldFound(t, place, cs, 3);
  }

  lemma {:induction false} TextsFound(t: Track, place: Option<nat>, cs: Charset)
    ensures FieldValue(TrackFields(t, place, cs), "asar") == TextBytes(cs, t.artist)
    ensures FieldValue(TrackFields(t, place, cs), "asal") == TextBytes(cs, t.album)
    ensures FieldValue(TrackFields(t, place, cs), "asaa") == TextBytes(cs, t.albumArtist)
    ensures FieldValue(TrackFields(t, place, cs), "asgn") == TextBytes(cs, t.genre)
    ensures FieldValue(TrackFields(t, place, cs), "asfm") == Some(cs(FormatString(t.format)))
    ensures FieldValue(TrackFields(t, place, cs), "asdk") == Some(Unsigned(1, 0))
  {
    hide FieldValue, TrackFields, TailSlots, Unsigned, Be32, TextBytes, FormatString;
    FieldFound(t, place, cs, 4);
    FieldFound(t, place, cs, 5);
    FieldFound(t, place, cs, 6);
    FieldFound(t, place, cs, 7);
    FieldFound(t, place, cs, 8);
    FieldFound(t, place, cs, 9);
  }

  lemma {:induction false} ShortsFound(t: Track, place: Option<nat>, cs: Charset)
    ensures FieldValue(TrackFields(t, place, cs), "astn") == ShortBytes(t.trackNumber)
    ensures FieldValue(TrackFields(t, place, cs), "asdn") == ShortBytes(t.discNumber)
    ensures FieldValue(TrackFields(t, place, cs), "asyr") == ShortBytes(t.year)
    ensures FieldValue(TrackFields(t, place, cs), "astm") == LongBytes(t.durationMs)
  {
    hide FieldValue, TrackFields, HeadSlots, LongBytes, ShortBytes, Capped;
    FieldFound(t, place, cs, 10);
    FieldFound(t, place, cs, 11);
    FieldFound(t, place, cs, 12);
    FieldFound(t, place, cs, 13);
  }

  lemma {:induction false} LongsFound(t: Track, place: Option<nat>, cs: Charset)
    ensures FieldValue(TrackFields(t, place, cs), "asbr") == ShortBytes(t.bitrateKbps)
    ensures FieldValue(TrackFields(t, place, cs), "assr") == LongBytes(t.sampleRate)
    ensures FieldValue(TrackFields(t, place, cs), "assz") == LongBytes(Capped(t.sizeBytes))
    ensures FieldValue(TrackFields(t, place, cs), "mpco") == LongBytes(place)
  {
    hide FieldValue, TrackFields, HeadSlots, LongBytes, ShortBytes, Capped;
    FieldFound(t, place, cs, 14);
    FieldFound(t, place, cs, 15);
    FieldFound(t, place, cs, 16);
    FieldFound(t, place, cs, 17);
  }

  lemma {:induction false} TextsBack(t: Track, place: Option<nat>, cs: Charset)
    ensures ShowsTexts(ReadTrackRow(TrackFields(t, place, cs)), t, cs)
  {
    hide FieldValue, TrackFields, Unsigned, Be32, TextBytes, FormatString, NumberField;
    NumbersFound(t, place, cs);
    TextsFound(t, place, cs);
  }

  lemma {:induction false} ShortsBack(t: Track, place: Option<nat>, cs: Charset)
    requires Typed(t)
    ensures ShowsShorts(ReadTrackRow(TrackFields(t, place, cs)), t)
  {
    hide FieldValue, TrackFields, Unsigned, Be32, TextBytes, FormatString, ReadUnsigned;
    NumbersFound(t, place, cs);
    TextsFound(t, place, cs);
    ShortsFound(t, place, cs);
    LongsFound(t, place, cs);
    FixedBack(t.id);
    ShortBack(t.trackNumber);
    ShortBack(t.discNumber);
    ShortBack(t.year);
    if t.bitrateKbps.Some? {
      UnsignedCut(t.bitrateKbps.value);
    }
  }

  lemma {:induction false} LongsBack(t: Track, place: Option<nat>, cs: Charset)
    requires Typed(t) && Under(place, U32)
    ensures ShowsLongs(ReadTrackRow(TrackFields(t, place, cs)), t, place)
  {
    hide FieldValue, TrackFields, Unsigned, Be32, ReadUnsigned;
    NumbersFound(t, place, cs);
    LongsFound(t, place, cs);
    hide TextBytes, ShortBytes;
    ShortsFound(t, place, cs);
    FixedBack(t.id);
    LongBack(t.id);
    LongFieldBack(t.durationMs);
    LongFieldBack(t.sampleRate);
    LongFieldBack(Capped(t.sizeBytes));
    LongFieldBack(place);
  }

  /** A row reads back as its track, field by field. */
  lemma {:induction false} TrackRowBack(t: Track, place: Option<nat>, cs: Charset)
    requires Typed(t) && Under(place, U32)
    ensures ShowsTrack(ReadTrackRow(TrackFields(t, place, cs)), t, place, cs)
  {
    hide ShowsTexts, ShowsShorts, ShowsLongs, TrackFields, ReadTrackRow;
    TextsBack(t, place, cs);
    ShortsBack(t, place, cs);
    LongsBack(t, place, cs);
  }

  // ---- Pages ----

  /** The rows of a response's list, each with its fields. */
  function ReadRowFields(bytes: seq<byte>): Option<seq<seq<Element>>> {
    match DecodeAll(ContainerTags(), bytes)
    case None => None
    case Some(es) => if |es| != 1 || es[0].Leaf? then None else Some(FieldsOf(ListRows(es[0].kids)))
  }

  function FieldsOf(rows: seq<Element>): (fs: seq<seq<Element>>)
    ensures |fs| == |rows|
  {
    seq(|rows|, i requires 0 <= i < |rows| => if rows[i].Node? then rows[i].kids else [])
  }

  lemma {:induction false} RowFieldsBack(t: Tag, total: nat, entries: seq<seq<Element>>)
    requires ContainerTag(t) && AllPlain(entries) && |Body(Response(t, total, entries))| < U32
    ensures ReadRowFields(Encode(Response(t, total, entries))) == Some(entries)
  {
    hide DecodeAll, Encode, ListRows;
    ResponseComesBack(t, total, entries);
    ListAt(total, entries);
    assert FieldsOf(Rows(entries)) == entries;
  }

  /** All rows show their tracks, at these places if they have any. */
  predicate ShowTracks(rows: seq<seq<Element>>, page: seq<Track>, offset: Option<nat>, cs: Charset) {
    && |rows| == |page|
    && forall i :: 0 <= i < |page| ==>
         ShowsTrack(ReadTrackRow(rows[i]), page[i], if offset.Some? then Some(offset.value + i + 1) else None, cs)
  }

  predicate AllTyped(page: seq<Track>) {
    forall i :: 0 <= i < |page| ==> Typed(page[i])
  }

  /** A client sees every field of every track on a page of the library. */
  lemma {:induction false} ItemsRowsBack(page: seq<Track>, total: nat, cs: Charset)
    requires AllTyped(page) && |Body(Response("adbs", total, TrackEntries(page, cs)))| < U32
    ensures ReadRowFields(Encode(Response("adbs", total, TrackEntries(page, cs)))) == Some(TrackEntries(page, cs))
    ensures ShowTracks(TrackEntries(page, cs), page, None, cs)
  {
    hide TrackFields, ReadRowFields, Encode, Body, Response, Plain, ContainerTag, ReadTrackRow, ShowsTrack, Typed, NumberIn;
    var entries := TrackEntries(page, cs);
    forall i | 0 <= i < |entries|
      ensures Plain(entries[i]) && ShowsTrack(ReadTrackRow(entries[i]), page[i], None, cs)
    {
      TrackFieldsPlain(page[i], None, cs);
      TrackRowBack(page[i], None, cs);
    }
    ItemsTag();
    RowFieldsBack("adbs", total, entries);
  }

  /** And on a page of a playlist, each at its place. */
  lemma {:induction false} PlaylistRowsBack(page: seq<Track>, total: nat, offset: nat, cs: Charset)
    requires AllTyped(page) && offset + |page| < U32
    requires |Body(Response("apso", total, PlacedTrackEntries(page, offset, cs)))| < U32
    ensures ReadRowFields(Encode(Response("apso", total, PlacedTrackEntries(page, offset, cs)))) ==
      Some(PlacedTrackEntries(page, offset, cs))
    ensures ShowTracks(PlacedTrackEntries(page, offset, cs), page, Some(offset), cs)
  {
    hide TrackFields, ReadRowFields, Encode, Body, Response, Plain, ContainerTag, ReadTrackRow, ShowsTrack, Typed, NumberIn;
    var entries := PlacedTrackEntries(page, offset, cs);
    forall i | 0 <= i < |entries|
      ensures Plain(entries[i]) && ShowsTrack(ReadTrackRow(entries[i]), page[i], Some(offset + i + 1), cs)
    {
      TrackFieldsPlain(page[i], Some(offset + i + 1), cs);
      TrackRowBack(page[i], Some(offset + i + 1), cs);
    }
    ItemsTag();
    RowFieldsBack("apso", total, entries);
  }

  /** An entry that is only a number reads back as that, its place and its kind. */
  lemma {:induction false} EntryRowBack(id: nat, place: nat)
    requires id < U32 && place < U32
    ensures var es := EntryFields(id, place);
      NumberField(es, "mikd") == Some(2) && NumberField(es, "miid") == Some(id) && NumberField(es, "mpco") == Some(place)
  {
    hide Unsigned, Be32, ReadUnsigned, FieldValue;
    var es := EntryFields(id, place);
    FieldAt(es, 0, "mikd", Unsigned(1, 2));
    FieldAt(es, 1, "miid", Be32(id));
    FieldAt(es, 2, "mpco", Be32(place));
    FixedBack(id);
    LongBack(id);
    LongBack(place);
  }

  // ---- Playlists ----

  /** What a client makes of a row of the source pane. */
  datatype PaneRow = PaneRow(itemId: Option<nat>, persistentId: Option<nat>, itemName: Option<seq<byte>>,
    itemCount: Option<nat>, basePlaylist: Option<nat>)

  function ReadPaneRow(es: seq<Element>): PaneRow {
    PaneRow(NumberField(es, "miid"), NumberField(es, "mper"), FieldValue(es, "minm"), NumberField(es, "mimc"),
            NumberField(es, "abpl"))
  }

  function PaneSlots(id: nat, name: seq<byte>, count: nat, library: bool): (s: seq<Slot>)
    ensures |s| == 5
  {
    [Slot("miid", Some(Be32(id))), Slot("mper", Some(Unsigned(8, id))), Slot("minm", Some(name)), Slot("mimc", Some(Be32(count))),
     Slot("abpl", if library then Some(Unsigned(1, 1)) else None)]
  }

  lemma {:induction false} PaneIsFlat(id: nat, name: seq<byte>, count: nat, library: bool)
    ensures Flat(PaneSlots(id, name, count, library)) ==
      [U32Field("miid", id), U64("mper", id), Leaf("minm", name), U32Field("mimc", count)]
      + if library then [Responses.U8("abpl", 1)] else []
  {
    hide Unsigned, Be32, Flat;
    var s := PaneSlots(id, name, count, library);
    FlatNothing();
    FlatStep(s, 0);
    FlatStep(s, 1);
    FlatStep(s, 2);
    FlatStep(s, 3);
    FlatStep(s, 4);
    assert s[..5] == s;
  }

  lemma {:induction false} PaneTagsDistinct(id: nat, name: seq<byte>, count: nat, library: bool)
    ensures DistinctTags(PaneSlots(id, name, count, library))
  {
    hide Unsigned, Be32;
    var s := PaneSlots(id, name, count, library);
    forall i, j | 0 <= i < j < |s|
      ensures s[i].tag != s[j].tag
    {
      PaneCodes(id, name, count, library, i);
      PaneCodes(id, name, count, library, j);
    }
  }

  lemma {:induction false} PaneCodes(id: nat, name: seq<byte>, count: nat, library: bool, i: nat)
    requires i < 5
    ensures TagCode(PaneSlots(id, name, count, library)[i].tag) == [13540, 13042, 14189, 14051, 14444][i]
  {
    hide Unsigned, Be32;
  }

  /** A row of that many fields reads back as them. */
  lemma {:induction false} PaneFieldsBack(id: nat, name: seq<byte>, count: nat, library: bool)
    requires id < U32 && count < U32
    ensures ReadPaneRow(Flat(PaneSlots(id, name, count, library))) ==
      PaneRow(Some(id), Some(id), Some(name), Some(count), if library then Some(1) else None)
  {
    hide Unsigned, Be32, Flat, FieldValue, ReadUnsigned, DistinctTags;
    var s := PaneSlots(id, name, count, library);
    PaneTagsDistinct(id, name, count, library);
    SlotFound(s, 0);
    SlotFound(s, 1);
    SlotFound(s, 2);
    SlotFound(s, 3);
    SlotFound(s, 4);
    LongBack(id);
    LongBack(count);
    FixedBack(id);
    OneBack();
  }

  lemma {:induction false} OneBack()
    ensures ReadUnsigned(Unsigned(1, 1)) == 1
  {
    assert Range256(1) == 256 * Range256(0);
    hide Unsigned, ReadUnsigned;
    UnsignedBack(1, 1);
  }

  /** The library's row: its number, its name, how many tracks there are, and that it is the base. A
      playlist's: the same of the playlist, and no such mark. */
  lemma {:induction false} PaneRowsBack(libraryId: nat, trackCount: nat, p: Playlist, cs: Charset)
    requires libraryId < U32 && trackCount < U32 && p.id < U32 && |p.trackIds| < U32
    ensures ReadPaneRow(LibraryFields(libraryId, trackCount, cs)) ==
      PaneRow(Some(libraryId), Some(libraryId), Some(cs("Library")), Some(trackCount), Some(1))
    ensures ReadPaneRow(PlaylistFields(p, cs)) == PaneRow(Some(p.id), Some(p.id), Some(cs(p.name)), Some(|p.trackIds|), None)
  {
    hide Unsigned, Be32, Flat, ReadPaneRow, PaneSlots;
    PaneIsFlat(libraryId, cs("Library"), trackCount, true);
    PaneFieldsBack(libraryId, cs("Library"), trackCount, true);
    PaneIsFlat(p.id, cs(p.name), |p.trackIds|, false);
    PaneFieldsBack(p.id, cs(p.name), |p.trackIds|, false);
    assert LibraryFields(libraryId, trackCount, cs) == [U32Field("miid", libraryId), U64("mper", libraryId),
      Leaf("minm", cs("Library")), U32Field("mimc", trackCount)] + [Responses.U8("abpl", 1)];
    assert PlaylistFields(p, cs) == [U32Field("miid", p.id), U64("mper", p.id), Leaf("minm", cs(p.name)),
      U32Field("mimc", |p.trackIds|)] + [];
  }
}
