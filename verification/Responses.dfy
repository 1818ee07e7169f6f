/** The listing responses as field trees, the builders that write them into a buffer, and what a
    client reads back. */
module Responses {
  import opened Wrappers
  import opened BigEndian
  import opened Dmap
  import opened TrackSort
  import opened Listing
  import opened PlaylistListing

  /** Text in the wire charset. */
  type Charset = string -> seq<byte>

  /** The container tags. */
  predicate ContainerTag(t: string) {
    t == "msrv" || t == "mlog" || t == "mupd" || t == "avdb" || t == "mlcl" || t == "mlit" || t == "aply" || t == "adbs"
    || t == "apso"
  }

  function ContainerTags(): Schema {
    (t: Tag) => ContainerTag(t)
  }

  /** An unsigned value in so many bytes, cast to that width. */
  function Unsigned(width: nat, v: nat): (s: seq<byte>)
    ensures |s| == width
  {
    if width == 0 then [] else Unsigned(width - 1, v / 256) + [v % 256]
  }

  function U8(t: Tag, v: nat): Element {
    Leaf(t, Unsigned(1, v))
  }

  function U16(t: Tag, v: nat): Element {
    Leaf(t, Unsigned(2, v))
  }

  function U32Field(t: Tag, v: nat): Element {
    Leaf(t, Be32(v))
  }

  function U64(t: Tag, v: nat): Element {
    Leaf(t, Unsigned(8, v))
  }

  function OptText(t: Tag, s: Option<string>, cs: Charset): seq<Element> {
    if s.Some? then [Leaf(t, cs(s.value))] else []
  }

  function OptU16(t: Tag, v: Option<nat>): seq<Element> {
    if v.Some? then [U16(t, v.value)] else []
  }

  function OptU32(t: Tag, v: Option<nat>): seq<Element> {
    if v.Some? then [U32Field(t, v.value)] else []
  }

  function FormatString(f: AudioFormat): string {
    match f
    case Mp3 => "mp3"
    case Aac => "m4a"
    case Alac => "m4a"
    case Flac => "flac"
    case Wav => "wav"
    case Aiff => "aiff"
    case Ogg => "ogg"
    case OtherFormat => "bin"
  }

  // ---- Field trees ----

  /** Kind, numbers, texts and format of a track. */
  function TrackHead(t: Track, cs: Charset): seq<Element> {
    [] + [U8("mikd", 2)] + [U32Field("miid", t.id)] + [U64("mper", t.id)] + [Leaf("minm", cs(t.title))]
    + OptText("asar", t.artist, cs) + OptText("asal", t.album, cs) + OptText("asaa", t.albumArtist, cs)
    + OptText("asgn", t.genre, cs) + [Leaf("asfm", cs(FormatString(t.format)))] + [U8("asdk", 0)]
  }

  /** A size is capped at 32 bits. */
  function Capped(size: Option<nat>): Option<nat> {
    if size.Some? && size.value >= U32 then Some(U32 - 1) else size
  }

  /** The optional numbers; the bit rate is cut to 16 bits. */
  function TrackTail(t: Track, mpco: Option<nat>): seq<Element> {
    [] + OptU16("astn", t.trackNumber) + OptU16("asdn", t.discNumber) + OptU16("asyr", t.year)
    + OptU32("astm", t.durationMs) + OptU16("asbr", t.bitrateKbps) + OptU32("assr", t.sampleRate)
    + OptU32("assz", Capped(t.sizeBytes)) + OptU32("mpco", mpco)
  }

  function TrackFields(t: Track, mpco: Option<nat>, cs: Charset): seq<Element> {
    TrackHead(t, cs) + TrackTail(t, mpco)
  }

  function EntryFields(id: nat, mpco: nat): seq<Element> {
    [U8("mikd", 2), U32Field("miid", id), U32Field("mpco", mpco)]
  }

  function LibraryFields(id: nat, count: nat, cs: Charset): seq<Element> {
    [U32Field("miid", id), U64("mper", id), Leaf("minm", cs("Library")), U32Field("mimc", count), U8("abpl", 1)]
  }

  function PlaylistFields(p: Playlist, cs: Charset): seq<Element> {
    [U32Field("miid", p.id), U64("mper", p.id), Leaf("minm", cs(p.name)), U32Field("mimc", |p.trackIds|)]
  }

  /** One listing item for each entry. */
  function Rows(entries: seq<seq<Element>>): (rows: seq<Element>)
    ensures |rows| == |entries|
  {
    seq(|entries|, i requires 0 <= i < |entries| => Node("mlit", entries[i]))
  }

  /** Status, kind of update, size of the whole listing, size of this page. */
  function Preamble(total: nat, returned: nat): seq<Element> {
    [U32Field("mstt", 200)] + [U8("muty", 0)] + [U32Field("mtco", total)] + [U32Field("mrco", returned)]
  }

  function ResponseFields(total: nat, entries: seq<seq<Element>>): seq<Element> {
    Preamble(total, |entries|) + [Node("mlcl", Rows(entries))]
  }

  function Response(t: Tag, total: nat, entries: seq<seq<Element>>): Element {
    Node(t, ResponseFields(total, entries))
  }

  function TrackEntries(tracks: seq<Track>, cs: Charset): (es: seq<seq<Element>>)
    ensures |es| == |tracks|
  {
    seq(|tracks|, i requires 0 <= i < |tracks| => TrackFields(tracks[i], None, cs))
  }

  /** Entries numbered within their playlist from the page's offset on. */
  function PlacedTrackEntries(tracks: seq<Track>, offset: nat, cs: Charset): (es: seq<seq<Element>>)
    ensures |es| == |tracks|
  {
    seq(|tracks|, i requires 0 <= i < |tracks| => TrackFields(tracks[i], Some(offset + i + 1), cs))
  }

  function IdEntries(ids: seq<nat>, offset: nat): (es: seq<seq<Element>>)
    ensures |es| == |ids|
  {
    seq(|ids|, i requires 0 <= i < |ids| => EntryFields(ids[i], offset + i + 1))
  }

  function PaneEntries(libraryId: nat, trackCount: nat, extras: seq<Playlist>, library: bool, cs: Charset): seq<seq<Element>> {
    (if library then [LibraryFields(libraryId, trackCount, cs)] else [])
    + seq(|extras|, i requires 0 <= i < |extras| => PlaylistFields(extras[i], cs))
  }

  // ---- Builders ----

  /** The buffer holds what it held before, then some elements. */
  ghost predicate Written(bytes: seq<byte>, base: seq<byte>, es: seq<Element>) {
    bytes == base + EncodeAll(es)
  }

  lemma {:induction false} WrittenOne(base: seq<byte>, es: seq<Element>, e: Element)
    ensures base + EncodeAll(es) + Encode(e) == base + EncodeAll(es + [e])
  {
    EncodeAllAppend(es, [e]);
    EncodeOne(e);
    Assoc(base, EncodeAll(es), Encode(e));
  }

  method Put(buf: Buffer, e: Element, ghost base: seq<byte>, ghost es: seq<Element>)
    requires Written(buf.bytes, base, es) && e.Leaf?
    modifies buf
    ensures Written(buf.bytes, base, es + [e])
  {
    buf.Field(e.tag, e.value);
    WrittenOne(base, es, e);
  }

  method PutText(buf: Buffer, t: Tag, s: Option<string>, cs: Charset, ghost base: seq<byte>, ghost es: seq<Element>)
    requires Written(buf.bytes, base, es)
    modifies buf
    ensures Written(buf.bytes, base, es + OptText(t, s, cs))
  {
    if s.Some? {
      Put(buf, Leaf(t, cs(s.value)), base, es);
    } else {
      assert es + [] == es;
    }
  }

  method PutU16(buf: Buffer, t: Tag, v: Option<nat>, ghost base: seq<byte>, ghost es: seq<Element>)
    requires Written(buf.bytes, base, es)
    modifies buf
    ensures Written(buf.bytes, base, es + OptU16(t, v))
  {
    if v.Some? {
      Put(buf, U16(t, v.value), base, es);
    } else {
      assert es + [] == es;
    }
  }

  method PutU32(buf: Buffer, t: Tag, v: Option<nat>, ghost base: seq<byte>, ghost es: seq<Element>)
    requires Written(buf.bytes, base, es)
    modifies buf
    ensures Written(buf.bytes, base, es + OptU32(t, v))
  {
    if v.Some? {
      Put(buf, U32Field(t, v.value), base, es);
    } else {
      assert es + [] == es;
    }
  }

  /** `emit_track_mlit`, in two halves. */
  method EmitTrackHead(buf: Buffer, t: Track, cs: Charset)
    modifies buf
    ensures Written(buf.bytes, old(buf.bytes), TrackHead(t, cs))
  {
    hide Written, OptText, Unsigned, Be32;
    ghost var base, es: seq<Element> := buf.bytes, [];
    WrittenNothing(base);
    Put(buf, U8("mikd", 2), base, es);
    es := es + [U8("mikd", 2)];
    Put(buf, U32Field("miid", t.id), base, es);
    es := es + [U32Field("miid", t.id)];
    Put(buf, U64("mper", t.id), base, es);
    es := es + [U64("mper", t.id)];
    Put(buf, Leaf("minm", cs(t.title)), base, es);
    es := es + [Leaf("minm", cs(t.title))];
    PutText(buf, "asar", t.artist, cs, base, es);
    es := es + OptText("asar", t.artist, cs);
    PutText(buf, "asal", t.album, cs, base, es);
    es := es + OptText("asal", t.album, cs);
    PutText(buf, "asaa", t.albumArtist, cs, base, es);
    es := es + OptText("asaa", t.albumArtist, cs);
    PutText(buf, "asgn", t.genre, cs, base, es);
    es := es + OptText("asgn", t.genre, cs);
    Put(buf, Leaf("asfm", cs(FormatString(t.format))), base, es);
    es := es + [Leaf("asfm", cs(FormatString(t.format)))];
    Put(buf, U8("asdk", 0), base, es);
  }

  method EmitTrackTail(buf: Buffer, t: Track, mpco: Option<nat>)
    modifies buf
    ensures Written(buf.bytes, old(buf.bytes), TrackTail(t, mpco))
  {
    hide Written, OptU16, OptU32;
    ghost var base, es: seq<Element> := buf.bytes, [];
    WrittenNothing(base);
    PutU16(buf, "astn", t.trackNumber, base, es);
    es := es + OptU16("astn", t.trackNumber);
    PutU16(buf, "asdn", t.discNumber, base, es);
    es := es + OptU16("asdn", t.discNumber);
    PutU16(buf, "asyr", t.year, base, es);
    es := es + OptU16("asyr", t.year);
    PutU32(buf, "astm", t.durationMs, base, es);
    es := es + OptU32("astm", t.durationMs);
    PutU16(buf, "asbr", t.bitrateKbps, base, es);
    es := es + OptU16("asbr", t.bitrateKbps);
    PutU32(buf, "assr", t.sampleRate, base, es);
    es := es + OptU32("assr", t.sampleRate);
    PutU32(buf, "assz", Capped(t.sizeBytes), base, es);
    es := es + OptU32("assz", Capped(t.sizeBytes));
    PutU32(buf, "mpco", mpco, base, es);
  }

  method EmitTrackMlit(buf: Buffer, t: Track, mpco: Option<nat>, cs: Charset)
    modifies buf
    ensures Written(buf.bytes, old(buf.bytes), TrackFields(t, mpco, cs))
  {
    hide TrackHead, TrackTail;
    EmitTrackHead(buf, t, cs);
    EmitTrackTail(buf, t, mpco);
    EncodeAllAppend(TrackHead(t, cs), TrackTail(t, mpco));
    Assoc(old(buf.bytes), EncodeAll(TrackHead(t, cs)), EncodeAll(TrackTail(t, mpco)));
  }

  lemma {:induction false} WrittenNothing(base: seq<byte>)
    ensures Written(base, base, [])
  {
    assert base + [] == base;
  }

  /** The buffer of a response whose list is still open. */
  ghost predicate ListOpen(bytes: seq<byte>, t: Tag, total: nat, returned: nat, rows: seq<Element>) {
    bytes == Header(t, 0) + EncodeAll(Preamble(total, returned)) + Header("mlcl", 0) + EncodeAll(rows)
  }

  /** Open the response and its list. */
  method OpenListing(buf: Buffer, t: Tag, total: nat, returned: nat) returns (start: nat, listStart: nat)
    requires buf.bytes == []
    modifies buf
    ensures ListOpen(buf.bytes, t, total, returned, []) && start == 0
    ensures listStart == 8 + |EncodeAll(Preamble(total, returned))|
  {
    hide Preamble;
    start := buf.Open(t);
    EmitPreamble(buf, total, returned);
    listStart := buf.Open("mlcl");
    assert buf.bytes + [] == buf.bytes;
  }

  method EmitPreamble(buf: Buffer, total: nat, returned: nat)
    modifies buf
    ensures Written(buf.bytes, old(buf.bytes), Preamble(total, returned))
  {
    EmitFields(buf, Preamble(total, returned));
  }

  /** Fill in the list's length, then the response's. */
  method CloseListing(buf: Buffer, start: nat, listStart: nat, ghost t: Tag, ghost total: nat, ghost entries: seq<seq<Element>>)
    requires ListOpen(buf.bytes, t, total, |entries|, Rows(entries)) && start == 0
    requires listStart == 8 + |EncodeAll(Preamble(total, |entries|))|
    modifies buf
    ensures buf.bytes == Encode(Response(t, total, entries))
  {
    hide Preamble, Rows;
    ghost var head, rows := EncodeAll(Preamble(total, |entries|)), EncodeAll(Rows(entries));
    assert buf.bytes[listStart..] == Header("mlcl", 0) + rows;
    assert buf.bytes[..listStart] == Header(t, 0) + head;
    buf.Close(listStart, "mlcl", Rows(entries));
    WrittenOne(Header(t, 0), Preamble(total, |entries|), Node("mlcl", Rows(entries)));
    assert buf.bytes[0..] == buf.bytes;
    buf.Close(start, t, ResponseFields(total, entries));
  }

  /** One more row on an open list. */
  lemma {:induction false} RowAdded(bytes: seq<byte>, t: Tag, total: nat, returned: nat, rows: seq<Element>, row: Element)
    requires ListOpen(bytes, t, total, returned, rows)
    ensures ListOpen(bytes + Encode(row), t, total, returned, rows + [row])
  {
    hide Preamble;
    WrittenOne(Header(t, 0) + EncodeAll(Preamble(total, returned)) + Header("mlcl", 0), rows, row);
  }

  /** The container around one row's fields, closed once they are written. */
  method CloseRow(buf: Buffer, rowStart: nat, ghost before: seq<byte>, ghost fields: seq<Element>)
    requires rowStart == |before| && Written(buf.bytes, before + Header("mlit", 0), fields)
    modifies buf
    ensures buf.bytes == before + Encode(Node("mlit", fields))
  {
    assert buf.bytes[rowStart..] == Header("mlit", 0) + EncodeAll(fields);
    assert buf.bytes[..rowStart] == before;
    buf.Close(rowStart, "mlit", fields);
  }

  /** `items`. */
  method Items(sliced: seq<Track>, total: nat, cs: Charset) returns (buf: Buffer)
    ensures fresh(buf) && buf.bytes == Encode(Response("adbs", total, TrackEntries(sliced, cs)))
  {
    hide ListOpen, TrackFields, Written, Preamble;
    buf := new Buffer();
    ghost var entries := TrackEntries(sliced, cs);
    var start, listStart := OpenListing(buf, "adbs", total, |sliced|);
    for i := 0 to |sliced|
      invariant ListOpen(buf.bytes, "adbs", total, |sliced|, Rows(entries)[..i])
    {
      ghost var before := buf.bytes;
      var rowStart := buf.Open("mlit");
      EmitTrackMlit(buf, sliced[i], None, cs);
      CloseRow(buf, rowStart, before, entries[i]);
      RowAdded(before, "adbs", total, |sliced|, Rows(entries)[..i], Rows(entries)[i]);
      assert Rows(entries)[..i] + [Rows(entries)[i]] == Rows(entries)[..i + 1];
    }
    assert Rows(entries)[..|sliced|] == Rows(entries);
    CloseListing(buf, start, listStart, "adbs", total, entries);
  }

  /** `playlist_songs_full`. */
  method PlaylistSongsFull(resolved: seq<Track>, total: nat, offset: nat, cs: Charset) returns (buf: Buffer)
    ensures fresh(buf) && buf.bytes == Encode(Response("apso", total, PlacedTrackEntries(resolved, offset, cs)))
  {
    hide ListOpen, TrackFields, Written, Preamble;
    buf := new Buffer();
    ghost var entries := PlacedTrackEntries(resolved, offset, cs);
    var start, listStart := OpenListing(buf, "apso", total, |resolved|);
    for i := 0 to |resolved|
      invariant ListOpen(buf.bytes, "apso", total, |resolved|, Rows(entries)[..i])
    {
      ghost var before := buf.bytes;
      var rowStart := buf.Open("mlit");
      EmitTrackMlit(buf, resolved[i], Some(offset + i + 1), cs);
      CloseRow(buf, rowStart, before, entries[i]);
      RowAdded(before, "apso", total, |resolved|, Rows(entries)[..i], Rows(entries)[i]);
      assert Rows(entries)[..i] + [Rows(entries)[i]] == Rows(entries)[..i + 1];
    }
    assert Rows(entries)[..|resolved|] == Rows(entries);
    CloseListing(buf, start, listStart, "apso", total, entries);
  }

  method EmitFields(buf: Buffer, fields: seq<Element>)
    requires forall i :: 0 <= i < |fields| ==> fields[i].Leaf?
    modifies buf
    ensures Written(buf.bytes, old(buf.bytes), fields)
  {
    WrittenNothing(buf.bytes);
    for i := 0 to |fields|
      invariant Written(buf.bytes, old(buf.bytes), fields[..i])
    {
      Put(buf, fields[i], old(buf.bytes), fields[..i]);
      assert fields[..i] + [fields[i]] == fields[..i + 1];
    }
    assert fields[..|fields|] == fields;
  }

  /** `playlist_songs`. */
  method PlaylistSongs(sliced: seq<nat>, total: nat, offset: nat) returns (buf: Buffer)
    ensures fresh(buf) && buf.bytes == Encode(Response("apso", total, IdEntries(sliced, offset)))
  {
    hide ListOpen, Written, Preamble, EntryFields;
    buf := new Buffer();
    ghost var entries := IdEntries(sliced, offset);
    var start, listStart := OpenListing(buf, "apso", total, |sliced|);
    for i := 0 to |sliced|
      invariant ListOpen(buf.bytes, "apso", total, |sliced|, Rows(entries)[..i])
    {
      ghost var before := buf.bytes;
      var rowStart := buf.Open("mlit");
      EmitEntry(buf, sliced[i], offset + i + 1);
      CloseRow(buf, rowStart, before, entries[i]);
      RowAdded(before, "apso", total, |sliced|, Rows(entries)[..i], Rows(entries)[i]);
      assert Rows(entries)[..i] + [Rows(entries)[i]] == Rows(entries)[..i + 1];
    }
    assert Rows(entries)[..|sliced|] == Rows(entries);
    CloseListing(buf, start, listStart, "apso", total, entries);
  }

  /** `playlists`. */
  method Playlists(libraryId: nat, trackCount: nat, extras: seq<Playlist>, library: bool, total: nat, cs: Charset)
    returns (buf: Buffer)
    ensures fresh(buf)
    ensures buf.bytes == Encode(Response("aply", total, PaneEntries(libraryId, trackCount, extras, library, cs)))
  {
    hide ListOpen, Written, Preamble, LibraryFields, PlaylistFields;
    buf := new Buffer();
    ghost var entries := PaneEntries(libraryId, trackCount, extras, library, cs);
    var returned := (if library then 1 else 0) + |extras|;
    var start, listStart := OpenListing(buf, "aply", total, returned);
    if library {
      ghost var before := buf.bytes;
      var rowStart := buf.Open("mlit");
      EmitLibrary(buf, libraryId, trackCount, cs);
      CloseRow(buf, rowStart, before, entries[0]);
      RowAdded(before, "aply", total, returned, [], Rows(entries)[0]);
      assert [] + [Rows(entries)[0]] == Rows(entries)[..1];
    }
    var first := if library then 1 else 0;
    assert Rows(entries)[..0] == [];
    for i := 0 to |extras|
      invariant ListOpen(buf.bytes, "aply", total, returned, Rows(entries)[..first + i])
    {
      ghost var before := buf.bytes;
      var rowStart := buf.Open("mlit");
      EmitPlaylist(buf, extras[i], cs);
      CloseRow(buf, rowStart, before, entries[first + i]);
      RowAdded(before, "aply", total, returned, Rows(entries)[..first + i], Rows(entries)[first + i]);
      assert Rows(entries)[..first + i] + [Rows(entries)[first + i]] == Rows(entries)[..first + (i + 1)];
    }
    assert Rows(entries)[..returned] == Rows(entries);
    CloseListing(buf, start, listStart, "aply", total, entries);
  }

  method EmitEntry(buf: Buffer, id: nat, mpco: nat)
    modifies buf
    ensures Written(buf.bytes, old(buf.bytes), EntryFields(id, mpco))
  {
    EmitFields(buf, EntryFields(id, mpco));
  }

  method EmitLibrary(buf: Buffer, id: nat, count: nat, cs: Charset)
    modifies buf
    ensures Written(buf.bytes, old(buf.bytes), LibraryFields(id, count, cs))
  {
    EmitFields(buf, LibraryFields(id, count, cs));
  }

  method EmitPlaylist(buf: Buffer, p: Playlist, cs: Charset)
    modifies buf
    ensures Written(buf.bytes, old(buf.bytes), PlaylistFields(p, cs))
  {
    EmitFields(buf, PlaylistFields(p, cs));
  }

  // ---- What a client reads ----

  /** The value of the first field of that tag. */
  function FieldValue(es: seq<Element>, t: Tag): Option<seq<byte>> {
    if es == [] then None
    else if es[0].Leaf? && es[0].tag == t then Some(es[0].value)
    else FieldValue(es[1..], t)
  }

  function NumberIn(es: seq<Element>, t: Tag): nat {
    match FieldValue(es, t)
    case Some(v) => if |v| == 4 then ReadBe32(v) else 0
    case None => 0
  }

  /** The rows of the response's list. */
  function ListRows(es: seq<Element>): seq<Element> {
    if es == [] then []
    else if es[0].Node? && es[0].tag == "mlcl" then es[0].kids
    else ListRows(es[1..])
  }

  function RowId(row: Element): nat {
    if row.Node? then NumberIn(row.kids, "miid") else 0
  }

  function RowIds(rows: seq<Element>): (ids: seq<nat>)
    ensures |ids| == |rows|
  {
    seq(|rows|, i requires 0 <= i < |rows| => RowId(rows[i]))
  }

  /** What kind of response it is, the announced sizes and the number of each row. */
  datatype Reply = Reply(kind: Tag, total: nat, returned: nat, ids: seq<nat>)

  /** Success, and not an update of an earlier reply. */
  predicate Succeeded(fs: seq<Element>) {
    NumberIn(fs, "mstt") == 200 && FieldValue(fs, "muty") == Some([0])
  }

  function ReadReply(bytes: seq<byte>): Option<Reply> {
    match DecodeAll(ContainerTags(), bytes)
    case None => None
    case Some(es) =>
      if |es| != 1 || es[0].Leaf? then None
      else
        var fs := es[0].kids;
        if !Succeeded(fs) then None
        else Some(Reply(es[0].tag, NumberIn(fs, "mtco"), NumberIn(fs, "mrco"), RowIds(ListRows(fs))))
  }

  /** Rows of plain fields. */
  predicate Plain(fields: seq<Element>) {
    forall i :: 0 <= i < |fields| ==> fields[i].Leaf? && !ContainerTag(fields[i].tag)
  }

  predicate AllPlain(entries: seq<seq<Element>>) {
    forall i :: 0 <= i < |entries| ==> Plain(entries[i])
  }

  lemma {:induction false} ListingTags()
    ensures !ContainerTag("mstt") && !ContainerTag("muty") && !ContainerTag("mtco") && !ContainerTag("mrco")
    ensures ContainerTag("mlcl") && ContainerTag("mlit")
  {
  }

  lemma {:induction false} ResponseTagged(t: Tag, total: nat, entries: seq<seq<Element>>)
    requires ContainerTag(t) && AllPlain(entries)
    ensures Tagged(ContainerTags(), Response(t, total, entries))
  {
    hide ContainerTag, Unsigned, Be32;
    ListingTags();
    var schema, rows, fields := ContainerTags(), Rows(entries), ResponseFields(total, entries);
    forall i | 0 <= i < |rows|
      ensures Tagged(schema, rows[i])
    {
      assert Plain(entries[i]);
      AllTaggedEach(schema, entries[i]);
    }
    AllTaggedEach(schema, rows);
    AllTaggedEach(schema, fields);
  }

  /** A response decodes to its own tree exactly when its body stays below 2^32 bytes. */
  lemma {:induction false} ResponseComesBack(t: Tag, total: nat, entries: seq<seq<Element>>)
    requires ContainerTag(t) && AllPlain(entries)
    ensures var response := Response(t, total, entries);
      DecodeAll(ContainerTags(), Encode(response)) == Some([response]) <==> |Body(response)| < U32
  {
    hide Response, Body, Encode, EncodeAll, DecodeAll, WellFormed, Tagged;
    var response := Response(t, total, entries);
    ResponseTagged(t, total, entries);
    FitsInside(ContainerTags(), response);
    EncodeOne(response);
    ComesBackIffWellFormed(ContainerTags(), [response]);
    OneWellFormed(ContainerTags(), response);
  }

  lemma {:induction false} OneWellFormed(schema: Schema, e: Element)
    ensures AllWellFormed(schema, [e]) <==> WellFormed(schema, e)
  {
    assert [e][1..] == [];
  }

  lemma {:induction false} FieldAt(es: seq<Element>, i: nat, t: Tag, value: seq<byte>)
    requires i < |es| && es[i] == Leaf(t, value) && forall j :: 0 <= j < i ==> es[j].tag != t
    ensures FieldValue(es, t) == Some(value)
    decreases i
  {
    if i > 0 {
      FieldAt(es[1..], i - 1, t, value);
    }
  }

  lemma {:induction false} NumberAt(es: seq<Element>, i: nat, t: Tag, v: nat)
    requires i < |es| && es[i] == U32Field(t, v) && forall j :: 0 <= j < i ==> es[j].tag != t
    ensures NumberIn(es, t) == v % U32
  {
    hide FieldValue;
    FieldAt(es, i, t, Be32(v));
    Be32Back(v % U32);
    assert Be32(v % U32) == Be32(v);
  }

  lemma {:induction false} ListAt(total: nat, entries: seq<seq<Element>>)
    ensures ListRows(ResponseFields(total, entries)) == Rows(entries)
  {
    var fs := ResponseFields(total, entries);
    assert ListRows(fs[4..]) == Rows(entries);
    assert fs[1..][1..][1..][1..] == fs[4..];
    assert ListRows(fs) == ListRows(fs[1..]);
    assert ListRows(fs[1..]) == ListRows(fs[1..][1..]);
    assert ListRows(fs[1..][1..]) == ListRows(fs[1..][1..][1..]);
  }

  function EntryIds(entries: seq<seq<Element>>): (ids: seq<nat>)
    ensures |ids| == |entries|
  {
    seq(|entries|, i requires 0 <= i < |entries| => NumberIn(entries[i], "miid"))
  }

  /** Every response short enough to be read says how many rows it really has, and whose. */
  lemma {:induction false} ReplyBack(t: Tag, total: nat, entries: seq<seq<Element>>)
    requires ContainerTag(t) && AllPlain(entries) && |Body(Response(t, total, entries))| < U32
    ensures ReadReply(Encode(Response(t, total, entries))) == Some(Reply(t, total % U32, |entries|, EntryIds(entries)))
  {
    hide DecodeAll, Encode, NumberIn, ListRows, Succeeded;
    var fs := ResponseFields(total, entries);
    ResponseComesBack(t, total, entries);
    SucceededBack(total, entries);
    NumberAt(fs, 2, "mtco", total);
    NumberAt(fs, 3, "mrco", |entries|);
    ListAt(total, entries);
    FewRows(total, entries);
    assert RowIds(Rows(entries)) == EntryIds(entries);
  }

  lemma {:induction false} SucceededBack(total: nat, entries: seq<seq<Element>>)
    ensures Succeeded(ResponseFields(total, entries))
  {
    hide NumberIn, Be32;
    var fs := ResponseFields(total, entries);
    NumberAt(fs, 0, "mstt", 200);
    assert Unsigned(1, 0) == [0] by {
      assert Unsigned(0, 0) == [];
    }
    assert fs[1] == Leaf("muty", [0]);
    FieldAt(fs, 1, "muty", [0]);
  }

  lemma {:induction false} FewRows(total: nat, entries: seq<seq<Element>>)
    requires |EncodeAll(ResponseFields(total, entries))| < U32
    ensures |entries| < U32
  {
    hide Encode;
    var list := Node("mlcl", Rows(entries));
    EncodeAllAppend(Preamble(total, |entries|), [list]);
    EncodeOne(list);
    EightEach(Rows(entries));
    assert |Encode(list)| == 8 + |EncodeAll(Rows(entries))| by {
      ListSize(Rows(entries));
    }
  }

  lemma {:induction false} ListSize(rows: seq<Element>)
    ensures |Encode(Node("mlcl", rows))| == 8 + |EncodeAll(rows)|
  {
  }

  lemma {:induction false} TrackFieldsPlain(t: Track, mpco: Option<nat>, cs: Charset)
    ensures Plain(TrackFields(t, mpco, cs)) && NumberIn(TrackFields(t, mpco, cs), "miid") == t.id % U32
  {
    hide NumberIn, Unsigned, Be32;
    var es := TrackFields(t, mpco, cs);
    assert es[0] == U8("mikd", 2) && es[1] == U32Field("miid", t.id);
    NumberAt(es, 1, "miid", t.id);
    HeadPlain(t, cs);
    TailPlain(t, mpco);
  }

  lemma {:induction false} PlainAppend(a: seq<Element>, b: seq<Element>)
    requires Plain(a) && Plain(b)
    ensures Plain(a + b)
  {
  }

  /** Nor are the other field tags. */
  lemma {:induction false} FieldTag(t: Tag)
    requires (t[0] == 'm' && (t[1] == 'i' || t[1] == 'p')) || t[1] == 'b'
    ensures !ContainerTag(t)
  {
  }

  /** The song tags are no containers. */
  lemma {:induction false} SongTag(t: Tag)
    requires t[0] == 'a' && t[1] == 's'
    ensures !ContainerTag(t)
  {
  }

  lemma {:induction false} TextPlain(es: seq<Element>, t: Tag, v: Option<string>, cs: Charset)
    requires Plain(es) && t[0] == 'a' && t[1] == 's'
    ensures Plain(es + OptText(t, v, cs))
  {
    hide ContainerTag;
    SongTag(t);
  }

  lemma {:induction false} U16Plain(es: seq<Element>, t: Tag, v: Option<nat>)
    requires Plain(es) && t[0] == 'a' && t[1] == 's'
    ensures Plain(es + OptU16(t, v))
  {
    hide ContainerTag;
    SongTag(t);
  }

  lemma {:induction false} U32Plain(es: seq<Element>, t: Tag, v: Option<nat>)
    requires Plain(es) && t[0] == 'a' && t[1] == 's'
    ensures Plain(es + OptU32(t, v))
  {
    hide ContainerTag;
    SongTag(t);
  }

  lemma {:induction false} ItemTagsPlain(id: nat, title: seq<byte>)
    ensures Plain([] + [U8("mikd", 2)] + [U32Field("miid", id)] + [U64("mper", id)] + [Leaf("minm", title)])
  {
    hide Unsigned, Be32, ContainerTag;
    FieldTag("mikd");
    FieldTag("miid");
    FieldTag("mper");
    FieldTag("minm");
  }

  lemma {:induction false} FormatPlain(format: seq<byte>)
    ensures Plain([Leaf("asfm", format)]) && Plain([U8("asdk", 0)])
  {
    hide ContainerTag;
    SongTag("asfm");
    SongTag("asdk");
  }

  lemma {:induction false} HeadPlain(t: Track, cs: Charset)
    ensures Plain(TrackHead(t, cs))
  {
    hide OptText, Unsigned, Be32, Plain, ContainerTag, U8, U32Field, U64;
    var es := [] + [U8("mikd", 2)] + [U32Field("miid", t.id)] + [U64("mper", t.id)] + [Leaf("minm", cs(t.title))];
    ItemTagsPlain(t.id, cs(t.title));
    TextPlain(es, "asar", t.artist, cs);
    es := es + OptText("asar", t.artist, cs);
    TextPlain(es, "asal", t.album, cs);
    es := es + OptText("asal", t.album, cs);
    TextPlain(es, "asaa", t.albumArtist, cs);
    es := es + OptText("asaa", t.albumArtist, cs);
    TextPlain(es, "asgn", t.genre, cs);
    es := es + OptText("asgn", t.genre, cs);
    FormatPlain(cs(FormatString(t.format)));
    PlainAppend(es, [Leaf("asfm", cs(FormatString(t.format)))]);
    PlainAppend(es + [Leaf("asfm", cs(FormatString(t.format)))], [U8("asdk", 0)]);
  }

  lemma {:induction false} PlacePlain(mpco: Option<nat>)
    ensures Plain(OptU32("mpco", mpco))
  {
    hide ContainerTag;
    FieldTag("mpco");
  }

  lemma {:induction false} TailPlain(t: Track, mpco: Option<nat>)
    ensures Plain(TrackTail(t, mpco))
  {
    var es: seq<Element> := [];
    assert Plain(es);
    hide OptU16, OptU32, Plain, ContainerTag;
    U16Plain(es, "astn", t.trackNumber);
    es := es + OptU16("astn", t.trackNumber);
    U16Plain(es, "asdn", t.discNumber);
    es := es + OptU16("asdn", t.discNumber);
    U16Plain(es, "asyr", t.year);
    es := es + OptU16("asyr", t.year);
    U32Plain(es, "astm", t.durationMs);
    es := es + OptU32("astm", t.durationMs);
    U16Plain(es, "asbr", t.bitrateKbps);
    es := es + OptU16("asbr", t.bitrateKbps);
    U32Plain(es, "assr", t.sampleRate);
    es := es + OptU32("assr", t.sampleRate);
    U32Plain(es, "assz", Capped(t.sizeBytes));
    es := es + OptU32("assz", Capped(t.sizeBytes));
    PlacePlain(mpco);
    PlainAppend(es, OptU32("mpco", mpco));
  }

  // ---- Places as read by a client ----

  function ReadPlaces(bytes: seq<byte>): Option<seq<nat>> {
    match DecodeAll(ContainerTags(), bytes)
    case None => None
    case Some(es) => if |es| != 1 || es[0].Leaf? then None else Some(RowPlaces(ListRows(es[0].kids)))
  }

  function RowPlaces(rows: seq<Element>): (places: seq<nat>)
    ensures |places| == |rows|
  {
    seq(|rows|, i requires 0 <= i < |rows| => if rows[i].Node? then NumberIn(rows[i].kids, "mpco") else 0)
  }

  predicate Without(es: seq<Element>, t: Tag) {
    forall i :: 0 <= i < |es| ==> es[i].tag != t
  }

  lemma {:induction false} FieldBehind(a: seq<Element>, b: seq<Element>, t: Tag)
    requires Without(a, t)
    ensures FieldValue(a + b, t) == FieldValue(b, t)
  {
    if a == [] {
      assert a + b == b;
    } else {
      FieldBehind(a[1..], b, t);
      assert (a + b)[1..] == a[1..] + b;
    }
  }

  /** Song tags differ from the place's tag. */
  lemma {:induction false} SongTagsOnly(es: seq<Element>, t: Tag, v: Option<nat>, s: Option<string>, cs: Charset)
    requires Without(es, "mpco") && t[0] == 'a'
    ensures Without(es + OptU16(t, v), "mpco") && Without(es + OptU32(t, v), "mpco") && Without(es + OptText(t, s, cs), "mpco")
  {
    assert "mpco"[0] == 'm';
  }

  lemma {:induction false} HeadWithoutPlace(t: Track, cs: Charset)
    ensures Without(TrackHead(t, cs), "mpco")
  {
    hide OptText, OptU16, OptU32, Unsigned, Be32;
    var es := [] + [U8("mikd", 2)] + [U32Field("miid", t.id)] + [U64("mper", t.id)] + [Leaf("minm", cs(t.title))];
    var last := [Leaf("asfm", cs(FormatString(t.format)))];
    assert "mikd"[1] != "mpco"[1] && "miid"[1] != "mpco"[1] && "mper"[2] != "mpco"[2] && "minm"[1] != "mpco"[1];
    assert "asfm"[0] != "mpco"[0] && "asdk"[0] != "mpco"[0];
    assert Without(es, "mpco") && Without(last, "mpco") && Without([U8("asdk", 0)], "mpco");
    hide Without;
    SongTagsOnly(es, "asar", None, t.artist, cs);
    es := es + OptText("asar", t.artist, cs);
    SongTagsOnly(es, "asal", None, t.album, cs);
    es := es + OptText("asal", t.album, cs);
    SongTagsOnly(es, "asaa", None, t.albumArtist, cs);
    es := es + OptText("asaa", t.albumArtist, cs);
    SongTagsOnly(es, "asgn", None, t.genre, cs);
    es := es + OptText("asgn", t.genre, cs);
    WithoutBoth(es, last);
    WithoutBoth(es + last, [U8("asdk", 0)]);
  }

  lemma {:induction false} WithoutBoth(a: seq<Element>, b: seq<Element>)
    requires Without(a, "mpco") && Without(b, "mpco")
    ensures Without(a + b, "mpco")
  {
  }

  lemma {:induction false} NumbersWithoutPlace(t: Track)
    ensures Without(TrackTail(t, None), "mpco")
  {
    hide OptText, OptU16, OptU32, Without;
    var es := [] + OptU16("astn", t.trackNumber) + OptU16("asdn", t.discNumber) + OptU16("asyr", t.year);
    FirstNumbersWithoutPlace(t, es);
    LastNumbersWithoutPlace(t, es);
    NoPlace(es + OptU32("astm", t.durationMs) + OptU16("asbr", t.bitrateKbps) + OptU32("assr", t.sampleRate)
            + OptU32("assz", Capped(t.sizeBytes)));
  }

  lemma {:induction false} FirstNumbersWithoutPlace(t: Track, es: seq<Element>)
    requires es == [] + OptU16("astn", t.trackNumber) + OptU16("asdn", t.discNumber) + OptU16("asyr", t.year)
    ensures Without(es, "mpco")
  {
    assert Without([], "mpco");
    hide OptText, OptU16, OptU32, Without;
    var cs := (s: string) => [];
    SongTagsOnly([], "astn", t.trackNumber, None, cs);
    SongTagsOnly([] + OptU16("astn", t.trackNumber), "asdn", t.discNumber, None, cs);
    SongTagsOnly([] + OptU16("astn", t.trackNumber) + OptU16("asdn", t.discNumber), "asyr", t.year, None, cs);
  }

  lemma {:induction false} LastNumbersWithoutPlace(t: Track, es: seq<Element>)
    requires Without(es, "mpco")
    ensures Without(es + OptU32("astm", t.durationMs) + OptU16("asbr", t.bitrateKbps) + OptU32("assr", t.sampleRate)
                    + OptU32("assz", Capped(t.sizeBytes)), "mpco")
  {
    hide OptText, OptU16, OptU32, Without, Capped;
    var cs := (s: string) => [];
    SongTagsOnly(es, "astm", t.durationMs, None, cs);
    var es1 := es + OptU32("astm", t.durationMs);
    SongTagsOnly(es1, "asbr", t.bitrateKbps, None, cs);
    var es2 := es1 + OptU16("asbr", t.bitrateKbps);
    SongTagsOnly(es2, "assr", t.sampleRate, None, cs);
    SongTagsOnly(es2 + OptU32("assr", t.sampleRate), "assz", Capped(t.sizeBytes), None, cs);
  }

  lemma {:induction false} NoPlace(es: seq<Element>)
    ensures es + OptU32("mpco", None) == es
  {
  }

  lemma {:induction false} TailPlace(t: Track, place: nat)
    ensures TrackTail(t, Some(place)) == TrackTail(t, None) + [U32Field("mpco", place)]
  {
    hide OptU16;
    NoPlace(TrackTail(t, None));
  }

  lemma {:induction false} TrackPlace(t: Track, place: nat, cs: Charset)
    ensures NumberIn(TrackFields(t, Some(place), cs), "mpco") == place % U32
  {
    hide TrackHead, TrackTail, FieldValue;
    var place' := [U32Field("mpco", place)];
    HeadWithoutPlace(t, cs);
    NumbersWithoutPlace(t);
    TailPlace(t, place);
    FieldBehind(TrackTail(t, None), place', "mpco");
    FieldBehind(TrackHead(t, cs), TrackTail(t, Some(place)), "mpco");
    NumberAt(place', 0, "mpco", place);
  }

  /** Places offset + 1, offset + 2, ... */
  function PlacesFrom(offset: nat, n: nat): (places: seq<nat>)
    ensures |places| == n
  {
    seq(n, i => offset + i + 1)
  }

  /** A sorted playlist page with full metadata reads back as its tracks at their places. */
  lemma {:induction false} FullPageBack(page: seq<Track>, total: nat, offset: nat, cs: Charset)
    requires ShortIds(page) && total < U32 && offset + |page| < U32
    requires |Body(Response("apso", total, PlacedTrackEntries(page, offset, cs)))| < U32
    ensures var bytes := Encode(Response("apso", total, PlacedTrackEntries(page, offset, cs)));
      && ReadReply(bytes) == Some(Reply("apso", total, |page|, TrackNumbers(page)))
      && ReadPlaces(bytes) == Some(PlacesFrom(offset, |page|))
  {
    hide TrackFields, ReadReply, ReadPlaces, Encode, Body, Response, NumberIn, Plain, ContainerTag, DecodeAll;
    var entries := PlacedTrackEntries(page, offset, cs);
    forall i | 0 <= i < |entries|
      ensures Plain(entries[i]) && NumberIn(entries[i], "miid") == page[i].id
      ensures NumberIn(entries[i], "mpco") == offset + i + 1
    {
      TrackFieldsPlain(page[i], Some(offset + i + 1), cs);
      TrackPlace(page[i], offset + i + 1, cs);
    }
    ItemsTag();
    ReplyBack("apso", total, entries);
    PlacesBack("apso", total, entries);
    assert EntryIds(entries) == TrackNumbers(page);
    assert EntryPlaces(entries) == PlacesFrom(offset, |page|);
  }

  /** So does a page of bare numbers. */
  lemma {:induction false} IdPageBack(ids: seq<nat>, total: nat, offset: nat)
    requires (forall i :: 0 <= i < |ids| ==> ids[i] < U32) && total < U32 && offset + |ids| < U32
    requires |Body(Response("apso", total, IdEntries(ids, offset)))| < U32
    ensures var bytes := Encode(Response("apso", total, IdEntries(ids, offset)));
      && ReadReply(bytes) == Some(Reply("apso", total, |ids|, ids))
      && ReadPlaces(bytes) == Some(PlacesFrom(offset, |ids|))
  {
    hide ReadReply, ReadPlaces, Encode, Body, Response, NumberIn, ContainerTag, DecodeAll, EntryFields, Plain;
    var entries := IdEntries(ids, offset);
    forall i | 0 <= i < |entries|
      ensures Plain(entries[i]) && NumberIn(entries[i], "miid") == ids[i]
      ensures NumberIn(entries[i], "mpco") == offset + i + 1
    {
      EntryBack(ids[i], offset + i + 1);
    }
    ItemsTag();
    ReplyBack("apso", total, entries);
    PlacesBack("apso", total, entries);
    assert EntryIds(entries) == ids;
    assert EntryPlaces(entries) == PlacesFrom(offset, |ids|);
  }

  lemma {:induction false} EntryBack(id: nat, place: nat)
    requires id < U32 && place < U32
    ensures var es := EntryFields(id, place);
      Plain(es) && NumberIn(es, "miid") == id && NumberIn(es, "mpco") == place
  {
    hide NumberIn, Unsigned, Be32, ContainerTag;
    var es := EntryFields(id, place);
    FieldTag("mikd");
    FieldTag("miid");
    FieldTag("mpco");
    NumberAt(es, 1, "miid", id);
    NumberAt(es, 2, "mpco", place);
  }

  /** The numbers of a page of the source pane, the library first if it is on the page. */
  function PaneNumbers(libraryId: nat, extras: seq<Playlist>, library: bool): seq<nat> {
    (if library then [libraryId] else []) + seq(|extras|, i requires 0 <= i < |extras| => extras[i].id)
  }

  /** A page of playlists reads back as the full size, its own size and its numbers in order. */
  lemma {:induction false} PanePageBack(libraryId: nat, trackCount: nat, extras: seq<Playlist>, library: bool, total: nat, cs: Charset)
    requires libraryId < U32 && (forall i :: 0 <= i < |extras| ==> extras[i].id < U32) && total < U32
    requires |Body(Response("aply", total, PaneEntries(libraryId, trackCount, extras, library, cs)))| < U32
    ensures var numbers := PaneNumbers(libraryId, extras, library);
      ReadReply(Encode(Response("aply", total, PaneEntries(libraryId, trackCount, extras, library, cs)))) ==
      Some(Reply("aply", total, |numbers|, numbers))
  {
    hide ReadReply, Encode, Body, Response, NumberIn, Plain, ContainerTag, LibraryFields, PlaylistFields;
    var entries := PaneEntries(libraryId, trackCount, extras, library, cs);
    var numbers := PaneNumbers(libraryId, extras, library);
    var first := if library then 1 else 0;
    LibraryBack(libraryId, trackCount, cs);
    forall i | 0 <= i < |entries|
      ensures Plain(entries[i]) && NumberIn(entries[i], "miid") == numbers[i]
    {
      if i >= first {
        PlaylistBack(extras[i - first], cs);
      }
    }
    ItemsTag();
    ReplyBack("aply", total, entries);
    assert EntryIds(entries) == numbers;
  }

  lemma {:induction false} LibraryBack(id: nat, count: nat, cs: Charset)
    requires id < U32
    ensures Plain(LibraryFields(id, count, cs)) && NumberIn(LibraryFields(id, count, cs), "miid") == id
  {
    hide NumberIn, Unsigned, Be32, ContainerTag;
    FieldTag("miid");
    FieldTag("mper");
    FieldTag("minm");
    FieldTag("mimc");
    FieldTag("abpl");
    NumberAt(LibraryFields(id, count, cs), 0, "miid", id);
  }

  lemma {:induction false} PlaylistBack(p: Playlist, cs: Charset)
    requires p.id < U32
    ensures Plain(PlaylistFields(p, cs)) && NumberIn(PlaylistFields(p, cs), "miid") == p.id
  {
    hide NumberIn, Unsigned, Be32, ContainerTag;
    FieldTag("miid");
    FieldTag("mper");
    FieldTag("minm");
    FieldTag("mimc");
    NumberAt(PlaylistFields(p, cs), 0, "miid", p.id);
  }

  function EntryPlaces(entries: seq<seq<Element>>): (places: seq<nat>)
    ensures |places| == |entries|
  {
    seq(|entries|, i requires 0 <= i < |entries| => NumberIn(entries[i], "mpco"))
  }

  lemma {:induction false} PlacesBack(t: Tag, total: nat, entries: seq<seq<Element>>)
    requires ContainerTag(t) && AllPlain(entries) && |Body(Response(t, total, entries))| < U32
    ensures ReadPlaces(Encode(Response(t, total, entries))) == Some(EntryPlaces(entries))
  {
    hide DecodeAll, Encode, NumberIn, ListRows;
    ResponseComesBack(t, total, entries);
    ListAt(total, entries);
    assert RowPlaces(Rows(entries)) == EntryPlaces(entries);
  }

  // ---- Pages as read by a client ----

  function ItemsResponse(page: seq<Track>, total: nat, cs: Charset): Element {
    Response("adbs", total, TrackEntries(page, cs))
  }

  predicate ShortIds(tracks: seq<Track>) {
    forall i :: 0 <= i < |tracks| ==> tracks[i].id < U32
  }

  /** A page of tracks as read: the size of the whole listing, its own, and its tracks in order. */
  lemma {:induction false} ItemsPageBack(page: seq<Track>, total: nat, cs: Charset)
    requires ShortIds(page) && total < U32 && |Body(ItemsResponse(page, total, cs))| < U32
    ensures ReadReply(Encode(ItemsResponse(page, total, cs))) == Some(Reply("adbs", total, |page|, TrackNumbers(page)))
  {
    hide TrackFields, ReadReply, Encode, Body, Response, NumberIn, Plain, ContainerTag;
    var entries := TrackEntries(page, cs);
    forall i | 0 <= i < |entries|
      ensures Plain(entries[i]) && NumberIn(entries[i], "miid") == page[i].id
    {
      TrackFieldsPlain(page[i], None, cs);
    }
    assert ContainerTag("adbs") by { ItemsTag(); }
    ReplyBack("adbs", total, entries);
    assert EntryIds(entries) == TrackNumbers(page);
  }

  lemma {:induction false} ItemsTag()
    ensures ContainerTag("adbs") && ContainerTag("apso") && ContainerTag("aply")
  {
  }

  function PageOf(listings: seq<seq<Track>>, cuts: seq<nat>, i: nat): seq<Track>
    requires Cuts(cuts) && |listings| == |cuts| && i < |cuts|
  {
    ApplyIndexRange(listings[i], PageRange(cuts, i))
  }

  /** What a client gathers from its replies, page by page; nothing from one it cannot read. */
  function Gathered(replies: seq<Option<Reply>>): seq<nat> {
    if replies == [] then []
    else (if replies[0].Some? then replies[0].value.ids else []) + Gathered(replies[1..])
  }

  function ItemReplies(listings: seq<seq<Track>>, cuts: seq<nat>, cs: Charset, i: nat): (rs: seq<Option<Reply>>)
    requires Cuts(cuts) && |listings| == |cuts| && i <= |cuts|
    decreases |cuts| - i
  {
    if i == |cuts| then []
    else
      [ReadReply(Encode(ItemsResponse(PageOf(listings, cuts, i), |listings[i]|, cs)))] + ItemReplies(listings, cuts, cs, i + 1)
  }

  lemma {:induction false} RepliesGather(listings: seq<seq<Track>>, cuts: seq<nat>, cs: Charset, i: nat)
    requires Cuts(cuts) && |listings| == |cuts| && i <= |cuts|
    requires forall k :: 0 <= k < |listings| ==> ShortIds(listings[k]) && |listings[k]| < U32
    requires forall k :: 0 <= k < |cuts| ==> |Body(ItemsResponse(PageOf(listings, cuts, k), |listings[k]|, cs))| < U32
    ensures Gathered(ItemReplies(listings, cuts, cs, i)) == TrackNumbers(JoinedPages(listings, cuts, i))
    decreases |cuts| - i
  {
    hide Body, ItemsResponse, ReadReply, Encode, ApplyIndexRange, PageRange, ShortIds, TrackNumbers, Cuts;
    if i < |cuts| {
      var page, rest := PageOf(listings, cuts, i), JoinedPages(listings, cuts, i + 1);
      PageShort(listings[i], PageRange(cuts, i));
      ItemsPageBack(page, |listings[i]|, cs);
      RepliesGather(listings, cuts, cs, i + 1);
      NumbersOfBoth(page, rest);
      GatheredOne(ReadReply(Encode(ItemsResponse(page, |listings[i]|, cs))), ItemReplies(listings, cuts, cs, i + 1));
    }
  }

  lemma {:induction false} NumbersOfBoth(a: seq<Track>, b: seq<Track>)
    ensures TrackNumbers(a + b) == TrackNumbers(a) + TrackNumbers(b)
  {
  }

  lemma {:induction false} GatheredOne(reply: Option<Reply>, rest: seq<Option<Reply>>)
    ensures Gathered([reply] + rest) == (if reply.Some? then reply.value.ids else []) + Gathered(rest)
  {
    assert ([reply] + rest)[1..] == rest;
  }

  lemma {:induction false} PageShort(listing: seq<Track>, r: Range)
    requires WellOrdered(r) && ShortIds(listing)
    ensures ShortIds(ApplyIndexRange(listing, r))
  {
  }

  /** End to end: a client that fetches the tracks page by page, while the source returns them in a
      different order every time, reads the numbers of the one sorted and filtered listing. */
  lemma {:induction false} PagedClientSeesListing(v: View, tracks: seq<Track>, sources: seq<seq<Track>>, cuts: seq<nat>, cs: Charset)
    requires DistinctIds(tracks) && KeepsId(v.serve) && Cuts(cuts) && |sources| == |cuts|
    requires forall i :: 0 <= i < |sources| ==> multiset(sources[i]) == multiset(tracks)
    requires ShortIds(ItemListing(v, tracks)) && |ItemListing(v, tracks)| < U32
    requires forall k :: 0 <= k < |cuts| ==>
      |Body(ItemsResponse(PageOf(ItemListings(v, sources), cuts, k), |ItemListings(v, sources)[k]|, cs))| < U32
    ensures Gathered(ItemReplies(ItemListings(v, sources), cuts, cs, 0)) == TrackNumbers(ItemListing(v, tracks))
  {
    hide Body, ItemsResponse, ItemListing, JoinedPages, ItemReplies, Gathered, ShortIds, PageOf;
    var listings := ItemListings(v, sources);
    forall k | 0 <= k < |listings|
      ensures listings[k] == ItemListing(v, tracks)
    {
      ItemListingStable(v, tracks, sources[k]);
    }
    RepliesGather(listings, cuts, cs, 0);
    ItemPagesJoin(v, tracks, sources, cuts);
  }
}
