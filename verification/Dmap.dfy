/** DMAP tag-length-value encoding: the tree encoder, a decoder that is its inverse, and the growable
    buffer in which containers are written with a zero length that is filled in afterwards. */
module Dmap {
  import opened Wrappers
  import opened BigEndian

  /** Four ASCII characters. */
  type Tag = t: string | |t| == 4 && forall i :: 0 <= i < |t| ==> t[i] as int < 128 witness "mstt"

  datatype Element = Leaf(tag: Tag, value: seq<byte>) | Node(tag: Tag, kids: seq<Element>)

  function TagBytes(t: Tag): (s: seq<byte>)
    ensures |s| == 4
  {
    [t[0] as int, t[1] as int, t[2] as int, t[3] as int]
  }

  // ---- The tree encoder ----

  function Header(t: Tag, len: nat): (s: seq<byte>)
    ensures |s| == 8
  {
    TagBytes(t) + Be32(len)
  }

  function Encode(e: Element): seq<byte> {
    match e
    case Leaf(t, value) => Header(t, |value|) + value
    case Node(t, kids) => Header(t, |EncodeAll(kids)|) + EncodeAll(kids)
  }

  function EncodeAll(es: seq<Element>): seq<byte> {
    if es == [] then [] else Encode(es[0]) + EncodeAll(es[1..])
  }

  function Body(e: Element): seq<byte> {
    match e case Leaf(_, value) => value case Node(_, kids) => EncodeAll(kids)
  }

  /** Which tags hold nested elements. */
  type Schema = Tag -> bool

  /** Containers where the schema has them, and every length within its 32 bits. */
  predicate WellFormed(schema: Schema, e: Element) {
    && |Body(e)| < U32
    && match e
       case Leaf(t, _) => !schema(t)
       case Node(t, kids) => schema(t) && AllWellFormed(schema, kids)
  }

  predicate AllWellFormed(schema: Schema, es: seq<Element>) {
    es == [] || (WellFormed(schema, es[0]) && AllWellFormed(schema, es[1..]))
  }

  lemma {:induction false} EncodeAllAppend(a: seq<Element>, b: seq<Element>)
    ensures EncodeAll(a + b) == EncodeAll(a) + EncodeAll(b)
  {
    if a == [] {
      assert a + b == b;
    } else {
      EncodeAllAppend(a[1..], b);
      assert (a + b)[1..] == a[1..] + b;
      Assoc(Encode(a[0]), EncodeAll(a[1..]), EncodeAll(b));
    }
  }

  lemma {:induction false} EncodeOne(e: Element)
    ensures EncodeAll([e]) == Encode(e)
  {
    assert [e][1..] == [];
  }

  // ---- The decoder ----

  function AsciiTag(s: seq<byte>): (t: Option<Tag>)
    requires |s| == 4
    ensures t.Some? <==> forall i :: 0 <= i < 4 ==> s[i] < 128
    ensures t.Some? ==> TagBytes(t.value) == s
  {
    if forall i :: 0 <= i < 4 ==> s[i] < 128 then
      Some([s[0] as char, s[1] as char, s[2] as char, s[3] as char])
    else None
  }

  function DecodeAll(schema: Schema, s: seq<byte>): Option<seq<Element>>
    decreases |s|, 0
  {
    if s == [] then Some([])
    else if |s| < 8 then None
    else
      var t, len := AsciiTag(s[..4]), ReadBe32(s[4..8]);
      if t == None || |s| < 8 + len then None
      else
        match DecodeBody(schema, t.value, s[8..8 + len])
        case None => None
        case Some(e) =>
          match DecodeAll(schema, s[8 + len..])
          case None => None
          case Some(es) => Some([e] + es)
  }

  function DecodeBody(schema: Schema, t: Tag, body: seq<byte>): Option<Element>
    decreases |body|, 1
  {
    if !schema(t) then Some(Leaf(t, body))
    else
      match DecodeAll(schema, body)
      case None => None
      case Some(kids) => Some(Node(t, kids))
  }

  lemma {:induction false} TagBack(t: Tag)
    ensures AsciiTag(TagBytes(t)) == Some(t)
  {
    assert t == [t[0], t[1], t[2], t[3]];
  }

  /** One element off the front of some bytes. */
  lemma {:induction false} DecodeStep(schema: Schema, t: Tag, body: seq<byte>, rest: seq<byte>)
    requires |body| < U32
    ensures DecodeAll(schema, Header(t, |body|) + body + rest) ==
      match DecodeBody(schema, t, body)
      case None => None
      case Some(e) => match DecodeAll(schema, rest) case None => None case Some(es) => Some([e] + es)
  {
    hide DecodeBody;
    var s := Header(t, |body|) + body + rest;
    TagBack(t);
    Be32Back(|body|);
    assert s[..4] == TagBytes(t) && s[4..8] == Be32(|body|);
    assert s[8..8 + |body|] == body && s[8 + |body|..] == rest;
  }

  /** Well-formed trees come back. */
  lemma {:induction false} RoundTrip(schema: Schema, es: seq<Element>)
    requires AllWellFormed(schema, es)
    ensures DecodeAll(schema, EncodeAll(es)) == Some(es)
    decreases es
  {
    if es != [] {
      var e, rest := es[0], es[1..];
      RoundTrip(schema, rest);
      BodyRoundTrip(schema, e);
      DecodeStep(schema, e.tag, Body(e), EncodeAll(rest));
      assert [e] + rest == es;
      assert EncodeAll(es) == Header(e.tag, |Body(e)|) + Body(e) + EncodeAll(rest);
    }
  }

  lemma {:induction false} BodyRoundTrip(schema: Schema, e: Element)
    requires WellFormed(schema, e)
    ensures DecodeBody(schema, e.tag, Body(e)) == Some(e)
    decreases e
  {
    if e.Node? {
      RoundTrip(schema, e.kids);
    }
  }

  /** And only well-formed trees do: whatever decodes is the encoding of what it decodes to. */
  lemma {:induction false} DecodedIsEncoding(schema: Schema, s: seq<byte>)
    requires DecodeAll(schema, s).Some?
    ensures var es := DecodeAll(schema, s).value; AllWellFormed(schema, es) && EncodeAll(es) == s
    decreases |s|
  {
    if s != [] {
      var t, len := AsciiTag(s[..4]).value, ReadBe32(s[4..8]);
      var body, rest := s[8..8 + len], s[8 + len..];
      var e, es := DecodeBody(schema, t, body).value, DecodeAll(schema, rest).value;
      HeaderBack(s);
      DecodedIsEncoding(schema, rest);
      if schema(t) {
        DecodedIsEncoding(schema, body);
      }
      Recompose(e, es, s, len);
    }
  }

  lemma {:induction false} Recompose(e: Element, es: seq<Element>, s: seq<byte>, len: nat)
    requires |s| >= 8 + len && s[..8] == Header(e.tag, len) && Body(e) == s[8..8 + len] && EncodeAll(es) == s[8 + len..]
    ensures EncodeAll([e] + es) == s
  {
    hide Header;
    assert Encode(e) == Header(e.tag, len) + Body(e);
    assert ([e] + es)[1..] == es;
    assert s == s[..8] + s[8..8 + len] + s[8 + len..];
  }

  lemma {:induction false} HeaderBack(s: seq<byte>)
    requires |s| >= 8 && AsciiTag(s[..4]).Some?
    ensures s[..8] == Header(AsciiTag(s[..4]).value, ReadBe32(s[4..8]))
  {
    BytesBack(s[4..8]);
    assert s[..8] == s[..4] + s[4..8];
  }

  /** The decoder is the encoder's inverse on exactly the well-formed trees: a tree comes back if and
      only if it is tagged by the schema and no body in it reaches 2^32 bytes. */
  lemma {:induction false} DecodeIffEncoded(schema: Schema, s: seq<byte>, es: seq<Element>)
    ensures DecodeAll(schema, s) == Some(es) <==> AllWellFormed(schema, es) && EncodeAll(es) == s
  {
    hide DecodeAll, AllWellFormed, EncodeAll;
    if AllWellFormed(schema, es) {
      RoundTrip(schema, es);
    }
    if DecodeAll(schema, s) == Some(es) {
      DecodedIsEncoding(schema, s);
    }
  }

  lemma {:induction false} ComesBackIffWellFormed(schema: Schema, es: seq<Element>)
    ensures DecodeAll(schema, EncodeAll(es)) == Some(es) <==> AllWellFormed(schema, es)
  {
    DecodeIffEncoded(schema, EncodeAll(es), es);
  }

  // ---- Sizes ----

  /** Containers exactly where the schema has them. */
  predicate Tagged(schema: Schema, e: Element) {
    match e
    case Leaf(t, _) => !schema(t)
    case Node(t, kids) => schema(t) && AllTagged(schema, kids)
  }

  predicate AllTagged(schema: Schema, es: seq<Element>) {
    es == [] || (Tagged(schema, es[0]) && AllTagged(schema, es[1..]))
  }

  /** Nothing inside a body is longer than the body, so only the outermost length can overflow
      first. */
  lemma {:induction false} FitsInside(schema: Schema, e: Element)
    ensures WellFormed(schema, e) <==> Tagged(schema, e) && |Body(e)| < U32
    decreases e
  {
    if e.Node? {
      if |Body(e)| < U32 {
        AllFitInside(schema, e.kids);
      }
    }
  }

  lemma {:induction false} AllFitInside(schema: Schema, es: seq<Element>)
    requires |EncodeAll(es)| < U32
    ensures AllWellFormed(schema, es) <==> AllTagged(schema, es)
    decreases es
  {
    if es != [] {
      FitsInside(schema, es[0]);
      AllFitInside(schema, es[1..]);
    }
  }

  lemma {:induction false} AllTaggedEach(schema: Schema, es: seq<Element>)
    ensures AllTagged(schema, es) <==> forall i :: 0 <= i < |es| ==> Tagged(schema, es[i])
    decreases |es|
  {
    if es != [] {
      AllTaggedEach(schema, es[1..]);
    }
  }

  /** Every element takes at least its header. */
  lemma {:induction false} EightEach(es: seq<Element>)
    ensures |EncodeAll(es)| >= 8 * |es|
    decreases |es|
  {
    if es != [] {
      EightEach(es[1..]);
    }
  }

  // ---- The buffer ----

  /** The response buffer. */
  class Buffer {
    var bytes: seq<byte>

    constructor ()
      ensures bytes == []
    {
      bytes := [];
    }

    method WriteHeader(t: Tag, len: nat)
      modifies this
      ensures bytes == old(bytes) + Header(t, len)
    {
      bytes := bytes + TagBytes(t);
      bytes := bytes + Be32(len);
    }

    /** A field of already encoded value bytes. */
    method Field(t: Tag, value: seq<byte>)
      modifies this
      ensures bytes == old(bytes) + Encode(Leaf(t, value))
    {
      WriteHeader(t, |value|);
      bytes := bytes + value;
    }

    /** The header of a container whose length is not known yet; says where it starts. */
    method Open(t: Tag) returns (start: nat)
      modifies this
      ensures start == |old(bytes)| && bytes == old(bytes) + Header(t, 0)
    {
      start := |bytes|;
      WriteHeader(t, 0);
    }

    /** Fill in the length of the container opened at start, now that its body is written. */
    method Close(start: nat, ghost t: Tag, ghost kids: seq<Element>)
      requires start <= |bytes| && bytes[start..] == Header(t, 0) + EncodeAll(kids)
      modifies this
      ensures bytes == old(bytes)[..start] + Encode(Node(t, kids))
    {
      hide Be32, TagBytes;
      var bodyLen := (|bytes| - start - 8) % U32;
      ghost var before, body := bytes[..start], EncodeAll(kids);
      hide EncodeAll;
      assert bytes == before + (Header(t, 0) + body);
      Patch(before, TagBytes(t), Be32(0), body, Be32(bodyLen));
      SameLength(|body|);
      bytes := bytes[..start + 4] + Be32(bodyLen) + bytes[start + 8..];
    }

    /** Any nesting of opened, filled and closed containers writes the tree encoding. */
    method WriteElement(e: Element)
      modifies this
      ensures bytes == old(bytes) + Encode(e)
      decreases e
    {
      match e {
        case Leaf(t, value) => Field(t, value);
        case Node(t, kids) =>
          ghost var before := bytes;
          var start := Open(t);
          ghost var base := bytes;
          for i := 0 to |kids|
            invariant bytes == base + EncodeAll(kids[..i])
          {
            WriteElement(kids[i]);
            EncodeNext(kids, i);
            Assoc(base, EncodeAll(kids[..i]), Encode(kids[i]));
          }
          assert kids[..|kids|] == kids;
          assert bytes[start..] == Header(t, 0) + EncodeAll(kids);
          Close(start, t, kids);
          assert base[..start] == before;
      }
    }
  }

  /** Replacing the four length bytes replaces nothing else. */
  lemma {:induction false} Patch(before: seq<byte>, tag: seq<byte>, len: seq<byte>, body: seq<byte>, len': seq<byte>)
    requires |tag| == 4 && |len| == 4 && |len'| == 4
    ensures var s := before + (tag + len + body);
      s[..|before| + 4] + len' + s[|before| + 8..] == before + (tag + len' + body)
  {
    var s := before + (tag + len + body);
    assert s[..|before| + 4] == before + tag;
    assert s[|before| + 8..] == body;
  }

  lemma {:induction false} EncodeNext(es: seq<Element>, i: nat)
    requires i < |es|
    ensures EncodeAll(es[..i + 1]) == EncodeAll(es[..i]) + Encode(es[i])
  {
    assert es[..i + 1] == es[..i] + [es[i]];
    EncodeAllAppend(es[..i], [es[i]]);
    EncodeOne(es[i]);
  }
}
