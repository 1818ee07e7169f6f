/** The DIDL-Lite parser of a browse response: a machine over XML events that assembles the text of
    each field from whatever fragments the reader delivers. */
module Didl {
  import opened Strings
  import opened Wrappers

  type Attrs = map<string, string>

  /** What the XML reader delivers; Ignored is any event the parser has no case for, empty elements
      and comments among them. */
  datatype Event =
    | Start(local: string, attrs: Attrs)
    | Text(text: string)
    | EntityRef(name: string)
    | CData(text: string)
    | End(local: string)
    | Ignored

  datatype Res = Res(url: string, mime: Option<string>, durationMs: Option<nat>, bitrateKbps: Option<nat>,
    sampleRate: Option<nat>, sizeBytes: Option<nat>)

  datatype Builder = Builder(dlnaId: string, title: string, artist: Option<string>, album: Option<string>,
    albumArtist: Option<string>, genre: Option<string>, trackNumber: Option<nat>, trackBuf: Option<string>,
    year: Option<nat>, dateBuf: Option<string>, upnpClass: string, res: Option<Res>, artUri: Option<string>)

  datatype Node = Outside | Container(id: string, title: string) | Item(b: Builder)

  datatype Target = ContainerTitle | ItemTitle | ItemArtist | ItemAlbum | ItemAlbumArtist | ItemGenre | ItemClass
    | ItemTrack | ItemDate | ItemResUrl | ItemAlbumArtUri

  datatype AudioItem = AudioItem(id: nat, dlnaId: string, title: string, artist: Option<string>, album: Option<string>,
    albumArtist: Option<string>, genre: Option<string>, trackNumber: Option<nat>, year: Option<nat>,
    durationMs: Option<nat>, bitrateKbps: Option<nat>, sampleRate: Option<nat>, sizeBytes: Option<nat>,
    mime: Option<string>, format: nat, streamUrl: string, albumArtUri: Option<string>)

  /** A child container: object id and title. */
  datatype Folder = Folder(id: string, title: string)

  /** The library functions the parser calls on strings; numbers are parsed at three widths. */
  datatype Lexicon = Lexicon(trim: string -> string, number16: string -> Option<nat>, number32: string -> Option<nat>,
    number64: string -> Option<nat>, year: string -> Option<nat>, duration: string -> Option<nat>,
    mimeOf: string -> Option<string>, entity: string -> Option<string>, url: string -> Option<string>,
    format: Option<string> -> nat)

  datatype Parser = Parser(node: Node, target: Option<Target>, containers: seq<Folder>, items: seq<AudioItem>)

  // ---- The machine ----

  function Attr(attrs: Attrs, key: string): Option<string> {
    if key in attrs then Some(attrs[key]) else None
  }

  function Then<T>(a: Option<string>, f: string -> Option<T>): Option<T> {
    if a.Some? then f(a.value) else None
  }

  function OrEmpty(a: Option<string>): string {
    if a.Some? then a.value else ""
  }

  const EMPTY_BUILDER := Builder("", "", None, None, None, None, None, None, None, None, "", None, None)

  /** Bits per second as positive kilobits. */
  function Kilobits(bps: Option<nat>): Option<nat> {
    if bps == None || bps.value < 1000 then None else Some(bps.value / 1000)
  }

  function NewRes(lex: Lexicon, attrs: Attrs): Res {
    Res("", Then(Attr(attrs, "protocolInfo"), lex.mimeOf), Then(Attr(attrs, "duration"), lex.duration),
        Kilobits(Then(Attr(attrs, "bitrate"), lex.number32)), Then(Attr(attrs, "sampleFrequency"), lex.number32),
        Then(Attr(attrs, "size"), lex.number64))
  }

  /** The field an element's text goes to, for elements whose start has no other effect. */
  function FieldTarget(local: string, node: Node): Option<Target> {
    if local == "title" then Some(if node.Container? then ContainerTitle else ItemTitle)
    else if local == "artist" then Some(ItemArtist)
    else if local == "album" then Some(ItemAlbum)
    else if local == "albumArtist" then Some(ItemAlbumArtist)
    else if local == "genre" then Some(ItemGenre)
    else if local == "class" then Some(ItemClass)
    else if local == "originalTrackNumber" then Some(ItemTrack)
    else if local == "date" then Some(ItemDate)
    else if local == "albumArtURI" then Some(ItemAlbumArtUri)
    else None
  }

  /** Only the first resource of an item counts; an element without a case leaves the target. */
  function OnStart(lex: Lexicon, p: Parser, local: string, attrs: Attrs): Parser {
    if local == "container" then p.(node := Container(OrEmpty(Attr(attrs, "id")), ""))
    else if local == "item" then p.(node := Item(EMPTY_BUILDER.(dlnaId := OrEmpty(Attr(attrs, "id")))))
    else if local == "res" then
      if p.node.Item? && p.node.b.res == None
      then p.(node := Item(p.node.b.(res := Some(NewRes(lex, attrs)))), target := Some(ItemResUrl))
      else p
    else
      match FieldTarget(local, p.node)
      case Some(t) => p.(target := Some(t))
      case None => p
  }

  function Appended(field: Option<string>, text: string): Option<string> {
    Some(OrEmpty(field) + text)
  }

  /** Append text to the field, and parse the number fields again from all they have so far. */
  function ApplyToItem(lex: Lexicon, b: Builder, target: Target, text: string): Builder {
    match target
    case ContainerTitle => b
    case ItemTitle => b.(title := b.title + text)
    case ItemArtist => b.(artist := Appended(b.artist, text))
    case ItemAlbum => b.(album := Appended(b.album, text))
    case ItemAlbumArtist => b.(albumArtist := Appended(b.albumArtist, text))
    case ItemGenre => b.(genre := Appended(b.genre, text))
    case ItemClass => b.(upnpClass := b.upnpClass + text)
    case ItemTrack =>
      var buf := OrEmpty(b.trackBuf) + text;
      b.(trackBuf := Some(buf), trackNumber := lex.number16(lex.trim(buf)))
    case ItemDate =>
      var buf := OrEmpty(b.dateBuf) + text;
      b.(dateBuf := Some(buf), year := lex.year(buf))
    case ItemResUrl => if b.res.Some? then b.(res := Some(b.res.value.(url := b.res.value.url + text))) else b
    case ItemAlbumArtUri => b.(artUri := Appended(b.artUri, text))
  }

  function Apply(lex: Lexicon, node: Node, target: Target, text: string): Node {
    match node
    case Outside => Outside
    case Container(id, title) => if target == ContainerTitle then Container(id, title + text) else node
    case Item(b) => Item(ApplyToItem(lex, b, target, text))
  }

  function OnText(lex: Lexicon, p: Parser, text: string): Parser {
    if p.target == None then p else p.(node := Apply(lex, p.node, p.target.value, text))
  }

  function Trimmed(lex: Lexicon, field: Option<string>): Option<string> {
    if field.Some? then Some(lex.trim(field.value)) else None
  }

  /** The finished item, if it is audio and its resource has an address. */
  function Finalize(lex: Lexicon, b: Builder): Option<AudioItem> {
    if !Contains(b.upnpClass, "audioItem") || b.res == None || lex.url(b.res.value.url) == None then None
    else
      var res := b.res.value;
      Some(AudioItem(0, b.dlnaId, lex.trim(b.title), Trimmed(lex, b.artist), Trimmed(lex, b.album),
                     Trimmed(lex, b.albumArtist), Trimmed(lex, b.genre), b.trackNumber, b.year, res.durationMs,
                     res.bitrateKbps, res.sampleRate, res.sizeBytes, res.mime, lex.format(res.mime),
                     lex.url(res.url).value, Then(Trimmed(lex, b.artUri), lex.url)))
  }

  /** The end of any element stops collecting text; the end of a container or item takes the node,
      whichever it is. */
  function OnEnd(lex: Lexicon, p: Parser, local: string): Parser {
    var p' := p.(target := None);
    if local == "container" then
      var p'' := p'.(node := Outside);
      if p.node.Container? then p''.(containers := p.containers + [Folder(p.node.id, lex.trim(p.node.title))]) else p''
    else if local == "item" then
      var p'' := p'.(node := Outside);
      var item := if p.node.Item? then Finalize(lex, p.node.b) else None;
      if item.Some? then p''.(items := p.items + [item.value]) else p''
    else p'
  }

  function Step(lex: Lexicon, p: Parser, ev: Event): Parser {
    match ev
    case Start(local, attrs) => OnStart(lex, p, local, attrs)
    case Text(text) => OnText(lex, p, text)
    case CData(text) => OnText(lex, p, text)
    case EntityRef(name) => if lex.entity(name).Some? then OnText(lex, p, lex.entity(name).value) else p
    case End(local) => OnEnd(lex, p, local)
    case Ignored => p
  }

  function Run(lex: Lexicon, p: Parser, evs: seq<Event>): Parser
    decreases |evs|
  {
    if evs == [] then p else Run(lex, Step(lex, p, evs[0]), evs[1..])
  }

  const INITIAL := Parser(Outside, None, [], [])

  lemma {:induction false} RunAppend(lex: Lexicon, p: Parser, a: seq<Event>, b: seq<Event>)
    ensures Run(lex, p, a + b) == Run(lex, Run(lex, p, a), b)
    decreases |a|
  {
    hide Step;
    if a == [] {
      assert a + b == b;
    } else {
      RunAppend(lex, Step(lex, p, a[0]), a[1..], b);
      assert (a + b)[1..] == a[1..] + b;
    }
  }

  lemma {:induction false} RunOne(lex: Lexicon, p: Parser, ev: Event)
    ensures Run(lex, p, [ev]) == Step(lex, p, ev)
  {
    hide Step;
    assert Run(lex, p, [ev]) == Run(lex, Step(lex, p, ev), [ev][1..]);
  }

  // ---- Fragments ----

  /** The text an event contributes to a run of text, if it is a fragment of one. */
  function Fragment(lex: Lexicon, ev: Event): Option<string> {
    match ev
    case Text(text) => Some(text)
    case CData(text) => Some(text)
    case EntityRef(name) => lex.entity(name)
    case _ => None
  }

  /** Text, CDATA, references known and unknown, and events without a case. */
  predicate WithinText(ev: Event) {
    !ev.Start? && !ev.End?
  }

  predicate AllWithinText(evs: seq<Event>) {
    forall i :: 0 <= i < |evs| ==> WithinText(evs[i])
  }

  /** The text of a run of events, or None when none of them is a fragment. */
  function Joined(lex: Lexicon, evs: seq<Event>): Option<string> {
    if evs == [] then None
    else
      var rest := Joined(lex, evs[1..]);
      match Fragment(lex, evs[0])
      case None => rest
      case Some(text) => Some(text + OrEmpty(rest))
  }

  /** Two texts in turn are one text. */
  lemma {:induction false} ApplyTwice(lex: Lexicon, node: Node, target: Target, a: string, b: string)
    ensures Apply(lex, Apply(lex, node, target, a), target, b) == Apply(lex, node, target, a + b)
  {
    match node {
      case Outside =>
      case Container(_, title) => Assoc(title, a, b);
      case Item(i) =>
        Assoc(i.title, a, b);
        Assoc(OrEmpty(i.artist), a, b);
        Assoc(OrEmpty(i.album), a, b);
        Assoc(OrEmpty(i.albumArtist), a, b);
        Assoc(OrEmpty(i.genre), a, b);
        Assoc(i.upnpClass, a, b);
        Assoc(OrEmpty(i.trackBuf), a, b);
        Assoc(OrEmpty(i.dateBuf), a, b);
        Assoc(OrEmpty(i.artUri), a, b);
        if i.res.Some? {
          Assoc(i.res.value.url, a, b);
        }
    }
  }

  lemma {:induction false} TextTwice(lex: Lexicon, p: Parser, a: string, b: string)
    ensures OnText(lex, OnText(lex, p, a), b) == OnText(lex, p, a + b)
  {
    hide Apply;
    if p.target.Some? {
      ApplyTwice(lex, p.node, p.target.value, a, b);
    }
  }

  /** A run of text events acts as the one text they spell, or not at all. */
  lemma {:induction false} FragmentsJoin(lex: Lexicon, p: Parser, evs: seq<Event>)
    requires AllWithinText(evs)
    ensures Run(lex, p, evs) == match Joined(lex, evs) case None => p case Some(text) => OnText(lex, p, text)
    decreases |evs|
  {
    if evs != [] {
      hide OnText;
      FragmentsJoin(lex, Step(lex, p, evs[0]), evs[1..]);
      assert Run(lex, p, evs) == Run(lex, Step(lex, p, evs[0]), evs[1..]);
      var first, rest := Fragment(lex, evs[0]), Joined(lex, evs[1..]);
      assert Step(lex, p, evs[0]) == if first.Some? then OnText(lex, p, first.value) else p by {
        FragmentStep(lex, p, evs[0]);
      }
      if first.Some? {
        if rest.Some? {
          TextTwice(lex, p, first.value, rest.value);
        } else {
          assert first.value + "" == first.value;
        }
      }
    }
  }

  lemma {:induction false} FragmentStep(lex: Lexicon, p: Parser, ev: Event)
    requires WithinText(ev)
    ensures Step(lex, p, ev) == match Fragment(lex, ev) case None => p case Some(text) => OnText(lex, p, text)
  {
    hide OnText;
  }

  /** Fragmentation invariance: replacing a run of text anywhere in the events by any other run that
      spells the same text changes nothing in what is parsed. */
  lemma {:induction false} FragmentationInvariance(lex: Lexicon, p: Parser, pre: seq<Event>, run: seq<Event>,
                                                   run': seq<Event>, post: seq<Event>)
    requires AllWithinText(run) && AllWithinText(run') && Joined(lex, run) == Joined(lex, run')
    ensures Run(lex, p, pre + run + post) == Run(lex, p, pre + run' + post)
  {
    hide Run, Joined, OnText;
    var mid := Run(lex, p, pre);
    FragmentsJoin(lex, mid, run);
    FragmentsJoin(lex, mid, run');
    RunAppend(lex, p, pre + run, post);
    RunAppend(lex, p, pre, run);
    RunAppend(lex, p, pre + run', post);
    RunAppend(lex, p, pre, run');
  }

  // ---- What an item element means ----

  /** The names of elements that carry a text field. */
  const FIELD_NAMES: seq<string> := ["title", "artist", "album", "albumArtist", "genre", "class", "originalTrackNumber", "date",
    "albumArtURI"]

  /** An element that carries a text field. */
  datatype Field = Field(local: string, attrs: Attrs, content: seq<Event>)

  predicate TextField(f: Field) {
    f.local in FIELD_NAMES && AllWithinText(f.content)
  }

  lemma {:induction false} FieldNames(local: string, node: Node)
    ensures local in FIELD_NAMES <==> FieldTarget(local, node).Some?
    ensures local in FIELD_NAMES ==> local != "container" && local != "item" && local != "res"
    ensures local in FIELD_NAMES ==> (FieldTarget(local, node) == Some(ContainerTitle) <==> local == "title" && node.Container?)
  {
    assert FIELD_NAMES[0] == "title" && FIELD_NAMES[1] == "artist" && FIELD_NAMES[2] == "album";
    assert FIELD_NAMES[3] == "albumArtist" && FIELD_NAMES[4] == "genre" && FIELD_NAMES[5] == "class";
    assert FIELD_NAMES[6] == "originalTrackNumber" && FIELD_NAMES[7] == "date" && FIELD_NAMES[8] == "albumArtURI";
  }

  /** Where the text of a field goes in an item. */
  function ItemTarget(local: string): (t: Target)
    requires local in FIELD_NAMES
    ensures forall b :: FieldTarget(local, Item(b)) == Some(t)
  {
    FieldNames(local, Outside);
    FieldTarget(local, Outside).value
  }

  lemma {:induction false} TargetsByName(local: string)
    requires local in FIELD_NAMES
    ensures local == "title" <==> ItemTarget(local) == ItemTitle
    ensures local == "artist" <==> ItemTarget(local) == ItemArtist
    ensures local == "album" <==> ItemTarget(local) == ItemAlbum
    ensures local == "albumArtist" <==> ItemTarget(local) == ItemAlbumArtist
    ensures local == "genre" <==> ItemTarget(local) == ItemGenre
    ensures local == "class" <==> ItemTarget(local) == ItemClass
    ensures local == "originalTrackNumber" <==> ItemTarget(local) == ItemTrack
    ensures local == "date" <==> ItemTarget(local) == ItemDate
    ensures local == "albumArtURI" <==> ItemTarget(local) == ItemAlbumArtUri
    ensures ItemTarget(local) != ContainerTitle && ItemTarget(local) != ItemResUrl
  {
  }

  function FieldEvents(f: Field): seq<Event>
    requires TextField(f)
  {
    [Start(f.local, f.attrs)] + f.content + [End(f.local)]
  }

  /** The text all elements of one name spell together, in order. */
  function FieldText(lex: Lexicon, fs: seq<Field>, name: string): Option<string> {
    if fs == [] then None
    else
      var before, last := FieldText(lex, fs[..|fs| - 1], name), fs[|fs| - 1];
      if last.local == name && Joined(lex, last.content).Some?
      then Some(OrEmpty(before) + Joined(lex, last.content).value)
      else before
  }

  /** The builder with every text field as its elements spell it. */
  function Assembled(lex: Lexicon, dlnaId: string, res: Option<Res>, fs: seq<Field>): Builder {
    var number, date := FieldText(lex, fs, "originalTrackNumber"), FieldText(lex, fs, "date");
    Builder(dlnaId, OrEmpty(FieldText(lex, fs, "title")), FieldText(lex, fs, "artist"), FieldText(lex, fs, "album"),
            FieldText(lex, fs, "albumArtist"), FieldText(lex, fs, "genre"),
            Then(Trimmed(lex, number), lex.number16), number, Then(date, lex.year), date,
            OrEmpty(FieldText(lex, fs, "class")), res, FieldText(lex, fs, "albumArtURI"))
  }

  /** A text field reaches the item under way, the title of the folder under way, or nothing. */
  function WithField(lex: Lexicon, node: Node, f: Field): Node {
    match (FieldTarget(f.local, node), Joined(lex, f.content))
    case (Some(t), Some(text)) => Apply(lex, node, t, text)
    case _ => node
  }

  lemma {:induction false} FieldRun(lex: Lexicon, p: Parser, f: Field)
    requires TextField(f)
    ensures Run(lex, p, FieldEvents(f)) == p.(target := None, node := WithField(lex, p.node, f))
  {
    FieldNames(f.local, p.node);
    hide Run, Joined, Apply, FieldTarget;
    var start, end := Start(f.local, f.attrs), End(f.local);
    var p1 := p.(target := FieldTarget(f.local, p.node));
    RunAppend(lex, p, [start] + f.content, [end]);
    RunAppend(lex, p, [start], f.content);
    RunOne(lex, p, start);
    FragmentsJoin(lex, p1, f.content);
    RunOne(lex, Run(lex, p1, f.content), end);
  }

  lemma {:induction false} AssembleOne(lex: Lexicon, dlnaId: string, res: Option<Res>, fs: seq<Field>)
    requires fs != [] && TextField(fs[|fs| - 1])
    ensures Assembled(lex, dlnaId, res, fs) ==
      var b, last := Assembled(lex, dlnaId, res, fs[..|fs| - 1]), fs[|fs| - 1];
      match Joined(lex, last.content)
      case None => b
      case Some(text) => ApplyToItem(lex, b, ItemTarget(last.local), text)
  {
    hide Joined, FieldText, ItemTarget;
    TargetsByName(fs[|fs| - 1].local);
    FieldTextOne(lex, fs, "title");
    FieldTextOne(lex, fs, "artist");
    FieldTextOne(lex, fs, "album");
    FieldTextOne(lex, fs, "albumArtist");
    FieldTextOne(lex, fs, "genre");
    FieldTextOne(lex, fs, "class");
    FieldTextOne(lex, fs, "originalTrackNumber");
    FieldTextOne(lex, fs, "date");
    FieldTextOne(lex, fs, "albumArtURI");
  }

  lemma {:induction false} FieldTextOne(lex: Lexicon, fs: seq<Field>, name: string)
    requires fs != []
    ensures FieldText(lex, fs, name) ==
      var before, last := FieldText(lex, fs[..|fs| - 1], name), fs[|fs| - 1];
      if last.local == name && Joined(lex, last.content).Some?
      then Some(OrEmpty(before) + Joined(lex, last.content).value)
      else before
  {
    hide Joined;
  }

  // ---- Whole elements and documents ----

  /** A part of an element: a text field, a resource, or any single event that is idle between
      fields. */
  datatype Part = TextPart(field: Field) | Resource(attrs: Attrs, url: seq<Event>) | Loose(ev: Event)

  /** Text between elements, an element without a case, or the end of anything but a node. */
  predicate Idle(ev: Event) {
    match ev
    case Start(local, _) => local != "container" && local != "item" && local != "res" && local !in FIELD_NAMES
    case End(local) => local != "container" && local != "item"
    case _ => true
  }

  predicate WellFormed(part: Part) {
    match part
    case TextPart(f) => TextField(f)
    case Resource(_, url) => AllWithinText(url)
    case Loose(ev) => Idle(ev)
  }

  predicate AllWellFormed(parts: seq<Part>) {
    forall i :: 0 <= i < |parts| ==> WellFormed(parts[i])
  }

  function PartEvents(part: Part): seq<Event>
    requires WellFormed(part)
  {
    match part
    case TextPart(f) => FieldEvents(f)
    case Resource(attrs, url) => [Start("res", attrs)] + url + [End("res")]
    case Loose(ev) => [ev]
  }

  function AllPartEvents(parts: seq<Part>): seq<Event>
    requires AllWellFormed(parts)
  {
    if parts == [] then [] else AllPartEvents(parts[..|parts| - 1]) + PartEvents(parts[|parts| - 1])
  }

  /** The text fields among the parts. */
  function Fields(parts: seq<Part>): seq<Field> {
    if parts == [] then []
    else
      var last := parts[|parts| - 1];
      Fields(parts[..|parts| - 1]) + if last.TextPart? then [last.field] else []
  }

  /** The first resource among the parts, with its address. */
  function FirstRes(lex: Lexicon, parts: seq<Part>): Option<Res> {
    if parts == [] then None
    else
      var before, last := FirstRes(lex, parts[..|parts| - 1]), parts[|parts| - 1];
      if before == None && last.Resource? then Some(NewRes(lex, last.attrs).(url := OrEmpty(Joined(lex, last.url))))
      else before
  }

  /** An idle event, a resource outside an item and a second resource change nothing. */
  lemma {:induction false} LooseRun(lex: Lexicon, p: Parser, ev: Event)
    requires Idle(ev) && p.target == None
    ensures Run(lex, p, [ev]) == p
  {
    if ev.Start? {
      FieldNames(ev.local, p.node);
    }
    hide FieldTarget;
    RunOne(lex, p, ev);
  }

  lemma {:induction false} LaterResRun(lex: Lexicon, p: Parser, attrs: Attrs, url: seq<Event>)
    requires p.target == None && AllWithinText(url) && (p.node.Item? ==> p.node.b.res.Some?)
    ensures Run(lex, p, [Start("res", attrs)] + url + [End("res")]) == p
  {
    hide Run, Joined;
    RunAppend(lex, p, [Start("res", attrs)] + url, [End("res")]);
    RunAppend(lex, p, [Start("res", attrs)], url);
    RunOne(lex, p, Start("res", attrs));
    FragmentsJoin(lex, p, url);
    RunOne(lex, p, End("res"));
  }

  lemma {:induction false} FirstResRun(lex: Lexicon, p: Parser, attrs: Attrs, url: seq<Event>)
    requires p.node.Item? && p.node.b.res == None && p.target == None && AllWithinText(url)
    ensures Run(lex, p, [Start("res", attrs)] + url + [End("res")]) ==
      p.(node := Item(p.node.b.(res := Some(NewRes(lex, attrs).(url := OrEmpty(Joined(lex, url)))))))
  {
    hide Run, Joined;
    var p1 := p.(node := Item(p.node.b.(res := Some(NewRes(lex, attrs)))), target := Some(ItemResUrl));
    RunAppend(lex, p, [Start("res", attrs)] + url, [End("res")]);
    RunAppend(lex, p, [Start("res", attrs)], url);
    RunOne(lex, p, Start("res", attrs));
    FragmentsJoin(lex, p1, url);
    RunOne(lex, Run(lex, p1, url), End("res"));
    assert "" + OrEmpty(Joined(lex, url)) == OrEmpty(Joined(lex, url));
  }

  /** Whatever order the parts come in and however their text is cut up, each field of the item holds
      the text of its own elements and no other, and the resource is the first one. */
  lemma {:induction false} PartsAssemble(lex: Lexicon, p: Parser, dlnaId: string, parts: seq<Part>)
    requires AllWellFormed(parts) && p.target == None && p.node == Item(EMPTY_BUILDER.(dlnaId := dlnaId))
    ensures Run(lex, p, AllPartEvents(parts)) ==
      p.(node := Item(Assembled(lex, dlnaId, FirstRes(lex, parts), Fields(parts))))
    decreases |parts|
  {
    if parts == [] {
      RunNothing(lex, p);
    } else {
      LastPart(parts);
      hide Run, Joined, ApplyToItem, Assembled, Fields, FirstRes, AllPartEvents, PartEvents, AllWellFormed, WellFormed;
      var before, last := parts[..|parts| - 1], parts[|parts| - 1];
      PartsAssemble(lex, p, dlnaId, before);
      RunAppend(lex, p, AllPartEvents(before), PartEvents(last));
      AssembledOne(lex, p.(node := Item(Assembled(lex, dlnaId, FirstRes(lex, before), Fields(before)))), dlnaId, before, last);
    }
  }

  lemma {:induction false} LastPart(parts: seq<Part>)
    requires parts != [] && AllWellFormed(parts)
    ensures var before, last := parts[..|parts| - 1], parts[|parts| - 1];
      && before + [last] == parts && AllWellFormed(before) && WellFormed(last)
      && AllPartEvents(parts) == AllPartEvents(before) + PartEvents(last)
  {
  }

  lemma {:induction false} RunNothing(lex: Lexicon, p: Parser)
    ensures Run(lex, p, []) == p
  {
  }

  lemma {:induction false} PartsSnoc(lex: Lexicon, parts: seq<Part>, part: Part)
    ensures Fields(parts + [part]) == Fields(parts) + if part.TextPart? then [part.field] else []
    ensures FirstRes(lex, parts + [part]) ==
      if FirstRes(lex, parts) == None && part.Resource?
      then Some(NewRes(lex, part.attrs).(url := OrEmpty(Joined(lex, part.url))))
      else FirstRes(lex, parts)
  {
    hide Joined, NewRes;
    assert (parts + [part])[..|parts|] == parts;
  }

  lemma {:induction false} AssembledOne(lex: Lexicon, p: Parser, dlnaId: string, parts: seq<Part>, part: Part)
    requires WellFormed(part) && p.target == None
    requires p.node == Item(Assembled(lex, dlnaId, FirstRes(lex, parts), Fields(parts)))
    ensures Run(lex, p, PartEvents(part)) ==
      p.(node := Item(Assembled(lex, dlnaId, FirstRes(lex, parts + [part]), Fields(parts + [part]))))
  {
    hide Run, Joined, ApplyToItem, Fields, FirstRes, NewRes, FieldText;
    var fs, res := Fields(parts), FirstRes(lex, parts);
    PartsSnoc(lex, parts, part);
    assert fs + [] == fs;
    match part {
      case TextPart(f) =>
        hide Assembled;
        FieldRun(lex, p, f);
        assert (fs + [f])[..|fs|] == fs;
        AssembleOne(lex, dlnaId, res, fs + [f]);
      case Resource(attrs, url) =>
        if res == None {
          FirstResRun(lex, p, attrs, url);
        } else {
          LaterResRun(lex, p, attrs, url);
        }
      case Loose(ev) =>
        LooseRun(lex, p, ev);
    }
  }

  /** An item element with its parts. */
  function ItemEvents(attrs: Attrs, parts: seq<Part>): seq<Event>
    requires AllWellFormed(parts)
  {
    [Start("item", attrs)] + AllPartEvents(parts) + [End("item")]
  }

  /** The item an element stands for, or nothing when its class is not audio or it has no resource
      with an address. */
  function ItemOf(lex: Lexicon, attrs: Attrs, parts: seq<Part>): seq<AudioItem> {
    match Finalize(lex, Assembled(lex, OrEmpty(Attr(attrs, "id")), FirstRes(lex, parts), Fields(parts)))
    case None => []
    case Some(item) => [item]
  }

  /** Parsing an item element adds that item. */
  lemma {:induction false} ItemReadsBack(lex: Lexicon, p: Parser, attrs: Attrs, parts: seq<Part>)
    requires AllWellFormed(parts) && p.target == None
    ensures Run(lex, p, ItemEvents(attrs, parts)) == p.(node := Outside, items := p.items + ItemOf(lex, attrs, parts))
  {
    hide Run, Joined, Finalize, FirstRes, Fields, Assembled;
    var id := OrEmpty(Attr(attrs, "id"));
    RunAppend(lex, p, [Start("item", attrs)] + AllPartEvents(parts), [End("item")]);
    RunAppend(lex, p, [Start("item", attrs)], AllPartEvents(parts));
    RunOne(lex, p, Start("item", attrs));
    var p1 := p.(node := Item(EMPTY_BUILDER.(dlnaId := id)));
    PartsAssemble(lex, p1, id, parts);
    RunOne(lex, p.(node := Item(Assembled(lex, id, FirstRes(lex, parts), Fields(parts)))), End("item"));
    assert p.items + [] == p.items;
  }

  /** The first resource among the parts, as written. */
  function ResPart(parts: seq<Part>): Option<Part> {
    if parts == [] then None else if parts[0].Resource? then Some(parts[0]) else ResPart(parts[1..])
  }

  lemma {:induction false} FirstResIsFirst(lex: Lexicon, parts: seq<Part>)
    ensures ResPart(parts).Some? ==> ResPart(parts).value.Resource?
    ensures FirstRes(lex, parts) ==
      match ResPart(parts) case None => None
                           case Some(r) => Some(NewRes(lex, r.attrs).(url := OrEmpty(Joined(lex, r.url))))
    decreases |parts|
  {
    hide Joined;
    if parts != [] {
      var before, last := parts[..|parts| - 1], parts[|parts| - 1];
      FirstResIsFirst(lex, before);
      ResPartAppend(before, last);
      assert before + [last] == parts;
    }
  }

  lemma {:induction false} ResPartAppend(parts: seq<Part>, last: Part)
    ensures ResPart(parts + [last]) ==
      if ResPart(parts) == None && last.Resource? then Some(last) else ResPart(parts)
  {
    if parts == [] {
      assert [last][1..] == [];
    } else {
      ResPartAppend(parts[1..], last);
      assert (parts + [last])[1..] == parts[1..] + [last];
    }
  }

  /** A bit rate in whole thousands, when there is a whole one. */
  predicate InKilobits(bps: Option<nat>, kbps: Option<nat>) {
    match kbps
    case None => bps == None || bps.value < 1000
    case Some(k) => k > 0 && bps.Some? && 1000 * k <= bps.value < 1000 * k + 1000
  }

  /** The item says what its elements say, field by field. */
  predicate Describes(lex: Lexicon, attrs: Attrs, resAttrs: Attrs, address: string, fs: seq<Field>, item: AudioItem) {
    && item.dlnaId == OrEmpty(Attr(attrs, "id"))
    && item.title == lex.trim(OrEmpty(FieldText(lex, fs, "title")))
    && item.artist == Trimmed(lex, FieldText(lex, fs, "artist"))
    && item.album == Trimmed(lex, FieldText(lex, fs, "album"))
    && item.albumArtist == Trimmed(lex, FieldText(lex, fs, "albumArtist"))
    && item.genre == Trimmed(lex, FieldText(lex, fs, "genre"))
    && item.trackNumber == Then(Trimmed(lex, FieldText(lex, fs, "originalTrackNumber")), lex.number16)
    && item.year == Then(FieldText(lex, fs, "date"), lex.year)
    && lex.url(address) == Some(item.streamUrl)
    && item.albumArtUri == Then(Trimmed(lex, FieldText(lex, fs, "albumArtURI")), lex.url)
    && item.durationMs == Then(Attr(resAttrs, "duration"), lex.duration)
    && InKilobits(Then(Attr(resAttrs, "bitrate"), lex.number32), item.bitrateKbps)
    && item.sampleRate == Then(Attr(resAttrs, "sampleFrequency"), lex.number32)
    && item.sizeBytes == Then(Attr(resAttrs, "size"), lex.number64)
    && item.mime == Then(Attr(resAttrs, "protocolInfo"), lex.mimeOf)
    && item.format == lex.format(item.mime)
  }

  /** An item element yields an item if and only if its class is audio and its first resource has an
      address, and then one that its text fields and that resource describe. */
  lemma {:induction false} ItemDescribed(lex: Lexicon, attrs: Attrs, parts: seq<Part>)
    ensures var fs, first := Fields(parts), ResPart(parts);
      && (first.Some? ==> first.value.Resource?)
      && if Contains(OrEmpty(FieldText(lex, fs, "class")), "audioItem") && first.Some?
            && lex.url(OrEmpty(Joined(lex, first.value.url))).Some?
         then
           |ItemOf(lex, attrs, parts)| == 1
           && Describes(lex, attrs, first.value.attrs, OrEmpty(Joined(lex, first.value.url)), fs, ItemOf(lex, attrs, parts)[0])
         else ItemOf(lex, attrs, parts) == []
  {
    hide Joined, FieldText, Contains, FirstRes, ResPart, Fields;
    FirstResIsFirst(lex, parts);
  }

  function FolderEvents(attrs: Attrs, parts: seq<Part>): seq<Event>
    requires AllWellFormed(parts)
  {
    [Start("container", attrs)] + AllPartEvents(parts) + [End("container")]
  }

  /** A folder has its id and the trimmed text of its titles. */
  function FolderOf(lex: Lexicon, attrs: Attrs, parts: seq<Part>): Folder {
    Folder(OrEmpty(Attr(attrs, "id")), lex.trim(OrEmpty(FieldText(lex, Fields(parts), "title"))))
  }

  /** Of all the parts in a container only the titles count. */
  lemma {:induction false} TitlesAssemble(lex: Lexicon, p: Parser, id: string, parts: seq<Part>)
    requires AllWellFormed(parts) && p.target == None && p.node == Container(id, "")
    ensures Run(lex, p, AllPartEvents(parts)) ==
      p.(node := Container(id, OrEmpty(FieldText(lex, Fields(parts), "title"))))
    decreases |parts|
  {
    if parts == [] {
      RunNothing(lex, p);
    } else {
      LastPart(parts);
      hide Run, Joined, FieldText, Fields, AllPartEvents, PartEvents, AllWellFormed, WellFormed;
      var before, last := parts[..|parts| - 1], parts[|parts| - 1];
      TitlesAssemble(lex, p, id, before);
      RunAppend(lex, p, AllPartEvents(before), PartEvents(last));
      TitledOne(lex, p.(node := Container(id, OrEmpty(FieldText(lex, Fields(before), "title")))), id, before, last);
    }
  }

  lemma {:induction false} TitledOne(lex: Lexicon, p: Parser, id: string, parts: seq<Part>, part: Part)
    requires WellFormed(part) && p.target == None
    requires p.node == Container(id, OrEmpty(FieldText(lex, Fields(parts), "title")))
    ensures Run(lex, p, PartEvents(part)) ==
      p.(node := Container(id, OrEmpty(FieldText(lex, Fields(parts + [part]), "title"))))
  {
    hide Run, Joined, FieldText;
    var fs := Fields(parts);
    assert (parts + [part])[..|parts|] == parts;
    match part {
      case TextPart(f) =>
        FieldRun(lex, p, f);
        assert (fs + [f])[..|fs|] == fs;
        FieldTextOne(lex, fs + [f], "title");
      case Resource(attrs, url) =>
        assert fs + [] == fs;
        LaterResRun(lex, p, attrs, url);
      case Loose(ev) =>
        assert fs + [] == fs;
        LooseRun(lex, p, ev);
    }
  }

  /** Parsing a container element adds that folder. */
  lemma {:induction false} FolderReadsBack(lex: Lexicon, p: Parser, attrs: Attrs, parts: seq<Part>)
    requires AllWellFormed(parts) && p.target == None
    ensures Run(lex, p, FolderEvents(attrs, parts)) ==
      p.(node := Outside, containers := p.containers + [FolderOf(lex, attrs, parts)])
  {
    hide Run, Joined, Fields, FieldText;
    var id := OrEmpty(Attr(attrs, "id"));
    RunAppend(lex, p, [Start("container", attrs)] + AllPartEvents(parts), [End("container")]);
    RunAppend(lex, p, [Start("container", attrs)], AllPartEvents(parts));
    RunOne(lex, p, Start("container", attrs));
    TitlesAssemble(lex, p.(node := Container(id, "")), id, parts);
    RunOne(lex, p.(node := Container(id, OrEmpty(FieldText(lex, Fields(parts), "title")))), End("container"));
  }

  /** What a document holds: items, folders, and anything else that either could have as a part. */
  datatype Element = ItemElement(attrs: Attrs, parts: seq<Part>) | FolderElement(attrs: Attrs, parts: seq<Part>) | Stray(part: Part)

  predicate WellFormedElement(e: Element) {
    match e
    case ItemElement(_, parts) => AllWellFormed(parts)
    case FolderElement(_, parts) => AllWellFormed(parts)
    case Stray(part) => WellFormed(part)
  }

  predicate WellFormedDocument(es: seq<Element>) {
    forall i :: 0 <= i < |es| ==> WellFormedElement(es[i])
  }

  function ElementEvents(e: Element): seq<Event>
    requires WellFormedElement(e)
  {
    match e
    case ItemElement(attrs, parts) => ItemEvents(attrs, parts)
    case FolderElement(attrs, parts) => FolderEvents(attrs, parts)
    case Stray(part) => PartEvents(part)
  }

  function DocumentEvents(es: seq<Element>): seq<Event>
    requires WellFormedDocument(es)
  {
    if es == [] then [] else ElementEvents(es[0]) + DocumentEvents(es[1..])
  }

  /** The folders and the items of a document, each in order. */
  function FoldersOf(lex: Lexicon, es: seq<Element>): seq<Folder> {
    if es == [] then []
    else (if es[0].FolderElement? then [FolderOf(lex, es[0].attrs, es[0].parts)] else []) + FoldersOf(lex, es[1..])
  }

  function ItemsOf(lex: Lexicon, es: seq<Element>): seq<AudioItem> {
    if es == [] then []
    else (if es[0].ItemElement? then ItemOf(lex, es[0].attrs, es[0].parts) else []) + ItemsOf(lex, es[1..])
  }

  lemma {:induction false} StrayRun(lex: Lexicon, p: Parser, part: Part)
    requires WellFormed(part) && p.target == None && p.node == Outside
    ensures Run(lex, p, PartEvents(part)) == p
  {
    hide Run, Joined;
    match part {
      case TextPart(f) => FieldRun(lex, p, f);
      case Resource(attrs, url) => LaterResRun(lex, p, attrs, url);
      case Loose(ev) => LooseRun(lex, p, ev);
    }
  }

  lemma {:induction false} ElementRun(lex: Lexicon, p: Parser, e: Element)
    requires WellFormedElement(e) && p.target == None && p.node == Outside
    ensures Run(lex, p, ElementEvents(e)) ==
      p.(containers := p.containers + if e.FolderElement? then [FolderOf(lex, e.attrs, e.parts)] else [],
         items := p.items + if e.ItemElement? then ItemOf(lex, e.attrs, e.parts) else [])
  {
    hide Run, ItemOf, FolderOf, AllPartEvents;
    assert p.containers + [] == p.containers && p.items + [] == p.items;
    match e {
      case ItemElement(attrs, parts) => ItemReadsBack(lex, p, attrs, parts);
      case FolderElement(attrs, parts) => FolderReadsBack(lex, p, attrs, parts);
      case Stray(part) => StrayRun(lex, p, part);
    }
  }

  /** Parsing a document yields its folders and its items and nothing else. */
  lemma {:induction false} DocumentReadsBack(lex: Lexicon, p: Parser, es: seq<Element>)
    requires WellFormedDocument(es) && p.target == None && p.node == Outside
    ensures Run(lex, p, DocumentEvents(es)) ==
      p.(containers := p.containers + FoldersOf(lex, es), items := p.items + ItemsOf(lex, es))
    decreases |es|
  {
    hide Run, ItemOf, FolderOf, ElementEvents;
    if es == [] {
      RunNothing(lex, p);
      assert p.containers + [] == p.containers && p.items + [] == p.items;
    } else {
      RunAppend(lex, p, ElementEvents(es[0]), DocumentEvents(es[1..]));
      ElementRun(lex, p, es[0]);
      DocumentReadsBack(lex, Run(lex, p, ElementEvents(es[0])), es[1..]);
    }
  }

  // ---- The parser as it runs ----

  datatype XmlError = XmlError

  /** The parser's variables. */
  class DidlParser {
    const lex: Lexicon
    var node: Node
    var target: Option<Target>
    var containers: seq<Folder>
    var items: seq<AudioItem>

    ghost function Abs(): Parser
      reads this
    {
      Parser(node, target, containers, items)
    }

    constructor (lex: Lexicon)
      ensures Abs() == INITIAL && this.lex == lex
    {
      this.lex := lex;
      node, target, containers, items := Outside, None, [], [];
    }

    method HandleStart(local: string, attrs: Attrs)
      modifies this
      ensures Abs() == OnStart(lex, old(Abs()), local, attrs)
    {
      if local == "container" {
        node := Container(OrEmpty(Attr(attrs, "id")), "");
      } else if local == "item" {
        node := Item(EMPTY_BUILDER.(dlnaId := OrEmpty(Attr(attrs, "id"))));
      } else if local == "res" {
        if node.Item? && node.b.res == None {
          node := Item(node.b.(res := Some(NewRes(lex, attrs))));
          target := Some(ItemResUrl);
        }
      } else {
        var named := FieldTarget(local, node);
        if named.Some? {
          target := named;
        }
      }
    }

    method ApplyText(text: string)
      modifies this
      ensures Abs() == OnText(lex, old(Abs()), text)
    {
      if target.Some? {
        match node {
          case Outside =>
          case Container(id, title) =>
            if target.value == ContainerTitle {
              node := Container(id, title + text);
            }
          case Item(b) =>
            node := Item(ApplyToItem(lex, b, target.value, text));
        }
      }
    }

    method HandleEnd(local: string)
      modifies this
      ensures Abs() == OnEnd(lex, old(Abs()), local)
    {
      var taken := node;
      if local == "container" {
        node := Outside;
        if taken.Container? {
          containers := containers + [Folder(taken.id, lex.trim(taken.title))];
        }
      } else if local == "item" {
        node := Outside;
        if taken.Item? {
          var item := Finalize(lex, taken.b);
          if item.Some? {
            items := items + [item.value];
          }
        }
      }
      target := None;
    }

    method HandleEvent(ev: Event)
      modifies this
      ensures Abs() == Step(lex, old(Abs()), ev)
    {
      match ev {
        case Start(local, attrs) => HandleStart(local, attrs);
        case Text(text) => ApplyText(text);
        case CData(text) => ApplyText(text);
        case EntityRef(name) =>
          var resolved := lex.entity(name);
          if resolved.Some? {
            ApplyText(resolved.value);
          }
        case End(local) => HandleEnd(local);
        case Ignored =>
      }
    }
  }

  /** `parse_didl_lite` over the events up to end of file, or up to a reader error. */
  method ParseDidlLite(lex: Lexicon, evs: seq<Event>, broken: bool)
    returns (r: Result<(seq<Folder>, seq<AudioItem>), XmlError>)
    ensures broken ==> r == Err(XmlError)
    ensures !broken ==> r == Ok((Run(lex, INITIAL, evs).containers, Run(lex, INITIAL, evs).items))
  {
    hide Step;
    var parser := new DidlParser(lex);
    for i := 0 to |evs|
      invariant Run(lex, INITIAL, evs) == Run(lex, parser.Abs(), evs[i..]) && parser.lex == lex
    {
      parser.HandleEvent(evs[i]);
      assert evs[i..][1..] == evs[i + 1..];
    }
    assert evs[|evs|..] == [];
    r := if broken then Err(XmlError) else Ok((parser.containers, parser.items));
  }
}
