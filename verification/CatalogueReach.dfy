/** What a catalogue walk finds on a server whose graph does not change: exactly the containers that a
    path from the root reaches within the depth limit, cyclic or not. */
module CatalogueReach {
  import opened Wrappers
  import opened Didl
  import opened Catalogue

  /** The contents of every object id; None cannot be browsed. */
  type Graph = string -> Option<Listing>

  function Serving(graph: Graph): Server {
    (n: nat, id: string) => graph(id)
  }

  /** A text with its ASCII capitals lowered. */
  function Lowered(s: string): (l: string)
    ensures |l| == |s|
    ensures forall i :: 0 <= i < |s| ==> l[i] == if 'A' <= s[i] <= 'Z' then 'a' + (s[i] - 'A') else s[i]
  {
    seq(|s|, i requires 0 <= i < |s| => if 'A' <= s[i] <= 'Z' then 'a' + (s[i] - 'A') else s[i])
  }

  /** The media hierarchies that are no music, lowered. */
  const MEDIA: seq<string> := ["video", "videos", "photos", "photo", "movies", "tv shows", "tv"]

  /** child is listed in parent, and is not one of those directly below the server's own root. */
  predicate Edge(graph: Graph, filter: bool, depth: nat, parent: Folder, child: Folder) {
    && graph(parent.id).Some? && child in graph(parent.id).value.folders
    && !(filter && depth == 0 && Lowered(child.title) in MEDIA)
  }

  lemma {:induction false} EqualWhenLowered(a: string, b: string)
    ensures EqIgnoreAsciiCase(a, b) <==> Lowered(a) == Lowered(b)
  {
    if EqIgnoreAsciiCase(a, b) {
      forall i | 0 <= i < |a|
        ensures Lowered(a)[i] == Lowered(b)[i]
      {
        SameLetter(a[i], b[i]);
      }
    }
    if Lowered(a) == Lowered(b) {
      forall i | 0 <= i < |a|
        ensures AsciiLower(a[i]) == AsciiLower(b[i])
      {
        assert Lowered(a)[i] == Lowered(b)[i];
        SameLetter(a[i], b[i]);
      }
    }
  }

  lemma {:induction false} SameLetter(c: char, d: char)
    ensures AsciiLower(c) == AsciiLower(d) <==>
      (if 'A' <= c <= 'Z' then 'a' + (c - 'A') else c) == (if 'A' <= d <= 'Z' then 'a' + (d - 'A') else d)
  {
  }

  lemma {:induction false} NamesLowered(i: int)
    requires 0 <= i < 7
    ensures |SKIP_TOP_LEVEL| == |MEDIA| == 7 && Lowered(SKIP_TOP_LEVEL[i]) == MEDIA[i]
  {
    assert i == 0 || i == 1 || i == 2 || i == 3 || i == 4 || i == 5 || i == 6;
  }

  lemma {:induction false} SkippedIsMedia(title: string)
    ensures SkippedName(title) <==> Lowered(title) in MEDIA
  {
    hide EqIgnoreAsciiCase, Lowered;
    if i :| 0 <= i < |SKIP_TOP_LEVEL| && EqIgnoreAsciiCase(SKIP_TOP_LEVEL[i], title) {
      NamesLowered(i);
      EqualWhenLowered(SKIP_TOP_LEVEL[i], title);
    }
    if i :| 0 <= i < |MEDIA| && MEDIA[i] == Lowered(title) {
      NamesLowered(i);
      EqualWhenLowered(SKIP_TOP_LEVEL[i], title);
    }
  }

  lemma {:induction false} KeptMembers(filter: bool, depth: nat, fs: seq<Folder>, f: Folder)
    ensures f in KeptFolders(filter, depth, fs) <==> f in fs && !(filter && depth == 0 && Lowered(f.title) in MEDIA)
    decreases |fs|
  {
    hide SkippedName, Lowered;
    SkippedIsMedia(f.title);
    if fs != [] {
      KeptMembers(filter, depth, fs[1..], f);
      assert fs == [fs[0]] + fs[1..];
    }
  }

  lemma {:induction false} ChildrenAreEdges(graph: Graph, filter: bool, depth: nat, parent: Folder, child: Folder)
    ensures child in Children(graph(parent.id), filter, depth) <==> Edge(graph, filter, depth, parent, child)
  {
    hide KeptFolders, Lowered;
    if graph(parent.id).Some? {
      KeptMembers(filter, depth, graph(parent.id).value.folders, child);
    }
  }

  /** A chain of containers from the root, each listed in the one before. */
  predicate Path(graph: Graph, filter: bool, root: Folder, p: seq<Folder>) {
    && p != [] && p[0] == root
    && forall i :: 0 <= i < |p| - 1 ==> Edge(graph, filter, i, p[i], p[i + 1])
  }

  ghost predicate Reached(graph: Graph, filter: bool, root: Folder, f: Folder, depth: nat) {
    exists p :: Path(graph, filter, root, p) && |p| == depth + 1 && p[depth] == f
  }

  // ---- Levels and paths ----

  lemma {:induction false} NextLevelMembers(graph: Graph, n: nat, level: seq<Folder>, filter: bool, depth: nat, f: Folder)
    ensures f in NextLevel(Serving(graph), n, level, filter, depth) <==>
      exists i :: 0 <= i < |level| && Edge(graph, filter, depth, level[i], f)
    decreases |level|
  {
    hide Children, Edge;
    if level != [] {
      var rest := level[1..];
      ChildrenAreEdges(graph, filter, depth, level[0], f);
      NextLevelMembers(graph, n + 1, rest, filter, depth, f);
      if i :| 0 <= i < |rest| && Edge(graph, filter, depth, rest[i], f) {
        assert Edge(graph, filter, depth, level[i + 1], f);
      }
      if i :| 0 <= i < |level| && Edge(graph, filter, depth, level[i], f) {
        if i > 0 {
          assert Edge(graph, filter, depth, rest[i - 1], f);
        }
      }
    }
  }

  /** The level is what paths of its depth reach. */
  ghost predicate LevelIsReached(graph: Graph, filter: bool, root: Folder, level: seq<Folder>, depth: nat) {
    forall f :: f in level <==> Reached(graph, filter, root, f, depth)
  }

  lemma {:induction false} TopReached(graph: Graph, filter: bool, root: Folder)
    ensures LevelIsReached(graph, filter, root, [root], 0)
  {
    assert Path(graph, filter, root, [root]);
    assert Reached(graph, filter, root, root, 0) by {
      assert [root][0] == root;
    }
  }

  /** One edge more at the end of a path. */
  lemma {:induction false} PathGrows(graph: Graph, filter: bool, root: Folder, parent: Folder, f: Folder, depth: nat)
    requires Reached(graph, filter, root, parent, depth) && Edge(graph, filter, depth, parent, f)
    ensures Reached(graph, filter, root, f, depth + 1)
  {
    hide Edge;
    var p :| Path(graph, filter, root, p) && |p| == depth + 1 && p[depth] == parent;
    var q := p + [f];
    forall i | 0 <= i < |q| - 1
      ensures Edge(graph, filter, i, q[i], q[i + 1])
    {
      if i < depth {
        assert Edge(graph, filter, i, p[i], p[i + 1]);
      }
    }
    assert Path(graph, filter, root, q) && |q| == depth + 2 && q[depth + 1] == f;
  }

  lemma {:induction false} PathShrinks(graph: Graph, filter: bool, root: Folder, f: Folder, depth: nat) returns (parent: Folder)
    requires Reached(graph, filter, root, f, depth + 1)
    ensures Reached(graph, filter, root, parent, depth) && Edge(graph, filter, depth, parent, f)
  {
    hide Edge;
    var q :| Path(graph, filter, root, q) && |q| == depth + 2 && q[depth + 1] == f;
    var p := q[..depth + 1];
    parent := q[depth];
    forall i | 0 <= i < |p| - 1
      ensures Edge(graph, filter, i, p[i], p[i + 1])
    {
      assert Edge(graph, filter, i, q[i], q[i + 1]);
    }
    assert Path(graph, filter, root, p) && |p| == depth + 1 && p[depth] == parent;
    assert Edge(graph, filter, depth, q[depth], q[depth + 1]);
  }

  lemma {:induction false} NextLevelReached(graph: Graph, n: nat, level: seq<Folder>, filter: bool, root: Folder, depth: nat)
    requires LevelIsReached(graph, filter, root, level, depth)
    ensures LevelIsReached(graph, filter, root, NextLevel(Serving(graph), n, level, filter, depth), depth + 1)
  {
    hide Reached, Edge, NextLevel;
    forall f
      ensures f in NextLevel(Serving(graph), n, level, filter, depth) <==> Reached(graph, filter, root, f, depth + 1)
    {
      NextLevelMembers(graph, n, level, filter, depth, f);
      if i :| 0 <= i < |level| && Edge(graph, filter, depth, level[i], f) {
        PathGrows(graph, filter, root, level[i], f, depth);
      }
      if Reached(graph, filter, root, f, depth + 1) {
        var parent := PathShrinks(graph, filter, root, f, depth);
        assert parent in level;
      }
    }
  }

  // ---- Visits ----

  /** The visit to f at this depth, if it can be browsed at all. */
  predicate VisitTo(graph: Graph, f: Folder, depth: nat, v: Visit) {
    graph(f.id).Some? && v == Visit(f, depth, graph(f.id).value.items)
  }

  lemma {:induction false} LevelVisitsMembers(graph: Graph, n: nat, level: seq<Folder>, depth: nat, v: Visit)
    ensures v in LevelVisits(Serving(graph), n, level, depth) <==> v.folder in level && VisitTo(graph, v.folder, depth, v)
    decreases |level|
  {
    if level != [] {
      LevelVisitsMembers(graph, n + 1, level[1..], depth, v);
      assert level == [level[0]] + level[1..];
    }
  }

  lemma {:induction false} LevelsMembers(graph: Graph, n: nat, level: seq<Folder>, filter: bool, root: Folder, depth: nat, v: Visit)
    requires LevelIsReached(graph, filter, root, level, depth)
    ensures v in Levels(Serving(graph), n, level, filter, depth) <==>
      depth <= v.depth <= MAX_DEPTH && Reached(graph, filter, root, v.folder, v.depth) && VisitTo(graph, v.folder, v.depth, v)
    decreases MAX_DEPTH + 1 - depth
  {
    hide Reached, LevelVisits, NextLevel, Levels;
    var server := Serving(graph);
    if depth > MAX_DEPTH {
      NoDeeper(server, n, level, filter, depth);
    } else {
      LevelsUnfold(server, n, level, filter, depth);
      LevelVisitsMembers(graph, n, level, depth, v);
      NextLevelReached(graph, n, level, filter, root, depth);
      LevelsMembers(graph, n + |level|, NextLevel(server, n, level, filter, depth), filter, root, depth + 1, v);
    }
  }

  /** A container is visited at a depth if and only if the depth is within the limit, some path of that
      length reaches it from the root, and it can be browsed; the visit has its items. */
  lemma {:induction false} VisitedIffReached(graph: Graph, rootId: string, v: Visit)
    ensures var root, filter := Folder(rootId, ""), rootId == "0";
      v in Levels(Serving(graph), 0, [root], filter, 0) <==>
        v.depth <= 8 && Reached(graph, filter, root, v.folder, v.depth) && VisitTo(graph, v.folder, v.depth, v)
  {
    hide Reached, Levels;
    var root, filter := Folder(rootId, ""), rootId == "0";
    TopReached(graph, filter, root);
    LevelsMembers(graph, 0, [root], filter, root, 0, v);
  }

  lemma {:induction false} ItemVisited(vs: seq<Visit>, item: AudioItem)
    ensures item in VisitedItems(vs) <==> exists i :: 0 <= i < |vs| && item in vs[i].items
    decreases |vs|
  {
    if vs != [] {
      var before := vs[..|vs| - 1];
      ItemVisited(before, item);
      if i :| 0 <= i < |before| && item in before[i].items {
        assert item in vs[i].items;
      }
      if i :| 0 <= i < |vs| && item in vs[i].items {
        if i < |before| {
          assert item in before[i].items;
        }
      }
    }
  }

  /** An item lies in a browsable container that a path within the limit reaches. */
  ghost predicate Findable(graph: Graph, rootId: string, item: AudioItem) {
    exists f: Folder, depth: nat :: FoundIn(graph, rootId, item, f, depth)
  }

  ghost predicate FoundIn(graph: Graph, rootId: string, item: AudioItem, f: Folder, depth: nat) {
    && depth <= 8 && Reached(graph, rootId == "0", Folder(rootId, ""), f, depth)
    && graph(f.id).Some? && item in graph(f.id).value.items
  }

  /** The catalogue has, renumbered, exactly the findable items. */
  lemma {:induction false} CatalogueIsFindable(graph: Graph, rootId: string, item: AudioItem)
    ensures item in VisitedItems(Levels(Serving(graph), 0, [Folder(rootId, "")], rootId == "0", 0)) <==> Findable(graph, rootId, item)
  {
    hide Reached, Levels, VisitedItems;
    var root, filter := Folder(rootId, ""), rootId == "0";
    var vs := Levels(Serving(graph), 0, [root], filter, 0);
    ItemVisited(vs, item);
    if i :| 0 <= i < |vs| && item in vs[i].items {
      VisitedIffReached(graph, rootId, vs[i]);
      assert FoundIn(graph, rootId, item, vs[i].folder, vs[i].depth);
    }
    if Findable(graph, rootId, item) {
      var f: Folder, depth: nat :| FoundIn(graph, rootId, item, f, depth);
      var v := Visit(f, depth, graph(f.id).value.items);
      VisitedIffReached(graph, rootId, v);
      var i :| 0 <= i < |vs| && vs[i] == v;
      assert item in vs[i].items;
    }
  }
}
