/**
 * vimeo_folder_structure.py prints the account as a tree: the top-level folders by
 * name, each followed by its subfolders (by name) and then its videos, and at the end a
 * "Sem pasta" group with the videos in no folder. A folder whose uri was already printed
 * is not expanded again, so cyclic parent data terminates.
 *
 * The printed lines are collected in order; the folder map and the video listings are
 * inputs, and a listing that fails stops the output where it is (the error escapes to
 * `main`).
 */
module Tree {
  import opened Wrappers
  import opened Sorting
  import opened Text
  import opened Payload
  import opened Filtering
  import opened Hierarchy

  // ---------------------------------------------------------------------------
  // listar_videos_sem_pasta

  /** `folders_meta.get("total") or folders_meta.get("totalCount")`. */
  function FolderCount(v: Video): Option<int> {
    if v.folderTotal.Some? && v.folderTotal.value != 0 then v.folderTotal else v.folderTotalCount
  }

  /** `not total`: the video is in no folder. */
  predicate OutsideFolders(v: Video) {
    FolderCount(v).None? || FolderCount(v).value == 0
  }

  method ListVideosWithoutFolder(videos: seq<Video>) returns (r: seq<Video>)
    ensures r == Filter(videos, OutsideFolders)
  {
    r := [];
    for i := 0 to |videos|
      invariant r == Filter(videos[..i], OutsideFolders)
    {
      assert videos[..i + 1] == videos[..i] + [videos[i]];
      FilterAppend(videos[..i], [videos[i]], OutsideFolders);
      if OutsideFolders(videos[i]) {
        r := r + [videos[i]];
      }
    }
    assert videos[..|videos|] == videos;
  }

  /**
   * A video is kept exactly when both `total` and `totalCount` are missing or zero;
   * kept videos keep their listing order (FilterOrigin).
   */
  lemma VideosWithoutFolderMembers(videos: seq<Video>, v: Video)
    ensures v in Filter(videos, OutsideFolders) <==>
              v in videos
              && (v.folderTotal.None? || v.folderTotal.value == 0)
              && (v.folderTotalCount.None? || v.folderTotalCount.value == 0)
  {
    FilterMembers(videos, OutsideFolders, v);
  }

  // ---------------------------------------------------------------------------
  // ordenar_por_nome

  /** `nome_limpo(item.get("name"), "").lower()`. */
  function NameKey(n: FolderNode): string {
    Lower(CleanName(n.folder.name, ""))
  }

  function SortByName(ns: seq<FolderNode>): (r: seq<FolderNode>)
    ensures multiset(r) == multiset(ns)
  {
    SortByPermutes(ns, NameKey, StrLt);
    SortBy(ns, NameKey, StrLt)
  }

  /** The result is ordered by key, and folders with equal keys keep their input order. */
  lemma SortByNameSpec(ns: seq<FolderNode>)
    ensures SortedBy(SortByName(ns), NameKey, StrLt)
    ensures forall k :: WithKey(SortByName(ns), NameKey, k) == WithKey(ns, NameKey, k)
  {
    StrLtIsStrictTotalOrder();
    SortBySorted(ns, NameKey, StrLt);
    forall k ensures WithKey(SortByName(ns), NameKey, k) == WithKey(ns, NameKey, k) {
      SortByStable(ns, NameKey, StrLt, k);
    }
  }

  // ---------------------------------------------------------------------------
  // Lines

  /** An entry under a folder: a subfolder, or one of its videos. */
  datatype Item = SubFolder(node: FolderNode) | VideoItem(video: Video)

  /** The last entry of a level is drawn with "`-- ", the others with "|-- ". */
  function Connector(last: bool): string {
    if last then "`-- " else "|-- "
  }

  /** The prefix of the lines under an entry: the rail continues below every entry but the last. */
  function ChildPrefix(prefix: string, last: bool): (r: string)
    ensures StartsWith(r, prefix) && |r| == |prefix| + 4
  {
    var r := prefix + (if last then "    " else "|   ");
    assert r[..|prefix|] == prefix;
    r
  }

  /** "pasta" or "video": the word in an entry's fallback title and in its tag. */
  function Kind(it: Item): string {
    if it.SubFolder? then "pasta" else "video"
  }

  function ItemUri(it: Item): Option<string> {
    if it.SubFolder? then it.node.folder.uri else it.video.uri
  }

  function ItemName(it: Item): Option<string> {
    if it.SubFolder? then it.node.folder.name else it.video.name
  }

  /** `nome_limpo(name, f"<kind> {extrair_id(uri)}")`. */
  function Title(it: Item): string {
    CleanName(ItemName(it), Kind(it) + " " + ExtractId(ItemUri(it)))
  }

  /** `f" [<kind> {extrair_id(uri)}]"`. */
  function Tag(it: Item): string {
    " [" + Kind(it) + " " + ExtractId(ItemUri(it)) + "]"
  }

  /** What an entry's line shows after its connector. */
  function Label(it: Item): string {
    Title(it) + Tag(it)
  }

  /**
   * A label is a title followed by the tag " [<kind> <id>]". The title is "<kind> <id>"
   * when the entry has no name or an empty one; otherwise it is the name with its runs of
   * whitespace collapsed to single spaces and no space at either end. The id holds no '/'.
   */
  lemma LabelSpec(it: Item)
    ensures var id := ExtractId(ItemUri(it));
      var tag := " [" + Kind(it) + " " + id + "]";
      var shown := Label(it);
      && |tag| <= |shown| && shown[|shown| - |tag|..] == tag
      && var title := shown[..|shown| - |tag|];
      && ((ItemName(it).None? || ItemName(it).value == []) ==> title == Kind(it) + " " + id)
      && (ItemName(it).Some? && ItemName(it).value != [] ==>
            Normalised(title) && Words(title) == Words(ItemName(it).value))
      && (ItemUri(it).Some? && ItemUri(it).value != [] ==> '/' !in id)
  {
    ExtractIdSpec(ItemUri(it));
    CleanNameSpec(ItemName(it), Kind(it) + " " + ExtractId(ItemUri(it)));
    var title, tag := Title(it), Tag(it);
    assert (title + tag)[..|title|] == title;
    assert (title + tag)[|title|..] == tag;
  }

  /**
   * A printed line, kept as what it shows: the account line, an entry under `prefix`,
   * or the header of the "Sem pasta" group. LineText spells it out.
   */
  datatype Line = Account(name: string) | Entry(prefix: string, last: bool, item: Item) | UnfiledHeader(last: bool)

  /** The text of a line: an entry keeps its prefix and ends with its label. */
  function LineText(l: Line): (r: string)
    ensures l.Account? ==> r == l.name
    ensures l.Entry? ==> StartsWith(r, l.prefix) && |Label(l.item)| <= |r| && r[|r| - |Label(l.item)|..] == Label(l.item)
    ensures l.UnfiledHeader? ==> |r| >= 9 && r[|r| - 9..] == "Sem pasta"
  {
    match l
    case Account(name) => name
    case Entry(prefix, last, it) => prefix + Connector(last) + Label(it)
    case UnfiledHeader(last) => Connector(last) + "Sem pasta"
  }

  function SubFolderItems(ns: seq<FolderNode>): (r: seq<Item>)
    ensures |r| == |ns| && forall i :: 0 <= i < |r| ==> r[i] == SubFolder(ns[i])
  {
    seq(|ns|, i requires 0 <= i < |ns| => SubFolder(ns[i]))
  }

  function VideoItems(vs: seq<Video>): (r: seq<Item>)
    ensures |r| == |vs| && forall i :: 0 <= i < |r| ==> r[i] == VideoItem(vs[i])
  {
    seq(|vs|, i requires 0 <= i < |vs| => VideoItem(vs[i]))
  }

  /** Every subfolder entry is a folder of the map. */
  ghost predicate AllMapped(m: FolderMap, items: seq<Item>) {
    forall i :: 0 <= i < |items| && items[i].SubFolder? ==> InMap(m, items[i].node)
  }

  /** `itens` of a folder: its subfolders sorted by name, then its videos in listing order. */
  function Items(m: FolderMap, node: FolderNode, videos: seq<Video>): (r: seq<Item>)
    ensures AllMapped(m, r)
  {
    var subs := SortByName(Children(m, node.id));
    var r := SubFolderItems(subs) + VideoItems(videos);
    forall i | 0 <= i < |r| && r[i].SubFolder? ensures InMap(m, r[i].node) {
      assert r[i].node == subs[i] && subs[i] in multiset(subs);
    }
    r
  }

  /**
   * A folder's entries are its subfolders, ordered by cleaned lower-cased name and each
   * one filed under its id, followed by its videos in listing order.
   */
  lemma ItemsOrder(m: FolderMap, node: FolderNode, videos: seq<Video>)
    ensures var r := Items(m, node, videos);
      var n := |Children(m, node.id)|;
      && |r| == n + |videos|
      && (forall i :: 0 <= i < n ==> r[i].SubFolder? && r[i].node in Children(m, node.id))
      && (forall i, j :: 0 <= i < j < n ==> !StrLt(NameKey(r[j].node), NameKey(r[i].node)))
      && (forall i :: n <= i < |r| ==> r[i] == VideoItem(videos[i - n]))
  {
    EntriesOrder(Children(m, node.id), videos, Items(m, node, videos));
  }

  /** Entries built from some children and videos: the children sorted by name, then the videos. */
  lemma EntriesOrder(children: seq<FolderNode>, videos: seq<Video>, r: seq<Item>)
    requires r == SubFolderItems(SortByName(children)) + VideoItems(videos)
    ensures var n := |children|;
      && |r| == n + |videos|
      && (forall i :: 0 <= i < n ==> r[i].SubFolder? && r[i].node in children)
      && (forall i, j :: 0 <= i < j < n ==> !StrLt(NameKey(r[j].node), NameKey(r[i].node)))
      && (forall i :: n <= i < |r| ==> r[i] == VideoItem(videos[i - n]))
  {
    var subs := SortByName(children);
    SortedNames(children);
    EntriesShape(subs, videos);
  }

  /** Sorting by name keeps the folders and their number, and orders them. */
  lemma SortedNames(children: seq<FolderNode>)
    ensures var subs := SortByName(children);
      && |subs| == |children|
      && SortedBy(subs, NameKey, StrLt)
      && forall x :: x in subs ==> x in children
  {
    var subs := SortByName(children);
    assert |multiset(subs)| == |multiset(children)|;
    SortByNameSpec(children);
    forall x | x in subs ensures x in children {
      assert x in multiset(children);
    }
  }

  /** The entries list is the subfolders, then the videos. */
  lemma EntriesShape(subs: seq<FolderNode>, videos: seq<Video>)
    ensures var r := SubFolderItems(subs) + VideoItems(videos);
      && |r| == |subs| + |videos|
      && (forall i :: 0 <= i < |subs| ==> r[i] == SubFolder(subs[i]))
      && (forall i :: |subs| <= i < |r| ==> r[i] == VideoItem(videos[i - |subs|]))
  {
    var r := SubFolderItems(subs) + VideoItems(videos);
    assert forall i :: 0 <= i < |subs| ==> r[i] == SubFolder(subs[i]);
  }

  /** `imprimir_grupo_videos`: one line per video, the last one closing the level. */
  function GroupLines(vs: seq<Video>, prefix: string): (r: seq<Line>)
    ensures |r| == |vs|
  {
    seq(|vs|, i requires 0 <= i < |vs| => Entry(prefix, i == |vs| - 1, VideoItem(vs[i])))
  }

  // ---------------------------------------------------------------------------
  // imprimir_pasta, as a function of the printer's state

  /** Where the printer stands: the lines so far, `visitados`, the folders expanded in order, and no error raised. */
  datatype Printout = Printout(lines: seq<Line>, visited: set<string>, expanded: seq<string>, ok: bool)

  /** The folder map, the video listing of a folder (None: the listing raised) and `incluir_videos`. */
  datatype Env = Env(mapa: FolderMap, folderVideos: string -> Option<seq<Video>>, includeVideos: bool)

  function RenderFolder(env: Env, node: FolderNode, prefix: string, st: Printout): (r: Printout)
    requires InMap(env.mapa, node)
    ensures st.visited <= r.visited
    decreases MappedUris(env.mapa) - st.visited, 0, 0
  {
    var uri := node.folder.uri;
    if uri.None? || uri.value == [] || uri.value in st.visited then st
    else
      InMapUri(env.mapa, node);
      var u := uri.value;
      var entered := st.(visited := st.visited + {u}, expanded := st.expanded + [u]);
      var videos := if env.includeVideos then env.folderVideos(u) else Some([]);
      if videos.None? then entered.(ok := false)
      else RenderItems(env, Items(env.mapa, node, videos.value), 0, prefix, entered)
  }

  /** The entries from the i-th on: a line each, and under a subfolder its own entries. */
  function RenderItems(env: Env, items: seq<Item>, i: nat, prefix: string, st: Printout): (r: Printout)
    requires AllMapped(env.mapa, items)
    ensures st.visited <= r.visited
    decreases MappedUris(env.mapa) - st.visited, 1, |items| - i
  {
    if i >= |items| then st
    else
      var last := i == |items| - 1;
      var shown := st.(lines := st.lines + [Entry(prefix, last, items[i])]);
      var after := if items[i].SubFolder? then RenderFolder(env, items[i].node, ChildPrefix(prefix, last), shown) else shown;
      if !after.ok then after
      else
        assert MappedUris(env.mapa) - after.visited <= MappedUris(env.mapa) - st.visited;
        RenderItems(env, items, i + 1, prefix, after)
  }

  /** One step of RenderItems: the i-th entry's line, its subtree, then the rest unless printing stopped. */
  lemma RenderItemsNext(env: Env, items: seq<Item>, i: nat, prefix: string, st: Printout)
    requires AllMapped(env.mapa, items) && i < |items|
    ensures var last := i == |items| - 1;
      var shown := st.(lines := st.lines + [Entry(prefix, last, items[i])]);
      var after := if items[i].SubFolder? then RenderFolder(env, items[i].node, ChildPrefix(prefix, last), shown) else shown;
      RenderItems(env, items, i, prefix, st) == if !after.ok then after else RenderItems(env, items, i + 1, prefix, after)
  {
  }

  // ---------------------------------------------------------------------------
  // imprimir_estrutura

  /** A top-level entry: a folder, or the "Sem pasta" group. */
  datatype TopItem = TopFolder(node: FolderNode) | Unfiled(videos: seq<Video>)

  /** `itens_topo`: the top-level folders in order, then the "Sem pasta" group when it is non-empty. */
  function TopItems(topo: seq<FolderNode>, loose: seq<Video>): (r: seq<TopItem>)
  {
    seq(|topo|, i requires 0 <= i < |topo| => TopFolder(topo[i])) + (if loose != [] then [Unfiled(loose)] else [])
  }

  /** The folders keep their order, and the group comes last, exactly when there are loose videos. */
  lemma TopItemsShape(topo: seq<FolderNode>, loose: seq<Video>)
    ensures var r := TopItems(topo, loose);
      && |r| == |topo| + (if loose == [] then 0 else 1)
      && (forall i :: 0 <= i < |topo| ==> r[i] == TopFolder(topo[i]))
      && (forall i :: 0 <= i < |r| ==> (r[i].Unfiled? <==> i == |topo|))
      && (loose != [] ==> r[|topo|] == Unfiled(loose))
  {
  }

  ghost predicate TopMapped(m: FolderMap, items: seq<TopItem>) {
    forall i :: 0 <= i < |items| && items[i].TopFolder? ==> InMap(m, items[i].node)
  }

  function RenderTop(env: Env, items: seq<TopItem>, i: nat, st: Printout): Printout
    requires TopMapped(env.mapa, items)
    decreases |items| - i
  {
    if i >= |items| then st
    else
      var last := i == |items| - 1;
      var next := ChildPrefix("", last);
      match items[i]
      case TopFolder(n) =>
        var shown := st.(lines := st.lines + [Entry("", last, SubFolder(n))]);
        var after := RenderFolder(env, n, next, shown);
        if !after.ok then after else RenderTop(env, items, i + 1, after)
      case Unfiled(vs) =>
        var shown := st.(lines := st.lines + [UnfiledHeader(last)] + GroupLines(vs, next));
        RenderTop(env, items, i + 1, shown)
  }

  /** One step of RenderTop: the i-th top-level entry, then the rest unless printing stopped. */
  lemma RenderTopNext(env: Env, items: seq<TopItem>, i: nat, st: Printout)
    requires TopMapped(env.mapa, items) && i < |items|
    ensures var last := i == |items| - 1;
      var next := ChildPrefix("", last);
      RenderTop(env, items, i, st) ==
        match items[i]
        case TopFolder(n) =>
          var after := RenderFolder(env, n, next, st.(lines := st.lines + [Entry("", last, SubFolder(n))]));
          if !after.ok then after else RenderTop(env, items, i + 1, after)
        case Unfiled(vs) =>
          RenderTop(env, items, i + 1, st.(lines := st.lines + [UnfiledHeader(last)] + GroupLines(vs, next)))
  {
  }

  /** The top-level folders, by name. */
  function TopFolders(m: FolderMap): (r: seq<FolderNode>)
    ensures forall i :: 0 <= i < |r| ==> InMap(m, r[i])
  {
    var roots := if None in m then m[None] else [];
    var r := SortByName(roots);
    forall i | 0 <= i < |r| ensures InMap(m, r[i]) {
      assert r[i] in multiset(r);
    }
    r
  }

  /**
   * The whole output after the account line `root`: the listing of videos outside
   * folders (None: it raised) is fetched first, then the top-level entries are printed.
   */
  function RenderStructure(env: Env, root: string, allVideos: Option<seq<Video>>): (r: Printout)
    ensures r.lines != [] && r.lines[0] == Account(root)
    ensures env.includeVideos && allVideos.None? ==> !r.ok && r.lines == [Account(root)]
  {
    var st := Printout([Account(root)], {}, [], true);
    if env.includeVideos && allVideos.None? then st.(ok := false)
    else
      var loose := if env.includeVideos then Filter(allVideos.value, OutsideFolders) else [];
      var topo := TopFolders(env.mapa);
      var items := TopItems(topo, loose);
      assert TopMapped(env.mapa, items) by {
        forall i | 0 <= i < |items| && items[i].TopFolder? ensures InMap(env.mapa, items[i].node) {
          assert i < |topo| && items[i].node == topo[i];
        }
      }
      RenderTopKeeps(env, items, 0, st);
      RenderTop(env, items, 0, st)
  }

  // ---------------------------------------------------------------------------
  // What the printout guarantees

  /**
   * `visitados` and the expansion record agree: no folder is expanded twice, the visited
   * uris are exactly the expanded ones, and each belongs to a folder of the map.
   */
  ghost predicate ExpandedOnce(m: FolderMap, st: Printout) {
    && (forall i, j :: 0 <= i < j < |st.expanded| ==> st.expanded[i] != st.expanded[j])
    && (forall u :: u in st.visited <==> u in st.expanded)
    && (forall u :: u in st.expanded ==> u in MappedUris(m))
  }

  /** Every line from the k-th on is an entry drawn under `prefix`. */
  ghost predicate IndentedFrom(lines: seq<Line>, k: nat, prefix: string) {
    forall i :: k <= i < |lines| ==> lines[i].Entry? && StartsWith(lines[i].prefix, prefix)
  }

  lemma StartsWithTrans(a: string, b: string, c: string)
    requires StartsWith(a, b) && StartsWith(b, c)
    ensures StartsWith(a, c)
  {
    assert a[..|c|] == a[..|b|][..|c|];
  }

  /**
   * Printing a folder keeps ExpandedOnce, only appends lines and expansions, and every line
   * it appends is an entry indented under the folder's prefix.
   */
  lemma {:induction false} RenderFolderKeeps(env: Env, node: FolderNode, prefix: string, st: Printout)
    requires InMap(env.mapa, node) && ExpandedOnce(env.mapa, st)
    ensures var r := RenderFolder(env, node, prefix, st);
      && ExpandedOnce(env.mapa, r)
      && st.lines <= r.lines && st.expanded <= r.expanded
      && IndentedFrom(r.lines, |st.lines|, prefix)
    decreases MappedUris(env.mapa) - st.visited, 0, 0
  {
    var uri := node.folder.uri;
    if uri.None? || uri.value == [] || uri.value in st.visited {
    } else {
      InMapUri(env.mapa, node);
      var u := uri.value;
      var entered := st.(visited := st.visited + {u}, expanded := st.expanded + [u]);
      assert ExpandedOnce(env.mapa, entered);
      var videos := if env.includeVideos then env.folderVideos(u) else Some([]);
      if videos.Some? {
        RenderItemsKeeps(env, Items(env.mapa, node, videos.value), 0, prefix, entered);
      }
    }
  }

  lemma {:induction false} RenderItemsKeeps(env: Env, items: seq<Item>, i: nat, prefix: string, st: Printout)
    requires AllMapped(env.mapa, items) && ExpandedOnce(env.mapa, st)
    ensures var r := RenderItems(env, items, i, prefix, st);
      && ExpandedOnce(env.mapa, r)
      && st.lines <= r.lines && st.expanded <= r.expanded
      && IndentedFrom(r.lines, |st.lines|, prefix)
    decreases MappedUris(env.mapa) - st.visited, 1, |items| - i
  {
    if i < |items| {
      var last := i == |items| - 1;
      var shown := st.(lines := st.lines + [Entry(prefix, last, items[i])]);
      assert StartsWith(prefix, prefix);
      var after := if items[i].SubFolder? then RenderFolder(env, items[i].node, ChildPrefix(prefix, last), shown) else shown;
      if items[i].SubFolder? {
        RenderFolderKeeps(env, items[i].node, ChildPrefix(prefix, last), shown);
        forall k | |shown.lines| <= k < |after.lines|
          ensures after.lines[k].Entry? && StartsWith(after.lines[k].prefix, prefix)
        {
          StartsWithTrans(after.lines[k].prefix, ChildPrefix(prefix, last), prefix);
        }
      }
      assert IndentedFrom(after.lines, |st.lines|, prefix) by {
        forall k | |st.lines| <= k < |after.lines|
          ensures after.lines[k].Entry? && StartsWith(after.lines[k].prefix, prefix)
        {
          if k < |shown.lines| {
            assert after.lines[k] == shown.lines[k];
          }
        }
      }
      if after.ok {
        assert MappedUris(env.mapa) - after.visited <= MappedUris(env.mapa) - st.visited;
        RenderItemsKeeps(env, items, i + 1, prefix, after);
        var r := RenderItems(env, items, i + 1, prefix, after);
        forall k | |st.lines| <= k < |r.lines|
          ensures r.lines[k].Entry? && StartsWith(r.lines[k].prefix, prefix)
        {
          if k < |after.lines| {
            assert r.lines[k] == after.lines[k];
          }
        }
      }
    }
  }

  lemma {:induction false} RenderTopKeeps(env: Env, items: seq<TopItem>, i: nat, st: Printout)
    requires TopMapped(env.mapa, items) && ExpandedOnce(env.mapa, st)
    ensures var r := RenderTop(env, items, i, st);
      ExpandedOnce(env.mapa, r) && st.lines <= r.lines && st.expanded <= r.expanded
    decreases |items| - i
  {
    if i < |items| {
      var last := i == |items| - 1;
      var next := ChildPrefix("", last);
      match items[i]
      case TopFolder(n) =>
        var shown := st.(lines := st.lines + [Entry("", last, SubFolder(n))]);
        RenderFolderKeeps(env, n, next, shown);
        var after := RenderFolder(env, n, next, shown);
        if after.ok {
          RenderTopKeeps(env, items, i + 1, after);
        }
      case Unfiled(vs) =>
        var shown := st.(lines := st.lines + [UnfiledHeader(last)] + GroupLines(vs, next));
        RenderTopKeeps(env, items, i + 1, shown);
    }
  }

  /**
   * The output opens with the account line, and however the parent links loop, no folder
   * is expanded twice and only folders of the map are expanded.
   */
  lemma RenderStructureExpandsOnce(env: Env, root: string, allVideos: Option<seq<Video>>)
    ensures var r := RenderStructure(env, root, allVideos);
      r.lines != [] && r.lines[0] == Account(root) && ExpandedOnce(env.mapa, r)
  {
    var st := Printout([Account(root)], {}, [], true);
    if !(env.includeVideos && allVideos.None?) {
      var loose := if env.includeVideos then Filter(allVideos.value, OutsideFolders) else [];
      var topo := TopFolders(env.mapa);
      var items := TopItems(topo, loose);
      assert TopMapped(env.mapa, items) by {
        forall i | 0 <= i < |items| && items[i].TopFolder? ensures InMap(env.mapa, items[i].node) {
          assert i < |topo| && items[i].node == topo[i];
        }
      }
      RenderTopKeeps(env, items, 0, st);
    }
  }

  // ---------------------------------------------------------------------------
  // The printer

  class TreePrinter {
    const env: Env
    var lines: seq<Line>
    var visited: set<string>
    var expanded: seq<string>
    var ok: bool

    function Current(): Printout
      reads this
    {
      Printout(lines, visited, expanded, ok)
    }

    /** The account line printed, nothing visited yet. */
    constructor (env: Env, root: string)
      ensures this.env == env && Current() == Printout([Account(root)], {}, [], true)
    {
      this.env := env;
      lines := [Account(root)];
      visited := {};
      expanded := [];
      ok := true;
    }

    method PrintFolder(node: FolderNode, prefix: string)
      requires ok && InMap(env.mapa, node)
      modifies this
      ensures Current() == RenderFolder(env, node, prefix, old(Current()))
      decreases MappedUris(env.mapa) - visited, 0
    {
      var uri := node.folder.uri;
      if uri.None? || uri.value == [] || uri.value in visited {
        return;
      }
      InMapUri(env.mapa, node);
      var u := uri.value;
      visited := visited + {u};
      expanded := expanded + [u];
      var videos: seq<Video> := [];
      if env.includeVideos {
        var listed := env.folderVideos(u);
        if listed.None? {
          ok := false;
          return;
        }
        videos := listed.value;
      }
      var items := CollectItems(SortByName(Children(env.mapa, node.id)), videos);
      assert items == Items(env.mapa, node, videos);
      assert u in MappedUris(env.mapa) - old(visited) && u !in MappedUris(env.mapa) - visited;
      PrintEntries(items, prefix);
    }

    /** The loop over a folder's entries: a line each, and under a subfolder its own entries. */
    method PrintEntries(items: seq<Item>, prefix: string)
      requires ok && AllMapped(env.mapa, items)
      modifies this
      ensures Current() == RenderItems(env, items, 0, prefix, old(Current()))
      decreases MappedUris(env.mapa) - visited, 1
    {
      var i := 0;
      while i < |items|
        invariant i <= |items| && ok
        invariant old(visited) <= visited
        invariant RenderItems(env, items, i, prefix, Current()) == RenderItems(env, items, 0, prefix, old(Current()))
        decreases |items| - i
      {
        ghost var before := Current();
        var last := i == |items| - 1;
        lines := lines + [Entry(prefix, last, items[i])];
        ghost var shown := Current();
        if items[i].SubFolder? {
          PrintFolder(items[i].node, ChildPrefix(prefix, last));
        }
        ghost var after := Current();
        assert after == if items[i].SubFolder? then RenderFolder(env, items[i].node, ChildPrefix(prefix, last), shown) else shown;
        RenderItemsNext(env, items, i, prefix, before);
        if !ok {
          return;
        }
        i := i + 1;
      }
    }

    /** `itens`: one entry per subfolder, then one per video appended in order. */
    static method CollectItems(subfolders: seq<FolderNode>, videos: seq<Video>) returns (items: seq<Item>)
      ensures items == SubFolderItems(subfolders) + VideoItems(videos)
    {
      items := SubFolderItems(subfolders);
      for j := 0 to |videos|
        invariant items == SubFolderItems(subfolders) + VideoItems(videos[..j])
      {
        assert VideoItems(videos[..j + 1]) == VideoItems(videos[..j]) + [VideoItem(videos[j])];
        items := items + [VideoItem(videos[j])];
      }
      assert videos[..|videos|] == videos;
    }

    /** The loop of `imprimir_estrutura` over the top-level entries. */
    method PrintTopLevel(items: seq<TopItem>)
      requires ok && TopMapped(env.mapa, items)
      modifies this
      ensures Current() == RenderTop(env, items, 0, old(Current()))
    {
      var i := 0;
      while i < |items|
        invariant i <= |items| && ok
        invariant RenderTop(env, items, i, Current()) == RenderTop(env, items, 0, old(Current()))
        decreases |items| - i
      {
        var last := i == |items| - 1;
        var next := ChildPrefix("", last);
        RenderTopNext(env, items, i, Current());
        match items[i] {
          case TopFolder(n) =>
            lines := lines + [Entry("", last, SubFolder(n))];
            PrintFolder(n, next);
            if !ok {
              return;
            }
          case Unfiled(vs) =>
            lines := lines + [UnfiledHeader(last)];
            PrintVideoGroup(vs, next);
        }
        i := i + 1;
      }
    }

    /** `imprimir_grupo_videos`. */
    method PrintVideoGroup(videos: seq<Video>, prefix: string)
      modifies this
      ensures lines == old(lines) + GroupLines(videos, prefix)
      ensures visited == old(visited) && expanded == old(expanded) && ok == old(ok)
    {
      for i := 0 to |videos|
        invariant lines == old(lines) + GroupLines(videos, prefix)[..i]
        invariant visited == old(visited) && expanded == old(expanded) && ok == old(ok)
      {
        assert GroupLines(videos, prefix)[..i + 1] == GroupLines(videos, prefix)[..i] + [GroupLines(videos, prefix)[i]];
        lines := lines + [Entry(prefix, i == |videos| - 1, VideoItem(videos[i]))];
      }
      assert GroupLines(videos, prefix)[..|videos|] == GroupLines(videos, prefix);
    }
  }

  /** `imprimir_estrutura` after the account line. */
  method PrintStructure(env: Env, root: string, allVideos: Option<seq<Video>>) returns (out: Printout)
    ensures out == RenderStructure(env, root, allVideos)
  {
    var printer := new TreePrinter(env, root);
    var loose: seq<Video> := [];
    if env.includeVideos {
      if allVideos.None? {
        printer.ok := false;
        return printer.Current();
      }
      loose := ListVideosWithoutFolder(allVideos.value);
    }
    var topo := TopFolders(env.mapa);
    var items := TopItems(topo, loose);
    assert TopMapped(env.mapa, items) by {
      forall i | 0 <= i < |items| && items[i].TopFolder? ensures InMap(env.mapa, items[i].node) {
        assert i < |topo| && items[i].node == topo[i];
      }
    }
    printer.PrintTopLevel(items);
    out := printer.Current();
  }
}
