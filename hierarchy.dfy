/**
 * `build_folder_hierarchy` (vimeo_bulk_download.py) and its twin `montar_mapa_pastas`
 * (vimeo_folder_structure.py): the parent link of every folder, in whichever shape the
 * listing gives it, is collapsed to one optional parent id, and the folders are bucketed
 * by that id. The folder listing itself comes from pagination and is an input here.
 */
module Hierarchy {
  import opened Wrappers
  import opened Text
  import opened Payload

  /** `parent_info` after the `connections` shape is resolved (a list contributes its first entry). */
  function ParentInfo(c: Connections): ParentField {
    match c
    case NoConnections => ParentAbsent
    case ConnObject(p) => p
    case ConnList(es) => if es == [] then ParentAbsent else es[0]
  }

  /** `parent_info` after the `parent_folder` shape is resolved (`{}` when missing or empty). */
  function ParentNode(p: ParentField): RefNode {
    match p
    case ParentAbsent => RefObject(None)
    case ParentOne(n) => n
    case ParentList(items) => if items == [] then RefObject(None) else items[0]
  }

  /** `parent_uri`: the `uri` of `parent_info` when it is an object. */
  function ParentUri(f: Folder): Option<string> {
    match ParentNode(ParentInfo(f.connections))
    case RefObject(u) => u
    case RefOther => None
  }

  /** `parent_id`: None unless a non-empty parent uri was found; then the id it ends in. */
  function ParentId(f: Folder): (r: Option<string>)
    ensures r.None? <==> ParentUri(f).None? || ParentUri(f).value == []
    ensures r.Some? ==> '/' !in r.value
  {
    var u := ParentUri(f);
    ExtractIdSpec(u);
    if u.Some? && u.value != [] then Some(ExtractId(u)) else None
  }

  /** A folder after the builder has set `_id` and `_parent_id` on it. */
  datatype FolderNode = FolderNode(folder: Folder, id: string, parentId: Option<string>)

  /**
   * `_id` is "?" for a folder without a uri and otherwise a single path segment; `_parent_id`,
   * when set, is a single path segment too.
   */
  function Annotate(f: Folder): (n: FolderNode)
    ensures f.uri.None? || f.uri.value == [] ==> n.id == "?"
    ensures n.id == "?" || '/' !in n.id
    ensures n.parentId.Some? ==> '/' !in n.parentId.value
  {
    ExtractIdSpec(f.uri);
    FolderNode(f, ExtractId(f.uri), ParentId(f))
  }

  /** Parent id to the folders filed under it, in listing order; None holds the top level. */
  type FolderMap = map<Option<string>, seq<FolderNode>>

  /** The annotated folders of `fs` whose parent id is `k`, in listing order. */
  ghost function Bucket(fs: seq<Folder>, k: Option<string>): seq<FolderNode> {
    if fs == [] then []
    else
      var last := fs[|fs| - 1];
      Bucket(fs[..|fs| - 1], k) + (if ParentId(last) == k then [Annotate(last)] else [])
  }

  /** The parent ids that occur in `fs`. */
  ghost function ParentIds(fs: seq<Folder>): set<Option<string>> {
    if fs == [] then {} else ParentIds(fs[..|fs| - 1]) + {ParentId(fs[|fs| - 1])}
  }

  /**
   * The map: one key per parent id that occurs, plus the None key (present even when every
   * folder has a parent), and under each key exactly the folders with that parent, in order.
   */
  method BuildFolderMap(folders: seq<Folder>) returns (mapa: FolderMap)
    ensures mapa.Keys == ParentIds(folders) + {None}
    ensures forall k :: k in mapa ==> mapa[k] == Bucket(folders, k)
  {
    mapa := map[];
    var i := 0;
    while i < |folders|
      invariant 0 <= i <= |folders|
      invariant Filed(mapa, folders[..i])
    {
      var node := Annotate(folders[i]);
      var key := node.parentId;
      var bucket := if key in mapa then mapa[key] else [];   // mapa.setdefault(parent_id, [])
      FiledStep(mapa, folders, i);
      mapa := mapa[key := bucket + [node]];
      i := i + 1;
    }
    assert folders[..i] == folders;
    ghost var listed := mapa;
    if None !in mapa {
      BucketOutside(folders, None);
      mapa := mapa[None := []];                                 // mapa.setdefault(None, [])
    }
    assert mapa.Keys == listed.Keys + {None};
  }

  /** `mapa` files the folders of `fs`: a key per parent id that occurs, each with its bucket. */
  ghost predicate Filed(mapa: FolderMap, fs: seq<Folder>) {
    mapa.Keys == ParentIds(fs) && forall k :: k in mapa ==> mapa[k] == Bucket(fs, k)
  }

  /** Appending the next folder to its parent's bucket files one folder more. */
  lemma FiledStep(mapa: FolderMap, fs: seq<Folder>, i: nat)
    requires i < |fs| && Filed(mapa, fs[..i])
    ensures var key := ParentId(fs[i]);
      Filed(mapa[key := (if key in mapa then mapa[key] else []) + [Annotate(fs[i])]], fs[..i + 1])
  {
    var key := ParentId(fs[i]);
    Extend(fs, i);
    if key !in mapa {
      BucketOutside(fs[..i], key);
    }
  }

  /** No folder has a parent id that does not occur. */
  lemma {:induction false} BucketOutside(fs: seq<Folder>, k: Option<string>)
    requires k !in ParentIds(fs)
    ensures Bucket(fs, k) == []
  {
    if fs != [] {
      BucketOutside(fs[..|fs| - 1], k);
    }
  }

  /** One more folder: a bucket grows only under that folder's parent id. */
  lemma Extend(fs: seq<Folder>, i: nat)
    requires i < |fs|
    ensures forall k :: Bucket(fs[..i + 1], k)
                     == Bucket(fs[..i], k) + (if ParentId(fs[i]) == k then [Annotate(fs[i])] else [])
    ensures ParentIds(fs[..i + 1]) == ParentIds(fs[..i]) + {ParentId(fs[i])}
  {
    assert fs[..i + 1][..i] == fs[..i];
    assert fs[..i + 1] == fs[..i] + [fs[i]];
  }

  /**
   * Every folder of the listing is filed exactly as often as it occurs in the listing, and
   * only under its own parent id.
   */
  lemma {:induction false} BucketCount(fs: seq<Folder>, k: Option<string>, f: Folder)
    ensures multiset(Bucket(fs, k))[Annotate(f)] == if ParentId(f) == k then multiset(fs)[f] else 0
  {
    if fs != [] {
      var init, last := fs[..|fs| - 1], fs[|fs| - 1];
      BucketCount(init, k, f);
      assert fs == init + [last];
    }
  }

  /** What a bucket holds: annotated folders of the listing, all with that parent id. */
  lemma {:induction false} BucketMembers(fs: seq<Folder>, k: Option<string>, n: FolderNode)
    requires n in Bucket(fs, k)
    ensures n.folder in fs && n == Annotate(n.folder) && n.parentId == k
  {
    var init := fs[..|fs| - 1];
    if n in Bucket(init, k) {
      BucketMembers(init, k, n);
    }
  }

  /**
   * The three shapes of the parent link (an object, a list, or either inside a list of
   * connections) designate the same parent, and a missing or empty uri gives no parent.
   */
  lemma ParentShapesAgree(u: string, name: Option<string>, rest: seq<RefNode>, more: seq<ParentField>)
    ensures var expected := if u == [] then None else Some(ExtractId(Some(u)));
      var node := RefObject(Some(u));
      && ParentId(Folder(None, name, ConnObject(ParentOne(node)))) == expected
      && ParentId(Folder(None, name, ConnObject(ParentList([node] + rest)))) == expected
      && ParentId(Folder(None, name, ConnList([ParentOne(node)] + more))) == expected
      && ParentId(Folder(None, name, ConnList([ParentList([node] + rest)] + more))) == expected
  {
  }

  /** Shapes that carry no parent uri all make a top-level folder. */
  lemma NoParentShapes(name: Option<string>, uri: Option<string>, rest: seq<RefNode>, more: seq<ParentField>)
    ensures ParentId(Folder(uri, name, NoConnections)) == None
    ensures ParentId(Folder(uri, name, ConnList([]))) == None
    ensures ParentId(Folder(uri, name, ConnObject(ParentAbsent))) == None
    ensures ParentId(Folder(uri, name, ConnObject(ParentList([])))) == None
    ensures ParentId(Folder(uri, name, ConnObject(ParentOne(RefOther)))) == None
    ensures ParentId(Folder(uri, name, ConnObject(ParentList([RefOther] + rest)))) == None
    ensures ParentId(Folder(uri, name, ConnList([ParentAbsent] + more))) == None
    ensures ParentId(Folder(uri, name, ConnObject(ParentOne(RefObject(None))))) == None
  {
  }

  /** `mapa.get(folder_id, [])`: the folders filed under a folder's id. */
  function Children(m: FolderMap, id: string): (r: seq<FolderNode>)
    ensures forall n :: n in r ==> InMap(m, n)
  {
    if Some(id) in m then m[Some(id)] else []
  }

  /** `n` is filed somewhere in the map. */
  ghost predicate InMap(m: FolderMap, n: FolderNode) {
    exists k :: k in m && n in m[k]
  }

  /** The uris of the folders filed in the map: every folder a traversal can reach. */
  ghost function MappedUris(m: FolderMap): set<string> {
    set k, n | k in m && n in m[k] && n.folder.uri.Some? :: n.folder.uri.value
  }

  lemma InMapUri(m: FolderMap, n: FolderNode)
    requires InMap(m, n) && n.folder.uri.Some?
    ensures n.folder.uri.value in MappedUris(m)
  {
    var k :| k in m && n in m[k];
  }
}
