/**
 * The traversal of vimeo_bulk_download.py (`main`, `process_video`, `process_folder`):
 * the top-level folders by name, each followed by its own videos and then, depth first,
 * its subfolders by name; then a sweep over every video of the account for those no
 * folder held. A video uri is handled once per run and a folder uri is entered once.
 *
 * The output directory is a map from paths (relative to `--out`) to file contents, and
 * the metadata written beside a video file is a map from that file's path to the video.
 * The folder map, the listings, `get_video_details` and the server's answers to each
 * download are inputs. An exception that escapes `main` is `ok == false`: nothing
 * happens after it.
 */
module Traversal {
  import opened Wrappers
  import opened Sorting
  import opened Text
  import opened Payload
  import opened Hierarchy
  import opened BestFile
  import opened Download

  /** A path under the output directory, one component per entry. */
  type Path = seq<string>

  /** `base / name`: pathlib drops an empty or "." component. */
  function Join(base: Path, name: string): (r: Path)
    ensures r == base || r == base + [name]
  {
    if name == "" || name == "." then base else base + [name]
  }

  /** The videos a listing yielded, and whether it ended normally (false: the pagination raised). */
  datatype Listed = Listed(items: seq<Video>, complete: bool)

  /**
   * What the run sees of the outside world: the folder map, `list_project_videos` per
   * folder uri, `list_all_videos`, `get_video_details` per video uri (None: it raised),
   * the server's answer to each attempt of a download of a link to a path, and
   * `--overwrite`.
   */
  datatype Env = Env(
    mapa: FolderMap,
    projectVideos: string -> Listed,
    allVideos: Listed,
    details: string -> Option<Video>,
    server: (string, Path) -> (nat -> DlResponse),
    overwrite: bool)

  /**
   * Where the run stands: `seen_video_uris` (and the order in which uris joined it),
   * the visited folder uris, the output directory, the metadata written (by the path
   * of the video file it sits beside), and whether no exception has escaped yet.
   */
  datatype State = State(
    seen: set<string>,
    order: seq<string>,
    visited: set<string>,
    files: map<Path, seq<Byte>>,
    meta: map<Path, Video>,
    ok: bool)

  // ---------------------------------------------------------------------------
  // Names

  /** `video.get('name') or f"video_{uri.split('/')[-1]}"`. */
  function VideoName(v: Video): (r: string)
    requires v.uri.Some?
    ensures r != []
    ensures v.name.Some? && v.name.value != [] ==> r == v.name.value
    ensures !(v.name.Some? && v.name.value != []) ==> StartsWith(r, "video_") && '/' !in r[6..]
  {
    if v.name.Some? && v.name.value != [] then v.name.value
    else
      AfterLastSlashSpec(v.uri.value);
      var r := "video_" + AfterLastSlash(v.uri.value);
      assert r[6..] == AfterLastSlash(v.uri.value);
      r
  }

  /** `safe_filename(folder.get("name") or f"folder_{extract_vimeo_id(uri)}")`. */
  function FolderDirName(n: FolderNode): (r: string)
    ensures '/' !in r && forall i :: 0 <= i < |r| ==> SafeChar(r[i])
  {
    var name := n.folder.name;
    var r := SafeFilename(if name.Some? && name.value != [] then name.value else "folder_" + ExtractId(n.folder.uri));
    SafeHasNoSlash(r);
    r
  }

  lemma SafeHasNoSlash(r: string)
    requires forall i :: 0 <= i < |r| ==> SafeChar(r[i])
    ensures '/' !in r
  {
  }

  /** `f"{base}{f.get('ext', '.mp4')}"`: the file name of a video. */
  function DestName(v: Video, c: Choice): (r: string)
    requires v.uri.Some?
    ensures |c.ext| <= |r| && r[|r| - |c.ext|..] == c.ext
    ensures forall i :: 0 <= i < |r| - |c.ext| ==> SafeChar(r[i])
  {
    SafeFilename(VideoName(v)) + c.ext
  }

  /** `f['link']`: the chosen file's link. */
  function ChoiceLink(c: Choice): string {
    match c
    case FileChoice(file, _) => file.link.GetOr([])
    case DownloadChoice(link, _, _) => link
  }

  /** `x.get("name", "").lower()`: the sort key of the bulk script, without whitespace cleaning. */
  function BulkKey(n: FolderNode): string {
    Lower(n.folder.name.GetOr(""))
  }

  function SortByBulkKey(ns: seq<FolderNode>): (r: seq<FolderNode>)
    ensures multiset(r) == multiset(ns)
  {
    SortByPermutes(ns, BulkKey, StrLt);
    SortBy(ns, BulkKey, StrLt)
  }

  /** Folders come out ordered by lower-cased name, and folders with equal keys keep their listing order. */
  lemma SortByBulkKeySpec(ns: seq<FolderNode>)
    ensures SortedBy(SortByBulkKey(ns), BulkKey, StrLt)
    ensures forall k :: WithKey(SortByBulkKey(ns), BulkKey, k) == WithKey(ns, BulkKey, k)
  {
    StrLtIsStrictTotalOrder();
    SortBySorted(ns, BulkKey, StrLt);
    forall k ensures WithKey(SortByBulkKey(ns), BulkKey, k) == WithKey(ns, BulkKey, k) {
      SortByStable(ns, BulkKey, StrLt, k);
    }
  }

  /** Every folder of `fs` is filed in the map. */
  ghost predicate AllInMap(m: FolderMap, fs: seq<FolderNode>) {
    forall k :: 0 <= k < |fs| ==> InMap(m, fs[k])
  }

  lemma SortedInMap(m: FolderMap, fs: seq<FolderNode>)
    requires forall n :: n in fs ==> InMap(m, n)
    ensures AllInMap(m, SortByBulkKey(fs))
  {
    var r := SortByBulkKey(fs);
    forall k | 0 <= k < |r| ensures InMap(m, r[k]) {
      assert r[k] in multiset(r);
    }
  }

  // ---------------------------------------------------------------------------
  // process_video

  /**
   * The file to download: `choose_best_file(video)`, else `choose_best_file` of the
   * video's details, else nothing (also when fetching the details raised).
   */
  function BestFor(env: Env, v: Video): (r: Option<Choice>)
    requires v.uri.Some?
    ensures r.Some? ==> r.value.ext in Extension.KnownExtensions
  {
    var f := ChooseBestFile(v);
    if f.Some? then f
    else
      var d := env.details(v.uri.value);
      if d.Some? then ChooseBestFile(d.value) else None
  }

  /**
   * The end of `process_video` once the file is chosen: an existing `dest` is skipped
   * unless `--overwrite`, otherwise `download_file` runs; the metadata is written unless
   * the download raised.
   */
  function AfterSave(env: Env, v: Video, dest: Path, link: string, st: State): (r: State)
    ensures r.seen == st.seen && r.order == st.order && r.visited == st.visited
  {
    if dest in st.files && !env.overwrite then st.(meta := st.meta[dest := v])
    else
      var d := DownloadSpec(env.server(link, dest), DefaultMaxAttempts, if dest in st.files then st.files[dest] else []);
      if d.outcome.Done? then st.(files := st.files[dest := d.file], meta := st.meta[dest := v])
      else st.(files := if d.file == [] then st.files - {dest} else st.files[dest := d.file], ok := false)
  }

  function AfterVideo(env: Env, v: Video, subdir: Path, st: State): (r: State)
    ensures r.visited == st.visited && st.seen <= r.seen
  {
    if v.uri.None? || v.uri.value == [] || v.uri.value in st.seen then st
    else
      var u := v.uri.value;
      var marked := st.(seen := st.seen + {u}, order := st.order + [u]);
      var choice := BestFor(env, v);
      if choice.None? then marked
      else AfterSave(env, v, subdir + [DestName(v, choice.value)], ChoiceLink(choice.value), marked)
  }

  /** `for vid in ...: process_video(vid, subdir)`, from the i-th video on. */
  function AfterVideos(env: Env, vs: seq<Video>, i: nat, subdir: Path, st: State): (r: State)
    ensures r.visited == st.visited && st.seen <= r.seen
    decreases |vs| - i
  {
    if i >= |vs| then st
    else
      var after := AfterVideo(env, vs[i], subdir, st);
      if !after.ok then after else AfterVideos(env, vs, i + 1, subdir, after)
  }

  // ---------------------------------------------------------------------------
  // process_folder

  function AfterFolder(env: Env, node: FolderNode, base: Path, st: State): (r: State)
    requires InMap(env.mapa, node)
    ensures st.visited <= r.visited && st.seen <= r.seen
    decreases MappedUris(env.mapa) - st.visited, 0, 0
  {
    var uri := node.folder.uri;
    if uri.None? || uri.value == [] || uri.value in st.visited then st
    else
      InMapUri(env.mapa, node);
      var u := uri.value;
      var entered := st.(visited := st.visited + {u});
      var path := Join(base, FolderDirName(node));
      var listed := env.projectVideos(u);
      var afterVideos := AfterVideos(env, listed.items, 0, path, entered);
      if !afterVideos.ok then afterVideos
      else if !listed.complete then afterVideos.(ok := false)
      else
        var subs := SortByBulkKey(Children(env.mapa, node.id));
        SortedInMap(env.mapa, Children(env.mapa, node.id));
        AfterFolders(env, subs, 0, path, afterVideos)
  }

  /** `for sub in sorted(subfolders, ...): process_folder(sub, folder_path, visited)`, from the i-th on. */
  function AfterFolders(env: Env, fs: seq<FolderNode>, i: nat, base: Path, st: State): (r: State)
    requires AllInMap(env.mapa, fs)
    ensures st.visited <= r.visited && st.seen <= r.seen
    decreases MappedUris(env.mapa) - st.visited, 1, |fs| - i
  {
    if i >= |fs| then st
    else
      var after := AfterFolder(env, fs[i], base, st);
      if !after.ok then after
      else
        assert MappedUris(env.mapa) - after.visited <= MappedUris(env.mapa) - st.visited;
        AfterFolders(env, fs, i + 1, base, after)
  }

  // ---------------------------------------------------------------------------
  // main

  /** The final loop: every listed video whose uri was not seen is processed into the output directory itself. */
  function AfterSweep(env: Env, vs: seq<Video>, i: nat, st: State): (r: State)
    ensures st.seen <= r.seen
    decreases |vs| - i
  {
    if i >= |vs| then st
    else
      var v := vs[i];
      var after := if v.uri.Some? && v.uri.value in st.seen then st else AfterVideo(env, v, [], st);
      if !after.ok then after else AfterSweep(env, vs, i + 1, after)
  }

  /** The top-level folders, by the bulk script's key. */
  function RootFolders(m: FolderMap): (r: seq<FolderNode>)
    ensures AllInMap(m, r)
  {
    var roots := if None in m then m[None] else [];
    SortedInMap(m, roots);
    SortByBulkKey(roots)
  }

  function Start(initial: map<Path, seq<Byte>>): State {
    State({}, [], {}, initial, map[], true)
  }

  /** The whole run, from the output directory's initial contents. */
  function AfterRun(env: Env, initial: map<Path, seq<Byte>>): (r: State)
    ensures r.ok ==> env.allVideos.complete
  {
    var afterFolders := AfterFolders(env, RootFolders(env.mapa), 0, [], Start(initial));
    if !afterFolders.ok then afterFolders
    else
      var swept := AfterSweep(env, env.allVideos.items, 0, afterFolders);
      if !swept.ok || env.allVideos.complete then swept else swept.(ok := false)
  }

  // ---------------------------------------------------------------------------
  // What the run guarantees

  /**
   * The bookkeeping holds together: no video uri is handled twice, `seen_video_uris` is
   * exactly the handled uris and holds no empty one, every visited folder is a folder of
   * the map, every metadata entry is for a handled video, and while no exception has
   * escaped, every metadata file sits beside a video file that exists.
   */
  ghost predicate Consistent(env: Env, st: State) {
    && (forall i, j :: 0 <= i < j < |st.order| ==> st.order[i] != st.order[j])
    && (forall u :: u in st.seen <==> u in st.order)
    && (forall u :: u in st.seen ==> u != [])
    && (forall u :: u in st.visited ==> u in MappedUris(env.mapa))
    && (forall p :: p in st.meta ==> st.meta[p].uri.Some? && st.meta[p].uri.value in st.seen)
    && (st.ok ==> forall p :: p in st.meta ==> p in st.files)
  }

  /** Every video file of `a` is still in `b`, with the same contents (metadata files live in `meta`). */
  ghost predicate KeepsFiles(a: State, b: State) {
    forall p :: p in a.files ==> p in b.files && b.files[p] == a.files[p]
  }

  /** Saving keeps the bookkeeping of a handled video, and without `--overwrite` touches no existing video file. */
  lemma AfterSaveKeeps(env: Env, v: Video, dest: Path, link: string, st: State)
    requires Consistent(env, st) && v.uri.Some? && v.uri.value in st.seen
    ensures var r := AfterSave(env, v, dest, link, st);
      Consistent(env, r) && (!env.overwrite ==> KeepsFiles(st, r))
  {
  }

  /** One video keeps the bookkeeping, and without `--overwrite` no existing video file changes. */
  lemma AfterVideoKeeps(env: Env, v: Video, subdir: Path, st: State)
    requires Consistent(env, st)
    ensures var r := AfterVideo(env, v, subdir, st);
      && Consistent(env, r) && st.order <= r.order
      && (!env.overwrite ==> KeepsFiles(st, r))
  {
    if !(v.uri.None? || v.uri.value == [] || v.uri.value in st.seen) {
      var u := v.uri.value;
      var marked := st.(seen := st.seen + {u}, order := st.order + [u]);
      assert Consistent(env, marked);
      var choice := BestFor(env, v);
      if choice.Some? {
        AfterSaveKeeps(env, v, subdir + [DestName(v, choice.value)], ChoiceLink(choice.value), marked);
      }
    }
  }

  /** A video with a uri ends up among the handled ones. */
  lemma AfterVideoSees(env: Env, v: Video, subdir: Path, st: State)
    ensures v.uri.Some? && v.uri.value != [] ==> v.uri.value in AfterVideo(env, v, subdir, st).seen
  {
  }

  lemma {:induction false} AfterVideosKeeps(env: Env, vs: seq<Video>, i: nat, subdir: Path, st: State)
    requires Consistent(env, st)
    ensures var r := AfterVideos(env, vs, i, subdir, st);
      && Consistent(env, r) && st.order <= r.order
      && (!env.overwrite ==> KeepsFiles(st, r))
    decreases |vs| - i
  {
    if i < |vs| {
      AfterVideoKeeps(env, vs[i], subdir, st);
      var after := AfterVideo(env, vs[i], subdir, st);
      if after.ok {
        AfterVideosKeeps(env, vs, i + 1, subdir, after);
      }
    }
  }

  lemma {:induction false} AfterFolderKeeps(env: Env, node: FolderNode, base: Path, st: State)
    requires InMap(env.mapa, node) && Consistent(env, st)
    ensures var r := AfterFolder(env, node, base, st);
      && Consistent(env, r) && st.order <= r.order
      && (!env.overwrite ==> KeepsFiles(st, r))
    decreases MappedUris(env.mapa) - st.visited, 0, 0
  {
    var uri := node.folder.uri;
    if !(uri.None? || uri.value == [] || uri.value in st.visited) {
      InMapUri(env.mapa, node);
      var u := uri.value;
      var entered := st.(visited := st.visited + {u});
      var path := Join(base, FolderDirName(node));
      var listed := env.projectVideos(u);
      AfterVideosKeeps(env, listed.items, 0, path, entered);
      var afterVideos := AfterVideos(env, listed.items, 0, path, entered);
      if afterVideos.ok && listed.complete {
        SortedInMap(env.mapa, Children(env.mapa, node.id));
        AfterFoldersKeeps(env, SortByBulkKey(Children(env.mapa, node.id)), 0, path, afterVideos);
      }
    }
  }

  lemma {:induction false} AfterFoldersKeeps(env: Env, fs: seq<FolderNode>, i: nat, base: Path, st: State)
    requires AllInMap(env.mapa, fs) && Consistent(env, st)
    ensures var r := AfterFolders(env, fs, i, base, st);
      && Consistent(env, r) && st.order <= r.order
      && (!env.overwrite ==> KeepsFiles(st, r))
    decreases MappedUris(env.mapa) - st.visited, 1, |fs| - i
  {
    if i < |fs| {
      AfterFolderKeeps(env, fs[i], base, st);
      var after := AfterFolder(env, fs[i], base, st);
      if after.ok {
        assert MappedUris(env.mapa) - after.visited <= MappedUris(env.mapa) - st.visited;
        AfterFoldersKeeps(env, fs, i + 1, base, after);
      }
    }
  }

  /** The sweep keeps the bookkeeping, and without `--overwrite` no existing file changes. */
  lemma {:induction false} AfterSweepKeeps(env: Env, vs: seq<Video>, i: nat, st: State)
    requires Consistent(env, st)
    ensures var r := AfterSweep(env, vs, i, st);
      && Consistent(env, r) && st.order <= r.order
      && (!env.overwrite ==> KeepsFiles(st, r))
    decreases |vs| - i
  {
    if i < |vs| {
      var v := vs[i];
      var after := if v.uri.Some? && v.uri.value in st.seen then st else AfterVideo(env, v, [], st);
      if !(v.uri.Some? && v.uri.value in st.seen) {
        AfterVideoKeeps(env, v, [], st);
      }
      if after.ok {
        AfterSweepKeeps(env, vs, i + 1, after);
      }
    }
  }

  /** A sweep that ends without an exception has handled every video it went over that has a uri. */
  lemma {:induction false} AfterSweepCovers(env: Env, vs: seq<Video>, i: nat, st: State)
    ensures var r := AfterSweep(env, vs, i, st);
      r.ok ==> forall k :: i <= k < |vs| && vs[k].uri.Some? && vs[k].uri.value != [] ==> vs[k].uri.value in r.seen
    decreases |vs| - i
  {
    if i < |vs| {
      var v := vs[i];
      var after := if v.uri.Some? && v.uri.value in st.seen then st else AfterVideo(env, v, [], st);
      if !(v.uri.Some? && v.uri.value in st.seen) {
        AfterVideoSees(env, v, [], st);
      }
      if after.ok {
        AfterSweepCovers(env, vs, i + 1, after);
        var r := AfterSweep(env, vs, i + 1, after);
        assert AfterSweep(env, vs, i, st) == r;
        if r.ok {
          forall k | i <= k < |vs| && vs[k].uri.Some? && vs[k].uri.value != [] ensures vs[k].uri.value in r.seen {
            if k == i {
              assert v.uri.value in after.seen && after.seen <= r.seen;
            }
          }
        }
      }
    }
  }

  /**
   * The whole run: no video is handled twice, only mapped folders are entered, every
   * metadata entry belongs to a handled video, without `--overwrite` every video file
   * already in the output directory is left as it was (its metadata file is rewritten all
   * the same), and a run that ends normally has handled every video of the account
   * listing and left each metadata file beside its video file.
   */
  lemma RunGuarantees(env: Env, initial: map<Path, seq<Byte>>)
    ensures var r := AfterRun(env, initial);
      && Consistent(env, r)
      && (!env.overwrite ==> forall p :: p in initial ==> p in r.files && r.files[p] == initial[p])
      && (r.ok ==> forall k :: 0 <= k < |env.allVideos.items| && env.allVideos.items[k].uri.Some?
                                && env.allVideos.items[k].uri.value != [] ==>
                                  env.allVideos.items[k].uri.value in r.seen)
  {
    var st := Start(initial);
    AfterFoldersKeeps(env, RootFolders(env.mapa), 0, [], st);
    var afterFolders := AfterFolders(env, RootFolders(env.mapa), 0, [], st);
    if afterFolders.ok {
      AfterSweepKeeps(env, env.allVideos.items, 0, afterFolders);
      AfterSweepCovers(env, env.allVideos.items, 0, afterFolders);
    }
  }

  // ---------------------------------------------------------------------------
  // The run, step by step

  class Backup {
    const env: Env
    var seen: set<string>
    var order: seq<string>
    var visited: set<string>
    var files: map<Path, seq<Byte>>
    var meta: map<Path, Video>
    var ok: bool

    function Current(): State
      reads this
    {
      State(seen, order, visited, files, meta, ok)
    }

    constructor (env: Env, initial: map<Path, seq<Byte>>)
      ensures this.env == env && Current() == Start(initial)
    {
      this.env := env;
      seen := {};
      order := [];
      visited := {};
      files := initial;
      meta := map[];
      ok := true;
    }

    method ProcessVideo(v: Video, subdir: Path)
      requires ok
      modifies this
      ensures Current() == AfterVideo(env, v, subdir, old(Current()))
    {
      if v.uri.None? || v.uri.value == [] || v.uri.value in seen {
        return;
      }
      var u := v.uri.value;
      seen := seen + {u};
      order := order + [u];
      var choice := ChooseBestFile(v);
      if choice.None? {
        var fetched := env.details(u);
        if fetched.Some? {
          choice := ChooseBestFile(fetched.value);
        }
      }
      assert choice == BestFor(env, v);
      if choice.None? {
        return;
      }
      SaveVideo(v, subdir + [DestName(v, choice.value)], ChoiceLink(choice.value));
    }

    method SaveVideo(v: Video, dest: Path, link: string)
      modifies this
      ensures Current() == AfterSave(env, v, dest, link, old(Current()))
    {
      if dest in files && !env.overwrite {
        meta := meta[dest := v];
        return;
      }
      var d := DownloadFile(env.server(link, dest), DefaultMaxAttempts, if dest in files then files[dest] else []);
      if d.outcome.Done? {
        files := files[dest := d.file];
        meta := meta[dest := v];
      } else {
        files := if d.file == [] then files - {dest} else files[dest := d.file];
        ok := false;
      }
    }

    /** `for vid in list_project_videos(uri, headers): process_video(vid, folder_path)`. */
    method ProcessVideos(vs: seq<Video>, subdir: Path)
      requires ok
      modifies this
      ensures Current() == AfterVideos(env, vs, 0, subdir, old(Current()))
    {
      for i := 0 to |vs|
        invariant ok
        invariant AfterVideos(env, vs, i, subdir, Current()) == AfterVideos(env, vs, 0, subdir, old(Current()))
      {
        ProcessVideo(vs[i], subdir);
        if !ok {
          return;
        }
      }
    }

    method ProcessFolder(node: FolderNode, base: Path)
      requires ok && InMap(env.mapa, node)
      modifies this
      ensures Current() == AfterFolder(env, node, base, old(Current()))
      decreases MappedUris(env.mapa) - visited, 0
    {
      var uri := node.folder.uri;
      if uri.None? || uri.value == [] || uri.value in visited {
        return;
      }
      InMapUri(env.mapa, node);
      var u := uri.value;
      visited := visited + {u};
      var path := Join(base, FolderDirName(node));
      var listed := env.projectVideos(u);
      ProcessVideos(listed.items, path);
      if !ok {
        return;
      }
      if !listed.complete {
        ok := false;
        return;
      }
      var children := Children(env.mapa, node.id);
      SortedInMap(env.mapa, children);
      assert u in MappedUris(env.mapa) - old(visited) && u !in MappedUris(env.mapa) - visited;
      ProcessFolders(SortByBulkKey(children), path);
    }

    /** `for sub in sorted(subfolders, ...): process_folder(sub, folder_path, visited)`. */
    method ProcessFolders(fs: seq<FolderNode>, base: Path)
      requires ok && AllInMap(env.mapa, fs)
      modifies this
      ensures Current() == AfterFolders(env, fs, 0, base, old(Current()))
      decreases MappedUris(env.mapa) - visited, 1
    {
      for i := 0 to |fs|
        invariant ok && old(visited) <= visited
        invariant AfterFolders(env, fs, i, base, Current()) == AfterFolders(env, fs, 0, base, old(Current()))
      {
        ProcessFolder(fs[i], base);
        if !ok {
          return;
        }
      }
    }
  }

  /** `main` after the folder map is built. */
  method Run(env: Env, initial: map<Path, seq<Byte>>) returns (final: State)
    ensures final == AfterRun(env, initial)
  {
    var backup := new Backup(env, initial);
    backup.ProcessFolders(RootFolders(env.mapa), []);
    if !backup.ok {
      return backup.Current();
    }
    ghost var afterFolders := backup.Current();
    var vs := env.allVideos.items;
    for i := 0 to |vs|
      invariant backup.ok && backup.env == env
      invariant AfterSweep(env, vs, i, backup.Current()) == AfterSweep(env, vs, 0, afterFolders)
    {
      var v := vs[i];
      if v.uri.None? || v.uri.value !in backup.seen {
        backup.ProcessVideo(v, []);
        if !backup.ok {
          return backup.Current();
        }
      }
    }
    if !env.allVideos.complete {
      backup.ok := false;
    }
    final := backup.Current();
  }
}
