/**
 * `choose_best_file` (vimeo_bulk_download.py): which rendition of a video is downloaded.
 * Tier 1: progressive MP4 files (type "video/mp4" with a link); tier 2: any file with a
 * link; tier 3: entries of the `download` list with a link. Within a tier the entry with
 * the greatest rank wins, and among equal ranks the first one listed (the sort is stable).
 */
module BestFile {
  import opened Wrappers
  import opened Payload
  import opened Sorting
  import opened Filtering
  import opened Extension

  /** `f.get('link')` is truthy. */
  predicate HasLink(f: Rendition) {
    f.link.Some? && f.link.value != []
  }

  predicate IsProgressive(f: Rendition) {
    f.mediaType == Some("video/mp4") && HasLink(f)
  }

  /** A sort key: a pair of integers compared as a Python tuple. */
  type Rank = (int, int)

  /** Tuple order reversed: the order of `sort(key=..., reverse=True)`. */
  predicate Above(a: Rank, b: Rank) {
    a.0 > b.0 || (a.0 == b.0 && a.1 > b.1)
  }

  lemma AboveIsStrictTotalOrder()
    ensures StrictTotalOrder(Above)
  {
  }

  /** `(f.get('height') or 0, f.get('bitrate') or 0)`. */
  function FileRank(f: Rendition): Rank {
    (f.height.GetOr(0), f.bitrate.GetOr(0))
  }

  predicate IsSourceType(d: Rendition) {
    d.mediaType == Some("source") || d.mediaType == Some("original")
  }

  /** `score(d)`: the height, then whether the entry is the source/original upload. */
  function DownloadRank(d: Rendition): Rank {
    (d.height.GetOr(0), if IsSourceType(d) then 1 else 0)
  }

  /**
   * The returned dict: a file entry with `ext` added, or, from the `download` list, the
   * link, `ext`, `quality` and `source: "download"`.
   */
  datatype Choice =
    | FileChoice(file: Rendition, ext: string)
    | DownloadChoice(link: string, ext: string, quality: Option<string>)

  /** `xs.sort(key=rank, reverse=True); xs[0]`. */
  function Top(s: seq<Rendition>, rank: Rendition -> Rank): Rendition
    requires s != []
  {
    SortByPermutes(s, rank, Above);
    assert |SortBy(s, rank, Above)| == |multiset(s)|;
    SortBy(s, rank, Above)[0]
  }

  function ChooseBestFile(v: Video): (r: Option<Choice>)
    ensures r.Some? ==> r.value.ext in KnownExtensions
  {
    var progressive := Filter(v.files, IsProgressive);
    if progressive != [] then
      var top := Top(progressive, FileRank);
      Some(FileChoice(top, InferExt(top.link.GetOr([]))))
    else
      var direct := Filter(v.files, HasLink);
      if direct != [] then
        var top := Top(direct, FileRank);
        Some(FileChoice(top, InferExt(top.link.GetOr([]))))
      else
        var dl := Filter(v.download, HasLink);
        if dl != [] then
          var top := Top(dl, DownloadRank);
          var link := top.link.GetOr([]);
          Some(DownloadChoice(link, InferExt(link), top.quality))
        else
          None
  }

  /**
   * `x` is the entry a stable descending sort of the kept entries puts first: kept, ranked
   * no lower than any kept entry, and the first kept entry with its rank.
   */
  ghost predicate FirstBest(s: seq<Rendition>, keep: Rendition -> bool, rank: Rendition -> Rank, x: Rendition) {
    exists i :: 0 <= i < |s| && s[i] == x && keep(x)
      && (forall j :: 0 <= j < |s| && keep(s[j]) ==> !Above(rank(s[j]), rank(x)))
      && (forall j :: 0 <= j < i && keep(s[j]) ==> rank(s[j]) != rank(x))
  }

  /** At most one entry is the first best: FirstBest pins the choice down. */
  lemma FirstBestUnique(s: seq<Rendition>, keep: Rendition -> bool, rank: Rendition -> Rank, x: Rendition, y: Rendition)
    requires FirstBest(s, keep, rank, x) && FirstBest(s, keep, rank, y)
    ensures x == y
  {
    var i :| 0 <= i < |s| && s[i] == x && keep(x)
      && (forall j :: 0 <= j < |s| && keep(s[j]) ==> !Above(rank(s[j]), rank(x)))
      && (forall j :: 0 <= j < i && keep(s[j]) ==> rank(s[j]) != rank(x));
    var k :| 0 <= k < |s| && s[k] == y && keep(y)
      && (forall j :: 0 <= j < |s| && keep(s[j]) ==> !Above(rank(s[j]), rank(y)))
      && (forall j :: 0 <= j < k && keep(s[j]) ==> rank(s[j]) != rank(y));
    assert rank(x) == rank(y);
    assert !(i < k) && !(k < i);
  }

  /** The sort puts the first best kept entry on top. */
  lemma TopIsFirstBest(s: seq<Rendition>, keep: Rendition -> bool, rank: Rendition -> Rank)
    requires Filter(s, keep) != []
    ensures FirstBest(s, keep, rank, Top(Filter(s, keep), rank))
  {
    var f := Filter(s, keep);
    TopIsBestOf(f, rank);
    var m :| 0 <= m < |f| && Top(f, rank) == f[m]
      && (forall j :: 0 <= j < |f| ==> !Above(rank(f[j]), rank(f[m])))
      && (forall j :: 0 <= j < m ==> rank(f[j]) != rank(f[m]));
    LiftFirstBest(s, keep, rank, m);
  }

  /** Within one list, the top entry ranks no lower than any other and is the first with its rank. */
  lemma TopIsBestOf(f: seq<Rendition>, rank: Rendition -> Rank)
    requires f != []
    ensures exists m :: (0 <= m < |f| && Top(f, rank) == f[m]
      && (forall j :: 0 <= j < |f| ==> !Above(rank(f[j]), rank(f[m])))
      && (forall j :: 0 <= j < m ==> rank(f[j]) != rank(f[m])))
  {
    AboveIsStrictTotalOrder();
    SortByHead(f, rank, Above);
  }

  /** A first best entry of the kept entries is a first best entry of the whole list. */
  lemma LiftFirstBest(s: seq<Rendition>, keep: Rendition -> bool, rank: Rendition -> Rank, m: nat)
    requires m < |Filter(s, keep)|
    requires var f := Filter(s, keep);
      && (forall j :: 0 <= j < |f| ==> !Above(rank(f[j]), rank(f[m])))
      && (forall j :: 0 <= j < m ==> rank(f[j]) != rank(f[m]))
    ensures FirstBest(s, keep, rank, Filter(s, keep)[m])
  {
    var f := Filter(s, keep);
    FilterOrigin(s, keep, m);
    var k :| 0 <= k < |s| && s[k] == f[m] && keep(s[k]) && Filter(s[..k], keep) == f[..m];
    forall j | 0 <= j < |s| && keep(s[j]) ensures !Above(rank(s[j]), rank(f[m])) {
      FilterMembers(s, keep, s[j]);
      var n :| 0 <= n < |f| && f[n] == s[j];
    }
    forall j | 0 <= j < k && keep(s[j]) ensures rank(s[j]) != rank(f[m]) {
      assert s[..k][j] == s[j];
      FilterMembers(s[..k], keep, s[j]);
      var n :| 0 <= n < m && f[n] == s[j];
    }
  }

  lemma FilterEmpty(s: seq<Rendition>, keep: Rendition -> bool)
    ensures Filter(s, keep) == [] <==> forall i :: 0 <= i < |s| ==> !keep(s[i])
  {
    if Filter(s, keep) != [] {
      FilterMembers(s, keep, Filter(s, keep)[0]);
    } else {
      forall i | 0 <= i < |s| ensures !keep(s[i]) {
        FilterMembers(s, keep, s[i]);
      }
    }
  }

  /**
   * What `choose_best_file` returns, tier by tier: the first best progressive file; failing
   * that the first best linked file; failing that the link, extension and quality of the
   * first best linked download entry; and nothing exactly when no entry has a link.
   */
  lemma ChooseBestFileSpec(v: Video)
    ensures var r := ChooseBestFile(v);
      && (r.None? <==>
            (forall i :: 0 <= i < |v.files| ==> !HasLink(v.files[i]))
            && (forall i :: 0 <= i < |v.download| ==> !HasLink(v.download[i])))
      && ((exists i :: 0 <= i < |v.files| && IsProgressive(v.files[i])) ==>
            r.Some? && r.value.FileChoice? && FirstBest(v.files, IsProgressive, FileRank, r.value.file)
            && r.value.ext == InferExt(r.value.file.link.value))
      && ((forall i :: 0 <= i < |v.files| ==> !IsProgressive(v.files[i]))
          && (exists i :: 0 <= i < |v.files| && HasLink(v.files[i])) ==>
            r.Some? && r.value.FileChoice? && FirstBest(v.files, HasLink, FileRank, r.value.file)
            && r.value.ext == InferExt(r.value.file.link.value))
      && ((forall i :: 0 <= i < |v.files| ==> !HasLink(v.files[i]))
          && (exists i :: 0 <= i < |v.download| && HasLink(v.download[i])) ==>
            r.Some? && r.value.DownloadChoice?
            && exists d :: FirstBest(v.download, HasLink, DownloadRank, d)
                        && r.value.link == d.link.value && r.value.ext == InferExt(d.link.value)
                        && r.value.quality == d.quality)
  {
    ChooseNothing(v);
    ChooseProgressive(v);
    ChooseLinked(v);
    ChooseDownload(v);
  }

  /** Nothing is chosen exactly when no file and no download entry has a link. */
  lemma ChooseNothing(v: Video)
    ensures ChooseBestFile(v).None? <==>
      (forall i :: 0 <= i < |v.files| ==> !HasLink(v.files[i]))
      && (forall i :: 0 <= i < |v.download| ==> !HasLink(v.download[i]))
  {
    FilterEmpty(v.files, IsProgressive);
    FilterEmpty(v.files, HasLink);
    FilterEmpty(v.download, HasLink);
  }

  /** With a progressive MP4, the first best one is chosen. */
  lemma ChooseProgressive(v: Video)
    ensures var r := ChooseBestFile(v);
      (exists i :: 0 <= i < |v.files| && IsProgressive(v.files[i])) ==>
        r.Some? && r.value.FileChoice? && FirstBest(v.files, IsProgressive, FileRank, r.value.file)
        && r.value.ext == InferExt(r.value.file.link.value)
  {
    FilterEmpty(v.files, IsProgressive);
    if Filter(v.files, IsProgressive) != [] {
      TopIsFirstBest(v.files, IsProgressive, FileRank);
    }
  }

  /** Without a progressive MP4, the first best linked file is chosen. */
  lemma ChooseLinked(v: Video)
    ensures var r := ChooseBestFile(v);
      (forall i :: 0 <= i < |v.files| ==> !IsProgressive(v.files[i]))
      && (exists i :: 0 <= i < |v.files| && HasLink(v.files[i])) ==>
        r.Some? && r.value.FileChoice? && FirstBest(v.files, HasLink, FileRank, r.value.file)
        && r.value.ext == InferExt(r.value.file.link.value)
  {
    FilterEmpty(v.files, IsProgressive);
    FilterEmpty(v.files, HasLink);
    if Filter(v.files, IsProgressive) == [] && Filter(v.files, HasLink) != [] {
      TopIsFirstBest(v.files, HasLink, FileRank);
    }
  }

  /** Without a linked file, the first best linked download entry is chosen. */
  lemma ChooseDownload(v: Video)
    ensures var r := ChooseBestFile(v);
      (forall i :: 0 <= i < |v.files| ==> !HasLink(v.files[i]))
      && (exists i :: 0 <= i < |v.download| && HasLink(v.download[i])) ==>
        r.Some? && r.value.DownloadChoice?
        && exists d :: FirstBest(v.download, HasLink, DownloadRank, d)
                    && r.value.link == d.link.value && r.value.ext == InferExt(d.link.value)
                    && r.value.quality == d.quality
  {
    FilterEmpty(v.files, IsProgressive);
    FilterEmpty(v.files, HasLink);
    FilterEmpty(v.download, HasLink);
    if Filter(v.files, HasLink) == [] && Filter(v.download, HasLink) != [] {
      TopIsFirstBest(v.download, HasLink, DownloadRank);
    }
  }
}
