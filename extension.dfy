/**
 * `infer_ext` inside `choose_best_file` (vimeo_bulk_download.py): the lower-cased suffix of
 * the link's path, kept when it is a known video container and replaced by ".mp4"
 * otherwise. The path is what Python's `urllib.parse.urlparse` returns, and the suffix is
 * `pathlib.PurePosixPath(path).suffix`; both are modelled on the steps that decide the path.
 */
module Extension {
  import opened Wrappers
  import opened Text
  import opened Filtering

  const KnownExtensions: set<string> := {".mp4", ".mov", ".m4v", ".mpg", ".mpeg", ".avi", ".wmv", ".mkv"}

  /** `s.find(c, from)`: the first index at or after `from` holding `c`, or -1. */
  function Find(s: string, c: char, from: nat): (i: int)
    ensures i == -1 || (from <= i < |s| && s[i] == c)
    ensures i == -1 ==> forall j :: from <= j < |s| ==> s[j] != c
    ensures i >= 0 ==> forall j :: from <= j < i ==> s[j] != c
    decreases |s| - from
  {
    if from >= |s| then -1 else if s[from] == c then from else Find(s, c, from + 1)
  }

  /** `s.rfind(c)`: the last index holding `c`, or -1. */
  function RFind(s: string, c: char): (i: int)
    ensures -1 <= i < |s|
    ensures i >= 0 ==> s[i] == c
    ensures forall j :: i < j < |s| ==> s[j] != c
  {
    if s == [] then -1 else if s[|s| - 1] == c then |s| - 1 else RFind(s[..|s| - 1], c)
  }

  /** The first index at or after `from` holding one of '/', '?', '#', or |s|. */
  function NetlocEnd(s: string, from: nat): (i: nat)
    requires from <= |s|
    ensures from <= i <= |s|
    ensures i < |s| ==> s[i] in "/?#"
    ensures forall j :: from <= j < i ==> s[j] !in "/?#"
    decreases |s| - from
  {
    if from == |s| || s[from] in "/?#" then from else NetlocEnd(s, from + 1)
  }

  /** `s.lstrip()` of the C0 controls and space, which `urlsplit` applies first. */
  function StripLeadingControls(s: string): (r: string)
    ensures |r| <= |s| && r == s[|s| - |r|..]
    ensures forall i :: 0 <= i < |s| - |r| ==> s[i] <= ' '
    ensures r == [] || r[0] > ' '
  {
    if s != [] && s[0] <= ' ' then StripLeadingControls(s[1..]) else s
  }

  /** No character of `s` is one of `cs`. */
  predicate Avoids(s: string, cs: string) {
    forall i :: 0 <= i < |s| ==> s[i] !in cs
  }

  const Unsafe := "\t\r\n"

  predicate KeptInUrl(c: char) {
    c !in Unsafe
  }

  /**
   * `urlsplit` deletes tabs and line breaks anywhere in the URL: the rest is kept, in order,
   * as `[c for c in s if c not in Unsafe]` keeps it.
   */
  function RemoveUnsafe(s: string): (r: string)
    ensures r == Filter(s, KeptInUrl)
    ensures Avoids(r, Unsafe)
    ensures Avoids(s, Unsafe) ==> r == s
  {
    if s == [] then []
    else (if s[0] in Unsafe then [] else [s[0]]) + RemoveUnsafe(s[1..])
  }

  predicate IsAsciiAlpha(c: char) {
    ('a' <= c <= 'z') || ('A' <= c <= 'Z')
  }

  predicate SchemeChar(c: char) {
    IsAsciiAlpha(c) || ('0' <= c <= '9') || c == '+' || c == '-' || c == '.'
  }

  /** The schemes for which `urlparse` splits `;parameters` off the path. */
  const UsesParams: set<string> := {"", "ftp", "hdl", "prospero", "http", "imap", "https", "shttp",
                                    "rtsp", "rtsps", "rtspu", "sip", "sips", "mms", "sftp", "tel"}

  datatype SchemeSplit = SchemeSplit(scheme: string, rest: string)

  /** A scheme is split off when a ':' follows a letter and scheme characters only. */
  function SplitScheme(url: string): (r: SchemeSplit)
    ensures r.scheme == [] ==> r.rest == url
  {
    var i := Find(url, ':', 0);
    if i > 0 && IsAsciiAlpha(url[0]) && (forall k :: 0 <= k < i ==> SchemeChar(url[k])) then
      SchemeSplit(Lower(url[..i]), url[i + 1..])
    else
      SchemeSplit([], url)
  }

  /** The part of `s` before the first `c` (all of `s` when there is none): `s.split(c, 1)[0]`. */
  function Before(s: string, c: char): (r: string)
    ensures |r| <= |s| && r == s[..|r|] && c !in r
    ensures |r| < |s| ==> s[|r|] == c
  {
    var i := Find(s, c, 0);
    if i < 0 then s else s[..i]
  }

  /** The cleaned URL with its scheme split off. */
  function SchemeRest(url: string): SchemeSplit {
    SplitScheme(RemoveUnsafe(StripLeadingControls(url)))
  }

  /** A netloc follows the scheme exactly when the rest starts with "//". */
  predicate HasNetloc(rest: string) {
    |rest| >= 2 && rest[0] == '/' && rest[1] == '/'
  }

  /** Where the netloc ends (0 when there is none): the first '/', '?' or '#' after "//". */
  function NetlocSpan(rest: string): (end: nat)
    ensures end <= |rest|
    ensures HasNetloc(rest) ==> 2 <= end
  {
    if HasNetloc(rest) then NetlocEnd(rest, 2) else 0
  }

  function Netloc(rest: string): string {
    if HasNetloc(rest) then rest[2..NetlocSpan(rest)] else []
  }

  /** The netloc `urlsplit` refuses with "Invalid IPv6 URL": a '[' without a ']', or the reverse. */
  predicate BracketMismatch(netloc: string) {
    ('[' in netloc) != (']' in netloc)
  }

  /** What follows the netloc: the path with the parameters, query and fragment still on it. */
  function AfterNetloc(url: string): string {
    var rest := SchemeRest(url).rest;
    rest[NetlocSpan(rest)..]
  }

  /**
   * The `path` of `urlparse(url)`, or None on its ValueError for a netloc with an unmatched
   * bracket (its other netloc checks are not part of this model). The path is
   * what follows the netloc up to the first '?' or '#', or up to the ';' that starts the
   * parameters of its last segment (SplitParams says which) when the scheme has parameters.
   */
  function UrlPath(url: string): (r: Option<string>)
    ensures r.None? <==> BracketMismatch(Netloc(SchemeRest(url).rest))
    ensures r.Some? ==> |r.value| <= |AfterNetloc(url)| && r.value == AfterNetloc(url)[..|r.value|]
    ensures r.Some? ==> '#' !in r.value && '?' !in r.value
    ensures r.Some? && |r.value| < |AfterNetloc(url)| ==> AfterNetloc(url)[|r.value|] in "?#;"
    ensures r.Some? && |r.value| < |AfterNetloc(url)| && AfterNetloc(url)[|r.value|] == ';' ==>
              SchemeRest(url).scheme in UsesParams
  {
    var split := SchemeRest(url);
    var rest := split.rest;
    var end := NetlocSpan(rest);
    if BracketMismatch(Netloc(rest)) then None
    else
      var tail := rest[end..];
      var path := Before(Before(tail, '#'), '?');
      PathCut(tail, split.scheme in UsesParams);
      Some(if split.scheme in UsesParams && ';' in path then SplitParams(path) else path)
  }

  /** Where the path of `tail` stops: at the query, the fragment or (with `params`) the parameters. */
  lemma PathCut(tail: string, params: bool)
    ensures var path := Before(Before(tail, '#'), '?');
      var r := if params && ';' in path then SplitParams(path) else path;
      && |r| <= |tail| && r == tail[..|r|]
      && '#' !in r && '?' !in r
      && (|r| < |tail| ==> tail[|r|] in "?#;")
      && (|r| < |tail| && tail[|r|] == ';' ==> params)
  {
    var beforeHash := Before(tail, '#');
    var path := Before(beforeHash, '?');
    assert path == tail[..|path|];
    var r := if params && ';' in path then SplitParams(path) else path;
    assert r == tail[..|r|];
    if |r| < |path| {
      assert tail[|r|] == path[|r|] == ';';
    } else if |r| < |beforeHash| {
      assert tail[|r|] == beforeHash[|r|] == '?';
    }
  }

  /** `_splitparams` looks for ';' from the last '/' on, or from the start when there is none. */
  function ParamsFrom(path: string): nat {
    var k := RFind(path, '/');
    if k < 0 then 0 else k
  }

  /**
   * `_splitparams`: the path up to the first ';' at or after ParamsFrom, or all of it when
   * there is none.
   */
  function SplitParams(path: string): (r: string)
    ensures |r| <= |path| && r == path[..|r|]
    ensures |r| == |path| || (ParamsFrom(path) <= |r| && path[|r|] == ';')
    ensures forall j :: ParamsFrom(path) <= j < |r| ==> path[j] != ';'
  {
    if '/' in path then
      var i := Find(path, ';', RFind(path, '/'));
      if i < 0 then path else path[..i]
    else
      var i := Find(path, ';', 0);
      if i < 0 then path else path[..i]
  }

  /** `r` is the '/'-separated segment of `path` that starts at `i`. */
  predicate SegmentAt(path: string, r: string, i: int) {
    && 0 <= i && i + |r| <= |path|
    && path[i..i + |r|] == r
    && (i == 0 || path[i - 1] == '/')
    && (i + |r| == |path| || path[i + |r|] == '/')
  }

  /** From `from` on, `path` holds only slashes and "." segments, the ones `PurePosixPath` drops. */
  predicate OnlyDotsFrom(path: string, from: int) {
    forall j {:trigger path[j]} :: 0 <= from <= j < |path| ==>
      path[j] == '/' || (path[j] == '.' && (j == 0 || path[j - 1] == '/') && (j + 1 == |path| || path[j + 1] == '/'))
  }

  /**
   * `PurePosixPath(path).name`: the last segment that is neither empty nor ".", or "" when
   * there is none.
   */
  function PathName(path: string): (r: string)
    ensures '/' !in r && r != "."
    ensures r == [] ==> OnlyDotsFrom(path, 0)
    ensures r != [] ==> exists i :: SegmentAt(path, r, i) && OnlyDotsFrom(path, i + |r|)
    decreases |path|
  {
    var t := TrimTrailingSlashes(path);
    if AfterLastSlash(t) == "." then
      DotSegmentShorter(path);
      var p := t[..|t| - 1];
      var r := PathName(p);
      NameBeforeDot(path, p, r);
      r
    else
      NameIsLastSegment(path);
      AfterLastSlash(t)
  }

  /** A last segment "." leaves a shorter path before it. */
  lemma DotSegmentShorter(path: string)
    requires AfterLastSlash(TrimTrailingSlashes(path)) == "."
    ensures 0 < |TrimTrailingSlashes(path)| <= |path|
  {
    TrimTrailingSlashesSpec(path);
    AfterLastSlashSpec(TrimTrailingSlashes(path));
  }

  /** The last segment, when it is not ".", is the name. */
  lemma NameIsLastSegment(path: string)
    requires AfterLastSlash(TrimTrailingSlashes(path)) != "."
    ensures var seg := AfterLastSlash(TrimTrailingSlashes(path));
      && '/' !in seg
      && (seg == [] ==> OnlyDotsFrom(path, 0))
      && (seg != [] ==> exists i :: SegmentAt(path, seg, i) && OnlyDotsFrom(path, i + |seg|))
  {
    var t := TrimTrailingSlashes(path);
    var seg := AfterLastSlash(t);
    TrimTrailingSlashesSpec(path);
    AfterLastSlashSpec(t);
    if seg != [] {
      assert path[|t| - |seg|..|t|] == t[|t| - |seg|..];
      assert SegmentAt(path, seg, |t| - |seg|);
    }
  }

  /** A last segment "." is dropped: the name is the one of the path before it. */
  lemma NameBeforeDot(path: string, p: string, r: string)
    requires AfterLastSlash(TrimTrailingSlashes(path)) == "."
    requires 0 < |TrimTrailingSlashes(path)| && p == TrimTrailingSlashes(path)[..|TrimTrailingSlashes(path)| - 1]
    requires '/' !in r
    requires r == [] ==> OnlyDotsFrom(p, 0)
    requires r != [] ==> exists i :: SegmentAt(p, r, i) && OnlyDotsFrom(p, i + |r|)
    ensures r == [] ==> OnlyDotsFrom(path, 0)
    ensures r != [] ==> exists i :: SegmentAt(path, r, i) && OnlyDotsFrom(path, i + |r|)
  {
    var t := TrimTrailingSlashes(path);
    TrimTrailingSlashesSpec(path);
    AfterLastSlashSpec(t);
    assert p == path[..|p|] && path[|p|] == '.';
    if r == [] {
      DotsLift(p, path, 0);
    } else {
      var i :| SegmentAt(p, r, i) && OnlyDotsFrom(p, i + |r|);
      SegmentLift(p, path, r, i);
    }
  }

  /** A segment of the path before a trailing "." segment is a segment of the whole path. */
  lemma SegmentLift(p: string, path: string, r: string, i: int)
    requires |p| < |path| && p == path[..|p|] && path[|p|] == '.'
    requires p == [] || p[|p| - 1] == '/'
    requires forall k :: |p| < k < |path| ==> path[k] == '/'
    requires r != [] && '/' !in r && SegmentAt(p, r, i) && OnlyDotsFrom(p, i + |r|)
    ensures SegmentAt(path, r, i) && OnlyDotsFrom(path, i + |r|)
  {
    assert p[i + |r| - 1] == r[|r| - 1];
    assert path[i..i + |r|] == p[i..i + |r|];
    DotsLift(p, path, i + |r|);
  }

  /** Appending a "." segment and slashes keeps a run of dropped segments dropped. */
  lemma DotsLift(p: string, path: string, from: nat)
    requires |p| < |path| && p == path[..|p|] && path[|p|] == '.'
    requires p == [] || p[|p| - 1] == '/'
    requires forall i :: |p| < i < |path| ==> path[i] == '/'
    requires from <= |p| && OnlyDotsFrom(p, from)
    ensures OnlyDotsFrom(path, from)
  {
    forall j | from <= j < |path|
      ensures path[j] == '/' || (path[j] == '.' && (j == 0 || path[j - 1] == '/') && (j + 1 == |path| || path[j + 1] == '/'))
    {
      if j < |p| {
        assert path[j] == p[j];
      }
      if j + 1 < |p| {
        assert path[j + 1] == p[j + 1];
      }
      if 0 < j <= |p| {
        assert path[j - 1] == p[j - 1];
      }
    }
  }

  /**
   * `PurePath.suffix`: from the last '.' on, unless that dot leads or ends the name; there
   * is one exactly when a dot follows the first character and the name does not end in '.'.
   */
  function Suffix(name: string): (r: string)
    ensures r == [] || (|r| >= 2 && r[0] == '.' && '.' !in r[1..] && |r| < |name| && name[|name| - |r|..] == r)
    ensures r != [] <==> name != [] && name[|name| - 1] != '.' && exists i :: 0 < i < |name| && name[i] == '.'
  {
    var i := RFind(name, '.');
    if 0 < i < |name| - 1 then name[i..] else []
  }

  /** `infer_ext(link)`: always one of the known extensions. */
  function InferExt(link: string): (ext: string)
    ensures ext in KnownExtensions
  {
    var path := UrlPath(link).GetOr([]);
    var ext := Lower(Suffix(PathName(path)));
    if ext in KnownExtensions then ext else ".mp4"
  }

  // ---------------------------------------------------------------------------
  // A signed download link such as `https://host/dir/name.MOV?token=...` keeps its own
  // extension, lower-cased, whatever the query string holds.

  lemma AvoidsConcat(a: string, b: string, cs: string)
    requires Avoids(a, cs) && Avoids(b, cs)
    ensures Avoids(a + b, cs)
  {
    forall i | |a| <= i < |a + b| ensures (a + b)[i] !in cs {
      assert (a + b)[i] == b[i - |a|];
    }
  }

  lemma {:induction false} FindIs(s: string, c: char, from: nat, k: nat)
    requires from <= k < |s| && s[k] == c
    requires forall j :: from <= j < k ==> s[j] != c
    ensures Find(s, c, from) == k
    decreases k - from
  {
    if from < k {
      FindIs(s, c, from + 1, k);
    }
  }

  lemma {:induction false} FindSkips(s: string, c: char, from: nat, k: nat)
    requires from <= k <= |s|
    requires forall j :: from <= j < k ==> s[j] != c
    ensures Find(s, c, from) == Find(s, c, k)
    decreases k - from
  {
    if from < k {
      FindSkips(s, c, from + 1, k);
    }
  }

  lemma {:induction false} RFindIs(s: string, c: char, k: nat)
    requires k < |s| && s[k] == c
    requires forall j :: k < j < |s| ==> s[j] != c
    ensures RFind(s, c) == k
  {
    if k < |s| - 1 {
      RFindIs(s[..|s| - 1], c, k);
    }
  }

  lemma {:induction false} NetlocEndIs(s: string, from: nat, k: nat)
    requires from <= k < |s| && s[k] in "/?#"
    requires forall j :: from <= j < k ==> s[j] !in "/?#"
    ensures NetlocEnd(s, from) == k
    decreases k - from
  {
    if from < k {
      NetlocEndIs(s, from + 1, k);
    }
  }

  /** The clean-up leaves a link that starts with a letter and holds no tab or line break unchanged. */
  lemma CleanLinkUnchanged(link: string)
    requires link != [] && link[0] == 'h' && Avoids(link, Unsafe)
    ensures RemoveUnsafe(StripLeadingControls(link)) == link
  {
    assert StripLeadingControls(link) == link;
  }

  lemma HttpsScheme(rest: string)
    ensures SplitScheme("https:" + rest) == SchemeSplit("https", rest)
  {
    var link := "https:" + rest;
    FindIs(link, ':', 0, 5);
    assert link[..5] == "https";
    assert Lower("https") == "https";
    assert link[6..] == rest;
  }

  /** After "//" the host runs up to the next '/'. */
  lemma HostThenPath(host: string, tail: string)
    requires Avoids(host, "/?#") && tail != [] && tail[0] == '/'
    ensures var rest := "//" + host + tail;
      && NetlocEnd(rest, 2) == 2 + |host|
      && rest[2..2 + |host|] == host
      && rest[2 + |host|..] == tail
  {
    var rest := "//" + host + tail;
    forall j | 2 <= j < 2 + |host| ensures rest[j] !in "/?#" {
      assert rest[j] == host[j - 2];
    }
    NetlocEndIs(rest, 2, 2 + |host|);
  }

  /** The query and fragment are cut off: what precedes the '?' is the path. */
  lemma PathBeforeQuery(path: string, query: string)
    requires '#' !in path && '?' !in path
    ensures Before(Before(path + "?" + query, '#'), '?') == path
  {
    var tail := path + "?" + query;
    FindSkips(tail, '#', 0, |path| + 1);
    var cut := Before(tail, '#');
    assert cut[..|path| + 1] == path + "?";
    FindIs(cut, '?', 0, |path|);
    assert cut[..|path|] == path;
  }

  lemma LinkParts(host: string, path: string, query: string)
    ensures "https://" + host + path + "?" + query == "https:" + ("//" + host + (path + "?" + query))
  {
  }

  /** The path of the link is everything from the slash after the host up to the '?'. */
  lemma PlainLinkPath(host: string, path: string, query: string)
    requires Avoids(host, "/?#[]") && Avoids(path, "?#;")
    requires Avoids("https://" + host + path + "?" + query, Unsafe)
    requires path != [] && path[0] == '/'
    ensures UrlPath("https://" + host + path + "?" + query) == Some(path)
  {
    var tail := path + "?" + query;
    var rest := "//" + host + tail;
    LinkParts(host, path, query);
    var link := "https:" + rest;
    CleanLinkUnchanged(link);
    HttpsScheme(rest);
    assert SchemeRest(link) == SchemeSplit("https", rest);
    HostThenPath(host, tail);
    assert NetlocSpan(rest) == 2 + |host|;
    assert Netloc(rest) == host;
    assert '[' !in host && ']' !in host;
    assert '#' !in path && '?' !in path && ';' !in path;
    PathBeforeQuery(path, query);
    assert rest[NetlocSpan(rest)..] == tail;
  }

  /** The name of the path is its last segment when that is not "." and the path does not end in '/'. */
  lemma PlainPathName(dir: string, name: string)
    requires name != [] && name != "." && '/' !in name
    requires dir == [] || dir[|dir| - 1] == '/'
    ensures PathName("/" + dir + name) == name
  {
    var path := "/" + dir + name;
    assert path[|path| - 1] == name[|name| - 1];
    assert TrimTrailingSlashes(path) == path;
    assert IsLastSegment(path, name) by {
      assert path[|path| - |name|..] == name;
      assert path[|path| - |name| - 1] == '/';
    }
    AfterLastSlashSpec(path);
    LastSegmentUnique(path, name, AfterLastSlash(path));
  }

  lemma PlainSuffix(file: string, ext: string)
    requires file != [] && ext != [] && '.' !in ext
    ensures Suffix(file + "." + ext) == "." + ext
  {
    var name := file + "." + ext;
    forall j | |file| < j < |name| ensures name[j] != '.' {
      assert name[j] == ext[j - |file| - 1];
    }
    RFindIs(name, '.', |file|);
    assert name[|file|..] == "." + ext;
  }

  /**
   * `infer_ext` of a link `https://host/dir/file.ext?query`: the lower-cased ".ext" when it
   * is a known container, ".mp4" otherwise.
   */
  lemma InferExtOfPlainLink(host: string, dir: string, file: string, ext: string, query: string)
    requires Avoids(host, "/?#[]") && Avoids(dir, "?#;") && (dir == [] || dir[|dir| - 1] == '/')
    requires file != [] && Avoids(file, "/?#;")
    requires ext != [] && Avoids(ext, "./?#;")
    ensures var path := "/" + dir + (file + "." + ext);
      var e := Lower("." + ext);
      var link := "https://" + host + path + "?" + query;
      Avoids(link, Unsafe) ==> InferExt(link) == (if e in KnownExtensions then e else ".mp4")
  {
    var name := file + "." + ext;
    var path := "/" + dir + name;
    forall i | 0 <= i < |path| ensures path[i] !in "?#;" {
      if 1 <= i < 1 + |dir| {
        assert path[i] == dir[i - 1];
      } else if 1 + |dir| <= i < 1 + |dir| + |file| {
        assert path[i] == file[i - 1 - |dir|];
      } else if i > 1 + |dir| + |file| {
        assert path[i] == ext[i - 2 - |dir| - |file|];
      }
    }
    forall i | 0 <= i < |name| ensures name[i] != '/' {
      if i < |file| {
        assert name[i] == file[i];
      } else if i > |file| {
        assert name[i] == ext[i - |file| - 1];
      }
    }
    if Avoids("https://" + host + path + "?" + query, Unsafe) {
      PlainLinkPath(host, path, query);
      PlainPathName(dir, name);
      PlainSuffix(file, ext);
    }
  }
}
