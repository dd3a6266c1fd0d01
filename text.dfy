/**
 * The string helpers of both scripts: the id extractor (`extract_vimeo_id` and its twin
 * `extrair_id`), `safe_filename`, `nome_limpo` (here CleanName), Python's string order and
 * the lower-casing used for sort keys.
 *
 * Python's Unicode character classes are modelled on ASCII plus Latin-1:
 * IsSpace is `str.isspace`, IsAlnum is `str.isalnum` and LowerChar is `str.lower` on that range.
 */
module Text {
  import opened Wrappers
  import Sorting

  predicate IsSpace(c: char) {
    c == ' ' || ('\t' <= c <= '\r') || ('\U{1C}' <= c <= '\U{1F}') || c == '\U{85}' || c == '\U{A0}'
  }

  predicate IsAlnum(c: char) {
    || ('a' <= c <= 'z') || ('A' <= c <= 'Z') || ('0' <= c <= '9')
    || c == '\U{AA}' || c == '\U{B2}' || c == '\U{B3}' || c == '\U{B5}' || c == '\U{B9}' || c == '\U{BA}'
    || ('\U{BC}' <= c <= '\U{BE}')
    || ('\U{C0}' <= c <= '\U{FF}' && c != '\U{D7}' && c != '\U{F7}')
  }

  function LowerChar(c: char): char {
    if ('A' <= c <= 'Z') || ('\U{C0}' <= c <= '\U{DE}' && c != '\U{D7}') then (c as int + 32) as char else c
  }

  /** `str.lower()`. */
  function Lower(s: string): (r: string)
    ensures |r| == |s|
    ensures forall i :: 0 <= i < |s| ==> r[i] == LowerChar(s[i])
  {
    if s == [] then [] else [LowerChar(s[0])] + Lower(s[1..])
  }

  /** `s.startswith(p)`. */
  predicate StartsWith(s: string, p: string) {
    |p| <= |s| && s[..|p|] == p
  }

  // ---------------------------------------------------------------------------
  // Identifier extraction: `uri.rstrip("/").split("/")[-1]`

  /** `s.rstrip("/")`. */
  function TrimTrailingSlashes(s: string): string {
    if s != [] && s[|s| - 1] == '/' then TrimTrailingSlashes(s[..|s| - 1]) else s
  }

  /** The result is the input without its trailing run of slashes. */
  lemma {:induction false} TrimTrailingSlashesSpec(s: string)
    ensures var r := TrimTrailingSlashes(s);
      && |r| <= |s| && r == s[..|r|]
      && (r == [] || r[|r| - 1] != '/')
      && forall i :: |r| <= i < |s| ==> s[i] == '/'
  {
    if s != [] && s[|s| - 1] == '/' {
      TrimTrailingSlashesSpec(s[..|s| - 1]);
    }
  }

  /** `r` is the last '/'-separated piece of `s`: a suffix of it with no '/', preceded by '/' or by nothing. */
  ghost predicate IsLastSegment(s: string, r: string) {
    && |r| <= |s|
    && s[|s| - |r|..] == r
    && '/' !in r
    && (|r| == |s| || s[|s| - |r| - 1] == '/')
  }

  /** `s.split("/")[-1]`. */
  function AfterLastSlash(s: string): string {
    if s == [] || s[|s| - 1] == '/' then [] else AfterLastSlash(s[..|s| - 1]) + [s[|s| - 1]]
  }

  lemma {:induction false} AfterLastSlashSpec(s: string)
    ensures IsLastSegment(s, AfterLastSlash(s))
  {
    if s != [] && s[|s| - 1] != '/' {
      var p := s[..|s| - 1];
      var init := AfterLastSlash(p);
      AfterLastSlashSpec(p);
      var r := init + [s[|s| - 1]];
      assert AfterLastSlash(s) == r;
      assert s[|s| - |r|..|s| - 1] == p[|p| - |init|..] == init;
      assert s[|s| - |r|..] == s[|s| - |r|..|s| - 1] + [s[|s| - 1]];
      if |r| < |s| {
        assert s[|s| - |r| - 1] == p[|p| - |init| - 1];
      }
    }
  }

  /** The last piece of a string is determined: IsLastSegment describes AfterLastSlash exactly. */
  lemma LastSegmentUnique(s: string, r1: string, r2: string)
    requires IsLastSegment(s, r1) && IsLastSegment(s, r2)
    ensures r1 == r2
  {
  }

  /** `extract_vimeo_id` / `extrair_id`. */
  function ExtractId(uri: Option<string>): (r: string)
    ensures uri.None? || uri.value == [] ==> r == "?"
    ensures uri.Some? && uri.value != [] ==> '/' !in r
  {
    if uri.None? || uri.value == [] then "?"
    else
      var t := TrimTrailingSlashes(uri.value);
      AfterLastSlashSpec(t);
      AfterLastSlash(t)
  }

  /** "?" for a missing or empty uri; otherwise the last segment once trailing slashes are gone, which holds no '/'. */
  lemma ExtractIdSpec(uri: Option<string>)
    ensures uri.None? || uri.value == [] ==> ExtractId(uri) == "?"
    ensures uri.Some? && uri.value != [] ==>
              IsLastSegment(TrimTrailingSlashes(uri.value), ExtractId(uri)) && '/' !in ExtractId(uri)
  {
    if uri.Some? && uri.value != [] {
      AfterLastSlashSpec(TrimTrailingSlashes(uri.value));
    }
  }

  /** `n` copies of `c`, such as a run of trailing slashes or of leading zeros. */
  function Repeat(c: char, n: nat): (r: string)
    ensures |r| == n && forall i :: 0 <= i < n ==> r[i] == c
  {
    if n == 0 then [] else Repeat(c, n - 1) + [c]
  }

  lemma {:induction false} TrimSlashesOf(core: string, n: nat)
    requires core != [] && core[|core| - 1] != '/'
    ensures TrimTrailingSlashes(core + Repeat('/', n)) == core
  {
    if n > 0 {
      var shorter := core + Repeat('/', n - 1);
      assert core + Repeat('/', n) == shorter + "/";
      assert (shorter + "/")[..|shorter|] == shorter;
      TrimSlashesOf(core, n - 1);
    }
  }

  /** A resource reference `<prefix>/<id>` followed by any number of slashes yields `<id>`. */
  lemma ExtractIdOfReference(prefix: string, id: string, n: nat)
    requires id != [] && '/' !in id
    ensures ExtractId(Some(prefix + "/" + id + Repeat('/', n))) == id
  {
    var core := prefix + "/" + id;
    assert core[|core| - 1] == id[|id| - 1];
    TrimSlashesOf(core, n);
    assert IsLastSegment(core, id) by {
      assert core[|core| - |id|..] == id;
      assert core[|core| - |id| - 1] == '/';
    }
    AfterLastSlashSpec(core);
    LastSegmentUnique(core, id, ExtractId(Some(core + Repeat('/', n))));
  }

  // ---------------------------------------------------------------------------
  // safe_filename: replace every character outside [alnum, ' ', '-', '_', '.'] by '_', then strip()

  predicate SafeChar(c: char) {
    IsAlnum(c) || c == ' ' || c == '-' || c == '_' || c == '.'
  }

  function Sanitize(s: string): (r: string)
    ensures |r| == |s|
    ensures forall i :: 0 <= i < |r| ==> SafeChar(r[i])
    ensures forall i :: 0 <= i < |s| ==> r[i] == (if SafeChar(s[i]) then s[i] else '_')
  {
    if s == [] then [] else [if SafeChar(s[0]) then s[0] else '_'] + Sanitize(s[1..])
  }

  /** `s.lstrip()`. */
  function StripLeading(s: string): (r: string)
    ensures |r| <= |s| && r == s[|s| - |r|..]
    ensures forall i :: 0 <= i < |s| - |r| ==> IsSpace(s[i])
    ensures r == [] || !IsSpace(r[0])
  {
    if s != [] && IsSpace(s[0]) then StripLeading(s[1..]) else s
  }

  /** `s.rstrip()`. */
  function StripTrailing(s: string): (r: string)
    ensures |r| <= |s| && r == s[..|r|]
    ensures forall i :: |r| <= i < |s| ==> IsSpace(s[i])
    ensures r == [] || !IsSpace(r[|r| - 1])
  {
    if s != [] && IsSpace(s[|s| - 1]) then StripTrailing(s[..|s| - 1]) else s
  }

  /** `r` is `s[a..b]`, and everything `s` holds outside that slice is whitespace. */
  predicate TrimmedAt(s: string, r: string, a: int, b: int) {
    && 0 <= a <= b <= |s|
    && r == s[a..b]
    && (forall i :: 0 <= i < a ==> IsSpace(s[i]))
    && (forall i :: b <= i < |s| ==> IsSpace(s[i]))
  }

  /** `s.strip()`: the slice of `s` left once the whitespace at both ends is gone. */
  function Strip(s: string): (r: string)
    ensures exists a, b :: TrimmedAt(s, r, a, b)
    ensures r == [] || (!IsSpace(r[0]) && !IsSpace(r[|r| - 1]))
  {
    var l := StripLeading(s);
    var r := StripTrailing(l);
    TrimmedOfParts(s, l, r);
    r
  }

  /** A leading strip followed by a trailing strip leaves a slice with whitespace outside it. */
  lemma TrimmedOfParts(s: string, l: string, r: string)
    requires |l| <= |s| && l == s[|s| - |l|..]
    requires forall i :: 0 <= i < |s| - |l| ==> IsSpace(s[i])
    requires |r| <= |l| && r == l[..|r|]
    requires forall i :: |r| <= i < |l| ==> IsSpace(l[i])
    ensures TrimmedAt(s, r, |s| - |l|, |s| - |l| + |r|)
  {
    var a := |s| - |l|;
    forall i | a + |r| <= i < |s| ensures IsSpace(s[i]) {
      assert s[i] == l[i - a];
    }
  }

  /**
   * `safe_filename`: the sanitised name with the whitespace at both ends stripped, so only
   * safe characters and no space at either end.
   */
  function SafeFilename(name: string): (r: string)
    ensures exists a, b :: TrimmedAt(Sanitize(name), r, a, b)
    ensures forall i :: 0 <= i < |r| ==> SafeChar(r[i])
    ensures r == [] || (!IsSpace(r[0]) && !IsSpace(r[|r| - 1]))
  {
    var m := Sanitize(name);
    var r := Strip(m);
    SafeSlice(m, r);
    r
  }

  lemma SafeSlice(m: string, r: string)
    requires forall i :: 0 <= i < |m| ==> SafeChar(m[i])
    requires exists a, b :: TrimmedAt(m, r, a, b)
    ensures forall i :: 0 <= i < |r| ==> SafeChar(r[i])
  {
    var a, b :| TrimmedAt(m, r, a, b);
    forall i | 0 <= i < |r| ensures SafeChar(r[i]) {
      assert r[i] == m[a + i];
    }
  }

  lemma SafeNonBlankIsNotSpace(c: char)
    requires SafeChar(c) && c != ' '
    ensures !IsSpace(c)
  {
  }

  /** A sanitised name is a fixed point: applying safe_filename again changes nothing. */
  lemma SafeFilenameIdempotent(name: string)
    ensures SafeFilename(SafeFilename(name)) == SafeFilename(name)
  {
    var r := SafeFilename(name);
    assert Sanitize(r) == r;
    if r != [] {
      SafeNonBlankIsNotSpace(r[0]);
      SafeNonBlankIsNotSpace(r[|r| - 1]);
    }
    assert StripLeading(r) == r;
    assert StripTrailing(r) == r;
  }

  // ---------------------------------------------------------------------------
  // nome_limpo: `" ".join(valor.split())`, or the fallback when valor is None or ""

  predicate NoSpace(w: string) {
    forall i :: 0 <= i < |w| ==> !IsSpace(w[i])
  }

  /** Length of the leading run of non-whitespace characters. */
  function WordLen(s: string): (n: nat)
    ensures n <= |s|
    ensures forall i :: 0 <= i < n ==> !IsSpace(s[i])
    ensures n == |s| || IsSpace(s[n])
  {
    if s == [] || IsSpace(s[0]) then 0 else 1 + WordLen(s[1..])
  }

  /** `s.split()`: the maximal runs of non-whitespace characters. */
  function Words(s: string): (ws: seq<string>)
    ensures forall w :: w in ws ==> w != [] && NoSpace(w)
    decreases |s|
  {
    if s == [] then []
    else if IsSpace(s[0]) then Words(s[1..])
    else
      var n := WordLen(s);
      [s[..n]] + Words(s[n..])
  }

  /** `" ".join(ws)`. */
  function JoinWords(ws: seq<string>): string {
    if ws == [] then [] else if |ws| == 1 then ws[0] else ws[0] + " " + JoinWords(ws[1..])
  }

  /** Single spaces between non-empty words: no other whitespace, none at the ends, none doubled. */
  ghost predicate Normalised(r: string) {
    && (forall i :: 0 <= i < |r| ==> r[i] == ' ' || !IsSpace(r[i]))
    && (r != [] ==> r[0] != ' ' && r[|r| - 1] != ' ')
    && (forall i :: 0 <= i < |r| - 1 ==> r[i] != ' ' || r[i + 1] != ' ')
  }

  ghost predicate ProperWords(ws: seq<string>) {
    forall w :: w in ws ==> w != [] && NoSpace(w)
  }

  lemma {:induction false} JoinWordsNormalised(ws: seq<string>)
    requires ProperWords(ws)
    ensures Normalised(JoinWords(ws))
    ensures ws != [] ==> JoinWords(ws) != [] && JoinWords(ws)[0] == ws[0][0]
  {
    if |ws| == 1 {
      assert ws[0] in ws;
    } else if |ws| > 1 {
      var w := ws[0];
      assert w in ws;
      var rest := JoinWords(ws[1..]);
      assert ProperWords(ws[1..]) by {
        forall v | v in ws[1..] ensures v != [] && NoSpace(v) { assert v in ws; }
      }
      JoinWordsNormalised(ws[1..]);
      var r := w + " " + rest;
      assert r == JoinWords(ws);
      forall i | 0 <= i < |r| ensures r[i] == ' ' || !IsSpace(r[i]) {
        if i > |w| { assert r[i] == rest[i - |w| - 1]; }
      }
      forall i | 0 <= i < |r| - 1 ensures r[i] != ' ' || r[i + 1] != ' ' {
        if i > |w| { assert r[i] == rest[i - |w| - 1] && r[i + 1] == rest[i - |w|]; }
        else if i == |w| { assert r[i + 1] == rest[0]; }
      }
      assert r[|r| - 1] == rest[|rest| - 1];
    }
  }

  lemma {:induction false} WordLenBeforeSpace(w: string, tail: string)
    requires NoSpace(w) && tail != [] && IsSpace(tail[0])
    ensures WordLen(w + tail) == |w|
  {
    if w == [] {
      assert w + tail == tail;
    } else {
      assert (w + tail)[1..] == w[1..] + tail;
      WordLenBeforeSpace(w[1..], tail);
    }
  }

  lemma {:induction false} WordsOfJoin(ws: seq<string>)
    requires ProperWords(ws)
    ensures Words(JoinWords(ws)) == ws
  {
    if |ws| == 1 {
      var w := ws[0];
      assert w in ws;
      assert WordLen(w) == |w|;
      assert w[..|w|] == w && w[|w|..] == [];
      assert Words(w) == [w] + Words([]);
    } else if |ws| > 1 {
      var w := ws[0];
      assert w in ws;
      var rest := JoinWords(ws[1..]);
      var s := w + " " + rest;
      assert ProperWords(ws[1..]) by {
        forall v | v in ws[1..] ensures v != [] && NoSpace(v) { assert v in ws; }
      }
      WordsOfJoin(ws[1..]);
      WordLenBeforeSpace(w, " " + rest);
      assert s[..|w|] == w;
      assert s[|w|..] == " " + rest;
      assert (" " + rest)[1..] == rest;
    }
  }

  /**
   * `nome_limpo`: the fallback when the value is None or empty; otherwise the value's words
   * joined by single spaces (a value of only whitespace gives "", not the fallback).
   */
  function CleanName(value: Option<string>, fallback: string): (r: string)
    ensures value.None? || value.value == [] ==> r == fallback
    ensures value.Some? && value.value != [] ==> Normalised(r)
  {
    if value.None? || value.value == [] then fallback
    else
      JoinWordsNormalised(Words(value.value));
      JoinWords(Words(value.value))
  }

  /** The cleaned name is normalised and has the value's words, in order. */
  lemma CleanNameSpec(value: Option<string>, fallback: string)
    ensures value.None? || value.value == [] ==> CleanName(value, fallback) == fallback
    ensures value.Some? && value.value != [] ==>
              var r := CleanName(value, fallback);
              Normalised(r) && Words(r) == Words(value.value)
  {
    if value.Some? && value.value != [] {
      var ws := Words(value.value);
      JoinWordsNormalised(ws);
      WordsOfJoin(ws);
    }
  }

  /** Cleaning a cleaned, non-empty name leaves it unchanged. */
  lemma CleanNameIdempotent(value: Option<string>, fallback: string, fallback': string)
    requires value.Some? && value.value != []
    requires CleanName(value, fallback) != []
    ensures CleanName(Some(CleanName(value, fallback)), fallback') == CleanName(value, fallback)
  {
    var r := CleanName(value, fallback);
    CleanNameSpec(value, fallback);
    assert CleanName(Some(r), fallback') == JoinWords(Words(r));
  }

  /** The fallback is consulted only for a missing or empty value. */
  lemma CleanNameIgnoresFallback(value: string, fallback: string, fallback': string)
    requires value != []
    ensures CleanName(Some(value), fallback) == CleanName(Some(value), fallback')
  {
  }

  // ---------------------------------------------------------------------------
  // Python's string order (code point by code point), used by every name sort

  predicate StrLt(a: string, b: string)
    decreases |a|
  {
    if a == [] then b != []
    else if b == [] then false
    else a[0] < b[0] || (a[0] == b[0] && StrLt(a[1..], b[1..]))
  }

  lemma {:induction false} StrLtIrreflexive(a: string)
    ensures !StrLt(a, a)
  {
    if a != [] { StrLtIrreflexive(a[1..]); }
  }

  lemma {:induction false} StrLtTransitive(a: string, b: string, c: string)
    requires StrLt(a, b) && StrLt(b, c)
    ensures StrLt(a, c)
  {
    if a != [] && b != [] && c != [] && a[0] == b[0] == c[0] {
      StrLtTransitive(a[1..], b[1..], c[1..]);
    }
  }

  lemma {:induction false} StrLtTotal(a: string, b: string)
    ensures a == b || StrLt(a, b) || StrLt(b, a)
  {
    if a != [] && b != [] && a[0] == b[0] {
      StrLtTotal(a[1..], b[1..]);
      if a[1..] == b[1..] {
        assert a == [a[0]] + a[1..] && b == [b[0]] + b[1..];
      }
    }
  }

  lemma StrLtIsStrictTotalOrder()
    ensures Sorting.StrictTotalOrder(StrLt)
  {
    forall a ensures !StrLt(a, a) { StrLtIrreflexive(a); }
    forall a, b, c | StrLt(a, b) && StrLt(b, c) ensures StrLt(a, c) { StrLtTransitive(a, b, c); }
    forall a, b ensures a == b || StrLt(a, b) || StrLt(b, a) { StrLtTotal(a, b); }
  }
}
