/**
 * Python's `sorted(xs, key=...)` and `xs.sort(key=..., reverse=...)`: a stable sort by
 * a key. Both scripts sort only through these built-ins; the model uses one stable
 * insertion sort, parameterised by the key and a strict total order on keys.
 * `reverse=True` is the same sort with the order flipped (Python keeps it stable).
 */
module Sorting {

  ghost predicate StrictTotalOrder<K(!new)>(lt: (K, K) -> bool) {
    && (forall a :: !lt(a, a))
    && (forall a, b, c :: lt(a, b) && lt(b, c) ==> lt(a, c))
    && (forall a, b :: a == b || lt(a, b) || lt(b, a))
  }

  /** No element is followed by one whose key is strictly smaller. */
  ghost predicate SortedBy<T, K>(s: seq<T>, key: T -> K, lt: (K, K) -> bool) {
    forall i, j :: 0 <= i < j < |s| ==> !lt(key(s[j]), key(s[i]))
  }

  /** The elements of `s` whose key is `k`, in their order in `s`. */
  ghost function WithKey<T, K>(s: seq<T>, key: T -> K, k: K): seq<T> {
    if s == [] then [] else (if key(s[0]) == k then [s[0]] else []) + WithKey(s[1..], key, k)
  }

  /** Inserts `x` in front of the first element whose key is not smaller than x's. */
  function InsertBy<T, K>(x: T, s: seq<T>, key: T -> K, lt: (K, K) -> bool): seq<T> {
    if s == [] then [x]
    else if !lt(key(s[0]), key(x)) then [x] + s
    else [s[0]] + InsertBy(x, s[1..], key, lt)
  }

  function SortBy<T, K>(s: seq<T>, key: T -> K, lt: (K, K) -> bool): seq<T> {
    if s == [] then [] else InsertBy(s[0], SortBy(s[1..], key, lt), key, lt)
  }

  lemma {:induction false} WithKeyAppend<T, K>(a: seq<T>, b: seq<T>, key: T -> K, k: K)
    ensures WithKey(a + b, key, k) == WithKey(a, key, k) + WithKey(b, key, k)
  {
    if a == [] {
      assert a + b == b;
    } else {
      var c := a + b;
      assert c[0] == a[0] && c[1..] == a[1..] + b;
      WithKeyAppend(a[1..], b, key, k);
      var h := if key(a[0]) == k then [a[0]] else [];
      assert WithKey(c, key, k) == h + WithKey(c[1..], key, k);
      assert WithKey(a, key, k) == h + WithKey(a[1..], key, k);
      assert h + (WithKey(a[1..], key, k) + WithKey(b, key, k)) == (h + WithKey(a[1..], key, k)) + WithKey(b, key, k);
    }
  }

  lemma {:induction false} InsertByPermutes<T, K>(x: T, s: seq<T>, key: T -> K, lt: (K, K) -> bool)
    ensures multiset(InsertBy(x, s, key, lt)) == multiset{x} + multiset(s)
  {
    if s != [] && lt(key(s[0]), key(x)) {
      InsertByPermutes(x, s[1..], key, lt);
      assert s == [s[0]] + s[1..];
    }
  }

  lemma {:induction false} InsertBySorted<T, K(!new)>(x: T, s: seq<T>, key: T -> K, lt: (K, K) -> bool)
    requires StrictTotalOrder(lt)
    requires SortedBy(s, key, lt)
    ensures SortedBy(InsertBy(x, s, key, lt), key, lt)
  {
    if s == [] {
    } else if !lt(key(s[0]), key(x)) {
      var r := [x] + s;
      forall i, j | 0 <= i < j < |r| ensures !lt(key(r[j]), key(r[i])) {
        if i == 0 && j > 1 {
          // s[j - 1] is not below s[0], and s[0] is not below x
          assert !lt(key(s[j - 1]), key(s[0]));
        }
      }
    } else {
      var rest := InsertBy(x, s[1..], key, lt);
      InsertBySorted(x, s[1..], key, lt);
      InsertByPermutes(x, s[1..], key, lt);
      var r := [s[0]] + rest;
      forall i, j | 0 <= i < j < |r| ensures !lt(key(r[j]), key(r[i])) {
        if i == 0 {
          var e := rest[j - 1];
          assert e in multiset(rest);
          assert e == x || e in multiset(s[1..]);
          if e == x {
            assert lt(key(s[0]), key(x));
          } else {
            var m :| 0 <= m < |s[1..]| && s[1..][m] == e;
            assert s[m + 1] == e;
          }
        }
      }
    }
  }

  lemma {:induction false} InsertByWithKey<T, K(!new)>(x: T, s: seq<T>, key: T -> K, lt: (K, K) -> bool, k: K)
    requires forall a :: !lt(a, a)
    ensures WithKey(InsertBy(x, s, key, lt), key, k)
         == (if key(x) == k then [x] else []) + WithKey(s, key, k)
  {
    if s == [] {
    } else if !lt(key(s[0]), key(x)) {
      assert ([x] + s)[1..] == s;
    } else {
      var rest := InsertBy(x, s[1..], key, lt);
      assert ([s[0]] + rest)[1..] == rest;
      InsertByWithKey(x, s[1..], key, lt, k);
      var head := if key(s[0]) == k then [s[0]] else [];
      var mine := if key(x) == k then [x] else [];
      assert key(s[0]) != key(x) by {
        assert lt(key(s[0]), key(x)) && !lt(key(x), key(x));
      }
      assert head == [] || mine == [];
      calc {
        WithKey(InsertBy(x, s, key, lt), key, k);
        head + WithKey(rest, key, k);
        head + (mine + WithKey(s[1..], key, k));
        { assert head + mine == mine + head; }
        mine + (head + WithKey(s[1..], key, k));
        mine + WithKey(s, key, k);
      }
    }
  }

  /** Sorting yields a permutation of the input. */
  lemma {:induction false} SortByPermutes<T, K>(s: seq<T>, key: T -> K, lt: (K, K) -> bool)
    ensures multiset(SortBy(s, key, lt)) == multiset(s)
  {
    if s != [] {
      SortByPermutes(s[1..], key, lt);
      InsertByPermutes(s[0], SortBy(s[1..], key, lt), key, lt);
      assert s == [s[0]] + s[1..];
    }
  }

  /** Sorting yields a sequence ordered by key. */
  lemma {:induction false} SortBySorted<T, K(!new)>(s: seq<T>, key: T -> K, lt: (K, K) -> bool)
    requires StrictTotalOrder(lt)
    ensures SortedBy(SortBy(s, key, lt), key, lt)
  {
    if s != [] {
      SortBySorted(s[1..], key, lt);
      InsertBySorted(s[0], SortBy(s[1..], key, lt), key, lt);
    }
  }

  /** Stability: for every key, the elements carrying it keep their input order. */
  lemma {:induction false} SortByStable<T, K(!new)>(s: seq<T>, key: T -> K, lt: (K, K) -> bool, k: K)
    requires forall a :: !lt(a, a)
    ensures WithKey(SortBy(s, key, lt), key, k) == WithKey(s, key, k)
  {
    if s != [] {
      SortByStable(s[1..], key, lt, k);
      InsertByWithKey(s[0], SortBy(s[1..], key, lt), key, lt, k);
    }
  }

  /** The first element of `s` whose key is `k` heads `WithKey(s, key, k)`. */
  lemma {:induction false} WithKeyHead<T, K>(s: seq<T>, key: T -> K, k: K)
    requires WithKey(s, key, k) != []
    ensures exists i :: 0 <= i < |s| && s[i] == WithKey(s, key, k)[0] && key(s[i]) == k
                      && forall j :: 0 <= j < i ==> key(s[j]) != k
  {
    if key(s[0]) != k {
      WithKeyHead(s[1..], key, k);
      var i :| 0 <= i < |s[1..]| && s[1..][i] == WithKey(s[1..], key, k)[0] && key(s[1..][i]) == k
               && forall j :: 0 <= j < i ==> key(s[1..][j]) != k;
      assert s[i + 1] == WithKey(s, key, k)[0];
      forall j | 0 <= j < i + 1 ensures key(s[j]) != k {
        if j > 0 { assert s[j] == s[1..][j - 1]; }
      }
    }
  }

  /** The head of the sorted sequence is the first element with its key. */
  lemma SortByHeadFirstOfKey<T, K(!new)>(s: seq<T>, key: T -> K, lt: (K, K) -> bool)
    requires forall a :: !lt(a, a)
    requires s != []
    ensures |SortBy(s, key, lt)| == |s|
    ensures var r := SortBy(s, key, lt);
      WithKey(s, key, key(r[0])) != [] && WithKey(s, key, key(r[0]))[0] == r[0]
  {
    var r := SortBy(s, key, lt);
    SortByPermutes(s, key, lt);
    assert |multiset(r)| == |multiset(s)|;
    var k := key(r[0]);
    SortByStable(s, key, lt, k);
    assert r == [r[0]] + r[1..];
    assert WithKey(r, key, k) == [r[0]] + WithKey(r[1..], key, k);
  }

  /** No element of the input has a key below that of the sorted sequence's head. */
  lemma SortByHeadLeast<T, K(!new)>(s: seq<T>, key: T -> K, lt: (K, K) -> bool)
    requires StrictTotalOrder(lt)
    requires s != []
    ensures |SortBy(s, key, lt)| == |s|
    ensures forall j :: 0 <= j < |s| ==> !lt(key(s[j]), key(SortBy(s, key, lt)[0]))
  {
    var r := SortBy(s, key, lt);
    SortByPermutes(s, key, lt);
    assert |multiset(r)| == |multiset(s)|;
    SortBySorted(s, key, lt);
    forall j | 0 <= j < |s| ensures !lt(key(s[j]), key(r[0])) {
      assert s[j] in multiset(r);
      var m :| 0 <= m < |r| && r[m] == s[j];
    }
  }

  /**
   * The head of the sorted sequence is the FIRST input element among those whose key is
   * least: what `sorted(xs, key=...)[0]` picks.
   */
  lemma SortByHead<T, K(!new)>(s: seq<T>, key: T -> K, lt: (K, K) -> bool)
    requires StrictTotalOrder(lt)
    requires s != []
    ensures exists i :: 0 <= i < |s| && SortBy(s, key, lt)[0] == s[i]
                      && (forall j :: 0 <= j < |s| ==> !lt(key(s[j]), key(s[i])))
                      && (forall j :: 0 <= j < i ==> key(s[j]) != key(s[i]))
  {
    SortByHeadFirstOfKey(s, key, lt);
    SortByHeadLeast(s, key, lt);
    var k := key(SortBy(s, key, lt)[0]);
    WithKeyHead(s, key, k);
    var i :| 0 <= i < |s| && s[i] == WithKey(s, key, k)[0] && key(s[i]) == k
             && forall j :: 0 <= j < i ==> key(s[j]) != k;
  }
}
