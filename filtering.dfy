/** Python's list comprehension with a condition, `[x for x in s if p(x)]`. */
module Filtering {

  function Filter<T>(s: seq<T>, p: T -> bool): (r: seq<T>)
    ensures |r| <= |s|
  {
    if s == [] then [] else (if p(s[0]) then [s[0]] else []) + Filter(s[1..], p)
  }

  /** The comprehension keeps exactly the elements of `s` that satisfy `p`. */
  lemma {:induction false} FilterMembers<T>(s: seq<T>, p: T -> bool, x: T)
    ensures x in Filter(s, p) <==> x in s && p(x)
  {
    if s != [] {
      FilterMembers(s[1..], p, x);
      assert s == [s[0]] + s[1..];
    }
  }

  /**
   * Each kept element comes from some position `k` of the input, and the elements kept
   * before it are exactly those kept from `s[..k]`: the comprehension keeps input order.
   */
  lemma {:induction false} FilterOrigin<T>(s: seq<T>, p: T -> bool, m: nat)
    requires m < |Filter(s, p)|
    ensures exists k :: 0 <= k < |s| && s[k] == Filter(s, p)[m] && p(s[k])
                     && Filter(s[..k], p) == Filter(s, p)[..m]
  {
    var r := Filter(s, p);
    if p(s[0]) && m == 0 {
      assert s[..0] == [];
    } else {
      var m' := if p(s[0]) then m - 1 else m;
      var t := s[1..];
      FilterOrigin(t, p, m');
      var k' :| 0 <= k' < |t| && t[k'] == Filter(t, p)[m'] && p(t[k'])
                && Filter(t[..k'], p) == Filter(t, p)[..m'];
      var k := k' + 1;
      var head := if p(s[0]) then [s[0]] else [];
      assert s[k] == t[k'];
      assert r[m] == s[k] && Filter(s[..k], p) == r[..m] by {
        assert r == head + Filter(t, p);
        ConcatAt(head, Filter(t, p), m');
        assert s[..k] != [] && s[..k][0] == s[0] && s[..k][1..] == t[..k'];
        assert Filter(s[..k], p) == head + Filter(t[..k'], p);
      }
    }
  }

  /** Position |h| + j of h + t, and the prefix before it, come from t. */
  lemma ConcatAt<T>(h: seq<T>, t: seq<T>, j: nat)
    requires j < |t|
    ensures (h + t)[|h| + j] == t[j] && (h + t)[..|h| + j] == h + t[..j]
  {
    assert (h + t)[..|h| + j] == h + t[..j];
  }

  /** Filtering distributes over concatenation: a loop that filters element by element computes it. */
  lemma {:induction false} FilterAppend<T>(a: seq<T>, b: seq<T>, p: T -> bool)
    ensures Filter(a + b, p) == Filter(a, p) + Filter(b, p)
  {
    if a != [] {
      FilterAppend(a[1..], b, p);
      assert (a + b)[1..] == a[1..] + b;
    } else {
      assert a + b == b;
    }
  }
}
