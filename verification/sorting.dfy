/** Ordering a sequence by a real-valued key, as Ruby's `sort_by` does. The
    order among elements with equal keys is left open: `sort_by` does not
    promise one. */
module Sorting {

  predicate SortedBy<T>(s: seq<T>, key: T -> real) {
    forall i, j :: 0 <= i < j < |s| ==> key(s[i]) <= key(s[j])
  }

  /** Inserts p before the first element of s with a larger key. */
  function InsertBy<T(==)>(p: T, s: seq<T>, key: T -> real): (r: seq<T>)
    requires SortedBy(s, key)
    ensures SortedBy(r, key)
    ensures multiset(r) == multiset(s) + multiset{p}
    ensures |r| == |s| + 1
    ensures r[0] == p || (|s| > 0 && r[0] == s[0])
  {
    if |s| == 0 || key(p) <= key(s[0]) then
      [p] + s
    else
      var rest := InsertBy(p, s[1..], key);
      assert s == [s[0]] + s[1..];
      assert key(s[0]) <= key(rest[0]) by {
        if rest[0] != p {
          assert rest[0] == s[1];
        }
      }
      [s[0]] + rest
  }

  /** The elements of s ordered by key: a sorted permutation of s. */
  function SortBy<T(==)>(s: seq<T>, key: T -> real): (r: seq<T>)
    ensures SortedBy(r, key)
    ensures multiset(r) == multiset(s)
  {
    if |s| == 0 then []
    else
      assert s == [s[0]] + s[1..];
      InsertBy(s[0], SortBy(s[1..], key), key)
  }

  /** A sorted permutation has the same elements and length as its input. */
  lemma SameElements<T>(s: seq<T>, r: seq<T>)
    requires multiset(r) == multiset(s)
    ensures |r| == |s|
    ensures forall p :: p in r <==> p in s
  {
    assert |r| == |multiset(r)|;
    assert |s| == |multiset(s)|;
    forall p ensures p in r <==> p in s {
      assert p in r <==> p in multiset(r);
      assert p in s <==> p in multiset(s);
    }
  }
}
