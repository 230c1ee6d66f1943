/** Sequence helpers shared by the query models. */
module Seqs {

  /** `s.slice(0, n)`, also the effect of a query `limit`. */
  function Take<T>(s: seq<T>, n: nat): (r: seq<T>)
    ensures |r| == if |s| < n then |s| else n
    ensures r <= s
  {
    if |s| <= n then s else s[..n]
  }

  /** The elements of `s` satisfying `p`, in their original order. */
  function Filter<T>(s: seq<T>, p: T -> bool): (r: seq<T>)
    ensures |r| <= |s|
    ensures forall i :: 0 <= i < |r| ==> p(r[i])
    ensures multiset(r) <= multiset(s)
    decreases |s|
  {
    if |s| == 0 then []
    else
      assert s == [s[0]] + s[1..];
      if p(s[0]) then [s[0]] + Filter(s[1..], p) else Filter(s[1..], p)
  }

  /** Filtering distributes over concatenation. */
  lemma {:induction false} FilterConcat<T>(a: seq<T>, b: seq<T>, p: T -> bool)
    ensures Filter(a + b, p) == Filter(a, p) + Filter(b, p)
    decreases |a|
  {
    if |a| == 0 {
      assert a + b == b;
    } else {
      assert (a + b)[0] == a[0];
      assert (a + b)[1..] == a[1..] + b;
      FilterConcat(a[1..], b, p);
    }
  }

  /** The number of elements kept from a concatenation is the sum over its parts. */
  lemma FilterCountConcat<T>(a: seq<T>, b: seq<T>, p: T -> bool)
    ensures |Filter(a + b, p)| == |Filter(a, p)| + |Filter(b, p)|
  {
    FilterConcat(a, b, p);
  }

  /** How many elements a filter keeps depends only on the multiset of elements. */
  lemma {:induction false} FilterCountPermutation<T>(s: seq<T>, t: seq<T>, p: T -> bool)
    requires multiset(s) == multiset(t)
    ensures |Filter(s, p)| == |Filter(t, p)|
    decreases |s|
  {
    if |s| == 0 {
      assert |t| == |multiset(t)| == 0;
    } else {
      var x := s[0];
      assert x in multiset(t);
      var j :| 0 <= j < |t| && t[j] == x;
      var rest := t[..j] + t[j + 1..];
      assert t == t[..j] + [x] + t[j + 1..];
      assert s == [x] + s[1..];
      assert multiset(rest) == multiset(t) - multiset{x};
      assert multiset(s[1..]) == multiset(s) - multiset{x};
      FilterCountPermutation(s[1..], rest, p);
      FilterConcat([x], s[1..], p);
      FilterConcat(t[..j] + [x], t[j + 1..], p);
      FilterConcat(t[..j], [x], p);
      FilterConcat(t[..j], t[j + 1..], p);
    }
  }
}
