/**
 * Order-preserving selection from a list (JavaScript's
 * `Array.prototype.filter`) and a fact about inserting into a list.
 */
module Seqs {

  /** `sub` is `s` with some elements left out and the rest kept in order. */
  predicate IsSubsequence<T(==)>(sub: seq<T>, s: seq<T>)
    decreases |s|
  {
    || |sub| == 0
    || (|s| > 0 && ((sub[0] == s[0] && IsSubsequence(sub[1..], s[1..])) || IsSubsequence(sub, s[1..])))
  }

  /** The number of positions of `s` whose element passes `p`. */
  function CountWhere<T>(s: seq<T>, p: T -> bool): (n: nat)
    ensures n <= |s|
  {
    if |s| == 0 then 0 else (if p(s[0]) then 1 else 0) + CountWhere(s[1..], p)
  }

  /**
   * `s.filter(p)`. Keeping the order, keeping only passing elements and
   * keeping as many as there are passing positions means no passing
   * element is dropped, repeated ones included.
   */
  function Filter<T(==)>(s: seq<T>, p: T -> bool): (r: seq<T>)
    ensures IsSubsequence(r, s)
    ensures forall i :: 0 <= i < |r| ==> r[i] in s && p(r[i])
    ensures forall i :: 0 <= i < |s| && p(s[i]) ==> s[i] in r
    ensures |r| == CountWhere(s, p) <= |s|
  {
    if |s| == 0 then []
    else
      var rest := Filter(s[1..], p);
      if p(s[0]) then
        var r := [s[0]] + rest;
        assert r[1..] == rest;
        r
      else rest
  }

  /** Every passing value occurs in the result exactly as often as in `s`. */
  lemma {:induction false} FilterMultiplicity<T>(s: seq<T>, p: T -> bool, x: T)
    requires p(x)
    ensures multiset(Filter(s, p))[x] == multiset(s)[x]
  {
    if |s| > 0 {
      FilterMultiplicity(s[1..], p, x);
      assert s == [s[0]] + s[1..];
      if p(s[0]) {
        assert Filter(s, p) == [s[0]] + Filter(s[1..], p);
      }
    }
  }

  /** Filtering twice is filtering once by both conditions: the second filter sees the survivors of the first. */
  lemma {:induction false} FilterFilter<T>(s: seq<T>, p: T -> bool, q: T -> bool, pq: T -> bool)
    requires forall x :: pq(x) == (p(x) && q(x))
    ensures Filter(Filter(s, p), q) == Filter(s, pq)
    decreases |s|
  {
    if |s| > 0 {
      FilterFilter(s[1..], p, q, pq);
      if p(s[0]) {
        assert Filter(s, p) == [s[0]] + Filter(s[1..], p);
        assert ([s[0]] + Filter(s[1..], p))[1..] == Filter(s[1..], p);
      }
    }
  }

  /** Deleting position `k + 1` of a list is deleting position `k` of its tail, behind the head. */
  lemma DeleteCons<T>(c: seq<T>, k: nat)
    requires k + 1 < |c|
    ensures [c[0]] + (c[1..][..k] + c[1..][k + 1..]) == c[..k + 1] + c[k + 2..]
  {
    assert c[..k + 1] == [c[0]] + c[1..][..k];
    assert c[k + 2..] == c[1..][k + 1..];
  }

  /** Inserting at position `p + 1` of a list is inserting at `p` of its tail, behind the head. */
  lemma SpliceCons<T>(c: seq<T>, p: nat, e: T)
    requires p < |c|
    ensures [c[0]] + (c[1..][..p] + [e] + c[1..][p..]) == c[..p + 1] + [e] + c[p + 1..]
  {
    assert c[..p + 1] == [c[0]] + c[1..][..p];
    assert c[p + 1..] == c[1..][p..];
  }
}
