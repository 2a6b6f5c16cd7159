/**
 * The one random draw used by the screens: `Math.floor(Math.random() * n)`.
 * `Math.random()` is an input here, a real number in [0, 1).
 */
module Random {

  /** A draw of the random source: a number in [0, 1). */
  predicate IsDraw(r: real) {
    0.0 <= r < 1.0
  }

  /** The index picked from a list of `n` elements by the draw `r`. */
  function PickIndex(r: real, n: nat): (i: nat)
    requires IsDraw(r)
    requires n > 0
    ensures i < n
    ensures i as real <= r * n as real < (i + 1) as real
  {
    var x := r * n as real;
    assert 0.0 <= x < n as real by {
      assert n as real - x == (1.0 - r) * n as real;
    }
    x.Floor
  }

  /**
   * Every index owns a slice of width 1/n of the draws: the pick is uniform
   * whenever the draw is.
   */
  lemma PickIndexFair(r: real, n: nat, i: nat)
    requires IsDraw(r)
    requires n > 0
    ensures PickIndex(r, n) == i <==> (i as real) / (n as real) <= r < ((i + 1) as real) / (n as real)
  {
  }
}
