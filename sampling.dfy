/**
 * Random utilities of the starfield: `randomBetween` and the colour palette.
 * Every draw of Math.random() is an input of type Uniform, so the model is
 * total and deterministic in its draws.
 */
module Sampling {

  /** A value Math.random() can return: a real in [0, 1). */
  type Uniform = u: real | 0.0 <= u < 1.0 witness 0.0

  /** Math.PI, as the decimal literal of the double the runtime uses. */
  const PI: real := 3.141592653589793

  /** The five star and particle colours. */
  const COLORS: seq<string> := ["#ffffff", "#d0e6f7", "#a6d0ff", "#f0f8ff", "#cce7ff"]

  /**
   * v is a value randomBetween(lo, hi) can produce for lo <= hi: a point of
   * the half-open range [lo, hi), or lo itself when the range is empty.
   */
  predicate Sampled(v: real, lo: real, hi: real) {
    (lo <= v < hi) || (v == lo && lo == hi)
  }

  /** randomBetween(min, max), with the Math.random() draw passed in as u. */
  function RandomBetween(u: Uniform, lo: real, hi: real): (r: real)
    ensures lo <= hi ==> Sampled(r, lo, hi)
    ensures hi < lo ==> hi < r <= lo
  {
    var d := hi - lo;
    assert 0.0 < d ==> u * d < d by {
      if 0.0 < d { assert d - u * d == (1.0 - u) * d; }
    }
    assert d < 0.0 ==> d < u * d by {
      if d < 0.0 { assert u * d - d == (1.0 - u) * (0.0 - d); }
    }
    u * d + lo
  }

  /** Conversely, every value of the range is produced by some draw. */
  lemma RandomBetweenReachesRange(v: real, lo: real, hi: real)
    requires lo <= hi && Sampled(v, lo, hi)
    ensures exists u: Uniform :: RandomBetween(u, lo, hi) == v
  {
    if lo == hi {
      assert RandomBetween(0.0, lo, hi) == v;
    } else {
      var q := UnitQuotient(v - lo, hi - lo);
      var u: Uniform := q;
      assert RandomBetween(u, lo, hi) == v;
    }
  }

  /** The draw that lands on a given offset n into a range of width d. */
  lemma UnitQuotient(n: real, d: real) returns (q: real)
    requires 0.0 <= n < d
    ensures 0.0 <= q < 1.0 && q * d == n
  {
    q := n / d;
    assert (1.0 - q) * d == d - n;
  }

  /** Math.floor(randomBetween(0, COLORS.length)): the palette index a draw selects. */
  function ColorIndex(u: Uniform): (i: int)
    ensures 0 <= i < |COLORS|
  {
    RandomBetween(u, 0.0, |COLORS| as real).Floor
  }

  /** Uniform selection: colour i is chosen exactly by the draws in [i/5, (i+1)/5). */
  lemma ColorIndexSlice(u: Uniform, i: int)
    requires 0 <= i < |COLORS|
    ensures ColorIndex(u) == i <==> i as real / 5.0 <= u < (i + 1) as real / 5.0
  {
    assert RandomBetween(u, 0.0, |COLORS| as real) == 5.0 * u;
  }

  /** COLORS[Math.floor(randomBetween(0, COLORS.length))]. */
  function PickColor(u: Uniform): (c: string)
    ensures c in COLORS
  {
    COLORS[ColorIndex(u)]
  }
}
