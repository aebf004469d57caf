/** Stage two of the handler: a list longer than `max` is cut down by keeping
    every `s`-th element, `s = ceil(n / max)`, starting from the first. */
module Thinning {

  /** `Math.ceil(n / d)` on naturals, counted out as the number of steps of
      `d` needed to cover `n`. */
  function CeilDiv(n: nat, d: nat): (q: nat)
    requires d > 0
    ensures q <= n
    ensures n > 0 <==> q > 0
    ensures n <= d ==> q <= 1
    decreases n
  {
    if n == 0 then 0 else if n <= d then 1 else 1 + CeilDiv(n - d, d)
  }

  /** `CeilDiv(n, d)` is the ceiling of `n / d`: the least `q` with `q * d >= n`. */
  lemma {:induction false} CeilDivIsCeiling(n: nat, d: nat)
    requires d > 0
    ensures CeilDiv(n, d) * d >= n
    ensures CeilDiv(n, d) == 0 || (CeilDiv(n, d) - 1) * d < n
    decreases n
  {
    if n > d {
      CeilDivIsCeiling(n - d, d);
      var q := CeilDiv(n - d, d);
      assert (q + 1) * d == q * d + d;
    }
  }

  /** Multiplying by a natural number keeps the order. */
  lemma MulMonotone(a: int, b: int, s: nat)
    requires a <= b
    ensures a * s <= b * s
  {
    assert b * s - a * s == (b - a) * s;
  }

  /** A strict inequality between multiples of the same factor holds between the
      multiplied numbers. */
  lemma MulCancel(a: int, b: int, s: nat)
    requires a * s < b * s
    ensures a < b
  {
    assert (b - a) * s == b * s - a * s;
  }

  /** `ceil(n / d)` is the only `q` with `(q - 1) * d < n <= q * d`. */
  lemma CeilUnique(n: nat, d: nat, q: nat)
    requires d > 0
    requires q * d >= n
    requires q == 0 || (q - 1) * d < n
    ensures q == CeilDiv(n, d)
  {
    CeilDivIsCeiling(n, d);
    var c := CeilDiv(n, d);
    if q < c {
      MulMonotone(q, c - 1, d);
    } else if q > c {
      MulMonotone(c, q - 1, d);
    }
  }

  /** The successor of an exact multiple `m` of `s` needs one more step of `s`
      than `m` itself; every other successor needs the same number. */
  lemma CeilStep(m: nat, s: nat)
    requires s > 0
    ensures m % s == 0 ==> CeilDiv(m + 1, s) == CeilDiv(m, s) + 1 && CeilDiv(m, s) * s == m
    ensures m % s != 0 ==> CeilDiv(m + 1, s) == CeilDiv(m, s)
  {
    var j := m / s;
    var r := m % s;
    assert m == j * s + r;
    if r == 0 {
      CeilUnique(m, s, j);
      assert (j + 1) * s == j * s + s;
      CeilUnique(m + 1, s, j + 1);
    } else {
      assert (j + 1) * s == j * s + s;
      CeilUnique(m, s, j + 1);
      CeilUnique(m + 1, s, j + 1);
    }
  }

  /** The elements of `xs` whose index is a multiple of `s`, in order: the array
      `filter((_, i) => i % s === 0)`, built up one index at a time. */
  function EveryNth<T>(xs: seq<T>, s: nat): (r: seq<T>)
    requires s > 0
    // exactly ceil(|xs| / s) elements are kept ...
    ensures |r| == CeilDiv(|xs|, s)
    // ... and the k-th of them is the element at index k * s
    ensures forall k :: 0 <= k < |r| ==> k * s < |xs| && r[k] == xs[k * s]
    decreases |xs|
  {
    if |xs| == 0 then []
    else
      var m := |xs| - 1;
      var before := EveryNth(xs[..m], s);
      CeilStep(m, s);
      assert forall k :: 0 <= k < |before| ==> k * s < m by {
        forall k | 0 <= k < |before|
          ensures k * s < m
        {
          MulMonotone(k, |before| - 1, s);
        }
      }
      if m % s == 0 then
        before + [xs[m]]
      else
        before
  }

  /** The stride the handler uses for `n` features and a cap of `max`. */
  function Stride(n: nat, max: nat): (s: nat)
    requires max > 0
    // a non-empty list gets a positive stride, and a list over the cap skips elements
    ensures n > 0 ==> s >= 1
    ensures n > max ==> s >= 2
    ensures n <= max ==> s <= 1
  {
    CeilDiv(n, max)
  }

  /** The thinning stage: the identity up to `max` elements, every
      `Stride(n, max)`-th element beyond. */
  function Thin<T>(xs: seq<T>, max: nat): (r: seq<T>)
    requires max > 0
    ensures |xs| <= max ==> r == xs
    ensures |xs| > max ==> Stride(|xs|, max) >= 2
    ensures |xs| > max ==>
      && |r| == CeilDiv(|xs|, Stride(|xs|, max))
      && forall k :: 0 <= k < |r| ==> k * Stride(|xs|, max) < |xs| && r[k] == xs[k * Stride(|xs|, max)]
    // the first element always survives, and nothing new appears
    ensures |xs| > 0 ==> |r| > 0 && r[0] == xs[0]
    ensures forall x :: x in r ==> x in xs
  {
    if |xs| > max then
      var s := Stride(|xs|, max);
      CeilDivIsCeiling(|xs|, max);
      assert s >= 2 by {
        if s < 2 {
          MulMonotone(s, 1, max);
        }
      }
      var r := EveryNth(xs, s);
      assert r[0] == xs[0 * s];
      r
    else
      xs
  }

  /** The bound the stage exists for: with `s = ceil(n / max)`, the multiples of
      `s` below `n` number at most `max`, so no output exceeds the cap. */
  lemma ThinBound<T>(xs: seq<T>, max: nat)
    requires max > 0
    ensures |Thin(xs, max)| <= max
  {
    var n := |xs|;
    if n > max {
      var s := Stride(n, max);
      var q := CeilDiv(n, s);
      assert |Thin(xs, max)| == q;
      CeilDivIsCeiling(n, max);
      assert n <= s * max;
      CeilDivIsCeiling(n, s);
      assert (q - 1) * s < n;
      // (q - 1) * s < n <= s * max, hence q - 1 < max
      assert (q - 1) * s < max * s;
      MulCancel(q - 1, max, s);
    }
  }

  /** Thinning an already thinned list changes nothing. */
  lemma ThinIdempotent<T>(xs: seq<T>, max: nat)
    requires max > 0
    ensures Thin(Thin(xs, max), max) == Thin(xs, max)
  {
    ThinBound(xs, max);
  }

  /** The `filter` call with its index test written as the loop it performs. */
  method ThinByFilter<T>(xs: seq<T>, max: nat) returns (thinned: seq<T>)
    requires max > 0
    ensures thinned == Thin(xs, max)
  {
    if |xs| <= max {
      return xs;
    }
    var s := Stride(|xs|, max);
    thinned := [];
    for i := 0 to |xs|
      invariant thinned == EveryNth(xs[..i], s)
    {
      assert xs[..i + 1][..i] == xs[..i];
      if i % s == 0 {
        thinned := thinned + [xs[i]];
      }
    }
    assert xs[..|xs|] == xs;
  }
}
