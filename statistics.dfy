/** The reductions `run_benchmark` applies to the repeated runs: the arithmetic mean and the
    population variance (`np.std` without its square root) of a list of values. Both are
    `NaN` on an empty list, as numpy's are. Arithmetic is exact (`real`). */
module Statistics {

  /** A statistic: a number, or `NaN` when the list was empty. */
  datatype Stat = NaN | Num(value: real)

  function Sum(xs: seq<real>): (r: real)
  {
    if |xs| == 0 then 0.0 else Sum(xs[..|xs| - 1]) + xs[|xs| - 1]
  }

  /** `np.mean(xs)`. */
  function Mean(xs: seq<real>): (m: Stat)
    ensures m.NaN? <==> |xs| == 0
    ensures m.Num? ==> m.value * |xs| as real == Sum(xs)
  {
    if |xs| == 0 then NaN else Num(Sum(xs) / |xs| as real)
  }

  function Square(e: real): (r: real)
    ensures r >= 0.0
  {
    e * e
  }

  /** The sum of the squared distances of the values from `m`. */
  function SquaredDeviation(xs: seq<real>, m: real): (r: real)
    ensures r >= 0.0
  {
    if |xs| == 0 then 0.0
    else SquaredDeviation(xs[..|xs| - 1], m) + Square(xs[|xs| - 1] - m)
  }

  /** `np.std(xs) ** 2`: the mean squared distance from the mean, divided by `n` (the
      population formula, not Bessel's `n - 1`). */
  function Variance(xs: seq<real>): (v: Stat)
    ensures v.NaN? <==> |xs| == 0
    ensures v.Num? ==> v.value >= 0.0
  {
    if |xs| == 0 then NaN
    else Num(SquaredDeviation(xs, Sum(xs) / |xs| as real) / |xs| as real)
  }

  predicate AllEqual(xs: seq<real>, c: real)
  {
    forall i :: 0 <= i < |xs| ==> xs[i] == c
  }

  /** Values within `[lo, hi]` sum to within `[n * lo, n * hi]`. */
  lemma {:induction false} SumBounds(xs: seq<real>, lo: real, hi: real)
    requires forall i :: 0 <= i < |xs| ==> lo <= xs[i] <= hi
    ensures |xs| as real * lo <= Sum(xs) <= |xs| as real * hi
  {
    if |xs| > 0 {
      var front := xs[..|xs| - 1];
      assert forall i :: 0 <= i < |front| ==> front[i] == xs[i];
      SumBounds(front, lo, hi);
    }
  }

  /** The mean lies between the smallest and the largest bound of the values. */
  lemma MeanBounds(xs: seq<real>, lo: real, hi: real)
    requires |xs| > 0
    requires forall i :: 0 <= i < |xs| ==> lo <= xs[i] <= hi
    ensures lo <= Mean(xs).value <= hi
  {
    SumBounds(xs, lo, hi);
  }

  /** Values that all equal the centre deviate from it by nothing. */
  lemma {:induction false} SquaredDeviationOfEqual(xs: seq<real>, c: real)
    requires AllEqual(xs, c)
    ensures SquaredDeviation(xs, c) == 0.0
  {
    if |xs| > 0 {
      var front := xs[..|xs| - 1];
      assert AllEqual(front, c);
      SquaredDeviationOfEqual(front, c);
      assert xs[|xs| - 1] - c == 0.0;
    }
  }

  /** A list of one repeated value has that value as its mean and no spread. */
  lemma ConstantStatistics(xs: seq<real>, c: real)
    requires |xs| > 0 && AllEqual(xs, c)
    ensures Mean(xs) == Num(c)
    ensures Variance(xs) == Num(0.0)
  {
    SumBounds(xs, c, c);
    SquaredDeviationOfEqual(xs, c);
  }

  /** Ten, twelve and eleven joules average eleven, with population variance `2/3` (so
      `np.std` is `sqrt(2/3)`, not Bessel's `1`). */
  lemma MeanVarianceExample()
    ensures Mean([10.0, 12.0, 11.0]) == Num(11.0)
    ensures Variance([10.0, 12.0, 11.0]) == Num(2.0 / 3.0)
  {
    var xs := [10.0, 12.0, 11.0];
    assert xs[..2] == [10.0, 12.0];
    assert xs[..2][..1] == [10.0];
    assert xs[..2][..1][..0] == [];
    assert Sum(xs[..2][..1]) == 10.0;
    assert Sum(xs[..2]) == 22.0;
    assert Sum(xs) == 33.0;
    assert SquaredDeviation(xs[..2][..1], 11.0) == 1.0;
    assert SquaredDeviation(xs[..2], 11.0) == 2.0;
    assert SquaredDeviation(xs, 11.0) == 2.0;
  }
}
