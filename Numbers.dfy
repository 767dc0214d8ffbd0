/**
  The numeric primitives the report card borrows from JavaScript: `Math.round`,
  `Number.prototype.toFixed`, and the folds `reduce((a, b) => a + b, 0)`,
  `Math.max(...xs)` and `Math.min(...xs)` over lists of numbers.
  Numbers are exact (`int` and `real`); double rounding is not modelled.
 */
module Numbers {

  /** `Math.round(x)`: the nearest integer, a half rounded toward +infinity. */
  function Round(x: real): (r: int)
    ensures x - 0.5 < r as real <= x + 0.5
  {
    (x + 0.5).Floor
  }

  /** `Math.round` is monotone. */
  lemma RoundMonotone(x: real, y: real)
    requires x <= y
    ensures Round(x) <= Round(y)
  {
  }

  /** The value `x.toFixed(places)` denotes, with `unit` = 10^places: the multiple of
      1/unit nearest to |x|, a half rounded up, with the sign of x put back. */
  function ToFixed(x: real, unit: nat): (r: real)
    requires unit == 10 || unit == 100
    ensures x - 0.5 / unit as real <= r <= x + 0.5 / unit as real
  {
    if x >= 0.0 then ScaledRound(x, unit) else -ScaledRound(-x, unit)
  }

  /** The multiple of 1/unit nearest to a non-negative x, a half rounded up. */
  function ScaledRound(x: real, unit: nat): (r: real)
    requires unit == 10 || unit == 100
    requires x >= 0.0
    ensures x - 0.5 / unit as real < r <= x + 0.5 / unit as real
    ensures r >= 0.0
  {
    if unit == 10 then (x * 10.0 + 0.5).Floor as real / 10.0
    else (x * 100.0 + 0.5).Floor as real / 100.0
  }

  /** Formatting to a fixed number of places never reorders two values. */
  lemma ToFixedMonotone(x: real, y: real, unit: nat)
    requires unit == 10 || unit == 100
    requires x <= y
    ensures ToFixed(x, unit) <= ToFixed(y, unit)
  {
    if 0.0 <= x {
      ScaledRoundMonotone(x, y, unit);
    } else if y < 0.0 {
      ScaledRoundMonotone(-y, -x, unit);
    }
  }

  lemma ScaledRoundMonotone(x: real, y: real, unit: nat)
    requires unit == 10 || unit == 100
    requires 0.0 <= x <= y
    ensures ScaledRound(x, unit) <= ScaledRound(y, unit)
  {
    if unit == 10 {
      assert (x * 10.0 + 0.5).Floor <= (y * 10.0 + 0.5).Floor;
    } else {
      assert (x * 100.0 + 0.5).Floor <= (y * 100.0 + 0.5).Floor;
    }
  }

  /** A whole number is printed unchanged by `toFixed`. */
  lemma ToFixedWhole(k: int, unit: nat)
    requires unit == 10 || unit == 100
    ensures ToFixed(k as real, unit) == k as real
  {
    if k >= 0 {
      if unit == 10 {
        assert (k as real * 10.0 + 0.5).Floor == k * 10;
      } else {
        assert (k as real * 100.0 + 0.5).Floor == k * 100;
      }
    } else {
      if unit == 10 {
        assert (-k as real * 10.0 + 0.5).Floor == -k * 10;
      } else {
        assert (-k as real * 100.0 + 0.5).Floor == -k * 100;
      }
    }
  }

  /** `xs.reduce((a, b) => a + b, 0)`, folding from the left. */
  function Sum(xs: seq<int>): int
  {
    if xs == [] then 0 else Sum(xs[..|xs| - 1]) + xs[|xs| - 1]
  }

  /** The same fold over reals (sums of per-student averages). */
  function SumReal(xs: seq<real>): real
  {
    if xs == [] then 0.0 else SumReal(xs[..|xs| - 1]) + xs[|xs| - 1]
  }

  /** `Math.max(...xs)` of a non-empty list: a member of the list that no member exceeds. */
  function Max(xs: seq<int>): (m: int)
    requires xs != []
    ensures m in xs
    ensures forall i :: 0 <= i < |xs| ==> xs[i] <= m
  {
    if |xs| == 1 then xs[0]
    else
      var rest := Max(xs[..|xs| - 1]);
      if xs[|xs| - 1] > rest then xs[|xs| - 1] else rest
  }

  /** `Math.min(...xs)` of a non-empty list: a member of the list that no member undercuts. */
  function Min(xs: seq<int>): (m: int)
    requires xs != []
    ensures m in xs
    ensures forall i :: 0 <= i < |xs| ==> m <= xs[i]
  {
    if |xs| == 1 then xs[0]
    else
      var rest := Min(xs[..|xs| - 1]);
      if xs[|xs| - 1] < rest then xs[|xs| - 1] else rest
  }

  /** `Math.max(...xs)` over reals. */
  function MaxReal(xs: seq<real>): (m: real)
    requires xs != []
    ensures m in xs
    ensures forall i :: 0 <= i < |xs| ==> xs[i] <= m
  {
    if |xs| == 1 then xs[0]
    else
      var rest := MaxReal(xs[..|xs| - 1]);
      if xs[|xs| - 1] > rest then xs[|xs| - 1] else rest
  }

  /** `Math.min(...xs)` over reals. */
  function MinReal(xs: seq<real>): (m: real)
    requires xs != []
    ensures m in xs
    ensures forall i :: 0 <= i < |xs| ==> m <= xs[i]
  {
    if |xs| == 1 then xs[0]
    else
      var rest := MinReal(xs[..|xs| - 1]);
      if xs[|xs| - 1] < rest then xs[|xs| - 1] else rest
  }

  /** Sum of a list lies between its length times a lower and an upper bound of its members. */
  lemma {:induction false} SumBounds(xs: seq<int>, lo: int, hi: int)
    requires forall i :: 0 <= i < |xs| ==> lo <= xs[i] <= hi
    ensures |xs| * lo <= Sum(xs) <= |xs| * hi
  {
    if xs != [] {
      SumBounds(xs[..|xs| - 1], lo, hi);
      assert (|xs| - 1) * lo + lo == |xs| * lo;
      assert (|xs| - 1) * hi + hi == |xs| * hi;
    }
  }

  lemma {:induction false} SumRealBounds(xs: seq<real>, lo: real, hi: real)
    requires forall i :: 0 <= i < |xs| ==> lo <= xs[i] <= hi
    ensures |xs| as real * lo <= SumReal(xs) <= |xs| as real * hi
  {
    if xs != [] {
      SumRealBounds(xs[..|xs| - 1], lo, hi);
      assert (|xs| - 1) as real * lo + lo == |xs| as real * lo;
      assert (|xs| - 1) as real * hi + hi == |xs| as real * hi;
    }
  }

  /** The mean of a non-empty integer list lies between its minimum and its maximum. */
  lemma MeanWithinRange(xs: seq<int>)
    requires xs != []
    ensures Min(xs) as real <= Sum(xs) as real / |xs| as real <= Max(xs) as real
  {
    var lo, hi := Min(xs), Max(xs);
    SumBounds(xs, lo, hi);
    IntMeanBounds(Sum(xs), |xs|, lo, hi);
  }

  /** The mean of a non-empty real list lies between its minimum and its maximum. */
  lemma MeanRealWithinRange(xs: seq<real>)
    requires xs != []
    ensures MinReal(xs) <= SumReal(xs) / |xs| as real <= MaxReal(xs)
  {
    MeanRealBetween(xs, MinReal(xs), MaxReal(xs));
  }

  lemma IntMeanBounds(s: int, n: nat, lo: int, hi: int)
    requires n > 0
    requires n * lo <= s <= n * hi
    ensures lo as real <= s as real / n as real <= hi as real
  {
    assert (n * lo) as real == n as real * lo as real;
    assert (n * hi) as real == n as real * hi as real;
    DivideBounds(s as real, n as real, lo as real, hi as real);
  }

  lemma MeanRealBetween(xs: seq<real>, lo: real, hi: real)
    requires xs != []
    requires forall i :: 0 <= i < |xs| ==> lo <= xs[i] <= hi
    ensures lo <= SumReal(xs) / |xs| as real <= hi
  {
    SumRealBounds(xs, lo, hi);
    RealMeanBounds(SumReal(xs), |xs|, lo, hi);
  }

  lemma RealMeanBounds(s: real, n: nat, lo: real, hi: real)
    requires n > 0
    requires n as real * lo <= s <= n as real * hi
    ensures lo <= s / n as real <= hi
  {
    DivideBounds(s, n as real, lo, hi);
  }

  lemma DivideBounds(s: real, n: real, lo: real, hi: real)
    requires n > 0.0
    requires n * lo <= s <= n * hi
    ensures lo <= s / n <= hi
  {
    assert s / n * n == s;
  }

  /** A rounded mean of integers also lies between the minimum and the maximum. */
  lemma RoundedMeanWithinRange(xs: seq<int>)
    requires xs != []
    ensures Min(xs) <= Round(Sum(xs) as real / |xs| as real) <= Max(xs)
  {
    MeanWithinRange(xs);
  }

  /** Summing a concatenation sums the parts. */
  lemma {:induction false} SumAppend(xs: seq<int>, ys: seq<int>)
    ensures Sum(xs + ys) == Sum(xs) + Sum(ys)
  {
    if ys != [] {
      assert (xs + ys)[..|xs + ys| - 1] == xs + ys[..|ys| - 1];
      SumAppend(xs, ys[..|ys| - 1]);
    } else {
      assert xs + ys == xs;
    }
  }
}
