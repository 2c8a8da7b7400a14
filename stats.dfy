/** Sums, extremes, means, sample variance and energy over sequences of
    readings, stated over exact reals (no rounding). */
module Stats {

  /** `sum(xs)`. */
  function Sum(xs: seq<real>): real
  {
    if xs == [] then 0.0 else xs[0] + Sum(xs[1..])
  }

  /** `min(xs)`: an element of `xs` below or equal to every element. */
  function Min(xs: seq<real>): (m: real)
    requires |xs| > 0
    ensures m in xs
    ensures forall i :: 0 <= i < |xs| ==> m <= xs[i]
  {
    if |xs| == 1 then xs[0]
    else
      var rest := Min(xs[1..]);
      if xs[0] <= rest then xs[0] else rest
  }

  /** `max(xs)`: an element of `xs` above or equal to every element. */
  function Max(xs: seq<real>): (m: real)
    requires |xs| > 0
    ensures m in xs
    ensures forall i :: 0 <= i < |xs| ==> xs[i] <= m
  {
    if |xs| == 1 then xs[0]
    else
      var rest := Max(xs[1..]);
      if xs[0] >= rest then xs[0] else rest
  }

  /** `statistics.mean(xs)`, before rounding. */
  function Mean(xs: seq<real>): real
    requires |xs| > 0
  {
    Sum(xs) / (|xs| as real)
  }

  lemma {:induction false} SumConcat(a: seq<real>, b: seq<real>)
    ensures Sum(a + b) == Sum(a) + Sum(b)
  {
    if a == [] {
      assert a + b == b;
    } else {
      assert (a + b)[0] == a[0] && (a + b)[1..] == a[1..] + b;
      SumConcat(a[1..], b);
    }
  }

  /** Every element between `lo` and `hi` puts the sum between |xs|*lo and |xs|*hi. */
  lemma {:induction false} SumBetween(xs: seq<real>, lo: real, hi: real)
    requires forall i :: 0 <= i < |xs| ==> lo <= xs[i] <= hi
    ensures (|xs| as real) * lo <= Sum(xs) <= (|xs| as real) * hi
  {
    if xs != [] {
      SumBetween(xs[1..], lo, hi);
      assert (|xs| as real) * lo == lo + (|xs[1..]| as real) * lo;
      assert (|xs| as real) * hi == hi + (|xs[1..]| as real) * hi;
    }
  }

  /** The sum is monotone in every element. */
  lemma {:induction false} SumMonotone(xs: seq<real>, ys: seq<real>)
    requires |xs| == |ys|
    requires forall i :: 0 <= i < |xs| ==> xs[i] <= ys[i]
    ensures Sum(xs) <= Sum(ys)
  {
    if xs != [] {
      SumMonotone(xs[1..], ys[1..]);
    }
  }

  /** Changing one element changes the sum by exactly the difference. */
  lemma {:induction false} SumUpdate(xs: seq<real>, k: nat, x: real)
    requires k < |xs|
    ensures Sum(xs[k := x]) == Sum(xs) + (x - xs[k])
  {
    if k > 0 {
      assert xs[k := x][1..] == xs[1..][k - 1 := x];
      SumUpdate(xs[1..], k - 1, x);
    }
  }

  /** The mean lies between the minimum and the maximum. */
  lemma MeanBetweenMinMax(xs: seq<real>)
    requires |xs| > 0
    ensures Min(xs) <= Mean(xs) <= Max(xs)
  {
    MeanWithin(xs, Min(xs), Max(xs));
  }

  /** Every element between `lo` and `hi` puts the mean there too. */
  lemma MeanWithin(xs: seq<real>, lo: real, hi: real)
    requires |xs| > 0
    requires forall i :: 0 <= i < |xs| ==> lo <= xs[i] <= hi
    ensures lo <= Mean(xs) <= hi
  {
    SumBetween(xs, lo, hi);
    QuotientBetween(Sum(xs), |xs| as real, lo, hi);
  }

  lemma QuotientBetween(s: real, n: real, lo: real, hi: real)
    requires n > 0.0
    requires n * lo <= s <= n * hi
    ensures lo <= s / n <= hi
  {
  }

  /** Sum of squared deviations from `m`. */
  function SquaredDeviations(xs: seq<real>, m: real): (r: real)
    ensures r >= 0.0
  {
    if xs == [] then 0.0
    else
      var d := xs[0] - m;
      SquareNonNegative(d);
      d * d + SquaredDeviations(xs[1..], m)
  }

  lemma SquareNonNegative(d: real)
    ensures d * d >= 0.0
  {
    if d < 0.0 {
      assert d * d == (-d) * (-d);
    }
  }

  /** The voltage "std" entry before its square root: the sample variance
      (denominator n - 1) for two or more values, 0.0 for a single value. */
  function SampleVariance(xs: seq<real>): (v: real)
    requires |xs| > 0
    ensures v >= 0.0
    ensures |xs| == 1 ==> v == 0.0
  {
    if |xs| > 1 then SquaredDeviations(xs, Mean(xs)) / ((|xs| - 1) as real) else 0.0
  }

  /** Each record stands for a fixed five-minute interval. */
  const IntervalHours: real := 5.0 / 60.0

  /** `total_energy_kwh` before rounding: sum(powers) * (5/60) / 1000. */
  function EnergyKwh(powers: seq<real>): real
  {
    Sum(powers) * IntervalHours / 1000.0
  }

  /** Non-negative powers give non-negative energy. */
  lemma EnergyNonNegative(powers: seq<real>)
    requires forall i :: 0 <= i < |powers| ==> powers[i] >= 0.0
    ensures EnergyKwh(powers) >= 0.0
  {
    if powers != [] {
      SumBetween(powers, 0.0, Max(powers));
    }
  }

  /** Energy is monotone in every power value. */
  lemma EnergyMonotone(powers: seq<real>, more: seq<real>)
    requires |powers| == |more|
    requires forall i :: 0 <= i < |powers| ==> powers[i] <= more[i]
    ensures EnergyKwh(powers) <= EnergyKwh(more)
  {
    SumMonotone(powers, more);
  }

  /** Raising a single record's power by d raises the energy by d * (5/60) / 1000. */
  lemma EnergyOfOneRecord(powers: seq<real>, k: nat, p: real)
    requires k < |powers|
    ensures EnergyKwh(powers[k := p]) == EnergyKwh(powers) + (p - powers[k]) * IntervalHours / 1000.0
  {
    SumUpdate(powers, k, p);
  }

  /** Energy adds up over consecutive parts of a batch. */
  lemma EnergyAdditive(a: seq<real>, b: seq<real>)
    ensures EnergyKwh(a + b) == EnergyKwh(a) + EnergyKwh(b)
  {
    SumConcat(a, b);
  }
}
