/** Reductions over the per-pixel and per-pair values: sum, minimum, maximum and
    arithmetic mean over the reals, and the not-a-number value numpy produces
    for the mean of nothing and propagates through every reduction. */
module Stats {

  function Sum(xs: seq<real>): real {
    if xs == [] then 0.0 else xs[0] + Sum(xs[1..])
  }

  function Min(xs: seq<real>): (m: real)
    requires |xs| > 0
    ensures m in xs
    ensures forall i :: 0 <= i < |xs| ==> m <= xs[i]
  {
    if |xs| == 1 then xs[0]
    else
      var t := Min(xs[1..]);
      assert forall i :: 1 <= i < |xs| ==> xs[i] == xs[1..][i - 1];
      if xs[0] <= t then xs[0] else t
  }

  function Max(xs: seq<real>): (m: real)
    requires |xs| > 0
    ensures m in xs
    ensures forall i :: 0 <= i < |xs| ==> xs[i] <= m
  {
    if |xs| == 1 then xs[0]
    else
      var t := Max(xs[1..]);
      assert forall i :: 1 <= i < |xs| ==> xs[i] == xs[1..][i - 1];
      if t <= xs[0] then xs[0] else t
  }

  function Mean(xs: seq<real>): real
    requires |xs| > 0
  {
    Sum(xs) / (|xs| as real)
  }

  lemma {:induction false} SumBounds(xs: seq<real>, lo: real, hi: real)
    requires forall i :: 0 <= i < |xs| ==> lo <= xs[i] <= hi
    ensures (|xs| as real) * lo <= Sum(xs) <= (|xs| as real) * hi
  {
    if xs != [] {
      assert forall i :: 0 <= i < |xs| - 1 ==> xs[1..][i] == xs[i + 1];
      SumBounds(xs[1..], lo, hi);
    }
  }

  lemma DivTimes(s: real, n: real)
    requires n > 0.0
    ensures (s / n) * n == s
  {
  }

  lemma PositiveProduct(x: real, y: real)
    requires x > 0.0 && y > 0.0
    ensures x * y > 0.0
  {
  }

  /** Dividing bounds n * lo <= s <= n * hi by a positive n. */
  lemma QuotientBetween(s: real, n: real, lo: real, hi: real)
    requires n > 0.0 && n * lo <= s <= n * hi
    ensures lo <= s / n <= hi
  {
    var m := s / n;
    DivTimes(s, n);
    if m > hi {
      PositiveProduct(m - hi, n);
    }
  }

  /** A mean of values within [lo, hi] is within [lo, hi]. */
  lemma MeanBounds(xs: seq<real>, lo: real, hi: real)
    requires |xs| > 0
    requires forall i :: 0 <= i < |xs| ==> lo <= xs[i] <= hi
    ensures lo <= Mean(xs) <= hi
  {
    SumBounds(xs, lo, hi);
    QuotientBetween(Sum(xs), |xs| as real, lo, hi);
  }

  /** The mean lies between the least and the greatest value. */
  lemma MeanBetween(xs: seq<real>)
    requires |xs| > 0
    ensures Min(xs) <= Mean(xs) <= Max(xs)
  {
    MeanBounds(xs, Min(xs), Max(xs));
  }

  /** A floating-point result: a number, or not-a-number. */
  datatype Score = Finite(v: real) | NaN

  /** `np.mean`: not-a-number for no values, else the arithmetic mean. */
  function MeanScore(ds: seq<real>): (s: Score)
    ensures s.NaN? <==> ds == []
    ensures s.Finite? ==> Min(ds) <= s.v <= Max(ds) && s.v == Sum(ds) / (|ds| as real)
  {
    if ds == [] then NaN
    else
      MeanBetween(ds);
      Finite(Mean(ds))
  }

  /** The run summary: minimum, maximum and mean of the per-pair values. */
  datatype Report = Report(min: Score, max: Score, mean: Score)

  predicate AllFinite(vs: seq<Score>) {
    forall i :: 0 <= i < |vs| ==> vs[i].Finite?
  }

  function Values(vs: seq<Score>): (xs: seq<real>)
    requires AllFinite(vs)
  {
    seq(|vs|, i requires 0 <= i < |vs| => vs[i].v)
  }

  /** `min()`, `max()` and `np.mean` of the per-pair values. A single
      not-a-number makes all three not-a-number; otherwise the minimum and
      maximum are values of the list bounding all of it, and the mean is the
      arithmetic mean and lies between them. */
  function Summarize(vs: seq<Score>): (r: Report)
    requires |vs| > 0
    ensures !AllFinite(vs) <==> r == Report(NaN, NaN, NaN)
    ensures AllFinite(vs) ==>
              r.min.Finite? && r.max.Finite? && r.mean.Finite? &&
              (forall i :: 0 <= i < |vs| ==> r.min.v <= vs[i].v <= r.max.v) &&
              r.min.v in Values(vs) && r.max.v in Values(vs) &&
              r.min.v <= r.mean.v <= r.max.v &&
              r.mean.v == Sum(Values(vs)) / (|vs| as real)
  {
    if !AllFinite(vs) then Report(NaN, NaN, NaN)
    else
      var xs := Values(vs);
      assert forall i :: 0 <= i < |vs| ==> vs[i].v == xs[i];
      MeanBetween(xs);
      Report(Finite(Min(xs)), Finite(Max(xs)), Finite(Mean(xs)))
  }
}
