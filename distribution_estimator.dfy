/** `empirical_distribution` and `cumulative_distribution`: an empirical CDF
    counted from a sample, and a CDF integrated with the trapezoid rule under
    a probability density evaluated at the x-values. */
module DistributionEstimator {
  import opened Floats
  import opened MaskProjection

  /** Number of entries of `s` strictly below `xi`, as numpy compares (`xi > ss`). */
  function CountBelow(s: seq<Float>, xi: Float): (c: nat)
    ensures c <= |s|
  {
    if s == [] then 0
    else CountBelow(s[..|s| - 1], xi) + (if Less(s[|s| - 1], xi) then 1 else 0)
  }

  /** `count / n`, and 0 when there is nothing to divide by. */
  function Fraction(count: nat, n: nat): real
  {
    if n == 0 then 0.0 else count as real / n as real
  }

  /** The empirical CDF: entry `i` is the fraction of the non-NaN samples
      strictly below `x[i]`; all zeros when the sample has no number. */
  function Ecdf(x: seq<Float>, sample: seq<Float>): (edf: seq<real>)
    ensures |edf| == |x|
  {
    var kept := Kept(sample);
    seq(|x|, i requires 0 <= i < |x| => Fraction(CountBelow(kept, x[i]), |kept|))
  }

  lemma FractionStep(c: nat, n: nat)
    requires n > 0
    ensures Fraction(c, n) + 1.0 / n as real == Fraction(c + 1, n)
  {
  }

  /** `empirical_distribution(x, sample)`: drop the NaN samples, start from
      zeros, and for every remaining sample `ss` add `1 / n` to each entry
      with `x > ss`. The sort that precedes the loop is not needed: see
      `CountBelowPermutation`. */
  method EmpiricalDistribution(x: seq<Float>, sample: seq<Float>) returns (edf: seq<real>)
    ensures edf == Ecdf(x, sample)
  {
    var kept := Kept(sample);
    var n := |kept|;
    var a := new real[|x|](_ => 0.0);
    var s := 0;
    assert kept[..0] == [];
    while s < n
      invariant 0 <= s <= n
      invariant forall i :: 0 <= i < |x| ==> a[i] == Fraction(CountBelow(kept[..s], x[i]), n)
    {
      ghost var before := a[..];
      forall i | 0 <= i < |x| && Less(kept[s], x[i]) {
        a[i] := a[i] + 1.0 / n as real;
      }
      forall i | 0 <= i < |x|
        ensures a[i] == Fraction(CountBelow(kept[..s + 1], x[i]), n)
      {
        PrefixStep(kept, s, x[i]);
        if Less(kept[s], x[i]) {
          assert a[i] == before[i] + 1.0 / n as real;
          FractionStep(CountBelow(kept[..s], x[i]), n);
        } else {
          assert a[i] == before[i];
        }
      }
      s := s + 1;
    }
    assert kept[..n] == kept;
    edf := a[..];
  }

  lemma PrefixStep(kept: seq<Float>, s: nat, xi: Float)
    requires s < |kept|
    ensures CountBelow(kept[..s + 1], xi) == CountBelow(kept[..s], xi) + (if Less(kept[s], xi) then 1 else 0)
  {
    assert kept[..s + 1][..s] == kept[..s];
  }

  /** Every entry of the empirical CDF lies in [0, 1]. */
  lemma EcdfBounds(x: seq<Float>, sample: seq<Float>, i: nat)
    requires i < |x|
    ensures 0.0 <= Ecdf(x, sample)[i] <= 1.0
  {
    var kept := Kept(sample);
    if |kept| > 0 {
      FractionAtMostOne(CountBelow(kept, x[i]), |kept|);
    }
  }

  lemma FractionAtMostOne(c: nat, n: nat)
    requires 0 < n && c <= n
    ensures c as real / n as real <= 1.0
  {
  }

  lemma FractionMonotone(c1: nat, c2: nat, n: nat)
    requires c1 <= c2
    ensures Fraction(c1, n) <= Fraction(c2, n)
  {
  }

  lemma {:induction false} CountBelowMonotone(s: seq<Float>, a: Float, b: Float)
    requires a.Num? && b.Num? && a.v <= b.v
    ensures CountBelow(s, a) <= CountBelow(s, b)
  {
    if s != [] {
      CountBelowMonotone(s[..|s| - 1], a, b);
    }
  }

  /** Over numeric x-values in ascending order the empirical CDF never decreases. */
  lemma EcdfMonotone(x: seq<Float>, sample: seq<Float>, i: nat, j: nat)
    requires i <= j < |x| && x[i].Num? && x[j].Num? && x[i].v <= x[j].v
    ensures Ecdf(x, sample)[i] <= Ecdf(x, sample)[j]
  {
    var kept := Kept(sample);
    CountBelowMonotone(kept, x[i], x[j]);
    FractionMonotone(CountBelow(kept, x[i]), CountBelow(kept, x[j]), |kept|);
  }

  lemma {:induction false} CountBelowNaN(s: seq<Float>)
    ensures CountBelow(s, NaN) == 0
  {
    if s != [] {
      CountBelowNaN(s[..|s| - 1]);
    }
  }

  /** A NaN x-value is above no sample, so its entry is 0. */
  lemma EcdfAtNaN(x: seq<Float>, sample: seq<Float>, i: nat)
    requires i < |x| && x[i].NaN?
    ensures Ecdf(x, sample)[i] == 0.0
  {
    CountBelowNaN(Kept(sample));
  }

  /** An empty or all-NaN sample gives all zeros. */
  lemma EcdfOfNoNumbers(x: seq<Float>, sample: seq<Float>)
    requires forall k :: 0 <= k < |sample| ==> sample[k].NaN?
    ensures Ecdf(x, sample) == seq(|x|, i => 0.0)
  {
    AllNaNKeepsNothing(sample);
  }

  lemma {:induction false} CountBelowAll(s: seq<Float>, xi: Float)
    requires forall k :: 0 <= k < |s| ==> Less(s[k], xi)
    ensures CountBelow(s, xi) == |s|
  {
    if s != [] {
      CountBelowAll(s[..|s| - 1], xi);
    }
  }

  /** Above every number of a sample that has one, the empirical CDF is 1. */
  lemma EcdfAboveAll(x: seq<Float>, sample: seq<Float>, i: nat)
    requires i < |x| && exists k :: 0 <= k < |sample| && sample[k].Num?
    requires forall k :: 0 <= k < |sample| && sample[k].Num? ==> Less(sample[k], x[i])
    ensures Ecdf(x, sample)[i] == 1.0
  {
    var kept := Kept(sample);
    var k0 :| 0 <= k0 < |sample| && sample[k0].Num?;
    RankBound(IsNaNMask(sample), k0);
    assert |kept| > 0;
    forall k | 0 <= k < |kept|
      ensures Less(kept[k], x[i])
    {
      var p := KeptOrigin(sample, k);
    }
    CountBelowAll(kept, x[i]);
    FractionWhole(|kept|);
  }

  lemma FractionWhole(n: nat)
    requires n > 0
    ensures Fraction(n, n) == 1.0
  {
  }

  lemma {:induction false} CountBelowAppend(s: seq<Float>, t: seq<Float>, xi: Float)
    ensures CountBelow(s + t, xi) == CountBelow(s, xi) + CountBelow(t, xi)
  {
    if t == [] {
      assert s + t == s;
    } else {
      assert (s + t)[..|s + t| - 1] == s + t[..|t| - 1];
      CountBelowAppend(s, t[..|t| - 1], xi);
    }
  }

  /** Taking out the entry at `j` lowers the count by one exactly when that entry is below `xi`. */
  lemma CountBelowRemove(t: seq<Float>, j: nat, xi: Float)
    requires j < |t|
    ensures CountBelow(t, xi) == CountBelow(t[..j] + t[j + 1..], xi) + (if Less(t[j], xi) then 1 else 0)
  {
    assert t == t[..j] + [t[j]] + t[j + 1..];
    CountBelowAppend(t[..j] + [t[j]], t[j + 1..], xi);
    CountBelowAppend(t[..j], [t[j]], xi);
    CountBelowAppend(t[..j], t[j + 1..], xi);
    assert [t[j]][..0] == [];
  }

  lemma MultisetRemove(t: seq<Float>, j: nat)
    requires j < |t|
    ensures multiset(t[..j] + t[j + 1..]) == multiset(t) - multiset{t[j]}
  {
    assert t == t[..j] + [t[j]] + t[j + 1..];
  }

  /** The count does not depend on the order of the sample, so sorting the
      sample first, as the source does, leaves the result unchanged. */
  lemma {:induction false} CountBelowPermutation(s: seq<Float>, t: seq<Float>, xi: Float)
    requires multiset(s) == multiset(t)
    ensures CountBelow(s, xi) == CountBelow(t, xi)
    decreases |s|
  {
    if s != [] {
      var n := |s| - 1;
      assert s[n] in multiset(t);
      var j :| 0 <= j < |t| && t[j] == s[n];
      MultisetRemove(s, n);
      MultisetRemove(t, j);
      CountBelowPermutation(s[..n] + s[n + 1..], t[..j] + t[j + 1..], xi);
      CountBelowRemove(s, n, xi);
      CountBelowRemove(t, j, xi);
    }
  }

  datatype DistributionError =
    /** Any kind other than "gaussian" raises NotImplementedError. */
    NotImplemented |
    /** The default `x=None` reaches `len(x)` and raises TypeError. */
    MissingGrid

  /** `np.trapz(y[:k], x[:k])`: the trapezoid rule over the first `k` points;
      fewer than two points enclose no area. */
  function Trapz(y: seq<real>, x: seq<real>, k: nat): (area: real)
    requires k <= |y| && k <= |x|
    ensures ((forall j :: 0 < j < k ==> x[j - 1] <= x[j]) && (forall j :: 0 <= j < k ==> y[j] >= 0.0))
              ==> area >= 0.0
  {
    if k < 2 then 0.0
    else
      var dx, y0, y1 := x[k - 1] - x[k - 2], y[k - 1], y[k - 2];
      assert dx >= 0.0 && y0 >= 0.0 && y1 >= 0.0 ==> dx * (y0 + y1) / 2.0 >= 0.0 by {
        if dx >= 0.0 && y0 >= 0.0 && y1 >= 0.0 {
          TrapezoidNonNegative(dx, y0, y1);
        }
      }
      Trapz(y, x, k - 1) + dx * (y0 + y1) / 2.0
  }

  /** `cumulative_distribution(mu, sigma, x, cdf_func)`. The density
      `normal_distribution(mu, sigma, x)` is the parameter `pdf`, evaluated
      at every x-value. Entry `ii` integrates over the first `ii` points
      only, so the last point never contributes. Any kind other than
      "gaussian" raises NotImplementedError before `x` is looked at; a
      missing `x` (None, the default) raises TypeError at `len(x)`. */
  function CumulativeDistribution(mu: real, sigma: real, x: Option<seq<real>>, cdfFunc: string,
                                  pdf: (real, real, real) -> real): (r: Result<seq<real>, DistributionError>)
    ensures r == Err(NotImplemented) <==> cdfFunc != "gaussian"
    ensures r == Err(MissingGrid) <==> cdfFunc == "gaussian" && x.None?
    ensures r.Ok? ==> x.Some? && |r.value| == |x.value|
    ensures r.Ok? && |x.value| > 0 ==> r.value[0] == 0.0
    ensures r.Ok? && |x.value| > 1 ==> r.value[1] == 0.0
  {
    if cdfFunc != "gaussian" then Err(NotImplemented)
    else if x.None? then Err(MissingGrid)
    else
      var xs := x.value;
      var p := seq(|xs|, k requires 0 <= k < |xs| => pdf(mu, sigma, xs[k]));
      Ok(seq(|xs|, ii requires 0 <= ii < |xs| => Trapz(p, xs, ii)))
  }

  lemma TrapezoidNonNegative(dx: real, y0: real, y1: real)
    requires dx >= 0.0 && y0 >= 0.0 && y1 >= 0.0
    ensures dx * (y0 + y1) / 2.0 >= 0.0
  {
  }

  /** Each entry adds the trapezoid between the two points before it. */
  lemma CumulativeStep(mu: real, sigma: real, x: seq<real>, pdf: (real, real, real) -> real, ii: nat)
    requires 2 <= ii < |x|
    ensures CumulativeDistribution(mu, sigma, Some(x), "gaussian", pdf).value[ii]
              == CumulativeDistribution(mu, sigma, Some(x), "gaussian", pdf).value[ii - 1]
                 + (x[ii - 1] - x[ii - 2]) * (pdf(mu, sigma, x[ii - 1]) + pdf(mu, sigma, x[ii - 2])) / 2.0
  {
  }

  /** With ascending x-values and a non-negative density the estimated CDF
      never decreases. */
  lemma CumulativeMonotone(mu: real, sigma: real, x: seq<real>, pdf: (real, real, real) -> real, ii: nat)
    requires 1 <= ii < |x|
    requires forall k :: 0 < k < |x| ==> x[k - 1] <= x[k]
    requires forall k :: 0 <= k < |x| ==> pdf(mu, sigma, x[k]) >= 0.0
    ensures CumulativeDistribution(mu, sigma, Some(x), "gaussian", pdf).value[ii - 1]
              <= CumulativeDistribution(mu, sigma, Some(x), "gaussian", pdf).value[ii]
  {
    if ii >= 2 {
      CumulativeStep(mu, sigma, x, pdf, ii);
      TrapezoidNonNegative(x[ii - 1] - x[ii - 2], pdf(mu, sigma, x[ii - 1]), pdf(mu, sigma, x[ii - 2]));
    }
  }
}
