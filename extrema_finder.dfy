/** `quadratic_spline_roots` and `find_maxima`: the real roots of a quadratic
    spline, found interval by interval from its values at the two knots and
    the midpoint, and the extrema of a time series, either at the peaks a
    peak finder reports or at the roots of a fitted cubic spline's derivative. */
module ExtremaFinder {
  import opened Floats
  import opened MaskProjection

  /** A root as `np.roots` reports it. */
  datatype Complex = Complex(re: real, im: real)

  /** A fitted spline as far as this code uses it: its knots and its value
      at any point. */
  datatype Spline = Spline(knots: seq<real>, eval: real -> real)

  /** `np.roots([c2, c1, c0])`, a call into numpy's eigenvalue solver. */
  type RootFinder = (real, real, real) -> seq<Complex>

  /** `c2 * t^2 + c1 * t + c0`. */
  function Poly(c2: real, c1: real, c0: real, t: real): real
  {
    c2 * t * t + c1 * t + c0
  }

  /** The quadratic with coefficients `[u + w - 2v, w - u, 2v]` passes through
      `2u`, `2v` and `2w` at `t = -1, 0, 1`: it is twice the quadratic through
      the spline's values at the left knot, the midpoint and the right knot. */
  lemma QuadraticThroughSamples(u: real, v: real, w: real)
    ensures Poly(u + w - 2.0 * v, w - u, 2.0 * v, -1.0) == 2.0 * u
    ensures Poly(u + w - 2.0 * v, w - u, 2.0 * v, 0.0) == 2.0 * v
    ensures Poly(u + w - 2.0 * v, w - u, 2.0 * v, 1.0) == 2.0 * w
  {
  }

  /** `t * (b - a) / 2 + (b + a) / 2`: the affine map from [-1, 1] onto the knot interval. */
  function ToInterval(t: real, a: real, b: real): real
  {
    t * (b - a) / 2.0 + (b + a) / 2.0
  }

  /** `r` lies between `a` and `b`, whichever is larger. */
  predicate Between(a: real, b: real, r: real)
  {
    (a <= r <= b) || (b <= r <= a)
  }

  /** The map sends -1, 0 and 1 to the left knot, the midpoint and the right knot. */
  lemma ToIntervalEnds(a: real, b: real)
    ensures ToInterval(-1.0, a, b) == a
    ensures ToInterval(0.0, a, b) == (a + b) / 2.0
    ensures ToInterval(1.0, a, b) == b
  {
  }

  /** A parameter in [-1, 1] lands inside its knot interval. */
  lemma ToIntervalWithin(t: real, a: real, b: real)
    requires -1.0 <= t <= 1.0
    ensures Between(a, b, ToInterval(t, a, b))
  {
    var h, s := (b - a) / 2.0, t + 1.0;
    assert ToInterval(t, a, b) == a + s * h;
    assert b == a + 2.0 * h;
    ScaledWithin(s, h);
    if h >= 0.0 {
      assert a <= a + s * h <= b;
    } else {
      assert b <= a + s * h <= a;
    }
  }

  lemma ScaledWithin(s: real, h: real)
    requires 0.0 <= s <= 2.0
    ensures h >= 0.0 ==> 0.0 <= s * h <= 2.0 * h
    ensures h <= 0.0 ==> 2.0 * h <= s * h <= 0.0
  {
  }

  /** When the spline is the quadratic `Poly(al, be, ga, _)` on the
      interval, the polynomial whose roots are sought is twice that quadratic carried
      over to [-1, 1]: its roots in [-1, 1] are exactly the parameters of the
      spline's roots in the interval. */
  lemma QuadraticPieceCarried(al: real, be: real, ga: real, a: real, b: real, t: real)
    ensures
      var u, v, w := Poly(al, be, ga, a), Poly(al, be, ga, (a + b) / 2.0), Poly(al, be, ga, b);
      Poly(u + w - 2.0 * v, w - u, 2.0 * v, t) == 2.0 * Poly(al, be, ga, ToInterval(t, a, b))
  {
    var m, h := (a + b) / 2.0, (b - a) / 2.0;
    assert a == m - h && b == m + h;
    assert ToInterval(t, a, b) == m + t * h;
    CarriedIdentity(al, be, ga, m, h, t);
  }

  lemma CarriedIdentity(al: real, be: real, ga: real, m: real, h: real, t: real)
    ensures
      var u := al * (m - h) * (m - h) + be * (m - h) + ga;
      var v := al * m * m + be * m + ga;
      var w := al * (m + h) * (m + h) + be * (m + h) + ga;
      (u + w - 2.0 * v) * t * t + (w - u) * t + 2.0 * v
        == 2.0 * (al * (m + t * h) * (m + t * h) + be * (m + t * h) + ga)
  {
    var u := al * (m - h) * (m - h) + be * (m - h) + ga;
    var v := al * m * m + be * m + ga;
    var w := al * (m + h) * (m + h) + be * (m + h) + ga;
    assert u + w - 2.0 * v == 2.0 * al * h * h;
    assert w - u == 4.0 * al * m * h + 2.0 * be * h;
  }

  /** `np.isreal(t) & (np.abs(t) <= 1)`. */
  predicate KeptRoot(z: Complex)
  {
    z.im == 0.0 && -1.0 <= z.re <= 1.0
  }

  /** `t[np.isreal(t) & (np.abs(t) <= 1)]`, as reals, in their order. */
  function KeptRoots(zs: seq<Complex>): (ts: seq<real>)
    ensures forall k :: 0 <= k < |ts| ==> -1.0 <= ts[k] <= 1.0
  {
    if zs == [] then []
    else
      var ts := KeptRoots(zs[..|zs| - 1]);
      var z := zs[|zs| - 1];
      if KeptRoot(z) then ts + [z.re] else ts
  }

  /** The filter keeps exactly the real roots of modulus at most 1. */
  lemma {:induction false} KeptRootsExact(zs: seq<Complex>)
    ensures forall k :: 0 <= k < |zs| && KeptRoot(zs[k]) ==> zs[k].re in KeptRoots(zs)
    ensures forall t :: t in KeptRoots(zs) ==> Complex(t, 0.0) in zs
  {
    if zs != [] {
      var init := zs[..|zs| - 1];
      KeptRootsExact(init);
      assert forall k :: 0 <= k < |init| ==> init[k] == zs[k];
      assert forall z :: z in init ==> z in zs;
    }
  }

  /** `t * (b - a) / 2 + (b + a) / 2` applied to every kept parameter. */
  function MapToInterval(ts: seq<real>, a: real, b: real): (rs: seq<real>)
    ensures |rs| == |ts|
  {
    seq(|ts|, k requires 0 <= k < |ts| => ToInterval(ts[k], a, b))
  }

  /** Every parameter in [-1, 1] lands between the interval's ends. */
  lemma MapToIntervalWithin(ts: seq<real>, a: real, b: real)
    ensures forall k :: 0 <= k < |ts| && -1.0 <= ts[k] <= 1.0 ==> Between(a, b, MapToInterval(ts, a, b)[k])
  {
    forall k | 0 <= k < |ts| && -1.0 <= ts[k] <= 1.0
      ensures Between(a, b, MapToInterval(ts, a, b)[k])
    {
      ToIntervalWithin(ts[k], a, b);
    }
  }

  /** The roots contributed by the knot interval [a, b]. */
  function IntervalRoots(spl: Spline, roots: RootFinder, a: real, b: real): seq<real>
  {
    var u, v, w := spl.eval(a), spl.eval((a + b) / 2.0), spl.eval(b);
    MapToInterval(KeptRoots(roots(u + w - 2.0 * v, w - u, 2.0 * v)), a, b)
  }

  /** Every root a knot interval contributes lies between its two knots. */
  lemma IntervalRootsWithin(spl: Spline, roots: RootFinder, a: real, b: real)
    ensures forall k :: 0 <= k < |IntervalRoots(spl, roots, a, b)| ==> Between(a, b, IntervalRoots(spl, roots, a, b)[k])
  {
    var u, v, w := spl.eval(a), spl.eval((a + b) / 2.0), spl.eval(b);
    MapToIntervalWithin(KeptRoots(roots(u + w - 2.0 * v, w - u, 2.0 * v)), a, b);
  }

  /** Roots from the first `i` knot intervals, in knot order. */
  function RootsUpTo(spl: Spline, roots: RootFinder, i: nat): seq<real>
    requires i == 0 || i < |spl.knots|
  {
    if i == 0 then []
    else RootsUpTo(spl, roots, i - 1) + IntervalRoots(spl, roots, spl.knots[i - 1], spl.knots[i])
  }

  /** What `quadratic_spline_roots(spl)` returns: the roots of every interval
      between consecutive knots, concatenated. */
  function SplineRoots(spl: Spline, roots: RootFinder): seq<real>
  {
    if |spl.knots| < 2 then [] else RootsUpTo(spl, roots, |spl.knots| - 1)
  }

  /** `r` lies in one of the first `n` intervals between consecutive knots. */
  predicate InKnotInterval(knots: seq<real>, n: nat, r: real)
  {
    exists j :: 0 <= j < n && j + 1 < |knots| && Between(knots[j], knots[j + 1], r)
  }

  /** Every root lies inside the knot interval that produced it. */
  lemma {:induction false} RootsUpToWithin(spl: Spline, roots: RootFinder, i: nat)
    requires i == 0 || i < |spl.knots|
    ensures forall r :: r in RootsUpTo(spl, roots, i) ==> InKnotInterval(spl.knots, i, r)
  {
    if i > 0 {
      RootsUpToWithin(spl, roots, i - 1);
      var a, b := spl.knots[i - 1], spl.knots[i];
      var prev := RootsUpTo(spl, roots, i - 1);
      var here := IntervalRoots(spl, roots, a, b);
      IntervalRootsWithin(spl, roots, a, b);
      assert RootsUpTo(spl, roots, i) == prev + here;
      forall r | r in prev + here
        ensures InKnotInterval(spl.knots, i, r)
      {
        if r in prev {
          var j :| 0 <= j < i - 1 && j + 1 < |spl.knots| && Between(spl.knots[j], spl.knots[j + 1], r);
        } else {
          var k :| 0 <= k < |here| && here[k] == r;
          assert Between(spl.knots[i - 1], spl.knots[i - 1 + 1], r);
        }
      }
    }
  }

  lemma SplineRootsWithin(spl: Spline, roots: RootFinder)
    ensures forall r :: r in SplineRoots(spl, roots) ==> InKnotInterval(spl.knots, |spl.knots|, r)
  {
    if |spl.knots| >= 2 {
      RootsUpToWithin(spl, roots, |spl.knots| - 1);
      forall r | r in SplineRoots(spl, roots)
        ensures InKnotInterval(spl.knots, |spl.knots|, r)
      {
        var j :| 0 <= j < |spl.knots| - 1 && j + 1 < |spl.knots| && Between(spl.knots[j], spl.knots[j + 1], r);
      }
    }
  }

  /** `quadratic_spline_roots(spl)`: for each pair of consecutive knots
      `(a, b)`, sample the spline at `a`, the midpoint and `b`, find the roots
      of the quadratic through those samples, keep the real ones in [-1, 1]
      and append their images in [a, b] to `roots`. */
  method QuadraticSplineRoots(spl: Spline, roots: RootFinder) returns (found: seq<real>)
    ensures found == SplineRoots(spl, roots)
  {
    var knots := spl.knots;
    found := [];
    // range(len(knots) - 1) is empty when there are fewer than two knots
    var n := if |knots| < 2 then 0 else |knots| - 1;
    for i := 0 to n
      invariant found == RootsUpTo(spl, roots, i)
    {
      var a, b := knots[i], knots[i + 1];
      var u, v, w := spl.eval(a), spl.eval((a + b) / 2.0), spl.eval(b);
      var t := KeptRoots(roots(u + w - 2.0 * v, w - u, 2.0 * v));
      found := found + MapToInterval(t, a, b);
      assert MapToInterval(t, a, b) == IntervalRoots(spl, roots, a, b);
    }
  }

  /** A (time, value) pair of the cleaned series. */
  type Sample = (real, real)

  predicate SortedByTime(ps: seq<Sample>)
  {
    forall i, j :: 0 <= i < j < |ps| ==> ps[i].0 <= ps[j].0
  }

  /** Insert `p` after every sample whose time is at most `p`'s. */
  function Insert(ps: seq<Sample>, p: Sample): (r: seq<Sample>)
    requires SortedByTime(ps)
    ensures SortedByTime(r)
    ensures multiset(r) == multiset(ps) + multiset{p}
    ensures |r| == |ps| + 1
    ensures forall k :: 0 <= k < |r| ==> r[k] == p || r[k] in ps
  {
    if ps == [] || ps[|ps| - 1].0 <= p.0 then ps + [p]
    else
      var init, last := ps[..|ps| - 1], ps[|ps| - 1];
      assert ps == init + [last];
      var r := Insert(init, p);
      InsertBeforeLast(init, last, p, r);
      r + [last]
  }

  lemma InsertBeforeLast(init: seq<Sample>, last: Sample, p: Sample, r: seq<Sample>)
    requires SortedByTime(init + [last]) && p.0 < last.0
    requires SortedByTime(r) && multiset(r) == multiset(init) + multiset{p}
    requires forall k :: 0 <= k < |r| ==> r[k] == p || r[k] in init
    ensures SortedByTime(r + [last])
    ensures multiset(r + [last]) == multiset(init + [last]) + multiset{p}
    ensures forall k :: 0 <= k < |r| + 1 ==> (r + [last])[k] == p || (r + [last])[k] in init + [last]
  {
    var ps := init + [last];
    forall q | q in init
      ensures q.0 <= last.0
    {
      var j :| 0 <= j < |init| && init[j] == q;
      assert ps[j] == q && ps[|init|] == last;
    }
  }

  /** `y.sortby(x)` on the pairs: ascending time, a permutation of the input. */
  function SortByTime(ps: seq<Sample>): (r: seq<Sample>)
    ensures SortedByTime(r)
    ensures multiset(r) == multiset(ps)
    ensures |r| == |ps|
  {
    if ps == [] then []
    else
      assert ps == ps[..|ps| - 1] + [ps[|ps| - 1]];
      Insert(SortByTime(ps[..|ps| - 1]), ps[|ps| - 1])
  }

  /** The pairs whose value is not NaN, in their original order:
      `x[~I]` and `y[~I]` with `I = np.isnan(y)`. */
  function NumericPairs(x: seq<real>, y: seq<Float>): (ps: seq<Sample>)
    requires |x| == |y|
    ensures |ps| == CountUnmasked(IsNaNMask(y))
  {
    var xs := RemoveIndicesByMask(x, IsNaNMask(y));
    var ys := Kept(y);
    seq(|xs|, k requires 0 <= k < |xs| => (xs[k], ys[k].v))
  }

  /** The series the spline is fitted to. */
  function Cleaned(x: seq<real>, y: seq<Float>): (ps: seq<Sample>)
    requires |x| == |y|
    ensures SortedByTime(ps)
    ensures |ps| == CountUnmasked(IsNaNMask(y))
  {
    SortByTime(NumericPairs(x, y))
  }

  /** Cleaning keeps exactly the pairs whose value is a number, in order of
      ascending time. */
  lemma CleanedSeries(x: seq<real>, y: seq<Float>)
    requires |x| == |y|
    ensures SortedByTime(Cleaned(x, y))
    ensures multiset(Cleaned(x, y)) == multiset(NumericPairs(x, y))
    ensures forall p :: 0 <= p < |y| && y[p].Num? ==>
              Rank(IsNaNMask(y), p) < |NumericPairs(x, y)| && NumericPairs(x, y)[Rank(IsNaNMask(y), p)] == (x[p], y[p].v)
    ensures forall k :: 0 <= k < |NumericPairs(x, y)| ==>
              exists p :: 0 <= p < |y| && y[p].Num? && NumericPairs(x, y)[k] == (x[p], y[p].v)
  {
    var mask := IsNaNMask(y);
    forall k | 0 <= k < |NumericPairs(x, y)|
      ensures exists p :: 0 <= p < |y| && y[p].Num? && NumericPairs(x, y)[k] == (x[p], y[p].v)
    {
      var p := KeptCellOfRank(mask, k);
      assert NumericPairs(x, y)[k] == (x[p], y[p].v);
    }
  }

  /** Removing NaNs only when there are some, as the source does, is the
      same as removing them always. */
  lemma NoNaNKeepsSeries(x: seq<real>, y: seq<Float>)
    requires |x| == |y| && forall p :: 0 <= p < |y| ==> y[p].Num?
    ensures NumericPairs(x, y) == seq(|y|, p requires 0 <= p < |y| => (x[p], y[p].v))
  {
    NothingMaskedKeepsAll(x, IsNaNMask(y));
    NothingMaskedKeepsAll(y, IsNaNMask(y));
  }

  datatype Maxima = Maxima(times: seq<real>, values: seq<Float>)

  datatype MaximaError =
    /** `x.values[0]` of an empty cleaned series raises IndexError. */
    EmptySeries |
    /** `InterpolatedUnivariateSpline(..., k=3)` raises ValueError: it needs
        more samples than the degree and, interpolating, strictly increasing times. */
    FitRejected

  /** The series a cubic interpolating spline can be fitted to. */
  predicate FitAccepts(series: seq<Sample>)
  {
    |series| > 3 && forall i :: 0 < i < |series| ==> series[i - 1].0 < series[i].0
  }

  /** The 'comp' branch: times and values at the indices the peak finder reports. */
  function PeakMaxima(x: seq<real>, y: seq<Float>, peaks: seq<nat>): (m: Maxima)
    requires |x| == |y| && forall k :: 0 <= k < |peaks| ==> peaks[k] < |y|
    ensures |m.times| == |m.values| == |peaks|
  {
    Maxima(seq(|peaks|, k requires 0 <= k < |peaks| => x[peaks[k]]),
           seq(|peaks|, k requires 0 <= k < |peaks| => y[peaks[k]]))
  }

  /** The 'cubic' branch: the roots of the fitted spline's derivative and the
      spline's values there. An all-NaN series has no first time to read, and
      the fit refuses a series it cannot interpolate. */
  function SplineMaxima(x: seq<real>, y: seq<Float>, fit: seq<Sample> -> Spline,
                        derivative: Spline -> Spline, roots: RootFinder): (r: Result<Maxima, MaximaError>)
    requires |x| == |y|
    ensures r == Err(EmptySeries) <==> forall p :: 0 <= p < |y| ==> y[p].NaN?
    ensures r == Err(FitRejected) <==> Cleaned(x, y) != [] && !FitAccepts(Cleaned(x, y))
    ensures r.Ok? <==> FitAccepts(Cleaned(x, y))
    ensures r.Ok? ==>
              var f := fit(Cleaned(x, y));
              var knots := derivative(f).knots;
              r.value.times == SplineRoots(derivative(f), roots) &&
              |r.value.values| == |r.value.times| &&
              forall k :: 0 <= k < |r.value.times| ==>
                r.value.values[k] == Num(f.eval(r.value.times[k])) &&
                InKnotInterval(knots, |knots|, r.value.times[k])
  {
    var series := Cleaned(x, y);
    NoNumberIsEmpty(x, y);
    if series == [] then Err(EmptySeries)
    else if !FitAccepts(series) then Err(FitRejected)
    else
      var f := fit(series);
      var pts := SplineRoots(derivative(f), roots);
      SplineRootsWithin(derivative(f), roots);
      Ok(Maxima(pts, seq(|pts|, k requires 0 <= k < |pts| => Num(f.eval(pts[k])))))
  }

  /** `find_maxima(x, y, method)`. The peak finder, the spline fit and its
      derivative and the root finder are parameters. Any method other than
      'comp' and 'cubic' falls off the end and returns None. */
  function FindMaxima(x: seq<real>, y: seq<Float>, kind: string,
                      findPeaks: seq<Float> -> seq<nat>,
                      fit: seq<Sample> -> Spline, derivative: Spline -> Spline,
                      roots: RootFinder): (r: Option<Result<Maxima, MaximaError>>)
    requires |x| == |y|
    requires forall k :: 0 <= k < |findPeaks(y)| ==> findPeaks(y)[k] < |y|
    ensures r.None? <==> kind != "comp" && kind != "cubic"
    ensures kind == "comp" ==> r == Some(Ok(PeakMaxima(x, y, findPeaks(y))))
    ensures kind == "cubic" ==> r == Some(SplineMaxima(x, y, fit, derivative, roots))
  {
    if kind == "comp" then Some(Ok(PeakMaxima(x, y, findPeaks(y))))
    else if kind == "cubic" then Some(SplineMaxima(x, y, fit, derivative, roots))
    else None
  }

  /** The cleaned series is empty exactly when every value is NaN. */
  lemma NoNumberIsEmpty(x: seq<real>, y: seq<Float>)
    requires |x| == |y|
    ensures Cleaned(x, y) == [] <==> forall p :: 0 <= p < |y| ==> y[p].NaN?
  {
    if forall p :: 0 <= p < |y| ==> y[p].NaN? {
      AllMaskedCountsZero(IsNaNMask(y));
    } else {
      var p :| 0 <= p < |y| && !y[p].NaN?;
      RankBound(IsNaNMask(y), p);
    }
  }
}
