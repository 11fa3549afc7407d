/** `doodson_x0_filter`: the Doodson X0 weighted moving average over 39 hourly
    values, applied along one axis of an array, with the 19 values at each end
    of that axis set to NaN. */
module TidalFilter {
  import opened Floats

  /** Number of taps, and the number of values on each side of the centre tap. */
  const Taps: nat := 39
  const HalfWidth: nat := 19

  /** The Doodson X0 weights; the filter divides them by `Divisor`. */
  const Kernel: seq<int> := [1, 0, 1, 0, 0, 1, 0, 1, 1, 0, 2, 0, 1, 1, 0, 2, 1, 1, 2,
                             0,
                             2, 1, 1, 2, 0, 1, 1, 0, 2, 0, 1, 1, 0, 1, 0, 0, 1, 0, 1]
  const Divisor: int := 30

  /** `RunningTotals[k]` is the sum of the first `k` weights. */
  const RunningTotals: seq<int> := [0, 1, 1, 2, 2, 2, 3, 3, 4, 5, 5, 7, 7, 8, 9, 9, 11, 12, 13, 15,
                                    15, 17, 18, 19, 21, 21, 22, 23, 23, 25, 25, 26, 27, 27, 28, 28,
                                    28, 29, 29, 30]

  /** Sum of the first `k` weights of `kern`. */
  function Sum(kern: seq<int>, k: nat): int
    requires k <= |kern|
  {
    if k == 0 then 0 else Sum(kern, k - 1) + kern[k - 1]
  }

  /** `sum_{k' < k} kern[k'] * xs[k']`. */
  function WeightedSum(kern: seq<int>, xs: seq<real>, k: nat): real
    requires k <= |kern| && k <= |xs|
  {
    if k == 0 then 0.0 else WeightedSum(kern, xs, k - 1) + kern[k - 1] as real * xs[k - 1]
  }

  /** Weighting a run of equal values `c` gives `c` times the sum of the weights. */
  lemma {:induction false} ConstantWeighted(kern: seq<int>, xs: seq<real>, c: real, k: nat)
    requires k <= |kern| && k <= |xs|
    requires forall j :: 0 <= j < |xs| ==> xs[j] == c
    ensures WeightedSum(kern, xs, k) == c * Sum(kern, k) as real
  {
    if k > 0 {
      ConstantWeighted(kern, xs, c, k - 1);
    }
  }

  lemma TapRange1(k: nat)
    requires 1 <= k <= 3
    ensures RunningTotals[k] == RunningTotals[k - 1] + Kernel[k - 1] && Kernel[k - 1] >= 0
  {
  }

  lemma TapRange2(k: nat)
    requires 4 <= k <= 6
    ensures RunningTotals[k] == RunningTotals[k - 1] + Kernel[k - 1] && Kernel[k - 1] >= 0
  {
  }

  lemma TapRange3(k: nat)
    requires 7 <= k <= 9
    ensures RunningTotals[k] == RunningTotals[k - 1] + Kernel[k - 1] && Kernel[k - 1] >= 0
  {
  }

  lemma TapRange4(k: nat)
    requires 10 <= k <= 13
    ensures RunningTotals[k] == RunningTotals[k - 1] + Kernel[k - 1] && Kernel[k - 1] >= 0
  {
  }

  lemma TapRange5(k: nat)
    requires 14 <= k <= 19
    ensures RunningTotals[k] == RunningTotals[k - 1] + Kernel[k - 1] && Kernel[k - 1] >= 0
  {
  }

  lemma TapRange6(k: nat)
    requires 20 <= k <= 26
    ensures RunningTotals[k] == RunningTotals[k - 1] + Kernel[k - 1] && Kernel[k - 1] >= 0
  {
  }

  lemma TapRange7(k: nat)
    requires 27 <= k <= 33
    ensures RunningTotals[k] == RunningTotals[k - 1] + Kernel[k - 1] && Kernel[k - 1] >= 0
  {
  }

  lemma TapRange8(k: nat)
    requires 34 <= k <= 39
    ensures RunningTotals[k] == RunningTotals[k - 1] + Kernel[k - 1] && Kernel[k - 1] >= 0
  {
  }

  /** Tap `k - 1` is non-negative and moves the running total from entry `k - 1` to entry `k`. */
  lemma TapStep(k: nat)
    requires 1 <= k <= |Kernel|
    ensures RunningTotals[k] == RunningTotals[k - 1] + Kernel[k - 1] && Kernel[k - 1] >= 0
  {
    if k <= 3 {
      TapRange1(k);
    } else if k <= 6 {
      TapRange2(k);
    } else if k <= 9 {
      TapRange3(k);
    } else if k <= 13 {
      TapRange4(k);
    } else if k <= 19 {
      TapRange5(k);
    } else if k <= 26 {
      TapRange6(k);
    } else if k <= 33 {
      TapRange7(k);
    } else {
      TapRange8(k);
    }
  }

  lemma MirrorLow(k: nat)
    requires k <= 9
    ensures Kernel[k] == Kernel[38 - k]
  {
  }

  lemma MirrorHigh(k: nat)
    requires 10 <= k <= 19
    ensures Kernel[k] == Kernel[38 - k]
  {
  }

  lemma {:induction false} KernelSumTotals(k: nat)
    requires k <= |Kernel|
    ensures Sum(Kernel, k) == RunningTotals[k]
  {
    if k > 0 {
      KernelSumTotals(k - 1);
      TapStep(k);
    }
  }

  /** The kernel has 39 non-negative integer taps and reads the same backwards. */
  lemma KernelShape()
    ensures |Kernel| == Taps == 2 * HalfWidth + 1
    ensures forall k :: 0 <= k < |Kernel| ==> Kernel[k] >= 0
    ensures forall k :: 0 <= k < |Kernel| ==> Kernel[k] == Kernel[|Kernel| - 1 - k]
  {
    forall k | 0 <= k < |Kernel|
      ensures Kernel[k] >= 0
    {
      TapStep(k + 1);
    }
    forall k | 0 <= k < |Kernel|
      ensures Kernel[k] == Kernel[|Kernel| - 1 - k]
    {
      if k <= 9 {
        MirrorLow(k);
      } else if k <= 19 {
        MirrorHigh(k);
      } else if k <= 28 {
        MirrorHigh(38 - k);
      } else {
        MirrorLow(38 - k);
      }
    }
  }

  /** The weights add up to the divisor, so the filter is a weighted average. */
  lemma KernelSumIsDivisor()
    ensures Sum(Kernel, |Kernel|) == Divisor
  {
    KernelSumTotals(|Kernel|);
  }

  /** Output `i` of `np.convolve(m, Kernel / 30, mode='same')` accumulated over
      the first `k` taps: tap `k'` meets `m[i + 19 - k']` when that index exists.
      A NaN that meets any tap, even a zero weight, makes the sum NaN. */
  function ConvolvePartial(kern: seq<int>, m: seq<Float>, i: int, k: nat): Float
    requires k <= |kern|
  {
    if k == 0 then Num(0.0)
    else
      var acc := ConvolvePartial(kern, m, i, k - 1);
      var j := i + HalfWidth - (k - 1);
      if 0 <= j < |m| then Add(acc, Scale(kern[k - 1] as real / Divisor as real, m[j])) else acc
  }

  /** `np.convolve(m, Kernel / 30, mode='same')[i]`. */
  function ConvolveSame(m: seq<Float>, i: int): Float
  {
    ConvolvePartial(Kernel, m, i, |Kernel|)
  }

  /** The window of an interior output: the 39 values centred on `i`. */
  predicate Interior(n: nat, i: int)
  {
    HalfWidth <= i < n - HalfWidth
  }

  /** The 39 window values of an interior output `i` with no NaN, in the order
      the taps meet them: tap `k` meets `m[i + 19 - k]`. */
  function Window(m: seq<Float>, i: int): (xs: seq<real>)
    requires Interior(|m|, i)
    requires forall j :: i - HalfWidth <= j <= i + HalfWidth ==> m[j].Num?
    ensures |xs| == Taps
  {
    seq(Taps, k requires 0 <= k < Taps => m[i + HalfWidth - k].v)
  }

  lemma {:induction false} NumericPartial(kern: seq<int>, m: seq<Float>, i: int, k: nat)
    requires k <= |kern| && k <= Taps && Interior(|m|, i)
    requires forall j :: i - HalfWidth <= j <= i + HalfWidth ==> m[j].Num?
    ensures ConvolvePartial(kern, m, i, k) == Num(WeightedSum(kern, Window(m, i), k) / 30.0)
  {
    if k > 0 {
      NumericPartial(kern, m, i, k - 1);
      var j := i + HalfWidth - (k - 1);
      assert Window(m, i)[k - 1] == m[j].v;
      ScaledStep(WeightedSum(kern, Window(m, i), k - 1), kern[k - 1] as real, m[j].v);
    }
  }

  lemma ScaledStep(acc: real, w: real, x: real)
    ensures acc / 30.0 + w / 30.0 * x == (acc + w * x) / 30.0
  {
  }

  /** An interior output with no NaN in its window is the weighted sum
      `sum_k Kernel[k] * m[i + 19 - k]` divided by 30. */
  lemma InteriorValue(m: seq<Float>, i: int)
    requires Interior(|m|, i)
    requires forall j :: i - HalfWidth <= j <= i + HalfWidth ==> m[j].Num?
    ensures ConvolveSame(m, i) == Num(WeightedSum(Kernel, Window(m, i), |Kernel|) / 30.0)
  {
    KernelShape();
    NumericPartial(Kernel, m, i, |Kernel|);
  }

  /** The filter preserves a constant: at every interior output whose window
      holds only the value `c`, the output is `c`. */
  lemma ConstantPreserved(m: seq<Float>, i: int, c: real)
    requires Interior(|m|, i)
    requires forall j :: i - HalfWidth <= j <= i + HalfWidth ==> m[j] == Num(c)
    ensures ConvolveSame(m, i) == Num(c)
  {
    InteriorValue(m, i);
    KernelSumIsDivisor();
    ConstantWeighted(Kernel, Window(m, i), c, |Kernel|);
  }

  lemma {:induction false} NaNPartial(kern: seq<int>, m: seq<Float>, i: int, k: nat, j: int)
    requires k <= |kern| && 0 <= j < |m| && m[j].NaN?
    requires i + HalfWidth - k < j <= i + HalfWidth
    ensures ConvolvePartial(kern, m, i, k).NaN?
  {
    if j != i + HalfWidth - (k - 1) {
      NaNPartial(kern, m, i, k - 1, j);
    }
  }

  /** A NaN anywhere in the window of output `i` makes that output NaN. */
  lemma NaNSpreads(m: seq<Float>, i: int, j: int)
    requires 0 <= j < |m| && m[j].NaN? && i - HalfWidth <= j <= i + HalfWidth
    ensures ConvolveSame(m, i).NaN?
  {
    KernelShape();
    NaNPartial(Kernel, m, i, |Kernel|, j);
  }

  /** The filter applied to one series of at least 39 values: the 'same'-mode
      convolution, then NaN at the first 19 and the last 19 positions. */
  function FilterSeries(m: seq<Float>): (r: seq<Float>)
    requires |m| >= Taps
  {
    seq(|m|, i requires 0 <= i < |m| => if Interior(|m|, i) then ConvolveSame(m, i) else NaN)
  }

  /** A filtered series has the input's length, NaN exactly where the kernel
      does not fit, and a constant series stays that constant everywhere else. */
  lemma FilterSeriesConstant(m: seq<Float>, c: real)
    requires |m| >= Taps
    requires forall j :: 0 <= j < |m| ==> m[j] == Num(c)
    ensures |FilterSeries(m)| == |m|
    ensures forall i :: 0 <= i < |m| ==>
              FilterSeries(m)[i] == if Interior(|m|, i) then Num(c) else NaN
  {
    forall i | 0 <= i < |m| && Interior(|m|, i)
      ensures FilterSeries(m)[i] == Num(c)
    {
      ConstantPreserved(m, i, c);
    }
  }

  /** A filtered output is NaN exactly in the 19-value borders, or where a NaN
      lies in the 39-value window the kernel covers. */
  lemma FilterSeriesNaN(m: seq<Float>, i: int)
    requires |m| >= Taps && 0 <= i < |m|
    ensures FilterSeries(m)[i].NaN? <==>
              !Interior(|m|, i) || exists j :: i - HalfWidth <= j <= i + HalfWidth && 0 <= j < |m| && m[j].NaN?
  {
    if Interior(|m|, i) {
      if j :| i - HalfWidth <= j <= i + HalfWidth && 0 <= j < |m| && m[j].NaN? {
        NaNSpreads(m, i, j);
      } else {
        InteriorValue(m, i);
      }
    }
  }

  /** Axis `ax` of a 2-D array, with numpy's negative axes (-1 is the last). */
  function NormalAxis(ax: int): (a: nat)
    requires -2 <= ax < 2
    ensures a < 2 && a == ax % 2
  {
    if ax < 0 then ax + 2 else ax
  }

  function AxisLength(a: array2<Float>, ax: nat): nat
  {
    if ax == 0 then a.Length0 else a.Length1
  }

  function OtherLength(a: array2<Float>, ax: nat): nat
  {
    if ax == 0 then a.Length1 else a.Length0
  }

  /** Slice `s` along axis `ax`: the series `np.apply_along_axis` hands to the filter. */
  function Lane(a: array2<Float>, ax: nat, s: nat): (m: seq<Float>)
    reads a
    requires ax < 2 && s < OtherLength(a, ax)
    ensures |m| == AxisLength(a, ax)
  {
    seq(AxisLength(a, ax), t requires 0 <= t < AxisLength(a, ax) reads a =>
      if ax == 0 then a[t, s] else a[s, t])
  }

  /** `np.apply_along_axis` refuses an array whose dimension other than the
      filtered axis is empty. */
  datatype FilterError = EmptyIterationDimension

  /** `doodson_x0_filter(elevation, ax)` on a 1-D array (axis 0 or -1). A series
      shorter than 39 gives None and no output. Otherwise the series is
      convolved with the kernel into a new array, and its first 19 and last 19
      entries are overwritten with NaN. The input array is not modified. */
  method DoodsonX0FilterSeries(elevation: array<Float>, ax: int) returns (filtered: Option<array<Float>>)
    requires -1 <= ax < 1
    ensures filtered.None? <==> elevation.Length < Taps
    ensures filtered.Some? ==> fresh(filtered.value) && filtered.value[..] == FilterSeries(elevation[..])
  {
    var n := elevation.Length;
    if n < Taps {
      return None;
    }
    var m := elevation[..];
    var f := new Float[n];
    // np.apply_along_axis(lambda m: np.convolve(m, kern, mode='same'), ax, elevation)
    forall t | 0 <= t < n {
      f[t] := ConvolveSame(m, t);
    }
    // filtered[:19] = nan; filtered[-19:] = nan
    forall t | 0 <= t < n && !Interior(n, t) {
      f[t] := NaN;
    }
    assert f[..] == FilterSeries(m);
    assert elevation[..] == m;
    filtered := Some(f);
  }

  /** `doodson_x0_filter(elevation, ax)` on a 2-D array. An axis shorter than 39
      gives Ok(None) and no output. An axis of 39 or more whose other dimension
      is empty makes `np.apply_along_axis` raise. Otherwise every slice along
      the axis is convolved with the kernel into a new array of the input's
      shape, and the first 19 and last 19 entries of every slice are
      overwritten with NaN. The input array is not modified. */
  method DoodsonX0Filter(elevation: array2<Float>, ax: int)
    returns (filtered: Result<Option<array2<Float>>, FilterError>)
    requires -2 <= ax < 2
    ensures filtered == Ok(None) <==> AxisLength(elevation, NormalAxis(ax)) < Taps
    ensures filtered.Err? <==>
              AxisLength(elevation, NormalAxis(ax)) >= Taps && OtherLength(elevation, NormalAxis(ax)) == 0
    ensures filtered.Ok? && filtered.value.Some? ==>
              var f := filtered.value.value;
              fresh(f) &&
              f.Length0 == elevation.Length0 && f.Length1 == elevation.Length1 &&
              forall s :: 0 <= s < OtherLength(elevation, NormalAxis(ax)) ==>
                Lane(f, NormalAxis(ax), s) == FilterSeries(Lane(elevation, NormalAxis(ax), s))
  {
    var a := NormalAxis(ax);
    var n := AxisLength(elevation, a);
    if n < Taps {
      return Ok(None);
    }
    if OtherLength(elevation, a) == 0 {
      return Err(EmptyIterationDimension);
    }
    var f := new Float[elevation.Length0, elevation.Length1];
    // np.apply_along_axis(lambda m: np.convolve(m, kern, mode='same'), ax, elevation)
    if a == 0 {
      forall t, s | 0 <= t < elevation.Length0 && 0 <= s < elevation.Length1 {
        f[t, s] := ConvolveSame(Lane(elevation, 0, s), t);
      }
    } else {
      forall s, t | 0 <= s < elevation.Length0 && 0 <= t < elevation.Length1 {
        f[s, t] := ConvolveSame(Lane(elevation, 1, s), t);
      }
    }
    // filtered.swapaxes(0, ax); filtered[:19] = nan; filtered[-19:] = nan
    if a == 0 {
      forall t, s | 0 <= t < n && !Interior(n, t) && 0 <= s < elevation.Length1 {
        f[t, s] := NaN;
      }
    } else {
      forall s, t | 0 <= s < elevation.Length0 && 0 <= t < n && !Interior(n, t) {
        f[s, t] := NaN;
      }
    }
    forall s | 0 <= s < OtherLength(elevation, a)
      ensures Lane(f, a, s) == FilterSeries(Lane(elevation, a, s))
    {
    }
    filtered := Ok(Some(f));
  }
}
