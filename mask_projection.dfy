/** `remove_indices_by_mask` and `reinstate_indices_by_mask`: drop the masked
    cells of a field in row-major order, and scatter the survivors back into an
    array shaped like the mask with a fill value in the masked cells. */
module MaskProjection {
  import opened Floats
  import opened Grids

  datatype ProjectionError = ValueSizeMismatch

  /** Number of False (kept) cells of a flattened mask. */
  function CountUnmasked(mask: seq<bool>): (n: nat)
    ensures n <= |mask|
  {
    if mask == [] then 0
    else CountUnmasked(mask[..|mask| - 1]) + (if mask[|mask| - 1] then 0 else 1)
  }

  /** Position of the kept cell `p` among the kept cells: how many kept cells precede it. */
  function Rank(mask: seq<bool>, p: nat): nat
    requires p <= |mask|
  {
    CountUnmasked(mask[..p])
  }

  lemma {:induction false} CountUnmaskedPrefix(mask: seq<bool>, i: nat, j: nat)
    requires i <= j <= |mask|
    ensures CountUnmasked(mask[..i]) <= CountUnmasked(mask[..j])
    decreases j - i
  {
    if i < j {
      CountUnmaskedPrefix(mask, i, j - 1);
      assert mask[..j][..j - 1] == mask[..j - 1];
    }
  }

  /** A kept cell's rank is a valid index among the kept cells. */
  lemma RankBound(mask: seq<bool>, p: nat)
    requires p < |mask| && !mask[p]
    ensures Rank(mask, p) < CountUnmasked(mask)
  {
    assert mask[..p + 1][..p] == mask[..p];
    CountUnmaskedPrefix(mask, p + 1, |mask|);
    assert mask[..|mask|] == mask;
  }

  /** Distinct kept cells have distinct ranks, earlier cells smaller ones. */
  lemma RankIncreasing(mask: seq<bool>, p: nat, q: nat)
    requires p < q < |mask| && !mask[p]
    ensures Rank(mask, p) < Rank(mask, q)
  {
    assert mask[..p + 1][..p] == mask[..p];
    CountUnmaskedPrefix(mask, p + 1, q);
  }

  /** `A.flatten()[~mask.flatten()]`: the kept cells of `a`, in row-major order.
      numpy raises an IndexError when the two buffers differ in size. */
  function RemoveIndicesByMask<T>(a: seq<T>, mask: seq<bool>): (r: seq<T>)
    requires |a| == |mask|
    ensures |r| == CountUnmasked(mask)
    ensures forall p :: 0 <= p < |a| && !mask[p] ==> Rank(mask, p) < |r| && r[Rank(mask, p)] == a[p]
  {
    if a == [] then []
    else
      var n := |a| - 1;
      var r0 := RemoveIndicesByMask(a[..n], mask[..n]);
      assert forall p :: 0 <= p < n ==> mask[..n][..p] == mask[..p];
      if mask[n] then r0 else r0 + [a[n]]
  }

  /** The value numpy assigns to the kept cell of rank `k`: a one-element
      array is broadcast to every kept cell. */
  function Source(removed: seq<Float>, k: nat): Float
    requires |removed| == 1 || k < |removed|
  {
    if |removed| == 1 then removed[0] else removed[k]
  }

  /** numpy accepts the scatter `A[~mask] = array_removed` when the sizes agree
      or when `array_removed` has one element. */
  predicate Scatterable(removed: seq<Float>, mask: seq<bool>)
  {
    |removed| == CountUnmasked(mask) || |removed| == 1
  }

  /** What `reinstate_indices_by_mask` returns: the buffer shaped like the mask,
      kept cells in order from `removed`, masked cells set to `fill`. */
  function Reinstated(removed: seq<Float>, mask: Grid<bool>, fill: Float): (r: Result<Grid<Float>, ProjectionError>)
    requires mask.Valid()
  {
    if !Scatterable(removed, mask.cells) then Err(ValueSizeMismatch)
    else
      Ok(Grid(mask.shape, seq(|mask.cells|, p requires 0 <= p < |mask.cells| =>
        if mask.cells[p] then fill
        else (RankBound(mask.cells, p); Source(removed, Rank(mask.cells, p))))))
  }

  /** `reinstate_indices_by_mask`: allocate a zero buffer the size of the mask,
      scatter `removed` into its kept cells, then write `fill` into its masked cells. */
  method ReinstateIndicesByMask(removed: seq<Float>, mask: Grid<bool>, fill: Float)
    returns (r: Result<Grid<Float>, ProjectionError>)
    requires mask.Valid()
    ensures r.Ok? <==> Scatterable(removed, mask.cells)
    ensures r == Reinstated(removed, mask, fill)
  {
    var n := |mask.cells|;
    if !Scatterable(removed, mask.cells) {
      return Err(ValueSizeMismatch);
    }
    ghost var want := Reinstated(removed, mask, fill).value.cells;
    var a := new Float[n](_ => Num(0.0));
    // A[~mask] = array_removed
    forall p | 0 <= p < n && !mask.cells[p]
      ensures Rank(mask.cells, p) < CountUnmasked(mask.cells)
    {
      RankBound(mask.cells, p);
    }
    forall p | 0 <= p < n && !mask.cells[p] {
      a[p] := Source(removed, Rank(mask.cells, p));
    }
    // A[mask] = fill_value
    forall p | 0 <= p < n && mask.cells[p] {
      a[p] := fill;
    }
    assert a[..] == want;
    r := Ok(Grid(mask.shape, a[..]));
  }

  /** The result of a successful reinstate has the mask's shape, `fill` at every
      masked cell, and the kept values in row-major order at the kept cells. */
  lemma ReinstatedShape(removed: seq<Float>, mask: Grid<bool>, fill: Float, p: nat)
    requires mask.Valid() && |removed| == CountUnmasked(mask.cells) && p < |mask.cells|
    ensures Reinstated(removed, mask, fill).Ok?
    ensures Reinstated(removed, mask, fill).value.Valid()
    ensures Reinstated(removed, mask, fill).value.shape == mask.shape
    ensures mask.cells[p] ==> Reinstated(removed, mask, fill).value.cells[p] == fill
    ensures !mask.cells[p] ==>
              Rank(mask.cells, p) < |removed| && Reinstated(removed, mask, fill).value.cells[p] == removed[Rank(mask.cells, p)]
  {
    if !mask.cells[p] {
      RankBound(mask.cells, p);
    }
  }

  /** Round trip: reinstating what was removed restores every kept cell of `a`
      and puts `fill` in every masked cell, whatever the mask. */
  lemma RoundTrip(a: Grid<Float>, mask: Grid<bool>, fill: Float)
    requires a.Valid() && mask.Valid() && a.shape == mask.shape
    ensures Reinstated(RemoveIndicesByMask(a.cells, mask.cells), mask, fill).Ok?
    ensures Reinstated(RemoveIndicesByMask(a.cells, mask.cells), mask, fill).value.shape == a.shape
    ensures forall p :: 0 <= p < |a.cells| ==>
              Reinstated(RemoveIndicesByMask(a.cells, mask.cells), mask, fill).value.cells[p]
                == if mask.cells[p] then fill else a.cells[p]
  {
    var removed := RemoveIndicesByMask(a.cells, mask.cells);
    forall p | 0 <= p < |a.cells|
      ensures Reinstated(removed, mask, fill).value.cells[p] == if mask.cells[p] then fill else a.cells[p]
    {
      ReinstatedShape(removed, mask, fill, p);
    }
  }

  /** The other round trip: removing the masked cells of a reinstated array
      gives back exactly the values that were scattered. */
  lemma RemoveAfterReinstate(removed: seq<Float>, mask: Grid<bool>, fill: Float)
    requires mask.Valid() && |removed| == CountUnmasked(mask.cells)
    ensures RemoveIndicesByMask(Reinstated(removed, mask, fill).value.cells, mask.cells) == removed
  {
    var full := Reinstated(removed, mask, fill).value.cells;
    var back := RemoveIndicesByMask(full, mask.cells);
    forall k | 0 <= k < |removed|
      ensures back[k] == removed[k]
    {
      var p := KeptCellOfRank(mask.cells, k);
      ReinstatedShape(removed, mask, fill, p);
    }
  }

  /** Every rank below the kept count belongs to some kept cell. */
  lemma {:induction false} KeptCellOfRank(mask: seq<bool>, k: nat) returns (p: nat)
    requires k < CountUnmasked(mask)
    ensures p < |mask| && !mask[p] && Rank(mask, p) == k
  {
    var n := |mask| - 1;
    if k < CountUnmasked(mask[..n]) {
      p := KeptCellOfRank(mask[..n], k);
      assert mask[..n][..p] == mask[..p];
    } else {
      p := n;
    }
  }

  /** A mask that masks every cell keeps nothing. */
  lemma {:induction false} AllMaskedCountsZero(mask: seq<bool>)
    requires forall p :: 0 <= p < |mask| ==> mask[p]
    ensures CountUnmasked(mask) == 0
  {
    if mask != [] {
      AllMaskedCountsZero(mask[..|mask| - 1]);
    }
  }

  lemma {:induction false} NoneMaskedCountsAll(mask: seq<bool>)
    requires forall p :: 0 <= p < |mask| ==> !mask[p]
    ensures CountUnmasked(mask) == |mask|
  {
    if mask != [] {
      NoneMaskedCountsAll(mask[..|mask| - 1]);
    }
  }

  /** A mask that masks nothing keeps the whole buffer, in order. */
  lemma NothingMaskedKeepsAll<T>(a: seq<T>, mask: seq<bool>)
    requires |a| == |mask| && forall p :: 0 <= p < |mask| ==> !mask[p]
    ensures RemoveIndicesByMask(a, mask) == a
  {
    var r := RemoveIndicesByMask(a, mask);
    NoneMaskedCountsAll(mask);
    forall p | 0 <= p < |a|
      ensures r[p] == a[p]
    {
      NoneMaskedCountsAll(mask[..p]);
    }
  }

  // Dropping NaNs, `a[~np.isnan(a)]`, is the same projection with `np.isnan(a)` as the mask.

  /** `np.isnan(sample)`. */
  function IsNaNMask(sample: seq<Float>): (mask: seq<bool>)
    ensures |mask| == |sample|
  {
    seq(|sample|, k requires 0 <= k < |sample| => sample[k].NaN?)
  }

  /** `sample[~np.isnan(sample)]`: the numbers of the sample, in their order. */
  function Kept(sample: seq<Float>): (kept: seq<Float>)
    ensures |kept| == CountUnmasked(IsNaNMask(sample))
    ensures forall k :: 0 <= k < |kept| ==> kept[k].Num?
  {
    var kept := RemoveIndicesByMask(sample, IsNaNMask(sample));
    forall k | 0 <= k < |kept|
      ensures kept[k].Num?
    {
      var p := KeptCellOfRank(IsNaNMask(sample), k);
    }
    kept
  }

  /** Every number of the sample is kept. */
  lemma KeptAllNumbers(sample: seq<Float>)
    ensures forall p :: 0 <= p < |sample| && sample[p].Num? ==> sample[p] in Kept(sample)
  {
    forall p | 0 <= p < |sample| && sample[p].Num?
      ensures sample[p] in Kept(sample)
    {
      RankBound(IsNaNMask(sample), p);
    }
  }

  /** The kept sample of rank `k` is the number at some position of the sample. */
  lemma KeptOrigin(sample: seq<Float>, k: nat) returns (p: nat)
    requires k < |Kept(sample)|
    ensures p < |sample| && sample[p].Num? && Kept(sample)[k] == sample[p]
  {
    p := KeptCellOfRank(IsNaNMask(sample), k);
  }

  /** A sample with no number keeps nothing. */
  lemma {:induction false} AllNaNKeepsNothing(sample: seq<Float>)
    requires forall k :: 0 <= k < |sample| ==> sample[k].NaN?
    ensures Kept(sample) == []
  {
    AllMaskedCountsZero(IsNaNMask(sample));
  }
}
