# COAsT utilities: mask projection, grid selection and statistics

This project models the index and statistics helpers of the COAsT
(Coastal Ocean Assessment Toolbox) Python package in Dafny and proves what
they promise.

- `coast/general_utils.py` holds two groups of helpers:
  - The mask projection pair. `remove_indices_by_mask` flattens a field and drops its masked cells. `reinstate_indices_by_mask` scatters the survivors back and fills the masked cells.
  - The grid-cell selectors: `subset_indices_by_distance`, `subset_indices_by_distance_old` and `nearest_indices_2D`.
- `coast/stats_util.py` holds:
  - the empirical CDF (`empirical_distribution`),
  - the Doodson X0 tidal filter (`doodson_x0_filter`),
  - the roots of a quadratic spline (`quadratic_spline_roots`),
  - the method dispatch and series cleaning of `find_maxima`,
  - the structure of `cumulative_distribution`.

One module per component:

| file | module | models |
|---|---|---|
| `floats.dfy` | `Floats` | A double as an exact real or NaN, with numpy's NaN rules for `+`, `*` and `<`. `Option` and `Result` stand for Python's `None` and exceptions. |
| `floats.dfy` | `Grids` | Array shapes and the row-major (C order) layout: `ravel` and `np.unravel_index`. |
| `mask_projection.dfy` | `MaskProjection` | The remove/reinstate pair, and dropping NaNs (`a[~np.isnan(a)]`) as the same projection. |
| `spatial_index.dfy` | `SpatialIndex` | Radius selection, the older km-distance selection and nearest-cell search, over an abstract distance function. |
| `tidal_filter.dfy` | `TidalFilter` | The 39-tap Doodson X0 kernel, 'same'-mode convolution and the NaN boundary, on a 1-D series and along either axis of a 2-D array. |
| `distribution_estimator.dfy` | `DistributionEstimator` | `empirical_distribution` and `cumulative_distribution`. |
| `extrema_finder.dfy` | `ExtremaFinder` | `quadratic_spline_roots` and `find_maxima`. |

## How the model is built

- **Arrays.** An n-dimensional numpy array is its flat row-major buffer plus its shape.
  - `flatten()` is the buffer itself; cell `(row, col)` is at `row * cols + col`.
- **State that changes.** Where the Python changes state in place, the model is a method.
  - The scatter in `reinstate_indices_by_mask`, the NaN writes into the coordinate arrays and the boundary overwrite in the Doodson filter are Dafny `forall` statements over arrays. Each is one vectorised numpy assignment.
  - The loops over the sample in `empirical_distribution`, over knot intervals in `quadratic_spline_roots` and over centres in `subset_indices_by_distance` are loops with invariants.
  - Most methods are proved equal to a specification function, and the properties are proved about that function.
  - Three are specified by properties instead. NearestIndices2D is specified by optimality: no usable cell is closer. UnravelPerCentre and the 2-D result of SubsetIndicesByDistance are specified pair by pair: each pair lies in the grid and ravels back to the flat index it came from.
- **Parameters for what the code calls out to.**
  - The distance is a function parameter: the haversine metric of sklearn's `BallTree`, as an angle in radians.
  - `BallTree.query_radius` is specified as a linear scan in index order that keeps every non-NaN point at distance `<= r`.
  - `BallTree.query(k=1)` is specified by optimality alone: no non-NaN point is closer than the one returned.
  - Also parameters: the km distance of the older selector, `np.roots`, the spline fit and its derivative, `scipy.signal.find_peaks` and the normal density.

## Model

Rows whose third column gives only a length, a bound or a guard are definitions that the other rows' properties rest on.

| member | source | states |
|---|---|---|
| Floats.Add | coast/stats_util.py:143-144 | The sum of two doubles is a number exactly when both operands are; NaN propagates. |
| Floats.Scale | coast/stats_util.py:140-144 | A finite weight times a value is a number exactly when the value is, so even a zero weight keeps a NaN. |
| Grids.Unravel | coast/general_utils.py:70 | `np.unravel_index(i, (rows, cols))` gives `(row, col)` with `row * cols + col == i` and `col < cols`. |
| Grids.UnravelInBounds | coast/general_utils.py:215 | A flat index inside a `rows x cols` grid unravels to a row below `rows` and a column below `cols`. |
| Grids.RavelUnravel | coast/general_utils.py:70 | Every cell inside the grid has a flat index inside the buffer, and unravelling that index gives the cell back. |
| Grids.RavelInjective | coast/general_utils.py:97 | Two cells with the same flat index are the same cell. |
| MaskProjection.CountUnmasked | coast/general_utils.py:137 | The number of kept (False) mask cells is at most the size of the mask. |
| MaskProjection.RankBound | coast/general_utils.py:137 | A kept cell's position among the kept cells is below their count. |
| MaskProjection.RankIncreasing | coast/general_utils.py:137 | Kept cells keep their row-major order: an earlier kept cell gets an earlier output position. |
| MaskProjection.RemoveIndicesByMask | coast/general_utils.py:130-139 | The output has one element per False mask cell. Each kept cell's value sits at that cell's rank among the kept cells, so the output is the kept values in row-major order. |
| MaskProjection.KeptCellOfRank | coast/general_utils.py:137 | Every output position comes from a kept cell whose rank is that position. |
| MaskProjection.ReinstateIndicesByMask | coast/general_utils.py:141-154 | Succeeds exactly when numpy accepts `A[~mask] = array_removed`: the lengths match, or there is one value to broadcast. The zero buffer, after the scatter and the fill, equals `Reinstated`. |
| MaskProjection.ReinstatedShape | coast/general_utils.py:148-153 | Given one value per kept cell, the result has the mask's shape, `fill` at every masked cell and the kept values in row-major order at the kept cells. |
| MaskProjection.RoundTrip | coast/general_utils.py:130-154 | Reinstating what was removed succeeds with the field's shape, restores every unmasked cell and puts `fill` at every masked cell. |
| MaskProjection.RemoveAfterReinstate | coast/general_utils.py:130-154 | Removing the masked cells of a reinstated array gives back exactly the scattered values. |
| MaskProjection.AllMaskedCountsZero | coast/general_utils.py:137 | A mask that masks every cell keeps nothing. |
| MaskProjection.NoneMaskedCountsAll | coast/general_utils.py:137 | A mask that masks no cell keeps every cell. |
| MaskProjection.NothingMaskedKeepsAll | coast/general_utils.py:137 | With nothing masked, the projection returns the whole buffer unchanged. |
| MaskProjection.Kept | coast/stats_util.py:206 | `sample[~np.isnan(sample)]` has one entry per non-NaN sample, and every entry is a number. |
| MaskProjection.KeptAllNumbers | coast/stats_util.py:206 | Every number in the sample survives the NaN drop. |
| MaskProjection.KeptOrigin | coast/stats_util.py:206 | Every surviving entry is the number at some position of the sample. |
| MaskProjection.AllNaNKeepsNothing | coast/stats_util.py:206 | An all-NaN (or empty) sample keeps nothing. |
| SpatialIndex.Points | coast/general_utils.py:48-50 | Cell `p` is a tree point exactly when both its longitude and latitude are numbers. |
| SpatialIndex.Where | coast/general_utils.py:97 | `np.where` on a flat boolean buffer lists every True position and only those, in strictly increasing order. |
| SpatialIndex.QueryRadiusExact | coast/general_utils.py:60-61 | A radius query returns every non-NaN point with `dist <= r` and only those, each once, in bounds. |
| SpatialIndex.QueryBatch | coast/general_utils.py:30-35 | A scalar centre becomes a batch of one. An array of centres is the batch itself, except that an array of one or no centre has no valid batch: the query array built from it is 3-D or empty (lines 53-56), and `query_radius` refuses both. |
| SpatialIndex.BatchQuery | coast/general_utils.py:61 | One index set per centre of the batch. |
| SpatialIndex.MaskedQueryMembership | coast/general_utils.py:42-61 | After masking, a cell is returned for a centre exactly when it is unmasked, has numeric coordinates and lies within `r` (`<=`). |
| SpatialIndex.UnravelAll | coast/general_utils.py:70 | Unravelling an index array gives, per index, a row and a column inside the grid whose ravelled index is that index. |
| SpatialIndex.SubsetIndicesByDistance | coast/general_utils.py:12-73 | The angle is `radius / 6371`, and with a mask the caller's arrays are left NaN at the masked cells. A grid with no cells fails (`EmptyGrid`, the tree at line 60). Otherwise an array of one or no centre fails (`MalformedCentres`, the query at line 61), after those writes. Otherwise a 1-D grid gets exactly the per-centre radius queries, and a 2-D grid gets per centre `(ind_x, ind_y)`, x first, each pair in bounds and ravelling to the query's flat index. |
| SpatialIndex.UnravelPerCentre | coast/general_utils.py:67-73 | The loop over centres appends, per centre, a column list and a row list whose pairs ravel back to that centre's flat indices. |
| SpatialIndex.WithinGridCells | coast/general_utils.py:94-97 | Read as a 2-D grid, the boolean buffer holds at `(row, col)` the strict test for that cell. |
| SpatialIndex.SubsetIndicesByDistanceOld | coast/general_utils.py:75-99 | Returns (rows, cols), row first. Every cell listed is strictly within `radius` km; every such cell is listed; the list is in row-major order. |
| SpatialIndex.WhereGrid | coast/general_utils.py:97 | `np.where` on a 2-D grid: every pair is a True cell, every True cell is listed, and pairs come in row-major order. |
| SpatialIndex.WhereUnravelComplete | coast/general_utils.py:97 | Unravelling the True positions of the flat buffer lists every True cell of the grid. |
| SpatialIndex.WhereUnravelOrdered | coast/general_utils.py:97 | Ascending flat indices unravel to pairs in row-major order. |
| SpatialIndex.RowMajorOrder | coast/general_utils.py:97 | A smaller flat index means an earlier row, or the same row and an earlier column. |
| SpatialIndex.Nearest | coast/general_utils.py:211-212 | Finds nothing exactly when no point is usable; otherwise the returned point is usable and no usable point is closer. |
| SpatialIndex.GridPoints | coast/general_utils.py:193-203 | The masked point cloud has one entry per grid cell. |
| SpatialIndex.GridPointsAt | coast/general_utils.py:193-203 | A cell is in the masked point cloud exactly when it is unmasked and both its coordinates are numbers; it is then the cell's own (lat, lon). |
| SpatialIndex.MaskedCopy | coast/general_utils.py:188-198 | `np.array(coord)` then `coord[mask] = np.nan` gives a fresh array equal to the masked coordinates. |
| SpatialIndex.TreeData | coast/general_utils.py:60 | As written, the ball tree accepts its points exactly when there is at least one and none of them has a NaN coordinate. |
| SpatialIndex.MaskedCellRejected | coast/general_utils.py:197-211 | As written, masking any cell makes the tree refuse the point cloud. |
| SpatialIndex.NearestIndices2D | coast/general_utils.py:156-218 | Fails (`EmptyQuery`) exactly when there is no query point, which `tree.query` at line 212 refuses. Otherwise one (x, y) per query point. Each lies inside the grid, and its cell is a nearest unmasked, non-NaN cell to the query. The caller's arrays are not modified. |
| TidalFilter.ConstantWeighted | coast/stats_util.py:143-144 | Weighting a run of equal values gives that value times the sum of the weights. |
| TidalFilter.KernelShape | coast/stats_util.py:137-139 | The Doodson X0 kernel has 39 = 2 * 19 + 1 non-negative integer taps and reads the same backwards. |
| TidalFilter.KernelSumIsDivisor | coast/stats_util.py:137-140 | The taps add up to 30, the divisor, so the filter is a weighted average. |
| TidalFilter.InteriorValue | coast/stats_util.py:143-144 | An interior output of the 'same'-mode convolution `ConvolveSame` with no NaN in its window equals `sum_k kern[k] * m[i + 19 - k] / 30`. |
| TidalFilter.ConstantPreserved | coast/stats_util.py:137-144 | An interior output whose window holds only the value `c` is `c`. |
| TidalFilter.NaNSpreads | coast/stats_util.py:143-144 | A NaN anywhere in the 39-value window makes the output NaN, even under a zero weight. |
| TidalFilter.FilterSeriesNaN | coast/stats_util.py:143-151 | A filtered output is NaN exactly in the 19-value borders or when a NaN lies in the 39-value window the kernel covers. |
| TidalFilter.FilterSeriesConstant | coast/stats_util.py:143-151 | A filtered constant series keeps the input's length, is NaN at the 19 positions at each end and equals the constant everywhere else. |
| TidalFilter.NormalAxis | coast/stats_util.py:133 | A numpy axis of a 2-D array, -2 to 1, names axis `ax mod 2`: -1 is the last axis. |
| TidalFilter.Lane | coast/stats_util.py:143-144 | A slice along the axis has the axis's length. |
| TidalFilter.DoodsonX0FilterSeries | coast/stats_util.py:106-152 | On a 1-D series: None exactly when it has fewer than 39 entries. Otherwise a fresh array holding the 'same'-mode convolution, NaN at its first 19 and last 19 entries. |
| TidalFilter.DoodsonX0Filter | coast/stats_util.py:106-152 | On a 2-D array: no result (`None`) exactly when the axis has fewer than 39 entries. An error exactly when the axis is long enough but the other dimension is empty, which `np.apply_along_axis` refuses. Otherwise a fresh array of the input's shape; every slice along the axis is the 'same'-mode convolution, NaN at its first 19 and last 19 entries. |
| DistributionEstimator.CountBelow | coast/stats_util.py:210-211 | The number of samples below `x[i]` is at most the number of samples. |
| DistributionEstimator.Ecdf | coast/stats_util.py:208 | The empirical CDF has one entry per x-value. |
| DistributionEstimator.EmpiricalDistribution | coast/stats_util.py:195-212 | The loop that adds `1/n` to every `edf[x > ss]` ends with entry `i` equal to the fraction of non-NaN samples strictly below `x[i]`. |
| DistributionEstimator.EcdfBounds | coast/stats_util.py:208-211 | Every entry lies in [0, 1]. |
| DistributionEstimator.CountBelowMonotone | coast/stats_util.py:211 | A larger x-value has at least as many samples below it. |
| DistributionEstimator.EcdfMonotone | coast/stats_util.py:208-211 | Over numeric x-values in ascending order the entries never decrease. |
| DistributionEstimator.CountBelowNaN | coast/stats_util.py:211 | No sample is below NaN (`NaN > ss` is False). |
| DistributionEstimator.EcdfAtNaN | coast/stats_util.py:211 | The entry at a NaN x-value is 0. |
| DistributionEstimator.EcdfOfNoNumbers | coast/stats_util.py:206-211 | An empty or all-NaN sample gives all zeros: the loop never runs. |
| DistributionEstimator.CountBelowAll | coast/stats_util.py:211 | When every sample is below `x[i]`, all of them are counted. |
| DistributionEstimator.EcdfAboveAll | coast/stats_util.py:206-211 | Above every number of a sample that has one, the entry is exactly 1 over the reals (the `1/n` steps are not rounded). |
| DistributionEstimator.CountBelowAppend | coast/stats_util.py:210-211 | Counting over two parts of the sample adds up. |
| DistributionEstimator.CountBelowPermutation | coast/stats_util.py:207-211 | The count depends only on the multiset of samples, so the `np.sort` before the loop does not change the result. |
| DistributionEstimator.Trapz | coast/stats_util.py:190 | The trapezoid rule over ascending x-values and a non-negative density is non-negative. |
| DistributionEstimator.CumulativeDistribution | coast/stats_util.py:175-193 | Anything but 'gaussian' raises NotImplementedError, whatever `x` is. 'gaussian' with the default `x=None` raises TypeError at `len(x)`. Otherwise one entry per x-value, with entries 0 and 1 both 0 (`np.trapz` over fewer than two points). |
| DistributionEstimator.CumulativeStep | coast/stats_util.py:190 | Each later entry adds the trapezoid between the two points before it. |
| DistributionEstimator.CumulativeMonotone | coast/stats_util.py:188-190 | With ascending x-values and a non-negative density, the estimated CDF never decreases. |
| ExtremaFinder.QuadraticThroughSamples | coast/stats_util.py:24-25 | `[u+w-2v, w-u, 2v]` takes the values 2u, 2v and 2w at t = -1, 0 and 1. |
| ExtremaFinder.ToIntervalEnds | coast/stats_util.py:27 | `t*(b-a)/2 + (b+a)/2` sends -1, 0 and 1 to `a`, the midpoint and `b`. |
| ExtremaFinder.ToIntervalWithin | coast/stats_util.py:26-27 | A kept parameter in [-1, 1] maps into its knot interval. |
| ExtremaFinder.QuadraticPieceCarried | coast/stats_util.py:23-27 | When the spline is a quadratic on the interval, the polynomial handed to `np.roots` is twice that quadratic carried over to [-1, 1]. So its roots in [-1, 1] are the parameters of the spline's roots. |
| ExtremaFinder.KeptRoots | coast/stats_util.py:26 | Every root kept by `np.isreal(t) & (np.abs(t) <= 1)` lies in [-1, 1]. |
| ExtremaFinder.KeptRootsExact | coast/stats_util.py:26 | The filter keeps exactly the real roots of modulus at most 1. |
| ExtremaFinder.MapToIntervalWithin | coast/stats_util.py:27 | The affine map sends every parameter in [-1, 1] between the interval's ends. |
| ExtremaFinder.IntervalRootsWithin | coast/stats_util.py:24-27 | Every root a knot interval contributes lies between its two knots. |
| ExtremaFinder.RootsUpToWithin | coast/stats_util.py:23-27 | Every root found in the first `i` knot intervals lies in one of them. |
| ExtremaFinder.SplineRootsWithin | coast/stats_util.py:15-28 | Every root returned lies between two consecutive knots. |
| ExtremaFinder.QuadraticSplineRoots | coast/stats_util.py:15-28 | The loop over consecutive knots returns the concatenation, in knot order, of the roots each interval contributes. |
| ExtremaFinder.Insert | coast/stats_util.py:79-80 | Inserting into a time-sorted series keeps it sorted and adds exactly the new pair. |
| ExtremaFinder.SortByTime | coast/stats_util.py:79-80 | `sortby(x)` returns the pairs sorted by ascending time, as a permutation of its input. |
| ExtremaFinder.Cleaned | coast/stats_util.py:72-80 | The series handed to the fit is sorted by time and has one pair per non-NaN value. |
| ExtremaFinder.NumericPairs | coast/stats_util.py:72-76 | One pair survives per non-NaN value. |
| ExtremaFinder.CleanedSeries | coast/stats_util.py:72-80 | The fitted series is sorted by time. It is a permutation of the pairs whose value is a number; every such pair is there and no other. |
| ExtremaFinder.NoNaNKeepsSeries | coast/stats_util.py:72-76 | Skipping the removal when there is no NaN (`if sum(I) > 0`) gives the same pairs as removing always. |
| ExtremaFinder.NoNumberIsEmpty | coast/stats_util.py:72-83 | The cleaned series is empty exactly when every value is NaN. |
| ExtremaFinder.SplineMaxima | coast/stats_util.py:54-104 | 'cubic' fails with `EmptySeries` exactly when every value is NaN (`x.values[0]` of an empty series). It fails with `FitRejected` exactly when numbers remain but the cubic interpolating fit refuses them: three or fewer pairs, or a repeated time. Otherwise the times are the roots of the fitted spline's derivative, `quadratic_spline_roots(f.derivative())`, each between two of its knots. The values are the fitted spline at those times (`cr_vals = f(cr_pts)`). |
| ExtremaFinder.FindMaxima | coast/stats_util.py:30-104 | None exactly for a method other than 'comp' and 'cubic'. 'comp' returns `x[peaks]` and `y[peaks]` at the peak finder's indices; 'cubic' returns the spline branch's result. |

## Left out

- The haversine distance (`calculate_haversine_distance`) and its constant 6371.007176 are floating-point trigonometry. The distance is a parameter; only the divisor 6371 of the radius is kept.
- The ball tree's construction, `leaf_size` and traversal order are left out. A radius query is specified by its result set, listed in index order; the tree lists the same set in an order of its own.
- The selectors treat a NaN coordinate as a point that matches nothing. As written, the ball tree refuses NaN coordinates instead; see "## Findings".
- SpatialIndex.NearestIndices2D: requires at least one unmasked cell with numeric coordinates, which also rules out an empty grid, which the tree refuses at general_utils.py:211. Among equally close cells, which one is chosen is left to the tree. The `squeeze()` and the `xr.DataArray` wrapping of the two index arrays are left out.
- SpatialIndex.SubsetIndicesByDistance and SpatialIndex.NearestIndices2D: require longitude, latitude and mask to have one entry per grid cell. Coordinate arrays of different sizes make `np.vstack` raise (general_utils.py:49, 203), and a mask of another shape makes `longitude[mask]` raise (lines 43, 197). These errors are not modelled.
- SpatialIndex.SubsetIndicesByDistance: grids of rank 1 and 2 only. Above rank 2, `y_tmp, x_tmp = np.unravel_index(...)` at general_utils.py:70 raises; this is not modelled.
- SpatialIndex.NearestIndices2D: 2-D grids only. On any other rank, `ind_y, ind_x = np.unravel_index(...)` at general_utils.py:215 raises; this is not modelled.
- SpatialIndex.SubsetIndicesByDistanceOld: 2-D grids only. On a 1-D grid, `np.where` returns one array and `indices[1]` at general_utils.py:99 raises IndexError; this is not modelled.
- SpatialIndex.SubsetIndicesByDistance: the `squeeze()` and the `xr.DataArray` wrapping of each centre's result are left out, and so is the conversion to numpy arrays. The centres are (lat, lon) pairs, so arrays of centre latitudes and longitudes of different lengths are not modelled.
- MaskProjection.ReinstateIndicesByMask: beyond equal lengths, it also accepts a one-element `array_removed`, which numpy broadcasts. Only arrays of rank 1 and 2 are modelled.
- TidalFilter.DoodsonX0Filter: modelled for 2-D arrays with axis -2, -1, 0 or 1. DoodsonX0FilterSeries models 1-D series with axis -1 or 0. Ranks above 2 are not modelled.
- Floating-point rounding is not modelled: doubles are exact reals with a NaN. Infinities are not modelled.
- `normal_distribution` is the density parameter `pdf` of DistributionEstimator.CumulativeDistribution. Its exp/sqrt arithmetic is not modelled, and the values `np.trapz` produces are stated only as the trapezoid rule over reals.
- DistributionEstimator.EmpiricalDistribution: leaves out the `np.sort` of the sample, and CountBelowPermutation proves it has no effect. The `xr.DataArray` wrapping and the `debug` logging are also left out.
- ExtremaFinder.QuadraticSplineRoots: `np.roots` is a parameter returning complex roots. The spline is its knots plus an evaluation function. The values `np.roots` computes and the numpy array of the result are left out.
- ExtremaFinder.FindMaxima: the parameters stand for `scipy.signal.find_peaks` with its keyword arguments, `InterpolatedUnivariateSpline(..., k=3)` and its `derivative()`.
  - The times are reals: the datetime64 conversion on the way in and out, the float64 casts and the type warnings printed are left out.
  - It requires `x` and `y` of equal length and peak indices inside `y`, as the indexing `x[peaks]` does.
- ExtremaFinder.SortByTime: states sortedness and permutation only; it does not state that `sortby` is stable among equal times.
- ExtremaFinder.SplineMaxima: `FitRejected` stands for the ValueErrors of the interpolating fit. Its other checks, such as on the weights or on infinities, are not modelled.
- `dataarray_time_slice` is a thin xarray wrapper and is not part of this model.
- The logging calls are not part of this model.

## Findings

| source | as written | input that shows it | evidently intended | confidence | as-written member | corrected member |
|---|---|---|---|---|---|---|
| coast/general_utils.py:43-60 | The masked cells are set to NaN and the coordinates are handed to `BallTree`, whose input validation refuses NaN, so any mask with a True cell raises ValueError | a 1 x 2 grid with mask `[[True, False]]` | masked cells are left out of the radius search | not executed; rests on sklearn's default NaN check in `check_array` | SpatialIndex.TreeData and SpatialIndex.MaskedCellRejected | SpatialIndex.SubsetIndicesByDistance |
| coast/general_utils.py:197-211 | The same NaN masking before `BallTree` in `nearest_indices_2D` | a 1 x 2 grid with mask `[[True, False]]` | masked cells are never returned as nearest | not executed; rests on sklearn's default NaN check in `check_array` | SpatialIndex.TreeData and SpatialIndex.MaskedCellRejected | SpatialIndex.NearestIndices2D |
