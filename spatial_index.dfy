/** Grid-cell selection by great-circle distance: `subset_indices_by_distance`,
    `subset_indices_by_distance_old` and `nearest_indices_2D`.

    The haversine distance and the ball tree are outside this model. The
    distance is a parameter: `dist(p, q)` is the angular great-circle distance in
    radians between two (latitude, longitude) points given in degrees, which is
    what the tree's 'haversine' metric computes once the points are converted to
    radians. A radius query is specified as a linear scan in index order, a
    nearest-neighbour query by optimality alone. */
module SpatialIndex {
  import opened Floats
  import opened Grids

  /** A point in degrees. */
  datatype LatLon = LatLon(lat: real, lon: real)

  /** Earth radius used to turn a radius in km into an angle (general_utils.py:20). */
  const EarthRadiusKm: real := 6371.0

  /** The points the tree is built from: cell `p` of the flattened longitude and
      latitude buffers, or None when either coordinate is NaN. A NaN point has a
      NaN distance to everything, and every comparison with it is false. */
  function Points(lon: seq<Float>, lat: seq<Float>): (pts: seq<Option<LatLon>>)
    requires |lon| == |lat|
    ensures |pts| == |lon|
    ensures forall p :: 0 <= p < |pts| ==>
              (pts[p].Some? <==> lon[p].Num? && lat[p].Num?)
  {
    seq(|lon|, p requires 0 <= p < |lon| =>
      if lon[p].Num? && lat[p].Num? then Some(LatLon(lat[p].v, lon[p].v)) else None)
  }

  /** `coord[mask] = np.nan`: masked cells become NaN, the rest are kept. */
  function Masked(coord: seq<Float>, mask: Option<seq<bool>>): (r: seq<Float>)
    requires mask.Some? ==> |mask.value| == |coord|
    ensures |r| == |coord|
  {
    seq(|coord|, p requires 0 <= p < |coord| =>
      if mask.Some? && mask.value[p] then NaN else coord[p])
  }

  predicate IsMasked(mask: Option<seq<bool>>, p: nat)
  {
    mask.Some? && p < |mask.value| && mask.value[p]
  }

  predicate StrictlyIncreasing(s: seq<nat>)
  {
    forall i, j :: 0 <= i < j < |s| ==> s[i] < s[j]
  }

  /** `np.where` on a flat boolean buffer: the True positions in ascending order. */
  function Where(b: seq<bool>): (ind: seq<nat>)
    ensures forall k :: 0 <= k < |ind| ==> ind[k] < |b| && b[ind[k]]
    ensures forall p :: 0 <= p < |b| && b[p] ==> p in ind
    ensures StrictlyIncreasing(ind)
  {
    if b == [] then []
    else
      var n := |b| - 1;
      var w := Where(b[..n]);
      if b[n] then w + [n] else w
  }

  /** Point `p` is returned by `query_radius(c, r)`: it is a number and its
      distance to the centre is at most `r` (the tree's test is `<=`). */
  predicate InRadius(dist: (LatLon, LatLon) -> real, c: LatLon, pt: Option<LatLon>, r: real)
  {
    pt.Some? && dist(c, pt.value) <= r
  }

  /** `BallTree(pts).query_radius([c], r)[0]` as a scan of the points in index
      order (the tree returns the same set, in an order of its own). */
  function QueryRadius(pts: seq<Option<LatLon>>, c: LatLon, r: real, dist: (LatLon, LatLon) -> real): seq<nat>
  {
    Where(seq(|pts|, p requires 0 <= p < |pts| => InRadius(dist, c, pts[p], r)))
  }

  /** A radius query returns exactly the non-NaN points within `r` of the centre,
      each once, in bounds. */
  lemma QueryRadiusExact(pts: seq<Option<LatLon>>, c: LatLon, r: real, dist: (LatLon, LatLon) -> real)
    ensures forall k :: 0 <= k < |QueryRadius(pts, c, r, dist)| ==> QueryRadius(pts, c, r, dist)[k] < |pts|
    ensures forall p :: 0 <= p < |pts| ==> (p in QueryRadius(pts, c, r, dist) <==> InRadius(dist, c, pts[p], r))
    ensures StrictlyIncreasing(QueryRadius(pts, c, r, dist))
  {
  }

  /** One radius query per centre, as the batched `query_radius(centre, r)` returns them. */
  function BatchQuery(pts: seq<Option<LatLon>>, centres: seq<LatLon>, r: real,
                      dist: (LatLon, LatLon) -> real): (ind: seq<seq<nat>>)
    ensures |ind| == |centres|
  {
    seq(|centres|, k requires 0 <= k < |centres| => QueryRadius(pts, centres[k], r, dist))
  }

  /** After masking, the radius query around `c` returns exactly the cells
      that are not masked, have numeric coordinates, and lie within `r` of `c`. */
  lemma MaskedQueryMembership(lon: seq<Float>, lat: seq<Float>, mask: Option<seq<bool>>,
                              c: LatLon, r: real, dist: (LatLon, LatLon) -> real, p: nat)
    requires |lon| == |lat| && p < |lon|
    requires mask.Some? ==> |mask.value| == |lon|
    ensures p in QueryRadius(GridPoints(lon, lat, mask), c, r, dist)
            <==> !IsMasked(mask, p) && lon[p].Num? && lat[p].Num?
                 && dist(c, LatLon(lat[p].v, lon[p].v)) <= r
  {
    QueryRadiusExact(GridPoints(lon, lat, mask), c, r, dist);
  }

  /** What `subset_indices_by_distance` returns: per centre, the flat indices
      (1-D input) or the (x, y) = (column, row) pairs of the 2-D grid. */
  datatype RadiusIndices =
    | FlatIndices(ind: seq<seq<nat>>)
    | GridIndices(indX: seq<seq<nat>>, indY: seq<seq<nat>>)

  /** `np.unravel_index(ind, (rows, cols))` applied to an index array: rows first, columns second. */
  function UnravelAll(ind: seq<nat>, rows: nat, cols: nat): (yx: (seq<nat>, seq<nat>))
    requires forall k :: 0 <= k < |ind| ==> ind[k] < rows * cols
    ensures |yx.0| == |ind| && |yx.1| == |ind|
    ensures forall k :: 0 <= k < |ind| ==>
              yx.0[k] < rows && yx.1[k] < cols && Ravel(yx.0[k], yx.1[k], cols) == ind[k]
  {
    if ind == [] then ([], [])
    else
      var rest := UnravelAll(ind[1..], rows, cols);
      UnravelInBounds(ind[0], rows, cols);
      var rc := Unravel(ind[0], cols);
      ([rc.0] + rest.0, [rc.1] + rest.1)
  }

  /** The centres as the caller passes them: one scalar (latitude, longitude)
      pair, or two arrays of equal length. */
  datatype Centres = ScalarCentre(c: LatLon) | CentreArray(cs: seq<LatLon>)

  /** The rows of the query array handed to `query_radius`, or None when that
      array is one sklearn rejects. `n_pts` is 1 for a scalar and for a
      one-element array; `np.array([[centre_lat, centre_lon]])` of two
      one-element arrays has shape (1, 2, 1), which is not a 2-D array. An
      empty array gives a query with no rows, which is rejected too. */
  function QueryBatch(centres: Centres): (batch: Option<seq<LatLon>>)
    ensures batch.None? <==> centres.CentreArray? && |centres.cs| <= 1
  {
    match centres
    case ScalarCentre(c) => Some([c])
    case CentreArray(cs) => if |cs| <= 1 then None else Some(cs)
  }

  datatype SelectionError =
    /** sklearn's `check_array` refuses the empty point cloud of a grid with no cells. */
    EmptyGrid |
    /** sklearn's `check_array` refuses the query array built from the centres. */
    MalformedCentres |
    /** sklearn's `check_array` refuses a query array with no query points. */
    EmptyQuery

  /** `subset_indices_by_distance`. The radius in km becomes the angle
      `radius / 6371`; when a mask is given the caller's longitude and latitude
      arrays are overwritten with NaN at the masked cells, before anything can
      fail; a grid with no cells gives no tree; one tree query is made for the
      batch of centres; for a 2-D grid each
      centre's flat indices are unravelled and returned column first. */
  method SubsetIndicesByDistance(lon: array<Float>, lat: array<Float>, shape: Shape,
                                 centres: Centres, radius: real, mask: Option<seq<bool>>,
                                 dist: (LatLon, LatLon) -> real)
    returns (res: Result<RadiusIndices, SelectionError>)
    requires lon.Length == Size(shape) && lat.Length == Size(shape)
    requires mask.Some? ==> |mask.value| == Size(shape)
    modifies lon, lat
    ensures lon[..] == Masked(old(lon[..]), mask) && lat[..] == Masked(old(lat[..]), mask)
    ensures res == Err(EmptyGrid) <==> Size(shape) == 0
    ensures res == Err(MalformedCentres) <==> Size(shape) > 0 && QueryBatch(centres).None?
    ensures res.Ok? ==> (res.value.FlatIndices? <==> shape.Shape1?)
    ensures res.Ok? && res.value.FlatIndices? ==>
              res.value.ind == BatchQuery(GridPoints(old(lon[..]), old(lat[..]), mask),
                                          QueryBatch(centres).value, radius / EarthRadiusKm, dist)
    ensures res.Ok? && res.value.GridIndices? ==>
              var batch := QueryBatch(centres).value;
              var flat := BatchQuery(GridPoints(old(lon[..]), old(lat[..]), mask), batch, radius / EarthRadiusKm, dist);
              |res.value.indX| == |batch| && |res.value.indY| == |batch| &&
              forall k :: 0 <= k < |batch| ==>
                |res.value.indX[k]| == |flat[k]| && |res.value.indY[k]| == |flat[k]| &&
                forall m :: 0 <= m < |flat[k]| ==>
                  res.value.indY[k][m] < shape.rows && res.value.indX[k][m] < shape.cols &&
                  Ravel(res.value.indY[k][m], res.value.indX[k][m], shape.cols) == flat[k][m]
  {
    var rRad := radius / EarthRadiusKm;
    ghost var pts := GridPoints(lon[..], lat[..], mask);
    if mask.Some? {
      forall p | 0 <= p < lon.Length && mask.value[p] {
        lon[p] := NaN;
      }
      forall p | 0 <= p < lat.Length && mask.value[p] {
        lat[p] := NaN;
      }
    }
    var locs := Points(lon[..], lat[..]);
    assert locs == pts;
    // nb.BallTree(locs, ...) refuses an empty cloud
    if |locs| == 0 {
      return Err(EmptyGrid);
    }
    var batch := QueryBatch(centres);
    if batch.None? {
      return Err(MalformedCentres);
    }
    var ind1d := BatchQuery(locs, batch.value, rRad, dist);
    if shape.Shape1? {
      return Ok(FlatIndices(ind1d));
    }
    forall k | 0 <= k < |batch.value| {
      QueryRadiusExact(locs, batch.value[k], rRad, dist);
    }
    var indX, indY := UnravelPerCentre(ind1d, shape.rows, shape.cols);
    res := Ok(GridIndices(indX, indY));
  }

  /** The loop of `subset_indices_by_distance` over the centres: unravel each
      centre's flat indices and append the columns to `ind_x`, the rows to `ind_y`. */
  method UnravelPerCentre(ind1d: seq<seq<nat>>, rows: nat, cols: nat)
    returns (indX: seq<seq<nat>>, indY: seq<seq<nat>>)
    requires forall k, m :: 0 <= k < |ind1d| && 0 <= m < |ind1d[k]| ==> ind1d[k][m] < rows * cols
    ensures |indX| == |ind1d| && |indY| == |ind1d|
    ensures forall k :: 0 <= k < |ind1d| ==>
              |indX[k]| == |ind1d[k]| && |indY[k]| == |ind1d[k]| &&
              forall m :: 0 <= m < |ind1d[k]| ==>
                indY[k][m] < rows && indX[k][m] < cols &&
                Ravel(indY[k][m], indX[k][m], cols) == ind1d[k][m]
  {
    indX, indY := [], [];
    for ii := 0 to |ind1d|
      invariant |indX| == ii && |indY| == ii
      invariant forall k :: 0 <= k < ii ==>
                  |indX[k]| == |ind1d[k]| && |indY[k]| == |ind1d[k]| &&
                  forall m :: 0 <= m < |ind1d[k]| ==>
                    indY[k][m] < rows && indX[k][m] < cols &&
                    Ravel(indY[k][m], indX[k][m], cols) == ind1d[k][m]
    {
      var yx := UnravelAll(ind1d[ii], rows, cols);
      indX := indX + [yx.1];
      indY := indY + [yx.0];
    }
  }

  /** The older selection test: the distance in km is strictly below `radius`. */
  predicate StrictlyWithin(distKm: (LatLon, LatLon) -> real, c: LatLon, pt: Option<LatLon>, radius: real)
  {
    pt.Some? && distKm(c, pt.value) < radius
  }

  /** `subset_indices_by_distance_old`: evaluate the km distance from the centre
      to every cell of a 2-D grid, keep the cells with `dist < radius` and return
      `np.where`'s (row indices, column indices), row first, in row-major order. */
  function SubsetIndicesByDistanceOld(lon: seq<Float>, lat: seq<Float>, rows: nat, cols: nat,
                                      centre: LatLon, radius: real,
                                      distKm: (LatLon, LatLon) -> real): (rc: (seq<nat>, seq<nat>))
    requires |lon| == rows * cols && |lat| == rows * cols
    ensures |rc.0| == |rc.1|
    ensures forall k :: 0 <= k < |rc.0| ==>
              rc.0[k] < rows && rc.1[k] < cols &&
              StrictlyWithin(distKm, centre, At(Points(lon, lat), rows, cols, rc.0[k], rc.1[k]), radius)
    ensures forall row, col ::
              (0 <= row < rows && 0 <= col < cols &&
               StrictlyWithin(distKm, centre, At(Points(lon, lat), rows, cols, row, col), radius)) ==>
              exists k :: 0 <= k < |rc.0| && rc.0[k] == row && rc.1[k] == col
    ensures forall k, m :: 0 <= k < m < |rc.0| ==>
              rc.0[k] < rc.0[m] || (rc.0[k] == rc.0[m] && rc.1[k] < rc.1[m])
  {
    var pts := Points(lon, lat);
    WithinGridCells(pts, rows, cols, centre, radius, distKm);
    WhereGrid(WithinMask(pts, centre, radius, distKm), rows, cols)
  }

  /** `dist < radius` over every cell. */
  function WithinMask(pts: seq<Option<LatLon>>, centre: LatLon, radius: real,
                      distKm: (LatLon, LatLon) -> real): (hit: seq<bool>)
    ensures |hit| == |pts|
  {
    seq(|pts|, p requires 0 <= p < |pts| => StrictlyWithin(distKm, centre, pts[p], radius))
  }

  lemma WithinGridCells(pts: seq<Option<LatLon>>, rows: nat, cols: nat, centre: LatLon, radius: real,
                        distKm: (LatLon, LatLon) -> real)
    requires |pts| == rows * cols
    ensures forall row, col :: 0 <= row < rows && 0 <= col < cols ==>
              At(WithinMask(pts, centre, radius, distKm), rows, cols, row, col)
                == StrictlyWithin(distKm, centre, At(pts, rows, cols, row, col), radius)
  {
    var hit := WithinMask(pts, centre, radius, distKm);
    forall row, col | 0 <= row < rows && 0 <= col < cols
      ensures At(hit, rows, cols, row, col) == StrictlyWithin(distKm, centre, At(pts, rows, cols, row, col), radius)
    {
      RavelUnravel(row, col, rows, cols);
      var p := Ravel(row, col, cols);
      assert At(hit, rows, cols, row, col) == hit[p];
      assert At(pts, rows, cols, row, col) == pts[p];
    }
  }

  /** `np.where` on a 2-D boolean array: the (row, col) pairs of its True cells,
      each once, in row-major order. */
  function WhereGrid(hit: seq<bool>, rows: nat, cols: nat): (rc: (seq<nat>, seq<nat>))
    requires |hit| == rows * cols
    ensures |rc.0| == |rc.1|
    ensures forall k :: 0 <= k < |rc.0| ==>
              rc.0[k] < rows && rc.1[k] < cols && At(hit, rows, cols, rc.0[k], rc.1[k])
    ensures forall row, col :: 0 <= row < rows && 0 <= col < cols && At(hit, rows, cols, row, col) ==>
              exists k :: 0 <= k < |rc.0| && rc.0[k] == row && rc.1[k] == col
    ensures forall k, m :: 0 <= k < m < |rc.0| ==>
              rc.0[k] < rc.0[m] || (rc.0[k] == rc.0[m] && rc.1[k] < rc.1[m])
  {
    var flat := Where(hit);
    var yx := UnravelAll(flat, rows, cols);
    WhereUnravelComplete(hit, flat, yx, rows, cols);
    WhereUnravelOrdered(flat, yx, cols);
    yx
  }

  /** Every True cell of a 2-D boolean grid is among its unravelled `np.where` pairs. */
  lemma WhereUnravelComplete(hit: seq<bool>, flat: seq<nat>, yx: (seq<nat>, seq<nat>), rows: nat, cols: nat)
    requires |hit| == rows * cols && flat == Where(hit)
    requires |yx.0| == |flat| && |yx.1| == |flat|
    requires forall k :: 0 <= k < |flat| ==> yx.1[k] < cols && Ravel(yx.0[k], yx.1[k], cols) == flat[k]
    ensures forall row, col :: 0 <= row < rows && 0 <= col < cols && At(hit, rows, cols, row, col) ==>
              exists k :: 0 <= k < |yx.0| && yx.0[k] == row && yx.1[k] == col
  {
    forall row, col | 0 <= row < rows && 0 <= col < cols && At(hit, rows, cols, row, col)
      ensures exists k :: 0 <= k < |yx.0| && yx.0[k] == row && yx.1[k] == col
    {
      RavelUnravel(row, col, rows, cols);
      var p := Ravel(row, col, cols);
      assert p in flat;
      var k :| 0 <= k < |flat| && flat[k] == p;
      RavelInjective(row, col, yx.0[k], yx.1[k], cols);
    }
  }

  /** Ascending flat indices unravel to pairs in row-major order. */
  lemma WhereUnravelOrdered(flat: seq<nat>, yx: (seq<nat>, seq<nat>), cols: nat)
    requires StrictlyIncreasing(flat)
    requires |yx.0| == |flat| && |yx.1| == |flat|
    requires forall k :: 0 <= k < |flat| ==> yx.1[k] < cols && Ravel(yx.0[k], yx.1[k], cols) == flat[k]
    ensures forall k, m :: 0 <= k < m < |yx.0| ==>
              yx.0[k] < yx.0[m] || (yx.0[k] == yx.0[m] && yx.1[k] < yx.1[m])
  {
    forall k, m | 0 <= k < m < |yx.0|
      ensures yx.0[k] < yx.0[m] || (yx.0[k] == yx.0[m] && yx.1[k] < yx.1[m])
    {
      RowMajorOrder(yx.0[k], yx.1[k], yx.0[m], yx.1[m], cols);
    }
  }

  /** Row-major order: a smaller flat index means an earlier row, or the same row and an earlier column. */
  lemma RowMajorOrder(r1: nat, c1: nat, r2: nat, c2: nat, cols: nat)
    requires c1 < cols && c2 < cols
    requires Ravel(r1, c1, cols) < Ravel(r2, c2, cols)
    ensures r1 < r2 || (r1 == r2 && c1 < c2)
  {
    if r1 > r2 {
      MulLe(r2 + 1, r1, cols);
    }
  }

  /** Point `p` is a nearest non-NaN point to `q`: no other non-NaN point is closer. */
  predicate IsNearest(pts: seq<Option<LatLon>>, q: LatLon, p: nat, dist: (LatLon, LatLon) -> real)
  {
    p < |pts| && pts[p].Some? &&
    forall p' :: 0 <= p' < |pts| && pts[p'].Some? ==> dist(q, pts[p].value) <= dist(q, pts[p'].value)
  }

  /** `BallTree(pts).query([q], k=1)` specified as a scan: the first point of
      least distance to `q` among the non-NaN points, or None when there is none. */
  function Nearest(pts: seq<Option<LatLon>>, q: LatLon, dist: (LatLon, LatLon) -> real): (r: Option<nat>)
    ensures r.None? <==> forall p :: 0 <= p < |pts| ==> pts[p].None?
    ensures r.Some? ==> IsNearest(pts, q, r.value, dist)
  {
    if pts == [] then None
    else
      var n := |pts| - 1;
      var r0 := Nearest(pts[..n], q, dist);
      if pts[n].None? then r0
      else if r0.None? || dist(q, pts[n].value) < dist(q, pts[r0.value].value) then Some(n)
      else r0
  }

  /** The point cloud the tree is built from once the mask has been applied. */
  function GridPoints(lon: seq<Float>, lat: seq<Float>, mask: Option<seq<bool>>): (pts: seq<Option<LatLon>>)
    requires |lon| == |lat|
    requires mask.Some? ==> |mask.value| == |lon|
    ensures |pts| == |lon|
  {
    Points(Masked(lon, mask), Masked(lat, mask))
  }

  /** A cell of the masked point cloud is present exactly when it is not masked
      and both its coordinates are numbers; it is then the cell's own (lat, lon). */
  lemma GridPointsAt(lon: seq<Float>, lat: seq<Float>, mask: Option<seq<bool>>, p: nat)
    requires |lon| == |lat| && p < |lon|
    requires mask.Some? ==> |mask.value| == |lon|
    ensures GridPoints(lon, lat, mask)[p].Some? <==> !IsMasked(mask, p) && lon[p].Num? && lat[p].Num?
    ensures GridPoints(lon, lat, mask)[p].Some? ==> GridPoints(lon, lat, mask)[p].value == LatLon(lat[p].v, lon[p].v)
  {
  }

  /** `np.array(coord)` followed by `coord[mask] = np.nan`: a fresh copy with
      NaN at the masked cells. */
  method MaskedCopy(coord: array<Float>, mask: Option<seq<bool>>) returns (c: array<Float>)
    requires mask.Some? ==> |mask.value| == coord.Length
    ensures fresh(c)
    ensures c[..] == Masked(coord[..], mask)
  {
    c := new Float[coord.Length];
    forall p | 0 <= p < coord.Length {
      c[p] := coord[p];
    }
    if mask.Some? {
      forall p | 0 <= p < c.Length && mask.value[p] {
        c[p] := NaN;
      }
    }
  }

  /** The data `BallTree(locs)` accepts, as written: sklearn validates it with
      `check_array`, which refuses an empty array and NaN, so the tree is built
      only from at least one point, every point with numeric coordinates. The
      selections above model the evident intent instead, where a NaN point is
      simply never selected. */
  function TreeData(pts: seq<Option<LatLon>>): (data: Option<seq<LatLon>>)
    ensures data.Some? ==> |data.value| == |pts|
    ensures data.Some? <==> |pts| > 0 && forall p :: 0 <= p < |pts| ==> pts[p].Some?
  {
    if pts == [] then None
    else if |pts| == 1 then (if pts[0].Some? then Some([pts[0].value]) else None)
    else
      var init := TreeData(pts[..|pts| - 1]);
      var last := pts[|pts| - 1];
      if init.Some? && last.Some? then Some(init.value + [last.value])
      else None
  }

  /** As written, masking any cell makes the tree refuse its data: the mask
      writes NaN into that cell, and the tree is never built. */
  lemma MaskedCellRejected(lon: seq<Float>, lat: seq<Float>, mask: Option<seq<bool>>, p: nat)
    requires |lon| == |lat| && p < |lon|
    requires mask.Some? && |mask.value| == |lon| && mask.value[p]
    ensures TreeData(GridPoints(lon, lat, mask)).None?
  {
    GridPointsAt(lon, lat, mask, p);
  }

  /** What `nearest_indices_2D` returns: one (x, y) = (column, row) per query point. */
  datatype CellIndices = CellIndices(indX: seq<nat>, indY: seq<nat>)

  /** `nearest_indices_2D`: copy the grid coordinates (`np.array`), write NaN into
      the copies at masked cells, query the nearest grid cell of every query
      point and unravel it, returning (x, y) = (columns, rows). The caller's
      arrays are not modified (the method may modify nothing it was given).
      Each returned cell lies in the grid and is a nearest present cell of the
      masked grid; among equally close cells the choice is the tree's. An empty
      list of query points is refused by the tree query. */
  method NearestIndices2D(modLon: array<Float>, modLat: array<Float>, rows: nat, cols: nat,
                          queries: seq<LatLon>, mask: Option<seq<bool>>,
                          dist: (LatLon, LatLon) -> real)
    returns (res: Result<CellIndices, SelectionError>)
    requires modLon.Length == rows * cols && modLat.Length == rows * cols
    requires mask.Some? ==> |mask.value| == rows * cols
    requires exists p :: 0 <= p < rows * cols && !IsMasked(mask, p) && modLon[p].Num? && modLat[p].Num?
    ensures res.Err? <==> |queries| == 0
    ensures res.Err? ==> res.error == EmptyQuery
    ensures res.Ok? ==>
              var indX, indY := res.value.indX, res.value.indY;
              |indX| == |queries| && |indY| == |queries| &&
              forall k :: 0 <= k < |queries| ==>
                indY[k] < rows && indX[k] < cols &&
                IsNearest(GridPoints(modLon[..], modLat[..], mask), queries[k], Ravel(indY[k], indX[k], cols), dist)
  {
    var lonC := MaskedCopy(modLon, mask);
    var latC := MaskedCopy(modLat, mask);
    var pts := Points(lonC[..], latC[..]);
    assert pts == GridPoints(modLon[..], modLat[..], mask);
    ghost var p0 :| 0 <= p0 < rows * cols && !IsMasked(mask, p0) && modLon[p0].Num? && modLat[p0].Num?;
    GridPointsAt(modLon[..], modLat[..], mask, p0);
    // tree.query(new_loc, k=1) refuses a query array with no rows
    if |queries| == 0 {
      return Err(EmptyQuery);
    }
    var ind1d := seq(|queries|, k requires 0 <= k < |queries| => Nearest(pts, queries[k], dist).value);
    var yx := UnravelAll(ind1d, rows, cols);
    res := Ok(CellIndices(yx.1, yx.0));
  }
}
