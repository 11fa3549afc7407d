/** Values shared by every component: IEEE doubles seen as reals with a NaN,
    and the optional / error-carrying results the Python code expresses with
    `None` and exceptions. */
module Floats {

  /** A double, modelled as an exact real or NaN. Rounding is not modelled. */
  datatype Float = Num(v: real) | NaN

  datatype Option<T> = None | Some(value: T)

  datatype Result<T, E> = Ok(value: T) | Err(error: E)

  /** `a + b` with NaN propagation. */
  function Add(a: Float, b: Float): (r: Float)
    ensures r.Num? <==> a.Num? && b.Num?
  {
    if a.Num? && b.Num? then Num(a.v + b.v) else NaN
  }

  /** `w * a` for a finite weight `w`; `0 * NaN` is still NaN. */
  function Scale(w: real, a: Float): (r: Float)
    ensures r.Num? <==> a.Num?
  {
    if a.Num? then Num(w * a.v) else NaN
  }

  /** `a < b` as numpy evaluates it: false whenever either side is NaN. */
  predicate Less(a: Float, b: Float)
  {
    a.Num? && b.Num? && a.v < b.v
  }
}

/** The shape of a numpy array and its row-major (C order) layout. An array
    is its flat buffer plus its shape; `flatten()` is the buffer itself. */
module Grids {

  datatype Shape = Shape1(n: nat) | Shape2(rows: nat, cols: nat)

  function Size(s: Shape): nat
  {
    match s
    case Shape1(n) => n
    case Shape2(rows, cols) => rows * cols
  }

  /** An n-dimensional array as numpy stores it: `cells` is the buffer in row-major order. */
  datatype Grid<T> = Grid(shape: Shape, cells: seq<T>)
  {
    predicate Valid()
    {
      |cells| == Size(shape)
    }
  }

  /** `np.unravel_index(i, (rows, cols))`: the (row, col) of flat index `i`. */
  function Unravel(i: nat, cols: nat): (rc: (nat, nat))
    requires cols > 0
    ensures rc.0 * cols + rc.1 == i && rc.1 < cols
  {
    (i / cols, i % cols)
  }

  /** The flat index of (row, col) in a row-major buffer with `cols` columns. */
  function Ravel(row: nat, col: nat, cols: nat): nat
  {
    row * cols + col
  }

  /** `a[row, col]` of a 2-D array stored in row-major order. */
  function At<T>(cells: seq<T>, rows: nat, cols: nat, row: nat, col: nat): T
    requires |cells| == rows * cols && row < rows && col < cols
  {
    RavelUnravel(row, col, rows, cols);
    cells[Ravel(row, col, cols)]
  }

  /** Unravelling an index of the buffer gives a (row, col) inside the grid. */
  lemma UnravelInBounds(i: nat, rows: nat, cols: nat)
    requires i < rows * cols
    ensures cols > 0
    ensures Unravel(i, cols).0 < rows && Unravel(i, cols).1 < cols
  {
  }

  /** Ravelling a (row, col) inside the grid gives an index of the buffer,
      and unravelling it gives the same pair back. */
  lemma RavelUnravel(row: nat, col: nat, rows: nat, cols: nat)
    requires row < rows && col < cols
    ensures Ravel(row, col, cols) < rows * cols
    ensures Unravel(Ravel(row, col, cols), cols) == (row, col)
  {
    MulLe(row + 1, rows, cols);
    DivModUnique(row, col, cols);
  }

  /** Distinct (row, col) pairs inside the columns have distinct flat indices. */
  lemma RavelInjective(r1: nat, c1: nat, r2: nat, c2: nat, cols: nat)
    requires c1 < cols && c2 < cols && Ravel(r1, c1, cols) == Ravel(r2, c2, cols)
    ensures r1 == r2 && c1 == c2
  {
    DivModUnique(r1, c1, cols);
    DivModUnique(r2, c2, cols);
  }

  lemma MulLe(a: nat, b: nat, c: nat)
    requires a <= b
    ensures a * c <= b * c
  {
  }

  lemma DivModUnique(q: nat, r: nat, cols: nat)
    requires r < cols
    ensures (q * cols + r) / cols == q && (q * cols + r) % cols == r
  {
    var i := q * cols + r;
    assert i == (i / cols) * cols + i % cols;
    if q < i / cols {
      MulLe(q + 1, i / cols, cols);
    } else if i / cols < q {
      MulLe(i / cols + 1, q, cols);
    }
  }
}
