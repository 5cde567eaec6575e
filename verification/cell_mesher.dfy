/**
 * The grid-to-buffers computation of `src/App.tsx` (the `useMemo` body).
 *
 * It visits the low corner of every cell of the first `rows - 1` rows and
 * `cols - 1` columns, where `cols` is the length of the first row of
 * `gridX`, and pushes per cell one position, one colour and the six
 * indices of the cell's two triangles. The colour is the fixed affine map
 * `(z + 5) / 10` of the height. Any exception thrown inside the
 * computation is caught: the buffers are then empty and the error is kept.
 */
module CellMesher {
  import opened Outcomes
  import opened JsValues
  import opened Grids
  import opened MeshBuffers

  /** The message of the error thrown when an outer array is empty. */
  const MissingGridDataMessage: string := "Missing or invalid grid data"

  /** The two ways the computation throws. */
  datatype MeshError =
    | MissingGridData  // the guard on the three outer lengths
    | RowUnreadable    // TypeError: `gridY[i]` or `gridVol[i]` is undefined

  /**
   * The text the catch block stores with `setError`: the guard's own
   * message, or, for the `TypeError` of a missing row, the engine's
   * message, which this model does not spell out.
   */
  function ErrorText(e: MeshError): Option<string>
  {
    match e
    case MissingGridData => Some(MissingGridDataMessage)
    case RowUnreadable => None
  }

  /** The memoised value together with the error state set by the catch block. */
  datatype Memo = Memo(mesh: Mesh, error: Option<MeshError>)

  /** Column count used for every row: the length of `gridX[0]`. */
  function Cols(d: SurfaceData): nat
    requires |d.gridX| > 0
  {
    |d.gridX[0]|
  }

  /** Number of low corners among `n` points in a line: the loop `for (k = 0; k < n - 1; k++)` runs this often. */
  function Span(n: int): nat
  {
    if n <= 1 then 0 else n - 1
  }

  /** Number of cells visited in `r` rows of `c` columns. */
  function Visited(r: int, c: int): nat
  {
    Span(r) * Span(c)
  }

  /** Number of cells in the first `r` rows of `w` cells, counted by addition. */
  function RowStart(w: nat, r: nat): nat
  {
    if r == 0 then 0 else w + RowStart(w, r - 1)
  }

  lemma {:induction false} RowStartIsProduct(w: nat, r: nat)
    ensures RowStart(w, r) == r * w
    decreases r
  {
    if r > 0 {
      RowStartIsProduct(w, r - 1);
      assert r * w == w + (r - 1) * w;
    }
  }

  /** Some visited row is missing from `gridY` or `gridVol`. */
  predicate RowsMissing(d: SurfaceData)
  {
    |d.gridY| + 1 < |d.gridX| || |d.gridVol| + 1 < |d.gridX|
  }

  /** One pass of the inner loop body for cell `(i, j)`. */
  function VisitCell(d: SurfaceData, cols: nat, i: nat, j: nat): Result<Mesh, MeshError>
    requires i < |d.gridX|
  {
    if !RowReadable(d, i) then Err(RowUnreadable)
    else
      var z := Read(d.gridVol, i, j);
      var b := i * cols + j;
      Ok(Mesh([Read(d.gridX, i, j), Read(d.gridY, i, j), z],
              HeightColour(z),
              Quad(b, cols)))
  }

  /** The inner loop from column `j` on: `for (; j < cols - 1; j++)`. */
  function VisitRow(d: SurfaceData, cols: nat, i: nat, j: nat): (r: Result<Mesh, MeshError>)
    requires i < |d.gridX|
    decreases cols - j
    ensures r.Err? <==> j + 1 < cols && !RowReadable(d, i)
    ensures r.Err? ==> r.error == RowUnreadable
    ensures r.Ok? ==> HoldsCells(r.value, Span(cols - j))
  {
    if j + 1 >= cols then Ok(EmptyMesh)
    else
      match VisitCell(d, cols, i, j)
      case Err(e) => Err(e)
      case Ok(cell) =>
        match VisitRow(d, cols, i, j + 1)
        case Err(e) => Err(e)
        case Ok(rest) => Ok(Concat(cell, rest))
  }

  /** The outer loop from row `i` on: `for (; i < rows - 1; i++)`. */
  function VisitRows(d: SurfaceData, cols: nat, i: nat): (r: Result<Mesh, MeshError>)
    decreases |d.gridX| - i
    ensures r.Err? <==> cols >= 2 && i + 1 < |d.gridX| && RowsMissing(d)
    ensures r.Err? ==> r.error == RowUnreadable
    ensures r.Ok? ==> HoldsCells(r.value, RowStart(Span(cols), Span(|d.gridX| - i)))
  {
    if i + 1 >= |d.gridX| then Ok(EmptyMesh)
    else
      match VisitRow(d, cols, i, 0)
      case Err(e) => Err(e)
      case Ok(row) =>
        match VisitRows(d, cols, i + 1)
        case Err(e) => Err(e)
        case Ok(rest) => Ok(Concat(row, rest))
  }

  /** Each row keeps colours tied to heights. */
  lemma {:induction false} RowColoured(d: SurfaceData, cols: nat, i: nat, j: nat)
    requires i < |d.gridX| && VisitRow(d, cols, i, j).Ok?
    ensures ColouredByHeight(VisitRow(d, cols, i, j).value)
    decreases cols - j
  {
    if j + 1 < cols {
      RowColoured(d, cols, i, j + 1);
      ConcatColouredByHeight(VisitCell(d, cols, i, j).value, VisitRow(d, cols, i, j + 1).value);
    }
  }

  /** All visited rows keep colours tied to heights. */
  lemma {:induction false} RowsColoured(d: SurfaceData, cols: nat, i: nat)
    requires VisitRows(d, cols, i).Ok?
    ensures ColouredByHeight(VisitRows(d, cols, i).value)
    decreases |d.gridX| - i
  {
    if i + 1 < |d.gridX| {
      RowColoured(d, cols, i, 0);
      RowsColoured(d, cols, i + 1);
      ConcatColouredByHeight(VisitRow(d, cols, i, 0).value, VisitRows(d, cols, i + 1).value);
    }
  }

  /** Row `i` only names lattice points of rows `i` and `i + 1`. */
  lemma {:induction false} RowIndexBound(d: SurfaceData, cols: nat, i: nat, j: nat)
    requires i < |d.gridX| && VisitRow(d, cols, i, j).Ok?
    ensures forall x | x in VisitRow(d, cols, i, j).value.indices :: 0 <= x <= i * cols + 2 * cols - 1
    decreases cols - j
  {
    if j + 1 < cols {
      RowIndexBound(d, cols, i, j + 1);
      var cell := VisitCell(d, cols, i, j).value;
      var rest := VisitRow(d, cols, i, j + 1).value;
      var b := i * cols + j;
      assert cell.indices == Quad(b, cols);
      assert b + cols + 1 <= i * cols + 2 * cols - 1;
      assert VisitRow(d, cols, i, j).value.indices == cell.indices + rest.indices;
    }
  }

  /** The largest index of row `i` stays below the lattice size when row `i + 1` exists. */
  lemma RowIndexFits(i: nat, rows: nat, cols: nat)
    requires i + 2 <= rows
    ensures i * cols + 2 * cols - 1 <= rows * cols - 1
  {
    MulLe(i + 2, rows, cols);
    assert (i + 2) * cols == i * cols + 2 * cols;
  }

  /** Every index the loops push names a point of the `rows * cols` lattice. */
  lemma {:induction false} RowsIndexBound(d: SurfaceData, cols: nat, i: nat)
    requires VisitRows(d, cols, i).Ok?
    ensures forall x | x in VisitRows(d, cols, i).value.indices :: 0 <= x <= |d.gridX| * cols - 1
    decreases |d.gridX| - i
  {
    if i + 1 < |d.gridX| {
      RowIndexBound(d, cols, i, 0);
      RowsIndexBound(d, cols, i + 1);
      RowIndexFits(i, |d.gridX|, cols);
      var row := VisitRow(d, cols, i, 0).value;
      var rest := VisitRows(d, cols, i + 1).value;
      assert VisitRows(d, cols, i).value.indices == row.indices + rest.indices;
    }
  }

  /**
   * The whole `useMemo` body: the guard, both loops, and the catch block
   * that turns any thrown error into empty buffers plus an error state.
   */
  function BuildMesh(d: SurfaceData): (r: Memo)
    ensures r.error == Some(MissingGridData) <==> AnyEmpty(d)
    ensures r.error == Some(RowUnreadable) <==> !AnyEmpty(d) && Cols(d) >= 2 && RowsMissing(d)
    ensures r.error.Some? ==> r.mesh == EmptyMesh
  {
    if AnyEmpty(d) then Memo(EmptyMesh, Some(MissingGridData))
    else
      match VisitRows(d, Cols(d), 0)
      case Ok(m) => Memo(m, None)
      case Err(e) => Memo(EmptyMesh, Some(e))
  }

  /** The component shows "Missing or invalid grid data" exactly when an outer array is empty. */
  lemma MissingDataMessageShown(d: SurfaceData)
    ensures (BuildMesh(d).error.Some? && ErrorText(BuildMesh(d).error.value) == Some(MissingGridDataMessage)) <==> AnyEmpty(d)
  {
  }

  /** On success the mesh is what the two loops pushed. */
  lemma BuildMeshIsLoops(d: SurfaceData)
    requires BuildMesh(d).error.None?
    ensures !AnyEmpty(d) && VisitRows(d, Cols(d), 0).Ok?
    ensures BuildMesh(d).mesh == VisitRows(d, Cols(d), 0).value
  {
  }

  /** On success there is one vertex per visited cell: `(rows - 1) * (cols - 1)`. */
  lemma MeshSizes(d: SurfaceData)
    requires BuildMesh(d).error.None?
    ensures var m := BuildMesh(d).mesh;
            && |m.vertices| == 3 * Visited(|d.gridX|, Cols(d))
            && |m.colors| == |m.vertices|
            && |m.indices| == 6 * Visited(|d.gridX|, Cols(d))
  {
    BuildMeshIsLoops(d);
    RowStartIsProduct(Span(Cols(d)), Span(|d.gridX|));
  }

  /** A single row or a single column has no cell: the buffers are empty and no error is raised. */
  lemma DegenerateGridMeshesEmpty(d: SurfaceData)
    requires !AnyEmpty(d) && (|d.gridX| == 1 || Cols(d) <= 1)
    ensures BuildMesh(d) == Memo(EmptyMesh, None)
  {
    assert !RowsMissing(d) || Cols(d) <= 1;
    MeshSizes(d);
  }

  /**
   * The last row is never read: `gridY` and `gridVol` may lack it, and the
   * grid still meshes without error into its `(rows - 1) * (cols - 1)` cells.
   */
  lemma LastRowNeverRead(d: SurfaceData)
    requires !AnyEmpty(d) && |d.gridY| + 1 == |d.gridX| && |d.gridVol| + 1 == |d.gridX|
    ensures BuildMesh(d).error.None?
    ensures |BuildMesh(d).mesh.vertices| == 3 * Visited(|d.gridX|, Cols(d))
  {
    MeshSizes(d);
  }

  /** Every vertex is coloured by its own height through the fixed map `(z + 5) / 10`. */
  lemma ColoursFollowHeights(d: SurfaceData)
    requires BuildMesh(d).error.None?
    ensures ColouredByHeight(BuildMesh(d).mesh)
  {
    BuildMeshIsLoops(d);
    RowsColoured(d, Cols(d), 0);
  }

  /** Every index names a point of the `rows * cols` lattice. */
  lemma IndicesInLattice(d: SurfaceData)
    requires BuildMesh(d).error.None?
    ensures forall x | x in BuildMesh(d).mesh.indices :: 0 <= x < |d.gridX| * Cols(d)
  {
    BuildMeshIsLoops(d);
    RowsIndexBound(d, Cols(d), 0);
  }

  /** One step of the inner loop on a readable row. */
  lemma RowUnfold(d: SurfaceData, cols: nat, i: nat, j: nat)
    requires i < |d.gridX| && RowReadable(d, i) && j + 1 < cols
    ensures VisitCell(d, cols, i, j).Ok? && VisitRow(d, cols, i, j + 1).Ok?
    ensures HoldsCells(VisitCell(d, cols, i, j).value, 1)
    ensures Placed(VisitCell(d, cols, i, j).value, 0, VisitCell(d, cols, i, j).value)
    ensures VisitRow(d, cols, i, j) == Ok(Concat(VisitCell(d, cols, i, j).value, VisitRow(d, cols, i, j + 1).value))
  {
  }

  /** One step of the outer loop when the computation does not fail. */
  lemma RowsUnfold(d: SurfaceData, cols: nat, i: nat)
    requires i + 1 < |d.gridX| && cols >= 2 && VisitRows(d, cols, i).Ok?
    ensures RowReadable(d, i)
    ensures VisitRow(d, cols, i, 0).Ok? && VisitRows(d, cols, i + 1).Ok?
    ensures HoldsCells(VisitRow(d, cols, i, 0).value, Span(cols))
    ensures VisitRows(d, cols, i) == Ok(Concat(VisitRow(d, cols, i, 0).value, VisitRows(d, cols, i + 1).value))
  {
  }

  /** The cells of row `i` appear in column order from `j0` on. */
  lemma {:induction false} RowCellAt(d: SurfaceData, cols: nat, i: nat, j0: nat, j: nat, k: nat)
    requires i < |d.gridX| && RowReadable(d, i)
    requires j0 <= j && j + 1 < cols && k == j - j0
    ensures VisitRow(d, cols, i, j0).Ok? && VisitCell(d, cols, i, j).Ok?
    ensures Placed(VisitRow(d, cols, i, j0).value, k, VisitCell(d, cols, i, j).value)
    decreases j - j0
  {
    RowUnfold(d, cols, i, j0);
    var cell := VisitCell(d, cols, i, j0).value;
    var rest := VisitRow(d, cols, i, j0 + 1).value;
    if j == j0 {
      PlacedLeft(cell, rest, VisitRow(d, cols, i, j0).value, 0, cell);
    } else {
      RowCellAt(d, cols, i, j0 + 1, j, k - 1);
      PlacedRight(cell, rest, VisitRow(d, cols, i, j0).value, 1, k - 1, k, VisitCell(d, cols, i, j).value);
    }
  }

  /** Each visited row `i` is one block, starting after the `cols - 1` cells of every earlier row. */
  lemma {:induction false} RowsBlockAt(d: SurfaceData, cols: nat, i0: nat, i: nat)
    requires i0 <= i && i + 1 < |d.gridX| && cols >= 2
    requires VisitRows(d, cols, i0).Ok?
    ensures RowReadable(d, i) && VisitRow(d, cols, i, 0).Ok?
    ensures BlockAt(VisitRows(d, cols, i0).value, RowStart(cols - 1, i - i0), VisitRow(d, cols, i, 0).value)
    decreases i - i0
  {
    RowsUnfold(d, cols, i0);
    if i == i0 {
      BlockLeft(VisitRow(d, cols, i0, 0).value, VisitRows(d, cols, i0 + 1).value, VisitRows(d, cols, i0).value);
    } else {
      RowsBlockAt(d, cols, i0 + 1, i);
      RowsBlockShift(d, cols, i0, i);
    }
  }

  /** A row's block in the rows after `i0` moves up by the `cols - 1` cells of row `i0`. */
  lemma RowsBlockShift(d: SurfaceData, cols: nat, i0: nat, i: nat)
    requires i0 < i && i + 1 < |d.gridX| && cols >= 2
    requires VisitRows(d, cols, i0).Ok? && RowReadable(d, i) && VisitRow(d, cols, i, 0).Ok?
    requires VisitRows(d, cols, i0 + 1).Ok?
    requires BlockAt(VisitRows(d, cols, i0 + 1).value, RowStart(cols - 1, i - (i0 + 1)), VisitRow(d, cols, i, 0).value)
    ensures BlockAt(VisitRows(d, cols, i0).value, RowStart(cols - 1, i - i0), VisitRow(d, cols, i, 0).value)
  {
    RowsUnfold(d, cols, i0);
    BlockRight(VisitRow(d, cols, i0, 0).value, VisitRows(d, cols, i0 + 1).value, VisitRows(d, cols, i0).value,
               cols - 1, RowStart(cols - 1, i - (i0 + 1)), RowStart(cols - 1, i - i0), VisitRow(d, cols, i, 0).value);
  }

  /** Rows follow each other in row order, `cols - 1` cells per row, from row `i0` on. */
  lemma RowsCellAt(d: SurfaceData, cols: nat, i0: nat, i: nat, j: nat, n: nat, at: nat)
    requires i0 <= i && i + 1 < |d.gridX| && j + 1 < cols
    requires VisitRows(d, cols, i0).Ok?
    requires n == RowStart(cols - 1, i - i0) && at == n + j
    ensures RowReadable(d, i) && VisitCell(d, cols, i, j).Ok?
    ensures Placed(VisitRows(d, cols, i0).value, at, VisitCell(d, cols, i, j).value)
  {
    RowsBlockAt(d, cols, i0, i);
    RowCellAt(d, cols, i, 0, j, j);
    PlacedInBlock(VisitRows(d, cols, i0).value, n, VisitRow(d, cols, i, 0).value, j, at, VisitCell(d, cols, i, j).value);
  }

  /** Cell `(i, j)` is cell number `i * (cols - 1) + j` of the mesh: cells are pushed in row-major order. */
  lemma CellInRowMajorOrder(d: SurfaceData, i: nat, j: nat)
    requires BuildMesh(d).error.None?
    requires i + 1 < |d.gridX| && j + 1 < Cols(d)
    ensures RowReadable(d, i)
    ensures Placed(BuildMesh(d).mesh, i * (Cols(d) - 1) + j, VisitCell(d, Cols(d), i, j).value)
  {
    var cols := Cols(d);
    BuildMeshIsLoops(d);
    RowStartIsProduct(cols - 1, i);
    RowsCellAt(d, cols, 0, i, j, RowStart(cols - 1, i), i * (cols - 1) + j);
  }

  /**
   * Vertex `k = i * (cols - 1) + j` is cell `(i, j)`: its position is the
   * cell's three grid values, its colour the height colour of the cell's
   * volatility, and its six indices the two triangles of the quad whose
   * low corner is lattice point `i * cols + j`.
   */
  lemma CellContents(d: SurfaceData, i: nat, j: nat)
    requires BuildMesh(d).error.None?
    requires i + 1 < |d.gridX| && j + 1 < Cols(d)
    ensures i < |d.gridY| && i < |d.gridVol|
    ensures Placed(BuildMesh(d).mesh, i * (Cols(d) - 1) + j,
                   Mesh([Read(d.gridX, i, j), Read(d.gridY, i, j), Read(d.gridVol, i, j)],
                        HeightColour(Read(d.gridVol, i, j)),
                        Quad(i * Cols(d) + j, Cols(d))))
  {
    CellInRowMajorOrder(d, i, j);
  }

  /**
   * The colour of a vertex of height `z` is `(n, 1 - n, 0.5)` with
   * `n = (z + 5) / 10`: red and green always sum to 1, and red lies in
   * `[0, 1]` exactly when `z` lies in `[-5, 5]` (nothing clamps it). A
   * vertex without a numeric height gets NaN red and green.
   */
  lemma ColourOfVertex(d: SurfaceData, k: nat)
    requires BuildMesh(d).error.None?
    requires 3 * k + 3 <= |BuildMesh(d).mesh.vertices|
    ensures var m := BuildMesh(d).mesh;
            var z := m.vertices[3 * k + 2];
            && 3 * k + 3 <= |m.colors|
            && m.colors[3 * k + 2] == Num(0.5)
            && (z.Num? ==>
                  && m.colors[3 * k] == Num((z.v + 5.0) / 10.0)
                  && m.colors[3 * k + 1] == Num(1.0 - m.colors[3 * k].v)
                  && m.colors[3 * k].v + m.colors[3 * k + 1].v == 1.0
                  && (0.0 <= m.colors[3 * k].v <= 1.0 <==> -5.0 <= z.v <= 5.0))
            && (!z.Num? ==> m.colors[3 * k] == NaN && m.colors[3 * k + 1] == NaN)
  {
    var m := BuildMesh(d).mesh;
    ColoursFollowHeights(d);
    assert Triple(m.colors, k) == HeightColour(m.vertices[3 * k + 2]);
    assert m.colors[3 * k] == Triple(m.colors, k)[0];
    assert m.colors[3 * k + 1] == Triple(m.colors, k)[1];
    assert m.colors[3 * k + 2] == Triple(m.colors, k)[2];
  }

  /**
   * The index buffer addresses a `rows * cols` lattice while only
   * `(rows - 1) * (cols - 1)` vertices are pushed: as soon as one quad is
   * emitted, the largest index `rows * cols - 1` (the far corner of the
   * last cell) appears, and it is at least the vertex count, so it names a
   * vertex that does not exist.
   */
  lemma IndicesOverrunVertices(d: SurfaceData)
    requires BuildMesh(d).error.None?
    requires |d.gridX| >= 2 && Cols(d) >= 2
    ensures var m := BuildMesh(d).mesh;
            && |d.gridX| * Cols(d) - 1 in m.indices
            && |d.gridX| * Cols(d) - 1 >= |m.vertices| / 3
  {
    var rows, cols := |d.gridX|, Cols(d);
    var k, b := (rows - 2) * (cols - 1) + (cols - 2), (rows - 2) * cols + (cols - 2);
    CellQuad(d, rows - 2, cols - 2, k, b);
    MeshSizes(d);
    LastQuadOverruns(BuildMesh(d).mesh, rows, cols, k, b);
  }

  /** The six indices of cell `(i, j)`, number `k`, form the quad with low corner `b`. */
  lemma CellQuad(d: SurfaceData, i: nat, j: nat, k: nat, b: nat)
    requires BuildMesh(d).error.None?
    requires i + 1 < |d.gridX| && j + 1 < Cols(d)
    requires k == i * (Cols(d) - 1) + j && b == i * Cols(d) + j
    ensures 6 * k + 6 <= |BuildMesh(d).mesh.indices|
    ensures Hexad(BuildMesh(d).mesh.indices, k) == Quad(b, Cols(d))
  {
    CellContents(d, i, j);
  }

  /** The quad of the last visited cell reaches the last lattice point, which lies past the last vertex. */
  lemma LastQuadOverruns(m: Mesh, rows: nat, cols: nat, k: nat, b: int)
    requires rows >= 2 && cols >= 2 && b == (rows - 2) * cols + (cols - 2)
    requires |m.vertices| == 3 * Visited(rows, cols)
    requires 6 * k + 6 <= |m.indices| && Hexad(m.indices, k) == Quad(b, cols)
    ensures rows * cols - 1 in m.indices
    ensures rows * cols - 1 >= |m.vertices| / 3
  {
    assert m.indices[6 * k + 4] == Hexad(m.indices, k)[4];
    LastCellArithmetic(rows, cols);
  }

  /** The last cell's far corner is the last lattice point, and the visited cells are fewer than the lattice points. */
  lemma LastCellArithmetic(rows: nat, cols: nat)
    requires rows >= 2 && cols >= 2
    ensures (rows - 2) * cols + (cols - 2) + cols + 1 == rows * cols - 1
    ensures Visited(rows, cols) <= rows * cols - 1
  {
    assert (rows - 2) * cols + 2 * cols == rows * cols;
    assert (rows - 1) * (cols - 1) == rows * cols - rows - cols + 1;
  }

  /**
   * A two-by-two grid as this code meshes it: one vertex, coloured by
   * the fixed map, and two triangles over the four lattice points.
   */
  lemma TwoByTwoExample()
    ensures BuildMesh(SurfaceData([[0.0, 1.0], [0.0, 1.0]], [[0.0, 0.0], [1.0, 1.0]], [[5.0, 6.0], [8.0, 9.0]]))
         == Memo(Mesh([Num(0.0), Num(0.0), Num(5.0)], [Num(1.0), Num(0.0), Num(0.5)], [0, 1, 2, 1, 3, 2]), None)
  {
  }
}
