/**
 * The mesh `src/App.tsx` evidently means to build: one vertex per lattice
 * point `(i, j)`, numbered `i * cols + j` in row-major order, and the same
 * two triangles per cell as the cell mesher (`CellMesher`). Every index then names a
 * vertex, and the four corners of a cell's quad are the cell's four grid
 * points.
 */
module LatticeMesher {
  import opened Outcomes
  import opened JsValues
  import opened Grids
  import opened MeshBuffers
  import opened CellMesher

  /** The first `j` points of row `i`, each as position plus height colour (no indices). */
  function PointRow(d: SurfaceData, cols: nat, i: nat, j: nat): (r: Mesh)
    requires i < |d.gridX| && j <= cols && (j > 0 ==> RowReadable(d, i))
    ensures |r.vertices| == 3 * j && |r.colors| == 3 * j && r.indices == []
  {
    if j == 0 then EmptyMesh
    else
      var z := Read(d.gridVol, i, j - 1);
      Concat(PointRow(d, cols, i, j - 1), Mesh([Read(d.gridX, i, j - 1), Read(d.gridY, i, j - 1), z], HeightColour(z), []))
  }

  /** Every point of the rows before row `i`. */
  function PointRows(d: SurfaceData, cols: nat, i: nat): (r: Mesh)
    requires i <= |d.gridX| && (cols > 0 ==> i <= |d.gridY| && i <= |d.gridVol|)
    ensures |r.vertices| == 3 * RowStart(cols, i) && |r.colors| == 3 * RowStart(cols, i) && r.indices == []
  {
    if i == 0 then EmptyMesh else Concat(PointRows(d, cols, i - 1), PointRow(d, cols, i - 1, cols))
  }

  /** The quads of the first `j` cells of row `i`, exactly as `src/App.tsx` pushes them. */
  function QuadRow(cols: nat, i: nat, j: nat): (r: seq<int>)
    ensures |r| == 6 * j
  {
    if j == 0 then [] else QuadRow(cols, i, j - 1) + Quad(i * cols + j - 1, cols)
  }

  /** The quads of the cells of the rows before row `i`. */
  function QuadRows(cols: nat, i: nat): (r: seq<int>)
    ensures |r| == 6 * RowStart(Span(cols), i)
  {
    if i == 0 then [] else QuadRows(cols, i - 1) + QuadRow(cols, i - 1, Span(cols))
  }

  /**
   * The vertex loop over the rows before row `i`, as it runs: reading
   * `gridY[r][0]` or `gridVol[r][0]` of a missing row `r` throws, so the
   * loop fails at the first row with a point that cannot be read. As the
   * rows of a grid form a prefix, that happens exactly when `i` overruns
   * `gridY` or `gridVol`.
   */
  function VisitPoints(d: SurfaceData, cols: nat, i: nat): (r: Result<Mesh, MeshError>)
    requires i <= |d.gridX|
    ensures r.Err? <==> cols > 0 && (i > |d.gridY| || i > |d.gridVol|)
    ensures r.Err? ==> r.error == RowUnreadable
    ensures r.Ok? ==> (cols > 0 ==> i <= |d.gridY| && i <= |d.gridVol|) && r.value == PointRows(d, cols, i)
    decreases i
  {
    if i == 0 then Ok(EmptyMesh)
    else
      match VisitPoints(d, cols, i - 1)
      case Err(e) => Err(e)
      case Ok(m) =>
        if cols > 0 && !RowReadable(d, i - 1) then Err(RowUnreadable)
        else Ok(Concat(m, PointRow(d, cols, i - 1, cols)))
  }

  /**
   * The corrected computation: the guard and the catch of the cell mesher,
   * but the vertex loop runs over all `rows * cols` points, so every row
   * is read.
   */
  function BuildLattice(d: SurfaceData): (r: Memo)
    ensures r.error == Some(MissingGridData) <==> AnyEmpty(d)
    ensures r.error == Some(RowUnreadable) <==> !AnyEmpty(d) && Cols(d) >= 1 && (|d.gridY| < |d.gridX| || |d.gridVol| < |d.gridX|)
    ensures r.error.Some? ==> r.mesh == EmptyMesh
  {
    if AnyEmpty(d) then Memo(EmptyMesh, Some(MissingGridData))
    else
      match VisitPoints(d, Cols(d), |d.gridX|)
      case Ok(points) => Memo(Mesh(points.vertices, points.colors, QuadRows(Cols(d), Span(|d.gridX|))), None)
      case Err(e) => Memo(EmptyMesh, Some(e))
  }

  /** On success the mesh is every point of every row, followed by the quads of every cell. */
  lemma BuildLatticeIsLoops(d: SurfaceData)
    requires BuildLattice(d).error.None?
    ensures !AnyEmpty(d) && (Cols(d) > 0 ==> |d.gridX| <= |d.gridY| && |d.gridX| <= |d.gridVol|)
    ensures var points := PointRows(d, Cols(d), |d.gridX|);
            BuildLattice(d).mesh == Mesh(points.vertices, points.colors, QuadRows(Cols(d), Span(|d.gridX|)))
  {
  }

  /** On success there is one vertex per lattice point and six indices per cell. */
  lemma LatticeSizes(d: SurfaceData)
    requires BuildLattice(d).error.None?
    ensures var m := BuildLattice(d).mesh;
            && |m.vertices| == 3 * (|d.gridX| * Cols(d))
            && |m.colors| == |m.vertices|
            && |m.indices| == 6 * Visited(|d.gridX|, Cols(d))
  {
    BuildLatticeIsLoops(d);
    RowStartIsProduct(Cols(d), |d.gridX|);
    RowStartIsProduct(Span(Cols(d)), Span(|d.gridX|));
  }

  /** Point number `k` of `m` has position `(x, y, z)` and the height colour of `z`. */
  predicate PointAt(m: Mesh, k: nat, x: Value, y: Value, z: Value)
  {
    && 3 * k + 3 <= |m.vertices| && 3 * k + 3 <= |m.colors|
    && Triple(m.vertices, k) == [x, y, z]
    && Triple(m.colors, k) == HeightColour(z)
  }

  /** Point `j` of row `i` is point number `j` of the row. */
  lemma {:induction false} PointRowSlot(d: SurfaceData, cols: nat, i: nat, j: nat, m: nat)
    requires i < |d.gridX| && j < m <= cols && RowReadable(d, i)
    ensures PointAt(PointRow(d, cols, i, m), j, Read(d.gridX, i, j), Read(d.gridY, i, j), Read(d.gridVol, i, j))
    decreases m
  {
    if j + 1 == m {
      PointRowSlotLast(d, cols, i, j);
    } else {
      PointRowSlot(d, cols, i, j, m - 1);
      PointRowSlotEarlier(d, cols, i, j, m);
    }
  }

  /** A point keeps its number when a later point of the row is appended. */
  lemma PointRowSlotEarlier(d: SurfaceData, cols: nat, i: nat, j: nat, m: nat)
    requires i < |d.gridX| && j + 1 < m <= cols && RowReadable(d, i)
    requires PointAt(PointRow(d, cols, i, m - 1), j, Read(d.gridX, i, j), Read(d.gridY, i, j), Read(d.gridVol, i, j))
    ensures PointAt(PointRow(d, cols, i, m), j, Read(d.gridX, i, j), Read(d.gridY, i, j), Read(d.gridVol, i, j))
  {
    var a := PointRow(d, cols, i, m - 1);
    var z := Read(d.gridVol, i, m - 1);
    var p := Mesh([Read(d.gridX, i, m - 1), Read(d.gridY, i, m - 1), z], HeightColour(z), []);
    SliceLeft(a.vertices, p.vertices, 3 * j, 3 * j + 3);
    SliceLeft(a.colors, p.colors, 3 * j, 3 * j + 3);
  }

  /** The last point appended to a row sits at the row's end. */
  lemma PointRowSlotLast(d: SurfaceData, cols: nat, i: nat, j: nat)
    requires i < |d.gridX| && j < cols && RowReadable(d, i)
    ensures PointAt(PointRow(d, cols, i, j + 1), j, Read(d.gridX, i, j), Read(d.gridY, i, j), Read(d.gridVol, i, j))
  {
    var a := PointRow(d, cols, i, j);
    var z := Read(d.gridVol, i, j);
    var p := Mesh([Read(d.gridX, i, j), Read(d.gridY, i, j), z], HeightColour(z), []);
    SliceRight(a.vertices, p.vertices, 3 * j, 3 * j + 3);
    SliceRight(a.colors, p.colors, 3 * j, 3 * j + 3);
  }

  /** Point `(i, j)`, number `s`, keeps its number when a later row is appended. */
  lemma PointRowsSlotEarlier(d: SurfaceData, cols: nat, i: nat, j: nat, k: nat, s: nat)
    requires i + 1 < k <= |d.gridX| && j < cols && k <= |d.gridY| && k <= |d.gridVol|
    requires s < RowStart(cols, k - 1)
    requires PointAt(PointRows(d, cols, k - 1), s, Read(d.gridX, i, j), Read(d.gridY, i, j), Read(d.gridVol, i, j))
    ensures s < RowStart(cols, k)
    ensures PointAt(PointRows(d, cols, k), s, Read(d.gridX, i, j), Read(d.gridY, i, j), Read(d.gridVol, i, j))
  {
    var a, b := PointRows(d, cols, k - 1), PointRow(d, cols, k - 1, cols);
    SliceLeft(a.vertices, b.vertices, 3 * s, 3 * s + 3);
    SliceLeft(a.colors, b.colors, 3 * s, 3 * s + 3);
  }

  /** The points of row `i` follow those of the rows before it: point `(i, j)` is number `s = RowStart(cols, i) + j`. */
  lemma PointRowsSlotLast(d: SurfaceData, cols: nat, i: nat, j: nat, s: nat)
    requires i < |d.gridX| && j < cols && RowReadable(d, i)
    requires s == RowStart(cols, i) + j
    ensures s < RowStart(cols, i + 1)
    ensures PointAt(PointRows(d, cols, i + 1), s, Read(d.gridX, i, j), Read(d.gridY, i, j), Read(d.gridVol, i, j))
  {
    var a, b := PointRows(d, cols, i), PointRow(d, cols, i, cols);
    PointRowSlot(d, cols, i, j, cols);
    SliceRight(a.vertices, b.vertices, 3 * s, 3 * s + 3);
    SliceRight(a.colors, b.colors, 3 * s, 3 * s + 3);
  }

  /** Point `(i, j)` is point number `s = RowStart(cols, i) + j` of the rows before row `k`. */
  lemma {:induction false} PointRowsSlot(d: SurfaceData, cols: nat, i: nat, j: nat, k: nat, s: nat)
    requires i < k <= |d.gridX| && j < cols && k <= |d.gridY| && k <= |d.gridVol|
    requires s == RowStart(cols, i) + j
    ensures s < RowStart(cols, k)
    ensures PointAt(PointRows(d, cols, k), s, Read(d.gridX, i, j), Read(d.gridY, i, j), Read(d.gridVol, i, j))
    decreases k
  {
    if i + 1 < k {
      PointRowsSlot(d, cols, i, j, k - 1, s);
      PointRowsSlotEarlier(d, cols, i, j, k, s);
    } else {
      PointRowsSlotLast(d, cols, i, j, s);
    }
  }

  /** Vertex number `s = i * cols + j` is grid point `(i, j)`, coloured by its height. */
  lemma PointNumbering(d: SurfaceData, i: nat, j: nat, s: nat)
    requires BuildLattice(d).error.None?
    requires i < |d.gridX| && j < Cols(d) && s == i * Cols(d) + j
    ensures RowReadable(d, i)
    ensures PointAt(BuildLattice(d).mesh, s, Read(d.gridX, i, j), Read(d.gridY, i, j), Read(d.gridVol, i, j))
  {
    BuildLatticeIsLoops(d);
    RowStartIsProduct(Cols(d), i);
    PointRowsSlot(d, Cols(d), i, j, |d.gridX|, s);
  }

  /** Quad `j` of row `i`, with low corner `b = i * cols + j`, is quad number `j` of the row. */
  lemma {:induction false} QuadRowSlot(cols: nat, i: nat, j: nat, m: nat, b: int)
    requires j < m && b == i * cols + j
    ensures Hexad(QuadRow(cols, i, m), j) == Quad(b, cols)
    decreases m
  {
    if j + 1 == m {
      SliceRight(QuadRow(cols, i, j), Quad(b, cols), 6 * j, 6 * j + 6);
    } else {
      QuadRowSlot(cols, i, j, m - 1, b);
      QuadRowSlotEarlier(cols, i, j, m, b);
    }
  }

  /** A quad keeps its number when a later quad of the row is appended. */
  lemma QuadRowSlotEarlier(cols: nat, i: nat, j: nat, m: nat, b: int)
    requires j + 1 < m
    requires Hexad(QuadRow(cols, i, m - 1), j) == Quad(b, cols)
    ensures Hexad(QuadRow(cols, i, m), j) == Quad(b, cols)
  {
    SliceLeft(QuadRow(cols, i, m - 1), Quad(i * cols + m - 1, cols), 6 * j, 6 * j + 6);
  }

  /** The quad of cell `(i, j)` is quad number `s = RowStart(cols - 1, i) + j` of the rows before row `k`. */
  lemma {:induction false} QuadRowsSlot(cols: nat, i: nat, j: nat, k: nat, s: nat)
    requires i < k && j < Span(cols) && s == RowStart(Span(cols), i) + j
    ensures s < RowStart(Span(cols), k)
    ensures Hexad(QuadRows(cols, k), s) == Quad(i * cols + j, cols)
    decreases k
  {
    if i + 1 < k {
      QuadRowsSlot(cols, i, j, k - 1, s);
      QuadRowsSlotEarlier(cols, i, j, k, s);
    } else {
      QuadRowsSlotLast(cols, i, j, s);
    }
  }

  /** A quad of row `i`, number `s`, keeps its number when a later row is appended. */
  lemma QuadRowsSlotEarlier(cols: nat, i: nat, j: nat, k: nat, s: nat)
    requires i + 1 < k && j < Span(cols)
    requires s < RowStart(Span(cols), k - 1)
    requires Hexad(QuadRows(cols, k - 1), s) == Quad(i * cols + j, cols)
    ensures s < RowStart(Span(cols), k)
    ensures Hexad(QuadRows(cols, k), s) == Quad(i * cols + j, cols)
  {
    SliceLeft(QuadRows(cols, k - 1), QuadRow(cols, k - 1, Span(cols)), 6 * s, 6 * s + 6);
  }

  /** The quads of row `i` follow those of the rows before it. */
  lemma QuadRowsSlotLast(cols: nat, i: nat, j: nat, s: nat)
    requires j < Span(cols) && s == RowStart(Span(cols), i) + j
    ensures s < RowStart(Span(cols), i + 1)
    ensures Hexad(QuadRows(cols, i + 1), s) == Quad(i * cols + j, cols)
  {
    QuadRowSlot(cols, i, j, Span(cols), i * cols + j);
    SliceRight(QuadRows(cols, i), QuadRow(cols, i, Span(cols)), 6 * s, 6 * s + 6);
  }

  /** The six indices of cell `(i, j)`, number `k = i * (cols - 1) + j`, are the quad with low corner `b = i * cols + j`, as in `src/App.tsx`. */
  lemma QuadNumbering(d: SurfaceData, i: nat, j: nat, k: nat, b: nat)
    requires BuildLattice(d).error.None?
    requires i + 1 < |d.gridX| && j + 1 < Cols(d)
    requires k == i * (Cols(d) - 1) + j && b == i * Cols(d) + j
    ensures 6 * k + 6 <= |BuildLattice(d).mesh.indices|
    ensures Hexad(BuildLattice(d).mesh.indices, k) == Quad(b, Cols(d))
  {
    BuildLatticeIsLoops(d);
    RowStartIsProduct(Cols(d) - 1, i);
    QuadRowsSlot(Cols(d), i, j, Span(|d.gridX|), k);
  }

  /**
   * The intended meaning of the index buffer: the quad of cell `(i, j)`,
   * number `k = i * (cols - 1) + j`, with low corner `b = i * cols + j`,
   * names, in order, the vertices of grid points `(i, j)`, `(i, j + 1)`,
   * `(i + 1, j)`, `(i, j + 1)`, `(i + 1, j + 1)` and `(i + 1, j)`.
   */
  lemma QuadCornersArePoints(d: SurfaceData, i: nat, j: nat, k: nat, b: nat)
    requires BuildLattice(d).error.None?
    requires i + 1 < |d.gridX| && j + 1 < Cols(d)
    requires k == i * (Cols(d) - 1) + j && b == i * Cols(d) + j
    ensures var m, cols := BuildLattice(d).mesh, Cols(d);
            && 6 * k + 6 <= |m.indices|
            && Hexad(m.indices, k) == [b, b + 1, b + cols, b + 1, b + cols + 1, b + cols]
            && PointAt(m, b, Read(d.gridX, i, j), Read(d.gridY, i, j), Read(d.gridVol, i, j))
            && PointAt(m, b + 1, Read(d.gridX, i, j + 1), Read(d.gridY, i, j + 1), Read(d.gridVol, i, j + 1))
            && PointAt(m, b + cols, Read(d.gridX, i + 1, j), Read(d.gridY, i + 1, j), Read(d.gridVol, i + 1, j))
            && PointAt(m, b + cols + 1, Read(d.gridX, i + 1, j + 1), Read(d.gridY, i + 1, j + 1), Read(d.gridVol, i + 1, j + 1))
  {
    QuadNumbering(d, i, j, k, b);
    NextRowArithmetic(i, j, Cols(d));
    NeighbourPoints(d, i, j, b);
    NeighbourPoints(d, i + 1, j, b + Cols(d));
  }

  /** Points `(i, j)` and `(i, j + 1)` are points `b` and `b + 1`, for `b = i * cols + j`. */
  lemma NeighbourPoints(d: SurfaceData, i: nat, j: nat, b: nat)
    requires BuildLattice(d).error.None?
    requires i < |d.gridX| && j + 1 < Cols(d)
    requires b == i * Cols(d) + j
    ensures var m := BuildLattice(d).mesh;
            && PointAt(m, b, Read(d.gridX, i, j), Read(d.gridY, i, j), Read(d.gridVol, i, j))
            && PointAt(m, b + 1, Read(d.gridX, i, j + 1), Read(d.gridY, i, j + 1), Read(d.gridVol, i, j + 1))
  {
    PointNumbering(d, i, j, b);
    PointNumbering(d, i, j + 1, b + 1);
  }

  /** Point `(i + 1, j)` is `cols` points after point `(i, j)`. */
  lemma NextRowArithmetic(i: nat, j: nat, cols: nat)
    ensures (i + 1) * cols + j == i * cols + j + cols
  {
  }

  /** Every quad of row `i`, whose first point is `lo = i * cols`, names points of rows `i` and `i + 1` only. */
  lemma {:induction false} QuadRowBound(cols: nat, i: nat, j: nat, lo: nat)
    requires j <= Span(cols) && lo == i * cols
    ensures forall x | x in QuadRow(cols, i, j) :: lo <= x <= lo + 2 * cols - 1
    decreases j
  {
    if j > 0 {
      QuadRowBound(cols, i, j - 1, lo);
      assert QuadRow(cols, i, j) == QuadRow(cols, i, j - 1) + Quad(lo + j - 1, cols);
    }
  }

  /** Every quad of the rows before row `k` names a point of the first `k + 1` rows. */
  lemma {:induction false} QuadRowsBound(cols: nat, k: nat)
    ensures forall x | x in QuadRows(cols, k) :: 0 <= x < RowStart(cols, k + 1)
    decreases k
  {
    if k > 0 {
      QuadRowsBound(cols, k - 1);
      RowStartIsProduct(cols, k - 1);
      QuadRowBound(cols, k - 1, Span(cols), RowStart(cols, k - 1));
      assert QuadRows(cols, k) == QuadRows(cols, k - 1) + QuadRow(cols, k - 1, Span(cols));
    }
  }

  /** Every index names a vertex that exists: the property the cell mesher's buffers lack. */
  lemma IndicesNameVertices(d: SurfaceData)
    requires BuildLattice(d).error.None?
    ensures var m := BuildLattice(d).mesh;
            forall x | x in m.indices :: 0 <= x < |m.vertices| / 3
  {
    LatticeSizes(d);
    QuadRowsBound(Cols(d), Span(|d.gridX|));
    RowStartIsProduct(Cols(d), |d.gridX|);
  }

  /** A square grid of `n` rows of `n` points meshes into `n * n` vertices, and every index names one of them. */
  lemma SquareLattice(d: SurfaceData, n: nat)
    requires 0 < n && |d.gridX| == n && |d.gridY| == n && |d.gridVol| == n && |d.gridX[0]| == n
    ensures var r := BuildLattice(d);
            && r.error.None?
            && |r.mesh.vertices| == 3 * (n * n) && |r.mesh.indices| == 6 * ((n - 1) * (n - 1))
            && forall x | x in r.mesh.indices :: 0 <= x < n * n
  {
    LatticeSizes(d);
    IndicesNameVertices(d);
  }
}
