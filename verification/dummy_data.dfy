/**
 * The default surface of `src/App.tsx`: a 10 by 10 grid whose `gridX` and
 * `gridY` hold the column number in every row and whose `gridVol` holds
 * `5 * sin(i / 2) * cos(j / 2)`. The trigonometry is a parameter here; all
 * the model uses is that its values lie in `[-5, 5]`.
 */
module DummyData {
  import opened JsValues
  import opened Grids
  import opened MeshBuffers
  import opened CellMesher
  import opened LatticeMesher

  const Size := 10

  /** `Array(size).fill(0).map(() => Array(size).fill(0).map((_, j) => j))`. */
  function ColumnNumbers(): Grid
  {
    seq(Size, _ => seq(Size, j => j as real))
  }

  /** The default data, with `vol(i, j)` standing for `Math.sin(i / 2) * Math.cos(j / 2) * 5`. */
  function Dummy(vol: (int, int) -> real): (d: SurfaceData)
    ensures |d.gridX| == Size && |d.gridY| == Size && |d.gridVol| == Size
    ensures forall i | 0 <= i < Size :: |d.gridX[i]| == Size && |d.gridY[i]| == Size && |d.gridVol[i]| == Size
    ensures forall i, j | 0 <= i < Size && 0 <= j < Size ::
              d.gridX[i][j] == j as real && d.gridY[i][j] == j as real && d.gridVol[i][j] == vol(i, j)
  {
    SurfaceData(ColumnNumbers(), ColumnNumbers(), seq(Size, i => seq(Size, j => vol(i, j))))
  }

  /** A product of a sine and a cosine, scaled by 5, stays within `[-5, 5]`. */
  predicate Bounded(vol: (int, int) -> real)
  {
    forall i, j | 0 <= i < Size && 0 <= j < Size :: -5.0 <= vol(i, j) <= 5.0
  }

  /**
   * The default surface meshes without error into 81 vertices and 486
   * indices, and the index 99 appears although only 81 vertices exist.
   */
  lemma DummyMesh(vol: (int, int) -> real)
    ensures var r := BuildMesh(Dummy(vol));
            && r.error.None?
            && |r.mesh.vertices| == 3 * 81 && |r.mesh.colors| == 3 * 81 && |r.mesh.indices| == 6 * 81
            && 99 in r.mesh.indices
  {
    var d := Dummy(vol);
    MeshSizes(d);
    IndicesOverrunVertices(d);
  }

  /** Vertex `k` of the default surface is cell `(k / 9, k % 9)`, so its height is a value of `vol`. */
  lemma DummyHeight(vol: (int, int) -> real, k: nat)
    requires k < 81
    ensures var m := BuildMesh(Dummy(vol)).mesh;
            BuildMesh(Dummy(vol)).error.None? && 3 * k + 3 <= |m.vertices| && m.vertices[3 * k + 2] == Num(vol(k / 9, k % 9))
  {
    var d := Dummy(vol);
    DummyMesh(vol);
    var i, j := k / 9, k % 9;
    assert Cols(d) == 10 && i * 9 + j == k;
    CellContents(d, i, j);
    var m := BuildMesh(d).mesh;
    assert m.vertices[3 * k + 2] == Triple(m.vertices, k)[2];
    assert d.gridVol[i][j] == vol(i, j);
  }

  /**
   * With heights in `[-5, 5]`, the fixed map `(z + 5) / 10` of the default
   * surface yields red and green in `[0, 1]` for every vertex.
   */
  lemma DummyColoursInRange(vol: (int, int) -> real, k: nat)
    requires Bounded(vol) && k < 81
    ensures var m := BuildMesh(Dummy(vol)).mesh;
            && 3 * k + 3 <= |m.colors|
            && m.colors[3 * k].Num? && 0.0 <= m.colors[3 * k].v <= 1.0
            && m.colors[3 * k + 1].Num? && 0.0 <= m.colors[3 * k + 1].v <= 1.0
  {
    DummyHeight(vol, k);
    ColourOfVertex(Dummy(vol), k);
  }

  /**
   * Meshed one vertex per lattice point instead, the default surface has
   * 100 vertices, and every one of its 486 indices names one of them.
   */
  lemma DummyLattice(vol: (int, int) -> real)
    ensures var r := BuildLattice(Dummy(vol));
            && r.error.None?
            && |r.mesh.vertices| == 3 * 100 && |r.mesh.indices| == 6 * 81
            && forall x | x in r.mesh.indices :: 0 <= x < 100
  {
    SquareLattice(Dummy(vol), Size);
  }
}
