/**
 * The flat attribute buffers a mesh builder produces, and where one cell
 * sits in them: three position numbers, three colour numbers and six
 * indices per cell, cells laid end to end.
 */
module MeshBuffers {
  import opened JsValues
  import opened Grids

  /** The three plain arrays the computation pushes to. */
  datatype Mesh = Mesh(vertices: seq<Value>, colors: seq<Value>, indices: seq<int>)

  const EmptyMesh := Mesh([], [], [])

  function Concat(a: Mesh, b: Mesh): Mesh
  {
    Mesh(a.vertices + b.vertices, a.colors + b.colors, a.indices + b.indices)
  }

  /** Mesh `m` holds `n` whole cells: three positions, three colours and six indices each. */
  predicate HoldsCells(m: Mesh, n: nat)
  {
    |m.vertices| == 3 * n && |m.colors| == 3 * n && |m.indices| == 6 * n
  }

  /** The colour pushed for height `z`: `n = (z + 5) / 10`, then `(n, 1 - n, 0.5)`. */
  function HeightColour(z: Value): seq<Value>
  {
    var n := Div(Add(z, 5.0), 10.0);
    [n, SubFrom(1.0, n), Num(0.5)]
  }

  /** The two triangles of the quad whose low corner is lattice point `b` of a lattice `cols` wide. */
  function Quad(b: int, cols: int): seq<int>
  {
    [b, b + 1, b + cols, b + 1, b + cols + 1, b + cols]
  }

  /** Every vertex's colour triple is the height colour of that vertex's `z`. */
  ghost predicate ColouredByHeight(m: Mesh)
  {
    && |m.vertices| % 3 == 0
    && |m.colors| == |m.vertices|
    && forall k | 0 <= k && 3 * k + 3 <= |m.vertices| :: Triple(m.colors, k) == HeightColour(m.vertices[3 * k + 2])
  }

  lemma ConcatColouredByHeight(a: Mesh, b: Mesh)
    requires ColouredByHeight(a) && ColouredByHeight(b)
    ensures ColouredByHeight(Concat(a, b))
  {
    var c := Concat(a, b);
    var n := |a.vertices| / 3;
    forall k | 0 <= k && 3 * k + 3 <= |c.vertices|
      ensures Triple(c.colors, k) == HeightColour(c.vertices[3 * k + 2])
    {
      if k < n {
        SliceLeft(a.colors, b.colors, 3 * k, 3 * k + 3);
        assert Triple(c.colors, k) == Triple(a.colors, k);
        assert c.vertices[3 * k + 2] == a.vertices[3 * k + 2];
      } else {
        SliceRight(a.colors, b.colors, 3 * k, 3 * k + 3);
        assert Triple(c.colors, k) == Triple(b.colors, k - n);
        assert c.vertices[3 * k + 2] == b.vertices[3 * (k - n) + 2];
      }
    }
  }

  /** Cell number `k` of `m` is the one-cell mesh `c`. */
  predicate Placed(m: Mesh, k: nat, c: Mesh)
  {
    && HoldsCells(c, 1)
    && 3 * k + 3 <= |m.vertices| && 3 * k + 3 <= |m.colors| && 6 * k + 6 <= |m.indices|
    && Triple(m.vertices, k) == c.vertices
    && Triple(m.colors, k) == c.colors
    && Hexad(m.indices, k) == c.indices
  }

  /** Cells of the left part keep their number in a concatenation. */
  lemma PlacedLeft(a: Mesh, b: Mesh, m: Mesh, k: nat, c: Mesh)
    requires m == Concat(a, b)
    requires Placed(a, k, c)
    ensures Placed(m, k, c)
  {
    SliceLeft(a.vertices, b.vertices, 3 * k, 3 * k + 3);
    SliceLeft(a.colors, b.colors, 3 * k, 3 * k + 3);
    SliceLeft(a.indices, b.indices, 6 * k, 6 * k + 6);
    assert Triple(m.vertices, k) == Triple(a.vertices, k);
    assert Triple(m.colors, k) == Triple(a.colors, k);
    assert Hexad(m.indices, k) == Hexad(a.indices, k);
  }

  /** Cells of the right part are shifted by the cell count of the left part. */
  lemma PlacedRight(a: Mesh, b: Mesh, m: Mesh, n: nat, k: nat, at: nat, c: Mesh)
    requires m == Concat(a, b) && at == n + k
    requires HoldsCells(a, n)
    requires Placed(b, k, c)
    ensures Placed(m, at, c)
  {
    SliceRight(a.vertices, b.vertices, 3 * (n + k), 3 * (n + k) + 3);
    SliceRight(a.colors, b.colors, 3 * (n + k), 3 * (n + k) + 3);
    SliceRight(a.indices, b.indices, 6 * (n + k), 6 * (n + k) + 6);
    assert Triple(m.vertices, n + k) == Triple(b.vertices, k);
    assert Triple(m.colors, n + k) == Triple(b.colors, k);
    assert Hexad(m.indices, n + k) == Hexad(b.indices, k);
  }

  /** Mesh `b` occupies the cells of `m` from cell number `n` on. */
  predicate BlockAt(m: Mesh, n: nat, b: Mesh)
  {
    && 3 * n + |b.vertices| <= |m.vertices| && 3 * n + |b.colors| <= |m.colors| && 6 * n + |b.indices| <= |m.indices|
    && m.vertices[3 * n .. 3 * n + |b.vertices|] == b.vertices
    && m.colors[3 * n .. 3 * n + |b.colors|] == b.colors
    && m.indices[6 * n .. 6 * n + |b.indices|] == b.indices
  }

  /** A block is at the start of a concatenation it is the left part of. */
  lemma BlockLeft(a: Mesh, b: Mesh, m: Mesh)
    requires m == Concat(a, b)
    ensures BlockAt(m, 0, a)
  {
    SliceLeft(a.vertices, b.vertices, 0, |a.vertices|);
    SliceLeft(a.colors, b.colors, 0, |a.colors|);
    SliceLeft(a.indices, b.indices, 0, |a.indices|);
  }

  /** A block of the right part of a concatenation, shifted by the left part's cells. */
  lemma BlockRight(a: Mesh, b: Mesh, m: Mesh, n: nat, k: nat, at: nat, c: Mesh)
    requires m == Concat(a, b) && at == n + k
    requires HoldsCells(a, n)
    requires BlockAt(b, k, c)
    ensures BlockAt(m, at, c)
  {
    SliceRight(a.vertices, b.vertices, 3 * at, 3 * at + |c.vertices|);
    SliceRight(a.colors, b.colors, 3 * at, 3 * at + |c.colors|);
    SliceRight(a.indices, b.indices, 6 * at, 6 * at + |c.indices|);
  }

  /** A cell placed inside a block is placed in the enclosing mesh, shifted by the block's start. */
  lemma PlacedInBlock(m: Mesh, n: nat, b: Mesh, k: nat, at: nat, c: Mesh)
    requires BlockAt(m, n, b) && Placed(b, k, c) && at == n + k
    ensures Placed(m, at, c)
  {
    SliceOfWindow(m.vertices, 3 * n, b.vertices, 3 * k, 3 * k + 3);
    SliceOfWindow(m.colors, 3 * n, b.colors, 3 * k, 3 * k + 3);
    SliceOfWindow(m.indices, 6 * n, b.indices, 6 * k, 6 * k + 6);
  }
}
