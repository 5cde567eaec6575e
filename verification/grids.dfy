/**
 * The input of both mesh builders: three nested arrays of numbers,
 * indexed `[row][column]`, meant to share one shape.
 */
module Grids {
  import opened JsValues

  /** A `number[][]`: nothing forces the rows to have equal length. */
  type Grid = seq<seq<real>>

  /** The `volSurfaceData` prop: maturities, deltas and volatilities per cell. */
  datatype SurfaceData = SurfaceData(gridX: Grid, gridY: Grid, gridVol: Grid)

  /** The guard both components apply: some outer array has length 0. */
  predicate AnyEmpty(d: SurfaceData)
  {
    |d.gridX| == 0 || |d.gridY| == 0 || |d.gridVol| == 0
  }

  /** `g[i][j]` for a row `g[i]` that exists: `undefined` past the end of that row. */
  function Read(g: Grid, i: nat, j: nat): Value
    requires i < |g|
  {
    if j < |g[i]| then Num(g[i][j]) else Undefined
  }

  /**
   * Row `i` exists in `gridY` and `gridVol`, so `gridY[i][j]` and
   * `gridVol[i][j]` read a number or `undefined` instead of throwing a
   * `TypeError` (rows of `gridX` are only ever taken below its length).
   */
  predicate RowReadable(d: SurfaceData, i: nat)
  {
    i < |d.gridY| && i < |d.gridVol|
  }

  /** Every row has the length of the first one. */
  predicate Rectangular(g: Grid)
  {
    forall i | 0 <= i < |g| :: |g[i]| == |g[0]|
  }

  /** Number of cells in the rows before row `i` of `g`. */
  function CellsBefore(g: Grid, i: nat): nat
    requires i <= |g|
  {
    if i == 0 then 0 else CellsBefore(g, i - 1) + |g[i - 1]|
  }

  /** The `k`-th group of three numbers of a flat attribute buffer. */
  function Triple<T>(s: seq<T>, k: nat): seq<T>
    requires 3 * k + 3 <= |s|
  {
    s[3 * k .. 3 * k + 3]
  }

  /** The `k`-th group of six indices: the two triangles of one quad. */
  function Hexad<T>(s: seq<T>, k: nat): seq<T>
    requires 6 * k + 6 <= |s|
  {
    s[6 * k .. 6 * k + 6]
  }

  /** A slice lying wholly in the right operand of a concatenation. */
  lemma SliceRight<T>(a: seq<T>, b: seq<T>, lo: int, hi: int)
    requires |a| <= lo <= hi <= |a| + |b|
    ensures (a + b)[lo .. hi] == b[lo - |a| .. hi - |a|]
  {
  }

  /** A slice lying wholly in the left operand of a concatenation. */
  lemma SliceLeft<T>(a: seq<T>, b: seq<T>, lo: int, hi: int)
    requires 0 <= lo <= hi <= |a|
    ensures (a + b)[lo .. hi] == a[lo .. hi]
  {
  }

  /** An element of a window is an element of the whole. */
  lemma WindowElement<T>(s: seq<T>, lo: nat, w: seq<T>, c: nat)
    requires lo + |w| <= |s| && s[lo .. lo + |w|] == w && c < |w|
    ensures s[lo + c] == w[c]
  {
    assert s[lo .. lo + |w|][c] == s[lo + c];
  }

  /** A slice of a window is a slice of the whole. */
  lemma SliceOfWindow<T>(s: seq<T>, lo: nat, w: seq<T>, x: nat, y: nat)
    requires lo + |w| <= |s| && s[lo .. lo + |w|] == w
    requires x <= y <= |w|
    ensures s[lo + x .. lo + y] == w[x .. y]
  {
    forall t | 0 <= t < y - x
      ensures s[lo + x .. lo + y][t] == w[x .. y][t]
    {
      assert s[lo + x + t] == s[lo .. lo + |w|][x + t];
    }
  }

  /** Monotonicity of multiplication by a natural number. */
  lemma MulLe(a: int, b: int, c: nat)
    requires a <= b
    ensures a * c <= b * c
  {
  }
}
