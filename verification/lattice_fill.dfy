/**
 * The buffer filling of `src/VolSurfaceVisualizer.tsx`.
 *
 * After a guard on the three outer lengths, it allocates two typed arrays
 * of `3 * rows * cols` numbers, `cols` being the length of the first row
 * of `gridX`, and walks every cell of every row of `gridX` in row-major
 * order, writing position `(x, y, z)` and colour `(c, 1 - c, 0.5)` of
 * cell number `index` at offsets `3 * index .. 3 * index + 2`, where `c`
 * is `(z - 5) / 15` clamped to `[0, 1]`. Nothing catches a `TypeError`:
 * a missing row of `gridY` or `gridVol` ends the render.
 */
module LatticeFill {
  import opened JsValues
  import opened Grids

  /** The text shown instead of the surface when an outer array is empty. */
  const InvalidDataMessage: string := "Invalid or empty data for volatility surface."

  /** What the component renders. */
  datatype Drawing =
    | InvalidOrEmpty(message: string)                    // the red paragraph
    | Crashed                                            // a TypeError escaped the render
    | Drawn(positions: seq<Value>, colours: seq<Value>)  // the two attribute buffers

  /** The two buffers the loop writes. */
  datatype Attribute = Position | Colour

  /** `Math.min(Math.max((z - 5) / 15, 0), 1)`. */
  function ClampColour(z: Value): Value
  {
    Min(Max(Div(Sub(z, 5.0), 15.0), 0.0), 1.0)
  }

  /** The colour written for height `z`: `(c, 1 - c, 0.5)` with `c` the clamped height. */
  function ColourTriple(z: Value): seq<Value>
  {
    var c := ClampColour(z);
    [c, SubFrom(1.0, c), Num(0.5)]
  }

  /** Every row before row `i` that has a cell can be read in `gridY` and `gridVol`. */
  predicate RowsReadable(d: SurfaceData, i: nat)
  {
    forall r | 0 <= r < i && r < |d.gridX| && |d.gridX[r]| > 0 :: RowReadable(d, r)
  }

  /** The rows before row `i + 1` are readable when those before row `i` are and row `i` is, or is empty. */
  lemma RowsReadableNext(d: SurfaceData, i: nat)
    requires i < |d.gridX| && RowsReadable(d, i)
    ensures RowsReadable(d, i + 1) <==> (|d.gridX[i]| > 0 ==> RowReadable(d, i))
  {
  }

  /** Some row of `gridX` with a cell has no row in `gridY` or `gridVol`: reading it throws. */
  predicate Crashes(d: SurfaceData)
  {
    !RowsReadable(d, |d.gridX|)
  }

  /** The three numbers written for cell `(i, j)` into one buffer. */
  function CellValues(d: SurfaceData, a: Attribute, i: nat, j: nat): seq<Value>
    requires i < |d.gridX| && j < |d.gridX[i]| && RowReadable(d, i)
  {
    match a
    case Position => [Num(d.gridX[i][j]), ToFloat32(Read(d.gridY, i, j)), ToFloat32(Read(d.gridVol, i, j))]
    case Colour => ColourTriple(Read(d.gridVol, i, j))
  }

  /** The numbers written for the first `j` cells of row `i`, in order. */
  function RowValues(d: SurfaceData, a: Attribute, i: nat, j: nat): (r: seq<Value>)
    requires i < |d.gridX| && j <= |d.gridX[i]| && (j > 0 ==> RowReadable(d, i))
    ensures |r| == 3 * j
  {
    if j == 0 then [] else RowValues(d, a, i, j - 1) + CellValues(d, a, i, j - 1)
  }

  /** The numbers written for the rows before row `i`, in order. */
  function RowsValues(d: SurfaceData, a: Attribute, i: nat): (r: seq<Value>)
    requires i <= |d.gridX| && RowsReadable(d, i)
    ensures |r| == 3 * CellsBefore(d.gridX, i)
  {
    if i == 0 then [] else RowsValues(d, a, i - 1) + RowValues(d, a, i - 1, |d.gridX[i - 1]|)
  }

  /** Every number the loops write into one buffer, in the order they write them. */
  function Stream(d: SurfaceData, a: Attribute): seq<Value>
    requires !Crashes(d)
  {
    RowsValues(d, a, |d.gridX|)
  }

  /**
   * A typed array of `n` slots after the numbers `w` were written to slots
   * `0, 1, 2, ...`: it starts zero-filled, and writes past the end are
   * silently dropped.
   */
  function Overlay(n: nat, w: seq<Value>): (r: seq<Value>)
    ensures |r| == n
  {
    seq(n, k requires 0 <= k < n => if k < |w| then w[k] else Num(0.0))
  }

  /** Number of slots in each buffer: `gridX.length * gridX[0].length * 3`. */
  function Slots(d: SurfaceData): nat
    requires |d.gridX| > 0
  {
    |d.gridX| * |d.gridX[0]| * 3
  }

  /** What the component renders, stated without loops. */
  function Lattice(d: SurfaceData): (r: Drawing)
    ensures r.InvalidOrEmpty? <==> AnyEmpty(d)
    ensures r.InvalidOrEmpty? ==> r.message == InvalidDataMessage
    ensures r == Crashed <==> !AnyEmpty(d) && Crashes(d)
    ensures r.Drawn? ==> |r.positions| == Slots(d) && |r.colours| == Slots(d)
  {
    if AnyEmpty(d) then InvalidOrEmpty(InvalidDataMessage)
    else if Crashes(d) then Crashed
    else Drawn(Overlay(Slots(d), Stream(d, Position)), Overlay(Slots(d), Stream(d, Colour)))
  }

  /** `s` with slot `k` set to `v`, unless `k` is past its end. */
  function Poke(s: seq<Value>, k: nat, v: Value): seq<Value>
  {
    if k < |s| then s[k := v] else s
  }

  /** Writing the next number into the slots is the same as appending it to what was written. */
  lemma OverlaySnoc(n: nat, w: seq<Value>, v: Value)
    ensures Overlay(n, w + [v]) == Poke(Overlay(n, w), |w|, v)
  {
  }

  /** Writing three numbers in turn appends them. */
  lemma OverlayTriple(n: nat, w: seq<Value>, t: seq<Value>)
    requires |t| == 3
    ensures Overlay(n, w + t) == Poke(Poke(Poke(Overlay(n, w), |w|, t[0]), |w| + 1, t[1]), |w| + 2, t[2])
  {
    OverlaySnoc(n, w, t[0]);
    OverlaySnoc(n, w + [t[0]], t[1]);
    OverlaySnoc(n, w + [t[0]] + [t[1]], t[2]);
    assert w + t == w + [t[0]] + [t[1]] + [t[2]];
  }

  /** `a[k] = v` on a typed array: ignored when `k` is out of range. */
  method Store(a: array<Value>, k: nat, v: Value)
    modifies a
    ensures a[..] == Poke(old(a[..]), k, v)
  {
    if k < a.Length {
      a[k] := v;
    }
  }

  /** The three stores `a[3 * index + c] = t[c]` of one cell. */
  method StoreTriple(a: array<Value>, at: nat, t: seq<Value>, ghost w: seq<Value>)
    requires |t| == 3 && at == |w| && a[..] == Overlay(a.Length, w)
    modifies a
    ensures a[..] == Overlay(a.Length, w + t)
  {
    OverlayTriple(a.Length, w, t);
    Store(a, at, t[0]);
    Store(a, at + 1, t[1]);
    Store(a, at + 2, t[2]);
  }

  /** One more cell of row `i` appends its three numbers. */
  lemma RowStep(d: SurfaceData, a: Attribute, i: nat, j: nat)
    requires i < |d.gridX| && j < |d.gridX[i]| && RowReadable(d, i) && RowsReadable(d, i)
    ensures RowsValues(d, a, i) + RowValues(d, a, i, j + 1) == (RowsValues(d, a, i) + RowValues(d, a, i, j)) + CellValues(d, a, i, j)
  {
  }

  /**
   * The inner loop over row `i`, entered with the running `index` at the
   * number of cells of the earlier rows. It reports `ok` unless the row
   * has a cell and cannot be read, which throws; the index it leaves has
   * advanced by one per cell of the row.
   */
  method FillRow(d: SurfaceData, i: nat, start: nat, vertices: array<Value>, colors: array<Value>) returns (ok: bool, index: nat)
    requires i < |d.gridX| && RowsReadable(d, i) && vertices != colors
    requires start == CellsBefore(d.gridX, i)
    requires vertices[..] == Overlay(vertices.Length, RowsValues(d, Position, i))
    requires colors[..] == Overlay(colors.Length, RowsValues(d, Colour, i))
    modifies vertices, colors
    ensures ok <==> RowsReadable(d, i + 1)
    ensures ok ==> index == CellsBefore(d.gridX, i + 1)
    ensures ok ==> vertices[..] == Overlay(vertices.Length, RowsValues(d, Position, i + 1))
    ensures ok ==> colors[..] == Overlay(colors.Length, RowsValues(d, Colour, i + 1))
  {
    RowsReadableNext(d, i);
    index := start;
    var j := 0;
    while j < |d.gridX[i]|
      invariant 0 <= j <= |d.gridX[i]| && (j > 0 ==> RowReadable(d, i))
      invariant index == CellsBefore(d.gridX, i) + j
      invariant vertices[..] == Overlay(vertices.Length, RowsValues(d, Position, i) + RowValues(d, Position, i, j))
      invariant colors[..] == Overlay(colors.Length, RowsValues(d, Colour, i) + RowValues(d, Colour, i, j))
    {
      if i >= |d.gridY| || i >= |d.gridVol| {
        // `gridY[i][j]` or `gridVol[i][j]` reads a property of `undefined`
        assert |d.gridX[i]| > 0 && !RowReadable(d, i);
        return false, index;
      }
      ghost var wp, wc := RowsValues(d, Position, i) + RowValues(d, Position, i, j), RowsValues(d, Colour, i) + RowValues(d, Colour, i, j);
      var x := Num(d.gridX[i][j]);
      var y := Read(d.gridY, i, j);
      var z := Read(d.gridVol, i, j);
      StoreTriple(vertices, index * 3, [ToFloat32(x), ToFloat32(y), ToFloat32(z)], wp);
      var colour := ClampColour(z);
      StoreTriple(colors, index * 3, [colour, SubFrom(1.0, colour), Num(0.5)], wc);
      RowStep(d, Position, i, j);
      RowStep(d, Colour, i, j);
      index := index + 1;
      j := j + 1;
    }
    return true, index;
  }

  /**
   * The component body up to the JSX: the guard, the allocation and the
   * two loops sharing one running `index`, which ends at the number of
   * cells of `gridX`: `rows * cols` on a rectangular grid.
   */
  method FillLattice(d: SurfaceData) returns (r: Drawing, index: nat)
    ensures r == Lattice(d)
    ensures r.Drawn? ==> index == CellsBefore(d.gridX, |d.gridX|)
    ensures r.Drawn? && Rectangular(d.gridX) ==> index == |d.gridX| * |d.gridX[0]|
  {
    index := 0;
    if |d.gridX| == 0 || |d.gridY| == 0 || |d.gridVol| == 0 {
      return InvalidOrEmpty(InvalidDataMessage), index;
    }
    var n := Slots(d);
    var vertices := new Value[n](_ => Num(0.0));
    var colors := new Value[n](_ => Num(0.0));
    assert vertices[..] == Overlay(n, []);
    assert colors[..] == Overlay(n, []);
    var i := 0;
    while i < |d.gridX|
      invariant 0 <= i <= |d.gridX| && RowsReadable(d, i)
      invariant vertices.Length == n && colors.Length == n
      invariant index == CellsBefore(d.gridX, i)
      invariant vertices[..] == Overlay(vertices.Length, RowsValues(d, Position, i))
      invariant colors[..] == Overlay(colors.Length, RowsValues(d, Colour, i))
    {
      var ok;
      ok, index := FillRow(d, i, index, vertices, colors);
      if !ok {
        return Crashed, index;
      }
      i := i + 1;
    }
    if Rectangular(d.gridX) {
      RectangularCells(d.gridX, |d.gridX|);
    }
    return Drawn(vertices[..], colors[..]), index;
  }

  /**
   * The clamped colour of a numeric height lies in `[0, 1]`: it is 0 up to
   * height 5, 1 from height 20 on, and `(z - 5) / 15` in between; red and
   * green sum to 1. A height that is not a number gives NaN red and green.
   */
  lemma ColourOfHeight(z: Value)
    ensures var t := ColourTriple(z);
            && |t| == 3 && t[2] == Num(0.5)
            && (z.Num? ==>
                  && t[0].Num? && t[1].Num?
                  && 0.0 <= t[0].v <= 1.0
                  && t[0].v + t[1].v == 1.0
                  && (z.v <= 5.0 ==> t[0].v == 0.0)
                  && (z.v >= 20.0 ==> t[0].v == 1.0)
                  && (5.0 <= z.v <= 20.0 ==> t[0].v == (z.v - 5.0) / 15.0))
            && (!z.Num? ==> t[0] == NaN && t[1] == NaN)
  {
  }

  /** Every row of `g` has `w` cells, so the rows before row `i` hold `i * w` cells. */
  lemma {:induction false} RectangularCells(g: Grid, i: nat)
    requires |g| > 0 && i <= |g| && Rectangular(g)
    ensures CellsBefore(g, i) == i * |g[0]|
    decreases i
  {
    if i > 0 {
      RectangularCells(g, i - 1);
      assert |g[i - 1]| == |g[0]|;
    }
  }

  /** A buffer written exactly to its length holds what was written. */
  lemma OverlayExact(n: nat, w: seq<Value>)
    requires |w| == n
    ensures Overlay(n, w) == w
  {
  }

  /**
   * On a rectangular grid every slot is written exactly once: the buffers
   * are the written numbers, `3 * rows * cols` of each.
   */
  lemma RectangularFillsExactly(d: SurfaceData)
    requires !AnyEmpty(d) && !Crashes(d) && Rectangular(d.gridX)
    ensures |Stream(d, Position)| == Slots(d) && |Stream(d, Colour)| == Slots(d)
    ensures Lattice(d) == Drawn(Stream(d, Position), Stream(d, Colour))
  {
    RectangularCells(d.gridX, |d.gridX|);
    OverlayExact(Slots(d), Stream(d, Position));
    OverlayExact(Slots(d), Stream(d, Colour));
  }

  /**
   * On any grid the buffers are the written numbers cut to the buffer
   * length: a grid with more cells than `rows * gridX[0].length` loses its
   * last writes, one with fewer leaves the last slots at zero.
   */
  lemma JaggedFill(d: SurfaceData)
    requires !AnyEmpty(d) && !Crashes(d)
    ensures var n, p, c := Slots(d), Stream(d, Position), Stream(d, Colour);
            && (|p| >= n ==> Lattice(d) == Drawn(p[..n], c[..n]))
            && (|p| < n ==> Lattice(d) == Drawn(p + Zeros(n - |p|), c + Zeros(n - |c|)))
  {
  }

  /** `k` zero slots. */
  function Zeros(k: nat): (r: seq<Value>)
    ensures |r| == k && forall t | 0 <= t < k :: r[t] == Num(0.0)
  {
    seq(k, _ => Num(0.0))
  }

  /** Cell `j` of row `i` sits at cell number `j` of the row's numbers. */
  lemma {:induction false} RowCellSlot(d: SurfaceData, a: Attribute, i: nat, j: nat, m: nat)
    requires i < |d.gridX| && j < m <= |d.gridX[i]| && RowReadable(d, i)
    ensures Triple(RowValues(d, a, i, m), j) == CellValues(d, a, i, j)
    decreases m
  {
    if j + 1 == m {
      RowCellSlotLast(d, a, i, j);
    } else {
      RowCellSlot(d, a, i, j, m - 1);
      RowCellSlotEarlier(d, a, i, j, m);
    }
  }

  /** A cell keeps its slot when a later cell of the row is appended. */
  lemma RowCellSlotEarlier(d: SurfaceData, a: Attribute, i: nat, j: nat, m: nat)
    requires i < |d.gridX| && j + 1 < m <= |d.gridX[i]| && RowReadable(d, i)
    requires Triple(RowValues(d, a, i, m - 1), j) == CellValues(d, a, i, j)
    ensures Triple(RowValues(d, a, i, m), j) == CellValues(d, a, i, j)
  {
    SliceLeft(RowValues(d, a, i, m - 1), CellValues(d, a, i, m - 1), 3 * j, 3 * j + 3);
  }

  /** The last cell appended to a row sits at the row's end. */
  lemma RowCellSlotLast(d: SurfaceData, a: Attribute, i: nat, j: nat)
    requires i < |d.gridX| && j < |d.gridX[i]| && RowReadable(d, i)
    ensures Triple(RowValues(d, a, i, j + 1), j) == CellValues(d, a, i, j)
  {
    SliceRight(RowValues(d, a, i, j), CellValues(d, a, i, j), 3 * j, 3 * j + 3);
  }

  /** Cell `(i, j)` sits at cell number `CellsBefore(gridX, i) + j` of the numbers of the rows before row `k`. */
  lemma {:induction false} RowsCellSlot(d: SurfaceData, a: Attribute, i: nat, j: nat, k: nat, s: nat)
    requires i < k <= |d.gridX| && j < |d.gridX[i]| && RowsReadable(d, k)
    requires s == CellsBefore(d.gridX, i) + j
    ensures RowReadable(d, i)
    ensures s < CellsBefore(d.gridX, k)
    ensures Triple(RowsValues(d, a, k), s) == CellValues(d, a, i, j)
    decreases k
  {
    if i + 1 < k {
      RowsCellSlot(d, a, i, j, k - 1, s);
      RowsCellSlotEarlier(d, a, i, j, k, s);
    } else {
      RowsCellSlotLast(d, a, i, j, s);
    }
  }

  /** A cell of row `i` keeps its slot `s` when row `k - 1 > i` is appended. */
  lemma RowsCellSlotEarlier(d: SurfaceData, a: Attribute, i: nat, j: nat, k: nat, s: nat)
    requires i + 1 < k <= |d.gridX| && j < |d.gridX[i]| && RowsReadable(d, k)
    requires RowReadable(d, i) && s < CellsBefore(d.gridX, k - 1)
    requires Triple(RowsValues(d, a, k - 1), s) == CellValues(d, a, i, j)
    ensures s < CellsBefore(d.gridX, k)
    ensures Triple(RowsValues(d, a, k), s) == CellValues(d, a, i, j)
  {
    SliceLeft(RowsValues(d, a, k - 1), RowValues(d, a, k - 1, |d.gridX[k - 1]|), 3 * s, 3 * s + 3);
  }

  /** A cell of row `i`, slot `s`, sits in the last part when row `i` is the last row appended. */
  lemma RowsCellSlotLast(d: SurfaceData, a: Attribute, i: nat, j: nat, s: nat)
    requires i < |d.gridX| && j < |d.gridX[i]| && RowsReadable(d, i + 1)
    requires s == CellsBefore(d.gridX, i) + j
    ensures RowReadable(d, i)
    ensures s < CellsBefore(d.gridX, i + 1)
    ensures Triple(RowsValues(d, a, i + 1), s) == CellValues(d, a, i, j)
  {
    RowCellSlot(d, a, i, j, |d.gridX[i]|);
    SliceRight(RowsValues(d, a, i), RowValues(d, a, i, |d.gridX[i]|), 3 * s, 3 * s + 3);
  }

  /** Counting cells over more rows never gives fewer. */
  lemma {:induction false} CellsBeforeGrows(g: Grid, i: nat, k: nat)
    requires i <= k <= |g|
    ensures CellsBefore(g, i) <= CellsBefore(g, k)
    decreases k - i
  {
    if i < k {
      CellsBeforeGrows(g, i, k - 1);
    }
  }

  /**
   * Cell `(i, j)` is written at cell number `s = CellsBefore(gridX, i) + j`
   * in row-major order; when that slot is inside the buffers, they hold
   * its position `(x, y, z)` and its colour triple there.
   */
  lemma DrawnCell(d: SurfaceData, i: nat, j: nat)
    requires Lattice(d).Drawn?
    requires i < |d.gridX| && j < |d.gridX[i]|
    requires 3 * (CellsBefore(d.gridX, i) + j) + 3 <= Slots(d)
    ensures RowReadable(d, i)
    ensures var s, r := CellsBefore(d.gridX, i) + j, Lattice(d);
            && r.positions[3 * s .. 3 * s + 3] == [Num(d.gridX[i][j]), ToFloat32(Read(d.gridY, i, j)), ToFloat32(Read(d.gridVol, i, j))]
            && r.colours[3 * s .. 3 * s + 3] == ColourTriple(Read(d.gridVol, i, j))
  {
    DrawnTriple(d, Position, i, j);
    DrawnTriple(d, Colour, i, j);
  }

  /** One buffer holds the cell's three numbers at its slot. */
  lemma DrawnTriple(d: SurfaceData, a: Attribute, i: nat, j: nat)
    requires !AnyEmpty(d) && !Crashes(d)
    requires i < |d.gridX| && j < |d.gridX[i]|
    requires 3 * (CellsBefore(d.gridX, i) + j) + 3 <= Slots(d)
    ensures RowReadable(d, i)
    ensures var s := CellsBefore(d.gridX, i) + j;
            Overlay(Slots(d), Stream(d, a))[3 * s .. 3 * s + 3] == CellValues(d, a, i, j)
  {
    var s := CellsBefore(d.gridX, i) + j;
    StreamCell(d, a, i, j);
    OverlayWindow(Slots(d), Stream(d, a), 3 * s, 3 * s + 3);
  }

  /** Cell `(i, j)` is cell number `CellsBefore(gridX, i) + j` of everything written. */
  lemma StreamCell(d: SurfaceData, a: Attribute, i: nat, j: nat)
    requires !Crashes(d)
    requires i < |d.gridX| && j < |d.gridX[i]|
    ensures RowReadable(d, i)
    ensures var s := CellsBefore(d.gridX, i) + j;
            3 * s + 3 <= |Stream(d, a)| && Stream(d, a)[3 * s .. 3 * s + 3] == CellValues(d, a, i, j)
  {
    RowsCellSlot(d, a, i, j, |d.gridX|, CellsBefore(d.gridX, i) + j);
  }

  /** Slots both written and inside the buffer hold what was written. */
  lemma OverlayWindow(n: nat, w: seq<Value>, lo: nat, hi: nat)
    requires lo <= hi <= n && hi <= |w|
    ensures Overlay(n, w)[lo .. hi] == w[lo .. hi]
  {
  }

  /**
   * On a rectangular grid `cols` wide, cell `(i, j)` is cell number
   * `i * cols + j`: the buffers hold its position and colour at offset
   * `3 * (i * cols + j)`.
   */
  lemma RectangularCell(d: SurfaceData, i: nat, j: nat)
    requires !AnyEmpty(d) && !Crashes(d) && Rectangular(d.gridX)
    requires i < |d.gridX| && j < |d.gridX[0]|
    ensures RowReadable(d, i)
    ensures var s, r := i * |d.gridX[0]| + j, Lattice(d);
            && r.Drawn?
            && 3 * s + 3 <= |r.positions|
            && r.positions[3 * s .. 3 * s + 3] == [Num(d.gridX[i][j]), ToFloat32(Read(d.gridY, i, j)), ToFloat32(Read(d.gridVol, i, j))]
            && r.colours[3 * s .. 3 * s + 3] == ColourTriple(Read(d.gridVol, i, j))
  {
    var cols := |d.gridX[0]|;
    RectangularCells(d.gridX, i);
    RectangularCells(d.gridX, |d.gridX|);
    assert |d.gridX[i]| == cols;
    CellsBeforeGrows(d.gridX, i + 1, |d.gridX|);
    RectangularCells(d.gridX, i + 1);
    DrawnCell(d, i, j);
  }

  /**
   * Wherever a cell is drawn, its colour is the colour triple of the height
   * stored in its position: colour and height never disagree.
   */
  lemma DrawnColourFollowsHeight(d: SurfaceData, i: nat, j: nat)
    requires Lattice(d).Drawn?
    requires i < |d.gridX| && j < |d.gridX[i]|
    requires 3 * (CellsBefore(d.gridX, i) + j) + 3 <= Slots(d)
    ensures var s, r := CellsBefore(d.gridX, i) + j, Lattice(d);
            r.colours[3 * s .. 3 * s + 3] == ColourTriple(r.positions[3 * s + 2])
  {
    var s, r := CellsBefore(d.gridX, i) + j, Lattice(d);
    DrawnCell(d, i, j);
    WindowElement(r.positions, 3 * s, [Num(d.gridX[i][j]), ToFloat32(Read(d.gridY, i, j)), ToFloat32(Read(d.gridVol, i, j))], 2);
  }
}
