# Volatility-surface meshing in Dafny

This project models the two grid-to-buffer routines of a small React and
three.js viewer for implied-volatility surfaces. Both routines take three
nested `number[][]` grids, `gridX`, `gridY` and `gridVol`, and turn them
into flat attribute buffers for a renderer.

- **The cell mesher** lives in `src/App.tsx`, in the `useMemo` body.
  - It rejects empty outer arrays.
  - It visits the low corner of each of the `(rows - 1) * (cols - 1)`
    cells, with `cols = gridX[0].length`.
  - For each cell it pushes one position `(x, y, z)` and one colour
    `((z + 5) / 10, 1 - (z + 5) / 10, 0.5)`.
  - It also pushes the six indices of the cell's two triangles. They use
    base `i * cols + j` and row stride `cols`.
  - Any exception is caught. The buffers are then empty and the error is
    kept for display.
  - Module `CellMesher` models it, on top of `MeshBuffers` (the buffers and
    where a cell sits in them).
  - Module `DummyData` models the component's default 10 by 10 surface.
- **The lattice filler** lives in `src/VolSurfaceVisualizer.tsx`.
  - It rejects empty outer arrays.
  - It preallocates two `Float32Array`s of `3 * rows * gridX[0].length`
    numbers.
  - It walks every cell of every row of `gridX` in row-major order with a
    running `index`.
  - For each cell it writes the position and the colour
    `(c, 1 - c, 0.5)`, where `c = min(max((z - 5) / 15, 0), 1)`.
  - Module `LatticeFill` models it twice: as a function (`Lattice`) and as
    the loops themselves over arrays (`FillLattice`, `FillRow`). It proves
    the two agree.
- **The corrected mesher** is module `LatticeMesher`. It is the mesh
  `src/App.tsx` evidently means to build: one vertex per lattice point,
  with the same triangles (see Findings).

The modules share two small ones:

- `JsValues` holds JavaScript numbers as the code meets them: a number,
  `undefined`, or `NaN`.
- `Grids` holds the grids and sequence helpers.

Reading past the end of a short row gives `undefined`, and arithmetic on
it gives `NaN`. The model keeps this behaviour rather than requiring it
away. Reading a row that is missing from `gridY` or `gridVol` is a
`TypeError`. Each file reads only some rows, and the two handle the error
differently:

- The cell mesher reads row `i` only for `i < rows - 1`, and only when
  `cols >= 2`. It catches the error (`RowUnreadable`). A missing row that
  it never reads raises nothing; for example, a 3 by 3 `gridX` with
  2-row `gridY` and `gridVol` meshes four cells (`LastRowNeverRead`).
- The filler reads row `i` only when `gridX[i]` is non-empty. It does not
  catch the error, so the render fails (`Crashed`). Rows with no cells
  are never read.

A `Float32Array` ignores a write past its end. The model does the same
(`Store`), so a jagged grid is modelled as it behaves, with no
precondition ruling it out.

Three more facts about the code shape the model:

- Both colour maps are fixed. Neither normalises by the grid's minimum
  and maximum volatility, and only the filler clamps.
- Neither file checks the shape of the grids. A short row reads
  `undefined`, and a missing row throws only when it is read.
- The cell mesher emits one vertex per visited cell.

## Model

| member | source | states |
|---|---|---|
| CellMesher.BuildMesh | src/App.tsx:59-106 | The error is "missing grid data" exactly when an outer array is empty. It is "row unreadable" exactly when a visited row of `gridY` or `gridVol` is missing. On either error all three buffers are empty. |
| CellMesher.MissingDataMessageShown | src/App.tsx:61-104 | The error text stored for display is "Missing or invalid grid data" exactly when an outer array is empty. |
| CellMesher.DegenerateGridMeshesEmpty | src/App.tsx:73-78 | A single row or a single column gives three empty buffers and no error. |
| CellMesher.LastRowNeverRead | src/App.tsx:77-81 | The last row of `gridY` and `gridVol` is never read. When both lack it, the grid still meshes without error into `(rows - 1) * (cols - 1)` vertices. |
| CellMesher.MeshSizes | src/App.tsx:77-97 | On success there are `3 * (rows - 1) * (cols - 1)` position numbers, as many colour numbers, and `6 * (rows - 1) * (cols - 1)` indices. |
| CellMesher.CellInRowMajorOrder | src/App.tsx:77-83 | Cell `(i, j)` is entry number `i * (cols - 1) + j` of the buffers, so cells are pushed in row-major order. Its row of `gridY` and `gridVol` exists. |
| CellMesher.CellContents | src/App.tsx:77-97 | Entry `i * (cols - 1) + j` holds three things. Its position is `(gridX[i][j], gridY[i][j], gridVol[i][j])`, where reads past a short row are `undefined`. Its colour is the height colour of `gridVol[i][j]`. Its six indices are `[b, b+1, b+cols, b+1, b+cols+1, b+cols]` with `b = i * cols + j`. |
| CellMesher.ColoursFollowHeights | src/App.tsx:83-87 | Every colour triple is the height colour of the `z` of its own vertex. |
| CellMesher.ColourOfVertex | src/App.tsx:85-87 | For a numeric height `z`, red is `(z + 5) / 10`, green is `1 - red`, and red plus green is 1. Red lies in `[0, 1]` exactly when `z` lies in `[-5, 5]`, since nothing clamps it. Blue is always 0.5. A non-numeric height gives NaN red and green. |
| CellMesher.IndicesInLattice | src/App.tsx:89-97 | Every index names a point of the `rows * cols` lattice: `0 <= x < rows * cols`. |
| CellMesher.IndicesOverrunVertices | src/App.tsx:77-97 | For `rows, cols >= 2`, the index `rows * cols - 1` is emitted. It is at least the number of vertices, `(rows - 1) * (cols - 1)`. |
| CellMesher.TwoByTwoExample | src/App.tsx:69-101 | The 2 by 2 grid gives one vertex `(0, 0, 5)`, colour `(1, 0, 0.5)` and indices `[0, 1, 2, 1, 3, 2]`. |
| LatticeFill.Lattice | src/VolSurfaceVisualizer.tsx:19-56 | The result is the paragraph "Invalid or empty data for volatility surface." exactly when an outer array is empty. It is a crash exactly when some row of `gridX` with a cell has no row in `gridY` or `gridVol`. Otherwise both buffers hold `3 * rows * gridX[0].length` numbers. |
| LatticeFill.FillLattice | src/VolSurfaceVisualizer.tsx:19-56 | The guard, the two allocations and the two loops over arrays produce exactly `Lattice`. The one running `index` ends at the number of cells of `gridX`, which is `rows * cols` on a rectangular grid. |
| LatticeFill.FillRow | src/VolSurfaceVisualizer.tsx:38-55 | The inner loop over row `i` fails exactly when the row has a cell and cannot be read. Otherwise it appends the row's positions and colours to what the earlier rows wrote, and the running `index` advances by the row's cell count. |
| LatticeFill.ColourOfHeight | src/VolSurfaceVisualizer.tsx:49-52 | For a numeric height, red lies in `[0, 1]`. Red is 0 up to height 5, 1 from height 20, and `(z - 5) / 15` in between. Red and green sum to 1 and blue is 0.5. A non-numeric height gives NaN. |
| LatticeFill.RectangularFillsExactly | src/VolSurfaceVisualizer.tsx:33-56 | On a rectangular grid, the running index ends at exactly `rows * cols`. Every slot is written exactly once, and the buffers are exactly the written numbers. |
| LatticeFill.JaggedFill | src/VolSurfaceVisualizer.tsx:33-54 | On any readable grid, the buffers are the written numbers cut to the buffer length. Writes past the end are lost, and unwritten slots stay zero. |
| LatticeFill.StreamCell | src/VolSurfaceVisualizer.tsx:36-54 | Cell `(i, j)` is written as cell number `CellsBefore(gridX, i) + j` of the row-major stream. |
| LatticeFill.DrawnCell | src/VolSurfaceVisualizer.tsx:36-54 | When its slot fits in the buffers, cell `(i, j)` holds its position there. The position is `(gridX[i][j], gridY[i][j], gridVol[i][j])`, with `undefined` stored as NaN. The same slot holds its colour triple. |
| LatticeFill.RectangularCell | src/VolSurfaceVisualizer.tsx:37-52 | On a rectangular grid, cell `(i, j)` sits at slot `i * cols + j`, with its position and colour. |
| LatticeFill.DrawnColourFollowsHeight | src/VolSurfaceVisualizer.tsx:41-52 | The colour in every drawn slot is the colour triple of the height stored in the same slot. |
| DummyData.Dummy | src/App.tsx:18-42 | The default data are three 10 by 10 grids. `gridX` and `gridY` hold the column number `j` at `(i, j)`, and `gridVol` holds `5 sin(i/2) cos(j/2)` (the parameter `vol`). |
| DummyData.DummyMesh | src/App.tsx:18-42 | The default surface meshes without error. It gives 81 vertices and 486 indices, and the index 99 appears. |
| DummyData.DummyHeight | src/App.tsx:34-40 | Vertex `k` of the default surface is cell `(k / 9, k % 9)`, so its height is that cell's `5 sin(i/2) cos(j/2)` (the parameter `vol`). |
| DummyData.DummyColoursInRange | src/App.tsx:34-40 | The default heights lie in `[-5, 5]`, so every colour of the default surface lies in `[0, 1]`. |
| DummyData.DummyLattice | src/App.tsx:18-42 | Meshed one vertex per lattice point, the default surface has 100 vertices, and every index names one of them. |
| LatticeMesher.VisitPoints | src/App.tsx:77-81 | The corrected vertex loop over the first `i` rows reads every row. It throws exactly when some row has a point and is missing from `gridY` or `gridVol`, which is when `i` exceeds their length. Otherwise it yields every point of those rows. |
| LatticeMesher.BuildLattice | src/App.tsx:59-106 | It has the cell mesher's guard and catch, around the corrected loop. The error is "missing grid data" exactly when an outer array is empty. It is "row unreadable" exactly when `gridX[0]` is non-empty and `gridY` or `gridVol` has fewer rows than `gridX`. On either error the buffers are empty. |
| LatticeMesher.LatticeSizes | src/App.tsx:73-97 | On success there are `rows * cols` vertices and colours, and `6 * (rows - 1) * (cols - 1)` indices. |
| LatticeMesher.PointNumbering | src/App.tsx:89 | Vertex `i * cols + j` is grid point `(i, j)`, coloured by its height. |
| LatticeMesher.QuadNumbering | src/App.tsx:89-97 | The six indices of cell `(i, j)` are the quad `src/App.tsx` pushes for it, with base `i * cols + j`. |
| LatticeMesher.QuadCornersArePoints | src/App.tsx:89-97 | The quad of cell `(i, j)` names the vertices of grid points `(i, j)`, `(i, j+1)`, `(i+1, j)` and `(i+1, j+1)`. |
| LatticeMesher.IndicesNameVertices | src/App.tsx:89-97 | Every index names a vertex that exists. |
| LatticeMesher.SquareLattice | src/App.tsx:73-97 | An `n` by `n` grid meshes without error into `n * n` vertices and `6 * (n - 1) * (n - 1)` indices, each below `n * n`. |

## Left out

- Rendering is not modelled, because it is framework glue with no logic
  to prove. This covers React and three.js (`Canvas`, `bufferGeometry`,
  materials, camera, lights, `Stats`), the `useState`, `useMemo` and
  `useEffect` plumbing, the error paragraph, and `console` logging.
- Floating point is not modelled. Positions and colours are exact reals,
  and `Float32Array` stores only turn `undefined` into NaN
  (`ToFloat32`). Rounding to single or double precision is left out.
- The text of the `TypeError` thrown on a missing row is not modelled,
  because it is engine-defined. The model records only which error
  occurred.
- A missing or `null` `volSurfaceData`, or an outer grid that is not an
  array, is not modelled. The model's data always has three
  (possibly empty) outer sequences.
- `DummyData.Dummy`: the values `Math.sin(i / 2) * Math.cos(j / 2) * 5`
  are a parameter `vol`, because trigonometry is floating point. The only
  fact used about them is that they lie in `[-5, 5]`.
- `CellMesher.BuildMesh`: the error state outliving the memoised value
  across renders is React state, so it is not modelled.
- `src/counter.ts`, `src/index.tsx`, `vite.config.ts` and the render
  tests in `src/App.test.tsx` are not modelled. They hold DOM event
  handling, bootstrapping, build configuration, and a test of heading
  text. None of them touches the meshing.

## Findings

| source | as written | input that shows it | evidently intended | confidence | as-written member | corrected member |
|---|---|---|---|---|---|---|
| src/App.tsx:77-97 | One vertex is pushed per visited cell, `(rows - 1) * (cols - 1)` in all. The indices use base `i * cols + j` and stride `cols`, so they address a `rows * cols` lattice. The largest index, `rows * cols - 1`, names a vertex that does not exist. | The 2 by 2 grid of `CellMesher.TwoByTwoExample` pushes one vertex, but its indices are `[0, 1, 2, 1, 3, 2]`. The default 10 by 10 surface has 81 vertices but uses index 99 (`DummyData.DummyMesh`). | One vertex per lattice point, `rows * cols` in all. The same quads then name the cell's four corners, and every index names a vertex. | not executed | CellMesher.IndicesOverrunVertices | LatticeMesher.IndicesNameVertices |
