# Box-average stencil over a 3-D grid

This project models `main.cpp`, a reproducer that runs a 3-D box-average
stencil in two ways and shows the two resulting grids side by side.

The source is a flat vector of samples. It is viewed through a row-major
`mdspan` with extents (z, y, x) = (`kDims[2]`, `kDims[1]`, `kDims[0]`).
Each axis has a (low, high) border pair in `kConstBorders`. A cell is
interior when, on every axis, it lies at least `low` cells from the start
and at least `high` cells from the end. An interior cell receives the sum
of the inclusive box [c - low, c + high] around it, divided by
`kKernelSize`. Every other cell keeps the zero the destination was
created with.

- `sequentialReference` fills the interior with three nested loops,
  z outermost.
- `stlVersionWithCarthesianProduct` builds `iota` ranges of the interior
  on each axis and takes their `cartesian_product`. It then applies the
  same per-cell body to every item with `std::for_each`.

The model works on any geometry that has three axes. The reproducer's
configuration is the constant `GridGeometry.Reproducer`.

- `RowMajor` holds the flat layout and its div/mod inverse.
- `Enumeration` holds `iota`, the flattened cartesian product, and the
  same enumeration built the way nested loops visit it.
- `GridGeometry` holds the kernel-size fold, the interior, the work list
  and the stencil box.
- `Averager` holds the specification `BoxAverage` and the two
  strategies. The strategies are methods over arrays with loop
  invariants. Each is proved to return `BoxAverage`, so the two agree on
  every input.

## Model

| member | source | states |
|---|---|---|
| RowMajor.Coordinates | main.cpp:88-89 | The cell at a flat offset below nz*ny*nx lies inside the grid, and its row-major offset is that offset: the layout is onto. |
| RowMajor.OffsetInBounds | main.cpp:88-89 | Every cell inside the grid has a row-major offset below the number of cells, so every access through the `mdspan` view stays inside the buffer. |
| RowMajor.CoordinatesOfOffset | main.cpp:88-89 | Coordinates undoes Offset on every in-grid cell. |
| RowMajor.OffsetInjective | main.cpp:88-104 | Two in-grid cells share an offset if and only if they are the same cell. |
| RowMajor.OffsetSplit | main.cpp:88-89 | A cell's offset is the size of the whole planes before it plus its offset within its own plane. |
| Enumeration.IotaMembers | main.cpp:126-128 | `iota(lo, hi)` has hi - lo elements (none when hi <= lo), holds exactly the values in [lo, hi), and holds each of them once. |
| Enumeration.CartesianProduct | main.cpp:130 | The product of three ranges has the product of their lengths as its number of elements. |
| Enumeration.CartesianProductAt | main.cpp:130 | The triple made from the elements at positions (a, b, c) sits at the row-major offset of (a, b, c). This is lexicographic order, z outermost. |
| Enumeration.CartesianProductMembers | main.cpp:130 | A triple is in the product if and only if each of its components is in its range. |
| Enumeration.CartesianProductDistinct | main.cpp:130 | The product of duplicate-free ranges lists no triple twice. |
| Enumeration.RowAt | main.cpp:98-100 | The x loop visits Extent(xlo, xhi) cells, and visit d is at x = xlo + d. |
| Enumeration.PlaneLength | main.cpp:97-101 | The y and x loops together visit Extent(ylo, yhi) * Extent(xlo, xhi) cells. |
| Enumeration.PlaneAt | main.cpp:97-101 | Visit b * width + d of the y and x loops is the cell (z, ylo + b, xlo + d). |
| Enumeration.BoxLength | main.cpp:96-102 | The three stencil loops visit the product of the three extents' worth of cells. |
| Enumeration.BoxAt | main.cpp:96-102 | The three stencil loops visit, at the row-major offset of relative position p, the cell lo + p. |
| Enumeration.CartesianProductIsBox | main.cpp:126-130 | The cartesian product of three `iota` ranges is exactly the sequence the three nested loops visit, element for element. |
| Enumeration.BoxMember | main.cpp:96-102 | A cell is visited by the nested loops over [lo, hi) if and only if it lies in [lo, hi) on every axis. |
| Enumeration.BoxMembers | main.cpp:96-102 | The nested loops over [lo, hi) visit the product of the extents' worth of cells. They visit exactly the cells of the box, each once. |
| GridGeometry.AccumulateIsProduct | main.cpp:19-24 | The left fold `acc * (1 + low + high)` over the border pairs equals the starting value times the product of the widths. |
| GridGeometry.WidthsPositive | main.cpp:19-24 | The product of the widths is at least 1. |
| GridGeometry.KernelSize | main.cpp:19-24 | The kernel size is Wx * Wy * Wz, where W = 1 + low + high on each axis. It is never zero, so the division at line 104 is defined. |
| GridGeometry.ReproducerKernelSize | main.cpp:17-24 | The reproducer's configuration is valid, its kernel size is 64, and its buffer holds 6*5*4 = 120 cells. |
| GridGeometry.CellOffset | main.cpp:88-89 | An in-grid cell's position in the buffer is below the number of cells. |
| GridGeometry.CellAt | main.cpp:88-89 | Every buffer position below the number of cells is the position of some in-grid cell. |
| GridGeometry.CellOffsetInverse | main.cpp:88-89 | CellAt recovers every in-grid cell from its buffer position. |
| GridGeometry.InteriorItemsExact | main.cpp:126-130 | The work list contains a cell if and only if the cell is interior, and it contains no cell twice. |
| GridGeometry.DisjointWrites | main.cpp:130-150 | No two work items write the same element of the destination. This is what makes the unsequenced `for_each` free of races. |
| GridGeometry.StencilMembers | main.cpp:96-98 | Around an interior cell, the stencil loops visit exactly the cells within [c - low, c + high] on every axis, each once. |
| GridGeometry.StencilWithinGrid | main.cpp:91-98 | Around an interior cell no `c - low` underflows, and no `c + high` reaches the extent. Every sample the stencil reads is therefore inside the grid. |
| GridGeometry.StencilSize | main.cpp:96-104 | The stencil box of an interior cell has exactly kKernelSize cells: the divisor counts the summands. |
| Averager.SumOverAppend | main.cpp:96-102 | Summing the samples over a concatenation of cell lists is summing over each list and adding the two. |
| Averager.RowSumIsSumOver | main.cpp:98-100 | The x loop's running sum is the sum over the cells it visits. |
| Averager.PlaneSumIsSumOver | main.cpp:97-101 | The y loop's running sum is the sum over the cells it visits. |
| Averager.PlaneSumStep | main.cpp:97-101 | One more row extends the y loop's running sum and the visited cells alike. |
| Averager.BoxSumIsSumOver | main.cpp:96-102 | The z loop's running sum is the sum over the stencil box, taken in loop order. |
| Averager.BoxAverageAt | main.cpp:84-110 | The specified destination is as long as the source. At an in-grid cell it holds the cell's mean when the cell is interior and zero otherwise. |
| Averager.BoxAverageByCell | main.cpp:86-104 | A destination that holds those values at every in-grid cell is the specified destination. |
| Averager.AddRow | main.cpp:98-100 | The x loop adds, to the incoming sum, the samples of the row in increasing x. |
| Averager.AddPlane | main.cpp:97-101 | The y loop adds, to the incoming sum, the samples of the plane row by row. |
| Averager.AddBox | main.cpp:94-102 | Starting from 0.0, the z loop produces the sum of the box plane by plane. |
| Averager.StencilMean | main.cpp:94-104 | The per-cell body returns the mean of the stencil box of an interior cell: its sum divided by the kernel size. |
| Averager.SequentialReference | main.cpp:84-110 | `sequentialReference` returns a grid as long as the source. Each interior cell holds its mean and every border cell holds zero. |
| Averager.FillPlane | main.cpp:92-106 | After the y loop of plane z, every interior cell of planes up to z holds its mean. Every other cell is unchanged from zero. |
| Averager.FillRow | main.cpp:93-105 | After the x loop of row (z, y), every interior cell up to that row holds its mean. Every other cell is unchanged from zero. |
| Averager.CartesianProductVersion | main.cpp:116-152 | `stlVersionWithCarthesianProduct` returns the same specified grid as the sequential strategy. |
| Averager.CompareStrategies | main.cpp:160-161 | Both strategies, run on the same source, return equal grids. |
| Averager.RunReproducer | main.cpp:154-166 | On the reproducer's source (120 samples counting up from 100), both strategies return 120 values. They are equal, and the border cell (0, 0, 0) is zero. |

## Left out

- `printVs` (main.cpp:29-60) and the display in `main` are output only and are not modelled.
- `approxEqual` (main.cpp:62-78) is not modelled. Samples are real numbers, so the two strategies are proved exactly equal. IEEE double rounding, and with it the order dependence of floating-point sums, is not captured.
- The `std::execution::par_unseq` policy is modelled as a sequential loop over the work list. What carries the result to any schedule is `GridGeometry.DisjointWrites`: every item reads only the source and writes only its own cell, which no other item writes. Interleavings themselves are not modelled.
- `idx_t` is `uint32_t` in the source. The model uses unbounded naturals and does not model 32-bit wrap-around.
- GridGeometry.Valid requires `high <= extent` on every axis, so that `kDims[a] - kConstBorders[a][1]` cannot wrap around. The source's constants meet this.
- `Iota`: `std::views::iota(lo, hi)` with `lo > hi` is undefined in the source. The model treats it as empty, just as the sequential loops then run no iteration.
- `vec_t::resize` on an empty vector is modelled as allocating a destination filled with zeros.
- Averager.Sample: the sample of a cell outside the grid is taken as zero. An interior cell's stencil never reads outside the grid (`GridGeometry.StencilWithinGrid`).
- `cartesian_product.hpp` and `mdspan.hpp` are not part of this model. Their behaviour is modelled from what the standard views promise: lexicographic order of the product, and the row-major layout of `mdspan`.
- `kLog` and its logging branch are not modelled.
