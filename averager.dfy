/** The stencil averager: every interior cell of the destination receives
    the mean of the source box around it, every other cell keeps the zero
    the destination was created with. Two strategies fill the destination:
    a sequential triple loop over the interior, and a loop over the
    flattened cartesian product of the interior ranges (one work item per
    cell). Both are proved to produce BoxAverage, hence the same grid. */
module Averager {
  import opened RowMajor
  import opened Enumeration
  import opened GridGeometry

  // ---------------------------------------------------------------------
  // Specification

  /** The source sample at grid cell c, read through the row-major layout.
      Outside the grid there is no sample; zero stands in for it, and the
      stencil of an interior cell never reaches there (StencilWithinGrid). */
  function Sample(g: Geometry, src: seq<real>, c: Index): real
  {
    if |g.dims| == 3 && InGrid(g, c) && CellOffset(g, c) < |src| then src[CellOffset(g, c)] else 0.0
  }

  /** The samples at the listed cells, added up in list order (a left
      fold: the last cell is added last). */
  function SumOver(g: Geometry, src: seq<real>, cells: seq<Index>): real
  {
    if cells == [] then 0.0
    else SumOver(g, src, cells[..|cells| - 1]) + Sample(g, src, cells[|cells| - 1])
  }

  /** Summing a concatenation is summing each part; in particular adding
      one more cell adds its sample. */
  lemma {:induction false} SumOverAppend(g: Geometry, src: seq<real>, a: seq<Index>, b: seq<Index>)
    ensures SumOver(g, src, a + b) == SumOver(g, src, a) + SumOver(g, src, b)
  {
    if b == [] {
      assert a + b == a;
    } else {
      var init := b[..|b| - 1];
      assert (a + b)[..|a + b| - 1] == a + init;
      SumOverAppend(g, src, a, init);
    }
  }

  /** The sum of row (z, y) over x in [xlo, xhi), added in increasing x:
      the running sum of the innermost loop. */
  function RowSum(g: Geometry, src: seq<real>, z: nat, y: nat, xlo: nat, xhi: nat): real
  {
    if xhi <= xlo then 0.0 else RowSum(g, src, z, y, xlo, xhi - 1) + Sample(g, src, Index(z, y, xhi - 1))
  }

  /** The sum of plane z over y in [ylo, yhi), row after row. */
  function PlaneSum(g: Geometry, src: seq<real>, z: nat, ylo: nat, yhi: nat, xlo: nat, xhi: nat): real
  {
    if yhi <= ylo then 0.0
    else PlaneSum(g, src, z, ylo, yhi - 1, xlo, xhi) + RowSum(g, src, z, yhi - 1, xlo, xhi)
  }

  /** The sum of the box [lo, hi), plane after plane. */
  function BoxSum(g: Geometry, src: seq<real>, lo: Index, hi: Index): real
    decreases hi.z
  {
    if hi.z <= lo.z then 0.0
    else BoxSum(g, src, lo, hi.(z := hi.z - 1)) + PlaneSum(g, src, hi.z - 1, lo.y, hi.y, lo.x, hi.x)
  }

  /** A row's running sum is the sum over the row's cells. */
  lemma {:induction false} RowSumIsSumOver(g: Geometry, src: seq<real>, z: nat, y: nat, xlo: nat, xhi: nat)
    ensures RowSum(g, src, z, y, xlo, xhi) == SumOver(g, src, Row(z, y, xlo, xhi))
  {
    if xlo < xhi {
      RowSumIsSumOver(g, src, z, y, xlo, xhi - 1);
      var row := Row(z, y, xlo, xhi);
      assert row[..|row| - 1] == Row(z, y, xlo, xhi - 1);
    }
  }

  /** A plane's running sum is the sum over the plane's cells. */
  lemma {:induction false} PlaneSumIsSumOver(g: Geometry, src: seq<real>, z: nat, ylo: nat, yhi: nat, xlo: nat, xhi: nat)
    ensures PlaneSum(g, src, z, ylo, yhi, xlo, xhi) == SumOver(g, src, Plane(z, ylo, yhi, xlo, xhi))
  {
    if ylo < yhi {
      PlaneSumIsSumOver(g, src, z, ylo, yhi - 1, xlo, xhi);
      RowSumIsSumOver(g, src, z, yhi - 1, xlo, xhi);
      PlaneSumStep(g, src, z, ylo, yhi, xlo, xhi);
    }
  }

  /** The inductive step of PlaneSumIsSumOver: the last row extends both sides alike. */
  lemma PlaneSumStep(g: Geometry, src: seq<real>, z: nat, ylo: nat, yhi: nat, xlo: nat, xhi: nat)
    requires ylo < yhi
    requires PlaneSum(g, src, z, ylo, yhi - 1, xlo, xhi) == SumOver(g, src, Plane(z, ylo, yhi - 1, xlo, xhi))
    requires RowSum(g, src, z, yhi - 1, xlo, xhi) == SumOver(g, src, Row(z, yhi - 1, xlo, xhi))
    ensures PlaneSum(g, src, z, ylo, yhi, xlo, xhi) == SumOver(g, src, Plane(z, ylo, yhi, xlo, xhi))
  {
    SumOverAppend(g, src, Plane(z, ylo, yhi - 1, xlo, xhi), Row(z, yhi - 1, xlo, xhi));
  }

  /** A box's running sum is the sum over the box's cells, in the order
      three nested loops visit them. */
  lemma {:induction false} BoxSumIsSumOver(g: Geometry, src: seq<real>, lo: Index, hi: Index)
    ensures BoxSum(g, src, lo, hi) == SumOver(g, src, Box(lo, hi))
    decreases hi.z
  {
    if lo.z < hi.z {
      BoxSumIsSumOver(g, src, lo, hi.(z := hi.z - 1));
      PlaneSumIsSumOver(g, src, hi.z - 1, lo.y, hi.y, lo.x, hi.x);
      SumOverAppend(g, src, Box(lo, hi.(z := hi.z - 1)), Plane(hi.z - 1, lo.y, hi.y, lo.x, hi.x));
    }
  }

  /** The value an interior cell receives: the sum over its stencil box,
      taken z outermost and x innermost, divided by the kernel size. */
  function CellMean(g: Geometry, src: seq<real>, c: Index): real
    requires Valid(g) && |src| == CellCount(g) && IsInterior(g, c)
  {
    SumOver(g, src, Stencil(g, c)) / (KernelSize(g) as real)
  }

  /** The destination both strategies must produce: as long as the source,
      the mean at every interior cell, zero everywhere else. */
  function BoxAverage(g: Geometry, src: seq<real>): seq<real>
    requires Valid(g) && |src| == CellCount(g)
  {
    seq(|src|, n requires 0 <= n < |src| =>
      var c := CellAt(g, n);
      if IsInterior(g, c) then CellMean(g, src, c) else 0.0)
  }

  /** Read at the offset of a grid cell, BoxAverage holds the cell's mean
      when the cell is interior and zero when it is a border cell. */
  lemma BoxAverageAt(g: Geometry, src: seq<real>, c: Index)
    requires Valid(g) && |src| == CellCount(g) && InGrid(g, c)
    ensures |BoxAverage(g, src)| == |src|
    ensures CellOffset(g, c) < |src|
    ensures IsInterior(g, c) ==> BoxAverage(g, src)[CellOffset(g, c)] == CellMean(g, src, c)
    ensures !IsInterior(g, c) ==> BoxAverage(g, src)[CellOffset(g, c)] == 0.0
  {
    CellOffsetInverse(g, c);
  }

  /** A destination that holds, at every grid cell, the mean for interior
      cells and zero for the others, is BoxAverage. */
  lemma BoxAverageByCell(g: Geometry, src: seq<real>, dst: seq<real>)
    requires Valid(g) && |src| == CellCount(g) && |dst| == |src|
    requires forall d :: InGrid(g, d) ==> dst[CellOffset(g, d)] == if IsInterior(g, d) then CellMean(g, src, d) else 0.0
    ensures dst == BoxAverage(g, src)
  {
    forall n | 0 <= n < |src|
      ensures dst[n] == BoxAverage(g, src)[n]
    {
      var d := CellAt(g, n);
      assert dst[CellOffset(g, d)] == if IsInterior(g, d) then CellMean(g, src, d) else 0.0;
    }
  }

  /** Lexicographic order on (z, y, x): the order the sequential loops visit cells. */
  predicate Before(c: Index, d: Index)
  {
    c.z < d.z || (c.z == d.z && (c.y < d.y || (c.y == d.y && c.x < d.x)))
  }

  /** What cell c of the destination holds once the sequential loops have
      written every interior cell before `next`. */
  ghost function Filled(g: Geometry, src: seq<real>, next: Index, c: Index): real
    requires Valid(g) && |src| == CellCount(g)
  {
    if IsInterior(g, c) && Before(c, next) then CellMean(g, src, c) else 0.0
  }

  // ---------------------------------------------------------------------
  // The per-cell body shared by both strategies

  /** The innermost loop: adds the samples of row (z, y) for x in
      [xlo, xhi) to the running sum acc, one cell at a time. */
  method AddRow(g: Geometry, src: seq<real>, z: nat, y: nat, xlo: nat, xhi: nat, acc: real) returns (sum: real)
    requires |g.dims| == 3 && |src| == CellCount(g)
    requires z < g.dims[Z] && y < g.dims[Y] && xhi <= g.dims[X]
    ensures sum == acc + RowSum(g, src, z, y, xlo, xhi)
  {
    sum := acc;
    var x := xlo;
    while x < xhi
      invariant xlo <= x <= if xlo < xhi then xhi else xlo
      invariant sum == acc + RowSum(g, src, z, y, xlo, x)
    {
      sum := sum + src[CellOffset(g, Index(z, y, x))];
      x := x + 1;
    }
  }

  /** The middle loop: adds the rows of plane z for y in [ylo, yhi) to
      the running sum acc. */
  method AddPlane(g: Geometry, src: seq<real>, z: nat, ylo: nat, yhi: nat, xlo: nat, xhi: nat, acc: real)
    returns (sum: real)
    requires |g.dims| == 3 && |src| == CellCount(g)
    requires z < g.dims[Z] && yhi <= g.dims[Y] && xhi <= g.dims[X]
    ensures sum == acc + PlaneSum(g, src, z, ylo, yhi, xlo, xhi)
  {
    sum := acc;
    var y := ylo;
    while y < yhi
      invariant ylo <= y <= if ylo < yhi then yhi else ylo
      invariant sum == acc + PlaneSum(g, src, z, ylo, y, xlo, xhi)
    {
      sum := AddRow(g, src, z, y, xlo, xhi, sum);
      y := y + 1;
    }
  }

  /** The outer loop: sums the planes of the box [lo, hi) for z in
      [lo.z, hi.z), starting from zero. */
  method AddBox(g: Geometry, src: seq<real>, lo: Index, hi: Index) returns (sum: real)
    requires |g.dims| == 3 && |src| == CellCount(g)
    requires hi.z <= g.dims[Z] && hi.y <= g.dims[Y] && hi.x <= g.dims[X]
    ensures sum == BoxSum(g, src, lo, hi)
  {
    sum := 0.0;
    var z := lo.z;
    while z < hi.z
      invariant lo.z <= z <= if lo.z < hi.z then hi.z else lo.z
      invariant sum == BoxSum(g, src, lo, Index(z, hi.y, hi.x))
    {
      sum := AddPlane(g, src, z, lo.y, hi.y, lo.x, hi.x, sum);
      z := z + 1;
    }
    assert Index(z, hi.y, hi.x) == hi || hi.z <= lo.z;
  }

  /** The per-cell body: sums the box around interior cell c with three
      nested loops, each running from the cell minus the low border to the
      cell plus the high border inclusive, and divides by the kernel size. */
  method StencilMean(g: Geometry, src: seq<real>, c: Index) returns (v: real)
    requires Valid(g) && |src| == CellCount(g) && IsInterior(g, c)
    ensures v == CellMean(g, src, c)
  {
    var sum := AddBox(g, src, StencilFirst(g, c), StencilEnd(g, c));
    BoxSumIsSumOver(g, src, StencilFirst(g, c), StencilEnd(g, c));
    StencilSize(g, c);
    v := sum / (KernelSize(g) as real);
  }

  // ---------------------------------------------------------------------
  // Sequential strategy

  /** Allocates a zeroed destination of the source's length and fills the
      interior with three nested loops, z outermost and x innermost. */
  method SequentialReference(g: Geometry, src: seq<real>) returns (dst: seq<real>)
    requires Valid(g) && |src| == CellCount(g)
    ensures dst == BoxAverage(g, src)
  {
    var a := new real[|src|](_ => 0.0);
    var z := g.borders[Z].low;
    while z < g.dims[Z] - g.borders[Z].high
      invariant Lower(g, Z) <= z
      invariant forall d :: InGrid(g, d) ==> a[CellOffset(g, d)] == Filled(g, src, Index(z, Lower(g, Y), Lower(g, X)), d)
    {
      FillPlane(g, src, a, z);
      z := z + 1;
    }
    dst := a[..];
    BoxAverageByCell(g, src, dst);
  }

  /** The middle loop of the sequential strategy: fills the interior rows of plane z. */
  method FillPlane(g: Geometry, src: seq<real>, a: array<real>, z: nat)
    requires Valid(g) && |src| == CellCount(g) && a.Length == |src|
    requires Lower(g, Z) <= z < Upper(g, Z)
    requires forall d :: InGrid(g, d) ==> a[CellOffset(g, d)] == Filled(g, src, Index(z, Lower(g, Y), Lower(g, X)), d)
    modifies a
    ensures forall d :: InGrid(g, d) ==> a[CellOffset(g, d)] == Filled(g, src, Index(z + 1, Lower(g, Y), Lower(g, X)), d)
  {
    var y := g.borders[Y].low;
    while y < g.dims[Y] - g.borders[Y].high
      invariant Lower(g, Y) <= y
      invariant forall d :: InGrid(g, d) ==> a[CellOffset(g, d)] == Filled(g, src, Index(z, y, Lower(g, X)), d)
    {
      FillRow(g, src, a, z, y);
      y := y + 1;
    }
  }

  /** The innermost loop of the sequential strategy: writes the mean of
      every interior cell of row (z, y). */
  method FillRow(g: Geometry, src: seq<real>, a: array<real>, z: nat, y: nat)
    requires Valid(g) && |src| == CellCount(g) && a.Length == |src|
    requires Lower(g, Z) <= z < Upper(g, Z) && Lower(g, Y) <= y < Upper(g, Y)
    requires forall d :: InGrid(g, d) ==> a[CellOffset(g, d)] == Filled(g, src, Index(z, y, Lower(g, X)), d)
    modifies a
    ensures forall d :: InGrid(g, d) ==> a[CellOffset(g, d)] == Filled(g, src, Index(z, y + 1, Lower(g, X)), d)
  {
    var x := g.borders[X].low;
    while x < g.dims[X] - g.borders[X].high
      invariant Lower(g, X) <= x
      invariant forall d :: InGrid(g, d) ==> a[CellOffset(g, d)] == Filled(g, src, Index(z, y, x), d)
    {
      var c := Index(z, y, x);
      var v := StencilMean(g, src, c);
      a[CellOffset(g, c)] := v;
      forall d | InGrid(g, d)
        ensures a[CellOffset(g, d)] == Filled(g, src, Index(z, y, x + 1), d)
      {
        OffsetInjective(g.dims[Z], g.dims[Y], g.dims[X], c, d);
      }
      x := x + 1;
    }
  }

  // ---------------------------------------------------------------------
  // Cartesian-product strategy

  /** Allocates a zeroed destination of the source's length, builds the
      work list as the product of the three interior ranges and applies
      the per-cell body to each item. The items run here one after the
      other; since each writes only its own cell, which no other item
      writes, any order gives the same destination. */
  method CartesianProductVersion(g: Geometry, src: seq<real>) returns (dst: seq<real>)
    requires Valid(g) && |src| == CellCount(g)
    ensures dst == BoxAverage(g, src)
  {
    var a := new real[|src|](_ => 0.0);
    var items := InteriorItems(g);
    InteriorItemsExact(g);
    var t := 0;
    while t < |items|
      invariant t <= |items|
      invariant forall d :: InGrid(g, d) ==>
        a[CellOffset(g, d)] == if d in items[..t] then CellMean(g, src, d) else 0.0
    {
      var c := items[t];
      assert c in items;
      var v := StencilMean(g, src, c);
      // No earlier work item has written this cell.
      assert c !in items[..t];
      a[CellOffset(g, c)] := v;
      assert items[..t + 1] == items[..t] + [c];
      forall d | InGrid(g, d)
        ensures a[CellOffset(g, d)] == if d in items[..t + 1] then CellMean(g, src, d) else 0.0
      {
        OffsetInjective(g.dims[Z], g.dims[Y], g.dims[X], c, d);
      }
      t := t + 1;
    }
    assert items[..t] == items;
    dst := a[..];
    BoxAverageByCell(g, src, dst);
  }

  /** Runs both strategies on the same source, as the reproducer's driver
      does before displaying them side by side: the two grids are equal. */
  method CompareStrategies(g: Geometry, src: seq<real>) returns (reference: seq<real>, result: seq<real>)
    requires Valid(g) && |src| == CellCount(g)
    ensures |reference| == |src|
    ensures reference == result == BoxAverage(g, src)
  {
    reference := SequentialReference(g, src);
    result := CartesianProductVersion(g, src);
  }

  /** The reproducer's driver without its display: a source of 120 samples
      counting up from 100, averaged by both strategies. The two results
      agree, and a border cell such as (0, 0, 0) stays zero in both. */
  method RunReproducer() returns (reference: seq<real>, result: seq<real>)
    ensures |reference| == |result| == 120
    ensures reference == result
    ensures reference[0] == 0.0
  {
    var g := Reproducer;
    ReproducerKernelSize();
    var src := seq(CellCount(g), n => 100.0 + n as real);
    reference, result := CompareStrategies(g, src);
    BoxAverageAt(g, src, Index(0, 0, 0));
    assert CellOffset(g, Index(0, 0, 0)) == 0;
  }
}
