/** The grid geometry shared by both averaging strategies: the extents of
    the three axes, the (low, high) border widths excluded on each axis,
    and what is derived from them (kernel size, interior ranges, the box
    of cells around an interior cell, the list of work items).
    Axes are numbered as in the configuration arrays: 0 is x, 1 is y, 2 is z. */
module GridGeometry {
  import opened RowMajor
  import opened Enumeration

  const X: nat := 0
  const Y: nat := 1
  const Z: nat := 2

  /** Border widths of one axis: cells closer than `low` to the start or
      than `high` to the end of the axis are not averaged. */
  datatype Border = Border(low: nat, high: nat)

  /** Extents and border pairs, both indexed by axis (x, y, z). */
  datatype Geometry = Geometry(dims: seq<nat>, borders: seq<Border>)

  /** Three axes, and no border wider at its high end than its axis, so
      that `extent - high` cannot wrap around. A low border that reaches
      past `extent - high` is allowed: that axis then has no interior. */
  predicate Valid(g: Geometry)
  {
    && |g.dims| == 3 && |g.borders| == 3
    && g.borders[X].high <= g.dims[X]
    && g.borders[Y].high <= g.dims[Y]
    && g.borders[Z].high <= g.dims[Z]
  }

  /** The configuration of the reproducer: extents {6, 5, 4} and borders
      {1, 2}, {2, 1}, {1, 2}. */
  const Reproducer: Geometry :=
    Geometry([6, 5, 4], [Border(1, 2), Border(2, 1), Border(1, 2)])

  // ---------------------------------------------------------------------
  // Kernel size

  /** Number of cells the stencil spans along one axis. */
  function Width(b: Border): nat
  {
    1 + b.low + b.high
  }

  /** Left fold multiplying the running value by each axis' width, in axis
      order, as `std::accumulate` does over the border pairs. */
  function Accumulate(bs: seq<Border>, acc: nat): nat
  {
    if bs == [] then acc else Accumulate(bs[1..], acc * Width(bs[0]))
  }

  /** The product of the widths, as a right fold. */
  function Widths(bs: seq<Border>): nat
  {
    if bs == [] then 1 else Width(bs[0]) * Widths(bs[1..])
  }

  lemma {:induction false} AccumulateIsProduct(bs: seq<Border>, acc: nat)
    ensures Accumulate(bs, acc) == acc * Widths(bs)
  {
    if bs != [] {
      AccumulateIsProduct(bs[1..], acc * Width(bs[0]));
      assert acc * Width(bs[0]) * Widths(bs[1..]) == acc * (Width(bs[0]) * Widths(bs[1..]));
    }
  }

  lemma {:induction false} WidthsPositive(bs: seq<Border>)
    ensures Widths(bs) >= 1
  {
    if bs != [] {
      WidthsPositive(bs[1..]);
      MulMonotone(1, Width(bs[0]), Widths(bs[1..]));
    }
  }

  /** The averaging divisor: the product over the axes of 1 + low + high.
      It is never zero. */
  function KernelSize(g: Geometry): (k: nat)
    requires |g.borders| == 3
    ensures k == Width(g.borders[X]) * Width(g.borders[Y]) * Width(g.borders[Z])
    ensures k >= 1
  {
    var bs := g.borders;
    AccumulateIsProduct(bs, 1);
    WidthsPositive(bs);
    assert Widths(bs[2..]) == Width(bs[2]) by {
      assert bs[2..][1..] == [];
    }
    assert Widths(bs[1..]) == Width(bs[1]) * Width(bs[2]) by {
      assert bs[1..][1..] == bs[2..];
    }
    assert Widths(bs) == Width(bs[0]) * (Width(bs[1]) * Width(bs[2]));
    Accumulate(bs, 1)
  }

  /** The reproducer's kernel spans 4 * 4 * 4 = 64 cells of its 120. */
  lemma ReproducerKernelSize()
    ensures Valid(Reproducer)
    ensures KernelSize(Reproducer) == 64
    ensures CellCount(Reproducer) == 120
  {
  }

  // ---------------------------------------------------------------------
  // The grid and its flat layout

  /** Number of cells, the product of the extents. */
  function CellCount(g: Geometry): nat
    requires |g.dims| == 3
  {
    g.dims[Z] * g.dims[Y] * g.dims[X]
  }

  predicate InGrid(g: Geometry, c: Index)
    requires |g.dims| == 3
  {
    InBox(g.dims[Z], g.dims[Y], g.dims[X], c)
  }

  /** Where cell (z, y, x) lives in the flat buffer. */
  function CellOffset(g: Geometry, c: Index): (n: nat)
    requires |g.dims| == 3
    ensures InGrid(g, c) ==> n < CellCount(g)
  {
    if InGrid(g, c) then OffsetInBounds(g.dims[Z], g.dims[Y], g.dims[X], c); Offset(g.dims[Y], g.dims[X], c)
    else Offset(g.dims[Y], g.dims[X], c)
  }

  /** The cell at flat position n. */
  function CellAt(g: Geometry, n: nat): (c: Index)
    requires |g.dims| == 3 && n < CellCount(g)
    ensures InGrid(g, c) && CellOffset(g, c) == n
  {
    Coordinates(g.dims[Z], g.dims[Y], g.dims[X], n)
  }

  /** Every grid cell has its own position in the buffer, and CellAt finds it. */
  lemma CellOffsetInverse(g: Geometry, c: Index)
    requires |g.dims| == 3 && InGrid(g, c)
    ensures CellOffset(g, c) < CellCount(g)
    ensures CellAt(g, CellOffset(g, c)) == c
  {
    CoordinatesOfOffset(g.dims[Z], g.dims[Y], g.dims[X], c);
  }

  // ---------------------------------------------------------------------
  // Interior

  /** First interior position of an axis. */
  function Lower(g: Geometry, a: nat): nat
    requires Valid(g) && a < 3
  {
    g.borders[a].low
  }

  /** One past the last interior position of an axis. */
  function Upper(g: Geometry, a: nat): nat
    requires Valid(g) && a < 3
  {
    g.dims[a] - g.borders[a].high
  }

  /** The cell is averaged: on every axis it lies in [Lower, Upper). */
  predicate IsInterior(g: Geometry, c: Index)
    requires Valid(g)
  {
    && Lower(g, Z) <= c.z < Upper(g, Z)
    && Lower(g, Y) <= c.y < Upper(g, Y)
    && Lower(g, X) <= c.x < Upper(g, X)
  }

  /** The work items: the cartesian product of the three interior ranges. */
  function InteriorItems(g: Geometry): seq<Index>
    requires Valid(g)
  {
    CartesianProduct(
      Iota(Lower(g, Z), Upper(g, Z)),
      Iota(Lower(g, Y), Upper(g, Y)),
      Iota(Lower(g, X), Upper(g, X)))
  }

  /** The work list names every interior cell, each exactly once, and nothing else. */
  lemma InteriorItemsExact(g: Geometry)
    requires Valid(g)
    ensures forall c :: c in InteriorItems(g) <==> IsInterior(g, c)
    ensures Distinct(InteriorItems(g))
  {
    var zs, ys, xs := Iota(Lower(g, Z), Upper(g, Z)), Iota(Lower(g, Y), Upper(g, Y)), Iota(Lower(g, X), Upper(g, X));
    IotaMembers(Lower(g, Z), Upper(g, Z));
    IotaMembers(Lower(g, Y), Upper(g, Y));
    IotaMembers(Lower(g, X), Upper(g, X));
    forall c
      ensures c in InteriorItems(g) <==> IsInterior(g, c)
    {
      CartesianProductMembers(zs, ys, xs, c);
    }
    CartesianProductDistinct(zs, ys, xs);
  }

  /** No two work items write the same destination element. */
  lemma DisjointWrites(g: Geometry)
    requires Valid(g)
    ensures forall t, u :: 0 <= t < u < |InteriorItems(g)| ==>
      CellOffset(g, InteriorItems(g)[t]) != CellOffset(g, InteriorItems(g)[u])
  {
    var items := InteriorItems(g);
    InteriorItemsExact(g);
    forall t, u | 0 <= t < u < |items|
      ensures CellOffset(g, items[t]) != CellOffset(g, items[u])
    {
      assert items[t] in items && items[u] in items;
      OffsetInjective(g.dims[Z], g.dims[Y], g.dims[X], items[t], items[u]);
    }
  }

  // ---------------------------------------------------------------------
  // Stencil

  /** The corner of the stencil box around c with the smallest coordinates. */
  function StencilFirst(g: Geometry, c: Index): Index
    requires Valid(g) && IsInterior(g, c)
  {
    Index(c.z - g.borders[Z].low, c.y - g.borders[Y].low, c.x - g.borders[X].low)
  }

  /** One past the stencil box around c on every axis. */
  function StencilEnd(g: Geometry, c: Index): Index
    requires Valid(g)
  {
    Index(c.z + g.borders[Z].high + 1, c.y + g.borders[Y].high + 1, c.x + g.borders[X].high + 1)
  }

  /** The cells summed for interior cell c: the inclusive box
      [c - low, c + high] on every axis, z outermost and x innermost. */
  function Stencil(g: Geometry, c: Index): seq<Index>
    requires Valid(g) && IsInterior(g, c)
  {
    Box(StencilFirst(g, c), StencilEnd(g, c))
  }

  /** The box around an interior cell holds exactly the cells within
      [c - low, c + high] on every axis, each listed once. */
  lemma StencilMembers(g: Geometry, c: Index)
    requires Valid(g) && IsInterior(g, c)
    ensures forall s :: s in Stencil(g, c) <==>
      && c.z - g.borders[Z].low <= s.z <= c.z + g.borders[Z].high
      && c.y - g.borders[Y].low <= s.y <= c.y + g.borders[Y].high
      && c.x - g.borders[X].low <= s.x <= c.x + g.borders[X].high
    ensures Distinct(Stencil(g, c))
  {
    BoxMembers(StencilFirst(g, c), StencilEnd(g, c));
  }

  /** Around an interior cell no subtraction underflows and no box index
      reaches its extent, so every cell the stencil reads is in the grid. */
  lemma StencilWithinGrid(g: Geometry, c: Index)
    requires Valid(g) && IsInterior(g, c)
    ensures g.borders[Z].low <= c.z && c.z + g.borders[Z].high < g.dims[Z]
    ensures g.borders[Y].low <= c.y && c.y + g.borders[Y].high < g.dims[Y]
    ensures g.borders[X].low <= c.x && c.x + g.borders[X].high < g.dims[X]
    ensures forall s :: s in Stencil(g, c) ==> InGrid(g, s)
  {
    StencilMembers(g, c);
  }

  /** The box has exactly KernelSize cells: the divisor counts the summands. */
  lemma StencilSize(g: Geometry, c: Index)
    requires Valid(g) && IsInterior(g, c)
    ensures |Stencil(g, c)| == KernelSize(g)
  {
    var lo, hi := StencilFirst(g, c), StencilEnd(g, c);
    BoxLength(lo, hi);
    assert Extent(lo.z, hi.z) == Width(g.borders[Z]);
    assert Extent(lo.y, hi.y) == Width(g.borders[Y]);
    assert Extent(lo.x, hi.x) == Width(g.borders[X]);
    MulReverse(Extent(lo.z, hi.z), Extent(lo.y, hi.y), Extent(lo.x, hi.x));
  }
}
