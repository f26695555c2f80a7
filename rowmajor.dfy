/** Row-major addressing of a three-dimensional grid kept in a flat buffer.
    This is the layout of a `std::mdspan` whose extents are given as
    (nz, ny, nx): axis z varies slowest and axis x fastest, so the cell
    (z, y, x) lives at offset (z * ny + y) * nx + x. */
module RowMajor {

  /** A grid coordinate, in the order the grid is addressed: (z, y, x). */
  datatype Index = Index(z: nat, y: nat, x: nat)

  /** The coordinate lies inside a grid of extents (nz, ny, nx). */
  predicate InBox(nz: nat, ny: nat, nx: nat, c: Index)
  {
    c.z < nz && c.y < ny && c.x < nx
  }

  /** The flat offset of a coordinate; nz does not take part in it. */
  function Offset(ny: nat, nx: nat, c: Index): nat
  {
    (c.z * ny + c.y) * nx + c.x
  }

  /** The coordinate stored at flat offset n: the inverse of Offset,
      by division and remainder over the faster-varying extents. */
  function Coordinates(nz: nat, ny: nat, nx: nat, n: nat): (c: Index)
    requires n < nz * ny * nx
    ensures InBox(nz, ny, nx, c)
    ensures Offset(ny, nx, c) == n
  {
    assert nx != 0 && ny != 0;
    DivBelow(n, nx, nz * ny);
    DivBelow(n / nx, ny, nz);
    Index((n / nx) / ny, (n / nx) % ny, n % nx)
  }

  /** Every in-box coordinate has an offset below the number of cells. */
  lemma OffsetInBounds(nz: nat, ny: nat, nx: nat, c: Index)
    requires InBox(nz, ny, nx, c)
    ensures Offset(ny, nx, c) < nz * ny * nx
  {
    var row := c.z * ny + c.y;
    MulMonotone(c.z + 1, nz, ny);
    assert row < nz * ny;
    MulMonotone(row + 1, nz * ny, nx);
  }

  /** Coordinates undoes Offset on every in-box coordinate. */
  lemma CoordinatesOfOffset(nz: nat, ny: nat, nx: nat, c: Index)
    requires InBox(nz, ny, nx, c)
    ensures Offset(ny, nx, c) < nz * ny * nx
    ensures Coordinates(nz, ny, nx, Offset(ny, nx, c)) == c
  {
    OffsetInBounds(nz, ny, nx, c);
    var n := Offset(ny, nx, c);
    var row := c.z * ny + c.y;
    DivModUnique(n, nx, row, c.x);
    DivModUnique(row, ny, c.z, c.y);
  }

  /** Distinct in-box coordinates never share an offset. */
  lemma OffsetInjective(nz: nat, ny: nat, nx: nat, c: Index, d: Index)
    requires InBox(nz, ny, nx, c) && InBox(nz, ny, nx, d)
    ensures Offset(ny, nx, c) == Offset(ny, nx, d) <==> c == d
  {
    CoordinatesOfOffset(nz, ny, nx, c);
    CoordinatesOfOffset(nz, ny, nx, d);
  }

  /** The offset of c is the size of the c.z planes before it plus its
      offset within its own plane. */
  lemma OffsetSplit(ny: nat, nx: nat, c: Index)
    ensures Offset(ny, nx, c) == c.z * ny * nx + (c.y * nx + c.x)
    ensures 0 <= c.y * nx + c.x
  {
    MulDistrib(c.z * ny, c.y, nx);
  }

  // Arithmetic helpers.

  lemma MulMonotone(a: nat, b: nat, k: nat)
    requires a <= b
    ensures a * k <= b * k
  {
  }

  lemma MulAddOne(a: nat, k: nat)
    ensures (a + 1) * k == a * k + k
  {
  }

  lemma MulDistrib(a: nat, b: nat, k: nat)
    ensures (a + b) * k == a * k + b * k
  {
  }

  lemma MulReverse(a: nat, b: nat, k: nat)
    ensures a * b * k == k * b * a
  {
  }

  lemma MulAssoc(a: nat, b: nat, k: nat)
    ensures a * b * k == a * (b * k)
  {
  }

  lemma DivBelow(n: nat, d: nat, m: nat)
    requires d > 0 && n < m * d
    ensures n / d < m
  {
    if n / d >= m {
      MulMonotone(m, n / d, d);
    }
  }

  lemma DivModUnique(n: nat, d: nat, q: nat, r: nat)
    requires d > 0 && r < d && n == q * d + r
    ensures n / d == q && n % d == r
  {
    var q', r' := n / d, n % d;
    if q' < q {
      MulMonotone(q' + 1, q, d);
    } else if q < q' {
      MulMonotone(q + 1, q', d);
    }
  }
}
