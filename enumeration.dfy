/** Index ranges and their cartesian product, flattened into one list.
    `Iota` is a half-open range like `std::views::iota(lo, hi)`;
    `CartesianProduct` lists every triple of a z-, a y- and an x-range in
    lexicographic order (z outermost, x innermost), the order of
    `std::views::cartesian_product(zs, ys, xs)`. Element t is found by
    splitting t into (z, y, x) positions with the row-major inverse. */
module Enumeration {
  import opened RowMajor

  /** No element occurs twice. */
  predicate Distinct<T(==)>(s: seq<T>)
  {
    forall i, j :: 0 <= i < j < |s| ==> s[i] != s[j]
  }

  /** The values lo, lo + 1, ..., hi - 1; empty when hi <= lo. */
  function Iota(lo: nat, hi: nat): seq<nat>
  {
    seq(if lo < hi then hi - lo else 0, k => lo + k)
  }

  /** A range holds exactly the values in [lo, hi), each once. */
  lemma IotaMembers(lo: nat, hi: nat)
    ensures |Iota(lo, hi)| == if lo < hi then hi - lo else 0
    ensures forall v :: v in Iota(lo, hi) <==> lo <= v < hi
    ensures Distinct(Iota(lo, hi))
  {
    forall v | lo <= v < hi
      ensures v in Iota(lo, hi)
    {
      assert Iota(lo, hi)[v - lo] == v;
    }
  }

  /** All triples (zs[a], ys[b], xs[c]), with (a, b, c) running through
      the product of the three position ranges in row-major order. */
  function CartesianProduct(zs: seq<nat>, ys: seq<nat>, xs: seq<nat>): (r: seq<Index>)
    ensures |r| == |zs| * |ys| * |xs|
  {
    seq(|zs| * |ys| * |xs|, t requires 0 <= t < |zs| * |ys| * |xs| =>
      var p := Coordinates(|zs|, |ys|, |xs|, t);
      Index(zs[p.z], ys[p.y], xs[p.x]))
  }

  /** The triple built from positions (a, b, c) sits at their row-major offset. */
  lemma CartesianProductAt(zs: seq<nat>, ys: seq<nat>, xs: seq<nat>, p: Index)
    requires InBox(|zs|, |ys|, |xs|, p)
    ensures Offset(|ys|, |xs|, p) < |CartesianProduct(zs, ys, xs)|
    ensures CartesianProduct(zs, ys, xs)[Offset(|ys|, |xs|, p)] == Index(zs[p.z], ys[p.y], xs[p.x])
  {
    CoordinatesOfOffset(|zs|, |ys|, |xs|, p);
  }

  /** A triple is listed exactly when each of its components is in its range. */
  lemma CartesianProductMembers(zs: seq<nat>, ys: seq<nat>, xs: seq<nat>, c: Index)
    ensures c in CartesianProduct(zs, ys, xs) <==> c.z in zs && c.y in ys && c.x in xs
  {
    var r := CartesianProduct(zs, ys, xs);
    if c.z in zs && c.y in ys && c.x in xs {
      var a :| 0 <= a < |zs| && zs[a] == c.z;
      var b :| 0 <= b < |ys| && ys[b] == c.y;
      var d :| 0 <= d < |xs| && xs[d] == c.x;
      CartesianProductAt(zs, ys, xs, Index(a, b, d));
    }
  }

  /** The product of duplicate-free ranges lists no triple twice. */
  lemma CartesianProductDistinct(zs: seq<nat>, ys: seq<nat>, xs: seq<nat>)
    requires Distinct(zs) && Distinct(ys) && Distinct(xs)
    ensures Distinct(CartesianProduct(zs, ys, xs))
  {
    var r := CartesianProduct(zs, ys, xs);
    forall i, j | 0 <= i < j < |r|
      ensures r[i] != r[j]
    {
      // Different offsets come from different position triples.
      var p := Coordinates(|zs|, |ys|, |xs|, i);
      var q := Coordinates(|zs|, |ys|, |xs|, j);
      assert p != q;
    }
  }

  // ---------------------------------------------------------------------
  // The same enumeration, built the way nested loops visit it

  /** Number of values in [lo, hi). */
  function Extent(lo: nat, hi: nat): nat
  {
    if lo < hi then hi - lo else 0
  }

  /** The triples (z, y, x) for x in [xlo, xhi), in increasing x. */
  function Row(z: nat, y: nat, xlo: nat, xhi: nat): seq<Index>
  {
    if xhi <= xlo then [] else Row(z, y, xlo, xhi - 1) + [Index(z, y, xhi - 1)]
  }

  /** The rows of plane z for y in [ylo, yhi), in increasing y. */
  function Plane(z: nat, ylo: nat, yhi: nat, xlo: nat, xhi: nat): seq<Index>
  {
    if yhi <= ylo then [] else Plane(z, ylo, yhi - 1, xlo, xhi) + Row(z, yhi - 1, xlo, xhi)
  }

  /** The planes of the box [lo, hi) for z in [lo.z, hi.z): what three
      nested loops (z outermost, x innermost) visit, in the order they
      visit it. */
  function Box(lo: Index, hi: Index): seq<Index>
    decreases hi.z
  {
    if hi.z <= lo.z then []
    else Box(lo, hi.(z := hi.z - 1)) + Plane(hi.z - 1, lo.y, hi.y, lo.x, hi.x)
  }

  lemma {:induction false} RowAt(z: nat, y: nat, xlo: nat, xhi: nat, d: nat)
    ensures |Row(z, y, xlo, xhi)| == Extent(xlo, xhi)
    ensures d < Extent(xlo, xhi) ==> Row(z, y, xlo, xhi)[d] == Index(z, y, xlo + d)
  {
    if xlo < xhi {
      RowAt(z, y, xlo, xhi - 1, d);
    }
  }

  lemma {:induction false} PlaneLength(z: nat, ylo: nat, yhi: nat, xlo: nat, xhi: nat)
    ensures |Plane(z, ylo, yhi, xlo, xhi)| == Extent(ylo, yhi) * Extent(xlo, xhi)
  {
    if ylo < yhi {
      PlaneLength(z, ylo, yhi - 1, xlo, xhi);
      RowAt(z, yhi - 1, xlo, xhi, 0);
      MulAddOne(Extent(ylo, yhi - 1), Extent(xlo, xhi));
    }
  }

  lemma {:induction false} PlaneAt(z: nat, ylo: nat, yhi: nat, xlo: nat, xhi: nat, b: nat, d: nat)
    requires b < Extent(ylo, yhi) && d < Extent(xlo, xhi)
    ensures |Plane(z, ylo, yhi, xlo, xhi)| == Extent(ylo, yhi) * Extent(xlo, xhi)
    ensures b * Extent(xlo, xhi) + d < |Plane(z, ylo, yhi, xlo, xhi)|
    ensures Plane(z, ylo, yhi, xlo, xhi)[b * Extent(xlo, xhi) + d] == Index(z, ylo + b, xlo + d)
  {
    var w := Extent(xlo, xhi);
    PlaneLength(z, ylo, yhi, xlo, xhi);
    PlaneLength(z, ylo, yhi - 1, xlo, xhi);
    RowAt(z, yhi - 1, xlo, xhi, d);
    if b < Extent(ylo, yhi - 1) {
      PlaneAt(z, ylo, yhi - 1, xlo, xhi, b, d);
      MulMonotone(b + 1, Extent(ylo, yhi - 1), w);
    }
  }

  lemma {:induction false} BoxLength(lo: Index, hi: Index)
    ensures |Box(lo, hi)| == Extent(lo.z, hi.z) * Extent(lo.y, hi.y) * Extent(lo.x, hi.x)
    decreases hi.z
  {
    if lo.z < hi.z {
      var m := Extent(lo.z, hi.z) - 1;
      var w := Extent(lo.y, hi.y) * Extent(lo.x, hi.x);
      BoxLength(lo, hi.(z := hi.z - 1));
      PlaneLength(hi.z - 1, lo.y, hi.y, lo.x, hi.x);
      MulAssoc(m, Extent(lo.y, hi.y), Extent(lo.x, hi.x));
      MulAssoc(m + 1, Extent(lo.y, hi.y), Extent(lo.x, hi.x));
      MulAddOne(m, w);
    }
  }

  /** The nested-loop enumeration lists the box's triples in row-major
      order of their positions within the box. */
  lemma {:induction false} BoxAt(lo: Index, hi: Index, p: Index)
    requires InBox(Extent(lo.z, hi.z), Extent(lo.y, hi.y), Extent(lo.x, hi.x), p)
    ensures Offset(Extent(lo.y, hi.y), Extent(lo.x, hi.x), p) < |Box(lo, hi)|
    ensures Box(lo, hi)[Offset(Extent(lo.y, hi.y), Extent(lo.x, hi.x), p)]
         == Index(lo.z + p.z, lo.y + p.y, lo.x + p.x)
    decreases hi.z
  {
    BoxLength(lo, hi);
    OffsetInBounds(Extent(lo.z, hi.z), Extent(lo.y, hi.y), Extent(lo.x, hi.x), p);
    if p.z < Extent(lo.z, hi.z - 1) {
      BoxAt(lo, hi.(z := hi.z - 1), p);
    } else {
      BoxAtLastPlane(lo, hi, p);
    }
  }

  /** Positions in the last plane of the box come after all earlier planes. */
  lemma BoxAtLastPlane(lo: Index, hi: Index, p: Index)
    requires InBox(Extent(lo.z, hi.z), Extent(lo.y, hi.y), Extent(lo.x, hi.x), p)
    requires p.z == Extent(lo.z, hi.z) - 1
    ensures Offset(Extent(lo.y, hi.y), Extent(lo.x, hi.x), p) < |Box(lo, hi)|
    ensures Box(lo, hi)[Offset(Extent(lo.y, hi.y), Extent(lo.x, hi.x), p)]
         == Index(lo.z + p.z, lo.y + p.y, lo.x + p.x)
  {
    var earlier := Box(lo, hi.(z := hi.z - 1));
    var last := Plane(hi.z - 1, lo.y, hi.y, lo.x, hi.x);
    var whole := Box(lo, hi);
    assert whole == earlier + last;
    var n := Offset(Extent(lo.y, hi.y), Extent(lo.x, hi.x), p);
    var k := p.y * Extent(lo.x, hi.x) + p.x;
    LastPlaneStart(lo, hi, p);
    PlaneAt(hi.z - 1, lo.y, hi.y, lo.x, hi.x, p.y, p.x);
    ConcatAt(whole, earlier, last, n, k);
  }

  /** The offset of a position in the last plane is the length of the
      earlier planes plus its offset within the last plane. */
  lemma LastPlaneStart(lo: Index, hi: Index, p: Index)
    requires InBox(Extent(lo.z, hi.z), Extent(lo.y, hi.y), Extent(lo.x, hi.x), p)
    requires p.z == Extent(lo.z, hi.z) - 1
    ensures 0 <= p.y * Extent(lo.x, hi.x) + p.x
    ensures Offset(Extent(lo.y, hi.y), Extent(lo.x, hi.x), p)
         == |Box(lo, hi.(z := hi.z - 1))| + (p.y * Extent(lo.x, hi.x) + p.x)
  {
    assert Extent(lo.z, hi.z - 1) == p.z;
    BoxLength(lo, hi.(z := hi.z - 1));
    OffsetSplit(Extent(lo.y, hi.y), Extent(lo.x, hi.x), p);
  }

  /** Position |a| + k of s = a + b is position k of b. */
  lemma ConcatAt<T>(s: seq<T>, a: seq<T>, b: seq<T>, n: nat, k: nat)
    requires s == a + b && n == |a| + k && k < |b|
    ensures n < |s| && s[n] == b[k]
  {
  }

  /** The flattened cartesian product of three ranges and the nested-loop
      enumeration of the box they span are the same list: same triples,
      same order. */
  lemma CartesianProductIsBox(lo: Index, hi: Index)
    ensures CartesianProduct(Iota(lo.z, hi.z), Iota(lo.y, hi.y), Iota(lo.x, hi.x)) == Box(lo, hi)
  {
    var zs, ys, xs := Iota(lo.z, hi.z), Iota(lo.y, hi.y), Iota(lo.x, hi.x);
    var r, s := CartesianProduct(zs, ys, xs), Box(lo, hi);
    BoxLength(lo, hi);
    forall t | 0 <= t < |r|
      ensures r[t] == s[t]
    {
      BoxAt(lo, hi, Coordinates(|zs|, |ys|, |xs|, t));
    }
  }

  /** A triple is in the box exactly when it lies within [lo, hi) on every axis. */
  lemma BoxMember(lo: Index, hi: Index, c: Index)
    ensures c in Box(lo, hi) <==> lo.z <= c.z < hi.z && lo.y <= c.y < hi.y && lo.x <= c.x < hi.x
  {
    IotaMembers(lo.z, hi.z);
    IotaMembers(lo.y, hi.y);
    IotaMembers(lo.x, hi.x);
    CartesianProductIsBox(lo, hi);
    CartesianProductMembers(Iota(lo.z, hi.z), Iota(lo.y, hi.y), Iota(lo.x, hi.x), c);
  }

  /** The box lists exactly the triples within [lo, hi), each once. */
  lemma BoxMembers(lo: Index, hi: Index)
    ensures |Box(lo, hi)| == Extent(lo.z, hi.z) * Extent(lo.y, hi.y) * Extent(lo.x, hi.x)
    ensures forall c :: c in Box(lo, hi) <==> lo.z <= c.z < hi.z && lo.y <= c.y < hi.y && lo.x <= c.x < hi.x
    ensures Distinct(Box(lo, hi))
  {
    BoxLength(lo, hi);
    forall c
      ensures c in Box(lo, hi) <==> lo.z <= c.z < hi.z && lo.y <= c.y < hi.y && lo.x <= c.x < hi.x
    {
      BoxMember(lo, hi, c);
    }
    IotaMembers(lo.z, hi.z);
    IotaMembers(lo.y, hi.y);
    IotaMembers(lo.x, hi.x);
    CartesianProductIsBox(lo, hi);
    CartesianProductDistinct(Iota(lo.z, hi.z), Iota(lo.y, hi.y), Iota(lo.x, hi.x));
  }
}
