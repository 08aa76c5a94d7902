/** Points, triangles and the affine maps and bounds that trimesh provides to the
    converter, with their plain mathematical meaning over the reals. */
module Geometry {

  /** A vertex position (x, y, z). */
  type Vertex = (real, real, real)

  /** A triangle: three indices into a vertex buffer. */
  type Face = (int, int, int)

  datatype Axis = X | Y | Z

  function Coord(v: Vertex, a: Axis): real
  {
    match a
    case X => v.0
    case Y => v.1
    case Z => v.2
  }

  function Add(v: Vertex, d: Vertex): Vertex
  {
    (v.0 + d.0, v.1 + d.1, v.2 + d.2)
  }

  function Mul(v: Vertex, k: real): Vertex
  {
    (k * v.0, k * v.1, k * v.2)
  }

  /** `apply_translation`: every vertex moved by the vector `d`. */
  function Translated(vs: seq<Vertex>, d: Vertex): seq<Vertex>
  {
    seq(|vs|, i requires 0 <= i < |vs| => Add(vs[i], d))
  }

  /** `apply_scale`: every coordinate multiplied by `k`, about the origin. */
  function Scaled(vs: seq<Vertex>, k: real): seq<Vertex>
  {
    seq(|vs|, i requires 0 <= i < |vs| => Mul(vs[i], k))
  }

  /** One coordinate of every vertex, in order (the list of elevations for Z). */
  function Column(vs: seq<Vertex>, a: Axis): seq<real>
  {
    seq(|vs|, i requires 0 <= i < |vs| => Coord(vs[i], a))
  }

  // ---------------------------------------------------------------------------
  // Python's min and max over a list of numbers

  function Lesser(p: real, q: real): real
  {
    if p <= q then p else q
  }

  function Greater(p: real, q: real): real
  {
    if p >= q then p else q
  }

  /** Python's `min` over a non-empty list of numbers. */
  function Lowest(xs: seq<real>): real
    requires |xs| > 0
  {
    if |xs| == 1 then xs[0] else Lesser(xs[0], Lowest(xs[1..]))
  }

  /** Python's `max` over a non-empty list of numbers. */
  function Highest(xs: seq<real>): real
    requires |xs| > 0
  {
    if |xs| == 1 then xs[0] else Greater(xs[0], Highest(xs[1..]))
  }

  /** `min` returns an element of the list that no element is below. */
  lemma {:induction false} LowestIsLeast(xs: seq<real>)
    requires |xs| > 0
    ensures Lowest(xs) in xs
    ensures forall i :: 0 <= i < |xs| ==> Lowest(xs) <= xs[i]
  {
    if |xs| > 1 {
      LowestIsLeast(xs[1..]);
      forall i | 1 <= i < |xs| ensures Lowest(xs[1..]) <= xs[i] {
        assert xs[i] == xs[1..][i - 1];
      }
    }
  }

  /** `max` returns an element of the list that no element is above. */
  lemma {:induction false} HighestIsGreatest(xs: seq<real>)
    requires |xs| > 0
    ensures Highest(xs) in xs
    ensures forall i :: 0 <= i < |xs| ==> xs[i] <= Highest(xs)
  {
    if |xs| > 1 {
      HighestIsGreatest(xs[1..]);
      forall i | 1 <= i < |xs| ensures xs[i] <= Highest(xs[1..]) {
        assert xs[i] == xs[1..][i - 1];
      }
    }
  }

  /** The least `a`-coordinate over a non-empty vertex list
      (`min(v[2] for v in vertices)` for the elevation). */
  function MinOn(vs: seq<Vertex>, a: Axis): real
    requires |vs| > 0
  {
    Lowest(Column(vs, a))
  }

  /** The least coordinate is attained by some vertex and no vertex is below it. */
  lemma MinOnIsLeast(vs: seq<Vertex>, a: Axis)
    requires |vs| > 0
    ensures exists i :: 0 <= i < |vs| && Coord(vs[i], a) == MinOn(vs, a)
    ensures forall i :: 0 <= i < |vs| ==> MinOn(vs, a) <= Coord(vs[i], a)
  {
    var c := Column(vs, a);
    LowestIsLeast(c);
    var j :| 0 <= j < |c| && c[j] == Lowest(c);
    assert Coord(vs[j], a) == MinOn(vs, a);
    forall i | 0 <= i < |vs| ensures MinOn(vs, a) <= Coord(vs[i], a) {
      assert c[i] == Coord(vs[i], a);
    }
  }

  // ---------------------------------------------------------------------------
  // Bounding box and extent

  /** Component-wise minimum of two vertices. */
  function Meet(u: Vertex, v: Vertex): Vertex
  {
    (Lesser(u.0, v.0), Lesser(u.1, v.1), Lesser(u.2, v.2))
  }

  /** Component-wise maximum of two vertices. */
  function Join(u: Vertex, v: Vertex): Vertex
  {
    (Greater(u.0, v.0), Greater(u.1, v.1), Greater(u.2, v.2))
  }

  /** `vertices.min(axis=0)`: the minimum corner of the bounding box. */
  function LowCorner(vs: seq<Vertex>): Vertex
    requires |vs| > 0
  {
    if |vs| == 1 then vs[0] else Meet(vs[0], LowCorner(vs[1..]))
  }

  /** `vertices.max(axis=0)`: the maximum corner of the bounding box. */
  function HighCorner(vs: seq<Vertex>): Vertex
    requires |vs| > 0
  {
    if |vs| == 1 then vs[0] else Join(vs[0], HighCorner(vs[1..]))
  }

  /** trimesh's `bounds`: the minimum corner and the maximum corner. */
  function Bounds(vs: seq<Vertex>): (Vertex, Vertex)
    requires |vs| > 0
  {
    (LowCorner(vs), HighCorner(vs))
  }

  /** Each coordinate of the box corners is the `min` (or `max`) of that
      coordinate over the vertices: trimesh's bounds and Python's `min` agree. */
  lemma {:induction false} CornersAreColumnExtremes(vs: seq<Vertex>, a: Axis)
    requires |vs| > 0
    ensures Coord(LowCorner(vs), a) == Lowest(Column(vs, a))
    ensures Coord(HighCorner(vs), a) == Highest(Column(vs, a))
  {
    if |vs| > 1 {
      assert Column(vs, a)[1..] == Column(vs[1..], a);
      CornersAreColumnExtremes(vs[1..], a);
    }
  }

  /** Every vertex lies inside its bounding box. */
  lemma InsideBounds(vs: seq<Vertex>, i: int, a: Axis)
    requires 0 <= i < |vs|
    ensures Coord(Bounds(vs).0, a) <= Coord(vs[i], a) <= Coord(Bounds(vs).1, a)
  {
    CornersAreColumnExtremes(vs, a);
    LowestIsLeast(Column(vs, a));
    HighestIsGreatest(Column(vs, a));
    assert Column(vs, a)[i] == Coord(vs[i], a);
  }

  /** `np.max(hi - lo)`: the largest component of the difference of two corners. */
  function LargestSide(lo: Vertex, hi: Vertex): real
  {
    var dx, dy, dz := hi.0 - lo.0, hi.1 - lo.1, hi.2 - lo.2;
    if dx >= dy && dx >= dz then dx else if dy >= dz then dy else dz
  }

  /** `np.max(bounds[1] - bounds[0])`: the largest side of the bounding box. */
  function Extent(vs: seq<Vertex>): real
    requires |vs| > 0
  {
    LargestSide(Bounds(vs).0, Bounds(vs).1)
  }

  /** The length of the bounding box along one axis. */
  function Side(vs: seq<Vertex>, a: Axis): real
    requires |vs| > 0
  {
    Coord(Bounds(vs).1, a) - Coord(Bounds(vs).0, a)
  }

  /** The extent is never negative, no side of the bounding box is longer, and
      it is the length of one of the sides. */
  lemma ExtentIsLargestSide(vs: seq<Vertex>)
    requires |vs| > 0
    ensures Extent(vs) >= 0.0
    ensures forall a :: Side(vs, a) <= Extent(vs)
    ensures exists a :: Extent(vs) == Side(vs, a)
  {
    InsideBounds(vs, 0, X);
    var e := Extent(vs);
    assert Side(vs, X) <= e && Side(vs, Y) <= e && Side(vs, Z) <= e;
    if e == Side(vs, X) {
    } else if e == Side(vs, Y) {
    } else {
      assert e == Side(vs, Z);
    }
  }

  /** Every index of every face addresses one of `n` vertices. */
  predicate FacesInRange(fs: seq<Face>, n: int)
  {
    forall f :: f in fs ==> 0 <= f.0 < n && 0 <= f.1 < n && 0 <= f.2 < n
  }

  // ---------------------------------------------------------------------------
  // Translation

  /** Every number of a list plus `d`. */
  function Shifted(xs: seq<real>, d: real): seq<real>
  {
    seq(|xs|, i requires 0 <= i < |xs| => xs[i] + d)
  }

  lemma {:induction false} LowestShifted(xs: seq<real>, d: real)
    requires |xs| > 0
    ensures Lowest(Shifted(xs, d)) == Lowest(xs) + d
  {
    if |xs| > 1 {
      assert Shifted(xs, d)[1..] == Shifted(xs[1..], d);
      LowestShifted(xs[1..], d);
    }
  }

  /** A translation shifts the least coordinate on each axis by that axis's
      component of the vector. */
  lemma MinOnTranslated(vs: seq<Vertex>, d: Vertex, a: Axis)
    requires |vs| > 0
    ensures MinOn(Translated(vs, d), a) == MinOn(vs, a) + Coord(d, a)
  {
    assert Column(Translated(vs, d), a) == Shifted(Column(vs, a), Coord(d, a));
    LowestShifted(Column(vs, a), Coord(d, a));
  }

  // ---------------------------------------------------------------------------
  // Scaling

  lemma ScaleMonotone(k: real, p: real, q: real)
    requires k > 0.0
    ensures p <= q <==> k * p <= k * q
  {
    assert k * q - k * p == k * (q - p);
  }

  /** `k*q - k*p` is `k*(q - p)`. */
  lemma Distribute(k: real, p: real, q: real, kp: real, kq: real)
    requires kp == k * p && kq == k * q
    ensures kq - kp == k * (q - p)
  {
  }

  lemma LesserScaled(p: real, q: real, k: real)
    requires k > 0.0
    ensures Lesser(k * p, k * q) == k * Lesser(p, q)
  {
    ScaleMonotone(k, p, q);
  }

  lemma GreaterScaled(p: real, q: real, k: real)
    requires k > 0.0
    ensures Greater(k * p, k * q) == k * Greater(p, q)
  {
    ScaleMonotone(k, q, p);
  }

  lemma MeetScaled(u: Vertex, v: Vertex, k: real)
    requires k > 0.0
    ensures Meet(Mul(u, k), Mul(v, k)) == Mul(Meet(u, v), k)
  {
    LesserScaled(u.0, v.0, k);
    LesserScaled(u.1, v.1, k);
    LesserScaled(u.2, v.2, k);
    assert Meet(Mul(u, k), Mul(v, k)).0 == Mul(Meet(u, v), k).0;
    assert Meet(Mul(u, k), Mul(v, k)).1 == Mul(Meet(u, v), k).1;
    assert Meet(Mul(u, k), Mul(v, k)).2 == Mul(Meet(u, v), k).2;
  }

  lemma JoinScaled(u: Vertex, v: Vertex, k: real)
    requires k > 0.0
    ensures Join(Mul(u, k), Mul(v, k)) == Mul(Join(u, v), k)
  {
    GreaterScaled(u.0, v.0, k);
    GreaterScaled(u.1, v.1, k);
    GreaterScaled(u.2, v.2, k);
    assert Join(Mul(u, k), Mul(v, k)).0 == Mul(Join(u, v), k).0;
    assert Join(Mul(u, k), Mul(v, k)).1 == Mul(Join(u, v), k).1;
    assert Join(Mul(u, k), Mul(v, k)).2 == Mul(Join(u, v), k).2;
  }

  /** Scaling by a positive factor about the origin scales both corners of the
      bounding box by it. */
  lemma {:induction false} CornersScaled(vs: seq<Vertex>, k: real)
    requires |vs| > 0 && k > 0.0
    ensures LowCorner(Scaled(vs, k)) == Mul(LowCorner(vs), k)
    ensures HighCorner(Scaled(vs, k)) == Mul(HighCorner(vs), k)
  {
    if |vs| > 1 {
      var s := Scaled(vs, k);
      assert s[1..] == Scaled(vs[1..], k);
      CornersScaled(vs[1..], k);
      MeetScaled(vs[0], LowCorner(vs[1..]), k);
      JoinScaled(vs[0], HighCorner(vs[1..]), k);
    }
  }

  lemma CoordScaled(v: Vertex, k: real, a: Axis, m: real)
    requires Coord(v, a) == m
    ensures Coord(Mul(v, k), a) == k * m
  {
  }

  /** Scaling by a positive factor about the origin scales the least coordinate
      on every axis by it. */
  lemma MinOnScaled(vs: seq<Vertex>, k: real, a: Axis)
    requires |vs| > 0 && k > 0.0
    ensures MinOn(Scaled(vs, k), a) == k * MinOn(vs, a)
  {
    MinOnIsLowCorner(vs, a);
    LowCornerScaled(vs, k, a, MinOn(vs, a));
  }

  // Proof steps of MinOnScaled, each with its hypotheses folded into the
  // conclusion so that MinOnScaled only chains equations.

  lemma MinOnIsLowCorner(vs: seq<Vertex>, a: Axis)
    ensures |vs| > 0 ==> MinOn(vs, a) == Coord(LowCorner(vs), a)
  {
    if |vs| > 0 {
      CornersAreColumnExtremes(vs, a);
    }
  }

  lemma LowCornerScaled(vs: seq<Vertex>, k: real, a: Axis, m: real)
    ensures |vs| > 0 && k > 0.0 && Coord(LowCorner(vs), a) == m ==>
            MinOn(Scaled(vs, k), a) == k * m
  {
    if |vs| > 0 && k > 0.0 && Coord(LowCorner(vs), a) == m {
      CornersScaled(vs, k);
      CoordScaled(LowCorner(vs), k, a, m);
      MinOnIsLowCorner(Scaled(vs, k), a);
    }
  }

  /** Scaling both corners of a box by a positive factor scales its largest side
      by that factor. */
  lemma LargestSideScaled(lo: Vertex, hi: Vertex, k: real)
    requires k > 0.0
    ensures LargestSide(Mul(lo, k), Mul(hi, k)) == k * LargestSide(lo, hi)
  {
    var dx, dy, dz := hi.0 - lo.0, hi.1 - lo.1, hi.2 - lo.2;
    Distribute(k, lo.0, hi.0, k * lo.0, k * hi.0);
    Distribute(k, lo.1, hi.1, k * lo.1, k * hi.1);
    Distribute(k, lo.2, hi.2, k * lo.2, k * hi.2);
    ScaleMonotone(k, dx, dy);
    ScaleMonotone(k, dx, dz);
    ScaleMonotone(k, dy, dz);
    ScaleMonotone(k, dy, dx);
    ScaleMonotone(k, dz, dx);
    ScaleMonotone(k, dz, dy);
  }

  // Proof steps of ScaledExtent, not properties of the converter in their own
  // right: each restates one step with its hypotheses folded into the
  // conclusion, so that ScaledExtent only chains equations. Proved inside
  // ScaledExtent, the unfolded bounds and the scaled box sides share one proof
  // obligation, which is too costly for the solver.

  lemma ExtentUnfolded(vs: seq<Vertex>)
    ensures |vs| > 0 ==> Extent(vs) == LargestSide(Bounds(vs).0, Bounds(vs).1)
  {
  }

  lemma BoundsScaled(vs: seq<Vertex>, k: real)
    ensures |vs| > 0 && k > 0.0 ==>
      |Scaled(vs, k)| > 0 &&
      Bounds(Scaled(vs, k)).0 == Mul(Bounds(vs).0, k) &&
      Bounds(Scaled(vs, k)).1 == Mul(Bounds(vs).1, k)
  {
    if |vs| > 0 && k > 0.0 {
      CornersScaled(vs, k);
    }
  }

  lemma LargestSideScaledTo(lo: Vertex, hi: Vertex, k: real, e: real)
    ensures k > 0.0 && e == LargestSide(lo, hi) ==> LargestSide(Mul(lo, k), Mul(hi, k)) == k * e
  {
    if k > 0.0 && e == LargestSide(lo, hi) {
      LargestSideScaled(lo, hi, k);
    }
  }

  lemma ScaledBoxSide(vs: seq<Vertex>, k: real)
    ensures |vs| > 0 && k > 0.0 ==>
      LargestSide(Mul(Bounds(vs).0, k), Mul(Bounds(vs).1, k)) == k * Extent(vs)
  {
    if |vs| > 0 && k > 0.0 {
      ExtentUnfolded(vs);
      LargestSideScaledTo(Bounds(vs).0, Bounds(vs).1, k, Extent(vs));
    }
  }

  /** Uniform scaling by a positive factor about the origin scales the largest
      bounding-box extent by that factor. */
  lemma ScaledExtent(vs: seq<Vertex>, k: real)
    requires |vs| > 0 && k > 0.0
    ensures Extent(Scaled(vs, k)) == k * Extent(vs)
  {
    BoundsScaled(vs, k);
    ExtentUnfolded(Scaled(vs, k));
    ScaledBoxSide(vs, k);
  }

  // ---------------------------------------------------------------------------
  // Joining vertex buffers

  lemma {:induction false} LowestAppend(xs: seq<real>, ys: seq<real>)
    requires |xs| > 0 && |ys| > 0
    ensures Lowest(xs + ys) == Lesser(Lowest(xs), Lowest(ys))
  {
    if |xs| > 1 {
      assert (xs + ys)[1..] == xs[1..] + ys;
      LowestAppend(xs[1..], ys);
    } else {
      assert (xs + ys)[1..] == ys;
    }
  }

  /** The least coordinate of two joined vertex buffers is the smaller of their
      least coordinates. */
  lemma MinOnConcat(p: seq<Vertex>, q: seq<Vertex>, a: Axis)
    requires |p| > 0 && |q| > 0
    ensures MinOn(p + q, a) == Lesser(MinOn(p, a), MinOn(q, a))
  {
    assert Column(p + q, a) == Column(p, a) + Column(q, a);
    LowestAppend(Column(p, a), Column(q, a));
  }
}
