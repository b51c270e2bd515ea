/**
 * Axis-aligned bounding boxes: the padded box around a triangle mesh and the
 * ray slab test that lets the renderer skip a mesh the ray cannot reach.
 */
module Aabb {
  import opened Wrappers
  import opened Geometry

  /** Padding added on both ends of every axis of a mesh's box. */
  const Eps: real := 0.001
  /** The parameter interval of the ray that the slab test considers. */
  const TMinStart: real := 0.00001
  const TMaxStart: real := 10000.0

  datatype AaBb = AaBb(min: Vec3, max: Vec3)

  /** A mesh vertex; only its position matters to the box. */
  datatype VertexDescription = VertexDescription(position: Vec3)

  /** A mesh, reduced to its vertices. */
  datatype MeshDescription = MeshDescription(vertices: seq<VertexDescription>)

  /** The shapes of the renderer, without their materials and the cube's rotation. */
  datatype Shape =
    | Sphere(center: Vec3, radius: real)
    | Disk(center: Vec3, radius: real, normal: Vec3)
    | Cube(center: Vec3, sizes: Vec3)
    | TriangleMesh(center: Vec3, mesh: MeshDescription)

  // ---------------------------------------------------------------------------
  // The box of a triangle mesh
  // ---------------------------------------------------------------------------

  /** The mesh's vertex positions moved by the mesh's center, in vertex order. */
  function Translated(center: Vec3, mesh: MeshDescription): (ps: seq<Vec3>)
    ensures |ps| == |mesh.vertices|
    ensures forall i :: 0 <= i < |ps| ==> ps[i] == mesh.vertices[i].position.Plus(center)
  {
    seq(|mesh.vertices|, i requires 0 <= i < |mesh.vertices| => mesh.vertices[i].position.Plus(center))
  }

  /** The running minimum on axis `a` over `ps`, started at zero. */
  function Low(ps: seq<Vec3>, a: nat): real
    requires a < 3
  {
    if ps == [] then 0.0
    else
      var m := Low(ps[..|ps| - 1], a);
      var c := ps[|ps| - 1].At(a);
      if c < m then c else m
  }

  /** The running maximum on axis `a` over `ps`, started at zero. */
  function High(ps: seq<Vec3>, a: nat): real
    requires a < 3
  {
    if ps == [] then 0.0
    else
      var m := High(ps[..|ps| - 1], a);
      var c := ps[|ps| - 1].At(a);
      if c > m then c else m
  }

  function LowCorner(ps: seq<Vec3>): Vec3 {
    Vec3(Low(ps, 0), Low(ps, 1), Low(ps, 2))
  }

  function HighCorner(ps: seq<Vec3>): Vec3 {
    Vec3(High(ps, 0), High(ps, 1), High(ps, 2))
  }

  /** The box `From<Shape>` builds for a triangle mesh. */
  function MeshBox(center: Vec3, mesh: MeshDescription): AaBb {
    var ps := Translated(center, mesh);
    AaBb(LowCorner(ps).Minus(Splat(Eps)), HighCorner(ps).Plus(Splat(Eps)))
  }

  /**
   * `From<Shape> for Option<AaBb>`: a triangle mesh gets the box of its
   * translated vertices and the origin, padded by `Eps`; every other shape gets none.
   */
  method FromShape(shape: Shape) returns (r: Option<AaBb>)
    ensures shape.TriangleMesh? ==> r == Some(MeshBox(shape.center, shape.mesh))
    ensures !shape.TriangleMesh? ==> r == None
  {
    match shape {
      case TriangleMesh(center, mesh) =>
        ghost var ps := Translated(center, mesh);
        var min, max := Vec3(0.0, 0.0, 0.0), Vec3(0.0, 0.0, 0.0);
        for ix := 0 to |mesh.vertices|
          invariant min == LowCorner(ps[..ix])
          invariant max == HighCorner(ps[..ix])
        {
          var p := mesh.vertices[ix].position.Plus(center);
          assert ps[..ix + 1][..ix] == ps[..ix] && ps[..ix + 1][ix] == p;
          if p.x < min.x { min := min.(x := p.x); }
          if p.x > max.x { max := max.(x := p.x); }
          if p.y < min.y { min := min.(y := p.y); }
          if p.y > max.y { max := max.(y := p.y); }
          if p.z < min.z { min := min.(z := p.z); }
          if p.z > max.z { max := max.(z := p.z); }
        }
        assert ps[..|mesh.vertices|] == ps;
        min := min.Minus(Vec3(Eps, Eps, Eps));
        max := max.Plus(Vec3(Eps, Eps, Eps));
        r := Some(AaBb(min, max));
      case _ =>
        r := None;
    }
  }

  /** The running minimum lies at or below zero and at or below every point. */
  lemma {:induction false} LowIsLowerBound(ps: seq<Vec3>, a: nat)
    requires a < 3
    ensures Low(ps, a) <= 0.0
    ensures forall i :: 0 <= i < |ps| ==> Low(ps, a) <= ps[i].At(a)
  {
    if ps != [] {
      var init := ps[..|ps| - 1];
      LowIsLowerBound(init, a);
      assert forall i :: 0 <= i < |init| ==> init[i] == ps[i];
    }
  }

  /** The running maximum lies at or above zero and at or above every point. */
  lemma {:induction false} HighIsUpperBound(ps: seq<Vec3>, a: nat)
    requires a < 3
    ensures High(ps, a) >= 0.0
    ensures forall i :: 0 <= i < |ps| ==> ps[i].At(a) <= High(ps, a)
  {
    if ps != [] {
      var init := ps[..|ps| - 1];
      HighIsUpperBound(init, a);
      assert forall i :: 0 <= i < |init| ==> init[i] == ps[i];
    }
  }

  /** The running minimum is zero or the coordinate of one of the points. */
  lemma {:induction false} LowIsAttained(ps: seq<Vec3>, a: nat)
    requires a < 3
    ensures Low(ps, a) == 0.0 || exists i :: 0 <= i < |ps| && ps[i].At(a) == Low(ps, a)
  {
    if ps != [] {
      var init := ps[..|ps| - 1];
      LowIsAttained(init, a);
      if Low(ps, a) != ps[|ps| - 1].At(a) && Low(ps, a) != 0.0 {
        var i :| 0 <= i < |init| && init[i].At(a) == Low(init, a);
        assert ps[i] == init[i];
      }
    }
  }

  /** The running maximum is zero or the coordinate of one of the points. */
  lemma {:induction false} HighIsAttained(ps: seq<Vec3>, a: nat)
    requires a < 3
    ensures High(ps, a) == 0.0 || exists i :: 0 <= i < |ps| && ps[i].At(a) == High(ps, a)
  {
    if ps != [] {
      var init := ps[..|ps| - 1];
      HighIsAttained(init, a);
      if High(ps, a) != ps[|ps| - 1].At(a) && High(ps, a) != 0.0 {
        var i :| 0 <= i < |init| && init[i].At(a) == High(init, a);
        assert ps[i] == init[i];
      }
    }
  }

  /** Every translated vertex lies inside the mesh's box, at least `Eps` away from each face. */
  lemma MeshBoxContainsVertices(center: Vec3, mesh: MeshDescription)
    ensures var box, ps := MeshBox(center, mesh), Translated(center, mesh);
            forall i, a :: 0 <= i < |ps| && 0 <= a < 3 ==>
              box.min.At(a) + Eps <= ps[i].At(a) <= box.max.At(a) - Eps
  {
    var ps := Translated(center, mesh);
    LowIsLowerBound(ps, 0); LowIsLowerBound(ps, 1); LowIsLowerBound(ps, 2);
    HighIsUpperBound(ps, 0); HighIsUpperBound(ps, 1); HighIsUpperBound(ps, 2);
  }

  /**
   * Because the fold starts from the zero vector, the box always holds the
   * origin with `Eps` to spare, even for an empty mesh or one far from the origin;
   * so it is at least `2 * Eps` wide on every axis.
   */
  lemma MeshBoxContainsOrigin(center: Vec3, mesh: MeshDescription)
    ensures var box := MeshBox(center, mesh);
            forall a :: 0 <= a < 3 ==>
              box.min.At(a) <= -Eps && Eps <= box.max.At(a) && box.max.At(a) - box.min.At(a) >= 2.0 * Eps
  {
    var ps := Translated(center, mesh);
    LowIsLowerBound(ps, 0); LowIsLowerBound(ps, 1); LowIsLowerBound(ps, 2);
    HighIsUpperBound(ps, 0); HighIsUpperBound(ps, 1); HighIsUpperBound(ps, 2);
  }

  /**
   * The box is no larger than it must be: each face lies exactly `Eps` beyond
   * the origin or beyond some translated vertex.
   */
  lemma MeshBoxIsTight(center: Vec3, mesh: MeshDescription, a: nat)
    requires a < 3
    ensures var box, ps := MeshBox(center, mesh), Translated(center, mesh);
            && (box.min.At(a) + Eps == 0.0 || exists i :: 0 <= i < |ps| && ps[i].At(a) == box.min.At(a) + Eps)
            && (box.max.At(a) - Eps == 0.0 || exists i :: 0 <= i < |ps| && ps[i].At(a) == box.max.At(a) - Eps)
  {
    var ps := Translated(center, mesh);
    LowIsAttained(ps, a);
    HighIsAttained(ps, a);
  }

  // ---------------------------------------------------------------------------
  // The slab test
  // ---------------------------------------------------------------------------

  /** `1.0 / direction[a]` is finite only for nonzero components. */
  predicate NonZeroDirection(ray: Ray) {
    ray.direction.x != 0.0 && ray.direction.y != 0.0 && ray.direction.z != 0.0
  }

  /** The ray parameter at which it enters the slab of axis `a` (`t0`). */
  function Near(box: AaBb, ray: Ray, a: nat): real
    requires a < 3 && NonZeroDirection(ray)
  {
    var invD := 1.0 / ray.direction.At(a);
    if invD < 0.0 then (box.max.At(a) - ray.origin.At(a)) * invD
    else (box.min.At(a) - ray.origin.At(a)) * invD
  }

  /** The ray parameter at which it leaves the slab of axis `a` (`t1`). */
  function Far(box: AaBb, ray: Ray, a: nat): real
    requires a < 3 && NonZeroDirection(ray)
  {
    var invD := 1.0 / ray.direction.At(a);
    if invD < 0.0 then (box.min.At(a) - ray.origin.At(a)) * invD
    else (box.max.At(a) - ray.origin.At(a)) * invD
  }

  datatype Interval = Interval(lo: real, hi: real)

  /** `[t_min, t_max]` after the first `k` axes have narrowed it. */
  function Narrowed(box: AaBb, ray: Ray, k: nat): Interval
    requires k <= 3 && NonZeroDirection(ray)
  {
    if k == 0 then Interval(TMinStart, TMaxStart)
    else
      var iv := Narrowed(box, ray, k - 1);
      var t0, t1 := Near(box, ray, k - 1), Far(box, ray, k - 1);
      Interval(if t0 > iv.lo then t0 else iv.lo, if t1 < iv.hi then t1 else iv.hi)
  }

  /** The slab test accepts: the interval left after all three axes is not empty. */
  predicate SlabHit(box: AaBb, ray: Ray)
    requires NonZeroDirection(ray)
  {
    Narrowed(box, ray, 3).lo <= Narrowed(box, ray, 3).hi
  }

  /**
   * One axis of `is_hit`: the entry and exit parameters, ordered by the sign
   * of `1 / direction[a]`. On a well-formed axis entry comes first, and the
   * parameters between them are exactly those whose point lies in the slab.
   */
  method SlabBounds(box: AaBb, ray: Ray, a: nat) returns (t0: real, t1: real)
    requires a < 3 && NonZeroDirection(ray)
    ensures t0 == Near(box, ray, a) && t1 == Far(box, ray, a)
    ensures box.min.At(a) <= box.max.At(a) ==> t0 <= t1
    ensures forall t :: t0 <= t <= t1 <==> box.min.At(a) <= ray.PointAt(t).At(a) <= box.max.At(a)
  {
    var invD := 1.0 / ray.direction.At(a);
    if invD < 0.0 {
      t0, t1 := (box.max.At(a) - ray.origin.At(a)) * invD, (box.min.At(a) - ray.origin.At(a)) * invD;
    } else {
      t0, t1 := (box.min.At(a) - ray.origin.At(a)) * invD, (box.max.At(a) - ray.origin.At(a)) * invD;
    }
    if box.min.At(a) <= box.max.At(a) {
      NearBeforeFar(box, ray, a);
    }
    forall t {
      AxisSlab(box, ray, a, t);
    }
  }

  /**
   * `AaBb::is_hit`: narrow `[t_min, t_max]` axis by axis and give up as soon as
   * it is empty.
   */
  method IsHit(box: AaBb, ray: Ray) returns (hit: bool)
    requires NonZeroDirection(ray)
    ensures hit == SlabHit(box, ray)
  {
    var tMin, tMax := TMinStart, TMaxStart;
    for a := 0 to 3
      invariant Interval(tMin, tMax) == Narrowed(box, ray, a)
      invariant tMin <= tMax
    {
      var t0, t1 := SlabBounds(box, ray, a);
      if t0 > tMin { tMin := t0; }
      if t1 < tMax { tMax := t1; }
      if tMax < tMin {
        NarrowedShrinks(box, ray, a + 1, 3);
        return false;
      }
    }
    return true;
  }

  /**
   * Narrowing only narrows: `t_min` never falls below its start `0.00001` and
   * only grows, `t_max` never exceeds its start `10000` and only shrinks.
   */
  lemma {:induction false} NarrowedShrinks(box: AaBb, ray: Ray, j: nat, k: nat)
    requires j <= k <= 3 && NonZeroDirection(ray)
    ensures Narrowed(box, ray, j).lo <= Narrowed(box, ray, k).lo
    ensures Narrowed(box, ray, k).hi <= Narrowed(box, ray, j).hi
    ensures TMinStart <= Narrowed(box, ray, k).lo && Narrowed(box, ray, k).hi <= TMaxStart
    decreases k
  {
    if k > 0 {
      if j < k {
        NarrowedShrinks(box, ray, j, k - 1);
      } else {
        NarrowedShrinks(box, ray, 0, k - 1);
      }
    }
  }

  /** Per axis, `t0 <= t1` whenever the box is well formed on that axis. */
  lemma NearBeforeFar(box: AaBb, ray: Ray, a: nat)
    requires a < 3 && NonZeroDirection(ray)
    requires box.min.At(a) <= box.max.At(a)
    ensures Near(box, ray, a) <= Far(box, ray, a)
  {
    var invD := 1.0 / ray.direction.At(a);
    var lo, hi := box.min.At(a) - ray.origin.At(a), box.max.At(a) - ray.origin.At(a);
    assert hi * invD - lo * invD == (hi - lo) * invD;
    if invD < 0.0 {
      assert (hi - lo) * invD <= 0.0;
    } else {
      assert (hi - lo) * invD >= 0.0;
    }
  }

  // ---------------------------------------------------------------------------
  // What the slab test decides
  // ---------------------------------------------------------------------------

  /** The point of the ray at parameter `t` lies in the (closed) box. */
  predicate InBoxAt(box: AaBb, ray: Ray, t: real) {
    forall a :: 0 <= a < 3 ==> box.min.At(a) <= ray.PointAt(t).At(a) <= box.max.At(a)
  }

  lemma PointAtAxis(ray: Ray, t: real, a: nat)
    requires a < 3
    ensures ray.PointAt(t).At(a) == ray.origin.At(a) + ray.direction.At(a) * t
  {
  }

  /** Dividing by a positive number preserves the order, by a negative one reverses it. */
  lemma DivisionOrder(x: real, d: real, t: real)
    requires d != 0.0
    ensures d > 0.0 ==> (x * (1.0 / d) <= t <==> x <= t * d) && (t <= x * (1.0 / d) <==> t * d <= x)
    ensures d < 0.0 ==> (x * (1.0 / d) <= t <==> t * d <= x) && (t <= x * (1.0 / d) <==> x <= t * d)
  {
    var q := x * (1.0 / d);
    assert q * d == x;
    if d > 0.0 {
      assert q <= t <==> q * d <= t * d;
    } else {
      assert q <= t <==> t * d <= q * d;
      assert t <= q <==> q * d <= t * d;
    }
  }

  /** A positive direction component: the slab's parameters run from `lo / d` to `hi / d`. */
  lemma PositiveSlab(lo: real, hi: real, d: real, t: real)
    requires d > 0.0
    ensures (lo * (1.0 / d) <= t <= hi * (1.0 / d)) <==> lo <= t * d <= hi
  {
    DivisionOrder(lo, d, t);
    DivisionOrder(hi, d, t);
  }

  /** A negative direction component: the slab's parameters run from `hi / d` to `lo / d`. */
  lemma NegativeSlab(lo: real, hi: real, d: real, t: real)
    requires d < 0.0
    ensures (hi * (1.0 / d) <= t <= lo * (1.0 / d)) <==> lo <= t * d <= hi
  {
    DivisionOrder(lo, d, t);
    DivisionOrder(hi, d, t);
  }

  /** Per axis, `t` lies between `t0` and `t1` exactly when `t * direction[a]` lies between the faces' offsets from the origin. */
  lemma SlabParameters(box: AaBb, ray: Ray, a: nat, t: real)
    requires a < 3 && NonZeroDirection(ray)
    ensures (Near(box, ray, a) <= t <= Far(box, ray, a))
        <==> box.min.At(a) - ray.origin.At(a) <= t * ray.direction.At(a) <= box.max.At(a) - ray.origin.At(a)
  {
    var d, o := ray.direction.At(a), ray.origin.At(a);
    var lo, hi := box.min.At(a) - o, box.max.At(a) - o;
    var invD := 1.0 / d;
    if d > 0.0 {
      assert invD > 0.0;
      assert Near(box, ray, a) == lo * invD && Far(box, ray, a) == hi * invD;
      PositiveSlab(lo, hi, d, t);
    } else {
      assert invD < 0.0;
      assert Near(box, ray, a) == hi * invD && Far(box, ray, a) == lo * invD;
      NegativeSlab(lo, hi, d, t);
    }
  }

  /** Per axis, `t` lies between `t0` and `t1` exactly when the ray's point at `t` lies in that slab. */
  lemma AxisSlab(box: AaBb, ray: Ray, a: nat, t: real)
    requires a < 3 && NonZeroDirection(ray)
    ensures (Near(box, ray, a) <= t <= Far(box, ray, a))
        <==> box.min.At(a) <= ray.PointAt(t).At(a) <= box.max.At(a)
  {
    SlabParameters(box, ray, a, t);
    PointAtAxis(ray, t, a);
  }

  /** `t` survives the first `k` axes exactly when it is in the start interval and in each of their slabs. */
  lemma {:induction false} NarrowedContains(box: AaBb, ray: Ray, k: nat, t: real)
    requires k <= 3 && NonZeroDirection(ray)
    ensures (Narrowed(box, ray, k).lo <= t <= Narrowed(box, ray, k).hi)
        <==> TMinStart <= t <= TMaxStart && forall b :: 0 <= b < k ==> Near(box, ray, b) <= t <= Far(box, ray, b)
    decreases k
  {
    if k > 0 {
      NarrowedContains(box, ray, k - 1, t);
    }
  }

  /**
   * The slab test is exact over the reals: it accepts exactly when some point
   * of the ray with parameter in `[0.00001, 10000]` lies in the box. So it
   * never rejects a ray that meets the box in that range.
   */
  lemma SlabHitIffRayMeetsBox(box: AaBb, ray: Ray)
    requires NonZeroDirection(ray)
    ensures SlabHit(box, ray) <==> exists t :: TMinStart <= t <= TMaxStart && InBoxAt(box, ray, t)
  {
    if SlabHit(box, ray) {
      var t := Narrowed(box, ray, 3).lo;
      NarrowedContains(box, ray, 3, t);
      AxisSlab(box, ray, 0, t);
      AxisSlab(box, ray, 1, t);
      AxisSlab(box, ray, 2, t);
      assert InBoxAt(box, ray, t);
    }
    if t :| TMinStart <= t <= TMaxStart && InBoxAt(box, ray, t) {
      AxisSlab(box, ray, 0, t);
      AxisSlab(box, ray, 1, t);
      AxisSlab(box, ray, 2, t);
      NarrowedContains(box, ray, 3, t);
    }
  }

  /**
   * A mesh's box is never skipped for a ray that comes within EPS of the
   * origin (on every axis) at some `t` in `[0.00001, 10000]`, however far
   * the mesh's vertices are.
   */
  lemma NearOriginAccepted(center: Vec3, mesh: MeshDescription, ray: Ray, t: real)
    requires NonZeroDirection(ray) && TMinStart <= t <= TMaxStart
    requires forall a :: 0 <= a < 3 ==> -Eps <= ray.PointAt(t).At(a) <= Eps
    ensures SlabHit(MeshBox(center, mesh), ray)
  {
    MeshBoxContainsOrigin(center, mesh);
    assert InBoxAt(MeshBox(center, mesh), ray, t);
    SlabHitIffRayMeetsBox(MeshBox(center, mesh), ray);
  }

  lemma ProductNonNegative(p: real, q: real)
    requires p >= 0.0 && q >= 0.0
    ensures p * q >= 0.0
  {
  }

  function Weighted(x0: real, x1: real, x2: real, w0: real, w1: real, w2: real): real {
    w0 * x0 + w1 * x1 + w2 * x2
  }

  /** Convex weights keep a combination of three numbers within any bounds the three share. */
  lemma ConvexBetween(lo: real, hi: real, x0: real, x1: real, x2: real, w0: real, w1: real, w2: real, v: real)
    requires w0 >= 0.0 && w1 >= 0.0 && w2 >= 0.0 && w0 + w1 + w2 == 1.0
    requires lo <= x0 <= hi && lo <= x1 <= hi && lo <= x2 <= hi
    requires v == Weighted(x0, x1, x2, w0, w1, w2)
    ensures lo <= v <= hi
  {
    ProductNonNegative(x0 - lo, w0); ProductNonNegative(hi - x0, w0);
    ProductNonNegative(x1 - lo, w1); ProductNonNegative(hi - x1, w1);
    ProductNonNegative(x2 - lo, w2); ProductNonNegative(hi - x2, w2);
    assert (w0 + w1 + w2) * lo == w0 * lo + w1 * lo + w2 * lo;
    assert (w0 + w1 + w2) * hi == w0 * hi + w1 * hi + w2 * hi;
  }

  /** The point with barycentric weights `w0, w1, w2` on the triangle of translated vertices `i0, i1, i2`. */
  function Barycentric(ps: seq<Vec3>, i0: nat, i1: nat, i2: nat, w0: real, w1: real, w2: real): Vec3
    requires i0 < |ps| && i1 < |ps| && i2 < |ps|
  {
    ps[i0].Scale(w0).Plus(ps[i1].Scale(w1)).Plus(ps[i2].Scale(w2))
  }

  lemma BarycentricAxis(ps: seq<Vec3>, i0: nat, i1: nat, i2: nat, w0: real, w1: real, w2: real, a: nat)
    requires i0 < |ps| && i1 < |ps| && i2 < |ps| && a < 3
    ensures Barycentric(ps, i0, i1, i2, w0, w1, w2).At(a) == Weighted(ps[i0].At(a), ps[i1].At(a), ps[i2].At(a), w0, w1, w2)
  {
  }

  /** A point of a triangle of the mesh lies in the mesh's box, `Eps` inside each face. */
  lemma BarycentricInMeshBox(center: Vec3, mesh: MeshDescription,
                             i0: nat, i1: nat, i2: nat, w0: real, w1: real, w2: real, a: nat)
    requires i0 < |mesh.vertices| && i1 < |mesh.vertices| && i2 < |mesh.vertices| && a < 3
    requires w0 >= 0.0 && w1 >= 0.0 && w2 >= 0.0 && w0 + w1 + w2 == 1.0
    ensures var box, ps := MeshBox(center, mesh), Translated(center, mesh);
            box.min.At(a) + Eps <= Barycentric(ps, i0, i1, i2, w0, w1, w2).At(a) <= box.max.At(a) - Eps
  {
    var box, ps := MeshBox(center, mesh), Translated(center, mesh);
    BarycentricWithinFold(ps, i0, i1, i2, w0, w1, w2, a);
    assert box.min.At(a) + Eps == Low(ps, a) && box.max.At(a) - Eps == High(ps, a);
  }

  /** A convex combination of three of the points lies within the running minimum and maximum. */
  lemma BarycentricWithinFold(ps: seq<Vec3>, i0: nat, i1: nat, i2: nat, w0: real, w1: real, w2: real, a: nat)
    requires i0 < |ps| && i1 < |ps| && i2 < |ps| && a < 3
    requires w0 >= 0.0 && w1 >= 0.0 && w2 >= 0.0 && w0 + w1 + w2 == 1.0
    ensures Low(ps, a) <= Barycentric(ps, i0, i1, i2, w0, w1, w2).At(a) <= High(ps, a)
  {
    var lo, hi := Low(ps, a), High(ps, a);
    var x0, x1, x2 := ps[i0].At(a), ps[i1].At(a), ps[i2].At(a);
    var v := Barycentric(ps, i0, i1, i2, w0, w1, w2).At(a);
    assert lo <= x0 <= hi && lo <= x1 <= hi && lo <= x2 <= hi by {
      LowIsLowerBound(ps, a);
      HighIsUpperBound(ps, a);
    }
    assert v == Weighted(x0, x1, x2, w0, w1, w2) by {
      BarycentricAxis(ps, i0, i1, i2, w0, w1, w2, a);
    }
    ConvexBetween(lo, hi, x0, x1, x2, w0, w1, w2, v);
  }

  /**
   * No false negative for triangle hits: if the ray meets a triangle of the
   * mesh (a point with convex barycentric weights) at a parameter in
   * `[0.00001, 10000]`, the slab test on the mesh's box accepts the ray.
   */
  lemma MeshBoxNoFalseNegative(center: Vec3, mesh: MeshDescription, ray: Ray, t: real,
                               i0: nat, i1: nat, i2: nat, w0: real, w1: real, w2: real)
    requires NonZeroDirection(ray)
    requires i0 < |mesh.vertices| && i1 < |mesh.vertices| && i2 < |mesh.vertices|
    requires w0 >= 0.0 && w1 >= 0.0 && w2 >= 0.0 && w0 + w1 + w2 == 1.0
    requires TMinStart <= t <= TMaxStart
    requires ray.PointAt(t) == Barycentric(Translated(center, mesh), i0, i1, i2, w0, w1, w2)
    ensures SlabHit(MeshBox(center, mesh), ray)
  {
    var box := MeshBox(center, mesh);
    BarycentricInMeshBox(center, mesh, i0, i1, i2, w0, w1, w2, 0);
    BarycentricInMeshBox(center, mesh, i0, i1, i2, w0, w1, w2, 1);
    BarycentricInMeshBox(center, mesh, i0, i1, i2, w0, w1, w2, 2);
    assert InBoxAt(box, ray, t);
    SlabHitIffRayMeetsBox(box, ray);
  }
}
