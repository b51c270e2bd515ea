/**
 * The world: the scene's shapes and the nearest-hit search over them.
 * Each shape's own intersection test is a parameter (`shapeHit`), so the
 * model covers the scan and its tie-break, not the geometry of any shape.
 */
module World {
  import opened Wrappers
  import opened Geometry

  datatype World<S> = World(shapes: seq<S>)

  /**
   * Among the first `n` shapes, shape `k` is hit, no shape among them is hit
   * nearer, and every shape before `k` that is hit is hit strictly farther.
   */
  predicate FirstNearestAmong<S>(shapes: seq<S>, ray: Ray, shapeHit: (S, Ray) -> Option<HitInfo>, n: nat, k: nat)
    requires n <= |shapes|
  {
    && k < n
    && shapeHit(shapes[k], ray).Some?
    && (forall j :: 0 <= j < n && shapeHit(shapes[j], ray).Some? ==>
          shapeHit(shapes[k], ray).value.t <= shapeHit(shapes[j], ray).value.t)
    && (forall j :: 0 <= j < k && shapeHit(shapes[j], ray).Some? ==>
          shapeHit(shapes[k], ray).value.t < shapeHit(shapes[j], ray).value.t)
  }

  /** Shape `k` gives the nearest hit of the whole world, and the first such in slice order. */
  predicate IsFirstNearest<S>(shapes: seq<S>, ray: Ray, shapeHit: (S, Ray) -> Option<HitInfo>, k: nat) {
    FirstNearestAmong(shapes, ray, shapeHit, |shapes|, k)
  }

  /**
   * `World::hit_test`: scan the shapes in order, replacing the kept hit only by
   * one with a strictly smaller `t`.
   */
  method HitTest<S>(world: World<S>, ray: Ray, shapeHit: (S, Ray) -> Option<HitInfo>)
    returns (nearest: Option<HitInfo>)
    ensures nearest.None? <==>
              forall i :: 0 <= i < |world.shapes| ==> shapeHit(world.shapes[i], ray).None?
    ensures nearest.Some? ==>
              exists k: nat :: IsFirstNearest(world.shapes, ray, shapeHit, k)
                       && nearest == shapeHit(world.shapes[k], ray)
  {
    var shapes := world.shapes;
    nearest := None;
    ghost var k := 0;
    for i := 0 to |shapes|
      invariant nearest.None? <==> forall j :: 0 <= j < i ==> shapeHit(shapes[j], ray).None?
      invariant nearest.Some? ==>
                  FirstNearestAmong(shapes, ray, shapeHit, i, k) && nearest == shapeHit(shapes[k], ray)
    {
      var hit := shapeHit(shapes[i], ray);
      if hit.Some? {
        match nearest {
          case None =>
            nearest, k := hit, i;
          case Some(hitInfo) =>
            if hitInfo.t > hit.value.t {
              nearest, k := hit, i;
            }
        }
      }
    }
  }

  /** At most one shape is the first nearest, so the search result is determined. */
  lemma FirstNearestIsUnique<S>(shapes: seq<S>, ray: Ray, shapeHit: (S, Ray) -> Option<HitInfo>, k1: nat, k2: nat)
    requires IsFirstNearest(shapes, ray, shapeHit, k1)
    requires IsFirstNearest(shapes, ray, shapeHit, k2)
    ensures k1 == k2
  {
  }
}
