/**
 * The vector and ray primitives shared by every file of the renderer.
 * cgmath's `Vector3<f32>` becomes a triple of reals: rounding, NaN and the
 * infinities are not part of the model.
 */
module Geometry {

  /** A three-component vector: a position, a direction, a normal or a colour. */
  datatype Vec3 = Vec3(x: real, y: real, z: real) {

    /** The component on axis `a` (cgmath's `v[a]`: 0 is x, 1 is y, 2 is z). */
    function At(a: nat): real
      requires a < 3
    {
      if a == 0 then x else if a == 1 then y else z
    }

    function Plus(o: Vec3): Vec3 {
      Vec3(x + o.x, y + o.y, z + o.z)
    }

    function Minus(o: Vec3): Vec3 {
      Vec3(x - o.x, y - o.y, z - o.z)
    }

    function Scale(k: real): Vec3 {
      Vec3(x * k, y * k, z * k)
    }
  }

  const Black := Vec3(0.0, 0.0, 0.0)

  /** The same scalar on all three axes (cgmath's `vec3(e, e, e)`). */
  function Splat(e: real): Vec3 {
    Vec3(e, e, e)
  }

  /** A half-line: `origin + direction * t` for `t >= 0`. */
  datatype Ray = Ray(origin: Vec3, direction: Vec3) {
    /** The point of the ray at parameter `t`. */
    function PointAt(t: real): Vec3 {
      origin.Plus(direction.Scale(t))
    }
  }

  /** What a successful ray-shape intersection reports: distance, point and normal. */
  datatype HitInfo = HitInfo(t: real, p: Vec3, n: Vec3)
}
