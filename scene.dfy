/**
 * The path tracer's integrator: `sample_color`, a depth-bounded recursion over
 * scatter events, and the two colour helpers `gamma_correct` and `mul`.
 *
 * Everything `sample_color` calls outside this file is a parameter, gathered
 * in `Collaborators`: the world's nearest-hit search, the sky colour, the
 * material's scatter rule (which consumes random numbers) and the albedo
 * lookup. The random generator is a value threaded through `scatter`.
 */
module Scene {
  import opened Wrappers
  import opened Geometry

  datatype Uv = Uv(u: real, v: real)

  /** A material as this file sees it: an albedo source, an emittance and a BRDF. */
  datatype Material<Albedo, Details> = Material(albedo: Albedo, emittance: real, details: Details)

  /** A hit as this file sees it: distance, point, normal, material and optional texture coordinates. */
  datatype HitInfo<Albedo, Details> =
    HitInfo(t: real, p: Vec3, n: Vec3, material: Material<Albedo, Details>, uv: Option<Uv>)

  /** What scatter yields: the attenuation colour and the scattered ray. */
  datatype Scattered = Scattered(attenuation: Vec3, ray: Ray)

  /** Scatter's answer (None: absorbed) and the generator's state after it. */
  datatype ScatterOutcome<Rng> = ScatterOutcome(scattered: Option<Scattered>, rng: Rng)

  datatype Collaborators<!World, !Albedo, !Details, !Rng> = Collaborators(
    hitTest: (World, Ray) -> Option<HitInfo<Albedo, Details>>,
    skyColor: Ray -> Vec3,
    scatter: (Material<Albedo, Details>, Ray, Rng, HitInfo<Albedo, Details>) -> ScatterOutcome<Rng>,
    getColor: (Albedo, Uv) -> Vec3)

  datatype Scene<World> = Scene(world: World, focusDistance: real, aperture: real, numSamples: nat, maxT: real)

  /** `mul`: the componentwise product of two colours. */
  function Mul(l: Vec3, r: Vec3): Vec3 {
    Vec3(l.x * r.x, l.y * r.y, l.z * r.z)
  }

  lemma {:induction false} ScalarAttenuates(x: real, k: real, p: real)
    requires 0.0 <= x && 0.0 <= k <= 1.0 && p == x * k
    ensures 0.0 <= p <= x
  {
    assert x - p == x * (1.0 - k) >= 0.0;
  }

  /**
   * An attenuation in [0, 1] only darkens: each component of a non-negative
   * colour times the attenuation stays between 0 and that component.
   */
  lemma MulAttenuates(l: Vec3, r: Vec3)
    requires l.x >= 0.0 && l.y >= 0.0 && l.z >= 0.0
    requires 0.0 <= r.x <= 1.0 && 0.0 <= r.y <= 1.0 && 0.0 <= r.z <= 1.0
    ensures var c := Mul(l, r);
            0.0 <= c.x <= l.x && 0.0 <= c.y <= l.y && 0.0 <= c.z <= l.z
  {
    var c := Mul(l, r);
    ScalarAttenuates(l.x, r.x, c.x);
    ScalarAttenuates(l.y, r.y, c.y);
    ScalarAttenuates(l.z, r.z, c.z);
  }

  /** cgmath's `lerp`: `self + (other - self) * amount`. */
  function Lerp(from: Vec3, to: Vec3, amount: real): Vec3 {
    from.Plus(to.Minus(from).Scale(amount))
  }

  lemma LerpEnds(from: Vec3, to: Vec3)
    ensures Lerp(from, to, 0.0) == from
    ensures Lerp(from, to, 1.0) == to
  {
  }

  /**
   * `Scene::sample_color`: the colour a ray brings back with `depth` bounces left.
   */
  function SampleColor<World, Albedo, Details, Rng>(
    scene: Scene<World>, env: Collaborators<World, Albedo, Details, Rng>, ray: Ray, rng: Rng, depth: nat): Vec3
    decreases depth
  {
    var nearestHit := env.hitTest(scene.world, ray);
    if depth == 0 then Black
    else
      var skyClr := env.skyColor(ray);
      match nearestHit
      case None => skyClr
      case Some(hit) =>
        var outcome := env.scatter(hit.material, ray, rng, hit);
        match outcome.scattered
        case None => Black
        case Some(Scattered(clr, rayReflect)) =>
          var uv := hit.uv.GetOr(Uv(0.0, 0.0));
          var albedo := env.getColor(hit.material.albedo, uv);
          var c := Lerp(Mul(SampleColor(scene, env, rayReflect, outcome.rng, depth - 1), clr), albedo, hit.material.emittance);
          if hit.t > scene.maxT then skyClr else c
  }

  /**
   * `sample_color` with a count of its nested calls, itself included: one more
   * than the calls made for the scattered ray, when there is one. The
   * recursive call is made before the `max_t` test, so a far hit counts it too.
   */
  function SampleColorCounted<World, Albedo, Details, Rng>(
    scene: Scene<World>, env: Collaborators<World, Albedo, Details, Rng>, ray: Ray, rng: Rng, depth: nat): (r: (Vec3, nat))
    ensures 1 <= r.1 <= depth + 1
    decreases depth
  {
    var nearestHit := env.hitTest(scene.world, ray);
    if depth == 0 then (Black, 1)
    else
      var skyClr := env.skyColor(ray);
      match nearestHit
      case None => (skyClr, 1)
      case Some(hit) =>
        var outcome := env.scatter(hit.material, ray, rng, hit);
        match outcome.scattered
        case None => (Black, 1)
        case Some(Scattered(clr, rayReflect)) =>
          var uv := hit.uv.GetOr(Uv(0.0, 0.0));
          var albedo := env.getColor(hit.material.albedo, uv);
          var inner := SampleColorCounted(scene, env, rayReflect, outcome.rng, depth - 1);
          var c := Lerp(Mul(inner.0, clr), albedo, hit.material.emittance);
          (if hit.t > scene.maxT then skyClr else c, 1 + inner.1)
  }

  /** The counting version computes the same colour as `sample_color`. */
  lemma {:induction false} CountedColorIsSampleColor<World, Albedo, Details, Rng>(
    scene: Scene<World>, env: Collaborators<World, Albedo, Details, Rng>, ray: Ray, rng: Rng, depth: nat)
    ensures SampleColorCounted(scene, env, ray, rng, depth).0 == SampleColor(scene, env, ray, rng, depth)
    decreases depth
  {
    if depth > 0 {
      match env.hitTest(scene.world, ray)
      case None =>
      case Some(hit) =>
        var outcome := env.scatter(hit.material, ray, rng, hit);
        match outcome.scattered
        case None =>
        case Some(s) =>
          CountedColorIsSampleColor(scene, env, s.ray, outcome.rng, depth - 1);
    }
  }

  /** With no bounce left the result is black, whatever the ray hits. */
  lemma DepthZeroIsBlack<World, Albedo, Details, Rng>(
    scene: Scene<World>, env: Collaborators<World, Albedo, Details, Rng>, ray: Ray, rng: Rng)
    ensures SampleColor(scene, env, ray, rng, 0) == Black
  {
  }

  /** A ray that hits nothing brings back the sky colour. */
  lemma MissIsSky<World, Albedo, Details, Rng>(
    scene: Scene<World>, env: Collaborators<World, Albedo, Details, Rng>, ray: Ray, rng: Rng, depth: nat)
    requires depth > 0 && env.hitTest(scene.world, ray).None?
    ensures SampleColor(scene, env, ray, rng, depth) == env.skyColor(ray)
  {
  }

  /** A ray absorbed by the material it hits brings back black. */
  lemma AbsorbedIsBlack<World, Albedo, Details, Rng>(
    scene: Scene<World>, env: Collaborators<World, Albedo, Details, Rng>, ray: Ray, rng: Rng, depth: nat)
    requires depth > 0 && env.hitTest(scene.world, ray).Some?
    requires var hit := env.hitTest(scene.world, ray).value;
             env.scatter(hit.material, ray, rng, hit).scattered.None?
    ensures SampleColor(scene, env, ray, rng, depth) == Black
  {
  }

  /**
   * A scattering hit beyond `max_t` counts as sky, even though the recursive
   * colour was computed.
   */
  lemma FarHitIsSky<World, Albedo, Details, Rng>(
    scene: Scene<World>, env: Collaborators<World, Albedo, Details, Rng>, ray: Ray, rng: Rng, depth: nat)
    requires depth > 0 && env.hitTest(scene.world, ray).Some?
    requires var hit := env.hitTest(scene.world, ray).value;
             env.scatter(hit.material, ray, rng, hit).scattered.Some? && hit.t > scene.maxT
    ensures SampleColor(scene, env, ray, rng, depth) == env.skyColor(ray)
  {
  }

  /**
   * A scattering hit within `max_t`: the scattered ray's colour (one bounce
   * fewer, the generator as scatter left it) times the attenuation, blended
   * toward the albedo at the hit's uv, (0, 0) when it has none, by the
   * emittance. Emittance 1 gives the albedo exactly, emittance 0 the product.
   */
  lemma ScatteredHitBlend<World, Albedo, Details, Rng>(
    scene: Scene<World>, env: Collaborators<World, Albedo, Details, Rng>, ray: Ray, rng: Rng, depth: nat)
    requires depth > 0 && env.hitTest(scene.world, ray).Some?
    requires var hit := env.hitTest(scene.world, ray).value;
             env.scatter(hit.material, ray, rng, hit).scattered.Some? && hit.t <= scene.maxT
    ensures var hit := env.hitTest(scene.world, ray).value;
            var outcome := env.scatter(hit.material, ray, rng, hit);
            var s := outcome.scattered.value;
            var albedo := env.getColor(hit.material.albedo, if hit.uv.Some? then hit.uv.value else Uv(0.0, 0.0));
            var reflected := Mul(SampleColor(scene, env, s.ray, outcome.rng, depth - 1), s.attenuation);
            var c := SampleColor(scene, env, ray, rng, depth);
            && c == Lerp(reflected, albedo, hit.material.emittance)
            && (hit.material.emittance == 1.0 ==> c == albedo)
            && (hit.material.emittance == 0.0 ==> c == reflected)
  {
    var hit := env.hitTest(scene.world, ray).value;
    var outcome := env.scatter(hit.material, ray, rng, hit);
    var s := outcome.scattered.value;
    var albedo := env.getColor(hit.material.albedo, if hit.uv.Some? then hit.uv.value else Uv(0.0, 0.0));
    LerpEnds(Mul(SampleColor(scene, env, s.ray, outcome.rng, depth - 1), s.attenuation), albedo);
  }

  /**
   * `gamma_correct`: each component clamped to at most 1, then its square
   * root; `sqrt` is f32's square root.
   */
  function GammaCorrect(v: Vec3, sqrt: real -> real): Vec3 {
    Vec3(sqrt(Min1(v.x)), sqrt(Min1(v.y)), sqrt(Min1(v.z)))
  }

  /** f32's `min(1.0)`. */
  function Min1(c: real): real {
    if c < 1.0 then c else 1.0
  }

  /** `sqrt` is the square root on non-negative reals. */
  ghost predicate IsSquareRoot(sqrt: real -> real) {
    forall x :: 0.0 <= x ==> 0.0 <= sqrt(x) && sqrt(x) * sqrt(x) == x
  }

  /** A non-negative colour is gamma-corrected into [0, 1] on every component. */
  lemma GammaCorrectInUnitRange(v: Vec3, sqrt: real -> real)
    requires IsSquareRoot(sqrt)
    requires v.x >= 0.0 && v.y >= 0.0 && v.z >= 0.0
    ensures var g := GammaCorrect(v, sqrt);
            forall a :: 0 <= a < 3 ==> 0.0 <= g.At(a) <= 1.0
  {
    RootOfUnitInterval(sqrt, Min1(v.x));
    RootOfUnitInterval(sqrt, Min1(v.y));
    RootOfUnitInterval(sqrt, Min1(v.z));
  }

  lemma RootOfUnitInterval(sqrt: real -> real, x: real)
    requires IsSquareRoot(sqrt)
    requires 0.0 <= x <= 1.0
    ensures 0.0 <= sqrt(x) <= 1.0
  {
    var r := sqrt(x);
    assert 0.0 <= r && r * r == x;
  }
}
