/**
 * Materials and their scatter rule: a Lambertian surface always scatters
 * diffusely with its own colour, a metallic one (in this revision) absorbs.
 * Normalisation and the random number generator are parameters.
 */
module Material {
  import opened Wrappers
  import opened Geometry

  datatype MaterialDetails = Lambertian | Metallic(roughness: real)

  datatype Material = Material(color: Vec3, details: MaterialDetails)

  /**
   * `get_random_in_unit_sphere`: three uniform draws from the generator, each
   * moved by -0.5, then normalised.
   */
  function RandomInUnitSphere(draws: Vec3, normalize: Vec3 -> Vec3): Vec3 {
    normalize(draws.Minus(Splat(0.5)))
  }

  /**
   * `Material::scatter`: the attenuation colour and the scattered ray, or None
   * when the material absorbs the ray. `draws` are the generator's three values.
   */
  function Scatter(m: Material, draws: Vec3, hit: HitInfo, normalize: Vec3 -> Vec3): (r: Option<(Vec3, Ray)>)
    ensures r.Some? <==> m.details.Lambertian?
    ensures r.Some? ==> r.value.0 == m.color
    ensures r.Some? ==> r.value.1.origin == hit.p
    ensures r.Some? ==> r.value.1.direction == normalize(hit.n.Plus(RandomInUnitSphere(draws, normalize)))
  {
    match m.details
    case Lambertian =>
      var target := hit.p.Plus(hit.n).Plus(RandomInUnitSphere(draws, normalize));
      var rayReflect := Ray(hit.p, normalize(target.Minus(hit.p)));
      Some((m.color, rayReflect))
    case Metallic(_) =>
      None
  }

  /**
   * The scattered direction depends on the hit normal and the random draws
   * only: two hits with the same normal scatter the same way, wherever they are.
   */
  lemma ScatterDirectionIgnoresHitPoint(m: Material, draws: Vec3, h1: HitInfo, h2: HitInfo, normalize: Vec3 -> Vec3)
    requires h1.n == h2.n
    ensures Scatter(m, draws, h1, normalize).Some? == Scatter(m, draws, h2, normalize).Some?
    ensures Scatter(m, draws, h1, normalize).Some? ==>
              Scatter(m, draws, h1, normalize).value.1.direction == Scatter(m, draws, h2, normalize).value.1.direction
  {
  }

  /** A metallic material absorbs every ray, whatever its roughness. */
  lemma MetallicAlwaysAbsorbs(roughness: real, color: Vec3, draws: Vec3, hit: HitInfo, normalize: Vec3 -> Vec3)
    ensures Scatter(Material(color, Metallic(roughness)), draws, hit, normalize) == None
  {
  }
}
