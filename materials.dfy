// Materials and how they scatter light (src/material.rs).

module Materials {
  import opened RealArith
  import opened Vectors
  import opened Rays
  import opened Hittables

  /** The three materials of the source. */
  datatype Material =
    | Lambertian(albedo: Vec3)
    | Metal(albedo: Vec3, fuzz: real)
    | Dielectric(eta: real)

  /** A material that the source can scatter from without dividing by zero: a dielectric's
      index is inverted on the front face, and the Schlick term divides by `1 + ri`. */
  predicate ValidMaterial(m: Material) {
    m.Dielectric? ==> m.eta != 0.0 && m.eta != -1.0
  }

  /** `Reflect`: the colour filter and the ray that continues. */
  datatype Reflect = Reflect(attenuation: Vec3, scattered: Ray)

  /** The random draws one scatter may use: two `random_unit_vector()` calls (Lambertian uses
      both, Metal the first) and one `random()` in [0, 1) (Dielectric). */
  datatype Draws = Draws(unit1: Vec3, unit2: Vec3, uniform: real)

  // ---------------------------------------------------------------- Lambertian

  /** `Lambertian::scatter`: the normal plus a random unit vector, unless the first draw
      nearly cancels the normal, in which case the normal itself. The second draw is a fresh
      vector, not the one tested. */
  function LambertianDirection(k: Kernel, rec: HitRecord<Material>, d: Draws): Vec3 {
    if k.nearZero(Add(rec.normal, d.unit1)) then rec.normal else Add(rec.normal, d.unit2)
  }

  function ScatterLambertian(k: Kernel, albedo: Vec3, rec: HitRecord<Material>, d: Draws): Option<Reflect> {
    Some(Reflect(albedo, Construct(rec.point, LambertianDirection(k, rec, d), 0.0)))
  }

  // ---------------------------------------------------------------- Metal

  /** The metal direction: the mirror reflection of the unit incoming direction, perturbed by
      `fuzz` times a random unit vector. */
  function MetalDirection(k: Kernel, fuzz: real, rIn: Ray, rec: HitRecord<Material>, d: Draws): Vec3
    requires Length(k, rIn.direction) != 0.0
  {
    Add(k.reflectAlong(Unit(k, rIn.direction), rec.normal), ScaleBy(fuzz, d.unit1))
  }

  /** `Metal::scatter`: absorbed when the perturbed direction points into the surface. */
  function ScatterMetal(k: Kernel, albedo: Vec3, fuzz: real, rIn: Ray, rec: HitRecord<Material>, d: Draws): Option<Reflect>
    requires Length(k, rIn.direction) != 0.0
  {
    var direction := MetalDirection(k, fuzz, rIn, rec, d);
    if Dot(direction, rec.normal) > 0.0 then Some(Reflect(albedo, Construct(rec.point, direction, 0.0)))
    else None
  }

  // ---------------------------------------------------------------- Dielectric

  /** The ratio of indices: `1/eta` entering through the front face, `eta` leaving. */
  function RefractiveIndex(eta: real, front: bool): (ri: real)
    requires eta != 0.0 && eta != -1.0
    ensures ri != -1.0
  {
    ReciprocalAvoidsMinusOne(eta);
    if front then 1.0 / eta else eta
  }

  /** `f32::min` */
  function Min(a: real, b: real): real {
    if a <= b then a else b
  }

  /** The cosine of the angle of incidence, capped at 1. */
  function CosTheta(k: Kernel, rIn: Ray, rec: HitRecord<Material>): real
    requires Length(k, rIn.direction) != 0.0
  {
    Min(Dot(ScaleBy(-1.0, Unit(k, rIn.direction)), rec.normal), 1.0)
  }

  /** Total internal reflection: `sin_theta * ri > 1`, with `sin_theta` the root of
      `1 - cos_theta^2`. When that is negative the root is NaN and the comparison is false. */
  function CannotRefract(k: Kernel, cosTheta: real, ri: real): bool {
    var sinSq := 1.0 - Pow(cosTheta, 2);
    0.0 <= sinSq && Mul(k.sqrt(sinSq), ri) > 1.0
  }

  /** Schlick's approximation of the reflectance. */
  function Reflectance(cosTheta: real, ri: real): real
    requires ri != -1.0
  {
    var r0 := Pow((1.0 - ri) / (1.0 + ri), 2);
    r0 + Mul(1.0 - r0, Pow(1.0 - cosTheta, 5))
  }

  /** The dielectric direction: a reflection when refraction is impossible or the draw falls
      below the reflectance, otherwise a refraction. */
  function DielectricDirection(k: Kernel, eta: real, rIn: Ray, rec: HitRecord<Material>, d: Draws): Vec3
    requires eta != 0.0 && eta != -1.0 && Length(k, rIn.direction) != 0.0
  {
    var ri := RefractiveIndex(eta, rec.front);
    var unit := Unit(k, rIn.direction);
    var cosTheta := CosTheta(k, rIn, rec);
    if CannotRefract(k, cosTheta, ri) || Reflectance(cosTheta, ri) > d.uniform then
      k.reflectAlong(unit, rec.normal)
    else
      k.refractAlong(unit, rec.normal, ri)
  }

  /** `Dielectric::scatter`: never absorbs and never tints. */
  function ScatterDielectric(k: Kernel, eta: real, rIn: Ray, rec: HitRecord<Material>, d: Draws): Option<Reflect>
    requires eta != 0.0 && eta != -1.0 && Length(k, rIn.direction) != 0.0
  {
    Some(Reflect(FromPoint(1.0, 1.0, 1.0), Construct(rec.point, DielectricDirection(k, eta, rIn, rec, d), 0.0)))
  }

  // ---------------------------------------------------------------- dispatch

  /** `Material::scatter`. Metal and dielectric normalise the incoming direction, so it must
      have a length; a ray that hits a sphere always does. */
  function Scatter(k: Kernel, m: Material, rIn: Ray, rec: HitRecord<Material>, d: Draws): Option<Reflect>
    requires ValidMaterial(m)
    requires m.Lambertian? || Length(k, rIn.direction) != 0.0
  {
    match m
    case Lambertian(albedo) => ScatterLambertian(k, albedo, rec, d)
    case Metal(albedo, fuzz) => ScatterMetal(k, albedo, fuzz, rIn, rec, d)
    case Dielectric(eta) => ScatterDielectric(k, eta, rIn, rec, d)
  }

  // ---------------------------------------------------------------- what scattering promises

  /** A Lambertian surface always scatters, from the hit point, with its albedo; the
      direction is the normal exactly when the first draw nearly cancels it. */
  lemma LambertianScatters(k: Kernel, albedo: Vec3, rec: HitRecord<Material>, d: Draws)
    ensures ScatterLambertian(k, albedo, rec, d).Some?
    ensures ScatterLambertian(k, albedo, rec, d).value.attenuation == albedo
    ensures ScatterLambertian(k, albedo, rec, d).value.scattered.origin == rec.point
    ensures ScatterLambertian(k, albedo, rec, d).value.scattered.time == 0.0
    ensures k.nearZero(Add(rec.normal, d.unit1)) ==>
      ScatterLambertian(k, albedo, rec, d).value.scattered.direction == rec.normal
    ensures !k.nearZero(Add(rec.normal, d.unit1)) ==>
      ScatterLambertian(k, albedo, rec, d).value.scattered.direction == Add(rec.normal, d.unit2)
  {
  }

  /** A metal scatters exactly when the perturbed reflection leaves the surface, and then
      from the hit point with its albedo; with no fuzz the direction is the pure mirror
      reflection. */
  lemma MetalScatters(k: Kernel, albedo: Vec3, fuzz: real, rIn: Ray, rec: HitRecord<Material>, d: Draws)
    requires Length(k, rIn.direction) != 0.0
    ensures ScatterMetal(k, albedo, fuzz, rIn, rec, d).Some? <==>
      Dot(MetalDirection(k, fuzz, rIn, rec, d), rec.normal) > 0.0
    ensures ScatterMetal(k, albedo, fuzz, rIn, rec, d).Some? ==>
      && ScatterMetal(k, albedo, fuzz, rIn, rec, d).value.attenuation == albedo
      && ScatterMetal(k, albedo, fuzz, rIn, rec, d).value.scattered.origin == rec.point
      && ScatterMetal(k, albedo, fuzz, rIn, rec, d).value.scattered.direction
         == MetalDirection(k, fuzz, rIn, rec, d)
    ensures fuzz == 0.0 ==>
      MetalDirection(k, fuzz, rIn, rec, d) == k.reflectAlong(Unit(k, rIn.direction), rec.normal)
  {
    if fuzz == 0.0 {
      MulByZero(fuzz, d.unit1.x);
      MulByZero(fuzz, d.unit1.y);
      MulByZero(fuzz, d.unit1.z);
    }
  }

  /** A dielectric always scatters, from the hit point, untinted; it inverts its index on the
      front face. */
  lemma DielectricScatters(k: Kernel, eta: real, rIn: Ray, rec: HitRecord<Material>, d: Draws)
    requires eta != 0.0 && eta != -1.0 && Length(k, rIn.direction) != 0.0
    ensures ScatterDielectric(k, eta, rIn, rec, d).Some?
    ensures ScatterDielectric(k, eta, rIn, rec, d).value.attenuation == FromPoint(1.0, 1.0, 1.0)
    ensures ScatterDielectric(k, eta, rIn, rec, d).value.scattered.origin == rec.point
    ensures RefractiveIndex(eta, rec.front) == if rec.front then 1.0 / eta else eta
  {
  }

  /** Total internal reflection does not depend on the draw: whenever refraction is
      impossible, every draw reflects. A refraction happens only if refraction is possible
      and the draw is at least the reflectance, and then it does. */
  lemma DielectricChoice(k: Kernel, eta: real, rIn: Ray, rec: HitRecord<Material>, d: Draws, d': Draws)
    requires eta != 0.0 && eta != -1.0 && Length(k, rIn.direction) != 0.0
    ensures
      var ri := RefractiveIndex(eta, rec.front);
      var cosTheta := CosTheta(k, rIn, rec);
      && (CannotRefract(k, cosTheta, ri) ==>
            DielectricDirection(k, eta, rIn, rec, d) == DielectricDirection(k, eta, rIn, rec, d')
            == k.reflectAlong(Unit(k, rIn.direction), rec.normal))
      && (!CannotRefract(k, cosTheta, ri) && Reflectance(cosTheta, ri) <= d.uniform ==>
            DielectricDirection(k, eta, rIn, rec, d) == k.refractAlong(Unit(k, rIn.direction), rec.normal, ri))
      && (!CannotRefract(k, cosTheta, ri) && Reflectance(cosTheta, ri) > d.uniform ==>
            DielectricDirection(k, eta, rIn, rec, d) == k.reflectAlong(Unit(k, rIn.direction), rec.normal))
  {
  }

  /** The cosine is capped at 1; when the normal faces against the incoming ray, as every
      hit record's does, it is also non-negative. */
  lemma CosThetaBounds(k: Kernel, rIn: Ray, rec: HitRecord<Material>)
    requires k.Valid() && Length(k, rIn.direction) != 0.0
    ensures CosTheta(k, rIn, rec) <= 1.0
    ensures Dot(rIn.direction, rec.normal) <= 0.0 ==> 0.0 <= CosTheta(k, rIn, rec)
  {
    var v := rIn.direction;
    var l := Length(k, v);
    var n := rec.normal;
    LengthSpec(k, v);
    QuotientsDistribute(v.x, v.y, v.z, n.x, n.y, n.z, l);
    assert Dot(ScaleBy(-1.0, Unit(k, v)), n) == -(Dot(v, n) / l);
    if Dot(v, n) <= 0.0 {
      QuotientNonPositive(Dot(v, n), l);
    }
  }

  /** Schlick's reflectance is 1 at grazing incidence, `r0` head on, and `(1 - c)^5` when
      both media have the same index. */
  lemma ReflectanceValues(c: real, ri: real)
    requires ri != -1.0
    ensures Reflectance(0.0, ri) == 1.0
    ensures Reflectance(1.0, ri) == Pow((1.0 - ri) / (1.0 + ri), 2)
    ensures Reflectance(c, 1.0) == Pow(1.0 - c, 5)
  {
    PowOfOne(5);
    PowOfZero(5);
    PowOfZero(2);
    MulByOne(1.0 - Pow((1.0 - ri) / (1.0 + ri), 2));
    MulByZero(0.0, 1.0 - Pow((1.0 - ri) / (1.0 + ri), 2));
    MulByOne(Pow(1.0 - c, 5));
  }

  /** For a positive index and a cosine in [0, 1] the reflectance is a probability, at
      least `r0`. */
  lemma ReflectanceBounds(c: real, ri: real)
    requires 0.0 <= c <= 1.0 && 0.0 < ri
    ensures 0.0 <= Pow((1.0 - ri) / (1.0 + ri), 2) <= 1.0
    ensures Pow((1.0 - ri) / (1.0 + ri), 2) <= Reflectance(c, ri) <= 1.0
  {
    var q := (1.0 - ri) / (1.0 + ri);
    QuotientInUnit(1.0 - ri, 1.0 + ri);
    PowTwo(q);
    SquareNonNegative(q);
    SquareOfUnit(q);
    PowInUnit(1.0 - c, 5);
    MulBounded(1.0 - Pow(q, 2), Pow(1.0 - c, 5));
  }
}
