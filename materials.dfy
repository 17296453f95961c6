// material.h: how a surface emits light and how it scatters an incoming ray.
// The five C++ classes are one class whose constant `kind` selects the
// override. `scatter` writes its `attenuation` and `scattered`
// out-parameters only when it scatters, and metal's also writes the base
// class's `reflectivity` member of the material the hit record points to;
// the method Scatter does exactly that and is specified by the function
// Outcome, which the camera's ray_color uses.

module Materials {
  import opened Util
  import opened Vectors
  import opened Rays
  import opened Hittables
  import opened Colors
  import opened Textures

  /** The concrete material classes and the data their constructors keep. */
  datatype Kind =
    | BaseMaterial
    | Lambertian(tex: Texture)
    | Metal(albedo: Color, fuzz: real)
    | DiffuseLight(emit: Texture)
    | Dielectric(refractionIndex: real)

  /** What scatter reports: false, or true with the attenuation and the scattered ray. */
  datatype ScatterResult = NoScatter | Scattered(attenuation: Color, scattered: Ray)

  /** The direction lambertian::scatter uses: normal + random unit, or the normal when that sum is near zero. */
  function LambertianDirection(normal: Vec3, randomUnit: Vec3): (d: Vec3)
    ensures d == normal || d == Add(normal, randomUnit)
    ensures !NearZero(d) || NearZero(normal)
  {
    var sum := Add(normal, randomUnit);
    if NearZero(sum) then normal else sum
  }

  /** dielectric's ratio of indices: 1 / refraction_index entering a front face, refraction_index leaving. */
  function RefractionRatio(refractionIndex: real, frontFace: bool): (ri: real)
    requires frontFace ==> refractionIndex != 0.0
    ensures frontFace ==> ri * refractionIndex == 1.0
    ensures !frontFace ==> ri == refractionIndex
  {
    if frontFace then 1.0 / refractionIndex else refractionIndex
  }

  /** Dielectric's ratio needs a nonzero index only on front faces. */
  predicate RatioDefined(kind: Kind, rec: HitRecord<Material>)
  {
    kind.Dielectric? && rec.frontFace ==> kind.refractionIndex != 0.0
  }

  class Material {
    /** material::reflectivity, the base-class member; no constructor sets it. */
    var reflectivity: real
    const kind: Kind
    /**
     * The `reflectivity` member that lambertian, metal and dielectric each
     * declare again, hiding the base one; their constructors set this one.
     */
    const ownReflectivity: real

    constructor (kind: Kind, ownReflectivity: real)
      ensures this.kind == kind && this.ownReflectivity == ownReflectivity
    {
      this.kind := kind;
      this.ownReflectivity := ownReflectivity;
    }

    /** material::emitted: only a diffuse light emits, and it emits its texture's colour. */
    function Emitted(u: real, v: real, p: Vec3): (c: Color)
      ensures !kind.DiffuseLight? ==> c == Black()
      ensures kind.DiffuseLight? ==> c == Value(kind.emit, u, v, p)
    {
      match kind
      case DiffuseLight(emit) => Value(emit, u, v, p)
      case _ => Black()
    }

    /**
     * What scatter computes for an incoming ray and the record of its hit;
     * `randomUnit` is the draw of vec3::random_unit_vector and `sqrt` stands for std::sqrt.
     */
    function Outcome(rIn: Ray, rec: HitRecord<Material>, randomUnit: Vec3, sqrt: real -> real): (o: ScatterResult)
      requires RatioDefined(kind, rec)
      ensures o.Scattered? <==> !(kind.BaseMaterial? || kind.DiffuseLight?)
      ensures o.Scattered? ==> o.scattered.origin == rec.p && o.scattered.tm == rIn.tm
    {
      match kind
      case BaseMaterial => NoScatter
      case DiffuseLight(_) => NoScatter
      case Lambertian(tex) =>
        Scattered(Value(tex, rec.u, rec.v, rec.p), Ray(rec.p, LambertianDirection(rec.normal, randomUnit), rIn.tm))
      case Metal(albedo, fuzz) =>
        var reflected := Add(UnitVector(Reflect(rIn.direction, rec.normal), sqrt), Scale(randomUnit, fuzz));
        Scattered(albedo, Ray(rec.p, reflected, rIn.tm))
      case Dielectric(refractionIndex) =>
        var ri := RefractionRatio(refractionIndex, rec.frontFace);
        var refracted := Refract(UnitVector(rIn.direction, sqrt), rec.normal, ri, sqrt);
        Scattered(Rgb(1.0, 1.0, 1.0), Ray(rec.p, refracted, rIn.tm))
    }

    /**
     * material::scatter and its overrides: the out-parameters `attenuation` and
     * `scattered` come back unchanged when nothing scatters; metal also copies
     * its own reflectivity into the base member of rec.mat.
     */
    method Scatter(rIn: Ray, rec: HitRecord<Material>, attenuation: Color, scattered: Ray, randomUnit: Vec3, sqrt: real -> real)
      returns (ok: bool, attenuation': Color, scattered': Ray)
      requires RatioDefined(kind, rec)
      modifies if kind.Metal? then {rec.mat} else {}
      ensures ok <==> Outcome(rIn, rec, randomUnit, sqrt).Scattered?
      ensures ok ==> attenuation' == Outcome(rIn, rec, randomUnit, sqrt).attenuation
      ensures ok ==> scattered' == Outcome(rIn, rec, randomUnit, sqrt).scattered
      ensures !ok ==> attenuation' == attenuation && scattered' == scattered
      ensures kind.Metal? ==> rec.mat.reflectivity == ownReflectivity
    {
      match kind {
        case BaseMaterial =>
          ok, attenuation', scattered' := false, attenuation, scattered;
        case DiffuseLight(_) =>
          ok, attenuation', scattered' := false, attenuation, scattered;
        case Lambertian(tex) =>
          var scatterDirection := Add(rec.normal, randomUnit);
          if NearZero(scatterDirection) {
            scatterDirection := rec.normal;
          }
          scattered' := Ray(rec.p, scatterDirection, rIn.tm);
          attenuation' := Value(tex, rec.u, rec.v, rec.p);
          ok := true;
        case Metal(albedo, fuzz) =>
          var reflected := Reflect(rIn.direction, rec.normal);
          reflected := Add(UnitVector(reflected, sqrt), Scale(randomUnit, fuzz));
          scattered' := Ray(rec.p, reflected, rIn.tm);
          attenuation' := albedo;
          rec.mat.reflectivity := ownReflectivity;
          ok := true;
        case Dielectric(refractionIndex) =>
          attenuation' := Rgb(1.0, 1.0, 1.0);
          var ri := if rec.frontFace then 1.0 / refractionIndex else refractionIndex;
          var unitDirection := UnitVector(rIn.direction, sqrt);
          var refracted := Refract(unitDirection, rec.normal, ri, sqrt);
          scattered' := Ray(rec.p, refracted, rIn.tm);
          ok := true;
      }
    }
  }

  // ---------------------------------------------------------------------------
  // Properties of the scatter protocol.

  /** Exactly lambertian, metal and dielectric scatter; the base material and the light do not. */
  lemma ScattersUnlessBaseOrLight(m: Material, rIn: Ray, rec: HitRecord<Material>, randomUnit: Vec3, sqrt: real -> real)
    requires RatioDefined(m.kind, rec)
    ensures m.Outcome(rIn, rec, randomUnit, sqrt).Scattered? <==> !(m.kind.BaseMaterial? || m.kind.DiffuseLight?)
  {
  }

  /** Every scattered ray leaves from the hit point at the incoming ray's time. */
  lemma ScatteredRayStartsAtHit(m: Material, rIn: Ray, rec: HitRecord<Material>, randomUnit: Vec3, sqrt: real -> real)
    requires RatioDefined(m.kind, rec)
    ensures var o := m.Outcome(rIn, rec, randomUnit, sqrt);
      o.Scattered? ==> o.scattered.origin == rec.p && o.scattered.tm == rIn.tm
  {
  }

  /** Lambertian attenuation is the texture at the hit's (u, v) and point; dielectric's is white; metal's is the albedo. */
  lemma AttenuationByKind(m: Material, rIn: Ray, rec: HitRecord<Material>, randomUnit: Vec3, sqrt: real -> real)
    requires RatioDefined(m.kind, rec)
    ensures var o := m.Outcome(rIn, rec, randomUnit, sqrt);
      (m.kind.Lambertian? ==> o.attenuation == Value(m.kind.tex, rec.u, rec.v, rec.p)) &&
      (m.kind.Metal? ==> o.attenuation == m.kind.albedo) &&
      (m.kind.Dielectric? ==> o.attenuation == Rgb(1.0, 1.0, 1.0))
  {
  }

  /** A lambertian bounce off a surface whose normal is not near zero never has a near-zero direction. */
  lemma LambertianDirectionNotDegenerate(m: Material, rIn: Ray, rec: HitRecord<Material>, randomUnit: Vec3, sqrt: real -> real)
    requires m.kind.Lambertian? && !NearZero(rec.normal)
    ensures !NearZero(m.Outcome(rIn, rec, randomUnit, sqrt).scattered.direction)
  {
  }

  /** Zero fuzz makes metal a mirror: the scattered direction is the unit reflection. */
  lemma MetalWithoutFuzzIsMirror(m: Material, rIn: Ray, rec: HitRecord<Material>, randomUnit: Vec3, sqrt: real -> real)
    requires m.kind.Metal? && m.kind.fuzz == 0.0
    requires var d := Reflect(rIn.direction, rec.normal); 0.0 < d.LengthSquared() && IsSqrt(sqrt(d.LengthSquared()), d.LengthSquared())
    ensures var d := m.Outcome(rIn, rec, randomUnit, sqrt).scattered.direction;
      d == UnitVector(Reflect(rIn.direction, rec.normal), sqrt) && d.LengthSquared() == 1.0
  {
    var u := UnitVector(Reflect(rIn.direction, rec.normal), sqrt);
    UnitVectorIsUnit(Reflect(rIn.direction, rec.normal), sqrt);
    assert Add(u, Scale(randomUnit, 0.0)) == u;
  }

  /**
   * A dielectric of index 1 bends nothing: with a correct square root, a ray
   * entering a unit normal's face leaves along its own unit direction.
   */
  lemma MatchedDielectricPassesStraight(m: Material, rIn: Ray, rec: HitRecord<Material>, randomUnit: Vec3, sqrt: real -> real, uv: Vec3)
    requires m.kind == Dielectric(1.0) && uv == UnitVector(rIn.direction, sqrt)
    requires Dot(uv, uv) == 1.0 && Dot(rec.normal, rec.normal) == 1.0 && 0.0 <= -Dot(uv, rec.normal) <= 1.0
    requires IsSqrt(sqrt(Dot(uv, rec.normal) * Dot(uv, rec.normal)), Dot(uv, rec.normal) * Dot(uv, rec.normal))
    ensures m.Outcome(rIn, rec, randomUnit, sqrt).scattered.direction == uv
  {
    RefractMatchedIndexIsIdentity(uv, rec.normal, sqrt);
    DielectricDirection(m, rIn, rec, randomUnit, sqrt);
    assert RefractionRatio(1.0, rec.frontFace) == 1.0;
  }

  /** A dielectric's scattered direction is the refraction of the unit incoming direction by its ratio of indices. */
  lemma DielectricDirection(m: Material, rIn: Ray, rec: HitRecord<Material>, randomUnit: Vec3, sqrt: real -> real)
    requires m.kind.Dielectric? && RatioDefined(m.kind, rec)
    ensures m.Outcome(rIn, rec, randomUnit, sqrt).scattered.direction ==
      Refract(UnitVector(rIn.direction, sqrt), rec.normal, RefractionRatio(m.kind.refractionIndex, rec.frontFace), sqrt)
  {
  }
}
