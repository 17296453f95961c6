// camera.cpp: the camera's set-up of the viewport, the sample ray through a
// pixel, and the recursive colour of a ray. The scene's `hit` on
// [t_min, infinity) is an oracle, the random draws (the pixel offset, the
// ray time, one random unit vector per bounce) are parameters, and std::tan,
// std::sqrt and std::pow are function parameters.

module Cameras {
  import opened Util
  import opened Vectors
  import opened Rays
  import opened Hittables
  import opened Colors
  import opened Materials

  /** ray_color queries the scene from t_min = 0.01. */
  const TMin: real := 0.01

  /** M_PI. */
  const Pi: real := 3.14159265358979323846

  /** The gamma gamma_corrected uses by default. */
  const Gamma: real := 2.2

  /**
   * pixel_00_loc as written: the half-step sum is scaled by `1 / 2`, an
   * integer division that yields 0, so the result is the viewport's corner.
   */
  function Pixel00AsWritten(deltaU: Vec3, deltaV: Vec3, upperLeft: Vec3): Vec3
  {
    Add(Scale(Add(deltaU, deltaV), (1 / 2) as real), upperLeft)
  }

  /** The first pixel's centre: half a step right and half a step down from the viewport's corner. */
  function Pixel00(deltaU: Vec3, deltaV: Vec3, upperLeft: Vec3): Vec3
  {
    Add(Scale(Add(deltaU, deltaV), 0.5), upperLeft)
  }

  /** As written, pixel_00_loc is the viewport corner itself, whatever the pixel steps are. */
  lemma Pixel00AsWrittenIsCorner(deltaU: Vec3, deltaV: Vec3, upperLeft: Vec3)
    ensures Pixel00AsWritten(deltaU, deltaV, upperLeft) == upperLeft
    ensures Add(deltaU, deltaV) != Zero() ==> Pixel00AsWritten(deltaU, deltaV, upperLeft) != Pixel00(deltaU, deltaV, upperLeft)
  {
    assert (1 / 2) as real == 0.0;
  }

  /**
   * Pixel (i, j)'s sample point for offset (a, b): pixel_00 + (i + a) du + (j + b) dv.
   * With the corrected pixel_00 this is the corner + (i + a + 1/2) du + (j + b + 1/2) dv,
   * so the offsets of sample_square, in [-1/2, 1/2), cover exactly the pixel's own cell.
   */
  function SamplePoint(pixel00: Vec3, deltaU: Vec3, deltaV: Vec3, i: int, j: int, offset: Vec3): Vec3
  {
    Add(Add(pixel00, Scale(deltaU, i as real + offset.x)), Scale(deltaV, j as real + offset.y))
  }

  /**
   * With pixel_00_loc as written, the sample point of pixel (i, j) is the
   * corner + (i + a) du + (j + b) dv: the offsets of sample_square, in
   * [-1/2, 1/2), straddle the corner of the pixel's cell instead of filling it.
   */
  lemma SamplePointAsWritten(deltaU: Vec3, deltaV: Vec3, upperLeft: Vec3, i: int, j: int, offset: Vec3)
    ensures SamplePoint(Pixel00AsWritten(deltaU, deltaV, upperLeft), deltaU, deltaV, i, j, offset) ==
            Add(upperLeft, Add(Scale(deltaU, i as real + offset.x), Scale(deltaV, j as real + offset.y)))
  {
    Pixel00AsWrittenIsCorner(deltaU, deltaV, upperLeft);
  }

  /** The sample point of pixel (i, j) measured from the viewport corner, with the corrected pixel_00_loc. */
  lemma SamplePointInCell(deltaU: Vec3, deltaV: Vec3, upperLeft: Vec3, i: int, j: int, offset: Vec3)
    ensures SamplePoint(Pixel00(deltaU, deltaV, upperLeft), deltaU, deltaV, i, j, offset) ==
            Add(upperLeft, Add(Scale(deltaU, i as real + offset.x + 0.5), Scale(deltaV, j as real + offset.y + 0.5)))
  {
  }

  /** Camera::sample_square for two random_double draws in [0, 1): the offset lies in [-1/2, 1/2)^2 x {0}. */
  function SampleSquare(a: real, b: real): (offset: Vec3)
    requires 0.0 <= a < 1.0 && 0.0 <= b < 1.0
    ensures -0.5 <= offset.x < 0.5 && -0.5 <= offset.y < 0.5 && offset.z == 0.0
    ensures offset.x + 0.5 == a && offset.y + 0.5 == b
  {
    Vec3(a - 0.5, b - 0.5, 0.0)
  }

  /** The viewport height for a vertical field of view in degrees: 2 tan(fov / 2) at focal length 1. */
  function ViewportHeight(fov: real, tan: real -> real): real
  {
    2.0 * tan(fov * 0.5 * Pi / 180.0)
  }

  /** The viewport width: its height times the aspect ratio. */
  function ViewportWidth(fov: real, tan: real -> real, aRatio: real): real
  {
    ViewportHeight(fov, tan) * aRatio
  }

  /** The viewport's upper-left corner: one unit ahead of the centre, less half of each viewport edge. */
  function UpperLeft(center: Vec3, viewportU: Vec3, viewportV: Vec3): Vec3
  {
    Sub(Sub(Sub(center, Vec3(0.0, 0.0, 1.0)), Scale(viewportU, 0.5)), Scale(viewportV, 0.5))
  }

  class Camera {
    const aspectRatio: real
    const imageWidth: int
    var imageHeight: int
    const center: Vec3
    var forward: Vec3
    var right: Vec3
    /** The member `up`: the constructor's `up = ...` assigns its parameter, so this stays (0, 0, 0). */
    var up: Vec3
    const fov: real
    var background: Color
    var pixel00Loc: Vec3
    var pixelDeltaU: Vec3
    var pixelDeltaV: Vec3
    const samplesPerPixel: int
    /** scene_root->hit(r, t_min, infinity, h): the verdict and the record it leaves. */
    const scene: (Ray, real) -> HitOutcome<Material>

    /**
     * Camera::Camera: the image height is the truncated width / aspect ratio, the
     * orientation is built from look_at and up, and the viewport is 2 tan(fov / 2)
     * high at focal length 1. pixel_00_loc is computed as written, so it is the
     * viewport's upper-left corner (Pixel00 is the first pixel's centre meant).
     */
    constructor (width: int, aRatio: real, center: Vec3, lookAt: Vec3, up: Vec3, fov: real, samples: int,
                 scene: (Ray, real) -> HitOutcome<Material>, sqrt: real -> real, tan: real -> real)
      requires aRatio != 0.0 && width != 0 && Trunc(width as real / aRatio) != 0
      ensures imageHeight == Trunc(width as real / aRatio) && imageWidth == width
      ensures this.center == center && this.fov == fov && samplesPerPixel == samples && this.scene == scene
      ensures forward == UnitVector(Sub(lookAt, center), sqrt)
      ensures right == UnitVector(Cross(UnitVector(up, sqrt), forward), sqrt)
      ensures this.up == Zero()
      ensures background == Rgb(0.70, 0.80, 1.00)
      ensures pixelDeltaU == Scale(Scale(right, ViewportWidth(fov, tan, aRatio)), 1.0 / width as real)
      ensures pixelDeltaV == Scale(Scale(UnitVector(Cross(forward, right), sqrt), ViewportHeight(fov, tan)), 1.0 / imageHeight as real)
      ensures pixel00Loc == Pixel00AsWritten(pixelDeltaU, pixelDeltaV,
        UpperLeft(center, Scale(right, ViewportWidth(fov, tan, aRatio)), Scale(UnitVector(Cross(forward, right), sqrt), ViewportHeight(fov, tan))))
      ensures pixel00Loc ==
        UpperLeft(center, Scale(right, ViewportWidth(fov, tan, aRatio)), Scale(UnitVector(Cross(forward, right), sqrt), ViewportHeight(fov, tan)))
    {
      aspectRatio := aRatio;
      imageWidth := width;
      this.center := center;
      this.fov := fov;
      this.scene := scene;
      samplesPerPixel := samples;
      this.up := Zero();

      var height := Trunc(width as real / aRatio);
      imageHeight := height;

      var fwd := UnitVector(Sub(lookAt, center), sqrt);
      var upNormalized := UnitVector(up, sqrt);
      var rgt := UnitVector(Cross(upNormalized, fwd), sqrt);
      upNormalized := Cross(fwd, rgt);
      upNormalized := UnitVector(upNormalized, sqrt);
      forward, right := fwd, rgt;
      background := Rgb(0.70, 0.80, 1.00);

      var focalLength := 1.0;
      var viewportHeight := ViewportHeight(fov, tan);
      var viewportWidth := ViewportWidth(fov, tan, aRatio);

      var viewportU := Scale(rgt, viewportWidth);
      var viewportV := Scale(upNormalized, viewportHeight);

      var deltaU := Scale(viewportU, 1.0 / width as real);
      var deltaV := Scale(viewportV, 1.0 / height as real);
      pixelDeltaU, pixelDeltaV := deltaU, deltaV;

      var dU := Scale(viewportU, 0.5);
      var dV := Scale(viewportV, 0.5);
      var focalLengthVector := Vec3(0.0, 0.0, focalLength);

      var vpUpperLeft := Sub(center, focalLengthVector);
      vpUpperLeft := Sub(vpUpperLeft, dU);
      vpUpperLeft := Sub(vpUpperLeft, dV);
      assert vpUpperLeft == UpperLeft(center, viewportU, viewportV);

      pixel00Loc := Pixel00AsWritten(deltaU, deltaV, vpUpperLeft);
      Pixel00AsWrittenIsCorner(deltaU, deltaV, vpUpperLeft);
    }

    /**
     * Camera::get_ray: from the camera centre to pixel (i, j)'s sample point for
     * the sample_square offset, at the random time drawn.
     */
    function GetRay(i: int, j: int, offset: Vec3, time: real): (r: Ray)
      reads this
      ensures r.origin == center && r.tm == time
      ensures Add(r.origin, r.direction) == SamplePoint(pixel00Loc, pixelDeltaU, pixelDeltaV, i, j, offset)
    {
      var difX := Scale(pixelDeltaU, i as real + offset.x);
      var difY := Scale(pixelDeltaV, j as real + offset.y);
      var sample := Add(Add(pixel00Loc, difX), difY);
      var rayOrigin := center;
      var direction := Sub(sample, rayOrigin);
      Ray(rayOrigin, direction, time)
    }

    /** Every material the scene can return gives dielectric's index ratio a meaning. */
    ghost predicate SceneRatiosDefined()
    {
      forall r: Ray :: scene(r, TMin).hit ==> RatioDefined(scene(r, TMin).rec.mat.kind, scene(r, TMin).rec)
    }

    /**
     * Camera::ray_color: black once the depth is used up or the ray escapes (the
     * sky gradient is computed and discarded); on a hit, the material's emission
     * alone when it does not scatter, otherwise emission plus attenuation times
     * the colour of the scattered ray one level deeper, gamma-corrected.
     * `randomUnit(d)` is the random unit vector scatter draws at depth d.
     */
    function RayColor(r: Ray, depth: int, randomUnit: int -> Vec3, sqrt: real -> real, pow: (real, real) -> real): (c: Color)
      requires SceneRatiosDefined()
      ensures depth <= 0 ==> c == Black()
      ensures depth > 0 && !scene(r, TMin).hit ==> c == Black()
      decreases depth
    {
      if depth <= 0 then Black()
      else
        var h := scene(r, TMin);
        if !h.hit then Black()
        else
          var rec := h.rec;
          var colorFromEmission := rec.mat.Emitted(rec.u, rec.v, rec.p);
          match rec.mat.Outcome(r, rec, randomUnit(depth), sqrt)
          case NoScatter => colorFromEmission
          case Scattered(attenuation, scattered) =>
            var colorFromScatter := Mul(attenuation.value, RayColor(scattered, depth - 1, randomUnit, sqrt, pow).value);
            GammaCorrected(Color(Add(colorFromEmission.value, colorFromScatter)), Gamma, pow)
    }
  }

  // ---------------------------------------------------------------------------
  // Properties of ray_color.

  /** A hit on a material that does not scatter returns its emission exactly, with no gamma applied. */
  lemma NonScatteringHitReturnsEmission(cam: Camera, r: Ray, depth: int, randomUnit: int -> Vec3, sqrt: real -> real, pow: (real, real) -> real)
    requires cam.SceneRatiosDefined() && depth > 0
    requires var h := cam.scene(r, TMin); h.hit && (h.rec.mat.kind.BaseMaterial? || h.rec.mat.kind.DiffuseLight?)
    ensures var rec := cam.scene(r, TMin).rec;
      cam.RayColor(r, depth, randomUnit, sqrt, pow) == rec.mat.Emitted(rec.u, rec.v, rec.p)
  {
    var rec := cam.scene(r, TMin).rec;
    ScattersUnlessBaseOrLight(rec.mat, r, rec, randomUnit(depth), sqrt);
  }

  /** With one level left, a scattering hit sees only its own emission, gamma-corrected. */
  lemma LastLevelSeesOnlyEmission(cam: Camera, r: Ray, randomUnit: int -> Vec3, sqrt: real -> real, pow: (real, real) -> real)
    requires cam.SceneRatiosDefined()
    requires var h := cam.scene(r, TMin); h.hit && h.rec.mat.Outcome(r, h.rec, randomUnit(1), sqrt).Scattered?
    ensures var rec := cam.scene(r, TMin).rec;
      cam.RayColor(r, 1, randomUnit, sqrt, pow) == GammaCorrected(rec.mat.Emitted(rec.u, rec.v, rec.p), Gamma, pow)
  {
    var rec := cam.scene(r, TMin).rec;
    var o := rec.mat.Outcome(r, rec, randomUnit(1), sqrt);
    var e := rec.mat.Emitted(rec.u, rec.v, rec.p);
    assert cam.RayColor(o.scattered, 0, randomUnit, sqrt, pow) == Black();
    assert Add(e.value, Mul(o.attenuation.value, Zero())) == e.value;
  }

  /**
   * Without lights nothing is lit: if no material the scene returns is a diffuse
   * light and pow(0, 1/gamma) is 0, every ray at every depth is black.
   */
  lemma {:induction false} NoLightsAllBlack(cam: Camera, r: Ray, depth: int, randomUnit: int -> Vec3, sqrt: real -> real, pow: (real, real) -> real)
    requires cam.SceneRatiosDefined()
    requires forall r': Ray :: cam.scene(r', TMin).hit ==> !cam.scene(r', TMin).rec.mat.kind.DiffuseLight?
    requires pow(0.0, 1.0 / Gamma) == 0.0
    ensures cam.RayColor(r, depth, randomUnit, sqrt, pow) == Black()
    decreases depth
  {
    if depth > 0 && cam.scene(r, TMin).hit {
      var rec := cam.scene(r, TMin).rec;
      var o := rec.mat.Outcome(r, rec, randomUnit(depth), sqrt);
      assert rec.mat.Emitted(rec.u, rec.v, rec.p) == Black();
      if o.Scattered? {
        NoLightsAllBlack(cam, o.scattered, depth - 1, randomUnit, sqrt, pow);
        assert Add(Zero(), Mul(o.attenuation.value, Zero())) == Zero();
        GammaKeepsBlack(Gamma, pow);
      }
    }
  }

  /** A ray that escapes the scene at any depth is black: the sky colour never reaches the image. */
  lemma {:induction false} EmptySceneIsBlack(cam: Camera, r: Ray, depth: int, randomUnit: int -> Vec3, sqrt: real -> real, pow: (real, real) -> real)
    requires cam.SceneRatiosDefined()
    requires forall r': Ray :: !cam.scene(r', TMin).hit
    ensures cam.RayColor(r, depth, randomUnit, sqrt, pow) == Black()
  {
    assert !cam.scene(r, TMin).hit;
  }
}
