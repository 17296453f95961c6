// texture.h: what colour a surface has at texture coordinates (u, v) and
// point p. The four kinds of texture are one datatype; `value` is a function
// over it. The image decoder behind image_texture is an oracle that maps a
// pixel position to its three bytes, and a noise texture's turbulence is
// the function of its Perlin generator (see SampleNoiseTexture).

module Textures {
  import opened Util
  import opened Vectors
  import opened Colors
  import opened PerlinNoise

  /** An unsigned char. */
  newtype Byte = x: int | 0 <= x < 256

  /** The three bytes rtw_image::pixel_data returns. */
  datatype Pixel = Pixel(r: Byte, g: Byte, b: Byte)

  /** rtw_image as far as image_texture sees it: its size and its pixel lookup. */
  datatype Image = Image(width: int, height: int, pixel: (int, int) -> Pixel)

  datatype Texture =
    | SolidColor(albedo: Color)
      /** `turbulence` is the generator's turbulance(p, 7); `scale` is stored but unused. */
    | NoiseTexture(scale: real, turbulence: Vec3 -> real)
    | CheckerTexture(invScale: real, even: Texture, odd: Texture)
    | ImageTexture(image: Image)

  /** checker_texture(scale, even, odd) keeps 1 / scale. */
  function Checker(scale: real, even: Texture, odd: Texture): (t: Texture)
    requires scale != 0.0
    ensures t.CheckerTexture? && t.invScale * scale == 1.0
  {
    CheckerTexture(1.0 / scale, even, odd)
  }

  /** The grey colour (g, g, g) noise_texture produces. */
  function Grey(g: real): (c: Color)
    ensures c.value.x == g && c.value.y == g && c.value.z == g
  {
    Color(Scale(Vec3(1.0, 1.0, 1.0), g))
  }

  /**
   * checker_texture::value's test: the truncating remainder of the sum of the
   * three cell indices is zero exactly when the sum is even, negative sums included.
   */
  function CheckerIsEven(invScale: real, p: Vec3): (even: bool)
    ensures even <==> CellSum(invScale, p) % 2 == 0
  {
    EvenRemainder(CellSum(invScale, p));
    CRem(CellSum(invScale, p), 2) == 0
  }

  /** The cell index int(floor(x / scale)) along one axis. */
  function Cell(invScale: real, x: real): int
  {
    (invScale * x).Floor
  }

  /** The sum of the three cell indices along x, y and z. */
  function CellSum(invScale: real, p: Vec3): int
  {
    Cell(invScale, p.x) + Cell(invScale, p.y) + Cell(invScale, p.z)
  }

  /** C++ `s % 2 == 0` holds exactly for the even s, negative ones included. */
  lemma EvenRemainder(s: int)
    ensures CRem(s, 2) == 0 <==> s % 2 == 0
  {
  }

  /** int(u * n) for a clamped coordinate u: an index from 0 up to n itself. */
  function TexelIndex(s: real, n: int): (i: int)
    requires 0.0 <= s <= 1.0
    ensures n >= 0 ==> 0 <= i <= n
    ensures n >= 0 && s == 1.0 ==> i == n
    ensures s == 0.0 ==> i == 0
  {
    if n >= 0 then MulUnitBelow(s, n as real); Trunc(s * n as real)
    else Trunc(s * n as real)
  }

  /** 0 <= s n <= n for s in [0, 1] and n >= 0. */
  lemma MulUnitBelow(s: real, n: real)
    requires 0.0 <= s <= 1.0 && 0.0 <= n
    ensures 0.0 <= s * n <= n
  {
    assert (1.0 - s) * n >= 0.0;
  }

  /** image_texture::value's pixel position: u clamped, v clamped and flipped. */
  function ImageIndices(img: Image, u: real, v: real): (ij: (int, int))
    ensures img.width >= 0 ==> 0 <= ij.0 <= img.width
    ensures img.height >= 0 ==> 0 <= ij.1 <= img.height
  {
    (TexelIndex(Clamp(0.0, 1.0, u), img.width), TexelIndex(1.0 - Clamp(0.0, 1.0, v), img.height))
  }

  /** The colour of a pixel: each byte times 1/255. */
  function PixelColor(px: Pixel): (c: Color)
    ensures 0.0 <= c.value.x <= 1.0 && 0.0 <= c.value.y <= 1.0 && 0.0 <= c.value.z <= 1.0
    ensures px.r == 255 ==> c.value.x == 1.0
    ensures px.r == 0 ==> c.value.x == 0.0
  {
    var colorScale := 1.0 / 255.0;
    Rgb(colorScale * px.r as real, colorScale * px.g as real, colorScale * px.b as real)
  }

  /**
   * image_texture::value: solid cyan when the image has no rows, otherwise the
   * pixel at the clamped, flipped coordinates; either way every component is in [0, 1].
   */
  function ImageValue(img: Image, u: real, v: real): (c: Color)
    ensures img.height <= 0 ==> c == Rgb(0.0, 1.0, 1.0)
    ensures img.height > 0 ==> c == PixelColor(img.pixel(ImageIndices(img, u, v).0, ImageIndices(img, u, v).1))
    ensures 0.0 <= c.value.x <= 1.0 && 0.0 <= c.value.y <= 1.0 && 0.0 <= c.value.z <= 1.0
  {
    if img.height <= 0 then Rgb(0.0, 1.0, 1.0)
    else
      var ij := ImageIndices(img, u, v);
      PixelColor(img.pixel(ij.0, ij.1))
  }

  /** texture::value, dispatched on the kind of texture. */
  function Value(t: Texture, u: real, v: real, p: Vec3): Color
  {
    match t
    case SolidColor(albedo) => albedo
    case NoiseTexture(_, turbulence) => Grey(turbulence(p))
    case CheckerTexture(invScale, even, odd) =>
      if CheckerIsEven(invScale, p) then Value(even, u, v, p) else Value(odd, u, v, p)
    case ImageTexture(img) => ImageValue(img, u, v)
  }

  // ---------------------------------------------------------------------------
  // Properties of the textures.

  /** A solid colour does not depend on where it is sampled. */
  lemma SolidIgnoresCoordinates(albedo: Color, u: real, v: real, p: Vec3, u': real, v': real, p': Vec3)
    ensures Value(SolidColor(albedo), u, v, p) == Value(SolidColor(albedo), u', v', p') == albedo
  {
  }

  /** A checker picks its even texture exactly when the cell-index sum is even. */
  lemma {:induction false} CheckerChoosesByParity(invScale: real, even: Texture, odd: Texture, u: real, v: real, p: Vec3)
    ensures CellSum(invScale, p) % 2 == 0 ==> Value(CheckerTexture(invScale, even, odd), u, v, p) == Value(even, u, v, p)
    ensures CellSum(invScale, p) % 2 != 0 ==> Value(CheckerTexture(invScale, even, odd), u, v, p) == Value(odd, u, v, p)
  {
    var isEven := CheckerIsEven(invScale, p);
    assert Value(CheckerTexture(invScale, even, odd), u, v, p) == if isEven then Value(even, u, v, p) else Value(odd, u, v, p);
  }

  /** One more unit under the floor. */
  lemma FloorPlusOne(a: real)
    ensures (a + 1.0).Floor == a.Floor + 1
  {
  }

  /** x (s + scale) is x s + 1 when x scale is 1. */
  lemma ShiftByScale(invScale: real, scale: real, s: real, shifted: real)
    requires invScale * scale == 1.0 && shifted == s + scale
    ensures invScale * shifted == invScale * s + 1.0
  {
  }

  /** Moving one scale along an axis moves one cell. */
  lemma CellShift(invScale: real, scale: real, x: real, x': real)
    requires invScale * scale == 1.0 && x' == x + scale
    ensures Cell(invScale, x') == Cell(invScale, x) + 1
  {
    ShiftByScale(invScale, scale, x, x');
    FloorPlusOne(invScale * x);
  }

  /**
   * Moving one checker cell along x (by the scale the checker was built
   * with, see Checker) flips the square's colour.
   */
  lemma CheckerShiftFlips(invScale: real, scale: real, p: Vec3)
    requires invScale * scale == 1.0
    ensures CheckerIsEven(invScale, Vec3(p.x + scale, p.y, p.z)) == !CheckerIsEven(invScale, p)
  {
    var q := Vec3(p.x + scale, p.y, p.z);
    CellShift(invScale, scale, p.x, q.x);
    assert CellSum(invScale, q) == CellSum(invScale, p) + 1;
  }

  /** Moving two cells along x selects the same sub-texture again: the pattern has period twice the scale. */
  lemma CheckerShiftTwiceKeeps(invScale: real, scale: real, p: Vec3)
    requires invScale * scale == 1.0
    ensures CheckerIsEven(invScale, Vec3(p.x + 2.0 * scale, p.y, p.z)) == CheckerIsEven(invScale, p)
  {
    var q := Vec3(p.x + scale, p.y, p.z);
    CheckerShiftFlips(invScale, scale, p);
    CheckerShiftFlips(invScale, scale, q);
    assert Vec3(q.x + scale, q.y, q.z) == Vec3(p.x + 2.0 * scale, p.y, p.z);
  }

  /** A checker of one texture with itself is that texture. */
  lemma {:induction false} CheckerOfSameIsSame(invScale: real, t: Texture, u: real, v: real, p: Vec3)
    ensures Value(CheckerTexture(invScale, t, t), u, v, p) == Value(t, u, v, p)
  {
  }

  /** The image texture's corners: u = 1 reads column width (one past the last), v = 0 reads row height. */
  lemma ImageEdgeIndices(img: Image, u: real, v: real)
    requires img.width >= 0 && img.height >= 0
    requires u >= 1.0 && v <= 0.0
    ensures ImageIndices(img, u, v) == (img.width, img.height)
  {
  }

  /** u = 0 and v = 1 read pixel (0, 0), the first byte triple. */
  lemma ImageOriginIndices(img: Image, u: real, v: real)
    requires u <= 0.0 && v >= 1.0
    ensures ImageIndices(img, u, v) == (0, 0)
  {
  }

  /** A noise texture is grey: the three components agree and equal the turbulence at p. */
  lemma NoiseIsGrey(scale: real, turbulence: Vec3 -> real, u: real, v: real, p: Vec3)
    ensures var c := Value(NoiseTexture(scale, turbulence), u, v, p);
      c.value.x == c.value.y == c.value.z == turbulence(p)
  {
  }

  /**
   * noise_texture::value with its own generator: grey at the generator's
   * seven-octave turbulence at p, which is |noise(p)| (1 - 2^-7) and never negative.
   */
  method SampleNoiseTexture(noise: Perlin, p: Vec3) returns (c: Color)
    requires noise.Valid()
    ensures c == Grey(Abs(OctaveSum(noise.NoiseAt(p), 7)))
    ensures c.value.x == Abs(noise.NoiseAt(p)) * (1.0 - HalfPow(7)) && c.value.x >= 0.0
  {
    var t := noise.Turbulence(p, 7);
    c := Grey(t);
    TurbulenceClosedForm(noise.NoiseAt(p), 7);
  }
}
