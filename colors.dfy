// color.h: an RGB colour wrapping a vec3, its gamma correction, the HSV
// conversion and the byte quantisation that `write_to_file` performs before
// printing (the printing itself is not modelled).

module Colors {
  import opened Util
  import opened Vectors

  datatype Color = Color(value: Vec3)

  /** `color(x, y, z)`. */
  function Rgb(x: real, y: real, z: real): Color
  {
    Color(Vec3(x, y, z))
  }

  /** `color()`: the default colour. */
  function Black(): (c: Color)
    ensures c.value.x == 0.0 && c.value.y == 0.0 && c.value.z == 0.0
  {
    Color(Zero())
  }

  /**
   * color::gamma_corrected: every component raised to 1/gamma. `pow` stands for
   * std::pow; the default argument 2.2 is supplied by the caller.
   */
  function GammaCorrected(c: Color, gamma: real, pow: (real, real) -> real): Color
    requires gamma != 0.0
  {
    Rgb(pow(c.value.x, 1.0 / gamma), pow(c.value.y, 1.0 / gamma), pow(c.value.z, 1.0 / gamma))
  }

  /** With gamma 1 and a `pow` that is the identity for exponent 1, gamma correction changes nothing. */
  lemma GammaOneIsIdentity(c: Color, pow: (real, real) -> real)
    requires pow(c.value.x, 1.0) == c.value.x
    requires pow(c.value.y, 1.0) == c.value.y
    requires pow(c.value.z, 1.0) == c.value.z
    ensures GammaCorrected(c, 1.0, pow) == c
  {
  }

  /** Black stays black under gamma correction when pow(0, e) is 0. */
  lemma GammaKeepsBlack(gamma: real, pow: (real, real) -> real)
    requires gamma != 0.0
    requires pow(0.0, 1.0 / gamma) == 0.0
    ensures GammaCorrected(Black(), gamma, pow) == Black()
  {
  }

  // ---------------------------------------------------------------------------
  // color::hsv_to_rgb

  /** The `switch` selector `static_cast<int>(h * 6) % 6`, with C++ truncation and remainder. */
  function HsvSector(h: real): (k: int)
    ensures -5 <= k <= 5
  {
    CRem(Trunc(h * 6.0), 6)
  }

  /** The `switch` of hsv_to_rgb: sector k arranges v and the three ramps p, q, t. */
  function HsvPick(k: int, v: real, p: real, q: real, t: real): Color
  {
    match k
    case 0 => Rgb(v, t, p)
    case 1 => Rgb(q, v, p)
    case 2 => Rgb(p, v, t)
    case 3 => Rgb(p, q, v)
    case 4 => Rgb(t, p, v)
    case 5 => Rgb(v, p, q)
    case _ => Rgb(1.0, 0.0, 1.0)
  }

  /**
   * color::hsv_to_rgb: sectors 0..5 pick a rotation of (v, t, p) / (q, v, p) / ...;
   * a negative remainder falls through to the magenta fallback.
   */
  function HsvToRgb(h: real, s: real, v: real): (c: Color)
    ensures HsvSector(h) < 0 ==> c == Rgb(1.0, 0.0, 1.0)
    ensures 0 <= HsvSector(h) && s == 0.0 ==> c == Rgb(v, v, v)
  {
    var i := Trunc(h * 6.0);
    var f := h * 6.0 - i as real;
    HsvPick(HsvSector(h), v, v * (1.0 - s), v * (1.0 - f * s), v * (1.0 - (1.0 - f) * s))
  }

  /** A hue in [0, 1) selects sector floor(6h), one of 0..5, never the fallback. */
  lemma HsvSectorInRange(h: real)
    requires 0.0 <= h < 1.0
    ensures 0 <= HsvSector(h) <= 5
    ensures HsvSector(h) == Trunc(h * 6.0)
  {
    var i := Trunc(h * 6.0);
    assert 0 <= i < 6;
  }

  /** A hue in (-1, -1/6] truncates to a sector in -5..-1 and gives magenta. */
  lemma HsvNegativeHueIsMagenta(h: real, s: real, v: real)
    requires -1.0 < h && h * 6.0 <= -1.0
    ensures HsvToRgb(h, s, v) == Rgb(1.0, 0.0, 1.0)
  {
    var i := Trunc(h * 6.0);
    assert -6 < i <= -1;
    assert HsvSector(h) == -((-i) % 6);
  }

  /** A hue of exactly -1 truncates to -6, whose remainder is 0: it is red, like hue 0, not magenta. */
  lemma HsvMinusOneWrapsToZero(s: real, v: real)
    ensures HsvToRgb(-1.0, s, v) == HsvToRgb(0.0, s, v)
  {
    assert Trunc(-6.0) == -6;
    assert HsvSector(-1.0) == 0;
    assert Trunc(0.0) == 0;
  }

  lemma MulNonneg(a: real, b: real)
    requires 0.0 <= a && 0.0 <= b
    ensures 0.0 <= a * b
  {
  }

  /** Scaling a non-negative `v` by a factor in [0, 1] keeps it in [0, v]. */
  lemma ScaleByUnit(v: real, w: real)
    requires 0.0 <= v && 0.0 <= w <= 1.0
    ensures 0.0 <= v * w <= v
  {
    MulNonneg(v, w);
    MulNonneg(v, 1.0 - w);
    assert v * (1.0 - w) == v - v * w;
  }

  /** The three ramps of hsv_to_rgb stay in [0, v] when s is in [0, 1] and 0 <= f < 1. */
  lemma HsvRampsInRange(s: real, v: real, f: real, p: real, q: real, t: real)
    requires 0.0 <= s <= 1.0 && 0.0 <= v && 0.0 <= f < 1.0
    requires p == v * (1.0 - s) && q == v * (1.0 - f * s) && t == v * (1.0 - (1.0 - f) * s)
    ensures 0.0 <= p <= v && 0.0 <= q <= v && 0.0 <= t <= v
  {
    ScaleByUnit(v, 1.0 - s);
    ScaleByUnit(s, f);
    assert s * f == f * s;
    ScaleByUnit(v, 1.0 - f * s);
    ScaleByUnit(s, 1.0 - f);
    assert (1.0 - f) * s == s * (1.0 - f);
    ScaleByUnit(v, 1.0 - (1.0 - f) * s);
  }

  /**
   * For h in [0, 1) and s, v in [0, 1] every component of hsv_to_rgb is in
   * [0, v] (so in [0, 1]) and one of them is v itself.
   */
  lemma HsvComponentsInUnit(h: real, s: real, v: real)
    requires 0.0 <= h < 1.0 && 0.0 <= s <= 1.0 && 0.0 <= v <= 1.0
    ensures var c := HsvToRgb(h, s, v).value;
      0.0 <= c.x <= v && 0.0 <= c.y <= v && 0.0 <= c.z <= v &&
      (c.x == v || c.y == v || c.z == v)
  {
    HsvSectorInRange(h);
    var i := Trunc(h * 6.0);
    var f := h * 6.0 - i as real;
    var p, q, t := v * (1.0 - s), v * (1.0 - f * s), v * (1.0 - (1.0 - f) * s);
    HsvRampsInRange(s, v, f, p, q, t);
    assert HsvToRgb(h, s, v) == HsvPick(i, v, p, q, t);
    HsvPickInRange(i, v, p, q, t);
  }

  /** Every sector arranges values from [0, v] and puts v itself in one place. */
  lemma HsvPickInRange(k: int, v: real, p: real, q: real, t: real)
    requires 0 <= k <= 5
    requires 0.0 <= p <= v && 0.0 <= q <= v && 0.0 <= t <= v
    ensures var c := HsvPick(k, v, p, q, t).value;
      0.0 <= c.x <= v && 0.0 <= c.y <= v && 0.0 <= c.z <= v &&
      (c.x == v || c.y == v || c.z == v)
  {
  }

  // ---------------------------------------------------------------------------
  // color::write_to_file, byte computation

  /** The largest intensity write_to_file lets through before scaling by 256. */
  const MaxIntensity: real := 0.999

  /** `static_cast<int>(256 * Util::clamp(0.0, 0.999, c))`. */
  function ChannelByte(c: real): (b: int)
    ensures 0 <= b <= 255
    ensures MaxIntensity <= c ==> b == 255
    ensures c <= 0.0 ==> b == 0
  {
    Trunc(256.0 * Clamp(0.0, MaxIntensity, c))
  }

  /** The three numbers write_to_file prints for a colour. */
  function Bytes(c: Color): (b: (int, int, int))
    ensures 0 <= b.0 <= 255 && 0 <= b.1 <= 255 && 0 <= b.2 <= 255
  {
    (ChannelByte(c.value.x), ChannelByte(c.value.y), ChannelByte(c.value.z))
  }

  /** Every byte value k is reproduced by the intensity k / 256. */
  lemma ChannelByteRoundTrip(k: int)
    requires 0 <= k <= 255
    ensures ChannelByte(k as real / 256.0) == k
  {
    var c := k as real / 256.0;
    assert Clamp(0.0, MaxIntensity, c) == c;
    assert 256.0 * c == k as real;
  }

  /** Quantisation is monotone: a brighter channel never gets a smaller byte. */
  lemma ChannelByteMonotone(c1: real, c2: real)
    requires c1 <= c2
    ensures ChannelByte(c1) <= ChannelByte(c2)
  {
    var a := 256.0 * Clamp(0.0, MaxIntensity, c1);
    var b := 256.0 * Clamp(0.0, MaxIntensity, c2);
    assert 0.0 <= a <= b;
    assert Trunc(a) as real <= a;
    assert a.Floor <= b.Floor;
  }

  /** The default colour prints as 0 0 0. */
  lemma BlackBytes()
    ensures Bytes(Black()) == (0, 0, 0)
  {
  }
}
