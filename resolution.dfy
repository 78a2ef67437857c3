/** `valid_resolution`: the width and height a request is rendered at. Missing
    dimensions are filled in, the width and then the height are clamped to the
    maximum keeping the aspect ratio, and both are rounded to the resolution
    granularity. Arithmetic is exact: Python's float division becomes `real`
    division and `int(x)` truncation toward zero. */
module Resolution {
  import opened Outcome
  import Arith

  datatype Size = Size(width: int, height: int)

  /** The three entries of the sample settings the policy reads. */
  datatype Settings = Settings(resolution: Size, maxResolution: Size, granularity: int)

  /** A positive granularity and positive maxima. */
  predicate ValidSettings(s: Settings) {
    s.granularity > 0 && s.maxResolution.width > 0 && s.maxResolution.height > 0
  }

  /** Maxima that are themselves whole multiples of the granularity. */
  predicate AlignedSettings(s: Settings) {
    ValidSettings(s) && s.maxResolution.width % s.granularity == 0
    && s.maxResolution.height % s.granularity == 0
  }

  /** The bot's defaults: DEFAULT_RESOLUTION, MAX_RESOLUTION and a granularity of 64. */
  const BotSettings := Settings(Size(512, 512), Size(768, 768), 64)

  /** A falsy dimension argument: None or 0. */
  predicate Unset(d: Option<int>) {
    d.None? || d.value == 0
  }

  /** Python's `int(x)` on a float: truncation toward zero. */
  function Trunc(x: real): (r: int)
    ensures 0.0 <= x ==> 0 <= r && r as real <= x < r as real + 1.0
    ensures x < 0.0 ==> r <= 0 && r as real - 1.0 < x <= r as real
  {
    if x >= 0.0 then x.Floor else -((-x).Floor)
  }

  /** The first step of `valid_resolution`: a falsy width or height is taken from the init image when
      there is one, and from the default resolution otherwise. */
  function Fill(width: Option<int>, height: Option<int>, image: Option<Size>, s: Settings): (r: Size)
    ensures !Unset(width) ==> r.width == width.value
    ensures !Unset(height) ==> r.height == height.value
    ensures Unset(width) && image.Some? ==> r.width == image.value.width
    ensures Unset(height) && image.Some? ==> r.height == image.value.height
    ensures Unset(width) && image.None? ==> r.width == s.resolution.width
    ensures Unset(height) && image.None? ==> r.height == s.resolution.height
  {
    if image.None? then
      Size(if Unset(width) then s.resolution.width else width.value,
           if Unset(height) then s.resolution.height else height.value)
    else
      Size(if Unset(width) then image.value.width else width.value,
           if Unset(height) then image.value.height else height.value)
  }

  /** The width clamp of `valid_resolution`: a width above the maximum becomes the maximum and the height
      becomes the nearest integer (halves up) to maximum / aspect. */
  function ClampWidth(sz: Size, aspect: real, s: Settings): (r: Size)
    requires ValidSettings(s) && (sz.width > s.maxResolution.width ==> aspect != 0.0)
    ensures r.width <= s.maxResolution.width
    ensures sz.width <= s.maxResolution.width ==> r == sz
    ensures sz.width > s.maxResolution.width && aspect > 0.0 ==>
      var exact := s.maxResolution.width as real / aspect;
      r.height as real - 0.5 <= exact < r.height as real + 0.5
  {
    if sz.width > s.maxResolution.width then
      var w := s.maxResolution.width;
      Size(w, Trunc(w as real / aspect + 0.5))
    else
      sz
  }

  /** The height clamp of `valid_resolution`: a height above the maximum becomes the maximum and the width
      becomes the nearest integer (halves up) to maximum * aspect. */
  function ClampHeight(sz: Size, aspect: real, s: Settings): (r: Size)
    requires ValidSettings(s)
    ensures r.height <= s.maxResolution.height
    ensures sz.height <= s.maxResolution.height ==> r == sz
    ensures sz.height > s.maxResolution.height && aspect >= 0.0 ==>
      var exact := s.maxResolution.height as real * aspect;
      r.width as real - 0.5 <= exact < r.width as real + 0.5
  {
    if sz.height > s.maxResolution.height then
      var h := s.maxResolution.height;
      Size(Trunc(h as real * aspect + 0.5), h)
    else
      sz
  }

  /** Multiplying k <= q + 1/2 < k + 1 through by a positive g. */
  lemma ScaleBounds(k: real, q: real, g: real, x: real)
    requires g > 0.0 && q * g == x && k <= q + 0.5 < k + 1.0
    ensures k * g - 0.5 * g <= x < k * g + 0.5 * g
  {
    var above := k + 0.5 - q;
    assert above * g > 0.0;
    assert above * g == k * g + 0.5 * g - q * g;
    var below := q + 0.5 - k;
    assert below * g >= 0.0;
    assert below * g == q * g + 0.5 * g - k * g;
  }

  lemma RoundedMultiple(x: int, g: int, k: int)
    requires g > 0 && k == Trunc(x as real / g as real + 0.5)
    ensures (k * g) % g == 0
    ensures x >= 0 ==> 2 * (k * g) - g <= 2 * x < 2 * (k * g) + g
    ensures x < 0 ==> k * g <= 0
  {
    var q := x as real / g as real;
    assert q * g as real == x as real;
    Arith.DivModUnique(k * g, g, k, 0);
    if x >= 0 {
      ScaleBounds(k as real, q, g as real, x as real);
      assert (k * g) as real == k as real * g as real;
    } else {
      assert q < 0.0;
      assert k <= 0;
      Arith.MulBounds(k, g);
    }
  }

  /** The rounding step of `valid_resolution`: `int(x / g + 0.5) * g`. For x >= 0 this is the multiple of g
      nearest to x, halves rounded up. */
  function RoundToGranularity(x: int, g: int): (r: int)
    requires g > 0
    ensures r % g == 0
    ensures x >= 0 ==> 2 * r - g <= 2 * x < 2 * r + g
    ensures x < 0 ==> r <= 0
  {
    var k := Trunc(x as real / g as real + 0.5);
    RoundedMultiple(x, g, k);
    k * g
  }

  /** The last step of `valid_resolution`: rounded to the granularity, with one granularity unit as the floor. */
  function Snap(x: int, g: int): (r: int)
    requires g > 0
    ensures r % g == 0 && r >= g
    ensures x * 2 >= g ==> 2 * r - g <= 2 * x < 2 * r + g
    ensures x * 2 < g ==> r == g
  {
    var m := RoundToGranularity(x, g);
    if m >= g then m else g
  }

  datatype ResolutionError = ZeroHeight  // `width / height` with a zero height

  /** `valid_resolution(width, height, init_image)`. */
  function ValidResolution(width: Option<int>, height: Option<int>, image: Option<Size>, s: Settings)
    : (r: Result<Size, ResolutionError>)
    requires ValidSettings(s)
    ensures r.Err? <==> Fill(width, height, image, s).height == 0
    ensures r.Ok? ==> r.value.width >= s.granularity && r.value.height >= s.granularity
    ensures r.Ok? ==> r.value.width % s.granularity == 0 && r.value.height % s.granularity == 0
  {
    var filled := Fill(width, height, image, s);
    if filled.height == 0 then Err(ZeroHeight)
    else
      var aspect := filled.width as real / filled.height as real;
      assert filled.width > s.maxResolution.width ==> aspect != 0.0;
      var clamped := ClampHeight(ClampWidth(filled, aspect, s), aspect, s);
      Ok(Size(Snap(clamped.width, s.granularity), Snap(clamped.height, s.granularity)))
  }

  /** Positive multiples of the granularity pass through the rounding unchanged. */
  lemma SnapKeepsMultiples(k: int, g: int)
    requires g > 0 && k >= 1
    ensures Snap(k * g, g) == k * g
  {
    assert (k * g) as real == k as real * g as real;
    assert (k * g) as real / g as real == k as real;
    assert Trunc(k as real + 0.5) == k;
    Arith.MulBounds(k, g);
  }

  /** Rounding never carries a value past a maximum that is itself a positive
      multiple of the granularity. */
  lemma SnapAtMost(x: int, m: int, g: int)
    requires g > 0 && m > 0 && m % g == 0 && x <= m
    ensures Snap(x, g) <= m
  {
    MultipleWithinHalfStep(x, m, g, Snap(x, g));
  }

  /** A multiple r of g at least g, within half a step above x <= m (or equal
      to g when x is below half a step), is at most the multiple m. */
  lemma MultipleWithinHalfStep(x: int, m: int, g: int, r: int)
    requires g > 0 && m > 0 && m % g == 0 && x <= m
    requires r % g == 0 && r >= g
    requires x * 2 >= g ==> 2 * r - g <= 2 * x
    requires x * 2 < g ==> r == g
    ensures r <= m
  {
    var b := m / g;
    assert m == b * g;
    Arith.MulBounds(b, g);
    if 2 * x >= g {
      var a := r / g;
      assert r == a * g;
      assert (a - b) * g == r - m;
      Arith.MulBounds(a - b, g);
    }
  }

  /** Truncating something below m + 1/2 (m >= 0) gives at most m. */
  lemma TruncBelow(x: real, m: int)
    requires m >= 0 && x < m as real + 0.5
    ensures Trunc(x + 0.5) <= m
  {
  }

  /** The sign of a product with a positive factor is that of the other factor. */
  lemma ProductSign(a: real, b: real)
    ensures b > 0.0 ==> (a > 0.0 <==> a * b > 0.0) && (a < 0.0 <==> a * b < 0.0)
    ensures a * b > 0.0 && a < 0.0 ==> b < 0.0
  {
  }

  /** The height clamp after a width clamp: the height W / aspect rounded to
      h1 exceeded H, so H * aspect stays below W + 1/2. */
  lemma WidthClampedThenHeight(W: int, H: int, aspect: real, h1: int)
    requires W > 0 && H > 0 && aspect != 0.0
    requires h1 == Trunc(W as real / aspect + 0.5) && h1 > H
    ensures Trunc(H as real * aspect + 0.5) <= W
  {
    var t := W as real / aspect;
    assert t * aspect == W as real;
    assert t + 0.5 >= (H + 1) as real;
    ProductSign(aspect, t);
    assert aspect > 0.0;
    var slack := t - 0.5 - H as real;
    assert slack * aspect >= 0.0;
    assert slack * aspect == W as real - 0.5 * aspect - H as real * aspect;
    TruncBelow(H as real * aspect, W);
  }

  /** The height clamp alone: the image was h high with h > H and w <= W wide,
      so H * aspect is below w. */
  lemma HeightClampedOnly(w: int, h: int, W: int, H: int, aspect: real)
    requires W > 0 && H > 0 && h > H && w <= W && aspect * h as real == w as real
    ensures Trunc(H as real * aspect + 0.5) <= W
  {
    var hr := h as real;
    if w > 0 {
      ProductSign(aspect, hr);
      assert aspect > 0.0;
      var gap := hr - H as real;
      assert gap * aspect > 0.0;
      assert gap * aspect == w as real - H as real * aspect;
    } else {
      ProductSign(aspect, hr);
      assert aspect <= 0.0;
      assert H as real * aspect <= 0.0;
    }
    TruncBelow(H as real * aspect, W);
  }

  /** After both clamps the width is within the maximum: the height clamp only
      ever narrows an image that the width clamp has already brought in range. */
  lemma ClampsKeepWidth(filled: Size, aspect: real, s: Settings)
    requires ValidSettings(s) && filled.height != 0
    requires aspect == filled.width as real / filled.height as real
    ensures filled.width > s.maxResolution.width ==> aspect != 0.0
    ensures ClampHeight(ClampWidth(filled, aspect, s), aspect, s).width <= s.maxResolution.width
  {
    AspectOfSize(filled.width, filled.height, aspect);
    if filled.width > s.maxResolution.width {
      WideClamps(filled, aspect, s);
    } else {
      NarrowClamps(filled, aspect, s);
    }
  }

  lemma WideClamps(filled: Size, aspect: real, s: Settings)
    requires ValidSettings(s) && filled.width > s.maxResolution.width && aspect != 0.0
    ensures ClampHeight(ClampWidth(filled, aspect, s), aspect, s).width <= s.maxResolution.width
  {
    var W, H := s.maxResolution.width, s.maxResolution.height;
    var c1 := ClampWidth(filled, aspect, s);
    assert c1.height == Trunc(W as real / aspect + 0.5);
    if c1.height > H {
      WidthClampedThenHeight(W, H, aspect, c1.height);
    }
  }

  lemma NarrowClamps(filled: Size, aspect: real, s: Settings)
    requires ValidSettings(s) && filled.width <= s.maxResolution.width
    requires aspect * filled.height as real == filled.width as real
    ensures ClampHeight(ClampWidth(filled, aspect, s), aspect, s).width <= s.maxResolution.width
  {
    var W, H := s.maxResolution.width, s.maxResolution.height;
    assert ClampWidth(filled, aspect, s) == filled;
    if filled.height > H {
      HeightClampedOnly(filled.width, filled.height, W, H, aspect);
    }
  }

  lemma AspectOfSize(w: int, h: int, aspect: real)
    requires h != 0 && aspect == w as real / h as real
    ensures aspect * h as real == w as real
    ensures w != 0 ==> aspect != 0.0
  {
  }

  /** With maxima that are multiples of the granularity, the result never
      exceeds the maximum in either dimension. */
  lemma ValidResolutionWithinMaximum(width: Option<int>, height: Option<int>, image: Option<Size>,
                                     s: Settings)
    requires AlignedSettings(s)
    ensures var r := ValidResolution(width, height, image, s);
      r.Ok? ==> r.value.width <= s.maxResolution.width && r.value.height <= s.maxResolution.height
  {
    var filled := Fill(width, height, image, s);
    if filled.height != 0 {
      var aspect := filled.width as real / filled.height as real;
      ClampsKeepWidth(filled, aspect, s);
      var clamped := ClampHeight(ClampWidth(filled, aspect, s), aspect, s);
      SnapAtMost(clamped.width, s.maxResolution.width, s.granularity);
      SnapAtMost(clamped.height, s.maxResolution.height, s.granularity);
    }
  }

  /** A request that is already a positive multiple of the granularity and
      within the maximum comes back unchanged. */
  lemma ValidResolutionKeepsValid(w: int, h: int, image: Option<Size>, s: Settings)
    requires ValidSettings(s)
    requires 0 < w <= s.maxResolution.width && 0 < h <= s.maxResolution.height
    requires w % s.granularity == 0 && h % s.granularity == 0
    ensures ValidResolution(Some(w), Some(h), image, s) == Ok(Size(w, h))
  {
    var g := s.granularity;
    var filled := Fill(Some(w), Some(h), image, s);
    assert filled == Size(w, h);
    var aspect := w as real / h as real;
    assert ClampWidth(filled, aspect, s) == filled;
    assert ClampHeight(filled, aspect, s) == filled;
    KeptMultiple(w, g);
    KeptMultiple(h, g);
  }

  lemma KeptMultiple(x: int, g: int)
    requires g > 0 && x > 0 && x % g == 0
    ensures Snap(x, g) == x
  {
    var k := x / g;
    assert x == k * g;
    Arith.MulBounds(k, g);
    SnapKeepsMultiples(k, g);
  }

  /** Dimensions that are given explicitly win over the init image. */
  lemma GivenDimensionsIgnoreImage(w: int, h: int, image: Option<Size>, s: Settings)
    requires ValidSettings(s) && w != 0 && h != 0
    ensures ValidResolution(Some(w), Some(h), image, s) == ValidResolution(Some(w), Some(h), None, s)
  {
  }

  /** Missing dimensions are those of the init image, when there is one. */
  lemma MissingDimensionsFromImage(image: Size, s: Settings)
    requires ValidSettings(s) && image.width != 0 && image.height != 0
    ensures ValidResolution(None, None, Some(image), s)
         == ValidResolution(Some(image.width), Some(image.height), None, s)
  {
  }

  /** A wide request: 2000 x 1000 under a 768 x 768 maximum becomes 768 x 384. */
  lemma WideExample()
    ensures ValidResolution(Some(2000), Some(1000), None, BotSettings) == Ok(Size(768, 384))
  {
    var aspect := 2000 as real / 1000 as real;
    assert aspect == 2.0;
    assert Trunc(768 as real / aspect + 0.5) == 384;
    assert Trunc(768 as real / 64 as real + 0.5) == 12;
    assert Trunc(384 as real / 64 as real + 0.5) == 6;
  }

  /** A tall request: 1000 x 2000 goes through both clamps, width first
      (768 x 1536), then height, and becomes 384 x 768. */
  lemma TallExample()
    ensures ValidResolution(Some(1000), Some(2000), None, BotSettings) == Ok(Size(384, 768))
  {
    var aspect := 1000 as real / 2000 as real;
    assert aspect == 0.5;
    assert Trunc(768 as real * aspect + 0.5) == 384;
    assert Trunc(768 as real / 64 as real + 0.5) == 12;
    assert Trunc(384 as real / 64 as real + 0.5) == 6;
  }

  /** Nothing given and no init image: the default resolution. */
  lemma DefaultExample()
    ensures ValidResolution(None, Some(0), None, BotSettings) == Ok(Size(512, 512))
  {
    assert Trunc(512 as real / 64 as real + 0.5) == 8;
  }

  /** A maximum that is not a multiple of the granularity can be overshot by
      the final rounding: 100 x 100 under a 100 x 100 maximum becomes 128 x 128. */
  lemma UnalignedMaximumExample()
    ensures ValidResolution(Some(100), Some(100), None, Settings(Size(64, 64), Size(100, 100), 64))
         == Ok(Size(128, 128))
  {
    assert Trunc(100 as real / 64 as real + 0.5) == 2;
  }
}
