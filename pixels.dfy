/** Per-pixel helpers of the in/out-painting code: `normalize_image`, the
    grey/RGB conversions and the final composite and clip of
    `get_matched_noise`. Array values are exact reals, and the spatial axes are
    flattened into one sequence because every operation here works pixel by
    pixel. */
module Pixels {
  import opened Outcome

  function Min(s: seq<real>): (m: real)
    requires |s| > 0
    ensures m in s && forall i :: 0 <= i < |s| ==> m <= s[i]
  {
    if |s| == 1 then s[0]
    else
      var rest := Min(s[1..]);
      assert forall i :: 1 <= i < |s| ==> s[i] == s[1..][i - 1];
      if s[0] <= rest then s[0] else rest
  }

  function Max(s: seq<real>): (m: real)
    requires |s| > 0
    ensures m in s && forall i :: 0 <= i < |s| ==> s[i] <= m
  {
    if |s| == 1 then s[0]
    else
      var rest := Max(s[1..]);
      assert forall i :: 1 <= i < |s| ==> s[i] == s[1..][i - 1];
      if s[0] >= rest then s[0] else rest
  }

  /** `np.min` of an empty array raises; a constant array fails the assertion
      that the shifted maximum is positive. */
  datatype NormalizeError = EmptyImage | ConstantImage

  /** `normalize_image(data)`: shift so the minimum is 0, then scale so the
      maximum is 1. */
  function Normalize(data: seq<real>): (r: Result<seq<real>, NormalizeError>)
    ensures r == Err(EmptyImage) <==> |data| == 0
    ensures r == Err(ConstantImage) <==> |data| > 0 && Max(data) == Min(data)
    ensures r.Ok? ==> |r.value| == |data|
    ensures r.Ok? ==> forall i :: 0 <= i < |data| ==> 0.0 <= r.value[i] <= 1.0
    ensures r.Ok? ==> 0.0 in r.value && 1.0 in r.value
    ensures r.Ok? ==> forall i, j :: 0 <= i < |data| && 0 <= j < |data| ==>
      (data[i] <= data[j] <==> r.value[i] <= r.value[j])
    ensures r.Ok? ==> |data| > 0 && ScaledBack(r.value, Min(data), Max(data), data)
  {
    if |data| == 0 then Err(EmptyImage)
    else
      var lo := Min(data);
      var span := Max(data) - lo;
      if span <= 0.0 then Err(ConstantImage)
      else Ok(Rescale(data, lo, Max(data)))
  }

  /** Every value of `out`, scaled by `hi - lo` and shifted by `lo`, gives
      back the value of `data` at the same index. */
  predicate ScaledBack(out: seq<real>, lo: real, hi: real, data: seq<real>)
  {
    |out| == |data| && forall i :: 0 <= i < |data| ==> lo + out[i] * (hi - lo) == data[i]
  }

  /** Shift by `lo` and divide by `hi - lo`, for the minimum and maximum of
      a non-constant array. */
  function Rescale(data: seq<real>, lo: real, hi: real): (out: seq<real>)
    requires lo in data && hi in data && lo < hi
    requires forall i :: 0 <= i < |data| ==> lo <= data[i] <= hi
    ensures |out| == |data|
    ensures forall i :: 0 <= i < |data| ==> 0.0 <= out[i] <= 1.0
    ensures 0.0 in out && 1.0 in out
    ensures forall i, j :: 0 <= i < |data| && 0 <= j < |data| ==>
      (data[i] <= data[j] <==> out[i] <= out[j])
    ensures ScaledBack(out, lo, hi, data)
  {
    var out := seq(|data|, i requires 0 <= i < |data| => (data[i] - lo) / (hi - lo));
    NormalizedInRange(data, lo, hi, out);
    NormalizedInverse(data, lo, hi, out);
    out
  }

  lemma NormalizedInRange(data: seq<real>, lo: real, hi: real, out: seq<real>)
    requires lo in data && hi in data && lo < hi
    requires forall i :: 0 <= i < |data| ==> lo <= data[i] <= hi
    requires |out| == |data| && forall i :: 0 <= i < |data| ==> out[i] == (data[i] - lo) / (hi - lo)
    ensures forall i :: 0 <= i < |data| ==> 0.0 <= out[i] <= 1.0
    ensures 0.0 in out && 1.0 in out
    ensures forall i, j :: 0 <= i < |data| && 0 <= j < |data| ==>
      (data[i] <= data[j] <==> out[i] <= out[j])
  {
    var span := hi - lo;
    var iMin :| 0 <= iMin < |data| && data[iMin] == lo;
    var iMax :| 0 <= iMax < |data| && data[iMax] == hi;
    FractionEnds(span);
    assert out[iMin] == 0.0 && out[iMax] == 1.0;
    assert out[iMin] in out && out[iMax] in out;
    forall i | 0 <= i < |data|
      ensures 0.0 <= out[i] <= 1.0
    {
      FractionInUnitRange(data[i] - lo, span);
    }
    forall i, j | 0 <= i < |data| && 0 <= j < |data|
      ensures data[i] <= data[j] <==> out[i] <= out[j]
    {
      DivideMonotone(data[i] - lo, data[j] - lo, span);
    }
  }

  /** Each rescaled value, scaled back by the range and shifted back by the
      minimum, is its input value. */
  lemma NormalizedInverse(data: seq<real>, lo: real, hi: real, out: seq<real>)
    requires lo < hi
    requires |out| == |data| && forall i :: 0 <= i < |data| ==> out[i] == (data[i] - lo) / (hi - lo)
    ensures ScaledBack(out, lo, hi, data)
  {
    forall i | 0 <= i < |data|
      ensures lo + out[i] * (hi - lo) == data[i]
    {
      TimesSpan(data[i] - lo, hi - lo);
    }
  }

  lemma TimesSpan(a: real, d: real)
    requires d > 0.0
    ensures (a / d) * d == a
  {
  }


  lemma FractionEnds(d: real)
    requires d > 0.0
    ensures 0.0 / d == 0.0 && d / d == 1.0
  {
  }

  lemma FractionInUnitRange(a: real, d: real)
    requires 0.0 <= a <= d && d > 0.0
    ensures 0.0 <= a / d <= 1.0
  {
    DivideMonotone(0.0, a, d);
    DivideMonotone(a, d, d);
  }

  lemma DivideMonotone(a: real, b: real, d: real)
    requires d > 0.0
    ensures a <= b <==> a / d <= b / d
  {
    assert (b / d - a / d) * d == b - a;
  }

  /** Values already spread over exactly [0, 1] are their own normalisation,
      so normalising twice is normalising once. */
  lemma NormalizeIdempotent(data: seq<real>)
    requires |data| > 0 && Min(data) < Max(data)
    ensures Normalize(data).Ok? && Normalize(Normalize(data).value) == Normalize(data)
  {
    var out := Normalize(data).value;
    UnitSpreadIsNormal(out);
  }

  /** An array with values in [0, 1] that contains both 0 and 1 is its own
      normalisation. */
  lemma UnitSpreadIsNormal(out: seq<real>)
    requires forall i :: 0 <= i < |out| ==> 0.0 <= out[i] <= 1.0
    requires 0.0 in out && 1.0 in out
    ensures Normalize(out) == Ok(out)
  {
    var lo, hi := Min(out), Max(out);
    assert lo == 0.0 by {
      var k :| 0 <= k < |out| && out[k] == 0.0;
      assert lo <= out[k];
    }
    assert hi == 1.0 by {
      var k :| 0 <= k < |out| && out[k] == 1.0;
      assert out[k] <= hi;
    }
    assert Normalize(out).value == out;
  }

  /** An image array: two-dimensional (one value per pixel) or
      three-dimensional (a sequence of channel values per pixel). */
  datatype Raster = Grey(values: seq<real>) | Colour(pixels: seq<seq<real>>)

  predicate InUnitRange(s: seq<real>) {
    forall i :: 0 <= i < |s| ==> 0.0 <= s[i] <= 1.0
  }

  function Sum(s: seq<real>): (t: real)
    ensures InUnitRange(s) ==> 0.0 <= t <= |s| as real
  {
    if s == [] then 0.0 else s[0] + Sum(s[1..])
  }

  /** `np_img_rgb_to_grey`: a two-dimensional array is returned as it is; a
      three-dimensional one becomes the sum of its channels divided by three. */
  function RgbToGrey(img: Raster): (r: Raster)
    ensures r.Grey?
    ensures img.Grey? ==> r == img
    ensures img.Colour? ==> |r.values| == |img.pixels|
    ensures img.Colour? ==>
      forall i :: 0 <= i < |img.pixels| && |img.pixels[i]| == 3 ==>
        r.values[i] == (img.pixels[i][0] + img.pixels[i][1] + img.pixels[i][2]) / 3.0
    ensures img.Colour? ==>
      forall i :: 0 <= i < |img.pixels| && |img.pixels[i]| == 3 ==>
        var c, v := img.pixels[i], r.values[i];
        && (c[0] <= v || c[1] <= v || c[2] <= v)
        && (v <= c[0] || v <= c[1] || v <= c[2])
    ensures img.Colour? ==>
      forall i :: 0 <= i < |img.pixels| && |img.pixels[i]| == 3 && InUnitRange(img.pixels[i])
        ==> 0.0 <= r.values[i] <= 1.0
  {
    match img
    case Grey(_) => img
    case Colour(p) =>
      SumsOfThree(p);
      Grey(seq(|p|, i requires 0 <= i < |p| => Sum(p[i]) / 3.0))
  }

  /** The sum of a three-channel pixel is the sum of its three channels. */
  lemma SumsOfThree(p: seq<seq<real>>)
    ensures forall i :: 0 <= i < |p| && |p[i]| == 3 ==> Sum(p[i]) == p[i][0] + p[i][1] + p[i][2]
  {
    forall i | 0 <= i < |p| && |p[i]| == 3
      ensures Sum(p[i]) == p[i][0] + p[i][1] + p[i][2]
    {
      var s := p[i];
      assert Sum(s[1..][1..]) == s[2];
      assert Sum(s[1..]) == s[1] + s[2];
    }
  }

  /** `np_img_grey_to_rgb`: a three-dimensional array is returned as it is; a
      two-dimensional one has its value repeated in three channels. */
  function GreyToRgb(img: Raster): (r: Raster)
    ensures r.Colour?
    ensures img.Colour? ==> r == img
    ensures img.Grey? ==> |r.pixels| == |img.values|
    ensures img.Grey? ==> forall i :: 0 <= i < |img.values| ==> r.pixels[i] == [img.values[i], img.values[i], img.values[i]]
  {
    match img
    case Colour(_) => img
    case Grey(v) => Colour(seq(|v|, i requires 0 <= i < |v| => [v[i], v[i], v[i]]))
  }

  /** Expanding a grey image to RGB and converting back gives it back. */
  lemma GreyRoundTrip(v: seq<real>)
    ensures RgbToGrey(GreyToRgb(Grey(v))) == Grey(v)
  {
    var back := RgbToGrey(GreyToRgb(Grey(v)));
    forall i | 0 <= i < |v|
      ensures back.values[i] == v[i]
    {
      ThreeEqual(v[i]);
    }
  }

  lemma ThreeEqual(x: real)
    ensures Sum([x, x, x]) / 3.0 == x
  {
    assert [x, x, x][1..] == [x, x];
    assert [x, x][1..] == [x];
    assert [x][1..] == [];
    assert Sum([x]) == x;
    assert Sum([x, x]) == x + x;
    assert Sum([x, x, x]) == x + x + x;
  }

  /** An RGB image whose three channels agree survives the trip through grey. */
  lemma ColourRoundTrip(p: seq<seq<real>>)
    requires forall i :: 0 <= i < |p| ==> |p[i]| == 3 && p[i][0] == p[i][1] == p[i][2]
    ensures GreyToRgb(RgbToGrey(Colour(p))) == Colour(p)
  {
    var back := GreyToRgb(RgbToGrey(Colour(p)));
    forall i | 0 <= i < |p|
      ensures back.pixels[i] == p[i]
    {
      ThreeEqual(p[i][0]);
      assert p[i] == [p[i][0], p[i][0], p[i][0]];
    }
  }

  /** `np.clip(x, 0., 1.)` on one value. */
  function Clip(x: real): (r: real)
    ensures 0.0 <= r <= 1.0
    ensures 0.0 <= x <= 1.0 ==> r == x
    ensures x < 0.0 ==> r == 0.0
    ensures x > 1.0 ==> r == 1.0
  {
    if x < 0.0 then 0.0 else if x > 1.0 then 1.0 else x
  }

  /** One pixel of the final composite: the init image weighted by 1 - m plus
      the shaped noise weighted by the blend mask m, clipped to [0, 1]. */
  function Blend(init: real, mask: real, noise: real): (r: real)
    ensures 0.0 <= r <= 1.0
    ensures mask == 0.0 ==> r == Clip(init)
    ensures mask == 1.0 ==> r == Clip(noise)
  {
    Clip(init * (1.0 - mask) + noise * mask)
  }

  /** With the init pixel and the noise in range and the mask in [0, 1], the
      clip does nothing and the pixel lies between the init pixel and the
      noise. */
  lemma BlendBetween(init: real, mask: real, noise: real)
    requires 0.0 <= init <= 1.0 && 0.0 <= noise <= 1.0 && 0.0 <= mask <= 1.0
    ensures Blend(init, mask, noise) == init * (1.0 - mask) + noise * mask
    ensures init <= noise ==> init <= Blend(init, mask, noise) <= noise
    ensures noise <= init ==> noise <= Blend(init, mask, noise) <= init
  {
    var x := init * (1.0 - mask) + noise * mask;
    assert x - init == (noise - init) * mask;
    assert noise - x == (noise - init) * (1.0 - mask);
    if init <= noise {
      NonnegativeProduct(noise - init, mask);
      NonnegativeProduct(noise - init, 1.0 - mask);
    } else {
      NonnegativeProduct(init - noise, mask);
      NonnegativeProduct(init - noise, 1.0 - mask);
    }
  }

  lemma NonnegativeProduct(a: real, b: real)
    requires a >= 0.0 && b >= 0.0
    ensures a * b >= 0.0
  {
  }

  /** The final composite and clip of `get_matched_noise`, over whole arrays
      of one shape. */
  function Composite(init: seq<real>, mask: seq<real>, noise: seq<real>): (r: seq<real>)
    requires |init| == |mask| == |noise|
    ensures |r| == |init|
    ensures forall i :: 0 <= i < |r| ==> 0.0 <= r[i] <= 1.0
    ensures forall i :: 0 <= i < |r| && mask[i] == 0.0 ==> r[i] == Clip(init[i])
    ensures forall i :: 0 <= i < |r| && mask[i] == 1.0 ==> r[i] == Clip(noise[i])
    ensures forall i :: 0 <= i < |r| ==> r[i] == Blend(init[i], mask[i], noise[i])
  {
    seq(|init|, i requires 0 <= i < |init| => Blend(init[i], mask[i], noise[i]))
  }

  /** Where the mask is zero everywhere, an in-range init image comes through
      unchanged. */
  lemma CompositeKeepsUnmasked(init: seq<real>, noise: seq<real>)
    requires |init| == |noise|
    requires forall i :: 0 <= i < |init| ==> 0.0 <= init[i] <= 1.0
    ensures Composite(init, seq(|init|, i => 0.0), noise) == init
  {
  }
}
