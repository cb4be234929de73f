/** The fill-and-crop geometry of the image fitter: scale the picture so it
    covers the target, then cut a centred target-sized box out of it. The
    resampling itself is not modelled; scale and products are exact reals. */
module ImageFit {
  import opened Wrappers
  import opened Resolution

  /** Pixel size of a decoded picture, as Pillow reports it. */
  datatype Picture = Picture(width: nat, height: nat)

  /** The crop rectangle `(left, top, right, bottom)` in scaled pixels. */
  datatype Box = Box(left: int, top: int, right: int, bottom: int)

  datatype Fitting = Fitting(scale: real, scaledWidth: int, scaledHeight: int, box: Box)

  datatype FitOutcome =
    | Unreadable            // opening or converting the file failed: `None`
    | Raised                // a zero dimension makes the scale divide by zero,
                            // or the resize, crop or array conversion raises
    | Fitted(fitting: Fitting)

  /** Python's `int(x)` on a float: truncation toward zero. */
  function Trunc(x: real): (n: int)
    ensures 0.0 <= x ==> n as real <= x < n as real + 1.0
    ensures x < 0.0 ==> n as real - 1.0 < x <= n as real
  {
    if 0.0 <= x then x.Floor else -((-x).Floor)
  }

  /** One dimension multiplied by the scale, truncated to whole pixels. */
  function Scaled(o: nat, s: real): int {
    Trunc(o as real * s)
  }

  /** The "fill" factor: the larger of the two axis ratios. */
  function CoverScale(p: Picture, target: Size): (s: real)
    requires p.width > 0 && p.height > 0
    ensures s >= target.width as real / p.width as real
    ensures s >= target.height as real / p.height as real
    ensures s == target.width as real / p.width as real
         || s == target.height as real / p.height as real
  {
    var sw := target.width as real / p.width as real;
    var sh := target.height as real / p.height as real;
    if sh > sw then sh else sw
  }

  /** Scaled size and crop box for a picture with no zero dimension. */
  function Geometry(p: Picture, target: Size): (f: Fitting)
    requires p.width > 0 && p.height > 0
  {
    var s := CoverScale(p, target);
    var w := Scaled(p.width, s);
    var h := Scaled(p.height, s);
    Fitting(s, w, h, CentredBox(w, h, target))
  }

  /** The target-sized box centred in a `w` by `h` picture; the offsets use
      Python's floor division by two (Dafny's `/` agrees with it for a
      positive divisor). */
  function CentredBox(w: int, h: int, target: Size): Box {
    var left := (w - target.width) / 2;
    var top := (h - target.height) / 2;
    Box(left, top, left + target.width, top + target.height)
  }

  /** The fitter applied to the outcome of opening one image file.
      `resampled` says whether the resize, the crop and the conversion to a
      pixel array succeed; when one of them raises, the exception leaves the
      fitter just as the division by a zero dimension does. */
  function FitImage(decoded: Option<Picture>, target: Size, resampled: bool): FitOutcome {
    match decoded
    case None => Unreadable
    case Some(p) =>
      if p.width == 0 || p.height == 0 then Raised
      else if !resampled then Raised
      else Fitted(Geometry(p, target))
  }

  /** A file that cannot be opened yields `None` and no geometry at all; a
      readable picture gets its geometry exactly when both dimensions are
      positive and resampling succeeds, and raises otherwise. */
  lemma FitOutcomes(decoded: Option<Picture>, target: Size, resampled: bool)
    ensures FitImage(decoded, target, resampled).Unreadable? <==> decoded.None?
    ensures FitImage(decoded, target, resampled).Fitted? <==>
      decoded.Some? && decoded.value.width > 0 && decoded.value.height > 0 && resampled
    ensures FitImage(decoded, target, resampled).Fitted? ==>
      FitImage(decoded, target, resampled).fitting == Geometry(decoded.value, target)
  {
  }

  /** Multiplying by a positive factor keeps an inequality. */
  lemma MulMonotone(k: real, a: real, b: real)
    requires k > 0.0 && a >= b
    ensures k * a >= k * b
  {
  }

  /** The ratio of two positive sizes is positive. */
  lemma RatioPositive(t: int, o: nat)
    requires t > 0 && o > 0
    ensures t as real / o as real > 0.0
  {
  }

  /** A non-negative product is truncated down by less than one pixel. */
  lemma ScaledBounds(o: nat, s: real)
    requires s >= 0.0
    ensures Scaled(o, s) as real <= o as real * s < Scaled(o, s) as real + 1.0
  {
    MulMonotone(o as real + 1.0, s, 0.0);
    assert o as real * s >= 0.0;
  }

  /** Both axes are multiplied by the same positive factor, so the aspect
      ratio is kept up to the truncation: the cross products of the scaled
      and the original sizes differ by less than one original dimension. */
  lemma SameFactorOnBothAxes(p: Picture, target: Size)
    requires p.width > 0 && p.height > 0
    requires target.width > 0 && target.height > 0
    ensures var f := Geometry(p, target);
      && f.scale > 0.0
      && f.scaledWidth == Scaled(p.width, f.scale)
      && f.scaledHeight == Scaled(p.height, f.scale)
      && -(p.height as int) < f.scaledWidth * p.height - f.scaledHeight * p.width < p.width
  {
    RatioPositive(target.width, p.width);
    var f := Geometry(p, target);
    AspectKept(p.width, p.height, f.scale);
  }

  /** Truncating `ow * s` and `oh * s` keeps the ratio `ow : oh` to within
      one original dimension on each side. */
  lemma AspectKept(ow: nat, oh: nat, s: real)
    requires ow > 0 && oh > 0 && s >= 0.0
    ensures -(oh as int) < Scaled(ow, s) * oh - Scaled(oh, s) * ow < ow
  {
    ScaledBounds(ow, s);
    ScaledBounds(oh, s);
    CrossBound(Scaled(ow, s), Scaled(oh, s), ow, oh, s);
    CrossBound(Scaled(oh, s), Scaled(ow, s), oh, ow, s);
  }

  /** If `w <= a * s` and `b * s < h + 1`, then `w * b < h * a + a`. */
  lemma CrossBound(w: int, h: int, a: nat, b: nat, s: real)
    requires a > 0 && b > 0
    requires w as real <= a as real * s
    requires b as real * s < h as real + 1.0
    ensures w * b < h * a + a
  {
    var ar, br := a as real, b as real;
    MulMonotone(br, ar * s, w as real);
    MulStrict(ar, h as real + 1.0, br * s);
    assert br * (ar * s) == ar * (br * s);
    assert (w * b) as real == w as real * br;
    assert (h * a + a) as real == ar * (h as real + 1.0);
  }

  /** Multiplying by a positive factor keeps a strict inequality. */
  lemma MulStrict(k: real, a: real, b: real)
    requires k > 0.0 && a > b
    ensures k * a > k * b
  {
  }

  /** One axis: a factor at least `t / o` scales `o` to at least `t`, and
      the factor `t / o` itself scales it to exactly `t`. */
  lemma AxisCovers(o: nat, t: int, s: real)
    requires o > 0 && t > 0
    requires s >= t as real / o as real
    ensures Scaled(o, s) >= t
    ensures s == t as real / o as real ==> Scaled(o, s) == t
  {
    var q := t as real / o as real;
    assert o as real * q == t as real;
    MulMonotone(o as real, s, q);
  }

  /** With positive target dimensions the scaled picture covers the target on
      both axes, and on the axis whose ratio gave the scale it matches the
      target exactly. */
  lemma {:induction false} ScaledCoversTarget(p: Picture, target: Size)
    requires p.width > 0 && p.height > 0
    requires target.width > 0 && target.height > 0
    ensures var f := Geometry(p, target);
      && f.scaledWidth >= target.width
      && f.scaledHeight >= target.height
      && (f.scale == target.width as real / p.width as real ==> f.scaledWidth == target.width)
      && (f.scale == target.height as real / p.height as real ==> f.scaledHeight == target.height)
      && (f.scaledWidth == target.width || f.scaledHeight == target.height)
  {
    var s := CoverScale(p, target);
    var f := Geometry(p, target);
    assert f.scale == s;
    AxisCovers(p.width, target.width, s);
    AxisCovers(p.height, target.height, s);
  }

  /** The crop box is exactly the target size. */
  lemma CropIsTargetSized(p: Picture, target: Size)
    requires p.width > 0 && p.height > 0
    ensures var b := Geometry(p, target).box;
      b.right - b.left == target.width && b.bottom - b.top == target.height
  {
  }

  /** The crop box lies inside the scaled picture and is centred: the left
      margin is at most the right one, which exceeds it by at most a pixel,
      and likewise top and bottom. At least one pair of margins is zero. */
  lemma {:induction false} CropInsideAndCentred(p: Picture, target: Size)
    requires p.width > 0 && p.height > 0
    requires target.width > 0 && target.height > 0
    ensures var f := Geometry(p, target);
      var b := f.box;
      && 0 <= b.left && 0 <= b.top
      && b.right <= f.scaledWidth && b.bottom <= f.scaledHeight
      && b.left <= f.scaledWidth - b.right <= b.left + 1
      && b.top <= f.scaledHeight - b.bottom <= b.top + 1
      && (b.left == 0 || b.top == 0)
  {
    ScaledCoversTarget(p, target);
  }
}
