/** The per-mode arithmetic of the wallpaper preview: scale factors and the single
    `save/translate/scale/paint_with_alpha/restore` group that the centred, fit, fill and
    stretch modes paint. All ratios are exact reals; `w`, `h` are the viewport size and
    `iw`, `ih` the size of the loaded image in pixels. */
module Geometry {

  /** One painted copy of the image: the origin is moved to (tx, ty), the image is scaled by
      (sx, sy) and painted with opacity `alpha`. Image pixel (u, v) lands at
      (tx + sx * u, ty + sy * v). */
  datatype Instruction = Instruction(tx: real, ty: real, sx: real, sy: real, alpha: real)

  /** The reasons a preview pass raises (and so paints no image). */
  datatype PreviewError =
    | ZeroDivision   // `width / height` with a zero viewport height
    | ZeroRangeStep  // `range(..., 0)` in the tiled branch
    | InvalidMatrix  // `cr.scale` with a factor of 0, which Cairo refuses as a singular matrix

  function Min(a: real, b: real): (m: real)
    ensures m <= a && m <= b && (m == a || m == b)
  {
    if a <= b then a else b
  }

  function Max(a: real, b: real): (m: real)
    ensures m >= a && m >= b && (m == a || m == b)
  {
    if a >= b then a else b
  }

  /** Right edge of the painted image, and bottom edge. */
  function Right(t: Instruction, iw: nat): real { t.tx + iw as real * t.sx }
  function Bottom(t: Instruction, ih: nat): real { t.ty + ih as real * t.sy }

  /** 'scaled': the uniform scale `min(w/iw, h/ih)`. The image fits on both axes and touches
      the viewport on at least one. */
  function FitScale(w: nat, h: nat, iw: nat, ih: nat): (s: real)
    requires iw > 0 && ih > 0
    ensures s >= 0.0
    ensures iw as real * s <= w as real && ih as real * s <= h as real
    ensures iw as real * s == w as real || ih as real * s == h as real
  {
    Min(w as real / iw as real, h as real / ih as real)
  }

  /** 'zoom': the uniform scale `max(w/iw, h/ih)`. The image covers both axes and matches the
      viewport on at least one. */
  function CoverScale(w: nat, h: nat, iw: nat, ih: nat): (s: real)
    requires iw > 0 && ih > 0
    ensures s >= 0.0
    ensures iw as real * s >= w as real && ih as real * s >= h as real
    ensures iw as real * s == w as real || ih as real * s == h as real
  {
    Max(w as real / iw as real, h as real / ih as real)
  }

  /** 'none' and 'centered': `min(1.0, w/iw, h/ih)`, never enlarging. The image fits, and it is
      either at natural size or touches the viewport on one axis. */
  function ClampedScale(w: nat, h: nat, iw: nat, ih: nat): (s: real)
    requires iw > 0 && ih > 0
    ensures 0.0 <= s <= 1.0
    ensures iw as real * s <= w as real && ih as real * s <= h as real
    ensures s == 1.0 || iw as real * s == w as real || ih as real * s == h as real
  {
    Min(Min(1.0, w as real / iw as real), h as real / ih as real)
  }

  /** 'wallpaper': `min(w/iw/2, h/ih/2)`, half the 'scaled' scale. */
  function TileScale(w: nat, h: nat, iw: nat, ih: nat): (s: real)
    requires iw > 0 && ih > 0
    ensures s * 2.0 == FitScale(w, h, iw, ih)
  {
    Min(w as real / iw as real / 2.0, h as real / ih as real / 2.0)
  }

  /** The largest uniform scale at which the image fits is the 'scaled' scale. */
  lemma FitScaleIsLargest(w: nat, h: nat, iw: nat, ih: nat, s: real)
    requires iw > 0 && ih > 0
    requires iw as real * s <= w as real && ih as real * s <= h as real
    ensures s <= FitScale(w, h, iw, ih)
  {
    var fw, fh := w as real / iw as real, h as real / ih as real;
    assert s <= fw by { assert iw as real * s <= iw as real * fw; }
    assert s <= fh by { assert ih as real * s <= ih as real * fh; }
  }

  /** The smallest uniform scale at which the image covers the viewport is the 'zoom' scale. */
  lemma CoverScaleIsSmallest(w: nat, h: nat, iw: nat, ih: nat, s: real)
    requires iw > 0 && ih > 0
    requires iw as real * s >= w as real && ih as real * s >= h as real
    ensures CoverScale(w, h, iw, ih) <= s
  {
    var fw, fh := w as real / iw as real, h as real / ih as real;
    assert fw <= s by { assert iw as real * fw <= iw as real * s; }
    assert fh <= s by { assert ih as real * fh <= ih as real * s; }
  }

  /** centered <= scaled <= zoom; centered and scaled agree exactly when scaled does not
      enlarge, and centered is 1 otherwise. */
  lemma ScaleOrdering(w: nat, h: nat, iw: nat, ih: nat)
    requires iw > 0 && ih > 0
    ensures ClampedScale(w, h, iw, ih) <= FitScale(w, h, iw, ih) <= CoverScale(w, h, iw, ih)
    ensures FitScale(w, h, iw, ih) <= 1.0 <==> ClampedScale(w, h, iw, ih) == FitScale(w, h, iw, ih)
    ensures FitScale(w, h, iw, ih) >= 1.0 ==> ClampedScale(w, h, iw, ih) == 1.0
  {
  }

  /** The image painted at uniform scale `s`, its origin placed so that the margins left and
      right (top and bottom) are equal. */
  function CenteredAt(w: nat, h: nat, iw: nat, ih: nat, s: real, alpha: real): (t: Instruction)
    ensures t.sx == s && t.sy == s && t.alpha == alpha
    ensures t.tx == w as real - Right(t, iw) && t.ty == h as real - Bottom(t, ih)
  {
    Instruction((w as real - iw as real * s) / 2.0, (h as real - ih as real * s) / 2.0, s, s, alpha)
  }

  /** 'none' / 'centered': natural size or smaller, centred, entirely inside the viewport. */
  function CenteredInstruction(w: nat, h: nat, iw: nat, ih: nat, alpha: real): (t: Instruction)
    requires iw > 0 && ih > 0
    ensures t.sx == t.sy == ClampedScale(w, h, iw, ih) && t.sx <= 1.0 && t.alpha == alpha
    ensures 0.0 <= t.tx && Right(t, iw) <= w as real
    ensures 0.0 <= t.ty && Bottom(t, ih) <= h as real
    ensures t.tx == w as real - Right(t, iw) && t.ty == h as real - Bottom(t, ih)
  {
    CenteredAt(w, h, iw, ih, ClampedScale(w, h, iw, ih), alpha)
  }

  /** 'scaled': centred and inside the viewport, flush with it on at least one axis. */
  function ScaledInstruction(w: nat, h: nat, iw: nat, ih: nat, alpha: real): (t: Instruction)
    requires iw > 0 && ih > 0
    ensures t.sx == t.sy == FitScale(w, h, iw, ih) && t.alpha == alpha
    ensures 0.0 <= t.tx && Right(t, iw) <= w as real
    ensures 0.0 <= t.ty && Bottom(t, ih) <= h as real
    ensures t.tx == 0.0 || t.ty == 0.0
    ensures t.tx == w as real - Right(t, iw) && t.ty == h as real - Bottom(t, ih)
  {
    CenteredAt(w, h, iw, ih, FitScale(w, h, iw, ih), alpha)
  }

  /** 'zoom': centred and covering the viewport, cropped equally on both sides of an axis and
      not at all on at least one axis. */
  function ZoomInstruction(w: nat, h: nat, iw: nat, ih: nat, alpha: real): (t: Instruction)
    requires iw > 0 && ih > 0
    ensures t.sx == t.sy == CoverScale(w, h, iw, ih) && t.alpha == alpha
    ensures t.tx <= 0.0 && w as real <= Right(t, iw)
    ensures t.ty <= 0.0 && h as real <= Bottom(t, ih)
    ensures t.tx == 0.0 || t.ty == 0.0
    ensures t.tx == w as real - Right(t, iw) && t.ty == h as real - Bottom(t, ih)
  {
    CenteredAt(w, h, iw, ih, CoverScale(w, h, iw, ih), alpha)
  }

  /** 'spanned': no translation, the image stretched exactly onto [0, w] x [0, h]. */
  function SpannedInstruction(w: nat, h: nat, iw: nat, ih: nat, alpha: real): (t: Instruction)
    requires iw > 0 && ih > 0
    ensures t.tx == 0.0 && t.ty == 0.0 && t.alpha == alpha
    ensures Right(t, iw) == w as real && Bottom(t, ih) == h as real
  {
    Instruction(0.0, 0.0, w as real / iw as real, h as real / ih as real, alpha)
  }

  /** The stretch is uniform exactly when image and viewport share an aspect ratio. */
  lemma SpannedUniformIff(w: nat, h: nat, iw: nat, ih: nat, alpha: real)
    requires iw > 0 && ih > 0
    ensures var t := SpannedInstruction(w, h, iw, ih, alpha);
      t.sx == t.sy <==> w * ih == h * iw
  {
    CrossMultiply(w as real, h as real, iw as real, ih as real);
    assert (w * ih) as real == w as real * ih as real;
    assert (h * iw) as real == h as real * iw as real;
  }

  lemma CrossMultiply(a: real, b: real, c: real, d: real)
    requires c > 0.0 && d > 0.0
    ensures a / c == b / d <==> a * d == b * c
  {
    var p, q := a / c, b / d;
    assert p * c == a && q * d == b;
    assert a * d == p * (c * d) && b * c == q * (c * d);
    assert c * d > 0.0;
    if a * d == b * c {
      assert (p - q) * (c * d) == 0.0;
    }
  }
}
