/** One pass of the preview: given the fit value selected in the dropdown, the loaded image (if
    the wallpaper file exists), the drawing area's size and the brightness slider, the image
    paints it performs. Any exception is swallowed, so a failing pass paints no image at all. */
module Preview {
  import opened Wrappers
  import opened Geometry
  import opened Tiling
  import SettingsText

  /** Width and height in pixels of the loaded wallpaper. */
  datatype ImageSize = ImageSize(width: nat, height: nat)

  /** A loaded image always has a positive size. */
  predicate ValidImage(image: Option<ImageSize>)
  {
    image.Some? ==> image.value.width > 0 && image.value.height > 0
  }

  /** The fit values with a branch of their own; anything else paints nothing. */
  predicate SingleImageMode(fitting: string)
  {
    fitting == "none" || fitting == "centered" || fitting == "scaled" || fitting == "zoom" || fitting == "spanned"
  }

  predicate KnownMode(fitting: string)
  {
    SingleImageMode(fitting) || fitting == "wallpaper"
  }

  /** `cr.scale(sx, sy)` and the paint after it. Cairo refuses a factor of 0 (the matrix would
      be singular) and the call raises before the image is painted. */
  function PaintScaled(t: Instruction): Result<seq<Instruction>, PreviewError>
  {
    if t.sx == 0.0 || t.sy == 0.0 then Err(InvalidMatrix) else Ok([t])
  }

  /** The image paints of one pass, or the exception that ends it. A zero width scales the
      image by 0 in every single-image mode but 'zoom', whose scale follows the height. */
  function Plan(fitting: string, image: Option<ImageSize>, w: nat, h: nat, slider: real): (r: Result<seq<Instruction>, PreviewError>)
    requires ValidImage(image)
    ensures image.None? ==> r == Ok([])
    ensures image.Some? && h == 0 ==> r == Err(ZeroDivision)
    ensures r.Err? && h > 0 ==>
      || (fitting == "wallpaper" && r.error == ZeroRangeStep)
      || (SingleImageMode(fitting) && r.error == InvalidMatrix)
    ensures image.Some? && h > 0 && SingleImageMode(fitting) ==>
      && (r.Ok? <==> w > 0 || fitting == "zoom")
      && (r.Ok? ==> |r.value| == 1)
    ensures image.Some? && h > 0 && r.Ok? ==>
      var iw, ih, alpha := image.value.width, image.value.height, SettingsText.Opacity(slider);
      && (fitting == "none" || fitting == "centered" ==> r.value == [CenteredInstruction(w, h, iw, ih, alpha)])
      && (fitting == "scaled" ==> r.value == [ScaledInstruction(w, h, iw, ih, alpha)])
      && (fitting == "zoom" ==> r.value == [ZoomInstruction(w, h, iw, ih, alpha)])
      && (fitting == "spanned" ==> r.value == [SpannedInstruction(w, h, iw, ih, alpha)])
    ensures image.Some? && h > 0 && fitting == "wallpaper" ==>
      r == TiledPlan(w, h, image.value.width, image.value.height, SettingsText.Opacity(slider))
    ensures !KnownMode(fitting) ==> r.Ok? ==> r.value == []
    ensures r.Ok? ==> forall t | t in r.value :: t.alpha == SettingsText.Opacity(slider)
  {
    if image.None? then Ok([])
    else if h == 0 then Err(ZeroDivision)
    else
      var iw, ih, alpha := image.value.width, image.value.height, SettingsText.Opacity(slider);
      ScaleIsZeroAtZeroWidth(w, h, iw, ih, alpha);
      if fitting == "none" || fitting == "centered" then PaintScaled(CenteredInstruction(w, h, iw, ih, alpha))
      else if fitting == "scaled" then PaintScaled(ScaledInstruction(w, h, iw, ih, alpha))
      else if fitting == "zoom" then PaintScaled(ZoomInstruction(w, h, iw, ih, alpha))
      else if fitting == "wallpaper" then TiledPlan(w, h, iw, ih, alpha)
      else if fitting == "spanned" then PaintScaled(SpannedInstruction(w, h, iw, ih, alpha))
      else Ok([])
  }

  /** With a positive height, the centred, fit and stretch scales are 0 exactly when the width
      is 0; the fill scale is never 0. */
  lemma ScaleIsZeroAtZeroWidth(w: nat, h: nat, iw: nat, ih: nat, alpha: real)
    requires h > 0 && iw > 0 && ih > 0
    ensures var t := CenteredInstruction(w, h, iw, ih, alpha); t.sx * t.sy == 0.0 <==> w == 0
    ensures var t := ScaledInstruction(w, h, iw, ih, alpha); t.sx * t.sy == 0.0 <==> w == 0
    ensures var t := SpannedInstruction(w, h, iw, ih, alpha); t.sx * t.sy == 0.0 <==> w == 0
    ensures var t := ZoomInstruction(w, h, iw, ih, alpha); t.sx > 0.0 && t.sy > 0.0
  {
    var fw, fh := w as real / iw as real, h as real / ih as real;
    assert fh > 0.0;
    assert w > 0 ==> fw > 0.0;
  }

  /** What reaches the screen: the catch-all exception handler drops a failed pass. */
  function Painted(r: Result<seq<Instruction>, PreviewError>): seq<Instruction>
  {
    if r.Ok? then r.value else []
  }

  /** The drawing routine, branch by branch as the source has it. */
  method DrawPreview(fitting: string, image: Option<ImageSize>, w: nat, h: nat, slider: real) returns (painted: seq<Instruction>)
    requires ValidImage(image)
    ensures painted == Painted(Plan(fitting, image, w, h, slider))
  {
    painted := [];
    if image.None? {
      return;
    }
    var alpha := SettingsText.Opacity(slider);
    var iw, ih := image.value.width, image.value.height;
    if h == 0 {
      return;  // `width / height` raises; nothing is painted
    }
    // `PaintScaled` is the `cr.scale` refusal of a zero factor, before the paint.
    if fitting == "none" {
      painted := Painted(PaintScaled(CenteredInstruction(w, h, iw, ih, alpha)));
    } else if fitting == "centered" {
      painted := Painted(PaintScaled(CenteredInstruction(w, h, iw, ih, alpha)));
    } else if fitting == "scaled" {
      painted := Painted(PaintScaled(ScaledInstruction(w, h, iw, ih, alpha)));
    } else if fitting == "zoom" {
      painted := Painted(PaintScaled(ZoomInstruction(w, h, iw, ih, alpha)));
    } else if fitting == "wallpaper" {
      var raised;
      painted, raised := PaintTiled(w, h, iw, ih, alpha);
    } else if fitting == "spanned" {
      painted := Painted(PaintScaled(SpannedInstruction(w, h, iw, ih, alpha)));
    }
  }

  /** The unused 'none' branch draws exactly what 'centered' draws. */
  lemma NoneDrawsAsCentered(image: Option<ImageSize>, w: nat, h: nat, slider: real)
    requires ValidImage(image)
    ensures Plan("none", image, w, h, slider) == Plan("centered", image, w, h, slider)
  {
  }

  /** Every painted copy of the image carries the slider's opacity, which lies in [0, 1] for a
      slider within its range; a failed pass paints nothing. */
  lemma PaintedOpacity(fitting: string, image: Option<ImageSize>, w: nat, h: nat, slider: real)
    requires ValidImage(image)
    ensures Plan(fitting, image, w, h, slider).Err? ==> Painted(Plan(fitting, image, w, h, slider)) == []
    ensures forall t | t in Painted(Plan(fitting, image, w, h, slider)) ::
      t.alpha * 100.0 == slider && (0.0 <= slider <= 100.0 ==> 0.0 <= t.alpha <= 1.0)
  {
  }

  /** The worked example for 'scaled': a 1000x500 image in a 300x200 area is painted at scale
      0.3 with its top edge 25 pixels down. */
  lemma ScaledExample(slider: real)
    ensures Plan("scaled", Some(ImageSize(1000, 500)), 300, 200, slider)
      == Ok([Instruction(0.0, 25.0, 0.3, 0.3, slider / 100.0)])
  {
  }

  /** The worked example for 'zoom': the same image is painted at scale 0.4, 50 pixels cut off
      on the left and on the right. */
  lemma ZoomExample(slider: real)
    ensures Plan("zoom", Some(ImageSize(1000, 500)), 300, 200, slider)
      == Ok([Instruction(-50.0, 0.0, 0.4, 0.4, slider / 100.0)])
  {
  }

  /** The default 300x200 area with a 1000x500 image, tiled: tiles of 150x75 at scale 0.15,
      3 columns (x = 0, 150, 300) of 4 rows (y = 0, 75, 150, 225), the last tile at the far
      corner of the area. */
  lemma TiledExample(slider: real)
    ensures var r := Plan("wallpaper", Some(ImageSize(1000, 500)), 300, 200, slider);
      && r.Ok? && |r.value| == 12
      && r.value[0] == Tile(0, 0, 0.15, slider / 100.0)
      && r.value[11] == Tile(300, 225, 0.15, slider / 100.0)
  {
    var l := TileLayout(300, 200, 1000, 500);
    assert l.scale == 0.15;
    assert l.stepX == 150 && l.stepY == 75 && l.stopX == 450 && l.stopY == 275;
    var xs, ys := RangeFrom(0, 450, 150), RangeFrom(0, 275, 75);
    RangeLength(0, 450, 150);
    RangeLength(0, 275, 75);
    RangeElement(0, 450, 150, 0);
    RangeElement(0, 275, 75, 0);
    RangeElement(0, 450, 150, 2);
    RangeElement(0, 275, 75, 3);
    GridElement(xs, ys, 0.15, slider / 100.0, 0, 0);
    GridElement(xs, ys, 0.15, slider / 100.0, 2, 3);
  }
}
