# Wallpaper Adjuster: preview geometry and settings text, in Dafny

Wallpaper Adjuster is a small GTK tool. It previews and applies the desktop background's fit
mode, background colour and brightness. This project models the tool's one piece of real logic:
the preview pass of `MainWindow.draw_preview`. Given the selected fit value, the size of the
loaded wallpaper, the size of the drawing area and the brightness slider, the pass decides
where, at what scale and with what opacity the wallpaper is painted. Each
`save/translate/scale/paint_with_alpha/restore` group becomes one `Instruction`
`(tx, ty, sx, sy, alpha)`.

The project also models the small pieces around the settings store:
- the label/value table of fit modes;
- the lookup that selects the stored mode when the window opens;
- `strip()`, quote removal and `file://` removal on what the store prints;
- the `rgb(r,g,b)` colour string;
- the slider/opacity conversion.

Modules:
- `Geometry` (geometry.dfy): the scale of each mode and the single instruction of the
  'none'/'centered', 'scaled', 'zoom' and 'spanned' modes. Ratios are exact reals.
- `Tiling` (tiling.dfy): Python's `range`, the grid of tiles, and the tiled plan as a value.
  It also holds the nested loops of the tiled branch as methods, proved equal to that plan.
- `Preview` (preview.dfy): the dispatch on the fit value as a function (`Plan`), and the
  drawing routine as a method (`DrawPreview`) proved to paint exactly `Plan`'s instructions.
- `SettingsText` (settings_text.dfy): string handling, colour formatting, brightness.
- `FitOptions` (fit_options.dfy): the table, the label lookup and the stored-value lookup.
- `Wrappers` (wrappers.dfy): `Option` and `Result`.

The exceptions that `draw_preview` swallows and that the model covers appear as `Err` values of
`Plan`: the division by a zero height, `range` with a zero step, and `cr.scale` with a zero
factor. `Painted` turns them into "no image painted". The tiled loop method returns a `raised` flag and proves that a raise
always comes before the first tile.

Behaviour of the code that the model keeps:
- The tile count uses the truncated tile size. It is `ceil(int(w + tw) / int(tw)) *
  ceil(int(h + th) / int(th))`, not `ceil(w / tw + 1) * ceil(h / th + 1)`.
- A zero viewport height raises at the unused aspect ratio (wall-adjuster.py:200), so nothing
  is painted.
- A zero viewport width makes the scale factor 0 in 'none', 'centered', 'scaled' and
  'spanned'. Cairo refuses a zero factor in `cr.scale` as a singular matrix and the call
  raises, so those modes paint nothing. 'zoom' still paints, since its scale follows the
  height. In 'wallpaper' `int(tile_width)` is 0 and `range` raises.
- A missing wallpaper file is not an error. The pass paints the background only.
- The three settings writes ignore a non-zero exit status of the external tool. Only a tool
  that cannot be started raises; the Apply handler then shows an "Error: ..." toast and the
  remaining writes are skipped. This path is not modelled (see Left out).

## Model

| member | source | states |
|---|---|---|
| Geometry.FitScale | wall-adjuster.py:232-236 | the 'scaled' scale is non-negative, the scaled image fits on both axes, and it meets the viewport exactly on at least one axis |
| Geometry.CoverScale | wall-adjuster.py:246-250 | the 'zoom' scale makes the image cover both axes and meet the viewport exactly on at least one |
| Geometry.ClampedScale | wall-adjuster.py:217-222 | the 'centered' (and 'none') scale is in [0, 1], the image fits, and it is at natural size or meets the viewport on one axis |
| Geometry.TileScale | wall-adjuster.py:260-263 | the tile scale is exactly half the 'scaled' scale |
| Geometry.FitScaleIsLargest | wall-adjuster.py:232-234 | no uniform scale larger than the 'scaled' one lets the image fit |
| Geometry.CoverScaleIsSmallest | wall-adjuster.py:246-248 | no uniform scale smaller than the 'zoom' one lets the image cover the viewport |
| Geometry.ScaleOrdering | wall-adjuster.py:217-258 | centered scale <= scaled scale <= zoom scale; centered equals scaled exactly when scaled is at most 1, and is 1 otherwise |
| Geometry.CenteredAt | wall-adjuster.py:235-238 | the instruction has the given uniform scale and alpha, and equal margins left/right and top/bottom |
| Geometry.CenteredInstruction | wall-adjuster.py:217-230 | 'centered': scale at most 1, image inside the viewport with non-negative offsets, centred |
| Geometry.ScaledInstruction | wall-adjuster.py:232-244 | 'scaled': image inside the viewport, centred, one offset 0 |
| Geometry.ZoomInstruction | wall-adjuster.py:246-258 | 'zoom': image covers the viewport, offsets <= 0, centred (equal crop on both sides), one offset 0 |
| Geometry.SpannedInstruction | wall-adjuster.py:277-283 | 'spanned': no translation, the image maps exactly onto [0, w] x [0, h] |
| Geometry.SpannedUniformIff | wall-adjuster.py:280 | the two stretch factors are equal exactly when image and viewport have the same aspect ratio |
| Tiling.RangeLength | wall-adjuster.py:266-269 | `range(start, stop, step)` has `ceil((stop - start) / step)` values, or none when `start >= stop` |
| Tiling.RangeElement | wall-adjuster.py:266-269 | the k-th value of a range is `start + k * step` and lies below `stop` |
| Tiling.RangeContains | wall-adjuster.py:266-269 | every `start + k * step` below `stop` is in the range, as its k-th value |
| Tiling.RangeMembership | wall-adjuster.py:266-269 | `range(0, stop, step)` holds exactly the non-negative multiples of `step` below `stop` |
| Tiling.ColumnElement | wall-adjuster.py:268-275 | the inner loop paints one tile per y, in order, at that y |
| Tiling.GridLength | wall-adjuster.py:266-275 | the nested loops paint one tile per pair of an outer and an inner range value |
| Tiling.GridElement | wall-adjuster.py:266-275 | the nested loops paint |xs| * |ys| tiles, tile (i, j) at index i * |ys| + j, placed at (xs[i], ys[j]) |
| Tiling.ColumnMembership | wall-adjuster.py:268-275 | a tile is in a column exactly when it has the column's x and a y of the inner range |
| Tiling.GridMembership | wall-adjuster.py:266-275 | a tile is painted exactly when its x is in the outer range and its y in the inner one |
| Tiling.GridUniform | wall-adjuster.py:270-275 | every tile is painted at the tile scale on both axes and with the pass's alpha |
| Tiling.FloorShift | wall-adjuster.py:266 | `int(w + tile_width) == w + int(tile_width)` for a whole w |
| Tiling.TileLayout | wall-adjuster.py:262-269 | tile scale is half the fit scale, the range steps are the truncated tile sizes, and the range ends are the viewport size plus one step |
| Tiling.TiledPlan | wall-adjuster.py:260-275 | the tiled branch fails (zero range step) exactly when a truncated tile size is 0; otherwise it paints `ceil(int(w+tw)/int(tw)) * ceil(int(h+th)/int(th)) >= 1` tiles, all at the same positive tile scale and the pass's alpha |
| Tiling.TiledPositions | wall-adjuster.py:266-271 | a tile sits at (x, y) exactly when x and y are non-negative multiples of the truncated tile sizes below `int(w + tw)` and `int(h + th)` |
| Tiling.TileExtent | wall-adjuster.py:264-272 | a painted tile spans the unrounded tile size, which is at least the truncated range step |
| Tiling.TilesCoverViewport | wall-adjuster.py:266-269 | every real point of the closed viewport [0, w] x [0, h] lies under a painted tile, the one at its rounded-down lattice position (one tile of overscan) |
| Tiling.PaintColumn | wall-adjuster.py:268-275 | the inner `for y in range(...)` loop paints exactly the column of the inner range |
| Tiling.PaintGrid | wall-adjuster.py:266-275 | the nested loops raise exactly when the outer step is 0, or the inner step is 0 with a non-empty outer range; a raise comes before any paint; otherwise they paint the grid of the two ranges |
| Tiling.PaintTiled | wall-adjuster.py:260-275 | the tiled branch paints exactly `TiledPlan`'s tiles or raises having painted none (all-or-nothing) |
| Preview.Plan | wall-adjuster.py:185-283 | no image: nothing painted; zero height: division error; a zero range step only in 'wallpaper' and a zero scale factor only in a single-image mode; a single-image mode paints its one instruction (the `Geometry` instruction of that mode) exactly when the width is positive or the mode is 'zoom', since `cr.scale` refuses a zero factor (`PaintScaled`); 'wallpaper' is `TiledPlan`; nothing for an unknown value; every instruction carries the slider's opacity |
| Preview.ScaleIsZeroAtZeroWidth | wall-adjuster.py:202-283 | with a positive height, the 'centered', 'scaled' and 'spanned' scale factors are 0 exactly when the width is 0, and the 'zoom' factors are always positive |
| Preview.DrawPreview | wall-adjuster.py:167-287 | the drawing routine paints exactly the instructions of a successful `Plan`, and nothing when the pass raises |
| Preview.NoneDrawsAsCentered | wall-adjuster.py:202-230 | the 'none' branch paints the same as 'centered' |
| Preview.PaintedOpacity | wall-adjuster.py:189 | every painted instruction has alpha = slider / 100, within [0, 1] for a slider in 0..100; a failed pass paints nothing |
| Preview.ScaledExample | wall-adjuster.py:232-244 | 1000x500 image, 300x200 area, 'scaled': one instruction at (0, 25) with scale 0.3 |
| Preview.ZoomExample | wall-adjuster.py:246-258 | same sizes, 'zoom': one instruction at (-50, 0) with scale 0.4 |
| Preview.TiledExample | wall-adjuster.py:260-275 | same sizes, 'wallpaper': 12 tiles at scale 0.15, the first at (0, 0) and the last at (300, 225) |
| SettingsText.TrimStart | wall-adjuster.py:172 | the result is a suffix of the input, does not start with whitespace, and only whitespace was cut |
| SettingsText.TrimEnd | wall-adjuster.py:172 | the result is a prefix of the input, does not end with whitespace, and only whitespace was cut |
| SettingsText.Strip | wall-adjuster.py:172 | `strip()` returns a slice of its input with no whitespace at either end, and everything cut off before and after it is whitespace |
| SettingsText.RemoveCharSplit | wall-adjuster.py:172 | removing one character commutes with cutting the string at any index |
| SettingsText.RemoveAllAbsent | wall-adjuster.py:172 | `replace(pat, "")` leaves a string in which `pat` does not occur unchanged |
| SettingsText.RemoveCharAppend | wall-adjuster.py:172 | removing one character distributes over concatenation |
| SettingsText.RemoveCharGone | wall-adjuster.py:172 | after removing a character none of it is left |
| SettingsText.RemoveCharAbsent | wall-adjuster.py:172 | removing a character the string does not contain changes nothing |
| SettingsText.StripQuotes | wall-adjuster.py:172 | `replace("'", "")` leaves no quote and leaves a quote-free string unchanged; a one-character string becomes nothing if it is a quote and stays otherwise; cutting the input at any index cuts the result there (which together fix the result as the input's non-quote characters in order) |
| SettingsText.StripPrinted | wall-adjuster.py:172 | stripping a quoted, newline-terminated printed value leaves the quoted value |
| SettingsText.UnquoteQuoted | wall-adjuster.py:141 | removing the quotes around a quote-free value gives the value |
| SettingsText.StoredValueOfPrinted | wall-adjuster.py:138-141 | a quote-free value printed by the store reads back as that exact value |
| SettingsText.WallpaperPathOfUri | wall-adjuster.py:169-172 | the printed URI `'file://<path>'` yields exactly `<path>` when the path has no quote and no further `file://` |
| SettingsText.Channel | wall-adjuster.py:304 | `int(c * 255)` is the 8-bit level (0..255) whose band [b/255, (b+1)/255) holds c |
| SettingsText.Decimal | wall-adjuster.py:304 | integer formatting gives a non-empty digit string with no leading zero |
| SettingsText.DecimalRoundTrip | wall-adjuster.py:304 | the digits of a formatted integer have that integer as their value |
| SettingsText.SplitAtComma | wall-adjuster.py:304 | a comma-free field followed by a comma splits a string uniquely |
| SettingsText.DigitsHaveNoComma | wall-adjuster.py:304 | a formatted integer contains no comma |
| SettingsText.RgbFields | wall-adjuster.py:304 | an `rgb(a,b,c)` string with comma-free fields determines its three fields |
| SettingsText.ColorStringInjective | wall-adjuster.py:304 | two colours give the same `rgb(...)` string exactly when their three 8-bit levels agree |
| SettingsText.Opacity | wall-adjuster.py:306 | the opacity is the slider value over 100, within [0, 1] for a slider in 0..100 |
| SettingsText.SliderFromOpacity | wall-adjuster.py:156-161 | the loaded slider value is the stored opacity times 100, held within the slider's range 0..100 |
| SettingsText.SliderRoundTrip | wall-adjuster.py:156-161 | saving and then loading returns the slider value |
| SettingsText.OpacityRoundTrip | wall-adjuster.py:156-161 | loading and then saving returns exactly the stored opacity, for one in [0, 1] |
| FitOptions.OptionsDistinct | wall-adjuster.py:57-64 | the table's labels are pairwise distinct and so are its values |
| FitOptions.NoneNotOffered | wall-adjuster.py:57-64 | 'none' is not a value of the table, so the 'none' branch cannot be reached from the dropdown |
| FitOptions.IndexOfValue | wall-adjuster.py:143-146 | finds the first entry with the given value, or reports that no entry has it |
| FitOptions.ValueOfLabel | wall-adjuster.py:175-176 | the value found for a label belongs to an entry with that label; no value means no entry has it |
| FitOptions.LookupFindsOnlyEntry | wall-adjuster.py:143-146 | with distinct values, looking up an entry's value finds that entry |
| FitOptions.LabelLooksUpItsValue | wall-adjuster.py:175-176 | each dropdown label maps to its own value |
| FitOptions.SelectStored | wall-adjuster.py:143-146 | the loop selects the first entry whose value is the stored one, and leaves the selection unchanged for an unknown value |
| FitOptions.ReloadSelectsApplied | wall-adjuster.py:136-146 | a mode written by Apply and printed back by the store selects the same entry on the next start |

## Left out

- Widget construction, the menu and about dialog, and toasts (wall-adjuster.py:19-134 except
  the fit-mode table at 57-64, 292-296, 338-377). These are user interface.
- All reads and writes of the settings store through the `gsettings` command. This is
  external-process I/O. `Printed` fixes the format the store prints a string value in: quoted,
  newline-terminated, for values without quotes or backslashes.
- The Apply path: the worker thread, the hand-back to the UI thread, the spinner and button
  state, and the success and error toasts (wall-adjuster.py:298-335, except the table lookup,
  colour string and opacity at 300-306, which are modelled). This is concurrency, process
  start-up and user interface. A non-zero exit status of a write is ignored; a `gsettings` that
  cannot be started raises, and the handler reports it in a toast and skips the later writes.
- Loading the wallpaper with GdkPixbuf, and `saturate_and_pixelate` when the brightness is below
  1 (wall-adjuster.py:185-192). These are foreign library calls that change pixel colours, not
  geometry. The image size is a given positive input, and a missing file is `None`.
- The Cairo calls themselves, except that `cr.scale` refuses a zero factor (`PaintScaled`), and
  the background fill (wall-adjuster.py:178-182). The fill paints the chosen colour over the
  whole area and involves no computation.
- Parsing of the stored colour with `Gdk.RGBA.parse` (wall-adjuster.py:148-154). This is a
  foreign call.
- Floating-point rounding. Ratios are exact reals, and `int(...)` of a non-negative value is
  `Floor`.
- `str(brightness)` at wall-adjuster.py:329. This is Python's float formatting.
- SettingsText.Strip: only ASCII whitespace is removed. Python's `strip()` also removes Unicode
  whitespace (for example U+00A0 and U+2028).
- SettingsText.Channel: requires the channel to be in [0, 1], which the colour button
  guarantees. A negative value would truncate toward zero in Python.
- The slider's step of 5 and its rounding of user-dragged values are not modelled. These are
  GTK behaviour. The slider is any real value, and `SliderFromOpacity` models only the clamp to
  0..100.
