# squeekboard eek renderer and keyboard: a Dafny model

This project models the geometric core of squeekboard's `eek` renderer
(`eek/eek-renderer.c`) and the small state machine of its keyboard object
(`eek/eek-keyboard.c`), and proves properties of the model.

- **Geometry** (`geometry.dfy`) holds points, bounds and rotations, and the
  running minimum and maximum of a point sequence.
  `sin`, `cos` and `eek_point_rotate` are not visible, so every member that
  rotates takes a `Trig` parameter, which gives the cosine and sine of an
  angle in whole degrees. Each lemma states what it needs of that parameter:
  rotation by 0 is the identity, a rotation is proper (cos² + sin² = 1), or a
  quarter turn is (0, 1).
- **Layout** (`layout.dfy`) is the view, row and button tree, read through
  accessors that live outside this model. Here it is plain data.
- **ButtonBounds** (`bounds.dfy`) models `eek_renderer_get_button_bounds`.
  It builds four corners, rotates them in place, keeps a running min and max,
  and translates the result by the view and row origins. Its loop is an
  array method proved against a specification function.
- **HitTest** (`hittest.dfy`) models `sign` and `eek_are_bounds_inside`, the
  point-in-rotated-rectangle test over triangles 0-1-2 and 2-3-0.
  The test is transferred into the button's own frame. There the exact test
  is proved to mean "inside the rectangle", and the test as written is
  bounded from both sides.
- **Paint** (`paint.dfy`) covers the arithmetic of painting one button:
  - the outline rectangle;
  - the icon offset;
  - the choice of icon, label or outline only;
  - the label scale and font size;
  - the pivot offset applied before a row's rotation.
- **Renderer** (`renderer.dfy`) is the `EekRenderer` object as a class:
  - the allocation, the scale and integer origin that centre the view, and
    the output scale factor;
  - the cached keyboard surface, which is destroyed, recreated and painted
    with a recorded list of stamps (`DrawList`).
- **Keyboard** (`keyboard.dfy`) is the `EekKeyboard` object as a class:
  - the current (group, level) index, pushed to every key of every section;
  - the group and level properties;
  - the layout and the one-shot realize step;
  - section creation;
  - first-match search by keycode.

Two behaviours of the code are easy to miss, and the model states both:

- `eek_renderer_set_scale_factor` does not drop the cached surface.
  A surface painted at the old factor stays cached (`SetScaleFactor`).
- `eek_renderer_render_keyboard` destroys and recreates the surface on every
  call. A cached surface is therefore never reused for the next frame
  (`RenderKeyboard` ensures the surface is `fresh`).

## Model

| member | source | states |
|---|---|---|
| Geometry.LowerAllBelow | eek/eek-renderer.c:717-729 | the running minimum is at most its seed and every point it has taken in |
| Geometry.LowerAllAttained | eek/eek-renderer.c:717-729 | each coordinate of the running minimum is its seed's or one of the points' |
| Geometry.UpperAllAbove | eek/eek-renderer.c:717-729 | the running maximum is at least its seed and every point it has taken in |
| Geometry.UpperAllAttained | eek/eek-renderer.c:717-729 | each coordinate of the running maximum is its seed's or one of the points' |
| ButtonBounds.ButtonBoundsOf | eek/eek-renderer.c:705-733 | the box as written: min seeded at the unrotated corner 2, max at the unrotated corner 0, both run over the four rotated corners, then moved by the view and row origins; `GetButtonBounds` is proved to compute it and the lemmas below state what it covers |
| ButtonBounds.GetButtonBounds | eek/eek-renderer.c:691-734 | the in-place loop over the corner array returns the box spanned by min seeded at the unrotated corner 2 and max seeded at the unrotated corner 0, both updated with the four rotated corners, moved by view and row origins |
| ButtonBounds.ButtonBoundsContainCorners | eek/eek-renderer.c:717-733 | the box has non-negative width and height and contains every rotated corner moved by the view and row origins |
| ButtonBounds.ButtonBoundsUnrotated | eek/eek-renderer.c:705-733 | at angle 0 the box is the button's bounds moved by view.x + row.x and view.y + row.y, size unchanged |
| ButtonBounds.RotatedButtonInBounds | eek/eek-renderer.c:705-733 | every point of the button's rectangle, rotated and moved, lies in the tight box and in the box as written |
| ButtonBounds.SpanIsSmallest | eek/eek-renderer.c:717-733 | min and max both started at the first point span a box of non-negative size that holds every point, and each edge passes through one of them |
| ButtonBounds.TightBoundsAreSmallest | eek/eek-renderer.c:717-729 | the box seeded from the first rotated corner contains all four placed corners and each of its edges passes through one of them |
| ButtonBounds.AsWrittenContainsTight | eek/eek-renderer.c:717-733 | the box as written always contains the tight box |
| ButtonBounds.QuarterTurnTight | eek/eek-renderer.c:717-733 | after a 90-degree turn the tight box has width and height swapped, left edge at -(y + h) and top at x |
| ButtonBounds.QuarterTurnAsWritten | eek/eek-renderer.c:717-718 | after a 90-degree turn the box as written also stretches to the unrotated corners 2 and 0 |
| ButtonBounds.SeedingCounterexample | eek/eek-renderer.c:717-718 | at 90 degrees, every button {x, 0, 10, 10} with x >= 10 gets box {-10, 10, x + 10, x} while the tight box is {-10, x, 10, 10} |
| ButtonBounds.MinusQuarterTurnAsWritten | eek/eek-renderer.c:717-733 | after a -90-degree turn the box as written stretches to the unrotated corners 2 and 0 the other way round |
| ButtonBounds.SeedingMinusQuarter | eek/eek-renderer.c:717-718 | at -90 degrees the same button {x, 0, 10, 10} gets box {0, -(x + 10), x, x + 10} |
| ButtonBounds.SeedingAsymmetric | eek/eek-renderer.c:717-718 | turning that button by +90 and by -90 degrees gives boxes as written of different widths, x + 10 and x |
| ButtonBounds.TightWidth | eek/eek-renderer.c:717-729 | the tight box of a w x h button turned by (cos, sin) is abs(w cos) + abs(h sin) wide |
| ButtonBounds.TightHeight | eek/eek-renderer.c:717-729 | the tight box of a w x h button turned by (cos, sin) is abs(w sin) + abs(h cos) high |
| ButtonBounds.TightSize | eek/eek-renderer.c:705-733 | both sizes of the tight box together, for every button and angle |
| ButtonBounds.TightBoxSymmetric | eek/eek-renderer.c:705-733 | two turns with the same cosine and opposite sines (an angle and its opposite) give tight boxes of the same width and height |
| HitTest.Trunc | eek/eek-renderer.c:779-785 | a double converted to an integer is truncated toward zero: within 1 of the value, on the value's side of zero |
| HitTest.Sign | eek/eek-renderer.c:779-785 | `sign` as written: the cross product (p1 - p3) x (p2 - p3) converted to an integer by truncation; `SignNegativeIff` states when it is negative |
| HitTest.SignNegativeIff | eek/eek-renderer.c:779-785 | `sign(...) < 0.0` holds exactly when the cross product (p1 - p3) x (p2 - p3) is at most -1 |
| HitTest.PlaceInPlace | eek/eek-renderer.c:802-806 | every element of the array is replaced by itself rotated and then moved by the origin |
| HitTest.AreBoundsInside | eek/eek-renderer.c:787-824 | returns 1 exactly when the three flags agree for triangle 0-1-2 or for triangle 2-3-0 of the rotated, translated corners, else 0 |
| HitTest.CrossPlaced | eek/eek-renderer.c:779-785 | a proper rotation followed by a translation leaves every cross product unchanged |
| HitTest.PlacedTests | eek/eek-renderer.c:787-824 | the exact and the as-written tests on the placed corners equal the same tests on the unrotated corners at the point brought back into the button's frame |
| HitTest.ExactHitIff | eek/eek-renderer.c:808-823 | for a positive width and height, with exact cross-product signs, the test accepts exactly the points whose button-frame position lies in the button's rectangle |
| HitTest.InsideAsWritten | eek/eek-renderer.c:808-823 | the acceptance rule as written: the three sign flags agree for triangle 0-1-2 or for triangle 2-3-0; `AsWrittenAcceptsInside` and `AsWrittenAcceptsNear` bound what it accepts |
| HitTest.AsWrittenCorners | eek/eek-renderer.c:808-823 | on the button's own corners the test as written is a condition on the point's offset (u, v) from the top-left corner and the button's size |
| HitTest.AsWrittenAcceptsInside | eek/eek-renderer.c:808-823 | for a positive width and height, the test as written accepts every point of the button's rectangle |
| HitTest.AsWrittenAcceptsNear | eek/eek-renderer.c:808-823 | for a positive width and height, every point the test as written accepts lies within 2/height of the left and right edges and 2/width of the top and bottom edges |
| HitTest.TruncationCounterexample | eek/eek-renderer.c:779-785 | for button {0, 0, 10, 10}, angle 0, origin (0, 0), point (-0.05, 5) is accepted as written, rejected by the exact test, and outside the button |
| HitTest.ExactHitWithinButtonBounds | eek/eek-renderer.c:691-734 | for a positive width and height, a point the exact test accepts lies in the tight box and in the box as written |
| HitTest.ZeroWidthLocal | eek/eek-renderer.c:808-823 | for a w = 0, h > 0 button in its own coordinates the exact test holds exactly on the line u = 0, and the test as written exactly when -1 < h u < 1 |
| HitTest.ZeroHeightLocal | eek/eek-renderer.c:808-823 | for a h = 0, w > 0 button the exact test holds exactly on the line v = 0, and the test as written exactly when -1 < w v < 1 |
| HitTest.ZeroWidthCorners | eek/eek-renderer.c:808-823 | on a zero-width button's own corners the exact test accepts exactly the line through its left edge, the test as written the points less than 1/height from it |
| HitTest.ZeroHeightCorners | eek/eek-renderer.c:808-823 | on a zero-height button's own corners the exact test accepts exactly the line through its top edge, the test as written the points less than 1/width from it |
| HitTest.ZeroWidthHits | eek/eek-renderer.c:787-824 | a zero-width button accepts, after rotation and translation, exactly the points on the line through its left edge (exact) or less than 1/height from it (as written), at any distance along the line |
| HitTest.ZeroHeightHits | eek/eek-renderer.c:787-824 | a zero-height button accepts exactly the points on the line through its top edge (exact) or less than 1/width from it (as written), at any distance along it |
| HitTest.ZeroSizeHits | eek/eek-renderer.c:787-824 | a button of zero width and zero height is accepted by both tests at every point |
| HitTest.ZeroWidthAcceptsLine | eek/eek-renderer.c:787-824 | button {0, 0, 0, 10} at angle 0 about (0, 0): the exact test accepts (0, t) and the test as written (0.05, t) for every t |
| Paint.OutlineRect | eek/eek-renderer.c:172-179 | the outline rectangle in button coordinates; `OutlineInset` and `OutlineWithinButton` state where it lies |
| Paint.OutlineInset | eek/eek-renderer.c:172-179 | each side of the outline is exactly margin plus border inside the button's matching side |
| Paint.OutlineWithinButton | eek/eek-renderer.c:172-179 | with non-negative insets that fit, the outline lies inside the button and has non-negative size |
| Paint.OutlineWithoutInsets | eek/eek-renderer.c:172-179 | without margin and border the outline is the whole button |
| Paint.IconOffset | eek/eek-renderer.c:208-212 | the icon's top-left corner in button coordinates; `IconCentred` states that it centres the icon |
| Paint.IconCentred | eek/eek-renderer.c:208-212 | the icon area of width/scale_factor by height/scale_factor is centred on the button, and lies inside it when no larger |
| Paint.ButtonContent | eek/eek-renderer.c:200-230 | the icon is shown if and only if the button names one and it loads; otherwise the label if there is one; otherwise only the outline |
| Paint.LabelScale | eek/eek-renderer.c:337-339 | the label scale, the smaller of the two ratios of the button less the border to the button; `LabelScaleFits` states what it guarantees |
| Paint.LabelScaleFits | eek/eek-renderer.c:337-339 | the label scale fits the button less the border in both directions and fills one exactly; it is 1 without a border and at most 1 with one |
| Paint.Round | eek/eek-renderer.c:334-343 | C `round`: the nearest integer, halfway cases rounded away from zero (for x >= 0, x - 1/2 < n <= x + 1/2; for x < 0, x - 1/2 <= n < x + 1/2), with the value's sign |
| Paint.LabelFontSizeBounded | eek/eek-renderer.c:325-343 | the base font size is 18000, and a size scaled by a factor in [0, 1] and rounded stays in [0, base] |
| Paint.PivotOffset | eek/eek-renderer.c:299-303 | the translation made before the rotation, chosen by the sign of the sine; the lemmas below state what it achieves |
| Paint.ButtonTransform | eek/eek-renderer.c:287-305 | scale, then the pivot translation, then the rotation by the row angle; `ButtonTransformNonNegative` states where it maps the button |
| Paint.PivotKeepsButtonInView | eek/eek-renderer.c:296-305 | for a cosine >= 0, the pivot translation then rotation takes every button point to non-negative coordinates |
| Paint.PivotReachesOrigin | eek/eek-renderer.c:296-305 | after the pivot translation some rotated corner lies on x = 0 and some on y = 0, so the drawn box starts at the origin |
| Paint.PivotKeepsButtonInSpan | eek/eek-renderer.c:296-305 | for a cosine >= 0, the pivot translation then rotation keeps every button point at most abs(w cos) + abs(h sin) along x and abs(w sin) + abs(h cos) along y |
| Paint.PivotReachesSpan | eek/eek-renderer.c:296-305 | for a cosine >= 0, some rotated corner reaches each of those two bounds |
| Paint.PaintedSpan | eek/eek-renderer.c:287-305 | for a cosine >= 0, every button point lands in [0, abs(w cos) + abs(h sin)] x [0, abs(w sin) + abs(h cos)]; these are the width and height `ButtonBounds.TightSize` gives the tight box, and `PivotReachesOrigin` and `PivotReachesSpan` show all four edges are reached, so the region a button is painted into has the size of its tight box |
| Paint.ButtonTransformNonNegative | eek/eek-renderer.c:287-305 | the full per-button transformation with a non-negative scale maps the button into the non-negative quadrant |
| Renderer.AllocationTransform | eek/eek-renderer.c:663-671 | the centring transformation: the scale is the smaller of the two ratios of allocation to view extent, and each origin is floored; `AllocationFits` states what it guarantees |
| Renderer.AllocationFits | eek/eek-renderer.c:663-671 | for a positive allocation and extents: scale > 0; the scaled keyboard fits both ways and fills one; origins are >= 0 and within one pixel below exact centring |
| Renderer.DrawList | eek/eek-renderer.c:120-161 | what `render_keyboard_surface` paints, in order: the background over the allocation, then every button; the `DrawRows` lemmas and `RenderKeyboardSurface` state it |
| Renderer.DrawRowsCount | eek/eek-renderer.c:100-118 | one stamp is painted per button of the view |
| Renderer.DrawRowsComplete | eek/eek-renderer.c:78-118 | every button of every row is painted, unpressed and unlocked, in its row's frame |
| Renderer.DrawRowsSound | eek/eek-renderer.c:78-118 | every painted stamp is some button of some row, unpressed and unlocked |
| Renderer.Surface.constructor | eek/eek-renderer.c:440-441 | a new surface has the requested size, is blank and is live |
| Renderer.EekRenderer.constructor | eek/eek-renderer.c:569-610 | a new renderer (instance defaults set in `eek_renderer_init`, then the keyboard stored by `eek_renderer_new`) has the keyboard, border 1, allocation 0 x 0, scale 1, scale factor 1, origin (0, 0) and no cached surface |
| Renderer.EekRenderer.Invalidate | eek/eek-renderer.c:591-600 | afterwards no surface is cached; a cached one is destroyed; with none cached nothing changes (idempotent) |
| Renderer.EekRenderer.Dispose | eek/eek-renderer.c:488-506 | the keyboard is forgotten and the cached surface, if any, is destroyed and dropped |
| Renderer.EekRenderer.SetAllocationSize | eek/eek-renderer.c:644-673 | a non-positive width or height changes nothing; otherwise the size is stored, scale and origin are the centring transformation of the view current now (which is recorded), and the cache is dropped |
| Renderer.EekRenderer.GetTransformation | eek/eek-renderer.c:826-838 | reports origin and scale, which once allocated are the centring transformation of the allocation for the view that was current at the last resize |
| Renderer.EekRenderer.GetScale | eek/eek-renderer.c:736-744 | reports the scale, which once allocated is the centring scale for the view that was current at the last resize |
| Renderer.EekRenderer.SwitchView | eek/eek-renderer.c:661 | the keyboard's current view changes outside the renderer: later reads see the new view, while scale, origin, allocation and cached surface stay those computed for the view current at the last resize |
| Renderer.TransformDependsOnView | eek/eek-renderer.c:663-671 | the same 200 x 100 allocation gives scale 2 and origin (0, 0) for a 100 x 50 view but scale 1 and origin (50, 0) for a 100 x 100 view, so a transformation kept across a view switch no longer centres the new view |
| Renderer.EekRenderer.SetScaleFactor | eek/eek-renderer.c:746-753 | stores the factor and keeps the cached surface and everything else |
| Renderer.EekRenderer.RenderKeyboardSurface | eek/eek-renderer.c:120-161 | appends the background over the allocation, then every button of every row in order |
| Renderer.EekRenderer.RenderKeyboard | eek/eek-renderer.c:424-453 | does nothing without a keyboard or a positive allocation; otherwise destroys any old surface and installs a fresh one of the allocation's size holding exactly the view's draw list |
| Keyboard.SectionWithKeysymIndex | eek/eek-keyboard.c:72-91 | every key of the section keeps its keycode and shows cell (group, level) |
| Keyboard.WithKeysymIndex | eek/eek-keyboard.c:93-107 | the same number of sections, each with every key set to (group, level) |
| Keyboard.KeysymIndexLastWins | eek/eek-keyboard.c:93-107 | setting the index twice equals setting it once with the second value |
| Keyboard.FirstKey | eek/eek-keyboard.c:184-194 | the per-section search from a given key on; `FirstKeyIsFirst` states that it finds the first match |
| Keyboard.FirstKeyIsFirst | eek/eek-keyboard.c:184-194 | the per-section search returns the first key with the keycode, or nothing when no key has it |
| Keyboard.Locate | eek/eek-keyboard.c:196-208 | the search over sections from a given section on; `LocateIsFirstMatch` states that it finds the first match |
| Keyboard.LocateIsFirstMatch | eek/eek-keyboard.c:184-208 | the key found is the first with the keycode in the first section that has one; nothing is found exactly when no section has it |
| Keyboard.LocateIgnoresKeysymIndex | eek/eek-keyboard.c:72-107 | the selected cell does not change which key a keycode finds |
| Keyboard.EekKeyboard.constructor | eek/eek-keyboard.c:350-359 | a new keyboard has group 0, level 0, no layout, is not realized and has no sections |
| Keyboard.EekKeyboard.SetKeysymIndex | eek/eek-keyboard.c:93-107 | stores group and level and sets every key of every section to them, changing nothing else |
| Keyboard.EekKeyboard.GetKeysymIndex | eek/eek-keyboard.c:109-121 | reports group and level to whichever outputs are asked for, and nothing when neither is |
| Keyboard.EekKeyboard.SetProperty | eek/eek-keyboard.c:221-249 | setting "group" changes only the group and keeps the level; setting "level" changes only the level and keeps the group; the keys follow |
| Keyboard.EekKeyboard.GetProperty | eek/eek-keyboard.c:251-275 | reports the group or the level; the aliased outputs for "level" still yield the level |
| Keyboard.EekKeyboard.CreateSection | eek/eek-keyboard.c:139-155 | appends exactly one empty section as the last child and returns it |
| Keyboard.EekKeyboard.SetLayout | eek/eek-keyboard.c:157-166 | stores the layout and nothing else |
| Keyboard.EekKeyboard.Realize | eek/eek-keyboard.c:168-177 | without a layout or when already realized nothing changes; otherwise the layout is applied and the keyboard is realized, so a second call is rejected |
| Keyboard.EekKeyboard.FindKeyByKeycode | eek/eek-keyboard.c:196-208 | the search loop returns exactly the first-match definition `Locate` |

## Left out

- Drawing is not modelled: cairo paths, clipping, masks and painting; GTK
  style contexts, widget paths and CSS classes (`eek_render_button`); Pango
  layout, text extents and right-to-left alignment. The keyboard surface is
  modelled as the ordered list of what is painted on it.
- `eek_renderer_render_button` (drawing one pressed or locked button on top)
  and `squeek_layout_draw_all_changed` are not modelled beyond the
  per-button transformation in `Paint.ButtonTransform`. Both draw through
  code that is not part of this model.
- Where `eek_renderer_render_button` (eek/eek-renderer.c:406-415) places
  a pressed button is not modelled as a member. It moves the drawing to the
  x, y of the box as written and then applies `Paint.ButtonTransform`, whose
  painted region starts at its own origin and has the tight box's size
  (`Paint.PaintedSpan` with `ButtonBounds.TightSize`). The seeding finding
  below therefore also moves a pressed button in a rotated row: at 90
  degrees the button of `ButtonBounds.SeedingCounterexample` is drawn from
  y = 10, and it is hit from y = x.
- Icon loading through the GTK icon theme (`eek_renderer_get_icon_surface`)
  is I/O. Whether an icon loads is the parameter `iconLoads` of
  `Paint.ButtonContent`.
- `eek_renderer_get_size`, the renderer's `pango-context` property and
  `finalize` are left out. They are one-line accessors and reference
  counting over objects the model does not have.
- GObject type and property registration, signals, and the key-pressed and
  key-released connections made in `create_section` are left out, because
  they are plumbing of the object system. The default branches of the
  keyboard's `set_property` and `get_property` are left out for the same
  reason.
- Numbers are mathematical reals, not IEEE doubles: there is no rounding,
  no infinities and no NaN.
- `sin`, `cos` and `eek_point_rotate` are the `Trig` parameter. The model
  does not compute them.
- Keyboard.EekKeyboard.SetLayout: the reference taken on the new layout is
  not modelled. Neither is the fact that the previous layout is never
  released.
- HitTest.Trunc: the truncation is modelled, but not the 32-bit range of
  `gboolean`. Converting a cross product beyond that range is undefined in C.
- Renderer.AllocationTransform: the `(gint)` cast of the floored origin is
  modelled as exact, without the 32-bit range.
- Renderer.EekRenderer.SetAllocationSize: requires non-zero view extents
  (2x + width and 2y + height). The code divides by them unchecked, which
  in IEEE doubles gives infinities that are not modelled. It also requires a
  keyboard, which the code dereferences unchecked.
- HitTest.ExactHitIff: proved only for a positive width and height. A
  button of zero size is accepted along a whole line, or everywhere when
  both sizes are 0 (`HitTest.ZeroWidthHits`, `HitTest.ZeroHeightHits`,
  `HitTest.ZeroSizeHits`), not on a bounded rectangle. Negative sizes are
  not considered.
- HitTest.AsWrittenAcceptsInside: proved only for a positive width and
  height. For zero sizes, what the test as written accepts is stated by
  `HitTest.ZeroWidthHits`, `HitTest.ZeroHeightHits` and
  `HitTest.ZeroSizeHits`, and it includes the button's own points.
- HitTest.AsWrittenAcceptsNear: proved only for a positive width and height.
  The bound 2/width or 2/height has no meaning at zero size. There the test
  as written accepts an unbounded strip along the button's line
  (`HitTest.ZeroWidthAcceptsLine`).
- HitTest.ExactHitWithinButtonBounds: proved only for a positive width and
  height. A zero-size button is hit at points far outside both boxes, for
  example (0, t) for every t in `HitTest.ZeroWidthAcceptsLine`.
- Paint.IconCentred: requires a non-zero scale factor.
  `eek_renderer_set_scale_factor` accepts 0, and the code then divides by
  it.
- Paint.ButtonTransformNonNegative: proved only for rotations with a
  non-negative cosine (angles from -90 to 90 degrees). For other angles the
  pivot offset does not bring the rotated button back into view.
- Paint.PaintedSpan: proved only for rotations with a non-negative
  cosine, for the same reason as `ButtonTransformNonNegative`.
- Keyboard.EekKeyboard.SetProperty: requires the value to lie in the
  property's range 0 to `G_MAXINT`. GObject validates values against that
  range before the keyboard's handler runs.
- Keyboard.EekKeyboard.Realize: the layout's `apply` is not part of this
  model. Its effect is given as the sections it leaves on the keyboard. It
  is also taken to leave the keyboard's group and level as they were.
- Keyboard.FirstKeyIsFirst: `eek_section_find_key_by_keycode` is not part of
  this model. It is taken to return the first key of the section with the
  keycode.
- Keyboard.SectionWithKeysymIndex: `eek_key_set_keysym_index` is not part of
  this model. It is taken to store the group and level in the key.

## Findings

| source | as written | input that shows it | evidently intended | confidence | as-written member | corrected member |
|---|---|---|---|---|---|---|
| eek/eek-renderer.c:717-718 | `min` and `max` are seeded with the unrotated corners 2 and 0, so for a rotated row the box also spans points the button never covers | row angle 90, view and row at the origin, button {x, 0, 10, 10} for any x >= 10 (at x = 100: box {-10, 10, 110, 100}, while the rotated button covers {-10, 100, 10, 10}); at -90 degrees the same button gets {0, -(x + 10), x, x + 10}, so the box even depends on the sense of the turn | seed both with the first rotated corner, giving the smallest box around the rotated button | medium (rows are seldom rotated); not executed | ButtonBounds.SeedingCounterexample | ButtonBounds.TightBoundsAreSmallest |
| eek/eek-renderer.c:779-785 | `sign` returns the real cross product through an integer type, truncating it, so values in (-1, 0) count as not negative | button {0, 0, 10, 10}, angle 0, origin (0, 0), point (-0.05, 5): accepted, though outside the button | compare the exact cross product with 0, which accepts exactly the points of the rectangle | high; not executed | HitTest.TruncationCounterexample | HitTest.ExactHitIff |
