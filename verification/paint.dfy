/**
 * The arithmetic the renderer does while painting one button: the outline
 * rectangle, the icon position, the label scale and font size, the pivot
 * that keeps a rotated button in view, and which content a button shows.
 * The drawing calls themselves (cairo, GTK, Pango) are not modelled.
 */
module Paint {
  import opened Geometry
  import opened Layout
  import opened ButtonBounds

  // ---------------------------------------------------------------------
  // render_outline

  /** A `GtkBorder`: the widths of the four sides of a margin or border. */
  datatype Border = Border(left: int, right: int, top: int, bottom: int)

  /**
   * `render_outline`: the rectangle, in button coordinates, that holds the
   * background and frame; it is inset by margin plus border on every side.
   */
  function OutlineRect(bounds: Bounds, margin: Border, border: Border): Bounds {
    var x := (margin.left + border.left) as real;
    var y := (margin.top + border.top) as real;
    Bounds(x, y,
           bounds.width - x - (margin.right + border.right) as real,
           bounds.height - y - (margin.bottom + border.bottom) as real)
  }

  /**
   * The outline keeps to the button: each of its sides lies exactly
   * margin plus border inside the button's matching side.
   */
  lemma OutlineInset(bounds: Bounds, margin: Border, border: Border)
    ensures var o := OutlineRect(bounds, margin, border);
      && o.x == (margin.left + border.left) as real
      && bounds.width - (o.x + o.width) == (margin.right + border.right) as real
      && o.y == (margin.top + border.top) as real
      && bounds.height - (o.y + o.height) == (margin.bottom + border.bottom) as real
  {
  }

  /**
   * With non-negative insets that fit, the outline lies within the button's
   * own rectangle and has a non-negative size.
   */
  lemma OutlineWithinButton(bounds: Bounds, margin: Border, border: Border)
    requires margin.left >= 0 && margin.right >= 0 && margin.top >= 0 && margin.bottom >= 0
    requires border.left >= 0 && border.right >= 0 && border.top >= 0 && border.bottom >= 0
    requires (margin.left + border.left + margin.right + border.right) as real <= bounds.width
    requires (margin.top + border.top + margin.bottom + border.bottom) as real <= bounds.height
    ensures var o := OutlineRect(bounds, margin, border);
      && Within(o, Bounds(0.0, 0.0, bounds.width, bounds.height))
      && o.width >= 0.0 && o.height >= 0.0
  {
  }

  /** Without margin or border the outline is the whole button. */
  lemma OutlineWithoutInsets(bounds: Bounds)
    ensures OutlineRect(bounds, Border(0, 0, 0, 0), Border(0, 0, 0, 0))
         == Bounds(0.0, 0.0, bounds.width, bounds.height)
  {
  }

  // ---------------------------------------------------------------------
  // The icon in render_button_in_context

  /**
   * Where the icon is drawn: a `width` x `height` pixel surface at output
   * scale `scaleFactor` covers `width / scaleFactor` x `height / scaleFactor`
   * of the button, and the offset centres that area in the button.
   */
  function IconOffset(bounds: Bounds, width: int, height: int, scaleFactor: int): Point
    requires scaleFactor != 0
  {
    Point((bounds.width - width as real / scaleFactor as real) / 2.0,
          (bounds.height - height as real / scaleFactor as real) / 2.0)
  }

  /**
   * The icon is centred: the centre of its area is the button's centre, and
   * an icon no larger than the button stays inside it.
   */
  lemma IconCentred(bounds: Bounds, width: int, height: int, scaleFactor: int)
    requires scaleFactor != 0
    ensures var o, iw, ih := IconOffset(bounds, width, height, scaleFactor),
                             width as real / scaleFactor as real, height as real / scaleFactor as real;
      && o.x + iw / 2.0 == bounds.width / 2.0
      && o.y + ih / 2.0 == bounds.height / 2.0
      && (iw <= bounds.width ==> 0.0 <= o.x && o.x + iw <= bounds.width)
      && (ih <= bounds.height ==> 0.0 <= o.y && o.y + ih <= bounds.height)
  {
  }

  /** What a button shows besides its outline. */
  datatype Content = IconContent(iconName: string) | LabelContent(text: string) | OutlineOnly

  /**
   * `render_button_in_context` and `eek_renderer_render_button_label`: the
   * icon when the button names one and the icon theme yields a surface for
   * it (`iconLoads`, foreign code), otherwise the label if there is one,
   * otherwise nothing but the outline.
   */
  function ButtonContent(button: Button, iconLoads: bool): (c: Content)
    ensures c.IconContent? <==> button.iconName.Some? && iconLoads
    ensures c.IconContent? ==> c.iconName == button.iconName.value
    ensures c.LabelContent? <==> !(button.iconName.Some? && iconLoads) && button.labelText.Some?
    ensures c.LabelContent? ==> c.text == button.labelText.value
  {
    if button.iconName.Some? && iconLoads then IconContent(button.iconName.value)
    else if button.labelText.Some? then LabelContent(button.labelText.value)
    else OutlineOnly
  }

  // ---------------------------------------------------------------------
  // eek_renderer_render_button_label

  /**
   * The factor the label's font is scaled by: the smaller of the button's
   * width and height ratios once the border width is taken off.
   */
  function LabelScale(bounds: Bounds, borderWidth: real): real
    requires bounds.width != 0.0 && bounds.height != 0.0
  {
    var sx := (bounds.width - borderWidth) / bounds.width;
    var sy := (bounds.height - borderWidth) / bounds.height;
    Min(sx, sy)
  }

  /**
   * For a button of positive size the scaled button fits in both directions
   * once the border is taken off, and fills one of them exactly; without a
   * border nothing is scaled, and a non-negative border never enlarges.
   */
  lemma LabelScaleFits(bounds: Bounds, borderWidth: real)
    requires bounds.width > 0.0 && bounds.height > 0.0
    ensures var s, w, h := LabelScale(bounds, borderWidth), bounds.width, bounds.height;
      && s * w <= w - borderWidth
      && s * h <= h - borderWidth
      && (s * w == w - borderWidth || s * h == h - borderWidth)
      && (borderWidth == 0.0 ==> s == 1.0)
      && (borderWidth >= 0.0 ==> s <= 1.0)
  {
    var w, h, b := bounds.width, bounds.height, borderWidth;
    var sx, sy := (w - b) / w, (h - b) / h;
    assert sx * w == w - b;
    assert sy * h == h - b;
    if sx < sy {
      MulMono(h, sx, sx, sy);
    } else {
      MulMono(w, sy, sy, sx);
    }
  }

  /** C's `round`: to the nearest integer, halves away from zero. */
  function Round(x: real): (n: int)
    ensures x >= 0.0 ==> x - 0.5 < n as real <= x + 0.5
    ensures x < 0.0 ==> x - 0.5 <= n as real < x + 0.5
    ensures x >= 0.0 ==> n >= 0
    ensures x <= 0.0 ==> n <= 0
  {
    if x >= 0.0 then (x + 0.5).Floor else -((-x + 0.5).Floor)
  }

  /** The font size the renderer sets on its first label: `round(30000.0 * 0.6)`. */
  const BaseFontSize: int := Round(30000.0 * 0.6)

  /** A label's font size: the base size scaled and rounded. */
  function LabelFontSize(size: int, scale: real): int {
    Round(size as real * scale)
  }

  /** The base size is 18000 Pango units, and the scaled size never exceeds it. */
  lemma LabelFontSizeBounded(size: int, scale: real)
    requires size >= 0 && 0.0 <= scale <= 1.0
    ensures BaseFontSize == 18000
    ensures 0 <= LabelFontSize(size, scale) <= size
  {
    var x := size as real * scale;
    MulMono(size as real, 0.0, scale, 1.0);
    var n := Round(x);
    assert 0.0 <= x <= size as real;
    assert n as real <= size as real + 0.5 && n as real >= -0.5;
  }

  // ---------------------------------------------------------------------
  // eek_renderer_apply_transformation_for_button

  /**
   * The translation applied before the rotation so that a rotated button
   * is drawn with its bounding box starting at the origin: for a negative
   * sine `(0, -width s)`, otherwise `(height s, 0)`.
   */
  function PivotOffset(bounds: Bounds, s: real): Point {
    if s < 0.0 then Point(0.0, -bounds.width * s) else Point(bounds.height * s, 0.0)
  }

  /**
   * The transformation `eek_renderer_apply_transformation_for_button` sets
   * up, applied to a point of the button: scale, then the pivot offset, then
   * the rotation by the row angle.
   */
  function ButtonTransform(place: ButtonPlace, scale: real, trig: Trig, p: Point): Point {
    var r := trig(place.row.angle);
    Scale(Add(PivotOffset(place.button.bounds, r.sin), Rotate(p, r)), scale)
  }

  /** The first corner of a button at the origin stays where it is. */
  lemma RotatedOriginCorner0(w: real, h: real, r: Rotation)
    ensures RotatedCorners(Bounds(0.0, 0.0, w, h), r)[0] == Point(0.0, 0.0)
  {
  }

  /** The second corner, (w, 0), turns to (w cos, w sin). */
  lemma RotatedOriginCorner1(w: real, h: real, r: Rotation)
    ensures RotatedCorners(Bounds(0.0, 0.0, w, h), r)[1] == Point(w * r.cos, w * r.sin)
  {
  }

  /** The third corner, (w, h), turns to (w cos - h sin, w sin + h cos). */
  lemma RotatedOriginCorner2(w: real, h: real, r: Rotation)
    ensures RotatedCorners(Bounds(0.0, 0.0, w, h), r)[2]
         == Point(w * r.cos - h * r.sin, w * r.sin + h * r.cos)
  {
  }

  /** The fourth corner, (0, h), turns to (-h sin, h cos). */
  lemma RotatedOriginCorner3(w: real, h: real, r: Rotation)
    ensures RotatedCorners(Bounds(0.0, 0.0, w, h), r)[3] == Point(-(h * r.sin), h * r.cos)
  {
  }

  /**
   * For a rotation with a non-negative cosine (angles from -90 to 90
   * degrees) the pivot offset followed by the rotation takes every point of
   * the button to non-negative coordinates ...
   */
  lemma PivotKeepsButtonInView(b: Bounds, r: Rotation, p: Point)
    requires b.width >= 0.0 && b.height >= 0.0 && r.cos >= 0.0
    requires Contains(Bounds(0.0, 0.0, b.width, b.height), p)
    ensures var moved := Add(PivotOffset(b, r.sin), Rotate(p, r)); moved.x >= 0.0 && moved.y >= 0.0
  {
    var c, s := r.cos, r.sin;
    MulMono(c, 0.0, p.x, p.x);
    MulMono(c, 0.0, p.y, p.y);
    if s < 0.0 {
      MulMono(p.y, s, s, 0.0);
      MulMono(-s, p.x, p.x, b.width);
      assert -b.width * s == (-s) * b.width && p.x * s == -((-s) * p.x);
    } else {
      MulMono(s, p.y, p.y, b.height);
      MulMono(p.x, 0.0, s, s);
    }
  }

  /**
   * ... and some corner lands on x = 0 and some corner on y = 0, so the
   * rotated button's bounding box starts exactly at the origin.
   */
  lemma PivotReachesOrigin(b: Bounds, r: Rotation) returns (i: int, j: int)
    ensures 0 <= i < 4 && 0 <= j < 4
    ensures var rs := RotatedCorners(Bounds(0.0, 0.0, b.width, b.height), r);
      && Add(PivotOffset(b, r.sin), rs[i]).x == 0.0
      && Add(PivotOffset(b, r.sin), rs[j]).y == 0.0
  {
    var w, h := b.width, b.height;
    RotatedOriginCorner0(w, h, r);
    if r.sin < 0.0 {
      RotatedOriginCorner1(w, h, r);
      i, j := 0, 1;
    } else {
      RotatedOriginCorner3(w, h, r);
      i, j := 3, 0;
    }
  }

  /**
   * Hence every point of such a button is drawn at non-negative
   * coordinates, whatever the non-negative scale.
   */
  lemma ButtonTransformNonNegative(place: ButtonPlace, scale: real, trig: Trig, p: Point)
    requires var b := place.button.bounds; b.width >= 0.0 && b.height >= 0.0
    requires trig(place.row.angle).cos >= 0.0 && scale >= 0.0
    requires Contains(Bounds(0.0, 0.0, place.button.bounds.width, place.button.bounds.height), p)
    ensures var t := ButtonTransform(place, scale, trig, p); t.x >= 0.0 && t.y >= 0.0
  {
    var b, r := place.button.bounds, trig(place.row.angle);
    PivotKeepsButtonInView(b, r, p);
    var moved := Add(PivotOffset(b, r.sin), Rotate(p, r));
    MulMono(scale, 0.0, moved.x, moved.x);
    MulMono(scale, 0.0, moved.y, moved.y);
  }

  /** The absolute value of a product with a non-negative first factor. */
  lemma AbsProduct(a: real, b: real)
    requires a >= 0.0
    ensures b >= 0.0 ==> Abs(a * b) == a * b
    ensures b < 0.0 ==> Abs(a * b) == -(a * b)
  {
    if b < 0.0 {
      MulMono(a, b, b, 0.0);
    } else {
      MulMono(a, 0.0, b, b);
    }
  }

  /** Along x, for a negative sine: x c - y s <= abs(w c) + abs(h s). */
  lemma SpanBoundNegativeX(w: real, h: real, c: real, s: real, x: real, y: real)
    requires 0.0 <= x <= w && 0.0 <= y <= h && c >= 0.0 && s < 0.0
    ensures x * c - y * s <= Abs(w * c) + Abs(h * s)
  {
    AbsProduct(w, c);
    AbsProduct(h, s);
    MulMono(c, x, x, w);
    MulMono(-s, y, y, h);
  }

  /** Along y, for a negative sine: -w s + x s + y c <= abs(w s) + abs(h c). */
  lemma SpanBoundNegativeY(w: real, h: real, c: real, s: real, x: real, y: real)
    requires 0.0 <= x <= w && 0.0 <= y <= h && c >= 0.0 && s < 0.0
    ensures -w * s + (x * s + y * c) <= Abs(w * s) + Abs(h * c)
  {
    AbsProduct(w, s);
    AbsProduct(h, c);
    MulMono(-s, 0.0, w - x, w);
    MulMono(c, y, y, h);
    assert -w * s + (x * s + y * c) == (-s) * (w - x) + c * y;
  }

  /** Along x, for a non-negative sine: h s + x c - y s <= abs(w c) + abs(h s). */
  lemma SpanBoundPositiveX(w: real, h: real, c: real, s: real, x: real, y: real)
    requires 0.0 <= x <= w && 0.0 <= y <= h && c >= 0.0 && s >= 0.0
    ensures h * s + (x * c - y * s) <= Abs(w * c) + Abs(h * s)
  {
    AbsProduct(w, c);
    AbsProduct(h, s);
    MulMono(s, 0.0, h - y, h);
    MulMono(c, x, x, w);
    assert h * s + (x * c - y * s) == s * (h - y) + c * x;
  }

  /** Along y, for a non-negative sine: x s + y c <= abs(w s) + abs(h c). */
  lemma SpanBoundPositiveY(w: real, h: real, c: real, s: real, x: real, y: real)
    requires 0.0 <= x <= w && 0.0 <= y <= h && c >= 0.0 && s >= 0.0
    ensures x * s + y * c <= Abs(w * s) + Abs(h * c)
  {
    AbsProduct(w, s);
    AbsProduct(h, c);
    MulMono(s, x, x, w);
    MulMono(c, y, y, h);
  }

  /**
   * For a rotation with a non-negative cosine the pivot offset followed by
   * the rotation keeps every point of the button below abs(w cos) + abs(h sin)
   * along x and abs(w sin) + abs(h cos) along y ...
   */
  lemma PivotKeepsButtonInSpan(b: Bounds, r: Rotation, p: Point)
    requires b.width >= 0.0 && b.height >= 0.0 && r.cos >= 0.0
    requires Contains(Bounds(0.0, 0.0, b.width, b.height), p)
    ensures Add(PivotOffset(b, r.sin), Rotate(p, r)).x <= Abs(b.width * r.cos) + Abs(b.height * r.sin)
    ensures Add(PivotOffset(b, r.sin), Rotate(p, r)).y <= Abs(b.width * r.sin) + Abs(b.height * r.cos)
  {
    if r.sin < 0.0 {
      assert PivotOffset(b, r.sin) == Point(0.0, -b.width * r.sin);
      SpanBoundNegativeX(b.width, b.height, r.cos, r.sin, p.x, p.y);
      SpanBoundNegativeY(b.width, b.height, r.cos, r.sin, p.x, p.y);
    } else {
      assert PivotOffset(b, r.sin) == Point(b.height * r.sin, 0.0);
      SpanBoundPositiveX(b.width, b.height, r.cos, r.sin, p.x, p.y);
      SpanBoundPositiveY(b.width, b.height, r.cos, r.sin, p.x, p.y);
    }
  }

  /** For a negative sine, corners 2 and 3 reach the two bounds. */
  lemma SpanReachedNegative(w: real, h: real, c: real, s: real)
    requires w >= 0.0 && h >= 0.0 && c >= 0.0 && s < 0.0
    ensures 0.0 + (w * c - h * s) == Abs(w * c) + Abs(h * s)
    ensures -w * s + h * c == Abs(w * s) + Abs(h * c)
  {
    AbsProduct(w, c);
    AbsProduct(h, s);
    AbsProduct(w, s);
    AbsProduct(h, c);
  }

  /** For a non-negative sine, corners 1 and 2 reach the two bounds. */
  lemma SpanReachedPositive(w: real, h: real, c: real, s: real)
    requires w >= 0.0 && h >= 0.0 && c >= 0.0 && s >= 0.0
    ensures h * s + w * c == Abs(w * c) + Abs(h * s)
    ensures 0.0 + (w * s + h * c) == Abs(w * s) + Abs(h * c)
  {
    AbsProduct(w, c);
    AbsProduct(h, s);
    AbsProduct(w, s);
    AbsProduct(h, c);
  }

  /**
   * ... and some corner reaches each of those two bounds, so the rotated
   * button spans exactly abs(w cos) + abs(h sin) by abs(w sin) + abs(h cos).
   */
  lemma PivotReachesSpan(b: Bounds, r: Rotation) returns (i: int, j: int)
    requires b.width >= 0.0 && b.height >= 0.0 && r.cos >= 0.0
    ensures 0 <= i < 4 && 0 <= j < 4
    ensures Add(PivotOffset(b, r.sin), RotatedCorners(Bounds(0.0, 0.0, b.width, b.height), r)[i]).x
         == Abs(b.width * r.cos) + Abs(b.height * r.sin)
    ensures Add(PivotOffset(b, r.sin), RotatedCorners(Bounds(0.0, 0.0, b.width, b.height), r)[j]).y
         == Abs(b.width * r.sin) + Abs(b.height * r.cos)
  {
    RotatedOriginCorner2(b.width, b.height, r);
    if r.sin < 0.0 {
      RotatedOriginCorner3(b.width, b.height, r);
      SpanReachedNegative(b.width, b.height, r.cos, r.sin);
      i, j := 2, 3;
    } else {
      RotatedOriginCorner1(b.width, b.height, r);
      SpanReachedPositive(b.width, b.height, r.cos, r.sin);
      i, j := 1, 2;
    }
  }


  /**
   * The region the transformation paints a button into, before scaling:
   * every point of the button lands in [0, abs(w cos) + abs(h sin)] x
   * [0, abs(w sin) + abs(h cos)], which `TightSize` shows is the size of the
   * button's tight box.
   */
  lemma PaintedSpan(b: Bounds, r: Rotation, p: Point)
    requires b.width >= 0.0 && b.height >= 0.0 && r.cos >= 0.0
    requires Contains(Bounds(0.0, 0.0, b.width, b.height), p)
    ensures Contains(Bounds(0.0, 0.0, Abs(b.width * r.cos) + Abs(b.height * r.sin),
                            Abs(b.width * r.sin) + Abs(b.height * r.cos)),
                     Add(PivotOffset(b, r.sin), Rotate(p, r)))
  {
    PivotKeepsButtonInView(b, r, p);
    PivotKeepsButtonInSpan(b, r, p);
  }
}
