/**
 * The view-space bounding box of a button whose row may be rotated
 * (`eek_renderer_get_button_bounds`).
 */
module ButtonBounds {
  import opened Geometry
  import opened Layout

  /** The rectangle spanned from `lo` to `hi`, translated by `d`. */
  function SpanAt(d: Point, lo: Point, hi: Point): Bounds {
    Bounds(d.x + lo.x, d.y + lo.y, hi.x - lo.x, hi.y - lo.y)
  }

  /** The corners of `button`, in row coordinates, rotated about the row origin. */
  function RotatedCorners(button: Bounds, r: Rotation): (rs: seq<Point>)
    ensures |rs| == 4
  {
    Place(Corners(button), r, Point(0.0, 0.0))
  }

  /**
   * The box `eek_renderer_get_button_bounds` computes, as written: the running
   * minimum starts at the UNROTATED corner 2 and the running maximum at the
   * UNROTATED corner 0; both then take in the four rotated corners; the result
   * is translated by the view and row origins.
   */
  function ButtonBoundsOf(view: Bounds, row: Bounds, angle: int, button: Bounds, trig: Trig): Bounds {
    var cs := Corners(button);
    var rs := RotatedCorners(button, trig(angle));
    SpanAt(Point(view.x + row.x, view.y + row.y), LowerAll(cs[2], rs), UpperAll(cs[0], rs))
  }

  /**
   * `eek_renderer_get_button_bounds`: builds the corner array, rotates each
   * corner in place and updates `min` and `max` as it goes.
   */
  method GetButtonBounds(view: Bounds, place: ButtonPlace, trig: Trig) returns (bounds: Bounds)
    ensures bounds == ButtonBoundsOf(view, place.row.bounds, place.row.angle, place.button.bounds, trig)
  {
    var buttonBounds := place.button.bounds;
    var rowBounds := place.row.bounds;
    var points := new Point[4];
    points[0] := Point(buttonBounds.x, buttonBounds.y);
    points[1] := Point(points[0].x + buttonBounds.width, points[0].y);
    points[2] := Point(points[1].x, points[1].y + buttonBounds.height);
    points[3] := Point(points[0].x, points[2].y);
    ghost var cs := Corners(buttonBounds);

    var angle := place.row.angle;
    ghost var rs := RotatedCorners(buttonBounds, trig(angle));
    var min, max := points[2], points[0];
    for i := 0 to 4
      invariant points[..] == rs[..i] + cs[i..]
      invariant min == LowerAll(cs[2], rs[..i])
      invariant max == UpperAll(cs[0], rs[..i])
    {
      assert points[i] == cs[i];
      points[i] := Rotate(points[i], trig(angle));
      assert points[i] == rs[i];
      SpliceStep(rs, cs, i);
      if points[i].x < min.x {
        min := min.(x := points[i].x);
      }
      if points[i].x > max.x {
        max := max.(x := points[i].x);
      }
      if points[i].y < min.y {
        min := min.(y := points[i].y);
      }
      if points[i].y > max.y {
        max := max.(y := points[i].y);
      }
      LowerAllStep(cs[2], rs, i);
      UpperAllStep(cs[0], rs, i);
    }
    assert rs[..4] == rs;
    bounds := Bounds(view.x + rowBounds.x + min.x, view.y + rowBounds.y + min.y,
                     max.x - min.x, max.y - min.y);
  }

  /**
   * The box has a non-negative size and holds every rotated corner of the
   * button, translated by the view and row origins.
   */
  lemma ButtonBoundsContainCorners(view: Bounds, row: Bounds, angle: int, button: Bounds, trig: Trig)
    ensures var b := ButtonBoundsOf(view, row, angle, button, trig);
      var ps := Place(Corners(button), trig(angle), Point(view.x + row.x, view.y + row.y));
      && b.width >= 0.0 && b.height >= 0.0
      && forall i :: 0 <= i < 4 ==> Contains(b, ps[i])
  {
    var rs := RotatedCorners(button, trig(angle));
    var cs := Corners(button);
    LowerAllBelow(cs[2], rs);
    UpperAllAbove(cs[0], rs);
  }

  /**
   * In an unrotated row the box is the button's own bounds moved by the view
   * and row origins, with its width and height unchanged.
   */
  lemma ButtonBoundsUnrotated(view: Bounds, row: Bounds, button: Bounds, trig: Trig)
    requires trig(0) == Identity
    requires button.width >= 0.0 && button.height >= 0.0
    ensures ButtonBoundsOf(view, row, 0, button, trig)
         == Bounds(view.x + row.x + button.x, view.y + row.y + button.y, button.width, button.height)
  {
    var cs := Corners(button);
    var rs := RotatedCorners(button, trig(0));
    forall i | 0 <= i < 4 ensures rs[i] == cs[i] {
      RotateIdentity(cs[i]);
    }
    assert rs == [cs[0], cs[1], cs[2], cs[3]];
    LowerAllFour(cs[2], cs[0], cs[1], cs[2], cs[3]);
    UpperAllFour(cs[0], cs[0], cs[1], cs[2], cs[3]);
  }

  /**
   * The box the loop evidently means: the running minimum and maximum both
   * start at the first rotated corner, so only rotated corners take part.
   */
  function TightButtonBounds(view: Bounds, row: Bounds, angle: int, button: Bounds, trig: Trig): Bounds {
    var rs := RotatedCorners(button, trig(angle));
    SpanAt(Point(view.x + row.x, view.y + row.y), LowerAll(rs[0], rs), UpperAll(rs[0], rs))
  }

  /** `inner` lies inside `outer`. */
  predicate Within(inner: Bounds, outer: Bounds) {
    outer.x <= inner.x && inner.x + inner.width <= outer.x + outer.width
    && outer.y <= inner.y && inner.y + inner.height <= outer.y + outer.height
  }

  /**
   * The box spanned by the running minimum and maximum of `rs`, both started
   * at `rs[0]`, holds every point of `rs` moved by `d`, and each of its edges
   * passes through one of them.
   */
  lemma SpanIsSmallest(d: Point, rs: seq<Point>)
    requires |rs| > 0
    ensures var b := SpanAt(d, LowerAll(rs[0], rs), UpperAll(rs[0], rs));
      && b.width >= 0.0 && b.height >= 0.0
      && (forall i :: 0 <= i < |rs| ==> Contains(b, Add(rs[i], d)))
      && (exists i :: 0 <= i < |rs| && Add(rs[i], d).x == b.x)
      && (exists i :: 0 <= i < |rs| && Add(rs[i], d).x == b.x + b.width)
      && (exists i :: 0 <= i < |rs| && Add(rs[i], d).y == b.y)
      && (exists i :: 0 <= i < |rs| && Add(rs[i], d).y == b.y + b.height)
  {
    var lo, hi := LowerAll(rs[0], rs), UpperAll(rs[0], rs);
    LowerAllBelow(rs[0], rs);
    UpperAllAbove(rs[0], rs);
    LowerAllAttained(rs[0], rs);
    UpperAllAttained(rs[0], rs);
    if lo.x == rs[0].x { assert Add(rs[0], d).x == d.x + lo.x; }
    if hi.x == rs[0].x { assert Add(rs[0], d).x == d.x + hi.x; }
    if lo.y == rs[0].y { assert Add(rs[0], d).y == d.y + lo.y; }
    if hi.y == rs[0].y { assert Add(rs[0], d).y == d.y + hi.y; }
    var i0 :| 0 <= i0 < |rs| && lo.x == rs[i0].x;
    assert Add(rs[i0], d).x == d.x + lo.x;
    var i1 :| 0 <= i1 < |rs| && hi.x == rs[i1].x;
    assert Add(rs[i1], d).x == d.x + hi.x;
    var i2 :| 0 <= i2 < |rs| && lo.y == rs[i2].y;
    assert Add(rs[i2], d).y == d.y + lo.y;
    var i3 :| 0 <= i3 < |rs| && hi.y == rs[i3].y;
    assert Add(rs[i3], d).y == d.y + hi.y;
  }

  /**
   * The tight box is the smallest axis-aligned box around the rotated corners:
   * it holds all four, and each of its four edges passes through one of them.
   */
  lemma TightBoundsAreSmallest(view: Bounds, row: Bounds, angle: int, button: Bounds, trig: Trig)
    ensures var b := TightButtonBounds(view, row, angle, button, trig);
      var ps := Place(Corners(button), trig(angle), Point(view.x + row.x, view.y + row.y));
      && b.width >= 0.0 && b.height >= 0.0
      && (forall i :: 0 <= i < 4 ==> Contains(b, ps[i]))
      && (exists i :: 0 <= i < 4 && ps[i].x == b.x)
      && (exists i :: 0 <= i < 4 && ps[i].x == b.x + b.width)
      && (exists i :: 0 <= i < 4 && ps[i].y == b.y)
      && (exists i :: 0 <= i < 4 && ps[i].y == b.y + b.height)
  {
    var rs := RotatedCorners(button, trig(angle));
    var d := Point(view.x + row.x, view.y + row.y);
    var ps := Place(Corners(button), trig(angle), d);
    SpanIsSmallest(d, rs);
    assert forall i :: 0 <= i < 4 ==> ps[i] == Add(rs[i], d);
  }

  /** The box as written always holds the tight box. */
  lemma AsWrittenContainsTight(view: Bounds, row: Bounds, angle: int, button: Bounds, trig: Trig)
    ensures Within(TightButtonBounds(view, row, angle, button, trig),
                   ButtonBoundsOf(view, row, angle, button, trig))
  {
    var cs := Corners(button);
    var rs := RotatedCorners(button, trig(angle));
    var lo, hi := LowerAll(rs[0], rs), UpperAll(rs[0], rs);
    var wlo, whi := LowerAll(cs[2], rs), UpperAll(cs[0], rs);
    LowerAllBelow(cs[2], rs);
    UpperAllAbove(cs[0], rs);
    LowerAllAttained(rs[0], rs);
    UpperAllAttained(rs[0], rs);
    assert wlo.x <= lo.x && wlo.y <= lo.y;
    assert hi.x <= whi.x && hi.y <= whi.y;
  }

  /** The corners of a button after a quarter turn. */
  lemma QuarterCorners(b: Bounds)
    ensures RotatedCorners(b, Rotation(0.0, 1.0))
         == [Point(-b.y, b.x), Point(-b.y, b.x + b.width),
             Point(-(b.y + b.height), b.x + b.width), Point(-(b.y + b.height), b.x)]
  {
    var cs := Corners(b);
    var rs := RotatedCorners(b, Rotation(0.0, 1.0));
    forall i | 0 <= i < 4 ensures rs[i] == Point(-cs[i].y, cs[i].x) {
      RotateQuarter(cs[i]);
    }
  }

  /**
   * After a quarter turn the tight box is the button with its width and
   * height swapped, its left edge at minus its bottom and its top at its left.
   */
  lemma QuarterTurnTight(view: Bounds, row: Bounds, button: Bounds, trig: Trig)
    requires trig(90) == Rotation(0.0, 1.0)
    requires button.width >= 0.0 && button.height >= 0.0
    ensures TightButtonBounds(view, row, 90, button, trig)
         == Bounds(view.x + row.x - (button.y + button.height), view.y + row.y + button.x,
                   button.height, button.width)
  {
    var rs := RotatedCorners(button, trig(90));
    QuarterCorners(button);
    assert rs == [rs[0], rs[1], rs[2], rs[3]];
    LowerAllFour(rs[0], rs[0], rs[1], rs[2], rs[3]);
    UpperAllFour(rs[0], rs[0], rs[1], rs[2], rs[3]);
  }

  /**
   * After a quarter turn the box as written also reaches to the unrotated
   * corners 2 (its minimum) and 0 (its maximum).
   */
  lemma QuarterTurnAsWritten(view: Bounds, row: Bounds, button: Bounds, trig: Trig)
    requires trig(90) == Rotation(0.0, 1.0)
    requires button.width >= 0.0 && button.height >= 0.0
    ensures var x, y, w, h := button.x, button.y, button.width, button.height;
      ButtonBoundsOf(view, row, 90, button, trig)
      == SpanAt(Point(view.x + row.x, view.y + row.y),
                Point(Lower(x + w, -(y + h)), Lower(y + h, x)),
                Point(Upper(x, -y), Upper(y, x + w)))
  {
    var cs := Corners(button);
    var rs := RotatedCorners(button, trig(90));
    QuarterCorners(button);
    assert rs == [rs[0], rs[1], rs[2], rs[3]];
    LowerAllFour(cs[2], rs[0], rs[1], rs[2], rs[3]);
    UpperAllFour(cs[0], rs[0], rs[1], rs[2], rs[3]);
  }

  /**
   * The seeding as written: with the row turned by 90 degrees, a 10 x 10
   * button at x >= 10 in its row gets an (x + 10) x x box, where the rotated
   * button only covers 10 x 10 (at x = 100: a 110 x 100 box).
   */
  lemma SeedingCounterexample(trig: Trig, x: real)
    requires trig(90) == Rotation(0.0, 1.0) && x >= 10.0
    ensures ButtonBoundsOf(Bounds(0.0, 0.0, 0.0, 0.0), Bounds(0.0, 0.0, 0.0, 0.0), 90,
                           Bounds(x, 0.0, 10.0, 10.0), trig)
         == Bounds(-10.0, 10.0, x + 10.0, x)
    ensures TightButtonBounds(Bounds(0.0, 0.0, 0.0, 0.0), Bounds(0.0, 0.0, 0.0, 0.0), 90,
                              Bounds(x, 0.0, 10.0, 10.0), trig)
         == Bounds(-10.0, x, 10.0, 10.0)
  {
    var zero, button := Bounds(0.0, 0.0, 0.0, 0.0), Bounds(x, 0.0, 10.0, 10.0);
    QuarterTurnAsWritten(zero, zero, button, trig);
    QuarterTurnTight(zero, zero, button, trig);
  }

  /** The corners of a button after a quarter turn the other way. */
  lemma MinusQuarterCorners(b: Bounds)
    ensures RotatedCorners(b, Rotation(0.0, -1.0))
         == [Point(b.y, -b.x), Point(b.y, -(b.x + b.width)),
             Point(b.y + b.height, -(b.x + b.width)), Point(b.y + b.height, -b.x)]
  {
    var cs := Corners(b);
    var rs := RotatedCorners(b, Rotation(0.0, -1.0));
    forall i | 0 <= i < 4 ensures rs[i] == Point(cs[i].y, -cs[i].x) {
      RotateMinusQuarter(cs[i]);
    }
  }

  /**
   * After a quarter turn the other way the box as written reaches to the
   * unrotated corners 2 (its minimum) and 0 (its maximum).
   */
  lemma MinusQuarterTurnAsWritten(view: Bounds, row: Bounds, button: Bounds, trig: Trig)
    requires trig(-90) == Rotation(0.0, -1.0)
    requires button.width >= 0.0 && button.height >= 0.0
    ensures var x, y, w, h := button.x, button.y, button.width, button.height;
      ButtonBoundsOf(view, row, -90, button, trig)
      == SpanAt(Point(view.x + row.x, view.y + row.y),
                Point(Lower(x + w, y), Lower(y + h, -(x + w))),
                Point(Upper(x, y + h), Upper(y, -x)))
  {
    var cs := Corners(button);
    var rs := RotatedCorners(button, trig(-90));
    MinusQuarterCorners(button);
    assert rs == [rs[0], rs[1], rs[2], rs[3]];
    LowerAllFour(cs[2], rs[0], rs[1], rs[2], rs[3]);
    UpperAllFour(cs[0], rs[0], rs[1], rs[2], rs[3]);
  }

  /**
   * The seeding as written at -90 degrees: the same button as in
   * `SeedingCounterexample` gets an x x (x + 10) box, so the box as written
   * depends on the sense of the turn while the rotated button does not.
   */
  lemma SeedingMinusQuarter(trig: Trig, x: real)
    requires trig(-90) == Rotation(0.0, -1.0) && x >= 10.0
    ensures ButtonBoundsOf(Bounds(0.0, 0.0, 0.0, 0.0), Bounds(0.0, 0.0, 0.0, 0.0), -90,
                           Bounds(x, 0.0, 10.0, 10.0), trig)
         == Bounds(0.0, -(x + 10.0), x, x + 10.0)
  {
    var zero, button := Bounds(0.0, 0.0, 0.0, 0.0), Bounds(x, 0.0, 10.0, 10.0);
    MinusQuarterTurnAsWritten(zero, zero, button, trig);
  }

  /**
   * Turning a 10 x 10 button by +90 and by -90 degrees gives boxes as written
   * of different shapes, (x + 10) x x against x x (x + 10), while the tight
   * boxes of the two turns have the same size (`TightBoxSymmetric`).
   */
  lemma SeedingAsymmetric(trig: Trig, x: real)
    requires trig(90) == Rotation(0.0, 1.0) && trig(-90) == Rotation(0.0, -1.0) && x >= 10.0
    ensures ButtonBoundsOf(Bounds(0.0, 0.0, 0.0, 0.0), Bounds(0.0, 0.0, 0.0, 0.0), 90,
                           Bounds(x, 0.0, 10.0, 10.0), trig).width
         != ButtonBoundsOf(Bounds(0.0, 0.0, 0.0, 0.0), Bounds(0.0, 0.0, 0.0, 0.0), -90,
                           Bounds(x, 0.0, 10.0, 10.0), trig).width
  {
    SeedingCounterexample(trig, x);
    SeedingMinusQuarter(trig, x);
  }

  /** The spread of the four corners o, o + a, o + a + b, o + b along one axis. */
  lemma SpanOfParallelogram(o: real, p1: real, p2: real, p3: real, a: real, b: real)
    requires p1 == o + a && p2 == o + a + b && p3 == o + b
    ensures Upper(Upper(Upper(Upper(o, o), p1), p2), p3)
          - Lower(Lower(Lower(Lower(o, o), p1), p2), p3) == Abs(a) + Abs(b)
  {
  }

  /** The rotated corners 1, 2 and 3, as offsets from the rotated corner 0, along x. */
  lemma CornerOffsetsX(b: Bounds, r: Rotation)
    ensures RotatedCorners(b, r)[1].x == RotatedCorners(b, r)[0].x + b.width * r.cos
    ensures RotatedCorners(b, r)[2].x
         == RotatedCorners(b, r)[0].x + b.width * r.cos - b.height * r.sin
    ensures RotatedCorners(b, r)[3].x == RotatedCorners(b, r)[0].x - b.height * r.sin
  {
  }

  /** The rotated corners 1, 2 and 3, as offsets from the rotated corner 0, along y. */
  lemma CornerOffsetsY(b: Bounds, r: Rotation)
    ensures RotatedCorners(b, r)[1].y == RotatedCorners(b, r)[0].y + b.width * r.sin
    ensures RotatedCorners(b, r)[2].y
         == RotatedCorners(b, r)[0].y + b.width * r.sin + b.height * r.cos
    ensures RotatedCorners(b, r)[3].y == RotatedCorners(b, r)[0].y + b.height * r.cos
  {
  }

  /**
   * Four points that are a parallelogram o, o + a, o + a - b, o - b along x
   * spread abs(a) + abs(b) along x, from the running minimum to the maximum.
   */
  lemma ParallelogramSpreadX(ps: seq<Point>, a: real, b: real)
    requires |ps| == 4
    requires ps[1].x == ps[0].x + a && ps[2].x == ps[0].x + a - b && ps[3].x == ps[0].x - b
    ensures UpperAll(ps[0], ps).x - LowerAll(ps[0], ps).x == Abs(a) + Abs(b)
  {
    assert ps == [ps[0], ps[1], ps[2], ps[3]];
    LowerAllFour(ps[0], ps[0], ps[1], ps[2], ps[3]);
    UpperAllFour(ps[0], ps[0], ps[1], ps[2], ps[3]);
    SpanOfParallelogram(ps[0].x, ps[1].x, ps[2].x, ps[3].x, a, -b);
  }

  /** The same along y. */
  lemma ParallelogramSpreadY(ps: seq<Point>, a: real, b: real)
    requires |ps| == 4
    requires ps[1].y == ps[0].y + a && ps[2].y == ps[0].y + a + b && ps[3].y == ps[0].y + b
    ensures UpperAll(ps[0], ps).y - LowerAll(ps[0], ps).y == Abs(a) + Abs(b)
  {
    assert ps == [ps[0], ps[1], ps[2], ps[3]];
    LowerAllFour(ps[0], ps[0], ps[1], ps[2], ps[3]);
    UpperAllFour(ps[0], ps[0], ps[1], ps[2], ps[3]);
    SpanOfParallelogram(ps[0].y, ps[1].y, ps[2].y, ps[3].y, a, b);
  }

  /** The spread of the rotated corners along x: abs(w cos) + abs(h sin). */
  lemma TightWidth(view: Bounds, row: Bounds, angle: int, button: Bounds, trig: Trig)
    ensures TightButtonBounds(view, row, angle, button, trig).width
         == Abs(button.width * trig(angle).cos) + Abs(button.height * trig(angle).sin)
  {
    CornerOffsetsX(button, trig(angle));
    ParallelogramSpreadX(RotatedCorners(button, trig(angle)),
                         button.width * trig(angle).cos, button.height * trig(angle).sin);
  }

  /** The spread of the rotated corners along y: abs(w sin) + abs(h cos). */
  lemma TightHeight(view: Bounds, row: Bounds, angle: int, button: Bounds, trig: Trig)
    ensures TightButtonBounds(view, row, angle, button, trig).height
         == Abs(button.width * trig(angle).sin) + Abs(button.height * trig(angle).cos)
  {
    CornerOffsetsY(button, trig(angle));
    ParallelogramSpreadY(RotatedCorners(button, trig(angle)),
                         button.width * trig(angle).sin, button.height * trig(angle).cos);
  }

  /**
   * The tight box of a button of size w x h turned by (cos, sin) is
   * (abs(w cos) + abs(h sin)) x (abs(w sin) + abs(h cos)).
   */
  lemma TightSize(view: Bounds, row: Bounds, angle: int, button: Bounds, trig: Trig)
    ensures TightButtonBounds(view, row, angle, button, trig).width
         == Abs(button.width * trig(angle).cos) + Abs(button.height * trig(angle).sin)
    ensures TightButtonBounds(view, row, angle, button, trig).height
         == Abs(button.width * trig(angle).sin) + Abs(button.height * trig(angle).cos)
  {
    TightWidth(view, row, angle, button, trig);
    TightHeight(view, row, angle, button, trig);
  }

  /** A product with a negated factor is the negated product. */
  lemma NegatedFactor(a: real, s: real, t: real)
    requires t == -s
    ensures a * t == -(a * s)
  {
  }

  /**
   * Mirroring a turn leaves the spreads abs(w cos) + abs(h sin) and
   * abs(w sin) + abs(h cos) unchanged.
   */
  lemma MirroredSpans(w: real, h: real, c: real, s: real, c': real, s': real)
    requires c' == c && s' == -s
    ensures Abs(w * c') + Abs(h * s') == Abs(w * c) + Abs(h * s)
    ensures Abs(w * s') + Abs(h * c') == Abs(w * s) + Abs(h * c)
  {
    NegatedFactor(w, s, s');
    NegatedFactor(h, s, s');
  }

  /**
   * Two turns that mirror each other, the same cosine and opposite sines (an
   * angle and its opposite, for a table of angles whose cosine is even and
   * whose sine is odd), give tight boxes of the same size.
   */
  lemma TightBoxSymmetric(view: Bounds, row: Bounds, angle: int, mirrored: int, button: Bounds, trig: Trig)
    requires trig(mirrored).cos == trig(angle).cos && trig(mirrored).sin == -trig(angle).sin
    ensures TightButtonBounds(view, row, mirrored, button, trig).width
         == TightButtonBounds(view, row, angle, button, trig).width
    ensures TightButtonBounds(view, row, mirrored, button, trig).height
         == TightButtonBounds(view, row, angle, button, trig).height
  {
    TightSize(view, row, angle, button, trig);
    TightSize(view, row, mirrored, button, trig);
    MirroredSpans(button.width, button.height, trig(angle).cos, trig(angle).sin,
                  trig(mirrored).cos, trig(mirrored).sin);
  }

  /** A product lies between the products with the ends of the other factor's range. */
  lemma MulBetween(a: real, lo: real, v: real, hi: real)
    requires lo <= v <= hi
    ensures a >= 0.0 ==> a * lo <= a * v <= a * hi
    ensures a < 0.0 ==> a * hi <= a * v <= a * lo
  {
    if a >= 0.0 {
      MulMono(a, lo, v, hi);
    } else {
      MulMono(-a, lo, v, hi);
    }
  }

  /** The linear form a1 x + a2 y at `p`. */
  function Form(a1: real, a2: real, p: Point): real {
    a1 * p.x + a2 * p.y
  }

  /**
   * A linear form at a point inside a rectangle lies between its values at
   * two of the rectangle's corners, `i` and `j`.
   */
  lemma LinearBetweenCorners(b: Bounds, q: Point, a1: real, a2: real) returns (i: int, j: int)
    requires Contains(b, q)
    ensures 0 <= i < 4 && 0 <= j < 4
    ensures Form(a1, a2, Corners(b)[i]) <= Form(a1, a2, q) <= Form(a1, a2, Corners(b)[j])
  {
    var cs := Corners(b);
    var xlo, xhi := b.x, b.x + b.width;
    var ylo, yhi := b.y, b.y + b.height;
    assert cs[0] == Point(xlo, ylo) && cs[1] == Point(xhi, ylo);
    assert cs[2] == Point(xhi, yhi) && cs[3] == Point(xlo, yhi);
    var tx, ty := a1 * q.x, a2 * q.y;
    MulBetween(a1, xlo, q.x, xhi);
    MulBetween(a2, ylo, q.y, yhi);
    // the corner where the form is smallest, and the one where it is largest
    if a1 >= 0.0 && a2 >= 0.0 {
      i, j := 0, 2;
    } else if a1 >= 0.0 {
      i, j := 3, 1;
    } else if a2 >= 0.0 {
      i, j := 1, 3;
    } else {
      i, j := 2, 0;
    }
    assert a1 * cs[i].x <= tx <= a1 * cs[j].x;
    assert a2 * cs[i].y <= ty <= a2 * cs[j].y;
  }

  /** The x of a rotated point as a linear form of the point. */
  lemma RotateX(p: Point, r: Rotation)
    ensures Rotate(p, r).x == Form(r.cos, -r.sin, p)
  {
  }

  /** The y of a rotated point as a linear form of the point. */
  lemma RotateY(p: Point, r: Rotation)
    ensures Rotate(p, r).y == Form(r.sin, r.cos, p)
  {
  }

  /** A value between two of the points' x lies between their running extremes' x. */
  lemma BetweenExtremesX(rs: seq<Point>, i: int, j: int, v: real)
    requires 0 <= i < |rs| && 0 <= j < |rs| && rs[i].x <= v <= rs[j].x
    ensures LowerAll(rs[0], rs).x <= v <= UpperAll(rs[0], rs).x
  {
    LowerAllBelow(rs[0], rs);
    UpperAllAbove(rs[0], rs);
  }

  /** A value between two of the points' y lies between their running extremes' y. */
  lemma BetweenExtremesY(rs: seq<Point>, i: int, j: int, v: real)
    requires 0 <= i < |rs| && 0 <= j < |rs| && rs[i].y <= v <= rs[j].y
    ensures LowerAll(rs[0], rs).y <= v <= UpperAll(rs[0], rs).y
  {
    LowerAllBelow(rs[0], rs);
    UpperAllAbove(rs[0], rs);
  }

  /** The rotated point's x lies between the running extremes of the rotated corners' x. */
  lemma RotatedXBetween(button: Bounds, r: Rotation, q: Point)
    requires Contains(button, q)
    ensures var rs := RotatedCorners(button, r);
      LowerAll(rs[0], rs).x <= Rotate(q, r).x <= UpperAll(rs[0], rs).x
  {
    var cs := Corners(button);
    var rs := RotatedCorners(button, r);
    var i, j := LinearBetweenCorners(button, q, r.cos, -r.sin);
    RotateX(cs[i], r);
    RotateX(cs[j], r);
    RotateX(q, r);
    BetweenExtremesX(rs, i, j, Rotate(q, r).x);
  }

  /** The rotated point's y lies between the running extremes of the rotated corners' y. */
  lemma RotatedYBetween(button: Bounds, r: Rotation, q: Point)
    requires Contains(button, q)
    ensures var rs := RotatedCorners(button, r);
      LowerAll(rs[0], rs).y <= Rotate(q, r).y <= UpperAll(rs[0], rs).y
  {
    var cs := Corners(button);
    var rs := RotatedCorners(button, r);
    var i, j := LinearBetweenCorners(button, q, r.sin, r.cos);
    RotateY(cs[i], r);
    RotateY(cs[j], r);
    RotateY(q, r);
    BetweenExtremesY(rs, i, j, Rotate(q, r).y);
  }

  /**
   * Every point of the button's rectangle, rotated with the row and moved by
   * the view and row origins, lies in the tight box, hence in the box as
   * written too.
   */
  lemma RotatedButtonInBounds(view: Bounds, row: Bounds, angle: int, button: Bounds, trig: Trig, q: Point)
    requires Contains(button, q)
    ensures Contains(TightButtonBounds(view, row, angle, button, trig),
                     Add(Rotate(q, trig(angle)), Point(view.x + row.x, view.y + row.y)))
    ensures Contains(ButtonBoundsOf(view, row, angle, button, trig),
                     Add(Rotate(q, trig(angle)), Point(view.x + row.x, view.y + row.y)))
  {
    RotatedXBetween(button, trig(angle), q);
    RotatedYBetween(button, trig(angle), q);
    AsWrittenContainsTight(view, row, angle, button, trig);
  }
}
