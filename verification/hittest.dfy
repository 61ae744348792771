/**
 * `eek_are_bounds_inside`: is a point inside a button whose row is rotated?
 * The rotated rectangle is split into the triangles 0-1-2 and 2-3-0 and the
 * point is inside a triangle when the three cross products `sign` computes
 * for it all fall on the same side of zero.
 */
module HitTest {
  import opened Geometry
  import opened ButtonBounds

  /** The determinant of two vectors. */
  function Det(u: Point, v: Point): real {
    u.x * v.y - v.x * u.y
  }

  /** The cross product `sign` computes: (p1 - p3) x (p2 - p3). */
  function Cross(p1: Point, p2: Point, p3: Point): real {
    Det(Sub(p1, p3), Sub(p2, p3))
  }

  /**
   * A `double` converted to an integer type, as C does it: the fraction is
   * dropped, so the value is truncated toward zero.
   */
  function Trunc(v: real): (n: int)
    ensures v >= 0.0 ==> n as real <= v < n as real + 1.0
    ensures v < 0.0 ==> n as real - 1.0 < v <= n as real
  {
    if v >= 0.0 then v.Floor else -((-v).Floor)
  }

  /** `sign`: the cross product returned through a `gboolean`, an integer. */
  function Sign(p1: Point, p2: Point, p3: Point): int {
    Trunc(Cross(p1, p2, p3))
  }

  /** `sign` counts a cross product as negative only from -1 downwards. */
  lemma {:induction false} SignNegativeIff(p1: Point, p2: Point, p3: Point)
    ensures (Sign(p1, p2, p3) as real) < 0.0 <==> Cross(p1, p2, p3) <= -1.0
  {
    var v := Cross(p1, p2, p3);
    if v >= 0.0 {
    } else if v <= -1.0 {
      assert Trunc(v) as real - 1.0 < v;
    } else {
      assert -1.0 < v < 0.0;
      assert (-v).Floor == 0;
    }
  }

  /**
   * The flag `sign (...) < 0.0` as written: after the truncation in `sign`
   * it holds exactly when the cross product is at most -1 (`SignNegativeIff`).
   */
  predicate NegativeAsWritten(p1: Point, p2: Point, p3: Point) {
    Cross(p1, p2, p3) <= -1.0
  }

  /** The flag the test evidently means: the exact cross product is negative. */
  predicate NegativeExact(p1: Point, p2: Point, p3: Point) {
    Cross(p1, p2, p3) < 0.0
  }

  /** `b1 == b2 && b2 == b3` for the triangle a, b, c, as written. */
  predicate AgreeAsWritten(p: Point, a: Point, b: Point, c: Point) {
    var b1, b2, b3 := NegativeAsWritten(p, a, b), NegativeAsWritten(p, b, c), NegativeAsWritten(p, c, a);
    b1 == b2 && b2 == b3
  }

  /** The same test on exact cross products. */
  predicate AgreeExact(p: Point, a: Point, b: Point, c: Point) {
    var b1, b2, b3 := NegativeExact(p, a, b), NegativeExact(p, b, c), NegativeExact(p, c, a);
    b1 == b2 && b2 == b3
  }

  /** The result of `eek_are_bounds_inside` on the placed corners `ps`, as written. */
  predicate InsideAsWritten(ps: seq<Point>, p: Point)
    requires |ps| == 4
  {
    AgreeAsWritten(p, ps[0], ps[1], ps[2]) || AgreeAsWritten(p, ps[2], ps[3], ps[0])
  }

  /** The same test on exact cross products. */
  predicate InsideExact(ps: seq<Point>, p: Point)
    requires |ps| == 4
  {
    AgreeExact(p, ps[0], ps[1], ps[2]) || AgreeExact(p, ps[2], ps[3], ps[0])
  }

  /**
   * The loop of `eek_are_bounds_inside`: every point of the array is rotated
   * in place and then moved by `origin`.
   */
  method PlaceInPlace(points: array<Point>, r: Rotation, origin: Point)
    modifies points
    ensures points[..] == Place(old(points[..]), r, origin)
  {
    ghost var cs := points[..];
    ghost var ps := Place(cs, r, origin);
    for i := 0 to points.Length
      invariant points[..] == ps[..i] + cs[i..]
    {
      assert points[i] == cs[i];
      var p := Rotate(points[i], r);
      p := p.(x := p.x + origin.x);
      p := p.(y := p.y + origin.y);
      points[i] := p;
      SpliceStep(ps, cs, i);
    }
  }

  /**
   * `eek_are_bounds_inside`: builds the corners of `bounds`, rotates each by
   * the angle and moves it by `origin` in place, then tests triangle 0-1-2
   * and, failing that, triangle 2-3-0.
   */
  method AreBoundsInside(bounds: Bounds, point: Point, origin: Point, angle: int, trig: Trig)
    returns (inside: int)
    ensures inside == (if InsideAsWritten(Place(Corners(bounds), trig(angle), origin), point) then 1 else 0)
  {
    var points := new Point[4];
    points[0] := Point(bounds.x, bounds.y);
    points[1] := Point(points[0].x + bounds.width, points[0].y);
    points[2] := Point(points[1].x, points[1].y + bounds.height);
    points[3] := Point(points[0].x, points[2].y);
    assert points[..] == Corners(bounds);
    PlaceInPlace(points, trig(angle), origin);

    var b1 := (Sign(point, points[0], points[1]) as real) < 0.0;
    var b2 := (Sign(point, points[1], points[2]) as real) < 0.0;
    var b3 := (Sign(point, points[2], points[0]) as real) < 0.0;
    SignNegativeIff(point, points[0], points[1]);
    SignNegativeIff(point, points[1], points[2]);
    SignNegativeIff(point, points[2], points[0]);
    if b1 == b2 && b2 == b3 {
      return 1;
    }

    b1 := (Sign(point, points[2], points[3]) as real) < 0.0;
    b2 := (Sign(point, points[3], points[0]) as real) < 0.0;
    b3 := (Sign(point, points[0], points[2]) as real) < 0.0;
    SignNegativeIff(point, points[2], points[3]);
    SignNegativeIff(point, points[3], points[0]);
    SignNegativeIff(point, points[0], points[2]);
    if b1 == b2 && b2 == b3 {
      return 1;
    }
    return 0;
  }

  // ---------------------------------------------------------------------
  // From screen coordinates to button coordinates

  /** A rotation scales every determinant by cos^2 + sin^2. */
  lemma RotateDet(u: Point, v: Point, r: Rotation)
    ensures Det(Rotate(u, r), Rotate(v, r)) == (r.cos * r.cos + r.sin * r.sin) * Det(u, v)
  {
    var c, s := r.cos, r.sin;
    calc {
      Det(Rotate(u, r), Rotate(v, r));
      (u.x * c - u.y * s) * (v.x * s + v.y * c) - (v.x * c - v.y * s) * (u.x * s + u.y * c);
      u.x * v.y * (c * c) - u.y * v.x * (s * s) - v.x * u.y * (c * c) + v.y * u.x * (s * s);
      (c * c + s * s) * (u.x * v.y - v.x * u.y);
    }
  }

  /** Moving two points by the same offset keeps their difference. */
  lemma SubAdd(a: Point, b: Point, o: Point)
    ensures Sub(Add(a, o), Add(b, o)) == Sub(a, b)
  {
  }

  /**
   * Cross products do not change when all three points are rotated by a
   * proper rotation and moved by the same origin.
   */
  lemma CrossPlaced(a: Point, b: Point, c: Point, r: Rotation, o: Point)
    requires IsUnit(r)
    ensures Cross(Add(Rotate(a, r), o), Add(Rotate(b, r), o), Add(Rotate(c, r), o)) == Cross(a, b, c)
  {
    SubAdd(Rotate(a, r), Rotate(c, r), o);
    SubAdd(Rotate(b, r), Rotate(c, r), o);
    RotateSub(a, c, r);
    RotateSub(b, c, r);
    RotateDet(Sub(a, c), Sub(b, c), r);
  }

  /** The point in the row's frame, before rotation and translation. */
  function Local(point: Point, origin: Point, r: Rotation): Point {
    Unrotate(Sub(point, origin), r)
  }

  /** Placing the local point gives the point back. */
  lemma PlaceLocal(point: Point, origin: Point, r: Rotation)
    requires IsUnit(r)
    ensures Add(Rotate(Local(point, origin, r), r), origin) == point
  {
    RotateUnrotate(Sub(point, origin), r);
  }

  /** The placed test reads the same as the test on the button's own corners. */
  lemma PlacedAgree(bounds: Bounds, point: Point, origin: Point, r: Rotation)
    requires IsUnit(r)
    ensures var ps, cs, q := Place(Corners(bounds), r, origin), Corners(bounds), Local(point, origin, r);
      forall i, j :: 0 <= i < 4 && 0 <= j < 4 ==> Cross(point, ps[i], ps[j]) == Cross(q, cs[i], cs[j])
  {
    var ps, cs, q := Place(Corners(bounds), r, origin), Corners(bounds), Local(point, origin, r);
    forall i, j | 0 <= i < 4 && 0 <= j < 4
      ensures Cross(point, ps[i], ps[j]) == Cross(q, cs[i], cs[j])
    {
      PlaceLocal(point, origin, r);
      CrossPlaced(q, cs[i], cs[j], r, origin);
    }
  }

  // ---------------------------------------------------------------------
  // The six cross products in button coordinates

  /**
   * For triangle 0-1-2 of a w x h button and a point at (u, v) from its
   * top-left corner the three cross products are w v, h (w - u) and h u - w v.
   */
  lemma CrossesFirst(b: Bounds, q: Point)
    ensures var cs, u, v := Corners(b), q.x - b.x, q.y - b.y;
      && Cross(q, cs[0], cs[1]) == b.width * v
      && Cross(q, cs[1], cs[2]) == b.height * (b.width - u)
      && Cross(q, cs[2], cs[0]) == b.height * u - b.width * v
  {
  }

  /**
   * For triangle 2-3-0 they are w (h - v), h u and w v - h u.
   */
  lemma CrossesSecond(b: Bounds, q: Point)
    ensures var cs, u, v := Corners(b), q.x - b.x, q.y - b.y;
      && Cross(q, cs[2], cs[3]) == b.width * (b.height - v)
      && Cross(q, cs[3], cs[0]) == b.height * u
      && Cross(q, cs[0], cs[2]) == b.width * v - b.height * u
  {
  }

  // ---------------------------------------------------------------------
  // The test in button coordinates

  /** Three values all on the same side of zero: all negative or none. */
  predicate SameSide(x: real, y: real, z: real) {
    (x < 0.0) == (y < 0.0) && (y < 0.0) == (z < 0.0)
  }

  /** Multiplying by a positive factor keeps the sign. */
  lemma PosMulSign(a: real, x: real)
    requires a > 0.0
    ensures a * x < 0.0 <==> x < 0.0
  {
    if x < 0.0 {
      assert a * (-x) > 0.0;
    } else {
      assert a * x >= 0.0;
    }
  }

  /** A point of the w x h rectangle passes the exact test for one of the triangles. */
  lemma {:induction false} InRectSameSide(w: real, h: real, u: real, v: real)
    requires w > 0.0 && h > 0.0 && 0.0 <= u <= w && 0.0 <= v <= h
    ensures SameSide(w * v, h * (w - u), h * u - w * v) || SameSide(w * (h - v), h * u, w * v - h * u)
  {
    PosMulSign(w, v);
    PosMulSign(h, w - u);
    PosMulSign(w, h - v);
    PosMulSign(h, u);
  }

  /** A point passing the exact test for triangle 0-1-2 lies in the rectangle. */
  lemma {:induction false} SameSideFirstInRect(w: real, h: real, u: real, v: real)
    requires w > 0.0 && h > 0.0
    requires SameSide(w * v, h * (w - u), h * u - w * v)
    ensures 0.0 <= u <= w && 0.0 <= v <= h
  {
    assert w * v + h * (w - u) + (h * u - w * v) == h * w;
    PosMulSign(w, v);
    PosMulSign(h, w - u);
    PosMulSign(h, u);
    MulMono(h, 0.0, u, w);
    PosMulSign(w, h - v);
  }

  /** A point passing the exact test for triangle 2-3-0 lies in the rectangle. */
  lemma {:induction false} SameSideSecondInRect(w: real, h: real, u: real, v: real)
    requires w > 0.0 && h > 0.0
    requires SameSide(w * (h - v), h * u, w * v - h * u)
    ensures 0.0 <= u <= w && 0.0 <= v <= h
  {
    assert w * (h - v) + h * u + (w * v - h * u) == w * h;
    PosMulSign(w, h - v);
    PosMulSign(h, u);
    PosMulSign(w, v);
    MulMono(w, 0.0, v, h);
    PosMulSign(h, w - u);
  }

  /** Both tests give the same answer on the placed corners as on the button's own. */
  lemma PlacedTests(bounds: Bounds, point: Point, origin: Point, r: Rotation)
    requires IsUnit(r)
    ensures var ps, cs, q := Place(Corners(bounds), r, origin), Corners(bounds), Local(point, origin, r);
      && (InsideExact(ps, point) <==> InsideExact(cs, q))
      && (InsideAsWritten(ps, point) <==> InsideAsWritten(cs, q))
  {
    PlacedAgree(bounds, point, origin, r);
  }

  /**
   * The exact test for a point at (u, v) from the top-left corner of a
   * w x h button, in terms of the six cross products.
   */
  predicate ExactLocal(w: real, h: real, u: real, v: real) {
    ExactFirstLocal(w, h, u, v) || ExactSecondLocal(w, h, u, v)
  }

  /** The exact test for triangle 0-1-2, at (u, v) from the top-left corner of a w x h button. */
  predicate ExactFirstLocal(w: real, h: real, u: real, v: real) {
    SameSide(w * v, h * (w - u), h * u - w * v)
  }

  /** The exact test for triangle 2-3-0, in the same coordinates. */
  predicate ExactSecondLocal(w: real, h: real, u: real, v: real) {
    SameSide(w * (h - v), h * u, w * v - h * u)
  }

  /** With a positive width and height, the exact test is membership of the rectangle. */
  lemma ExactLocalIff(w: real, h: real, u: real, v: real)
    requires w > 0.0 && h > 0.0
    ensures ExactLocal(w, h, u, v) <==> 0.0 <= u <= w && 0.0 <= v <= h
  {
    if 0.0 <= u <= w && 0.0 <= v <= h {
      InRectSameSide(w, h, u, v);
    }
    if SameSide(w * v, h * (w - u), h * u - w * v) {
      SameSideFirstInRect(w, h, u, v);
    }
    if SameSide(w * (h - v), h * u, w * v - h * u) {
      SameSideSecondInRect(w, h, u, v);
    }
  }

  /** The exact test for triangle 0-1-2, in button coordinates. */
  lemma ExactFirst(b: Bounds, q: Point)
    ensures var cs, w, h, u, v := Corners(b), b.width, b.height, q.x - b.x, q.y - b.y;
      AgreeExact(q, cs[0], cs[1], cs[2]) <==> ExactFirstLocal(w, h, u, v)
  {
    CrossesFirst(b, q);
  }

  /** The exact test for triangle 2-3-0, in button coordinates. */
  lemma ExactSecond(b: Bounds, q: Point)
    ensures var cs, w, h, u, v := Corners(b), b.width, b.height, q.x - b.x, q.y - b.y;
      AgreeExact(q, cs[2], cs[3], cs[0]) <==> ExactSecondLocal(w, h, u, v)
  {
    CrossesSecond(b, q);
  }

  /** The exact test on the button's own corners, in button coordinates. */
  lemma ExactCorners(b: Bounds, q: Point)
    ensures InsideExact(Corners(b), q) <==> ExactLocal(b.width, b.height, q.x - b.x, q.y - b.y)
  {
    ExactFirst(b, q);
    ExactSecond(b, q);
  }

  /**
   * The exact test with a positive width and height: a point passes exactly
   * when, carried back into the row's frame, it lies in the button's bounds.
   */
  lemma ExactHitIff(bounds: Bounds, point: Point, origin: Point, r: Rotation)
    requires IsUnit(r) && bounds.width > 0.0 && bounds.height > 0.0
    ensures InsideExact(Place(Corners(bounds), r, origin), point)
        <==> Contains(bounds, Local(point, origin, r))
  {
    var q := Local(point, origin, r);
    PlacedTests(bounds, point, origin, r);
    ExactCorners(bounds, q);
    ExactLocalIff(bounds.width, bounds.height, q.x - bounds.x, q.y - bounds.y);
  }

  // ---------------------------------------------------------------------
  // The test as written

  /** Three flags `x <= -1` agree: what `b1 == b2 && b2 == b3` checks after truncation. */
  predicate SameSideTruncated(x: real, y: real, z: real) {
    (x <= -1.0) == (y <= -1.0) && (y <= -1.0) == (z <= -1.0)
  }

  /** The test as written for triangle 0-1-2, at (u, v) from the top-left corner of a w x h button. */
  predicate FirstAsWrittenLocal(w: real, h: real, u: real, v: real) {
    SameSideTruncated(w * v, h * (w - u), h * u - w * v)
  }

  /** The test as written for triangle 2-3-0, in the same coordinates. */
  predicate SecondAsWrittenLocal(w: real, h: real, u: real, v: real) {
    SameSideTruncated(w * (h - v), h * u, w * v - h * u)
  }

  /** The test as written for a point at (u, v) from the top-left corner of a w x h button. */
  predicate AsWrittenLocal(w: real, h: real, u: real, v: real) {
    FirstAsWrittenLocal(w, h, u, v) || SecondAsWrittenLocal(w, h, u, v)
  }

  /** The test as written for triangle 0-1-2, in button coordinates. */
  lemma AsWrittenFirst(b: Bounds, q: Point)
    ensures var cs, w, h, u, v := Corners(b), b.width, b.height, q.x - b.x, q.y - b.y;
      AgreeAsWritten(q, cs[0], cs[1], cs[2]) <==> FirstAsWrittenLocal(w, h, u, v)
  {
    var cs := Corners(b);
    CrossesFirst(b, q);
  }

  /** The test as written for triangle 2-3-0, in button coordinates. */
  lemma AsWrittenSecond(b: Bounds, q: Point)
    ensures var cs, w, h, u, v := Corners(b), b.width, b.height, q.x - b.x, q.y - b.y;
      AgreeAsWritten(q, cs[2], cs[3], cs[0]) <==> SecondAsWrittenLocal(w, h, u, v)
  {
    var cs := Corners(b);
    CrossesSecond(b, q);
  }

  /** Every point of the rectangle, which the exact test accepts, the test as written accepts too. */
  lemma {:induction false} InRectAccepted(w: real, h: real, u: real, v: real)
    requires w > 0.0 && h > 0.0 && 0.0 <= u <= w && 0.0 <= v <= h
    ensures AsWrittenLocal(w, h, u, v)
  {
    InRectSameSide(w, h, u, v);
    assert h * w > 0.0;
    assert h * (w - u) == h * w - h * u;
    assert w * (h - v) == w * h - w * v;
  }

  /**
   * A point at (u, v) from the top-left corner of a w x h button lies less
   * than 2 / h left or right of it and less than 2 / w above or below it.
   */
  predicate NearLocal(w: real, h: real, u: real, v: real) {
    h * u > -2.0 && h * (u - w) < 2.0 && w * v > -2.0 && w * (v - h) < 2.0
  }

  /**
   * What the test as written accepts reaches past the rectangle, but by less
   * than 2 / h across and 2 / w down.
   */
  lemma {:induction false} AsWrittenLocalNear(w: real, h: real, u: real, v: real)
    requires w > 0.0 && h > 0.0 && AsWrittenLocal(w, h, u, v)
    ensures NearLocal(w, h, u, v)
  {
    assert w * v + h * (w - u) + (h * u - w * v) == h * w;
    assert w * (h - v) + h * u + (w * v - h * u) == w * h;
    assert h * (w - u) == -(h * (u - w));
    assert w * (h - v) == -(w * (v - h));
  }

  /** On the button's own corners, the test as written is its form in button coordinates. */
  lemma AsWrittenCorners(b: Bounds, q: Point)
    ensures InsideAsWritten(Corners(b), q) <==> AsWrittenLocal(b.width, b.height, q.x - b.x, q.y - b.y)
  {
    AsWrittenFirst(b, q);
    AsWrittenSecond(b, q);
  }

  /** On the button's own corners the test as written accepts every point of the button. */
  lemma CornersAcceptInside(b: Bounds, q: Point)
    requires b.width > 0.0 && b.height > 0.0 && Contains(b, q)
    ensures InsideAsWritten(Corners(b), q)
  {
    InRectAccepted(b.width, b.height, q.x - b.x, q.y - b.y);
    AsWrittenCorners(b, q);
  }

  /**
   * `q` lies less than 2 / height left or right of the button's rectangle and
   * less than 2 / width above or below it.
   */
  predicate NearButton(b: Bounds, q: Point) {
    NearLocal(b.width, b.height, q.x - b.x, q.y - b.y)
  }

  /** On the button's own corners the test as written accepts only points near the button. */
  lemma CornersAcceptNear(b: Bounds, q: Point)
    requires b.width > 0.0 && b.height > 0.0 && InsideAsWritten(Corners(b), q)
    ensures NearButton(b, q)
  {
    AsWrittenCorners(b, q);
    AsWrittenLocalNear(b.width, b.height, q.x - b.x, q.y - b.y);
  }

  /**
   * With a proper rotation and a positive size, `eek_are_bounds_inside`
   * accepts every point that lies in the button.
   */
  lemma AsWrittenAcceptsInside(bounds: Bounds, point: Point, origin: Point, r: Rotation)
    requires IsUnit(r) && bounds.width > 0.0 && bounds.height > 0.0
    requires Contains(bounds, Local(point, origin, r))
    ensures InsideAsWritten(Place(Corners(bounds), r, origin), point)
  {
    PlacedTests(bounds, point, origin, r);
    CornersAcceptInside(bounds, Local(point, origin, r));
  }

  /**
   * It may also accept points just outside the button, but only near it
   * (`NearButton`).
   */
  lemma AsWrittenAcceptsNear(bounds: Bounds, point: Point, origin: Point, r: Rotation)
    requires IsUnit(r) && bounds.width > 0.0 && bounds.height > 0.0
    requires InsideAsWritten(Place(Corners(bounds), r, origin), point)
    ensures NearButton(bounds, Local(point, origin, r))
  {
    PlacedTests(bounds, point, origin, r);
    CornersAcceptNear(bounds, Local(point, origin, r));
  }

  // ---------------------------------------------------------------------
  // Buttons of zero size

  /**
   * A button of zero width and positive height, in button coordinates: the
   * exact test accepts the whole line u = 0, whatever v is, and the test as
   * written the strip of points less than 1 / h to either side of it.
   */
  lemma {:induction false} ZeroWidthLocal(h: real, u: real, v: real)
    requires h > 0.0
    ensures ExactLocal(0.0, h, u, v) <==> u == 0.0
    ensures AsWrittenLocal(0.0, h, u, v) <==> -1.0 < h * u < 1.0
  {
    assert h * (0.0 - u) == -(h * u);
    PosMulSign(h, u);
    PosMulSign(h, -u);
  }

  /**
   * A button of zero height and positive width: the exact test accepts the
   * whole line v = 0, and the test as written the strip less than 1 / w
   * above or below it.
   */
  lemma {:induction false} ZeroHeightLocal(w: real, u: real, v: real)
    requires w > 0.0
    ensures ExactLocal(w, 0.0, u, v) <==> v == 0.0
    ensures AsWrittenLocal(w, 0.0, u, v) <==> -1.0 < w * v < 1.0
  {
    assert w * (0.0 - v) == -(w * v);
    PosMulSign(w, v);
    PosMulSign(w, -v);
  }

  /** A button of zero width on its own corners, in button coordinates. */
  lemma ZeroWidthCorners(b: Bounds, q: Point)
    requires b.width == 0.0 && b.height > 0.0
    ensures InsideExact(Corners(b), q) <==> q.x == b.x
    ensures InsideAsWritten(Corners(b), q) <==> -1.0 < b.height * (q.x - b.x) < 1.0
  {
    ExactCorners(b, q);
    AsWrittenCorners(b, q);
    ZeroWidthLocal(b.height, q.x - b.x, q.y - b.y);
  }

  /** A button of zero height on its own corners, in button coordinates. */
  lemma ZeroHeightCorners(b: Bounds, q: Point)
    requires b.width > 0.0 && b.height == 0.0
    ensures InsideExact(Corners(b), q) <==> q.y == b.y
    ensures InsideAsWritten(Corners(b), q) <==> -1.0 < b.width * (q.y - b.y) < 1.0
  {
    ExactCorners(b, q);
    AsWrittenCorners(b, q);
    ZeroHeightLocal(b.width, q.x - b.x, q.y - b.y);
  }

  /**
   * `eek_are_bounds_inside` for a button of zero width: with exact signs it
   * accepts exactly the points whose button-frame position lies on the line
   * through the button's left edge, at any distance along it; as written, the
   * points less than 1 / height from that line. Neither is bounded.
   */
  lemma ZeroWidthHits(bounds: Bounds, point: Point, origin: Point, r: Rotation)
    requires IsUnit(r) && bounds.width == 0.0 && bounds.height > 0.0
    ensures var ps, q := Place(Corners(bounds), r, origin), Local(point, origin, r);
      && (InsideExact(ps, point) <==> q.x == bounds.x)
      && (InsideAsWritten(ps, point) <==> -1.0 < bounds.height * (q.x - bounds.x) < 1.0)
  {
    PlacedTests(bounds, point, origin, r);
    ZeroWidthCorners(bounds, Local(point, origin, r));
  }

  /**
   * The same for a button of zero height: the line through its top edge
   * exactly, and the points less than 1 / width from it as written.
   */
  lemma ZeroHeightHits(bounds: Bounds, point: Point, origin: Point, r: Rotation)
    requires IsUnit(r) && bounds.width > 0.0 && bounds.height == 0.0
    ensures var ps, q := Place(Corners(bounds), r, origin), Local(point, origin, r);
      && (InsideExact(ps, point) <==> q.y == bounds.y)
      && (InsideAsWritten(ps, point) <==> -1.0 < bounds.width * (q.y - bounds.y) < 1.0)
  {
    PlacedTests(bounds, point, origin, r);
    ZeroHeightCorners(bounds, Local(point, origin, r));
  }

  /**
   * A button of zero width and zero height: every cross product is 0, so
   * both tests accept every point.
   */
  lemma ZeroSizeHits(bounds: Bounds, point: Point, origin: Point, r: Rotation)
    requires bounds.width == 0.0 && bounds.height == 0.0
    ensures var ps := Place(Corners(bounds), r, origin);
      InsideExact(ps, point) && InsideAsWritten(ps, point)
  {
    var ps := Place(Corners(bounds), r, origin);
    assert ps[0] == ps[1] == ps[2] == ps[3];
  }

  /**
   * For button {0, 0, 0, 10} at angle 0 about (0, 0), the exact test accepts
   * (0, t) and the test as written (0.05, t), however far t lies beyond the
   * button's ends.
   */
  lemma ZeroWidthAcceptsLine(trig: Trig, t: real)
    requires trig(0) == Identity
    ensures var bounds, origin := Bounds(0.0, 0.0, 0.0, 10.0), Point(0.0, 0.0);
      var ps := Place(Corners(bounds), trig(0), origin);
      InsideExact(ps, Point(0.0, t)) && InsideAsWritten(ps, Point(0.05, t))
  {
    var bounds, origin := Bounds(0.0, 0.0, 0.0, 10.0), Point(0.0, 0.0);
    assert Local(Point(0.0, t), origin, Identity) == Point(0.0, t);
    assert Local(Point(0.05, t), origin, Identity) == Point(0.05, t);
    ZeroWidthHits(bounds, Point(0.0, t), origin, Identity);
    ZeroWidthHits(bounds, Point(0.05, t), origin, Identity);
  }

  /** Rotating by 0 degrees about the origin leaves the points where they are. */
  lemma PlaceIdentity(ps: seq<Point>)
    ensures Place(ps, Identity, Point(0.0, 0.0)) == ps
  {
    forall i | 0 <= i < |ps| ensures Place(ps, Identity, Point(0.0, 0.0))[i] == ps[i] {
      RotateIdentity(ps[i]);
    }
  }

  /**
   * The truncation in `sign` as written, in button coordinates: for a
   * 10 x 10 button at the origin the point (-0.05, 5), just left of the
   * button, passes for triangle 2-3-0, because h u = -0.5 truncates to 0 and
   * so does not count as negative.
   */
  lemma TruncationCounterexampleCorners(b: Bounds, q: Point)
    requires b == Bounds(0.0, 0.0, 10.0, 10.0) && q == Point(-0.05, 5.0)
    ensures InsideAsWritten(Corners(b), q) && !InsideExact(Corners(b), q) && !Contains(b, q)
  {
    assert InsideAsWritten(Corners(b), q) by {
      AsWrittenSecond(b, q);
      assert SameSideTruncated(10.0 * (10.0 - 5.0), 10.0 * -0.05, 10.0 * 5.0 - 10.0 * -0.05);
    }
    assert !InsideExact(Corners(b), q) by {
      ExactCorners(b, q);
      ExactLocalIff(10.0, 10.0, -0.05, 5.0);
    }
  }

  /**
   * The same point against the same button, through `eek_are_bounds_inside`
   * with angle 0 and origin (0, 0): accepted as written, rejected by the
   * exact test, and outside the button.
   */
  lemma TruncationCounterexample(trig: Trig)
    requires trig(0) == Identity
    ensures var bounds, point, origin := Bounds(0.0, 0.0, 10.0, 10.0), Point(-0.05, 5.0), Point(0.0, 0.0);
      var ps := Place(Corners(bounds), trig(0), origin);
      && InsideAsWritten(ps, point)
      && !InsideExact(ps, point)
      && !Contains(bounds, point)
  {
    var bounds, point := Bounds(0.0, 0.0, 10.0, 10.0), Point(-0.05, 5.0);
    PlaceIdentity(Corners(bounds));
    TruncationCounterexampleCorners(bounds, point);
  }

  /**
   * A point the exact test accepts lies in the button's box from
   * `eek_renderer_get_button_bounds`, as written and tight, when the test is
   * placed at the view and row origins.
   */
  lemma ExactHitWithinButtonBounds(view: Bounds, row: Bounds, angle: int, button: Bounds, trig: Trig, point: Point)
    requires IsUnit(trig(angle)) && button.width > 0.0 && button.height > 0.0
    requires InsideExact(Place(Corners(button), trig(angle), Point(view.x + row.x, view.y + row.y)), point)
    ensures Contains(TightButtonBounds(view, row, angle, button, trig), point)
    ensures Contains(ButtonBoundsOf(view, row, angle, button, trig), point)
  {
    var origin := Point(view.x + row.x, view.y + row.y);
    var q := Local(point, origin, trig(angle));
    ExactHitIff(button, point, origin, trig(angle));
    PlaceLocal(point, origin, trig(angle));
    RotatedButtonInBounds(view, row, angle, button, trig, q);
  }
}
