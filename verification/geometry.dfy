/** Points, rectangles and rotation: the geometry every part of the renderer shares. */
module Geometry {

  /** A point in real-valued 2D coordinates (an `EekPoint`). */
  datatype Point = Point(x: real, y: real)

  /** A rectangle given by its top-left corner and its size (an `EekBounds`). */
  datatype Bounds = Bounds(x: real, y: real, width: real, height: real)

  /** The cosine and sine of a rotation angle. */
  datatype Rotation = Rotation(cos: real, sin: real)

  /**
   * The platform's cosine and sine of an angle given in whole degrees.
   * `sin`, `cos` and `eek_point_rotate` are foreign code, so every member that
   * rotates takes them as this parameter and states what it needs of them.
   */
  type Trig = int -> Rotation

  /** The rotation by 0 degrees. */
  const Identity := Rotation(1.0, 0.0)

  /** A rotation proper: cos^2 + sin^2 == 1. */
  predicate IsUnit(r: Rotation) {
    r.cos * r.cos + r.sin * r.sin == 1.0
  }

  function Add(p: Point, q: Point): Point {
    Point(p.x + q.x, p.y + q.y)
  }

  function Sub(p: Point, q: Point): Point {
    Point(p.x - q.x, p.y - q.y)
  }

  function Scale(p: Point, k: real): Point {
    Point(k * p.x, k * p.y)
  }

  /** Rotation about the origin: x' = x cos - y sin, y' = x sin + y cos. */
  function Rotate(p: Point, r: Rotation): Point {
    Point(p.x * r.cos - p.y * r.sin, p.x * r.sin + p.y * r.cos)
  }

  /** The inverse of `Rotate` for a unit rotation. */
  function Unrotate(p: Point, r: Rotation): Point {
    Point(p.x * r.cos + p.y * r.sin, p.y * r.cos - p.x * r.sin)
  }

  lemma RotateIdentity(p: Point)
    ensures Rotate(p, Identity) == p
  {
  }

  lemma RotateUnrotate(p: Point, r: Rotation)
    requires IsUnit(r)
    ensures Rotate(Unrotate(p, r), r) == p
  {
    var c, s := r.cos, r.sin;
    calc {
      (p.x * c + p.y * s) * c - (p.y * c - p.x * s) * s;
      p.x * (c * c + s * s);
      p.x;
    }
    calc {
      (p.x * c + p.y * s) * s + (p.y * c - p.x * s) * c;
      p.y * (c * c + s * s);
      p.y;
    }
  }

  /** Rotation is linear: it commutes with translation by a difference. */
  lemma RotateSub(p: Point, q: Point, r: Rotation)
    ensures Sub(Rotate(p, r), Rotate(q, r)) == Rotate(Sub(p, q), r)
  {
    assert (p.x - q.x) * r.cos == p.x * r.cos - q.x * r.cos;
    assert (p.y - q.y) * r.sin == p.y * r.sin - q.y * r.sin;
    assert (p.x - q.x) * r.sin == p.x * r.sin - q.x * r.sin;
    assert (p.y - q.y) * r.cos == p.y * r.cos - q.y * r.cos;
  }

  /** The corners of a rectangle in the order the renderer builds them:
      0 top-left, 1 top-right, 2 bottom-right, 3 bottom-left. */
  function Corners(b: Bounds): (cs: seq<Point>)
    ensures |cs| == 4
  {
    [Point(b.x, b.y), Point(b.x + b.width, b.y),
     Point(b.x + b.width, b.y + b.height), Point(b.x, b.y + b.height)]
  }

  /** Each point rotated by `r` and then translated by `origin`. */
  function Place(ps: seq<Point>, r: Rotation, origin: Point): (qs: seq<Point>)
    ensures |qs| == |ps|
    ensures forall i :: 0 <= i < |ps| ==> qs[i] == Add(Rotate(ps[i], r), origin)
  {
    seq(|ps|, i requires 0 <= i < |ps| => Add(Rotate(ps[i], r), origin))
  }

  /** True when `p` lies in the closed rectangle `b`. */
  predicate Contains(b: Bounds, p: Point) {
    b.x <= p.x <= b.x + b.width && b.y <= p.y <= b.y + b.height
  }

  /** GLib's `MIN`: the first argument when it is the smaller, else the second. */
  function Min(a: real, b: real): real {
    if a < b then a else b
  }

  /** The absolute value of `a`. */
  function Abs(a: real): real {
    if a < 0.0 then -a else a
  }

  /** One step of the renderer's `if (v < m) m = v;`. */
  function Lower(m: real, v: real): real {
    if v < m then v else m
  }

  /** One step of the renderer's `if (v > m) m = v;`. */
  function Upper(m: real, v: real): real {
    if v > m then v else m
  }

  /**
   * The running minimum `min` after the loop has lowered it, coordinate by
   * coordinate, with every point of `ps` in order, starting from `m`.
   */
  function LowerAll(m: Point, ps: seq<Point>): (r: Point)
    decreases |ps|
  {
    if ps == [] then m
    else
      var l := LowerAll(m, ps[..|ps| - 1]);
      var p := ps[|ps| - 1];
      Point(Lower(l.x, p.x), Lower(l.y, p.y))
  }

  /** The running maximum `max`, the mirror image of `LowerAll`. */
  function UpperAll(m: Point, ps: seq<Point>): (r: Point)
    decreases |ps|
  {
    if ps == [] then m
    else
      var u := UpperAll(m, ps[..|ps| - 1]);
      var p := ps[|ps| - 1];
      Point(Upper(u.x, p.x), Upper(u.y, p.y))
  }

  /** The running minimum is at most its start and every point it has seen. */
  lemma {:induction false} LowerAllBelow(m: Point, ps: seq<Point>)
    ensures var r := LowerAll(m, ps);
      && r.x <= m.x && r.y <= m.y
      && forall i :: 0 <= i < |ps| ==> r.x <= ps[i].x && r.y <= ps[i].y
    decreases |ps|
  {
    if ps != [] {
      LowerAllBelow(m, ps[..|ps| - 1]);
    }
  }

  /** Each coordinate of the running minimum is its start or one of the points'. */
  lemma {:induction false} LowerAllAttained(m: Point, ps: seq<Point>)
    ensures var r := LowerAll(m, ps);
      && (r.x == m.x || exists i :: 0 <= i < |ps| && r.x == ps[i].x)
      && (r.y == m.y || exists i :: 0 <= i < |ps| && r.y == ps[i].y)
    decreases |ps|
  {
    if ps != [] {
      var qs := ps[..|ps| - 1];
      LowerAllAttained(m, qs);
      assert forall i :: 0 <= i < |qs| ==> qs[i] == ps[i];
    }
  }

  /** The running maximum is at least its start and every point it has seen. */
  lemma {:induction false} UpperAllAbove(m: Point, ps: seq<Point>)
    ensures var r := UpperAll(m, ps);
      && r.x >= m.x && r.y >= m.y
      && forall i :: 0 <= i < |ps| ==> r.x >= ps[i].x && r.y >= ps[i].y
    decreases |ps|
  {
    if ps != [] {
      UpperAllAbove(m, ps[..|ps| - 1]);
    }
  }

  /** Each coordinate of the running maximum is its start or one of the points'. */
  lemma {:induction false} UpperAllAttained(m: Point, ps: seq<Point>)
    ensures var r := UpperAll(m, ps);
      && (r.x == m.x || exists i :: 0 <= i < |ps| && r.x == ps[i].x)
      && (r.y == m.y || exists i :: 0 <= i < |ps| && r.y == ps[i].y)
    decreases |ps|
  {
    if ps != [] {
      var qs := ps[..|ps| - 1];
      UpperAllAttained(m, qs);
      assert forall i :: 0 <= i < |qs| ==> qs[i] == ps[i];
    }
  }

  /** The running minimum after one more point. */
  lemma LowerAllSnoc(m: Point, ps: seq<Point>, p: Point)
    ensures LowerAll(m, ps + [p]) == Point(Lower(LowerAll(m, ps).x, p.x), Lower(LowerAll(m, ps).y, p.y))
  {
    assert (ps + [p])[..|ps|] == ps;
  }

  /** The running maximum after one more point. */
  lemma UpperAllSnoc(m: Point, ps: seq<Point>, p: Point)
    ensures UpperAll(m, ps + [p]) == Point(Upper(UpperAll(m, ps).x, p.x), Upper(UpperAll(m, ps).y, p.y))
  {
    assert (ps + [p])[..|ps|] == ps;
  }

  /** Writing `a[i]` over `b[i]` moves the seam between the two sequences one step on. */
  lemma SpliceStep<T>(a: seq<T>, b: seq<T>, i: int)
    requires |a| == |b| && 0 <= i < |a|
    ensures a[..i + 1] + b[i + 1..] == (a[..i] + b[i..])[i := a[i]]
  {
  }

  /** The running minimum over one more element of a sequence's prefix. */
  lemma LowerAllStep(m: Point, ps: seq<Point>, i: int)
    requires 0 <= i < |ps|
    ensures LowerAll(m, ps[..i + 1])
         == Point(Lower(LowerAll(m, ps[..i]).x, ps[i].x), Lower(LowerAll(m, ps[..i]).y, ps[i].y))
  {
    assert ps[..i + 1][..i] == ps[..i];
  }

  /** The running maximum over one more element of a sequence's prefix. */
  lemma UpperAllStep(m: Point, ps: seq<Point>, i: int)
    requires 0 <= i < |ps|
    ensures UpperAll(m, ps[..i + 1])
         == Point(Upper(UpperAll(m, ps[..i]).x, ps[i].x), Upper(UpperAll(m, ps[..i]).y, ps[i].y))
  {
    assert ps[..i + 1][..i] == ps[..i];
  }

  /** The running minimum over four points, unrolled. */
  lemma LowerAllFour(m: Point, a: Point, b: Point, c: Point, d: Point)
    ensures LowerAll(m, [a, b, c, d])
         == Point(Lower(Lower(Lower(Lower(m.x, a.x), b.x), c.x), d.x),
                  Lower(Lower(Lower(Lower(m.y, a.y), b.y), c.y), d.y))
  {
    LowerAllSnoc(m, [], a);
    assert [] + [a] == [a];
    LowerAllSnoc(m, [a], b);
    assert [a] + [b] == [a, b];
    LowerAllSnoc(m, [a, b], c);
    assert [a, b] + [c] == [a, b, c];
    LowerAllSnoc(m, [a, b, c], d);
    assert [a, b, c] + [d] == [a, b, c, d];
  }

  /** The running maximum over four points, unrolled. */
  lemma UpperAllFour(m: Point, a: Point, b: Point, c: Point, d: Point)
    ensures UpperAll(m, [a, b, c, d])
         == Point(Upper(Upper(Upper(Upper(m.x, a.x), b.x), c.x), d.x),
                  Upper(Upper(Upper(Upper(m.y, a.y), b.y), c.y), d.y))
  {
    UpperAllSnoc(m, [], a);
    assert [] + [a] == [a];
    UpperAllSnoc(m, [a], b);
    assert [a] + [b] == [a, b];
    UpperAllSnoc(m, [a, b], c);
    assert [a, b] + [c] == [a, b, c];
    UpperAllSnoc(m, [a, b, c], d);
    assert [a, b, c] + [d] == [a, b, c, d];
  }

  /** A quarter turn maps (x, y) to (-y, x). */
  lemma RotateQuarter(p: Point)
    ensures Rotate(p, Rotation(0.0, 1.0)) == Point(-p.y, p.x)
  {
  }

  /** A quarter turn the other way maps (x, y) to (y, -x). */
  lemma RotateMinusQuarter(p: Point)
    ensures Rotate(p, Rotation(0.0, -1.0)) == Point(p.y, -p.x)
  {
  }

  /** Products with a non-negative factor keep the order of the other factor. */
  lemma MulMono(a: real, lo: real, v: real, hi: real)
    requires 0.0 <= a && lo <= v <= hi
    ensures a * lo <= a * v <= a * hi
  {
    assert a * (v - lo) >= 0.0;
    assert a * (hi - v) >= 0.0;
  }
}
