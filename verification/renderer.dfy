/**
 * The renderer's own state: the allocation it draws into, the scale and
 * integer origin that centre the keyboard in it, the output scale factor,
 * and the cached keyboard surface with what was painted on it.
 */
module Renderer {
  import opened Geometry
  import opened Layout

  /** A `struct transformation`: where the keyboard starts and how it is scaled. */
  datatype Transformation = Transformation(originX: int, originY: int, scale: real)

  /** The extents the keyboard is fitted by: the view's size plus its margin on both sides. */
  function ExtentX(view: Bounds): real { view.x * 2.0 + view.width }
  function ExtentY(view: Bounds): real { view.y * 2.0 + view.height }

  /**
   * The transformation `eek_renderer_set_allocation_size` computes for a
   * `width` x `height` allocation: the largest scale that keeps the aspect
   * ratio and fits both extents, and origins that centre the scaled
   * keyboard, rounded down to whole pixels.
   */
  function AllocationTransform(view: Bounds, width: real, height: real): Transformation
    requires ExtentX(view) != 0.0 && ExtentY(view) != 0.0
  {
    var w, h := ExtentX(view), ExtentY(view);
    var scale := Min(width / w, height / h);
    Transformation(((width - scale * w) / 2.0).Floor, ((height - scale * h) / 2.0).Floor, scale)
  }

  /**
   * For a positive allocation and positive extents the scale is positive,
   * the scaled keyboard fits in both directions and fills one of them, and
   * each origin is non-negative and less than one pixel below the exact
   * centring offset, so the placed keyboard stays inside the allocation.
   */
  lemma AllocationFits(view: Bounds, width: real, height: real)
    requires width > 0.0 && height > 0.0
    requires ExtentX(view) > 0.0 && ExtentY(view) > 0.0
    ensures var t, w, h := AllocationTransform(view, width, height), ExtentX(view), ExtentY(view);
      && t.scale > 0.0
      && t.scale * w <= width && t.scale * h <= height
      && (t.scale * w == width || t.scale * h == height)
      && t.originX >= 0 && t.originY >= 0
      && t.originX as real <= (width - t.scale * w) / 2.0 < t.originX as real + 1.0
      && t.originY as real <= (height - t.scale * h) / 2.0 < t.originY as real + 1.0
      && t.originX as real + t.scale * w <= width
      && t.originY as real + t.scale * h <= height
  {
    var w, h := ExtentX(view), ExtentY(view);
    var sx, sy := width / w, height / h;
    assert sx * w == width;
    assert sy * h == height;
    if sx < sy {
      MulMono(h, sx, sx, sy);
      assert sx * h <= sy * h;
    } else {
      MulMono(w, sy, sy, sx);
      assert sy * w <= sx * w;
      assert AllocationTransform(view, width, height).scale == sy;
    }
  }

  /**
   * The transformation depends on the view: a 100 x 50 view and a 100 x 100
   * view get scales 2 and 1 in a 200 x 100 allocation, so a transformation
   * kept across a view switch does not centre the new view.
   */
  lemma TransformDependsOnView()
    ensures AllocationTransform(Bounds(0.0, 0.0, 100.0, 50.0), 200.0, 100.0) == Transformation(0, 0, 2.0)
    ensures AllocationTransform(Bounds(0.0, 0.0, 100.0, 100.0), 200.0, 100.0) == Transformation(50, 0, 1.0)
  {
    assert Min(200.0 / 100.0, 100.0 / 50.0) == 2.0;
    assert Min(200.0 / 100.0, 100.0 / 100.0) == 1.0;
  }

  // ---------------------------------------------------------------------
  // What a keyboard surface holds

  /** One thing painted on the keyboard surface, in painting order. */
  datatype Stamp =
    | Background(width: real, height: real)
      // the view style's background and frame over the whole allocation
    | ButtonStamp(button: Button, rowOrigin: Point, angle: int,
                  pressed: bool, locked: bool, scaleFactor: int)
      // a button drawn at its bounds in the frame of its row, which is
      // translated to `rowOrigin` and rotated by `angle` degrees

  /** The buttons of one row in order, drawn neither pressed nor locked. */
  function ButtonStamps(origin: Point, angle: int, buttons: seq<Button>, scaleFactor: int): (ss: seq<Stamp>)
    ensures |ss| == |buttons|
  {
    seq(|buttons|, k requires 0 <= k < |buttons| =>
      ButtonStamp(buttons[k], origin, angle, false, false, scaleFactor))
  }

  /** Where a row of a view whose top-left corner is `viewOrigin` starts. */
  function RowOrigin(viewOrigin: Point, row: Row): Point {
    Point(viewOrigin.x + row.bounds.x, viewOrigin.y + row.bounds.y)
  }

  /** The buttons of the rows in order, row after row. */
  function DrawRows(viewOrigin: Point, rows: seq<Row>, scaleFactor: int): seq<Stamp>
    decreases |rows|
  {
    if rows == [] then []
    else
      var row := rows[|rows| - 1];
      DrawRows(viewOrigin, rows[..|rows| - 1], scaleFactor)
        + ButtonStamps(RowOrigin(viewOrigin, row), row.angle, row.buttons, scaleFactor)
  }

  /** `render_keyboard_surface`: the background, then every button of the view. */
  function DrawList(view: View, width: real, height: real, scaleFactor: int): seq<Stamp> {
    [Background(width, height)] + DrawRows(Point(view.bounds.x, view.bounds.y), view.rows, scaleFactor)
  }

  /** The number of buttons in the rows. */
  function ButtonTotal(rows: seq<Row>): nat
    decreases |rows|
  {
    if rows == [] then 0 else ButtonTotal(rows[..|rows| - 1]) + |rows[|rows| - 1].buttons|
  }

  /** One stamp per button. */
  lemma {:induction false} DrawRowsCount(viewOrigin: Point, rows: seq<Row>, scaleFactor: int)
    ensures |DrawRows(viewOrigin, rows, scaleFactor)| == ButtonTotal(rows)
    decreases |rows|
  {
    if rows != [] {
      DrawRowsCount(viewOrigin, rows[..|rows| - 1], scaleFactor);
    }
  }

  /** Every button of every row is drawn, unpressed and unlocked, in its row's frame. */
  lemma {:induction false} DrawRowsComplete(viewOrigin: Point, rows: seq<Row>, scaleFactor: int, i: int, j: int)
      returns (k: int)
    requires 0 <= i < |rows| && 0 <= j < |rows[i].buttons|
    ensures 0 <= k < |DrawRows(viewOrigin, rows, scaleFactor)|
    ensures DrawRows(viewOrigin, rows, scaleFactor)[k]
         == ButtonStamp(rows[i].buttons[j], RowOrigin(viewOrigin, rows[i]), rows[i].angle,
                        false, false, scaleFactor)
    decreases |rows|
  {
    var init := rows[..|rows| - 1];
    var last := rows[|rows| - 1];
    var before := DrawRows(viewOrigin, init, scaleFactor);
    if i == |rows| - 1 {
      k := |before| + j;
    } else {
      assert init[i] == rows[i];
      k := DrawRowsComplete(viewOrigin, init, scaleFactor, i, j);
    }
  }

  /** Nothing else is drawn: each stamp is some button of some row, unpressed and unlocked. */
  lemma {:induction false} DrawRowsSound(viewOrigin: Point, rows: seq<Row>, scaleFactor: int, k: int)
      returns (i: int, j: int)
    requires 0 <= k < |DrawRows(viewOrigin, rows, scaleFactor)|
    ensures 0 <= i < |rows| && 0 <= j < |rows[i].buttons|
    ensures DrawRows(viewOrigin, rows, scaleFactor)[k]
         == ButtonStamp(rows[i].buttons[j], RowOrigin(viewOrigin, rows[i]), rows[i].angle,
                        false, false, scaleFactor)
    decreases |rows|
  {
    var init := rows[..|rows| - 1];
    var before := DrawRows(viewOrigin, init, scaleFactor);
    if k < |before| {
      i, j := DrawRowsSound(viewOrigin, init, scaleFactor, k);
      assert init[i] == rows[i];
    } else {
      i, j := |rows| - 1, k - |before|;
    }
  }

  // ---------------------------------------------------------------------
  // The cached surface and the renderer

  /** A cairo surface the keyboard is painted on, of a fixed size. */
  class Surface {
    const width: real
    const height: real
    /** What has been painted on it, in order. */
    var content: seq<Stamp>
    /** Set once `cairo_surface_destroy` has released it. */
    var destroyed: bool

    /** A blank surface of the given size. */
    constructor(width: real, height: real)
      ensures this.width == width && this.height == height
      ensures content == [] && !destroyed
    {
      this.width := width;
      this.height := height;
      content := [];
      destroyed := false;
    }
  }

  /** An `EekRenderer` with the private fields this model keeps. */
  class EekRenderer {
    /** The keyboard being drawn; not owned. */
    var keyboard: Option<LevelKeyboard>
    var borderWidth: real
    var allocationWidth: real
    var allocationHeight: real
    var scale: real
    /** The output's scale factor, used for icons. */
    var scaleFactor: int
    var originX: int
    var originY: int
    /** The cached rendering of the whole keyboard, or null. */
    var keyboardSurface: Surface?
    /**
     * The bounds of the view that was current at the last accepted
     * `SetAllocationSize`, the one the scale and origin were computed for.
     * The keyboard's current view may have changed since.
     */
    ghost var allocatedView: Bounds

    /**
     * The renderer's invariant: a cached surface is live and has the
     * allocation's size; width and height are allocated together; and once
     * allocated, the transformation is the one that centres the view that
     * was current at the last resize in the allocation.
     */
    ghost predicate Valid()
      reads this, keyboardSurface
    {
      && (keyboardSurface != null ==>
            && !keyboardSurface.destroyed
            && keyboardSurface.width == allocationWidth
            && keyboardSurface.height == allocationHeight)
      && (allocationWidth > 0.0 <==> allocationHeight > 0.0)
      && (allocationWidth > 0.0 ==>
            && ExtentX(allocatedView) != 0.0 && ExtentY(allocatedView) != 0.0
            && Transformation(originX, originY, scale)
               == AllocationTransform(allocatedView, allocationWidth, allocationHeight))
    }

    /**
     * `eek_renderer_new` after `eek_renderer_init`: the keyboard given, a
     * border of 1, no allocation, unit scale and scale factor, origin (0, 0)
     * (the zeroed instance memory) and no cached surface.
     */
    constructor(keyboard: LevelKeyboard)
      ensures Valid()
      ensures this.keyboard == Some(keyboard)
      ensures borderWidth == 1.0 && allocationWidth == 0.0 && allocationHeight == 0.0
      ensures scale == 1.0 && scaleFactor == 1 && originX == 0 && originY == 0
      ensures keyboardSurface == null
    {
      allocatedView := keyboard.current.bounds;
      this.keyboard := Some(keyboard);
      borderWidth := 1.0;
      allocationWidth := 0.0;
      allocationHeight := 0.0;
      scale := 1.0;
      scaleFactor := 1;
      originX := 0;
      originY := 0;
      keyboardSurface := null;
    }

    /**
     * `invalidate`: destroys and drops the cached surface if there is one;
     * without one nothing changes, so a second call is a no-op.
     */
    method Invalidate()
      modifies this, keyboardSurface
      ensures old(Valid()) ==> Valid()
      ensures keyboardSurface == null
      ensures old(keyboardSurface) != null ==> old(keyboardSurface).destroyed
      ensures old(keyboardSurface) != null ==> old(keyboardSurface).content == old(keyboardSurface.content)
      ensures old(keyboardSurface) == null ==> unchanged(this)
      ensures keyboard == old(keyboard) && borderWidth == old(borderWidth)
      ensures allocationWidth == old(allocationWidth) && allocationHeight == old(allocationHeight)
      ensures scale == old(scale) && scaleFactor == old(scaleFactor)
      ensures originX == old(originX) && originY == old(originY)
      ensures allocatedView == old(allocatedView)
    {
      if keyboardSurface != null {
        keyboardSurface.destroyed := true;
        keyboardSurface := null;
      }
    }

    /** `eek_renderer_dispose`: forgets the keyboard and releases the cached surface. */
    method Dispose()
      requires Valid()
      modifies this, keyboardSurface
      ensures Valid()
      ensures keyboard == None && keyboardSurface == null
      ensures old(keyboardSurface) != null ==> old(keyboardSurface).destroyed
      ensures old(keyboardSurface) != null ==> old(keyboardSurface).content == old(keyboardSurface.content)
      ensures borderWidth == old(borderWidth) && scaleFactor == old(scaleFactor)
      ensures allocationWidth == old(allocationWidth) && allocationHeight == old(allocationHeight)
      ensures scale == old(scale) && originX == old(originX) && originY == old(originY)
      ensures allocatedView == old(allocatedView)
    {
      keyboard := None;
      Invalidate();
    }

    /**
     * `eek_renderer_set_allocation_size`: a non-positive width or height is
     * rejected and changes nothing; otherwise the size is stored, the scale
     * and origin become those that centre the current view, and the cached
     * surface is dropped.  The keyboard is dereferenced unchecked, and the
     * view's extents are divided by, so both must be usable then.
     */
    method SetAllocationSize(width: real, height: real)
      requires Valid()
      requires width > 0.0 && height > 0.0 ==>
        && keyboard.Some?
        && ExtentX(keyboard.value.current.bounds) != 0.0
        && ExtentY(keyboard.value.current.bounds) != 0.0
      modifies this, keyboardSurface
      ensures Valid()
      ensures keyboard == old(keyboard) && borderWidth == old(borderWidth)
      ensures scaleFactor == old(scaleFactor)
      ensures !(width > 0.0 && height > 0.0) ==> unchanged(this) && (old(keyboardSurface) != null ==> unchanged(old(keyboardSurface)))
      ensures width > 0.0 && height > 0.0 ==>
        && allocationWidth == width && allocationHeight == height
        && allocatedView == keyboard.value.current.bounds
        && Transformation(originX, originY, scale)
           == AllocationTransform(keyboard.value.current.bounds, width, height)
        && keyboardSurface == null
        && (old(keyboardSurface) != null ==> old(keyboardSurface).destroyed)
        && (old(keyboardSurface) != null ==> old(keyboardSurface).content == old(keyboardSurface.content))
    {
      if !(width > 0.0 && height > 0.0) {
        return;
      }
      allocationWidth := width;
      allocationHeight := height;
      var t := AllocationTransform(keyboard.value.current.bounds, width, height);
      allocatedView := keyboard.value.current.bounds;
      scale := t.scale;
      originX := t.originX;
      originY := t.originY;
      Invalidate();
    }

    /**
     * The layout switching the keyboard's current view (another layer, or
     * shift), which happens outside the renderer: every later read of the
     * current view sees `view`, while the scale, the origin and the cached
     * surface stay those of the view current at the last resize.
     */
    method SwitchView(view: View)
      requires Valid() && keyboard.Some?
      modifies this
      ensures Valid()
      ensures keyboard == Some(LevelKeyboard(view))
      ensures allocatedView == old(allocatedView) && keyboardSurface == old(keyboardSurface)
      ensures borderWidth == old(borderWidth) && scaleFactor == old(scaleFactor)
      ensures allocationWidth == old(allocationWidth) && allocationHeight == old(allocationHeight)
      ensures scale == old(scale) && originX == old(originX) && originY == old(originY)
    {
      keyboard := Some(LevelKeyboard(view));
    }

    /** `eek_renderer_get_transformation`: the current origin and scale, nothing changed. */
    method GetTransformation() returns (t: Transformation)
      requires Valid()
      ensures t == Transformation(originX, originY, scale)
      ensures allocationWidth > 0.0 ==>
        t == AllocationTransform(allocatedView, allocationWidth, allocationHeight)
    {
      t := Transformation(originX, originY, scale);
    }

    /** `eek_renderer_get_scale`: the current scale, nothing changed. */
    method GetScale() returns (s: real)
      requires Valid()
      ensures s == scale
      ensures allocationWidth > 0.0 ==>
        s == AllocationTransform(allocatedView, allocationWidth, allocationHeight).scale
    {
      s := scale;
    }

    /**
     * `eek_renderer_set_scale_factor`: stores the factor and nothing else;
     * in particular a cached surface, painted at the old factor, is kept.
     */
    method SetScaleFactor(factor: int)
      requires Valid()
      modifies this
      ensures Valid()
      ensures scaleFactor == factor
      ensures keyboardSurface == old(keyboardSurface)
      ensures keyboard == old(keyboard) && borderWidth == old(borderWidth)
      ensures allocationWidth == old(allocationWidth) && allocationHeight == old(allocationHeight)
      ensures scale == old(scale) && originX == old(originX) && originY == old(originY)
      ensures allocatedView == old(allocatedView)
    {
      scaleFactor := factor;
    }

    /**
     * `render_keyboard_surface`: paints the background over the allocation,
     * then each row's buttons in the row's frame, neither pressed nor locked.
     */
    method RenderKeyboardSurface(view: View)
      requires keyboardSurface != null
      modifies keyboardSurface
      ensures keyboardSurface.content
           == old(keyboardSurface.content) + DrawList(view, allocationWidth, allocationHeight, scaleFactor)
      ensures keyboardSurface.destroyed == old(keyboardSurface.destroyed)
    {
      var surface := keyboardSurface;
      var viewOrigin := Point(view.bounds.x, view.bounds.y);
      surface.content := surface.content + [Background(allocationWidth, allocationHeight)];
      ghost var start := surface.content;
      var i := 0;
      while i < |view.rows|
        invariant 0 <= i <= |view.rows|
        invariant surface.content == start + DrawRows(viewOrigin, view.rows[..i], scaleFactor)
        invariant surface.destroyed == old(surface.destroyed)
      {
        var row := view.rows[i];
        var rowOrigin := RowOrigin(viewOrigin, row);
        ghost var before := surface.content;
        var j := 0;
        while j < |row.buttons|
          invariant 0 <= j <= |row.buttons|
          invariant surface.content == before + ButtonStamps(rowOrigin, row.angle, row.buttons[..j], scaleFactor)
          invariant surface.destroyed == old(surface.destroyed)
        {
          var stamp := ButtonStamp(row.buttons[j], rowOrigin, row.angle, false, false, scaleFactor);
          assert ButtonStamps(rowOrigin, row.angle, row.buttons[..j + 1], scaleFactor)
              == ButtonStamps(rowOrigin, row.angle, row.buttons[..j], scaleFactor) + [stamp];
          surface.content := surface.content + [stamp];
          j := j + 1;
        }
        assert row.buttons[..j] == row.buttons;
        assert view.rows[..i + 1][..i] == view.rows[..i];
        i := i + 1;
      }
      assert view.rows[..i] == view.rows;
    }

    /**
     * `eek_renderer_render_keyboard`: without a keyboard or a positive
     * allocation nothing happens; otherwise any cached surface is destroyed
     * and a fresh one of the allocation's size is created and painted with
     * the current view, so a surface is never reused across calls.
     */
    method RenderKeyboard()
      requires Valid()
      modifies this, keyboardSurface
      ensures Valid()
      ensures !(keyboard.Some? && allocationWidth > 0.0 && allocationHeight > 0.0) ==>
        unchanged(this) && (old(keyboardSurface) != null ==> unchanged(old(keyboardSurface)))
      ensures keyboard.Some? && allocationWidth > 0.0 && allocationHeight > 0.0 ==>
        && keyboardSurface != null && fresh(keyboardSurface)
        && keyboardSurface.width == allocationWidth && keyboardSurface.height == allocationHeight
        && keyboardSurface.content
           == DrawList(keyboard.value.current, allocationWidth, allocationHeight, scaleFactor)
        && (old(keyboardSurface) != null ==> old(keyboardSurface).destroyed)
      ensures keyboard == old(keyboard) && borderWidth == old(borderWidth)
      ensures allocationWidth == old(allocationWidth) && allocationHeight == old(allocationHeight)
      ensures scale == old(scale) && scaleFactor == old(scaleFactor)
      ensures originX == old(originX) && originY == old(originY)
      ensures allocatedView == old(allocatedView)
    {
      if !(keyboard.Some? && allocationWidth > 0.0 && allocationHeight > 0.0) {
        return;
      }
      if keyboardSurface != null {
        keyboardSurface.destroyed := true;
      }
      keyboardSurface := new Surface(allocationWidth, allocationHeight);
      RenderKeyboardSurface(keyboard.value.current);
    }
  }
}
