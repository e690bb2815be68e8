/**
 * The camera: a world position, the screen and view sizes and a zoom
 * factor, with clamped moves and the conversions between screen and world
 * coordinates.
 */
module Cameras {
  import opened Geometry
  import opened Ecs

  const MinZoom: real := 0.2
  const MaxZoom: real := 100.0

  function AbsR(v: real): real { if v < 0.0 then -v else v }

  /** num::clamp: `v` brought into the closed interval [lo, hi]. */
  function Clamp(v: real, lo: real, hi: real): (r: real)
    requires lo <= hi
    ensures lo <= r <= hi
    ensures lo <= v <= hi ==> r == v
  {
    if v < lo then lo else if v > hi then hi else v
  }

  /** Clamping picks the point of the interval nearest to `v`. */
  lemma ClampNearest(v: real, lo: real, hi: real, w: real)
    requires lo <= w <= hi
    ensures AbsR(Clamp(v, lo, hi) - v) <= AbsR(w - v)
  {
  }

  /**
   * Where a move by `delta` from `p` ends: plain addition without bounds, and
   * each axis clamped into the bounds' edges with them.
   */
  function ClampedMove(p: Vec2, delta: Vec2, bounds: Option<Rect>): (q: Vec2)
    ensures bounds.None? ==> q == p.Plus(delta)
    ensures bounds.Some? ==> bounds.value.Contains(q)
    ensures bounds.Some? && bounds.value.Contains(p.Plus(delta)) ==> q == p.Plus(delta)
  {
    match bounds
    case None => p.Plus(delta)
    case Some(r) =>
      Vec2(Clamp(p.x + delta.x, r.Left(), r.Right()), Clamp(p.y + delta.y, r.Top(), r.Bottom()))
  }

  /** Each clamped axis lands on the edge nearest to the unclamped target. */
  lemma ClampedMoveNearest(p: Vec2, delta: Vec2, r: Rect, w: Vec2)
    requires r.Contains(w)
    ensures var q := ClampedMove(p, delta, Some(r));
      AbsR(q.x - (p.x + delta.x)) <= AbsR(w.x - (p.x + delta.x))
      && AbsR(q.y - (p.y + delta.y)) <= AbsR(w.y - (p.y + delta.y))
  {
    ClampNearest(p.x + delta.x, r.Left(), r.Right(), w.x);
    ClampNearest(p.y + delta.y, r.Top(), r.Bottom(), w.y);
  }

  /** `v` multiplied by `s`, axis by axis. */
  function Scaled(v: Vec2, s: Vec2): Vec2 { Vec2(v.x * s.x, v.y * s.y) }

  /** `v` divided by `s`, axis by axis. */
  function Unscaled(v: Vec2, s: Vec2): Vec2
    requires s.x != 0.0 && s.y != 0.0
  {
    Vec2(v.x / s.x, v.y / s.y)
  }

  /**
   * An f64 quotient: a finite value, or the infinity or NaN that a division
   * by zero gives (which of the two is not modelled).
   */
  datatype Quotient = Finite(value: real) | NonFinite {
    /** Subtracting a finite value keeps a non-finite quotient non-finite. */
    function Minus(d: real): Quotient {
      if Finite? then Finite(value - d) else NonFinite
    }
  }

  /** `a / b` as f64 division computes it. */
  function Div(a: real, b: real): (q: Quotient)
    ensures q.Finite? <==> b != 0.0
    ensures q.Finite? ==> q.value * b == a
  {
    if b == 0.0 then NonFinite else Finite(a / b)
  }

  /** A screen vector whose components may each be non-finite. */
  datatype ScreenVec = ScreenVec(x: Quotient, y: Quotient) {
    predicate IsFinite() { x.Finite? && y.Finite? }

    function Value(): Vec2
      requires IsFinite()
    {
      Vec2(x.value, y.value)
    }

    function Minus(d: Vec2): ScreenVec { ScreenVec(x.Minus(d.x), y.Minus(d.y)) }
  }

  /** A finite vector as a screen vector. */
  function Exact(v: Vec2): ScreenVec { ScreenVec(Finite(v.x), Finite(v.y)) }

  function SizeToVec(s: Size): Vec2 { Vec2(s.w as real, s.h as real) }

  class Camera {
    var position: Vec2
    var screenSize: Vec2
    var viewSize: Vec2
    var zoom: real

    /** Camera::new: at the origin, with the given sizes and zoom. */
    constructor (screen: Size, view: Size, initialZoom: real)
      ensures position == Origin && zoom == initialZoom
      ensures screenSize == SizeToVec(screen) && viewSize == SizeToVec(view)
    {
      position := Origin;
      screenSize := SizeToVec(screen);
      viewSize := SizeToVec(view);
      zoom := initialZoom;
    }

    /** update_screen_size: only the screen size changes. */
    method UpdateScreenSize(screen: Size)
      modifies this`screenSize
      ensures screenSize == SizeToVec(screen)
    {
      screenSize := SizeToVec(screen);
    }

    /** move_by: relative move, clamped into `bounds` when given. */
    method MoveBy(delta: Vec2, bounds: Option<Rect>)
      modifies this`position
      ensures position == ClampedMove(old(position), delta, bounds)
    {
      var x := if bounds.Some? then Clamp(position.x + delta.x, bounds.value.Left(), bounds.value.Right())
               else position.x + delta.x;
      position := Vec2(x, position.y);
      var y := if bounds.Some? then Clamp(position.y + delta.y, bounds.value.Top(), bounds.value.Bottom())
               else position.y + delta.y;
      position := Vec2(position.x, y);
    }

    /** move_to: despite its name also relative, so it moves exactly as move_by does. */
    method MoveTo(to: Vec2, bounds: Option<Rect>)
      modifies this`position
      ensures position == ClampedMove(old(position), to, bounds)
    {
      if bounds.Some? {
        var r := bounds.value;
        position := Vec2(Clamp(to.x + position.x, r.Left(), r.Right()), Clamp(to.y + position.y, r.Top(), r.Bottom()));
      } else {
        position := Vec2(to.x + position.x, to.y + position.y);
      }
    }

    /** zoom_by: the zoom is clamped into [0.2, 100]; the bounds are ignored. */
    method ZoomBy(delta: real, bounds: Option<Rect>)
      modifies this`zoom
      ensures MinZoom <= zoom <= MaxZoom
      ensures MinZoom <= old(zoom) + delta <= MaxZoom ==> zoom == old(zoom) + delta
      ensures zoom == Clamp(old(zoom) + delta, MinZoom, MaxZoom)
    {
      zoom := Clamp(zoom + delta, MinZoom, MaxZoom);
    }

    predicate ScreenNonzero()
      reads this
    {
      screenSize.x != 0.0 && screenSize.y != 0.0
    }

    /** get_scale: world units per screen pixel on each axis. */
    function GetScale(): (s: Vec2)
      reads this
      requires ScreenNonzero()
      ensures s.x * screenSize.x == viewSize.x * zoom && s.y * screenSize.y == viewSize.y * zoom
    {
      Vec2(viewSize.x / screenSize.x * zoom, viewSize.y / screenSize.y * zoom)
    }

    /** Both scale components are nonzero, so world values can be divided by them. */
    predicate Invertible()
      reads this
    {
      ScreenNonzero() && GetScale().x != 0.0 && GetScale().y != 0.0
    }

    function ScreenSizeToWorld(v: Vec2): (w: Vec2)
      reads this
      requires ScreenNonzero()
      ensures w.x * screenSize.x == v.x * viewSize.x * zoom && w.y * screenSize.y == v.y * viewSize.y * zoom
    {
      Scaled(v, GetScale())
    }

    /** screen_point_to_world: the point shifted by the camera position, then scaled. */
    function ScreenPointToWorld(p: Vec2): (w: Vec2)
      reads this
      requires ScreenNonzero()
      ensures w == ScreenSizeToWorld(p.Plus(position))
    {
      var s := GetScale();
      Vec2(p.x * s.x + position.x * s.x, p.y * s.y + position.y * s.y)
    }

    /**
     * screen_rect_to_world: the corner converted as a point, the size scaled
     * and truncated to whole units (a u32 cast).
     */
    function ScreenRectToWorld(r: Rect): (w: Rect)
      reads this
      requires ScreenNonzero()
      ensures w.pos == ScreenPointToWorld(r.pos)
      ensures var s := ScreenSizeToWorld(SizeToVec(r.size));
        (0.0 <= s.x < U32Max as real ==> w.size.w as real <= s.x < w.size.w as real + 1.0)
        && (0.0 <= s.y < U32Max as real ==> w.size.h as real <= s.y < w.size.h as real + 1.0)
    {
      var s := ScreenSizeToWorld(SizeToVec(r.size));
      From(ScreenPointToWorld(r.pos), Size(CastU32(s.x), CastU32(s.y)))
    }

    /**
     * world_size_to_screen: the size divided by the scale; an axis whose
     * scale is zero (a zero view size or a zero zoom) has no finite result.
     */
    function WorldSizeToScreen(v: Vec2): (w: ScreenVec)
      reads this
      requires ScreenNonzero()
      ensures w.x.Finite? <==> viewSize.x != 0.0 && zoom != 0.0
      ensures w.y.Finite? <==> viewSize.y != 0.0 && zoom != 0.0
      ensures w.x.Finite? ==> w.x.value * GetScale().x == v.x
      ensures w.y.Finite? ==> w.y.value * GetScale().y == v.y
    {
      var s := GetScale();
      ScaleZeroIff(viewSize.x, screenSize.x, zoom, s.x);
      ScaleZeroIff(viewSize.y, screenSize.y, zoom, s.y);
      ScreenVec(Div(v.x, s.x), Div(v.y, s.y))
    }

    /** world_point_to_screen: the point scaled down, then shifted back by the camera position. */
    function WorldPointToScreen(p: Vec2): (w: ScreenVec)
      reads this
      requires ScreenNonzero()
      ensures w == WorldSizeToScreen(p).Minus(position)
    {
      var s := GetScale();
      ScreenVec(Div(p.x, s.x).Minus(position.x), Div(p.y, s.y).Minus(position.y))
    }
  }

  // ---------------------------------------------------------------------
  // Properties of the camera
  // ---------------------------------------------------------------------

  /** A scale component `view / screen * zoom` is zero iff the view size or the zoom is. */
  lemma ScaleZeroIff(view: real, screen: real, zoom: real, s: real)
    requires screen != 0.0 && s * screen == view * zoom
    ensures s == 0.0 <==> view == 0.0 || zoom == 0.0
  {
    if s == 0.0 {
      assert view * zoom == 0.0;
    }
    if view == 0.0 || zoom == 0.0 {
      assert s * screen == 0.0;
    }
  }

  /**
   * Size conversions are mutual inverses whenever both scale components are
   * nonzero: the way back to the screen is then finite.
   */
  lemma SizeRoundTrip(c: Camera, v: Vec2)
    requires c.Invertible()
    ensures c.WorldSizeToScreen(c.ScreenSizeToWorld(v)) == Exact(v)
    ensures c.WorldSizeToScreen(v).IsFinite() && c.ScreenSizeToWorld(c.WorldSizeToScreen(v).Value()) == v
  {
    ScaleCancels(v, c.GetScale());
  }

  /** Scaling by a factor with nonzero components and dividing by it cancel, in either order. */
  lemma ScaleCancels(v: Vec2, s: Vec2)
    requires s.x != 0.0 && s.y != 0.0
    ensures Unscaled(Scaled(v, s), s) == v && Scaled(Unscaled(v, s), s) == v
  {
    MulDivCancel(v.x, s.x);
    MulDivCancel(v.y, s.y);
  }

  /** Multiplying by a nonzero factor and dividing by it cancel, in either order. */
  lemma MulDivCancel(a: real, k: real)
    requires k != 0.0
    ensures a * k / k == a && a / k * k == a
  {
  }

  /**
   * The point conversions are mutual inverses too: the camera position is
   * added before scaling on the way to the world and subtracted after
   * scaling back on the way to the screen.
   */
  lemma PointRoundTrip(c: Camera, p: Vec2)
    requires c.Invertible()
    ensures c.WorldPointToScreen(c.ScreenPointToWorld(p)) == Exact(p)
    ensures c.WorldPointToScreen(p).IsFinite() && c.ScreenPointToWorld(c.WorldPointToScreen(p).Value()) == p
  {
    SizeRoundTrip(c, p.Plus(c.position));
    SizeRoundTrip(c, p);
    var q := c.WorldSizeToScreen(p).Value().Minus(c.position);
    assert c.WorldPointToScreen(p).Value() == q;
    assert q.Plus(c.position) == c.WorldSizeToScreen(p).Value();
  }
}
