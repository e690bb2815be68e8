/**
 * Plane geometry shared by every part of the engine: vectors, axis-aligned
 * rectangles and the engine-wide constants.
 *
 * World coordinates are reals (the game uses f32/f64; rounding is not
 * modelled) and y grows downward. Rectangle sizes are unsigned (u32), so they
 * are `nat` here.
 */
module Geometry {

  /** Side of one chunk cell of the spatial index, in world units. */
  const ChunkSize: nat := 500

  /** Granularity of the collision-avoidance search of the physics resolver. */
  const PhysicsEpsilon: real := 0.2

  /** Size of the camera's view, in world units. */
  const CameraViewSize: (nat, nat) := (1920, 1080)

  /** A 2-D vector or point with real components. */
  datatype Vec2 = Vec2(x: real, y: real) {
    function Plus(v: Vec2): Vec2 { Vec2(x + v.x, y + v.y) }
    function Minus(v: Vec2): Vec2 { Vec2(x - v.x, y - v.y) }
  }

  const Origin: Vec2 := Vec2(0.0, 0.0)

  /** A point with integer components (mouse positions, selection corners). */
  datatype IPoint = IPoint(x: int, y: int)

  /** An unsigned width and height. */
  datatype Size = Size(w: nat, h: nat)

  /** An axis-aligned rectangle: top-left corner and size. */
  datatype Rect = Rect(pos: Vec2, size: Size) {
    function Left(): real { pos.x }
    function Right(): real { pos.x + size.w as real }
    function Top(): real { pos.y }
    function Bottom(): real { pos.y + size.h as real }

    /** The rectangle translated by `delta` (math.rs move_by). */
    function MoveBy(delta: Vec2): Rect { Rect(pos.Plus(delta), size) }

    /** The rectangle with its corner replaced by `target` (math.rs move_to). */
    function MoveTo(target: Vec2): Rect { Rect(target, size) }

    /** The rectangle grown by `delta` (math.rs resize_by). */
    function ResizeBy(delta: Size): Rect { Rect(pos, Size(size.w + delta.w, size.h + delta.h)) }

    /** The rectangle with its size replaced by `target` (math.rs resize_to). */
    function ResizeTo(target: Size): Rect { Rect(pos, target) }

    /** Point inclusion, inclusive on all four edges. */
    predicate Contains(p: Vec2) {
      p.x >= Left() && p.x <= Right() && p.y <= Bottom() && p.y >= Top()
    }

    /** Closed-interval intersection test: rectangles that only touch overlap. */
    predicate Overlaps(other: Rect) {
      Left() <= other.Right() && Right() >= other.Left() && Top() <= other.Bottom() && Bottom() >= other.Top()
    }
  }

  /** Rect::new */
  function New(x: real, y: real, w: nat, h: nat): Rect {
    Rect(Vec2(x, y), Size(w, h))
  }

  /** Rect::from (position and size) */
  function From(pos: Vec2, size: Size): Rect {
    Rect(pos, size)
  }

  function Min(a: int, b: int): int { if a <= b then a else b }
  function Abs(a: int): nat { if a < 0 then -a else a }

  /**
   * Rect::from_points: the rectangle spanned by two integer corners, given in
   * any order; it contains both corners.
   */
  function FromPoints(p1: IPoint, p2: IPoint): (r: Rect)
    ensures r.Contains(ToReal(p1)) && r.Contains(ToReal(p2))
  {
    New(Min(p1.x, p2.x) as real, Min(p1.y, p2.y) as real, Abs(p1.x - p2.x), Abs(p1.y - p2.y))
  }

  /** From<(x, y, w, h)> for Rect */
  function FromTuple(t: (real, real, nat, nat)): Rect {
    New(t.0, t.1, t.2, t.3)
  }

  /** From<(pos, size)> for Rect */
  function FromPosSize(t: (Vec2, Size)): Rect {
    New(t.0.x, t.0.y, t.1.w, t.1.h)
  }

  function ToReal(p: IPoint): Vec2 { Vec2(p.x as real, p.y as real) }

  const U32Max: nat := 0xFFFF_FFFF

  /**
   * A float-to-u32 cast (`as u32`): truncates toward zero and saturates at
   * both ends of the u32 range.
   */
  function CastU32(v: real): (n: nat)
    ensures n <= U32Max
    ensures v <= 0.0 ==> n == 0
    ensures v >= U32Max as real ==> n == U32Max
    ensures 0.0 <= v < U32Max as real ==> n as real <= v < n as real + 1.0
  {
    if v <= 0.0 then 0 else if v >= U32Max as real then U32Max else v.Floor
  }

  // ---------------------------------------------------------------------
  // Properties of the rectangle algebra
  // ---------------------------------------------------------------------

  /** Sizes are unsigned, so the far edges never lie before the near ones. */
  lemma EdgesOrdered(r: Rect)
    ensures r.Left() <= r.Right() && r.Top() <= r.Bottom()
    ensures r.Right() - r.Left() == r.size.w as real && r.Bottom() - r.Top() == r.size.h as real
  {
  }

  /** Overlap is symmetric. */
  lemma OverlapsSymmetric(a: Rect, b: Rect)
    ensures a.Overlaps(b) <==> b.Overlaps(a)
  {
  }

  /** Every rectangle overlaps itself, even an empty one. */
  lemma OverlapsReflexive(a: Rect)
    ensures a.Overlaps(a)
  {
  }

  /** Overlap is a closed-interval test: rectangles sharing only an edge overlap. */
  lemma OverlapsWhenTouching(a: Rect, b: Rect)
    requires a.Right() == b.Left() && a.Top() == b.Top()
    ensures a.Overlaps(b)
  {
  }

  /** Overlap depends only on the relative position of the two rectangles. */
  lemma OverlapsTranslationInvariant(a: Rect, b: Rect, v: Vec2)
    ensures a.MoveBy(v).Overlaps(b.MoveBy(v)) <==> a.Overlaps(b)
  {
  }

  /** `Contains` is inclusive on all four edges: all four corners are inside. */
  lemma ContainsCorners(r: Rect)
    ensures r.Contains(Vec2(r.Left(), r.Top())) && r.Contains(Vec2(r.Right(), r.Top()))
    ensures r.Contains(Vec2(r.Left(), r.Bottom())) && r.Contains(Vec2(r.Right(), r.Bottom()))
  {
  }

  /** A rectangle overlaps every rectangle that contains one of its points. */
  lemma ContainsImpliesOverlaps(a: Rect, b: Rect, p: Vec2)
    requires a.Contains(p) && b.Contains(p)
    ensures a.Overlaps(b)
  {
  }

  /**
   * move_by adds to the position, move_to replaces it, resize_to replaces the
   * size; each leaves the other field alone.
   */
  lemma MutatorsTouchOneField(r: Rect, v: Vec2, p: Vec2, s: Size)
    ensures r.MoveBy(v).size == r.size && r.MoveBy(v).pos == Vec2(r.pos.x + v.x, r.pos.y + v.y)
    ensures r.MoveTo(p).size == r.size && r.MoveTo(p).pos == p
    ensures r.ResizeTo(s).pos == r.pos && r.ResizeTo(s).size == s
  {
  }

  /** Two translations compose into one, and a translation after move_to is a move_to. */
  lemma MoveByComposes(r: Rect, u: Vec2, v: Vec2)
    ensures r.MoveBy(u).MoveBy(v) == r.MoveBy(u.Plus(v))
    ensures r.MoveTo(u).MoveBy(v) == r.MoveTo(u.Plus(v))
  {
  }

  /** from_points: corner is the componentwise minimum, size the absolute difference. */
  lemma FromPointsShape(p1: IPoint, p2: IPoint)
    ensures FromPoints(p1, p2).pos == Vec2(Min(p1.x, p2.x) as real, Min(p1.y, p2.y) as real)
    ensures FromPoints(p1, p2).size == Size(Abs(p1.x - p2.x), Abs(p1.y - p2.y))
  {
  }

  /** from_points does not depend on the order of its two corners. */
  lemma FromPointsSymmetric(p1: IPoint, p2: IPoint)
    ensures FromPoints(p1, p2) == FromPoints(p2, p1)
  {
  }

  /** Both From conversions agree with Rect::new on the same fields. */
  lemma FromConversionsAgree(x: real, y: real, w: nat, h: nat)
    ensures FromTuple((x, y, w, h)) == New(x, y, w, h)
    ensures FromPosSize((Vec2(x, y), Size(w, h))) == New(x, y, w, h)
    ensures From(Vec2(x, y), Size(w, h)) == New(x, y, w, h)
  {
  }
}
