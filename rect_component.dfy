/**
 * The bounding-box component every positioned entity carries: a thin owner of
 * one Rect with read accessors and in-place moves.
 */
module RectComponents {
  import opened Geometry

  class RectComponent {
    var rect: Rect

    /** RectComponent::new */
    constructor (rect: Rect)
      ensures this.rect == rect
    {
      this.rect := rect;
    }

    /** RectComponent::default: the empty rectangle at the origin. */
    constructor Default()
      ensures rect == New(0.0, 0.0, 0, 0)
      ensures rect.pos == Origin && rect.size == Geometry.Size(0, 0)
    {
      rect := New(0.0, 0.0, 0, 0);
    }

    function GetRect(): Rect
      reads this
    {
      rect
    }

    function Pos(): (p: Vec2)
      reads this
      ensures p == GetRect().pos && p == Vec2(GetRect().Left(), GetRect().Top())
    {
      rect.pos
    }

    function Size(): (s: Geometry.Size)
      reads this
      ensures s == GetRect().size
      ensures s.w as real == GetRect().Right() - GetRect().Left()
      ensures s.h as real == GetRect().Bottom() - GetRect().Top()
    {
      rect.size
    }

    /** Shifts the position by `delta`; the size is unchanged. */
    method MoveBy(delta: Vec2)
      modifies this
      ensures Pos() == old(Pos()).Plus(delta) && Size() == old(Size())
    {
      rect := rect.MoveBy(delta);
    }

    /** Sets the position to `target`; the size is unchanged. */
    method MoveTo(target: Vec2)
      modifies this
      ensures Pos() == target && Size() == old(Size())
    {
      rect := rect.MoveTo(target);
    }
  }
}
