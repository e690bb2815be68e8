/**
 * The level editor's interaction modes: picking entities under the mouse or
 * inside a dragged rectangle, a selection (an entity and an optional group)
 * that can be dragged, deleted or turned into a copy brush, and the copy
 * brush that stamps clones of the selection where the mouse clicks.
 */
module Editor {
  import opened Geometry
  import opened Ecs
  import opened InputManagers
  import opened Cameras
  import Chunks

  datatype EditorMode =
    | Default
      /** A rubber-band rectangle between two screen points, while the left button is held. */
    | SelectionRectangle(p1: IPoint, p2: IPoint)
      /** A selected entity, with the other entities selected along with it. */
    | Select(entity: Entity, group: Option<seq<Entity>>)
      /** The copy brush, holding the selection it clones. */
    | Copy(entity: Entity, group: Option<seq<Entity>>)

  /** SDL key codes of the keys the editor reacts to. */
  const KeyBackspace := Keycode(8)
  const KeyC := Keycode(99)
  const KeyM := Keycode(109)
  const KeyP := Keycode(112)
  const KeyRight := Keycode(0x4000_004F)
  const KeyLeft := Keycode(0x4000_0050)
  const KeyDown := Keycode(0x4000_0051)
  const KeyUp := Keycode(0x4000_0052)

  function GroupOf(group: Option<seq<Entity>>): seq<Entity> {
    if group.Some? then group.value else []
  }

  /** The entities a mode holds: the selection first, then its group. */
  function Members(mode: EditorMode): seq<Entity> {
    match mode
    case Select(e, g) => [e] + GroupOf(g)
    case Copy(e, g) => [e] + GroupOf(g)
    case _ => []
  }

  /** What the editor keeps true of its mode: the held entities are alive and listed once each. */
  predicate ModeValid(mode: EditorMode, alive: set<Entity>) {
    Distinct(Members(mode)) && forall x :: x in Members(mode) ==> x in alive
  }

  // ---------------------------------------------------------------------
  // Picking
  // ---------------------------------------------------------------------

  /** The entities the editor can pick: alive, with a rectangle, and Active. */
  function Pickable(world: World): set<Entity>
    reads world
  {
    set e | e in world.alive && e in world.rects && e in world.active
  }

  /** The first entity of `order` whose rectangle contains `p`. */
  function FirstContaining(order: seq<Entity>, rects: map<Entity, Rect>, p: Vec2): (r: Option<Entity>)
    ensures r.Some? ==> r.value in order && r.value in rects && rects[r.value].Contains(p)
    ensures r.None? <==> forall x :: x in order && x in rects ==> !rects[x].Contains(p)
    decreases |order|
  {
    if order == [] then None
    else if order[0] in rects && rects[order[0]].Contains(p) then Some(order[0])
    else FirstContaining(order[1..], rects, p)
  }

  /** Over increasing ids the first hit is the least id whose rectangle contains the point. */
  lemma {:induction false} FirstContainingIsLeast(order: seq<Entity>, rects: map<Entity, Rect>, p: Vec2)
    requires StrictlyIncreasing(order)
    ensures var r := FirstContaining(order, rects, p);
      r.Some? ==> forall x :: x in order && x in rects && x < r.value ==> !rects[x].Contains(p)
    decreases |order|
  {
    if order != [] && !(order[0] in rects && rects[order[0]].Contains(p)) {
      var tail := order[1..];
      assert StrictlyIncreasing(tail) by {
        forall i, j | 0 <= i < j < |tail| ensures tail[i] < tail[j] {
          assert tail[i] == order[i + 1] && tail[j] == order[j + 1];
        }
      }
      FirstContainingIsLeast(tail, rects, p);
      forall x | x in order && x != order[0]
        ensures x in tail
      {
        var k :| 0 <= k < |order| && order[k] == x;
        assert tail[k - 1] == x;
      }
    } else if order != [] {
      forall x | x in order && x != order[0]
        ensures order[0] < x
      {
        var k :| 0 <= k < |order| && order[k] == x;
      }
    }
  }

  /** The entities of `order` whose rectangle overlaps `area`, in order. */
  function Overlapping(order: seq<Entity>, rects: map<Entity, Rect>, area: Rect): (r: seq<Entity>)
    ensures forall x :: x in r <==> x in order && x in rects && rects[x].Overlaps(area)
    ensures |r| <= |order|
    decreases |order|
  {
    if order == [] then []
    else
      var n := |order| - 1;
      Overlapping(order[..n], rects, area) + (if order[n] in rects && rects[order[n]].Overlaps(area) then [order[n]] else [])
  }

  /** Filtering keeps increasing ids increasing, so the picked entities are distinct. */
  lemma {:induction false} OverlappingIncreasing(order: seq<Entity>, rects: map<Entity, Rect>, area: Rect)
    requires StrictlyIncreasing(order)
    ensures StrictlyIncreasing(Overlapping(order, rects, area))
    decreases |order|
  {
    if order != [] {
      var n := |order| - 1;
      var init := order[..n];
      assert StrictlyIncreasing(init);
      OverlappingIncreasing(init, rects, area);
      var prev := Overlapping(init, rects, area);
      forall i | 0 <= i < |prev|
        ensures prev[i] < order[n]
      {
        assert prev[i] in prev;
        var k :| 0 <= k < n && init[k] == prev[i];
      }
    }
  }

  /**
   * EditorScene::get_entity_under_mouse: the pickable entities are visited
   * in increasing id order and the first whose rectangle contains the point
   * (already in world coordinates) is returned.
   */
  method GetEntityUnderMouse(world: World, point: Vec2) returns (r: Option<Entity>)
    ensures r == FirstContaining(Ascending(Pickable(world)), world.rects, point)
  {
    var order := EnumerateAscending(Pickable(world));
    var i := 0;
    while i < |order|
      invariant 0 <= i <= |order|
      invariant FirstContaining(order, world.rects, point) == FirstContaining(order[i..], world.rects, point)
    {
      var e := order[i];
      if e in world.rects && world.rects[e].Contains(point) {
        return Some(e);
      }
      assert order[i..][1..] == order[i + 1..];
      i := i + 1;
    }
    r := None;
  }

  /** EditorScene::get_entities_in_rect: the pickable entities overlapping `area`, in increasing id order. */
  method GetEntitiesInRect(world: World, area: Rect) returns (r: seq<Entity>)
    ensures r == Overlapping(Ascending(Pickable(world)), world.rects, area)
  {
    var order := EnumerateAscending(Pickable(world));
    r := [];
    for i := 0 to |order|
      invariant r == Overlapping(order[..i], world.rects, area)
    {
      assert order[..i + 1][..i] == order[..i];
      var e := order[i];
      if e in world.rects && world.rects[e].Overlaps(area) {
        r := r + [e];
      }
    }
    assert order[..|order|] == order;
  }

  /** Picked entities are alive, listed once each and in increasing id order. */
  lemma PickedAreAlive(world: World, point: Vec2, area: Rect)
    ensures var u := FirstContaining(Ascending(Pickable(world)), world.rects, point);
      u.Some? ==> u.value in world.alive && u.value in world.active
    ensures var es := Overlapping(Ascending(Pickable(world)), world.rects, area);
      StrictlyIncreasing(es) && forall x :: x in es ==> x in world.alive && x in world.active
  {
    AscendingSpec(Pickable(world));
    OverlappingIncreasing(Ascending(Pickable(world)), world.rects, area);
  }

  // ---------------------------------------------------------------------
  // Selection transitions
  // ---------------------------------------------------------------------

  /** The mode when the left button is released over a rubber band that caught `inRect`. */
  function ReleaseMode(inRect: seq<Entity>): (m: EditorMode)
    ensures m.Default? <==> inRect == []
    ensures m.Select? <==> inRect != []
    ensures m.Select? ==> Members(m) == inRect && (m.group.Some? ==> m.group.value != [])
  {
    if inRect == [] then Default
    else Select(inRect[0], if |inRect| == 1 then None else Some(inRect[1..]))
  }

  /** `s` without the occurrences of `x` (Vec::retain). */
  function Without(s: seq<Entity>, x: Entity): (r: seq<Entity>)
    ensures forall y :: y in r <==> y in s && y != x
    ensures |r| <= |s|
    decreases |s|
  {
    if s == [] then []
    else
      var n := |s| - 1;
      Without(s[..n], x) + (if s[n] != x then [s[n]] else [])
  }

  /** Removing an entity from a list without repetitions leaves a list without repetitions. */
  lemma {:induction false} WithoutDistinct(s: seq<Entity>, x: Entity)
    requires Distinct(s)
    ensures Distinct(Without(s, x))
    decreases |s|
  {
    if s != [] {
      var n := |s| - 1;
      var init := s[..n];
      assert Distinct(init);
      WithoutDistinct(init, x);
      var prev := Without(init, x);
      if s[n] != x {
        forall k | 0 <= k < |prev|
          ensures prev[k] != s[n]
        {
          assert prev[k] in prev;
          var j :| 0 <= j < n && init[j] == prev[k];
        }
      }
    }
  }

  /**
   * The group after a click on `clicked` while `selected` is selected: a
   * click inside the group swaps the clicked entity out of the group and
   * the old selection into it; a click on another entity empties the group
   * (which stays present, though empty).
   */
  function Reselect(selected: Entity, group: Option<seq<Entity>>, clicked: Entity): (g: Option<seq<Entity>>)
    ensures g.Some? <==> group.Some?
    ensures g.Some? && clicked in group.value ==>
      forall y :: y in g.value <==> (y in group.value && y != clicked) || (y == selected && selected != clicked)
    ensures g.Some? && clicked !in group.value ==> g.value == (if selected == clicked then group.value else [])
  {
    match group
    case None => None
    case Some(gs) =>
      if clicked in gs then
        var rest := Without(gs, clicked);

        Some(if selected != clicked then rest + [selected] else rest)
      else if selected != clicked then Some([])
      else group
  }

  /** A reselection keeps the selection and its group free of repetitions. */
  lemma ReselectDistinct(selected: Entity, gs: seq<Entity>, clicked: Entity)
    requires selected !in gs && Distinct(gs)
    ensures var g := Reselect(selected, Some(gs), clicked).value;
      clicked !in g && Distinct(g)
  {
    if clicked in gs {
      WithoutDistinct(gs, clicked);
      var rest := Without(gs, clicked);
      if selected != clicked {
        assert Distinct(rest + [selected]) by {
          forall i, j | 0 <= i < j < |rest + [selected]|
            ensures (rest + [selected])[i] != (rest + [selected])[j]
          {
            if j == |rest| {
              assert rest[i] in rest;
            }
          }
        }
      }
    }
  }

  /** Clicking a grouped entity keeps the same set of selected entities. */
  lemma ReselectKeepsSelection(selected: Entity, gs: seq<Entity>, clicked: Entity)
    requires clicked in gs && selected !in gs
    ensures var g := Reselect(selected, Some(gs), clicked).value;
      forall y :: (y == clicked || y in g) <==> (y == selected || y in gs)
  {
  }

  /** The mode after the left button was looked at (pressed, held or released). */
  function LeftStep(mode: EditorMode, left: Option<bool>, uiHover: bool, underMouse: Option<Entity>,
                    mouse: IPoint, inRect: seq<Entity>): (m: EditorMode)
    ensures left.None? ==> m == (if mode.SelectionRectangle? then ReleaseMode(inRect) else mode)
    ensures mode.Copy? ==> m == mode
    ensures uiHover && !mode.SelectionRectangle? ==> m == mode
    ensures m.Select? && m != mode ==> (underMouse == Some(m.entity) || (left.None? && m.entity == inRect[0]))
  {
    match left
    case None =>
      if mode.SelectionRectangle? then ReleaseMode(inRect) else mode
    case Some(jp) =>
      match mode
      case Default =>
        if uiHover then mode
        else if jp then (if underMouse.Some? then Select(underMouse.value, None) else mode)
        else SelectionRectangle(mouse, mouse)
      case SelectionRectangle(p1, _) => SelectionRectangle(p1, mouse)
      case Select(e, g) =>
        if uiHover || !jp then mode
        else if underMouse.Some? then Select(underMouse.value, Reselect(e, g, underMouse.value))
        else Default
      case Copy(_, _) => mode
  }

  /** A right click drops the copy brush. */
  function RightStep(mode: EditorMode, rightJustPressed: bool): (m: EditorMode)
    ensures m == mode || (mode.Copy? && m.Default?)
    ensures mode.Copy? && rightJustPressed ==> m.Default?
  {
    if rightJustPressed && mode.Copy? then Default else mode
  }

  /**
   * The key shortcuts, ignored while the mouse is over the UI: Backspace
   * (deleting a selection) always returns to Default, then C turns a
   * selection into the copy brush.
   */
  function KeyStep(mode: EditorMode, uiHover: bool, backspace: bool, keyC: bool): (m: EditorMode)
    ensures uiHover ==> m == mode
    ensures !uiHover && backspace ==> m.Default?
    ensures !uiHover && !backspace && keyC && mode.Select? ==> m == Copy(mode.entity, mode.group)
    ensures Members(m) == Members(mode) || m.Default?
  {
    if uiHover then mode
    else
      var m1 := if backspace then Default else mode;
      if keyC && m1.Select? then Copy(m1.entity, m1.group) else m1
  }

  /** Only entities alive before stay held; a larger alive set keeps the mode valid. */
  lemma ModeValidGrows(mode: EditorMode, alive: set<Entity>, more: set<Entity>)
    requires ModeValid(mode, alive) && alive <= more
    ensures ModeValid(mode, more)
  {
  }

  /**
   * The left button's transition keeps the held entities alive and
   * distinct, as long as the picked entity is alive and the rubber band's
   * catch is listed without repetition.
   */
  lemma LeftStepKeepsModeValid(mode: EditorMode, alive: set<Entity>, left: Option<bool>, uiHover: bool,
                               underMouse: Option<Entity>, mouse: IPoint, inRect: seq<Entity>)
    requires ModeValid(mode, alive)
    requires underMouse.Some? ==> underMouse.value in alive
    requires Distinct(inRect) && forall x :: x in inRect ==> x in alive
    ensures ModeValid(LeftStep(mode, left, uiHover, underMouse, mouse, inRect), alive)
  {
    var m := LeftStep(mode, left, uiHover, underMouse, mouse, inRect);
    if left.Some? && mode.Select? && !uiHover && left.value && underMouse.Some? {
      var e, g, c := mode.entity, mode.group, underMouse.value;
      var members := [e] + GroupOf(g);
      assert forall x :: x in GroupOf(g) ==> x in members;
      assert e !in GroupOf(g) && Distinct(GroupOf(g)) by {
        forall i, j | 0 <= i < j < |GroupOf(g)| ensures GroupOf(g)[i] != GroupOf(g)[j] {
          assert GroupOf(g)[i] == members[i + 1] && GroupOf(g)[j] == members[j + 1];
        }
        forall i | 0 <= i < |GroupOf(g)| ensures GroupOf(g)[i] != e {
          assert members[0] == e && members[i + 1] == GroupOf(g)[i];
        }
      }
      var ng := Reselect(e, g, c);
      if g.Some? {
        ReselectDistinct(e, g.value, c);
      }
      assert Members(m) == [c] + GroupOf(ng);
    }
    assert ModeValid(m, alive);
  }

  /** Every mode transition of a frame keeps the held entities alive and distinct. */
  lemma StepsKeepModeValid(mode: EditorMode, alive: set<Entity>, left: Option<bool>, uiHover: bool,
                           underMouse: Option<Entity>, mouse: IPoint, inRect: seq<Entity>,
                           right: bool, backspace: bool, keyC: bool)
    requires ModeValid(mode, alive)
    requires underMouse.Some? ==> underMouse.value in alive
    requires Distinct(inRect) && forall x :: x in inRect ==> x in alive
    ensures ModeValid(KeyStep(RightStep(LeftStep(mode, left, uiHover, underMouse, mouse, inRect), right), uiHover, backspace, keyC), alive)
  {
    LeftStepKeepsModeValid(mode, alive, left, uiHover, underMouse, mouse, inRect);
  }

  // ---------------------------------------------------------------------
  // Dragging the selection
  // ---------------------------------------------------------------------

  predicate InsideH(r: Rect, bounds: Rect) { bounds.Left() <= r.Left() && r.Right() <= bounds.Right() }
  predicate InsideV(r: Rect, bounds: Rect) { bounds.Top() <= r.Top() && r.Bottom() <= bounds.Bottom() }

  /**
   * The move actually applied to a dragged rectangle: each axis of the mouse
   * move is kept when the rectangle moved along that axis alone stays within
   * the bounds on that axis, and is dropped otherwise.
   */
  function DragDelta(r: Rect, d: Vec2, bounds: Rect): (v: Vec2)
    ensures InsideH(r.MoveBy(Vec2(d.x, 0.0)), bounds) ==> v.x == d.x
    ensures !InsideH(r.MoveBy(Vec2(d.x, 0.0)), bounds) ==> v.x == 0.0
    ensures InsideV(r.MoveBy(Vec2(0.0, d.y)), bounds) ==> v.y == d.y
    ensures !InsideV(r.MoveBy(Vec2(0.0, d.y)), bounds) ==> v.y == 0.0
    ensures InsideH(r, bounds) ==> InsideH(r.MoveBy(v), bounds)
    ensures InsideV(r, bounds) ==> InsideV(r.MoveBy(v), bounds)
  {
    var mx := if bounds.Left() <= r.pos.x + d.x && bounds.Right() >= r.pos.x + d.x + r.size.w as real then d.x else 0.0;
    var my := if bounds.Top() <= r.pos.y + d.y && bounds.Bottom() >= r.pos.y + d.y + r.size.h as real then d.y else 0.0;
    Vec2(mx, my)
  }

  /** The rectangles after the entities of `es` were dragged one after the other. */
  function DragRects(rects: map<Entity, Rect>, es: seq<Entity>, d: Vec2, bounds: Rect): (r: map<Entity, Rect>)
    ensures r.Keys == rects.Keys
    ensures forall e :: e in rects && e !in es ==> r[e] == rects[e]
    ensures forall e :: e in rects ==> r[e].size == rects[e].size
    decreases |es|
  {
    if es == [] then rects
    else
      var n := |es| - 1;
      var prev := DragRects(rects, es[..n], d, bounds);
      var e := es[n];
      if e in prev then prev[e := prev[e].MoveBy(DragDelta(prev[e], d, bounds))] else prev
  }

  /** A drag never takes a rectangle that lies within the bounds out of them. */
  lemma {:induction false} DragKeepsInside(rects: map<Entity, Rect>, es: seq<Entity>, d: Vec2, bounds: Rect, e: Entity)
    requires e in rects && InsideH(rects[e], bounds) && InsideV(rects[e], bounds)
    ensures var r := DragRects(rects, es, d, bounds); InsideH(r[e], bounds) && InsideV(r[e], bounds)
    decreases |es|
  {
    if es != [] {
      DragKeepsInside(rects, es[..|es| - 1], d, bounds, e);
    }
  }

  /** When no entity is listed twice, each listed entity is moved exactly once, by its own clamped delta. */
  lemma {:induction false} DragMovesOnce(rects: map<Entity, Rect>, es: seq<Entity>, d: Vec2, bounds: Rect, e: Entity)
    requires Distinct(es) && e in es && e in rects
    ensures DragRects(rects, es, d, bounds)[e] == rects[e].MoveBy(DragDelta(rects[e], d, bounds))
    decreases |es|
  {
    var n := |es| - 1;
    var init := es[..n];
    assert Distinct(init);
    if e != es[n] {
      assert e in init by {
        var k :| 0 <= k < |es| && es[k] == e;
        assert init[k] == e;
      }
      DragMovesOnce(rects, init, d, bounds, e);
    } else {
      assert e !in init by {
        forall k | 0 <= k < n ensures init[k] != e {
          assert init[k] == es[k];
        }
      }
    }
  }

  /** The entities of `es` that have a key in `keys`, in order. */
  function WithKey(es: seq<Entity>, keys: set<Entity>): (r: seq<Entity>)
    ensures forall x :: x in r <==> x in es && x in keys
    decreases |es|
  {
    if es == [] then []
    else
      var n := |es| - 1;
      WithKey(es[..n], keys) + (if es[n] in keys then [es[n]] else [])
  }

  /**
   * The `move_ent!` drag of the selection and its group: each entity with a
   * rectangle is moved by its clamped delta and flagged as modified.
   */
  method Drag(world: World, es: seq<Entity>, d: Vec2, bounds: Rect)
    modifies world`rects, world`modified
    ensures world.rects == DragRects(old(world.rects), es, d, bounds)
    ensures world.modified == old(world.modified) + WithKey(es, old(world.rects).Keys)
  {
    for i := 0 to |es|
      invariant world.rects == DragRects(old(world.rects), es[..i], d, bounds)
      invariant world.modified == old(world.modified) + WithKey(es[..i], old(world.rects).Keys)
    {
      assert es[..i + 1][..i] == es[..i];
      var e := es[i];
      if e in world.rects {
        var r := world.rects[e];
        world.SetRect(e, r.MoveBy(DragDelta(r, d, bounds)));
      }
    }
    assert es[..|es|] == es;
  }

  // ---------------------------------------------------------------------
  // Stamping copies
  // ---------------------------------------------------------------------

  /** The selection's rectangle, or the empty rectangle at the origin when it has none. */
  function SelectRect(rects: map<Entity, Rect>, e: Entity): Rect {
    if e in rects then rects[e] else New(0.0, 0.0, 0, 0)
  }

  /** A grouped entity's position, or the origin when it has no rectangle. */
  function PosOf(rects: map<Entity, Rect>, e: Entity): Vec2 {
    if e in rects then rects[e].pos else Origin
  }

  /**
   * Where the copies go: the selection's copy centred on the mouse, and each
   * grouped entity's copy at its old offset from the selection.
   */
  function CopyTargets(rects: map<Entity, Rect>, selected: Entity, group: seq<Entity>, mouse: Vec2): (ts: seq<Vec2>)
    ensures |ts| == |group| + 1
    ensures var sel := SelectRect(rects, selected);
      ts[0].x + sel.size.w as real / 2.0 == mouse.x && ts[0].y + sel.size.h as real / 2.0 == mouse.y
    ensures forall i :: 0 <= i < |group| ==>
      ts[i + 1].Minus(ts[0]) == PosOf(rects, group[i]).Minus(SelectRect(rects, selected).pos)
  {
    var sel := SelectRect(rects, selected);
    var placed := Vec2(mouse.x - sel.size.w as real / 2.0, mouse.y - sel.size.h as real / 2.0);
    [placed] + seq(|group|, i requires 0 <= i < |group| =>
      var pos := PosOf(rects, group[i]);
      Vec2(placed.x - (sel.pos.x - pos.x), placed.y - (sel.pos.y - pos.y)))
  }

  /** A component map after the clone `copy` of `src` got a copy of the source's entry, if any. */
  function CopyInto<T>(m: map<Entity, T>, src: Entity, copy: Entity): map<Entity, T> {
    if src in m then m[copy := m[src]] else m
  }

  /** The rectangles after the clone `copy` of `src` got the source's rectangle moved to `pos`, if any. */
  function MoveInto(rects: map<Entity, Rect>, src: Entity, copy: Entity, pos: Vec2): map<Entity, Rect> {
    if src in rects then rects[copy := rects[src].MoveTo(pos)] else rects
  }

  /** What a clone adds to the insertion and modification logs. */
  function Logged(rects: map<Entity, Rect>, src: Entity, copy: Entity): seq<Entity> {
    if src in rects then [copy] else []
  }

  /**
   * The entries the first n clones get under the fresh ids first, first + 1,
   * ...: a copy of their source's entry, where it has one.
   */
  function Copied<T>(m: map<Entity, T>, first: Entity, srcs: seq<Entity>, n: nat): map<Entity, T>
    requires n <= |srcs|
  {
    if n == 0 then map[]
    else
      var prev := Copied(m, first, srcs, n - 1);
      if srcs[n - 1] in m then prev[first + n - 1 := m[srcs[n - 1]]] else prev
  }

  /** Only fresh ids get copied entries. */
  lemma {:induction false} CopiedRange<T>(m: map<Entity, T>, first: Entity, srcs: seq<Entity>, n: nat)
    requires n <= |srcs|
    ensures forall k :: k in Copied(m, first, srcs, n) ==> first <= k < first + n
  {
    if n > 0 {
      CopiedRange(m, first, srcs, n - 1);
    }
  }

  /** The i-th clone has a copy of the i-th source's entry exactly when the source has one. */
  lemma {:induction false} CopiedSpec<T>(m: map<Entity, T>, first: Entity, srcs: seq<Entity>, n: nat, i: nat)
    requires i < n <= |srcs|
    ensures first + i in Copied(m, first, srcs, n) <==> srcs[i] in m
    ensures srcs[i] in m ==> Copied(m, first, srcs, n)[first + i] == m[srcs[i]]
  {
    if i < n - 1 {
      CopiedSpec(m, first, srcs, n - 1, i);
    } else {
      CopiedRange(m, first, srcs, n - 1);
    }
  }

  /** The rectangles of the first n clones, each moved to its target. */
  function CopiedRects(rects: map<Entity, Rect>, first: Entity, srcs: seq<Entity>, targets: seq<Vec2>, n: nat): map<Entity, Rect>
    requires n <= |srcs| == |targets|
  {
    if n == 0 then map[]
    else
      var prev := CopiedRects(rects, first, srcs, targets, n - 1);
      if srcs[n - 1] in rects then prev[first + n - 1 := rects[srcs[n - 1]].MoveTo(targets[n - 1])] else prev
  }

  /** Only fresh ids get copied rectangles. */
  lemma {:induction false} CopiedRectsRange(rects: map<Entity, Rect>, first: Entity, srcs: seq<Entity>, targets: seq<Vec2>, n: nat)
    requires n <= |srcs| == |targets|
    ensures forall k :: k in CopiedRects(rects, first, srcs, targets, n) ==> first <= k < first + n
  {
    if n > 0 {
      CopiedRectsRange(rects, first, srcs, targets, n - 1);
    }
  }

  /** The i-th clone has a rectangle when the i-th source has one: the source's size, at the i-th target. */
  lemma {:induction false} CopiedRectsSpec(rects: map<Entity, Rect>, first: Entity, srcs: seq<Entity>, targets: seq<Vec2>,
                                           n: nat, i: nat)
    requires i < n <= |srcs| == |targets|
    ensures first + i in CopiedRects(rects, first, srcs, targets, n) <==> srcs[i] in rects
    ensures srcs[i] in rects ==> CopiedRects(rects, first, srcs, targets, n)[first + i].pos == targets[i]
    ensures srcs[i] in rects ==> CopiedRects(rects, first, srcs, targets, n)[first + i].size == rects[srcs[i]].size
  {
    if i < n - 1 {
      CopiedRectsSpec(rects, first, srcs, targets, n - 1, i);
    } else {
      CopiedRectsRange(rects, first, srcs, targets, n - 1);
    }
  }

  /** The ids of the first n clones that get a rectangle, in creation order. */
  function CopyIds(rects: map<Entity, Rect>, first: Entity, srcs: seq<Entity>, n: nat): seq<Entity>
    requires n <= |srcs|
  {
    if n == 0 then [] else CopyIds(rects, first, srcs, n - 1) + Logged(rects, srcs[n - 1], first + n - 1)
  }

  /** The logged clones are exactly those whose source has a rectangle, each once, in increasing id order. */
  lemma {:induction false} CopyIdsSpec(rects: map<Entity, Rect>, first: Entity, srcs: seq<Entity>, n: nat)
    requires n <= |srcs|
    ensures forall k :: k in CopyIds(rects, first, srcs, n) ==> first <= k < first + n
    ensures forall i :: 0 <= i < n ==> (first + i in CopyIds(rects, first, srcs, n) <==> srcs[i] in rects)
    ensures StrictlyIncreasing(CopyIds(rects, first, srcs, n))
  {
    if n > 0 {
      var prev := CopyIds(rects, first, srcs, n - 1);
      CopyIdsSpec(rects, first, srcs, n - 1);
      assert forall j :: 0 <= j < |prev| ==> prev[j] in prev;
    }
  }

  /** Updating a right-biased union updates its right operand. */
  lemma UnionUpdate<K, V>(m0: map<K, V>, c: map<K, V>, k: K, v: V)
    ensures (m0 + c)[k := v] == m0 + c[k := v]
  {
  }

  /** A key the right operand lacks is looked up in the left one. */
  lemma UnionLookup<K, V>(m0: map<K, V>, c: map<K, V>, k: K)
    requires k !in c
    ensures k in m0 + c <==> k in m0
    ensures k in m0 ==> (m0 + c)[k] == m0[k]
  {
  }

  /** The ids first, ..., first + n - 1. */
  function FreshIds(first: Entity, n: nat): set<Entity> {
    if n == 0 then {} else FreshIds(first, n - 1) + {first + n - 1}
  }

  lemma {:induction false} FreshIdsSpec(first: Entity, n: nat)
    ensures forall k :: k in FreshIds(first, n) <==> first <= k < first + n
  {
    if n > 0 {
      FreshIdsSpec(first, n - 1);
    }
  }

  /** The markers handed out to the clones: the j-th fresh marker names the j-th clone. */
  function FreshMarkers(firstMarker: MarkerId, first: Entity, n: nat): map<MarkerId, Entity> {
    if n == 0 then map[] else FreshMarkers(firstMarker, first, n - 1)[firstMarker + n - 1 := first + n - 1]
  }

  lemma {:induction false} FreshMarkersSpec(firstMarker: MarkerId, first: Entity, n: nat)
    ensures forall j :: j in FreshMarkers(firstMarker, first, n) <==> firstMarker <= j < firstMarker + n
    ensures forall j :: j in FreshMarkers(firstMarker, first, n) ==>
      FreshMarkers(firstMarker, first, n)[j] == first + (j - firstMarker)
  {
    if n > 0 {
      FreshMarkersSpec(firstMarker, first, n - 1);
      var prev := FreshMarkers(firstMarker, first, n - 1);
      assert FreshMarkers(firstMarker, first, n) == prev[firstMarker + n - 1 := first + n - 1];
    }
  }

  /** The part of the world that cloning touches, as a value. */
  datatype CloneView = CloneView(alive: set<Entity>, next: Entity, rects: map<Entity, Rect>,
    physics: map<Entity, PhysicsComponent>, inputs: map<Entity, seq<Binding>>,
    markers: map<MarkerId, Entity>, nextMarker: MarkerId, inserted: seq<Entity>, modified: seq<Entity>)

  function ViewOf(w: World): CloneView
    reads w
  {
    CloneView(w.alive, w.nextEntity, w.rects, w.physics, w.inputs, w.markers, w.nextMarker, w.inserted, w.modified)
  }

  /** One clone of `src`, moved to `pos`, as World.CloneEntity performs it. */
  function CloneStep(v: CloneView, src: Entity, pos: Vec2): CloneView {
    var copy := v.next;
    CloneView(v.alive + {copy}, copy + 1, MoveInto(v.rects, src, copy, pos),
      CopyInto(v.physics, src, copy), CopyInto(v.inputs, src, copy),
      v.markers[v.nextMarker := copy], v.nextMarker + 1,
      v.inserted + Logged(v.rects, src, copy), v.modified + Logged(v.rects, src, copy))
  }

  /**
   * The world after the first n clones, in closed form: the clones get the
   * next ids and markers in order, copies of their sources' components with
   * the rectangles moved to the targets, and the clones with a rectangle are
   * logged as inserted and modified.
   */
  function ClosedForm(v: CloneView, srcs: seq<Entity>, targets: seq<Vec2>, n: nat): CloneView
    requires n <= |srcs| == |targets|
  {
    var first := v.next;
    CloneView(v.alive + FreshIds(first, n), first + n,
      v.rects + CopiedRects(v.rects, first, srcs, targets, n),
      v.physics + Copied(v.physics, first, srcs, n), v.inputs + Copied(v.inputs, first, srcs, n),
      v.markers + FreshMarkers(v.nextMarker, first, n), v.nextMarker + n,
      v.inserted + CopyIds(v.rects, first, srcs, n), v.modified + CopyIds(v.rects, first, srcs, n))
  }

  /** Before any clone the closed form is the world itself. */
  lemma ClosedEmpty(v: CloneView, srcs: seq<Entity>, targets: seq<Vec2>)
    requires |srcs| == |targets|
    ensures ClosedForm(v, srcs, targets, 0) == v
  {
    assert v.rects + map[] == v.rects && v.physics + map[] == v.physics && v.inputs + map[] == v.inputs;
    assert v.markers + map[] == v.markers && v.inserted + [] == v.inserted && v.modified + [] == v.modified;
  }

  /** One more clone extends the closed form by one entity, when its source is not itself a clone. */
  lemma ClosedStep(v: CloneView, srcs: seq<Entity>, targets: seq<Vec2>, i: nat)
    requires i < |srcs| == |targets| && srcs[i] < v.next
    ensures CloneStep(ClosedForm(v, srcs, targets, i), srcs[i], targets[i]) == ClosedForm(v, srcs, targets, i + 1)
  {
    var first := v.next;
    var c := ClosedForm(v, srcs, targets, i);
    var lhs, rhs := CloneStep(c, srcs[i], targets[i]), ClosedForm(v, srcs, targets, i + 1);
    assert lhs.rects == rhs.rects by {
      RectsStep(v.rects, first, srcs, targets, i);
    }
    assert lhs.physics == rhs.physics by {
      CopiedStep(v.physics, first, srcs, i);
    }
    assert lhs.inputs == rhs.inputs by {
      CopiedStep(v.inputs, first, srcs, i);
    }
    assert lhs.markers == rhs.markers by {
      MarkersStep(v.markers, v.nextMarker, first, i);
    }
    assert lhs.inserted == rhs.inserted by {
      LogStep(v.rects, first, srcs, targets, v.inserted, i);
    }
    assert lhs.modified == rhs.modified by {
      LogStep(v.rects, first, srcs, targets, v.modified, i);
    }
  }

  /** The next clone's marker, added to those of the earlier ones. */
  lemma MarkersStep(markers: map<MarkerId, Entity>, firstMarker: MarkerId, first: Entity, i: nat)
    ensures (markers + FreshMarkers(firstMarker, first, i))[firstMarker + i := first + i]
      == markers + FreshMarkers(firstMarker, first, i + 1)
  {
    var prev := FreshMarkers(firstMarker, first, i);
    assert FreshMarkers(firstMarker, first, i + 1) == prev[firstMarker + i := first + i];
    UnionUpdate(markers, prev, firstMarker + i, first + i);
  }

  /** The next clone's rectangle, added to the closed form of the earlier ones. */
  lemma RectsStep(rects0: map<Entity, Rect>, first: Entity, srcs: seq<Entity>, targets: seq<Vec2>, i: nat)
    requires i < |srcs| == |targets| && srcs[i] < first
    ensures MoveInto(rects0 + CopiedRects(rects0, first, srcs, targets, i), srcs[i], first + i, targets[i])
      == rects0 + CopiedRects(rects0, first, srcs, targets, i + 1)
  {
    var c := CopiedRects(rects0, first, srcs, targets, i);
    CopiedRectsRange(rects0, first, srcs, targets, i);
    UnionLookup(rects0, c, srcs[i]);
    if srcs[i] in rects0 {
      UnionUpdate(rects0, c, first + i, rects0[srcs[i]].MoveTo(targets[i]));
    }
  }

  /** The next clone's log entry, appended after those of the earlier ones. */
  lemma LogStep(rects0: map<Entity, Rect>, first: Entity, srcs: seq<Entity>, targets: seq<Vec2>, log: seq<Entity>, i: nat)
    requires i < |srcs| == |targets| && srcs[i] < first
    ensures log + CopyIds(rects0, first, srcs, i)
        + Logged(rects0 + CopiedRects(rects0, first, srcs, targets, i), srcs[i], first + i)
      == log + CopyIds(rects0, first, srcs, i + 1)
  {
    var c := CopiedRects(rects0, first, srcs, targets, i);
    CopiedRectsRange(rects0, first, srcs, targets, i);
    UnionLookup(rects0, c, srcs[i]);
    var ids, added := CopyIds(rects0, first, srcs, i), Logged(rects0, srcs[i], first + i);
    assert log + ids + added == log + (ids + added);
  }

  /** The next clone's component entry, added to the closed form of the earlier ones. */
  lemma CopiedStep<T>(m0: map<Entity, T>, first: Entity, srcs: seq<Entity>, i: nat)
    requires i < |srcs| && srcs[i] < first
    ensures CopyInto(m0 + Copied(m0, first, srcs, i), srcs[i], first + i) == m0 + Copied(m0, first, srcs, i + 1)
  {
    var c := Copied(m0, first, srcs, i);
    CopiedRange(m0, first, srcs, i);
    UnionLookup(m0, c, srcs[i]);
    if srcs[i] in m0 {
      UnionUpdate(m0, c, first + i, m0[srcs[i]]);
    }
  }

  /**
   * The copy brush's click: each entity of `srcs` is cloned, in order, and
   * its clone moved to the matching target.
   */
  method CloneAll(world: World, srcs: seq<Entity>, targets: seq<Vec2>)
    requires world.Valid() && |targets| == |srcs|
    requires forall x :: x in srcs ==> x in world.alive
    modifies world`alive, world`nextEntity, world`rects, world`physics, world`inputs,
      world`markers, world`nextMarker, world`inserted, world`modified
    ensures world.Valid()
    ensures ViewOf(world) == ClosedForm(old(ViewOf(world)), srcs, targets, |srcs|)
  {
    ghost var v0 := ViewOf(world);
    ClosedEmpty(v0, srcs, targets);
    for i := 0 to |srcs|
      invariant world.Valid()
      invariant ViewOf(world) == ClosedForm(v0, srcs, targets, i)
    {
      assert srcs[i] in srcs;
      ghost var pre := ViewOf(world);
      var copy := world.CloneEntity(srcs[i], targets[i]);
      assert ViewOf(world) == CloneStep(pre, srcs[i], targets[i]);
      ClosedStep(v0, srcs, targets, i);
    }
  }

  // ---------------------------------------------------------------------
  // Deleting the selection
  // ---------------------------------------------------------------------

  function Elems(es: seq<Entity>): (s: set<Entity>)
    ensures forall x :: x in s <==> x in es
    decreases |es|
  {
    if es == [] then {} else Elems(es[..|es| - 1]) + {es[|es| - 1]}
  }

  /** Appending an entity not yet listed keeps the list free of repeats. */
  lemma DistinctSnoc(s: seq<Entity>, x: Entity)
    requires Distinct(s) && x !in s
    ensures Distinct(s + [x])
  {
    forall a, b | 0 <= a < b < |s| + 1 ensures (s + [x])[a] != (s + [x])[b] {
      assert (s + [x])[a] == s[a];
      if b < |s| {
        assert (s + [x])[b] == s[b];
      }
    }
  }

  /** The part of the world that deleting touches, as a value. */
  datatype DeleteView = DeleteView(alive: set<Entity>, rects: map<Entity, Rect>, chunkComps: map<Entity, seq<Chunk>>,
    active: set<Entity>, physics: map<Entity, PhysicsComponent>, actions: map<Entity, seq<Action>>,
    inputs: map<Entity, seq<Binding>>, removed: seq<Entity>)

  function DeleteViewOf(w: World): DeleteView
    reads w
  {
    DeleteView(w.alive, w.rects, w.chunkComps, w.active, w.physics, w.actions, w.inputs, w.removed)
  }

  /** The entities of `gone` dropped from every component, and `log` appended to the removal log. */
  function Deleted(v: DeleteView, gone: set<Entity>, log: seq<Entity>): DeleteView {
    DeleteView(v.alive - gone, v.rects - gone, v.chunkComps - gone, v.active - gone,
      v.physics - gone, v.actions - gone, v.inputs - gone, v.removed + log)
  }

  /** Every store and log of a world, as one value. */
  datatype WorldState = WorldState(alive: set<Entity>, next: Entity, rects: map<Entity, Rect>,
    chunkComps: map<Entity, seq<Chunk>>, active: set<Entity>, physics: map<Entity, PhysicsComponent>,
    actions: map<Entity, seq<Action>>, inputs: map<Entity, seq<Binding>>, markers: map<MarkerId, Entity>,
    nextMarker: MarkerId, inserted: seq<Entity>, modified: seq<Entity>, removed: seq<Entity>)

  function StateOf(w: World): WorldState
    reads w
  {
    WorldState(w.alive, w.nextEntity, w.rects, w.chunkComps, w.active, w.physics, w.actions, w.inputs,
      w.markers, w.nextMarker, w.inserted, w.modified, w.removed)
  }

  /** `s` with the stores a clone touches taken from `v`. */
  function WithClones(s: WorldState, v: CloneView): WorldState {
    s.(alive := v.alive, next := v.next, rects := v.rects, physics := v.physics, inputs := v.inputs,
       markers := v.markers, nextMarker := v.nextMarker, inserted := v.inserted, modified := v.modified)
  }

  /**
   * The key shortcuts' effect on the world: when `deleting`, the held
   * entities are deleted, those with a rectangle logged in order; every
   * other store stays as it was.
   */
  function KeysWorld(s: WorldState, held: seq<Entity>, deleting: bool): WorldState {
    WithDeletes(s, KeysEffect(DeletesOf(s), held, deleting, s.rects.Keys))
  }

  /** The same on the stores deleting touches, `keys` being the entities with a rectangle. */
  function KeysEffect(v: DeleteView, held: seq<Entity>, deleting: bool, keys: set<Entity>): DeleteView {
    if deleting then Deleted(v, Elems(held), WithKey(held, keys)) else v
  }

  /** The stores of `s` that deleting touches. */
  function DeletesOf(s: WorldState): DeleteView {
    DeleteView(s.alive, s.rects, s.chunkComps, s.active, s.physics, s.actions, s.inputs, s.removed)
  }

  /** `s` with the stores deleting touches taken from `d`. */
  function WithDeletes(s: WorldState, d: DeleteView): WorldState {
    s.(alive := d.alive, rects := d.rects, chunkComps := d.chunkComps, active := d.active,
       physics := d.physics, actions := d.actions, inputs := d.inputs, removed := d.removed)
  }

  /** Two deletions in a row delete the union and append both logs. */
  lemma DeletedTwice(v: DeleteView, gone: set<Entity>, log: seq<Entity>, more: set<Entity>, added: seq<Entity>)
    ensures Deleted(Deleted(v, gone, log), more, added) == Deleted(v, gone + more, log + added)
  {
    assert v.removed + log + added == v.removed + (log + added);
  }

  lemma ElemsSnoc(done: seq<Entity>, e: Entity)
    ensures Elems(done + [e]) == Elems(done) + {e}
  {
    assert (done + [e])[..|done|] == done;
  }

  lemma WithKeySnoc(done: seq<Entity>, e: Entity, keys: set<Entity>)
    ensures WithKey(done + [e], keys) == WithKey(done, keys) + (if e in keys then [e] else [])
  {
    assert (done + [e])[..|done|] == done;
  }

  /**
   * Deleting the entities of `done` and then `e` deletes the entities of
   * `done + [e]` at once, when `e` is not among those already deleted.
   */
  lemma DeletedStep(v: DeleteView, done: seq<Entity>, e: Entity)
    requires e !in done
    ensures var pre := Deleted(v, Elems(done), WithKey(done, v.rects.Keys));
      Deleted(pre, {e}, Logged(pre.rects, e, e)) == Deleted(v, Elems(done + [e]), WithKey(done + [e], v.rects.Keys))
  {
    var gone, log := Elems(done), WithKey(done, v.rects.Keys);
    var added := Logged(v.rects, e, e);
    assert Logged((v.rects - gone), e, e) == added;
    DeletedTwice(v, gone, log, {e}, added);
    ElemsSnoc(done, e);
    WithKeySnoc(done, e, v.rects.Keys);
  }

  /**
   * Backspace on a selection: each entity is deleted in turn; `ok` is false
   * when a deletion fails (the `expect` panics), which happens exactly when
   * an entity is dead or listed twice. On success every component loses the
   * deleted entities and the removal log gains those that had a rectangle,
   * in selection order.
   */
  method DeleteAll(world: World, es: seq<Entity>) returns (ok: bool)
    modifies world`alive, world`rects, world`chunkComps, world`active, world`physics,
      world`actions, world`inputs, world`removed
    ensures ok <==> Distinct(es) && forall x :: x in es ==> x in old(world.alive)
    ensures ok ==> DeleteViewOf(world) == Deleted(old(DeleteViewOf(world)), Elems(es), WithKey(es, old(world.rects).Keys))
  {
    ghost var v0 := DeleteViewOf(world);
    assert Deleted(v0, {}, []) == v0 by {
      assert v0.removed + [] == v0.removed;
    }
    for i := 0 to |es|
      invariant Distinct(es[..i]) && forall x :: x in es[..i] ==> x in v0.alive
      invariant DeleteViewOf(world) == Deleted(v0, Elems(es[..i]), WithKey(es[..i], v0.rects.Keys))
    {
      var e := es[i];
      assert es[..i + 1] == es[..i] + [e];
      ghost var pre := DeleteViewOf(world);
      ok := world.DeleteEntity(e);
      if !ok {
        assert !Distinct(es) || es[i] !in v0.alive by {
          if e in v0.alive {
            var k :| 0 <= k < i && es[..i][k] == e;
            assert es[k] == es[i];
          }
        }
        return;
      }
      assert DeleteViewOf(world) == Deleted(pre, {e}, Logged(pre.rects, e, e));
      DistinctSnoc(es[..i], e);
      DeletedStep(v0, es[..i], e);
    }
    assert es[..|es|] == es;
    ok := true;
  }

  // ---------------------------------------------------------------------
  // The camera keys
  // ---------------------------------------------------------------------

  /** Camera pan per frame while an arrow key is held. */
  const PanStep: real := 10.0
  /** Zoom change per frame while P or M is held. */
  const ZoomStep: real := 0.01

  /**
   * Where the arrow keys take the camera: Left, Right, Up and Down are
   * applied in that order, each a clamped move of 10 units.
   */
  function Pan(p: Vec2, left: bool, right: bool, up: bool, down: bool, bounds: Option<Rect>): (q: Vec2)
    ensures !left && !right && !up && !down ==> q == p
    ensures bounds.Some? && (left || right || up || down) ==> bounds.value.Contains(q)
  {
    PanKey(PanKey(PanKey(PanKey(p, left, Vec2(-PanStep, 0.0), bounds), right, Vec2(PanStep, 0.0), bounds),
      up, Vec2(0.0, PanStep), bounds), down, Vec2(0.0, -PanStep), bounds)
  }

  /** One arrow key's clamped move, when it is held. */
  function PanKey(p: Vec2, held: bool, delta: Vec2, bounds: Option<Rect>): Vec2 {
    if held then ClampedMove(p, delta, bounds) else p
  }

  /** Holding Left and Right together cancels out wherever neither move is clamped. */
  lemma PanOppositeCancels(p: Vec2, r: Rect)
    requires r.Contains(p.Plus(Vec2(-PanStep, 0.0))) && r.Contains(p)
    ensures Pan(p, true, true, false, false, Some(r)) == p
  {
    var p1 := ClampedMove(p, Vec2(-PanStep, 0.0), Some(r));
    assert p1 == p.Plus(Vec2(-PanStep, 0.0));
    assert p1.Plus(Vec2(PanStep, 0.0)) == p;
  }

  /** Where P (zoom in) and then M (zoom out) take the zoom; each step is clamped. */
  function ZoomKeys(z: real, zoomIn: bool, zoomOut: bool): (r: real)
    ensures !zoomIn && !zoomOut ==> r == z
    ensures zoomIn || zoomOut ==> MinZoom <= r <= MaxZoom
    ensures zoomIn && zoomOut && MinZoom <= z <= MaxZoom - ZoomStep ==> r == z
  {
    ZoomKey(ZoomKey(z, zoomIn, ZoomStep), zoomOut, -ZoomStep)
  }

  /** One zoom key's clamped change, when it is held. */
  function ZoomKey(z: real, held: bool, delta: real): real {
    if held then Clamp(z + delta, MinZoom, MaxZoom) else z
  }

  // ---------------------------------------------------------------------
  // The editor scene
  // ---------------------------------------------------------------------

  /**
   * The editor scene: the level's world and chunk grid, the camera, the
   * shared input state, the current mode and whether the mouse is over the
   * UI (set while the UI is drawn).
   */
  class EditorScene {
    var mode: EditorMode
    var uiHover: bool
    const world: World
    const chunks: Chunks.ChunkSystem
    const camera: Camera
    const input: InputManager

    /** The held entities are alive and distinct, and the camera's screen has an area. */
    ghost predicate Valid()
      reads this, world, camera
    {
      world.Valid() && ModeValid(mode, world.alive) && camera.ScreenNonzero()
    }

    /** A scene over a level, in Default mode and with the mouse off the UI. */
    constructor (world: World, chunks: Chunks.ChunkSystem, camera: Camera, input: InputManager)
      requires world.Valid() && camera.ScreenNonzero()
      ensures Valid()
      ensures mode == Default && !uiHover
      ensures this.world == world && this.chunks == chunks && this.camera == camera && this.input == input
    {
      this.world := world;
      this.chunks := chunks;
      this.camera := camera;
      this.input := input;
      mode := Default;
      uiHover := false;
    }

    /** The mouse position in world coordinates. */
    ghost function MouseInWorld(): Vec2
      reads camera, input
      requires camera.ScreenNonzero()
    {
      camera.ScreenPointToWorld(ToReal(input.mousePos))
    }

    /** The mouse's move since the last frame, in world units. */
    ghost function DeltaInWorld(): Vec2
      reads camera, input
      requires camera.ScreenNonzero()
    {
      camera.ScreenSizeToWorld(ToReal(input.GetDeltaMouse()))
    }

    /** What get_entity_under_mouse finds. */
    ghost function UnderMouse(): Option<Entity>
      reads world, camera, input
      requires camera.ScreenNonzero()
    {
      FirstContaining(Ascending(Pickable(world)), world.rects, MouseInWorld())
    }

    /** What the rubber band catches when released: the pickable entities overlapping it, in world coordinates. */
    ghost function InRect(): seq<Entity>
      reads this, world, camera
      requires camera.ScreenNonzero()
    {
      if mode.SelectionRectangle? then
        Overlapping(Ascending(Pickable(world)), world.rects, camera.ScreenRectToWorld(FromPoints(mode.p1, mode.p2)))
      else []
    }

    /** The left button is held (not just pressed) over a selection, away from the UI: the selection is dragged. */
    ghost predicate Dragging()
      reads this, input
    {
      mode.Select? && !uiHover && input.IsMousePressed(Left) == Some(false)
    }

    /** The left button was just pressed with the copy brush: the selection is stamped. */
    ghost predicate Stamping()
      reads this, input
    {
      mode.Copy? && input.IsMousePressed(Left) == Some(true)
    }

    /** Where the stamped copies go. */
    ghost function Targets(): seq<Vec2>
      reads this, world, camera, input
      requires mode.Copy? && camera.ScreenNonzero()
    {
      CopyTargets(world.rects, mode.entity, GroupOf(mode.group), MouseInWorld())
    }

    /**
     * The left-button part of EditorScene::update: the mode follows
     * LeftStep; a held button drags the selection within the chunk bounds,
     * a click with the copy brush clones the selection to the targets, and
     * nothing else touches the world.
     */
    method UpdateLeft()
      requires Valid()
      modifies this`mode, world`alive, world`nextEntity, world`rects, world`physics, world`inputs,
        world`markers, world`nextMarker, world`inserted, world`modified
      ensures Valid()
      ensures mode == LeftStep(old(mode), input.IsMousePressed(Left), uiHover, old(UnderMouse()), input.mousePos, old(InRect()))
      ensures old(Dragging()) ==> ViewOf(world) == old(ViewOf(world)).(
        rects := DragRects(old(world.rects), Members(old(mode)), old(DeltaInWorld()), chunks.chunksRect),
        modified := old(world.modified) + WithKey(Members(old(mode)), old(world.rects).Keys))
      ensures old(Stamping()) ==>
        ViewOf(world) == ClosedForm(old(ViewOf(world)), Members(old(mode)), old(Targets()), |Members(old(mode))|)
      ensures !old(Dragging()) && !old(Stamping()) ==> ViewOf(world) == old(ViewOf(world))
    {
      var left := input.IsMousePressed(Left);
      var mouse := camera.ScreenPointToWorld(ToReal(input.mousePos));
      var delta := camera.ScreenSizeToWorld(ToReal(input.GetDeltaMouse()));
      var m := mode;
      StepLeftMode();
      ApplyLeft(m, left, mouse, delta);
    }

    /** The mode change of the left button, which leaves the world alone. */
    method StepLeftMode()
      requires Valid()
      modifies this`mode
      ensures Valid()
      ensures mode == LeftStep(old(mode), input.IsMousePressed(Left), uiHover, UnderMouse(), input.mousePos, old(InRect()))
    {
      var left := input.IsMousePressed(Left);
      var mouse := camera.ScreenPointToWorld(ToReal(input.mousePos));
      var under := GetEntityUnderMouse(world, mouse);
      var inRect := [];
      var area := New(0.0, 0.0, 0, 0);
      if mode.SelectionRectangle? {
        area := camera.ScreenRectToWorld(FromPoints(mode.p1, mode.p2));
        inRect := GetEntitiesInRect(world, area);
      }
      PickedAreAlive(world, mouse, area);
      assert Distinct(inRect);
      LeftStepKeepsModeValid(mode, world.alive, left, uiHover, under, input.mousePos, inRect);
      mode := LeftStep(mode, left, uiHover, under, input.mousePos, inRect);
    }

    /**
     * The world changes of the left button for the mode `m` it found: a held
     * button drags the selection within the chunk bounds, a click with the
     * copy brush clones the selection to its targets.
     */
    method ApplyLeft(m: EditorMode, left: Option<bool>, mouse: Vec2, delta: Vec2)
      requires Valid() && ModeValid(m, world.alive)
      modifies world`alive, world`nextEntity, world`rects, world`physics, world`inputs,
        world`markers, world`nextMarker, world`inserted, world`modified
      ensures Valid()
      ensures m.Select? && !uiHover && left == Some(false) ==> ViewOf(world) == old(ViewOf(world)).(
        rects := DragRects(old(world.rects), Members(m), delta, chunks.chunksRect),
        modified := old(world.modified) + WithKey(Members(m), old(world.rects).Keys))
      ensures m.Copy? && left == Some(true) ==> (ViewOf(world) ==
        ClosedForm(old(ViewOf(world)), Members(m), CopyTargets(old(world.rects), m.entity, GroupOf(m.group), mouse), |Members(m)|))
      ensures !(m.Select? && !uiHover && left == Some(false)) && !(m.Copy? && left == Some(true)) ==>
        ViewOf(world) == old(ViewOf(world))
    {
      if m.Select? && !uiHover && left == Some(false) {
        Drag(world, Members(m), delta, chunks.chunksRect);
      } else if m.Copy? && left == Some(true) {
        ghost var alive0 := world.alive;
        CloneAll(world, Members(m), CopyTargets(world.rects, m.entity, GroupOf(m.group), mouse));
        ModeValidGrows(mode, alive0, world.alive);
      }
    }

    /** The right-button part of EditorScene::update: a right click drops the copy brush. */
    method UpdateRight()
      requires Valid()
      modifies this`mode
      ensures Valid()
      ensures mode == RightStep(old(mode), input.IsMousePressed(Right) == Some(true))
    {
      if input.IsMousePressed(Right) == Some(true) && mode.Copy? {
        mode := Default;
      }
    }

    /** Backspace was just pressed over a selection, away from the UI: the selection is deleted. */
    ghost predicate Deleting()
      reads this, input
    {
      mode.Select? && !uiHover && input.IsKeyPressed(KeyBackspace) == Some(true)
    }

    /**
     * The keyboard part of EditorScene::update: the mode follows KeyStep and
     * Backspace deletes the selection. No deletion can fail (the `expect`
     * never fires), because the held entities are alive and distinct.
     */
    method UpdateKeys()
      requires Valid()
      modifies this`mode, world`alive, world`rects, world`chunkComps, world`active, world`physics,
        world`actions, world`inputs, world`removed
      ensures Valid()
      ensures mode == KeyStep(old(mode), uiHover, input.IsKeyPressed(KeyBackspace) == Some(true),
                              input.IsKeyPressed(KeyC) == Some(true))
      ensures old(Deleting()) ==> (DeleteViewOf(world) ==
        Deleted(old(DeleteViewOf(world)), Elems(Members(old(mode))), WithKey(Members(old(mode)), old(world.rects).Keys)))
      ensures !old(Deleting()) ==> DeleteViewOf(world) == old(DeleteViewOf(world))
      ensures DeleteViewOf(world) == KeysEffect(old(DeleteViewOf(world)), Members(old(mode)),
        old(mode).Select? && !uiHover && input.IsKeyPressed(KeyBackspace) == Some(true), old(world.rects).Keys)
    {
      if uiHover {
        return;
      }
      if input.IsKeyPressed(KeyBackspace) == Some(true) {
        if mode.Select? {
          var ok := DeleteAll(world, Members(mode));
          assert ok;
        }
        mode := Default;
      }
      if input.IsKeyPressed(KeyC) == Some(true) && mode.Select? {
        mode := Copy(mode.entity, mode.group);
      }
    }

    /** The key is held, whether or not it was just pressed. */
    function Held(k: Keycode): bool
      reads input
    {
      input.IsKeyPressed(k).Some?
    }

    /**
     * EditorScene::update_camera: away from the UI, the arrow keys pan the
     * camera within the chunk bounds and P and M zoom it.
     */
    method UpdateCamera()
      modifies camera`position, camera`zoom
      ensures uiHover ==> camera.position == old(camera.position) && camera.zoom == old(camera.zoom)
      ensures !uiHover ==> (camera.position ==
        Pan(old(camera.position), Held(KeyLeft), Held(KeyRight), Held(KeyUp), Held(KeyDown), Some(chunks.chunksRect)))
      ensures !uiHover ==> camera.zoom == ZoomKeys(old(camera.zoom), Held(KeyP), Held(KeyM))
    {
      if !uiHover {
        var bounds := Some(chunks.chunksRect);
        PanIf(Held(KeyLeft), Vec2(-PanStep, 0.0), bounds);
        PanIf(Held(KeyRight), Vec2(PanStep, 0.0), bounds);
        PanIf(Held(KeyUp), Vec2(0.0, PanStep), bounds);
        PanIf(Held(KeyDown), Vec2(0.0, -PanStep), bounds);
        ZoomIf(Held(KeyP), ZoomStep, bounds);
        ZoomIf(Held(KeyM), -ZoomStep, bounds);
      }
    }

    /** One zoom key: the camera zooms when the key is held. */
    method ZoomIf(held: bool, delta: real, bounds: Option<Rect>)
      modifies camera`zoom
      ensures camera.zoom == ZoomKey(old(camera.zoom), held, delta)
    {
      if held {
        camera.ZoomBy(delta, bounds);
      }
    }

    /** One arrow key: the camera moves when the key is held. */
    method PanIf(held: bool, delta: Vec2, bounds: Option<Rect>)
      modifies camera`position
      ensures camera.position == PanKey(old(camera.position), held, delta, bounds)
    {
      if held {
        camera.MoveBy(delta, bounds);
      }
    }

    /** The mode once both mouse buttons were looked at, before the key shortcuts. */
    ghost function ClickedMode(): EditorMode
      reads this, world, camera, input
      requires camera.ScreenNonzero()
    {
      RightStep(LeftStep(mode, input.IsMousePressed(Left), uiHover, UnderMouse(), input.mousePos, InRect()),
                input.IsMousePressed(Right) == Some(true))
    }

    /**
     * The two mouse buttons of EditorScene::update: the mode becomes
     * ClickedMode and the world becomes AfterButtons.
     */
    method UpdateButtons()
      requires Valid()
      modifies this`mode, world`alive, world`nextEntity, world`rects, world`physics, world`inputs,
        world`markers, world`nextMarker, world`inserted, world`modified
      ensures Valid()
      ensures mode == old(ClickedMode())
      ensures StateOf(world) == old(WithClones(StateOf(world), AfterButtons()))
    {
      ghost var s0 := StateOf(world);
      UpdateLeft();
      UpdateRight();
      assert StateOf(world) == WithClones(s0, ViewOf(world));
    }

    /**
     * The world after the mouse buttons: dragged by a held button over a
     * selection, stamped by a click with the copy brush, otherwise as it was.
     */
    ghost function AfterButtons(): CloneView
      reads this, world, camera, input
      requires Valid()
    {
      if Dragging() then
        ViewOf(world).(rects := DragRects(world.rects, Members(mode), DeltaInWorld(), chunks.chunksRect),
                       modified := world.modified + WithKey(Members(mode), world.rects.Keys))
      else if Stamping() then ClosedForm(ViewOf(world), Members(mode), Targets(), |Members(mode)|)
      else ViewOf(world)
    }

    /**
     * The world part of EditorScene::update: the two mouse buttons, then the
     * key shortcuts. The world becomes AfterButtons, from which Backspace
     * then deletes the selection the clicks left (KeysWorld); the stores
     * neither step touches keep their values.
     */
    method UpdateWorld()
      requires Valid()
      modifies this`mode, world
      ensures Valid()
      ensures mode == KeyStep(old(ClickedMode()), uiHover, input.IsKeyPressed(KeyBackspace) == Some(true),
                              input.IsKeyPressed(KeyC) == Some(true))
      ensures StateOf(world) == KeysWorld(old(WithClones(StateOf(world), AfterButtons())), Members(old(ClickedMode())),
                                          old(ClickedMode()).Select? && !uiHover && input.IsKeyPressed(KeyBackspace) == Some(true))
    {
      UpdateButtons();
      ghost var s1 := StateOf(world);
      UpdateKeys();
      assert StateOf(world) == WithDeletes(s1, DeleteViewOf(world));
    }

    /**
     * EditorScene::update, without the level's own systems: the left
     * button, the right button, the key shortcuts and the camera keys, in
     * that order. The mode follows the three transitions in turn; the world
     * becomes AfterButtons and then loses, on Backspace, the selection the
     * clicks left; the camera stays put while the mouse is over the UI.
     */
    method Update()
      requires Valid()
      modifies this`mode, world, camera`position, camera`zoom
      ensures Valid()
      ensures mode == KeyStep(old(ClickedMode()), uiHover, input.IsKeyPressed(KeyBackspace) == Some(true),
                              input.IsKeyPressed(KeyC) == Some(true))
      ensures StateOf(world) == KeysWorld(old(WithClones(StateOf(world), AfterButtons())), Members(old(ClickedMode())),
                                          old(ClickedMode()).Select? && !uiHover && input.IsKeyPressed(KeyBackspace) == Some(true))
      ensures uiHover ==> camera.position == old(camera.position) && camera.zoom == old(camera.zoom)
      ensures !uiHover ==> (camera.position ==
        Pan(old(camera.position), Held(KeyLeft), Held(KeyRight), Held(KeyUp), Held(KeyDown), Some(chunks.chunksRect)))
      ensures !uiHover ==> camera.zoom == ZoomKeys(old(camera.zoom), Held(KeyP), Held(KeyM))
    {
      UpdateWorld();
      UpdateCamera();
    }
  }
}
