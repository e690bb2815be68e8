/**
 * The physics resolver: per-body FIFO step queues, the gravity enqueue rule
 * and the axis-separated collision avoidance `move_check_aabb`.
 *
 * A blocked move along one axis is retried with its magnitude shortened by
 * PhysicsEpsilon, for as long as the previous magnitude exceeded epsilon; the
 * first shortened move whose probe rectangle overlaps no obstacle is taken,
 * and if none is found the body stays put on that axis.
 */
module Physics {
  import opened Geometry
  import opened Ecs

  /** The gravity vector the game scene gives the physics system. */
  const Gravity: Vec2 := Vec2(0.0, 9.81)

  function AbsR(d: real): real { if d < 0.0 then -d else d }

  /** `signum` of a float: -1 for negatives, 1 otherwise (there is no negative zero here). */
  function Signum(d: real): real { if d < 0.0 then -1.0 else 1.0 }

  /** One retry of the search: the magnitude shrinks by epsilon, the sign is kept. */
  function Decay(d: real): real { d - PhysicsEpsilon * Signum(d) }

  /** How many retries a request of magnitude |d| can still afford. */
  function Budget(d: real): nat {
    var q := AbsR(d) / PhysicsEpsilon;
    if q.Floor < 0 then 0 else q.Floor
  }

  lemma BudgetShrinks(d: real)
    requires AbsR(d) > PhysicsEpsilon
    ensures Budget(Decay(d)) < Budget(d)
    ensures Signum(Decay(d)) == Signum(d) && AbsR(Decay(d)) == AbsR(d) - PhysicsEpsilon
  {
    var q := AbsR(d) / PhysicsEpsilon;
    assert AbsR(Decay(d)) / PhysicsEpsilon == q - 1.0;
    assert (q - 1.0).Floor == q.Floor - 1;
  }

  /** `r` translated by (dx, dy). */
  function Shifted(r: Rect, dx: real, dy: real): Rect {
    Rect(Vec2(r.pos.x + dx, r.pos.y + dy), r.size)
  }

  /** The probe for a move of `d` along one axis: x when `horizontal`, y otherwise. */
  function Probe(r: Rect, d: real, horizontal: bool): Rect {
    if horizontal then Shifted(r, d, 0.0) else Shifted(r, 0.0, d)
  }

  /** `r` overlaps none of the obstacles. */
  predicate Clear(r: Rect, others: seq<Rect>) {
    forall i :: 0 <= i < |others| ==> !r.Overlaps(others[i])
  }

  /**
   * The displacement the search commits along one axis for a request of `d`
   * from `r`: `d` itself if its probe is clear, otherwise the search retried
   * with `Decay(d)` while |d| exceeds epsilon, otherwise 0.
   */
  function AxisDisp(r: Rect, others: seq<Rect>, d: real, horizontal: bool): real
    decreases Budget(d)
  {
    if Clear(Probe(r, d, horizontal), others) then d
    else if AbsR(d) > PhysicsEpsilon then
      BudgetShrinks(d);
      AxisDisp(r, others, Decay(d), horizontal)
    else 0.0
  }

  /**
   * What move_check_aabb does to `r` for the request (dx, dy): the x search
   * runs first; the y move is then applied to the x-moved rectangle, although
   * its first probe was taken at the original position. Only the retries of
   * the y search probe from the x-moved rectangle.
   */
  function Resolve(r: Rect, others: seq<Rect>, dx: real, dy: real): (m: Rect)
    ensures m.size == r.size
    ensures Clear(Probe(r, dx, true), others) ==> m.pos.x == r.pos.x + dx
    ensures Clear(Probe(r, dy, false), others) ==> m.pos.y == r.pos.y + dy
  {
    var moved := Shifted(r, AxisDisp(r, others, dx, true), 0.0);
    var y :=
      if Clear(Probe(r, dy, false), others) then dy
      else if AbsR(dy) > PhysicsEpsilon then AxisDisp(moved, others, Decay(dy), false)
      else 0.0;
    Shifted(moved, 0.0, y)
  }

  /**
   * PhysicsSystem::move_check_aabb: one pass over the obstacles sets the two
   * "can move" flags from probes at the position of the call; then x, then y,
   * either moves outright or recurses with that axis shortened by epsilon and
   * the other axis zero.
   */
  method MoveCheckAabb(r: Rect, others: seq<Rect>, dx: real, dy: real) returns (moved: Rect)
    ensures moved == Resolve(r, others, dx, dy)
    decreases Budget(dx) + Budget(dy)
  {
    var canMoveX, canMoveY := true, true;
    for i := 0 to |others|
      invariant canMoveX == Clear(Probe(r, dx, true), others[..i])
      invariant canMoveY == Clear(Probe(r, dy, false), others[..i])
    {
      if Probe(r, dx, true).Overlaps(others[i]) {
        canMoveX := false;
      }
      if Probe(r, dy, false).Overlaps(others[i]) {
        canMoveY := false;
      }
    }
    assert others[..|others|] == others;

    moved := r;
    if canMoveX {
      moved := moved.MoveBy(Vec2(dx, 0.0));
    } else if AbsR(dx) > PhysicsEpsilon {
      BudgetShrinks(dx);
      moved := MoveCheckAabb(moved, others, Decay(dx), 0.0);
    }
    assert moved == Shifted(r, AxisDisp(r, others, dx, true), 0.0);

    if canMoveY {
      moved := moved.MoveBy(Vec2(0.0, dy));
    } else if AbsR(dy) > PhysicsEpsilon {
      BudgetShrinks(dy);
      moved := MoveCheckAabb(moved, others, 0.0, Decay(dy));
    }
  }

  // ---------------------------------------------------------------------
  // Properties of the epsilon-decay search
  // ---------------------------------------------------------------------

  /** The k-th value the search would try for a request of `d`. */
  function Candidate(d: real, k: nat): real {
    if d < 0.0 then d + (k as real) * PhysicsEpsilon else d - (k as real) * PhysicsEpsilon
  }

  /** The committed displacement never exceeds the request and never changes its sign. */
  lemma {:induction false} AxisDispBounded(r: Rect, others: seq<Rect>, d: real, horizontal: bool)
    ensures 0.0 <= d ==> 0.0 <= AxisDisp(r, others, d, horizontal) <= d
    ensures d <= 0.0 ==> d <= AxisDisp(r, others, d, horizontal) <= 0.0
    decreases Budget(d)
  {
    if !Clear(Probe(r, d, horizontal), others) && AbsR(d) > PhysicsEpsilon {
      BudgetShrinks(d);
      AxisDispBounded(r, others, Decay(d), horizontal);
    }
  }

  /**
   * The search takes the FIRST clear candidate: a non-zero result is clear
   * and is one of the candidates d, d - eps*sign(d), ..., and every
   * candidate of the same sign and of larger magnitude was blocked. A zero
   * result means every candidate of the same sign as `d` was blocked (or the
   * zero move itself was clear).
   */
  lemma {:induction false} AxisDispFirstClear(r: Rect, others: seq<Rect>, d: real, horizontal: bool)
    ensures var v := AxisDisp(r, others, d, horizontal);
      v == 0.0 || (Clear(Probe(r, v, horizontal), others) && exists k: nat :: v == Candidate(d, k))
    ensures var v := AxisDisp(r, others, d, horizontal);
      forall k: nat :: (k as real) * PhysicsEpsilon < AbsR(d) && AbsR(Candidate(d, k)) > AbsR(v) ==>
        !Clear(Probe(r, Candidate(d, k), horizontal), others)
    decreases Budget(d)
  {
    var v := AxisDisp(r, others, d, horizontal);
    if Clear(Probe(r, d, horizontal), others) {
      assert v == Candidate(d, 0);
      forall k: nat | (k as real) * PhysicsEpsilon < AbsR(d)
        ensures AbsR(Candidate(d, k)) <= AbsR(v)
      {
      }
    } else if AbsR(d) > PhysicsEpsilon {
      BudgetShrinks(d);
      var d' := Decay(d);
      AxisDispFirstClear(r, others, d', horizontal);
      assert v == AxisDisp(r, others, d', horizontal);
      if v != 0.0 {
        var k: nat :| v == Candidate(d', k);
        assert v == Candidate(d, k + 1);
      }
      forall k: nat | (k as real) * PhysicsEpsilon < AbsR(d) && AbsR(Candidate(d, k)) > AbsR(v)
        ensures !Clear(Probe(r, Candidate(d, k), horizontal), others)
      {
        if k == 0 {
          assert Candidate(d, k) == d;
        } else {
          var j: nat := k - 1;
          assert Candidate(d, k) == Candidate(d', j);
          assert (j as real) * PhysicsEpsilon < AbsR(d');
        }
      }
    } else {
      forall k: nat | (k as real) * PhysicsEpsilon < AbsR(d)
        ensures Candidate(d, k) == d
      {
      }
    }
  }

  /** The search ends after at most Budget(d) retries: it tries no candidate beyond that. */
  lemma {:induction false} AxisDispWithinBudget(r: Rect, others: seq<Rect>, d: real, horizontal: bool)
    ensures var v := AxisDisp(r, others, d, horizontal);
      v == 0.0 || exists k: nat :: k <= Budget(d) && v == Candidate(d, k)
    decreases Budget(d)
  {
    var v := AxisDisp(r, others, d, horizontal);
    if Clear(Probe(r, d, horizontal), others) {
      assert v == Candidate(d, 0);
    } else if AbsR(d) > PhysicsEpsilon {
      BudgetShrinks(d);
      var d' := Decay(d);
      AxisDispWithinBudget(r, others, d', horizontal);
      if v != 0.0 {
        var k: nat :| k <= Budget(d') && v == Candidate(d', k);
        assert v == Candidate(d, k + 1);
      }
    }
  }

  /**
   * A purely vertical request, such as the gravity move, is decided by the
   * y search alone: the zero x request leaves the body where it was.
   */
  lemma ResolveVertical(r: Rect, others: seq<Rect>, dy: real)
    ensures Resolve(r, others, 0.0, dy) == Shifted(r, 0.0, AxisDisp(r, others, dy, false))
  {
  }

  /**
   * A single-axis request, horizontal or vertical, never moves a body into
   * an overlap: either the body stays where it was, or it ends clear of
   * every obstacle.
   */
  lemma SingleAxisIsSafe(r: Rect, others: seq<Rect>, d: real, horizontal: bool)
    ensures var m := if horizontal then Resolve(r, others, d, 0.0) else Resolve(r, others, 0.0, d);
      m == r || Clear(m, others)
  {
    var v := AxisDisp(r, others, d, horizontal);
    AxisDispFirstClear(r, others, d, horizontal);
    if horizontal {
      assert Resolve(r, others, d, 0.0) == Shifted(r, v, 0.0);
    } else {
      ResolveVertical(r, others, d);
    }
    if v == 0.0 {
      assert Shifted(r, v, 0.0) == r && Shifted(r, 0.0, v) == r;
    }
  }

  /**
   * Both probes are taken before either move, so a diagonal request is never
   * checked at its combined position: a 10x10 body at the origin asked to
   * move by (10, 10) next to an obstacle at (15, 15) ends up overlapping it.
   */
  lemma DiagonalNotChecked()
    ensures var body := New(0.0, 0.0, 10, 10);
      var wall := New(15.0, 15.0, 10, 10);
      !body.Overlaps(wall)
      && Resolve(body, [wall], 10.0, 10.0) == New(10.0, 10.0, 10, 10)
      && Resolve(body, [wall], 10.0, 10.0).Overlaps(wall)
  {
    var body := New(0.0, 0.0, 10, 10);
    var wall := New(15.0, 15.0, 10, 10);
    assert Clear(Probe(body, 10.0, true), [wall]);
    assert Clear(Probe(body, 10.0, false), [wall]);
  }

  /** Pops a body's step list front to back, resolving each Move and skipping each Jump. */
  method RunSteps(r: Rect, others: seq<Rect>, steps: seq<NextPhysicsStep>) returns (m: Rect)
    ensures m == ApplySteps(r, others, steps)
  {
    m := r;
    var queue, done := steps, [];
    while queue != []
      invariant done + queue == steps
      invariant m == ApplySteps(r, others, done)
      decreases |queue|
    {
      var step := queue[0];
      match step {
        case Move(v) =>
          m := MoveCheckAabb(m, others, v.x, v.y);
        case Jump =>
      }
      assert (done + [step])[..|done|] == done;
      done, queue := done + [step], queue[1..];
    }
    assert done == steps;
  }

  // ---------------------------------------------------------------------
  // PhysicsSystem::run
  // ---------------------------------------------------------------------

  /** The steps a body hands over in one tick: its queue, then gravity if it falls. */
  function Queued(p: PhysicsComponent, gravity: Vec2): (q: seq<NextPhysicsStep>)
    ensures |q| == |p.steps| + (if p.applyGravity then 1 else 0)
    ensures q[..|p.steps|] == p.steps
    ensures p.applyGravity ==> q[|p.steps|] == NextPhysicsStep.Move(gravity)
  {
    if p.applyGravity then p.AddStep(NextPhysicsStep.Move(gravity)).steps else p.steps
  }

  /** Physics bodies after the draining pass: the queues of `movers` are empty. */
  function Drained(physics: map<Entity, PhysicsComponent>, movers: set<Entity>): map<Entity, PhysicsComponent> {
    map e | e in physics :: if e in movers then physics[e].(steps := []) else physics[e]
  }

  /** The per-entity step lists the draining pass collects (bodies with no step get no entry). */
  function Pending(physics: map<Entity, PhysicsComponent>, movers: set<Entity>, gravity: Vec2): map<Entity, seq<NextPhysicsStep>> {
    map e | e in movers && e in physics && Queued(physics[e], gravity) != [] :: Queued(physics[e], gravity)
  }

  /** Applies queued steps in FIFO order: a Move goes through the resolver, a Jump does nothing. */
  function ApplySteps(r: Rect, others: seq<Rect>, steps: seq<NextPhysicsStep>): (m: Rect)
    ensures m.size == r.size
  {
    if steps == [] then r
    else
      var prev := ApplySteps(r, others, steps[..|steps| - 1]);
      match steps[|steps| - 1]
      case Move(v) => Resolve(prev, others, v.x, v.y)
      case Jump => prev
  }

  /** The rectangles of the joined entities other than `e`, in join order. */
  function Obstacles(rects: map<Entity, Rect>, joined: seq<Entity>, e: Entity): seq<Rect>
    requires forall x :: x in joined ==> x in rects
  {
    if joined == [] then []
    else
      var x := joined[|joined| - 1];
      Obstacles(rects, joined[..|joined| - 1], e) + (if x != e then [rects[x]] else [])
  }

  /** The Modified events of the moving pass: each body's join flags every joined rect, then its own `get_mut`. */
  function Flags(joined: seq<Entity>, order: seq<Entity>): seq<Entity> {
    if order == [] then [] else Flags(joined, order[..|order| - 1]) + joined + [order[|order| - 1]]
  }

  datatype Moved = Moved(rects: map<Entity, Rect>, ok: bool)

  /**
   * The moving pass over the bodies in `order`: each body's steps run against
   * the current rectangles of the other joined entities; a body without a
   * rectangle stops the pass (`unwrap` on a missing rectangle).
   */
  function MoveBodies(rects: map<Entity, Rect>, joined: seq<Entity>, order: seq<Entity>,
                      queues: map<Entity, seq<NextPhysicsStep>>): (m: Moved)
    requires forall x :: x in joined ==> x in rects
    requires forall x :: x in order ==> x in queues
    ensures m.rects.Keys == rects.Keys
  {
    if order == [] then Moved(rects, true)
    else
      var prev := MoveBodies(rects, joined, order[..|order| - 1], queues);
      var e := order[|order| - 1];
      if !prev.ok || e !in prev.rects then Moved(prev.rects, false)
      else Moved(prev.rects[e := ApplySteps(prev.rects[e], Obstacles(prev.rects, joined, e), queues[e])], true)
  }

  class PhysicsSystem {
    const gravity: Vec2

    constructor (gravity: Vec2)
      ensures this.gravity == gravity
    {
      this.gravity := gravity;
    }

    /**
     * PhysicsSystem::run. The draining pass visits the alive, Active bodies
     * in increasing id order, appends gravity to those that fall and moves
     * their whole queue into a per-entity list. The moving pass then visits
     * those lists in an unspecified order (returned as `order`); `ok` is false
     * when a body without a rectangle stops it.
     */
    method Run(world: World) returns (order: seq<Entity>, ok: bool)
      modifies world`physics, world`rects, world`modified
      ensures var movers := set e | e in world.alive && e in old(world.physics) && e in world.active;
        world.physics == Drained(old(world.physics), movers)
      ensures var movers := set e | e in world.alive && e in old(world.physics) && e in world.active;
        var pending := Pending(old(world.physics), movers, gravity);
        Distinct(order) && (forall e :: e in order ==> e in pending) && (ok ==> forall e :: e in pending ==> e in order)
      ensures var movers := set e | e in world.alive && e in old(world.physics) && e in world.active;
        var pending := Pending(old(world.physics), movers, gravity);
        var joined := Ascending(set e | e in world.alive && e in old(world.rects) && e in world.active);
        (forall x :: x in joined ==> x in old(world.rects)) && (forall x :: x in order ==> x in pending) &&
        var m := MoveBodies(old(world.rects), joined, order, pending);
        ok == m.ok && (ok ==> world.rects == m.rects && world.modified == old(world.modified) + Flags(joined, order))
    {
      var moverSet := set e | e in world.alive && e in world.physics && e in world.active;
      var movers := EnumerateAscending(moverSet);
      AscendingSpec(moverSet);
      var queues := DrainBodies(world, movers, moverSet);
      var joinedSet := set e | e in world.alive && e in world.rects && e in world.active;
      var joined := EnumerateAscending(joinedSet);
      AscendingSpec(joinedSet);
      order, ok := MoveAll(world, joined, queues);
    }

    /** The draining pass over `movers` (the members of `moverSet`), in the given order. */
    method DrainBodies(world: World, movers: seq<Entity>, ghost moverSet: set<Entity>)
      returns (queues: map<Entity, seq<NextPhysicsStep>>)
      requires Distinct(movers) && forall x :: x in movers <==> x in moverSet
      requires moverSet <= world.physics.Keys
      modifies world`physics
      ensures world.physics == Drained(old(world.physics), moverSet)
      ensures queues == Pending(old(world.physics), moverSet, gravity)
    {
      queues := map[];
      ghost var visited: set<Entity> := {};
      for i := 0 to |movers|
        invariant forall x :: x in visited <==> x in movers[..i]
        invariant world.physics.Keys == old(world.physics).Keys
        invariant world.physics == Drained(old(world.physics), visited)
        invariant queues == Pending(old(world.physics), visited, gravity)
      {
        var e := movers[i];
        assert e !in visited by {
          forall j | 0 <= j < i
            ensures movers[j] != e
          {
          }
        }
        DrainedAdd(old(world.physics), visited, e);
        PendingAdd(old(world.physics), visited, e, gravity);
        var q := DrainOne(world, e);
        if q != [] {
          queues := queues[e := q];
        }
        visited := visited + {e};
        assert forall x :: x in movers[..i + 1] <==> x in movers[..i] || x == e;
      }
      assert movers[..|movers|] == movers;
      assert visited == moverSet;
    }

    /** One body of the draining pass: gravity is queued, then the queue is popped empty. */
    method DrainOne(world: World, e: Entity) returns (q: seq<NextPhysicsStep>)
      requires e in world.physics
      modifies world`physics
      ensures q == Queued(old(world.physics)[e], gravity)
      ensures world.physics == old(world.physics)[e := old(world.physics)[e].(steps := [])]
    {
      var p := world.physics[e];
      if p.applyGravity {
        p := p.AddStep(NextPhysicsStep.Move(gravity));
      }
      q := [];
      while p.steps != []
        invariant q + p.steps == Queued(old(world.physics)[e], gravity)
        invariant p.bodyType == old(world.physics)[e].bodyType
        invariant p.applyGravity == old(world.physics)[e].applyGravity
        decreases |p.steps|
      {
        q := q + [p.steps[0]];
        p := p.(steps := p.steps[1..]);
      }
      world.physics := world.physics[e := p];
    }

    /** The moving pass, visiting the collected lists in an order of its choosing. */
    method MoveAll(world: World, joined: seq<Entity>, queues: map<Entity, seq<NextPhysicsStep>>)
      returns (order: seq<Entity>, ok: bool)
      requires forall x :: x in joined ==> x in world.rects
      modifies world`rects, world`modified
      ensures Distinct(order) && (forall e :: e in order ==> e in queues) && (ok ==> forall e :: e in queues ==> e in order)
      ensures ok == MoveBodies(old(world.rects), joined, order, queues).ok
      ensures ok ==> world.rects == MoveBodies(old(world.rects), joined, order, queues).rects
      ensures ok ==> world.modified == old(world.modified) + Flags(joined, order)
    {
      var remaining := queues.Keys;
      order, ok := [], true;
      while remaining != {}
        invariant remaining <= queues.Keys
        invariant forall e :: e in queues ==> (e in remaining <==> e !in order)
        invariant forall e :: e in order ==> e in queues
        invariant Distinct(order)
        invariant world.rects.Keys == old(world.rects).Keys
        invariant MoveBodies(old(world.rects), joined, order, queues) == Moved(world.rects, true)
        invariant world.modified == old(world.modified) + Flags(joined, order)
        decreases |remaining|
      {
        var e :| e in remaining;
        remaining := remaining - {e};
        ghost var prev := order;
        ok := MoveOne(world, e, joined, queues[e]);
        order := order + [e];
        MoveBodiesSnoc(old(world.rects), joined, prev, e, queues);
        FlagsSnoc(old(world.modified), joined, prev, e);
        if !ok {
          return;
        }
      }
    }

    /** The moving pass over one more body continues from where the shorter pass ended. */
    static lemma MoveBodiesSnoc(rects: map<Entity, Rect>, joined: seq<Entity>, order: seq<Entity>, e: Entity,
                                queues: map<Entity, seq<NextPhysicsStep>>)
      requires forall x :: x in joined ==> x in rects
      requires forall x :: x in order ==> x in queues
      requires e in queues
      ensures var prev := MoveBodies(rects, joined, order, queues);
        MoveBodies(rects, joined, order + [e], queues) ==
          if !prev.ok || e !in prev.rects then Moved(prev.rects, false)
          else Moved(prev.rects[e := ApplySteps(prev.rects[e], Obstacles(prev.rects, joined, e), queues[e])], true)
    {
      assert (order + [e])[..|order|] == order;
    }

    /** One more body flags the joined entities and then itself. */
    static lemma FlagsSnoc(log: seq<Entity>, joined: seq<Entity>, order: seq<Entity>, e: Entity)
      ensures log + Flags(joined, order + [e]) == log + Flags(joined, order) + joined + [e]
    {
      assert (order + [e])[..|order|] == order;
    }

    /**
     * One body of the moving pass: the join over the Active rectangles flags
     * each of them and collects the others' rectangles; then the body's own
     * rectangle is fetched mutably (a missing one fails) and its steps run.
     */
    method MoveOne(world: World, e: Entity, joined: seq<Entity>, steps: seq<NextPhysicsStep>) returns (ok: bool)
      requires forall x :: x in joined ==> x in world.rects
      modifies world`rects, world`modified
      ensures ok == (e in old(world.rects))
      ensures ok ==> world.rects == old(world.rects)[e :=
        ApplySteps(old(world.rects)[e], Obstacles(old(world.rects), joined, e), steps)]
      ensures ok ==> world.modified == old(world.modified) + joined + [e]
    {
      var others := JoinObstacles(world, joined, e);
      if e !in world.rects {
        return false;
      }
      world.modified := world.modified + [e];
      var r := RunSteps(world.rects[e], others, steps);
      world.rects := world.rects[e := r];
      ok := true;
    }

    /** The join over the alive, Active rectangles: every one is flagged, the others' are collected. */
    method JoinObstacles(world: World, joined: seq<Entity>, e: Entity) returns (others: seq<Rect>)
      requires forall x :: x in joined ==> x in world.rects
      modifies world`modified
      ensures others == Obstacles(world.rects, joined, e)
      ensures world.modified == old(world.modified) + joined
    {
      others := [];
      for i := 0 to |joined|
        invariant others == Obstacles(world.rects, joined[..i], e)
        invariant world.modified == old(world.modified) + joined[..i]
      {
        var x := joined[i];
        world.modified := world.modified + [x];
        if x != e {
          others := others + [world.rects[x]];
        }
        assert joined[..i + 1][..i] == joined[..i];
      }
      assert joined[..|joined|] == joined;
    }
  }

  // ---------------------------------------------------------------------
  // Properties of a physics tick
  // ---------------------------------------------------------------------

  /** Steps run in FIFO order: running a queue in two halves is running it whole. */
  lemma {:induction false} ApplyStepsAppend(r: Rect, others: seq<Rect>, s1: seq<NextPhysicsStep>, s2: seq<NextPhysicsStep>)
    ensures ApplySteps(r, others, s1 + s2) == ApplySteps(ApplySteps(r, others, s1), others, s2)
    decreases |s2|
  {
    if s2 == [] {
      assert s1 + s2 == s1;
    } else {
      var init := s2[..|s2| - 1];
      assert (s1 + s2)[..|s1 + s2| - 1] == s1 + init;
      ApplyStepsAppend(r, others, s1, init);
    }
  }

  /** A Jump step anywhere in a queue has no effect. */
  lemma JumpIgnored(r: Rect, others: seq<Rect>, s1: seq<NextPhysicsStep>, s2: seq<NextPhysicsStep>)
    ensures ApplySteps(r, others, s1 + [NextPhysicsStep.Jump] + s2) == ApplySteps(r, others, s1 + s2)
  {
    ApplyStepsAppend(r, others, s1 + [NextPhysicsStep.Jump], s2);
    ApplyStepsAppend(r, others, s1, s2);
    assert (s1 + [NextPhysicsStep.Jump])[..|s1|] == s1;
  }

  /** The obstacle list holds exactly the rectangles of the joined entities other than `e`. */
  lemma {:induction false} ObstaclesExcludeSelf(rects: map<Entity, Rect>, joined: seq<Entity>, e: Entity)
    requires forall x :: x in joined ==> x in rects
    ensures forall o :: o in Obstacles(rects, joined, e) <==> exists x :: x in joined && x != e && rects[x] == o
  {
    if joined != [] {
      var init := joined[..|joined| - 1];
      var last := joined[|joined| - 1];
      ObstaclesExcludeSelf(rects, init, e);
      forall o
        ensures o in Obstacles(rects, joined, e) <==> exists x :: x in joined && x != e && rects[x] == o
      {
        if o in Obstacles(rects, joined, e) {
          if o in Obstacles(rects, init, e) {
            var x :| x in init && x != e && rects[x] == o;
            assert x in joined;
          } else {
            assert last in joined;
          }
        }
        if exists x :: x in joined && x != e && rects[x] == o {
          var x :| x in joined && x != e && rects[x] == o;
          if x != last {
            assert x in init;
          }
        }
      }
    }
  }

  /** A tick never resizes a rectangle, and bodies not in the moving pass keep theirs. */
  lemma {:induction false} MoveBodiesKeepsOthers(rects: map<Entity, Rect>, joined: seq<Entity>, order: seq<Entity>,
                                                 queues: map<Entity, seq<NextPhysicsStep>>)
    requires forall x :: x in joined ==> x in rects
    requires forall x :: x in order ==> x in queues
    ensures var m := MoveBodies(rects, joined, order, queues);
      forall e :: e in rects ==> m.rects[e].size == rects[e].size && (e !in order ==> m.rects[e] == rects[e])
  {
    if order != [] {
      MoveBodiesKeepsOthers(rects, joined, order[..|order| - 1], queues);
      forall e | e in rects && e !in order
        ensures e !in order[..|order| - 1]
      {
      }
    }
  }

  /** The moving pass fails exactly when one of the bodies it visits has no rectangle. */
  lemma {:induction false} MoveBodiesFailure(rects: map<Entity, Rect>, joined: seq<Entity>, order: seq<Entity>,
                                             queues: map<Entity, seq<NextPhysicsStep>>)
    requires forall x :: x in joined ==> x in rects
    requires forall x :: x in order ==> x in queues
    ensures !MoveBodies(rects, joined, order, queues).ok <==> exists e :: e in order && e !in rects
  {
    if order != [] {
      var init := order[..|order| - 1];
      MoveBodiesFailure(rects, joined, init, queues);
      if exists e :: e in init && e !in rects {
        var e :| e in init && e !in rects;
        assert e in order;
      }
      if exists e :: e in order && e !in rects {
        var e :| e in order && e !in rects;
        if e != order[|order| - 1] {
          assert e in init;
        }
      }
    }
  }

  /** Any body moving flags every joined rectangle as modified, so the chunk index re-files all of them. */
  lemma {:induction false} FlagsCoverJoined(joined: seq<Entity>, order: seq<Entity>)
    ensures forall e :: e in order ==> e in Flags(joined, order)
    ensures order != [] ==> forall x :: x in joined ==> x in Flags(joined, order)
    ensures |Flags(joined, order)| == |order| * (|joined| + 1)
  {
    if order != [] {
      FlagsCoverJoined(joined, order[..|order| - 1]);
    }
  }

  /** The draining pass queues gravity behind what was already queued, for falling bodies only. */
  lemma PendingOfFaller(physics: map<Entity, PhysicsComponent>, movers: set<Entity>, gravity: Vec2, e: Entity)
    requires e in movers && e in physics
    ensures e in Pending(physics, movers, gravity) <==> physics[e].steps != [] || physics[e].applyGravity
    ensures e in Pending(physics, movers, gravity) ==>
      Pending(physics, movers, gravity)[e] ==
        physics[e].steps + (if physics[e].applyGravity then [NextPhysicsStep.Move(gravity)] else [])
  {
  }

  lemma DrainedAdd(physics: map<Entity, PhysicsComponent>, movers: set<Entity>, e: Entity)
    requires e in physics && e !in movers
    ensures Drained(physics, movers)[e] == physics[e]
    ensures Drained(physics, movers + {e}) == Drained(physics, movers)[e := physics[e].(steps := [])]
  {
  }

  lemma PendingAdd(physics: map<Entity, PhysicsComponent>, movers: set<Entity>, e: Entity, gravity: Vec2)
    requires e in physics && e !in movers
    ensures var q := Queued(physics[e], gravity);
      Pending(physics, movers + {e}, gravity) ==
        if q != [] then Pending(physics, movers, gravity)[e := q] else Pending(physics, movers, gravity)
  {
  }

  /** Inactive bodies keep their queue; active ones end the tick with an empty queue. */
  lemma DrainedQueues(physics: map<Entity, PhysicsComponent>, movers: set<Entity>, e: Entity)
    requires e in physics
    ensures e in Drained(physics, movers)
    ensures Drained(physics, movers)[e].steps == (if e in movers then [] else physics[e].steps)
    ensures Drained(physics, movers)[e].bodyType == physics[e].bodyType
    ensures Drained(physics, movers)[e].applyGravity == physics[e].applyGravity
  {
  }
}
