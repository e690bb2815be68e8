/**
 * The action interpreter: every entity's queued actions are performed in
 * order against the rectangle and physics storages, then its queue is
 * cleared. Actions form a finite tree (`EntityAction` wraps one action,
 * `MultipleActions` a list), interpreted by structural recursion.
 */
module Actions {
  import opened Geometry
  import opened Ecs

  /** The part of the world an action can change. */
  datatype Effects = Effects(rects: map<Entity, Rect>, physics: map<Entity, PhysicsComponent>, modified: seq<Entity>)

  function EffectsOf(world: World): Effects
    reads world
  {
    Effects(world.rects, world.physics, world.modified)
  }

  /**
   * perform_action on `e`: a Move shifts the entity's rectangle (a mutable
   * access, so flagged as modified), a PhysicsMove queues a physics step, an
   * EntityAction runs its inner action on the entity its marker resolves to,
   * a MultipleActions runs its list in order on the same entity. Missing
   * components and unknown markers make the action do nothing.
   */
  function Perform(st: Effects, markers: map<MarkerId, Entity>, e: Entity, a: Action): Effects
    decreases a, 1
  {
    match a
    case Empty => st
    case Move(v) =>
      if e in st.rects then st.(rects := st.rects[e := st.rects[e].MoveBy(v)], modified := st.modified + [e])
      else st
    case PhysicsMove(v) =>
      if e in st.physics then st.(physics := st.physics[e := st.physics[e].AddStep(NextPhysicsStep.Move(v))])
      else st
    case EntityAction(m, inner) =>
      if m in markers then Perform(st, markers, markers[m], inner) else st
    case MultipleActions(list) => PerformPrefix(st, markers, e, a, |list|)
  }

  /** Performs the first `n` actions of the list `a` holds, in order, on `e`. */
  function PerformPrefix(st: Effects, markers: map<MarkerId, Entity>, e: Entity, a: Action, n: nat): Effects
    requires a.MultipleActions? && n <= |a.actions|
    decreases a, 0, n
  {
    if n == 0 then st
    else Perform(PerformPrefix(st, markers, e, a, n - 1), markers, e, a.actions[n - 1])
  }

  /** Recursive perform_action: the state it leaves is the one `Perform` describes. */
  method PerformAction(world: World, e: Entity, a: Action)
    modifies world`rects, world`physics, world`modified
    ensures EffectsOf(world) == Perform(old(EffectsOf(world)), world.markers, e, a)
    decreases a
  {
    match a {
      case Empty =>
      case Move(v) =>
        if e in world.rects {
          world.SetRect(e, world.rects[e].MoveBy(v));
        }
      case PhysicsMove(v) =>
        if e in world.physics {
          world.physics := world.physics[e := world.physics[e].AddStep(NextPhysicsStep.Move(v))];
        }
      case EntityAction(m, inner) =>
        if m in world.markers {
          PerformAction(world, world.markers[m], inner);
        }
      case MultipleActions(list) =>
        for i := 0 to |list|
          invariant EffectsOf(world) == PerformPrefix(old(EffectsOf(world)), world.markers, e, a, i)
        {
          PerformAction(world, e, list[i]);
        }
    }
  }

  /** The entities the action join visits, in increasing id order, each with its queue. */
  function RunAll(st: Effects, markers: map<MarkerId, Entity>, order: seq<Entity>, queues: map<Entity, seq<Action>>): Effects
    requires forall x :: x in order ==> x in queues
  {
    if order == [] then st
    else
      var e := order[|order| - 1];
      Perform(RunAll(st, markers, order[..|order| - 1], queues), markers, e, MultipleActions(queues[e]))
  }

  /** Queues after the run: every visited entity's queue is empty, the others keep theirs. */
  function Cleared(queues: map<Entity, seq<Action>>, visited: set<Entity>): (q: map<Entity, seq<Action>>)
    ensures q.Keys == queues.Keys
  {
    map e | e in queues :: if e in visited then [] else queues[e]
  }

  /**
   * ActionSystem::run: visits the alive entities with an action queue in
   * increasing id order, performs each queued action in order, then clears
   * the queue.
   */
  method Run(world: World)
    modifies world`rects, world`physics, world`modified, world`actions
    ensures var order := Ascending(set e | e in world.alive && e in old(world.actions));
      (forall x :: x in order ==> x in old(world.actions)) &&
      EffectsOf(world) == RunAll(old(EffectsOf(world)), world.markers, order, old(world.actions))
    ensures world.actions == Cleared(old(world.actions), set e | e in world.alive && e in old(world.actions))
  {
    var visitSet := set e | e in world.alive && e in world.actions;
    var order := EnumerateAscending(visitSet);
    AscendingSpec(visitSet);
    RunInOrder(world, order, visitSet);
  }

  /** Runs the queues of `order`, which lists the members of `visitSet` in increasing order. */
  method RunInOrder(world: World, order: seq<Entity>, ghost visitSet: set<Entity>)
    requires StrictlyIncreasing(order) && forall x :: x in order <==> x in visitSet
    requires visitSet <= world.actions.Keys
    modifies world`rects, world`physics, world`modified, world`actions
    ensures EffectsOf(world) == RunAll(old(EffectsOf(world)), world.markers, order, old(world.actions))
    ensures world.actions == Cleared(old(world.actions), visitSet)
  {
    ghost var queues := world.actions;
    ghost var visited: set<Entity> := {};
    for i := 0 to |order|
      invariant forall x :: x in visited <==> x in order[..i]
      invariant world.actions == Cleared(queues, visited)
      invariant EffectsOf(world) == RunAll(old(EffectsOf(world)), world.markers, order[..i], queues)
    {
      var e := order[i];
      assert order[..i + 1][..i] == order[..i];
      IncreasingFresh(order, i);
      ClearedAdd(queues, visited, e);
      RunEntity(world, e);
      visited := visited + {e};
      assert forall x :: x in order[..i + 1] <==> x in order[..i] || x == e;
    }
    assert order[..|order|] == order;
    assert visited == visitSet;
  }

  /** One entity of the run: its queue is performed in order, then emptied. */
  method RunEntity(world: World, e: Entity)
    requires e in world.actions
    modifies world`rects, world`physics, world`modified, world`actions
    ensures EffectsOf(world) == Perform(old(EffectsOf(world)), world.markers, e, MultipleActions(old(world.actions)[e]))
    ensures world.actions == old(world.actions)[e := []]
  {
    var list := world.actions[e];
    var whole := MultipleActions(list);
    for i := 0 to |list|
      invariant EffectsOf(world) == PerformPrefix(old(EffectsOf(world)), world.markers, e, whole, i)
      invariant world.actions == old(world.actions)
    {
      PerformAction(world, e, list[i]);
    }
    world.actions := world.actions[e := []];
  }

  lemma IncreasingFresh(s: seq<Entity>, i: nat)
    requires StrictlyIncreasing(s) && i < |s|
    ensures s[i] !in s[..i]
  {
  }

  lemma ClearedAdd(queues: map<Entity, seq<Action>>, visited: set<Entity>, e: Entity)
    requires e in queues && e !in visited
    ensures Cleared(queues, visited)[e] == queues[e]
    ensures Cleared(queues, visited + {e}) == Cleared(queues, visited)[e := []]
  {
  }

  // ---------------------------------------------------------------------
  // Properties of the interpreter
  // ---------------------------------------------------------------------

  /** Two lists that agree on their first `n` actions run those the same way. */
  lemma {:induction false} PerformPrefixAgree(st: Effects, markers: map<MarkerId, Entity>, e: Entity, a: Action, b: Action, n: nat)
    requires a.MultipleActions? && b.MultipleActions? && n <= |a.actions| && n <= |b.actions|
    requires a.actions[..n] == b.actions[..n]
    ensures PerformPrefix(st, markers, e, a, n) == PerformPrefix(st, markers, e, b, n)
  {
    if n > 0 {
      assert a.actions[..n - 1] == a.actions[..n][..n - 1];
      assert b.actions[..n - 1] == b.actions[..n][..n - 1];
      assert a.actions[n - 1] == a.actions[..n][n - 1];
      assert b.actions[n - 1] == b.actions[..n][n - 1];
      PerformPrefixAgree(st, markers, e, a, b, n - 1);
    }
  }

  /** A list is run in order: running `l1 + l2` is running `l1`, then `l2`. */
  lemma PerformListAppend(st: Effects, markers: map<MarkerId, Entity>, e: Entity, l1: seq<Action>, l2: seq<Action>)
    ensures Perform(st, markers, e, MultipleActions(l1 + l2)) ==
      Perform(Perform(st, markers, e, MultipleActions(l1)), markers, e, MultipleActions(l2))
  {
    var whole, first := MultipleActions(l1 + l2), MultipleActions(l1);
    PerformPrefixAgree(st, markers, e, whole, first, |l1|);
    PerformAppendPrefix(st, markers, e, l1, l2, |l2|);
  }

  lemma {:induction false} PerformAppendPrefix(st: Effects, markers: map<MarkerId, Entity>, e: Entity,
                                               l1: seq<Action>, l2: seq<Action>, k: nat)
    requires k <= |l2|
    ensures PerformPrefix(st, markers, e, MultipleActions(l1 + l2), |l1| + k) ==
      PerformPrefix(PerformPrefix(st, markers, e, MultipleActions(l1 + l2), |l1|), markers, e, MultipleActions(l2), k)
  {
    if k > 0 {
      PerformAppendPrefix(st, markers, e, l1, l2, k - 1);
      assert (l1 + l2)[|l1| + k - 1] == l2[k - 1];
    }
  }

  /** Actions only move rectangles and queue steps: no component is created or removed. */
  lemma {:induction false} PerformKeepsComponents(st: Effects, markers: map<MarkerId, Entity>, e: Entity, a: Action)
    ensures Perform(st, markers, e, a).rects.Keys == st.rects.Keys
    ensures Perform(st, markers, e, a).physics.Keys == st.physics.Keys
    decreases a, 1
  {
    match a
    case EntityAction(m, inner) =>
      if m in markers {
        PerformKeepsComponents(st, markers, markers[m], inner);
      }
    case MultipleActions(list) =>
      PerformPrefixKeepsComponents(st, markers, e, a, |list|);
    case _ =>
  }

  lemma {:induction false} PerformPrefixKeepsComponents(st: Effects, markers: map<MarkerId, Entity>, e: Entity, a: Action, n: nat)
    requires a.MultipleActions? && n <= |a.actions|
    ensures PerformPrefix(st, markers, e, a, n).rects.Keys == st.rects.Keys
    ensures PerformPrefix(st, markers, e, a, n).physics.Keys == st.physics.Keys
    decreases a, 0, n
  {
    if n > 0 {
      PerformPrefixKeepsComponents(st, markers, e, a, n - 1);
      PerformKeepsComponents(PerformPrefix(st, markers, e, a, n - 1), markers, e, a.actions[n - 1]);
    }
  }

  /** `r` only grows out of `st`: same rectangle sizes, same bodies, step queues and the modified log only appended to. */
  ghost predicate Grows(st: Effects, r: Effects) {
    (forall x :: x in st.rects && x in r.rects ==> r.rects[x].size == st.rects[x].size)
    && (forall x :: x in st.physics && x in r.physics ==>
          r.physics[x].bodyType == st.physics[x].bodyType
          && r.physics[x].applyGravity == st.physics[x].applyGravity
          && |st.physics[x].steps| <= |r.physics[x].steps|
          && r.physics[x].steps[..|st.physics[x].steps|] == st.physics[x].steps)
    && |st.modified| <= |r.modified| && r.modified[..|st.modified|] == st.modified
  }

  lemma GrowsTransitive(a: Effects, b: Effects, c: Effects)
    requires Grows(a, b) && Grows(b, c) && b.rects.Keys == a.rects.Keys && b.physics.Keys == a.physics.Keys
    ensures Grows(a, c)
  {
    forall x | x in a.physics && x in c.physics
      ensures c.physics[x].steps[..|a.physics[x].steps|] == a.physics[x].steps
    {
      var n := |a.physics[x].steps|;
      assert c.physics[x].steps[..|b.physics[x].steps|][..n] == c.physics[x].steps[..n];
    }
    assert c.modified[..|b.modified|][..|a.modified|] == c.modified[..|a.modified|];
  }

  /**
   * Actions never resize a rectangle, never change a body's kind or gravity
   * flag, and only append to step queues and to the modified log.
   */
  lemma {:induction false} PerformGrows(st: Effects, markers: map<MarkerId, Entity>, e: Entity, a: Action)
    ensures Grows(st, Perform(st, markers, e, a))
    decreases a, 1
  {
    match a
    case EntityAction(m, inner) =>
      if m in markers {
        PerformGrows(st, markers, markers[m], inner);
      }
    case MultipleActions(list) =>
      PerformPrefixGrows(st, markers, e, a, |list|);
    case _ =>
  }

  lemma {:induction false} PerformPrefixGrows(st: Effects, markers: map<MarkerId, Entity>, e: Entity, a: Action, n: nat)
    requires a.MultipleActions? && n <= |a.actions|
    ensures Grows(st, PerformPrefix(st, markers, e, a, n))
    decreases a, 0, n
  {
    if n > 0 {
      var mid := PerformPrefix(st, markers, e, a, n - 1);
      PerformPrefixGrows(st, markers, e, a, n - 1);
      PerformPrefixKeepsComponents(st, markers, e, a, n - 1);
      PerformGrows(mid, markers, e, a.actions[n - 1]);
      GrowsTransitive(st, mid, Perform(mid, markers, e, a.actions[n - 1]));
    }
  }

  /**
   * An action on a marker acts on the entity the marker names: the result
   * does not depend on the originating entity, and an unknown marker does
   * nothing.
   */
  lemma EntityActionRetargets(st: Effects, markers: map<MarkerId, Entity>, e1: Entity, e2: Entity, m: MarkerId, inner: Action)
    ensures Perform(st, markers, e1, EntityAction(m, inner)) == Perform(st, markers, e2, EntityAction(m, inner))
    ensures m !in markers ==> Perform(st, markers, e1, EntityAction(m, inner)) == st
  {
  }

  /** A sequence of moves of one entity adds up: Move(u) then Move(v) places it like Move(u + v). */
  lemma MovesAddUp(st: Effects, markers: map<MarkerId, Entity>, e: Entity, u: Vec2, v: Vec2)
    requires e in st.rects
    ensures var r := Perform(st, markers, e, MultipleActions([Action.Move(u), Action.Move(v)]));
      r.rects == st.rects[e := st.rects[e].MoveBy(u.Plus(v))] && r.modified == st.modified + [e, e]
  {
    var a := MultipleActions([Action.Move(u), Action.Move(v)]);
    var first := Perform(st, markers, e, Action.Move(u));
    assert PerformPrefix(st, markers, e, a, 1) == first;
    var r := Perform(first, markers, e, Action.Move(v));
    assert Perform(st, markers, e, a) == r;
    MoveByComposes(st.rects[e], u, v);
    assert r.rects == st.rects[e := st.rects[e].MoveBy(u).MoveBy(v)];
  }
}
