/**
 * The entity-component store the systems run against.
 *
 * Entities are abstract ids; `alive` is the registry's liveness query. Each
 * component type is one storage, a map from entity to component (or a set
 * for the Active marker, which carries no data). A component that a system
 * changes through `&mut` is a map entry the system reassigns.
 *
 * The rectangle storage is a flagged storage: creating, changing (any mutable
 * access) and deleting a rectangle append the entity to the `inserted`,
 * `modified` and `removed` event logs. Consumers read these logs through
 * cursors that only move forward.
 */
module Ecs {
  import opened Geometry

  datatype Option<T> = None | Some(value: T)

  type Entity = nat

  /** A cell of the chunk grid: (column, row). */
  type Chunk = (nat, nat)

  /** A stable numeric entity id, kept by the marker allocator. */
  type MarkerId = nat

  /** A key code as stored in input bindings (i32). */
  type KeyCode = int

  datatype BodyType = Static | Dynamic

  /** One queued physics step. */
  datatype NextPhysicsStep = Move(delta: Vec2) | Jump

  /** Physics body of an entity: body kind, gravity flag and a FIFO step queue. */
  datatype PhysicsComponent = PhysicsComponent(bodyType: BodyType, applyGravity: bool, steps: seq<NextPhysicsStep>) {

    /** PhysicsComponent::new: a body with nothing queued. */
    static function New(bodyType: BodyType, applyGravity: bool): (p: PhysicsComponent)
      ensures p.steps == [] && p.bodyType == bodyType && p.applyGravity == applyGravity
    {
      PhysicsComponent(bodyType, applyGravity, [])
    }

    /** add_step: queues `step` behind everything already queued. */
    function AddStep(step: NextPhysicsStep): (p: PhysicsComponent)
      ensures |p.steps| == |steps| + 1 && p.steps[..|steps|] == steps && p.steps[|steps|] == step
      ensures p.bodyType == bodyType && p.applyGravity == applyGravity
    {
      this.(steps := steps + [step])
    }
  }

  /** The abstract commands an entity can queue. */
  datatype Action =
    | Empty
    | Move(delta: Vec2)
    | PhysicsMove(delta: Vec2)
    | EntityAction(marker: MarkerId, action: Action)
    | MultipleActions(actions: seq<Action>)

  /** One input binding: key code, the just-pressed state it fires on, and its action. */
  datatype Binding = Binding(key: KeyCode, justPressed: bool, action: Action)

  class World {
    var alive: set<Entity>
    /** Next id the entity allocator hands out; every id in use is below it. */
    var nextEntity: Entity

    var rects: map<Entity, Rect>
    var chunkComps: map<Entity, seq<Chunk>>
    var active: set<Entity>
    var physics: map<Entity, PhysicsComponent>
    var actions: map<Entity, seq<Action>>
    var inputs: map<Entity, seq<Binding>>

    /** The marker allocator: stable id to entity. */
    var markers: map<MarkerId, Entity>
    var nextMarker: MarkerId

    /** Event logs of the flagged rectangle storage. */
    var inserted: seq<Entity>
    var modified: seq<Entity>
    var removed: seq<Entity>

    /** An empty world. */
    constructor ()
      ensures alive == {} && nextEntity == 0 && nextMarker == 0
      ensures rects == map[] && chunkComps == map[] && active == {} && physics == map[]
      ensures actions == map[] && inputs == map[] && markers == map[]
      ensures inserted == [] && modified == [] && removed == []
    {
      alive, nextEntity := {}, 0;
      rects, chunkComps, active, physics := map[], map[], {}, map[];
      actions, inputs := map[], map[];
      markers, nextMarker := map[], 0;
      inserted, modified, removed := [], [], [];
    }

    /** Every entity in use has an id below `nextEntity`. */
    ghost predicate Valid()
      reads this
    {
      forall e :: e in alive ==> e < nextEntity
    }

    /**
     * Mutable access to an existing rectangle (`get_mut`): stores the new
     * value and flags the entity as modified.
     */
    method SetRect(e: Entity, r: Rect)
      requires e in rects
      modifies this`rects, this`modified
      ensures rects == old(rects)[e := r]
      ensures modified == old(modified) + [e]
    {
      rects := rects[e := r];
      modified := modified + [e];
    }

    /**
     * World::delete_entity: fails (the caller's `expect` panics) on a dead
     * entity; otherwise the entity dies and loses every component, its
     * rectangle's removal being flagged. Marker mappings are kept.
     */
    method DeleteEntity(e: Entity) returns (ok: bool)
      modifies this`alive, this`rects, this`chunkComps, this`active, this`physics,
        this`actions, this`inputs, this`removed
      ensures ok == (e in old(alive))
      ensures ok ==> (alive == old(alive) - {e}
        && rects == old(rects) - {e} && chunkComps == old(chunkComps) - {e}
        && active == old(active) - {e} && physics == old(physics) - {e}
        && actions == old(actions) - {e} && inputs == old(inputs) - {e}
        && removed == old(removed) + (if e in old(rects) then [e] else []))
      ensures !ok ==> (alive == old(alive) && rects == old(rects) && chunkComps == old(chunkComps)
        && active == old(active) && physics == old(physics) && actions == old(actions)
        && inputs == old(inputs) && removed == old(removed))
    {
      if e !in alive {
        return false;
      }
      if e in rects {
        removed := removed + [e];
      }
      alive := alive - {e};
      rects := rects - {e};
      chunkComps := chunkComps - {e};
      active := active - {e};
      physics := physics - {e};
      actions := actions - {e};
      inputs := inputs - {e};
      ok := true;
    }

    /**
     * copy_entity followed by a move of the copy: a fresh entity with a fresh
     * marker gets copies of the rectangle, physics body and input bindings of
     * `e`; its rectangle (if any) is then moved to `pos`, which flags it as
     * inserted and then modified. Neither chunk membership nor the Active
     * marker is copied.
     */
    method CloneEntity(e: Entity, pos: Vec2) returns (copy: Entity)
      requires Valid()
      modifies this`alive, this`nextEntity, this`rects, this`physics, this`inputs,
        this`markers, this`nextMarker, this`inserted, this`modified
      ensures Valid()
      ensures copy == old(nextEntity) && copy !in old(alive) && alive == old(alive) + {copy}
      ensures nextEntity == copy + 1
      ensures rects == if e in old(rects) then old(rects)[copy := old(rects)[e].MoveTo(pos)] else old(rects)
      ensures physics == if e in old(physics) then old(physics)[copy := old(physics)[e]] else old(physics)
      ensures inputs == if e in old(inputs) then old(inputs)[copy := old(inputs)[e]] else old(inputs)
      ensures markers == old(markers)[old(nextMarker) := copy] && nextMarker == old(nextMarker) + 1
      ensures inserted == old(inserted) + (if e in old(rects) then [copy] else [])
      ensures modified == old(modified) + (if e in old(rects) then [copy] else [])
    {
      copy := CreateMarked();
      CopyBody(e, copy);
      CopyRect(e, copy, pos);
    }

    /** Gives `copy` the physics body and the input bindings of `e`, where it has them. */
    method CopyBody(e: Entity, copy: Entity)
      modifies this`physics, this`inputs
      ensures physics == if e in old(physics) then old(physics)[copy := old(physics)[e]] else old(physics)
      ensures inputs == if e in old(inputs) then old(inputs)[copy := old(inputs)[e]] else old(inputs)
    {
      if e in physics {
        physics := physics[copy := physics[e]];
      }
      if e in inputs {
        inputs := inputs[copy := inputs[e]];
      }
    }

    /** Gives `copy` the rectangle of `e` (an insertion), then moves it to `pos` (a modification). */
    method CopyRect(e: Entity, copy: Entity, pos: Vec2)
      modifies this`rects, this`inserted, this`modified
      ensures rects == if e in old(rects) then old(rects)[copy := old(rects)[e].MoveTo(pos)] else old(rects)
      ensures inserted == old(inserted) + (if e in old(rects) then [copy] else [])
      ensures modified == old(modified) + (if e in old(rects) then [copy] else [])
    {
      if e in rects {
        var r := rects[e];
        rects := rects[copy := r];
        inserted := inserted + [copy];
        SetRect(copy, r.MoveTo(pos));
      }
    }

    /** Allocates a fresh live entity and a fresh marker for it. */
    method CreateMarked() returns (e: Entity)
      requires Valid()
      modifies this`alive, this`nextEntity, this`markers, this`nextMarker
      ensures Valid()
      ensures e == old(nextEntity) && e !in old(alive) && alive == old(alive) + {e} && nextEntity == e + 1
      ensures markers == old(markers)[old(nextMarker) := e] && nextMarker == old(nextMarker) + 1
    {
      e := nextEntity;
      nextEntity := nextEntity + 1;
      alive := alive + {e};
      markers := markers[nextMarker := e];
      nextMarker := nextMarker + 1;
    }
  }

  // ---------------------------------------------------------------------
  // Bit-set joins visit entities in increasing id order
  // ---------------------------------------------------------------------

  predicate StrictlyIncreasing(s: seq<Entity>) {
    forall i, j :: 0 <= i < j < |s| ==> s[i] < s[j]
  }

  /** No entity occurs twice. */
  predicate Distinct(s: seq<Entity>) {
    forall i, j :: 0 <= i < j < |s| ==> s[i] != s[j]
  }

  predicate IsLeast(m: Entity, s: set<Entity>) {
    m in s && forall y :: y in s ==> m <= y
  }

  /** Every finite non-empty set of ids has a least element. */
  lemma {:induction false} LeastExists(s: set<Entity>)
    requires s != {}
    ensures exists m :: IsLeast(m, s)
  {
    var x :| x in s;
    assert forall y :: y in s ==> y == x || y in s - {x};
    if s - {x} == {} {
      assert IsLeast(x, s);
    } else {
      LeastExists(s - {x});
      var m :| IsLeast(m, s - {x});
      if x < m {
        assert IsLeast(x, s);
      } else {
        assert IsLeast(m, s);
      }
    }
  }

  lemma LeastUnique(m: Entity, n: Entity, s: set<Entity>)
    requires IsLeast(m, s) && IsLeast(n, s)
    ensures m == n
  {
  }

  /** The ids of `s` in increasing order, as a join over a bit set visits them. */
  ghost function Ascending(s: set<Entity>): seq<Entity>
    decreases |s|
  {
    if s == {} then []
    else
      LeastExists(s);
      var m :| IsLeast(m, s);
      [m] + Ascending(s - {m})
  }

  /** The enumeration starts with the least id. */
  lemma AscendingUnfold(s: set<Entity>, m: Entity)
    requires IsLeast(m, s)
    ensures Ascending(s) == [m] + Ascending(s - {m})
  {
    LeastExists(s);
    var n :| IsLeast(n, s);
    LeastUnique(m, n, s);
  }

  /** The enumeration lists exactly the members of the set, each once, in increasing order. */
  lemma {:induction false} AscendingSpec(s: set<Entity>)
    ensures forall e :: e in Ascending(s) <==> e in s
    ensures StrictlyIncreasing(Ascending(s))
    decreases |s|
  {
    if s != {} {
      LeastExists(s);
      var m :| IsLeast(m, s);
      AscendingUnfold(s, m);
      AscendingSpec(s - {m});
      var tail := Ascending(s - {m});
      forall e
        ensures e in Ascending(s) <==> e in s
      {
        assert e in [m] + tail <==> e == m || e in tail;
      }
      ConsIncreasing(m, tail);
    }
  }

  /** A least element put in front of an increasing list keeps it increasing. */
  lemma ConsIncreasing(m: Entity, tail: seq<Entity>)
    requires StrictlyIncreasing(tail) && forall x :: x in tail ==> m < x
    ensures StrictlyIncreasing([m] + tail)
  {
    var a := [m] + tail;
    forall i, j | 0 <= i < j < |a|
      ensures a[i] < a[j]
    {
      assert a[j] == tail[j - 1] && tail[j - 1] in tail;
      if i > 0 {
        assert a[i] == tail[i - 1];
      }
    }
  }

  /** Builds the increasing enumeration of a bit set, one least element at a time. */
  method EnumerateAscending(s: set<Entity>) returns (r: seq<Entity>)
    ensures r == Ascending(s)
  {
    r := [];
    var rest := s;
    while rest != {}
      invariant r + Ascending(rest) == Ascending(s)
      decreases |rest|
    {
      LeastExists(rest);
      var m :| IsLeast(m, rest);
      AscendingUnfold(rest, m);
      assert r + [m] + Ascending(rest - {m}) == r + ([m] + Ascending(rest - {m}));
      r := r + [m];
      rest := rest - {m};
    }
  }

  /** The set of ids a log holds from position `from` on (what a reader drains). */
  function EventsSince(log: seq<Entity>, from: nat): (s: set<Entity>)
    requires from <= |log|
    ensures forall e :: e in s <==> exists i :: from <= i < |log| && log[i] == e
  {
    set i | from <= i < |log| :: log[i]
  }
}
