/**
 * The input system: each alive entity with input bindings queues the action
 * of every binding that matches the current key state, in binding order.
 */
module Inputs {
  import opened Ecs
  import opened InputManagers

  /** Keycode::from_i32: the key with that code, when the code names a key. */
  function FromI32(code: int, valid: set<int>): (k: Option<Keycode>)
    ensures k.Some? <==> code in valid
    ensures k.Some? ==> k.value.code == code
  {
    if code in valid then Some(Keycode(code)) else None
  }

  /** InputComponent::new: each (key, just pressed, action) triple becomes a binding on the key's code. */
  function NewBindings(inputs: seq<(Keycode, bool, Action)>): (bs: seq<Binding>)
    ensures |bs| == |inputs|
    ensures forall i :: 0 <= i < |bs| ==> bs[i].justPressed == inputs[i].1 && bs[i].action == inputs[i].2
  {
    seq(|inputs|, i requires 0 <= i < |inputs| => Binding(inputs[i].0.code, inputs[i].1, inputs[i].2))
  }

  /** The stored codes convert back to the keys the bindings were built from. */
  lemma NewBindingsRoundTrip(inputs: seq<(Keycode, bool, Action)>, valid: set<int>)
    requires forall i :: 0 <= i < |inputs| ==> inputs[i].0.code in valid
    ensures forall i :: 0 <= i < |inputs| ==> FromI32(NewBindings(inputs)[i].key, valid) == Some(inputs[i].0)
  {
  }

  /** A binding fires when its key is held and the key's just-pressed flag equals the binding's. */
  predicate Fires(b: Binding, pressed: map<Keycode, bool>) {
    Keycode(b.key) in pressed && pressed[Keycode(b.key)] == b.justPressed
  }

  /** The actions of the firing bindings, in binding order. */
  function Fired(bs: seq<Binding>, pressed: map<Keycode, bool>): seq<Action> {
    if bs == [] then []
    else Fired(bs[..|bs| - 1], pressed) + (if Fires(bs[|bs| - 1], pressed) then [bs[|bs| - 1].action] else [])
  }

  predicate KeysValid(bs: seq<Binding>, valid: set<int>) {
    forall i :: 0 <= i < |bs| ==> bs[i].key in valid
  }

  /** Appends `fired` to the queue of `e`, creating the queue only when something fired. */
  function Enqueue(queues: map<Entity, seq<Action>>, e: Entity, fired: seq<Action>): map<Entity, seq<Action>> {
    if fired == [] then queues
    else queues[e := (if e in queues then queues[e] else []) + fired]
  }

  /** The queues after the entities of `order` have matched their bindings. */
  function Dispatch(queues: map<Entity, seq<Action>>, order: seq<Entity>, inputs: map<Entity, seq<Binding>>,
                    pressed: map<Keycode, bool>): map<Entity, seq<Action>>
    requires forall x :: x in order ==> x in inputs
  {
    if order == [] then queues
    else
      var e := order[|order| - 1];
      Enqueue(Dispatch(queues, order[..|order| - 1], inputs, pressed), e, Fired(inputs[e], pressed))
  }

  class InputSystem {
    const manager: InputManager

    constructor (manager: InputManager)
      ensures this.manager == manager
    {
      this.manager := manager;
    }

    /**
     * InputSystem::run: visits the alive entities with bindings in
     * increasing id order; `ok` is false when a stored key code names no key
     * (the `expect` on the conversion fails).
     */
    method Run(world: World, valid: set<int>) returns (ok: bool)
      modifies world`actions
      ensures var order := Ascending(set e | e in world.alive && e in world.inputs);
        ok == (forall x :: x in order ==> x in world.inputs && KeysValid(world.inputs[x], valid))
      ensures var order := Ascending(set e | e in world.alive && e in world.inputs);
        (forall x :: x in order ==> x in world.inputs) &&
        (ok ==> world.actions == Dispatch(old(world.actions), order, world.inputs, manager.pressedKeys))
    {
      var visitSet := set e | e in world.alive && e in world.inputs;
      var order := EnumerateAscending(visitSet);
      AscendingSpec(visitSet);
      ok := RunInOrder(world, order, valid);
    }

    /** Matches the bindings of the entities of `order`, one after the other. */
    method RunInOrder(world: World, order: seq<Entity>, valid: set<int>) returns (ok: bool)
      requires forall x :: x in order ==> x in world.inputs
      modifies world`actions
      ensures ok == (forall x :: x in order ==> KeysValid(world.inputs[x], valid))
      ensures ok ==> world.actions == Dispatch(old(world.actions), order, world.inputs, manager.pressedKeys)
    {
      ok := true;
      for i := 0 to |order|
        invariant forall x :: x in order[..i] ==> KeysValid(world.inputs[x], valid)
        invariant world.actions == Dispatch(old(world.actions), order[..i], world.inputs, manager.pressedKeys)
      {
        var e := order[i];
        assert e in order;
        assert order[..i + 1][..i] == order[..i];
        ok := MatchBindings(world, e, valid);
        if !ok {
          return;
        }
        assert forall x :: x in order[..i + 1] ==> x in order[..i] || x == e;
      }
      assert order[..|order|] == order;
    }

    /** The bindings of one entity, in order; `ok` is false at the first code that names no key. */
    method MatchBindings(world: World, e: Entity, valid: set<int>) returns (ok: bool)
      requires e in world.inputs
      modifies world`actions
      ensures ok == KeysValid(world.inputs[e], valid)
      ensures ok ==> world.actions == Enqueue(old(world.actions), e, Fired(world.inputs[e], manager.pressedKeys))
    {
      var bs := world.inputs[e];
      for i := 0 to |bs|
        invariant KeysValid(bs[..i], valid)
        invariant world.actions == Enqueue(old(world.actions), e, Fired(bs[..i], manager.pressedKeys))
      {
        var b := bs[i];
        var key := FromI32(b.key, valid);
        if key.None? {
          return false;
        }
        assert bs[..i + 1][..i] == bs[..i];
        var jp := manager.IsKeyPressed(key.value);
        assert key.value == Keycode(b.key);
        if jp.Some? && jp.value == b.justPressed {
          assert Fired(bs[..i + 1], manager.pressedKeys) == Fired(bs[..i], manager.pressedKeys) + [b.action];
          EnqueueSnoc(old(world.actions), e, Fired(bs[..i], manager.pressedKeys), b.action);
          ghost var q := world.actions;
          if e in world.actions {
            world.actions := world.actions[e := world.actions[e] + [b.action]];
          } else {
            world.actions := world.actions[e := [b.action]];
            assert [] + [b.action] == [b.action];
          }
          assert world.actions == q[e := (if e in q then q[e] else []) + [b.action]];
        } else {
          assert Fired(bs[..i + 1], manager.pressedKeys) == Fired(bs[..i], manager.pressedKeys) + [];
          assert Fired(bs[..i], manager.pressedKeys) + [] == Fired(bs[..i], manager.pressedKeys);
          assert world.actions == Enqueue(old(world.actions), e, Fired(bs[..i + 1], manager.pressedKeys));
        }
      }
      assert bs[..|bs|] == bs;
      ok := true;
    }
  }

  lemma EnqueueSnoc(queues: map<Entity, seq<Action>>, e: Entity, fired: seq<Action>, a: Action)
    ensures var q := Enqueue(queues, e, fired);
      Enqueue(queues, e, fired + [a]) == q[e := (if e in q then q[e] else []) + [a]]
  {
    if fired != [] {
      var base := if e in queues then queues[e] else [];
      assert base + (fired + [a]) == base + fired + [a];
    } else {
      assert fired + [a] == [a];
    }
  }

  // ---------------------------------------------------------------------
  // Properties of the binding matcher
  // ---------------------------------------------------------------------

  /** Matching runs in binding order: two runs of bindings fire their actions one after the other. */
  lemma {:induction false} FiredAppend(b1: seq<Binding>, b2: seq<Binding>, pressed: map<Keycode, bool>)
    ensures Fired(b1 + b2, pressed) == Fired(b1, pressed) + Fired(b2, pressed)
    decreases |b2|
  {
    if b2 == [] {
      assert b1 + b2 == b1;
    } else {
      var init := b2[..|b2| - 1];
      assert (b1 + b2)[..|b1 + b2| - 1] == b1 + init;
      FiredAppend(b1, init, pressed);
    }
  }

  /** Exactly the firing bindings contribute, each once: an action fired is a firing binding's action. */
  lemma {:induction false} FiredMembers(bs: seq<Binding>, pressed: map<Keycode, bool>)
    ensures |Fired(bs, pressed)| <= |bs|
    ensures forall a :: a in Fired(bs, pressed) ==> exists i :: 0 <= i < |bs| && Fires(bs[i], pressed) && bs[i].action == a
    ensures (forall i :: 0 <= i < |bs| ==> !Fires(bs[i], pressed)) <==> Fired(bs, pressed) == []
  {
    if bs != [] {
      var init := bs[..|bs| - 1];
      FiredMembers(init, pressed);
      forall a | a in Fired(bs, pressed)
        ensures exists i :: 0 <= i < |bs| && Fires(bs[i], pressed) && bs[i].action == a
      {
        if a in Fired(init, pressed) {
          var i :| 0 <= i < |init| && Fires(init[i], pressed) && init[i].action == a;
          assert bs[i] == init[i];
        } else {
          assert Fires(bs[|bs| - 1], pressed) && bs[|bs| - 1].action == a;
        }
      }
      if forall i :: 0 <= i < |bs| ==> !Fires(bs[i], pressed) {
        assert forall i :: 0 <= i < |init| ==> init[i] == bs[i];
      }
    }
  }

  /** Queued actions are kept: matching only appends, and only entities with firing bindings change. */
  lemma {:induction false} DispatchAppends(queues: map<Entity, seq<Action>>, order: seq<Entity>,
                                           inputs: map<Entity, seq<Binding>>, pressed: map<Keycode, bool>)
    requires forall x :: x in order ==> x in inputs
    ensures var r := Dispatch(queues, order, inputs, pressed);
      queues.Keys <= r.Keys
      && (forall e :: e in queues ==> |queues[e]| <= |r[e]| && r[e][..|queues[e]|] == queues[e])
      && (forall e :: e in r && e !in order ==> e in queues && r[e] == queues[e])
  {
    if order != [] {
      var init := order[..|order| - 1];
      var e := order[|order| - 1];
      DispatchAppends(queues, init, inputs, pressed);
      var mid := Dispatch(queues, init, inputs, pressed);
      var r := Dispatch(queues, order, inputs, pressed);
      forall x | x in queues
        ensures |queues[x]| <= |r[x]| && r[x][..|queues[x]|] == queues[x]
      {
        assert r[x][..|mid[x]|] == mid[x];
        assert r[x][..|mid[x]|][..|queues[x]|] == r[x][..|queues[x]|];
      }
    }
  }

  /**
   * A binding on "held, not just pressed" does not fire on the frame the key
   * goes down; it fires on every later frame the key stays held.
   */
  method HeldBindingFiresLater(key: Keycode, a: Action) returns (onPress: seq<Action>, nextFrame: seq<Action>)
    ensures onPress == [] && nextFrame == [a]
  {
    var m := new InputManager();
    var b := Binding(key.code, false, a);
    assert [b][..0] == [] && Keycode(b.key) == key;
    m.UpdateKey(key, true);
    assert m.pressedKeys == map[key := true];
    assert !Fires(b, m.pressedKeys);
    assert Fired([b], m.pressedKeys) == Fired([], m.pressedKeys) + [];
    onPress := Fired([b], m.pressedKeys);
    m.Update();
    assert key in m.pressedKeys && !m.pressedKeys[key];
    assert Fires(b, m.pressedKeys);
    assert Fired([b], m.pressedKeys) == Fired([], m.pressedKeys) + [a];
    nextFrame := Fired([b], m.pressedKeys);
    assert [] + [a] == [a];
  }
}
