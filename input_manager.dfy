/**
 * Input bookkeeping: which keys and mouse buttons are held, each with a
 * "just pressed" flag that is true only until the next `update`, and the
 * mouse position with the position it had at the previous `update`.
 */
module InputManagers {
  import opened Geometry
  import opened Ecs

  /** A keyboard key, identified by its numeric key code. */
  datatype Keycode = Keycode(code: int)

  datatype MouseButton = Unknown | Left | Middle | Right | X1 | X2

  class InputManager {
    var pressedKeys: map<Keycode, bool>
    var pressedMouse: map<MouseButton, bool>
    var mousePos: IPoint
    var lastMousePos: IPoint

    /** InputManager::new (and Default): nothing held, mouse at the origin. */
    constructor ()
      ensures pressedKeys == map[] && pressedMouse == map[]
      ensures mousePos == IPoint(0, 0) && lastMousePos == IPoint(0, 0)
    {
      pressedKeys := map[];
      pressedMouse := map[];
      mousePos := IPoint(0, 0);
      lastMousePos := IPoint(0, 0);
    }

    /** How far the mouse moved since the last `update`. */
    function GetDeltaMouse(): (d: IPoint)
      reads this
      ensures IPoint(lastMousePos.x + d.x, lastMousePos.y + d.y) == mousePos
    {
      IPoint(mousePos.x - lastMousePos.x, mousePos.y - lastMousePos.y)
    }

    /** None when the key is not held, otherwise whether it was pressed since the last `update`. */
    function IsKeyPressed(key: Keycode): (r: Option<bool>)
      reads this
      ensures r.None? <==> key !in pressedKeys
      ensures r.Some? ==> r.value == pressedKeys[key]
    {
      if key in pressedKeys then Some(pressedKeys[key]) else None
    }

    /** None when the button is not held, otherwise whether it was pressed since the last `update`. */
    function IsMousePressed(button: MouseButton): (r: Option<bool>)
      reads this
      ensures r.None? <==> button !in pressedMouse
      ensures r.Some? ==> r.value == pressedMouse[button]
    {
      if button in pressedMouse then Some(pressedMouse[button]) else None
    }

    /**
     * InputManager::update, once per frame: every held key and button stays
     * held but is no longer "just pressed", and the current mouse position
     * becomes the reference for the next delta.
     */
    method Update()
      modifies this`pressedKeys, this`pressedMouse, this`lastMousePos
      ensures pressedKeys.Keys == old(pressedKeys).Keys && forall k :: k in pressedKeys ==> !pressedKeys[k]
      ensures pressedMouse.Keys == old(pressedMouse).Keys && forall b :: b in pressedMouse ==> !pressedMouse[b]
      ensures lastMousePos == mousePos
      ensures GetDeltaMouse() == IPoint(0, 0)
    {
      ClearKeys();
      ClearMouse();
      lastMousePos := mousePos;
    }

    /** Clears the "just pressed" flag of every held key. */
    method ClearKeys()
      modifies this`pressedKeys
      ensures pressedKeys.Keys == old(pressedKeys).Keys && forall k :: k in pressedKeys ==> !pressedKeys[k]
    {
      var keys := pressedKeys.Keys;
      while keys != {}
        invariant keys <= pressedKeys.Keys && pressedKeys.Keys == old(pressedKeys).Keys
        invariant forall k :: k in pressedKeys && k !in keys ==> !pressedKeys[k]
        decreases |keys|
      {
        var k :| k in keys;
        pressedKeys := pressedKeys[k := false];
        keys := keys - {k};
      }
    }

    /** Clears the "just pressed" flag of every held mouse button. */
    method ClearMouse()
      modifies this`pressedMouse
      ensures pressedMouse.Keys == old(pressedMouse).Keys && forall b :: b in pressedMouse ==> !pressedMouse[b]
    {
      var buttons := pressedMouse.Keys;
      while buttons != {}
        invariant buttons <= pressedMouse.Keys && pressedMouse.Keys == old(pressedMouse).Keys
        invariant forall b :: b in pressedMouse && b !in buttons ==> !pressedMouse[b]
        decreases |buttons|
      {
        var b :| b in buttons;
        pressedMouse := pressedMouse[b := false];
        buttons := buttons - {b};
      }
    }

    method UpdateMousePos(pos: IPoint)
      modifies this`mousePos
      ensures mousePos == pos
    {
      mousePos := pos;
    }

    /**
     * A key event: a press of a key not yet held records it as just
     * pressed, a press of a held key (key repeat) keeps its flag, a release
     * forgets the key.
     */
    method UpdateKey(key: Keycode, pressed: bool)
      modifies this`pressedKeys
      ensures pressed ==> pressedKeys == old(pressedKeys)[key := if key in old(pressedKeys) then old(pressedKeys)[key] else true]
      ensures !pressed ==> pressedKeys == old(pressedKeys) - {key}
    {
      if pressed {
        var jp := if key in pressedKeys then pressedKeys[key] else true;
        pressedKeys := pressedKeys[key := jp];
      } else {
        pressedKeys := pressedKeys - {key};
      }
    }

    /** A mouse button event, with the same rules as a key event. */
    method UpdateMouse(button: MouseButton, pressed: bool)
      modifies this`pressedMouse
      ensures pressed ==> pressedMouse == old(pressedMouse)[button := if button in old(pressedMouse) then old(pressedMouse)[button] else true]
      ensures !pressed ==> pressedMouse == old(pressedMouse) - {button}
    {
      if pressed {
        var jp := if button in pressedMouse then pressedMouse[button] else true;
        pressedMouse := pressedMouse[button := jp];
      } else {
        pressedMouse := pressedMouse - {button};
      }
    }
  }

  /**
   * The life of one key press: just pressed on the frame it goes down, held
   * but not just pressed after the next update, still so after a key repeat,
   * and not held after the release.
   */
  method KeyPressLifecycle(key: Keycode) returns (onPress: Option<bool>, afterUpdate: Option<bool>,
                                                   afterRepeat: Option<bool>, afterRelease: Option<bool>)
    ensures onPress == Some(true) && afterUpdate == Some(false)
    ensures afterRepeat == Some(false) && afterRelease == None
  {
    var m := new InputManager();
    m.UpdateKey(key, true);
    onPress := m.IsKeyPressed(key);
    m.Update();
    afterUpdate := m.IsKeyPressed(key);
    m.UpdateKey(key, true);
    afterRepeat := m.IsKeyPressed(key);
    m.UpdateKey(key, false);
    afterRelease := m.IsKeyPressed(key);
  }

  /** The mouse delta is the movement since the last update, and zero right after one. */
  method MouseDeltaLifecycle(p: IPoint, q: IPoint) returns (first: IPoint, afterUpdate: IPoint, second: IPoint)
    ensures first == p && afterUpdate == IPoint(0, 0)
    ensures second == IPoint(q.x - p.x, q.y - p.y)
  {
    var m := new InputManager();
    m.UpdateMousePos(p);
    first := m.GetDeltaMouse();
    m.Update();
    afterUpdate := m.GetDeltaMouse();
    m.UpdateMousePos(q);
    second := m.GetDeltaMouse();
  }
}
