/**
 * The game shell: the stack of scenes (the front scene is the one that
 * runs), the transition each scene asks for after a frame, and the window
 * configuration used when no configuration file can be read.
 */
module Games {

  /** A scene on the stack, identified by an id (the scenes themselves are not modelled). */
  datatype Scene = Scene(id: nat)

  /** What a scene asks for after a frame. */
  datatype NextState = Continue | Push(scene: Scene) | Pop

  /** A scene's result: the next state, or an error. */
  datatype SceneState = Ok(next: NextState) | Err(message: string)

  /**
   * The stack and exit flag after `next`: a push puts the scene in front, a
   * pop removes the front scene when there is one, and the game exits once
   * a pop leaves the stack empty.
   */
  function Transition(scenes: seq<Scene>, exit: bool, next: NextState): (r: (seq<Scene>, bool))
    ensures exit ==> r.1
    ensures r.1 <==> exit || (next.Pop? && |scenes| <= 1)
    ensures next.Continue? ==> r.0 == scenes
    ensures next.Push? ==> |r.0| == |scenes| + 1 && r.0[0] == next.scene && r.0[1..] == scenes
    ensures next.Pop? ==> |r.0| == (if scenes == [] then 0 else |scenes| - 1)
    ensures next.Pop? && scenes != [] ==> scenes == [scenes[0]] + r.0
  {
    match next
    case Continue => (scenes, exit)
    case Push(s) => ([s] + scenes, exit)
    case Pop =>
      var rest := if scenes == [] then [] else scenes[1..];
      (rest, exit || rest == [])
  }

  /** The part of the game that the scene transitions touch. */
  class Game {
    var scenes: seq<Scene>
    var exit: bool

    constructor (first: Scene)
      ensures scenes == [first] && !exit
    {
      scenes := [first];
      exit := false;
    }

    /**
     * Game::handle_scene_state; `ok` is false when the scene reported an
     * error, on which the game panics.
     */
    method HandleSceneState(result: SceneState) returns (ok: bool)
      modifies this`scenes, this`exit
      ensures ok <==> result.Ok?
      ensures ok ==> (scenes, exit) == Transition(old(scenes), old(exit), result.next)
      ensures !ok ==> scenes == old(scenes) && exit == old(exit)
    {
      if result.Err? {
        return false;
      }
      ok := true;
      var leave := false;
      match result.next {
        case Continue =>
        case Push(s) =>
          scenes := [s] + scenes;
        case Pop =>
          if scenes != [] {
            scenes := scenes[1..];
          }
          leave := scenes == [];
      }
      if leave {
        exit := true;
      }
    }
  }

  // ---------------------------------------------------------------------
  // Properties of the scene stack
  // ---------------------------------------------------------------------

  /** The stack and flag after a run of transitions. */
  function Replay(scenes: seq<Scene>, exit: bool, steps: seq<NextState>): (seq<Scene>, bool)
    decreases |steps|
  {
    if steps == [] then (scenes, exit)
    else
      var r := Transition(scenes, exit, steps[0]);
      Replay(r.0, r.1, steps[1..])
  }

  /** Once set, the exit flag stays set whatever the scenes ask for afterwards. */
  lemma {:induction false} ExitIsFinal(scenes: seq<Scene>, steps: seq<NextState>)
    ensures Replay(scenes, true, steps).1
    decreases |steps|
  {
    if steps != [] {
      ExitIsFinal(Transition(scenes, true, steps[0]).0, steps[1..]);
    }
  }

  /** Pushing a scene and popping it again restores the stack; the game exits iff the stack was empty. */
  lemma PushThenPop(scenes: seq<Scene>, exit: bool, s: Scene)
    ensures Replay(scenes, exit, [Push(s), Pop]) == (scenes, exit || scenes == [])
  {
    assert [Push(s), Pop][1..] == [Pop] && [Pop][1..] == [];
    var pushed := Transition(scenes, exit, Push(s));
    assert pushed.0[1..] == scenes;
  }

  /** Stack depth counts pushes minus effective pops; Continue never changes it. */
  lemma {:induction false} DepthAfter(scenes: seq<Scene>, exit: bool, steps: seq<NextState>)
    requires forall i :: 0 <= i < |steps| ==> !steps[i].Pop?
    ensures |Replay(scenes, exit, steps).0| == |scenes| + Pushes(steps)
    ensures Replay(scenes, exit, steps).1 == exit
    decreases |steps|
  {
    if steps != [] {
      var r := Transition(scenes, exit, steps[0]);
      DepthAfter(r.0, r.1, steps[1..]);
    }
  }

  function Pushes(steps: seq<NextState>): nat
    decreases |steps|
  {
    if steps == [] then 0 else (if steps[0].Push? then 1 else 0) + Pushes(steps[1..])
  }

  // ---------------------------------------------------------------------
  // Window configuration
  // ---------------------------------------------------------------------

  datatype FullscreenType = Off | True | Desktop

  datatype GameConfig = GameConfig(windowSize: (nat, nat), fullscreenType: FullscreenType, borderless: bool, vsync: bool)

  const MinWindow: (nat, nat) := (800, 600)
  const MaxWindow: (nat, nat) := (1920, 1080)

  /**
   * GameConfig::default: a 1280x720 window, not fullscreen, with borders and
   * vsync; the size lies within the window limits Game::new sets.
   */
  function DefaultConfig(): (c: GameConfig)
    ensures MinWindow.0 <= c.windowSize.0 <= MaxWindow.0 && MinWindow.1 <= c.windowSize.1 <= MaxWindow.1
    ensures c.windowSize == (1280, 720) && c.fullscreenType == Off && !c.borderless && c.vsync
  {
    GameConfig((1280, 720), Off, false, true)
  }
}
