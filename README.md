# rusty_platform core, modelled in Dafny

This project models the core of rusty_platform, a small 2D platform-game engine with a level editor.

- **Entities.** They live in an entity-component world. An entity carries some of these components:
  - a rectangle, kept in a "flagged" storage that logs insertions, modifications and removals;
  - a physics body;
  - input bindings;
  - a queue of actions;
  - chunk membership;
  - an Active marker.
- **Systems.** These run in the order `input → actions → physics → chunks`:
  - the input system turns held keys into queued actions;
  - the action system performs the queued actions (moves, physics moves, actions retargeted to another entity through a stable marker, action lists);
  - the physics system drains each body's FIFO step queue, adds gravity and resolves each move against the other rectangles, one axis at a time (AABB);
  - the chunk system keeps a spatial index. The index is a fixed grid of 500×500 cells, each listing the entities whose rectangle overlaps it. The chunk system also recomputes the Active marker from the cells that overlap the camera-driven active rectangle.
- **Editor scene.** It drives the same world through a mode machine:
  - Default;
  - a rubber-band selection rectangle;
  - Select, for one entity and its group, with dragging;
  - a Copy brush that stamps clones;
  - deleting with Backspace;
  - camera pan and zoom from the arrow keys and P/M.

It relies on these supporting parts:

- the rectangle arithmetic;
- the input manager, which tracks held keys, held mouse buttons and the "just pressed" flag;
- the camera, with clamped moves and screen↔world conversions;
- the texture cache;
- the game's scene stack.

**How the code is organised.**

- Each source module becomes a Dafny module.
- Objects that the source updates in place are classes: `World`, `InputManager`, `Camera`, `ChunkSystem`, `ActiveChunksRect`, `PhysicsSystem`, `ResourcesManager`, `Game` and `EditorScene`. Their methods carry `modifies` clauses.
- Each method is proved against a specification function on values, for example:
  - `Actions.Perform`;
  - `Physics.MoveBodies`;
  - `Chunks.Tick`, `Chunks.InsertPhase` and `Chunks.OverlapChunks`;
  - `Editor.LeftStep` and `Editor.ClosedForm`.
- The properties the engine relies on are lemmas about those functions.

**Two modelling conventions.**

- A join over the entity bit set visits ids in increasing order. The model writes this order as `Ecs.Ascending`, and `Ecs.EnumerateAscending` builds it.
- Where the source iterates a `HashMap`, the order is arbitrary. The method returns the order it chose, and its contract holds for that order.

**Three behaviours of the code the model keeps as written:**

- The chunk search (`get_chunks_overlap_rect`) starts at `floor(edge / 500)` and never steps back. A rectangle whose near edge lies exactly on an inner chunk boundary therefore misses the chunk that touches it from the left or above, even though that chunk touches it under the inclusive overlap test. `Chunks.OverlapChunksBoundaryOmission` exhibits this. `Chunks.OverlapChunksComplete` states completeness for every other rectangle.
- `Camera::move_to` adds its argument to the position exactly as `move_by` does.
- The Active recompute marks every alive entity that is registered in a scanned cell, not only those whose own rectangle overlaps the active rectangle.

## Model

| member | source | states |
|---|---|---|
| Geometry.FromPoints | src/utils/math.rs:62-69 | the rectangle built from two corner points contains both of them |
| Geometry.CastU32 | src/utils/camera.rs:81 | an `as u32` cast of a float: 0 up to zero, u32::MAX from u32::MAX on, otherwise the integer part (at most the value, more than the value minus one) |
| Geometry.EdgesOrdered | src/utils/math.rs:11-25 | left ≤ right and top ≤ bottom, and the edges differ by exactly the width and the height |
| Geometry.OverlapsSymmetric | src/utils/math.rs:43-46 | overlapping is symmetric |
| Geometry.OverlapsReflexive | src/utils/math.rs:43-46 | every rectangle, even an empty one, overlaps itself |
| Geometry.OverlapsWhenTouching | src/utils/math.rs:43-46 | the edge test is inclusive: rectangles sharing only an edge overlap |
| Geometry.OverlapsTranslationInvariant | src/utils/math.rs:43-46 | moving both rectangles by the same vector keeps whether they overlap |
| Geometry.ContainsCorners | src/utils/math.rs:38-41 | a rectangle contains all four of its corners |
| Geometry.ContainsImpliesOverlaps | src/utils/math.rs:38-46 | two rectangles that contain a common point overlap |
| Geometry.MutatorsTouchOneField | src/utils/math.rs:27-36 | move_by shifts and move_to replaces only the position; resize_to replaces only the size |
| Geometry.MoveByComposes | src/utils/math.rs:27-32 | two relative moves equal one move by the sum; a move_to followed by a move_by is a move_to of the sum |
| Geometry.FromPointsShape | src/utils/math.rs:62-69 | the corner is the componentwise minimum of the points; each side is the absolute coordinate difference |
| Geometry.FromPointsSymmetric | src/utils/math.rs:62-69 | from_points does not depend on the order of the two points |
| Geometry.FromConversionsAgree | src/utils/math.rs:53-82 | the tuple and (position, size) conversions build the same rectangle as `new` |
| RectComponents.RectComponent.constructor | src/ecs/rect.rs:25-27 | the component holds the given rectangle |
| RectComponents.RectComponent.Default | src/ecs/rect.rs:14-18 | the default component is the empty rectangle at the origin |
| RectComponents.RectComponent.Pos | src/ecs/rect.rs:33-35 | the position is the rectangle's top-left edge pair |
| RectComponents.RectComponent.Size | src/ecs/rect.rs:41-43 | the size is the right-minus-left and bottom-minus-top extent |
| RectComponents.RectComponent.MoveBy | src/ecs/rect.rs:49-51 | the position is shifted by the delta; the size is kept |
| RectComponents.RectComponent.MoveTo | src/ecs/rect.rs:53-55 | the position becomes the target; the size is kept |
| InputManagers.InputManager.constructor | src/utils/input_manager.rs:36-43 | no key or button is held; the mouse and its last position are at the origin |
| InputManagers.InputManager.GetDeltaMouse | src/utils/input_manager.rs:49-51 | the delta is the current mouse position minus the position at the last update |
| InputManagers.InputManager.IsKeyPressed | src/utils/input_manager.rs:53-55 | None iff the key is not held; otherwise its just-pressed flag |
| InputManagers.InputManager.IsMousePressed | src/utils/input_manager.rs:57-59 | None iff the button is not held; otherwise its just-pressed flag |
| InputManagers.InputManager.Update | src/utils/input_manager.rs:61-71 | every held key and button stays held with its just-pressed flag cleared; the last mouse position becomes the current one |
| InputManagers.InputManager.ClearKeys | src/utils/input_manager.rs:62-64 | the same keys stay held, all with the flag false |
| InputManagers.InputManager.ClearMouse | src/utils/input_manager.rs:66-68 | the same buttons stay held, all with the flag false |
| InputManagers.InputManager.UpdateMousePos | src/utils/input_manager.rs:73-75 | only the mouse position changes |
| InputManagers.InputManager.UpdateKey | src/utils/input_manager.rs:77-84 | a press of a key not yet held adds it as just pressed; a repeat press of a held key changes nothing; a release removes the key |
| InputManagers.InputManager.UpdateMouse | src/utils/input_manager.rs:86-93 | the same rules for a mouse button |
| InputManagers.KeyPressLifecycle | src/utils/input_manager.rs:61-84 | a key reads Some(true) on the frame it goes down, Some(false) after an update and while the press repeats, and None after release |
| InputManagers.MouseDeltaLifecycle | src/utils/input_manager.rs:49-75 | the delta is the movement since the last update, and zero right after an update |
| Inputs.FromI32 | src/ecs/inputs.rs:33 | a key comes back iff the code names a key, and it carries that code |
| Inputs.NewBindings | src/ecs/inputs.rs:17-20 | one binding per triple, in order, with the triple's flag and action |
| Inputs.NewBindingsRoundTrip | src/ecs/inputs.rs:17-33 | the stored codes convert back to exactly the keys the bindings were built from |
| Inputs.InputSystem.constructor | src/ecs/inputs.rs:23-25 | the system reads the given input manager |
| Inputs.InputSystem.Run | src/ecs/inputs.rs:30-50 | visits the alive entities with bindings in increasing id order; fails iff some stored code names no key; otherwise the queues equal `Dispatch` of the old queues over that order |
| Inputs.InputSystem.RunInOrder | src/ecs/inputs.rs:31-49 | entity by entity, the queues become `Dispatch` over the given order; stops at the first invalid code |
| Inputs.InputSystem.MatchBindings | src/ecs/inputs.rs:32-48 | one entity's queue gains the actions of its firing bindings, in binding order; the queue is created only when something fires |
| Inputs.FiredAppend | src/ecs/inputs.rs:32-48 | matching is in binding order: two runs of bindings fire one after the other |
| Inputs.FiredMembers | src/ecs/inputs.rs:32-48 | every fired action belongs to a firing binding; nothing fires iff no binding fires; at most one action per binding |
| Inputs.DispatchAppends | src/ecs/inputs.rs:30-50 | matching only appends to queues, keeps every existing queue as a prefix, and leaves unvisited entities alone |
| Inputs.HeldBindingFiresLater | src/ecs/inputs.rs:33-34 | a "held, not just pressed" binding does not fire on the frame the key goes down, and fires on the next frame |
| Ecs.PhysicsComponent.New | src/ecs/physics.rs:33-35 | a body of the given kind and gravity flag, with nothing queued |
| Ecs.PhysicsComponent.AddStep | src/ecs/physics.rs:37-39 | the step is queued behind the existing ones; kind and gravity flag are kept |
| Ecs.World.SetRect | src/ecs/actions.rs:44-47 | a mutable access to a flagged rectangle sets it and logs a modification of that entity |
| Ecs.World.DeleteEntity | src/scenes/editor_scene.rs:440 | fails iff the entity is not alive; otherwise it leaves the alive set and every component; a removal is logged iff it had a rectangle |
| Ecs.World.CloneEntity | src/scenes/editor_scene.rs:194-204 | the copy is a fresh live entity with a fresh marker; it gets copies of the source's body and bindings, and the source's rectangle moved to the target position; an insert and then a modification are logged iff the source had a rectangle |
| Ecs.LeastExists | src/ecs/chunk.rs:212 | every non-empty id set has a least element, so a bit-set join can visit ids in increasing order |
| Ecs.AscendingSpec | src/ecs/chunk.rs:212-224 | the join order lists exactly the members of the set, each once, strictly increasing |
| Ecs.EnumerateAscending | src/ecs/chunk.rs:212 | the loop builds the increasing enumeration of the set |
| Ecs.EventsSince | src/ecs/chunk.rs:208-210 | the ids a reader drains are exactly those logged from its position to the end of the log |
| Actions.PerformAction | src/ecs/actions.rs:35-66 | the recursive perform leaves exactly the rectangles, bodies and modification log that `Perform` describes |
| Actions.Run | src/ecs/actions.rs:68-74 | the alive entities with queues are visited in increasing id order; each queue is performed in order and emptied; the others are left alone |
| Actions.RunInOrder | src/ecs/actions.rs:68-74 | the same for a given increasing order, entity by entity |
| Actions.RunEntity | src/ecs/actions.rs:69-73 | one entity's queue is performed front to back, then emptied |
| Actions.Cleared | src/ecs/actions.rs:73 | clearing keeps every queue entry; visited queues become empty |
| Actions.PerformListAppend | src/ecs/actions.rs:59-63 | an action list runs in order: running `l1 + l2` is running `l1`, then `l2` |
| Actions.PerformAppendPrefix | src/ecs/actions.rs:59-63 | running the first n + 1 actions of a list is running the first n and then action n |
| Actions.PerformPrefixAgree | src/ecs/actions.rs:59-63 | two lists that agree on their first n actions run those n the same way |
| Actions.PerformKeepsComponents | src/ecs/actions.rs:42-65 | no action creates or removes a rectangle or a body |
| Actions.PerformPrefixKeepsComponents | src/ecs/actions.rs:59-63 | the same for any prefix of an action list |
| Actions.PerformGrows | src/ecs/actions.rs:42-65 | an action keeps every rectangle's size and every body's kind and gravity flag; step queues and the modification log are only appended to |
| Actions.PerformPrefixGrows | src/ecs/actions.rs:59-63 | the same for any prefix of an action list |
| Actions.EntityActionRetargets | src/ecs/actions.rs:54-58 | an EntityAction through a marker performs the inner action on the marked entity; an unknown marker does nothing |
| Actions.MovesAddUp | src/ecs/actions.rs:43-48 | Move(u) then Move(v) places an entity like Move(u + v) |
| Physics.Resolve | src/ecs/physics.rs:47-71 | the size is kept; an axis whose probe at the start position is clear moves by the full request |
| Physics.MoveCheckAabb | src/ecs/physics.rs:47-71 | the loop finds the same resolved rectangle as `Resolve` |
| Physics.BudgetShrinks | src/ecs/physics.rs:62-69 | each retry keeps the sign, shortens the magnitude by exactly epsilon, and leaves fewer retries, so the search ends |
| Physics.AxisDispBounded | src/ecs/physics.rs:60-70 | the displacement taken on an axis lies between zero and the requested one |
| Physics.AxisDispFirstClear | src/ecs/physics.rs:60-70 | the displacement taken is zero or a clear candidate of the epsilon-decay search, and every longer candidate was blocked |
| Physics.AxisDispWithinBudget | src/ecs/physics.rs:62-69 | the displacement taken is zero or one of the first Budget(d) candidates: the search tries no more |
| Physics.ResolveVertical | src/ecs/physics.rs:47-71 | a vertical-only request, such as the gravity move, is decided by the y search alone from the start position |
| Physics.SingleAxisIsSafe | src/ecs/physics.rs:47-71 | a request along one axis only, horizontal or vertical (the gravity move is vertical), leaves the body where it was or ends clear of every obstacle |
| Physics.DiagonalNotChecked | src/ecs/physics.rs:50-58 | the axes are probed separately: a 10×10 body at the origin moved by (10, 10) ends overlapping an obstacle at (15, 15) that neither probe hits |
| Physics.Queued | src/ecs/physics.rs:86-93 | a body hands over its queue, then one gravity move when it falls |
| Physics.ApplySteps | src/ecs/physics.rs:101-110 | applying steps keeps the size |
| Physics.ApplyStepsAppend | src/ecs/physics.rs:101-110 | steps apply in FIFO order: `s1 + s2` is `s1`, then `s2` |
| Physics.JumpIgnored | src/ecs/physics.rs:106-108 | a Jump step has no effect |
| Physics.ObstaclesExcludeSelf | src/ecs/physics.rs:98 | the obstacles are exactly the rectangles of the other joined entities |
| Physics.MoveBodies | src/ecs/physics.rs:96-111 | moving bodies keeps the set of entities with a rectangle |
| Physics.RunSteps | src/ecs/physics.rs:101-110 | the loop pops the step queue front to back and ends with `ApplySteps` of the whole queue |
| Physics.MoveBodiesKeepsOthers | src/ecs/physics.rs:96-111 | only the moved bodies' rectangles change, each only in position |
| Physics.MoveBodiesFailure | src/ecs/physics.rs:99 | the move fails (the `unwrap`) iff some body with queued steps has no rectangle |
| Physics.FlagsCoverJoined | src/ecs/physics.rs:98 | each body's join flags every joined rectangle and then its own, so the log has \|order\|·(\|joined\|+1) entries |
| Physics.PendingOfFaller | src/ecs/physics.rs:86-93 | a body hands over steps iff it has queued steps or falls, and they are exactly its `Queued` steps |
| Physics.DrainedQueues | src/ecs/physics.rs:85-94 | draining empties the visited bodies' queues and keeps every body's kind and gravity flag |
| Physics.PhysicsSystem.constructor | src/ecs/physics.rs:42-44 | the system keeps the given gravity |
| Physics.PhysicsSystem.Run | src/ecs/physics.rs:82-114 | the alive Active bodies are drained in increasing id order (`Drained`, `Pending`); each body with steps is then visited once, in the order returned, and its rectangle becomes its steps applied against the other joined rectangles (`MoveBodies`); the log gains `Flags`; fails iff such a body has no rectangle |
| Physics.PhysicsSystem.DrainBodies | src/ecs/physics.rs:85-94 | the bodies become `Drained`; the queues collected are `Pending` |
| Physics.PhysicsSystem.DrainOne | src/ecs/physics.rs:86-93 | one body's queue (plus gravity) is handed over and emptied |
| Physics.PhysicsSystem.MoveAll | src/ecs/physics.rs:96-111 | every queued body is visited once; on success the rectangles are `MoveBodies` and the log gains `Flags` |
| Physics.PhysicsSystem.MoveOne | src/ecs/physics.rs:98-110 | fails iff the body has no rectangle; otherwise its rectangle is the steps applied against the others |
| Physics.PhysicsSystem.JoinObstacles | src/ecs/physics.rs:98 | collects the other joined rectangles, flagging every joined one |
| Chunks.ActiveChunksRect.constructor | src/ecs/chunk.rs:20-22 | the given rectangle and scale, marked dirty |
| Chunks.ActiveChunksRect.MoveBy | src/ecs/chunk.rs:26-29 | relative move with size kept; always dirty afterwards |
| Chunks.ActiveChunksRect.MoveTo | src/ecs/chunk.rs:31-36 | the position becomes the target; it turns dirty iff it actually moved |
| Chunks.ActiveChunksRect.UpdateCamera | src/ecs/chunk.rs:38-42 | the rectangle follows the camera location and the truncated view size; it turns dirty iff the location changed |
| Chunks.ActiveChunksRect.UpdateDirty | src/ecs/chunk.rs:44-51 | returns the old flag and clears it |
| Chunks.UpdateDirtyTwice | src/ecs/chunk.rs:44-51 | the flag is edge-triggered: a second query in a row reports false |
| Chunks.StartIndexBound | src/ecs/chunk.rs:121-122 | the start index is at most the chunk that holds the edge |
| Chunks.StartIndexTight | src/ecs/chunk.rs:121-122 | a chunk before the start index still reaches the edge only when the edge lies exactly on an inner chunk boundary, and then it is the chunk just before |
| Chunks.EndIndexIff | src/ecs/chunk.rs:116-118 | the scan continues on an axis iff the chunk is in the grid and its near side is at most the far edge |
| Chunks.ChunkContainsIff | src/ecs/chunk.rs:116-118 | chunk_contains holds iff both axes continue |
| Chunks.ChunkInsideBounds | src/ecs/chunk.rs:116-120 | a rectangle that overlaps some grid chunk overlaps the grid's bounds |
| Chunks.RowMembership | src/ecs/chunk.rs:129-144 | one row of the scan holds exactly the chunks between its bounds |
| Chunks.NextRow | src/ecs/chunk.rs:130-142 | reaching the end of a row moves the scan to the start of the next row |
| Chunks.BlockMembership | src/ecs/chunk.rs:129-144 | the scan holds exactly the chunks of the rectangle of indices |
| Chunks.BlockOrdered | src/ecs/chunk.rs:129-144 | the scan yields chunks in row-major order |
| Chunks.OverlapChunksSound | src/ecs/chunk.rs:113-149 | every chunk returned lies in the grid and overlaps the rectangle |
| Chunks.OverlapChunksOrdered | src/ecs/chunk.rs:113-149 | the chunks come in row-major order, without repetitions |
| Chunks.OverlapChunksOutsideBounds | src/ecs/chunk.rs:119-120 | a rectangle outside the grid's bounds gets no chunk |
| Chunks.OverlapChunksComplete | src/ecs/chunk.rs:113-149 | every grid chunk overlapping the rectangle is returned, unless the rectangle's near edge lies on an inner chunk boundary just past that chunk |
| Chunks.OverlapChunksMatchesScan | src/ecs/chunk.rs:113-149 | away from inner boundaries, the search returns exactly what an exhaustive scan of the grid finds |
| Chunks.OverlapChunksBoundaryOmission | src/ecs/chunk.rs:121-122 | the search for a rectangle at x = 500 returns only chunk (1, 0), yet chunk (0, 0) touches it |
| Chunks.OverlapChunksExamples | src/ecs/chunk.rs:113-149 | a small rectangle gets its one chunk; one spanning x = 500 gets both chunks |
| Chunks.EmptyGrid | src/ecs/chunk.rs:79 | a width × height grid with every cell empty |
| Chunks.InsertCells | src/ecs/chunk.rs:166-169 | adding to cells keeps the grid's shape |
| Chunks.RemoveCells | src/ecs/chunk.rs:179-181 | removing from cells keeps the grid's shape |
| Chunks.PurgeCells | src/ecs/chunk.rs:154-162 | purging cells keeps the grid's shape |
| Chunks.RetainMembers | src/ecs/chunk.rs:179-181 | retain keeps exactly the listed entities that are not dropped |
| Chunks.RetainAppend | src/ecs/chunk.rs:180 | retain distributes over concatenation |
| Chunks.RetainTwice | src/ecs/chunk.rs:180 | two retains equal one with the union of the dropped sets |
| Chunks.RetainAbsent | src/ecs/chunk.rs:180 | retain is the identity when nothing listed is dropped |
| Chunks.RetainUndoesAppend | src/ecs/chunk.rs:165-184 | removing an entity from a cell undoes appending it when it was not there before |
| Chunks.InsertThenRemoveRestores | src/ecs/chunk.rs:165-184 | inserting an entity absent from the grid into chunks, then removing it from them, restores the grid |
| Chunks.CompsInGridUpdate | src/ecs/chunk.rs:173 | storing in-grid chunks keeps every stored chunk list within the grid |
| Chunks.InsertPhaseSnoc | src/ecs/chunk.rs:212-216 | the insert phase handles its entities one after the other |
| Chunks.ModifyPhaseSnoc | src/ecs/chunk.rs:218-220 | the modify phase handles its entities one after the other |
| Chunks.RemovePhaseSnoc | src/ecs/chunk.rs:222-224 | the remove phase handles its entities one after the other |
| Chunks.ReregisterIs | src/ecs/chunk.rs:186-190 | an update is an unregistration followed by a registration at the new rectangle |
| Chunks.ModifyPhaseFailureSticks | src/ecs/chunk.rs:218-220 | a failed `unwrap` on some modified entity makes the whole phase fail |
| Chunks.RemovePhaseFailureSticks | src/ecs/chunk.rs:222-224 | a failed `unwrap` on some removed entity makes the whole phase fail |
| Chunks.RegisterThenUnregister | src/ecs/chunk.rs:165-184 | unregistering right after registering succeeds iff the entity became Active, and gives back the old grid with the entity's chunks emptied and its marker dropped |
| Chunks.CellOfInsert | src/ecs/chunk.rs:166-169 | a listed in-grid cell gains the entity at its end; the other cells are unchanged |
| Chunks.CellOfRemove | src/ecs/chunk.rs:179-181 | a listed cell loses the entity; the other cells are unchanged |
| Chunks.CellOfPurge | src/ecs/chunk.rs:154-162 | a scanned cell loses its dead entities; the other cells are unchanged |
| Chunks.RegisterCoherent | src/ecs/chunk.rs:165-176 | registration keeps the index coherent: each alive entity's chunks all list it, and Active entities are alive |
| Chunks.UnregisterCoherent | src/ecs/chunk.rs:178-184 | unregistration keeps the index coherent |
| Chunks.RecomputeCoherent | src/ecs/chunk.rs:151-163 | the Active recompute keeps the index coherent |
| Chunks.InsertPhaseCoherent | src/ecs/chunk.rs:212-216 | the insert phase keeps the index coherent |
| Chunks.ModifyPhaseCoherent | src/ecs/chunk.rs:218-220 | a successful modify phase keeps the index coherent |
| Chunks.RemovePhaseCoherent | src/ecs/chunk.rs:222-224 | a successful remove phase keeps the index coherent |
| Chunks.TickPreservesCoherent | src/ecs/chunk.rs:203-229 | a successful chunk tick keeps the index coherent |
| Chunks.RecomputeMarksRegistered | src/ecs/chunk.rs:151-163 | every alive entity listed in a scanned cell becomes Active |
| Chunks.RecomputeMarksOnlyScanned | src/ecs/chunk.rs:151-163 | an entity is Active after the recompute only if it is alive and listed in a scanned cell |
| Chunks.DirtyEntitiesOnce | src/ecs/chunk.rs:208-216 | a drained log is processed once per distinct entity, in increasing id order, whatever the number of its events |
| Chunks.PurgeNothing | src/ecs/chunk.rs:154-162 | scanning no chunk changes nothing and marks no entity |
| Chunks.PurgeCellsStep | src/ecs/chunk.rs:154-162 | the purge handles the scanned chunks one after the other |
| Chunks.ScannedAliveStep | src/ecs/chunk.rs:154-162 | the Active set grows by the alive entities of each scanned cell |
| Chunks.ChunkSystem.constructor | src/ecs/chunk.rs:78-92 | the given grid size; the bounds rectangle is 500·width × 500·height at the origin; every cell is empty; no dirty set or reader |
| Chunks.ChunkSystem.Setup | src/ecs/chunk.rs:231-238 | each reader starts at the current end of its log |
| Chunks.ChunkSystem.GetChunksOverlapRect | src/ecs/chunk.rs:113-149 | the loop returns `OverlapChunks` |
| Chunks.ChunkSystem.ScanFrom | src/ecs/chunk.rs:129-144 | the row-major scan from the start indices returns the block up to the end indices |
| Chunks.ChunkSystem.InsertEntityChunks | src/ecs/chunk.rs:165-176 | the entity is appended to every overlapping cell and its chunk list is extended by them; it is Active iff the active rectangle overlaps it |
| Chunks.ChunkSystem.RemoveEntityChunks | src/ecs/chunk.rs:178-184 | the entity leaves every cell it listed and the Active set; the chunk list is emptied; fails (the `unwrap`) iff it was not Active |
| Chunks.ChunkSystem.UpdateEntityChunks | src/ecs/chunk.rs:186-190 | a removal followed by an insertion at the new rectangle; fails iff the entity was not Active |
| Chunks.ChunkSystem.UpdateActiveEntities | src/ecs/chunk.rs:151-163 | the cells overlapping the active rectangle lose their dead entities; the Active set becomes their alive entities |
| Chunks.ChunkSystem.RunInserts | src/ecs/chunk.rs:212-216 | the index becomes `InsertPhase` over the dirty order |
| Chunks.ChunkSystem.InsertOne | src/ecs/chunk.rs:213-215 | one insert event, handled as `InsertStep` |
| Chunks.ChunkSystem.RunModifies | src/ecs/chunk.rs:218-220 | the index becomes `ModifyPhase` over the dirty order; fails iff the phase does |
| Chunks.ChunkSystem.ModifyOne | src/ecs/chunk.rs:219 | one modify event, handled as `ModifyStep` |
| Chunks.ChunkSystem.RunRemoves | src/ecs/chunk.rs:222-224 | the index becomes `RemovePhase` over the dirty order; fails iff the phase does |
| Chunks.ChunkSystem.RemoveOne | src/ecs/chunk.rs:223 | one remove event, handled as `RemoveStep` |
| Chunks.ChunkSystem.Run | src/ecs/chunk.rs:203-229 | fails before setup; otherwise the dirty sets are the events since each reader, the readers move to the ends of the logs, the index becomes `Tick` (inserts, modifies and removes in increasing id order, then the recompute iff the active rectangle was dirty), and the dirty flag is cleared |
| Chunks.ChunkSystem.DrainReaders | src/ecs/chunk.rs:204-210 | the dirty sets are refilled from the readers, which move to the ends of their logs |
| Chunks.ChunkSystem.ProcessDirty | src/ecs/chunk.rs:212-228 | the three phases and the conditional recompute, as `Tick` |
| Chunks.ChunkSystem.ScanChunk | src/ecs/chunk.rs:154-162 | one more scanned chunk, as `PurgeCells` and `ScannedAlive` on the next prefix |
| Chunks.ChunkSystem.ScanCell | src/ecs/chunk.rs:155-161 | one cell loses its dead entities and its alive ones become Active; the other cells are unchanged |
| Cameras.Clamp | src/utils/camera.rs:38-47 | the result lies in the interval and equals the value when the value already does |
| Cameras.ClampNearest | src/utils/camera.rs:38-47 | the clamped value is the point of the interval nearest to the value |
| Cameras.ClampedMove | src/utils/camera.rs:36-48 | without bounds the move is plain addition; with bounds the position ends inside them, and equals the sum whenever the sum is inside |
| Cameras.ClampedMoveNearest | src/utils/camera.rs:36-48 | each clamped axis lands as near to the unclamped target as any point of the bounds |
| Cameras.Camera.constructor | src/utils/camera.rs:16-23 | at the origin, with the given sizes and zoom |
| Cameras.Camera.UpdateScreenSize | src/utils/camera.rs:32-34 | only the screen size changes |
| Cameras.Camera.MoveBy | src/utils/camera.rs:36-48 | the position becomes `ClampedMove` of the old one |
| Cameras.Camera.MoveTo | src/utils/camera.rs:50-56 | moves relatively, exactly like move_by |
| Cameras.Camera.ZoomBy | src/utils/camera.rs:58-60 | the zoom stays within [0.2, 100] and changes by exactly the delta when that stays within |
| Cameras.Camera.GetScale | src/utils/camera.rs:62-64 | scale × screen size = view size × zoom, on each axis |
| Cameras.Camera.ScreenSizeToWorld | src/utils/camera.rs:72-76 | world size × screen size = screen size × view size × zoom, on each axis |
| Cameras.Camera.ScreenPointToWorld | src/utils/camera.rs:66-70 | the point is shifted by the camera position, then scaled |
| Cameras.Camera.ScreenRectToWorld | src/utils/camera.rs:78-82 | the corner is converted as a point; each side is the truncation of the scaled size |
| Cameras.Camera.WorldSizeToScreen | src/utils/camera.rs:90-94 | each axis is finite iff its view size and the zoom are nonzero (a zero scale divides by zero and gives an infinity or NaN); a finite result times the scale is the world size |
| Cameras.Camera.WorldPointToScreen | src/utils/camera.rs:84-88 | the point is scaled down, then shifted back by the camera position; an axis with a zero scale stays non-finite |
| Cameras.SizeRoundTrip | src/utils/camera.rs:72-94 | while both scale components are nonzero, the way back to the screen is finite and the size conversions are mutual inverses |
| Cameras.ScaleCancels | src/utils/camera.rs:72-94 | scaling and unscaling by a nonzero factor cancel, in either order |
| Cameras.PointRoundTrip | src/utils/camera.rs:66-88 | while both scale components are nonzero, the way back to the screen is finite and the point conversions are mutual inverses |
| Resources.AfterLoad | src/utils/resources_manager.rs:28-34 | a cached path is not reloaded; otherwise the loader runs; a success is stored under the path, a failure leaves the cache unchanged and is reported; existing entries are never changed |
| Resources.ResourcesManager.constructor | src/utils/resources_manager.rs:46-50 | nothing is cached |
| Resources.ResourcesManager.LoadTexture | src/utils/resources_manager.rs:28-34 | the cache and the error are those of `AfterLoad` |
| Resources.ResourcesManager.GetTexture | src/utils/resources_manager.rs:36-38 | Some iff the path is cached, and then the cached image |
| Resources.ResourcesManager.LoadOrGetTexture | src/utils/resources_manager.rs:40-43 | loads as `AfterLoad`; succeeds iff the path was cached or the loader succeeded, and then returns the cached image for the path; otherwise returns the loader's error |
| Resources.LoadIdempotent | src/utils/resources_manager.rs:28-34 | loading a path again, whatever the loader, changes nothing and reports nothing |
| Resources.CachedImageIsStable | src/utils/resources_manager.rs:28-34 | a cached path keeps its first image through any later loads |
| Games.Transition | src/game.rs:129-150 | Continue keeps the stack; Push puts the scene in front; Pop removes the front scene; the game exits iff it was exiting or a Pop leaves the stack empty |
| Games.Game.constructor | src/game.rs:120-123 | the stack holds only the first scene; the game does not exit |
| Games.Game.HandleSceneState | src/game.rs:129-150 | an error is reported and changes nothing; an Ok result applies `Transition` |
| Games.ExitIsFinal | src/game.rs:147-149 | once the exit flag is set, no transition clears it |
| Games.PushThenPop | src/game.rs:134-141 | a push followed by a pop restores the stack; the game exits iff the stack was empty |
| Games.DepthAfter | src/game.rs:132-137 | without pops, the depth grows by the number of pushes and the exit flag is unchanged |
| Games.DefaultConfig | src/game.rs:77-81 | a 1280×720 window, not fullscreen, with borders and vsync; it lies within the window limits 800×600 to 1920×1080 set at src/game.rs:109-112 |
| Editor.FirstContaining | src/scenes/editor_scene.rs:214-220 | the first entity of the order whose rectangle contains the point; None iff there is none |
| Editor.FirstContainingIsLeast | src/scenes/editor_scene.rs:214-220 | over increasing ids, the hit is the least id whose rectangle contains the point |
| Editor.Overlapping | src/scenes/editor_scene.rs:230-236 | exactly the entities of the order whose rectangle overlaps the area |
| Editor.OverlappingIncreasing | src/scenes/editor_scene.rs:230-236 | filtering increasing ids keeps them increasing |
| Editor.GetEntityUnderMouse | src/scenes/editor_scene.rs:206-221 | the least alive Active entity with a rectangle containing the point |
| Editor.GetEntitiesInRect | src/scenes/editor_scene.rs:223-237 | the alive Active entities whose rectangle overlaps the area, in increasing id order |
| Editor.PickedAreAlive | src/scenes/editor_scene.rs:206-237 | picked entities are alive and listed once each, in increasing id order |
| Editor.ReleaseMode | src/scenes/editor_scene.rs:400-415 | releasing over nothing gives Default; otherwise Select of the first entity, with the rest as a non-empty group when there is any |
| Editor.Without | src/scenes/editor_scene.rs:344 | the list without the removed entity, everything else kept |
| Editor.WithoutDistinct | src/scenes/editor_scene.rs:344 | removing an entity keeps a list free of repetitions |
| Editor.Reselect | src/scenes/editor_scene.rs:339-358 | clicking a grouped entity swaps it with the selection; clicking outside the group drops the group (kept when it is the selection) |
| Editor.ReselectDistinct | src/scenes/editor_scene.rs:342-355 | reselection keeps the selection and its group free of repetitions |
| Editor.ReselectKeepsSelection | src/scenes/editor_scene.rs:342-347 | clicking a grouped entity keeps the same set of selected entities |
| Editor.LeftStep | src/scenes/editor_scene.rs:282-416 | the left-button mode machine: a release closes a rubber band as `ReleaseMode`; Copy is kept; with the UI hovered the mode is kept; a new selection is the entity under the mouse or the first caught one |
| Editor.RightStep | src/scenes/editor_scene.rs:418-433 | a right click drops the Copy brush to Default; nothing else changes |
| Editor.KeyStep | src/scenes/editor_scene.rs:435-462 | Backspace goes to Default; C turns a selection into a Copy brush of the same entities; with the UI hovered nothing changes |
| Editor.LeftStepKeepsModeValid | src/scenes/editor_scene.rs:282-416 | the left-button step keeps the held entities alive and distinct |
| Editor.StepsKeepModeValid | src/scenes/editor_scene.rs:282-462 | a frame's left, right and key steps keep the held entities alive and distinct |
| Editor.DragDelta | src/scenes/editor_scene.rs:313-326 | each axis moves by the drag delta if the moved rectangle stays within the level bounds on that axis, otherwise by zero; a rectangle inside the bounds stays inside |
| Editor.DragRects | src/scenes/editor_scene.rs:331-337 | only the dragged entities' rectangles change, each only in position |
| Editor.DragKeepsInside | src/scenes/editor_scene.rs:316-337 | a drag never takes a rectangle that lies within the bounds out of them |
| Editor.DragMovesOnce | src/scenes/editor_scene.rs:331-337 | each dragged entity listed once moves exactly once, by its own clamped delta |
| Editor.WithKey | src/scenes/editor_scene.rs:331-337 | the listed entities that have a rectangle, in order |
| Editor.Drag | src/scenes/editor_scene.rs:307-337 | the rectangles become `DragRects`; one modification is logged per dragged entity that has a rectangle |
| Editor.CopyTargets | src/scenes/editor_scene.rs:366-380 | one target per entity to clone: the selection goes under the mouse, each grouped entity keeps its offset from the selection |
| Editor.CopiedRange | src/scenes/editor_scene.rs:381-388 | only fresh ids get copied components |
| Editor.CopiedSpec | src/scenes/editor_scene.rs:381-388 | the i-th clone has a copy of a component exactly when the i-th source has it |
| Editor.CopiedRectsRange | src/scenes/editor_scene.rs:381-388 | only fresh ids get copied rectangles |
| Editor.CopiedRectsSpec | src/scenes/editor_scene.rs:381-388 | the i-th clone has the i-th source's size at the i-th target |
| Editor.CopyIdsSpec | src/scenes/editor_scene.rs:381-388 | the logged clones are those whose source has a rectangle, each once, in increasing id order |
| Editor.CloneAll | src/scenes/editor_scene.rs:381-388 | the world becomes the closed form: clone i has a fresh id and marker, copies of source i's components, and its rectangle at target i |
| Editor.DeleteAll | src/scenes/editor_scene.rs:437-450 | succeeds iff the entities are distinct and alive; then they leave every component and the removal log gains those that had a rectangle |
| Editor.DeletedTwice | src/scenes/editor_scene.rs:437-450 | two deletions in a row equal one deletion of the union, with both logs |
| Editor.Pan | src/scenes/editor_scene.rs:245-259 | with no arrow held the camera stays; with bounds, any pan ends inside them |
| Editor.PanOppositeCancels | src/scenes/editor_scene.rs:245-251 | Left and Right held together cancel out when neither move is clamped |
| Editor.ZoomKeys | src/scenes/editor_scene.rs:261-267 | with no key held the zoom stays; any zoom stays within [0.2, 100]; P and M together cancel out away from the limits |
| Editor.EditorScene.constructor | src/scenes/editor_scene.rs:152 | the scene starts in Default mode over the given world, chunk system, camera and input |
| Editor.EditorScene.UpdateLeft | src/scenes/editor_scene.rs:282-416 | the mode becomes `LeftStep`; a held selection drags its entities; a Copy click stamps clones; otherwise the world is unchanged |
| Editor.EditorScene.StepLeftMode | src/scenes/editor_scene.rs:284-415 | the mode becomes `LeftStep` |
| Editor.EditorScene.ApplyLeft | src/scenes/editor_scene.rs:303-392 | a held unhovered selection drags; a Copy click clones; otherwise nothing changes |
| Editor.EditorScene.UpdateRight | src/scenes/editor_scene.rs:418-433 | the mode becomes `RightStep` |
| Editor.EditorScene.UpdateKeys | src/scenes/editor_scene.rs:435-462 | the mode becomes `KeyStep`; Backspace deletes the held entities; otherwise the world is unchanged |
| Editor.EditorScene.UpdateCamera | src/scenes/editor_scene.rs:239-269 | with the UI hovered the camera stays; otherwise it pans as `Pan` within the level bounds and zooms as `ZoomKeys` |
| Editor.EditorScene.ZoomIf | src/scenes/editor_scene.rs:261-267 | one zoom key's clamped step when it is held |
| Editor.EditorScene.PanIf | src/scenes/editor_scene.rs:245-259 | one arrow key's clamped move when it is held |
| Editor.EditorScene.UpdateButtons | src/scenes/editor_scene.rs:282-433 | the mode becomes `ClickedMode` (the left step, then the right step); the stores a clone touches become `AfterButtons` (the selection dragged, the copy brush stamped, or unchanged) and every other store keeps its value |
| Editor.EditorScene.UpdateWorld | src/scenes/editor_scene.rs:282-462 | the mode becomes `KeyStep` of `ClickedMode`; the whole world becomes `KeysWorld` of `AfterButtons`: the clicks' drag or stamp, then on Backspace the deletion of the selection the clicks left |
| Editor.EditorScene.Update | src/scenes/editor_scene.rs:273-470 | a frame: the mode becomes `KeyStep` of `ClickedMode`; the world becomes `KeysWorld` of `AfterButtons`, every store accounted for; over the UI the camera stays put, otherwise it pans and zooms as `UpdateCamera` does; the scene stays valid (held entities alive and distinct) |

## Left out

- Floating point: positions, sizes, scales and zoom are reals, so f32 rounding is not modelled.
- Geometry.Rect.ResizeBy: the u32 addition does not wrap or panic on overflow.
- InputManagers.InputManager.GetDeltaMouse and Geometry.FromPoints: coordinates are unbounded integers. The i32 subtraction in `get_delta_mouse` (src/utils/input_manager.rs:49-51) and the i32 `p1 - p2` in `from_points` (src/utils/math.rs:62-69) can wrap or panic on extreme coordinates, and the model does not capture that.
- Entity generations and index reuse are not modelled. Ids are naturals that are never reused. A deleted entity's marker mapping is kept, as the marker allocator keeps it.
- `HashMap` iteration order is not modelled. The physics move pass returns the order it used as `order`, and its contract holds for any such order.
- Concurrency is not modelled: the `Arc<Mutex<…>>` around the input manager, and the parallel system dispatcher. Systems run one after another.
- Rendering is not modelled: `draw`, `draw_ui`, imgui windows, textures drawn on screen, and the right-click entity window (src/scenes/editor_scene.rs:421-427). `uiHover` is an input to the editor.
- Rect's `&mut` accessors (`pos_mut`, `size_mut`, `get_rect_mut`) are not modelled. Rectangles are values, and updating one reassigns the map entry.
- Chunks.OverlapChunksComplete: completeness is stated only for rectangles whose near edges avoid inner chunk boundaries. This follows the code; see Chunks.OverlapChunksBoundaryOmission.
- Chunks.ActiveChunksRect.UpdateCamera takes the camera's location and view size as parameters. The camera in src/utils/camera.rs has no `location_zero` or `view_size` accessor.
- `get_chunks_rects` (a debug helper) and `get_bounds_chunks` (a field read) are not modelled.
- `NextState::Replace` (src/scenes/mod.rs) is not modelled, because `handle_scene_state` has no branch for it.
- Inputs.FromI32: the set of valid SDL key codes is a parameter (`valid`), not the full SDL table.
- Cameras.Camera.GetScale, Cameras.Camera.ScreenSizeToWorld, Cameras.Camera.ScreenPointToWorld and Cameras.Camera.ScreenRectToWorld require a nonzero screen size. The source divides by it and would produce infinities there.
- Cameras.Camera.WorldSizeToScreen and Cameras.Camera.WorldPointToScreen also require a nonzero screen size, because they go through the scale. A zero scale component (zero view size or zero zoom) is modelled: that axis becomes `NonFinite`, without telling an infinity from a NaN.
- Editor.EditorScene.constructor requires a nonzero screen size, for the same reason.
- Camera `world_view` and `world_rect_to_screen` are not modelled. Both are only used for drawing.
- Image loading (SDL's texture loader) is a function parameter that may fail.
- Editor.EditorScene.Update does not model `level.update` (the systems run after the editor's own logic), the drawing, or the returned `Ok(Continue)`, which is constant.
- `create_entity`, `new_level`, `load_level` and `Level::load` are not modelled: they build worlds from files and the JSON serializer.
- `GameConfig::load` and `save` are not modelled (file I/O). Only the default configuration is.
- `Game::new` window and renderer setup, the main loop, the frame timer and the SDL event pump are not modelled. Only the scene stack transitions are.
- `serialization::copy_entity`, which `clone_entity` calls, is not part of this model. Ecs.World.CloneEntity follows `copy_entity` of src/ecs/mod.rs:97-124 instead. It copies the rectangle, the physics body and the input bindings, and gives the copy a fresh marker. It does not copy the sprite component, because sprites are not modelled.
- `InputManager::get_mouse_pos` is not modelled: it is a plain field read of `mousePos`.
- Physics.SingleAxisIsSafe: no claim is made for diagonal moves. Physics.DiagonalNotChecked shows a diagonal move ending inside an obstacle.
