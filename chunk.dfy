/**
 * The spatial index: a fixed grid of square cells (chunks) of side
 * `ChunkSize`, each holding the entities whose rectangle overlaps it, and the
 * Active marker, recomputed from the cells that overlap the camera-driven
 * active rectangle.
 */
module Chunks {
  import opened Geometry
  import opened Ecs

  // ---------------------------------------------------------------------
  // The active rectangle
  // ---------------------------------------------------------------------

  /** The region whose chunks are simulated, with an edge-triggered dirty flag. */
  class ActiveChunksRect {
    var rect: Rect
    var scale: real
    var dirty: bool

    /** ActiveChunksRect::new: starts dirty so the first tick computes the Active set. */
    constructor (rect: Rect, scale: real)
      ensures this.rect == rect && this.scale == scale && dirty
    {
      this.rect := rect;
      this.scale := scale;
      dirty := true;
    }

    /** move_by: translates the region and always marks it dirty. */
    method MoveBy(delta: Vec2)
      modifies this`rect, this`dirty
      ensures rect == old(rect).MoveBy(delta) && rect.size == old(rect.size)
      ensures dirty
    {
      rect := rect.MoveBy(delta);
      dirty := true;
    }

    /** move_to: marks the region dirty only when the position actually changes. */
    method MoveTo(target: Vec2)
      modifies this`rect, this`dirty
      ensures rect.pos == target && rect.size == old(rect.size)
      ensures dirty == (old(dirty) || old(rect.pos) != target)
    {
      if rect.pos != target {
        rect := rect.MoveTo(target);
        dirty := true;
      }
    }

    /**
     * update_camera: moves the region to the camera's location, then resizes
     * it to the view size cast to u32; the resize never marks it dirty.
     */
    method UpdateCamera(location: Vec2, viewSize: Vec2)
      modifies this`rect, this`dirty
      ensures rect == Rect(location, Size(CastU32(viewSize.x), CastU32(viewSize.y)))
      ensures dirty == (old(dirty) || old(rect.pos) != location)
    {
      MoveTo(location);
      rect := rect.ResizeTo(Size(CastU32(viewSize.x), CastU32(viewSize.y)));
    }

    /** update_dirty: reports the flag and clears it. */
    method UpdateDirty() returns (wasDirty: bool)
      modifies this`dirty
      ensures wasDirty == old(dirty) && !dirty
    {
      if dirty {
        dirty := false;
        wasDirty := true;
      } else {
        wasDirty := false;
      }
    }
  }

  /** update_dirty reports a change once: a second call in a row reports nothing. */
  method UpdateDirtyTwice(a: ActiveChunksRect) returns (first: bool, second: bool)
    modifies a`dirty
    ensures first == old(a.dirty) && !second && !a.dirty
  {
    first := a.UpdateDirty();
    second := a.UpdateDirty();
  }

  // ---------------------------------------------------------------------
  // Cells and the overlap search
  // ---------------------------------------------------------------------

  /** get_chunk_rect: the square covered by a cell. */
  function ChunkRect(c: Chunk): Rect {
    New((c.0 * ChunkSize) as real, (c.1 * ChunkSize) as real, ChunkSize, ChunkSize)
  }

  /** The rectangle covered by a grid of `w` by `h` cells. */
  function BoundsRect(w: nat, h: nat): Rect {
    New(0.0, 0.0, ChunkSize * w, ChunkSize * h)
  }

  /** The search's membership test: the cell exists and its square overlaps `r`. */
  predicate ChunkContains(w: nat, h: nat, r: Rect, x: nat, y: nat) {
    x < w && y < h && ChunkRect((x, y)).Overlaps(r)
  }

  /** The first index the search tries on one axis (`v as usize / CHUNK_SIZE`). */
  function StartIndex(v: real): nat {
    if v < 0.0 then 0 else v.Floor / ChunkSize
  }

  /** One past the last cell index on an axis whose far edge is at `edge`. */
  function EndIndex(edge: real, n: nat): int {
    Min(n, (edge / ChunkSize as real).Floor + 1)
  }

  /** Cells x0 .. x1-1 of row y, left to right. */
  function Row(x0: nat, x1: int, y: nat): seq<Chunk> {
    seq(if x1 > x0 then x1 - x0 else 0, i requires 0 <= i => (x0 + i, y))
  }

  /** Rows y0 .. y1-1 of columns x0 .. x1-1, top row first. */
  function Block(x0: nat, x1: int, y0: nat, y1: int): seq<Chunk>
    decreases y1 - y0
  {
    if y1 <= y0 then [] else Block(x0, x1, y0, y1 - 1) + Row(x0, x1, y1 - 1)
  }

  /**
   * The cells the overlap search reports for `r` on a `w` by `h` grid: the
   * block from the start indices to the last cells the rectangle reaches.
   */
  function OverlapChunks(w: nat, h: nat, r: Rect): seq<Chunk> {
    var x0, x1 := StartIndex(r.pos.x), EndIndex(r.Right(), w);
    var y0, y1 := StartIndex(r.pos.y), EndIndex(r.Bottom(), h);
    if x0 < x1 && y0 < y1 then Block(x0, x1, y0, y1) else []
  }

  /** Every cell of the search's result, scanned exhaustively. */
  function ExhaustiveScan(w: nat, h: nat, r: Rect): set<Chunk> {
    set x: nat, y: nat | x < w && y < h && ChunkRect((x, y)).Overlaps(r) :: (x, y)
  }

  /** `v` is a positive multiple of the cell size. */
  predicate OnInnerBoundary(v: real) {
    v > 0.0 && v == v.Floor as real && v.Floor % ChunkSize == 0
  }

  /** Row-major order: by row, then by column. */
  predicate Before(a: Chunk, b: Chunk) {
    a.1 < b.1 || (a.1 == b.1 && a.0 < b.0)
  }

  predicate RowMajorIncreasing(s: seq<Chunk>) {
    forall i, j :: 0 <= i < j < |s| ==> Before(s[i], s[j])
  }

  // --- arithmetic of the index computations ---

  /** A cell from the start index on reaches past the rectangle's near edge. */
  lemma StartIndexBound(v: real, a: nat)
    requires a >= StartIndex(v)
    ensures v < (a * ChunkSize) as real + ChunkSize as real
  {
    if v >= 0.0 {
      var f := v.Floor;
      assert f - ChunkSize < (f / ChunkSize) * ChunkSize <= f;
    }
  }

  /** Cells left of the start index miss the rectangle unless its edge is on a cell boundary. */
  lemma StartIndexTight(v: real, a: nat)
    requires a < StartIndex(v) && (a * ChunkSize) as real + ChunkSize as real >= v
    ensures OnInnerBoundary(v) && a == StartIndex(v) - 1
  {
    var f := v.Floor;
    var s := f / ChunkSize;
    assert s * ChunkSize <= f;
    assert (a + 1) * ChunkSize <= s * ChunkSize;
    assert v == f as real;
    assert f == s * ChunkSize;
  }

  /** A cell index is below the end index exactly when the cell starts before the far edge. */
  lemma EndIndexIff(edge: real, n: nat, a: nat)
    ensures a < EndIndex(edge, n) <==> a < n && (a * ChunkSize) as real <= edge
  {
    var q := edge / ChunkSize as real;
    if (a * ChunkSize) as real <= edge {
      assert a as real <= q;
    }
    if a <= q.Floor {
      assert a as real <= q;
    }
  }

  /** From the start indices on, the membership test is exactly "below both end indices". */
  lemma ChunkContainsIff(w: nat, h: nat, r: Rect, a: nat, b: nat)
    requires a >= StartIndex(r.pos.x) && b >= StartIndex(r.pos.y)
    ensures ChunkContains(w, h, r, a, b) <==> a < EndIndex(r.Right(), w) && b < EndIndex(r.Bottom(), h)
  {
    StartIndexBound(r.pos.x, a);
    StartIndexBound(r.pos.y, b);
    EndIndexIff(r.Right(), w, a);
    EndIndexIff(r.Bottom(), h, b);
  }

  /** A cell of the grid lies inside the grid's bounds. */
  lemma ChunkInsideBounds(w: nat, h: nat, r: Rect, a: nat, b: nat)
    requires ChunkContains(w, h, r, a, b)
    ensures BoundsRect(w, h).Overlaps(r)
  {
    assert (a * ChunkSize) + ChunkSize <= ChunkSize * w;
    assert (b * ChunkSize) + ChunkSize <= ChunkSize * h;
  }

  // --- Row and Block ---

  lemma RowMembership(x0: nat, x1: int, y: nat, c: Chunk)
    ensures c in Row(x0, x1, y) <==> x0 <= c.0 < x1 && c.1 == y
  {
    if x0 <= c.0 < x1 && c.1 == y {
      assert Row(x0, x1, y)[c.0 - x0] == c;
    }
  }

  lemma RowExtend(x0: nat, x: nat, y: nat)
    requires x0 <= x
    ensures Row(x0, x + 1, y) == Row(x0, x, y) + [(x, y)]
  {
  }

  /** A finished row closes the block, and the next row starts at the first column. */
  lemma NextRow(x0: nat, x1: int, y0: nat, y: nat)
    requires y0 <= y
    ensures Block(x0, x1, y0, y) + Row(x0, x1, y) + [(x0, y + 1)] == Block(x0, x1, y0, y + 1) + Row(x0, x0 + 1, y + 1)
  {
    assert Row(x0, x0 + 1, y + 1) == [(x0, y + 1)];
  }

  lemma {:induction false} BlockMembership(x0: nat, x1: int, y0: nat, y1: int, c: Chunk)
    ensures c in Block(x0, x1, y0, y1) <==> x0 <= c.0 < x1 && y0 <= c.1 < y1
    decreases y1 - y0
  {
    if y1 > y0 {
      BlockMembership(x0, x1, y0, y1 - 1, c);
      RowMembership(x0, x1, y1 - 1, c);
    }
  }

  lemma {:induction false} BlockOrdered(x0: nat, x1: int, y0: nat, y1: int)
    ensures RowMajorIncreasing(Block(x0, x1, y0, y1))
    decreases y1 - y0
  {
    if y1 > y0 {
      var top, row := Block(x0, x1, y0, y1 - 1), Row(x0, x1, y1 - 1);
      BlockOrdered(x0, x1, y0, y1 - 1);
      forall i | 0 <= i < |top|
        ensures top[i].1 < y1 - 1
      {
        BlockMembership(x0, x1, y0, y1 - 1, top[i]);
      }
      assert Block(x0, x1, y0, y1) == top + row;
    }
  }

  // --- properties of the search result ---

  /** Every reported cell is in the grid and overlaps the rectangle. */
  lemma OverlapChunksSound(w: nat, h: nat, r: Rect)
    ensures forall c :: c in OverlapChunks(w, h, r) ==> c.0 < w && c.1 < h && ChunkRect(c).Overlaps(r)
  {
    var x0, x1 := StartIndex(r.pos.x), EndIndex(r.Right(), w);
    var y0, y1 := StartIndex(r.pos.y), EndIndex(r.Bottom(), h);
    forall c | c in OverlapChunks(w, h, r)
      ensures c.0 < w && c.1 < h && ChunkRect(c).Overlaps(r)
    {
      BlockMembership(x0, x1, y0, y1, c);
      ChunkContainsIff(w, h, r, c.0, c.1);
    }
  }

  /** Cells come row by row, left to right, so none is reported twice. */
  lemma OverlapChunksOrdered(w: nat, h: nat, r: Rect)
    ensures RowMajorIncreasing(OverlapChunks(w, h, r))
    ensures forall i, j :: 0 <= i < j < |OverlapChunks(w, h, r)| ==> OverlapChunks(w, h, r)[i] != OverlapChunks(w, h, r)[j]
  {
    BlockOrdered(StartIndex(r.pos.x), EndIndex(r.Right(), w), StartIndex(r.pos.y), EndIndex(r.Bottom(), h));
  }

  /** A rectangle outside the grid's bounds overlaps no cell. */
  lemma OverlapChunksOutsideBounds(w: nat, h: nat, r: Rect)
    requires !BoundsRect(w, h).Overlaps(r)
    ensures OverlapChunks(w, h, r) == []
  {
    var x0, y0 := StartIndex(r.pos.x), StartIndex(r.pos.y);
    ChunkContainsIff(w, h, r, x0, y0);
    if ChunkContains(w, h, r, x0, y0) {
      ChunkInsideBounds(w, h, r, x0, y0);
    }
  }

  /**
   * The search finds every overlapping cell at or after the start indices,
   * and every overlapping cell at all when neither near edge lies on an inner
   * cell boundary.
   */
  lemma OverlapChunksComplete(w: nat, h: nat, r: Rect, a: nat, b: nat)
    requires ChunkContains(w, h, r, a, b)
    requires a >= StartIndex(r.pos.x) || !OnInnerBoundary(r.pos.x)
    requires b >= StartIndex(r.pos.y) || !OnInnerBoundary(r.pos.y)
    ensures (a, b) in OverlapChunks(w, h, r)
  {
    var x0, x1 := StartIndex(r.pos.x), EndIndex(r.Right(), w);
    var y0, y1 := StartIndex(r.pos.y), EndIndex(r.Bottom(), h);
    if a < x0 {
      StartIndexTight(r.pos.x, a);
    }
    if b < y0 {
      StartIndexTight(r.pos.y, b);
    }
    ChunkContainsIff(w, h, r, a, b);
    ChunkContainsIff(w, h, r, x0, y0);
    BlockMembership(x0, x1, y0, y1, (a, b));
  }

  /** Off inner boundaries, the search agrees with the exhaustive scan. */
  lemma OverlapChunksMatchesScan(w: nat, h: nat, r: Rect)
    requires !OnInnerBoundary(r.pos.x) && !OnInnerBoundary(r.pos.y)
    ensures forall c :: c in OverlapChunks(w, h, r) <==> c in ExhaustiveScan(w, h, r)
  {
    OverlapChunksSound(w, h, r);
    forall c | c in ExhaustiveScan(w, h, r)
      ensures c in OverlapChunks(w, h, r)
    {
      OverlapChunksComplete(w, h, r, c.0, c.1);
    }
  }

  /**
   * On an inner boundary, the cell that only touches the rectangle from the
   * left is not reported, though the closed-interval test says it overlaps.
   */
  lemma OverlapChunksBoundaryOmission()
    ensures OverlapChunks(2, 1, New(500.0, 0.0, 10, 10)) == [(1, 0)]
    ensures (0, 0) in ExhaustiveScan(2, 1, New(500.0, 0.0, 10, 10))
  {
    var r := New(500.0, 0.0, 10, 10);
    assert StartIndex(500.0) == 1;
    assert EndIndex(r.Right(), 2) == 2 by {
      assert (r.Right() / 500.0).Floor == 1;
    }
    assert EndIndex(r.Bottom(), 1) == 1;
    assert Block(1, 2, 0, 1) == Row(1, 2, 0);
    assert ChunkRect((0, 0)).Overlaps(r);
  }

  /** Two worked examples on the default 20 by 5 grid. */
  lemma OverlapChunksExamples()
    ensures OverlapChunks(20, 5, New(0.0, 0.0, 100, 100)) == [(0, 0)]
    ensures OverlapChunks(20, 5, New(450.0, 0.0, 100, 100)) == [(0, 0), (1, 0)]
  {
    assert (100.0 / 500.0).Floor == 0;
    assert Block(0, 1, 0, 1) == Row(0, 1, 0);
    assert StartIndex(450.0) == 0 by {
      assert (450.0).Floor == 450;
    }
    assert (550.0 / 500.0).Floor == 1;
    assert Block(0, 2, 0, 1) == Row(0, 2, 0);
  }

  // ---------------------------------------------------------------------
  // Cell contents, as values
  // ---------------------------------------------------------------------

  /** The contents of every cell, column by column. */
  type Grid = seq<seq<seq<Entity>>>

  predicate Shaped(g: Grid, w: nat, h: nat) {
    |g| == w && forall x :: 0 <= x < w ==> |g[x]| == h
  }

  function EmptyGrid(w: nat, h: nat): (g: Grid)
    ensures Shaped(g, w, h)
    ensures forall x, y :: 0 <= x < w && 0 <= y < h ==> g[x][y] == []
  {
    seq(w, x => seq(h, y => []))
  }

  /** A cell's list, or nothing outside the grid. */
  function Cell(g: Grid, c: Chunk): seq<Entity> {
    if c.0 < |g| && c.1 < |g[c.0]| then g[c.0][c.1] else []
  }

  /** Vec::retain: the entries not in `drop`, in their order. */
  function Retain(s: seq<Entity>, drop: set<Entity>): seq<Entity>
  {
    if s == [] then []
    else (if s[0] in drop then [] else [s[0]]) + Retain(s[1..], drop)
  }

  /** The ids of `s` that are not alive. */
  function Dead(s: seq<Entity>, alive: set<Entity>): set<Entity> {
    set e | e in s && e !in alive
  }

  /** insert_entity_chunks on the cells: `e` appended to each listed cell. */
  function InsertCells(g: Grid, chunks: seq<Chunk>, e: Entity): (r: Grid)
    ensures |r| == |g| && forall x :: 0 <= x < |g| ==> |r[x]| == |g[x]|
  {
    seq(|g|, x requires 0 <= x < |g| =>
      seq(|g[x]|, y requires 0 <= y < |g[x]| => if (x, y) in chunks then g[x][y] + [e] else g[x][y]))
  }

  /** remove_entity_chunks on the cells: every occurrence of `e` dropped from each listed cell. */
  function RemoveCells(g: Grid, chunks: seq<Chunk>, e: Entity): (r: Grid)
    ensures |r| == |g| && forall x :: 0 <= x < |g| ==> |r[x]| == |g[x]|
  {
    seq(|g|, x requires 0 <= x < |g| =>
      seq(|g[x]|, y requires 0 <= y < |g[x]| => if (x, y) in chunks then Retain(g[x][y], {e}) else g[x][y]))
  }

  /** update_active_entities on the cells: dead entities dropped from each listed cell. */
  function PurgeCells(g: Grid, chunks: seq<Chunk>, alive: set<Entity>): (r: Grid)
    ensures |r| == |g| && forall x :: 0 <= x < |g| ==> |r[x]| == |g[x]|
  {
    seq(|g|, x requires 0 <= x < |g| =>
      seq(|g[x]|, y requires 0 <= y < |g[x]| =>
        if (x, y) in chunks then Retain(g[x][y], Dead(g[x][y], alive)) else g[x][y]))
  }

  /** The alive entities listed in any of the given cells. */
  function ScannedAlive(g: Grid, chunks: seq<Chunk>, alive: set<Entity>): set<Entity> {
    set e | e in alive && exists k :: 0 <= k < |chunks| && e in Cell(g, chunks[k])
  }

  // --- Retain ---

  /** retain keeps exactly the entries outside the drop set. */
  lemma {:induction false} RetainMembers(s: seq<Entity>, drop: set<Entity>)
    ensures forall e :: e in Retain(s, drop) <==> e in s && e !in drop
  {
    if s != [] {
      RetainMembers(s[1..], drop);
      assert forall e :: e in s <==> e == s[0] || e in s[1..];
    }
  }

  lemma {:induction false} RetainAppend(a: seq<Entity>, b: seq<Entity>, drop: set<Entity>)
    ensures Retain(a + b, drop) == Retain(a, drop) + Retain(b, drop)
  {
    if a != [] {
      assert (a + b)[0] == a[0];
      assert (a + b)[1..] == a[1..] + b;
      RetainAppend(a[1..], b, drop);
      var head := if a[0] in drop then [] else [a[0]];
      calc {
        Retain(a + b, drop);
        head + Retain(a[1..] + b, drop);
        head + (Retain(a[1..], drop) + Retain(b, drop));
        (head + Retain(a[1..], drop)) + Retain(b, drop);
      }
    } else {
      assert a + b == b;
    }
  }

  /** Retaining twice retains once, with both drop sets. */
  lemma {:induction false} RetainTwice(s: seq<Entity>, d1: set<Entity>, d2: set<Entity>)
    ensures Retain(Retain(s, d1), d2) == Retain(s, d1 + d2)
  {
    if s != [] {
      RetainTwice(s[1..], d1, d2);
      var head := if s[0] in d1 then [] else [s[0]];
      RetainAppend(head, Retain(s[1..], d1), d2);
      if s[0] !in d1 {
        assert Retain(head, d2) == if s[0] in d2 then [] else [s[0]] by {
          assert head[1..] == [];
        }
      }
    }
  }

  /** Retaining ids that do not occur changes nothing. */
  lemma {:induction false} RetainAbsent(s: seq<Entity>, drop: set<Entity>)
    requires forall e :: e in s ==> e !in drop
    ensures Retain(s, drop) == s
  {
    if s != [] {
      RetainAbsent(s[1..], drop);
      assert s == [s[0]] + s[1..];
    }
  }

  /** Removing an id just appended to a list that lacked it restores the list. */
  lemma RetainUndoesAppend(s: seq<Entity>, e: Entity)
    requires e !in s
    ensures Retain(s + [e], {e}) == s
  {
    RetainAppend(s, [e], {e});
    RetainAbsent(s, {e});
    assert Retain([e], {e}) == [] by {
      assert [e][1..] == [];
    }
  }

  lemma GridEq(g1: Grid, g2: Grid)
    requires |g1| == |g2|
    requires forall x :: 0 <= x < |g1| ==> |g1[x]| == |g2[x]|
    requires forall x, y :: 0 <= x < |g1| && 0 <= y < |g1[x]| ==> g1[x][y] == g2[x][y]
    ensures g1 == g2
  {
    forall x | 0 <= x < |g1|
      ensures g1[x] == g2[x]
    {
    }
  }

  /**
   * Insert followed by remove over the same cells restores every cell,
   * provided the entity was in none of them.
   */
  lemma InsertThenRemoveRestores(g: Grid, chunks: seq<Chunk>, e: Entity)
    requires forall c :: c in chunks ==> e !in Cell(g, c)
    ensures RemoveCells(InsertCells(g, chunks, e), chunks, e) == g
  {
    var g' := RemoveCells(InsertCells(g, chunks, e), chunks, e);
    forall x, y | 0 <= x < |g| && 0 <= y < |g[x]|
      ensures g'[x][y] == g[x][y]
    {
      if (x, y) in chunks {
        assert Cell(g, (x, y)) == g[x][y];
        RetainUndoesAppend(g[x][y], e);
      }
    }
    GridEq(g', g);
  }

  // ---------------------------------------------------------------------
  // One tick of the index, as values
  // ---------------------------------------------------------------------

  /** The state the chunk system maintains: cells, membership lists and Active markers. */
  datatype Index = Index(grid: Grid, comps: map<Entity, seq<Chunk>>, active: set<Entity>)

  /** An index and whether the step got there without a failed `unwrap`. */
  datatype Outcome = Outcome(index: Index, ok: bool)

  /** What a tick runs against: the grid's dimensions and the active rectangle. */
  datatype Layout = Layout(w: nat, h: nat, activeArea: Rect)

  /** Every recorded membership names a cell of the grid. */
  predicate CompsInGrid(comps: map<Entity, seq<Chunk>>, w: nat, h: nat) {
    forall e, c :: e in comps && c in comps[e] ==> c.0 < w && c.1 < h
  }

  /** Recording a list of grid cells keeps every membership inside the grid. */
  lemma CompsInGridUpdate(comps: map<Entity, seq<Chunk>>, w: nat, h: nat, e: Entity, chunks: seq<Chunk>)
    requires CompsInGrid(comps, w, h)
    requires forall c :: c in chunks ==> c.0 < w && c.1 < h
    ensures CompsInGrid(comps[e := chunks], w, h)
  {
  }

  /** insert_entity_chunks with a fresh membership list. */
  function Register(ix: Index, lay: Layout, e: Entity, r: Rect): Index {
    var chunks := OverlapChunks(lay.w, lay.h, r);
    Index(InsertCells(ix.grid, chunks, e), ix.comps[e := chunks],
      if lay.activeArea.Overlaps(r) then ix.active + {e} else ix.active)
  }

  /** remove_entity_chunks; it fails when the entity had no Active marker. */
  function Unregister(ix: Index, e: Entity): Outcome
    requires e in ix.comps
  {
    Outcome(Index(RemoveCells(ix.grid, ix.comps[e], e), ix.comps[e := []], ix.active - {e}), e in ix.active)
  }

  /** One entity of the insert join: registered if alive with a rectangle. */
  function InsertStep(prev: Index, lay: Layout, e: Entity, alive: set<Entity>, rects: map<Entity, Rect>): Index {
    if e in alive && e in rects then Register(prev, lay, e, rects[e]) else prev
  }

  /** The insert join over the entities in the given order. */
  function InsertPhase(ix: Index, lay: Layout, es: seq<Entity>, alive: set<Entity>, rects: map<Entity, Rect>): Index
  {
    if es == [] then ix
    else InsertStep(InsertPhase(ix, lay, es[..|es| - 1], alive, rects), lay, es[|es| - 1], alive, rects)
  }

  /**
   * One entity of the modify join: an alive entity with a membership list and
   * a rectangle is removed, then inserted again.
   */
  function ModifyStep(prev: Outcome, lay: Layout, e: Entity, alive: set<Entity>, rects: map<Entity, Rect>): Outcome {
    if !prev.ok then prev
    else if e in alive && e in prev.index.comps && e in rects then
      var removed := Unregister(prev.index, e);
      if !removed.ok then removed else Outcome(Register(removed.index, lay, e, rects[e]), true)
    else prev
  }

  /** The modify join over the entities in the given order; it stops at the first failure. */
  function ModifyPhase(ix: Index, lay: Layout, es: seq<Entity>, alive: set<Entity>, rects: map<Entity, Rect>): Outcome
  {
    if es == [] then Outcome(ix, true)
    else ModifyStep(ModifyPhase(ix, lay, es[..|es| - 1], alive, rects), lay, es[|es| - 1], alive, rects)
  }

  /** One entity of the remove join: an alive entity with a membership list is removed. */
  function RemoveStep(prev: Outcome, e: Entity, alive: set<Entity>): Outcome {
    if !prev.ok then prev
    else if e in alive && e in prev.index.comps then Unregister(prev.index, e)
    else prev
  }

  /** The remove join over the entities in the given order; it stops at the first failure. */
  function RemovePhase(ix: Index, es: seq<Entity>, alive: set<Entity>): Outcome
  {
    if es == [] then Outcome(ix, true)
    else RemoveStep(RemovePhase(ix, es[..|es| - 1], alive), es[|es| - 1], alive)
  }

  /** update_active_entities: Active is rebuilt from the scanned cells, which lose their dead entries. */
  function Recompute(ix: Index, lay: Layout, alive: set<Entity>): Index {
    var chunks := OverlapChunks(lay.w, lay.h, lay.activeArea);
    Index(PurgeCells(ix.grid, chunks, alive), ix.comps, ScannedAlive(ix.grid, chunks, alive))
  }

  /**
   * ChunkSystem::run after the readers are drained: inserts, then modifies,
   * then removes, each in the given order, then the recompute when the active
   * rectangle was dirty.
   */
  function Tick(ix: Index, lay: Layout, ins: seq<Entity>, mods: seq<Entity>, rems: seq<Entity>,
                alive: set<Entity>, rects: map<Entity, Rect>, recompute: bool): Outcome
  {
    var afterInsert := InsertPhase(ix, lay, ins, alive, rects);
    var afterModify := ModifyPhase(afterInsert, lay, mods, alive, rects);
    if !afterModify.ok then afterModify
    else
      var afterRemove := RemovePhase(afterModify.index, rems, alive);
      if !afterRemove.ok || !recompute then afterRemove
      else Outcome(Recompute(afterRemove.index, lay, alive), true)
  }

  lemma InsertPhaseSnoc(ix: Index, lay: Layout, es: seq<Entity>, i: nat, alive: set<Entity>, rects: map<Entity, Rect>)
    requires i < |es|
    ensures InsertPhase(ix, lay, es[..i + 1], alive, rects)
      == InsertStep(InsertPhase(ix, lay, es[..i], alive, rects), lay, es[i], alive, rects)
  {
    assert es[..i + 1][..i] == es[..i];
  }

  lemma ModifyPhaseSnoc(ix: Index, lay: Layout, es: seq<Entity>, i: nat, alive: set<Entity>, rects: map<Entity, Rect>)
    requires i < |es|
    ensures ModifyPhase(ix, lay, es[..i + 1], alive, rects)
      == ModifyStep(ModifyPhase(ix, lay, es[..i], alive, rects), lay, es[i], alive, rects)
  {
    assert es[..i + 1][..i] == es[..i];
  }

  lemma RemovePhaseSnoc(ix: Index, es: seq<Entity>, i: nat, alive: set<Entity>)
    requires i < |es|
    ensures RemovePhase(ix, es[..i + 1], alive) == RemoveStep(RemovePhase(ix, es[..i], alive), es[i], alive)
  {
    assert es[..i + 1][..i] == es[..i];
  }

  /** The state update_entity_chunks leaves is the remove-then-insert of the tick. */
  lemma ReregisterIs(ix: Index, lay: Layout, e: Entity, r: Rect,
                     grid: Grid, comps: map<Entity, seq<Chunk>>, active: set<Entity>)
    requires e in ix.comps && e in ix.active
    requires grid == InsertCells(RemoveCells(ix.grid, ix.comps[e], e), OverlapChunks(lay.w, lay.h, r), e)
    requires comps == ix.comps[e := OverlapChunks(lay.w, lay.h, r)]
    requires active == if lay.activeArea.Overlaps(r) then ix.active - {e} + {e} else ix.active - {e}
    ensures Unregister(ix, e).ok
    ensures Index(grid, comps, active) == Register(Unregister(ix, e).index, lay, e, r)
  {
  }

  // --- failures are final ---

  lemma {:induction false} ModifyPhaseFailureSticks(ix: Index, lay: Layout, es: seq<Entity>, k: nat,
                                                     alive: set<Entity>, rects: map<Entity, Rect>)
    requires k <= |es| && !ModifyPhase(ix, lay, es[..k], alive, rects).ok
    ensures !ModifyPhase(ix, lay, es, alive, rects).ok
    decreases |es| - k
  {
    if k < |es| {
      assert es[..k + 1][..k] == es[..k];
      ModifyPhaseFailureSticks(ix, lay, es, k + 1, alive, rects);
    } else {
      assert es[..k] == es;
    }
  }

  lemma {:induction false} RemovePhaseFailureSticks(ix: Index, es: seq<Entity>, k: nat, alive: set<Entity>)
    requires k <= |es| && !RemovePhase(ix, es[..k], alive).ok
    ensures !RemovePhase(ix, es, alive).ok
    decreases |es| - k
  {
    if k < |es| {
      assert es[..k + 1][..k] == es[..k];
      RemovePhaseFailureSticks(ix, es, k + 1, alive);
    } else {
      assert es[..k] == es;
    }
  }

  // ---------------------------------------------------------------------
  // The chunk system
  // ---------------------------------------------------------------------

  class ChunkSystem {
    const width: nat
    const height: nat
    const cells: array2<seq<Entity>>
    const chunksRect: Rect
    var dirtyInsert: set<Entity>
    var dirtyModify: set<Entity>
    var dirtyRemove: set<Entity>
    var insertReader: Option<nat>
    var modifyReader: Option<nat>
    var removeReader: Option<nat>

    ghost predicate Valid() {
      cells.Length0 == width && cells.Length1 == height && chunksRect == BoundsRect(width, height)
    }

    /** The cell contents as a value. */
    ghost function Grid(): (g: Grid)
      requires Valid()
      reads cells
    {
      seq(width, x requires 0 <= x < width reads cells =>
        seq(height, y requires 0 <= y < height reads cells => cells[x, y]))
    }

    /** The cells hold exactly the lists of `g`. */
    ghost predicate CellsMatch(g: Grid)
      requires Valid()
      reads cells
    {
      Shaped(g, width, height) && forall x: nat, y: nat | x < width && y < height :: cells[x, y] == g[x][y]
    }

    /** The value view agrees with the array, cell by cell. */
    lemma GridCells()
      requires Valid()
      ensures Shaped(Grid(), width, height)
      ensures forall x, y :: 0 <= x < width && 0 <= y < height ==> Grid()[x][y] == cells[x, y]
    {
    }

    lemma MatchIsGrid(g: Grid)
      requires Valid()
      ensures CellsMatch(g) <==> Grid() == g
    {
      if CellsMatch(g) {
        GridEq(Grid(), g);
      }
    }

    /** The maintained state, read from the cells and the world's storages. */
    ghost function Abs(world: World): Index
      requires Valid()
      reads cells, world
    {
      Index(Grid(), world.chunkComps, world.active)
    }

    /** The three rectangle-event readers exist (set up). */
    predicate Tracking()
      reads this
    {
      insertReader.Some? && modifyReader.Some? && removeReader.Some?
    }

    /** No reader is ahead of the log it reads. */
    ghost predicate ReadersWithin(world: World)
      reads this, world
    {
      (insertReader.Some? ==> insertReader.value <= |world.inserted|)
      && (modifyReader.Some? ==> modifyReader.value <= |world.modified|)
      && (removeReader.Some? ==> removeReader.value <= |world.removed|)
    }

    /** ChunkSystem::new: empty cells, bounds of `width` by `height` cells, no readers yet. */
    constructor (width: nat, height: nat)
      ensures Valid() && fresh(cells)
      ensures this.width == width && this.height == height
      ensures chunksRect == New(0.0, 0.0, ChunkSize * width, ChunkSize * height)
      ensures Grid() == EmptyGrid(width, height)
      ensures dirtyInsert == {} && dirtyModify == {} && dirtyRemove == {}
      ensures insertReader == None && modifyReader == None && removeReader == None
    {
      this.width := width;
      this.height := height;
      cells := new seq<Entity>[width, height]((x, y) => []);
      chunksRect := New(0.0, 0.0, ChunkSize * width, ChunkSize * height);
      dirtyInsert, dirtyModify, dirtyRemove := {}, {}, {};
      insertReader, modifyReader, removeReader := None, None, None;
      new;
      GridEq(Grid(), EmptyGrid(width, height));
    }

    /** setup: each reader starts at the current end of its log. */
    method Setup(world: World)
      modifies this`insertReader, this`modifyReader, this`removeReader
      ensures insertReader == Some(|world.inserted|) && modifyReader == Some(|world.modified|)
      ensures removeReader == Some(|world.removed|)
      ensures Tracking() && ReadersWithin(world)
    {
      insertReader := Some(|world.inserted|);
      modifyReader := Some(|world.modified|);
      removeReader := Some(|world.removed|);
    }

    /**
     * get_chunks_overlap_rect: starting from the cell under the rectangle's
     * corner, extend right along the row while cells overlap, then go down a
     * row and start over from the first column.
     */
    method GetChunksOverlapRect(r: Rect) returns (chunks: seq<Chunk>)
      requires Valid()
      ensures chunks == OverlapChunks(width, height, r)
    {
      chunks := [];
      if chunksRect.Overlaps(r) {
        var x := StartIndex(r.pos.x);
        var y := StartIndex(r.pos.y);
        ChunkContainsIff(width, height, r, x, y);
        if ChunkContains(width, height, r, x, y) {
          chunks := ScanFrom(r, x, y);
        }
      } else {
        OverlapChunksOutsideBounds(width, height, r);
      }
    }

    /**
     * The search proper, from a first cell that overlaps: along the row while
     * the next cell overlaps, then back to the first column of the next row.
     */
    method ScanFrom(r: Rect, x0: nat, y0: nat) returns (chunks: seq<Chunk>)
      requires x0 == StartIndex(r.pos.x) && y0 == StartIndex(r.pos.y)
      requires ChunkContains(width, height, r, x0, y0)
      ensures chunks == Block(x0, EndIndex(r.Right(), width), y0, EndIndex(r.Bottom(), height))
    {
      ghost var x1, y1 := EndIndex(r.Right(), width), EndIndex(r.Bottom(), height);
      ChunkContainsIff(width, height, r, x0, y0);
      var x, y := x0, y0;
      chunks := [(x, y)];
      assert chunks == Block(x0, x1, y0, y) + Row(x0, x + 1, y);
      while true
        invariant x0 <= x < x1 && y0 <= y < y1
        invariant chunks == Block(x0, x1, y0, y) + Row(x0, x + 1, y)
        decreases height - y, width - x
      {
        ChunkContainsIff(width, height, r, x + 1, y);
        if ChunkContains(width, height, r, x + 1, y) {
          x := x + 1;
          RowExtend(x0, x, y);
          chunks := chunks + [(x, y)];
          continue;
        } else {
          assert x + 1 == x1;
          x := x0;
        }
        ChunkContainsIff(width, height, r, x, y + 1);
        if ChunkContains(width, height, r, x, y + 1) {
          NextRow(x0, x1, y0, y);
          y := y + 1;
          chunks := chunks + [(x, y)];
        } else {
          break;
        }
      }
    }

    /**
     * insert_entity_chunks: appends `e` to every cell its rectangle overlaps,
     * extends its membership list by those cells, and gives it the Active
     * marker iff the active rectangle overlaps its rectangle.
     */
    method InsertEntityChunks(e: Entity, comp: seq<Chunk>, r: Rect, world: World, activeRect: ActiveChunksRect)
      returns (newComp: seq<Chunk>)
      requires Valid()
      modifies cells, world`active
      ensures newComp == comp + OverlapChunks(width, height, r)
      ensures Grid() == InsertCells(old(Grid()), OverlapChunks(width, height, r), e)
      ensures world.active == if activeRect.rect.Overlaps(r) then old(world.active) + {e} else old(world.active)
    {
      var chunks := GetChunksOverlapRect(r);
      OverlapChunksSound(width, height, r);
      OverlapChunksOrdered(width, height, r);
      for i := 0 to |chunks|
        modifies cells
        invariant forall x: nat, y: nat | x < width && y < height ::
          cells[x, y] == if (x, y) in chunks[..i] then old(cells[x, y]) + [e] else old(cells[x, y])
      {
        var c := chunks[i];
        assert c !in chunks[..i];
        cells[c.0, c.1] := cells[c.0, c.1] + [e];
        assert chunks[..i + 1] == chunks[..i] + [c];
      }
      assert chunks[..|chunks|] == chunks;
      GridEq(Grid(), InsertCells(old(Grid()), chunks, e));
      newComp := comp + chunks;
      if activeRect.rect.Overlaps(r) {
        world.active := world.active + {e};
      }
    }

    /**
     * remove_entity_chunks: drops `e` from every cell of its membership list,
     * empties the list and removes its Active marker; the `unwrap` on that
     * removal fails when `e` had no marker.
     */
    method RemoveEntityChunks(e: Entity, comp: seq<Chunk>, world: World) returns (newComp: seq<Chunk>, ok: bool)
      requires Valid()
      requires forall c :: c in comp ==> c.0 < width && c.1 < height
      modifies cells, world`active
      ensures newComp == [] && ok == (e in old(world.active))
      ensures Grid() == RemoveCells(old(Grid()), comp, e)
      ensures world.active == old(world.active) - {e}
    {
      for i := 0 to |comp|
        modifies cells
        invariant forall x: nat, y: nat | x < width && y < height ::
          cells[x, y] == if (x, y) in comp[..i] then Retain(old(cells[x, y]), {e}) else old(cells[x, y])
      {
        var c := comp[i];
        if c in comp[..i] {
          RetainTwice(old(cells[c.0, c.1]), {e}, {e});
          assert {e} + {e} == {e};
        }
        cells[c.0, c.1] := Retain(cells[c.0, c.1], {e});
        assert comp[..i + 1] == comp[..i] + [c];
      }
      assert comp[..|comp|] == comp;
      GridEq(Grid(), RemoveCells(old(Grid()), comp, e));
      newComp := [];
      ok := e in world.active;
      world.active := world.active - {e};
    }

    /** update_entity_chunks: remove, then insert with the emptied list. */
    method UpdateEntityChunks(e: Entity, comp: seq<Chunk>, r: Rect, world: World, activeRect: ActiveChunksRect)
      returns (newComp: seq<Chunk>, ok: bool)
      requires Valid()
      requires forall c :: c in comp ==> c.0 < width && c.1 < height
      modifies cells, world`active
      ensures ok == (e in old(world.active))
      ensures ok ==> (newComp == OverlapChunks(width, height, r)
        && Grid() == InsertCells(RemoveCells(old(Grid()), comp, e), OverlapChunks(width, height, r), e)
        && world.active == if activeRect.rect.Overlaps(r) then old(world.active) - {e} + {e} else old(world.active) - {e})
    {
      newComp, ok := RemoveEntityChunks(e, comp, world);
      if !ok {
        return;
      }
      newComp := InsertEntityChunks(e, newComp, r, world, activeRect);
    }

    /**
     * update_active_entities: clears every Active marker, then scans the
     * cells overlapping the active rectangle, marking the alive entities
     * listed there and dropping the dead ones from those cells.
     */
    method UpdateActiveEntities(world: World, activeRect: ActiveChunksRect)
      requires Valid()
      modifies cells, world`active
      ensures Grid() == PurgeCells(old(Grid()), OverlapChunks(width, height, activeRect.rect), world.alive)
      ensures world.active == ScannedAlive(old(Grid()), OverlapChunks(width, height, activeRect.rect), world.alive)
    {
      ghost var g0 := Grid();
      world.active := {};
      var chunks := GetChunksOverlapRect(activeRect.rect);
      OverlapChunksSound(width, height, activeRect.rect);
      OverlapChunksOrdered(width, height, activeRect.rect);
      assert chunks[..0] == [];
      PurgeNothing(g0, world.alive);
      MatchIsGrid(g0);
      for i := 0 to |chunks|
        invariant CellsMatch(PurgeCells(g0, chunks[..i], world.alive))
        invariant world.active == ScannedAlive(g0, chunks[..i], world.alive)
      {
        ScanChunk(g0, chunks, i, world);
      }
      assert chunks[..|chunks|] == chunks;
      MatchIsGrid(PurgeCells(g0, chunks, world.alive));
    }

    /** The insert join of run, over the dirty entities in the given order. */
    method RunInserts(es: seq<Entity>, world: World, activeRect: ActiveChunksRect)
      requires Valid() && CompsInGrid(world.chunkComps, width, height)
      modifies cells, world`chunkComps, world`active
      ensures CompsInGrid(world.chunkComps, width, height)
      ensures Abs(world) == InsertPhase(old(Abs(world)), Layout(width, height, activeRect.rect), es, world.alive, world.rects)
    {
      ghost var lay := Layout(width, height, activeRect.rect);
      ghost var ix0 := Abs(world);
      for i := 0 to |es|
        invariant CompsInGrid(world.chunkComps, width, height)
        invariant Abs(world) == InsertPhase(ix0, lay, es[..i], world.alive, world.rects)
      {
        InsertPhaseSnoc(ix0, lay, es, i, world.alive, world.rects);
        InsertOne(es[i], world, activeRect);
      }
      assert es[..|es|] == es;
    }

    /** One entity of the insert join: registered with a fresh membership list if alive with a rectangle. */
    method InsertOne(e: Entity, world: World, activeRect: ActiveChunksRect)
      requires Valid() && CompsInGrid(world.chunkComps, width, height)
      modifies cells, world`chunkComps, world`active
      ensures CompsInGrid(world.chunkComps, width, height)
      ensures Abs(world) == InsertStep(old(Abs(world)), Layout(width, height, activeRect.rect), e, world.alive, world.rects)
    {
      if e in world.alive && e in world.rects {
        OverlapChunksSound(width, height, world.rects[e]);
        var comp := InsertEntityChunks(e, [], world.rects[e], world, activeRect);
        assert comp == OverlapChunks(width, height, world.rects[e]);
        CompsInGridUpdate(world.chunkComps, width, height, e, comp);
        world.chunkComps := world.chunkComps[e := comp];
      }
    }

    /** The modify join of run: each entity is removed and inserted again. */
    method RunModifies(es: seq<Entity>, world: World, activeRect: ActiveChunksRect) returns (ok: bool)
      requires Valid() && CompsInGrid(world.chunkComps, width, height)
      modifies cells, world`chunkComps, world`active
      ensures ok == ModifyPhase(old(Abs(world)), Layout(width, height, activeRect.rect), es, world.alive, world.rects).ok
      ensures ok ==> Abs(world) == ModifyPhase(old(Abs(world)), Layout(width, height, activeRect.rect), es, world.alive, world.rects).index
      ensures ok ==> CompsInGrid(world.chunkComps, width, height)
    {
      ghost var lay := Layout(width, height, activeRect.rect);
      ghost var ix0 := Abs(world);
      for i := 0 to |es|
        invariant CompsInGrid(world.chunkComps, width, height)
        invariant ModifyPhase(ix0, lay, es[..i], world.alive, world.rects) == Outcome(Abs(world), true)
      {
        ModifyPhaseSnoc(ix0, lay, es, i, world.alive, world.rects);
        ok := ModifyOne(es[i], world, activeRect);
        if !ok {
          ModifyPhaseFailureSticks(ix0, lay, es, i + 1, world.alive, world.rects);
          return;
        }
      }
      assert es[..|es|] == es;
      ok := true;
    }

    /** One entity of the modify join. */
    method ModifyOne(e: Entity, world: World, activeRect: ActiveChunksRect) returns (ok: bool)
      requires Valid() && CompsInGrid(world.chunkComps, width, height)
      modifies cells, world`chunkComps, world`active
      ensures ok == ModifyStep(Outcome(old(Abs(world)), true), Layout(width, height, activeRect.rect), e, world.alive, world.rects).ok
      ensures ok ==> Abs(world) == ModifyStep(Outcome(old(Abs(world)), true), Layout(width, height, activeRect.rect), e, world.alive, world.rects).index
      ensures ok ==> CompsInGrid(world.chunkComps, width, height)
    {
      ok := true;
      if e in world.alive && e in world.chunkComps && e in world.rects {
        ghost var lay := Layout(width, height, activeRect.rect);
        ghost var removed := Unregister(Abs(world), e);
        var r := world.rects[e];
        var comp;
        comp, ok := UpdateEntityChunks(e, world.chunkComps[e], r, world, activeRect);
        if ok {
          OverlapChunksSound(width, height, r);
          CompsInGridUpdate(world.chunkComps, width, height, e, comp);
          world.chunkComps := world.chunkComps[e := comp];
          ReregisterIs(old(Abs(world)), lay, e, r, Grid(), world.chunkComps, world.active);
        }
      }
    }

    /** The remove join of run. */
    method RunRemoves(es: seq<Entity>, world: World) returns (ok: bool)
      requires Valid() && CompsInGrid(world.chunkComps, width, height)
      modifies cells, world`chunkComps, world`active
      ensures ok == RemovePhase(old(Abs(world)), es, world.alive).ok
      ensures ok ==> Abs(world) == RemovePhase(old(Abs(world)), es, world.alive).index
      ensures ok ==> CompsInGrid(world.chunkComps, width, height)
    {
      ghost var ix0 := Abs(world);
      for i := 0 to |es|
        invariant CompsInGrid(world.chunkComps, width, height)
        invariant RemovePhase(ix0, es[..i], world.alive) == Outcome(Abs(world), true)
      {
        RemovePhaseSnoc(ix0, es, i, world.alive);
        ok := RemoveOne(es[i], world);
        if !ok {
          RemovePhaseFailureSticks(ix0, es, i + 1, world.alive);
          return;
        }
      }
      assert es[..|es|] == es;
      ok := true;
    }

    /** One entity of the remove join. */
    method RemoveOne(e: Entity, world: World) returns (ok: bool)
      requires Valid() && CompsInGrid(world.chunkComps, width, height)
      modifies cells, world`chunkComps, world`active
      ensures ok == RemoveStep(Outcome(old(Abs(world)), true), e, world.alive).ok
      ensures ok ==> Abs(world) == RemoveStep(Outcome(old(Abs(world)), true), e, world.alive).index
      ensures ok ==> CompsInGrid(world.chunkComps, width, height)
    {
      ok := true;
      if e in world.alive && e in world.chunkComps {
        var comp;
        comp, ok := RemoveEntityChunks(e, world.chunkComps[e], world);
        if ok {
          CompsInGridUpdate(world.chunkComps, width, height, e, comp);
          world.chunkComps := world.chunkComps[e := comp];
        }
      }
    }

    /**
     * run: drains the three rectangle-event readers into the dirty sets
     * (an `unwrap` fails before setup), processes inserts, modifies and
     * removes in increasing id order, then recomputes the Active markers iff
     * the active rectangle was dirty.
     */
    method Run(world: World, activeRect: ActiveChunksRect) returns (ok: bool)
      requires Valid() && ReadersWithin(world) && CompsInGrid(world.chunkComps, width, height)
      modifies this`dirtyInsert, this`dirtyModify, this`dirtyRemove
      modifies this`insertReader, this`modifyReader, this`removeReader
      modifies cells, world`chunkComps, world`active, activeRect`dirty
      ensures ReadersWithin(world)
      ensures !old(Tracking()) ==> !ok
      ensures old(Tracking()) ==>
        dirtyInsert == EventsSince(world.inserted, old(insertReader.value))
        && dirtyModify == EventsSince(world.modified, old(modifyReader.value))
        && dirtyRemove == EventsSince(world.removed, old(removeReader.value))
        && insertReader == Some(|world.inserted|) && modifyReader == Some(|world.modified|)
        && removeReader == Some(|world.removed|)
      ensures old(Tracking()) ==>
        ok == Tick(old(Abs(world)), Layout(width, height, activeRect.rect),
                   Ascending(dirtyInsert), Ascending(dirtyModify), Ascending(dirtyRemove),
                   world.alive, world.rects, old(activeRect.dirty)).ok
      ensures ok ==>
        Abs(world) == Tick(old(Abs(world)), Layout(width, height, activeRect.rect),
                           Ascending(dirtyInsert), Ascending(dirtyModify), Ascending(dirtyRemove),
                           world.alive, world.rects, old(activeRect.dirty)).index
        && CompsInGrid(world.chunkComps, width, height) && !activeRect.dirty
    {
      var tracking := DrainReaders(world);
      if !tracking {
        return false;
      }
      ok := ProcessDirty(world, activeRect);
    }

    /**
     * The start of run: the dirty sets are cleared and refilled from the
     * readers, each of which moves to the end of its log; the first missing
     * reader stops the drain.
     */
    method DrainReaders(world: World) returns (tracking: bool)
      requires ReadersWithin(world)
      modifies this`dirtyInsert, this`dirtyModify, this`dirtyRemove
      modifies this`insertReader, this`modifyReader, this`removeReader
      ensures tracking == old(Tracking()) && ReadersWithin(world)
      ensures tracking ==>
        dirtyInsert == EventsSince(world.inserted, old(insertReader.value))
        && dirtyModify == EventsSince(world.modified, old(modifyReader.value))
        && dirtyRemove == EventsSince(world.removed, old(removeReader.value))
        && insertReader == Some(|world.inserted|) && modifyReader == Some(|world.modified|)
        && removeReader == Some(|world.removed|)
    {
      dirtyInsert, dirtyModify, dirtyRemove := {}, {}, {};
      if insertReader.None? {
        return false;
      }
      dirtyInsert := EventsSince(world.inserted, insertReader.value);
      insertReader := Some(|world.inserted|);
      if modifyReader.None? {
        return false;
      }
      dirtyModify := EventsSince(world.modified, modifyReader.value);
      modifyReader := Some(|world.modified|);
      if removeReader.None? {
        return false;
      }
      dirtyRemove := EventsSince(world.removed, removeReader.value);
      removeReader := Some(|world.removed|);
      tracking := true;
    }

    /** The rest of run: the three joins over the dirty sets, then the recompute if dirty. */
    method ProcessDirty(world: World, activeRect: ActiveChunksRect) returns (ok: bool)
      requires Valid() && CompsInGrid(world.chunkComps, width, height)
      modifies cells, world`chunkComps, world`active, activeRect`dirty
      ensures ok == Tick(old(Abs(world)), Layout(width, height, activeRect.rect),
                         Ascending(dirtyInsert), Ascending(dirtyModify), Ascending(dirtyRemove),
                         world.alive, world.rects, old(activeRect.dirty)).ok
      ensures ok ==>
        Abs(world) == Tick(old(Abs(world)), Layout(width, height, activeRect.rect),
                           Ascending(dirtyInsert), Ascending(dirtyModify), Ascending(dirtyRemove),
                           world.alive, world.rects, old(activeRect.dirty)).index
        && CompsInGrid(world.chunkComps, width, height) && !activeRect.dirty
    {
      var order := EnumerateAscending(dirtyInsert);
      RunInserts(order, world, activeRect);
      order := EnumerateAscending(dirtyModify);
      ok := RunModifies(order, world, activeRect);
      if !ok {
        return;
      }
      order := EnumerateAscending(dirtyRemove);
      ok := RunRemoves(order, world);
      if !ok {
        return;
      }
      var wasDirty := activeRect.UpdateDirty();
      if wasDirty {
        UpdateActiveEntities(world, activeRect);
      }
    }

    /** Step `i` of update_active_entities' scan, which purges and marks one more cell. */
    method ScanChunk(ghost g0: Grid, chunks: seq<Chunk>, i: nat, world: World)
      requires Valid() && i < |chunks|
      requires forall c :: c in chunks ==> c.0 < width && c.1 < height
      requires forall j, k :: 0 <= j < k < |chunks| ==> chunks[j] != chunks[k]
      requires Shaped(g0, width, height)
      requires CellsMatch(PurgeCells(g0, chunks[..i], world.alive))
      requires world.active == ScannedAlive(g0, chunks[..i], world.alive)
      modifies cells, world`active
      ensures CellsMatch(PurgeCells(g0, chunks[..i + 1], world.alive))
      ensures world.active == ScannedAlive(g0, chunks[..i + 1], world.alive)
    {
      var c := chunks[i];
      assert c !in chunks[..i];
      PurgeCellsStep(g0, chunks, i, world.alive);
      ghost var before := PurgeCells(g0, chunks[..i], world.alive);
      ghost var after := PurgeCells(g0, chunks[..i + 1], world.alive);
      assert cells[c.0, c.1] == g0[c.0][c.1];
      ScanCell(c, world);
      forall x: nat, y: nat | x < width && y < height
        ensures cells[x, y] == after[x][y]
      {
        if (x, y) != c {
          assert after[x][y] == before[x][y];
        }
      }
      ScannedAliveStep(g0, chunks, i, world.alive);
    }

    /** One cell of update_active_entities, iterating over a copy of its list. */
    method ScanCell(c: Chunk, world: World)
      requires Valid() && c.0 < width && c.1 < height
      modifies cells, world`active
      ensures cells[c.0, c.1] == Retain(old(cells[c.0, c.1]), Dead(old(cells[c.0, c.1]), world.alive))
      ensures forall x: nat, y: nat | x < width && y < height && (x, y) != c :: cells[x, y] == old(cells[x, y])
      ensures world.active == old(world.active) + (set e | e in old(cells[c.0, c.1]) && e in world.alive)
    {
      var snapshot := cells[c.0, c.1];
      RetainAbsent(snapshot, Dead(snapshot[..0], world.alive));
      for j := 0 to |snapshot|
        modifies cells, world`active
        invariant cells[c.0, c.1] == Retain(snapshot, Dead(snapshot[..j], world.alive))
        invariant forall x: nat, y: nat | x < width && y < height && (x, y) != c :: cells[x, y] == old(cells[x, y])
        invariant world.active == old(world.active) + (set e | e in snapshot[..j] && e in world.alive)
      {
        var ent := snapshot[j];
        assert snapshot[..j + 1] == snapshot[..j] + [ent];
        if ent in world.alive {
          assert Dead(snapshot[..j + 1], world.alive) == Dead(snapshot[..j], world.alive);
          world.active := world.active + {ent};
        } else {
          RetainTwice(snapshot, Dead(snapshot[..j], world.alive), {ent});
          assert Dead(snapshot[..j + 1], world.alive) == Dead(snapshot[..j], world.alive) + {ent};
          cells[c.0, c.1] := Retain(cells[c.0, c.1], {ent});
        }
      }
      assert snapshot[..|snapshot|] == snapshot;
    }
  }

  lemma PurgeNothing(g: Grid, alive: set<Entity>)
    ensures PurgeCells(g, [], alive) == g
    ensures ScannedAlive(g, [], alive) == {}
  {
    GridEq(PurgeCells(g, [], alive), g);
  }

  /** Purging one more cell, not purged before, changes only that cell. */
  lemma PurgeCellsStep(g: Grid, chunks: seq<Chunk>, i: nat, alive: set<Entity>)
    requires i < |chunks| && chunks[i] !in chunks[..i]
    requires chunks[i].0 < |g| && chunks[i].1 < |g[chunks[i].0]|
    ensures var c := chunks[i]; var before := PurgeCells(g, chunks[..i], alive);
      before[c.0][c.1] == g[c.0][c.1]
      && PurgeCells(g, chunks[..i + 1], alive)
         == before[c.0 := before[c.0][c.1 := Retain(g[c.0][c.1], Dead(g[c.0][c.1], alive))]]
  {
    var c := chunks[i];
    assert chunks[..i + 1] == chunks[..i] + [c];
    var before := PurgeCells(g, chunks[..i], alive);
    var after := before[c.0 := before[c.0][c.1 := Retain(g[c.0][c.1], Dead(g[c.0][c.1], alive))]];
    GridEq(PurgeCells(g, chunks[..i + 1], alive), after);
  }

  /** Scanning one more cell adds its alive entities. */
  lemma ScannedAliveStep(g: Grid, chunks: seq<Chunk>, i: nat, alive: set<Entity>)
    requires i < |chunks|
    ensures ScannedAlive(g, chunks[..i + 1], alive)
      == ScannedAlive(g, chunks[..i], alive) + (set e | e in Cell(g, chunks[i]) && e in alive)
  {
    var pre, post := chunks[..i], chunks[..i + 1];
    forall e | e in ScannedAlive(g, post, alive)
      ensures e in ScannedAlive(g, pre, alive) || e in Cell(g, chunks[i])
    {
      var k :| 0 <= k < |post| && e in Cell(g, post[k]);
      if k < i {
        assert post[k] == pre[k];
      }
    }
    forall e | e in ScannedAlive(g, pre, alive)
      ensures e in ScannedAlive(g, post, alive)
    {
      var k :| 0 <= k < |pre| && e in Cell(g, pre[k]);
      assert post[k] == pre[k];
    }
    forall e | e in Cell(g, chunks[i]) && e in alive
      ensures e in ScannedAlive(g, post, alive)
    {
      assert post[i] == chunks[i];
    }
  }

  // ---------------------------------------------------------------------
  // Properties of a tick
  // ---------------------------------------------------------------------

  /** Registering an entity and removing it again leaves the cells as they were. */
  lemma RegisterThenUnregister(ix: Index, lay: Layout, e: Entity, r: Rect)
    requires forall c :: c in OverlapChunks(lay.w, lay.h, r) ==> e !in Cell(ix.grid, c)
    ensures Unregister(Register(ix, lay, e, r), e).ok <==> (lay.activeArea.Overlaps(r) || e in ix.active)
    ensures Unregister(Register(ix, lay, e, r), e).index == Index(ix.grid, ix.comps[e := []], ix.active - {e})
  {
    var chunks := OverlapChunks(lay.w, lay.h, r);
    var reg := Register(ix, lay, e, r);
    assert reg.comps[e] == chunks && reg.grid == InsertCells(ix.grid, chunks, e);
    InsertThenRemoveRestores(ix.grid, chunks, e);
    assert ix.comps[e := chunks][e := []] == ix.comps[e := []];
  }

  /**
   * The index is coherent: the grid has the configured shape, every
   * registered entity is alive and listed in each cell of its membership
   * list, and only alive entities carry the Active marker.
   */
  ghost predicate Coherent(ix: Index, lay: Layout, alive: set<Entity>) {
    Shaped(ix.grid, lay.w, lay.h)
    && CompsInGrid(ix.comps, lay.w, lay.h)
    && (forall e :: e in ix.comps ==> e in alive)
    && (forall e, c :: e in ix.comps && c in ix.comps[e] ==> e in Cell(ix.grid, c))
    && ix.active <= alive
  }

  lemma CellOfInsert(g: Grid, chunks: seq<Chunk>, e: Entity, c: Chunk)
    ensures Cell(InsertCells(g, chunks, e), c)
      == if c in chunks && c.0 < |g| && c.1 < |g[c.0]| then Cell(g, c) + [e] else Cell(g, c)
  {
  }

  lemma CellOfRemove(g: Grid, chunks: seq<Chunk>, e: Entity, c: Chunk)
    ensures Cell(RemoveCells(g, chunks, e), c)
      == if c in chunks && c.0 < |g| && c.1 < |g[c.0]| then Retain(Cell(g, c), {e}) else Cell(g, c)
  {
  }

  lemma CellOfPurge(g: Grid, chunks: seq<Chunk>, alive: set<Entity>, c: Chunk)
    ensures Cell(PurgeCells(g, chunks, alive), c)
      == if c in chunks && c.0 < |g| && c.1 < |g[c.0]| then Retain(Cell(g, c), Dead(Cell(g, c), alive)) else Cell(g, c)
  {
  }

  lemma RegisterCoherent(ix: Index, lay: Layout, e: Entity, r: Rect, alive: set<Entity>)
    requires Coherent(ix, lay, alive) && e in alive
    ensures Coherent(Register(ix, lay, e, r), lay, alive)
  {
    var chunks := OverlapChunks(lay.w, lay.h, r);
    var ix' := Register(ix, lay, e, r);
    OverlapChunksSound(lay.w, lay.h, r);
    forall e', c | e' in ix'.comps && c in ix'.comps[e']
      ensures e' in Cell(ix'.grid, c)
    {
      CellOfInsert(ix.grid, chunks, e, c);
    }
  }

  lemma UnregisterCoherent(ix: Index, lay: Layout, e: Entity, alive: set<Entity>)
    requires Coherent(ix, lay, alive) && e in ix.comps
    ensures Coherent(Unregister(ix, e).index, lay, alive)
  {
    var ix' := Unregister(ix, e).index;
    forall e', c | e' in ix'.comps && c in ix'.comps[e']
      ensures e' in Cell(ix'.grid, c)
    {
      CellOfRemove(ix.grid, ix.comps[e], e, c);
      RetainMembers(Cell(ix.grid, c), {e});
    }
  }

  lemma RecomputeCoherent(ix: Index, lay: Layout, alive: set<Entity>)
    requires Coherent(ix, lay, alive)
    ensures Coherent(Recompute(ix, lay, alive), lay, alive)
  {
    var chunks := OverlapChunks(lay.w, lay.h, lay.activeArea);
    var ix' := Recompute(ix, lay, alive);
    forall e', c | e' in ix'.comps && c in ix'.comps[e']
      ensures e' in Cell(ix'.grid, c)
    {
      CellOfPurge(ix.grid, chunks, alive, c);
      RetainMembers(Cell(ix.grid, c), Dead(Cell(ix.grid, c), alive));
    }
  }

  lemma {:induction false} InsertPhaseCoherent(ix: Index, lay: Layout, es: seq<Entity>, alive: set<Entity>, rects: map<Entity, Rect>)
    requires Coherent(ix, lay, alive)
    ensures Coherent(InsertPhase(ix, lay, es, alive, rects), lay, alive)
  {
    if es != [] {
      var prev := InsertPhase(ix, lay, es[..|es| - 1], alive, rects);
      InsertPhaseCoherent(ix, lay, es[..|es| - 1], alive, rects);
      var e := es[|es| - 1];
      if e in alive && e in rects {
        RegisterCoherent(prev, lay, e, rects[e], alive);
      }
    }
  }

  lemma {:induction false} ModifyPhaseCoherent(ix: Index, lay: Layout, es: seq<Entity>, alive: set<Entity>, rects: map<Entity, Rect>)
    requires Coherent(ix, lay, alive)
    ensures ModifyPhase(ix, lay, es, alive, rects).ok ==> Coherent(ModifyPhase(ix, lay, es, alive, rects).index, lay, alive)
  {
    if es != [] {
      var prev := ModifyPhase(ix, lay, es[..|es| - 1], alive, rects);
      ModifyPhaseCoherent(ix, lay, es[..|es| - 1], alive, rects);
      var e := es[|es| - 1];
      if prev.ok && e in alive && e in prev.index.comps && e in rects {
        UnregisterCoherent(prev.index, lay, e, alive);
        RegisterCoherent(Unregister(prev.index, e).index, lay, e, rects[e], alive);
      }
    }
  }

  lemma {:induction false} RemovePhaseCoherent(ix: Index, lay: Layout, es: seq<Entity>, alive: set<Entity>)
    requires Coherent(ix, lay, alive)
    ensures RemovePhase(ix, es, alive).ok ==> Coherent(RemovePhase(ix, es, alive).index, lay, alive)
  {
    if es != [] {
      var prev := RemovePhase(ix, es[..|es| - 1], alive);
      RemovePhaseCoherent(ix, lay, es[..|es| - 1], alive);
      var e := es[|es| - 1];
      if prev.ok && e in alive && e in prev.index.comps {
        UnregisterCoherent(prev.index, lay, e, alive);
      }
    }
  }

  /** A successful tick keeps the index coherent. */
  lemma TickPreservesCoherent(ix: Index, lay: Layout, ins: seq<Entity>, mods: seq<Entity>, rems: seq<Entity>,
                              alive: set<Entity>, rects: map<Entity, Rect>, recompute: bool)
    requires Coherent(ix, lay, alive)
    ensures Tick(ix, lay, ins, mods, rems, alive, rects, recompute).ok
      ==> Coherent(Tick(ix, lay, ins, mods, rems, alive, rects, recompute).index, lay, alive)
  {
    var afterInsert := InsertPhase(ix, lay, ins, alive, rects);
    InsertPhaseCoherent(ix, lay, ins, alive, rects);
    var afterModify := ModifyPhase(afterInsert, lay, mods, alive, rects);
    ModifyPhaseCoherent(afterInsert, lay, mods, alive, rects);
    if afterModify.ok {
      RemovePhaseCoherent(afterModify.index, lay, rems, alive);
      var afterRemove := RemovePhase(afterModify.index, rems, alive);
      if afterRemove.ok && recompute {
        RecomputeCoherent(afterRemove.index, lay, alive);
      }
    }
  }

  /**
   * The recompute marks every alive entity registered in a scanned cell,
   * whether or not its own rectangle overlaps the active rectangle.
   */
  lemma RecomputeMarksRegistered(ix: Index, lay: Layout, alive: set<Entity>, e: Entity, c: Chunk)
    requires Coherent(ix, lay, alive)
    requires e in ix.comps && c in ix.comps[e] && c in OverlapChunks(lay.w, lay.h, lay.activeArea)
    ensures e in Recompute(ix, lay, alive).active
  {
    var chunks := OverlapChunks(lay.w, lay.h, lay.activeArea);
    var k :| 0 <= k < |chunks| && chunks[k] == c;
    assert e in Cell(ix.grid, chunks[k]);
  }

  /** Only alive entities listed in a scanned cell are marked. */
  lemma RecomputeMarksOnlyScanned(ix: Index, lay: Layout, alive: set<Entity>, e: Entity)
    requires e in Recompute(ix, lay, alive).active
    ensures e in alive
    ensures exists c :: c in OverlapChunks(lay.w, lay.h, lay.activeArea) && e in Cell(ix.grid, c)
  {
    var chunks := OverlapChunks(lay.w, lay.h, lay.activeArea);
    var k :| 0 <= k < |chunks| && e in Cell(ix.grid, chunks[k]);
    assert chunks[k] in chunks;
  }

  /** Each dirty entity is processed exactly once per tick, however often it was flagged. */
  lemma DirtyEntitiesOnce(log: seq<Entity>, from: nat)
    requires from <= |log|
    ensures forall e :: e in Ascending(EventsSince(log, from)) <==> exists i :: from <= i < |log| && log[i] == e
    ensures var order := Ascending(EventsSince(log, from));
      forall i, j :: 0 <= i < j < |order| ==> order[i] != order[j]
  {
    AscendingSpec(EventsSince(log, from));
  }
}
