/**
 * The board set-up of the manager's `didStartup`: nine fixed walls on the
 * cells with two odd coordinates, seventeen movable walls dealt at random
 * onto the sixteen remaining interior cells with the leftover one floating
 * at (0, 2), then the treasures and one ghost per player on given cells.
 */
module Startup {
  import opened Pieces
  import opened Walls
  import opened Util
  import opened Boards

  const FIXED_COUNT := 9
  const STRAIGHT_COUNT := 5
  const L_COUNT := 6
  const T_COUNT := 6
  /** Number of movable walls: one per non-fixed interior cell plus the floating wall. */
  const POOL_COUNT := 17
  /** Wall ids run from 1 to WALL_COUNT. */
  const WALL_COUNT := 26

  /** The fixed walls in the order they are added; only the centre's orientation is chosen at random. */
  function FixedWalls(centre: Direction): seq<Wall> {
    [ WallPiece(1, 1, 1, LShape, East), WallPiece(2, 3, 1, TShape, South), WallPiece(3, 5, 1, LShape, South),
      WallPiece(4, 1, 3, TShape, East), WallPiece(5, 3, 3, Straight, centre), WallPiece(6, 5, 3, TShape, West),
      WallPiece(7, 1, 5, LShape, North), WallPiece(8, 3, 5, TShape, North), WallPiece(9, 5, 5, LShape, West) ]
  }

  /** The cells skipped by the dealing loop: both coordinates in {1, 3, 5}. */
  predicate IsFixedCell(x: int, y: int) {
    (x == 1 || x == 3 || x == 5) && (y == 1 || y == 3 || y == 5)
  }

  /** An interior cell that receives a dealt wall. */
  predicate IsDealtCell(x: int, y: int) {
    IsInterior(x, y) && !IsFixedCell(x, y)
  }

  /** The shape of a movable wall by id: the pool is built straight, then L, then T walls. */
  function PoolShape(id: int): Shape {
    if id <= FIXED_COUNT + STRAIGHT_COUNT then Straight
    else if id <= FIXED_COUNT + STRAIGHT_COUNT + L_COUNT then LShape
    else TShape
  }

  /** `ids` is exactly the wall ids 1 to WALL_COUNT. */
  ghost predicate AllWallIds(ids: set<int>) {
    forall id :: id in ids <==> 1 <= id <= WALL_COUNT
  }

  /** `p` comes before column `x` of row `y` in the row-major order of the dealing loops. */
  predicate Precedes(p: Point, x: int, y: int) {
    p.y < y || (p.y == y && p.x < x)
  }

  /** The number of dealt cells of the rows above `y`. */
  function RowStart(y: int): int {
    if y <= 1 then 0 else if y == 2 then 2 else if y == 3 then 7 else if y == 4 then 9 else if y == 5 then 14 else 16
  }

  /** The number of dealt cells before column `x` of row `y`. */
  function Before(x: int, y: int): int {
    RowStart(y) + if y % 2 == 1 then (if x <= 2 then 0 else if x <= 4 then 1 else 2) else x - 1
  }

  /** A movable wall as the pool makes it: its id's shape, not yet on the board. */
  predicate Fresh(w: Wall) {
    w.unique_id > FIXED_COUNT && w.shape == PoolShape(w.unique_id) && w.x == 0 && w.y == 0
  }

  /** A movable wall dealt onto the board. */
  predicate Dealt(w: Wall) {
    w.unique_id > FIXED_COUNT && w.shape == PoolShape(w.unique_id) && IsDealtCell(w.x, w.y)
  }

  /** The key sets of the placed walls and of the remaining pool split the wall ids. */
  ghost predicate SplitIds(walls: seq<Wall>, pool: seq<Wall>) {
    UniqueIds(walls) && UniqueIds(pool) && Ids(walls) !! Ids(pool) && AllWallIds(Ids(walls) + Ids(pool))
  }

  /** The state of the dealing loop before column `x` of row `y`. */
  ghost predicate Dealing(walls: seq<Wall>, pool: seq<Wall>, centre: Direction, x: int, y: int) {
    && 1 <= x <= 6 && 1 <= y <= 6
    && |walls| == FIXED_COUNT + Before(x, y) && |pool| == POOL_COUNT - Before(x, y)
    && walls[..FIXED_COUNT] == FixedWalls(centre)
    && (forall i :: FIXED_COUNT <= i < |walls| ==> Dealt(walls[i]) && Precedes(PositionOf(walls[i]), x, y))
    && (forall px, py :: IsDealtCell(px, py) && Precedes(Point(px, py), x, y) ==> Point(px, py) in Cells(walls))
    && DistinctCells(walls)
    && SplitIds(walls, pool)
    && (forall k :: 0 <= k < |pool| ==> Fresh(pool[k]))
  }

  /**
   * The maze as set up: a wall on every interior cell, the fixed walls first,
   * the movable walls with their id's shape on the other cells, and the
   * leftover movable wall floating at (0, 2); every wall id is used once.
   */
  ghost predicate Laid(walls: seq<Wall>, floating: Wall) {
    && Tiled(walls) && |walls| == FIXED_COUNT + 16
    && walls[..FIXED_COUNT] == FixedWalls(walls[4].orientation)
    && (walls[4].orientation == North || walls[4].orientation == East)
    && (forall i :: FIXED_COUNT <= i < |walls| ==> Dealt(walls[i]))
    && UniqueIds(walls) && floating.unique_id !in Ids(walls) && AllWallIds(Ids(walls) + {floating.unique_id})
    && floating.x == 0 && floating.y == 2
    && floating.unique_id > FIXED_COUNT && floating.shape == PoolShape(floating.unique_id)
  }

  // ----- building the pool -----

  /** The `Wall(id, shape)` constructor: at (0, 0) with a random orientation. */
  method NewWall(id: int, shape: Shape) returns (w: Wall)
    ensures w.unique_id == id && w.shape == shape && w.x == 0 && w.y == 0
  {
    var k :| 0 <= k < |ORIENTATIONS|;
    w := WallPiece(id, 0, 0, shape, ORIENTATIONS[k]);
  }

  /** Append `count` new walls of `shape`, numbering on from `id`. */
  method AddToPool(pool: seq<Wall>, id: int, count: nat, shape: Shape) returns (r: seq<Wall>, next: int)
    ensures |r| == |pool| + count && r[..|pool|] == pool && next == id + count
    ensures forall k :: |pool| <= k < |r| ==>
      r[k].unique_id == id + 1 + (k - |pool|) && r[k].shape == shape && r[k].x == 0 && r[k].y == 0
  {
    r, next := pool, id;
    for i := 0 to count
      invariant |r| == |pool| + i && r[..|pool|] == pool && next == id + i
      invariant forall k :: |pool| <= k < |r| ==>
        r[k].unique_id == id + 1 + (k - |pool|) && r[k].shape == shape && r[k].x == 0 && r[k].y == 0
    {
      next := next + 1;
      var w := NewWall(next, shape);
      r := r + [w];
    }
  }

  /** The pool: five straight, six L and six T walls with ids 10 to 26. */
  method MakePool() returns (pool: seq<Wall>)
    ensures |pool| == POOL_COUNT
    ensures forall k :: 0 <= k < |pool| ==> pool[k].unique_id == FIXED_COUNT + 1 + k && Fresh(pool[k])
  {
    var id := FIXED_COUNT;
    pool, id := AddToPool([], id, STRAIGHT_COUNT, Straight);
    pool, id := AddToPool(pool, id, L_COUNT, LShape);
    pool, id := AddToPool(pool, id, T_COUNT, TShape);
  }

  // ----- dealing -----

  /** Deal walls from the pool onto the non-fixed cells of row `y`, left to right. */
  method DealRow(walls: seq<Wall>, pool: seq<Wall>, centre: Direction, y: int) returns (walls': seq<Wall>, pool': seq<Wall>)
    requires 1 <= y <= 5 && Dealing(walls, pool, centre, 1, y)
    ensures Dealing(walls', pool', centre, 1, y + 1)
  {
    walls', pool' := walls, pool;
    for x := 1 to 6
      invariant Dealing(walls', pool', centre, x, y)
    {
      if IsFixedCell(x, y) {
        SkipFixed(walls', pool', centre, x, y);
      } else {
        walls', pool' := DealCell(walls', pool', centre, x, y);
      }
    }
    RowDone(walls', pool', centre, y);
  }

  /** Move a random wall of the pool onto the dealt cell (x, y). */
  method DealCell(walls: seq<Wall>, pool: seq<Wall>, centre: Direction, x: int, y: int) returns (walls': seq<Wall>, pool': seq<Wall>)
    requires IsDealtCell(x, y) && Dealing(walls, pool, centre, x, y)
    ensures Dealing(walls', pool', centre, x + 1, y)
  {
    var k :| 0 <= k < |pool|;
    var w := pool[k];
    var placed: Wall := WallPiece(w.unique_id, x, y, w.shape, w.orientation);
    assert placed.unique_id in Ids(pool);
    DealOne(walls, pool, centre, x, y, k);
    walls' := AsWalls(AddEntry(walls, placed));
    pool' := pool[..k] + pool[k + 1..];
  }

  lemma SkipFixed(walls: seq<Wall>, pool: seq<Wall>, centre: Direction, x: int, y: int)
    requires 1 <= x <= 5 && 1 <= y <= 5 && IsFixedCell(x, y) && Dealing(walls, pool, centre, x, y)
    ensures Dealing(walls, pool, centre, x + 1, y)
  {
    assert Before(x + 1, y) == Before(x, y);
  }

  lemma RowDone(walls: seq<Wall>, pool: seq<Wall>, centre: Direction, y: int)
    requires 1 <= y <= 5 && Dealing(walls, pool, centre, 6, y)
    ensures Dealing(walls, pool, centre, 1, y + 1)
  {
    assert Before(6, y) == Before(1, y + 1);
  }

  lemma CellsSnoc(s: seq<Piece>, p: Piece)
    ensures Cells(s + [p]) == Cells(s) + {PositionOf(p)}
  {
    var t := s + [p];
    assert forall i :: 0 <= i < |s| ==> t[i] == s[i];
    assert t[|s|] == p;
  }

  lemma IdsRemoveAt(s: seq<Piece>, k: nat)
    requires UniqueIds(s) && k < |s|
    ensures Ids(s[..k] + s[k + 1..]) == Ids(s) - {s[k].unique_id}
    ensures UniqueIds(s[..k] + s[k + 1..])
  {
    var t := s[..k] + s[k + 1..];
    assert forall i :: 0 <= i < k ==> t[i] == s[i];
    assert forall i :: k <= i < |t| ==> t[i] == s[i + 1];
    forall id | id in Ids(s) - {s[k].unique_id} ensures id in Ids(t) {
      var i :| 0 <= i < |s| && s[i].unique_id == id;
      if i < k { assert t[i] == s[i]; } else { assert t[i - 1] == s[i]; }
    }
  }

  /** Dealing pool entry `k` onto the dealt cell (x, y) keeps the loop state for the next column. */
  lemma DealOne(walls: seq<Wall>, pool: seq<Wall>, centre: Direction, x: int, y: int, k: nat)
    requires IsDealtCell(x, y) && Dealing(walls, pool, centre, x, y) && k < |pool|
    ensures var w := pool[k];
      Dealing(walls + [WallPiece(w.unique_id, x, y, w.shape, w.orientation)], pool[..k] + pool[k + 1..], centre, x + 1, y)
  {
    var w := pool[k];
    var placed: Wall := WallPiece(w.unique_id, x, y, w.shape, w.orientation);
    var walls1 := walls + [placed];
    assert Before(x + 1, y) == Before(x, y) + 1;
    assert walls1[..FIXED_COUNT] == walls[..FIXED_COUNT];
    DealOneCells(walls, pool, centre, x, y, placed);
    DealOneIds(walls, pool, k, placed);
  }

  /** The cell (x, y) is free, so the dealt wall keeps the cells distinct and covers one more cell. */
  lemma DealOneCells(walls: seq<Wall>, pool: seq<Wall>, centre: Direction, x: int, y: int, placed: Wall)
    requires IsDealtCell(x, y) && Dealing(walls, pool, centre, x, y)
    requires Dealt(placed) && placed.x == x && placed.y == y
    ensures var walls1 := walls + [placed];
      && (forall i :: FIXED_COUNT <= i < |walls1| ==> Dealt(walls1[i]) && Precedes(PositionOf(walls1[i]), x + 1, y))
      && (forall px, py :: IsDealtCell(px, py) && Precedes(Point(px, py), x + 1, y) ==> Point(px, py) in Cells(walls1))
      && DistinctCells(walls1)
  {
    var walls1 := walls + [placed];
    CellsSnoc(walls, placed);
    // The new cell is not taken: fixed walls are on fixed cells, dealt walls on earlier cells.
    forall i | 0 <= i < |walls| ensures PositionOf(walls[i]) != Point(x, y) {
      if i < FIXED_COUNT {
        assert walls[i] == FixedWalls(centre)[i];
      }
    }
    assert forall i :: 0 <= i < |walls| ==> walls1[i] == walls[i];
    assert walls1[|walls|] == placed;
  }

  /** Moving pool entry `k` to the walls keeps the ids split between the two. */
  lemma DealOneIds(walls: seq<Wall>, pool: seq<Wall>, k: nat, placed: Wall)
    requires SplitIds(walls, pool) && k < |pool| && placed.unique_id == pool[k].unique_id
    requires forall j :: 0 <= j < |pool| ==> Fresh(pool[j])
    ensures SplitIds(walls + [placed], pool[..k] + pool[k + 1..])
    ensures forall p :: p in pool[..k] + pool[k + 1..] ==> Fresh(p)
  {
    var pool1 := pool[..k] + pool[k + 1..];
    IdsRemoveAt(pool, k);
    assert placed.unique_id in Ids(pool);
    IdsAppend(walls, placed);
    forall p | p in pool1 ensures Fresh(p) {
      var j :| 0 <= j < |pool1| && pool1[j] == p;
      if j < k { assert p == pool[j]; } else { assert p == pool[j + 1]; }
    }
  }

  /** The fixed walls and the full pool at the start of the dealing loop. */
  lemma DealingStarts(centre: Direction, pool: seq<Wall>)
    requires |pool| == POOL_COUNT
    requires forall k :: 0 <= k < |pool| ==> pool[k].unique_id == FIXED_COUNT + 1 + k && Fresh(pool[k])
    ensures Dealing(FixedWalls(centre), pool, centre, 1, 1)
  {
    var f := FixedWalls(centre);
    assert SplitIds(f, pool) by {
      assert forall i :: 0 <= i < FIXED_COUNT ==> f[i].unique_id == i + 1;
      forall id ensures id in Ids(f) + Ids(pool) <==> 1 <= id <= WALL_COUNT {
        if 1 <= id <= FIXED_COUNT {
          assert f[id - 1].unique_id == id;
        } else if FIXED_COUNT < id <= WALL_COUNT {
          assert pool[id - FIXED_COUNT - 1].unique_id == id;
        }
      }
    }
    assert f[..FIXED_COUNT] == f;
    FixedDistinct(centre);
  }

  /** The fixed walls stand on nine different cells. */
  lemma FixedDistinct(centre: Direction)
    ensures DistinctCells(FixedWalls(centre))
  {
    var f := FixedWalls(centre);
    assert forall i :: 0 <= i < FIXED_COUNT ==> PositionOf(f[i]) == Point(1 + 2 * (i % 3), 1 + 2 * (i / 3));
  }

  /** At the end of the dealing loop one pool wall is left and the maze is covered. */
  lemma DealingEnds(walls: seq<Wall>, pool: seq<Wall>, centre: Direction)
    requires Dealing(walls, pool, centre, 1, 6) && (centre == North || centre == East)
    ensures |pool| == 1
    ensures Laid(walls, WallPiece(pool[0].unique_id, 0, 2, pool[0].shape, pool[0].orientation))
  {
    var f := FixedWalls(centre);
    assert walls[4] == f[4];
    assert Ids(pool) == {pool[0].unique_id};
    forall c | c in Interior() ensures c in Cells(walls) {
      if IsFixedCell(c.x, c.y) {
        var i := 3 * ((c.y - 1) / 2) + (c.x - 1) / 2;
        assert PositionOf(f[i]) == c;
        assert walls[i] == f[i];
      }
    }
    forall c | c in Cells(walls) ensures c in Interior() {
      var i :| 0 <= i < |walls| && PositionOf(walls[i]) == c;
      if i < FIXED_COUNT {
        assert walls[i] == f[i];
      }
    }
  }

  /** The first half of `didStartup`: the walls and the floating wall. */
  method BuildMaze() returns (walls: seq<Wall>, floating: Wall)
    ensures Laid(walls, floating)
  {
    var centre: Direction :| centre == North || centre == East;
    var pool := MakePool();
    walls := [];
    var fixed := FixedWalls(centre);
    for i := 0 to FIXED_COUNT
      invariant walls == fixed[..i]
    {
      assert fixed[i].unique_id !in Ids(walls);
      assert fixed[..i + 1] == fixed[..i] + [fixed[i]];
      walls := AsWalls(AddEntry(walls, fixed[i]));
    }
    assert walls == fixed;
    DealingStarts(centre, pool);
    for y := 1 to 6
      invariant Dealing(walls, pool, centre, 1, y)
    {
      walls, pool := DealRow(walls, pool, centre, y);
    }
    DealingEnds(walls, pool, centre);
    var rest := pool[0];
    floating := WallPiece(rest.unique_id, rest.x, 2, rest.shape, rest.orientation);
  }

  // ----- didStartup -----

  /**
   * The state `didStartup` leaves: the maze laid out, treasure `i` on
   * `treasureCells[i]` with no owner, and the ghost of player `i` on
   * `ghostCells[i]`.
   */
  ghost predicate StartedOn(s: GameState, treasureCells: seq<Point>, ghostCells: seq<Point>) {
    && s.floating_wall.Some? && Laid(s.walls, s.floating_wall.value)
    && |s.treasures| == |treasureCells|
    && (forall i :: 0 <= i < |treasureCells| ==>
          s.treasures[i] == TreasurePiece(i, treasureCells[i].x, treasureCells[i].y, NO_OWNER))
    && |s.ghosts| == |ghostCells|
    && (forall i :: 0 <= i < |ghostCells| ==> s.ghosts[i] == GhostPiece(i, ghostCells[i].x, ghostCells[i].y))
  }

  /**
   * `didStartup` on a fresh game object.  The random cells the treasures and
   * ghosts start on are parameters.
   */
  method DidStartup(b: Board, treasureCells: seq<Point>, ghostCells: seq<Point>)
    requires b.walls == [] && b.treasures == [] && b.ghosts == []
    requires |treasureCells| == TREASURE_COUNT && |ghostCells| == b.players
    modifies b
    ensures StartedOn(b.Snapshot(), treasureCells, ghostCells)
    ensures b.active_treasure == old(b.active_treasure) && b.wall_placed == old(b.wall_placed)
    ensures b.floating_wall_origin == old(b.floating_wall_origin)
  {
    var walls, floating := BuildMaze();
    b.walls := walls;
    b.floating_wall := Some(floating);
    AddTreasures(b, treasureCells);
    AddGhosts(b, ghostCells);
  }

  /** The treasures of `didStartup`: treasure `i` on cell `cells[i]`, owned by nobody. */
  method AddTreasures(b: Board, cells: seq<Point>)
    requires b.treasures == []
    modifies b
    ensures b.Snapshot() == old(b.Snapshot()).(treasures := b.treasures)
    ensures |b.treasures| == |cells|
    ensures forall j :: 0 <= j < |cells| ==> b.treasures[j] == TreasurePiece(j, cells[j].x, cells[j].y, NO_OWNER)
  {
    for i := 0 to |cells|
      invariant b.Snapshot() == old(b.Snapshot()).(treasures := b.treasures)
      invariant |b.treasures| == i
      invariant forall j :: 0 <= j < i ==> b.treasures[j] == TreasurePiece(j, cells[j].x, cells[j].y, NO_OWNER)
    {
      assert i !in Ids(b.treasures);
      b.treasures := AsTreasures(AddEntry(b.treasures, TreasurePiece(i, cells[i].x, cells[i].y, NO_OWNER)));
    }
  }

  /** The ghosts of `didStartup`: the ghost of player `i` on cell `cells[i]`. */
  method AddGhosts(b: Board, cells: seq<Point>)
    requires b.ghosts == []
    modifies b
    ensures b.Snapshot() == old(b.Snapshot()).(ghosts := b.ghosts)
    ensures |b.ghosts| == |cells|
    ensures forall j :: 0 <= j < |cells| ==> b.ghosts[j] == GhostPiece(j, cells[j].x, cells[j].y)
  {
    for i := 0 to |cells|
      invariant b.Snapshot() == old(b.Snapshot()).(ghosts := b.ghosts)
      invariant |b.ghosts| == i
      invariant forall j :: 0 <= j < i ==> b.ghosts[j] == GhostPiece(j, cells[j].x, cells[j].y)
    {
      assert i !in Ids(b.ghosts);
      b.ghosts := AsGhosts(AddEntry(b.ghosts, GhostPiece(i, cells[i].x, cells[i].y)));
    }
  }

  /**
   * After set-up the maze is in play, every keyed set is well keyed, the
   * ghost of player `p` is the entry with key `p`, and no treasure is collected.
   */
  lemma StartedIsSettled(s: GameState, treasureCells: seq<Point>, ghostCells: seq<Point>)
    requires StartedOn(s, treasureCells, ghostCells)
    ensures Settled(s) && WellKeyed(s)
    ensures forall p :: 0 <= p < |ghostCells| ==> IndexOf(s.ghosts, p) == Some(p)
    ensures forall i :: 0 <= i < |s.treasures| ==> !IsCollected(s.treasures[i])
  {
    forall p | 0 <= p < |ghostCells| ensures IndexOf(s.ghosts, p) == Some(p) {
      var r := IndexOf(s.ghosts, p);
      assert s.ghosts[p].unique_id == p;
      assert p in Ids(s.ghosts);
    }
  }
}
