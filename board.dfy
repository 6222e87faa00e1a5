/**
 * The shared game object: the phase flag, the active treasure, the floating
 * wall with the location it may not be pushed back in from, and the three
 * keyed sets of walls, treasures and ghosts.
 */
module Boards {
  import opened Pieces
  import opened Util
  import opened Walls
  import opened Paths

  /** The fields of the game object as one value. */
  datatype GameState = GameState(
    active_treasure: int,
    wall_placed: bool,
    floating_wall: Option<Wall>,
    floating_wall_origin: int,
    walls: seq<Wall>,
    treasures: seq<Treasure>,
    ghosts: seq<Ghost>)

  /** Every keyed set holds each key at most once. */
  predicate WellKeyed(s: GameState) {
    UniqueIds(s.walls) && UniqueIds(s.treasures) && UniqueIds(s.ghosts)
  }

  /**
   * The game object.  `floating_wall` is None only until the maze is set up;
   * `players` is the number of seats, fixed when the game is created.
   */
  class Board {
    var active_treasure: int
    var wall_placed: bool
    var floating_wall: Option<Wall>
    var floating_wall_origin: int
    var walls: seq<Wall>
    var treasures: seq<Treasure>
    var ghosts: seq<Ghost>
    const players: nat

    /** A fresh game object with the declared field defaults. */
    constructor(players: nat)
      ensures this.players == players
      ensures Snapshot() == GameState(-1, false, None, 0, [], [], [])
      ensures Valid()
    {
      this.players := players;
      active_treasure := -1;
      wall_placed := false;
      floating_wall := None;
      floating_wall_origin := 0;
      walls := [];
      treasures := [];
      ghosts := [];
    }

    function Snapshot(): GameState
      reads this
    {
      GameState(active_treasure, wall_placed, floating_wall, floating_wall_origin, walls, treasures, ghosts)
    }

    predicate Valid()
      reads this
    {
      WellKeyed(Snapshot())
    }
  }

  // ----- the maze covers the interior -----

  /** The 25 interior cells. */
  function Interior(): set<Point> {
    set x, y | 1 <= x <= 5 && 1 <= y <= 5 :: Point(x, y)
  }

  /** The cells occupied by the pieces of `s`. */
  function Cells(s: seq<Piece>): set<Point> {
    set i | 0 <= i < |s| :: PositionOf(s[i])
  }

  /** No two pieces share a cell. */
  predicate DistinctCells(s: seq<Piece>) {
    forall i, j :: 0 <= i < |s| && 0 <= j < |s| && i != j ==> PositionOf(s[i]) != PositionOf(s[j])
  }

  /** Exactly one wall on every interior cell and none anywhere else. */
  predicate Tiled(walls: seq<Wall>) {
    Cells(walls) == Interior() && DistinctCells(walls)
  }

  /**
   * The maze in play: one wall per interior cell, keys unique, and the
   * floating wall a wall that is not on the board, waiting on an insertion cell.
   */
  predicate Settled(s: GameState) {
    && Tiled(s.walls) && UniqueIds(s.walls)
    && s.floating_wall.Some? && s.floating_wall.value.unique_id !in Ids(s.walls)
    && IsMoveable(s.floating_wall.value.x, s.floating_wall.value.y)
  }

  /** On a tiled maze, the wall found at an interior cell is the one wall standing there. */
  lemma TiledWallAt(walls: seq<Wall>, c: Point)
    requires Tiled(walls) && c in Interior()
    ensures WallAt(walls, c).Some?
    ensures forall i :: 0 <= i < |walls| && PositionOf(walls[i]) == c ==> WallAt(walls, c) == Some(walls[i])
  {
    assert c in Cells(walls);
    var i :| 0 <= i < |walls| && PositionOf(walls[i]) == c;
    assert At(walls[i], c);
    WallAtIsFirst(walls, c);
  }
}
