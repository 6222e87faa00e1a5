/**
 * The computer player.  For every insertion cell and every quarter turn of
 * the floating wall it shifts the maze for real, asks whether its ghost could
 * then walk to the active treasure, and puts every piece back.  It then
 * inserts one of the candidates that open a path (any candidate when none
 * does), and walks its ghost onto the treasure if a path is open afterwards.
 */
module AI {
  import opened Pieces
  import opened Walls
  import opened Util
  import opened Shifts
  import opened Paths
  import opened Boards
  import opened Manager
  import opened Eviction

  // ----- remembering and restoring positions -----

  /** `extract`: key to cell for every piece; a later piece with the same key overwrites an earlier one. */
  function Positions(s: seq<Piece>): map<int, Point> {
    if s == [] then map[]
    else Positions(s[..|s| - 1])[s[|s| - 1].unique_id := PositionOf(s[|s| - 1])]
  }

  method Extract(pieces: seq<Piece>) returns (cells: map<int, Point>)
    ensures cells == Positions(pieces)
  {
    cells := map[];
    for i := 0 to |pieces|
      invariant cells == Positions(pieces[..i])
    {
      assert pieces[..i + 1][..i] == pieces[..i];
      cells := cells[pieces[i].unique_id := Point(pieces[i].x, pieces[i].y)];
    }
    assert pieces[..|pieces|] == pieces;
  }

  /** A piece put on cell `c`, everything else kept. */
  function MovedTo(p: Piece, c: Point): (r: Piece)
    ensures r.Kind() == p.Kind() && r.unique_id == p.unique_id && PositionOf(r) == c
  {
    p.(x := c.x, y := c.y)
  }

  /** `restore`: every piece whose key was recorded goes back to the recorded cell; the others stay. */
  function Restored(s: seq<Piece>, cells: map<int, Point>): (r: seq<Piece>)
    ensures |r| == |s| && SameKeys(s, r)
    ensures forall k :: AllKind(s, k) ==> AllKind(r, k)
  {
    seq(|s|, i requires 0 <= i < |s| => if s[i].unique_id in cells then MovedTo(s[i], cells[s[i].unique_id]) else s[i])
  }

  method Restore(pieces: seq<Piece>, cells: map<int, Point>) returns (r: seq<Piece>)
    ensures r == Restored(pieces, cells)
  {
    r := pieces;
    for i := 0 to |pieces|
      invariant |r| == |pieces|
      invariant forall j :: 0 <= j < i ==> r[j] == Restored(pieces, cells)[j]
      invariant forall j :: i <= j < |pieces| ==> r[j] == pieces[j]
    {
      var p := r[i];
      if p.unique_id in cells {
        var c := cells[p.unique_id];
        r := r[i := p.(x := c.x, y := c.y)];
      }
    }
  }

  /** `b` holds the pieces of `a`, in the same order, possibly on other cells. */
  predicate SameButCells(a: seq<Piece>, b: seq<Piece>) {
    |a| == |b| && forall i :: 0 <= i < |a| ==> b[i] == MovedTo(a[i], PositionOf(b[i]))
  }

  /** The record holds exactly the set's keys, and with unique keys each key's own cell. */
  lemma {:induction false} PositionsRecordCells(s: seq<Piece>)
    ensures Positions(s).Keys == Ids(s)
    ensures UniqueIds(s) ==> forall i :: 0 <= i < |s| ==> Positions(s)[s[i].unique_id] == PositionOf(s[i])
  {
    if s != [] {
      var init := s[..|s| - 1];
      var last := s[|s| - 1];
      PositionsRecordCells(init);
      assert s == init + [last];
      IdsAppend(init, last);
      if UniqueIds(s) {
        assert UniqueIds(init);
        forall i | 0 <= i < |s| ensures Positions(s)[s[i].unique_id] == PositionOf(s[i]) {
          if i < |s| - 1 {
            assert s[i] == init[i] && s[i].unique_id != last.unique_id;
          }
        }
      }
    }
  }

  /** Restoring from a record of `s` undoes any change that only moved pieces. */
  lemma RestoreUndoes(s: seq<Piece>, t: seq<Piece>)
    requires UniqueIds(s) && SameButCells(s, t)
    ensures Restored(t, Positions(s)) == s
  {
    PositionsRecordCells(s);
    forall i | 0 <= i < |s| ensures Restored(t, Positions(s))[i] == s[i] {
      assert t[i].unique_id == s[i].unique_id;
      assert s[i].unique_id in Ids(s);
    }
  }

  /** A shift only moves pieces. */
  lemma ShiftMovesOnly(ctx: ShiftContext, s: seq<Piece>, wrap: bool)
    ensures SameButCells(s, ShiftAll(ctx, s, wrap))
  {
  }

  lemma SameButCellsTrans(a: seq<Piece>, b: seq<Piece>, c: seq<Piece>)
    requires SameButCells(a, b) && SameButCells(b, c)
    ensures SameButCells(a, c)
  {
  }

  // ----- one simulated insertion -----

  /** The cell of the piece with key `id` (`get(id)` of the keyed set). */
  function CellOf(s: seq<Piece>, id: int): Point
    requires id in Ids(s)
  {
    PositionOf(s[IndexOf(s, id).value])
  }

  /**
   * The question asked for one insertion: with the walls shifted without
   * wrapping (the floating wall itself is not pushed in), the ghosts shifted
   * twice with wrapping and the treasures left where they are, can the
   * player's ghost walk to the active treasure?
   */
  ghost predicate PathOpens(walls: seq<Wall>, ghosts: seq<Ghost>, treasures: seq<Treasure>, active: int,
                            player: int, ctx: ShiftContext)
    requires player in Ids(ghosts) && active in Ids(treasures)
  {
    var once := ShiftAll(ctx, ghosts, true);
    var twice := ShiftAll(ctx, once, true);
    SameKeysAgree(ghosts, once);
    SameKeysAgree(once, twice);
    Reachable(AsWalls(ShiftAll(ctx, walls, false)), CellOf(twice, player), CellOf(treasures, active))
  }

  /** Inserting at cell `p` is accepted and opens a path; the wall's turn plays no part. */
  ghost predicate OpensAt(s: GameState, player: int, p: Point)
    requires player in Ids(s.ghosts) && s.active_treasure in Ids(s.treasures)
  {
    match CreateContext(s.floating_wall_origin, p.x, p.y)
    case None => false
    case Some(ctx) => PathOpens(s.walls, s.ghosts, s.treasures, s.active_treasure, player, ctx)
  }

  /** The trial's shift, done in place: the walls without wrapping, then the ghosts twice with wrapping. */
  method ShiftForTrial(b: Board, ctx: ShiftContext)
    modifies b
    ensures b.Snapshot() == old(b.Snapshot()).(
      walls := AsWalls(ShiftAll(ctx, old(b.walls), false)),
      ghosts := AsGhosts(ShiftAll(ctx, ShiftAll(ctx, old(b.ghosts), true), true)))
  {
    var moved, affected := Shift(ctx, b.walls, false);
    b.walls := AsWalls(moved);
    moved, affected := Shift(ctx, b.ghosts, true);
    b.ghosts := AsGhosts(moved);
    moved, affected := Shift(ctx, b.ghosts, true);
    b.ghosts := AsGhosts(moved);
  }

  /** The `finally` block: all three sets put back from the records of `s`. */
  method RestoreAll(b: Board, ghost s: GameState,
                    wallCells: map<int, Point>, ghostCells: map<int, Point>, treasureCells: map<int, Point>)
    requires WellKeyed(s) && b.Snapshot() == s.(walls := b.walls, ghosts := b.ghosts)
    requires SameButCells(s.walls, b.walls) && SameButCells(s.ghosts, b.ghosts)
    requires wallCells == Positions(s.walls) && ghostCells == Positions(s.ghosts)
    requires treasureCells == Positions(s.treasures)
    modifies b
    ensures b.Snapshot() == s
  {
    RestoreUndoes(s.walls, b.walls);
    var restored := Restore(b.walls, wallCells);
    b.walls := AsWalls(restored);
    RestoreUndoes(s.treasures, b.treasures);
    restored := Restore(b.treasures, treasureCells);
    b.treasures := AsTreasures(restored);
    RestoreUndoes(s.ghosts, b.ghosts);
    restored := Restore(b.ghosts, ghostCells);
    b.ghosts := AsGhosts(restored);
  }

  /**
   * One trial: shift the walls and the ghosts in place, look the ghost and
   * the treasure up, search for a path, and restore all three sets from the
   * records taken before the scan.
   */
  method Simulate(b: Board, player: int, ctx: ShiftContext,
                  wallCells: map<int, Point>, ghostCells: map<int, Point>, treasureCells: map<int, Point>)
    returns (opens: bool)
    requires b.Valid() && player in Ids(b.ghosts) && b.active_treasure in Ids(b.treasures)
    requires wallCells == Positions(b.walls) && ghostCells == Positions(b.ghosts)
    requires treasureCells == Positions(b.treasures)
    modifies b
    ensures b.Snapshot() == old(b.Snapshot())
    ensures opens <==> PathOpens(b.walls, b.ghosts, b.treasures, b.active_treasure, player, ctx)
  {
    ghost var s := b.Snapshot();
    ghost var once := ShiftAll(ctx, s.ghosts, true);
    SameKeysAgree(s.ghosts, once);
    SameKeysAgree(once, ShiftAll(ctx, once, true));
    ShiftForTrial(b, ctx);
    var path := FindPath(b.walls, CellOf(b.ghosts, player), CellOf(b.treasures, b.active_treasure));
    opens := path.Some?;
    ShiftMovesOnly(ctx, s.walls, false);
    ShiftMovesOnly(ctx, s.ghosts, true);
    ShiftMovesOnly(ctx, once, true);
    SameButCellsTrans(s.ghosts, once, b.ghosts);
    RestoreAll(b, s, wallCells, ghostCells, treasureCells);
  }

  // ----- the candidates of a scan -----

  /** The copy of the floating wall `f` recorded at cell `p` after `turns` quarter turns. */
  function Candidate(f: Wall, p: Point, turns: nat): Wall {
    WallPiece(f.unique_id, p.x, p.y, f.shape, Clockwise(f.orientation, turns))
  }

  /**
   * The candidates recorded at cell `p` in the first `d` turns of the
   * floating wall: one per turn, none at a fixed cell or at the cell the
   * last evicted wall came out of.
   */
  function CellCandidates(origin: int, f: Wall, p: Point, d: nat): seq<Wall> {
    if d == 0 || !IsMoveable(p.x, p.y) || CreateContext(origin, p.x, p.y).None? then []
    else CellCandidates(origin, f, p, d - 1) + [Candidate(f, p, d)]
  }

  /** The four trials at each cell, as one map from cells to candidates. */
  function Block(origin: int, f: Wall): Point -> seq<Wall> {
    p => CellCandidates(origin, f, p, 4)
  }

  /** What `cell` gives, collected in row-major order over the cells before column `x` of row `y`. */
  function Scan(cell: Point -> seq<Wall>, x: nat, y: nat): seq<Wall>
    requires x <= BOARD_SIZE
    decreases y, x
  {
    if x == 0 then (if y == 0 then [] else Scan(cell, BOARD_SIZE, y - 1))
    else Scan(cell, x - 1, y) + cell(Point(x - 1, y))
  }

  /** The candidates recorded in row-major order over the cells before column `x` of row `y`. */
  function Scanned(origin: int, f: Wall, x: nat, y: nat): seq<Wall>
    requires x <= BOARD_SIZE
  {
    Scan(Block(origin, f), x, y)
  }

  /** Where the floating wall stands after scanning the cells before column `x` of row `y`. */
  function LastScanned(start: Point, x: nat, y: nat): Point
    requires x <= BOARD_SIZE
    decreases y, x
  {
    if x == 0 then (if y == 0 then start else LastScanned(start, BOARD_SIZE, y - 1))
    else if IsMoveable(x - 1, y) then Point(x - 1, y)
    else LastScanned(start, x - 1, y)
  }

  /** The floating wall `f` moved to cell `p`, its turn unchanged. */
  function Parked(f: Wall, p: Point): Wall {
    WallPiece(f.unique_id, p.x, p.y, f.shape, f.orientation)
  }

  /** The cells of the frame where an insertion opens a path for `player`. */
  ghost function Opening(s: GameState, player: int): set<Point>
    requires player in Ids(s.ghosts) && s.active_treasure in Ids(s.treasures)
  {
    set x, y | 0 <= x < BOARD_SIZE && 0 <= y < BOARD_SIZE && OpensAt(s, player, Point(x, y)) :: Point(x, y)
  }

  lemma OpeningCell(s: GameState, player: int, p: Point)
    requires player in Ids(s.ghosts) && s.active_treasure in Ids(s.treasures)
    requires IsMoveable(p.x, p.y)
    ensures p in Opening(s, player) <==> OpensAt(s, player, p)
  {
    if OpensAt(s, player, p) {
      assert Point(p.x, p.y) == p;
    }
  }

  /** The candidates standing on a cell of `good` (`opening`), or the others, in their order. */
  function Sorted(good: set<Point>, cands: seq<Wall>, opening: bool): seq<Wall> {
    if cands == [] then []
    else
      var last := cands[|cands| - 1];
      Sorted(good, cands[..|cands| - 1], opening) +
        (if (PositionOf(last) in good) == opening then [last] else [])
  }

  /** `preferred` and `possible` are the candidates of `cands` on a cell of `good`, and the others. */
  predicate Recorded(good: set<Point>, cands: seq<Wall>, preferred: seq<Wall>, possible: seq<Wall>) {
    preferred == Sorted(good, cands, true) && possible == Sorted(good, cands, false)
  }

  lemma {:induction false} SortedAppend(good: set<Point>, a: seq<Wall>, b: seq<Wall>, opening: bool)
    ensures Sorted(good, a + b, opening) == Sorted(good, a, opening) + Sorted(good, b, opening)
  {
    if b != [] {
      var init := b[..|b| - 1];
      assert (a + b)[..|a + b| - 1] == a + init;
      SortedAppend(good, a, init, opening);
    } else {
      assert a + b == a;
    }
  }

  lemma SortedSingle(good: set<Point>, c: Wall, opening: bool)
    ensures Sorted(good, [c], opening) == if (PositionOf(c) in good) == opening then [c] else []
  {
    assert [c][..0] == [];
  }

  /** One more turn at a cell adds that turn's candidate, if the cell is accepted at all. */
  lemma CellSnoc(origin: int, f: Wall, p: Point, d: nat)
    ensures CellCandidates(origin, f, p, d + 1) == CellCandidates(origin, f, p, d) +
      if !IsMoveable(p.x, p.y) || CreateContext(origin, p.x, p.y).None? then [] else [Candidate(f, p, d + 1)]
  {
  }

  // ----- the scan -----

  /** What the trials need: the state `s0` they restore, with the positions recorded from it. */
  ghost predicate Ready(s0: GameState, player: int,
                        wallCells: map<int, Point>, ghostCells: map<int, Point>, treasureCells: map<int, Point>) {
    && WellKeyed(s0) && player in Ids(s0.ghosts) && s0.active_treasure in Ids(s0.treasures)
    && wallCells == Positions(s0.walls) && ghostCells == Positions(s0.ghosts)
    && treasureCells == Positions(s0.treasures)
  }

  /**
   * One turn at the cell the floating wall stands on: turn it a quarter, and
   * when the cell is accepted run a trial and return a copy of the turned
   * wall with the trial's answer.
   */
  method TryTurn(b: Board, ghost s0: GameState, player: int,
                 wallCells: map<int, Point>, ghostCells: map<int, Point>, treasureCells: map<int, Point>)
    returns (working: Option<Wall>, opens: bool)
    requires b.floating_wall.Some? && b.Snapshot() == s0.(floating_wall := b.floating_wall)
    requires Ready(s0, player, wallCells, ghostCells, treasureCells)
    modifies b
    ensures b.Snapshot() == s0.(floating_wall := Some(Rotated(old(b.floating_wall.value))))
    ensures var w := old(b.floating_wall.value);
      working == if CreateContext(s0.floating_wall_origin, w.x, w.y).None? then None else Some(Rotated(w))
    ensures working.Some? ==> (opens <==> OpensAt(s0, player, PositionOf(working.value)))
  {
    b.floating_wall := Some(Rotated(b.floating_wall.value));
    var x, y := b.floating_wall.value.x, b.floating_wall.value.y;
    var context := CreateContext(b.floating_wall_origin, x, y);
    if context.None? {
      return None, false;
    }
    opens := Simulate(b, player, context.value, wallCells, ghostCells, treasureCells);
    var fw := b.floating_wall.value;
    working := Some(WallPiece(fw.unique_id, fw.x, fw.y, fw.shape, fw.orientation));
  }

  /**
   * One pass of the turn loop at cell `p`: the `d`-th quarter turn is tried
   * and, when the cell is accepted, recorded in the list its answer selects.
   */
  method TryStep(b: Board, ghost s0: GameState, player: int, ghost f: Wall, ghost p: Point, d: nat,
                 wallCells: map<int, Point>, ghostCells: map<int, Point>, treasureCells: map<int, Point>,
                 preferred0: seq<Wall>, possible0: seq<Wall>)
    returns (preferred: seq<Wall>, possible: seq<Wall>)
    requires b.Snapshot() == s0.(floating_wall := Some(Candidate(f, p, d)))
    requires Ready(s0, player, wallCells, ghostCells, treasureCells)
    requires IsMoveable(p.x, p.y)
    requires Recorded(Opening(s0, player), CellCandidates(s0.floating_wall_origin, f, p, d), preferred0, possible0)
    modifies b
    ensures b.Snapshot() == s0.(floating_wall := Some(Candidate(f, p, d + 1)))
    ensures Recorded(Opening(s0, player), CellCandidates(s0.floating_wall_origin, f, p, d + 1), preferred, possible)
  {
    var working, opens := TryTurn(b, s0, player, wallCells, ghostCells, treasureCells);
    ClockwiseAdd(f.orientation, d, 1);
    CellSnoc(s0.floating_wall_origin, f, p, d);
    preferred, possible := preferred0, possible0;
    if working.Some? {
      var c := working.value;
      assert c == Candidate(f, p, d + 1);
      OpeningCell(s0, player, p);
      SortedAppend(Opening(s0, player), CellCandidates(s0.floating_wall_origin, f, p, d), [c], true);
      SortedAppend(Opening(s0, player), CellCandidates(s0.floating_wall_origin, f, p, d), [c], false);
      SortedSingle(Opening(s0, player), c, true);
      SortedSingle(Opening(s0, player), c, false);
      if !opens {
        possible := possible + [c];
      } else {
        preferred := preferred + [c];
      }
    }
  }

  /**
   * The four turns at one insertion cell: the floating wall is moved there,
   * turned a quarter before each trial, recorded as a candidate whenever the
   * cell is accepted, and is facing its first way again at the end.
   */
  method TryCell(b: Board, ghost s0: GameState, player: int, x: int, y: int,
                 wallCells: map<int, Point>, ghostCells: map<int, Point>, treasureCells: map<int, Point>)
    returns (preferred: seq<Wall>, possible: seq<Wall>)
    requires IsMoveable(x, y) && b.floating_wall.Some?
    requires b.Snapshot() == s0.(floating_wall := b.floating_wall)
    requires Ready(s0, player, wallCells, ghostCells, treasureCells)
    modifies b
    ensures b.Snapshot() == s0.(floating_wall := Some(Parked(old(b.floating_wall.value), Point(x, y))))
    ensures var cands := CellCandidates(s0.floating_wall_origin, old(b.floating_wall.value), Point(x, y), 4);
      Recorded(Opening(s0, player), cands, preferred, possible)
  {
    ghost var f := b.floating_wall.value;
    MoveFloating(b, s0, x, y);
    preferred, possible := TryTurns(b, s0, player, f, Point(x, y), wallCells, ghostCells, treasureCells);
    FullTurn(f, Point(x, y));
  }

  /** The floating wall is moved onto the cell (x, y) without being turned. */
  method MoveFloating(b: Board, ghost s0: GameState, x: int, y: int)
    requires b.floating_wall.Some? && b.Snapshot() == s0.(floating_wall := b.floating_wall)
    modifies b
    ensures b.Snapshot() == s0.(floating_wall := Some(Candidate(old(b.floating_wall.value), Point(x, y), 0)))
  {
    var w := b.floating_wall.value;
    b.floating_wall := Some(WallPiece(w.unique_id, x, y, w.shape, w.orientation));
    ClockwiseZero(w.orientation);
  }

  /** The four trials at cell `p`, starting from the floating wall unturned there. */
  method TryTurns(b: Board, ghost s0: GameState, player: int, ghost f: Wall, ghost p: Point,
                  wallCells: map<int, Point>, ghostCells: map<int, Point>, treasureCells: map<int, Point>)
    returns (preferred: seq<Wall>, possible: seq<Wall>)
    requires IsMoveable(p.x, p.y) && b.Snapshot() == s0.(floating_wall := Some(Candidate(f, p, 0)))
    requires Ready(s0, player, wallCells, ghostCells, treasureCells)
    modifies b
    ensures b.Snapshot() == s0.(floating_wall := Some(Candidate(f, p, 4)))
    ensures Recorded(Opening(s0, player), CellCandidates(s0.floating_wall_origin, f, p, 4), preferred, possible)
  {
    preferred, possible := [], [];
    NothingRecorded(Opening(s0, player), s0.floating_wall_origin, f, p);
    for d := 0 to 4
      invariant b.Snapshot() == s0.(floating_wall := Some(Candidate(f, p, d)))
      invariant Recorded(Opening(s0, player), CellCandidates(s0.floating_wall_origin, f, p, d), preferred, possible)
    {
      preferred, possible := TryStep(b, s0, player, f, p, d, wallCells, ghostCells, treasureCells,
                                     preferred, possible);
    }
  }

  /** Before the first turn at a cell nothing is recorded for it. */
  lemma NothingRecorded(good: set<Point>, origin: int, f: Wall, p: Point)
    ensures Recorded(good, CellCandidates(origin, f, p, 0), [], [])
  {
  }

  /** Four quarter turns bring the wall back to the way it faced. */
  lemma FullTurn(f: Wall, p: Point)
    ensures Candidate(f, p, 4) == Parked(f, p)
  {
    ClockwiseAdd(f.orientation, 0, 4);
    ClockwiseZero(f.orientation);
  }

  /** The inner loop of the scan: row `y`, column by column, appending to the lists built so far. */
  method ScanRow(b: Board, ghost s0: GameState, player: int, y: nat,
                 wallCells: map<int, Point>, ghostCells: map<int, Point>, treasureCells: map<int, Point>,
                 preferred0: seq<Wall>, possible0: seq<Wall>)
    returns (preferred: seq<Wall>, possible: seq<Wall>)
    requires y < BOARD_SIZE && s0.floating_wall.Some?
    requires b.Snapshot() == s0.(floating_wall := Some(Parked(s0.floating_wall.value,
      LastScanned(PositionOf(s0.floating_wall.value), 0, y))))
    requires Ready(s0, player, wallCells, ghostCells, treasureCells)
    requires var cands := Scanned(s0.floating_wall_origin, s0.floating_wall.value, 0, y);
      Recorded(Opening(s0, player), cands, preferred0, possible0)
    modifies b
    ensures b.Snapshot() == s0.(floating_wall := Some(Parked(s0.floating_wall.value,
      LastScanned(PositionOf(s0.floating_wall.value), BOARD_SIZE, y))))
    ensures var cands := Scanned(s0.floating_wall_origin, s0.floating_wall.value, BOARD_SIZE, y);
      Recorded(Opening(s0, player), cands, preferred, possible)
  {
    ghost var f := s0.floating_wall.value;
    ghost var origin := s0.floating_wall_origin;
    preferred, possible := preferred0, possible0;
    for x := 0 to BOARD_SIZE
      invariant b.Snapshot() == s0.(floating_wall := Some(Parked(f, LastScanned(PositionOf(f), x, y))))
      invariant Recorded(Opening(s0, player), Scanned(origin, f, x, y), preferred, possible)
    {
      if !IsMoveable(x, y) {
        FixedCellSkipped(origin, f, x, y);
        continue;
      }
      var p, q := TryCell(b, s0, player, x, y, wallCells, ghostCells, treasureCells);
      CandidatesIgnorePlace(origin, f, LastScanned(PositionOf(f), x, y), Point(x, y), 4);
      SortedAppend(Opening(s0, player), Scanned(origin, f, x, y), CellCandidates(origin, f, Point(x, y), 4), true);
      SortedAppend(Opening(s0, player), Scanned(origin, f, x, y), CellCandidates(origin, f, Point(x, y), 4), false);
      preferred := preferred + p;
      possible := possible + q;
    }
  }

  /** Where the floating wall stood before it was moved to the cell is not part of a candidate. */
  lemma {:induction false} CandidatesIgnorePlace(origin: int, f: Wall, q: Point, p: Point, d: nat)
    ensures CellCandidates(origin, Parked(f, q), p, d) == CellCandidates(origin, f, p, d)
  {
    if d > 0 {
      CandidatesIgnorePlace(origin, f, q, p, d - 1);
    }
  }

  lemma FixedCellSkipped(origin: int, f: Wall, x: nat, y: nat)
    requires x < BOARD_SIZE && !IsMoveable(x, y)
    ensures Scanned(origin, f, x + 1, y) == Scanned(origin, f, x, y)
  {
    assert Block(origin, f)(Point(x, y)) == [];
    ScanSkip(Block(origin, f), x, y);
  }

  /**
   * The nested scan of the 7x7 frame, with every accepted candidate sorted
   * into the preferred list (a path opens) or the possible list.  The sets
   * end where they started, and so does the floating wall's turn, but the
   * floating wall is left on the last insertion cell scanned, (4, 6).
   */
  method Evaluate(b: Board, player: int) returns (preferred: seq<Wall>, possible: seq<Wall>)
    requires b.Valid() && b.floating_wall.Some? && player in Ids(b.ghosts) && b.active_treasure in Ids(b.treasures)
    modifies b
    ensures var s := old(b.Snapshot());
      var cands := Scanned(s.floating_wall_origin, s.floating_wall.value, BOARD_SIZE, BOARD_SIZE - 1);
      Recorded(Opening(s, player), cands, preferred, possible)
    ensures b.Snapshot() == old(b.Snapshot()).(floating_wall := Some(Parked(old(b.floating_wall.value), Point(4, 6))))
  {
    ghost var s0 := b.Snapshot();
    ghost var f := b.floating_wall.value;
    ghost var origin := b.floating_wall_origin;
    var wallCells := Extract(b.walls);
    var treasureCells := Extract(b.treasures);
    var ghostCells := Extract(b.ghosts);
    preferred, possible := [], [];
    ScanStarts(origin, f);
    for y := 0 to BOARD_SIZE
      invariant b.Snapshot() == s0.(floating_wall := Some(Parked(f, LastScanned(PositionOf(f), 0, y))))
      invariant Recorded(Opening(s0, player), Scanned(origin, f, 0, y), preferred, possible)
    {
      preferred, possible := ScanRow(b, s0, player, y, wallCells, ghostCells, treasureCells, preferred, possible);
      RowWraps(origin, f, y);
    }
    ScanEndsAt(PositionOf(f));
  }

  /** Before the scan nothing is recorded and the floating wall stands where it was. */
  lemma ScanStarts(origin: int, f: Wall)
    ensures Scanned(origin, f, 0, 0) == [] && Parked(f, LastScanned(PositionOf(f), 0, 0)) == f
  {
  }

  /** The end of row `y` is the start of row `y + 1`. */
  lemma RowWraps(origin: int, f: Wall, y: nat)
    ensures Scanned(origin, f, BOARD_SIZE, y) == Scanned(origin, f, 0, y + 1)
    ensures LastScanned(PositionOf(f), BOARD_SIZE, y) == LastScanned(PositionOf(f), 0, y + 1)
  {
  }

  /** The last insertion cell of the scan is (4, 6), wherever the floating wall started. */
  lemma ScanEndsAt(start: Point)
    ensures LastScanned(start, 0, BOARD_SIZE) == Point(4, 6)
  {
    assert LastScanned(start, 5, 6) == Point(4, 6);
    assert LastScanned(start, 7, 6) == LastScanned(start, 5, 6);
  }

  // ----- the turn -----

  /**
   * After the insertion: when a path leads from the player's ghost to the
   * active treasure, the ghost entry itself is put on the treasure's cell
   * (the object in the set is changed, not a copy) and that entry is passed to
   * `placeGhost`; otherwise the unchanged entry is.
   */
  ghost function MoveGhost(r: GameState, player: int): GameState
    requires player in Ids(r.ghosts) && r.active_treasure in Ids(r.treasures)
  {
    var g := r.ghosts[IndexOf(r.ghosts, player).value];
    var t := r.treasures[IndexOf(r.treasures, r.active_treasure).value];
    if Reachable(r.walls, PositionOf(g), PositionOf(t)) then
      var moved := GhostPiece(g.unique_id, t.x, t.y);
      var ghosts := AsGhosts(UpdateEntry(r.ghosts, moved));
      SameKeysAgree(r.ghosts, ghosts);
      PlaceGhostSpec(r.(ghosts := ghosts), player, moved)
    else PlaceGhostSpec(r, player, g)
  }

  /** The random pick: some preferred candidate when there is one, otherwise some possible one. */
  method Choose(preferred: seq<Wall>, possible: seq<Wall>) returns (chosen: Wall)
    requires preferred != [] || possible != []
    ensures preferred != [] ==> chosen in preferred
    ensures preferred == [] ==> chosen in possible
  {
    if |preferred| > 0 {
      var k :| 0 <= k < |preferred|;
      chosen := preferred[k];
    } else {
      var k :| 0 <= k < |possible|;
      chosen := possible[k];
    }
  }

  /** The end of the turn: `placeWall` with the chosen wall, then the ghost's move. */
  method Commit(b: Board, player: int, chosen: Wall)
    requires b.Valid() && player in Ids(b.ghosts) && b.active_treasure in Ids(b.treasures)
    modifies b
    ensures var r := PlaceWallSpec(old(b.Snapshot()), chosen);
      player in Ids(r.ghosts) && r.active_treasure in Ids(r.treasures) && b.Snapshot() == MoveGhost(r, player)
  {
    ghost var s := b.Snapshot();
    PlaceWall(b, chosen);
    PlaceWallKeepsKeys(s, chosen);
    SameKeysAgree(s.ghosts, b.ghosts);
    SameKeysAgree(s.treasures, b.treasures);
    MoveAIGhost(b, player);
  }

  /** After the insertion: the ghost goes to the active treasure when a path leads there. */
  method MoveAIGhost(b: Board, player: int)
    requires player in Ids(b.ghosts) && b.active_treasure in Ids(b.treasures)
    modifies b
    ensures b.Snapshot() == MoveGhost(old(b.Snapshot()), player)
  {
    ghost var r := b.Snapshot();
    var treasure := CellOf(b.treasures, b.active_treasure);
    var g := b.ghosts[IndexOf(b.ghosts, player).value];
    var path := FindPath(b.walls, Point(g.x, g.y), treasure);
    if path.Some? {
      g := GhostPiece(g.unique_id, treasure.x, treasure.y);
      b.ghosts := AsGhosts(UpdateEntry(b.ghosts, g));
      SameKeysAgree(r.ghosts, b.ghosts);
    }
    PlaceGhost(b, player, g);
  }

  /**
   * `processTurn`: scan, choose a preferred candidate when there is one and
   * otherwise any candidate, with the floating wall parked on (4, 6) by the
   * scan insert the choice, and move the ghost.
   */
  method ProcessTurn(b: Board, player: int) returns (chosen: Wall)
    requires b.Valid() && b.floating_wall.Some? && player in Ids(b.ghosts) && b.active_treasure in Ids(b.treasures)
    modifies b
    ensures var s := old(b.Snapshot());
      chosen in Scanned(s.floating_wall_origin, s.floating_wall.value, BOARD_SIZE, BOARD_SIZE - 1)
    ensures var s := old(b.Snapshot());
      var cands := Scanned(s.floating_wall_origin, s.floating_wall.value, BOARD_SIZE, BOARD_SIZE - 1);
      (exists c :: c in cands && OpensAt(s, player, PositionOf(c))) ==> OpensAt(s, player, PositionOf(chosen))
    ensures var s := old(b.Snapshot());
      var r := PlaceWallSpec(s.(floating_wall := Some(Parked(s.floating_wall.value, Point(4, 6)))), chosen);
      player in Ids(r.ghosts) && r.active_treasure in Ids(r.treasures) && b.Snapshot() == MoveGhost(r, player)
    ensures Settled(old(b.Snapshot())) ==> Settled(b.Snapshot())
  {
    ghost var s := b.Snapshot();
    ghost var cands := Scanned(s.floating_wall_origin, s.floating_wall.value, BOARD_SIZE, BOARD_SIZE - 1);
    var preferred, possible := Evaluate(b, player);
    ScanSize(s.floating_wall_origin, s.floating_wall.value);
    SortedSize(Opening(s, player), cands);
    chosen := Choose(preferred, possible);
    ChosenCandidate(Opening(s, player), cands, chosen);
    ChosenOpens(s, player, chosen);
    Commit(b, player, chosen);
    if Settled(s) {
      AITurnKeepsMaze(s, player, chosen);
    }
  }

  // ----- properties of the scan -----

  /** The lists hold exactly the candidates on a cell of `good`, and exactly those that are not. */
  lemma {:induction false} SortedMembers(good: set<Point>, cands: seq<Wall>, opening: bool)
    ensures forall c :: c in Sorted(good, cands, opening) <==> c in cands && (PositionOf(c) in good) == opening
  {
    if cands != [] {
      var init := cands[..|cands| - 1];
      SortedMembers(good, init, opening);
      assert cands == init + [cands[|cands| - 1]];
    }
  }

  /** Every candidate lands in exactly one of the two lists. */
  lemma SortedPartition(good: set<Point>, cands: seq<Wall>)
    ensures |Sorted(good, cands, true)| + |Sorted(good, cands, false)| == |cands|
    ensures forall c :: c in cands ==> (c in Sorted(good, cands, true) <==> c !in Sorted(good, cands, false))
  {
    SortedMembers(good, cands, true);
    SortedMembers(good, cands, false);
    SortedSize(good, cands);
  }

  lemma {:induction false} SortedSize(good: set<Point>, cands: seq<Wall>)
    ensures |Sorted(good, cands, true)| + |Sorted(good, cands, false)| == |cands|
  {
    if cands != [] {
      SortedSize(good, cands[..|cands| - 1]);
    }
  }

  /** The pick is a candidate, and one on a cell of `good` whenever some candidate is. */
  lemma ChosenCandidate(good: set<Point>, cands: seq<Wall>, chosen: Wall)
    requires var preferred := Sorted(good, cands, true);
      (preferred != [] ==> chosen in preferred) && (preferred == [] ==> chosen in Sorted(good, cands, false))
    ensures chosen in cands
    ensures (exists c :: c in cands && PositionOf(c) in good) ==> PositionOf(chosen) in good
  {
    SortedMembers(good, cands, true);
    SortedMembers(good, cands, false);
    if Sorted(good, cands, true) == [] {
      forall c | c in cands ensures PositionOf(c) !in good {
        assert c !in Sorted(good, cands, true);
      }
    }
  }

  /** On the scanned candidates, standing on an opening cell is opening a path. */
  lemma ChosenOpens(s: GameState, player: int, chosen: Wall)
    requires player in Ids(s.ghosts) && s.active_treasure in Ids(s.treasures) && s.floating_wall.Some?
    requires var cands := Scanned(s.floating_wall_origin, s.floating_wall.value, BOARD_SIZE, BOARD_SIZE - 1);
      chosen in cands &&
      ((exists c :: c in cands && PositionOf(c) in Opening(s, player)) ==> PositionOf(chosen) in Opening(s, player))
    ensures var cands := Scanned(s.floating_wall_origin, s.floating_wall.value, BOARD_SIZE, BOARD_SIZE - 1);
      (exists c :: c in cands && OpensAt(s, player, PositionOf(c))) ==> OpensAt(s, player, PositionOf(chosen))
  {
    var origin, f := s.floating_wall_origin, s.floating_wall.value;
    var cands := Scanned(origin, f, BOARD_SIZE, BOARD_SIZE - 1);
    if exists c :: c in cands && OpensAt(s, player, PositionOf(c)) {
      var c :| c in cands && OpensAt(s, player, PositionOf(c));
      CandidateFacts(origin, f, c);
      OpeningCell(s, player, PositionOf(c));
      CandidateFacts(origin, f, chosen);
      OpeningCell(s, player, PositionOf(chosen));
    }
  }

  /** The candidates at cell `p` after `d` turns all sit in the list that `p` selects. */
  predicate CellSplit(good: set<Point>, origin: int, f: Wall, p: Point, d: nat) {
    var cands := CellCandidates(origin, f, p, d);
    && Sorted(good, cands, true) == (if p in good then cands else [])
    && Sorted(good, cands, false) == (if p in good then [] else cands)
  }

  /** At one cell all four turns go to the same list: the turn cannot open or close a path. */
  lemma CellAllOrNothing(good: set<Point>, origin: int, f: Wall, p: Point)
    ensures CellSplit(good, origin, f, p, 4)
  {
    CellSplitZero(good, origin, f, p);
    CellAllOrNothingStep(good, origin, f, p, 0);
    CellAllOrNothingStep(good, origin, f, p, 1);
    CellAllOrNothingStep(good, origin, f, p, 2);
    CellAllOrNothingStep(good, origin, f, p, 3);
  }

  /**
   * The trial shifts the maze without the floating wall, so at an insertion
   * cell the four turns are all preferred or all merely possible.
   */
  lemma TurnPlaysNoPart(s: GameState, player: int, f: Wall, p: Point)
    requires player in Ids(s.ghosts) && s.active_treasure in Ids(s.treasures) && IsMoveable(p.x, p.y)
    ensures var cands := CellCandidates(s.floating_wall_origin, f, p, 4);
      && Sorted(Opening(s, player), cands, true) == (if OpensAt(s, player, p) then cands else [])
      && Sorted(Opening(s, player), cands, false) == (if OpensAt(s, player, p) then [] else cands)
  {
    CellAllOrNothing(Opening(s, player), s.floating_wall_origin, f, p);
    OpeningCell(s, player, p);
  }

  lemma CellSplitZero(good: set<Point>, origin: int, f: Wall, p: Point)
    ensures CellSplit(good, origin, f, p, 0)
  {
    assert CellCandidates(origin, f, p, 0) == [];
  }

  /** The step of CellAllOrNothing: one more turn keeps the split of the cell's candidates. */
  lemma CellAllOrNothingStep(good: set<Point>, origin: int, f: Wall, p: Point, d: nat)
    requires CellSplit(good, origin, f, p, d)
    ensures CellSplit(good, origin, f, p, d + 1)
  {
    CellSnoc(origin, f, p, d);
    var extra := if !IsMoveable(p.x, p.y) || CreateContext(origin, p.x, p.y).None? then [] else [Candidate(f, p, d + 1)];
    SortedAppend(good, CellCandidates(origin, f, p, d), extra, true);
    SortedAppend(good, CellCandidates(origin, f, p, d), extra, false);
    if extra != [] {
      SortedSingle(good, Candidate(f, p, d + 1), true);
      SortedSingle(good, Candidate(f, p, d + 1), false);
    }
  }

  // The row-major scan, for any `cell` that gives nothing at the fixed cells.

  /** Within the frame, `cell` gives nothing outside the eight insertion cells. */
  predicate Framed(cell: Point -> seq<Wall>) {
    forall x, y :: 0 <= x < BOARD_SIZE && 0 <= y < BOARD_SIZE && !IsMoveable(x, y) ==> cell(Point(x, y)) == []
  }

  lemma BlockFramed(origin: int, f: Wall)
    ensures Framed(Block(origin, f))
  {
  }

  lemma ScanStep(cell: Point -> seq<Wall>, x: nat, y: nat)
    requires x < BOARD_SIZE
    ensures Scan(cell, x + 1, y) == Scan(cell, x, y) + cell(Point(x, y))
  {
  }

  lemma ScanSkip(cell: Point -> seq<Wall>, x: nat, y: nat)
    requires x < BOARD_SIZE && cell(Point(x, y)) == []
    ensures Scan(cell, x + 1, y) == Scan(cell, x, y)
  {
    assert Scan(cell, x + 1, y) == Scan(cell, x, y) + [];
  }

  /** A row without insertion cells adds nothing to the scan. */
  lemma InnerRow(cell: Point -> seq<Wall>, y: nat)
    requires Framed(cell) && (y == 1 || y == 3 || y == 5)
    ensures Scan(cell, BOARD_SIZE, y) == Scan(cell, 0, y)
  {
    ScanSkip(cell, 0, y);
    ScanSkip(cell, 1, y);
    ScanSkip(cell, 2, y);
    ScanSkip(cell, 3, y);
    ScanSkip(cell, 4, y);
    ScanSkip(cell, 5, y);
    ScanSkip(cell, 6, y);
  }

  lemma LeftColumns(cell: Point -> seq<Wall>, y: nat)
    requires Framed(cell) && y < BOARD_SIZE && !IsMoveableLine(y)
    ensures Scan(cell, 4, y) == Scan(cell, 0, y) + cell(Point(2, y))
  {
    ScanSkip(cell, 0, y);
    ScanSkip(cell, 1, y);
    ScanStep(cell, 2, y);
    ScanSkip(cell, 3, y);
  }

  /** Rows 0 and 6 are entered at columns 2 and 4 (in rows 1, 3 and 5 those cells are fixed too). */
  lemma ColumnEnds(cell: Point -> seq<Wall>, y: nat)
    requires Framed(cell) && y < BOARD_SIZE && !IsMoveableLine(y)
    ensures Scan(cell, BOARD_SIZE, y) == Scan(cell, 0, y) + cell(Point(2, y)) + cell(Point(4, y))
  {
    LeftColumns(cell, y);
    ScanStep(cell, 4, y);
    ScanSkip(cell, 5, y);
    ScanSkip(cell, 6, y);
  }

  lemma MiddleColumns(cell: Point -> seq<Wall>, y: nat)
    requires Framed(cell) && IsMoveableLine(y)
    ensures Scan(cell, 6, y) == Scan(cell, 1, y)
  {
    ScanSkip(cell, 1, y);
    ScanSkip(cell, 2, y);
    ScanSkip(cell, 3, y);
    ScanSkip(cell, 4, y);
    ScanSkip(cell, 5, y);
  }

  /** Rows 2 and 4 are entered at columns 0 and 6. */
  lemma RowEnds(cell: Point -> seq<Wall>, y: nat)
    requires Framed(cell) && IsMoveableLine(y)
    ensures Scan(cell, BOARD_SIZE, y) == Scan(cell, 0, y) + cell(Point(0, y)) + cell(Point(6, y))
  {
    ScanStep(cell, 0, y);
    MiddleColumns(cell, y);
    ScanStep(cell, 6, y);
  }

  /** A framed scan of the whole board is what it gives at the eight insertion cells, in row-major order. */
  lemma FullScanOf(cell: Point -> seq<Wall>)
    requires Framed(cell)
    ensures Scan(cell, BOARD_SIZE, BOARD_SIZE - 1) ==
      cell(Point(2, 0)) + cell(Point(4, 0)) + cell(Point(0, 2)) + cell(Point(6, 2)) +
      cell(Point(0, 4)) + cell(Point(6, 4)) + cell(Point(2, 6)) + cell(Point(4, 6))
  {
    var a, b, c, d := cell(Point(2, 0)), cell(Point(4, 0)), cell(Point(0, 2)), cell(Point(6, 2));
    ColumnEnds(cell, 0);
    assert [] + a == a;
    assert Scan(cell, BOARD_SIZE, 0) == a + b;
    InnerRow(cell, 1);
    RowEnds(cell, 2);
    assert Scan(cell, BOARD_SIZE, 2) == a + b + c + d;
    InnerRow(cell, 3);
    RowEnds(cell, 4);
    InnerRow(cell, 5);
    ColumnEnds(cell, 6);
  }

  /** The scan visits exactly the eight insertion cells, in row-major order. */
  lemma FullScan(origin: int, f: Wall)
    ensures Scanned(origin, f, BOARD_SIZE, BOARD_SIZE - 1) ==
      CellCandidates(origin, f, Point(2, 0), 4) + CellCandidates(origin, f, Point(4, 0), 4) +
      CellCandidates(origin, f, Point(0, 2), 4) + CellCandidates(origin, f, Point(6, 2), 4) +
      CellCandidates(origin, f, Point(0, 4), 4) + CellCandidates(origin, f, Point(6, 4), 4) +
      CellCandidates(origin, f, Point(2, 6), 4) + CellCandidates(origin, f, Point(4, 6), 4)
  {
    BlockFramed(origin, f);
    FullScanOf(Block(origin, f));
  }

  /** How many trials a turn records: all 32, or 28 when one insertion cell is the forbidden origin. */
  lemma ScanSize(origin: int, f: Wall)
    ensures |Scanned(origin, f, BOARD_SIZE, BOARD_SIZE - 1)| ==
      if origin in {2, 4, 10, 16, 20, 26, 32, 34} then 28 else 32
  {
    FullScan(origin, f);
    CellCount(origin, f, Point(2, 0), 4);
    CellCount(origin, f, Point(4, 0), 4);
    CellCount(origin, f, Point(0, 2), 4);
    CellCount(origin, f, Point(6, 2), 4);
    CellCount(origin, f, Point(0, 4), 4);
    CellCount(origin, f, Point(6, 4), 4);
    CellCount(origin, f, Point(2, 6), 4);
    CellCount(origin, f, Point(4, 6), 4);
  }

  /** At an accepted insertion cell, the four trials try the floating wall facing each of the four ways. */
  lemma CellTriesEveryTurn(origin: int, f: Wall, p: Point, c: Wall)
    requires IsMoveable(p.x, p.y) && GetLocation(p.x, p.y) != origin
    ensures c in CellCandidates(origin, f, p, 4) <==>
      c.unique_id == f.unique_id && c.shape == f.shape && PositionOf(c) == p
  {
    if c in CellCandidates(origin, f, p, 4) {
      CellCandidateFacts(origin, f, p, c, 4);
    }
    if c.unique_id == f.unique_id && c.shape == f.shape && PositionOf(c) == p {
      var i := OrientationIndex(f.orientation);
      var k := (OrientationIndex(c.orientation) + 7 - i) % 4;
      assert OrientationIndex(Clockwise(f.orientation, k + 1)) == OrientationIndex(c.orientation);
      assert Candidate(f, p, k + 1) == c;
      CandidateRecorded(origin, f, p, k + 1, 4);
    }
  }

  /** A turn up to `d` at an accepted cell is among the first `d` candidates. */
  lemma {:induction false} CandidateRecorded(origin: int, f: Wall, p: Point, k: nat, d: nat)
    requires IsMoveable(p.x, p.y) && GetLocation(p.x, p.y) != origin && 1 <= k <= d
    ensures Candidate(f, p, k) in CellCandidates(origin, f, p, d)
  {
    if k < d {
      CandidateRecorded(origin, f, p, k, d - 1);
    }
  }

  /** An accepted cell records one candidate per turn, any other cell none. */
  lemma {:induction false} CellCount(origin: int, f: Wall, p: Point, d: nat)
    ensures |CellCandidates(origin, f, p, d)| ==
      if IsMoveable(p.x, p.y) && CreateContext(origin, p.x, p.y).Some? then d else 0
  {
    if d > 0 {
      CellCount(origin, f, p, d - 1);
    }
  }

  /**
   * The AI's move after its insertion: with a path from its ghost to the
   * active treasure it collects the treasure; without one nothing changes.
   */
  lemma AIMoveCollects(r: GameState, player: int)
    requires WellKeyed(r) && player >= 0 && player in Ids(r.ghosts)
    requires r.active_treasure >= 0 && r.active_treasure in Ids(r.treasures)
    requires var t := r.treasures[IndexOf(r.treasures, r.active_treasure).value];
      !IsSurrounding(t.x, t.y) && !IsCollected(t)
    ensures var reach := Reachable(r.walls, CellOf(r.ghosts, player), CellOf(r.treasures, r.active_treasure));
      var m := MoveGhost(r, player);
      && (reach ==> m.active_treasure == -1 && OwnedBy(m.treasures, player) == OwnedBy(r.treasures, player) + 1
                    && CellOf(m.ghosts, player) == CellOf(r.treasures, r.active_treasure))
      && (!reach ==> m == r)
  {
    var k := IndexOf(r.ghosts, player).value;
    var g := r.ghosts[k];
    var t := r.treasures[IndexOf(r.treasures, r.active_treasure).value];
    if Reachable(r.walls, PositionOf(g), PositionOf(t)) {
      var moved := GhostPiece(g.unique_id, t.x, t.y);
      var r1 := r.(ghosts := AsGhosts(UpdateEntry(r.ghosts, moved)));
      SameKeysAgree(r.ghosts, r1.ghosts);
      assert r1.ghosts[k] == moved;
      ReachableSelf(r.walls, PositionOf(t));
      CollectActive(r1, player, moved);
      OwnGhostMoves(r1, player, moved);
      PlaceGhostKeepsKeys(r1, player, moved);
      SameKeysAgree(r1.ghosts, MoveGhost(r, player).ghosts);
    } else {
      assert PositionOf(g) != PositionOf(t) || IsSurrounding(g.x, g.y) by {
        if PositionOf(g) == PositionOf(t) && !IsSurrounding(g.x, g.y) {
          ReachableSelf(r.walls, PositionOf(g));
        }
      }
      if !IsSurrounding(g.x, g.y) {
        ReachableSelf(r.walls, PositionOf(g));
        assert UpdateEntry(r.ghosts, GhostPiece(g.unique_id, g.x, g.y)) == r.ghosts;
        assert UpdateEntry(r.ghosts, g) == r.ghosts;
      }
    }
  }

  /** Every candidate is the floating wall, turned some way, on an insertion cell that is accepted. */
  lemma {:induction false} CellCandidateFacts(origin: int, f: Wall, p: Point, c: Wall, d: nat)
    requires c in CellCandidates(origin, f, p, d)
    ensures c.unique_id == f.unique_id && c.shape == f.shape && PositionOf(c) == p
    ensures IsMoveable(p.x, p.y) && CreateContext(origin, p.x, p.y).Some?
  {
    if c != Candidate(f, p, d) {
      CellCandidateFacts(origin, f, p, c, d - 1);
    }
  }

  lemma CandidateFacts(origin: int, f: Wall, c: Wall)
    requires c in Scanned(origin, f, BOARD_SIZE, BOARD_SIZE - 1)
    ensures c.unique_id == f.unique_id && c.shape == f.shape
    ensures IsMoveable(c.x, c.y) && CreateContext(origin, c.x, c.y).Some?
  {
    FullScan(origin, f);
    if c in CellCandidates(origin, f, Point(2, 0), 4) {
      CellCandidateFacts(origin, f, Point(2, 0), c, 4);
    } else if c in CellCandidates(origin, f, Point(4, 0), 4) {
      CellCandidateFacts(origin, f, Point(4, 0), c, 4);
    } else if c in CellCandidates(origin, f, Point(0, 2), 4) {
      CellCandidateFacts(origin, f, Point(0, 2), c, 4);
    } else if c in CellCandidates(origin, f, Point(6, 2), 4) {
      CellCandidateFacts(origin, f, Point(6, 2), c, 4);
    } else if c in CellCandidates(origin, f, Point(0, 4), 4) {
      CellCandidateFacts(origin, f, Point(0, 4), c, 4);
    } else if c in CellCandidates(origin, f, Point(6, 4), 4) {
      CellCandidateFacts(origin, f, Point(6, 4), c, 4);
    } else if c in CellCandidates(origin, f, Point(2, 6), 4) {
      CellCandidateFacts(origin, f, Point(2, 6), c, 4);
    } else {
      CellCandidateFacts(origin, f, Point(4, 6), c, 4);
    }
  }

  /** Moving a ghost leaves the maze and the floating wall alone. */
  lemma MoveGhostKeepsMaze(r: GameState, player: int)
    requires WellKeyed(r) && player in Ids(r.ghosts) && r.active_treasure in Ids(r.treasures)
    ensures MoveGhost(r, player).walls == r.walls
    ensures MoveGhost(r, player).floating_wall == r.floating_wall
    ensures MoveGhost(r, player).floating_wall_origin == r.floating_wall_origin
  {
    var g := r.ghosts[IndexOf(r.ghosts, player).value];
    var t := r.treasures[IndexOf(r.treasures, r.active_treasure).value];
    if Reachable(r.walls, PositionOf(g), PositionOf(t)) {
      var moved := GhostPiece(g.unique_id, t.x, t.y);
      var r1 := r.(ghosts := AsGhosts(UpdateEntry(r.ghosts, moved)));
      SameKeysAgree(r.ghosts, r1.ghosts);
      PlaceGhostKeepsKeys(r1, player, moved);
    } else {
      PlaceGhostKeepsKeys(r, player, g);
    }
  }

  /**
   * A whole computer turn keeps the maze in play: one wall per interior
   * cell, unique keys, and a floating wall off the board on an insertion cell.
   */
  lemma AITurnKeepsMaze(s: GameState, player: int, chosen: Wall)
    requires Settled(s) && WellKeyed(s) && player in Ids(s.ghosts) && s.active_treasure in Ids(s.treasures)
    requires chosen in Scanned(s.floating_wall_origin, s.floating_wall.value, BOARD_SIZE, BOARD_SIZE - 1)
    ensures var r := PlaceWallSpec(s.(floating_wall := Some(Parked(s.floating_wall.value, Point(4, 6)))), chosen);
      player in Ids(r.ghosts) && r.active_treasure in Ids(r.treasures) && Settled(MoveGhost(r, player))
  {
    var parked := s.(floating_wall := Some(Parked(s.floating_wall.value, Point(4, 6))));
    CandidateFacts(s.floating_wall_origin, s.floating_wall.value, chosen);
    PlaceWallKeepsMaze(parked, chosen);
    PlaceWallKeepsKeys(parked, chosen);
    var r := PlaceWallSpec(parked, chosen);
    SameKeysAgree(parked.ghosts, r.ghosts);
    SameKeysAgree(parked.treasures, r.treasures);
    MoveGhostKeepsMaze(r, player);
  }

  // ----- the trial and the insertion it stands for -----

  /**
   * The trial as the comment in the candidate loop describes it: after the real
   * `placeWall` with candidate `c`, with every ghost and treasure where that
   * insertion leaves it, can the player's ghost walk to the active treasure?
   */
  ghost predicate CommitOpens(s: GameState, player: int, c: Wall)
    requires WellKeyed(s) && player in Ids(s.ghosts) && s.active_treasure in Ids(s.treasures)
  {
    var r := PlaceWallSpec(s, c);
    PlaceWallKeepsKeys(s, c);
    SameKeysAgree(s.ghosts, r.ghosts);
    SameKeysAgree(s.treasures, r.treasures);
    Reachable(r.walls, CellOf(r.ghosts, player), CellOf(r.treasures, r.active_treasure))
  }

  /**
   * The trial as written can miss the insertion that scores.  The player's
   * ghost stands on the active treasure at (4, 2); inserting at (0, 2) moves
   * ghost and treasure together onto (5, 2), where the ghost can take it, but
   * the trial moves the ghost twice, onto (1, 2), which the trial's walls
   * leave empty, and leaves the treasure on (4, 2).
   */
  lemma TrialMissesSharedCell(s: GameState, player: int, c: Wall)
    requires Tiled(s.walls) && WellKeyed(s)
    requires player in Ids(s.ghosts) && s.active_treasure in Ids(s.treasures)
    requires CellOf(s.ghosts, player) == Point(4, 2) && CellOf(s.treasures, s.active_treasure) == Point(4, 2)
    requires s.floating_wall_origin != GetLocation(0, 2) && c.x == 0 && c.y == 2
    ensures !OpensAt(s, player, Point(0, 2))
    ensures CommitOpens(s, player, c)
  {
    InsertionCellAccepted(s.floating_wall_origin, 0, 2);
    var ctx := CreateContext(s.floating_wall_origin, 0, 2).value;
    var once := ShiftAll(ctx, s.ghosts, true);
    var twice := ShiftAll(ctx, once, true);
    SameKeysAgree(s.ghosts, once);
    SameKeysAgree(once, twice);
    assert CellOf(twice, player) == Point(1, 2);
    var trial := AsWalls(ShiftAll(ctx, s.walls, false));
    forall i | 0 <= i < |trial|
      ensures !At(trial[i], Point(1, 2))
    {
      TiledInterior(s.walls, i);
    }
    NoWallNoRoute(trial, Point(1, 2), Point(4, 2));
    PlaceWallKeepsKeys(s, c);
    var r := PlaceWallSpec(s, c);
    SameKeysAgree(s.ghosts, r.ghosts);
    SameKeysAgree(s.treasures, r.treasures);
    assert CellOf(r.ghosts, player) == Point(5, 2);
    assert CellOf(r.treasures, r.active_treasure) == Point(5, 2);
    ReachableSelf(r.walls, Point(5, 2));
  }

  /**
   * With the corrected trial a candidate it prefers is a move that scores:
   * committing it and moving the ghost collects the active treasure and gives
   * the player one more point than before the turn; a candidate it rejects
   * leaves the ghost where the insertion put it.
   */
  lemma CommitOpensCollects(s: GameState, player: int, c: Wall)
    requires WellKeyed(s) && player >= 0 && player in Ids(s.ghosts)
    requires s.active_treasure >= 0 && s.active_treasure in Ids(s.treasures)
    requires var t := s.treasures[IndexOf(s.treasures, s.active_treasure).value];
      IsInterior(t.x, t.y) && !IsCollected(t)
    ensures var r := PlaceWallSpec(s, c);
      player in Ids(r.ghosts) && r.active_treasure in Ids(r.treasures)
    ensures var r := PlaceWallSpec(s, c);
      var m := MoveGhost(r, player);
      && (CommitOpens(s, player, c) ==>
            m.active_treasure == -1 && OwnedBy(m.treasures, player) == OwnedBy(s.treasures, player) + 1)
      && (!CommitOpens(s, player, c) ==> m == r)
  {
    PlaceWallKeepsKeys(s, c);
    PlaceWallKeepsPoints(s, c);
    var r := PlaceWallSpec(s, c);
    SameKeysAgree(s.ghosts, r.ghosts);
    SameKeysAgree(s.treasures, r.treasures);
    var j := IndexOf(s.treasures, s.active_treasure).value;
    assert IsInterior(r.treasures[j].x, r.treasures[j].y) && r.treasures[j].owner == s.treasures[j].owner;
    AIMoveCollects(r, player);
  }
}
