# Labyrinth maze engine, modelled and verified in Dafny

This project models the rule engine of a multiplayer Labyrinth board game. The board is a 7×7
frame. Its 5×5 interior holds one wall tile per cell, and its border (rows and columns 0 and 6)
carries the eight insertion cells at the ends of the movable lines 2 and 4. On a turn, the player
pushes the floating wall in from an insertion cell. That shifts a row or column by one, and the
wall pushed out at the far end becomes the new floating wall. The cell it came out at becomes the
forbidden origin, where the next insertion may not happen. Then the player walks their ghost along
the wall exits to any reachable cell, and collects the active treasure by landing on it. A
computer player tries every insertion cell with every quarter turn of the floating wall and prefers
a move that opens a path to the treasure.

Modules, one per source file:

| module | file | source | form |
|---|---|---|---|
| `Pieces` | `pieces.dfy` | `Piece.java`, `Treasure.java`; the keyed sets of `LabyrinthObject.java` | datatype `Piece` (wall, treasure and ghost records); a keyed set is a `seq<Piece>` with lookup, add, update and remove by key |
| `Walls` | `wall.dfy` | `Wall.java` | orientation as a four-value datatype; the exit and rotation results as functions; the array-scanning Java methods as methods with loops |
| `Util` | `util.dfy` | `LabyrinthUtil.java` | the board geometry as functions; `getPieces` and `getPoints` as loops |
| `Shifts` | `shift.dfy` | `ShiftContext.java` | `createContext` as a function; `getPieces` and `shift` as loops |
| `ShiftEvents` | `shift_event.dfy` | `ShiftEvent.java` | pure functions; Java's truncating `/` is written out |
| `Paths` | `path.dfy` | `Path.java` | the depth-first search as mutually recursive methods that pass the shared visited set in and out; `Reachable` is the reference definition |
| `Boards` | `board.dfy` | `LabyrinthObject.java` | class `Board` with the game object's fields; `GameState` is one value of all of them |
| `Manager` | `manager.dfy` | `LabyrinthManager.java` | methods on a `Board` (`modifies b`), each proved equal to a specification function of the old state |
| `Eviction` | `eviction.dfy` | `LabyrinthManager.java`, `placeWall` | the theorem that an insertion keeps the maze tiled and evicts exactly one wall |
| `Startup` | `startup.dfy` | `LabyrinthManager.java`, `didStartup` | the set-up loops with their invariants |
| `AI` | `ai.dfy` | `LabyrinthAI.java` | the candidate loops of `processTurn`, on the shared `Board`, proved against a scan function |

Main results:

- **Walls.** Four rotations restore a wall, and rotation changes only its orientation. The exits
  are the canonical exits turned by the orientation index, and they are pairwise distinct.
  `canBeEnteredFrom(d)` holds exactly when the opposite of `d` is an exit.
- **Connectivity.** `findPath` returns a route exactly when the destination is reachable in the
  exit-matching graph. The route starts at the start cell, ends at the destination, repeats no
  cell and never touches the border. Completeness is proved from the shared visited set: when the
  search fails, the visited cells form a closed region that does not contain the destination.
  Reachability is symmetric.
- **Insertion.** On a maze with one wall per interior cell, `placeWall` with the floating wall
  evicts exactly one wall: the far end of the line. The maze stays tiled and no wall key is lost.
  The evicted wall lands on the insertion cell opposite, which becomes the forbidden origin, so
  the wall cannot be pushed straight back in. `didStartup` produces such a maze. The theorem holds
  for an insertion whose wall carries the floating wall's key and stands on an insertion cell, the
  condition of `Eviction.PlaceWallKeepsMaze`. Every computer player's insertion meets it; a wall
  sent by a client is not checked against it.
- **Ghost, treasures and scoring.** A ghost moves only when a path exists, and collects the active
  treasure by landing on it. `turnDidEnd` ends the game exactly when no treasure is active and every
  treasure is collected.
  `assignWinners` marks exactly the players who own the most treasures, so at least one player
  always wins.
- **Computer player.** `restore` after `extract` puts every piece back, and every trial leaves
  the board as it found it. The candidates the scan records are exactly the eight insertion cells
  times four turns, minus the forbidden origin: 32 or 28 trials. The chosen insertion is one whose trial finds a
  path whenever some candidate's trial does. The trial is not the insertion it stands for: it
  shifts the ghosts twice and leaves the treasures where they are (see Findings). The floating wall's turn never affects a trial, because the trial
  does not insert the floating wall. An AI turn keeps the maze in play.

The doc comment of `Path` and its code disagree. The comment says that the start is left out of
the route, but the code prepends it (`Path.java:141`). The model follows the code and returns the
route with the start included.

## Model

| member | source | states |
|---|---|---|
| Walls.OrientationIndex | src/java/com/mpgsoft/labyrinth/Wall.java:31-33 | the position of an orientation in the clockwise table N, E, S, W |
| Walls.GetOrientationIndex | src/java/com/mpgsoft/labyrinth/Wall.java:162-177 | the scan of the orientation table returns the position at which the orientation is found |
| Walls.Clockwise | src/java/com/mpgsoft/labyrinth/Wall.java:184-196 | turning by q quarter turns adds q to the orientation's index, modulo 4 |
| Walls.Exits | src/java/com/mpgsoft/labyrinth/Wall.java:115-146 | a wall has as many exits as its shape's canonical exit list |
| Walls.GetExits | src/java/com/mpgsoft/labyrinth/Wall.java:115-146 | each exit is the canonical exit of the same position, turned clockwise by the orientation's index |
| Walls.CanBeEnteredFrom | src/java/com/mpgsoft/labyrinth/Wall.java:91-108 | the loop answers true exactly when the opposite of the direction is an exit |
| Walls.Rotated | src/java/com/mpgsoft/labyrinth/Wall.java:151-155 | the orientation turns one quarter clockwise; key, cell and shape are unchanged |
| Walls.ClockwiseZero | src/java/com/mpgsoft/labyrinth/Wall.java:184-196 | no quarter turns leave a direction where it is |
| Walls.ClockwiseAdd | src/java/com/mpgsoft/labyrinth/Wall.java:184-196 | a turns followed by b turns equal a + b turns |
| Walls.OppositeInvolution | src/java/com/mpgsoft/labyrinth/Wall.java:184-196 | turning by two twice gives the direction back, and the opposite is another direction |
| Walls.RotateFourTimes | src/java/com/mpgsoft/labyrinth/Wall.java:151-155 | four rotations restore the wall |
| Walls.ExitsAreTurnedCanonical | src/java/com/mpgsoft/labyrinth/Wall.java:136-141 | exit i is canonical exit i turned by the orientation's index |
| Walls.NorthIsCanonical | src/java/com/mpgsoft/labyrinth/Wall.java:124-125 | a wall facing north has exactly the canonical exits |
| Walls.ExitCount | src/java/com/mpgsoft/labyrinth/Wall.java:48-50 | a T wall has three exits, a straight or L wall two |
| Walls.ExitsDistinct | src/java/com/mpgsoft/labyrinth/Wall.java:136-141 | no exit is listed twice |
| Walls.ExitsOfRotated | src/java/com/mpgsoft/labyrinth/Wall.java:151-155 | rotating a wall turns each of its exits one quarter clockwise |
| Walls.ExitsBySide | src/java/com/mpgsoft/labyrinth/Wall.java:48-50 | straight walls open to the facing side and its opposite, L walls to the facing side and the side clockwise of it, T walls to all but the side behind them |
| Walls.TShapeOpenSides | src/java/com/mpgsoft/labyrinth/Wall.java:48-50 | a T wall is open on a side exactly when that side is not behind it |
| Util.GetLocation | src/java/com/mpgsoft/labyrinth/LabyrinthUtil.java:29-31 | for a column in 0..4 the cell is recovered from its location: column by remainder, row by quotient |
| Util.IsMoveable | src/java/com/mpgsoft/labyrinth/LabyrinthUtil.java:120-122 | a movable cell lies in the 7x7 frame, on its border, and is not a corner |
| Util.MoveableCells | src/java/com/mpgsoft/labyrinth/LabyrinthUtil.java:112-122 | a cell is movable exactly when it is one of the eight insertion cells |
| Util.InsertionLocationsDistinct | src/java/com/mpgsoft/labyrinth/LabyrinthUtil.java:29-31 | the eight insertion cells have pairwise distinct locations, none of them 0 |
| Util.SurroundingInFrame | src/java/com/mpgsoft/labyrinth/LabyrinthUtil.java:128-139 | inside the frame a cell is surrounding exactly when it is not interior; (-1, -1) is not surrounding |
| Util.PiecesAt | src/java/com/mpgsoft/labyrinth/LabyrinthUtil.java:37-50 | exactly the pieces on the cell, no more pieces than the set holds |
| Util.GetPiecesAt | src/java/com/mpgsoft/labyrinth/LabyrinthUtil.java:37-50 | the loop collects exactly the pieces on the cell, in set order |
| Util.GetPoints | src/java/com/mpgsoft/labyrinth/LabyrinthUtil.java:56-69 | entry p of the score array is the number of treasures player p owns |
| Util.PointsSumToCollected | src/java/com/mpgsoft/labyrinth/LabyrinthUtil.java:56-69 | the scores add up to the number of collected treasures |
| Pieces.IndexOf | src/java/com/mpgsoft/labyrinth/LabyrinthManager.java:242 | `get(key)` finds the first entry with the key, and nothing exactly when the key is absent |
| Pieces.UpdateEntry | src/java/com/mpgsoft/labyrinth/LabyrinthObject.java:224-227 | every entry with the record's key is replaced by it; all others and the keys stay |
| Pieces.AddEntry | src/java/com/mpgsoft/labyrinth/LabyrinthObject.java:204-207 | the record is appended when its key is new, and the set is unchanged otherwise; keys stay unique |
| Pieces.RemoveKeys | src/java/com/mpgsoft/labyrinth/LabyrinthObject.java:214-217 | exactly the entries whose key is not removed remain; keys stay unique |
| Pieces.SameKeysAgree | src/java/com/mpgsoft/labyrinth/LabyrinthObject.java:224-227 | two sets with the same keys in the same places have the same key set, uniqueness and lookups |
| Pieces.RemoveKeysTwice | src/java/com/mpgsoft/labyrinth/LabyrinthObject.java:214-217 | removing keys one after another is removing them together |
| Pieces.RemoveAbsentKeys | src/java/com/mpgsoft/labyrinth/LabyrinthObject.java:214-217 | removing keys that are not present changes nothing |
| Shifts.CreateContext | src/java/com/mpgsoft/labyrinth/ShiftContext.java:76-123 | no context at the forbidden origin; otherwise a context exactly for x < 1 or x > 5 on rows 2 and 4 (horizontal, line y, rightward iff x <= 1) or for y < 1 or y > 5 on columns 2 and 4 (vertical, line x, downward iff y <= 1) |
| Shifts.Selected | src/java/com/mpgsoft/labyrinth/ShiftContext.java:148-162 | exactly the pieces on the context's line |
| Shifts.GetPieces | src/java/com/mpgsoft/labyrinth/ShiftContext.java:148-162 | the loop collects exactly the pieces on the line, in order |
| Shifts.Advance | src/java/com/mpgsoft/labyrinth/ShiftContext.java:213-236 | without wrap one step; with wrap a coordinate in 1..5 stays in 1..5, 0 becomes 5 and 6 becomes 1 |
| Shifts.Moved | src/java/com/mpgsoft/labyrinth/ShiftContext.java:205-242 | one step along the context's axis only; kind, key and line are kept |
| Shifts.ShiftAll | src/java/com/mpgsoft/labyrinth/ShiftContext.java:205-242 | the pieces on the line move one step, all others stay; keys stay in place |
| Shifts.Shift | src/java/com/mpgsoft/labyrinth/ShiftContext.java:205-242 | the loop moves the pieces on the line and returns them as the affected list |
| Shifts.ContextOnMoveableLine | src/java/com/mpgsoft/labyrinth/ShiftContext.java:88-116 | every accepted context is on line 2 or 4 |
| Shifts.InsertionCellAccepted | src/java/com/mpgsoft/labyrinth/ShiftContext.java:84-116 | an insertion cell is accepted exactly when it is not the forbidden origin |
| Shifts.InsertionPushesInward | src/java/com/mpgsoft/labyrinth/ShiftContext.java:88-116 | a wall on an accepted insertion cell is on the line and moves onto the interior |
| Shifts.DirectionCodeOfStep | src/java/com/mpgsoft/labyrinth/ShiftContext.java:130-138 | right is east, left west, down south, up north |
| Paths.ShiftFollowsDirectionCode | src/java/com/mpgsoft/labyrinth/ShiftContext.java:130-138 | a piece on the shifted line moves to its neighbour in the direction `getDirectionCode` names, unless it wraps |
| Shifts.AffectedIsSelectedAfter | src/java/com/mpgsoft/labyrinth/ShiftContext.java:205-242 | the affected list is the line's pieces after the move |
| Shifts.WrapRoundTrip | src/java/com/mpgsoft/labyrinth/ShiftContext.java:213-236 | a wrapping shift undone by the reverse wrapping shift restores the pieces |
| Shifts.CollectedTreasureNeverShifted | src/java/com/mpgsoft/labyrinth/LabyrinthManager.java:273-274 | a treasure parked at (-1, -1) is on no line, so no shift moves it |
| ShiftEvents.JavaDiv | src/java/com/mpgsoft/labyrinth/ShiftEvent.java:63 | division truncating toward zero, for either sign of the pixel |
| ShiftEvents.CreateEvent | src/java/com/mpgsoft/labyrinth/ShiftEvent.java:52-69 | an event exactly when the context is accepted at the pixel's tile; the event keeps the pixel origin and the context |
| ShiftEvents.GetMagnitude | src/java/com/mpgsoft/labyrinth/ShiftEvent.java:76-111 | the displacement along the axis, negated for left and up, clamped into 0..64 |
| ShiftEvents.MagnitudeUsesOneAxis | src/java/com/mpgsoft/labyrinth/ShiftEvent.java:82-99 | a horizontal drag ignores y and a vertical one ignores x |
| ShiftEvents.MagnitudeMonotone | src/java/com/mpgsoft/labyrinth/ShiftEvent.java:76-111 | dragging further in the shift's direction never lowers the magnitude |
| ShiftEvents.TileOfNearZero | src/java/com/mpgsoft/labyrinth/ShiftEvent.java:63 | pixels less than one tile away from 0 on either side give tile 0 |
| Paths.FirstIndexAt | src/java/com/mpgsoft/labyrinth/Path.java:158-173 | the first wall on the cell, or none exactly when no wall is there |
| Paths.WallAt | src/java/com/mpgsoft/labyrinth/Path.java:158-173 | none on a surrounding cell; elsewhere none exactly when no wall is on the cell |
| Paths.GetWall | src/java/com/mpgsoft/labyrinth/Path.java:158-173 | the scan returns the first wall on a non-surrounding cell |
| Paths.WallAtIsFirst | src/java/com/mpgsoft/labyrinth/Path.java:158-173 | the wall found is the first one standing on the cell |
| Paths.FindPathFrom | src/java/com/mpgsoft/labyrinth/Path.java:90-152 | no route from the border; the one-cell route at the destination; any route found is valid from the cell to the destination over newly visited cells; on failure the newly visited cells are closed and lack the destination |
| Paths.ExploreExits | src/java/com/mpgsoft/labyrinth/Path.java:118-148 | the exit loop: a route found starts here, and on failure every neighbour reached through an exit has been visited |
| Paths.ExploreExit | src/java/com/mpgsoft/labyrinth/Path.java:118-141 | one exit: step when the neighbour can be entered from it, and prepend the cell to the route found there |
| Paths.FindPath | src/java/com/mpgsoft/labyrinth/Path.java:80-84 | a route exactly when the destination is reachable; a route found starts at the start and ends at the destination |
| Paths.ClosedBlocks | src/java/com/mpgsoft/labyrinth/Path.java:90-152 | a walk from inside a closed region stays inside it, which makes the search complete |
| Paths.EdgeSymmetric | src/java/com/mpgsoft/labyrinth/Path.java:118-131 | a step one way can be taken back the other way |
| Paths.ReversedPath | src/java/com/mpgsoft/labyrinth/Path.java:118-131 | a reversed route is a route |
| Paths.ReachableSymmetric | src/java/com/mpgsoft/labyrinth/Path.java:118-131 | whoever can reach a cell can be reached from it |
| Paths.ReachableSelf | src/java/com/mpgsoft/labyrinth/Path.java:94-103 | an interior cell reaches itself |
| Paths.PathSizeBound | src/java/com/mpgsoft/labyrinth/Path.java:178-180 | a route visits at most as many cells as there are walls (25 on a tiled maze) |
| Paths.RouteOnWalls | src/java/com/mpgsoft/labyrinth/Path.java:108-110 | every cell of a route of more than one cell has a wall |
| Paths.NoWallNoRoute | src/java/com/mpgsoft/labyrinth/Path.java:101-110 | from a cell without a wall the only reachable cell is the cell itself |
| Boards.Board.constructor | src/java/com/mpgsoft/labyrinth/LabyrinthObject.java:53-95 | the fields start at their declared defaults: no active treasure, no wall placed, origin 0, empty sets |
| Boards.TiledWallAt | src/java/com/mpgsoft/labyrinth/Path.java:158-173 | on a tiled maze, an interior cell has exactly the wall that stands on it |
| Manager.EvictWalls | src/java/com/mpgsoft/labyrinth/LabyrinthManager.java:352-366 | the eviction loop removes every key that reached the border |
| Manager.EvictNone | src/java/com/mpgsoft/labyrinth/LabyrinthManager.java:352-366 | with no wall on the border, the floating wall and the origin stay |
| Manager.EvictLast | src/java/com/mpgsoft/labyrinth/LabyrinthManager.java:352-366 | the last wall on the border becomes the floating wall, with its cell's location as the origin |
| Manager.PlaceWallKeepsPoints | src/java/com/mpgsoft/labyrinth/LabyrinthManager.java:374-378 | an insertion moves treasures but leaves every player's points and the number collected as they were |
| Manager.PlaceWall | src/java/com/mpgsoft/labyrinth/LabyrinthManager.java:323-387 | the new state is the specification: unchanged when the context is rejected; otherwise flag set, wall added, line shifted without wrap, border walls evicted, ghosts and treasures shifted with wrap |
| Manager.PushWalls | src/java/com/mpgsoft/labyrinth/LabyrinthManager.java:344-366 | the walls, floating wall and origin are the eviction after the push; ghosts, treasures and flags are untouched |
| Manager.EvictShifted | src/java/com/mpgsoft/labyrinth/LabyrinthManager.java:352-366 | the loop leaves the walls, floating wall and origin equal to the eviction of the affected walls |
| Manager.PlaceWallFromClient | src/java/com/mpgsoft/labyrinth/LabyrinthManager.java:301-317 | a request from the turn holder before any wall this turn is `placeWall`; any other changes nothing |
| Manager.PlaceWallKeepsKeys | src/java/com/mpgsoft/labyrinth/LabyrinthManager.java:323-387 | a rejected cell changes nothing; an accepted one sets the flag; keys stay unique, ghosts and treasures keep their keys, the active treasure stays, and collected treasures do not move |
| Manager.PlaceGhost | src/java/com/mpgsoft/labyrinth/LabyrinthManager.java:238-295 | the new state is the specification: nothing without a path; else the ghost moves, and collects the active treasure when it lands on it |
| Manager.PlaceGhostFromClient | src/java/com/mpgsoft/labyrinth/LabyrinthManager.java:211-232 | a request from the turn holder after the wall, for their own ghost, is `placeGhost`; any other changes nothing and needs no ghost to exist |
| Manager.PlaceGhostKeepsKeys | src/java/com/mpgsoft/labyrinth/LabyrinthManager.java:238-295 | keys stay unique and in place; walls, floating wall and origin are untouched |
| Manager.OwnGhostMoves | src/java/com/mpgsoft/labyrinth/LabyrinthManager.java:242-261 | without a path nothing changes; with one exactly the player's ghost entry becomes the new ghost |
| Manager.CollectActive | src/java/com/mpgsoft/labyrinth/LabyrinthManager.java:265-283 | landing on the uncollected active treasure parks it at (-1, -1) as the player's, clears the active treasure, and raises that player's count and the collected count by one and no one else's |
| Manager.Remaining | src/java/com/mpgsoft/labyrinth/LabyrinthManager.java:459-462 | exactly the uncollected treasures |
| Manager.Uncollected | src/java/com/mpgsoft/labyrinth/LabyrinthManager.java:459-462 | the loop collects the uncollected treasures |
| Manager.TurnWillStart | src/java/com/mpgsoft/labyrinth/LabyrinthManager.java:438-479 | the flag is cleared and nothing else changes but the active treasure; it changes only when none is active and one remains, and then to an uncollected treasure's key |
| Manager.TurnDidEnd | src/java/com/mpgsoft/labyrinth/LabyrinthManager.java:392-409 | the game is over exactly when no treasure is active and all are collected |
| Manager.AllCollected | src/java/com/mpgsoft/labyrinth/LabyrinthManager.java:392-409 | all collected exactly when none remains, and exactly when the collected count is the number of treasures |
| Manager.MaxPoints | src/java/com/mpgsoft/labyrinth/LabyrinthManager.java:68-74 | the maximum starts at 0: it bounds every score and is 0 or some score |
| Manager.MaximumPoints | src/java/com/mpgsoft/labyrinth/LabyrinthManager.java:68-74 | the loop finds that maximum |
| Manager.AssignWinners | src/java/com/mpgsoft/labyrinth/LabyrinthManager.java:60-82 | player p is marked a winner exactly when nobody owns more treasures than p |
| Manager.WinnersLead | src/java/com/mpgsoft/labyrinth/LabyrinthManager.java:76-80 | marking the scores equal to the maximum marks exactly the players who own the most |
| Manager.LeadsIffOwnsMost | src/java/com/mpgsoft/labyrinth/LabyrinthManager.java:60-82 | the top score in the array is the top treasure count |
| Manager.TopIffMax | src/java/com/mpgsoft/labyrinth/LabyrinthManager.java:68-80 | for scores of at least 0, equalling the maximum is having no higher score beside you, so with all scores 0 everyone wins |
| Manager.SomeoneWins | src/java/com/mpgsoft/labyrinth/LabyrinthManager.java:60-82 | with at least one player, some player owns the most |
| Eviction.EvictOnly | src/java/com/mpgsoft/labyrinth/LabyrinthManager.java:352-366 | when one wall reaches the border, it is the floating wall, its cell is the origin, and only its key leaves the walls |
| Eviction.EvictAfterPush | src/java/com/mpgsoft/labyrinth/LabyrinthManager.java:344-366 | on a tiled maze the push evicts the far-end wall of the line onto an insertion cell, keeping the maze tiled and the wall keys |
| Eviction.PlaceWallKeepsMaze | src/java/com/mpgsoft/labyrinth/LabyrinthManager.java:323-387 | inserting the floating wall keeps the maze in play and the wall keys; the new floating wall is an old wall on the insertion cell opposite, and its cell is refused as the next insertion |
| Startup.NewWall | src/java/com/mpgsoft/labyrinth/Wall.java:72-74 | a new wall has the key and shape given and stands at (0, 0) |
| Startup.AddToPool | src/java/com/mpgsoft/labyrinth/LabyrinthManager.java:145-155 | the loop appends count walls of the shape with consecutive keys |
| Startup.MakePool | src/java/com/mpgsoft/labyrinth/LabyrinthManager.java:145-155 | seventeen movable walls with keys 10 to 26, five straight, six L, six T |
| Startup.DealCell | src/java/com/mpgsoft/labyrinth/LabyrinthManager.java:160-180 | one pool wall is moved onto the cell and out of the pool, keeping the dealing invariant |
| Startup.DealRow | src/java/com/mpgsoft/labyrinth/LabyrinthManager.java:160-180 | one row of the dealing loop keeps the invariant: each non-fixed cell dealt so far holds a pool wall |
| Startup.DealingEnds | src/java/com/mpgsoft/labyrinth/LabyrinthManager.java:160-186 | after the last row one wall is left, and parked at (0, 2) it completes the laid maze |
| Startup.BuildMaze | src/java/com/mpgsoft/labyrinth/LabyrinthManager.java:133-186 | one wall on every interior cell: the nine fixed walls first, the dealt movable walls elsewhere, the leftover floating at (0, 2), every key from 1 to 26 once |
| Startup.AddTreasures | src/java/com/mpgsoft/labyrinth/LabyrinthManager.java:197-199 | treasure i is added on cell i with no owner; nothing else changes |
| Startup.AddGhosts | src/java/com/mpgsoft/labyrinth/LabyrinthManager.java:201-203 | the ghost of player i is added on cell i; nothing else changes |
| Startup.DidStartup | src/java/com/mpgsoft/labyrinth/LabyrinthManager.java:105-205 | the maze laid, the treasures and ghosts on the given cells, the flags and origin unchanged |
| Startup.StartedIsSettled | src/java/com/mpgsoft/labyrinth/LabyrinthManager.java:105-205 | after set-up the maze is in play, keys are unique, ghost p is found by key p and no treasure is collected |
| AI.Extract | src/java/com/mpgsoft/labyrinth/LabyrinthAI.java:60-70 | the loop records each key's cell |
| AI.Restored | src/java/com/mpgsoft/labyrinth/LabyrinthAI.java:35-52 | the pieces keep their kind, number and keys |
| AI.Restore | src/java/com/mpgsoft/labyrinth/LabyrinthAI.java:35-52 | the loop moves each recorded piece back to its cell and leaves the others |
| AI.PositionsRecordCells | src/java/com/mpgsoft/labyrinth/LabyrinthAI.java:60-70 | the record holds exactly the set's keys, each with its piece's cell when keys are unique |
| AI.RestoreUndoes | src/java/com/mpgsoft/labyrinth/LabyrinthAI.java:35-70 | restoring from a record of the set undoes any change that only moved its pieces |
| AI.ShiftMovesOnly | src/java/com/mpgsoft/labyrinth/LabyrinthAI.java:139-141 | a shift only moves pieces |
| AI.ShiftForTrial | src/java/com/mpgsoft/labyrinth/LabyrinthAI.java:139-141 | walls shifted without wrap, ghosts twice with wrap, treasures and the floating wall untouched |
| AI.RestoreAll | src/java/com/mpgsoft/labyrinth/LabyrinthAI.java:159-166 | the three sets are back as recorded, so the board equals the state before the trial |
| AI.Simulate | src/java/com/mpgsoft/labyrinth/LabyrinthAI.java:136-166 | the board is unchanged afterwards, and the answer is whether that trial opens a path from the ghost to the treasure |
| AI.OpeningCell | src/java/com/mpgsoft/labyrinth/LabyrinthAI.java:128-157 | an insertion cell is in the opening set exactly when inserting there opens a path |
| AI.TryTurn | src/java/com/mpgsoft/labyrinth/LabyrinthAI.java:122-175 | one turn: the floating wall rotated once; a candidate exactly when the cell is accepted, with the trial's answer |
| AI.TryStep | src/java/com/mpgsoft/labyrinth/LabyrinthAI.java:122-184 | one turn extends the two lists by that turn's candidate, sorted by whether it opens a path |
| AI.TryCell | src/java/com/mpgsoft/labyrinth/LabyrinthAI.java:116-184 | the four turns at a cell record that cell's candidates; the floating wall is left on the cell, facing as before |
| AI.TryTurns | src/java/com/mpgsoft/labyrinth/LabyrinthAI.java:122-184 | the four trials at a cell record exactly its candidates and turn the floating wall once round |
| AI.ScanRow | src/java/com/mpgsoft/labyrinth/LabyrinthAI.java:110-186 | one row of the scan extends the lists by that row's candidates |
| AI.Evaluate | src/java/com/mpgsoft/labyrinth/LabyrinthAI.java:94-188 | the lists are the scanned candidates that open a path and those that do not; the floating wall is left on (4, 6), facing as before |
| AI.CandidatesIgnorePlace | src/java/com/mpgsoft/labyrinth/LabyrinthAI.java:116-118 | where the floating wall stood before being moved is not part of a candidate |
| AI.ScanEndsAt | src/java/com/mpgsoft/labyrinth/LabyrinthAI.java:109-118 | the last cell scanned is (4, 6) |
| AI.Choose | src/java/com/mpgsoft/labyrinth/LabyrinthAI.java:195-200 | a preferred candidate when there is one, otherwise a possible one |
| AI.Commit | src/java/com/mpgsoft/labyrinth/LabyrinthAI.java:211-245 | `placeWall` with the choice, then the ghost's move |
| AI.MoveAIGhost | src/java/com/mpgsoft/labyrinth/LabyrinthAI.java:226-245 | the ghost is put on the treasure's cell when a path exists and then handed to `placeGhost` |
| AI.ProcessTurn | src/java/com/mpgsoft/labyrinth/LabyrinthAI.java:77-250 | the choice is a scanned candidate, one that opens a path whenever any does; the board ends as the commit of that choice; a maze in play stays in play |
| AI.SortedMembers | src/java/com/mpgsoft/labyrinth/LabyrinthAI.java:177-182 | the preferred list holds exactly the candidates that open a path, the possible list exactly the others |
| AI.SortedPartition | src/java/com/mpgsoft/labyrinth/LabyrinthAI.java:177-182 | every candidate lands in exactly one list, and the list sizes add up to the number of candidates |
| AI.ChosenCandidate | src/java/com/mpgsoft/labyrinth/LabyrinthAI.java:195-200 | the pick is a candidate, and an opening one whenever some candidate opens |
| AI.ChosenOpens | src/java/com/mpgsoft/labyrinth/LabyrinthAI.java:195-200 | on the scanned candidates the pick opens a path whenever some candidate does |
| AI.CellAllOrNothing | src/java/com/mpgsoft/labyrinth/LabyrinthAI.java:122-182 | the four turns at one cell all go to the same list |
| AI.TurnPlaysNoPart | src/java/com/mpgsoft/labyrinth/LabyrinthAI.java:139-157 | the trial ignores the floating wall, so a cell's candidates are all preferred or all possible, by whether the cell opens a path |
| AI.FullScan | src/java/com/mpgsoft/labyrinth/LabyrinthAI.java:109-114 | the scan visits the eight insertion cells in row-major order |
| AI.ScanSize | src/java/com/mpgsoft/labyrinth/LabyrinthAI.java:109-130 | 28 candidates when the forbidden origin is an insertion cell, 32 otherwise |
| AI.CellTriesEveryTurn | src/java/com/mpgsoft/labyrinth/LabyrinthAI.java:122-130 | at an accepted cell the candidates are exactly the floating wall on that cell, facing each of the four ways |
| AI.CandidateRecorded | src/java/com/mpgsoft/labyrinth/LabyrinthAI.java:122-182 | turn k at an accepted cell is among the first d candidates for k <= d |
| AI.CellCount | src/java/com/mpgsoft/labyrinth/LabyrinthAI.java:122-130 | an accepted cell gives one candidate per turn, any other cell none |
| AI.CandidateFacts | src/java/com/mpgsoft/labyrinth/LabyrinthAI.java:169-175 | each candidate has the floating wall's key and shape, on an accepted insertion cell |
| AI.AIMoveCollects | src/java/com/mpgsoft/labyrinth/LabyrinthAI.java:226-245 | with a path the ghost lands on the treasure and collects it; without one nothing changes |
| AI.MoveGhostKeepsMaze | src/java/com/mpgsoft/labyrinth/LabyrinthAI.java:239-245 | the ghost's move leaves the walls, floating wall and origin alone |
| AI.AITurnKeepsMaze | src/java/com/mpgsoft/labyrinth/LabyrinthAI.java:211-245 | a computer player's turn keeps the maze in play |
| AI.TrialMissesSharedCell | src/java/com/mpgsoft/labyrinth/LabyrinthAI.java:139-147 | with the ghost on the active treasure at (4, 2), the trial of (0, 2) finds no path, although the real insertion there leaves ghost and treasure together on (5, 2) |
| AI.CommitOpensCollects | src/java/com/mpgsoft/labyrinth/LabyrinthAI.java:143-147 | judged on the real insertion, a preferred candidate is a move that collects the treasure and scores one point; a rejected one leaves the ghost where the insertion put it |

## Left out

- Rendering, mouse handling and sprite offsets are display code and are not part of this model. That covers the Swing classes and the `setOffset` methods of ShiftContext and ShiftEvent.
- Thread creation and `Thread.sleep` in the computer player are left out: they are concurrency and timing only. `processTurn` runs as one sequential method.
- Random choices are nondeterministic picks (`:|`), because the random source is foreign code. They cover the centre wall's orientation, each new wall's orientation, the pool wall dealt to a cell, the next active treasure and the AI's pick. The cells treasures and ghosts start on are parameters of `Startup.DidStartup`.
- The framework's turn machinery is left out because it is framework code: `endTurn`, `endGame`, player oids, `BodyObject`, the AI table and `turnDidStart`'s dispatch to the computer player. The client methods take a flag saying whether the request came from the turn holder.
- Error logging to `System.err` is not modelled, because it has no effect on state. A rejected request leaves the state unchanged.
- Deferred event propagation of the distributed sets and transactions is left out; it is framework code. Adds, updates and removals take effect at once, so `placeWall` shifts a set that already holds the inserted wall. The key set's iteration order is modelled as insertion order.
- Path's `toString` and `iterator` are left out: they are presentation only.
- Paths.FindPathFrom: the source reuses one mutable working point for the exits of a cell and adds that same object to the visited hash set before changing it for the next exit (`Path.java:113-137`), so earlier cells effectively drop out of the set and the source may search further. The model keeps every visited cell, and its routes are not claimed to be the ones the source returns.
- Java `int` overflow is left out. All coordinates and counters stay within a few hundred, so it cannot occur.
- The `abWinners` array of `assignWinners` is returned as a sequence of booleans rather than stored in the game object.
- Walls.GetOrientationIndex: its fallback to index 0 for an orientation code outside the table cannot be reached, because orientations are a four-value datatype.
- Walls.Rotated: `rotate()` changes the wall object's field in place. It is modelled on values, because walls are records inside the sets and no wall is aliased outside them.
- Manager.PlaceWall: the player index parameter is unused in the source and is not modelled.
- Manager.PlaceGhost: it requires the player's ghost to exist. The source dereferences it without a check, so a missing ghost would raise a NullPointerException there.
- Eviction.PlaceWallKeepsMaze: it is stated only for a wall that carries the floating wall's key and stands on an insertion cell. `placeWall` does not check that the wall it is sent is the floating wall. The computer player's pick always meets this condition, and `AI.AITurnKeepsMaze` relies on it.

## Findings

| source | as written | input that shows it | evidently intended | confidence | as-written member | corrected member |
|---|---|---|---|---|---|---|
| src/java/com/mpgsoft/labyrinth/LabyrinthAI.java:139-147 | the trial shifts the walls without the floating wall, shifts the ghosts twice and never shifts the treasures, although the comment says the treasure may have been shifted by the insertion | the player's ghost and the active treasure both on (4, 2), a tiled maze, insertion at (0, 2): the trial puts the ghost on the empty cell (1, 2) and finds no path, while the real insertion leaves ghost and treasure together on (5, 2) | the trial asks whether the real insertion opens a path to the treasure where it will be | not executed | AI.TrialMissesSharedCell | AI.CommitOpensCollects |

`AI.CommitOpens` is the corrected trial: it judges a candidate by the state the real `placeWall`
leaves. `AI.ProcessTurn` and its scan keep the trial as written, so the computer player is
modelled as the code behaves.
