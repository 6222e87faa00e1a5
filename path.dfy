/**
 * Pathfinding through the maze: a depth-first search over the interior
 * cells, moving from a tile through one of its exits into a neighbouring
 * tile that can be entered from that side.  One visited set is shared by the
 * whole search.
 */
module Paths {
  import opened Pieces
  import opened Walls
  import opened Util
  import Shifts

  /** `DIRECTION_OFFSETS`: the grid step of each direction. */
  function Offset(d: Direction): Point {
    match d
    case North => Point(0, -1)
    case South => Point(0, 1)
    case West => Point(-1, 0)
    case East => Point(1, 0)
  }

  function Neighbour(p: Point, d: Direction): Point {
    Point(p.x + Offset(d).x, p.y + Offset(d).y)
  }

  /**
   * `getDirectionCode` names the way a shift moves its pieces: a piece on the
   * line steps to its neighbour in that direction, unless it wraps.
   */
  lemma ShiftFollowsDirectionCode(ctx: Shifts.ShiftContext, p: Piece, wrap: bool)
    requires Shifts.OnLine(ctx, p)
    requires wrap ==> 1 <= (if ctx.orientation == Shifts.Horizontal then p.x else p.y) + ctx.direction <= 5
    ensures PositionOf(Shifts.Moved(ctx, p, wrap)) == Neighbour(PositionOf(p), Shifts.DirectionCode(ctx))
  {
  }

  predicate At(w: Piece, p: Point) {
    w.x == p.x && w.y == p.y
  }

  /** The index of the first wall of `walls` standing on `p`. */
  function FirstIndexAt(walls: seq<Wall>, p: Point): (r: Option<nat>)
    ensures r.Some? ==> r.value < |walls| && At(walls[r.value], p)
    ensures r.Some? ==> forall j :: 0 <= j < r.value ==> !At(walls[j], p)
    ensures r.None? <==> forall i :: 0 <= i < |walls| ==> !At(walls[i], p)
  {
    if walls == [] then None
    else if At(walls[0], p) then Some(0)
    else match FirstIndexAt(walls[1..], p)
      case None => None
      case Some(k) => Some(k + 1)
  }

  /** The wall `getWall` finds: none on the border, otherwise the first one on `p` in set order. */
  function WallAt(walls: seq<Wall>, p: Point): (r: Option<Wall>)
    ensures IsSurrounding(p.x, p.y) ==> r.None?
    ensures !IsSurrounding(p.x, p.y) ==> (r.None? <==> forall i :: 0 <= i < |walls| ==> !At(walls[i], p))
    ensures r.Some? ==> At(r.value, p)
  {
    if IsSurrounding(p.x, p.y) then None
    else match FirstIndexAt(walls, p)
      case None => None
      case Some(i) => Some(walls[i])
  }

  /** The wall found is the first one on `p` in set order. */
  lemma WallAtIsFirst(walls: seq<Wall>, p: Point)
    requires WallAt(walls, p).Some?
    ensures exists i :: (0 <= i < |walls| && walls[i] == WallAt(walls, p).value && At(walls[i], p) &&
      forall j :: 0 <= j < i ==> !At(walls[j], p))
  {
    var i := FirstIndexAt(walls, p).value;
    assert walls[i] == WallAt(walls, p).value;
  }

  lemma WallAtInCells(walls: seq<Wall>, p: Point)
    requires WallAt(walls, p).Some?
    ensures p in WallCells(walls)
  {
    WallAtIsFirst(walls, p);
  }

  /** The cells off the border that hold a wall. */
  function WallCells(walls: seq<Wall>): (r: set<Point>)
    ensures forall p :: p in r <==> exists i :: 0 <= i < |walls| && At(walls[i], p) && !IsSurrounding(p.x, p.y)
    ensures |r| <= |walls|
  {
    if walls == [] then {}
    else
      var init := walls[..|walls| - 1];
      var w := walls[|walls| - 1];
      assert walls == init + [w];
      WallCellsSnoc(init, w, WallCells(init));
      WallCells(init) + (if IsSurrounding(w.x, w.y) then {} else {PositionOf(w)})
  }

  /** Adding one wall to the cells of the walls before it gives the cells of all of them. */
  lemma WallCellsSnoc(init: seq<Wall>, w: Wall, r0: set<Point>)
    requires forall p :: p in r0 <==> exists i :: 0 <= i < |init| && At(init[i], p) && !IsSurrounding(p.x, p.y)
    requires |r0| <= |init|
    ensures var walls := init + [w]; var r := r0 + (if IsSurrounding(w.x, w.y) then {} else {PositionOf(w)});
      && (forall p :: p in r <==> exists i :: 0 <= i < |walls| && At(walls[i], p) && !IsSurrounding(p.x, p.y))
      && |r| <= |walls|
  {
    var walls := init + [w];
    assert forall i :: 0 <= i < |init| ==> walls[i] == init[i];
    assert walls[|init|] == w;
  }

  /** Moving from `p` in direction `d` lands on a wall that can be entered from that side. */
  predicate CanStep(walls: seq<Wall>, p: Point, d: Direction) {
    var n := Neighbour(p, d);
    WallAt(walls, n).Some? && EnterableFrom(WallAt(walls, n).value, d)
  }

  /** An edge of the maze graph: the tile at `a` has an exit towards `b`, and `b` accepts entry from it. */
  predicate Edge(walls: seq<Wall>, a: Point, b: Point) {
    WallAt(walls, a).Some? &&
    exists d :: d in Exits(WallAt(walls, a).value) && b == Neighbour(a, d) && CanStep(walls, a, d)
  }

  /** A route as `findPath` returns it: off the border, each step along an edge, no cell twice. */
  predicate ValidPath(walls: seq<Wall>, q: seq<Point>) {
    |q| >= 1 &&
    (forall i :: 0 <= i < |q| ==> !IsSurrounding(q[i].x, q[i].y)) &&
    (forall i :: 0 <= i < |q| - 1 ==> Edge(walls, q[i], q[i + 1])) &&
    (forall i, j :: 0 <= i < j < |q| ==> q[i] != q[j])
  }

  predicate IsPathBetween(walls: seq<Wall>, q: seq<Point>, start: Point, dest: Point) {
    ValidPath(walls, q) && q[0] == start && q[|q| - 1] == dest
  }

  ghost predicate Reachable(walls: seq<Wall>, start: Point, dest: Point) {
    exists q :: IsPathBetween(walls, q, start, dest)
  }

  /** Every edge leaving a cell of `from` ends in `within`. */
  ghost predicate Closed(walls: seq<Wall>, from: set<Point>, within: set<Point>) {
    forall q, n :: q in from && Edge(walls, q, n) ==> n in within
  }

  /** Either `d` leads nowhere from `p`, or the cell it leads to has been visited. */
  ghost predicate StepExplored(walls: seq<Wall>, p: Point, d: Direction, visited: set<Point>) {
    CanStep(walls, p, d) ==> Neighbour(p, d) in visited
  }

  /** `size()`: the number of points of the path, start included. */
  function Size(path: seq<Point>): nat {
    |path|
  }

  /** `getWall`: scan the walls for the first one on `p`, unless `p` is on the border. */
  method GetWall(walls: seq<Wall>, p: Point) returns (r: Option<Wall>)
    ensures r == WallAt(walls, p)
  {
    if !IsSurrounding(p.x, p.y) {
      for i := 0 to |walls|
        invariant forall j :: 0 <= j < i ==> !At(walls[j], p)
      {
        if walls[i].x == p.x && walls[i].y == p.y {
          return Some(walls[i]);
        }
      }
    }
    return None;
  }

  /**
   * The recursive `findPath`: explore from `p` with the shared visited set
   * `visited`, returning the route found (if any) and the visited set after
   * the search.  When no route is found, every cell this call visited has all
   * its edges leading into the visited set, and the destination is not among
   * the cells it visited.
   */
  method FindPathFrom(walls: seq<Wall>, p: Point, dest: Point, visited: set<Point>)
    returns (path: Option<seq<Point>>, visitedOut: set<Point>)
    ensures visited <= visitedOut
    ensures !IsSurrounding(p.x, p.y) ==> p in visitedOut
    ensures p !in visited && !IsSurrounding(p.x, p.y) && p == dest ==> path == Some([dest])
    ensures IsSurrounding(p.x, p.y) ==> path.None?
    ensures path.Some? ==> IsPathBetween(walls, path.value, p, dest)
    ensures path.Some? ==> forall i :: 0 <= i < |path.value| ==> path.value[i] in visitedOut - visited
    ensures path.None? ==> dest !in visitedOut - visited
    ensures path.None? ==> Closed(walls, visitedOut - visited, visitedOut)
    decreases |WallCells(walls) - visited|, 2
  {
    if p in visited || IsSurrounding(p.x, p.y) {
      return None, visited;
    }
    visitedOut := visited + {p};
    if p == dest {
      return Some([dest]), visitedOut;
    }
    var wall := GetWall(walls, p);
    if wall.None? {
      return None, visitedOut;
    }
    var exits := GetExits(wall.value);
    ExitsAreTurnedCanonical(wall.value);
    assert exits == Exits(wall.value);
    path, visitedOut := ExploreExits(walls, p, wall.value, exits, dest, visited);
  }

  /**
   * The exit loop of the recursive `findPath`, for a waypoint `p` already
   * added to the visited set: each exit leading into an enterable tile is
   * explored in turn, and the first route found gets `p` prepended.
   */
  method ExploreExits(walls: seq<Wall>, p: Point, wall: Wall, exits: seq<Direction>, dest: Point, visited: set<Point>)
    returns (path: Option<seq<Point>>, visitedOut: set<Point>)
    requires WallAt(walls, p) == Some(wall) && exits == Exits(wall)
    requires p !in visited && p != dest
    ensures visited + {p} <= visitedOut
    ensures path.Some? ==> IsPathBetween(walls, path.value, p, dest)
    ensures path.Some? ==> forall i :: 0 <= i < |path.value| ==> path.value[i] in visitedOut - visited
    ensures path.None? ==> dest !in visitedOut - visited
    ensures path.None? ==> Closed(walls, visitedOut - visited, visitedOut)
    decreases |WallCells(walls) - visited|, 1
  {
    WallAtInCells(walls, p);
    visitedOut := visited + {p};
    for i := 0 to |exits|
      invariant visited + {p} <= visitedOut
      invariant dest !in visitedOut - visited
      invariant ClosedExcept(walls, visitedOut - visited, visitedOut, p)
      invariant forall j :: 0 <= j < i ==> StepExplored(walls, p, exits[j], visitedOut)
    {
      var before := visitedOut;
      path, visitedOut := ExploreExit(walls, p, exits[i], dest, visited, before);
      if path.Some? {
        return path, visitedOut;
      }
      ExploredGrows(walls, p, exits, i, before, visitedOut);
      ClosedGrows(walls, visited, before, visitedOut, p);
    }
    AllExitsExplored(walls, p, wall, exits, visitedOut);
    return None, visitedOut;
  }

  /**
   * One turn of the exit loop: when the neighbouring tile in direction `d`
   * exists and can be entered from that side, search on from it and, on
   * success, put `p` in front of the route found.
   */
  method ExploreExit(walls: seq<Wall>, p: Point, d: Direction, dest: Point, visited: set<Point>, before: set<Point>)
    returns (path: Option<seq<Point>>, after: set<Point>)
    requires WallAt(walls, p).Some? && d in Exits(WallAt(walls, p).value)
    requires p in WallCells(walls) && p !in visited && p != dest && visited + {p} <= before
    ensures before <= after
    ensures StepExplored(walls, p, d, after)
    ensures path.Some? ==> IsPathBetween(walls, path.value, p, dest)
    ensures path.Some? ==> forall i :: 0 <= i < |path.value| ==> path.value[i] in after - visited
    ensures path.None? ==> dest !in after - before
    ensures path.None? ==> Closed(walls, after - before, after)
    decreases |WallCells(walls) - visited|, 0
  {
    var next := Neighbour(p, d);
    var nextWall := GetWall(walls, next);
    if nextWall.None? {
      return None, before;
    }
    var enterable := CanBeEnteredFrom(nextWall.value, d);
    if !enterable {
      return None, before;
    }
    FewerUnvisited(WallCells(walls), visited, before, p);
    var sub;
    sub, after := FindPathFrom(walls, next, dest, before);
    if sub.Some? {
      PrependStep(walls, p, d, sub.value, dest, after - before, after - visited);
      return Some([p] + sub.value), after;
    }
    return None, after;
  }

  /** The public `findPath`: a route exactly when the destination is reachable from the start. */
  method FindPath(walls: seq<Wall>, start: Point, dest: Point) returns (path: Option<seq<Point>>)
    ensures path.Some? ==> IsPathBetween(walls, path.value, start, dest)
    ensures path.Some? <==> Reachable(walls, start, dest)
    ensures IsSurrounding(start.x, start.y) ==> path.None?
    ensures start == dest && !IsSurrounding(start.x, start.y) ==> path == Some([dest])
  {
    var visited;
    path, visited := FindPathFrom(walls, start, dest, {});
    if path.None? {
      assert visited - {} == visited;
      ClosedBlocks(walls, visited, start);
    }
  }

  // ----- properties -----

  lemma FewerUnvisited(cells: set<Point>, a: set<Point>, b: set<Point>, p: Point)
    requires a <= b && p in cells && p in b && p !in a
    ensures |cells - b| < |cells - a|
  {
    var small := cells - b;
    var large := (cells - a) - {p};
    assert small <= large;
    assert large == small + (large - small) && small !! (large - small);
    assert |large| == |cells - a| - 1;
  }

  /** Every edge leaving a cell of `from` other than `p` ends in `within`. */
  ghost predicate ClosedExcept(walls: seq<Wall>, from: set<Point>, within: set<Point>, p: Point) {
    forall q, n :: q in from && q != p && Edge(walls, q, n) ==> n in within
  }

  lemma ClosedGrows(walls: seq<Wall>, visited: set<Point>, before: set<Point>, after: set<Point>, p: Point)
    requires visited <= before <= after
    requires ClosedExcept(walls, before - visited, before, p)
    requires Closed(walls, after - before, after)
    ensures ClosedExcept(walls, after - visited, after, p)
  {
  }

  /** Once every exit of `p` has been explored, every edge leaving `p` ends in `s`. */
  lemma AllExitsExplored(walls: seq<Wall>, p: Point, wall: Wall, exits: seq<Direction>, s: set<Point>)
    requires WallAt(walls, p) == Some(wall) && exits == Exits(wall)
    requires forall j :: 0 <= j < |exits| ==> StepExplored(walls, p, exits[j], s)
    ensures forall n :: Edge(walls, p, n) ==> n in s
  {
    forall n | Edge(walls, p, n) ensures n in s {
      var d :| d in Exits(wall) && n == Neighbour(p, d) && CanStep(walls, p, d);
      var j :| 0 <= j < |exits| && exits[j] == d;
      assert StepExplored(walls, p, exits[j], s);
    }
  }

  lemma ExploredGrows(walls: seq<Wall>, p: Point, exits: seq<Direction>, i: nat, before: set<Point>, after: set<Point>)
    requires i < |exits| && before <= after && StepExplored(walls, p, exits[i], after)
    requires forall j :: 0 <= j < i ==> StepExplored(walls, p, exits[j], before)
    ensures forall j :: 0 <= j < i + 1 ==> StepExplored(walls, p, exits[j], after)
  {
  }

  /**
   * `addFirst`: a step from `p` along an exit `d` onto the start of a route
   * gives a longer route.  When the route lies in `found` and `p` does not,
   * all its points lie in `s`, which holds `found` and `p`.
   */
  lemma PrependStep(walls: seq<Wall>, p: Point, d: Direction, q: seq<Point>, dest: Point,
                    found: set<Point>, s: set<Point>)
    requires WallAt(walls, p).Some? && d in Exits(WallAt(walls, p).value) && CanStep(walls, p, d)
    requires IsPathBetween(walls, q, Neighbour(p, d), dest)
    requires !IsSurrounding(p.x, p.y) && p !in found && p in s && found <= s
    requires forall i :: 0 <= i < |q| ==> q[i] in found
    ensures IsPathBetween(walls, [p] + q, p, dest)
    ensures forall i :: 0 <= i < |[p] + q| ==> ([p] + q)[i] in s
  {
    PrependPoints(p, q, found, s);
    PrependEdges(walls, p, d, q);
  }

  /** Putting a point that is off the border and outside `found` before a route inside `found`. */
  lemma PrependPoints(p: Point, q: seq<Point>, found: set<Point>, s: set<Point>)
    requires !IsSurrounding(p.x, p.y) && p !in found && p in s && found <= s
    requires forall i :: 0 <= i < |q| ==> q[i] in found && !IsSurrounding(q[i].x, q[i].y)
    requires forall i, j :: 0 <= i < j < |q| ==> q[i] != q[j]
    ensures forall i :: 0 <= i < |[p] + q| ==> !IsSurrounding(([p] + q)[i].x, ([p] + q)[i].y) && ([p] + q)[i] in s
    ensures forall i, j :: 0 <= i < j < |[p] + q| ==> ([p] + q)[i] != ([p] + q)[j]
  {
    var r := [p] + q;
    assert forall i :: 1 <= i < |r| ==> r[i] == q[i - 1];
    forall i, j | 0 <= i < j < |r| ensures r[i] != r[j] {
      if i == 0 {
        assert r[j] in found;
      }
    }
  }

  /** Putting `p` before a walk that starts one step from `p` keeps every step an edge. */
  lemma PrependEdges(walls: seq<Wall>, p: Point, d: Direction, q: seq<Point>)
    requires WallAt(walls, p).Some? && d in Exits(WallAt(walls, p).value) && CanStep(walls, p, d)
    requires |q| >= 1 && q[0] == Neighbour(p, d)
    requires forall i :: 0 <= i < |q| - 1 ==> Edge(walls, q[i], q[i + 1])
    ensures forall i :: 0 <= i < |[p] + q| - 1 ==> Edge(walls, ([p] + q)[i], ([p] + q)[i + 1])
  {
    assert Edge(walls, p, q[0]);
    var r := [p] + q;
    forall i | 0 <= i < |r| - 1 ensures Edge(walls, r[i], r[i + 1]) {
      if i > 0 {
        assert r[i] == q[i - 1] && r[i + 1] == q[i];
      }
    }
  }

  /** A walk that starts in an edge-closed set never leaves it. */
  lemma WalkStaysIn(walls: seq<Wall>, s: set<Point>, q: seq<Point>)
    requires Closed(walls, s, s)
    requires |q| >= 1 && q[0] in s
    requires forall i :: 0 <= i < |q| - 1 ==> Edge(walls, q[i], q[i + 1])
    ensures forall i :: 0 <= i < |q| ==> q[i] in s
  {
    forall i | 0 <= i < |q| ensures q[i] in s {
      WalkPointIn(walls, s, q, i);
    }
  }

  lemma {:induction false} WalkPointIn(walls: seq<Wall>, s: set<Point>, q: seq<Point>, i: nat)
    requires Closed(walls, s, s)
    requires i < |q| && q[0] in s
    requires forall i :: 0 <= i < |q| - 1 ==> Edge(walls, q[i], q[i + 1])
    ensures q[i] in s
  {
    if i > 0 {
      WalkPointIn(walls, s, q, i - 1);
      assert Edge(walls, q[i - 1], q[i]);
    }
  }

  /** Every route from a start inside an edge-closed set ends inside it. */
  lemma ClosedBlocks(walls: seq<Wall>, s: set<Point>, start: Point)
    requires Closed(walls, s, s)
    requires !IsSurrounding(start.x, start.y) ==> start in s
    ensures forall q :: ValidPath(walls, q) && q[0] == start ==> q[|q| - 1] in s
  {
    forall q | ValidPath(walls, q) && q[0] == start ensures q[|q| - 1] in s {
      WalkStaysIn(walls, s, q);
    }
  }

  lemma NeighbourBack(p: Point, d: Direction)
    ensures Neighbour(Neighbour(p, d), Opposite(d)) == p
  {
    assert Opposite(North) == South && Opposite(South) == North;
    assert Opposite(East) == West && Opposite(West) == East;
  }

  /** The maze graph is undirected. */
  lemma EdgeSymmetric(walls: seq<Wall>, a: Point, b: Point)
    requires Edge(walls, a, b)
    ensures Edge(walls, b, a)
  {
    var wa := WallAt(walls, a).value;
    var d :| d in Exits(wa) && b == Neighbour(a, d) && CanStep(walls, a, d);
    var wb := WallAt(walls, b).value;
    var e := Opposite(d);
    assert e in Exits(wb);
    NeighbourBack(a, d);
    assert a == Neighbour(b, e);
    OppositeInvolution(d);
    assert EnterableFrom(wa, e);
    assert CanStep(walls, b, e);
  }

  function Reverse(q: seq<Point>): (r: seq<Point>)
    ensures |r| == |q| && forall i :: 0 <= i < |q| ==> r[i] == q[|q| - 1 - i]
  {
    seq(|q|, i requires 0 <= i < |q| => q[|q| - 1 - i])
  }

  /** A route read backwards is a route. */
  lemma ReversedPath(walls: seq<Wall>, q: seq<Point>)
    requires ValidPath(walls, q)
    ensures ValidPath(walls, Reverse(q))
  {
    var r := Reverse(q);
    assert forall i :: 0 <= i < |r| ==> !IsSurrounding(r[i].x, r[i].y);
    assert forall i, j :: 0 <= i < j < |r| ==> r[i] != r[j] by {
      forall i, j | 0 <= i < j < |r| ensures r[i] != r[j] {
        assert r[i] == q[|q| - 1 - i] && r[j] == q[|q| - 1 - j];
      }
    }
    ReversedEdges(walls, q);
  }

  lemma ReversedEdges(walls: seq<Wall>, q: seq<Point>)
    requires |q| >= 1 && forall i :: 0 <= i < |q| - 1 ==> Edge(walls, q[i], q[i + 1])
    ensures forall i :: 0 <= i < |Reverse(q)| - 1 ==> Edge(walls, Reverse(q)[i], Reverse(q)[i + 1])
  {
    forall i | 0 <= i < |q| - 1 ensures Edge(walls, Reverse(q)[i], Reverse(q)[i + 1]) {
      ReversedEdge(walls, q, i);
    }
  }

  lemma ReversedEdge(walls: seq<Wall>, q: seq<Point>, i: nat)
    requires i < |q| - 1 && Edge(walls, q[|q| - 2 - i], q[|q| - 1 - i])
    ensures Edge(walls, Reverse(q)[i], Reverse(q)[i + 1])
  {
    var r := Reverse(q);
    assert r[i] == q[|q| - 1 - i] && r[i + 1] == q[|q| - 2 - i];
    EdgeSymmetric(walls, q[|q| - 2 - i], q[|q| - 1 - i]);
  }

  /** Reachability is symmetric. */
  lemma ReachableSymmetric(walls: seq<Wall>, a: Point, b: Point)
    requires Reachable(walls, a, b)
    ensures Reachable(walls, b, a)
  {
    var q :| IsPathBetween(walls, q, a, b);
    ReversedPath(walls, q);
    assert IsPathBetween(walls, Reverse(q), b, a);
  }

  /** A cell off the border reaches itself by the one-point route. */
  lemma ReachableSelf(walls: seq<Wall>, p: Point)
    requires !IsSurrounding(p.x, p.y)
    ensures Reachable(walls, p, p)
  {
    assert IsPathBetween(walls, [p], p, p);
  }

  lemma {:induction false} DistinctWithin(q: seq<Point>, s: set<Point>)
    requires forall i, j :: 0 <= i < j < |q| ==> q[i] != q[j]
    requires forall i :: 0 <= i < |q| ==> q[i] in s
    ensures |q| <= |s|
  {
    if q != [] {
      var last := q[|q| - 1];
      var init := q[..|q| - 1];
      assert forall i :: 0 <= i < |init| ==> init[i] in s - {last} by {
        forall i | 0 <= i < |init| ensures init[i] in s - {last} {
          assert init[i] == q[i];
        }
      }
      DistinctWithin(init, s - {last});
    }
  }

  /**
   * The size of a route: a route of two or more points visits only cells
   * holding walls, so it has at most one point per wall (25 on a full board).
   */
  lemma PathSizeBound(walls: seq<Wall>, q: seq<Point>)
    requires ValidPath(walls, q)
    ensures Size(q) == 1 || Size(q) <= |WallCells(walls)| <= |walls|
  {
    if |q| > 1 {
      forall i | 0 <= i < |q| ensures q[i] in WallCells(walls) {
        RouteOnWalls(walls, q, i);
        WallAtInCells(walls, q[i]);
      }
      DistinctWithin(q, WallCells(walls));
    }
  }

  /** From a cell without a wall no step can be taken: the only cell reachable from it is itself. */
  lemma NoWallNoRoute(walls: seq<Wall>, p: Point, dest: Point)
    requires WallAt(walls, p).None?
    ensures Reachable(walls, p, dest) ==> dest == p
  {
    forall q | |q| > 1 && q[0] == p
      ensures !ValidPath(walls, q)
    {
      assert !Edge(walls, q[0], q[1]);
    }
  }

  /** Every point of a route with at least one step holds a wall. */
  lemma RouteOnWalls(walls: seq<Wall>, q: seq<Point>, i: int)
    requires ValidPath(walls, q) && |q| > 1 && 0 <= i < |q|
    ensures WallAt(walls, q[i]).Some?
  {
    if i < |q| - 1 {
      assert Edge(walls, q[i], q[i + 1]);
    } else {
      assert Edge(walls, q[i - 1], q[i]);
      var d :| d in Exits(WallAt(walls, q[i - 1]).value) && q[i] == Neighbour(q[i - 1], d) && CanStep(walls, q[i - 1], d);
    }
  }
}
