/**
 * The server side of a turn: committing a wall insertion (shift, eviction,
 * new forbidden origin), moving a ghost along a path and collecting the
 * active treasure, the turn bookkeeping and the end-of-game scoring.
 */
module Manager {
  import opened Pieces
  import opened Walls
  import opened Util
  import opened Shifts
  import opened Paths
  import opened Boards

  // ----- placeWall -----

  /** The walls, the floating wall and the forbidden origin while the shifted walls are examined. */
  datatype Eviction = Eviction(walls: seq<Wall>, floating: Option<Wall>, origin: int)

  /** The keys of the walls in `aff` that stand on the border. */
  function EvictedIds(aff: seq<Wall>): set<int> {
    set i | 0 <= i < |aff| && IsSurrounding(aff[i].x, aff[i].y) :: aff[i].unique_id
  }

  /**
   * The loop over the walls the shift returned: each one now on the border
   * is removed from the walls and becomes the floating wall, and its cell's
   * location becomes the forbidden origin; the last such wall wins.
   */
  function Evict(e: Eviction, aff: seq<Wall>): Eviction {
    if aff == [] then e
    else
      var r0 := Evict(e, aff[..|aff| - 1]);
      var a := aff[|aff| - 1];
      if IsSurrounding(a.x, a.y) then
        Eviction(AsWalls(RemoveKeys(r0.walls, {a.unique_id})), Some(a), GetLocation(a.x, a.y))
      else r0
  }

  /** The eviction loop removes from the walls every key that reached the border. */
  lemma {:induction false} EvictWalls(e: Eviction, aff: seq<Wall>)
    ensures Evict(e, aff).walls == RemoveKeys(e.walls, EvictedIds(aff))
  {
    if aff == [] {
      assert EvictedIds(aff) == {};
      RemoveAbsentKeys(e.walls, {});
    } else {
      var init := aff[..|aff| - 1];
      var a := aff[|aff| - 1];
      EvictWalls(e, init);
      EvictedIdsSnoc(aff);
      var r0 := Evict(e, init);
      if IsSurrounding(a.x, a.y) {
        RemoveKeysTwice(e.walls, EvictedIds(init), a.unique_id);
        assert Evict(e, aff).walls == RemoveKeys(r0.walls, {a.unique_id});
        assert EvictedIds(aff) == EvictedIds(init) + {a.unique_id};
      } else {
        assert EvictedIds(aff) == EvictedIds(init);
      }
    }
  }

  /** When no shifted wall reached the border, the floating wall and the origin stay. */
  lemma {:induction false} EvictNone(e: Eviction, aff: seq<Wall>)
    requires forall i :: 0 <= i < |aff| ==> !IsSurrounding(aff[i].x, aff[i].y)
    ensures Evict(e, aff).floating == e.floating && Evict(e, aff).origin == e.origin
  {
    if aff != [] {
      EvictNone(e, aff[..|aff| - 1]);
    }
  }

  /** The last shifted wall that reached the border becomes the floating wall, its cell the origin. */
  lemma {:induction false} EvictLast(e: Eviction, aff: seq<Wall>, i: nat)
    requires i < |aff| && IsSurrounding(aff[i].x, aff[i].y)
    requires forall j :: i < j < |aff| ==> !IsSurrounding(aff[j].x, aff[j].y)
    ensures Evict(e, aff).floating == Some(aff[i]) && Evict(e, aff).origin == GetLocation(aff[i].x, aff[i].y)
  {
    if i < |aff| - 1 {
      var init := aff[..|aff| - 1];
      assert init[i] == aff[i];
      EvictLast(e, init, i);
    }
  }

  lemma EvictedIdsSnoc(aff: seq<Wall>)
    requires aff != []
    ensures var a := aff[|aff| - 1];
      EvictedIds(aff) == EvictedIds(aff[..|aff| - 1]) + (if IsSurrounding(a.x, a.y) then {a.unique_id} else {})
  {
    var init := aff[..|aff| - 1];
    forall id | id in EvictedIds(init) ensures id in EvictedIds(aff) {
      var i :| 0 <= i < |init| && IsSurrounding(init[i].x, init[i].y) && init[i].unique_id == id;
      assert aff[i] == init[i];
    }
  }

  /**
   * `placeWall(int, Wall)`: nothing happens unless `createContext` accepts
   * the wall's cell; otherwise the phase flag is set, the wall joins the
   * walls, its line is shifted without wrap, walls pushed onto the border are
   * evicted, and the line's ghosts and treasures are shifted with wrap.
   */
  function PlaceWallSpec(s: GameState, w: Wall): GameState {
    match CreateContext(s.floating_wall_origin, w.x, w.y)
    case None => s
    case Some(ctx) =>
      var added := AsWalls(AddEntry(s.walls, w));
      var e := Evict(Eviction(AsWalls(ShiftAll(ctx, added, false)), s.floating_wall, s.floating_wall_origin),
                     AsWalls(Affected(ctx, added, false)));
      s.(wall_placed := true, walls := e.walls, floating_wall := e.floating, floating_wall_origin := e.origin,
         ghosts := AsGhosts(ShiftAll(ctx, s.ghosts, true)), treasures := AsTreasures(ShiftAll(ctx, s.treasures, true)))
  }

  method PlaceWall(b: Board, w: Wall)
    modifies b
    ensures b.Snapshot() == PlaceWallSpec(old(b.Snapshot()), w)
  {
    ghost var s0 := b.Snapshot();
    var context := CreateContext(b.floating_wall_origin, w.x, w.y);
    if context.None? {
      return;
    }
    var ctx := context.value;
    b.wall_placed := true;
    PushWalls(b, ctx, w);
    var ghosts, _ := Shift(ctx, b.ghosts, true);
    b.ghosts := AsGhosts(ghosts);
    var treasures, _ := Shift(ctx, b.treasures, true);
    b.treasures := AsTreasures(treasures);
  }

  /** The walls part of `placeWall(int, Wall)`: add the wall, shift its line without wrap, evict. */
  method PushWalls(b: Board, ctx: ShiftContext, w: Wall)
    modifies b
    ensures var added := AsWalls(AddEntry(old(b.walls), w));
      Eviction(b.walls, b.floating_wall, b.floating_wall_origin) ==
        Evict(Eviction(AsWalls(ShiftAll(ctx, added, false)), old(b.floating_wall), old(b.floating_wall_origin)),
              AsWalls(Affected(ctx, added, false)))
    ensures b.wall_placed == old(b.wall_placed) && b.active_treasure == old(b.active_treasure)
    ensures b.ghosts == old(b.ghosts) && b.treasures == old(b.treasures)
  {
    b.walls := AsWalls(AddEntry(b.walls, w));
    var moved, shifted := Shift(ctx, b.walls, false);
    b.walls := AsWalls(moved);
    EvictShifted(b, AsWalls(shifted));
  }

  /** The eviction loop of `placeWall(int, Wall)` over the walls the shift returned. */
  method EvictShifted(b: Board, affected: seq<Wall>)
    modifies b
    ensures Eviction(b.walls, b.floating_wall, b.floating_wall_origin) ==
      Evict(Eviction(old(b.walls), old(b.floating_wall), old(b.floating_wall_origin)), affected)
    ensures b.wall_placed == old(b.wall_placed) && b.active_treasure == old(b.active_treasure)
    ensures b.ghosts == old(b.ghosts) && b.treasures == old(b.treasures)
  {
    ghost var start := Eviction(b.walls, b.floating_wall, b.floating_wall_origin);
    for i := 0 to |affected|
      invariant Evict(start, affected[..i]) == Eviction(b.walls, b.floating_wall, b.floating_wall_origin)
      invariant b.wall_placed == old(b.wall_placed) && b.active_treasure == old(b.active_treasure)
      invariant b.ghosts == old(b.ghosts) && b.treasures == old(b.treasures)
    {
      assert affected[..i + 1][..i] == affected[..i];
      var wall := affected[i];
      if IsSurrounding(wall.x, wall.y) {
        b.walls := AsWalls(RemoveKeys(b.walls, {wall.unique_id}));
        b.floating_wall := Some(wall);
        b.floating_wall_origin := GetLocation(wall.x, wall.y);
      }
    }
    assert affected[..|affected|] == affected;
  }

  /** The public `placeWall`: only the turn holder, and only before this turn's wall is placed. */
  method PlaceWallFromClient(b: Board, fromTurnHolder: bool, w: Wall)
    modifies b
    ensures b.Snapshot() ==
      if fromTurnHolder && !old(b.wall_placed) then PlaceWallSpec(old(b.Snapshot()), w) else old(b.Snapshot())
  {
    if !fromTurnHolder {
      return;
    } else if b.wall_placed {
      return;
    }
    PlaceWall(b, w);
  }

  /**
   * An accepted insertion sets the phase flag, keeps every keyed set's keys
   * unique, keeps the treasure and ghost keys where they were, and moves no
   * collected treasure parked at (-1, -1).
   */
  lemma PlaceWallKeepsKeys(s: GameState, w: Wall)
    requires WellKeyed(s)
    ensures CreateContext(s.floating_wall_origin, w.x, w.y).None? ==> PlaceWallSpec(s, w) == s
    ensures CreateContext(s.floating_wall_origin, w.x, w.y).Some? ==> PlaceWallSpec(s, w).wall_placed
    ensures WellKeyed(PlaceWallSpec(s, w))
    ensures SameKeys(s.ghosts, PlaceWallSpec(s, w).ghosts) && SameKeys(s.treasures, PlaceWallSpec(s, w).treasures)
    ensures PlaceWallSpec(s, w).active_treasure == s.active_treasure
    ensures forall i :: 0 <= i < |s.treasures| && s.treasures[i].x == -1 && s.treasures[i].y == -1 ==>
      PlaceWallSpec(s, w).treasures[i] == s.treasures[i]
  {
    var r := PlaceWallSpec(s, w);
    match CreateContext(s.floating_wall_origin, w.x, w.y)
    case None =>
    case Some(ctx) =>
      var added := AddEntry(s.walls, w);
      SameKeysAgree(added, ShiftAll(ctx, added, false));
      EvictWalls(Eviction(AsWalls(ShiftAll(ctx, added, false)), s.floating_wall, s.floating_wall_origin),
                 AsWalls(Affected(ctx, added, false)));
      SameKeysAgree(s.ghosts, r.ghosts);
      SameKeysAgree(s.treasures, r.treasures);
      forall i | 0 <= i < |s.treasures| && s.treasures[i].x == -1 && s.treasures[i].y == -1
        ensures r.treasures[i] == s.treasures[i]
      {
        CollectedTreasureNeverShifted(s.floating_wall_origin, w.x, w.y, s.treasures[i]);
      }
  }

  // ----- placeGhost -----

  /**
   * `placeGhost(int, Ghost)`: nothing happens unless a path leads from the
   * player's ghost to the requested cell; otherwise the player's ghost takes
   * that cell, the passed ghost replaces the entry with its key, and if the
   * active treasure stands on the cell the player collects it: it becomes
   * theirs, is parked at (-1, -1) and no treasure is active any more.
   */
  ghost function PlaceGhostSpec(s: GameState, player: int, g: Ghost): GameState
    requires player in Ids(s.ghosts)
  {
    var original := s.ghosts[IndexOf(s.ghosts, player).value];
    if !Reachable(s.walls, PositionOf(original), PositionOf(g)) then s
    else
      var ghosts := AsGhosts(UpdateEntry(AsGhosts(UpdateEntry(s.ghosts, GhostPiece(original.unique_id, g.x, g.y))), g));
      match IndexOf(s.treasures, s.active_treasure)
      case Some(k) =>
        var t := s.treasures[k];
        if t.x == g.x && t.y == g.y then
          s.(ghosts := ghosts,
             treasures := AsTreasures(UpdateEntry(s.treasures, TreasurePiece(t.unique_id, -1, -1, player))),
             active_treasure := -1)
        else s.(ghosts := ghosts)
      case None => s.(ghosts := ghosts)
  }

  method PlaceGhost(b: Board, player: int, g: Ghost)
    modifies b
    requires player in Ids(b.ghosts)
    ensures b.Snapshot() == PlaceGhostSpec(old(b.Snapshot()), player, g)
  {
    var original := b.ghosts[IndexOf(b.ghosts, player).value];
    var path := FindPath(b.walls, Point(original.x, original.y), Point(g.x, g.y));
    if path.None? {
      return;
    }
    b.ghosts := AsGhosts(UpdateEntry(b.ghosts, GhostPiece(original.unique_id, g.x, g.y)));
    b.ghosts := AsGhosts(UpdateEntry(b.ghosts, g));
    var found := IndexOf(b.treasures, b.active_treasure);
    if found.Some? {
      var t := b.treasures[found.value];
      if t.x == g.x && t.y == g.y {
        b.treasures := AsTreasures(UpdateEntry(b.treasures, TreasurePiece(t.unique_id, -1, -1, player)));
        b.active_treasure := -1;
      }
    }
  }

  /**
   * The public `placeGhost`: only the turn holder, only after this turn's
   * wall, and only for the ghost whose key is the turn holder's index.  The
   * turn holder's ghost is looked up only once all three checks pass.
   */
  method PlaceGhostFromClient(b: Board, fromTurnHolder: bool, turnHolder: int, g: Ghost)
    modifies b
    requires fromTurnHolder && b.wall_placed && g.unique_id == turnHolder ==> turnHolder in Ids(b.ghosts)
    ensures b.Snapshot() ==
      if fromTurnHolder && old(b.wall_placed) && g.unique_id == turnHolder
      then PlaceGhostSpec(old(b.Snapshot()), turnHolder, g) else old(b.Snapshot())
  {
    if !fromTurnHolder {
      return;
    } else if !b.wall_placed {
      return;
    } else if g.unique_id != turnHolder {
      return;
    }
    PlaceGhost(b, turnHolder, g);
  }

  /** Moving a ghost keeps every keyed set's keys unique and changes no key. */
  lemma PlaceGhostKeepsKeys(s: GameState, player: int, g: Ghost)
    requires WellKeyed(s) && player in Ids(s.ghosts)
    ensures WellKeyed(PlaceGhostSpec(s, player, g))
    ensures SameKeys(s.ghosts, PlaceGhostSpec(s, player, g).ghosts)
    ensures SameKeys(s.treasures, PlaceGhostSpec(s, player, g).treasures)
    ensures PlaceGhostSpec(s, player, g).walls == s.walls
    ensures PlaceGhostSpec(s, player, g).floating_wall == s.floating_wall
    ensures PlaceGhostSpec(s, player, g).floating_wall_origin == s.floating_wall_origin
  {
    var r := PlaceGhostSpec(s, player, g);
    var original := s.ghosts[IndexOf(s.ghosts, player).value];
    if Reachable(s.walls, PositionOf(original), PositionOf(g)) {
      var once := UpdateEntry(s.ghosts, GhostPiece(original.unique_id, g.x, g.y));
      SameKeysAgree(s.ghosts, once);
      SameKeysAgree(once, UpdateEntry(once, g));
      SameKeysAgree(s.treasures, r.treasures);
    }
  }

  /**
   * When the turn holder moves their own ghost: without a path nothing
   * changes; with one, their ghost is the requested one and every other
   * ghost stays as it was.
   */
  lemma OwnGhostMoves(s: GameState, player: int, g: Ghost)
    requires UniqueIds(s.ghosts) && player in Ids(s.ghosts) && g.unique_id == player
    ensures var k := IndexOf(s.ghosts, player).value;
      var r := PlaceGhostSpec(s, player, g);
      (!Reachable(s.walls, PositionOf(s.ghosts[k]), PositionOf(g)) ==> r == s) &&
      (Reachable(s.walls, PositionOf(s.ghosts[k]), PositionOf(g)) ==>
        |r.ghosts| == |s.ghosts| && r.ghosts[k] == g &&
        forall i :: 0 <= i < |s.ghosts| && i != k ==> r.ghosts[i] == s.ghosts[i])
  {
  }

  /**
   * Landing on the active, uncollected treasure collects it: the player's
   * count goes up by one, nobody else's changes, and no treasure is active.
   */
  lemma CollectActive(s: GameState, player: int, g: Ghost)
    requires UniqueIds(s.treasures) && player in Ids(s.ghosts) && player >= 0
    requires Reachable(s.walls, PositionOf(s.ghosts[IndexOf(s.ghosts, player).value]), PositionOf(g))
    requires IndexOf(s.treasures, s.active_treasure).Some?
    requires var t := s.treasures[IndexOf(s.treasures, s.active_treasure).value];
      t.x == g.x && t.y == g.y && !IsCollected(t)
    ensures var r := PlaceGhostSpec(s, player, g);
      r.active_treasure == -1 &&
      r.treasures[IndexOf(s.treasures, s.active_treasure).value] == TreasurePiece(s.active_treasure, -1, -1, player) &&
      OwnedBy(r.treasures, player) == OwnedBy(s.treasures, player) + 1 &&
      (forall q :: q != player ==> OwnedBy(r.treasures, q) == OwnedBy(s.treasures, q)) &&
      CollectedCount(r.treasures) == CollectedCount(s.treasures) + 1
  {
    var k := IndexOf(s.treasures, s.active_treasure).value;
    OwnedByUpdate(s.treasures, k, TreasurePiece(s.active_treasure, -1, -1, player));
  }

  /** Replacing one uncollected treasure by a collected one with the same key adds one to its new owner's count. */
  lemma {:induction false} OwnedByUpdate(ts: seq<Treasure>, k: nat, e: Treasure)
    requires UniqueIds(ts) && k < |ts| && e.unique_id == ts[k].unique_id
    requires !IsCollected(ts[k]) && IsCollected(e)
    ensures forall q :: OwnedBy(AsTreasures(UpdateEntry(ts, e)), q) == OwnedBy(ts, q) + (if q == e.owner then 1 else 0)
    ensures CollectedCount(AsTreasures(UpdateEntry(ts, e))) == CollectedCount(ts) + 1
  {
    var n := |ts|;
    var init := ts[..n - 1];
    var u := AsTreasures(UpdateEntry(ts, e));
    assert u[..n - 1] == AsTreasures(UpdateEntry(init, e));
    if k == n - 1 {
      assert AsTreasures(UpdateEntry(init, e)) == init;
      assert u[n - 1] == e;
    } else {
      assert u[n - 1] == ts[n - 1];
      OwnedByUpdate(init, k, e);
    }
  }

  /** Two treasure lists with the same owners, index by index, give every player the same points. */
  lemma {:induction false} OwnersKeepPoints(a: seq<Treasure>, b: seq<Treasure>)
    requires |a| == |b| && forall i :: 0 <= i < |a| ==> a[i].owner == b[i].owner
    ensures forall q :: OwnedBy(a, q) == OwnedBy(b, q)
  {
    if a != [] {
      OwnersKeepPoints(a[..|a| - 1], b[..|b| - 1]);
    }
  }

  /** Inserting a wall moves treasures but takes no point from anybody and gives none. */
  lemma PlaceWallKeepsPoints(s: GameState, w: Wall)
    ensures forall q :: OwnedBy(PlaceWallSpec(s, w).treasures, q) == OwnedBy(s.treasures, q)
    ensures CollectedCount(PlaceWallSpec(s, w).treasures) == CollectedCount(s.treasures)
  {
    var r := PlaceWallSpec(s, w);
    if CreateContext(s.floating_wall_origin, w.x, w.y).Some? {
      OwnersKeepPoints(r.treasures, s.treasures);
      OwnersKeepCount(r.treasures, s.treasures);
    }
  }

  /** Two treasure lists with the same owners, index by index, have as many collected treasures. */
  lemma {:induction false} OwnersKeepCount(a: seq<Treasure>, b: seq<Treasure>)
    requires |a| == |b| && forall i :: 0 <= i < |a| ==> a[i].owner == b[i].owner
    ensures CollectedCount(a) == CollectedCount(b)
  {
    if a != [] {
      OwnersKeepCount(a[..|a| - 1], b[..|b| - 1]);
    }
  }

  // ----- turn bookkeeping -----

  /** The treasures not collected yet, in set order. */
  function Remaining(ts: seq<Treasure>): (r: seq<Treasure>)
    ensures forall t :: t in r <==> t in ts && !IsCollected(t)
    ensures |r| <= |ts|
  {
    if ts == [] then []
    else
      var last := ts[|ts| - 1];
      assert ts == ts[..|ts| - 1] + [last];
      Remaining(ts[..|ts| - 1]) + (if IsCollected(last) then [] else [last])
  }

  /**
   * `turnWillStart`: clears the phase flag and, only when no treasure is
   * active, makes one of the uncollected treasures active (any of them; the
   * game picks at random), if there is one.
   */
  method TurnWillStart(b: Board)
    modifies b
    ensures b.Snapshot() == old(b.Snapshot()).(wall_placed := false, active_treasure := b.active_treasure)
    ensures old(b.active_treasure) >= 0 || Remaining(b.treasures) == [] ==>
      b.active_treasure == old(b.active_treasure)
    ensures old(b.active_treasure) < 0 && Remaining(b.treasures) != [] ==>
      exists i :: 0 <= i < |b.treasures| && !IsCollected(b.treasures[i]) && b.treasures[i].unique_id == b.active_treasure
  {
    b.wall_placed := false;
    if b.active_treasure < 0 {
      var remaining := Uncollected(b.treasures);
      if |remaining| > 0 {
        var k :| 0 <= k < |remaining|;
        assert remaining[k] in b.treasures;
        b.active_treasure := remaining[k].unique_id;
      }
    }
  }

  /** The loop of `turnWillStart` that lists the treasures not collected yet. */
  method Uncollected(ts: seq<Treasure>) returns (remaining: seq<Treasure>)
    ensures remaining == Remaining(ts)
  {
    remaining := [];
    for i := 0 to |ts|
      invariant remaining == Remaining(ts[..i])
    {
      assert ts[..i + 1][..i] == ts[..i];
      if !IsCollected(ts[i]) {
        remaining := remaining + [ts[i]];
      }
    }
    assert ts[..|ts|] == ts;
  }

  /** `turnDidEnd`: the game ends when no treasure is active and every treasure has been collected. */
  method TurnDidEnd(b: Board) returns (gameOver: bool)
    ensures gameOver <==> b.active_treasure < 0 && forall i :: 0 <= i < |b.treasures| ==> IsCollected(b.treasures[i])
  {
    if b.active_treasure >= 0 {
      return false;
    }
    for i := 0 to |b.treasures|
      invariant forall j :: 0 <= j < i ==> IsCollected(b.treasures[j])
    {
      if !IsCollected(b.treasures[i]) {
        return false;
      }
    }
    return true;
  }

  /** All treasures are collected exactly when none remains and when the collected count is the whole set. */
  lemma {:induction false} AllCollected(ts: seq<Treasure>)
    ensures (forall i :: 0 <= i < |ts| ==> IsCollected(ts[i])) <==> Remaining(ts) == []
    ensures (forall i :: 0 <= i < |ts| ==> IsCollected(ts[i])) <==> CollectedCount(ts) == |ts|
  {
    if ts != [] {
      var init := ts[..|ts| - 1];
      AllCollected(init);
      assert forall i :: 0 <= i < |init| ==> init[i] == ts[i];
      CollectedAtMost(init);
    }
  }

  lemma {:induction false} CollectedAtMost(ts: seq<Treasure>)
    ensures CollectedCount(ts) <= |ts|
  {
    if ts != [] {
      CollectedAtMost(ts[..|ts| - 1]);
    }
  }

  // ----- scoring -----

  /** The running maximum of `assignWinners`, which starts at 0. */
  function MaxPoints(points: seq<int>): (m: int)
    ensures m >= 0 && forall i :: 0 <= i < |points| ==> points[i] <= m
    ensures m == 0 || exists i :: 0 <= i < |points| && points[i] == m
  {
    if points == [] then 0
    else
      var m0 := MaxPoints(points[..|points| - 1]);
      var last := points[|points| - 1];
      assert forall i :: 0 <= i < |points| - 1 ==> points[i] == points[..|points| - 1][i];
      if last > m0 then last else m0
  }

  /**
   * `assignWinners`: a player wins exactly when nobody has more points; as the
   * maximum starts at 0 and points are counts, a tie at 0 makes everyone a winner.
   */
  method AssignWinners(b: Board) returns (winners: seq<bool>)
    requires OwnersBelow(b.treasures, b.players)
    ensures |winners| == b.players
    ensures forall p :: 0 <= p < b.players ==>
      (winners[p] <==> OwnsMost(b.treasures, b.players, p))
  {
    var points := GetPoints(b.treasures, b.players);
    var maximum := MaximumPoints(points);
    var a := new bool[b.players];
    for p := 0 to a.Length
      invariant forall j :: 0 <= j < p ==> a[j] == (points[j] == maximum)
    {
      a[p] := points[p] == maximum;
    }
    winners := a[..];
    WinnersLead(b.treasures, points, winners);
  }

  /** The first loop of `assignWinners`: the largest count, starting from 0. */
  method MaximumPoints(points: seq<int>) returns (maximum: int)
    ensures maximum == MaxPoints(points)
  {
    maximum := 0;
    for i := 0 to |points|
      invariant maximum == MaxPoints(points[..i])
    {
      assert points[..i + 1][..i] == points[..i];
      if points[i] > maximum {
        maximum := points[i];
      }
    }
    assert points[..|points|] == points;
  }

  /** Marking the players whose count is the maximum marks those owning no fewer treasures than anyone. */
  lemma WinnersLead(ts: seq<Treasure>, points: seq<int>, winners: seq<bool>)
    requires forall q :: 0 <= q < |points| ==> points[q] == OwnedBy(ts, q)
    requires |winners| == |points| && forall j :: 0 <= j < |points| ==> winners[j] == (points[j] == MaxPoints(points))
    ensures forall p :: 0 <= p < |points| ==> (winners[p] <==> OwnsMost(ts, |points|, p))
  {
    forall p | 0 <= p < |points| ensures winners[p] <==> OwnsMost(ts, |points|, p) {
      TopIffMax(points, p);
      LeadsIffOwnsMost(ts, points, p);
    }
  }

  /** Player `p` owns no fewer treasures than any of the `players` seats. */
  predicate OwnsMost(ts: seq<Treasure>, players: nat, p: int) {
    forall q :: 0 <= q < players ==> OwnedBy(ts, q) <= OwnedBy(ts, p)
  }

  /** Having no fewer points than anyone, stated on the point counts. */
  predicate Leads(points: seq<int>, p: nat)
    requires p < |points|
  {
    forall q :: 0 <= q < |points| ==> points[q] <= points[p]
  }

  /** Leading on the counts `getPoints` returned is owning no fewer treasures than anyone. */
  lemma LeadsIffOwnsMost(ts: seq<Treasure>, points: seq<int>, p: nat)
    requires p < |points| && forall q :: 0 <= q < |points| ==> points[q] == OwnedBy(ts, q)
    ensures Leads(points, p) <==> OwnsMost(ts, |points|, p)
  {
    if Leads(points, p) {
      forall q | 0 <= q < |points| ensures OwnedBy(ts, q) <= OwnedBy(ts, p) {
        assert points[q] <= points[p];
      }
    } else {
      var q :| 0 <= q < |points| && points[q] > points[p];
      assert OwnedBy(ts, q) > OwnedBy(ts, p);
    }
  }

  /** With counts that are never negative, hitting the maximum is having no fewer points than anyone. */
  lemma TopIffMax(points: seq<int>, p: nat)
    requires p < |points| && forall i :: 0 <= i < |points| ==> points[i] >= 0
    ensures points[p] == MaxPoints(points) <==> Leads(points, p)
  {
    var m := MaxPoints(points);
    if m != 0 {
      var i :| 0 <= i < |points| && points[i] == m;
    }
  }

  /** Somebody always wins a game with at least one player. */
  lemma SomeoneWins(ts: seq<Treasure>, players: nat)
    requires players > 0
    ensures exists p :: 0 <= p < players && OwnsMost(ts, players, p)
  {
    var points := seq(players, p => OwnedBy(ts, p));
    var m := MaxPoints(points);
    assert forall q :: 0 <= q < players ==> OwnedBy(ts, q) == points[q];
    if m == 0 {
      assert points[0] == OwnedBy(ts, 0);
      assert forall q :: 0 <= q < players ==> OwnedBy(ts, q) <= OwnedBy(ts, 0);
      assert OwnsMost(ts, players, 0);
    } else {
      var p :| 0 <= p < players && points[p] == m;
      assert OwnsMost(ts, players, p);
    }
  }
}
