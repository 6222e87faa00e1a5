/**
 * Why `placeWall` keeps the maze whole.  On a maze with one wall per
 * interior cell, inserting the floating wall at an insertion cell pushes
 * exactly one wall, the one at the far end of the line, onto the opposite
 * border cell; that wall is evicted and becomes the floating wall, so the
 * maze again has one wall per interior cell and no wall is lost.
 */
module Eviction {
  import opened Pieces
  import opened Util
  import opened Shifts
  import opened Boards
  import opened Manager

  // ----- coordinates along and across the shifted line -----

  /** The coordinate of a cell that the shift changes. */
  function AlongOf(ctx: ShiftContext, c: Point): int {
    if ctx.orientation == Horizontal then c.x else c.y
  }

  /** The coordinate of a cell that the shift keeps; it names the line. */
  function AcrossOf(ctx: ShiftContext, c: Point): int {
    if ctx.orientation == Horizontal then c.y else c.x
  }

  /** The last interior cell of the line, from which walls are pushed out. */
  function FarEnd(ctx: ShiftContext): int {
    if ctx.direction == 1 then 5 else 1
  }

  /** The first interior cell of the line, where the inserted wall arrives. */
  function NearEnd(ctx: ShiftContext): int {
    if ctx.direction == 1 then 1 else 5
  }

  lemma SameCell(ctx: ShiftContext, c: Point, d: Point)
    ensures c == d <==> AlongOf(ctx, c) == AlongOf(ctx, d) && AcrossOf(ctx, c) == AcrossOf(ctx, d)
  {
  }

  lemma MovedCoordinates(ctx: ShiftContext, p: Piece)
    ensures AlongOf(ctx, PositionOf(Moved(ctx, p, false))) == AlongOf(ctx, PositionOf(p)) + ctx.direction
    ensures AcrossOf(ctx, PositionOf(Moved(ctx, p, false))) == AcrossOf(ctx, PositionOf(p))
    ensures OnLine(ctx, p) <==> AcrossOf(ctx, PositionOf(p)) == ctx.location
  {
  }

  lemma InteriorIff(c: Point)
    ensures c in Interior() <==> IsInterior(c.x, c.y)
  {
    if IsInterior(c.x, c.y) {
      assert c == Point(c.x, c.y);
    }
  }

  /** Every wall of a tiled maze is on an interior cell. */
  lemma TiledInterior(walls: seq<Wall>, i: nat)
    requires Tiled(walls) && i < |walls|
    ensures IsInterior(walls[i].x, walls[i].y)
  {
    assert PositionOf(walls[i]) in Cells(walls);
    InteriorIff(PositionOf(walls[i]));
  }

  /** The inserted wall lies on the line, one step outside its near end. */
  predicate Entering(ctx: ShiftContext, w: Wall) {
    OnLine(ctx, w) && AlongOf(ctx, PositionOf(w)) + ctx.direction == NearEnd(ctx)
  }

  /** The walls with the inserted wall appended, after the shift without wrap. */
  function Pushed(ctx: ShiftContext, walls: seq<Wall>, w: Wall): seq<Piece> {
    ShiftAll(ctx, walls + [w], false)
  }

  lemma PushedAt(ctx: ShiftContext, walls: seq<Wall>, w: Wall, i: nat)
    requires i <= |walls|
    ensures |Pushed(ctx, walls, w)| == |walls| + 1
    ensures i < |walls| ==> Pushed(ctx, walls, w)[i] == if OnLine(ctx, walls[i]) then Moved(ctx, walls[i], false) else walls[i]
    ensures i == |walls| ==> Pushed(ctx, walls, w)[i] == if OnLine(ctx, w) then Moved(ctx, w, false) else w
  {
    assert (walls + [w])[i] == if i < |walls| then walls[i] else w;
  }

  // ----- the far-end wall -----

  /** A tiled maze has exactly one wall at the far end of a movable line. */
  lemma FarEndWall(ctx: ShiftContext, walls: seq<Wall>) returns (i0: nat)
    requires Tiled(walls) && IsMoveableLine(ctx.location)
    ensures i0 < |walls| && OnLine(ctx, walls[i0]) && AlongOf(ctx, PositionOf(walls[i0])) == FarEnd(ctx)
    ensures forall i :: 0 <= i < |walls| && OnLine(ctx, walls[i]) && AlongOf(ctx, PositionOf(walls[i])) == FarEnd(ctx) ==> i == i0
  {
    var c := if ctx.orientation == Horizontal then Point(FarEnd(ctx), ctx.location) else Point(ctx.location, FarEnd(ctx));
    InteriorIff(c);
    assert c in Cells(walls);
    i0 :| 0 <= i0 < |walls| && PositionOf(walls[i0]) == c;
    forall i | 0 <= i < |walls| && OnLine(ctx, walls[i]) && AlongOf(ctx, PositionOf(walls[i])) == FarEnd(ctx)
      ensures i == i0
    {
      SameCell(ctx, PositionOf(walls[i]), c);
    }
  }

  /** After the push every wall but the far-end one is inside, and that one is on an insertion cell. */
  lemma PushedInside(ctx: ShiftContext, walls: seq<Wall>, w: Wall, i0: nat)
    requires Tiled(walls) && IsMoveableLine(ctx.location) && Entering(ctx, w)
    requires i0 < |walls| && OnLine(ctx, walls[i0]) && AlongOf(ctx, PositionOf(walls[i0])) == FarEnd(ctx)
    requires forall i :: 0 <= i < |walls| && OnLine(ctx, walls[i]) && AlongOf(ctx, PositionOf(walls[i])) == FarEnd(ctx) ==> i == i0
    ensures var sh := Pushed(ctx, walls, w);
      forall i :: 0 <= i < |sh| && i != i0 ==> IsInterior(sh[i].x, sh[i].y)
    ensures var sh := Pushed(ctx, walls, w);
      IsMoveable(sh[i0].x, sh[i0].y) && sh[i0] == Moved(ctx, walls[i0], false)
  {
    var sh := Pushed(ctx, walls, w);
    forall i | 0 <= i < |sh| && i != i0 ensures IsInterior(sh[i].x, sh[i].y) {
      PushedAt(ctx, walls, w, i);
      if i < |walls| {
        TiledInterior(walls, i);
        MovedCoordinates(ctx, walls[i]);
      } else {
        MovedCoordinates(ctx, w);
      }
    }
    PushedAt(ctx, walls, w, i0);
    MovedCoordinates(ctx, walls[i0]);
  }

  /** After the push no two walls share a cell. */
  lemma PushedDistinct(ctx: ShiftContext, walls: seq<Wall>, w: Wall, i: nat, j: nat)
    requires Tiled(walls) && IsMoveableLine(ctx.location) && Entering(ctx, w)
    requires i < j <= |walls|
    ensures PositionOf(Pushed(ctx, walls, w)[i]) != PositionOf(Pushed(ctx, walls, w)[j])
  {
    var sh := Pushed(ctx, walls, w);
    PushedAt(ctx, walls, w, i);
    PushedAt(ctx, walls, w, j);
    MovedCoordinates(ctx, walls[i]);
    MovedCoordinates(ctx, w);
    TiledInterior(walls, i);
    SameCell(ctx, PositionOf(sh[i]), PositionOf(sh[j]));
    if j < |walls| {
      MovedCoordinates(ctx, walls[j]);
      SameCell(ctx, PositionOf(walls[i]), PositionOf(walls[j]));
    }
  }

  /** After the push every interior cell holds a wall other than the far-end one. */
  lemma PushedCovers(ctx: ShiftContext, walls: seq<Wall>, w: Wall, i0: nat, c: Point) returns (i: nat)
    requires Tiled(walls) && IsMoveableLine(ctx.location) && Entering(ctx, w)
    requires i0 < |walls| && OnLine(ctx, walls[i0]) && AlongOf(ctx, PositionOf(walls[i0])) == FarEnd(ctx)
    requires IsInterior(c.x, c.y)
    ensures i < |Pushed(ctx, walls, w)| && i != i0 && PositionOf(Pushed(ctx, walls, w)[i]) == c
  {
    var sh := Pushed(ctx, walls, w);
    InteriorIff(c);
    if AcrossOf(ctx, c) != ctx.location {
      assert c in Cells(walls);
      i :| 0 <= i < |walls| && PositionOf(walls[i]) == c;
      MovedCoordinates(ctx, walls[i]);
      PushedAt(ctx, walls, w, i);
    } else if AlongOf(ctx, c) == NearEnd(ctx) {
      i := |walls|;
      PushedAt(ctx, walls, w, i);
      MovedCoordinates(ctx, w);
      SameCell(ctx, PositionOf(sh[i]), c);
    } else {
      var before := if ctx.orientation == Horizontal then Point(c.x - ctx.direction, c.y) else Point(c.x, c.y - ctx.direction);
      InteriorIff(before);
      assert before in Cells(walls);
      i :| 0 <= i < |walls| && PositionOf(walls[i]) == before;
      MovedCoordinates(ctx, walls[i]);
      PushedAt(ctx, walls, w, i);
      SameCell(ctx, PositionOf(sh[i]), c);
    }
  }

  // ----- removing the evicted wall -----

  /**
   * Removing the key of entry `i0` from a keyed collection in which every
   * other entry is inside, on a cell of its own, and every interior cell is
   * covered, leaves a tiled maze.
   */
  lemma RemoveOneTiled(sh: seq<Piece>, i0: nat)
    requires i0 < |sh| && UniqueIds(sh)
    requires forall i :: 0 <= i < |sh| && i != i0 ==> IsInterior(sh[i].x, sh[i].y)
    requires forall i, j :: 0 <= i < j < |sh| && i != i0 && j != i0 ==> PositionOf(sh[i]) != PositionOf(sh[j])
    requires forall c :: c in Interior() ==> exists i :: 0 <= i < |sh| && i != i0 && PositionOf(sh[i]) == c
    ensures Cells(RemoveKeys(sh, {sh[i0].unique_id})) == Interior()
    ensures DistinctCells(RemoveKeys(sh, {sh[i0].unique_id}))
  {
    var key := sh[i0].unique_id;
    var r := RemoveKeys(sh, {key});
    forall k | 0 <= k < |r| ensures exists i :: 0 <= i < |sh| && i != i0 && sh[i] == r[k] {
      assert r[k] in r;
      var i :| 0 <= i < |sh| && sh[i] == r[k];
    }
    forall c | c in Cells(r) ensures c in Interior() {
      var k :| 0 <= k < |r| && PositionOf(r[k]) == c;
      var i :| 0 <= i < |sh| && i != i0 && sh[i] == r[k];
      InteriorIff(c);
    }
    forall c | c in Interior() ensures c in Cells(r) {
      var i :| 0 <= i < |sh| && i != i0 && PositionOf(sh[i]) == c;
      assert sh[i] in r;
      var k :| 0 <= k < |r| && r[k] == sh[i];
    }
    forall k1, k2 | 0 <= k1 < |r| && 0 <= k2 < |r| && k1 != k2 ensures PositionOf(r[k1]) != PositionOf(r[k2]) {
      var i :| 0 <= i < |sh| && i != i0 && sh[i] == r[k1];
      var j :| 0 <= j < |sh| && j != i0 && sh[j] == r[k2];
      if k1 < k2 { assert r[k1].unique_id != r[k2].unique_id; } else { assert r[k2].unique_id != r[k1].unique_id; }
      if i < j { assert PositionOf(sh[i]) != PositionOf(sh[j]); } else if j < i { assert PositionOf(sh[j]) != PositionOf(sh[i]); }
    }
  }

  /** When `a` is the only wall of `aff` on the border, the eviction loop evicts exactly `a`. */
  lemma {:induction false} EvictOnly(e: Eviction, aff: seq<Wall>, a: Wall)
    requires a in aff && IsSurrounding(a.x, a.y)
    requires forall b :: b in aff && IsSurrounding(b.x, b.y) ==> b == a
    ensures Evict(e, aff).floating == Some(a) && Evict(e, aff).origin == GetLocation(a.x, a.y)
    ensures Evict(e, aff).walls == RemoveKeys(e.walls, {a.unique_id})
  {
    var last := aff[|aff| - 1];
    var init := aff[..|aff| - 1];
    assert aff == init + [last];
    if !IsSurrounding(last.x, last.y) {
      assert a in init;
      EvictOnly(e, init, a);
    }
    EvictWalls(e, aff);
    assert EvictedIds(aff) == {a.unique_id} by {
      var i :| 0 <= i < |aff| && aff[i] == a;
    }
  }

  // ----- the theorem -----

  /** The shift context of the wall's insertion cell; the theorem below requires it to exist. */
  function ContextOf(s: GameState, w: Wall): ShiftContext
    requires CreateContext(s.floating_wall_origin, w.x, w.y).Some?
  {
    CreateContext(s.floating_wall_origin, w.x, w.y).value
  }

  /** When all pieces but `sh[i0]` are inside, `sh[i0]` is the only selected piece that may be on the border. */
  lemma OnlyOneOnBorder(ctx: ShiftContext, sh: seq<Piece>, i0: nat)
    requires i0 < |sh| && OnLine(ctx, sh[i0])
    requires forall i :: 0 <= i < |sh| && i != i0 ==> IsInterior(sh[i].x, sh[i].y)
    ensures sh[i0] in Selected(ctx, sh)
    ensures forall b :: b in Selected(ctx, sh) && IsSurrounding(b.x, b.y) ==> b == sh[i0]
  {
    forall b | b in Selected(ctx, sh) && IsSurrounding(b.x, b.y) ensures b == sh[i0] {
      var i :| 0 <= i < |sh| && sh[i] == b;
    }
  }

  /** The three facts about the pushed walls that `RemoveOneTiled` needs. */
  lemma PushedTiles(ctx: ShiftContext, walls: seq<Wall>, w: Wall) returns (i0: nat)
    requires Tiled(walls) && IsMoveableLine(ctx.location) && Entering(ctx, w)
    ensures var sh := Pushed(ctx, walls, w);
      && i0 < |walls| && sh[i0] == Moved(ctx, walls[i0], false) && IsMoveable(sh[i0].x, sh[i0].y)
      && OnLine(ctx, walls[i0]) && AlongOf(ctx, PositionOf(walls[i0])) == FarEnd(ctx)
      && (forall i :: 0 <= i < |sh| && i != i0 ==> IsInterior(sh[i].x, sh[i].y))
      && (forall i, j :: 0 <= i < j < |sh| && i != i0 && j != i0 ==> PositionOf(sh[i]) != PositionOf(sh[j]))
      && (forall c :: c in Interior() ==> exists i :: 0 <= i < |sh| && i != i0 && PositionOf(sh[i]) == c)
  {
    var sh := Pushed(ctx, walls, w);
    i0 := FarEndWall(ctx, walls);
    PushedInside(ctx, walls, w, i0);
    forall i, j | 0 <= i < j < |sh| && i != i0 && j != i0 ensures PositionOf(sh[i]) != PositionOf(sh[j]) {
      PushedDistinct(ctx, walls, w, i, j);
    }
    forall c | c in Interior() ensures exists i :: 0 <= i < |sh| && i != i0 && PositionOf(sh[i]) == c {
      InteriorIff(c);
      var i := PushedCovers(ctx, walls, w, i0, c);
    }
  }

  /**
   * The eviction loop over `aff` when its only border wall is `sh[i0]` and
   * every other wall of `sh` is inside on a cell of its own, covering the
   * interior: `sh[i0]` floats, its cell is the origin, and the rest is a tiled maze.
   */
  lemma EvictTheOne(sh: seq<Wall>, aff: seq<Wall>, i0: nat, floating: Option<Wall>, origin: int)
    requires i0 < |sh| && UniqueIds(sh)
    requires forall i :: 0 <= i < |sh| && i != i0 ==> IsInterior(sh[i].x, sh[i].y)
    requires forall i, j :: 0 <= i < j < |sh| && i != i0 && j != i0 ==> PositionOf(sh[i]) != PositionOf(sh[j])
    requires forall c :: c in Interior() ==> exists i :: 0 <= i < |sh| && i != i0 && PositionOf(sh[i]) == c
    requires sh[i0] in aff && IsSurrounding(sh[i0].x, sh[i0].y)
    requires forall b :: b in aff && IsSurrounding(b.x, b.y) ==> b == sh[i0]
    ensures var e := Evict(Eviction(sh, floating, origin), aff);
      && e.floating == Some(sh[i0]) && e.origin == GetLocation(sh[i0].x, sh[i0].y)
      && Tiled(e.walls) && UniqueIds(e.walls) && sh[i0].unique_id !in Ids(e.walls)
      && Ids(e.walls) + {sh[i0].unique_id} == Ids(sh)
  {
    RemoveOneTiled(sh, i0);
    EvictOnly(Eviction(sh, floating, origin), aff, sh[i0]);
    assert sh[i0].unique_id in Ids(sh);
  }

  /**
   * The walls after `placeWall`'s push and eviction loop: the far-end wall
   * `walls[i0]`, moved onto the border, floats; what stays is a tiled maze
   * holding every other key.
   */
  lemma EvictAfterPush(ctx: ShiftContext, walls: seq<Wall>, w: Wall, floating: Option<Wall>, origin: int) returns (i0: nat)
    requires Tiled(walls) && UniqueIds(walls) && w.unique_id !in Ids(walls)
    requires IsMoveableLine(ctx.location) && Entering(ctx, w)
    ensures var e := Evict(Eviction(AsWalls(Pushed(ctx, walls, w)), floating, origin), AsWalls(Affected(ctx, walls + [w], false)));
      && i0 < |walls| && e.floating.Some? && e.floating.value == Moved(ctx, walls[i0], false)
      && OnLine(ctx, walls[i0]) && AlongOf(ctx, PositionOf(walls[i0])) == FarEnd(ctx)
      && e.origin == GetLocation(e.floating.value.x, e.floating.value.y)
      && IsMoveable(e.floating.value.x, e.floating.value.y)
      && Tiled(e.walls) && UniqueIds(e.walls) && e.floating.value.unique_id !in Ids(e.walls)
      && Ids(e.walls) + {e.floating.value.unique_id} == Ids(walls) + {w.unique_id}
  {
    var added := walls + [w];
    IdsAppend(walls, w);
    var sh := AsWalls(Pushed(ctx, walls, w));
    SameKeysAgree(added, sh);
    i0 := PushedTiles(ctx, walls, w);
    AffectedIsSelectedAfter(ctx, added, false);
    MovedCoordinates(ctx, walls[i0]);
    OnlyOneOnBorder(ctx, sh, i0);
    EvictTheOne(sh, AsWalls(Affected(ctx, added, false)), i0, floating, origin);
  }

  /**
   * On a maze in play, `placeWall` with the floating wall at an insertion
   * cell that is not the forbidden origin keeps the maze in play.  It pushes
   * out exactly the far-end wall of the line, which becomes the floating wall
   * on the insertion cell across the board, with its cell as the new
   * forbidden origin, so it cannot be pushed straight back in.  The wall keys,
   * floating wall included, are the same as before.
   */
  lemma PlaceWallKeepsMaze(s: GameState, w: Wall)
    requires Settled(s) && w.unique_id == s.floating_wall.value.unique_id
    requires IsMoveable(w.x, w.y) && CreateContext(s.floating_wall_origin, w.x, w.y).Some?
    ensures Settled(PlaceWallSpec(s, w))
    ensures var r := PlaceWallSpec(s, w);
      Ids(r.walls) + {r.floating_wall.value.unique_id} == Ids(s.walls) + {w.unique_id}
    ensures var f := PlaceWallSpec(s, w).floating_wall.value;
      if IsSurroundingLine(w.x) then f.x == 6 - w.x && f.y == w.y else f.x == w.x && f.y == 6 - w.y
    ensures var r := PlaceWallSpec(s, w);
      r.floating_wall_origin == GetLocation(r.floating_wall.value.x, r.floating_wall.value.y)
    ensures var r := PlaceWallSpec(s, w);
      CreateContext(r.floating_wall_origin, r.floating_wall.value.x, r.floating_wall.value.y).None?
    ensures var f := PlaceWallSpec(s, w).floating_wall.value;
      exists i :: 0 <= i < |s.walls| && f == Moved(ContextOf(s, w), s.walls[i], false)
  {
    var i0 := PlacedWalls(s, w);
    MovedCoordinates(ContextOf(s, w), s.walls[i0]);
  }

  /** The walls and the floating wall after `placeWall`, as the push and eviction leave them. */
  lemma PlacedWalls(s: GameState, w: Wall) returns (i0: nat)
    requires Settled(s) && w.unique_id == s.floating_wall.value.unique_id
    requires IsMoveable(w.x, w.y) && CreateContext(s.floating_wall_origin, w.x, w.y).Some?
    ensures var r := PlaceWallSpec(s, w); var ctx := ContextOf(s, w);
      && i0 < |s.walls| && r.floating_wall.Some? && r.floating_wall.value == Moved(ctx, s.walls[i0], false)
      && OnLine(ctx, s.walls[i0]) && AlongOf(ctx, PositionOf(s.walls[i0])) == FarEnd(ctx)
      && r.floating_wall_origin == GetLocation(r.floating_wall.value.x, r.floating_wall.value.y)
      && IsMoveable(r.floating_wall.value.x, r.floating_wall.value.y)
      && Tiled(r.walls) && UniqueIds(r.walls) && r.floating_wall.value.unique_id !in Ids(r.walls)
      && Ids(r.walls) + {r.floating_wall.value.unique_id} == Ids(s.walls) + {w.unique_id}
  {
    var ctx := ContextOf(s, w);
    assert Entering(ctx, w);
    assert AddEntry(s.walls, w) == s.walls + [w];
    i0 := EvictAfterPush(ctx, s.walls, w, s.floating_wall, s.floating_wall_origin);
  }
}
