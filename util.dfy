/**
 * Board geometry of the 7x7 frame and the score bookkeeping.  Rows and
 * columns 0 and 6 are the "surrounding" border where the floating wall
 * waits; lines 2 and 4 are the movable rows and columns.
 */
module Util {
  import opened Pieces

  /** Width and height of the frame, border included. */
  const BOARD_SIZE := 7

  /** The eight cells where the floating wall can be inserted, in row-major order. */
  const INSERTION_CELLS: seq<Point> := [
    Point(2, 0), Point(4, 0),
    Point(0, 2), Point(6, 2),
    Point(0, 4), Point(6, 4),
    Point(2, 6), Point(4, 6)
  ]

  /**
   * `getLocation`: the index used to remember the forbidden insertion origin.
   * For a column in 0..4 the cell can be read back from its location.
   */
  function GetLocation(x: int, y: int): (r: int)
    ensures 0 <= x < 5 ==> r % 5 == x && r / 5 == y
  {
    x + y * 5
  }

  /** `isMoveable(int)`: only rows and columns 2 and 4 can be shifted. */
  predicate IsMoveableLine(i: int) {
    i == 2 || i == 4
  }

  /** The private `isSurrounding(int)`. */
  predicate IsSurroundingLine(i: int) {
    i == 0 || i == 6
  }

  /** `isMoveable(int, int)`: a border cell at the end of a movable line, never a corner. */
  predicate IsMoveable(x: int, y: int)
    ensures IsMoveable(x, y) ==> 0 <= x < BOARD_SIZE && 0 <= y < BOARD_SIZE
    ensures IsMoveable(x, y) ==> IsSurrounding(x, y) && !(IsSurroundingLine(x) && IsSurroundingLine(y))
  {
    (IsSurroundingLine(x) && IsMoveableLine(y)) || (IsSurroundingLine(y) && IsMoveableLine(x))
  }

  /** `isSurrounding(int, int)`: on the border row or column (not a bounds check). */
  predicate IsSurrounding(x: int, y: int) {
    IsSurroundingLine(x) || IsSurroundingLine(y)
  }

  /** The playable 5x5 interior. */
  predicate IsInterior(x: int, y: int) {
    1 <= x <= 5 && 1 <= y <= 5
  }

  // ----- geometry facts -----

  /** The movable cells of the frame are exactly the eight insertion cells. */
  lemma MoveableCells(x: int, y: int)
    ensures IsMoveable(x, y) <==> Point(x, y) in INSERTION_CELLS
  {
  }

  /** The insertion cells have pairwise different locations, none equal to the initial origin 0. */
  lemma InsertionLocationsDistinct()
    ensures forall i, j :: 0 <= i < j < |INSERTION_CELLS| ==>
      GetLocation(INSERTION_CELLS[i].x, INSERTION_CELLS[i].y) != GetLocation(INSERTION_CELLS[j].x, INSERTION_CELLS[j].y)
    ensures forall i :: 0 <= i < |INSERTION_CELLS| ==> GetLocation(INSERTION_CELLS[i].x, INSERTION_CELLS[i].y) != 0
  {
  }

  /** Inside the frame, the border is rows and columns 0 and 6; the sentinel (-1, -1) is not border. */
  lemma SurroundingInFrame(x: int, y: int)
    requires 0 <= x < BOARD_SIZE && 0 <= y < BOARD_SIZE
    ensures IsSurrounding(x, y) <==> !IsInterior(x, y)
    ensures !IsSurrounding(-1, -1)
  {
  }

  // ----- pieces at a cell -----

  /** The pieces of `s` standing on `loc`, in the order of `s`. */
  function PiecesAt(s: seq<Piece>, loc: Point): (r: seq<Piece>)
    ensures forall p :: p in r <==> p in s && p.x == loc.x && p.y == loc.y
    ensures |r| <= |s|
  {
    if s == [] then []
    else
      var last := s[|s| - 1];
      assert s == s[..|s| - 1] + [last];
      PiecesAt(s[..|s| - 1], loc) + (if last.x == loc.x && last.y == loc.y then [last] else [])
  }

  /** `getPieces(all, location)`: collects the pieces on `loc`. */
  method GetPiecesAt(all: seq<Piece>, loc: Point) returns (pieces: seq<Piece>)
    ensures pieces == PiecesAt(all, loc)
    ensures forall p :: p in pieces <==> p in all && p.x == loc.x && p.y == loc.y
  {
    pieces := [];
    for i := 0 to |all|
      invariant pieces == PiecesAt(all[..i], loc)
    {
      assert all[..i + 1][..i] == all[..i];
      if all[i].x == loc.x && all[i].y == loc.y {
        pieces := pieces + [all[i]];
      }
    }
    assert all[..|all|] == all;
  }

  // ----- points -----

  /** The number of treasures owned by player `p`. */
  function OwnedBy(ts: seq<Treasure>, p: int): nat {
    if ts == [] then 0
    else OwnedBy(ts[..|ts| - 1], p) + (if IsCollected(ts[|ts| - 1]) && ts[|ts| - 1].owner == p then 1 else 0)
  }

  /** The number of collected treasures. */
  function CollectedCount(ts: seq<Treasure>): nat {
    if ts == [] then 0
    else CollectedCount(ts[..|ts| - 1]) + (if IsCollected(ts[|ts| - 1]) then 1 else 0)
  }

  function Sum(s: seq<int>): int {
    if s == [] then 0 else Sum(s[..|s| - 1]) + s[|s| - 1]
  }

  /** Every owner of a collected treasure indexes the player table. */
  predicate OwnersBelow(ts: seq<Treasure>, players: nat) {
    forall i :: 0 <= i < |ts| && IsCollected(ts[i]) ==> ts[i].owner < players
  }

  /** `getPoints`: one counter per player, incremented for every treasure the player owns. */
  method GetPoints(treasures: seq<Treasure>, players: nat) returns (points: seq<int>)
    requires OwnersBelow(treasures, players)
    ensures |points| == players
    ensures forall p :: 0 <= p < players ==> points[p] == OwnedBy(treasures, p)
  {
    var a := new int[players];
    forall p | 0 <= p < players {
      a[p] := 0;
    }
    for i := 0 to |treasures|
      invariant forall p :: 0 <= p < players ==> a[p] == OwnedBy(treasures[..i], p)
    {
      var t := treasures[i];
      assert treasures[..i + 1][..i] == treasures[..i];
      if IsCollected(t) {
        a[t.owner] := a[t.owner] + 1;
      }
    }
    assert treasures[..|treasures|] == treasures;
    points := a[..];
  }

  lemma {:induction false} SumAdd(a: seq<int>, k: nat)
    requires k < |a|
    ensures Sum(a[k := a[k] + 1]) == Sum(a) + 1
  {
    var n := |a| - 1;
    var b := a[k := a[k] + 1];
    assert b[..n] == if k < n then a[..n][k := a[k] + 1] else a[..n];
    if k < n {
      SumAdd(a[..n], k);
    }
  }

  /** The player table sums to the number of collected treasures. */
  lemma {:induction false} PointsSumToCollected(ts: seq<Treasure>, players: nat)
    requires OwnersBelow(ts, players)
    ensures Sum(seq(players, p => OwnedBy(ts, p))) == CollectedCount(ts)
  {
    if ts == [] {
      ZeroSum(players);
    } else {
      var init := ts[..|ts| - 1];
      var t := ts[|ts| - 1];
      assert OwnersBelow(init, players) by {
        forall i | 0 <= i < |init| && IsCollected(init[i]) ensures init[i].owner < players {
          assert init[i] == ts[i];
        }
      }
      PointsSumToCollected(init, players);
      var before := seq(players, p => OwnedBy(init, p));
      var after := seq(players, p => OwnedBy(ts, p));
      if IsCollected(t) {
        assert after == before[t.owner := before[t.owner] + 1];
        SumAdd(before, t.owner);
      } else {
        assert after == before;
      }
    }
  }

  lemma {:induction false} ZeroSum(n: nat)
    ensures Sum(seq(n, p => OwnedBy([], p))) == 0
  {
    if n > 0 {
      assert seq(n, p => OwnedBy([], p))[..n - 1] == seq(n - 1, p => OwnedBy([], p));
      ZeroSum(n - 1);
    }
  }
}
