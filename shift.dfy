/**
 * The shift engine: which insertion cells produce a shift, which pieces a
 * shift selects, and how it moves them one cell along its line, either
 * leaving the grid (walls) or wrapping around inside 1..5 (ghosts, treasures).
 */
module Shifts {
  import opened Pieces
  import opened Util

  datatype Axis = Horizontal | Vertical

  const UP := -1
  const DOWN := 1
  const RIGHT := 1
  const LEFT := -1

  /** A shift moves pieces by one cell, towards higher (+1) or lower (-1) indices. */
  type Step = d: int | d == -1 || d == 1 witness 1

  /** Orientation, direction and the index of the shifted row or column. */
  datatype ShiftContext = ShiftContext(orientation: Axis, direction: Step, location: int)

  /**
   * `createContext`: a shift for an insertion at (x, y), unless (x, y) has the
   * forbidden origin's location index.  Any x outside 1..5 on a movable row
   * gives a horizontal shift; otherwise any y outside 1..5 on a movable
   * column gives a vertical one.
   */
  function CreateContext(origin: int, x: int, y: int): (r: Option<ShiftContext>)
    ensures GetLocation(x, y) == origin ==> r.None?
    ensures r.Some? <==> (GetLocation(x, y) != origin &&
      (((x < 1 || x > 5) && IsMoveableLine(y)) || (1 <= x <= 5 && (y < 1 || y > 5) && IsMoveableLine(x))))
    ensures r.Some? ==> (r.value.orientation == Horizontal <==> x < 1 || x > 5)
    ensures r.Some? && r.value.orientation == Horizontal ==>
      r.value.location == y && (r.value.direction == RIGHT <==> x <= 1)
    ensures r.Some? && r.value.orientation == Vertical ==>
      r.value.location == x && (r.value.direction == DOWN <==> y <= 1)
  {
    if GetLocation(x, y) == origin then None
    else if x < 1 || x > 5 then
      if IsMoveableLine(y) then Some(ShiftContext(Horizontal, if x <= 1 then RIGHT else LEFT, y)) else None
    else if y < 1 || y > 5 then
      if IsMoveableLine(x) then Some(ShiftContext(Vertical, if y <= 1 then DOWN else UP, x)) else None
    else None
  }

  /** `getDirectionCode`: the compass direction the pieces move in. */
  function DirectionCode(ctx: ShiftContext): Direction {
    if ctx.orientation == Vertical then
      if ctx.direction == UP then North else South
    else
      if ctx.direction == LEFT then West else East
  }

  /** The same line shifted the other way. */
  function Reversed(ctx: ShiftContext): ShiftContext {
    ctx.(direction := if ctx.direction == RIGHT then LEFT else RIGHT)
  }

  predicate OnLine(ctx: ShiftContext, p: Piece) {
    (ctx.orientation == Horizontal && p.y == ctx.location) ||
    (ctx.orientation == Vertical && p.x == ctx.location)
  }

  /** The pieces of `s` on the shifted line, in the order of `s`. */
  function Selected(ctx: ShiftContext, s: seq<Piece>): (r: seq<Piece>)
    ensures forall p :: p in r <==> p in s && OnLine(ctx, p)
    ensures forall k :: AllKind(s, k) ==> AllKind(r, k)
  {
    if s == [] then []
    else
      var last := s[|s| - 1];
      assert s == s[..|s| - 1] + [last];
      assert forall k :: AllKind(s, k) ==> AllKind(s[..|s| - 1], k) && last.Kind() == k;
      Selected(ctx, s[..|s| - 1]) + (if OnLine(ctx, last) then [last] else [])
  }

  /** One coordinate advanced by `d`; with `wrap`, values leaving 1..5 re-enter at the other end. */
  function Advance(c: int, d: Step, wrap: bool): (r: int)
    ensures !wrap ==> r == c + d
    ensures wrap && 1 <= c <= 5 ==> 1 <= r <= 5
    ensures wrap && c + d == 0 ==> r == 5
    ensures wrap && c + d == 6 ==> r == 1
    ensures wrap && 1 <= c + d <= 5 ==> r == c + d
  {
    var n := c + d;
    if wrap then (if n < 1 then 5 else if n > 5 then 1 else n) else n
  }

  /** A selected piece after the shift: only the coordinate along the line changes. */
  function Moved(ctx: ShiftContext, p: Piece, wrap: bool): (r: Piece)
    ensures r.Kind() == p.Kind() && r.unique_id == p.unique_id
    ensures ctx.orientation == Horizontal ==> r == p.(x := Advance(p.x, ctx.direction, wrap))
    ensures ctx.orientation == Vertical ==> r == p.(y := Advance(p.y, ctx.direction, wrap))
    ensures OnLine(ctx, r) <==> OnLine(ctx, p)
  {
    if ctx.orientation == Horizontal then p.(x := Advance(p.x, ctx.direction, wrap))
    else p.(y := Advance(p.y, ctx.direction, wrap))
  }

  /** The whole collection after `shift`: pieces on the line moved, every other piece as it was. */
  function ShiftAll(ctx: ShiftContext, s: seq<Piece>, wrap: bool): (r: seq<Piece>)
    ensures |r| == |s|
    ensures forall i :: 0 <= i < |s| ==> r[i] == if OnLine(ctx, s[i]) then Moved(ctx, s[i], wrap) else s[i]
    ensures forall k :: AllKind(s, k) ==> AllKind(r, k)
    ensures SameKeys(s, r)
  {
    seq(|s|, i requires 0 <= i < |s| => if OnLine(ctx, s[i]) then Moved(ctx, s[i], wrap) else s[i])
  }

  /** The list `shift` returns: the selected pieces, moved, in the order of `s`. */
  function Affected(ctx: ShiftContext, s: seq<Piece>, wrap: bool): (r: seq<Piece>)
    ensures forall k :: AllKind(s, k) ==> AllKind(r, k)
  {
    if s == [] then []
    else
      var last := s[|s| - 1];
      assert forall k :: AllKind(s, k) ==> AllKind(s[..|s| - 1], k) && last.Kind() == k;
      Affected(ctx, s[..|s| - 1], wrap) + (if OnLine(ctx, last) then [Moved(ctx, last, wrap)] else [])
  }

  /** `getPieces`: collect the pieces on the line. */
  method GetPieces(ctx: ShiftContext, all: seq<Piece>) returns (pieces: seq<Piece>)
    ensures pieces == Selected(ctx, all)
    ensures forall p :: p in pieces <==> p in all && OnLine(ctx, p)
  {
    pieces := [];
    for i := 0 to |all|
      invariant pieces == Selected(ctx, all[..i])
    {
      assert all[..i + 1][..i] == all[..i];
      if (ctx.orientation == Horizontal && all[i].y == ctx.location) ||
         (ctx.orientation == Vertical && all[i].x == ctx.location) {
        pieces := pieces + [all[i]];
      }
    }
    assert all[..|all|] == all;
  }

  /**
   * `shift`: every piece on the line is moved one cell by `direction` along the
   * line (wrapping into 1..5 when asked); the moved pieces are returned too.
   */
  method Shift(ctx: ShiftContext, pieces: seq<Piece>, wrap: bool) returns (moved: seq<Piece>, affected: seq<Piece>)
    ensures moved == ShiftAll(ctx, pieces, wrap)
    ensures affected == Affected(ctx, pieces, wrap)
    ensures forall k :: AllKind(pieces, k) ==> AllKind(moved, k) && AllKind(affected, k)
  {
    moved := pieces;
    affected := [];
    for i := 0 to |pieces|
      invariant |moved| == |pieces|
      invariant forall j :: 0 <= j < i ==> moved[j] == ShiftAll(ctx, pieces, wrap)[j]
      invariant forall j :: i <= j < |pieces| ==> moved[j] == pieces[j]
      invariant affected == Affected(ctx, pieces[..i], wrap)
    {
      assert pieces[..i + 1][..i] == pieces[..i];
      var p := pieces[i];
      if OnLine(ctx, p) {
        var q := p;
        if ctx.orientation == Horizontal {
          q := q.(x := q.x + ctx.direction);
          if wrap {
            if q.x < 1 {
              q := q.(x := 5);
            } else if q.x > 5 {
              q := q.(x := 1);
            }
          }
        } else {
          q := q.(y := q.y + ctx.direction);
          if wrap {
            if q.y < 1 {
              q := q.(y := 5);
            } else if q.y > 5 {
              q := q.(y := 1);
            }
          }
        }
        assert q == Moved(ctx, p, wrap);
        moved := moved[i := q];
        affected := affected + [q];
      }
    }
    assert pieces[..|pieces|] == pieces;
  }

  // ----- properties -----

  /** An accepted context always shifts row or column 2 or 4. */
  lemma ContextOnMoveableLine(origin: int, x: int, y: int)
    requires CreateContext(origin, x, y).Some?
    ensures IsMoveableLine(CreateContext(origin, x, y).value.location)
  {
  }

  /** At an insertion cell a shift is refused exactly when the cell is the forbidden origin. */
  lemma InsertionCellAccepted(origin: int, x: int, y: int)
    requires IsMoveable(x, y)
    ensures CreateContext(origin, x, y).Some? <==> GetLocation(x, y) != origin
  {
  }

  /**
   * Inserting at a border cell pushes inwards: the inserted piece lies on the
   * shifted line, and one step takes it onto the interior.
   */
  lemma InsertionPushesInward(origin: int, x: int, y: int, p: Piece)
    requires IsMoveable(x, y) && CreateContext(origin, x, y).Some?
    requires p.x == x && p.y == y
    ensures OnLine(CreateContext(origin, x, y).value, p)
    ensures var m := Moved(CreateContext(origin, x, y).value, p, false); IsInterior(m.x, m.y)
  {
  }

  /** The direction code is the compass direction of the per-piece step. */
  lemma DirectionCodeOfStep(ctx: ShiftContext)
    ensures ctx.orientation == Horizontal ==> DirectionCode(ctx) == (if ctx.direction == 1 then East else West)
    ensures ctx.orientation == Vertical ==> DirectionCode(ctx) == (if ctx.direction == 1 then South else North)
  {
  }

  /** The selected pieces after the shift are the moved ones. */
  lemma {:induction false} AffectedIsSelectedAfter(ctx: ShiftContext, s: seq<Piece>, wrap: bool)
    ensures Affected(ctx, s, wrap) == Selected(ctx, ShiftAll(ctx, s, wrap))
  {
    if s != [] {
      var init := s[..|s| - 1];
      AffectedIsSelectedAfter(ctx, init, wrap);
      assert ShiftAll(ctx, s, wrap)[..|s| - 1] == ShiftAll(ctx, init, wrap);
    }
  }

  /** Wrap law: shifting a line with wrap and then back restores it, when its pieces are inside 1..5. */
  lemma WrapRoundTrip(ctx: ShiftContext, s: seq<Piece>)
    requires forall i :: 0 <= i < |s| && OnLine(ctx, s[i]) ==>
      if ctx.orientation == Horizontal then 1 <= s[i].x <= 5 else 1 <= s[i].y <= 5
    ensures ShiftAll(Reversed(ctx), ShiftAll(ctx, s, true), true) == s
  {
    var once := ShiftAll(ctx, s, true);
    var back := ShiftAll(Reversed(ctx), once, true);
    forall i | 0 <= i < |s| ensures back[i] == s[i] {
      assert OnLine(Reversed(ctx), once[i]) <==> OnLine(ctx, s[i]);
    }
  }

  /** Collected treasures sit at (-1, -1), which no accepted shift selects. */
  lemma CollectedTreasureNeverShifted(origin: int, x: int, y: int, t: Treasure)
    requires CreateContext(origin, x, y).Some?
    requires t.x == -1 && t.y == -1
    ensures !OnLine(CreateContext(origin, x, y).value, t)
  {
  }
}
