/**
 * Wall tiles: a shape with a fixed set of exits when facing north, turned
 * clockwise by the tile's orientation.
 */
module Walls {
  import opened Pieces

  /** The orientations in clockwise order; a direction's index counts quarter turns from north. */
  const ORIENTATIONS: seq<Direction> := [North, East, South, West]

  const DEGREES_90: nat := 1
  const DEGREES_180: nat := 2

  /** The index of a direction in ORIENTATIONS. */
  function OrientationIndex(d: Direction): (k: nat)
    ensures k < |ORIENTATIONS| && ORIENTATIONS[k] == d
  {
    match d
    case North => 0
    case East => 1
    case South => 2
    case West => 3
  }

  /** The static `rotate(orientation, rotation)`: turn `d` clockwise by `quarterTurns`. */
  function Clockwise(d: Direction, quarterTurns: nat): (r: Direction)
    ensures OrientationIndex(r) == (OrientationIndex(d) + quarterTurns) % 4
  {
    ORIENTATIONS[(OrientationIndex(d) + quarterTurns) % |ORIENTATIONS|]
  }

  function Opposite(d: Direction): Direction {
    Clockwise(d, DEGREES_180)
  }

  /** The exits of each shape when the tile faces north. */
  function CanonicalExits(s: Shape): seq<Direction> {
    match s
    case Straight => [North, South]
    case LShape => [North, East]
    case TShape => [North, East, West]
  }

  /** `getExits()`: the canonical exits, each turned by the orientation's index. */
  function Exits(w: Wall): (r: seq<Direction>)
    ensures |r| == |CanonicalExits(w.shape)|
  {
    var canonical := CanonicalExits(w.shape);
    if w.orientation == North then canonical
    else seq(|canonical|, i requires 0 <= i < |canonical| => Clockwise(canonical[i], OrientationIndex(w.orientation)))
  }

  /** A tile can be entered moving in direction `d` when it has an exit facing back, `Opposite(d)`. */
  predicate EnterableFrom(w: Wall, d: Direction) {
    Opposite(d) in Exits(w)
  }

  /** `rotate()`: the wall turned one quarter clockwise. */
  function Rotated(w: Wall): (r: Wall)
    ensures r.orientation == Clockwise(w.orientation, DEGREES_90)
    ensures r.unique_id == w.unique_id && r.x == w.x && r.y == w.y && r.shape == w.shape
  {
    w.(orientation := Clockwise(w.orientation, DEGREES_90))
  }

  /** `getOrientationIndex`: scan ORIENTATIONS for `o`. */
  method GetOrientationIndex(o: Direction) returns (k: nat)
    ensures k < |ORIENTATIONS| && ORIENTATIONS[k] == o
  {
    k := 0;
    while ORIENTATIONS[k] != o
      invariant 0 <= k < |ORIENTATIONS|
      invariant o in ORIENTATIONS[k..]
      decreases |ORIENTATIONS| - k
    {
      k := k + 1;
    }
  }

  /** `getExits()`: fills a fresh array with the turned exits unless the wall faces north. */
  method GetExits(w: Wall) returns (exits: seq<Direction>)
    ensures |exits| == |CanonicalExits(w.shape)|
    ensures forall i :: 0 <= i < |exits| ==>
      exits[i] == Clockwise(CanonicalExits(w.shape)[i], OrientationIndex(w.orientation))
  {
    var canonical := CanonicalExits(w.shape);
    if w.orientation == North {
      ExitsAreTurnedCanonical(w);
      return canonical;
    }
    var relative := new Direction[|canonical|];
    var k := GetOrientationIndex(w.orientation);
    for i := 0 to relative.Length
      invariant forall j :: 0 <= j < i ==> relative[j] == Clockwise(canonical[j], k)
    {
      relative[i] := Clockwise(canonical[i], k);
    }
    exits := relative[..];
  }

  /** `canBeEnteredFrom(d)`: look for the opposite of `d` among the exits. */
  method CanBeEnteredFrom(w: Wall, d: Direction) returns (r: bool)
    ensures r <==> Opposite(d) in Exits(w)
  {
    var wanted := Clockwise(d, DEGREES_180);
    var exits := GetExits(w);
    ExitsAreTurnedCanonical(w);
    assert exits == Exits(w);
    for i := 0 to |exits|
      invariant forall j :: 0 <= j < i ==> exits[j] != wanted
    {
      if wanted == exits[i] {
        return true;
      }
    }
    return false;
  }

  // ----- properties -----

  lemma ClockwiseZero(d: Direction)
    ensures Clockwise(d, 0) == d
  {
  }

  lemma {:induction false} ClockwiseAdd(d: Direction, a: nat, b: nat)
    ensures Clockwise(Clockwise(d, a), b) == Clockwise(d, a + b)
  {
    var i := OrientationIndex(d);
    assert ((i + a) % 4 + b) % 4 == (i + a + b) % 4;
  }

  /** Taking the opposite twice gives back the direction. */
  lemma OppositeInvolution(d: Direction)
    ensures Opposite(Opposite(d)) == d && Opposite(d) != d
  {
    ClockwiseAdd(d, 2, 2);
  }

  /** Four quarter turns restore the tile exactly. */
  lemma RotateFourTimes(w: Wall)
    ensures Rotated(Rotated(Rotated(Rotated(w)))) == w
  {
    ClockwiseAdd(w.orientation, 1, 1);
    ClockwiseAdd(w.orientation, 2, 1);
    ClockwiseAdd(w.orientation, 3, 1);
  }

  /** Each exit is the canonical exit turned by the orientation index, north included. */
  lemma ExitsAreTurnedCanonical(w: Wall)
    ensures forall i :: 0 <= i < |Exits(w)| ==>
      Exits(w)[i] == Clockwise(CanonicalExits(w.shape)[i], OrientationIndex(w.orientation))
  {
    if w.orientation == North {
      forall i | 0 <= i < |Exits(w)| {
        ClockwiseZero(CanonicalExits(w.shape)[i]);
      }
    }
  }

  /** A north-facing wall has exactly the canonical exits. */
  lemma NorthIsCanonical(w: Wall)
    requires w.orientation == North
    ensures Exits(w) == CanonicalExits(w.shape)
  {
  }

  /** 2 exits for STRAIGHT and L, 3 for T. */
  lemma ExitCount(w: Wall)
    ensures |Exits(w)| == if w.shape == TShape then 3 else 2
  {
  }

  /** No direction is listed twice. */
  lemma ExitsDistinct(w: Wall)
    ensures forall i, j :: 0 <= i < j < |Exits(w)| ==> Exits(w)[i] != Exits(w)[j]
  {
    ExitsAreTurnedCanonical(w);
  }

  /** Turning the tile turns every exit one quarter clockwise. */
  lemma ExitsOfRotated(w: Wall)
    ensures |Exits(Rotated(w))| == |Exits(w)|
    ensures forall i :: 0 <= i < |Exits(w)| ==> Exits(Rotated(w))[i] == Clockwise(Exits(w)[i], 1)
  {
    ExitsAreTurnedCanonical(w);
    ExitsAreTurnedCanonical(Rotated(w));
    var k := OrientationIndex(w.orientation);
    assert OrientationIndex(Rotated(w).orientation) == (k + 1) % 4;
    forall i | 0 <= i < |Exits(w)|
      ensures Exits(Rotated(w))[i] == Clockwise(Exits(w)[i], 1)
    {
      TurnOnce(CanonicalExits(w.shape)[i], k);
    }
  }

  lemma TurnOnce(c: Direction, k: nat)
    requires k < 4
    ensures Clockwise(c, (k + 1) % 4) == Clockwise(Clockwise(c, k), 1)
  {
    var i := OrientationIndex(c);
    assert (i + (k + 1) % 4) % 4 == ((i + k) % 4 + 1) % 4;
    SameIndex(Clockwise(c, (k + 1) % 4), Clockwise(Clockwise(c, k), 1));
  }

  lemma SameIndex(a: Direction, b: Direction)
    requires OrientationIndex(a) == OrientationIndex(b)
    ensures a == b
  {
  }

  /** Turning a north-facing exit `q` quarters and then by the orientation of `o` gives `o` turned `q` quarters. */
  lemma TurnedNorth(o: Direction, q: nat)
    ensures Clockwise(Clockwise(North, q), OrientationIndex(o)) == Clockwise(o, q)
  {
    var k := OrientationIndex(o);
    ClockwiseAdd(North, q, k);
    ClockwiseAdd(North, k, q);
    assert Clockwise(North, k) == o;
  }

  /**
   * The open sides described from the tile's own orientation `o`, in the
   * order `getExits` lists them: STRAIGHT is open towards `o` and its
   * opposite, L towards `o` and the next side clockwise, T towards `o`, the
   * next side clockwise and the next side anticlockwise.
   */
  lemma ExitsBySide(w: Wall)
    ensures w.shape == Straight ==> Exits(w) == [w.orientation, Opposite(w.orientation)]
    ensures w.shape == LShape ==> Exits(w) == [w.orientation, Clockwise(w.orientation, 1)]
    ensures w.shape == TShape ==> Exits(w) == [w.orientation, Clockwise(w.orientation, 1), Clockwise(w.orientation, 3)]
  {
    ExitsAreTurnedCanonical(w);
    var o := w.orientation;
    TurnedNorth(o, 0);
    TurnedNorth(o, 1);
    TurnedNorth(o, 2);
    TurnedNorth(o, 3);
    assert CanonicalExits(w.shape)[0] == Clockwise(North, 0);
    match w.shape
    case Straight =>
      assert CanonicalExits(w.shape)[1] == Clockwise(North, 2);
    case LShape =>
      assert CanonicalExits(w.shape)[1] == Clockwise(North, 1);
    case TShape =>
      assert CanonicalExits(w.shape)[1] == Clockwise(North, 1);
      assert CanonicalExits(w.shape)[2] == Clockwise(North, 3);
  }

  /** A T tile is open on every side except the one opposite its orientation. */
  lemma TShapeOpenSides(w: Wall, d: Direction)
    requires w.shape == TShape
    ensures d in Exits(w) <==> d != Opposite(w.orientation)
  {
    ExitsBySide(w);
  }
}
