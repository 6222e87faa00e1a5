/**
 * The positioned records of the game (Piece, Wall, Treasure, Ghost) and the
 * keyed-set operations the core performs on collections of them: lookup by
 * key, update of an entry, removal by key.  A collection is a sequence in
 * iteration order; its keys are the pieces' `unique_id`s.
 */
module Pieces {

  datatype Option<T> = None | Some(value: T)

  /** A grid cell, in squares (not pixels). */
  datatype Point = Point(x: int, y: int)

  /** The four compass directions the maze uses. */
  datatype Direction = North | East | South | West

  /** The wall shapes (STRAIGHT, L_SHAPE, T_SHAPE). */
  datatype Shape = Straight | LShape | TShape

  datatype Kind = WallKind | TreasureKind | GhostKind

  /**
   * Every piece has a key and a grid position; walls add a shape and an
   * orientation, treasures an owner (-1 while still on the board).
   */
  datatype Piece =
    | WallPiece(unique_id: int, x: int, y: int, shape: Shape, orientation: Direction)
    | TreasurePiece(unique_id: int, x: int, y: int, owner: int)
    | GhostPiece(unique_id: int, x: int, y: int)
  {
    function Kind(): (r: Kind)
      ensures r == WallKind <==> this.WallPiece?
      ensures r == TreasureKind <==> this.TreasurePiece?
      ensures r == GhostKind <==> this.GhostPiece?
    {
      match this
      case WallPiece(_, _, _, _, _) => WallKind
      case TreasurePiece(_, _, _, _) => TreasureKind
      case GhostPiece(_, _, _) => GhostKind
    }
  }

  type Wall = p: Piece | p.WallPiece? witness WallPiece(0, 0, 0, Straight, North)
  type Treasure = p: Piece | p.TreasurePiece? witness TreasurePiece(0, 0, 0, -1)
  type Ghost = p: Piece | p.GhostPiece? witness GhostPiece(0, 0, 0)

  /** The owner value of a treasure nobody has picked up. */
  const NO_OWNER := -1

  /** Number of treasures created for every game. */
  const TREASURE_COUNT := 12

  predicate IsCollected(t: Treasure) {
    t.owner >= 0
  }

  function PositionOf(p: Piece): Point {
    Point(p.x, p.y)
  }

  predicate AllKind(s: seq<Piece>, k: Kind) {
    forall i :: 0 <= i < |s| ==> s[i].Kind() == k
  }

  function AsWalls(s: seq<Piece>): seq<Wall>
    requires AllKind(s, WallKind)
  {
    s
  }

  function AsTreasures(s: seq<Piece>): seq<Treasure>
    requires AllKind(s, TreasureKind)
  {
    s
  }

  function AsGhosts(s: seq<Piece>): seq<Ghost>
    requires AllKind(s, GhostKind)
  {
    s
  }

  function Ids(s: seq<Piece>): set<int> {
    set i | 0 <= i < |s| :: s[i].unique_id
  }

  /** Keys are unique within a keyed set. */
  predicate UniqueIds(s: seq<Piece>) {
    forall i, j :: 0 <= i < j < |s| ==> s[i].unique_id != s[j].unique_id
  }

  /** The position of the entry with key `id` (the set's `get(key)`), if any. */
  function IndexOf(s: seq<Piece>, id: int): (r: Option<nat>)
    ensures r.Some? ==> r.value < |s| && s[r.value].unique_id == id
    ensures r.Some? ==> forall j :: 0 <= j < r.value ==> s[j].unique_id != id
    ensures r.None? <==> id !in Ids(s)
  {
    if s == [] then None
    else if s[0].unique_id == id then Some(0)
    else match IndexOf(s[1..], id)
      case None => None
      case Some(k) => Some(k + 1)
  }

  /** `update(entry)`: the entry with the same key is replaced. */
  function UpdateEntry(s: seq<Piece>, e: Piece): (r: seq<Piece>)
    ensures |r| == |s|
    ensures forall i :: 0 <= i < |s| ==> r[i] == if s[i].unique_id == e.unique_id then e else s[i]
    ensures SameKeys(s, r)
    ensures forall k :: AllKind(s, k) && e.Kind() == k ==> AllKind(r, k)
  {
    seq(|s|, i requires 0 <= i < |s| => if s[i].unique_id == e.unique_id then e else s[i])
  }

  /** `addTo(entry)`: a keyed set takes a new key and ignores an entry whose key it already holds. */
  function AddEntry(s: seq<Piece>, e: Piece): (r: seq<Piece>)
    ensures Ids(r) == Ids(s) + {e.unique_id}
    ensures UniqueIds(s) ==> UniqueIds(r)
    ensures e.unique_id !in Ids(s) ==> r == s + [e]
    ensures e.unique_id in Ids(s) ==> r == s
    ensures forall k :: AllKind(s, k) && e.Kind() == k ==> AllKind(r, k)
  {
    IdsAppend(s, e);
    if e.unique_id in Ids(s) then s else s + [e]
  }

  /** Two collections holding the same keys at the same positions. */
  predicate SameKeys(a: seq<Piece>, b: seq<Piece>) {
    |a| == |b| && forall i :: 0 <= i < |a| ==> a[i].unique_id == b[i].unique_id
  }

  /** Collections with the same keys agree on key lookup, key set and key uniqueness. */
  lemma {:induction false} SameKeysAgree(a: seq<Piece>, b: seq<Piece>)
    requires SameKeys(a, b)
    ensures Ids(a) == Ids(b)
    ensures UniqueIds(a) <==> UniqueIds(b)
    ensures forall id :: IndexOf(a, id) == IndexOf(b, id)
  {
    if a != [] {
      SameKeysAgree(a[1..], b[1..]);
      IdsCons(a);
      IdsCons(b);
    }
  }

  /** `removeFrom(key)` applied once for every key in `keys`. */
  function RemoveKeys(s: seq<Piece>, keys: set<int>): (r: seq<Piece>)
    ensures forall p :: p in r <==> p in s && p.unique_id !in keys
    ensures forall k :: AllKind(s, k) ==> AllKind(r, k)
    ensures Ids(r) == Ids(s) - keys
    ensures UniqueIds(s) ==> UniqueIds(r)
    ensures |r| <= |s|
  {
    if s == [] then []
    else
      var rest := RemoveKeys(s[1..], keys);
      RemoveKeysCons(s, keys, rest);
      RemoveKeysConsIds(s, keys, rest);
      if s[0].unique_id in keys then rest else [s[0]] + rest
  }

  /** Keeping or dropping the head of `s` in front of what is kept of the tail: the entries. */
  lemma RemoveKeysCons(s: seq<Piece>, keys: set<int>, rest: seq<Piece>)
    requires s != []
    requires forall p :: p in rest <==> p in s[1..] && p.unique_id !in keys
    requires forall k :: AllKind(s[1..], k) ==> AllKind(rest, k)
    requires |rest| < |s|
    ensures var r := if s[0].unique_id in keys then rest else [s[0]] + rest;
      && (forall p :: p in r <==> p in s && p.unique_id !in keys)
      && (forall k :: AllKind(s, k) ==> AllKind(r, k))
      && |r| <= |s|
  {
    assert s == [s[0]] + s[1..];
  }

  /** Keeping or dropping the head of `s` in front of what is kept of the tail: the keys. */
  lemma RemoveKeysConsIds(s: seq<Piece>, keys: set<int>, rest: seq<Piece>)
    requires s != []
    requires Ids(rest) == Ids(s[1..]) - keys
    requires UniqueIds(s[1..]) ==> UniqueIds(rest)
    ensures var r := if s[0].unique_id in keys then rest else [s[0]] + rest;
      && Ids(r) == Ids(s) - keys
      && (UniqueIds(s) ==> UniqueIds(r))
  {
    IdsCons(s);
    if s[0].unique_id !in keys {
      IdsCons([s[0]] + rest);
      assert ([s[0]] + rest)[1..] == rest;
    }
    if UniqueIds(s) && s[0].unique_id !in keys {
      UniqueTail(s);
      UniqueCons(s[0], rest);
    }
  }

  /** The tail of a keyed set is keyed, and the head's key is not in it. */
  lemma UniqueTail(s: seq<Piece>)
    requires s != [] && UniqueIds(s)
    ensures UniqueIds(s[1..]) && s[0].unique_id !in Ids(s[1..])
  {
    forall i, j | 0 <= i < j < |s| - 1 ensures s[1..][i].unique_id != s[1..][j].unique_id {
      assert s[1..][i] == s[i + 1] && s[1..][j] == s[j + 1];
    }
    forall i | 0 <= i < |s| - 1 ensures s[1..][i].unique_id != s[0].unique_id {
      assert s[1..][i] == s[i + 1];
    }
  }

  /** A new key in front of a keyed set keeps it keyed. */
  lemma UniqueCons(e: Piece, rest: seq<Piece>)
    requires UniqueIds(rest) && e.unique_id !in Ids(rest)
    ensures UniqueIds([e] + rest)
  {
    var r := [e] + rest;
    forall i, j | 0 <= i < j < |r| ensures r[i].unique_id != r[j].unique_id {
      assert r[j] == rest[j - 1];
      if i == 0 {
        assert rest[j - 1].unique_id in Ids(rest);
      } else {
        assert r[i] == rest[i - 1];
      }
    }
  }

  lemma IdsCons(s: seq<Piece>)
    requires s != []
    ensures Ids(s) == {s[0].unique_id} + Ids(s[1..])
  {
    forall id | id in Ids(s) ensures id in {s[0].unique_id} + Ids(s[1..]) {
      var i :| 0 <= i < |s| && s[i].unique_id == id;
      if i > 0 { assert s[1..][i - 1] == s[i]; }
    }
    forall id | id in Ids(s[1..]) ensures id in Ids(s) {
      var i :| 0 <= i < |s[1..]| && s[1..][i].unique_id == id;
      assert s[i + 1].unique_id == id;
    }
  }

  lemma {:induction false} RemoveKeysTwice(s: seq<Piece>, keys: set<int>, k: int)
    ensures RemoveKeys(RemoveKeys(s, keys), {k}) == RemoveKeys(s, keys + {k})
  {
    if s != [] {
      RemoveKeysTwice(s[1..], keys, k);
    }
  }

  lemma {:induction false} RemoveAbsentKeys(s: seq<Piece>, keys: set<int>)
    requires keys !! Ids(s)
    ensures RemoveKeys(s, keys) == s
  {
    if s != [] {
      assert s[0].unique_id in Ids(s);
      assert Ids(s[1..]) <= Ids(s) by {
        forall id | id in Ids(s[1..]) ensures id in Ids(s) {
          var i :| 0 <= i < |s[1..]| && s[1..][i].unique_id == id;
          assert s[i + 1].unique_id == id;
        }
      }
      RemoveAbsentKeys(s[1..], keys);
    }
  }

  lemma IdsAppend(s: seq<Piece>, e: Piece)
    ensures Ids(s + [e]) == Ids(s) + {e.unique_id}
    ensures UniqueIds(s) && e.unique_id !in Ids(s) ==> UniqueIds(s + [e])
  {
    var t := s + [e];
    assert forall i :: 0 <= i < |s| ==> t[i] == s[i];
    assert t[|s|] == e;
    forall id | id in Ids(t) ensures id in Ids(s) + {e.unique_id} {
      var i :| 0 <= i < |t| && t[i].unique_id == id;
    }
  }
}
