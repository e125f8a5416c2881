/**
  Ship geometry of the Battleship game: the cells a ship occupies, the
  one-cell buffer around it, the contact test between two ships and the
  bounds test against a square board.  Everything here is a pure function
  of a ship's anchor, length and orientation.
 */
module ShipGeometry {

  import opened Wrappers

  /** `Ship.HORIZONTAL == 1`, `Ship.VERTICAL == 2`. */
  datatype Orientation = Horizontal | Vertical

  /** The numeric code the source stores in `_tp`. */
  function OrientationCode(tp: Orientation): int
  {
    match tp
    case Horizontal => 1
    case Vertical => 2
  }

  /** The check `__setattr__` makes before accepting a value for `_tp`:
      anything but 1 or 2 raises ValueError (modelled as None). */
  function ParseOrientation(code: int): (r: Option<Orientation>)
    ensures r.Some? <==> code == 1 || code == 2
    ensures r.Some? ==> OrientationCode(r.value) == code
  {
    if code == 1 then Some(Horizontal)
    else if code == 2 then Some(Vertical)
    else None
  }

  lemma OrientationRoundTrip(tp: Orientation)
    ensures ParseOrientation(OrientationCode(tp)) == Some(tp)
  {
    match tp
    case Horizontal =>
    case Vertical =>
  }

  /** A board cell `(x, y)`: x is the column, y the row (`field[y][x]`). */
  type Pos = (int, int)

  /** What the geometry of a ship depends on: its anchor (the first
      segment), its length and its orientation. */
  datatype Shape = Shape(x: int, y: int, length: nat, tp: Orientation)

  /** The tuple `indexes` of the source, in its order: the 3x3 block of
      offsets around (and including) a cell. */
  const Offsets: seq<(int, int)> :=
    [(-1, 0), (1, 0), (0, 1), (0, -1), (-1, -1), (1, -1), (-1, 1), (1, 1), (0, 0)]

  /** Chebyshev distance at most one: the same cell or one of its eight neighbours. */
  predicate Near(p: Pos, q: Pos)
  {
    -1 <= p.0 - q.0 <= 1 && -1 <= p.1 - q.1 <= 1
  }

  lemma OffsetsAreNeighbourhood(a: int, b: int)
    ensures (a, b) in Offsets <==> -1 <= a <= 1 && -1 <= b <= 1
  {
  }

  /** The `i`-th segment of a ship: `(x + i, y)` horizontally, `(x, y + i)` vertically. */
  function CellAt(s: Shape, i: int): Pos
  {
    if s.tp == Horizontal then (s.x + i, s.y) else (s.x, s.y + i)
  }

  /** `ship_coord` of `_get_place_and_around_coordinates`: the set of body cells. */
  function Body(s: Shape): set<Pos>
  {
    set i | 0 <= i < s.length :: CellAt(s, i)
  }

  /** `all_coord` of `_get_place_and_around_coordinates`: every body cell
      moved by every offset of `Offsets`. */
  function Footprint(s: Shape): set<Pos>
  {
    set p: Pos, o: (int, int) | p in Body(s) && o in Offsets :: Shift(o, p)
  }

  /** Cell `p` moved by offset `o`. */
  function Shift(o: (int, int), p: Pos): Pos
  {
    (o.0 + p.0, o.1 + p.1)
  }

  /** `is_collide`: the body cells of either ship that lie in both footprints. */
  predicate IsCollide(a: Shape, b: Shape)
  {
    var common := Footprint(a) * Footprint(b);
    |(Body(a) * common) + (Body(b) * common)| != 0
  }

  /** The last segment, as `last_part_coord` in `is_out_pole`. */
  function LastCell(s: Shape): Pos
  {
    if s.tp == Horizontal then (s.x + s.length - 1, s.y) else (s.x, s.y + s.length - 1)
  }

  /** `is_out_pole(size)`. */
  predicate IsOutPole(s: Shape, size: int)
  {
    var last := LastCell(s);
    s.x < 0 || last.0 > size - 1 || s.y < 0 || last.1 > size - 1
  }

  /** A cell of a `size` x `size` board. */
  predicate InGrid(p: Pos, size: int)
  {
    0 <= p.0 < size && 0 <= p.1 < size
  }

  /** `move(go)`: the anchor shifted by `go` along the ship's own axis. */
  function Moved(s: Shape, go: int): (r: Shape)
    ensures r.length == s.length && r.tp == s.tp
    ensures s.tp == Horizontal ==> r.y == s.y && r.x == s.x + go
    ensures s.tp == Vertical ==> r.x == s.x && r.y == s.y + go
  {
    if s.tp == Horizontal then s.(x := s.x + go) else s.(y := s.y + go)
  }

  /** `move(go)` slides the ship `go` cells along its own axis: segment `i`
      lands where segment `i + go` was, so the body cells are those of the
      segments `go .. go + length - 1` of the old position. */
  lemma MovedSlides(s: Shape, go: int)
    ensures Moved(s, go).length == s.length && Moved(s, go).tp == s.tp
    ensures forall i :: CellAt(Moved(s, go), i) == CellAt(s, i + go)
    ensures Body(Moved(s, go)) == set i | go <= i < go + s.length :: CellAt(s, i)
  {
    var m := Moved(s, go);
    forall p | p in Body(m) ensures p in set i | go <= i < go + s.length :: CellAt(s, i)
    {
      var i :| 0 <= i < m.length && p == CellAt(m, i);
      assert p == CellAt(s, i + go);
    }
    forall p | p in set i | go <= i < go + s.length :: CellAt(s, i) ensures p in Body(m)
    {
      var i :| go <= i < go + s.length && p == CellAt(s, i);
      assert p == CellAt(m, i - go);
    }
  }

  /** The list `get_all_ships_parts_coord` builds for a ship: its segments in order. */
  function PartsCoord(s: Shape): (r: seq<Pos>)
    ensures |r| == s.length
    ensures forall i :: 0 <= i < s.length ==> r[i] == CellAt(s, i)
  {
    seq(s.length, i => CellAt(s, i))
  }

  // ---------------------------------------------------------------------
  // Properties
  // ---------------------------------------------------------------------

  /** The body is exactly the segments `CellAt(s, 0) .. CellAt(s, length - 1)`. */
  lemma BodyIsSegments(s: Shape, p: Pos)
    ensures p in Body(s) <==> exists i :: 0 <= i < s.length && p == CellAt(s, i)
  {
  }

  /** The segment list of `get_all_ships_parts_coord` lists the body of
      `_get_place_and_around_coordinates`, each cell once, in anchor order. */
  lemma PartsCoordIsBody(s: Shape)
    ensures (set p | p in PartsCoord(s)) == Body(s)
    ensures forall i, j :: 0 <= i < j < s.length ==> PartsCoord(s)[i] != PartsCoord(s)[j]
  {
    forall p
      ensures p in PartsCoord(s) <==> p in Body(s)
    {
      BodyIsSegments(s, p);
      if p in PartsCoord(s) {
        var i :| 0 <= i < s.length && PartsCoord(s)[i] == p;
        assert p == CellAt(s, i);
      }
    }
  }

  /** A cell's position within the body: the inverse of `CellAt`. */
  function SegmentIndex(s: Shape, p: Pos): int
  {
    if s.tp == Horizontal then p.0 - s.x else p.1 - s.y
  }

  lemma SegmentIndexOfBody(s: Shape, p: Pos)
    requires p in Body(s)
    ensures 0 <= SegmentIndex(s, p) < s.length && CellAt(s, SegmentIndex(s, p)) == p
  {
    BodyIsSegments(s, p);
  }

  /** The footprint is the body together with every cell at Chebyshev
      distance one from it. */
  lemma FootprintIsNeighbourhood(s: Shape, q: Pos)
    ensures q in Footprint(s) <==> exists p :: p in Body(s) && Near(q, p)
  {
    if q in Footprint(s) {
      var p: Pos, o: (int, int) :| p in Body(s) && o in Offsets && q == Shift(o, p);
      OffsetsAreNeighbourhood(o.0, o.1);
      assert Near(q, p);
    }
    if p :| p in Body(s) && Near(q, p) {
      var o := (q.0 - p.0, q.1 - p.1);
      OffsetsAreNeighbourhood(o.0, o.1);
      assert o in Offsets;
      assert q == Shift(o, p);
    }
  }

  /** Two ships collide exactly when a body cell of one is within
      Chebyshev distance one of a body cell of the other. */
  lemma CollideIffNear(a: Shape, b: Shape)
    ensures IsCollide(a, b) <==> exists p, q :: p in Body(a) && q in Body(b) && Near(p, q)
  {
    var common := Footprint(a) * Footprint(b);
    var result := (Body(a) * common) + (Body(b) * common);
    if IsCollide(a, b) {
      assert result != {};
      var r :| r in result;
      FootprintIsNeighbourhood(a, r);
      FootprintIsNeighbourhood(b, r);
      if r in Body(a) {
        var q :| q in Body(b) && Near(r, q);
      } else {
        var p :| p in Body(a) && Near(r, p);
        assert Near(p, r);
      }
    }
    if p, q :| p in Body(a) && q in Body(b) && Near(p, q) {
      FootprintIsNeighbourhood(a, p);
      FootprintIsNeighbourhood(b, p);
      assert Near(p, p);
      assert p in result;
      assert |result| != 0;
    }
  }

  /** `is_collide` does not depend on which ship asks. */
  lemma CollideSymmetric(a: Shape, b: Shape)
    ensures IsCollide(a, b) == IsCollide(b, a)
  {
    CollideIffNear(a, b);
    CollideIffNear(b, a);
    if p, q :| p in Body(a) && q in Body(b) && Near(p, q) {
      assert Near(q, p);
    }
    if q, p :| q in Body(b) && p in Body(a) && Near(q, p) {
      assert Near(p, q);
    }
  }

  /** For a ship of positive length, `is_out_pole` is false exactly when
      every body cell lies on the board. */
  lemma OutPoleIffBodyOff(s: Shape, size: int)
    requires s.length >= 1
    ensures !IsOutPole(s, size) <==> forall p :: p in Body(s) ==> InGrid(p, size)
  {
    if forall p :: p in Body(s) ==> InGrid(p, size) {
      BodyIsSegments(s, CellAt(s, 0));
      BodyIsSegments(s, CellAt(s, s.length - 1));
    } else {
      var p :| p in Body(s) && !InGrid(p, size);
      BodyIsSegments(s, p);
    }
  }

  /** Body membership in closed form: a ship's cells are the box between
      its anchor and its last cell (empty for length 0). */
  predicate Covers(s: Shape, p: Pos)
  {
    var last := LastCell(s);
    s.x <= p.0 <= last.0 && s.y <= p.1 <= last.1
  }

  lemma CoversIsBody(s: Shape, p: Pos)
    ensures p in Body(s) <==> Covers(s, p)
    ensures Covers(s, p) ==> 0 <= SegmentIndex(s, p) < s.length && CellAt(s, SegmentIndex(s, p)) == p
  {
    BodyIsSegments(s, p);
    if Covers(s, p) {
      assert CellAt(s, SegmentIndex(s, p)) == p;
    }
  }

  /** Contact in closed form: both ships have a cell and their boxes, each
      widened by one cell, overlap. */
  predicate Touch(a: Shape, b: Shape)
  {
    var la, lb := LastCell(a), LastCell(b);
    && a.length > 0 && b.length > 0
    && a.x <= lb.0 + 1 && b.x <= la.0 + 1
    && a.y <= lb.1 + 1 && b.y <= la.1 + 1
  }

  /** Two overlapping-or-adjacent integer intervals have points at most one apart. */
  lemma IntervalsNear(a0: int, a1: int, b0: int, b1: int) returns (u: int, v: int)
    requires a0 <= a1 && b0 <= b1 && a0 <= b1 + 1 && b0 <= a1 + 1
    ensures a0 <= u <= a1 && b0 <= v <= b1 && -1 <= u - v <= 1
  {
    if a0 >= b0 {
      u := a0;
      v := if a0 <= b1 then a0 else b1;
    } else {
      v := b0;
      u := if a1 <= b0 then a1 else b0;
    }
  }

  /** The set computation of `is_collide` is the closed-form contact test. */
  lemma CollideIffTouch(a: Shape, b: Shape)
    ensures IsCollide(a, b) <==> Touch(a, b)
  {
    CollideIffNear(a, b);
    if IsCollide(a, b) {
      var p, q :| p in Body(a) && q in Body(b) && Near(p, q);
      CoversIsBody(a, p);
      CoversIsBody(b, q);
    }
    if Touch(a, b) {
      var la, lb := LastCell(a), LastCell(b);
      var u, v := IntervalsNear(a.x, la.0, b.x, lb.0);
      var w, z := IntervalsNear(a.y, la.1, b.y, lb.1);
      CoversIsBody(a, (u, w));
      CoversIsBody(b, (v, z));
      assert Near((u, w), (v, z));
    }
  }

  /** An in-bounds ship shorter than the board can move one step along
      its axis in at least one of the two directions without leaving it. */
  lemma OneDirectionFits(s: Shape, size: int)
    requires !IsOutPole(s, size) && s.length < size
    ensures !IsOutPole(Moved(s, 1), size) || !IsOutPole(Moved(s, -1), size)
  {
  }
}
