/**
  The `Ship` object of the Battleship game: fixed length and orientation,
  a mutable anchor, a mutable list of segment states and a mobility flag.
 */
module SeaShips {

  import opened Wrappers
  import opened ShipGeometry

  /** Segment states kept in `_cells`. */
  const INTACT := 1
  const HIT := 2

  /** The exceptions `__setattr__` raises. */
  datatype ShipError = TypeError | ValueError

  /** A coordinate or length `__setattr__` refuses: a negative integer (None passes). */
  predicate Negative(v: Option<int>)
  {
    v.Some? && v.value < 0
  }

  /** Every segment state is 1 (intact) or 2 (hit). */
  predicate ValidCells(cells: seq<int>)
  {
    forall i :: 0 <= i < |cells| ==> cells[i] == INTACT || cells[i] == HIT
  }

  /** `Ship.__bool__`: the ship is still afloat unless every segment is hit. */
  predicate Alive(cells: seq<int>)
  {
    !(forall i :: 0 <= i < |cells| ==> cells[i] == HIT)
  }

  /** With states restricted to 1 and 2, a ship is alive exactly when it
      has an intact segment. */
  lemma AliveIffIntactSegment(cells: seq<int>)
    requires ValidCells(cells)
    ensures Alive(cells) <==> exists i :: 0 <= i < |cells| && cells[i] == INTACT
  {
  }

  /** The part of a ship the board and the drift read: geometry,
      segment states and mobility. */
  datatype ShipState = ShipState(shape: Shape, cells: seq<int>, isMove: bool)

  class Ship {
    const length: nat
    const tp: Orientation
    /** The anchor `_x`, `_y`.  Each coordinate is Python's None until its
        flag is set, and the two are set one at a time. */
    var x: nat
    var y: nat
    var xSet: bool
    var ySet: bool
    var isMove: bool
    var cells: seq<int>

    ghost predicate Valid()
      reads this`cells
    {
      |cells| == length && ValidCells(cells)
    }

    /** `Ship(length, tp, x, y)`: a mobile ship with every segment intact and
        the anchor coordinates given, each of them possibly None. */
    constructor (length: nat, tp: Orientation, ox: Option<nat>, oy: Option<nat>)
      ensures Valid() && this.length == length && this.tp == tp
      ensures xSet == ox.Some? && (ox.Some? ==> x == ox.value)
      ensures ySet == oy.Some? && (oy.Some? ==> y == oy.value)
      ensures isMove
      ensures forall i :: 0 <= i < length ==> cells[i] == INTACT
    {
      this.length := length;
      this.tp := tp;
      x := if ox.Some? then ox.value else 0;
      y := if oy.Some? then oy.value else 0;
      xSet, ySet := ox.Some?, oy.Some?;
      isMove := true;
      cells := seq(length, _ => INTACT);
    }

    /** Both coordinates of the anchor are set (neither is None). */
    predicate Placed()
      reads this`xSet, this`ySet
    {
      xSet && ySet
    }

    /** The coordinate `move` adds to: `_x` for a horizontal ship, `_y` for a vertical one. */
    predicate AxisSet()
      reads this`xSet, this`ySet
    {
      if tp == Horizontal then xSet else ySet
    }

    function Geometry(): Shape
      reads this
    {
      Shape(x, y, length, tp)
    }

    function State(): ShipState
      reads this
    {
      ShipState(Geometry(), cells, isMove)
    }

    /** `__bool__`. */
    predicate IsAlive()
      reads this
    {
      Alive(cells)
    }

    /** `_check_index`. */
    predicate CheckIndex(index: int)
      reads this
    {
      0 <= index < |cells|
    }

    /** `__getitem__`: the segment state at `item`, None for an index out of range. */
    function GetItem(item: int): (r: Option<int>)
      reads this
      requires Valid()
      ensures r.Some? <==> 0 <= item < length
      ensures r.Some? ==> r.value == cells[item] && (r.value == INTACT || r.value == HIT)
    {
      if CheckIndex(item) then Some(cells[item]) else None
    }

    /** `__setitem__`: only an in-range index and a value of 1 or 2 are written;
        every other write is ignored. */
    method SetItem(key: int, value: int)
      requires Valid()
      modifies this
      ensures Valid()
      ensures cells == if 0 <= key < length && (value == INTACT || value == HIT)
                       then old(cells)[key := value] else old(cells)
      ensures x == old(x) && y == old(y) && xSet == old(xSet) && ySet == old(ySet) && isMove == old(isMove)
    {
      if CheckIndex(key) && (value == INTACT || value == HIT) {
        cells := cells[key := value];
      }
    }

    /** `set_start_coords(x, y)`: `_x` is assigned before `_y`, each value may
        be None, and each assignment raises TypeError for a negative value, so
        a bad `y` still leaves the new `x` in place. */
    method SetStartCoords(nx: Option<int>, ny: Option<int>) returns (err: Option<ShipError>)
      modifies this
      ensures err.Some? <==> Negative(nx) || Negative(ny)
      ensures err.Some? ==> err.value == TypeError
      ensures xSet == (if Negative(nx) then old(xSet) else nx.Some?)
      ensures x == (if nx.Some? && nx.value >= 0 then nx.value else old(x))
      ensures ySet == (if Negative(nx) || Negative(ny) then old(ySet) else ny.Some?)
      ensures y == (if !Negative(nx) && ny.Some? && ny.value >= 0 then ny.value else old(y))
      ensures cells == old(cells) && isMove == old(isMove)
    {
      if Negative(nx) {
        return Some(TypeError);
      }
      xSet := nx.Some?;
      if nx.Some? {
        x := nx.value;
      }
      if Negative(ny) {
        return Some(TypeError);
      }
      ySet := ny.Some?;
      if ny.Some? {
        y := ny.value;
      }
      err := None;
    }

    /** `move(go)`: a mobile ship shifts its anchor by `go` along its own axis;
        an immobile ship does nothing.  Adding `go` to a coordinate that is
        still None, or reaching a negative coordinate, raises TypeError and
        changes nothing; the other coordinate is written back as it was, None
        included. */
    method Move(go: int) returns (err: Option<ShipError>)
      modifies this
      ensures err.Some? <==> old(isMove) && (!old(AxisSet()) || Moved(old(Geometry()), go).x < 0
                                                           || Moved(old(Geometry()), go).y < 0)
      ensures err.None? && old(isMove) ==> Geometry() == Moved(old(Geometry()), go)
      ensures err.Some? || !old(isMove) ==> Geometry() == old(Geometry())
      ensures xSet == old(xSet) && ySet == old(ySet) && cells == old(cells) && isMove == old(isMove)
    {
      err := None;
      if isMove {
        if !AxisSet() {
          return Some(TypeError);
        }
        var ox: Option<int> := if xSet then Some(x) else None;
        var oy: Option<int> := if ySet then Some(y) else None;
        if tp == Horizontal {
          err := SetStartCoords(Some(x + go), oy);
        } else {
          err := SetStartCoords(ox, Some(y + go));
        }
      }
    }
  }

  /** The checks `Ship.__init__` makes through `__setattr__`, in the order it
      assigns: a negative length raises TypeError, then an orientation code
      other than 1 or 2 raises ValueError, then a negative `x` or `y` raises
      TypeError. */
  method NewShip(length: int, code: int, ox: Option<int>, oy: Option<int>) returns (r: Result<Ship, ShipError>)
    ensures r.Err? <==> length < 0 || ParseOrientation(code).None? || Negative(ox) || Negative(oy)
    ensures r.Err? ==> r.error == (if length < 0 then TypeError
                                   else if ParseOrientation(code).None? then ValueError else TypeError)
    ensures r.Ok? ==> fresh(r.value) && r.value.Valid() && r.value.length == length
                      && OrientationCode(r.value.tp) == code
                      && r.value.xSet == ox.Some? && (ox.Some? ==> r.value.x == ox.value)
                      && r.value.ySet == oy.Some? && (oy.Some? ==> r.value.y == oy.value)
                      && r.value.isMove
                      && forall i :: 0 <= i < length ==> r.value.cells[i] == INTACT
  {
    if length < 0 {
      return Err(TypeError);
    }
    var tp := ParseOrientation(code);
    if tp.None? {
      return Err(ValueError);
    }
    if Negative(ox) || Negative(oy) {
      return Err(TypeError);
    }
    var ship := new Ship(length, tp.value, if ox.Some? then Some(ox.value as nat) else None,
                         if oy.Some? then Some(oy.value as nat) else None);
    r := Ok(ship);
  }
}
