/**
  `GamePole`: one player's board.  It owns ten ships and a `size` x `size`
  grid that shows, for every cell, 0 (water) or the state of the ship
  segment lying there.  Ship placement (`init`), the grid rebuild
  (`update_game_field`) and the drift of the ships (`move_ships`) work in
  place on the grid and on the ship objects.
 */
module SeaPole {

  import opened Wrappers
  import opened ShipGeometry
  import opened SeaShips
  import opened SeaBoard

  /** The lengths `_generate_ships` gives the ten ships, in list order. */
  const SHIP_LENGTHS: seq<nat> := [4, 3, 3, 2, 2, 2, 1, 1, 1, 1]

  datatype Direction = Forward | Back

  /** How one tried direction of `move_ships` ended. */
  datatype Attempt = OffBoard | Clash | Kept

  /** The outcome of `shuffle(directions)`, chosen by the caller: the two
      directions are ordered so that `pop()` yields forward first exactly
      when `forwardFirst`; a shorter list has nothing to shuffle. */
  function Shuffle(directions: seq<Direction>, forwardFirst: bool): (r: seq<Direction>)
    ensures |r| == |directions|
    ensures |directions| == 2 && directions[0] != directions[1] ==>
      r[1] == (if forwardFirst then Forward else Back) && r[0] != r[1]
  {
    if |directions| == 2 && directions[0] != directions[1] then
      (if forwardFirst then [Back, Forward] else [Forward, Back])
    else directions
  }

  /** `shuffle` only reorders. */
  lemma ShuffleIsPermutation(directions: seq<Direction>, forwardFirst: bool)
    ensures multiset(Shuffle(directions, forwardFirst)) == multiset(directions)
  {
    if |directions| == 2 && directions[0] != directions[1] {
      assert directions == [directions[0], directions[1]];
      assert multiset(directions) == multiset{directions[0], directions[1]};
      assert multiset{Forward, Back} == multiset{Back, Forward};
      if directions[0] == Forward {
        assert directions == [Forward, Back];
      } else {
        assert directions == [Back, Forward];
      }
    }
  }

  /** Shape `s` moved to the anchor `d`. */
  function At(s: Shape, d: Pos): Shape
  {
    s.(x := d.0, y := d.1)
  }

  /** Where the search for ship `i` starts in the draws, when ship `j` took
      draw `taken[j]`: just after the draw of the previous ship. */
  function Start(taken: seq<nat>, i: nat): nat
    requires i <= |taken|
  {
    if i == 0 then 0 else taken[i - 1] + 1
  }

  class GamePole {
    const size: nat
    const ships: seq<Ship>
    const field: array2<int>
    /** How many enemy ships this player has sunk. */
    var countDeadShips: int

    predicate Dims()
    {
      field.Length0 == size && field.Length1 == size
    }

    /** No ship is listed twice. */
    predicate Distinct()
    {
      forall i, j :: 0 <= i < |ships| && 0 <= j < |ships| && i != j ==> ships[i] != ships[j]
    }

    ghost predicate Valid()
      reads ships`cells, field
    {
      && Dims()
      && Distinct()
      && (forall i :: 0 <= i < |ships| ==> ships[i].Valid())
      && (forall r, c :: 0 <= r < size && 0 <= c < size ==> 0 <= field[r, c] <= HIT)
    }

    /** The ships as values, in list order. */
    ghost function Fleet(): (f: seq<ShipState>)
      reads ships
      ensures |f| == |ships|
      ensures forall i :: 0 <= i < |ships| ==> f[i] == ships[i].State()
    {
      seq(|ships|, i requires 0 <= i < |ships| reads ships => ships[i].State())
    }

    lemma FleetWellFormed()
      requires Valid()
      ensures WellFormed(Fleet())
    {
    }

    /** Every ship has an anchor (none is still at None). */
    predicate AllPlaced()
      reads ships`xSet, ships`ySet
    {
      forall i :: 0 <= i < |ships| ==> ships[i].Placed()
    }

    /** The board after a complete `init`: every ship anchored on the board,
        no two touching. */
    ghost predicate Deployed()
      reads ships, field
    {
      Valid() && AllPlaced() && AllInPole(Fleet(), size) && PairwiseApart(Fleet())
    }

    /** `GamePole(size)`: an empty board and the ten ships of `_generate_ships`,
        with the orientations the caller drew. */
    constructor (size: nat, orientations: seq<Orientation>)
      requires |orientations| == |SHIP_LENGTHS|
      ensures Valid() && this.size == size && fresh(field) && countDeadShips == 0 && !DestroyedAll()
      ensures |ships| == |SHIP_LENGTHS|
      ensures forall i :: 0 <= i < |ships| ==>
        && fresh(ships[i]) && ships[i].length == SHIP_LENGTHS[i] && ships[i].tp == orientations[i]
        && !ships[i].Placed() && ships[i].isMove
        && forall j :: 0 <= j < ships[i].length ==> ships[i].cells[j] == INTACT
      ensures forall r, c :: 0 <= r < size && 0 <= c < size ==> field[r, c] == 0
    {
      var made: seq<Ship> := [];
      var i := 0;
      while i < |SHIP_LENGTHS|
        invariant 0 <= i <= |SHIP_LENGTHS| && |made| == i
        invariant forall j :: 0 <= j < i ==>
          && fresh(made[j]) && made[j].Valid()
          && made[j].length == SHIP_LENGTHS[j] && made[j].tp == orientations[j]
          && !made[j].Placed() && made[j].isMove
          && forall l :: 0 <= l < made[j].length ==> made[j].cells[l] == INTACT
        invariant forall j, l :: 0 <= j < l < i ==> made[j] != made[l]
      {
        var ship := new Ship(SHIP_LENGTHS[i], orientations[i], None, None);
        made := made + [ship];
        i := i + 1;
      }
      this.size := size;
      ships := made;
      field := new int[size, size]((_, _) => 0);
      countDeadShips := 0;
    }

    /** `__bool__`: this player has sunk all ten enemy ships. */
    predicate DestroyedAll()
      reads this
    {
      countDeadShips == 10
    }

    // -------------------------------------------------------------------
    // _check_ships_around
    // -------------------------------------------------------------------

    /** The generator sum of `_check_ships_around` around row `r`, column `c`:
        the grid values at the offsets `offs` that fall on the board. */
    function OffsetSum(offs: seq<(int, int)>, r: int, c: int): int
      reads field
      requires Dims()
    {
      if offs == [] then 0
      else
        var rr, cc := r + offs[0].0, c + offs[0].1;
        (if 0 <= rr < size && 0 <= cc < size then field[rr, cc] else 0) + OffsetSum(offs[1..], r, c)
    }

    /** The running total of `_check_ships_around` after `k` segments. */
    function AroundSum(s: Shape, k: nat): int
      reads field
      requires Dims()
    {
      if k == 0 then 0
      else AroundSum(s, k - 1) + OffsetSum(Offsets, CellAt(s, k - 1).1, CellAt(s, k - 1).0)
    }

    predicate NonNegative()
      reads field
      requires Dims()
    {
      forall r, c :: 0 <= r < size && 0 <= c < size ==> field[r, c] >= 0
    }

    /** The 3x3 block around cell `p` is water wherever it is on the board. */
    ghost predicate ClearNear(p: Pos)
      reads field
      requires Dims()
    {
      forall q :: Near(q, p) && InGrid(q, size) ==> field[q.1, q.0] == 0
    }

    /** No segment lies on or next to a body cell of `s`. */
    ghost predicate ClearAround(s: Shape)
      reads field
      requires Dims()
    {
      forall p, q :: Covers(s, p) && Near(q, p) && InGrid(q, size) ==> field[q.1, q.0] == 0
    }

    lemma {:induction false} OffsetSumZero(offs: seq<(int, int)>, r: int, c: int)
      requires Dims() && NonNegative()
      ensures OffsetSum(offs, r, c) >= 0
      ensures OffsetSum(offs, r, c) == 0 <==>
        forall i :: 0 <= i < |offs| && InGrid((c + offs[i].1, r + offs[i].0), size) ==>
          field[r + offs[i].0, c + offs[i].1] == 0
    {
      if offs != [] {
        OffsetSumZero(offs[1..], r, c);
        assert forall i :: 1 <= i < |offs| ==> offs[i] == offs[1..][i - 1];
      }
    }

    /** Over the source's nine offsets, a zero sum means a clear 3x3 block. */
    lemma NeighbourSumZero(p: Pos)
      requires Dims() && NonNegative()
      ensures OffsetSum(Offsets, p.1, p.0) >= 0
      ensures OffsetSum(Offsets, p.1, p.0) == 0 <==> ClearNear(p)
    {
      OffsetSumZero(Offsets, p.1, p.0);
      if OffsetSum(Offsets, p.1, p.0) == 0 {
        ZeroSumClear(p);
      } else {
        NonZeroSumBlocked(p);
      }
    }

    lemma ZeroSumClear(p: Pos)
      requires Dims()
      requires forall i :: 0 <= i < |Offsets| && InGrid((p.0 + Offsets[i].1, p.1 + Offsets[i].0), size) ==>
          field[p.1 + Offsets[i].0, p.0 + Offsets[i].1] == 0
      ensures ClearNear(p)
    {
      forall q | Near(q, p) && InGrid(q, size)
        ensures field[q.1, q.0] == 0
      {
        var a, b := q.1 - p.1, q.0 - p.0;
        OffsetsAreNeighbourhood(a, b);
        var i :| 0 <= i < |Offsets| && Offsets[i] == (a, b);
        assert InGrid((p.0 + Offsets[i].1, p.1 + Offsets[i].0), size);
      }
    }

    lemma NonZeroSumBlocked(p: Pos)
      requires Dims()
      requires exists i :: (0 <= i < |Offsets| && InGrid((p.0 + Offsets[i].1, p.1 + Offsets[i].0), size)
                            && field[p.1 + Offsets[i].0, p.0 + Offsets[i].1] != 0)
      ensures !ClearNear(p)
    {
      var i :| 0 <= i < |Offsets| && InGrid((p.0 + Offsets[i].1, p.1 + Offsets[i].0), size)
        && field[p.1 + Offsets[i].0, p.0 + Offsets[i].1] != 0;
      OffsetsAreNeighbourhood(Offsets[i].0, Offsets[i].1);
      assert Near((p.0 + Offsets[i].1, p.1 + Offsets[i].0), p);
    }

    lemma {:induction false} AroundSumZeroPrefix(s: Shape, k: nat)
      requires Dims() && NonNegative()
      ensures AroundSum(s, k) >= 0
      ensures AroundSum(s, k) == 0 <==> forall i :: 0 <= i < k ==> ClearNear(CellAt(s, i))
    {
      if k > 0 {
        AroundSumZeroPrefix(s, k - 1);
        NeighbourSumZero(CellAt(s, k - 1));
      }
    }

    /** On a grid of non-negative values, `_check_ships_around` returns 0
        exactly when no segment lies on or next to the candidate ship. */
    lemma AroundSumZeroIff(s: Shape)
      requires Dims() && NonNegative()
      ensures AroundSum(s, s.length) >= 0
      ensures AroundSum(s, s.length) == 0 <==> ClearAround(s)
    {
      AroundSumZeroPrefix(s, s.length);
      forall p | Covers(s, p)
        ensures exists i :: 0 <= i < s.length && p == CellAt(s, i)
      {
        CoversIsBody(s, p);
      }
      forall i | 0 <= i < s.length
        ensures Covers(s, CellAt(s, i))
      {
      }
    }

    /** `_check_ships_around(length, (headX, headY), orientation)`. */
    method CheckShipsAround(length: nat, headX: int, headY: int, orientation: Orientation) returns (result: int)
      requires Valid()
      ensures result == AroundSum(Shape(headX, headY, length, orientation), length)
      ensures result >= 0
      ensures result == 0 <==> ClearAround(Shape(headX, headY, length, orientation))
    {
      ghost var s := Shape(headX, headY, length, orientation);
      result := 0;
      if orientation == Horizontal {
        var j, k := headX, 0;
        while length > k
          invariant 0 <= k <= length && j == headX + k
          invariant result == AroundSum(s, k)
        {
          result := result + OffsetSum(Offsets, headY, j);
          j := j + 1;
          k := k + 1;
        }
      } else {
        var i, k := headY, 0;
        while length > k
          invariant 0 <= k <= length && i == headY + k
          invariant result == AroundSum(s, k)
        {
          result := result + OffsetSum(Offsets, i, headX);
          i := i + 1;
          k := k + 1;
        }
      }
      AroundSumZeroIff(s);
    }

    // -------------------------------------------------------------------
    // Writing a ship into the grid
    // -------------------------------------------------------------------

    /** The loop `for j in range(x, x + length): field[y][j] = ship[k]` of
        `init` and `update_game_field` (and its vertical twin): the ship's
        segment states are written at its body cells for anchor `(x, y)`. */
    method WriteSegments(ship: Ship, x: nat, y: nat)
      requires Valid() && ship in ships
      requires !IsOutPole(Shape(x, y, ship.length, ship.tp), size)
      modifies field
      ensures Valid()
      ensures forall r, c :: 0 <= r < size && 0 <= c < size ==>
        field[r, c] == Paint([ShipState(Shape(x, y, ship.length, ship.tp), ship.cells, ship.isMove)], r, c, old(field[r, c]))
    {
      ghost var sh := Shape(x, y, ship.length, ship.tp);
      ghost var st := ShipState(sh, ship.cells, ship.isMove);
      var k := 0;
      if ship.tp == Horizontal {
        for j := x to x + ship.length
          invariant Valid()
          invariant k == j - x
          invariant forall r, c :: 0 <= r < size && 0 <= c < size ==>
            field[r, c] == (if r == y && x <= c < j then ship.cells[c - x] else old(field[r, c]))
        {
          field[y, j] := ship.GetItem(k).value;
          k := k + 1;
        }
      } else {
        for i := y to y + ship.length
          invariant Valid()
          invariant k == i - y
          invariant forall r, c :: 0 <= r < size && 0 <= c < size ==>
            field[r, c] == (if c == x && y <= r < i then ship.cells[r - y] else old(field[r, c]))
        {
          field[i, x] := ship.GetItem(k).value;
          k := k + 1;
        }
      }
      assert WellFormed([st]);
      forall r, c | 0 <= r < size && 0 <= c < size
        ensures field[r, c] == Paint([st], r, c, old(field[r, c]))
      {
        assert [st][..0] == [];
        if ship.tp == Horizontal && r == y && x <= c < x + ship.length {
          assert CellAt(sh, c - x) == (c, r);
        } else if ship.tp == Vertical && c == x && y <= r < y + ship.length {
          assert CellAt(sh, r - y) == (c, r);
        }
      }
    }

    // -------------------------------------------------------------------
    // init
    // -------------------------------------------------------------------

    /** One pass of the `while True` loop of `init` for ship `k` and the
        drawn anchor `(x, y)`: reject an anchor whose ship would stick out of
        the board or whose `_check_ships_around` is not 0; otherwise write the
        ship's segments and record the anchor. */
    method TryPlace(k: nat, x: nat, y: nat) returns (accepted: bool)
      requires Valid() && k < |ships| && InGrid((x, y), size)
      modifies field, ships[k]
      ensures Valid()
      ensures accepted <==>
        !IsOutPole(Shape(x, y, ships[k].length, ships[k].tp), size)
        && old(ClearAround(Shape(x, y, ships[k].length, ships[k].tp)))
      ensures accepted ==> ships[k].x == x && ships[k].y == y && ships[k].Placed()
      ensures !accepted ==> unchanged(field) && unchanged(ships[k])
      ensures ships[k].cells == old(ships[k].cells) && ships[k].isMove == old(ships[k].isMove)
      ensures forall r, c :: 0 <= r < size && 0 <= c < size ==>
        field[r, c] == if accepted then Paint([ships[k].State()], r, c, old(field[r, c]))
                       else old(field[r, c])
    {
      var ship := ships[k];
      var tp: Orientation, length: int := ship.tp, ship.length;
      if tp == Horizontal {
        if x + (length - 1) > size - 1 {
          return false;
        }
      } else {
        if y + (length - 1) > size - 1 {
          return false;
        }
      }
      var result := CheckShipsAround(length, x, y, tp);
      if result != 0 {
        return false;
      }
      WriteSegments(ship, x, y);
      var err := ship.SetStartCoords(Some(x), Some(y));
      accepted := true;
    }

    /** On a grid where every segment of an already placed ship is visible,
        a candidate with `ClearAround` touches none of those ships. */
    lemma VisibleFleetApart(fleet: seq<ShipState>)
      requires Dims() && WellFormed(fleet) && AllInPole(fleet, size)
      requires forall j, q :: 0 <= j < |fleet| && Covers(fleet[j].shape, q) && InGrid(q, size) ==>
        field[q.1, q.0] != 0
      ensures forall s :: ClearAround(s) ==> forall j :: 0 <= j < |fleet| ==> !Touch(s, fleet[j].shape)
    {
      forall s, j | ClearAround(s) && 0 <= j < |fleet|
        ensures !Touch(s, fleet[j].shape)
      {
        var t := fleet[j].shape;
        if Touch(s, t) {
          var ls, lt := LastCell(s), LastCell(t);
          var u, v := IntervalsNear(s.x, ls.0, t.x, lt.0);
          var w, z := IntervalsNear(s.y, ls.1, t.y, lt.1);
          assert Covers(s, (u, w)) && Near((v, z), (u, w));
          assert Covers(t, (v, z)) && InGrid((v, z), size);
          assert false;
        }
      }
    }

    /** `bg` has the shape of the board. */
    ghost predicate IsGrid(bg: seq<seq<int>>)
    {
      |bg| == size && forall r :: 0 <= r < size ==> |bg[r]| == size
    }

    /** The grid shows the ships of `fleet` painted in order over `bg`. */
    ghost predicate Shows(fleet: seq<ShipState>, bg: seq<seq<int>>)
      reads field
      requires Dims() && WellFormed(fleet) && IsGrid(bg)
    {
      forall r, c :: 0 <= r < size && 0 <= c < size ==> field[r, c] == Paint(fleet, r, c, bg[r][c])
    }

    /** The grid as a value. */
    ghost function Snapshot(): (g: seq<seq<int>>)
      reads field
      requires Dims()
      ensures IsGrid(g) && forall r, c :: 0 <= r < size && 0 <= c < size ==> g[r][c] == field[r, c]
    {
      seq(size, r requires 0 <= r < size reads field =>
        seq(size, c requires 0 <= c < size reads field => field[r, c]))
    }

    /** The tests of `init` for a ship of shape `s`, on the grid that shows
        `fleet` painted over `bg`: the ship lies on the board and no segment
        is on or next to it. */
    ghost predicate FitsOver(fleet: seq<ShipState>, bg: seq<seq<int>>, s: Shape)
      requires IsGrid(bg) && WellFormed(fleet)
    {
      && !IsOutPole(s, size)
      && forall p, q :: Covers(s, p) && Near(q, p) && InGrid(q, size) ==> Paint(fleet, q.1, q.0, bg[q.1][q.0]) == 0
    }

    /** On a grid that shows `fleet` over `bg`, the tests of `init` are `FitsOver`. */
    lemma ShowsFits(fleet: seq<ShipState>, bg: seq<seq<int>>, s: Shape)
      requires Dims() && IsGrid(bg) && WellFormed(fleet) && Shows(fleet, bg)
      ensures FitsOver(fleet, bg, s) <==> !IsOutPole(s, size) && ClearAround(s)
    {
    }

    /** `init` gave the ships of `fleet`, in order, the draws at `taken`: each
        ship took the first draw after the previous ship's that passes the
        tests on the grid left by the ships before it. */
    ghost predicate DrawnInOrder(fleet: seq<ShipState>, draws: seq<Pos>, bg: seq<seq<int>>, taken: seq<nat>)
      requires IsGrid(bg) && WellFormed(fleet)
      decreases |fleet|, 1
    {
      |taken| == |fleet| && (|fleet| > 0 ==> LastDrawn(fleet, draws, bg, taken))
    }

    /** The ships of `fleet` but the last were drawn in order, and the last
        took the first passing draw after theirs. */
    ghost predicate LastDrawn(fleet: seq<ShipState>, draws: seq<Pos>, bg: seq<seq<int>>, taken: seq<nat>)
      requires IsGrid(bg) && WellFormed(fleet) && 0 < |fleet| == |taken|
      decreases |fleet|, 0
    {
      var n := |fleet| - 1;
      && DrawnInOrder(fleet[..n], draws, bg, taken[..n])
      && TookFirstPassing(fleet[..n], fleet[n], draws, bg, Start(taken, n), taken[n])
    }

    /** Ship `st`, placed after the ships of `fleet`, sits at draw `t`, the
        first draw from `from` on that passes the tests. */
    ghost predicate TookFirstPassing(fleet: seq<ShipState>, st: ShipState, draws: seq<Pos>, bg: seq<seq<int>>,
                                     from: nat, t: nat)
      requires IsGrid(bg) && WellFormed(fleet)
    {
      && from <= t < |draws| && (st.shape.x, st.shape.y) == draws[t] && FitsOver(fleet, bg, st.shape)
      && forall j :: from <= j < t ==> !FitsOver(fleet, bg, At(st.shape, draws[j]))
    }

    /** No draw from `from` on passes the tests for ship `k` of `fleet`. */
    ghost predicate RanOut(fleet: seq<ShipState>, k: nat, draws: seq<Pos>, bg: seq<seq<int>>, from: nat)
      requires IsGrid(bg) && WellFormed(fleet) && k < |fleet|
    {
      forall j :: from <= j < |draws| ==> !FitsOver(fleet[..k], bg, At(fleet[k].shape, draws[j]))
    }

    /** `init` ran on `draws` from the grid `bg` and placed the first `n`
        ships of `fleet`: they took the first draws that pass, in order, and
        when `n` falls short of the fleet, no later draw passes for the next
        ship. */
    ghost predicate Traced(fleet: seq<ShipState>, draws: seq<Pos>, bg: seq<seq<int>>, n: nat)
      requires IsGrid(bg)
    {
      && n <= |fleet| && WellFormed(fleet)
      && exists taken :: DrawnInOrder(fleet[..n], draws, bg, taken)
           && (n < |fleet| ==> RanOut(fleet, n, draws, bg, Start(taken, n)))
    }

    /** A ship that takes the first passing draw after the others extends the trace. */
    lemma DrawnSnoc(fleet: seq<ShipState>, st: ShipState, draws: seq<Pos>, bg: seq<seq<int>>, taken: seq<nat>, t: nat)
      requires IsGrid(bg) && WellFormed(fleet) && WellFormed(fleet + [st])
      requires DrawnInOrder(fleet, draws, bg, taken)
      requires TookFirstPassing(fleet, st, draws, bg, Start(taken, |fleet|), t)
      ensures DrawnInOrder(fleet + [st], draws, bg, taken + [t])
    {
      assert (fleet + [st])[..|fleet|] == fleet;
      assert (taken + [t])[..|taken|] == taken;
      assert Start(taken + [t], |fleet|) == Start(taken, |fleet|);
    }

    /** The first `k` ships as `init` leaves them, after starting from the
        grid `bg` with the draws at `taken`: on the board, apart, painted over
        `bg`, and each at the first draw that passed for it. */
    ghost predicate PlacedUpTo(k: nat, draws: seq<Pos>, bg: seq<seq<int>>, taken: seq<nat>)
      reads ships, field
      requires Dims()
    {
      && k <= |ships| && IsGrid(bg) && WellFormed(Fleet()[..k])
      && AllInPole(Fleet()[..k], size) && PairwiseApart(Fleet()[..k]) && Shows(Fleet()[..k], bg)
      && DrawnInOrder(Fleet()[..k], draws, bg, taken)
    }

    /** The `while True` loop of `init` for ship `k`: draw anchors from
        `draws[from..]` until one passes the tests.  The ships before `k` are
        on the board, apart and painted over `bg`.  The anchor taken is the
        first passing draw, and an accepted anchor keeps the ships so with
        ship `k` added.  A refusal means that no remaining draw passes; the
        ship and the grid are then as they were. */
    method PlaceShip(k: nat, draws: seq<Pos>, from: nat, ghost bg: seq<seq<int>>, ghost taken: seq<nat>)
      returns (accepted: bool, next: nat)
      requires Valid() && k < |ships| && from <= |draws| && IsGrid(bg)
      requires forall i :: 0 <= i < |draws| ==> InGrid(draws[i], size)
      requires PlacedUpTo(k, draws, bg, taken) && from == Start(taken, k)
      modifies field, ships[k]
      ensures Valid() && from <= next <= |draws|
      ensures ships[k].cells == old(ships[k].cells) && ships[k].isMove == old(ships[k].isMove)
      ensures Fleet()[..k] == old(Fleet()[..k])
      ensures forall j :: 0 <= j < |ships| && j != k ==> unchanged(ships[j])
      ensures accepted ==>
        && from < next && ships[k].Placed() && (ships[k].x, ships[k].y) == draws[next - 1]
        && PlacedUpTo(k + 1, draws, bg, taken + [next - 1])
      ensures !accepted ==> RanOut(Fleet(), k, draws, bg, from)
      ensures !accepted ==> next == |draws| && unchanged(field) && unchanged(ships[k])
    {
      ghost var before := Fleet()[..k];
      ghost var shape := ships[k].Geometry();
      VisibleShowsApart(before, bg);
      next := from;
      accepted := false;
      while next < |draws|
        invariant from <= next <= |draws|
        invariant Valid() && unchanged(field) && unchanged(ships[k])
        invariant Shows(before, bg)
        invariant forall j :: from <= j < next ==> !FitsOver(before, bg, At(shape, draws[j]))
      {
        var d := draws[next];
        ShowsFits(before, bg, At(shape, d));
        next := next + 1;
        accepted := TryPlace(k, d.0, d.1);
        if accepted {
          break;
        }
      }
      if accepted {
        ghost var st := ships[k].State();
        assert Fleet()[..k + 1] == before + [st];
        ApartSnoc(before, st);
        FleetWellFormed();
        assert WellFormed([st]);
        forall r, c | 0 <= r < size && 0 <= c < size
          ensures field[r, c] == Paint([st], r, c, Paint(before, r, c, bg[r][c]))
        {
        }
        ShowsSnoc(before, st, bg);
        DrawnSnoc(before, st, draws, bg, taken, next - 1);
      }
    }

    /** On a grid that shows an apart fleet, `ClearAround` rules out touching it. */
    lemma VisibleShowsApart(fleet: seq<ShipState>, bg: seq<seq<int>>)
      requires Dims() && IsGrid(bg) && WellFormed(fleet) && AllInPole(fleet, size)
      requires PairwiseApart(fleet) && Shows(fleet, bg)
      ensures forall s :: ClearAround(s) ==> forall j :: 0 <= j < |fleet| ==> !Touch(s, fleet[j].shape)
    {
      ApartIsDisjoint(fleet);
      forall j, q | 0 <= j < |fleet| && Covers(fleet[j].shape, q) && InGrid(q, size)
        ensures field[q.1, q.0] != 0
      {
        PaintOwner(fleet, j, q.1, q.0, bg[q.1][q.0]);
      }
      VisibleFleetApart(fleet);
    }

    /** A grid showing ship `st` painted over what `fleet` showed shows `fleet + [st]`. */
    lemma ShowsSnoc(fleet: seq<ShipState>, st: ShipState, bg: seq<seq<int>>)
      requires Dims() && IsGrid(bg) && WellFormed(fleet + [st]) && WellFormed(fleet) && WellFormed([st])
      requires forall r, c :: 0 <= r < size && 0 <= c < size ==>
        field[r, c] == Paint([st], r, c, Paint(fleet, r, c, bg[r][c]))
      ensures Shows(fleet + [st], bg)
    {
      forall r, c | 0 <= r < size && 0 <= c < size
        ensures field[r, c] == Paint(fleet + [st], r, c, bg[r][c])
      {
        PaintOnTop(fleet, st, r, c, bg[r][c]);
      }
    }

    /** `init`, with the anchors the source draws by `randint(0, size - 1)`
        supplied as `draws` and consumed in order.  Ship after ship takes the
        first remaining draw that passes the tests, `taken` recording which;
        the result is the number of ships placed, which falls short of ten
        only when no remaining draw passes for the next ship. */
    method Init(draws: seq<Pos>) returns (placedCount: nat, ghost taken: seq<nat>)
      requires Valid()
      requires forall i :: 0 <= i < |draws| ==> InGrid(draws[i], size)
      modifies field, ships
      ensures Valid()
      ensures placedCount <= |ships|
      ensures forall i :: 0 <= i < placedCount ==> ships[i].Placed() && (ships[i].x, ships[i].y) in draws
      ensures PlacedUpTo(placedCount, draws, old(Snapshot()), taken)
      ensures forall i :: 0 <= i < |ships| ==>
        ships[i].cells == old(ships[i].cells) && ships[i].isMove == old(ships[i].isMove)
      ensures forall i :: placedCount <= i < |ships| ==> unchanged(ships[i])
      ensures placedCount == |ships| ==> Deployed()
      ensures placedCount < |ships| ==> RanOut(Fleet(), placedCount, draws, old(Snapshot()), Start(taken, placedCount))
    {
      ghost var bg := Snapshot();
      FleetWellFormed();
      assert Shows(Fleet()[..0], bg);
      placedCount := 0;
      taken := [];
      var next := 0;
      for i := 0 to |ships|
        invariant Valid() && placedCount == i && next <= |draws|
        invariant |taken| == i && next == Start(taken, i)
        invariant forall j :: 0 <= j < i ==> ships[j].Placed() && (ships[j].x, ships[j].y) in draws
        invariant PlacedUpTo(i, draws, bg, taken)
        invariant forall j :: 0 <= j < |ships| ==>
          ships[j].cells == old(ships[j].cells) && ships[j].isMove == old(ships[j].isMove)
        invariant forall j :: i <= j < |ships| ==> unchanged(ships[j])
      {
        var accepted;
        accepted, next := PlaceShip(i, draws, next, bg, taken);
        if !accepted {
          break;
        }
        taken := taken + [next - 1];
        placedCount := placedCount + 1;
      }
      assert Fleet()[..|ships|] == Fleet();
    }

    // -------------------------------------------------------------------
    // update_game_field
    // -------------------------------------------------------------------

    /** The first half of `update_game_field`: every cell back to 0. */
    method ClearField()
      requires Valid()
      modifies field
      ensures Valid()
      ensures forall r, c :: 0 <= r < size && 0 <= c < size ==> field[r, c] == 0
    {
      for i := 0 to size
        invariant Valid()
        invariant forall r, c :: 0 <= r < i && 0 <= c < size ==> field[r, c] == 0
      {
        for j := 0 to size
          invariant Valid()
          invariant forall r, c :: 0 <= r < i && 0 <= c < size ==> field[r, c] == 0
          invariant forall c :: 0 <= c < j ==> field[i, c] == 0
        {
          field[i, j] := 0;
        }
      }
    }

    /** `update_game_field`: clear the grid, then write every ship in list order. */
    method UpdateGameField()
      requires Valid() && AllPlaced() && AllInPole(Fleet(), size)
      modifies field
      ensures Valid()
      ensures forall r, c :: 0 <= r < size && 0 <= c < size ==> field[r, c] == Paint(Fleet(), r, c, 0)
    {
      ClearField();
      ghost var zero := seq(size, _ => seq(size, _ => 0));
      FleetWellFormed();
      assert Shows(Fleet()[..0], zero);
      for k := 0 to |ships|
        invariant Valid()
        invariant Shows(Fleet()[..k], zero)
      {
        var ship := ships[k];
        ghost var before := Fleet()[..k];
        ghost var st := ship.State();
        WriteSegments(ship, ship.x, ship.y);
        assert WellFormed([st]);
        assert Fleet()[..k + 1] == before + [st];
        ShowsSnoc(before, st, zero);
      }
      assert Fleet()[..|ships|] == Fleet();
    }

    // -------------------------------------------------------------------
    // move_ships
    // -------------------------------------------------------------------

    /** The inner `for curr_ship in self._ships` of `move_ships`: does ship `k`,
        where it stands now, touch any other ship? */
    method FindConflict(k: nat) returns (conflict: bool)
      requires Valid() && k < |ships|
      ensures conflict <==>
        (exists j :: 0 <= j < |ships| && j != k && Touch(ships[k].Geometry(), ships[j].Geometry()))
    {
      var ship := ships[k];
      conflict := false;
      for j := 0 to |ships|
        invariant forall l :: 0 <= l < j && l != k ==> !Touch(ship.Geometry(), ships[l].Geometry())
      {
        var currShip := ships[j];
        assert currShip == ship <==> j == k;
        CollideIffTouch(ship.Geometry(), currShip.Geometry());
        if currShip != ship {
          if IsCollide(ship.Geometry(), currShip.Geometry()) {
            conflict := true;
            return;
          }
        }
      }
    }

    /** The rest of one pass of the `while` loop of `move_ships` once a
        direction is drawn for a mobile ship: set the shifted anchor (a
        negative coordinate is refused with TypeError and changes nothing),
        put the old anchor back when the ship is off the board or touches
        another ship, and report which of the three happened. */
    method TryDirection(k: nat, go: int, oldX: nat, oldY: nat, ghost fleet: seq<ShipState>)
      returns (outcome: Attempt)
      requires Valid() && AllPlaced() && k < |ships| && ships[k].isMove
      requires ships[k].x == oldX && ships[k].y == oldY
      requires |fleet| == |ships| && forall j :: 0 <= j < |ships| && j != k ==> ships[j].Geometry() == fleet[j].shape
      modifies ships[k]
      ensures Valid() && AllPlaced()
      ensures ships[k].cells == old(ships[k].cells) && ships[k].isMove
      ensures var cand := Moved(old(ships[k].Geometry()), go);
        && (outcome == OffBoard <==> IsOutPole(cand, size))
        && (outcome == Kept <==> Fits(fleet, k, cand, size))
        && (outcome == Kept ==> ships[k].Geometry() == cand)
        && (outcome != Kept ==> ships[k].Geometry() == old(ships[k].Geometry()))
    {
      var ship := ships[k];
      var x, y := ship.x, ship.y;
      if ship.tp == Horizontal {
        x := ship.x + go;
      } else {
        y := ship.y + go;
      }
      var err := ship.SetStartCoords(Some(x), Some(y));
      if err.Some? {
        return OffBoard;
      }
      if IsOutPole(ship.Geometry(), size) {
        err := ship.SetStartCoords(Some(oldX), Some(oldY));
        return OffBoard;
      }
      var conflict := FindConflict(k);
      if conflict {
        err := ship.SetStartCoords(Some(oldX), Some(oldY));
        return Clash;
      }
      return Kept;
    }

    /** One round of the `for ship in self._ships` loop of `move_ships`: the
        `while directions or not is_conflict` loop that pops a shuffled
        direction and tries it, until a position is kept or both are spent. */
    method MoveShip(k: nat, forwardFirst: bool)
      requires Valid() && AllPlaced() && k < |ships|
      requires !IsOutPole(ships[k].Geometry(), size)
      requires ships[k].isMove ==> ships[k].length < size
      modifies ships[k]
      ensures Valid() && AllPlaced()
      ensures Fleet() == old(Fleet())[k := old(Fleet())[k].(shape := DriftOne(old(Fleet()), k, forwardFirst, size))]
    {
      var ship := ships[k];
      ghost var fleet := Fleet();
      ghost var start := ship.Geometry();
      ghost var first := Candidate(start, forwardFirst);
      ghost var second := Candidate(start, !forwardFirst);
      ghost var target := DriftOne(fleet, k, forwardFirst, size);
      ghost var secondDir := if forwardFirst then Back else Forward;
      if ship.isMove {
        OneDirectionFits(start, size);
      }
      var oldX, oldY := ship.x, ship.y;
      var directions := [Forward, Back];
      var isConflict := false;
      while directions != [] || !isConflict
        invariant Valid() && AllPlaced()
        invariant ship.cells == fleet[k].cells && ship.isMove == fleet[k].isMove
        invariant forall j :: 0 <= j < |ships| && j != k ==> ships[j].State() == fleet[j]
        invariant |directions| <= 2
        invariant |directions| == 2 ==> directions == [Forward, Back] && !isConflict && ship.Geometry() == start
        invariant |directions| == 1 ==>
          && directions == [secondDir] && ship.isMove && ship.Geometry() == start
          && !Fits(fleet, k, first, size)
          && (isConflict || !IsOutPole(second, size))
        invariant |directions| == 0 ==> isConflict && ship.Geometry() == target
        decreases |directions|
      {
        directions := Shuffle(directions, forwardFirst);
        var direction := directions[|directions| - 1];
        directions := directions[..|directions| - 1];
        if !ship.isMove {
          break;
        }
        var go := if direction == Forward then 1 else -1;
        var outcome := TryDirection(k, go, oldX, oldY, fleet);
        if outcome == OffBoard {
          continue;
        }
        if outcome == Clash {
          isConflict := true;
          continue;
        }
        if isConflict {
          continue;
        }
        break;
      }
      FleetUpdate(k, fleet, target);
    }

    /** The fleet after ship `k` alone took `shape`. */
    lemma FleetUpdate(k: nat, fleet: seq<ShipState>, shape: Shape)
      requires k < |ships| == |fleet|
      requires forall j :: 0 <= j < |ships| && j != k ==> ships[j].State() == fleet[j]
      requires ships[k].State() == fleet[k].(shape := shape)
      ensures Fleet() == fleet[k := fleet[k].(shape := shape)]
    {
    }

    /** `move_ships`, with the outcome of each `shuffle` supplied as `order`
        (`order[k]`: ship `k` tries forward first), followed by the grid rebuild. */
    method MoveShips(order: seq<bool>)
      requires Valid() && AllPlaced() && AllInPole(Fleet(), size) && |order| == |ships|
      requires forall i :: 0 <= i < |ships| ==> ships[i].length < size
      modifies ships, field
      ensures Valid() && AllPlaced() && AllInPole(Fleet(), size)
      ensures Fleet() == Drift(old(Fleet()), order, size)
      ensures forall r, c :: 0 <= r < size && 0 <= c < size ==> field[r, c] == Paint(Fleet(), r, c, 0)
    {
      for k := 0 to |ships|
        invariant Valid() && AllPlaced() && AllInPole(Fleet(), size)
        invariant DriftFrom(Fleet(), order, size, k) == Drift(old(Fleet()), order, size)
      {
        ghost var before := Fleet();
        MoveShip(k, order[k]);
        DriftOneInPole(before, k, order[k], size);
      }
      UpdateGameField();
    }
  }
}
