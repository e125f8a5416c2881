/**
  Value-level specification of a Battleship board: what the grid shows
  for a fleet of ships (`update_game_field`), and where `move_ships`
  leaves every ship.  The GamePole methods are proved against these
  functions; the lemmas here state what the functions guarantee.
 */
module SeaBoard {

  import opened ShipGeometry
  import opened SeaShips

  /** Every ship has one segment state per cell of its length, each 1 or 2. */
  predicate WellFormed(fleet: seq<ShipState>)
  {
    forall i :: 0 <= i < |fleet| ==>
      |fleet[i].cells| == fleet[i].shape.length && ValidCells(fleet[i].cells)
  }

  /** No ship is out of the `size` x `size` board. */
  predicate AllInPole(fleet: seq<ShipState>, size: int)
  {
    forall i :: 0 <= i < |fleet| ==> !IsOutPole(fleet[i].shape, size)
  }

  /** No two distinct ships touch, diagonally included (`Touch` is
      `is_collide`, by `CollideIffTouch`). */
  predicate PairwiseApart(fleet: seq<ShipState>)
  {
    forall i, j :: 0 <= i < |fleet| && 0 <= j < |fleet| && i != j ==>
      !Touch(fleet[i].shape, fleet[j].shape)
  }

  /** No two distinct ships share a cell. */
  ghost predicate Disjoint(fleet: seq<ShipState>)
  {
    forall i, j :: 0 <= i < |fleet| && 0 <= j < |fleet| && i != j ==>
      forall p :: !(Covers(fleet[i].shape, p) && Covers(fleet[j].shape, p))
  }

  lemma ApartIsDisjoint(fleet: seq<ShipState>)
    requires PairwiseApart(fleet)
    ensures Disjoint(fleet)
  {
    forall i, j, p | 0 <= i < |fleet| && 0 <= j < |fleet| && i != j
      ensures !(Covers(fleet[i].shape, p) && Covers(fleet[j].shape, p))
    {
      assert !Touch(fleet[i].shape, fleet[j].shape);
    }
  }

  /** A ship that touches none of an apart fleet can join it. */
  lemma ApartSnoc(fleet: seq<ShipState>, st: ShipState)
    requires PairwiseApart(fleet)
    requires forall j :: 0 <= j < |fleet| ==>
      !Touch(st.shape, fleet[j].shape)
    ensures PairwiseApart(fleet + [st])
  {
    var next := fleet + [st];
    forall i, j | 0 <= i < |next| && 0 <= j < |next| && i != j
      ensures !Touch(next[i].shape, next[j].shape)
    {
      if i < |fleet| && j < |fleet| {
        assert next[i] == fleet[i] && next[j] == fleet[j];
      }
    }
  }

  // ---------------------------------------------------------------------
  // The grid as update_game_field paints it
  // ---------------------------------------------------------------------

  /** The value at row `r`, column `c` after painting the ships of `fleet`
      in order over a cell holding `background`: a later ship overwrites an
      earlier one, so the last ship covering the cell decides. */
  function Paint(fleet: seq<ShipState>, r: int, c: int, background: int): int
    requires WellFormed(fleet)
    decreases |fleet|
  {
    if fleet == [] then background
    else
      var last := fleet[|fleet| - 1];
      if Covers(last.shape, (c, r)) then
        CoversIsBody(last.shape, (c, r));
        last.cells[SegmentIndex(last.shape, (c, r))]
      else Paint(fleet[..|fleet| - 1], r, c, background)
  }

  /** Painting one more ship: its cells win, elsewhere nothing changes. */
  lemma PaintSnoc(fleet: seq<ShipState>, st: ShipState, r: int, c: int, background: int)
    requires WellFormed(fleet + [st])
    ensures WellFormed(fleet)
    ensures Covers(st.shape, (c, r)) ==> 0 <= SegmentIndex(st.shape, (c, r)) < |st.cells|
    ensures Paint(fleet + [st], r, c, background) ==
            if Covers(st.shape, (c, r)) then st.cells[SegmentIndex(st.shape, (c, r))]
            else Paint(fleet, r, c, background)
  {
    assert (fleet + [st])[..|fleet|] == fleet;
    assert (fleet + [st])[|fleet|] == st;
    CoversIsBody(st.shape, (c, r));
    assert forall i :: 0 <= i < |fleet| ==> fleet[i] == (fleet + [st])[i];
  }

  /** Painting one more ship is painting that ship alone over what the
      fleet before it showed. */
  lemma PaintOnTop(fleet: seq<ShipState>, st: ShipState, r: int, c: int, background: int)
    requires WellFormed(fleet + [st])
    ensures WellFormed(fleet) && WellFormed([st])
    ensures Paint(fleet + [st], r, c, background) == Paint([st], r, c, Paint(fleet, r, c, background))
  {
    PaintSnoc(fleet, st, r, c, background);
    assert [] + [st] == [st];
    PaintSnoc([], st, r, c, Paint(fleet, r, c, background));
  }

  /** With no two ships sharing a cell, a cell of ship `j` shows the state of
      that ship's segment there, whatever was painted before. */
  lemma {:induction false} PaintOwner(fleet: seq<ShipState>, j: int, r: int, c: int, background: int)
    requires WellFormed(fleet) && Disjoint(fleet)
    requires 0 <= j < |fleet| && Covers(fleet[j].shape, (c, r))
    ensures 0 <= SegmentIndex(fleet[j].shape, (c, r)) < |fleet[j].cells|
    ensures Paint(fleet, r, c, background) == fleet[j].cells[SegmentIndex(fleet[j].shape, (c, r))]
    decreases |fleet|
  {
    CoversIsBody(fleet[j].shape, (c, r));
    var n := |fleet| - 1;
    if j < n {
      assert !Covers(fleet[n].shape, (c, r));
      var init := fleet[..n];
      assert init[j] == fleet[j];
      assert WellFormed(init) && Disjoint(init) by {
        assert forall i :: 0 <= i < n ==> init[i] == fleet[i];
      }
      PaintOwner(init, j, r, c, background);
    }
  }

  /** A cell no ship covers keeps its background value. */
  lemma {:induction false} PaintBackground(fleet: seq<ShipState>, r: int, c: int, background: int)
    requires WellFormed(fleet)
    requires forall i :: 0 <= i < |fleet| ==> !Covers(fleet[i].shape, (c, r))
    ensures Paint(fleet, r, c, background) == background
    decreases |fleet|
  {
    if fleet != [] {
      var init := fleet[..|fleet| - 1];
      assert forall i :: 0 <= i < |init| ==> init[i] == fleet[i];
      PaintBackground(init, r, c, background);
    }
  }

  /** Every painted value is a segment state or the background. */
  lemma {:induction false} PaintRange(fleet: seq<ShipState>, r: int, c: int, background: int)
    requires WellFormed(fleet)
    ensures var v := Paint(fleet, r, c, background);
      v == background || v == INTACT || v == HIT
    decreases |fleet|
  {
    if fleet != [] {
      var last := fleet[|fleet| - 1];
      var init := fleet[..|fleet| - 1];
      assert forall i :: 0 <= i < |init| ==> init[i] == fleet[i];
      if !Covers(last.shape, (c, r)) {
        PaintRange(init, r, c, background);
      } else {
        CoversIsBody(last.shape, (c, r));
      }
    }
  }

  // ---------------------------------------------------------------------
  // The drift of move_ships
  // ---------------------------------------------------------------------

  /** The position `move_ships` tries in direction forward (+1) or back (-1). */
  function Candidate(s: Shape, forward: bool): Shape
  {
    Moved(s, if forward then 1 else -1)
  }

  /** A tried position is kept when it is on the board (a negative
      coordinate raises TypeError, a too-large one fails `is_out_pole`) and
      touches none of the other ships as they stand now. */
  predicate Fits(fleet: seq<ShipState>, k: int, cand: Shape, size: int)
  {
    && !IsOutPole(cand, size)
    && forall j :: 0 <= j < |fleet| && j != k ==> !Touch(cand, fleet[j].shape)
  }

  /** Where `move_ships` leaves ship `k`: an immobile ship stays; a mobile one
      takes the first direction of `forwardFirst`'s order that fits, else the
      other one if that fits, else it stays. */
  function DriftOne(fleet: seq<ShipState>, k: int, forwardFirst: bool, size: int): Shape
    requires 0 <= k < |fleet|
  {
    var s := fleet[k].shape;
    if !fleet[k].isMove then s
    else
      var first := Candidate(s, forwardFirst);
      var second := Candidate(s, !forwardFirst);
      if Fits(fleet, k, first, size) then first
      else if Fits(fleet, k, second, size) then second
      else s
  }

  /** Ships `k ..` moved in list order, each against the current positions of all others. */
  function DriftFrom(fleet: seq<ShipState>, order: seq<bool>, size: int, k: nat): seq<ShipState>
    requires |order| == |fleet| && k <= |fleet|
    decreases |fleet| - k
  {
    if k == |fleet| then fleet
    else DriftFrom(fleet[k := fleet[k].(shape := DriftOne(fleet, k, order[k], size))], order, size, k + 1)
  }

  /** The whole pass of `move_ships`; `order[k]` says whether ship `k` tries forward first. */
  function Drift(fleet: seq<ShipState>, order: seq<bool>, size: int): seq<ShipState>
    requires |order| == |fleet|
  {
    DriftFrom(fleet, order, size, 0)
  }

  /** What a drift may do to one ship: orientation, length, segments and
      mobility stay; an immobile ship keeps its anchor; a mobile one stays or
      moves exactly one cell along its own axis. */
  predicate DriftStep(before: ShipState, after: ShipState)
  {
    && after.cells == before.cells
    && after.isMove == before.isMove
    && after.shape.length == before.shape.length
    && after.shape.tp == before.shape.tp
    && (!before.isMove ==> after.shape == before.shape)
    && (after.shape == before.shape || after.shape == Moved(before.shape, 1)
        || after.shape == Moved(before.shape, -1))
  }

  lemma {:induction false} DriftFromSteps(fleet: seq<ShipState>, order: seq<bool>, size: int, k: nat)
    requires |order| == |fleet| && k <= |fleet|
    ensures var r := DriftFrom(fleet, order, size, k);
      && |r| == |fleet|
      && (forall i :: 0 <= i < k ==> r[i] == fleet[i])
      && (forall i :: k <= i < |fleet| ==> DriftStep(fleet[i], r[i]))
    decreases |fleet| - k
  {
    if k < |fleet| {
      var next := fleet[k := fleet[k].(shape := DriftOne(fleet, k, order[k], size))];
      DriftFromSteps(next, order, size, k + 1);
    }
  }

  /** `move_ships` changes only anchors, each by at most one cell along the
      ship's axis, and never moves a ship whose mobility flag is off. */
  lemma DriftChangesOnlyAnchors(fleet: seq<ShipState>, order: seq<bool>, size: int)
    requires |order| == |fleet|
    ensures |Drift(fleet, order, size)| == |fleet|
    ensures forall i :: 0 <= i < |fleet| ==> DriftStep(fleet[i], Drift(fleet, order, size)[i])
  {
    DriftFromSteps(fleet, order, size, 0);
  }

  lemma DriftOneInPole(fleet: seq<ShipState>, k: int, forwardFirst: bool, size: int)
    requires 0 <= k < |fleet| && !IsOutPole(fleet[k].shape, size)
    ensures !IsOutPole(DriftOne(fleet, k, forwardFirst, size), size)
  {
  }

  lemma {:induction false} DriftFromInPole(fleet: seq<ShipState>, order: seq<bool>, size: int, k: nat)
    requires |order| == |fleet| && k <= |fleet| && AllInPole(fleet, size)
    ensures AllInPole(DriftFrom(fleet, order, size, k), size)
    decreases |fleet| - k
  {
    if k < |fleet| {
      var next := fleet[k := fleet[k].(shape := DriftOne(fleet, k, order[k], size))];
      DriftOneInPole(fleet, k, order[k], size);
      DriftFromInPole(next, order, size, k + 1);
    }
  }

  /** A board whose ships are all on it stays so after `move_ships`. */
  lemma DriftStaysInPole(fleet: seq<ShipState>, order: seq<bool>, size: int)
    requires |order| == |fleet| && AllInPole(fleet, size)
    ensures AllInPole(Drift(fleet, order, size), size)
  {
    DriftFromInPole(fleet, order, size, 0);
  }

  lemma DriftOneApart(fleet: seq<ShipState>, k: int, forwardFirst: bool, size: int)
    requires 0 <= k < |fleet| && PairwiseApart(fleet)
    ensures PairwiseApart(fleet[k := fleet[k].(shape := DriftOne(fleet, k, forwardFirst, size))])
  {
    var moved := DriftOne(fleet, k, forwardFirst, size);
    var next := fleet[k := fleet[k].(shape := moved)];
    forall i, j | 0 <= i < |next| && 0 <= j < |next| && i != j
      ensures !Touch(next[i].shape, next[j].shape)
    {
      if moved != fleet[k].shape {
        assert Fits(fleet, k, moved, size);
        if i == k {
          assert !Touch(moved, fleet[j].shape);
        } else if j == k {
          assert !Touch(moved, fleet[i].shape);
        }
      }
    }
  }

  lemma {:induction false} DriftFromApart(fleet: seq<ShipState>, order: seq<bool>, size: int, k: nat)
    requires |order| == |fleet| && k <= |fleet| && PairwiseApart(fleet)
    ensures PairwiseApart(DriftFrom(fleet, order, size, k))
    decreases |fleet| - k
  {
    if k < |fleet| {
      var next := fleet[k := fleet[k].(shape := DriftOne(fleet, k, order[k], size))];
      DriftOneApart(fleet, k, order[k], size);
      DriftFromApart(next, order, size, k + 1);
    }
  }

  /** If no two ships touched before `move_ships`, none touch after it. */
  lemma DriftStaysApart(fleet: seq<ShipState>, order: seq<bool>, size: int)
    requires |order| == |fleet| && PairwiseApart(fleet)
    ensures PairwiseApart(Drift(fleet, order, size))
  {
    DriftFromApart(fleet, order, size, 0);
  }
}
