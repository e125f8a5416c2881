/**
  `SeaBattle`: the two boards of a game, the ship-to-cells tables built
  after placement, and the bookkeeping of a shot: which ship it lands on,
  which segment it breaks, and the kill count.
 */
module SeaGame {

  import opened Wrappers
  import opened ShipGeometry
  import opened SeaShips
  import opened SeaBoard
  import opened SeaPole

  /** The dict `get_all_ships_parts_coord` returns, in insertion order:
      every ship with the list of its segment cells. */
  type PartsTable = seq<(Ship, seq<Pos>)>

  /** Dict lookup by key: the entry of `ship`, if any. */
  function EntryOf(table: PartsTable, ship: Ship): (r: Option<nat>)
    ensures r.Some? ==> r.value < |table| && table[r.value].0 == ship
    ensures r.None? <==> forall j :: 0 <= j < |table| ==> table[j].0 != ship
    decreases |table|
  {
    if table == [] then None
    else if table[0].0 == ship then Some(0)
    else match EntryOf(table[1..], ship)
      case None => None
      case Some(i) => Some(i + 1)
  }

  /** `list.index`: the position of the first occurrence of `p`, None when
      `p` does not occur (where Python raises ValueError). */
  function IndexOf(cells: seq<Pos>, p: Pos): (r: Option<nat>)
    ensures r.Some? ==> r.value < |cells| && cells[r.value] == p
                        && forall j :: 0 <= j < r.value ==> cells[j] != p
    ensures r.None? <==> p !in cells
    decreases |cells|
  {
    if cells == [] then None
    else if cells[0] == p then Some(0)
    else match IndexOf(cells[1..], p)
      case None => None
      case Some(i) => Some(i + 1)
  }

  /** The first entry whose cell list holds `shell`: `filter` then `place[0]`. */
  function FirstHolder(table: PartsTable, shell: Pos): (r: Option<nat>)
    ensures r.Some? ==> r.value < |table| && shell in table[r.value].1
                        && forall j :: 0 <= j < r.value ==> shell !in table[j].1
    ensures r.None? <==> forall j :: 0 <= j < |table| ==> shell !in table[j].1
    decreases |table|
  {
    if table == [] then None
    else if shell in table[0].1 then Some(0)
    else match FirstHolder(table[1..], shell)
      case None => None
      case Some(i) => Some(i + 1)
  }

  /** The table lists the ships of `pole` in order, each with its segment list. */
  ghost predicate Tabulates(table: PartsTable, pole: GamePole)
    reads pole.ships
  {
    && |table| == |pole.ships|
    && forall i :: 0 <= i < |table| ==>
         table[i].0 == pole.ships[i] && table[i].1 == PartsCoord(pole.ships[i].Geometry())
  }

  /** Board `pole` after a complete `init`: every ship anchored on the
      board, no two touching, and `table` listing the segment cells of
      each ship. */
  ghost predicate Ready(pole: GamePole, table: PartsTable)
    reads pole.ships, pole.field
  {
    pole.Deployed() && Tabulates(table, pole)
  }

  /** Every key of the table is a ship of `pole`. */
  ghost predicate KeyedBy(table: PartsTable, pole: GamePole)
  {
    forall i :: 0 <= i < |table| ==> table[i].0 in pole.ships
  }

  /** `get_all_ships_parts_coord(field)`: for every ship, in list order, the
      cells of its segments from the anchor on. */
  method GetAllShipsPartsCoord(field: GamePole) returns (table: PartsTable)
    requires field.Valid() && field.AllPlaced()
    ensures Tabulates(table, field)
  {
    var ships := field.ships;
    table := [];
    for k := 0 to |ships|
      invariant |table| == k
      invariant forall i :: 0 <= i < k ==>
        table[i].0 == ships[i] && table[i].1 == PartsCoord(ships[i].Geometry())
    {
      var ship := ships[k];
      var x, y := ship.x, ship.y;
      var length := ship.length;
      var coord: seq<Pos> := [];
      for i := 0 to length
        invariant |coord| == i
        invariant forall j :: 0 <= j < i ==> coord[j] == CellAt(ship.Geometry(), j)
      {
        var nextXY := if ship.tp == Horizontal then (x + i, y) else (x, y + i);
        coord := coord + [nextXY];
      }
      table := table + [(ship, coord)];
    }
  }

  /** On a ship's own segment list, the position of a body cell is the
      index of the segment at that cell, the one the grid shows there. */
  lemma PartIndexIsSegment(s: Shape, p: Pos)
    requires p in Body(s)
    ensures IndexOf(PartsCoord(s), p) == Some(SegmentIndex(s, p))
  {
    SegmentIndexOfBody(s, p);
    PartsCoordIsBody(s);
    assert PartsCoord(s)[SegmentIndex(s, p)] == p;
  }

  class SeaBattle {
    const sizeField: nat
    const computer: GamePole
    const human: GamePole
    /** `_comp_ships_coord` and `_human_ships_coord`; empty until `init`. */
    var compShipsCoord: PartsTable
    var humanShipsCoord: PartsTable

    /** Two well-formed boards of the battle's size sharing no ship and no grid. */
    ghost predicate Boards()
      reads computer.ships`cells, human.ships`cells, computer.field, human.field
    {
      && computer != human && computer.field != human.field
      && computer.Valid() && human.Valid()
      && computer.size == sizeField && human.size == sizeField
      && (forall i, j :: 0 <= i < |computer.ships| && 0 <= j < |human.ships| ==>
            computer.ships[i] != human.ships[j])
    }

    ghost predicate Valid()
      reads this, computer.ships`cells, human.ships`cells, computer.field, human.field
    {
      Boards() && KeyedBy(compShipsCoord, computer) && KeyedBy(humanShipsCoord, human)
    }

    /** `SeaBattle(size_field)`: two fresh boards, with the ship orientations
        the caller drew for each. */
    constructor (sizeField: nat, compOrientations: seq<Orientation>, humanOrientations: seq<Orientation>)
      requires |compOrientations| == |SHIP_LENGTHS| && |humanOrientations| == |SHIP_LENGTHS|
      ensures Valid() && this.sizeField == sizeField
      ensures compShipsCoord == [] && humanShipsCoord == []
      ensures computer.countDeadShips == 0 && human.countDeadShips == 0 && Continues()
    {
      this.sizeField := sizeField;
      computer := new GamePole(sizeField, compOrientations);
      human := new GamePole(sizeField, humanOrientations);
      compShipsCoord := [];
      humanShipsCoord := [];
    }

    /** `init`: place the ships of both boards, then tabulate their segments.
        The anchors come from `compDraws` and `humanDraws`, and each board's
        ships take the first draws that pass, as `GamePole.Traced` states.  The
        result is true exactly when both boards got all ten ships; when a
        board's draws hold no passing anchor for one of its ships (the source
        would keep drawing), the result is false and the tables stay as they
        were. */
    method Init(compDraws: seq<Pos>, humanDraws: seq<Pos>)
      returns (complete: bool, ghost compPlaced: nat, ghost humanPlaced: nat)
      requires Valid()
      requires forall i :: 0 <= i < |compDraws| ==> InGrid(compDraws[i], sizeField)
      requires forall i :: 0 <= i < |humanDraws| ==> InGrid(humanDraws[i], sizeField)
      modifies this, computer.field, computer.ships, human.field, human.ships
      ensures Valid()
      ensures complete <==> compPlaced == |computer.ships| && humanPlaced == |human.ships|
      ensures computer.Traced(computer.Fleet(), compDraws, old(computer.Snapshot()), compPlaced)
      ensures human.Traced(human.Fleet(), humanDraws, old(human.Snapshot()), humanPlaced)
      ensures complete ==> Ready(computer, compShipsCoord) && Ready(human, humanShipsCoord)
      ensures !complete ==> compShipsCoord == old(compShipsCoord) && humanShipsCoord == old(humanShipsCoord)
    {
      var compTable, humanTable;
      complete, compTable, humanTable, compPlaced, humanPlaced := InitBoth(computer, human, compDraws, humanDraws);
      if complete {
        SetTables(compTable, humanTable);
      }
    }

    /** The two table assignments at the end of `init`. */
    method SetTables(compTable: PartsTable, humanTable: PartsTable)
      modifies this
      ensures compShipsCoord == compTable && humanShipsCoord == humanTable
    {
      compShipsCoord, humanShipsCoord := compTable, humanTable;
    }

    /** The two `init` calls and, once both boards are complete, their tables. */
    static method InitBoth(computer: GamePole, human: GamePole, compDraws: seq<Pos>, humanDraws: seq<Pos>)
      returns (complete: bool, compTable: PartsTable, humanTable: PartsTable, ghost compPlaced: nat, ghost humanPlaced: nat)
      requires computer.Valid() && human.Valid() && computer.field != human.field
      requires forall i, j :: 0 <= i < |computer.ships| && 0 <= j < |human.ships| ==> computer.ships[i] != human.ships[j]
      requires forall i :: 0 <= i < |compDraws| ==> InGrid(compDraws[i], computer.size)
      requires forall i :: 0 <= i < |humanDraws| ==> InGrid(humanDraws[i], human.size)
      modifies computer.field, computer.ships, human.field, human.ships
      ensures computer.Valid() && human.Valid()
      ensures complete <==> compPlaced == |computer.ships| && humanPlaced == |human.ships|
      ensures computer.Traced(computer.Fleet(), compDraws, old(computer.Snapshot()), compPlaced)
      ensures human.Traced(human.Fleet(), humanDraws, old(human.Snapshot()), humanPlaced)
      ensures complete ==> Ready(computer, compTable) && Ready(human, humanTable)
    {
      var compDone, humanDone;
      compDone, compTable, compPlaced := InitPole(computer, compDraws, human, []);
      humanDone, humanTable, humanPlaced := InitPole(human, humanDraws, computer, compTable);
      complete := compDone && humanDone;
    }

    /** One board's share of `init`: `pole.init()`, then, when the draws
        sufficed for all ten ships, `get_all_ships_parts_coord(pole)`.  The
        other board, which shares no ship and no grid with `pole`, keeps
        what it had, its trace included. */
    static method InitPole(pole: GamePole, draws: seq<Pos>, other: GamePole, ghost otherTable: PartsTable)
      returns (done: bool, table: PartsTable, ghost placed: nat)
      requires pole.Valid() && forall i :: 0 <= i < |draws| ==> InGrid(draws[i], pole.size)
      requires pole.field != other.field
      requires forall i, j :: 0 <= i < |pole.ships| && 0 <= j < |other.ships| ==> pole.ships[i] != other.ships[j]
      modifies pole.field, pole.ships
      ensures pole.Valid()
      ensures done <==> placed == |pole.ships|
      ensures pole.Traced(pole.Fleet(), draws, old(pole.Snapshot()), placed)
      ensures done ==> Ready(pole, table)
      ensures old(other.Valid()) ==> other.Valid()
      ensures old(Ready(other, otherTable)) ==> Ready(other, otherTable)
      ensures other.Fleet() == old(other.Fleet())
    {
      ghost var bg := pole.Snapshot();
      var placedCount;
      ghost var taken;
      placedCount, taken := pole.Init(draws);
      placed := placedCount;
      done := placedCount == |pole.ships|;
      pole.FleetWellFormed();
      assert pole.DrawnInOrder(pole.Fleet()[..placed], draws, bg, taken);
      table := [];
      if done {
        table := GetAllShipsPartsCoord(pole);
      }
    }

    /** The table `recognize_shell_place` searches for a shot by `gamer`. */
    function ShotTable(gamer: GamePole): PartsTable
      reads this
    {
      if gamer == human then compShipsCoord else humanShipsCoord
    }

    /** The table `_marked_broken_ship_part` reads for a shot by `gamer`. */
    function MarkTable(gamer: GamePole): PartsTable
      reads this
    {
      if gamer == computer then humanShipsCoord else compShipsCoord
    }

    /** `recognize_shell_place(shell_coord, gamer)`: the first ship, in table
        order, one of whose cells is `shell`; None if there is none. */
    function RecognizeShellPlace(shell: Pos, gamer: GamePole): (r: Option<Ship>)
      reads this
      ensures r.None? <==> forall j :: 0 <= j < |ShotTable(gamer)| ==> shell !in ShotTable(gamer)[j].1
      ensures r.Some? ==>
        exists i :: 0 <= i < |ShotTable(gamer)| && r.value == ShotTable(gamer)[i].0
          && shell in ShotTable(gamer)[i].1 && forall j :: 0 <= j < i ==> shell !in ShotTable(gamer)[j].1
    {
      var table := ShotTable(gamer);
      match FirstHolder(table, shell)
      case None => None
      case Some(i) => Some(table[i].0)
    }

    /** On tables built from boards whose ships do not overlap, a shot lands
        on the ship whose body holds the shot cell, and on none when no body
        does. */
    lemma RecognizeFindsOwner(shell: Pos, gamer: GamePole, target: GamePole)
      requires target.Valid() && Tabulates(ShotTable(gamer), target) && Disjoint(target.Fleet())
      ensures forall j :: 0 <= j < |target.ships| && Covers(target.ships[j].Geometry(), shell) ==>
        RecognizeShellPlace(shell, gamer) == Some(target.ships[j])
      ensures (forall j :: 0 <= j < |target.ships| ==> !Covers(target.ships[j].Geometry(), shell)) ==>
        RecognizeShellPlace(shell, gamer) == None
    {
      var table := ShotTable(gamer);
      forall j | 0 <= j < |table|
        ensures shell in table[j].1 <==> Covers(target.ships[j].Geometry(), shell)
      {
        PartsCoordIsBody(target.ships[j].Geometry());
        CoversIsBody(target.ships[j].Geometry(), shell);
        assert shell in table[j].1 <==> shell in (set p | p in PartsCoord(target.ships[j].Geometry()));
      }
      forall j | 0 <= j < |target.ships| && Covers(target.ships[j].Geometry(), shell)
        ensures RecognizeShellPlace(shell, gamer) == Some(target.ships[j])
      {
        var i := FirstHolder(table, shell).value;
        assert target.Fleet()[i].shape == target.ships[i].Geometry();
        assert target.Fleet()[j].shape == target.ships[j].Geometry();
        assert Covers(target.Fleet()[i].shape, shell) && Covers(target.Fleet()[j].shape, shell);
        assert i == j;
      }
    }

    /** The index `_marked_broken_ship_part` computes: the position of the
        shot cell in the list of the hit ship. */
    function PartNum(gamer: GamePole, shellPlace: Ship, coordPlace: Pos): (r: Option<nat>)
      reads this
      ensures r.Some? ==> EntryOf(MarkTable(gamer), shellPlace).Some?
    {
      var table := MarkTable(gamer);
      match EntryOf(table, shellPlace)
      case None => None
      case Some(e) => IndexOf(table[e].1, coordPlace)
    }

    /** `_marked_broken_ship_part(gamer, shell_place, coord_place)`: mark the
        segment at the shot cell as hit, freeze the ship, and count a kill
        for `gamer` when no intact segment is left.  The source raises when
        the ship has no entry or the cell is not in its list. */
    method MarkedBrokenShipPart(gamer: GamePole, shellPlace: Ship, coordPlace: Pos)
      requires Valid() && (gamer == computer || gamer == human)
      requires PartNum(gamer, shellPlace, coordPlace).Some?
      modifies shellPlace, gamer`countDeadShips
      ensures Valid()
      ensures var part := PartNum(gamer, shellPlace, coordPlace).value;
        shellPlace.cells == if part < shellPlace.length then old(shellPlace.cells)[part := HIT]
                            else old(shellPlace.cells)
      ensures !shellPlace.isMove && shellPlace.Geometry() == old(shellPlace.Geometry())
      ensures shellPlace.xSet == old(shellPlace.xSet) && shellPlace.ySet == old(shellPlace.ySet)
      ensures gamer.countDeadShips == old(gamer.countDeadShips) + (if shellPlace.IsAlive() then 0 else 1)
    {
      var target := if gamer == computer then human else computer;
      var shipsCoord := MarkTable(gamer);
      var partNum := IndexOf(shipsCoord[EntryOf(shipsCoord, shellPlace).value].1, coordPlace).value;
      StrikeSegment(target, shellPlace, partNum);
      if !shellPlace.IsAlive() {
        gamer.countDeadShips := gamer.countDeadShips + 1;
      }
    }

    /** The two assignments `_marked_broken_ship_part` makes to the hit
        ship, `shell_place[part_num] = 2` and `shell_place.is_move = False`,
        seen from the board that owns the ship. */
    static method StrikeSegment(pole: GamePole, ship: Ship, part: int)
      requires pole.Valid() && ship in pole.ships
      modifies ship
      ensures pole.Valid()
      ensures ship.cells == if 0 <= part < ship.length then old(ship.cells)[part := HIT] else old(ship.cells)
      ensures !ship.isMove && ship.x == old(ship.x) && ship.y == old(ship.y)
      ensures ship.xSet == old(ship.xSet) && ship.ySet == old(ship.ySet)
    {
      ship.SetItem(part, HIT);
      ship.isMove := false;
    }

    /** `__bool__`: the battle goes on while neither side has sunk all ten ships. */
    predicate Continues()
      reads this, computer, human
    {
      !human.DestroyedAll() && !computer.DestroyedAll()
    }
  }
}
