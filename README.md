# Small Python games and a metro graph, modelled in Dafny

This project models the game logic of three small Python programs and proves
properties of the model.

- **Sea battle** (`python_sea_battle/Game.py`). A `Ship` has a length, an
  orientation (1 = horizontal, 2 = vertical), an optional anchor, a list of
  segment states (1 = intact, 2 = hit) and a mobility flag. A `GamePole` owns
  ten ships and a `size` x `size` grid that shows 0 for water and the segment
  state where a ship lies. The model covers:
  - placing the fleet (`init`, which checks the neighbourhood with
    `_check_ships_around`);
  - rebuilding the grid (`update_game_field`);
  - drifting every mobile ship one cell along its axis (`move_ships`);
  - in `SeaBattle`, the ship-to-cells tables (`get_all_ships_parts_coord`),
    finding the ship a shot lands on (`recognize_shell_place`), and marking
    a hit and counting kills (`_marked_broken_ship_part`).
- **Tic-tac-toe** (`python_Tic_tac_toe/Game.py`). A 3x3 board of `Cell`
  objects with:
  - a checked index that reads a cell, a column (`[:, y]`) or a row (`[x, :]`);
  - a write that refuses occupied cells and raises the win and draw flags;
  - the win check over the rows, the columns and the main diagonal;
  - resetting the board.
- **Linked graph** (`python_graphs/main.py`). `LinkedGraph` keeps a list of
  links and a list of vertices, and every vertex keeps the list of its
  links. The model covers:
  - `add_link`, which refuses a second link between the same two vertices;
  - `find_path`, Dijkstra's algorithm rooted at the destination, followed
    by the walk back along the recorded predecessors;
  - the metro map at the bottom of the file.

Modules:

| file | module | contents |
|---|---|---|
| `wrappers.dfy` | `Wrappers` | `Option`, `Result` |
| `sea_geometry.dfy` | `ShipGeometry` | ship shapes, body and footprint cells, `is_collide`, `is_out_pole` |
| `sea_ship.dfy` | `SeaShips` | class `Ship` |
| `sea_board.dfy` | `SeaBoard` | the fleet as values: the painted grid, the drift of `move_ships` |
| `sea_pole.dfy` | `SeaPole` | class `GamePole` |
| `sea_battle.dfy` | `SeaGame` | class `SeaBattle` |
| `tictactoe.dfy` | `TicTacToeGame` | the board as values; classes `Cell` and `TicTacToe` |
| `graph_paths.dfy` | `GraphPaths` | links, walks, weights, extended distances, potentials |
| `graph.dfy` | `LinkedGraphs` | the state of `find_path`; class `LinkedGraph` |
| `metro.dfy` | `MetroMap` | the metro example |

How the source is modelled:

- Randomness becomes a choice passed in by the caller:
  - the anchors drawn by `randint` in `GamePole.init` are a sequence of
    draws, consumed in order;
  - each `shuffle` of `move_ships` is a "forward first" flag per ship;
  - the orientations drawn by `_generate_ships` are a parameter of the
    `GamePole` constructor.
- Code that updates state in place becomes a class method with a
  `modifies` clause. Each such method is specified against a function of the
  values:
  - the grid of `GamePole` is an `array2<int>`, and the grid after a
    rebuild is `Paint` of the fleet;
  - `move_ships` moves the fleet to `Drift` of the old fleet;
  - the tic-tac-toe board after a write is `Put` of the old board.
- Python's `float('inf')` in `find_path` is the `Inf` case of the datatype
  `Dist`.
- A vertex is a natural number, compared by identity as the Python objects
  are.

Two behaviours of the code shape the model:

- `find_path` has no error of its own for an unreachable destination. Its
  walk back appends `None` and then raises `KeyError` at `d[None]`
  (`python_graphs/main.py:77`). `FindPath` requires the destination to be
  reachable.
- `GamePole.init` has no attempt cap: it keeps drawing until an anchor passes
  (`python_sea_battle/Game.py:209-211`). The model consumes a finite list of
  draws, takes for each ship the first draw that passes, and keeps the ships
  placed so far when the list runs out.

`winner_check` does not look at the anti-diagonal. The model keeps this, and
`AntiDiagonalIsNoWin` exhibits a board whose anti-diagonal is all crosses and
which is not a win.

## Model

| member | source | states |
|---|---|---|
| `ShipGeometry.ParseOrientation` | python_sea_battle/Game.py:30-32 | an orientation code is accepted exactly when it is 1 or 2, and the accepted code is the code of the result |
| `ShipGeometry.OrientationRoundTrip` | python_sea_battle/Game.py:8-9 | parsing the code of an orientation gives back that orientation |
| `ShipGeometry.OffsetsAreNeighbourhood` | python_sea_battle/Game.py:89 | the nine offsets are exactly the pairs with both coordinates in -1..1 |
| `ShipGeometry.MovedSlides` | python_sea_battle/Game.py:76-83 | a move by `go` slides the ship along its own axis: segment `i` lands where segment `i + go` was, so the new body is the cells of the old segments `go .. go + length - 1`; length and orientation stay |
| `ShipGeometry.Body` | python_sea_battle/Game.py:94-98 | the `ship_coord` set: the cells `(x + j, y)` or `(x, y + i)` of the segments; `BodyIsSegments` and `PartsCoordIsBody` tie it to the segment list |
| `ShipGeometry.Footprint` | python_sea_battle/Game.py:89-102 | the `all_coord` set: every body cell moved by each of the nine offsets; `FootprintIsNeighbourhood` proves it is the cells at most one step from the body |
| `ShipGeometry.IsCollide` | python_sea_battle/Game.py:106-113 | some body cell of either ship lies in both footprints; `CollideIffNear` proves this means two body cells at most one step apart, `CollideSymmetric` that the test is symmetric |
| `ShipGeometry.IsOutPole` | python_sea_battle/Game.py:115-119 | the anchor or the last segment lies off the `size` x `size` board; `OutPoleIffBodyOff` proves this means some body cell is off the board |
| `ShipGeometry.BodyIsSegments` | python_sea_battle/Game.py:94-98 | a cell is in the body exactly when it is the cell of some segment `i < length` |
| `ShipGeometry.PartsCoordIsBody` | python_sea_battle/Game.py:94-98 | the segment list holds the body's cells, each once |
| `ShipGeometry.SegmentIndexOfBody` | python_sea_battle/Game.py:94-98 | a body cell belongs to the segment whose index its offset from the anchor gives |
| `ShipGeometry.CoversIsBody` | python_sea_battle/Game.py:94-98 | the interval test `Covers` agrees with body membership and locates the segment |
| `ShipGeometry.FootprintIsNeighbourhood` | python_sea_battle/Game.py:86-104 | the footprint is exactly the set of cells at Chebyshev distance at most 1 from a body cell |
| `ShipGeometry.CollideIffNear` | python_sea_battle/Game.py:106-113 | `is_collide` holds exactly when a body cell of one ship is at distance at most 1 from a body cell of the other |
| `ShipGeometry.CollideSymmetric` | python_sea_battle/Game.py:106-113 | `is_collide` is symmetric |
| `ShipGeometry.CollideIffTouch` | python_sea_battle/Game.py:106-113 | `is_collide` holds exactly when the two body intervals, each widened by one cell, overlap on both axes |
| `ShipGeometry.OutPoleIffBodyOff` | python_sea_battle/Game.py:115-119 | a ship of length at least 1 is on the board exactly when every body cell is |
| `ShipGeometry.OneDirectionFits` | python_sea_battle/Game.py:272-274 | a ship on the board and shorter than the board can move forward or back without leaving it, so the direction list of `move_ships` is never popped empty |
| `SeaShips.Alive` | python_sea_battle/Game.py:36-40 | not every segment is hit; `AliveIffIntactSegment` proves this means some segment is intact |
| `SeaShips.Ship.IsAlive` | python_sea_battle/Game.py:36-40 | `Alive` of the ship's own segment list; `MarkedBrokenShipPart` counts a kill exactly when it fails after the hit |
| `SeaShips.Ship.CheckIndex` | python_sea_battle/Game.py:121-123 | the index lies within the segment list; `GetItem` reads and `SetItem` writes exactly at such indices |
| `SeaShips.AliveIffIntactSegment` | python_sea_battle/Game.py:36-40 | a ship is truthy exactly when some segment is still intact |
| `SeaShips.Ship.constructor` | python_sea_battle/Game.py:11-17 | a new ship has the given length and orientation and the given `x` and `y`, each possibly None; it is mobile and all its segments are intact |
| `SeaShips.Ship.GetItem` | python_sea_battle/Game.py:121-128 | a read gives a segment state (1 or 2) exactly for an index in range, and nothing (Python's None) otherwise |
| `SeaShips.Ship.SetItem` | python_sea_battle/Game.py:130-133 | a write changes the segment list only for an index in range and a value of 1 or 2; anchor, placement and mobility stay |
| `SeaShips.Ship.SetStartCoords` | python_sea_battle/Game.py:24-34 | TypeError exactly when a coordinate is negative; `x` is assigned (a value or None) before `y` is checked, so a bad `y` keeps the new `x`; a success records both coordinates, None included |
| `SeaShips.Ship.Move` | python_sea_battle/Game.py:76-83 | an immobile ship stays; a mobile one moves by `go` along its axis, and raises TypeError and stays exactly when the coordinate along its axis is None or the moved anchor is negative; the other coordinate is kept, None included |
| `SeaShips.NewShip` | python_sea_battle/Game.py:11-34 | construction fails exactly for a negative length (TypeError), an orientation code other than 1 or 2 (ValueError) or a negative `x` or `y` (TypeError), checked in that order; otherwise it gives a fresh mobile intact ship with that length, orientation and anchor |
| `SeaBoard.ApartIsDisjoint` | python_sea_battle/Game.py:106-113 | ships that pairwise do not collide share no body cell |
| `SeaBoard.ApartSnoc` | python_sea_battle/Game.py:205-240 | adding a ship that collides with none of an apart fleet keeps the fleet apart |
| `SeaBoard.Paint` | python_sea_battle/Game.py:249-264 | the grid value at a cell after the ships are written in list order over a background; `PaintSnoc`, `PaintOnTop`, `PaintOwner`, `PaintBackground` and `PaintRange` state what the grid shows |
| `SeaBoard.PaintSnoc` | python_sea_battle/Game.py:253-264 | the grid after one more ship shows that ship's segment state on its body and the old value elsewhere |
| `SeaBoard.PaintOnTop` | python_sea_battle/Game.py:253-264 | painting a fleet plus one ship is painting the ship over the painted fleet |
| `SeaBoard.PaintOwner` | python_sea_battle/Game.py:246-264 | on a fleet with no shared cell, a body cell shows the state of the owner's segment at that cell |
| `SeaBoard.PaintBackground` | python_sea_battle/Game.py:246-264 | a cell on no ship's body shows the background |
| `SeaBoard.PaintRange` | python_sea_battle/Game.py:246-264 | every painted cell is the background, 1 or 2 |
| `SeaBoard.DriftOne` | python_sea_battle/Game.py:268-311 | one ship's turn of `move_ships`: an immobile ship stays, a mobile one takes the first of its two directions that fits, else the other, else stays; `DriftOneInPole` and `DriftOneApart` |
| `SeaBoard.Drift` | python_sea_battle/Game.py:266-311 | every ship's turn in list order, each against the current positions of the others; `DriftStaysInPole`, `DriftStaysApart` and `DriftChangesOnlyAnchors` |
| `SeaBoard.DriftFromSteps` | python_sea_battle/Game.py:266-311 | the ships before `k` are untouched, and each later ship takes one drift step |
| `SeaBoard.DriftChangesOnlyAnchors` | python_sea_battle/Game.py:266-311 | after `move_ships`, segments, mobility, length and orientation are unchanged; an immobile ship keeps its anchor; a mobile one stays or moves one cell forward or back along its axis |
| `SeaBoard.DriftOneInPole` | python_sea_battle/Game.py:292-299 | a ship on the board is on the board after its turn |
| `SeaBoard.DriftFromInPole` | python_sea_battle/Game.py:292-299 | ships on the board stay on it for the rest of the pass |
| `SeaBoard.DriftStaysInPole` | python_sea_battle/Game.py:266-313 | `move_ships` keeps every ship on the board |
| `SeaBoard.DriftOneApart` | python_sea_battle/Game.py:301-311 | a ship's turn keeps an apart fleet apart |
| `SeaBoard.DriftFromApart` | python_sea_battle/Game.py:301-311 | an apart fleet stays apart for the rest of the pass |
| `SeaBoard.DriftStaysApart` | python_sea_battle/Game.py:266-313 | after `move_ships` no two ships collide, when none did before |
| `SeaPole.Shuffle` | python_sea_battle/Game.py:273 | the shuffled direction list has the same length, and `pop` yields the direction the caller chose |
| `SeaPole.ShuffleIsPermutation` | python_sea_battle/Game.py:273 | `shuffle` only reorders the list |
| `SeaPole.GamePole.constructor` | python_sea_battle/Game.py:139-145 | a new board has an all-zero grid, no kills, and the ten ships of lengths 4, 3, 3, 2, 2, 2, 1, 1, 1, 1 with the given orientations, unanchored, mobile and intact (lines 198-203) |
| `SeaPole.GamePole.OffsetSumZero` | python_sea_battle/Game.py:182-183 | on a non-negative grid the generator sum is non-negative, and zero exactly when every on-board offset cell is 0 |
| `SeaPole.GamePole.ZeroSumClear` | python_sea_battle/Game.py:182-183 | when every on-board offset cell of a segment is 0, no cell next to the segment holds a ship |
| `SeaPole.GamePole.NonZeroSumBlocked` | python_sea_battle/Game.py:182-183 | when some on-board offset cell is not 0, the segment has a ship next to it |
| `SeaPole.GamePole.NeighbourSumZero` | python_sea_battle/Game.py:174-183 | the sum over the nine offsets is zero exactly when the 3x3 block around the cell is water |
| `SeaPole.GamePole.AroundSumZeroPrefix` | python_sea_battle/Game.py:178-194 | after `k` segments the running total is non-negative, and zero exactly when the blocks of the first `k` segments are water |
| `SeaPole.GamePole.AroundSumZeroIff` | python_sea_battle/Game.py:172-196 | the full sum is zero exactly when no segment lies on or next to the candidate ship |
| `SeaPole.GamePole.CheckShipsAround` | python_sea_battle/Game.py:172-196 | the result is non-negative, and 0 exactly when no segment lies on or next to the candidate ship |
| `SeaPole.GamePole.WriteSegments` | python_sea_battle/Game.py:218-235 | the grid shows the ship's segment states on its body and is unchanged elsewhere |
| `SeaPole.GamePole.TryPlace` | python_sea_battle/Game.py:209-240 | an anchor is accepted exactly when the ship fits on the board and nothing is on or next to it; then the anchor is recorded and the ship painted; otherwise nothing changes |
| `SeaPole.GamePole.VisibleFleetApart` | python_sea_battle/Game.py:209-240 | when the placed ships are visible on the grid, a candidate with a clear neighbourhood collides with none of them |
| `SeaPole.GamePole.VisibleShowsApart` | python_sea_battle/Game.py:209-240 | the same for a grid that shows an apart fleet |
| `SeaPole.GamePole.ShowsSnoc` | python_sea_battle/Game.py:253-264 | a grid showing one more ship over the fleet shows the longer fleet |
| `SeaPole.GamePole.ShowsFits` | python_sea_battle/Game.py:211-228 | on a grid that shows the placed ships, the tests of `init` (on the board, nothing on or next to the ship) hold exactly when the candidate fits over those ships |
| `SeaPole.GamePole.DrawnSnoc` | python_sea_battle/Game.py:207-240 | a ship that takes the first passing draw after the previous ship's extends the record of draws taken in order |
| `SeaPole.GamePole.PlaceShip` | python_sea_battle/Game.py:209-240 | the draws are tried in order: an accepted anchor is the first draw that passes, and the placed ships, this one added, stay on the board, apart, shown on the grid and drawn in order; a refusal means that no remaining draw passes, and then nothing changes |
| `SeaPole.GamePole.Init` | python_sea_battle/Game.py:205-240 | ship after ship takes the first remaining draw that passes; the placed ships lie on the board at their draws, no two collide, the grid shows them over the old grid; with all ten placed the board is deployed, and fewer are placed only when no remaining draw passes for the next ship |
| `SeaPole.GamePole.ClearField` | python_sea_battle/Game.py:249-251 | every cell is 0 |
| `SeaPole.GamePole.UpdateGameField` | python_sea_battle/Game.py:246-264 | every cell shows the state of the segment of the ship lying there, in list order, and 0 elsewhere |
| `SeaPole.GamePole.FindConflict` | python_sea_battle/Game.py:301-308 | the result is true exactly when the ship collides with another ship of the board |
| `SeaPole.GamePole.TryDirection` | python_sea_battle/Game.py:276-311 | a tried move is refused for leaving the board, refused for a collision, or kept exactly when it fits; a refused move leaves the anchor as it was |
| `SeaPole.GamePole.MoveShip` | python_sea_battle/Game.py:268-311 | one ship's turn moves it to `DriftOne` of the fleet and changes no other ship |
| `SeaPole.GamePole.MoveShips` | python_sea_battle/Game.py:266-313 | the fleet becomes `Drift` of the old fleet, stays on the board, and the grid is rebuilt from it |
| `SeaGame.EntryOf` | python_sea_battle/Game.py:409 | the dict lookup finds the entry whose key is the ship, or reports that none has it |
| `SeaGame.IndexOf` | python_sea_battle/Game.py:409 | `list.index` gives the first position of the cell, or reports that the cell is absent |
| `SeaGame.FirstHolder` | python_sea_battle/Game.py:373-374 | the first table entry whose cell list holds the shot, or none when no entry does |
| `SeaPole.GamePole.DestroyedAll` | python_sea_battle/Game.py:147-148 | the board has counted ten sunk ships; `MarkedBrokenShipPart` adds one to the count exactly when the hit ship has no intact segment left |
| `SeaGame.GetAllShipsPartsCoord` | python_sea_battle/Game.py:356-368 | the table lists every ship in order with the cells of its segments from the anchor on |
| `SeaGame.PartIndexIsSegment` | python_sea_battle/Game.py:364-366 | in a ship's own list, a body cell's position is its segment index |
| `SeaGame.SeaBattle.constructor` | python_sea_battle/Game.py:340-346 | two fresh boards, empty tables, no kills, and the battle goes on (lines 446-449) |
| `SeaGame.SeaBattle.Init` | python_sea_battle/Game.py:348-354 | each board's ships take the first passing draws in order; the result is true exactly when both boards got all ten ships, and then both boards are deployed and both tables list the segment cells of their ships; a false result means some board's draws held no passing anchor for its next ship, and the tables stay as they were |
| `SeaGame.SeaBattle.InitBoth` | python_sea_battle/Game.py:351-354 | the two `init` calls, each recorded as drawn in order; complete exactly when both boards got all ten ships, and then both tables describe their deployed boards |
| `SeaGame.SeaBattle.InitPole` | python_sea_battle/Game.py:351-354 | one board's `init`, recorded as drawn in order, and done exactly when all ten ships were placed, then its table; the other board keeps its fleet, its validity and its table |
| `SeaGame.SeaBattle.SetTables` | python_sea_battle/Game.py:353-354 | the two tables take the new values |
| `SeaGame.SeaBattle.Continues` | python_sea_battle/Game.py:446-449 | the battle goes on while neither board has counted ten sunk ships; the constructor ensures it holds at the start |
| `SeaGame.SeaBattle.RecognizeShellPlace` | python_sea_battle/Game.py:370-374 | the result is the first ship of the opponent's table whose cells hold the shot, or None exactly when none does |
| `SeaGame.SeaBattle.RecognizeFindsOwner` | python_sea_battle/Game.py:370-374 | with a table built from a board of non-overlapping ships, a shot finds the ship whose body holds it, and None when no body does |
| `SeaGame.SeaBattle.PartNum` | python_sea_battle/Game.py:408-409 | a segment index is found only for a ship that has an entry |
| `SeaGame.SeaBattle.MarkedBrokenShipPart` | python_sea_battle/Game.py:406-413 | the hit segment becomes 2, the ship is frozen, its anchor stays, and the shooter's kill count grows by one exactly when the ship has no intact segment left |
| `SeaGame.SeaBattle.StrikeSegment` | python_sea_battle/Game.py:410-411 | segment `part` becomes 2 when in range, and the ship is frozen in place |
| `TicTacToeGame.RowsFromIff` | python_Tic_tac_toe/Game.py:58-60 | the row loop succeeds exactly when the mark fills one of the three rows |
| `TicTacToeGame.ColumnsFromIff` | python_Tic_tac_toe/Game.py:62-64 | the column loop succeeds exactly when the mark fills one of the three columns |
| `TicTacToeGame.WinnerCheck` | python_Tic_tac_toe/Game.py:57-67 | a row, then a column, then the main diagonal filled with the mark; `WinnerCheckIffLine` and `AntiDiagonalIsNoWin` state what it does and does not see |
| `TicTacToeGame.WinnerCheckIffLine` | python_Tic_tac_toe/Game.py:57-67 | `winner_check` holds exactly when the mark fills a row, a column or the main diagonal |
| `TicTacToeGame.AntiDiagonalIsNoWin` | python_Tic_tac_toe/Game.py:66-67 | a board whose only marks are crosses on the anti-diagonal is not a win |
| `TicTacToeGame.WriteFreeCell` | python_Tic_tac_toe/Game.py:43-49 | writing into a free cell makes or breaks no line of another mark and keeps every line of its own |
| `TicTacToeGame.WriteKeepsAgreement` | python_Tic_tac_toe/Game.py:40-50 | after a write into a free cell, the flag updates keep each win flag equal to `winner_check` of its mark and the draw flag equal to "full and nobody won" |
| `TicTacToeGame.EmptyBoard` | python_Tic_tac_toe/Game.py:15-16 | the empty board is no win for any mark and is not full |
| `TicTacToeGame.EmptyAgrees` | python_Tic_tac_toe/Game.py:18-22 | on the empty board, flags that are all down agree with the board |
| `TicTacToeGame.Cell.constructor` | python_Tic_tac_toe/Game.py:125-126 | a new cell is free |
| `TicTacToeGame.NewRow` | python_Tic_tac_toe/Game.py:10 | three distinct fresh free cells |
| `TicTacToeGame.NewPole` | python_Tic_tac_toe/Game.py:10 | nine distinct fresh free cells in three rows |
| `TicTacToeGame.TicTacToe.constructor` | python_Tic_tac_toe/Game.py:9-13 | an empty board with every flag down |
| `TicTacToeGame.TicTacToe.Clear` | python_Tic_tac_toe/Game.py:15-16 | a board of new free cells; the flags are untouched |
| `TicTacToeGame.TicTacToe.Init` | python_Tic_tac_toe/Game.py:18-22 | an empty board, every flag down, and the game goes on (lines 120-121) |
| `TicTacToeGame.Check` | python_Tic_tac_toe/Game.py:24-28 | every integer component lies in 0..2, slices pass; `GetItem` and `SetItem` raise IndexError exactly when it fails |
| `TicTacToeGame.Cell.IsFree` | python_Tic_tac_toe/Game.py:128-129 | the cell holds 0; `SetItem` raises ValueError exactly when the indexed cell is not free |
| `TicTacToeGame.TicTacToe.GetItem` | python_Tic_tac_toe/Game.py:24-38 | IndexError exactly when an integer component is outside 0..2; otherwise a cell value, column `y` for `[:, y]`, row `x` for `[x, :]` |
| `TicTacToeGame.TicTacToe.SetItem` | python_Tic_tac_toe/Game.py:40-50 | an index error, a slice or an occupied cell raises and changes nothing; otherwise one cell is written, the win flags rise exactly per `winner_check` of the written mark, no flag drops, and the draw check runs; flags that agreed with the board still agree |
| `TicTacToeGame.TicTacToe.WriteCell` | python_Tic_tac_toe/Game.py:45 | that one cell takes the value |
| `TicTacToeGame.TicTacToe.IsDrawCheck` | python_Tic_tac_toe/Game.py:69-72 | the draw flag rises exactly when every cell is taken and no win flag is up, and it never drops |
| `TicTacToeGame.TicTacToe.Continues` | python_Tic_tac_toe/Game.py:120-121 | the game goes on while no flag is up; `Init` ensures it holds after `init` |
| `GraphPaths.DefaultWeightIsLength` | python_graphs/main.py:9-13 | over links made by `Link(v1, v2)`, which have weight 1, every weight is positive and a walk weighs its number of links |
| `GraphPaths.LightestIsShortest` | python_graphs/main.py:9-13 | in a graph of such links a walk no heavier than another has no more links, so the lightest path `find_path` returns is a shortest one |
| `GraphPaths.SamePairIff` | python_graphs/main.py:41 | two links have the same end set exactly when their ends agree in one order or the other |
| `GraphPaths.Other` | python_graphs/main.py:64 | the end of the link that is not `min_vertex`, or `min_vertex` itself for a loop; `OtherJoins` proves the link joins the two |
| `GraphPaths.OtherJoins` | python_graphs/main.py:64 | the vertex across the link from `min_vertex` is joined to it by the link |
| `GraphPaths.WeightSnoc` | python_graphs/main.py:75 | appending a link adds its weight |
| `GraphPaths.WeightPositive` | python_graphs/main.py:74-77 | with positive weights a walk weighs at least its number of links, which bounds the walk back |
| `GraphPaths.WalkBound` | python_graphs/main.py:56-69 | under an estimate that no link can improve, every walk to the destination weighs at least the estimate at its start |
| `LinkedGraphs.IncidentSnoc` | python_graphs/main.py:45-46 | each added link grows a vertex's list by one copy per end it has there |
| `LinkedGraphs.IncidentIff` | python_graphs/main.py:45-46 | a vertex's list holds exactly the links that end at it |
| `LinkedGraphs.RemoveFirst` | python_graphs/main.py:61 | `remove` shortens the list by one when the vertex is listed and adds no vertex |
| `LinkedGraphs.RemoveFirstNoDup` | python_graphs/main.py:61 | on a list without repeats, `remove` takes out exactly that vertex |
| `LinkedGraphs.SelectMin` | python_graphs/main.py:57-60 | the selected vertex has the least distance in the plan, and every earlier vertex has a strictly larger one |
| `LinkedGraphs.Relax` | python_graphs/main.py:63-69 | only unvisited vertices across a link of `min_vertex` change, each exactly when the new distance is smaller, and then to that distance with that link and predecessor |
| `LinkedGraphs.StepFacts` | python_graphs/main.py:56-69 | one round removes the selected vertex from the plan, leaves visited entries alone, and never raises a distance |
| `LinkedGraphs.ImprovedAbove` | python_graphs/main.py:67-69 | an improved distance is finite and larger than the selected vertex's, and its recorded link joins the two |
| `LinkedGraphs.StepRooted` | python_graphs/main.py:56-69 | one round keeps every finite distance non-negative and zero only at the destination |
| `LinkedGraphs.StepTraced` | python_graphs/main.py:56-69 | one round keeps a recorded link and predecessor, one step nearer the destination, for every finite distance other than the destination's |
| `LinkedGraphs.StepRelaxed` | python_graphs/main.py:56-69 | after one round no link out of a visited vertex can improve a distance |
| `LinkedGraphs.StepOrdered` | python_graphs/main.py:56-69 | after one round no visited distance exceeds an unvisited one |
| `LinkedGraphs.StepKeepsInv` | python_graphs/main.py:56-69 | one round of the main loop keeps the loop invariant |
| `LinkedGraphs.StartInv` | python_graphs/main.py:52-54 | the first table (0 at the destination, infinity elsewhere, every vertex in the plan) satisfies the loop invariant |
| `LinkedGraphs.DoneFeasible` | python_graphs/main.py:56-69 | when the plan is empty, the distances are an estimate no link can improve |
| `LinkedGraphs.ConnectedEnds` | python_graphs/main.py:52-54 | a vertex reached from a listed vertex is listed too |
| `LinkedGraphs.WithVertex` | python_graphs/main.py:36-38 | the vertex list after `add_vertex(v)`; `WithVertexFacts` and `WithVertexKeepsWellFormed` state what it keeps |
| `LinkedGraphs.WithVertexFacts` | python_graphs/main.py:36-38 | `add_vertex` lists the vertex and keeps the list free of repeats |
| `LinkedGraphs.WithVertexKeepsWellFormed` | python_graphs/main.py:36-38 | `add_vertex` keeps a well-formed graph well formed |
| `LinkedGraphs.AppendBoth` | python_graphs/main.py:45-46 | the two appends grow each vertex's list by one copy of the link per end it has there |
| `LinkedGraphs.AppendKeepsLists` | python_graphs/main.py:45-46 | after the appends every vertex's list is its list of the longer link list |
| `LinkedGraphs.AppendKeepsVertices` | python_graphs/main.py:43-44 | every link's ends are listed, and each end of the new link exactly once |
| `LinkedGraphs.AppendKeepsPairs` | python_graphs/main.py:41-42 | appending a link with a new end set keeps every end set unique |
| `LinkedGraphs.AppendKeepsWellFormed` | python_graphs/main.py:40-46 | a successful `add_link` keeps the graph well-formed, lists both ends once each, and grows each vertex's list by the link |
| `LinkedGraphs.LinkedGraph.constructor` | python_graphs/main.py:32-34 | a new graph has no links and no vertices |
| `LinkedGraphs.LinkedGraph.ListedLinks` | python_graphs/main.py:45-46 | in a well-formed graph, a vertex's list holds exactly the graph's links that end at it, so a newly added link is in the lists of both ends |
| `LinkedGraphs.LinkedGraph.AddVertex` | python_graphs/main.py:36-38 | the vertex is appended unless already listed, and a well-formed graph stays well formed |
| `LinkedGraphs.LinkedGraph.AddLink` | python_graphs/main.py:40-46 | a link between an already linked pair changes nothing; otherwise it is appended, both ends are listed exactly once, and each vertex's list grows by the link once per end it has there; the graph stays well-formed |
| `LinkedGraphs.LinkedGraph.Distances` | python_graphs/main.py:49-69 | the loop ends with every vertex visited and the invariant holding, so the recorded predecessors lead to the destination |
| `LinkedGraphs.LinkedGraph.WalkBack` | python_graphs/main.py:71-79 | following the predecessors from the start gives a walk to the destination whose weight is the start's distance |
| `LinkedGraphs.LinkedGraph.FindPath` | python_graphs/main.py:48-79 | the result is a walk over the graph's links from start to destination, no heavier than any such walk, and `([v], [])` when start and destination coincide |
| `MetroMap.ToSixFeasible` | python_graphs/main.py:107-116 | the listed travel times to station 6 are an estimate no metro link can improve |
| `MetroMap.TightHead` | python_graphs/main.py:71-79 | along a walk weighing exactly the estimate at its start, the first link uses up exactly the drop in the estimate |
| `MetroMap.LinkFrom` | python_graphs/main.py:107-116 | the links of the map at stations 1, 2 and 7 and the stations they lead to |
| `MetroMap.MetroBound` | python_graphs/main.py:107-116 | every walk of the map to station 6 takes at least the listed time of its start |
| `MetroMap.MetroTight` | python_graphs/main.py:107-116 | `TightHead` on the metro map |
| `MetroMap.TightFrom7` | python_graphs/main.py:112 | the only walk from 7 to 6 of time 1 is the direct link |
| `MetroMap.TightFrom2` | python_graphs/main.py:112-114 | the only walk from 2 to 6 of time 6 goes through 7 |
| `MetroMap.TightFrom1` | python_graphs/main.py:107-116 | the only walk from 1 to 6 of time at most 7 is 1, 2, 7, 6 |
| `MetroMap.MetroPairsNew` | python_graphs/main.py:107-116 | no link of the map joins the same two stations as an earlier one |
| `MetroMap.ListedStep` | python_graphs/main.py:107-116 | the station lists after each `add_link` |
| `MetroMap.AddMetroLink` | python_graphs/main.py:107-116 | each `add_link` of the map is taken |
| `MetroMap.BuildMetro` | python_graphs/main.py:98-116 | the eight links are kept in order and the seven stations listed in order of appearance |
| `MetroMap.RouteWeight` | python_graphs/main.py:121-122 | 1, 2, 7, 6 is a walk of the map of time 7 |
| `MetroMap.MetroExample` | python_graphs/main.py:98-122 | the map has 8 links and 7 stations, and `find_path(v1, v6)` gives the stations 1, 2, 7, 6 over links of total time 7 |

## Left out

- Console I/O is not modelled: `show`, `show_shot_location`, the `__repr__` strings, both `human_go` methods and the prints of the metro script. The printed values of the script are stated as the ensures of `MetroExample`.
- The random draws (`randint`, `shuffle`) and `_generate_ships` are not modelled; the caller supplies their outcomes. `SeaBattle.computer_go` and `TicTacToe.computer_go` are random rejection-sampling loops around the modelled writes, and are left out.
- `GamePole.init` has no attempt cap and loops until it finds an anchor. The model consumes a finite list of draws. When the draws run out it stops and reports how many ships it placed, so the liveness of the sampling is not modelled.
- `SeaGame.SeaBattle.Init`: when the draws of a board run out, it returns false and leaves the tables alone, where the source would keep drawing. When the computer's draws run out, `InitBoth` still runs the human board's `init`; the source never gets past `self.computer.init()` (`python_sea_battle/Game.py:351`).
- `python_sea_battle/main.py`, the turn loop, is not part of this model. It reads `is_human_win` and `is_computer_win`, which `SeaBattle` does not define.
- The hit-point lists and `result_field` of `SeaBattle` are written only by the I/O methods, and are left out.
- `SeaBattle` declares its two tables as class attributes shared by all instances until `init` assigns per-instance ones. The model gives each battle its own tables, starting empty.
- Python's dynamic type checks (`isinstance`) are vacuous under Dafny's types. Only the non-negativity of coordinates and lengths and the orientation codes 1 and 2 are kept. A coordinate that is None is a flag (`xSet`, `ySet`) that is false.
- Operations that crash in the source are preconditions:
  - `find_path` with a start that is not a vertex of the graph (`d[start_v]`) or with an unreachable destination (`d[None]`): `FindPath` requires the start to be listed and a walk from start to destination;
  - `move_ships` with a ship at least as long as the board (popping an empty list): `MoveShips` requires every ship to be shorter than the board, on the board and anchored;
  - `_marked_broken_ship_part` for a ship without an entry or a cell not in its list (`AttributeError` or `ValueError`): `MarkedBrokenShipPart` requires both to be found.
- The grid rebuild and the drift assume the ships are on the board, as `init` leaves them. Writing a ship that sticks out of the board would raise `IndexError` in the source, and is not modelled.
- In Python every vertex object keeps its own `links` list, shared by every graph the vertex is added to. The model keeps the lists in a map of the one graph.
- Default arguments become explicit ones: `GamePole(size=10)` (`python_sea_battle/Game.py:139`) takes its size, and `Ship(length, tp=HORIZONTAL, x=None, y=None)` (`python_sea_battle/Game.py:11`) takes its orientation and optional coordinates from the caller.
- Link weights are integers. The model has no floating-point weights.
- `FindPath` requires every weight to be positive. The walk back stops at the first vertex whose distance is 0. With a link of weight 0 that vertex need not be the destination, and with a negative weight Dijkstra's bound fails. The model does not cover either case.
- A `TicTacToe` index that is not a 2-tuple raises `IndexError` in the source; Dafny's index type is always a pair, so this case does not arise. Slice bounds are not modelled: every slice component is taken to be `:` (see `SetItem` below).
- Writing through a slice (`pole[:, y] = v`) raises `AttributeError` in the source. The model returns that error and changes nothing.
- `TicTacToeGame.TicTacToe.SetItem`: every slice component is modelled as `:`, and a write through it is reported as `AttributeError`. In the source `self.pole[x][y]` really slices, so other slices raise other errors: `pole[1:, 2] = 1` raises `IndexError` (`pole[1:]` has two rows), `pole[1:, 2:] = 1` raises `ValueError` (`not ()`), `pole[1, 0:0] = 1` raises `ValueError` and `pole[0:0, 1] = 1` raises `IndexError`. The model reports `AttributeError` for all of them. `GetItem` is not affected: `__getitem__` ignores the slice's bounds.
