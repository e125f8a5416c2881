/** The tic-tac-toe board of `python_Tic_tac_toe/Game.py`: a 3x3 grid of
    `Cell` objects, a checked index operation for reading a cell, a row or a
    column, a write that refuses occupied cells and updates the win and draw
    flags, and the reset operations. */
module TicTacToeGame {

  import opened Wrappers

  const FREE_CELL := 0
  const HUMAN_X := 1
  const COMPUTER_O := 2

  /** The exceptions the board raises: `IndexError` from `check`,
      `ValueError` for an occupied cell, and the `AttributeError` Python
      raises when a slice index reaches `.value` on a tuple. */
  datatype TicError = IndexError | ValueError | AttributeError

  /** One component of an index: an integer or a slice (`:`). */
  datatype Index = At(n: int) | Slice

  /** What `__getitem__` returns: one cell's value, or a row or column of three. */
  datatype Reading = Value(v: int) | Line(values: seq<int>)

  // ---------------------------------------------------------------------
  // The board as values
  // ---------------------------------------------------------------------

  type Grid = seq<seq<int>>

  predicate IsBoard(b: Grid)
  {
    |b| == 3 && forall r :: 0 <= r < 3 ==> |b[r]| == 3
  }

  const EMPTY: Grid := [[0, 0, 0], [0, 0, 0], [0, 0, 0]]

  /** The board with `v` written at row `x`, column `y`. */
  function Put(b: Grid, x: int, y: int, v: int): (r: Grid)
    requires IsBoard(b) && 0 <= x < 3 && 0 <= y < 3
    ensures IsBoard(r)
    ensures forall i, j :: 0 <= i < 3 && 0 <= j < 3 ==> r[i][j] == if (i, j) == (x, y) then v else b[i][j]
  {
    b[x := b[x][y := v]]
  }

  /** `all(item.value == player for item in ...)`. */
  predicate AllAre(line: seq<int>, p: int)
  {
    forall k :: 0 <= k < |line| ==> line[k] == p
  }

  lemma AllAreThree(s: seq<int>, p: int)
    requires |s| == 3
    ensures AllAre(s, p) <==> s[0] == p && s[1] == p && s[2] == p
  {
    if s[0] == p && s[1] == p && s[2] == p {
      forall k | 0 <= k < 3
        ensures s[k] == p
      {
        if k == 0 {} else if k == 1 {} else {}
      }
    }
  }

  /** Two boards that agree cell by cell are equal. */
  lemma GridEq(a: Grid, b: Grid)
    requires IsBoard(a) && IsBoard(b)
    requires forall r, c :: 0 <= r < 3 && 0 <= c < 3 ==> a[r][c] == b[r][c]
    ensures a == b
  {
    forall r | 0 <= r < 3
      ensures a[r] == b[r]
    {
      assert forall c :: 0 <= c < 3 ==> a[r][c] == b[r][c];
    }
  }

  /** `(row[i].value for row in self.pole)`. */
  function Column(b: Grid, i: int): seq<int>
    requires IsBoard(b) && 0 <= i < 3
  {
    [b[0][i], b[1][i], b[2][i]]
  }

  /** `self.pole[i][i]` for `i` in `range(3)`. */
  function Diagonal(b: Grid): seq<int>
    requires IsBoard(b)
  {
    [b[0][0], b[1][1], b[2][2]]
  }

  /** The first loop of `winner_check`, from row `r` on. */
  predicate RowsFrom(b: Grid, p: int, r: nat)
    requires IsBoard(b) && r <= 3
    decreases 3 - r
  {
    r < 3 && (AllAre(b[r], p) || RowsFrom(b, p, r + 1))
  }

  /** The second loop of `winner_check`, from column `i` on. */
  predicate ColumnsFrom(b: Grid, p: int, i: nat)
    requires IsBoard(b) && i <= 3
    decreases 3 - i
  {
    i < 3 && (AllAre(Column(b, i), p) || ColumnsFrom(b, p, i + 1))
  }

  /** `winner_check(player)`: the rows, then the columns, then the main
      diagonal.  The anti-diagonal is never looked at. */
  predicate WinnerCheck(b: Grid, p: int)
    requires IsBoard(b)
  {
    RowsFrom(b, p, 0) || ColumnsFrom(b, p, 0) || AllAre(Diagonal(b), p)
  }

  /** Row `r` and column `c` as lists of (row, column) cells. */
  function RowLine(r: int): seq<(int, int)>
  {
    [(r, 0), (r, 1), (r, 2)]
  }

  function ColumnLine(c: int): seq<(int, int)>
  {
    [(0, c), (1, c), (2, c)]
  }

  const MAIN_DIAGONAL: seq<(int, int)> := [(0, 0), (1, 1), (2, 2)]
  const ANTI_DIAGONAL: seq<(int, int)> := [(0, 2), (1, 1), (2, 0)]

  /** The seven lines `winner_check` inspects. */
  const LINES: seq<seq<(int, int)>> := [
    RowLine(0), RowLine(1), RowLine(2), ColumnLine(0), ColumnLine(1), ColumnLine(2), MAIN_DIAGONAL]

  /** Every cell of `line` is on the board and holds `p`. */
  predicate Fills(b: Grid, line: seq<(int, int)>, p: int)
    requires IsBoard(b)
  {
    forall k :: 0 <= k < |line| ==>
      0 <= line[k].0 < 3 && 0 <= line[k].1 < 3 && b[line[k].0][line[k].1] == p
  }

  /** Each of the seven lines is three cells of the board. */
  lemma LinesOnBoard()
    ensures forall k :: 0 <= k < |LINES| ==>
      |LINES[k]| == 3 && forall j :: 0 <= j < 3 ==> 0 <= LINES[k][j].0 < 3 && 0 <= LINES[k][j].1 < 3
  {
    forall k | 0 <= k < |LINES|
      ensures |LINES[k]| == 3
      ensures forall j :: 0 <= j < 3 ==> 0 <= LINES[k][j].0 < 3 && 0 <= LINES[k][j].1 < 3
    {
      if k < 3 {
        assert LINES[k] == RowLine(k);
      } else if k < 6 {
        assert LINES[k] == ColumnLine(k - 3);
      } else {
        assert LINES[k] == MAIN_DIAGONAL;
      }
    }
  }

  lemma FillsThree(b: Grid, line: seq<(int, int)>, p: int)
    requires IsBoard(b) && |line| == 3
    requires forall j :: 0 <= j < 3 ==> 0 <= line[j].0 < 3 && 0 <= line[j].1 < 3
    ensures Fills(b, line, p) <==>
      b[line[0].0][line[0].1] == p && b[line[1].0][line[1].1] == p && b[line[2].0][line[2].1] == p
  {
  }

  /** The row loop of `winner_check` finds a row exactly when `p` fills one. */
  lemma RowsFromIff(b: Grid, p: int)
    requires IsBoard(b)
    ensures RowsFrom(b, p, 0) <==> Fills(b, RowLine(0), p) || Fills(b, RowLine(1), p) || Fills(b, RowLine(2), p)
  {
    assert !RowsFrom(b, p, 3);
    forall k | 0 <= k < 3
      ensures AllAre(b[k], p) <==> Fills(b, RowLine(k), p)
    {
      FillsThree(b, RowLine(k), p);
      AllAreThree(b[k], p);
    }
  }

  /** The column loop of `winner_check` finds a column exactly when `p` fills one. */
  lemma ColumnsFromIff(b: Grid, p: int)
    requires IsBoard(b)
    ensures ColumnsFrom(b, p, 0) <==>
      Fills(b, ColumnLine(0), p) || Fills(b, ColumnLine(1), p) || Fills(b, ColumnLine(2), p)
  {
    assert !ColumnsFrom(b, p, 3);
    forall k | 0 <= k < 3
      ensures AllAre(Column(b, k), p) <==> Fills(b, ColumnLine(k), p)
    {
      FillsThree(b, ColumnLine(k), p);
      AllAreThree(Column(b, k), p);
    }
  }

  /** `winner_check` holds exactly when `p` fills one of the seven lines. */
  lemma WinnerCheckIffLine(b: Grid, p: int)
    requires IsBoard(b)
    ensures WinnerCheck(b, p) <==> exists k :: 0 <= k < |LINES| && Fills(b, LINES[k], p)
  {
    RowsFromIff(b, p);
    ColumnsFromIff(b, p);
    FillsThree(b, MAIN_DIAGONAL, p);
    AllAreThree(Diagonal(b), p);
    if exists k :: 0 <= k < |LINES| && Fills(b, LINES[k], p) {
      var k :| 0 <= k < |LINES| && Fills(b, LINES[k], p);
      if k < 3 {
        assert LINES[k] == RowLine(k);
      } else if k < 6 {
        assert LINES[k] == ColumnLine(k - 3);
      }
    }
    if WinnerCheck(b, p) {
      var k := if Fills(b, RowLine(0), p) then 0 else if Fills(b, RowLine(1), p) then 1
        else if Fills(b, RowLine(2), p) then 2 else if Fills(b, ColumnLine(0), p) then 3
        else if Fills(b, ColumnLine(1), p) then 4 else if Fills(b, ColumnLine(2), p) then 5 else 6;
      assert Fills(b, LINES[k], p);
    }
  }

  /** A board whose anti-diagonal is all crosses, and nothing else is
      filled, is not a win for crosses. */
  lemma AntiDiagonalIsNoWin()
    ensures var b := [[0, 0, 1], [0, 1, 0], [1, 0, 0]];
      IsBoard(b) && Fills(b, ANTI_DIAGONAL, HUMAN_X) && !WinnerCheck(b, HUMAN_X)
  {
    var b := [[0, 0, 1], [0, 1, 0], [1, 0, 0]];
    WinnerCheckIffLine(b, HUMAN_X);
    LinesOnBoard();
    forall k | 0 <= k < |LINES|
      ensures !Fills(b, LINES[k], HUMAN_X)
    {
      FillsThree(b, LINES[k], HUMAN_X);
      if k < 3 {
        assert LINES[k] == RowLine(k);
      } else if k < 6 {
        assert LINES[k] == ColumnLine(k - 3);
      } else {
        assert LINES[k] == MAIN_DIAGONAL;
      }
    }
    FillsThree(b, ANTI_DIAGONAL, HUMAN_X);
  }

  /** `all(self.pole[x][y].value for x ... for y ...)`: no cell is zero. */
  predicate Full(b: Grid)
    requires IsBoard(b)
  {
    forall r, c :: 0 <= r < 3 && 0 <= c < 3 ==> b[r][c] != FREE_CELL
  }

  /** Writing `v` into a free cell completes lines of `v` at most: a line of
      another non-zero mark is neither made nor broken, and a line of `v`
      already there stays. */
  lemma WriteFreeCell(b: Grid, x: int, y: int, v: int, p: int)
    requires IsBoard(b) && 0 <= x < 3 && 0 <= y < 3 && b[x][y] == FREE_CELL && p != FREE_CELL
    ensures v != p ==> (WinnerCheck(Put(b, x, y, v), p) <==> WinnerCheck(b, p))
    ensures WinnerCheck(b, p) ==> WinnerCheck(Put(b, x, y, v), p)
    ensures !Full(b)
  {
    var b' := Put(b, x, y, v);
    WinnerCheckIffLine(b, p);
    WinnerCheckIffLine(b', p);
    LinesOnBoard();
    forall k | 0 <= k < |LINES|
      ensures Fills(b, LINES[k], p) ==> Fills(b', LINES[k], p)
      ensures v != p ==> (Fills(b', LINES[k], p) ==> Fills(b, LINES[k], p))
    {
      FillsThree(b, LINES[k], p);
      FillsThree(b', LINES[k], p);
    }
  }

  /** The flags say what the board shows: a win flag is up exactly when
      that mark fills a checked line, and the draw flag exactly when the
      board is full and neither has won. */
  predicate Agree(b: Grid, humanWin: bool, computerWin: bool, draw: bool)
    requires IsBoard(b)
  {
    && humanWin == WinnerCheck(b, HUMAN_X)
    && computerWin == WinnerCheck(b, COMPUTER_O)
    && draw == (Full(b) && !humanWin && !computerWin)
  }

  /** The flag updates of `__setitem__` after writing `v` into a free cell
      keep the flags in agreement with the board. */
  lemma WriteKeepsAgreement(b: Grid, x: int, y: int, v: int, humanWin: bool, computerWin: bool, draw: bool)
    requires IsBoard(b) && 0 <= x < 3 && 0 <= y < 3 && b[x][y] == FREE_CELL
    requires Agree(b, humanWin, computerWin, draw)
    ensures var b' := Put(b, x, y, v);
      var hw := humanWin || (v == HUMAN_X && WinnerCheck(b', HUMAN_X));
      var cw := computerWin || (v == COMPUTER_O && WinnerCheck(b', COMPUTER_O));
      Agree(b', hw, cw, draw || (Full(b') && !hw && !cw))
  {
    WriteFreeCell(b, x, y, v, HUMAN_X);
    WriteFreeCell(b, x, y, v, COMPUTER_O);
  }

  /** The empty board is no win for anybody and is not full. */
  lemma EmptyBoard(p: int)
    requires p != FREE_CELL
    ensures IsBoard(EMPTY) && !WinnerCheck(EMPTY, p) && !Full(EMPTY)
  {
    WinnerCheckIffLine(EMPTY, p);
    LinesOnBoard();
    forall k | 0 <= k < |LINES|
      ensures !Fills(EMPTY, LINES[k], p)
    {
      FillsThree(EMPTY, LINES[k], p);
    }
    assert EMPTY[0][0] == FREE_CELL;
  }

  /** On the empty board every flag is down, as `init` leaves them. */
  lemma EmptyAgrees()
    ensures IsBoard(EMPTY) && Agree(EMPTY, false, false, false)
  {
    EmptyBoard(HUMAN_X);
    EmptyBoard(COMPUTER_O);
  }

  /** `check(idx)`: every integer component lies in 0..2; slices pass. */
  predicate Check(idx: (Index, Index))
  {
    (idx.0.Slice? || 0 <= idx.0.n <= 2) && (idx.1.Slice? || 0 <= idx.1.n <= 2)
  }

  // ---------------------------------------------------------------------
  // Cells and the board object
  // ---------------------------------------------------------------------

  class Cell {
    var value: int

    constructor ()
      ensures value == FREE_CELL
    {
      value := FREE_CELL;
    }

    /** `Cell.__bool__`: a cell is truthy while it is free. */
    predicate IsFree()
      reads this
    {
      value == 0
    }
  }

  /** Three rows of three cells, no cell in two places. */
  predicate IsPole(pole: seq<seq<Cell>>)
  {
    && |pole| == 3 && (forall r :: 0 <= r < 3 ==> |pole[r]| == 3)
    && forall r, c, r', c' :: 0 <= r < 3 && 0 <= c < 3 && 0 <= r' < 3 && 0 <= c' < 3 && (r, c) != (r', c') ==>
         pole[r][c] != pole[r'][c']
  }

  /** `tuple(tuple(Cell() for _ in range(3)) for i in range(3))`. */
  method NewPole() returns (pole: seq<seq<Cell>>)
    ensures IsPole(pole)
    ensures forall r, c :: 0 <= r < 3 && 0 <= c < 3 ==> fresh(pole[r][c]) && pole[r][c].value == FREE_CELL
  {
    var r0 := NewRow();
    var r1 := NewRow();
    var r2 := NewRow();
    pole := [r0, r1, r2];
    forall r, c, r', c' | 0 <= r < 3 && 0 <= c < 3 && 0 <= r' < 3 && 0 <= c' < 3 && (r, c) != (r', c')
      ensures pole[r][c] != pole[r'][c']
    {
      if r == r' {
        assert pole[r] == r0 || pole[r] == r1 || pole[r] == r2;
      }
    }
  }

  /** Three fresh free cells: one row of `tuple(Cell() for _ in range(3))`. */
  method NewRow() returns (row: seq<Cell>)
    ensures |row| == 3 && row[0] != row[1] && row[0] != row[2] && row[1] != row[2]
    ensures forall c :: 0 <= c < 3 ==> fresh(row[c]) && row[c].value == FREE_CELL
  {
    var a := new Cell();
    var b := new Cell();
    var c := new Cell();
    row := [a, b, c];
  }

  class TicTacToe {
    var pole: seq<seq<Cell>>
    var isHumanWin: bool
    var isComputerWin: bool
    var isDraw: bool

    /** Three rows of three cells, no cell shared between two places. */
    ghost predicate Valid()
      reads this`pole
    {
      IsPole(pole)
    }

    /** The cell values, row by row. */
    function Board(): (b: Grid)
      reads this`pole, pole[0], pole[1], pole[2]
      requires Valid()
      ensures IsBoard(b) && forall r, c :: 0 <= r < 3 && 0 <= c < 3 ==> b[r][c] == pole[r][c].value
    {
      [[pole[0][0].value, pole[0][1].value, pole[0][2].value],
       [pole[1][0].value, pole[1][1].value, pole[1][2].value],
       [pole[2][0].value, pole[2][1].value, pole[2][2].value]]
    }

    /** The flags say what the board shows: a win flag is up exactly when
        that mark fills a checked line, and the draw flag exactly when the
        board is full and neither has won. */
    ghost predicate FlagsAgree()
      reads this, pole[0], pole[1], pole[2]
      requires Valid()
    {
      Agree(Board(), isHumanWin, isComputerWin, isDraw)
    }

    /** `TicTacToe()`: nine free cells and every flag down. */
    constructor ()
      ensures Valid() && Board() == EMPTY
      ensures !isHumanWin && !isComputerWin && !isDraw
      ensures FlagsAgree()
    {
      var cells := NewPole();
      pole := cells;
      isHumanWin, isComputerWin, isDraw := false, false, false;
      EmptyAgrees();
    }

    /** `clear`: a new board of free cells; the flags are left as they are. */
    method Clear()
      modifies this
      ensures Valid() && Board() == EMPTY
      ensures forall r, c :: 0 <= r < 3 && 0 <= c < 3 ==> fresh(pole[r][c])
      ensures isHumanWin == old(isHumanWin) && isComputerWin == old(isComputerWin) && isDraw == old(isDraw)
    {
      pole := NewPole();
    }

    /** `init`: `clear`, then every flag down; the game can go on. */
    method Init()
      modifies this
      ensures Valid() && Board() == EMPTY
      ensures !isHumanWin && !isComputerWin && !isDraw
      ensures FlagsAgree() && Continues()
    {
      Clear();
      isHumanWin := false;
      isComputerWin := false;
      isDraw := false;
      EmptyAgrees();
    }

    /** `__getitem__(idx)`: a cell's value for two integers, column `y` for
        `[:, y]`, row `x` for `[x, :]`. */
    function GetItem(idx: (Index, Index)): (r: Result<Reading, TicError>)
      reads this, pole[0], pole[1], pole[2]
      requires Valid()
      ensures r == Err(IndexError) <==> !Check(idx)
      ensures Check(idx) && idx.0.At? && idx.1.At? ==> r == Ok(Value(Board()[idx.0.n][idx.1.n]))
      ensures Check(idx) && idx.0.Slice? && idx.1.At? ==> r == Ok(Line(Column(Board(), idx.1.n)))
      ensures Check(idx) && idx.0.At? && idx.1.Slice? ==> r == Ok(Line(Board()[idx.0.n]))
      ensures Check(idx) && idx.0.Slice? && idx.1.Slice? ==> r == Err(AttributeError)
    {
      if !Check(idx) then Err(IndexError)
      else match idx
        case (Slice, At(y)) => Ok(Line([pole[0][y].value, pole[1][y].value, pole[2][y].value]))
        case (At(x), Slice) => Ok(Line([pole[x][0].value, pole[x][1].value, pole[x][2].value]))
        case (At(x), At(y)) => Ok(Value(pole[x][y].value))
        case (Slice, Slice) => Err(AttributeError)
    }

    /** `__setitem__(idx, value)`.  A bad index, a slice, or an occupied
        cell raises before anything changes.  Otherwise the value goes into
        the cell, a cross or nought that completes a checked line raises its
        player's flag, and `is_draw_check` runs. */
    method SetItem(idx: (Index, Index), value: int) returns (err: Option<TicError>)
      requires Valid()
      modifies this`isHumanWin, this`isComputerWin, this`isDraw, pole[0], pole[1], pole[2]
      ensures err == Some(IndexError) <==> !Check(idx)
      ensures err == Some(AttributeError) <==> Check(idx) && (idx.0.Slice? || idx.1.Slice?)
      ensures err == Some(ValueError) <==>
        Check(idx) && idx.0.At? && idx.1.At? && old(Board())[idx.0.n][idx.1.n] != FREE_CELL
      ensures err.Some? ==>
        && Board() == old(Board())
        && isHumanWin == old(isHumanWin) && isComputerWin == old(isComputerWin) && isDraw == old(isDraw)
      ensures err.None? ==>
        && Board() == Put(old(Board()), idx.0.n, idx.1.n, value)
        && isHumanWin == (old(isHumanWin) || (value == HUMAN_X && WinnerCheck(Board(), HUMAN_X)))
        && isComputerWin == (old(isComputerWin) || (value == COMPUTER_O && WinnerCheck(Board(), COMPUTER_O)))
        && isDraw == (old(isDraw) || (Full(Board()) && !isHumanWin && !isComputerWin))
      ensures old(FlagsAgree()) ==> FlagsAgree()
    {
      if !Check(idx) {
        return Some(IndexError);
      }
      if idx.0.Slice? || idx.1.Slice? {
        return Some(AttributeError);
      }
      var x, y := idx.0.n, idx.1.n;
      if !pole[x][y].IsFree() {
        return Some(ValueError);
      }
      ghost var before := Board();
      WriteCell(x, y, value);
      ghost var after := Board();
      if value == HUMAN_X && WinnerCheck(Board(), value) {
        isHumanWin := true;
      }
      if value == COMPUTER_O && WinnerCheck(Board(), value) {
        isComputerWin := true;
      }
      assert Board() == after;
      IsDrawCheck();
      assert Board() == after;
      if old(FlagsAgree()) {
        WriteKeepsAgreement(before, x, y, value, old(isHumanWin), old(isComputerWin), old(isDraw));
      }
      err := None;
    }

    /** `self.pole[x][y].value = value`: one cell changes, the others keep their values. */
    method WriteCell(x: int, y: int, value: int)
      requires Valid() && 0 <= x < 3 && 0 <= y < 3
      modifies pole[x][y]
      ensures Board() == Put(old(Board()), x, y, value)
    {
      ghost var before := Board();
      pole[x][y].value := value;
      GridEq(Board(), Put(before, x, y, value));
    }

    /** `is_draw_check`: raise the draw flag when every cell is taken and
        neither player has won; the flag is never lowered here. */
    method IsDrawCheck()
      requires Valid()
      modifies this`isDraw
      ensures isDraw == (old(isDraw) || (Full(Board()) && !isHumanWin && !isComputerWin))
    {
      var full := true;
      for x := 0 to 3
        invariant full <==> forall r, c :: 0 <= r < x && 0 <= c < 3 ==> pole[r][c].value != FREE_CELL
      {
        for y := 0 to 3
          invariant full <==> (forall r, c :: 0 <= r < x && 0 <= c < 3 ==> pole[r][c].value != FREE_CELL)
                              && forall c :: 0 <= c < y ==> pole[x][c].value != FREE_CELL
        {
          if pole[x][y].value == FREE_CELL {
            full := false;
          }
        }
      }
      if full && !isHumanWin && !isComputerWin {
        isDraw := true;
      }
    }

    /** `__bool__`: the game goes on while no flag is up. */
    predicate Continues()
      reads this
    {
      !(isHumanWin || isComputerWin || isDraw)
    }
  }
}
