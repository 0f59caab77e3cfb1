/**
  The circuit board as the program keeps it: a rectangular char array that
  tracing updates in place, the declared dimensions and the two terminals.
  Every operation is proved against the value model in module Boards.
*/
module CircuitBoards {
  import opened Wrappers
  import opened Boards

  /** The contents of a char array, row by row. */
  function Cells(a: array2<char>): (g: seq<seq<char>>)
    reads a
    ensures |g| == a.Length0 && IsGrid(g, a.Length1)
    ensures forall i, j | 0 <= i < a.Length0 && 0 <= j < a.Length1 :: g[i][j] == a[i, j]
  {
    seq(a.Length0, i requires 0 <= i < a.Length0 reads a =>
      seq(a.Length1, j requires 0 <= j < a.Length1 reads a => a[i, j]))
  }

  /** A grid filled row by row from the stripped lines holds exactly those rows. */
  lemma GridIsStripped(grid: array2<char>, lines: seq<string>)
    requires |lines| == grid.Length0
    requires forall a | 0 <= a < grid.Length0 :: |Strip(lines[a])| == grid.Length1
    requires forall a, b | 0 <= a < grid.Length0 && 0 <= b < grid.Length1 :: grid[a, b] == Strip(lines[a])[b]
    ensures Cells(grid) == StrippedRows(lines)
  {
    forall a | 0 <= a < grid.Length0
      ensures Cells(grid)[a] == StrippedRows(lines)[a]
    {
    }
  }

  class CircuitBoard {
    const Rows: int
    const Cols: int
    const board: array2<char>
    const startingPoint: Point
    const endingPoint: Point

    /** The dimensions match the array and the contents form a valid board. */
    ghost predicate Valid()
      reads board
    {
      board.Length0 == Rows && board.Length1 == Cols && Value().Valid()
    }

    /** The board's current contents as a value. */
    function Value(): Board
      reads board
    {
      Board(Cells(board), startingPoint, endingPoint)
    }

    /**
      The last step of Load: wraps a grid that has passed validation.  It
      has no counterpart of its own in the file constructor.
    */
    constructor FromGrid(grid: array2<char>, start: Point, end: Point)
      requires Board(Cells(grid), start, end).Valid()
      ensures Valid()
      ensures board == grid && Rows == grid.Length0 && Cols == grid.Length1
      ensures startingPoint == start && endingPoint == end
    {
      board := grid;
      Rows := grid.Length0;
      Cols := grid.Length1;
      startingPoint := start;
      endingPoint := end;
    }

    /**
      The file constructor, given the declared dimensions and the lines that
      follow the header: it fills the grid row by row, rejecting the file
      exactly when Parse does, with the same error, and otherwise yields a
      fresh valid board whose contents are Parse's.
    */
    static method Load(rows: int, cols: int, lines: seq<string>) returns (r: Result<CircuitBoard, FormatError>)
      ensures Parse(rows, cols, lines).Failure? ==> r == Failure(Parse(rows, cols, lines).error)
      ensures Parse(rows, cols, lines).Success? ==>
                && r.Success? && fresh(r.value) && fresh(r.value.board)
                && r.value.Valid() && r.value.Rows == rows && r.value.Cols == cols
                && r.value.Value() == Parse(rows, cols, lines).value
    {
      if rows < 0 || cols < 0 {
        return Failure(NegativeDimension);
      }
      var grid := new char[rows, cols];
      var foundStart: Option<Point> := None;
      var foundEnd: Option<Point> := None;
      var i := 0;
      while i < rows
        invariant 0 <= i <= rows && i <= |lines|
        invariant ScanRows(rows, cols, lines, i, foundStart, foundEnd) == ScanRows(rows, cols, lines, 0, None, None)
        invariant forall a | 0 <= a < i :: |Strip(lines[a])| == cols
        invariant forall a, b | 0 <= a < i && 0 <= b < cols :: grid[a, b] == Strip(lines[a])[b]
      {
        if |lines| <= i {
          return Failure(MissingRow(i));
        }
        var tokens := Strip(lines[i]);
        if |tokens| != cols {
          return Failure(RowLengthMismatch(i));
        }
        if i == rows - 1 && |lines| > rows {
          return Failure(ExtraLines);
        }
        ghost var s0, e0 := foundStart, foundEnd;
        var j := 0;
        while j < cols
          invariant 0 <= j <= cols
          invariant ScanRow(tokens, i, j, foundStart, foundEnd) == ScanRow(tokens, i, 0, s0, e0)
          invariant forall a, b | 0 <= a < i && 0 <= b < cols :: grid[a, b] == Strip(lines[a])[b]
          invariant forall b | 0 <= b < j :: grid[i, b] == tokens[b]
        {
          var ch := tokens[j];
          if Accepted(ch) {
            grid[i, j] := ch;
          } else {
            return Failure(DisallowedChar(i, j, ch));
          }
          if ch == START {
            if foundStart.None? {
              foundStart := Some(Point(i, j));
            } else {
              return Failure(DuplicateStart(i, j));
            }
          } else if ch == END {
            if foundEnd.None? {
              foundEnd := Some(Point(i, j));
            } else {
              return Failure(DuplicateEnd(i, j));
            }
          }
          j := j + 1;
        }
        i := i + 1;
      }
      if foundStart.None? || foundEnd.None? {
        return Failure(MissingTerminal);
      }
      ParseSound(rows, cols, lines);
      GridIsStripped(grid, lines);
      var b := new CircuitBoard.FromGrid(grid, foundStart.value, foundEnd.value);
      r := Success(b);
    }

    /** The copy constructor: same dimensions, cells and terminals, in a fresh array. */
    constructor Copy(original: CircuitBoard)
      requires original.Valid()
      ensures Valid() && fresh(board)
      ensures Rows == original.Rows && Cols == original.Cols
      ensures Value() == original.Value()
    {
      var copy := original.GetBoard();
      board := copy;
      startingPoint := original.startingPoint;
      endingPoint := original.endingPoint;
      Rows := original.Rows;
      Cols := original.Cols;
    }

    /** A cell-by-cell copy of the grid, sized by its first row. */
    method GetBoard() returns (copy: array2<char>)
      requires board.Length0 > 0
      ensures fresh(copy) && Cells(copy) == Cells(board)
    {
      copy := new char[board.Length0, board.Length1];
      var row := 0;
      while row < board.Length0
        invariant 0 <= row <= board.Length0
        invariant forall i, j | 0 <= i < row && 0 <= j < board.Length1 :: copy[i, j] == board[i, j]
      {
        var col := 0;
        while col < board.Length1
          invariant 0 <= col <= board.Length1
          invariant forall i, j | 0 <= i < row && 0 <= j < board.Length1 :: copy[i, j] == board[i, j]
          invariant forall j | 0 <= j < col :: copy[row, j] == board[row, j]
        {
          copy[row, col] := board[row, col];
          col := col + 1;
        }
        row := row + 1;
      }
      forall i | 0 <= i < board.Length0
        ensures Cells(copy)[i] == Cells(board)[i]
      {
      }
    }

    /** The symbol at (row, col); an index outside the grid raises IndexOutOfBounds. */
    function CharAt(row: int, col: int): (r: Result<char, BoardError>)
      reads board
      ensures r.Success? <==> Value().InRange(row, col)
      ensures r.Success? ==> r.value == Value().cells[row][col]
      ensures r.Failure? ==> r.error == IndexOutOfBounds(row, col)
    {
      if 0 <= row < board.Length0 && 0 <= col < board.Length1 then Success(board[row, col])
      else Failure(IndexOutOfBounds(row, col))
    }

    /** Whether (row, col) is on the board and open; never fails. */
    predicate IsOpen(row: int, col: int)
      reads board
      ensures IsOpen(row, col) <==> Value().IsOpen(row, col)
    {
      if row < 0 || row >= board.Length0 || col < 0 || col >= board.Length1 then false
      else board[row, col] == OPEN
    }

    /**
      Marks an open cell 'T' in place.  On any other cell it raises an
      exception and changes nothing: OccupiedPosition for a cell on the
      board, IndexOutOfBounds off it (the exception message reads the cell).
    */
    method MakeTrace(row: int, col: int) returns (res: Outcome<BoardError>)
      modifies board
      ensures res.Pass? <==> old(Value()).IsOpen(row, col)
      ensures res.Pass? ==> Value() == old(Value()).Traced(row, col)
      ensures res.Pass? ==> board[row, col] == TRACE && !IsOpen(row, col)
      ensures res.Pass? ==> forall i, j | 0 <= i < board.Length0 && 0 <= j < board.Length1 && (i, j) != (row, col) ::
                              board[i, j] == old(board[i, j])
      ensures res.Fail? ==> unchanged(board)
      ensures res.Fail? ==> res.error == if old(Value()).InRange(row, col)
                                         then OccupiedPosition(row, col, old(board[row, col]))
                                         else IndexOutOfBounds(row, col)
      ensures old(Valid()) ==> Valid()
    {
      if IsOpen(row, col) {
        ghost var before := Value();
        board[row, col] := TRACE;
        ghost var after := before.Traced(row, col);
        forall i | 0 <= i < board.Length0
          ensures Value().cells[i] == after.cells[i]
        {
        }
        assert Value().cells == after.cells;
        if before.Valid() {
          TracedValid(before, row, col);
        }
        res := Pass;
      } else if 0 <= row < board.Length0 && 0 <= col < board.Length1 {
        res := Fail(OccupiedPosition(row, col, board[row, col]));
      } else {
        res := Fail(IndexOutOfBounds(row, col));
      }
    }

    /** The start terminal: a cell on the board holding '1' (the only one, by TerminalsUnique). */
    function GetStartingPoint(): (p: Point)
      requires Valid()
      reads board
      ensures 0 <= p.row < Rows && 0 <= p.col < Cols && board[p.row, p.col] == START
    {
      startingPoint
    }

    /** The end terminal: a cell on the board holding '2' (the only one, by TerminalsUnique). */
    function GetEndingPoint(): (p: Point)
      requires Valid()
      reads board
      ensures 0 <= p.row < Rows && 0 <= p.col < Cols && board[p.row, p.col] == END
    {
      endingPoint
    }

    /** The declared number of rows; on a valid board, the grid's. */
    function NumRows(): (r: int)
      reads board
      ensures Valid() ==> r == board.Length0 == |Value().cells| && r > 0
    {
      Rows
    }

    /** The declared number of columns; on a valid board, every row's length. */
    function NumCols(): (r: int)
      reads board
      ensures Valid() ==> r == board.Length1 && IsGrid(Value().cells, r)
    {
      Cols
    }

    /** The grid as text: each cell followed by a space, each row by a newline. */
    method ToString() returns (s: string)
      ensures s == Render(Value().cells)
      ensures |s| == RowStart(board.Length0, board.Length1)
    {
      ghost var g := Cells(board);
      s := "";
      var row := 0;
      while row < board.Length0
        invariant 0 <= row <= board.Length0
        invariant s == Render(g[..row])
      {
        var col := 0;
        while col < board.Length1
          invariant 0 <= col <= board.Length1
          invariant s == Render(g[..row]) + RenderRow(g[row][..col])
        {
          assert g[row][..col + 1][..col] == g[row][..col];
          s := s + [board[row, col], ' '];
          col := col + 1;
        }
        assert g[row][..col] == g[row];
        assert g[..row + 1][..row] == g[..row];
        s := s + "\n";
        row := row + 1;
      }
      assert g[..row] == g;
      RenderLength(g, board.Length1);
    }
  }

  /**
    Tracing a copy never touches the original: the copy holds the original's
    contents with the one cell traced, and the original is unchanged.
  */
  method TraceCopy(original: CircuitBoard, row: int, col: int) returns (copy: CircuitBoard)
    requires original.Valid() && original.IsOpen(row, col)
    ensures copy.Valid() && copy.Value() == original.Value().Traced(row, col)
    ensures copy.board != original.board
  {
    copy := new CircuitBoard.Copy(original);
    var res := copy.MakeTrace(row, col);
  }
}
