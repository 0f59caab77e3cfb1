/**
  The value model of a circuit board: a grid of cell symbols with the two
  terminal positions, the openness query, the trace mark, the textual
  rendering, and the validation the file constructor performs on the rows
  it reads.  The class in circuit_board.dfy is proved against these
  definitions, and the tracer keeps board snapshots as values of this type.
*/
module Boards {
  import opened Wrappers

  const OPEN: char := 'O'
  const CLOSED: char := 'X'
  const TRACE: char := 'T'
  const START: char := '1'
  const END: char := '2'

  /** A (row, column) position; the row is java.awt.Point's x, the column its y. */
  datatype Point = Point(row: int, col: int)

  /** The exceptions that reading or tracing a cell can raise. */
  datatype BoardError =
    | OccupiedPosition(row: int, col: int, found: char)
    | IndexOutOfBounds(row: int, col: int)

  /** Every grid row has `cols` cells. */
  predicate IsGrid(cells: seq<seq<char>>, cols: nat) {
    forall i | 0 <= i < |cells| :: |cells[i]| == cols
  }

  /** What a cell of a valid board may hold at (i, j). */
  predicate Legal(b: Board, ch: char, i: int, j: int) {
    ch == OPEN || ch == CLOSED || ch == TRACE
    || (ch == START && Point(i, j) == b.start)
    || (ch == END && Point(i, j) == b.end)
  }

  datatype Board = Board(cells: seq<seq<char>>, start: Point, end: Point)
  {
    predicate InRange(row: int, col: int) {
      0 <= row < |cells| && 0 <= col < |cells[row]|
    }

    /** Bounds-checked: false off the board, otherwise whether the cell is 'O'. */
    predicate IsOpen(row: int, col: int) {
      InRange(row, col) && cells[row][col] == OPEN
    }

    /**
      The board invariant: a non-empty rectangle, the start cell holds '1',
      the end cell holds '2', and every other cell holds 'O', 'X' or 'T'.
    */
    predicate Valid() {
      && |cells| > 0
      && IsGrid(cells, |cells[0]|)
      && InRange(start.row, start.col) && cells[start.row][start.col] == START
      && InRange(end.row, end.col) && cells[end.row][end.col] == END
      && forall i, j | 0 <= i < |cells| && 0 <= j < |cells[i]| :: Legal(this, cells[i][j], i, j)
    }

    /** The board with the open cell (row, col) marked 'T'. */
    function Traced(row: int, col: int): (b: Board)
      requires IsOpen(row, col)
      ensures b.start == start && b.end == end && |b.cells| == |cells|
      ensures forall i | 0 <= i < |cells| :: |b.cells[i]| == |cells[i]|
      ensures forall i, j | 0 <= i < |cells| && 0 <= j < |cells[i]| ::
                b.cells[i][j] == if i == row && j == col then TRACE else cells[i][j]
    {
      Board(cells[row := cells[row][col := TRACE]], start, end)
    }
  }

  /** A valid board holds exactly one '1' and one '2': at its terminals. */
  lemma TerminalsUnique(b: Board)
    requires b.Valid()
    ensures forall i, j | b.InRange(i, j) && b.cells[i][j] == START :: Point(i, j) == b.start
    ensures forall i, j | b.InRange(i, j) && b.cells[i][j] == END :: Point(i, j) == b.end
  {
    forall i, j | b.InRange(i, j)
      ensures Legal(b, b.cells[i][j], i, j)
    {
    }
  }

  /** Tracing keeps a board valid, and the traced cell is no longer open. */
  lemma TracedValid(b: Board, row: int, col: int)
    requires b.Valid() && b.IsOpen(row, col)
    ensures b.Traced(row, col).Valid()
    ensures !b.Traced(row, col).IsOpen(row, col)
    ensures forall i, j | (i, j) != (row, col) :: b.Traced(row, col).IsOpen(i, j) == b.IsOpen(i, j)
  {
    var t := b.Traced(row, col);
    assert t.cells[b.start.row][b.start.col] == START;
    assert t.cells[b.end.row][b.end.col] == END;
    forall i, j | 0 <= i < |t.cells| && 0 <= j < |t.cells[i]|
      ensures Legal(t, t.cells[i][j], i, j)
    {
      if i != row || j != col {
        assert Legal(b, b.cells[i][j], i, j);
      }
    }
  }

  // ---------------------------------------------------------------------
  // Counting open cells (the measure that bounds the search)

  function RowOpenCount(row: seq<char>): nat {
    multiset(row)[OPEN]
  }

  function OpenCount(cells: seq<seq<char>>): nat {
    if cells == [] then 0
    else OpenCount(cells[..|cells| - 1]) + RowOpenCount(cells[|cells| - 1])
  }

  lemma {:induction false} OpenCountUpdate(cells: seq<seq<char>>, i: nat, row: seq<char>)
    requires i < |cells|
    ensures OpenCount(cells[i := row]) + RowOpenCount(cells[i]) == OpenCount(cells) + RowOpenCount(row)
  {
    var n := |cells| - 1;
    var upd := cells[i := row];
    if i == n {
      assert upd[..n] == cells[..n];
    } else {
      assert upd[..n] == cells[..n][i := row];
      OpenCountUpdate(cells[..n], i, row);
    }
  }

  /** Tracing an open cell leaves exactly one open cell fewer. */
  lemma TracedOpenCount(b: Board, row: int, col: int)
    requires b.IsOpen(row, col)
    ensures OpenCount(b.Traced(row, col).cells) + 1 == OpenCount(b.cells)
  {
    var r := b.cells[row];
    var r' := r[col := TRACE];
    assert multiset(r') == multiset(r) - multiset{OPEN} + multiset{TRACE};
    OpenCountUpdate(b.cells, row, r');
  }

  // ---------------------------------------------------------------------
  // Rendering (toString)

  /** Each cell followed by one space. */
  function RenderRow(row: seq<char>): string {
    if row == [] then "" else RenderRow(row[..|row| - 1]) + [row[|row| - 1], ' ']
  }

  /** Each row rendered and followed by a newline. */
  function Render(cells: seq<seq<char>>): string {
    if cells == [] then "" else Render(cells[..|cells| - 1]) + RenderRow(cells[|cells| - 1]) + "\n"
  }

  lemma {:induction false} RenderRowAt(row: seq<char>, j: nat)
    requires j < |row|
    ensures |RenderRow(row)| == 2 * |row|
    ensures RenderRow(row)[2 * j] == row[j] && RenderRow(row)[2 * j + 1] == ' '
  {
    var n := |row| - 1;
    RenderRowLength(row[..n]);
    if j < n {
      RenderRowAt(row[..n], j);
    }
  }

  lemma {:induction false} RenderRowLength(row: seq<char>)
    ensures |RenderRow(row)| == 2 * |row|
  {
    if row != [] {
      RenderRowLength(row[..|row| - 1]);
    }
  }

  /** Where row i of a rendered grid of rows of `cols` cells begins. */
  function RowStart(i: nat, cols: nat): nat {
    i * (2 * cols + 1)
  }

  /** The rendering of a grid of rows of `cols` cells has 2 * cols + 1 characters per row. */
  lemma {:induction false} RenderLength(cells: seq<seq<char>>, cols: nat)
    requires IsGrid(cells, cols)
    ensures |Render(cells)| == RowStart(|cells|, cols)
  {
    if cells != [] {
      var n := |cells| - 1;
      assert IsGrid(cells[..n], cols);
      RenderLength(cells[..n], cols);
      RenderRowLength(cells[n]);
      MulSucc(n, 2 * cols + 1);
    }
  }

  lemma MulSucc(n: nat, w: nat)
    ensures (n + 1) * w == n * w + w
  {
  }

  /** The rendering of the first k rows is a prefix of the rendering of the grid. */
  lemma {:induction false} RenderPrefix(cells: seq<seq<char>>, k: nat)
    requires k <= |cells|
    ensures Render(cells[..k]) <= Render(cells)
    decreases |cells| - k
  {
    if k < |cells| {
      RenderPrefix(cells, k + 1);
      assert cells[..k + 1][..k] == cells[..k];
    } else {
      assert cells[..k] == cells;
    }
  }

  /**
    In the rendering of a grid of rows of `cols` cells, cell (i, j) sits at
    i * (2 * cols + 1) + 2 * j followed by a space, and the row ends with a
    newline: the grid can be read back from its text.
  */
  lemma RenderAt(cells: seq<seq<char>>, cols: nat, i: nat, j: nat)
    requires IsGrid(cells, cols) && i < |cells| && j < cols
    ensures RowStart(i, cols) + 2 * cols < |Render(cells)|
    ensures Render(cells)[RowStart(i, cols) + 2 * j] == cells[i][j]
    ensures Render(cells)[RowStart(i, cols) + 2 * j + 1] == ' '
    ensures Render(cells)[RowStart(i, cols) + 2 * cols] == '\n'
  {
    assert IsGrid(cells[..i], cols);
    RenderLength(cells[..i], cols);
    var off := |Render(cells[..i])|;
    RenderPrefix(cells, i + 1);
    RenderRowAt(cells[i], j);
    assert cells[..i + 1][..i] == cells[..i];
    var row := Render(cells[..i]) + RenderRow(cells[i]) + "\n";
    assert Render(cells[..i + 1]) == row;
    assert row[off + 2 * j] == cells[i][j] && row[off + 2 * j + 1] == ' ' && row[off + 2 * cols] == '\n';
  }

  // ---------------------------------------------------------------------
  // Validating the rows of an input file

  /** The reasons the file constructor rejects its input (all InvalidFileFormatException). */
  datatype FormatError =
    | NegativeDimension          // new char[ROWS][COLS] with a negative size
    | MissingRow(row: nat)       // fewer lines than ROWS
    | RowLengthMismatch(row: nat)
    | ExtraLines                 // a line follows row ROWS
    | DisallowedChar(row: nat, col: nat, ch: char)
    | DuplicateStart(row: nat, col: nat)
    | DuplicateEnd(row: nat, col: nat)
    | MissingTerminal

  /** The terminals found so far while scanning the grid. */
  datatype Terminals = Terminals(start: Option<Point>, end: Option<Point>)

  /** The characters a regular-expression \s matches. */
  predicate IsWhitespace(c: char) {
    c == ' ' || c == '\t' || c == '\n' || c == '\U{0B}' || c == '\U{0C}' || c == '\r'
  }

  /** A line with all whitespace removed. */
  function Strip(line: string): string {
    if line == [] then ""
    else Strip(line[..|line| - 1]) + (if IsWhitespace(line[|line| - 1]) then "" else [line[|line| - 1]])
  }

  /** The input symbols: 'T' is not accepted in a file. */
  predicate Accepted(ch: char) {
    ch == OPEN || ch == CLOSED || ch == START || ch == END
  }

  /** Scans cells j.. of row i, checking each symbol and recording the terminals. */
  function ScanRow(tokens: string, i: nat, j: nat, s: Option<Point>, e: Option<Point>): Result<Terminals, FormatError>
    requires j <= |tokens|
    decreases |tokens| - j
  {
    if j == |tokens| then Success(Terminals(s, e))
    else
      var ch := tokens[j];
      if !Accepted(ch) then Failure(DisallowedChar(i, j, ch))
      else if ch == START && s.Some? then Failure(DuplicateStart(i, j))
      else if ch == END && e.Some? then Failure(DuplicateEnd(i, j))
      else ScanRow(tokens, i, j + 1,
                   if ch == START then Some(Point(i, j)) else s,
                   if ch == END then Some(Point(i, j)) else e)
  }

  /** Reads rows i.. of a rows-by-cols grid from `lines`, in the order the file constructor checks them. */
  function ScanRows(rows: nat, cols: nat, lines: seq<string>, i: nat, s: Option<Point>, e: Option<Point>): (r: Result<Terminals, FormatError>)
    requires i <= rows
    ensures r.Success? ==> r.value.start.Some? && r.value.end.Some?
    decreases rows - i
  {
    if i == rows then
      if s.None? || e.None? then Failure(MissingTerminal) else Success(Terminals(s, e))
    else if |lines| <= i then Failure(MissingRow(i))
    else
      var tokens := Strip(lines[i]);
      if |tokens| != cols then Failure(RowLengthMismatch(i))
      else if i == rows - 1 && |lines| > rows then Failure(ExtraLines)
      else match ScanRow(tokens, i, 0, s, e)
        case Failure(err) => Failure(err)
        case Success(t) => ScanRows(rows, cols, lines, i + 1, t.start, t.end)
  }

  /** The grid the input lines describe. */
  function StrippedRows(lines: seq<string>): (g: seq<seq<char>>)
    ensures |g| == |lines| && forall i | 0 <= i < |lines| :: g[i] == Strip(lines[i])
  {
    seq(|lines|, i requires 0 <= i < |lines| => Strip(lines[i]))
  }

  /** The board a file with header "rows cols" followed by `lines` describes, or why it is rejected. */
  function Parse(rows: int, cols: int, lines: seq<string>): (r: Result<Board, FormatError>)
    ensures rows < 0 || cols < 0 ==> r == Failure(NegativeDimension)
    ensures rows == 0 && cols >= 0 ==> r == Failure(MissingTerminal)
    ensures r.Success? ==> rows > 0 && cols >= 0 && r.value.cells == StrippedRows(lines)
  {
    if rows < 0 || cols < 0 then Failure(NegativeDimension)
    else match ScanRows(rows, cols, lines, 0, None, None)
      case Failure(err) => Failure(err)
      case Success(t) => Success(Board(StrippedRows(lines), t.start.value, t.end.value))
  }

  // ---------------------------------------------------------------------
  // What Parse accepts

  /** p comes before (i, j) in row-major order. */
  predicate Before(p: Point, i: int, j: int) {
    p.row < i || (p.row == i && p.col < j)
  }

  /** `found` is exactly the position of the (only) `ch` among the cells of g before (i, j). */
  ghost predicate Recorded(g: seq<seq<char>>, i: int, j: int, found: Option<Point>, ch: char) {
    && (found.None? ==>
          forall a, b | 0 <= a < |g| && 0 <= b < |g[a]| && Before(Point(a, b), i, j) :: g[a][b] != ch)
    && (found.Some? ==>
          && Before(found.value, i, j)
          && 0 <= found.value.row < |g| && 0 <= found.value.col < |g[found.value.row]|
          && g[found.value.row][found.value.col] == ch
          && forall a, b | 0 <= a < |g| && 0 <= b < |g[a]| && Before(Point(a, b), i, j) && g[a][b] == ch ::
               Point(a, b) == found.value)
  }

  /** Every cell of g before (i, j) is an accepted input symbol. */
  ghost predicate AcceptedBefore(g: seq<seq<char>>, i: int, j: int) {
    forall a, b | 0 <= a < |g| && 0 <= b < |g[a]| && Before(Point(a, b), i, j) :: Accepted(g[a][b])
  }

  /** What the scan knows when it reaches (i, j): the terminals seen so far, and only accepted symbols. */
  ghost predicate ScanInvariant(g: seq<seq<char>>, i: int, j: int, s: Option<Point>, e: Option<Point>) {
    Recorded(g, i, j, s, START) && Recorded(g, i, j, e, END) && AcceptedBefore(g, i, j)
  }

  lemma {:induction false} ScanRowSound(g: seq<seq<char>>, i: nat, j: nat, s: Option<Point>, e: Option<Point>)
    requires i < |g| && j <= |g[i]|
    requires ScanInvariant(g, i, j, s, e)
    ensures ScanRow(g[i], i, j, s, e).Success? ==>
              ScanInvariant(g, i + 1, 0, ScanRow(g[i], i, j, s, e).value.start, ScanRow(g[i], i, j, s, e).value.end)
    decreases |g[i]| - j
  {
    if j == |g[i]| {
      assert forall a, b | 0 <= a < |g| && 0 <= b < |g[a]| :: Before(Point(a, b), i + 1, 0) == Before(Point(a, b), i, j);
    } else {
      var ch := g[i][j];
      if Accepted(ch) && !(ch == START && s.Some?) && !(ch == END && e.Some?) {
        var s' := if ch == START then Some(Point(i, j)) else s;
        var e' := if ch == END then Some(Point(i, j)) else e;
        assert forall a, b | Before(Point(a, b), i, j + 1) :: Before(Point(a, b), i, j) || (a, b) == (i, j);
        ScanRowSound(g, i, j + 1, s', e');
      }
    }
  }

  lemma {:induction false} ScanRowsSound(rows: nat, cols: nat, lines: seq<string>, g: seq<seq<char>>, i: nat, s: Option<Point>, e: Option<Point>)
    requires g == StrippedRows(lines)
    requires i <= rows && i <= |g|
    requires forall a | 0 <= a < i :: |g[a]| == cols
    requires i == rows && rows > 0 ==> |g| == rows
    requires ScanInvariant(g, i, 0, s, e)
    ensures ScanRows(rows, cols, lines, i, s, e).Success? ==>
              && rows > 0 && |g| == rows && IsGrid(g, cols)
              && ScanInvariant(g, rows, 0, ScanRows(rows, cols, lines, i, s, e).value.start,
                                           ScanRows(rows, cols, lines, i, s, e).value.end)
    decreases rows - i
  {
    var r := ScanRows(rows, cols, lines, i, s, e);
    if i == rows {
      if r.Success? {
        assert r == Success(Terminals(s, e));
      }
    } else if i >= |lines| {
      assert r == Failure(MissingRow(i));
    } else {
      var tokens := Strip(lines[i]);
      assert tokens == g[i];
      if |tokens| != cols {
        assert r == Failure(RowLengthMismatch(i));
      } else if i == rows - 1 && |lines| > rows {
        assert r == Failure(ExtraLines);
      } else {
        ScanRowSound(g, i, 0, s, e);
        var sr := ScanRow(tokens, i, 0, s, e);
        if sr.Success? {
          var next := ScanRows(rows, cols, lines, i + 1, sr.value.start, sr.value.end);
          assert r == next;
          ScanRowsSound(rows, cols, lines, g, i + 1, sr.value.start, sr.value.end);
        } else {
          assert r.Failure?;
        }
      }
    }
  }

  /**
    Soundness of validation: an accepted file yields a valid board of exactly
    ROWS rows of COLS cells, those of the stripped input lines, holding only
    'O', 'X', '1' and '2', with the terminals at the '1' and the '2'.
  */
  lemma ParseSound(rows: int, cols: int, lines: seq<string>)
    requires Parse(rows, cols, lines).Success?
    ensures var b := Parse(rows, cols, lines).value;
      && rows > 0 && cols >= 0 && |lines| == rows
      && b.cells == StrippedRows(lines) && IsGrid(b.cells, cols)
      && b.Valid()
      && (forall i, j | 0 <= i < |b.cells| && 0 <= j < |b.cells[i]| :: Accepted(b.cells[i][j]))
  {
    var g := StrippedRows(lines);
    ScanRowsSound(rows, cols, lines, g, 0, None, None);
    var t := ScanRows(rows, cols, lines, 0, None, None).value;
    var b := Parse(rows, cols, lines).value;
    assert b == Board(g, t.start.value, t.end.value);
    forall i, j | 0 <= i < |g| && 0 <= j < |g[i]|
      ensures Legal(b, g[i][j], i, j) && Accepted(g[i][j])
    {
      assert Before(Point(i, j), rows, 0);
    }
  }

  /** The terminal position as the scan has seen it when it reaches (i, j). */
  function Expected(p: Point, i: int, j: int): Option<Point> {
    if Before(p, i, j) then Some(p) else None
  }

  lemma {:induction false} ScanRowComplete(b: Board, i: nat, j: nat)
    requires b.Valid() && i < |b.cells| && j <= |b.cells[i]|
    requires forall a, c | 0 <= a < |b.cells| && 0 <= c < |b.cells[a]| :: b.cells[a][c] != TRACE
    ensures ScanRow(b.cells[i], i, j, Expected(b.start, i, j), Expected(b.end, i, j))
            == Success(Terminals(Expected(b.start, i + 1, 0), Expected(b.end, i + 1, 0)))
    decreases |b.cells[i]| - j
  {
    var row := b.cells[i];
    if j == |row| {
      assert |b.cells[b.start.row]| == |row| && |b.cells[b.end.row]| == |row|;
    } else {
      assert Legal(b, row[j], i, j);
      ScanRowComplete(b, i, j + 1);
    }
  }

  lemma {:induction false} ScanRowsComplete(cols: nat, lines: seq<string>, b: Board, i: nat)
    requires b.Valid() && b.cells == StrippedRows(lines) && IsGrid(b.cells, cols)
    requires forall a, c | 0 <= a < |b.cells| && 0 <= c < |b.cells[a]| :: b.cells[a][c] != TRACE
    requires i <= |lines|
    ensures ScanRows(|lines|, cols, lines, i, Expected(b.start, i, 0), Expected(b.end, i, 0))
            == Success(Terminals(Some(b.start), Some(b.end)))
    decreases |lines| - i
  {
    if i < |lines| {
      ScanRowComplete(b, i, 0);
      ScanRowsComplete(cols, lines, b, i + 1);
    }
  }

  /**
    Completeness of validation: a file of exactly ROWS lines, each of COLS
    symbols once whitespace is removed, using only 'O', 'X', '1', '2' with a
    single '1' and a single '2', is accepted, and yields that board.
  */
  lemma ParseComplete(cols: int, lines: seq<string>, start: Point, end: Point)
    requires cols >= 0 && IsGrid(StrippedRows(lines), cols)
    requires Board(StrippedRows(lines), start, end).Valid()
    requires forall a, c | 0 <= a < |lines| && 0 <= c < |Strip(lines[a])| :: Strip(lines[a])[c] != TRACE
    ensures Parse(|lines|, cols, lines) == Success(Board(StrippedRows(lines), start, end))
  {
    var b := Board(StrippedRows(lines), start, end);
    assert Expected(start, 0, 0) == None && Expected(end, 0, 0) == None;
    ScanRowsComplete(cols, lines, b, 0);
  }
}
