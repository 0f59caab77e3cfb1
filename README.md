# Circuit tracer and LRU cache, modelled in Dafny

This project models the core of a small Java repository. It has two parts.

- **The circuit tracer.** It reads a rectangular circuit board from a text
  file, with one start terminal `1`, one end terminal `2`, open cells `O` and
  blocked cells `X`. It then searches exhaustively, with a stack or a queue as
  the frontier, for every shortest trace (`T` cells) from the start terminal
  to the end terminal.
- **A bounded most-recently-used list cache.** It counts reads (`NR`) and
  hits (`NH`).

The model has five modules:

- `Wrappers` (`wrappers.dfy`): `Option`, `Result` and `Outcome`. Exceptions
  the Java code throws become `Failure`/`Fail` values.
- `Boards` (`board.dfy`): the value model of a board.
  - `Board` holds the cells as `seq<seq<char>>` and the two terminals.
  - `IsOpen` and `Traced` give openness and tracing.
  - `Render` is the text rendering.
  - `Parse` is the validation the file constructor performs on the lines
    after the header, written as a function. `ParseSound` and
    `ParseComplete` state exactly which inputs it accepts and what board
    results.
  - `OpenCount` counts open cells. Tracing lowers it by one, which is why
    the search terminates.
- `CircuitBoards` (`circuit_board.dfy`): the `CircuitBoard` class over an
  `array2<char>` that tracing updates in place. Each method is proved
  against `Boards` through `Value()`. The file constructor becomes the static
  `Load`, with the same nested loops and the same checks in the same order.
  The copy constructor, `getBoard`, `charAt`, `isOpen`, `makeTrace`, the
  terminal getters, `numRows`/`numCols` and `toString` are modelled one to
  one.
- `Tracer` (`tracer.dfy`): the search.
  - `TraceState` is a path state: a board snapshot, the head cell and the
    path length. `Storage` is the stack-or-queue frontier.
  - `CircuitTracer` holds the seeding block of the constructor, `search` and
    `generateTraceStates`.
  - `Completions` is a reference definition: the multiset of complete states
    reachable from a frontier, whatever the retrieval order.
    `Search` is proved to retrieve exactly those.
  - `bestPaths` is proved to equal `Shortest` of them, that is, all
    complete paths of least length. Stack and queue give the same result up
    to order.
- `Caches` (`cache.dfy`): `Cache<T>` over a `seq<T>`, with the pure
  specifications `Added`, `RemoveFirst` and `MovedToTop`.

Java `equals` is modelled as Dafny `==`. Java points `(x, y)` are `Point(row, col)`.

Two points where the model reads the code more narrowly than its own names and messages suggest:

- `ALLOWED_CHARS` is `"OXT12"` (CircuitBoard.java:27), and the error message
  for a bad symbol lists those five (line 82). The check itself on line 78
  accepts only `O`, `X`, `1` and `2`, so a file containing `T` is rejected.
  `Accepted` and `ParseSound` follow line 78.
- The end terminal's cell holds `2`, and `isOpen` accepts only `O`
  (CircuitBoard.java:164). So no path state is ever created on the end cell
  (CircuitTracer.java:86-101 and 138-153 store a state only on an open
  cell). TraceState.java is not part of this model. `TraceState.IsComplete`
  is taken to mean that the head is orthogonally adjacent to the end
  terminal, that is, the path can be joined to it. On a valid board,
  `TraceState.IsOpen` shows that an open cell is never a terminal, and
  `NoStateOnTerminal` proves that no state the search records from a valid
  board stands on a terminal.

## Model

| member | source | states |
|---|---|---|
| Boards.Board.Traced | CircuitBoard.java:172-175 | tracing an open cell sets exactly that cell to 'T' and keeps every other cell, the dimensions and both terminals |
| Boards.TracedValid | CircuitBoard.java:172-175 | tracing an open cell of a valid board leaves it valid, the traced cell is no longer open, and every other cell's openness is unchanged |
| Boards.TracedOpenCount | CircuitBoard.java:172-175 | tracing an open cell lowers the number of open cells by exactly one |
| Boards.TerminalsUnique | CircuitBoard.java:85-103 | a valid board holds exactly one '1' and one '2', at its start and end terminals |
| Boards.RenderLength | CircuitBoard.java:203-212 | the rendering of an R x C grid has R*(2C+1) characters |
| Boards.RenderAt | CircuitBoard.java:203-212 | in the rendering, row i starts at i*(2C+1), cell (i, j) sits at offset 2j followed by a space, and the row ends with a newline |
| Boards.Parse | CircuitBoard.java:46-120 | the reference definition of the file constructor: a negative dimension fails with NegativeDimension, a header with zero rows fails with MissingTerminal, and an accepted file has rows > 0 and the stripped input lines as its cells; ParseSound and ParseComplete characterise exactly what it accepts |
| Boards.ScanRows | CircuitBoard.java:59-110 | the row-by-row check succeeds only with both a start and an end terminal found |
| Boards.ParseSound | CircuitBoard.java:46-120 | an accepted file has rows > 0 and exactly ROWS lines, each stripped of whitespace to exactly COLS symbols, all among O X 1 2, and yields a valid board with the terminals at the unique '1' and '2' |
| Boards.ParseComplete | CircuitBoard.java:46-120 | every file whose stripped lines form a valid rectangular board without 'T' is accepted, and yields exactly that board |
| CircuitBoards.Cells | CircuitBoard.java:13 | the contents of a char grid, row by row, with the grid's dimensions |
| CircuitBoards.GridIsStripped | CircuitBoard.java:59-79 | a grid filled from the stripped lines holds exactly those lines |
| CircuitBoards.CircuitBoard.Load | CircuitBoard.java:46-120 | fails exactly when Parse rejects the input, with the same error (negative size, missing row, row length, extra lines, disallowed symbol, duplicate or missing terminal); otherwise yields a fresh valid board whose contents are Parse's |
| CircuitBoards.CircuitBoard.Copy | CircuitBoard.java:126-132 | the copy is valid, has the same dimensions, cells and terminals, and owns a fresh array |
| CircuitBoards.CircuitBoard.GetBoard | CircuitBoard.java:136-144 | returns a fresh array with the same contents |
| CircuitBoards.CircuitBoard.CharAt | CircuitBoard.java:151-153 | succeeds exactly on cells of the board with the cell's symbol; off the board it is an index-out-of-bounds error |
| CircuitBoards.CircuitBoard.IsOpen | CircuitBoard.java:160-165 | true exactly when (row, col) is on the board and holds 'O'; never fails |
| CircuitBoards.CircuitBoard.MakeTrace | CircuitBoard.java:172-178 | succeeds exactly on an open cell, marking only that cell 'T' and keeping the board valid; otherwise changes nothing and fails with OccupiedPosition carrying the cell's symbol, or with IndexOutOfBounds off the board |
| CircuitBoards.CircuitBoard.GetStartingPoint | CircuitBoard.java:181-183 | the start terminal lies on the board and holds '1' |
| CircuitBoards.CircuitBoard.GetEndingPoint | CircuitBoard.java:186-188 | the end terminal lies on the board and holds '2' |
| CircuitBoards.CircuitBoard.NumRows | CircuitBoard.java:191-193 | on a valid board the declared row count is the grid's, and positive |
| CircuitBoards.CircuitBoard.NumCols | CircuitBoard.java:196-198 | on a valid board the declared column count is every row's length |
| CircuitBoards.CircuitBoard.ToString | CircuitBoard.java:203-212 | the text is Render of the board's contents, of length ROWS*(2*COLS+1) |
| CircuitBoards.TraceCopy | CircuitBoard.java:126-132 | tracing a copy yields the original's contents with one cell traced, in a different array, so the original is untouched |
| Tracer.TraceState.IsComplete | CircuitTracer.java:122 | ASSUMED reading, since TraceState.java is not available: a path is complete exactly when the end terminal is one of its head's four neighbours; the head is then never the end cell itself |
| Tracer.TraceState.IsOpen | CircuitTracer.java:138-151 | a state can step only onto an 'O' on its own board: never off the board, and on a valid board never onto a terminal |
| Tracer.Extend | CircuitTracer.java:139 | the new state stands on the stepped-to cell with a path one cell longer, that cell is no longer open on its board, the end terminal is kept, and the board has exactly one open cell fewer |
| Tracer.SuccessorsHeads | CircuitTracer.java:135-154 | expansion stores one state per open neighbour, in the order down, right, up, left, and at most four |
| Tracer.SuccessorsMembers | CircuitTracer.java:135-154 | each stored state stands on an open cell adjacent to the head, has traced that cell on its own board, and is one cell longer |
| Tracer.SuccessorsWeight | CircuitTracer.java:135-154 | expansion replaces a state by states of strictly smaller total weight (5 to the number of open cells), so the search terminates |
| Tracer.CompletionsAreComplete | CircuitTracer.java:122-130 | every state the search records is complete |
| Tracer.CompletionsOffTerminals | CircuitTracer.java:119-154 | from a frontier of states whose boards are valid with the start board's terminals and whose heads are on neither, every state the search records keeps all three properties |
| Tracer.NoStateOnTerminal | CircuitTracer.java:84-154 | from a valid start board, no recorded state's head is the start or the end cell, and its own board is still valid with the same terminals |
| Tracer.ShortestSpec | CircuitTracer.java:123-128 | the shortest members of a list are all of one length, none longer than any member, and include every member of least length |
| Tracer.ShortestIgnoresOrder | CircuitTracer.java:123-128 | the shortest paths kept depend only on which complete states are retrieved, not on their order |
| Tracer.RecordAllShortest | CircuitTracer.java:123-128 | from an empty list, the record rule keeps exactly the shortest retrieved complete states, in retrieval order |
| Tracer.RecordUniform | CircuitTracer.java:123-128 | the record rule keeps bestPaths all of one length |
| Tracer.Storage.constructor | CircuitTracer.java:49-51 | a stack or queue store of the requested discipline, with nothing pending |
| Tracer.Storage.IsEmpty | CircuitTracer.java:120 | true exactly when no state is pending, so the loop stops exactly when there is nothing to retrieve |
| Tracer.Storage.Store | CircuitTracer.java:88 | a store appends the state to the frontier |
| Tracer.Storage.Retrieve | CircuitTracer.java:121 | retrieval takes the most recently stored state (stack) or the earliest one (queue) |
| Tracer.NewTraceState | CircuitTracer.java:87 | a new path state is the board copied, with the cell traced, and a path one cell longer |
| Tracer.CircuitTracer.constructor | CircuitTracer.java:84-101 | the frontier starts with one single-cell path per open neighbour of the start terminal, in the order down, right, up, left, and bestPaths starts empty |
| Tracer.CircuitTracer.SeedIfOpen | CircuitTracer.java:86-89 | one guarded seed: a single-cell path is stored exactly when the cell is open |
| Tracer.CircuitTracer.Search | CircuitTracer.java:119-133 | drains the frontier; the complete states retrieved are exactly Completions of the initial frontier, and bestPaths is the record rule applied to them in order, kept of one length |
| Tracer.CircuitTracer.RecordPath | CircuitTracer.java:123-128 | appends on a tie or to an empty list, replaces a longer list, and ignores a longer path |
| Tracer.CircuitTracer.GenerateTraceStates | CircuitTracer.java:135-154 | appends exactly the head's children to the frontier |
| Tracer.CircuitTracer.ExpandIfOpen | CircuitTracer.java:138-141 | one guarded expansion: the extended state is stored exactly when the cell is open |
| Tracer.RetrieveStep | CircuitTracer.java:120-131 | one iteration either moves a complete state from the frontier's completions to the recorded ones, or expands a state keeping the completions and lowering the weight |
| Tracer.BestPathsMinimal | CircuitTracer.java:119-133 | after a search from empty bestPaths, every kept path is complete and reachable, none is longer than any reachable complete path, and every shortest reachable complete path is kept |
| Tracer.DisciplinesAgree | CircuitTracer.java:47-51 | stack and queue frontiers end with the same bestPaths up to order |
| Caches.IndexOf | Cache.java:40-42 | the position of the first occurrence |
| Caches.RemoveFirst | Cache.java:40-42 | unlinks only the first occurrence, keeping the order of the rest; the list is unchanged when the object is absent |
| Caches.RemoveFirstCounts | Cache.java:40-42 | removal takes exactly one copy of the object out of the list and shortens it by one |
| Caches.Added | Cache.java:33-38 | the new object comes first and the survivors keep their order; a full list loses its last element; a full empty list (capacity 0) raises NoSuchElement |
| Caches.AddedBounded | Cache.java:33-38 | with capacity at least one and the list within capacity, adding succeeds and stays within capacity |
| Caches.MovedToTop | Cache.java:66-69 | the object comes first and the list keeps its length when the object was present; an absent object is simply prepended, with nothing evicted |
| Caches.MovedToTopPermutes | Cache.java:66-69 | moving a present object is a permutation: objects before it shift back one place, objects after it stay where they are |
| Caches.Cache.constructor | Cache.java:23-27 | an empty list of the given capacity with both counters zero |
| Caches.Cache.GetObject | Cache.java:29-31 | the object at an index within the list; otherwise an index-out-of-bounds error |
| Caches.Cache.AddObject | Cache.java:33-38 | the list becomes Added of the old one, or fails with NoSuchElement unchanged; the counters are untouched |
| Caches.Cache.RemoveObject | Cache.java:40-42 | returns whether the object was present and unlinks its first occurrence |
| Caches.Cache.ClearCache | Cache.java:44-46 | empties the list and keeps the counters |
| Caches.Cache.Search | Cache.java:48-64 | NR grows by one on every call; the result is true exactly when the object is present, and then NH grows by one and the object moves to the front with the same elements and length; on a miss the list is unchanged; NH <= NR is kept |
| Caches.Cache.MoveToTop | Cache.java:66-69 | the list becomes MovedToTop of the old one; the counters are untouched |
| Caches.Cache.GetNR | Cache.java:71 | the read count is never below the hit count |
| Caches.Cache.GetNH | Cache.java:73 | the hit count is never above the read count |

## Left out

- File and console I/O: opening the file, `Scanner`, reading the header line, `main`, argument parsing, printing the results and the GUI option. `Load` receives the two header integers and the remaining lines as parameters.
- Boards.Strip: Java's `toCharArray` (CircuitBoard.java:62) counts UTF-16 code units, while a Dafny `char` is one Unicode scalar value. For a symbol outside the Basic Multilingual Plane the two report different errors. With COLS = 2, the row "O😀" gives a row-length error in Java and `DisallowedChar` here. Both reject the file.
- Exception messages. Each failure is a distinct error constructor instead.
- TraceState.java and Storage.java are not part of this model. `TraceState` and `Storage` are minimal stand-ins built from how CircuitTracer.java uses them. `TraceState` holds its board as a value. `NewTraceState` and `TraceCopy` show that building one copies the board and traces the copy, so holding a value loses nothing.
- `TraceState.IsComplete`: as said above, adjacency to the end terminal is assumed, because the class is not available.
- Caches.Cache.GetNR, Caches.Cache.GetNH, Caches.Cache.Search: Java `int` counters wrap around after 2^31 - 1 searches. `NR` and `NH` are unbounded naturals here.
- Cache.java `getHR` (line 75): floating-point division, left out; `NR` and `NH` are exposed instead.
- FluidSimulation.py, Test.java and GUI.java are context, not part of this model.
