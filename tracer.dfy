/**
  The exhaustive shortest-path search: path states, the stack-or-queue
  frontier, the driver that seeds the frontier from the start terminal,
  drains it, expands incomplete states and keeps every shortest complete
  state.
*/
module Tracer {
  import opened Wrappers
  import opened Boards
  import opened CircuitBoards

  // ---------------------------------------------------------------------
  // Path states

  /**
    A partial path: its own board snapshot (the path's cells traced), the
    head cell, and the number of cells traced.
  */
  datatype TraceState = TraceState(board: Board, row: int, col: int, pathLength: nat)
  {
    /**
      The path can be joined to the end terminal.  The end cell holds '2',
      which is never open, so no path reaches it: a path is complete when
      its head is orthogonally adjacent to the end terminal.
    */
    predicate IsComplete(): (complete: bool)
      ensures complete <==> board.end in Neighbours(Point(row, col))
      ensures complete ==> Point(row, col) != board.end
    {
      Adjacent(Point(row, col), board.end)
    }

    /** Only an 'O' on the board can be stepped on: never off the board, never a terminal. */
    predicate IsOpen(r: int, c: int): (open: bool)
      ensures open ==> 0 <= r < |board.cells| && 0 <= c < |board.cells[r]| && board.cells[r][c] == OPEN
      ensures open && board.Valid() ==> Point(r, c) != board.start && Point(r, c) != board.end
    {
      board.IsOpen(r, c)
    }
  }

  function Abs(x: int): nat {
    if x < 0 then -x else x
  }

  predicate Adjacent(p: Point, q: Point) {
    Abs(p.row - q.row) + Abs(p.col - q.col) == 1
  }

  /** The orthogonal neighbours in the order the search tries them: down, right, up, left. */
  function Neighbours(p: Point): seq<Point> {
    [Point(p.row + 1, p.col), Point(p.row, p.col + 1), Point(p.row - 1, p.col), Point(p.row, p.col - 1)]
  }

  /** The state a path of `len` cells on board b reaches by tracing the open cell p. */
  function Extend(b: Board, p: Point, len: nat): (t: TraceState)
    requires b.IsOpen(p.row, p.col)
    ensures Point(t.row, t.col) == p && t.pathLength == len + 1
    ensures !t.board.IsOpen(p.row, p.col) && t.board.end == b.end
    ensures OpenCount(t.board.cells) + 1 == OpenCount(b.cells)
  {
    TracedOpenCount(b, p.row, p.col);
    TraceState(b.Traced(p.row, p.col), p.row, p.col, len + 1)
  }

  function Step(b: Board, p: Point, len: nat): seq<TraceState> {
    if b.IsOpen(p.row, p.col) then [Extend(b, p, len)] else []
  }

  /** What the four guarded stores beside `head` put on the frontier, in order. */
  function Successors(b: Board, head: Point, len: nat): seq<TraceState> {
    var n := Neighbours(head);
    Step(b, n[0], len) + Step(b, n[1], len) + Step(b, n[2], len) + Step(b, n[3], len)
  }

  /** The first moves from the start terminal: paths of one cell. */
  function Seeds(b: Board): seq<TraceState> {
    Successors(b, b.start, 0)
  }

  /** The expansions of an incomplete state. */
  function Children(t: TraceState): seq<TraceState> {
    Successors(t.board, Point(t.row, t.col), t.pathLength)
  }

  /** The open points among ps, in order (the reference for Successors). */
  function OpenAmong(b: Board, ps: seq<Point>): seq<Point> {
    if ps == [] then []
    else (if b.IsOpen(ps[0].row, ps[0].col) then [ps[0]] else []) + OpenAmong(b, ps[1..])
  }

  function Heads(ts: seq<TraceState>): seq<Point> {
    if ts == [] then [] else [Point(ts[0].row, ts[0].col)] + Heads(ts[1..])
  }

  lemma {:induction false} HeadsAppend(a: seq<TraceState>, b: seq<TraceState>)
    ensures Heads(a + b) == Heads(a) + Heads(b)
  {
    if a != [] {
      assert (a + b)[0] == a[0];
      assert (a + b)[1..] == a[1..] + b;
      HeadsAppend(a[1..], b);
    } else {
      assert a + b == b;
    }
  }

  /**
    Expansion stores exactly one state per open neighbour, in the order
    down, right, up, left, and nothing else.
  */
  lemma SuccessorsHeads(b: Board, head: Point, len: nat)
    ensures |Successors(b, head, len)| <= 4
    ensures Heads(Successors(b, head, len)) == OpenAmong(b, Neighbours(head))
  {
    var n := Neighbours(head);
    var s0, s1, s2, s3 := Step(b, n[0], len), Step(b, n[1], len), Step(b, n[2], len), Step(b, n[3], len);
    StepSpec(b, n[0], len);
    StepSpec(b, n[1], len);
    StepSpec(b, n[2], len);
    StepSpec(b, n[3], len);
    HeadsAppend(s0, s1);
    HeadsAppend(s0 + s1, s2);
    HeadsAppend(s0 + s1 + s2, s3);
    OpenAmongFour(b, n[0], n[1], n[2], n[3]);
  }

  lemma OpenAmongFour(b: Board, p0: Point, p1: Point, p2: Point, p3: Point)
    ensures OpenAmong(b, [p0, p1, p2, p3]) == OpenAmong(b, [p0]) + OpenAmong(b, [p1]) + OpenAmong(b, [p2]) + OpenAmong(b, [p3])
  {
    assert [p0, p1, p2, p3][1..] == [p1, p2, p3];
    assert [p1, p2, p3][1..] == [p2, p3];
    assert [p2, p3][1..] == [p3];
    assert [p3][1..] == [] && [p2][1..] == [] && [p1][1..] == [] && [p0][1..] == [];
    assert OpenAmong(b, [p2, p3]) == OpenAmong(b, [p2]) + OpenAmong(b, [p3]);
    assert OpenAmong(b, [p1, p2, p3]) == OpenAmong(b, [p1]) + OpenAmong(b, [p2, p3]);
  }

  /**
    Each stored state stands on an open cell adjacent to the head, has
    traced that cell on its own copy of the board, and is one cell longer.
  */
  lemma SuccessorsMembers(b: Board, head: Point, len: nat)
    ensures forall t | t in Successors(b, head, len) ::
              && Adjacent(Point(t.row, t.col), head) && b.IsOpen(t.row, t.col)
              && t == Extend(b, Point(t.row, t.col), len)
  {
    var n := Neighbours(head);
    var s0, s1, s2, s3 := Step(b, n[0], len), Step(b, n[1], len), Step(b, n[2], len), Step(b, n[3], len);
    StepSpec(b, n[0], len);
    StepSpec(b, n[1], len);
    StepSpec(b, n[2], len);
    StepSpec(b, n[3], len);
    assert Successors(b, head, len) == s0 + s1 + s2 + s3;
    forall t | t in Successors(b, head, len)
      ensures Adjacent(Point(t.row, t.col), head) && b.IsOpen(t.row, t.col)
      ensures t == Extend(b, Point(t.row, t.col), len)
    {
      assert t in s0 || t in s1 || t in s2 || t in s3;
      NeighboursAdjacent(head, Point(t.row, t.col));
    }
  }

  /** Each of the four neighbours is one step away from the cell. */
  lemma NeighboursAdjacent(p: Point, q: Point)
    requires q in Neighbours(p)
    ensures Adjacent(q, p)
  {
  }

  lemma StepSpec(b: Board, p: Point, len: nat)
    ensures |Step(b, p, len)| <= 1
    ensures Heads(Step(b, p, len)) == OpenAmong(b, [p])
    ensures forall t | t in Step(b, p, len) :: Point(t.row, t.col) == p && b.IsOpen(p.row, p.col) && t == Extend(b, p, len)
  {
    assert [p][1..] == [];
    if b.IsOpen(p.row, p.col) {
      assert [Extend(b, p, len)][1..] == [];
    }
  }

  // ---------------------------------------------------------------------
  // Termination measure: every successor has one open cell fewer

  function Pow5(n: nat): (r: nat)
    ensures r >= 1
  {
    if n == 0 then 1 else 5 * Pow5(n - 1)
  }

  function StateWeight(t: TraceState): nat {
    Pow5(OpenCount(t.board.cells))
  }

  /** The frontier's weight: 5 to the number of open cells, summed over its states. */
  function Weight(xs: seq<TraceState>): nat {
    if xs == [] then 0 else StateWeight(xs[0]) + Weight(xs[1..])
  }

  lemma {:induction false} WeightAppend(a: seq<TraceState>, b: seq<TraceState>)
    ensures Weight(a + b) == Weight(a) + Weight(b)
  {
    if a != [] {
      assert (a + b)[0] == a[0];
      assert (a + b)[1..] == a[1..] + b;
      WeightAppend(a[1..], b);
    } else {
      assert a + b == b;
    }
  }

  /** A single step leaves at most a fifth of the weight of the board it started from. */
  lemma StepWeight(b: Board, p: Point, len: nat)
    ensures 5 * Weight(Step(b, p, len)) <= Pow5(OpenCount(b.cells))
  {
    if b.IsOpen(p.row, p.col) {
      var k := OpenCount(b.cells);
      TracedOpenCount(b, p.row, p.col);
      assert [Extend(b, p, len)][1..] == [];
      assert Weight(Step(b, p, len)) == Pow5(k - 1);
    }
  }

  /** Expanding a state replaces its weight by a strictly smaller one. */
  lemma SuccessorsWeight(b: Board, head: Point, len: nat)
    ensures Weight(Successors(b, head, len)) < Pow5(OpenCount(b.cells))
  {
    var n := Neighbours(head);
    var k := OpenCount(b.cells);
    var s0, s1, s2, s3 := Step(b, n[0], len), Step(b, n[1], len), Step(b, n[2], len), Step(b, n[3], len);
    StepWeight(b, n[0], len);
    StepWeight(b, n[1], len);
    StepWeight(b, n[2], len);
    StepWeight(b, n[3], len);
    WeightFour(s0, s1, s2, s3);
  }

  lemma WeightFour(s0: seq<TraceState>, s1: seq<TraceState>, s2: seq<TraceState>, s3: seq<TraceState>)
    ensures Weight(s0 + s1 + s2 + s3) == Weight(s0) + Weight(s1) + Weight(s2) + Weight(s3)
  {
    WeightAppend(s0, s1);
    WeightAppend(s0 + s1, s2);
    WeightAppend(s0 + s1 + s2, s3);
  }

  // ---------------------------------------------------------------------
  // What the search reaches

  /**
    The complete states the search retrieves when it drains frontier xs,
    counted with multiplicity, whatever order it retrieves them in.
  */
  ghost function Completions(xs: seq<TraceState>): multiset<TraceState>
    decreases Weight(xs)
  {
    if xs == [] then multiset{}
    else if xs[0].IsComplete() then multiset{xs[0]} + Completions(xs[1..])
    else
      var t := xs[0];
      SuccessorsWeight(t.board, Point(t.row, t.col), t.pathLength);
      Completions(Children(t)) + Completions(xs[1..])
  }

  lemma {:induction false} CompletionsAppend(a: seq<TraceState>, b: seq<TraceState>)
    ensures Completions(a + b) == Completions(a) + Completions(b)
    decreases |a|
  {
    if a != [] {
      assert (a + b)[0] == a[0];
      assert (a + b)[1..] == a[1..] + b;
      CompletionsAppend(a[1..], b);
    } else {
      assert a + b == b;
    }
  }

  lemma CompletionsOne(t: TraceState)
    ensures Completions([t]) == if t.IsComplete() then multiset{t} else Completions(Children(t))
    ensures Weight([t]) == StateWeight(t)
  {
    assert [t][1..] == [];
  }

  /** Every state the search records is complete. */
  lemma {:induction false} CompletionsAreComplete(xs: seq<TraceState>, t: TraceState)
    requires t in Completions(xs)
    ensures t.IsComplete()
    decreases Weight(xs)
  {
    var h := xs[0];
    SuccessorsWeight(h.board, Point(h.row, h.col), h.pathLength);
    if !h.IsComplete() && t in Completions(Children(h)) {
      CompletionsAreComplete(Children(h), t);
    } else if t in Completions(xs[1..]) {
      CompletionsAreComplete(xs[1..], t);
    }
  }

  /**
    A state of a search from a board with terminals s and e: its own board
    is valid with the same terminals, and its head is on neither of them.
  */
  ghost predicate OffTerminals(t: TraceState, s: Point, e: Point) {
    && t.board.Valid() && t.board.start == s && t.board.end == e
    && Point(t.row, t.col) != s && Point(t.row, t.col) != e
  }

  /** Expanding a head on a valid board yields only states off the terminals. */
  lemma SuccessorsOffTerminals(b: Board, head: Point, len: nat, s: Point, e: Point)
    requires b.Valid() && b.start == s && b.end == e
    ensures forall t | t in Successors(b, head, len) :: OffTerminals(t, s, e)
  {
    SuccessorsMembers(b, head, len);
    forall t | t in Successors(b, head, len)
      ensures OffTerminals(t, s, e)
    {
      TracedValid(b, t.row, t.col);
    }
  }

  /** States off the terminals only lead to recorded states off the terminals. */
  lemma {:induction false} CompletionsOffTerminals(xs: seq<TraceState>, s: Point, e: Point, t: TraceState)
    requires forall u | u in xs :: OffTerminals(u, s, e)
    requires t in Completions(xs)
    ensures OffTerminals(t, s, e)
    decreases Weight(xs)
  {
    var h := xs[0];
    assert h in xs;
    SuccessorsWeight(h.board, Point(h.row, h.col), h.pathLength);
    if t in Completions(xs[1..]) {
      assert forall u | u in xs[1..] :: u in xs;
      CompletionsOffTerminals(xs[1..], s, e, t);
    } else if h.IsComplete() {
      assert Completions(xs) == multiset{h} + Completions(xs[1..]);
      assert t == h;
    } else {
      assert Completions(xs) == Completions(Children(h)) + Completions(xs[1..]);
      SuccessorsOffTerminals(h.board, Point(h.row, h.col), h.pathLength, s, e);
      CompletionsOffTerminals(Children(h), s, e, t);
    }
  }

  /**
    No state the search records from a valid board stands on a terminal:
    its head is neither the start nor the end cell, and its board is still
    valid with the same terminals.
  */
  lemma NoStateOnTerminal(b: Board, t: TraceState)
    requires b.Valid() && t in Completions(Seeds(b))
    ensures Point(t.row, t.col) != b.start && Point(t.row, t.col) != b.end
    ensures t.board.Valid() && t.board.start == b.start && t.board.end == b.end
  {
    SuccessorsOffTerminals(b, b.start, 0, b.start, b.end);
    CompletionsOffTerminals(Seeds(b), b.start, b.end, t);
  }

  // ---------------------------------------------------------------------
  // Keeping the shortest complete paths

  /** All paths in the list have one length. */
  predicate Uniform(paths: seq<TraceState>) {
    forall i | 0 <= i < |paths| :: paths[i].pathLength == paths[0].pathLength
  }

  /**
    How bestPaths takes in one retrieved complete state: appended when the
    list is empty or the state ties, the list replaced by it when shorter,
    ignored when longer.
  */
  function Record(best: seq<TraceState>, t: TraceState): seq<TraceState> {
    if best == [] || t.pathLength == best[0].pathLength then best + [t]
    else if t.pathLength < best[0].pathLength then [t]
    else best
  }

  /** bestPaths after the complete states `done` are retrieved in order. */
  function RecordAll(best: seq<TraceState>, done: seq<TraceState>): seq<TraceState> {
    if done == [] then best
    else Record(RecordAll(best, done[..|done| - 1]), done[|done| - 1])
  }

  /** The least path length in a non-empty list. */
  function MinLength(xs: seq<TraceState>): nat
    requires xs != []
  {
    if |xs| == 1 then xs[0].pathLength
    else
      var m := MinLength(xs[..|xs| - 1]);
      if xs[|xs| - 1].pathLength < m then xs[|xs| - 1].pathLength else m
  }

  /** The members of xs of length n, in order. */
  function OfLength(xs: seq<TraceState>, n: nat): seq<TraceState> {
    if xs == [] then []
    else OfLength(xs[..|xs| - 1], n) + (if xs[|xs| - 1].pathLength == n then [xs[|xs| - 1]] else [])
  }

  /** The reference result: every member of xs of the least length, in order. */
  function Shortest(xs: seq<TraceState>): seq<TraceState> {
    if xs == [] then [] else OfLength(xs, MinLength(xs))
  }

  lemma {:induction false} MinLengthSpec(xs: seq<TraceState>)
    requires xs != []
    ensures exists t | t in xs :: t.pathLength == MinLength(xs)
    ensures forall t | t in xs :: MinLength(xs) <= t.pathLength
  {
    var last := xs[|xs| - 1];
    if |xs| == 1 {
      assert xs[0] in xs;
    } else {
      var front := xs[..|xs| - 1];
      MinLengthSpec(front);
      assert xs == front + [last];
      if last.pathLength < MinLength(front) {
        assert last in xs;
      } else {
        var w :| w in front && w.pathLength == MinLength(front);
        assert w in xs;
      }
    }
  }

  lemma {:induction false} OfLengthSpec(xs: seq<TraceState>, n: nat)
    ensures forall t | t in OfLength(xs, n) :: t in xs && t.pathLength == n
    ensures forall t | t in xs && t.pathLength == n :: t in OfLength(xs, n)
    ensures forall t :: multiset(OfLength(xs, n))[t] == if t.pathLength == n then multiset(xs)[t] else 0
  {
    if xs != [] {
      var front := xs[..|xs| - 1];
      OfLengthSpec(front, n);
      assert xs == front + [xs[|xs| - 1]];
    }
  }

  /**
    Shortest(xs) holds the members of xs of least length and only those:
    all of one length, none longer than any member of xs, and every member
    of least length included.
  */
  lemma ShortestSpec(xs: seq<TraceState>)
    ensures Uniform(Shortest(xs))
    ensures xs != [] ==> Shortest(xs) != []
    ensures forall t | t in Shortest(xs) :: t in xs && forall u | u in xs :: t.pathLength <= u.pathLength
    ensures forall u | u in xs && (forall v | v in xs :: u.pathLength <= v.pathLength) :: u in Shortest(xs)
  {
    if xs != [] {
      MinLengthSpec(xs);
      OfLengthSpec(xs, MinLength(xs));
      var r := Shortest(xs);
      var t :| t in xs && t.pathLength == MinLength(xs);
      assert t in r;
      forall i | 0 <= i < |r|
        ensures r[i].pathLength == r[0].pathLength
      {
        assert r[i] in r && r[0] in r;
      }
    }
  }

  /** Which shortest paths are found depends only on which complete states are retrieved, not on their order. */
  lemma ShortestIgnoresOrder(d1: seq<TraceState>, d2: seq<TraceState>)
    requires multiset(d1) == multiset(d2)
    ensures multiset(Shortest(d1)) == multiset(Shortest(d2))
  {
    if d1 == [] {
      assert |d2| == |multiset(d2)| == 0;
    } else {
      assert d1[0] in multiset(d2);
      var m := MinLength(d1);
      MinLengthAgrees(d1, d2);
      OfLengthSpec(d1, m);
      OfLengthSpec(d2, m);
      assert forall t :: multiset(OfLength(d1, m))[t] == multiset(OfLength(d2, m))[t];
    }
  }

  /** Lists with the same members have the same least length. */
  lemma MinLengthAgrees(d1: seq<TraceState>, d2: seq<TraceState>)
    requires d1 != [] && multiset(d1) == multiset(d2)
    ensures d2 != [] && MinLength(d1) == MinLength(d2)
  {
    assert d1[0] in multiset(d2);
    MinLengthSpec(d1);
    MinLengthSpec(d2);
    var w1 :| w1 in d1 && w1.pathLength == MinLength(d1);
    var w2 :| w2 in d2 && w2.pathLength == MinLength(d2);
    assert w1 in multiset(d1) && w2 in multiset(d2);
    assert w1 in d2 && w2 in d1;
  }

  lemma {:induction false} OfLengthBelow(xs: seq<TraceState>, n: nat)
    requires forall t | t in xs :: n < t.pathLength
    ensures OfLength(xs, n) == []
  {
    if xs != [] {
      OfLengthBelow(xs[..|xs| - 1], n);
    }
  }

  /**
    Starting from an empty list, the record rule keeps exactly the shortest
    complete states retrieved, in the order they were retrieved.
  */
  lemma {:induction false} RecordAllShortest(done: seq<TraceState>)
    ensures RecordAll([], done) == Shortest(done)
  {
    if done != [] {
      var n := |done| - 1;
      var front, t := done[..n], done[n];
      RecordAllShortest(front);
      assert done[..n] == front;
      if front == [] {
        assert done == [t];
        assert RecordAll([], done) == Record([], t);
        assert [t][..0] == [];
        assert OfLength([t], t.pathLength) == OfLength([], t.pathLength) + [t];
      } else {
        ShortestSpec(front);
        MinLengthSpec(front);
        var m := MinLength(front);
        var best := Shortest(front);
        assert best[0] in best;
        assert best[0].pathLength == m by { OfLengthSpec(front, m); }
        assert done[..n] == front;
        assert RecordAll([], done) == Record(best, t);
        assert MinLength(done) == if t.pathLength < m then t.pathLength else m;
        if t.pathLength < m {
          OfLengthBelow(front, t.pathLength);
          assert Shortest(done) == OfLength(front, t.pathLength) + [t];
        } else if t.pathLength == m {
          assert Shortest(done) == best + [t];
        } else {
          assert Shortest(done) == best + [];
        }
      }
    }
  }

  lemma KeepCompleted(initial: seq<TraceState>, done: seq<TraceState>, before: seq<TraceState>, after: seq<TraceState>, t: TraceState)
    requires multiset(done) + Completions(before) == Completions(initial)
    requires Completions(before) == Completions(after) + multiset{t}
    ensures multiset(done + [t]) + Completions(after) == Completions(initial)
  {
  }

  lemma RecordAllSnoc(best: seq<TraceState>, done: seq<TraceState>, t: TraceState)
    ensures RecordAll(best, done + [t]) == Record(RecordAll(best, done), t)
  {
    assert (done + [t])[..|done|] == done;
  }

  lemma AppendFour<T>(o: seq<T>, s0: seq<T>, s1: seq<T>, s2: seq<T>, s3: seq<T>)
    ensures o + s0 + s1 + s2 + s3 == o + (s0 + s1 + s2 + s3)
  {
  }

  /** Seeds written out as the four guarded stores of the seeding block. */
  lemma SeedsSplit(b: Board, p: Point)
    requires p == b.start
    ensures Step(b, Point(p.row + 1, p.col), 0) + Step(b, Point(p.row, p.col + 1), 0)
      + Step(b, Point(p.row - 1, p.col), 0) + Step(b, Point(p.row, p.col - 1), 0) == Seeds(b)
  {
  }

  /** Four appends to an empty sequence, one after the other. */
  lemma AppendChain<T>(c0: seq<T>, c1: seq<T>, c2: seq<T>, c3: seq<T>, c4: seq<T>,
                       s0: seq<T>, s1: seq<T>, s2: seq<T>, s3: seq<T>)
    requires c0 == [] && c1 == c0 + s0 && c2 == c1 + s1 && c3 == c2 + s2 && c4 == c3 + s3
    ensures c4 == s0 + s1 + s2 + s3
  {
    assert c1 == s0;
  }

  /** The record rule keeps bestPaths of one length. */
  lemma RecordUniform(best: seq<TraceState>, t: TraceState)
    requires Uniform(best)
    ensures Uniform(Record(best, t))
  {
  }

  // ---------------------------------------------------------------------
  // The frontier

  datatype Discipline = Stack | Queue

  /** A LIFO or FIFO store of pending states; stores append at the back. */
  class Storage<T> {
    const discipline: Discipline
    var contents: seq<T>

    constructor(d: Discipline)
      ensures discipline == d && contents == []
    {
      discipline := d;
      contents := [];
    }

    /** Nothing is pending, so there is nothing to retrieve. */
    predicate IsEmpty(): (empty: bool)
      reads this
      ensures empty <==> contents == []
    {
      |contents| == 0
    }

    method Store(x: T)
      modifies this
      ensures contents == old(contents) + [x]
    {
      contents := contents + [x];
    }

    /** The most recently stored state (stack) or the earliest stored one (queue). */
    method Retrieve() returns (x: T)
      requires contents != []
      modifies this
      ensures discipline == Stack ==> old(contents) == contents + [x]
      ensures discipline == Queue ==> old(contents) == [x] + contents
    {
      if discipline == Stack {
        x := contents[|contents| - 1];
        contents := contents[..|contents| - 1];
      } else {
        x := contents[0];
        contents := contents[1..];
      }
    }
  }

  /** The path-state stand-in's constructor: copy the board, trace (row, col) on the copy. */
  method NewTraceState(board: CircuitBoard, row: int, col: int, len: nat) returns (ts: TraceState)
    requires board.Valid() && board.IsOpen(row, col)
    ensures ts == Extend(board.Value(), Point(row, col), len)
  {
    var copy := TraceCopy(board, row, col);
    ts := TraceState(copy.Value(), row, col, len + 1);
  }

  // ---------------------------------------------------------------------
  // The driver

  class CircuitTracer {
    const storage: Storage<TraceState>
    var bestPaths: seq<TraceState>

    ghost predicate Valid()
      reads this
    {
      Uniform(bestPaths)
    }

    /** Seeds the frontier with one state per open neighbour of the start terminal. */
    constructor(startingBoard: CircuitBoard, discipline: Discipline)
      requires startingBoard.Valid()
      ensures Valid() && fresh(storage) && storage.discipline == discipline
      ensures bestPaths == [] && storage.contents == Seeds(startingBoard.Value())
    {
      storage := new Storage(discipline);
      bestPaths := [];
      new;
      var point := startingBoard.GetStartingPoint();
      ghost var b := startingBoard.Value();
      assert point == b.start;
      ghost var c0 := storage.contents;
      SeedIfOpen(startingBoard, b, point.row + 1, point.col);
      ghost var c1 := storage.contents;
      SeedIfOpen(startingBoard, b, point.row, point.col + 1);
      ghost var c2 := storage.contents;
      SeedIfOpen(startingBoard, b, point.row - 1, point.col);
      ghost var c3 := storage.contents;
      SeedIfOpen(startingBoard, b, point.row, point.col - 1);
      AppendChain(c0, c1, c2, c3, storage.contents, Step(b, Point(point.row + 1, point.col), 0),
                  Step(b, Point(point.row, point.col + 1), 0), Step(b, Point(point.row - 1, point.col), 0),
                  Step(b, Point(point.row, point.col - 1), 0));
      SeedsSplit(b, point);
    }

    /** One guarded store of the seeding block: a one-cell path on a copy of the board, if (row, col) is open. */
    method SeedIfOpen(startingBoard: CircuitBoard, ghost b: Board, row: int, col: int)
      requires startingBoard.Valid() && b == startingBoard.Value()
      modifies storage
      ensures storage.contents == old(storage.contents) + Step(b, Point(row, col), 0)
      ensures unchanged(this) && b == startingBoard.Value()
    {
      if startingBoard.IsOpen(row, col) {
        var ts := NewTraceState(startingBoard, row, col, 0);
        storage.Store(ts);
      }
    }

    /**
      Drains the frontier.  A complete state goes through the record rule,
      any other state is expanded.  On return the frontier is empty, the
      complete states retrieved (`done`, in retrieval order) are exactly
      those reachable from the frontier it started with, and bestPaths is
      the record rule applied to them.
    */
    method Search() returns (ghost done: seq<TraceState>)
      requires Valid()
      modifies this, storage
      ensures Valid() && storage.contents == []
      ensures multiset(done) == Completions(old(storage.contents))
      ensures forall t | t in done :: t.IsComplete()
      ensures bestPaths == RecordAll(old(bestPaths), done)
    {
      done := [];
      ghost var initial := storage.contents;
      while !storage.IsEmpty()
        invariant Uniform(bestPaths)
        invariant multiset(done) + Completions(storage.contents) == Completions(initial)
        invariant forall t | t in done :: t.IsComplete()
        invariant bestPaths == RecordAll(old(bestPaths), done)
        decreases Weight(storage.contents)
      {
        ghost var before := storage.contents;
        var ts := storage.Retrieve();
        ghost var after := storage.contents;
        RetrieveStep(before, after, ts, storage.discipline);
        if ts.IsComplete() {
          RecordUniform(bestPaths, ts);
          RecordAllSnoc(old(bestPaths), done, ts);
          RecordPath(ts);
          KeepCompleted(initial, done, before, after, ts);
          done := done + [ts];
        } else {
          GenerateTraceStates(ts);
        }
      }
    }

    /**
      The bookkeeping for a retrieved complete state: kept beside paths of
      its length or as the first path, replacing longer paths, ignored when
      longer.
    */
    method RecordPath(ts: TraceState)
      modifies this
      ensures bestPaths == Record(old(bestPaths), ts)
    {
      if bestPaths == [] || ts.pathLength == bestPaths[0].pathLength {
        bestPaths := bestPaths + [ts];
      } else if ts.pathLength < bestPaths[0].pathLength {
        bestPaths := [];
        bestPaths := bestPaths + [ts];
      }
    }

    /** Stores one successor per open neighbour of the state's head, in order. */
    method GenerateTraceStates(prevTrace: TraceState)
      modifies storage
      ensures storage.contents == old(storage.contents) + Children(prevTrace)
    {
      var point := Point(prevTrace.row, prevTrace.col);
      ghost var before := storage.contents;
      ghost var n := Neighbours(point);
      ExpandIfOpen(prevTrace, point.row + 1, point.col);
      ExpandIfOpen(prevTrace, point.row, point.col + 1);
      ExpandIfOpen(prevTrace, point.row - 1, point.col);
      ExpandIfOpen(prevTrace, point.row, point.col - 1);
      ghost var b, len := prevTrace.board, prevTrace.pathLength;
      AppendFour(before, Step(b, n[0], len), Step(b, n[1], len), Step(b, n[2], len), Step(b, n[3], len));
    }

    /** One guarded store of the expansion: the state extended by (row, col), if that cell is open on its board. */
    method ExpandIfOpen(prevTrace: TraceState, row: int, col: int)
      modifies storage
      ensures storage.contents == old(storage.contents) + Step(prevTrace.board, Point(row, col), prevTrace.pathLength)
    {
      if prevTrace.IsOpen(row, col) {
        var newTrace := Extend(prevTrace.board, Point(row, col), prevTrace.pathLength);
        storage.Store(newTrace);
      }
    }
  }

  /**
    One iteration of the search, whichever end it retrieves from: a
    complete state moves from the frontier's completions to the recorded
    ones; expanding any other state keeps the completions and lowers the
    weight.
  */
  lemma RetrieveStep(before: seq<TraceState>, after: seq<TraceState>, t: TraceState, d: Discipline)
    requires d == Stack ==> before == after + [t]
    requires d == Queue ==> before == [t] + after
    ensures t.IsComplete() ==> Completions(before) == Completions(after) + multiset{t} && Weight(after) < Weight(before)
    ensures !t.IsComplete() ==>
              && Completions(before) == Completions(after + Children(t))
              && Weight(after + Children(t)) < Weight(before)
  {
    RetrieveSplit(before, after, t, d);
    CompletionsOne(t);
    CompletionsAppend(after, Children(t));
    WeightAppend(after, Children(t));
    SuccessorsWeight(t.board, Point(t.row, t.col), t.pathLength);
  }

  /** Retrieving from either end splits the frontier's completions and weight. */
  lemma RetrieveSplit(before: seq<TraceState>, after: seq<TraceState>, t: TraceState, d: Discipline)
    requires d == Stack ==> before == after + [t]
    requires d == Queue ==> before == [t] + after
    ensures Completions(before) == Completions(after) + Completions([t])
    ensures Weight(before) == Weight(after) + StateWeight(t)
  {
    CompletionsOne(t);
    if d == Stack {
      CompletionsAppend(after, [t]);
      WeightAppend(after, [t]);
    } else {
      CompletionsAppend([t], after);
      WeightAppend([t], after);
    }
  }

  /**
    The result of a search from an empty bestPaths: every member has one
    length, no complete path reachable from the seeds is shorter, and every
    reachable complete path of that length is a member.
  */
  lemma BestPathsMinimal(seeds: seq<TraceState>, done: seq<TraceState>)
    requires multiset(done) == Completions(seeds)
    ensures var best := RecordAll([], done);
      && Uniform(best)
      && (forall t | t in best :: t in Completions(seeds) && t.IsComplete())
      && (forall t, u | t in best && u in Completions(seeds) :: t.pathLength <= u.pathLength)
      && (forall u | u in Completions(seeds) && (forall v | v in Completions(seeds) :: u.pathLength <= v.pathLength) :: u in best)
  {
    RecordAllShortest(done);
    ShortestSpec(done);
    forall t | t in Completions(seeds)
      ensures t in done && t.IsComplete()
    {
      assert t in multiset(done);
      CompletionsAreComplete(seeds, t);
    }
    forall t | t in done
      ensures t in Completions(seeds)
    {
      assert t in multiset(done);
    }
  }

  /**
    Stack and queue disciplines end with the same bestPaths up to order:
    two complete drains of the same seeds yield the same multiset of
    shortest paths.
  */
  lemma DisciplinesAgree(seeds: seq<TraceState>, stackDone: seq<TraceState>, queueDone: seq<TraceState>)
    requires multiset(stackDone) == Completions(seeds)
    requires multiset(queueDone) == Completions(seeds)
    ensures multiset(RecordAll([], stackDone)) == multiset(RecordAll([], queueDone))
  {
    RecordAllShortest(stackDone);
    RecordAllShortest(queueDone);
    ShortestIgnoresOrder(stackDone, queueDone);
  }
}
