/** The guard patrol simulator (day06/src/main.rs): a boolean obstacle grid,
    a guard with a position and a facing, the rule "walk, then turn right
    while the cell ahead is blocked", a walk that counts the distinct cells
    reached, a cycle detector over (x, y, direction) states, and the search
    for single extra obstacles that trap the guard.

    The pure part of this module is the step rule as a state machine; the
    class `GuardMap` below is the mutable map the source works on, and its
    methods are proved against that state machine. */
module GuardPatrol {
  import Counting
  import opened Options

  // ---------------------------------------------------------------------
  // Directions
  // ---------------------------------------------------------------------

  datatype Direction = Up | Right | Down | Left

  /** Place of a direction in the clockwise order Up, Right, Down, Left. */
  function Clockwise(d: Direction): nat
  {
    match d
    case Up => 0
    case Right => 1
    case Down => 2
    case Left => 3
  }

  /** A quarter turn clockwise: one place further in the clockwise order. */
  function TurnRight(d: Direction): (r: Direction)
    ensures Clockwise(r) == (Clockwise(d) + 1) % 4
  {
    match d
    case Up => Right
    case Right => Down
    case Down => Left
    case Left => Up
  }

  /** Turning right has period four: four turns restore the facing, fewer do not. */
  lemma FourTurnsRestore(d: Direction)
    ensures TurnRight(TurnRight(TurnRight(TurnRight(d)))) == d
    ensures TurnRight(d) != d && TurnRight(TurnRight(d)) != d
    ensures TurnRight(TurnRight(TurnRight(d))) != d
  {
    assert forall e: Direction, f: Direction :: Clockwise(e) == Clockwise(f) ==> e == f;
  }

  /** The map character that marks a guard facing `d`. */
  function Glyph(d: Direction): char
  {
    match d
    case Up => '^'
    case Right => '>'
    case Down => 'v'
    case Left => '<'
  }

  predicate IsDirectionChar(c: char)
    ensures IsDirectionChar(c) <==> exists d: Direction :: Glyph(d) == c
  {
    assert c == '^' ==> Glyph(Up) == c;
    assert c == '>' ==> Glyph(Right) == c;
    assert c == 'v' ==> Glyph(Down) == c;
    assert c == '<' ==> Glyph(Left) == c;
    c == '^' || c == '>' || c == 'v' || c == '<'
  }

  /** The facing a direction glyph marks (the source panics on any other character). */
  function FromChar(c: char): (d: Direction)
    requires IsDirectionChar(c)
    ensures Glyph(d) == c
  {
    match c
    case '^' => Up
    case '>' => Right
    case 'v' => Down
    case '<' => Left
  }

  lemma GlyphRoundTrip(d: Direction)
    ensures IsDirectionChar(Glyph(d)) && FromChar(Glyph(d)) == d
  {
    assert forall e: Direction, f: Direction :: Glyph(e) == Glyph(f) ==> e == f;
  }

  // ---------------------------------------------------------------------
  // The grid and the guard's state
  // ---------------------------------------------------------------------

  /** `grid[y][x]` is true where the cell holds an obstacle. */
  type Grid = seq<seq<bool>>

  /** A non-empty rectangle: every row as long as the first, which is not empty. */
  ghost predicate ValidGrid(grid: Grid)
  {
    |grid| > 0 && |grid[0]| > 0 && forall y :: 0 <= y < |grid| ==> |grid[y]| == |grid[0]|
  }

  ghost predicate InGrid(grid: Grid, x: int, y: int)
  {
    |grid| > 0 && 0 <= y < |grid| && 0 <= x < |grid[0]|
  }

  /** The guard: a position (x is the column, y the row) and a facing. */
  datatype State = State(x: nat, y: nat, dir: Direction)
  {
    function Position(): (nat, nat) { (x, y) }
  }

  ghost predicate OnGrid(grid: Grid, s: State)
  {
    InGrid(grid, s.x, s.y)
  }

  /** Column and row offsets of one step in direction `d` (rows grow downwards). */
  function DeltaX(d: Direction): int
  {
    match d
    case Right => 1
    case Left => -1
    case _ => 0
  }

  function DeltaY(d: Direction): int
  {
    match d
    case Down => 1
    case Up => -1
    case _ => 0
  }

  /** `determine_next_position`: the cell one step ahead. It is one step
      away, along the axis the guard faces. The subtractions of the source
      underflow at the top and left edges, hence the preconditions. */
  function NextPosition(x: nat, y: nat, d: Direction): (p: (nat, nat))
    requires d == Up ==> y > 0
    requires d == Left ==> x > 0
    ensures p.0 == x + DeltaX(d) && p.1 == y + DeltaY(d)
    ensures (p.0 == x) != (p.1 == y)
    ensures -1 <= p.0 - x <= 1 && -1 <= p.1 - y <= 1
  {
    match d
    case Up => (x, y - 1)
    case Right => (x + 1, y)
    case Down => (x, y + 1)
    case Left => (x - 1, y)
  }

  /** `next_walk_out_of_map`: the guard stands on the edge it faces. The
      right edge is taken from the length of the first row. */
  predicate ExitsNext(grid: Grid, s: State)
    requires ValidGrid(grid)
  {
    || (s.dir == Up && s.y == 0)
    || (s.dir == Right && s.x == |grid[0]| - 1)
    || (s.dir == Down && s.y == |grid| - 1)
    || (s.dir == Left && s.x == 0)
  }

  /** The guard leaves the map on its next step exactly when the cell ahead
      lies outside the grid; otherwise the next position is on the grid. */
  lemma ExitsNextIffAheadOutside(grid: Grid, s: State)
    requires ValidGrid(grid) && OnGrid(grid, s)
    ensures ExitsNext(grid, s) <==> !InGrid(grid, s.x + DeltaX(s.dir), s.y + DeltaY(s.dir))
    ensures !ExitsNext(grid, s) ==>
              var p := NextPosition(s.x, s.y, s.dir);
              InGrid(grid, p.0, p.1) && p == (s.x + DeltaX(s.dir), s.y + DeltaY(s.dir))
  {
  }

  /** The check in `rotate_right_if_something_in_front`: the cell ahead is an obstacle. */
  predicate Blocked(grid: Grid, s: State)
    requires ValidGrid(grid) && OnGrid(grid, s) && !ExitsNext(grid, s)
  {
    var p := NextPosition(s.x, s.y, s.dir);
    grid[p.1][p.0]
  }

  /** `walk`: move one cell ahead, keeping the facing. */
  function Walked(grid: Grid, s: State): (r: State)
    requires ValidGrid(grid) && OnGrid(grid, s) && !ExitsNext(grid, s)
    ensures OnGrid(grid, r) && r.dir == s.dir
    ensures r.x == s.x + DeltaX(s.dir) && r.y == s.y + DeltaY(s.dir)
  {
    var p := NextPosition(s.x, s.y, s.dir);
    State(p.0, p.1, s.dir)
  }

  /** A right turn on the spot. */
  function Turned(s: State): (r: State)
    ensures r.Position() == s.Position() && r.dir == TurnRight(s.dir)
  {
    State(s.x, s.y, TurnRight(s.dir))
  }

  // ---------------------------------------------------------------------
  // The step rule as a state machine
  // ---------------------------------------------------------------------

  /** One recorded step of the patrol: a guard about to leave stays put (the
      run is over), a guard facing an obstacle turns right, any other guard
      walks. */
  function Advance(grid: Grid, s: State): (r: State)
    requires ValidGrid(grid) && OnGrid(grid, s)
    ensures OnGrid(grid, r)
  {
    if ExitsNext(grid, s) then s
    else if Blocked(grid, s) then Turned(s)
    else Walked(grid, s)
  }

  function Iterate(grid: Grid, s: State, n: nat): (r: State)
    requires ValidGrid(grid) && OnGrid(grid, s)
    ensures OnGrid(grid, r)
    decreases n
  {
    if n == 0 then s else Iterate(grid, Advance(grid, s), n - 1)
  }

  /** The i-th state the patrol records, counted from 0. The first move from
      the start is a walk taken without looking at the cell ahead; every later
      one follows `Advance`. */
  ghost function Trace(grid: Grid, start: State, i: nat): (r: State)
    requires ValidGrid(grid) && OnGrid(grid, start) && !ExitsNext(grid, start)
    ensures OnGrid(grid, r)
  {
    Iterate(grid, Walked(grid, start), i)
  }

  /** The guard leaves the map: at once, or from some recorded state. */
  ghost predicate Escapes(grid: Grid, start: State)
    requires ValidGrid(grid) && OnGrid(grid, start)
  {
    ExitsNext(grid, start) || exists n: nat :: ExitsNext(grid, Trace(grid, start, n))
  }

  /** The guard never leaves the map. */
  ghost predicate Loops(grid: Grid, start: State)
    requires ValidGrid(grid) && OnGrid(grid, start)
  {
    !ExitsNext(grid, start) && forall n: nat :: !ExitsNext(grid, Trace(grid, start, n))
  }

  lemma {:induction false} IterateAdd(grid: Grid, s: State, a: nat, b: nat)
    requires ValidGrid(grid) && OnGrid(grid, s)
    ensures Iterate(grid, s, a + b) == Iterate(grid, Iterate(grid, s, a), b)
    decreases a
  {
    if a > 0 {
      IterateAdd(grid, Advance(grid, s), a - 1, b);
    }
  }

  /** Each recorded state follows from the previous one by `Advance`. */
  lemma TraceNext(grid: Grid, start: State, k: nat)
    requires ValidGrid(grid) && OnGrid(grid, start) && !ExitsNext(grid, start)
    ensures Trace(grid, start, k + 1) == Advance(grid, Trace(grid, start, k))
  {
    IterateAdd(grid, Walked(grid, start), k, 1);
  }

  /** A guard that is about to leave stays where it is from then on. */
  lemma {:induction false} ExitIsFinal(grid: Grid, s: State, a: nat)
    requires ValidGrid(grid) && OnGrid(grid, s)
    requires ExitsNext(grid, Iterate(grid, s, a))
    ensures forall b: nat :: a <= b ==> Iterate(grid, s, b) == Iterate(grid, s, a)
  {
    forall b: nat | a <= b
      ensures Iterate(grid, s, b) == Iterate(grid, s, a)
    {
      ExitStays(grid, Iterate(grid, s, a), b - a);
      IterateAdd(grid, s, a, b - a);
    }
  }

  lemma {:induction false} ExitStays(grid: Grid, s: State, n: nat)
    requires ValidGrid(grid) && OnGrid(grid, s) && ExitsNext(grid, s)
    ensures Iterate(grid, s, n) == s
    decreases n
  {
    if n > 0 {
      ExitStays(grid, s, n - 1);
      IterateAdd(grid, s, 1, n - 1);
    }
  }

  /** Cycle detection is sound: once a recorded state repeats before the
      guard was ever about to leave, the guard never leaves. */
  lemma {:induction false} RepeatMeansLoop(grid: Grid, start: State, i: nat, j: nat)
    requires ValidGrid(grid) && OnGrid(grid, start) && !ExitsNext(grid, start)
    requires i < j && Trace(grid, start, i) == Trace(grid, start, j)
    requires forall k: nat :: k < j ==> !ExitsNext(grid, Trace(grid, start, k))
    ensures Loops(grid, start)
  {
    forall n: nat
      ensures !ExitsNext(grid, Trace(grid, start, n))
    {
      NoExitAt(grid, start, i, j, n);
    }
  }

  lemma {:induction false} NoExitAt(grid: Grid, start: State, i: nat, j: nat, n: nat)
    requires ValidGrid(grid) && OnGrid(grid, start) && !ExitsNext(grid, start)
    requires i < j && Trace(grid, start, i) == Trace(grid, start, j)
    requires forall k: nat :: k < j ==> !ExitsNext(grid, Trace(grid, start, k))
    ensures !ExitsNext(grid, Trace(grid, start, n))
    decreases n
  {
    if j <= n {
      var first := Walked(grid, start);
      IterateAdd(grid, first, j, n - j);
      IterateAdd(grid, first, i, n - j);
      assert Trace(grid, start, n) == Trace(grid, start, i + (n - j));
      NoExitAt(grid, start, i, j, i + (n - j));
    }
  }

  // ---------------------------------------------------------------------
  // What the two drivers compute
  // ---------------------------------------------------------------------

  /** The first index from which the iteration is about to leave, no later than `n`. */
  ghost function FirstExit(grid: Grid, s: State, n: nat): (r: nat)
    requires ValidGrid(grid) && OnGrid(grid, s) && ExitsNext(grid, Iterate(grid, s, n))
    ensures r <= n && ExitsNext(grid, Iterate(grid, s, r))
    ensures forall k: nat :: k < r ==> !ExitsNext(grid, Iterate(grid, s, k))
    decreases n
  {
    if ExitsNext(grid, s) then 0
    else
      var r := 1 + FirstExit(grid, Advance(grid, s), n - 1);
      assert forall k: nat :: 0 < k ==> Iterate(grid, s, k) == Iterate(grid, Advance(grid, s), k - 1);
      r
  }

  /** Index of the recorded state from which an escaping guard leaves. */
  ghost function ExitIndex(grid: Grid, start: State): (e: nat)
    requires ValidGrid(grid) && OnGrid(grid, start) && !ExitsNext(grid, start)
    requires Escapes(grid, start)
    ensures ExitsNext(grid, Trace(grid, start, e))
    ensures forall k: nat :: k < e ==> !ExitsNext(grid, Trace(grid, start, k))
  {
    var n: nat :| ExitsNext(grid, Trace(grid, start, n));
    FirstExit(grid, Walked(grid, start), n)
  }

  /** The state in which the guard faces out of the map: the start itself,
      or the first recorded state that does. */
  ghost function ExitState(grid: Grid, start: State): (r: State)
    requires ValidGrid(grid) && OnGrid(grid, start) && Escapes(grid, start)
    ensures OnGrid(grid, r) && ExitsNext(grid, r)
  {
    if ExitsNext(grid, start) then start else Trace(grid, start, ExitIndex(grid, start))
  }

  /** The first recorded state that faces out of the map is the exit state. */
  lemma ExitAt(grid: Grid, start: State, k: nat)
    requires ValidGrid(grid) && OnGrid(grid, start) && !ExitsNext(grid, start)
    requires ExitsNext(grid, Trace(grid, start, k))
    requires forall i: nat :: i < k ==> !ExitsNext(grid, Trace(grid, start, i))
    ensures Escapes(grid, start) && ExitIndex(grid, start) == k
    ensures ExitState(grid, start) == Trace(grid, start, k)
  {
    assert Escapes(grid, start);
    var e := ExitIndex(grid, start);
    assert ExitsNext(grid, Trace(grid, start, e));
  }

  /** Positions of the first `k` recorded states. */
  ghost function Reached(grid: Grid, start: State, k: nat): set<(nat, nat)>
    requires ValidGrid(grid) && OnGrid(grid, start) && !ExitsNext(grid, start)
  {
    set i: nat | i < k :: Trace(grid, start, i).Position()
  }

  /** The cells `walk_till_out_of_map` counts: every position reached by a
      walk step up to the one from which the guard leaves. The start cell is
      among them only when the guard walks back onto it. */
  ghost function Visited(grid: Grid, start: State): set<(nat, nat)>
    requires ValidGrid(grid) && OnGrid(grid, start) && Escapes(grid, start)
  {
    if ExitsNext(grid, start) then {} else Reached(grid, start, ExitIndex(grid, start) + 1)
  }

  lemma ReachedNext(grid: Grid, start: State, k: nat)
    requires ValidGrid(grid) && OnGrid(grid, start) && !ExitsNext(grid, start)
    ensures Reached(grid, start, k + 1) == Reached(grid, start, k) + {Trace(grid, start, k).Position()}
  {
    var lhs := Reached(grid, start, k + 1);
    var rhs := Reached(grid, start, k) + {Trace(grid, start, k).Position()};
    forall p | p in lhs ensures p in rhs {
      var i: nat :| i < k + 1 && Trace(grid, start, i).Position() == p;
      if i < k { assert p in Reached(grid, start, k); }
    }
    forall p | p in rhs ensures p in lhs {
      if p in Reached(grid, start, k) {
        var i: nat :| i < k && Trace(grid, start, i).Position() == p;
        assert Trace(grid, start, i).Position() in lhs;
      } else {
        assert Trace(grid, start, k).Position() in lhs;
      }
    }
  }

  /** A turn recorded before the exit keeps the guard on its cell, so the
      set of reached cells does not grow. */
  lemma TurnStep(grid: Grid, start: State, k: nat)
    requires ValidGrid(grid) && OnGrid(grid, start) && !ExitsNext(grid, start) && Escapes(grid, start)
    requires k <= ExitIndex(grid, start)
    requires !ExitsNext(grid, Trace(grid, start, k)) && Blocked(grid, Trace(grid, start, k))
    ensures k < ExitIndex(grid, start)
    ensures Trace(grid, start, k + 1) == Turned(Trace(grid, start, k))
    ensures Reached(grid, start, k + 2) == Reached(grid, start, k + 1)
  {
    TraceNext(grid, start, k);
    ReachedNext(grid, start, k + 1);
  }

  /** A walk recorded before the exit adds the new cell to the reached ones. */
  lemma WalkStep(grid: Grid, start: State, k: nat)
    requires ValidGrid(grid) && OnGrid(grid, start) && !ExitsNext(grid, start) && Escapes(grid, start)
    requires k <= ExitIndex(grid, start)
    requires !ExitsNext(grid, Trace(grid, start, k)) && !Blocked(grid, Trace(grid, start, k))
    ensures k < ExitIndex(grid, start)
    ensures Trace(grid, start, k + 1) == Walked(grid, Trace(grid, start, k))
    ensures Reached(grid, start, k + 2) == Reached(grid, start, k + 1) + {Trace(grid, start, k + 1).Position()}
  {
    TraceNext(grid, start, k);
    ReachedNext(grid, start, k + 1);
  }

  /** Leaving from a recorded state no later than the first exit: the
      cells reached so far are all the cells visited. */
  lemma ExitReached(grid: Grid, start: State, k: nat)
    requires ValidGrid(grid) && OnGrid(grid, start) && !ExitsNext(grid, start) && Escapes(grid, start)
    requires k <= ExitIndex(grid, start) && ExitsNext(grid, Trace(grid, start, k))
    ensures Visited(grid, start) == Reached(grid, start, k + 1)
  {
  }

  /** The first, unconditional walk is recorded first. */
  lemma FirstWalk(grid: Grid, start: State)
    requires ValidGrid(grid) && OnGrid(grid, start) && !ExitsNext(grid, start)
    ensures Trace(grid, start, 0) == Walked(grid, start)
    ensures Reached(grid, start, 1) == {Walked(grid, start).Position()}
  {
    ReachedNext(grid, start, 0);
    assert Reached(grid, start, 0) == {};
  }

  /** `steps` holds the first |steps| recorded states, pairwise distinct,
      and no state before the last one is about to leave. */
  ghost predicate Recorded(grid: Grid, start: State, steps: seq<State>)
  {
    && ValidGrid(grid) && OnGrid(grid, start) && !ExitsNext(grid, start)
    && (forall i :: 0 <= i < |steps| ==> steps[i] == Trace(grid, start, i))
    && (forall i, j :: 0 <= i < j < |steps| ==> steps[i] != steps[j])
    && (forall i :: 0 <= i < |steps| - 1 ==> !ExitsNext(grid, steps[i]))
  }

  /** Order-preserving code of a cell, in [0, R·C). */
  function CellCode(grid: Grid, p: (nat, nat)): int
    requires |grid| > 0
  {
    p.1 * |grid[0]| + p.0
  }

  /** Order-preserving code of a state, in [0, 4·R·C). */
  function StateCode(grid: Grid, s: State): int
    requires |grid| > 0
  {
    CellCode(grid, s.Position()) * 4 + Clockwise(s.dir)
  }

  lemma MixedRadixOrder(a: nat, b: nat, c: nat, d: nat, base: nat)
    requires b < base
    ensures a < c ==> a * base + b < c * base + d
  {
    if a < c {
      assert a * base + b < (a + 1) * base <= c * base;
    }
  }

  /** Digits in a mixed radix are determined by the number they spell. */
  lemma MixedRadix(a: nat, b: nat, c: nat, d: nat, base: nat)
    requires b < base && d < base && a * base + b == c * base + d
    ensures a == c && b == d
  {
    MixedRadixOrder(a, b, c, d, base);
    MixedRadixOrder(c, d, a, b, base);
  }

  lemma CodeBelow(a: nat, b: nat, bound: nat, base: nat)
    requires a < bound && b < base
    ensures a * base + b < bound * base
  {
    assert a * base + b < (a + 1) * base <= bound * base;
  }

  /** At most R·C distinct cells lie on the grid. */
  lemma CellsBound(grid: Grid, cells: set<(nat, nat)>)
    requires ValidGrid(grid)
    requires forall p :: p in cells ==> InGrid(grid, p.0, p.1)
    ensures |cells| <= |grid| * |grid[0]|
  {
    var code := (p: (nat, nat)) => p.1 * |grid[0]| + p.0;
    forall p, q | p in cells && q in cells && code(p) == code(q) ensures p == q {
      MixedRadix(p.1, p.0, q.1, q.0, |grid[0]|);
    }
    forall p | p in cells ensures 0 <= code(p) < |grid| * |grid[0]| {
      CodeBelow(p.1, p.0, |grid|, |grid[0]|);
    }
    Counting.InjectionBound(cells, code, |grid| * |grid[0]|);
  }

  lemma StateCodeInjective(grid: Grid, s: State, t: State)
    requires ValidGrid(grid) && OnGrid(grid, s) && OnGrid(grid, t)
    requires StateCode(grid, s) == StateCode(grid, t)
    ensures s == t
  {
    MixedRadix(CellCode(grid, s.Position()), Clockwise(s.dir), CellCode(grid, t.Position()), Clockwise(t.dir), 4);
    MixedRadix(s.y, s.x, t.y, t.x, |grid[0]|);
    assert forall e: Direction, f: Direction :: Clockwise(e) == Clockwise(f) ==> e == f;
  }

  lemma StateCodeRange(grid: Grid, s: State)
    requires ValidGrid(grid) && OnGrid(grid, s)
    ensures 0 <= StateCode(grid, s) < 4 * |grid| * |grid[0]|
  {
    CodeBelow(s.y, s.x, |grid|, |grid[0]|);
    CodeBelow(CellCode(grid, s.Position()), Clockwise(s.dir), |grid| * |grid[0]|, 4);
  }

  /** Pigeonhole: pairwise distinct states on the grid number at most 4·R·C. */
  lemma StatesBound(grid: Grid, states: seq<State>)
    requires ValidGrid(grid)
    requires forall i :: 0 <= i < |states| ==> OnGrid(grid, states[i])
    requires forall i, j :: 0 <= i < j < |states| ==> states[i] != states[j]
    ensures |states| <= 4 * |grid| * |grid[0]|
  {
    var all := set s | s in states;
    Counting.DistinctElements(states);
    var code := (s: State) => StateCode(grid, s);
    forall s, t | s in all && t in all && code(s) == code(t) ensures s == t {
      StateCodeInjective(grid, s, t);
    }
    forall s | s in all ensures 0 <= code(s) < 4 * |grid| * |grid[0]| {
      StateCodeRange(grid, s);
    }
    Counting.InjectionBound(all, code, 4 * |grid| * |grid[0]|);
  }

  lemma RecordFirst(grid: Grid, start: State)
    requires ValidGrid(grid) && OnGrid(grid, start) && !ExitsNext(grid, start)
    ensures Recorded(grid, start, [Walked(grid, start)])
    ensures 1 <= 4 * |grid| * |grid[0]|
  {
  }

  /** Recording a new state keeps the record, which cannot outgrow the
      4·R·C states of the grid. */
  lemma RecordNext(grid: Grid, start: State, steps: seq<State>)
    requires Recorded(grid, start, steps) && |steps| > 0
    requires !ExitsNext(grid, steps[|steps| - 1])
    requires Advance(grid, steps[|steps| - 1]) !in steps
    ensures Recorded(grid, start, steps + [Advance(grid, steps[|steps| - 1])])
    ensures |steps| + 1 <= 4 * |grid| * |grid[0]|
  {
    TraceNext(grid, start, |steps| - 1);
    var more := steps + [Advance(grid, steps[|steps| - 1])];
    StatesBound(grid, more);
  }

  /** A state that was already recorded means the guard loops. */
  lemma RepeatFound(grid: Grid, start: State, steps: seq<State>)
    requires Recorded(grid, start, steps) && |steps| > 0
    requires !ExitsNext(grid, steps[|steps| - 1])
    requires Advance(grid, steps[|steps| - 1]) in steps
    ensures Loops(grid, start)
  {
    var n := |steps|;
    TraceNext(grid, start, n - 1);
    var i :| 0 <= i < n && steps[i] == Advance(grid, steps[n - 1]);
    RepeatMeansLoop(grid, start, i, n);
  }

  /** The guard reaches at most R·C distinct cells before it leaves. */
  lemma VisitedBound(grid: Grid, start: State)
    requires ValidGrid(grid) && OnGrid(grid, start) && Escapes(grid, start)
    ensures |Visited(grid, start)| <= |grid| * |grid[0]|
  {
    var cells := Visited(grid, start);
    forall p | p in cells ensures InGrid(grid, p.0, p.1) {
      var i: nat :| Trace(grid, start, i).Position() == p;
    }
    CellsBound(grid, cells);
  }

  /** Only the first, unconditional step can enter an obstacle: when it lands
      on open floor, every later recorded state is on open floor too. */
  lemma {:induction false} StaysOnFloor(grid: Grid, start: State, n: nat)
    requires ValidGrid(grid) && OnGrid(grid, start) && !ExitsNext(grid, start)
    requires !grid[Trace(grid, start, 0).y][Trace(grid, start, 0).x]
    ensures !grid[Trace(grid, start, n).y][Trace(grid, start, n).x]
    decreases n
  {
    if n > 0 {
      StaysOnFloor(grid, start, n - 1);
      IterateAdd(grid, Walked(grid, start), n - 1, 1);
    }
  }

  /** The cells the obstruction search tries: on the grid, open, and not the guard's cell. */
  ghost function Candidates(grid: Grid, start: State): set<(nat, nat)>
    requires ValidGrid(grid)
  {
    set x: nat, y: nat | y < |grid| && x < |grid[0]| && (x, y) != start.Position() && !grid[y][x] :: (x, y)
  }

  function WithObstacle(grid: Grid, x: nat, y: nat): (g: Grid)
    requires ValidGrid(grid) && InGrid(grid, x, y)
    ensures ValidGrid(g) && |g| == |grid| && |g[0]| == |grid[0]|
    ensures forall v, u :: 0 <= v < |grid| && 0 <= u < |grid[0]| ==> (g[v][u] <==> grid[v][u] || (u, v) == (x, y))
  {
    grid[y := grid[y][x := true]]
  }

  /** The cells whose extra obstacle traps the guard in a loop. */
  ghost function LoopObstacles(grid: Grid, start: State): set<(nat, nat)>
    requires ValidGrid(grid) && OnGrid(grid, start)
  {
    set p | p in Candidates(grid, start) && Loops(WithObstacle(grid, p.0, p.1), start)
  }

  /** The cells of `cells` that come before (x, y) in row-major order. */
  ghost function CellsBefore(cells: set<(nat, nat)>, x: nat, y: nat): set<(nat, nat)>
  {
    set p | p in cells && (p.1 < y || (p.1 == y && p.0 < x))
  }

  lemma {:induction false} CellsBeforeStep(cells: set<(nat, nat)>, x: nat, y: nat)
    ensures |CellsBefore(cells, x + 1, y)| == |CellsBefore(cells, x, y)| + (if (x, y) in cells then 1 else 0)
  {
    var before := CellsBefore(cells, x, y);
    if (x, y) in cells {
      assert CellsBefore(cells, x + 1, y) == before + {(x, y)};
    } else {
      assert CellsBefore(cells, x + 1, y) == before;
    }
  }

  /** The trapping cells that come before (x, y) in row-major order. */
  ghost function LoopObstaclesBefore(grid: Grid, start: State, x: nat, y: nat): set<(nat, nat)>
    requires ValidGrid(grid) && OnGrid(grid, start)
  {
    CellsBefore(LoopObstacles(grid, start), x, y)
  }

  /** Trying the cell (x, y) adds one to the count of cells found before it
      exactly when it is a candidate whose extra obstacle traps the guard. */
  lemma LoopObstaclesStep(grid: Grid, start: State, x: nat, y: nat)
    requires ValidGrid(grid) && OnGrid(grid, start) && InGrid(grid, x, y)
    ensures |LoopObstaclesBefore(grid, start, x + 1, y)| ==
              |LoopObstaclesBefore(grid, start, x, y)| +
              (if (x, y) != start.Position() && !grid[y][x] && Loops(WithObstacle(grid, x, y), start) then 1 else 0)
  {
    CellsBeforeStep(LoopObstacles(grid, start), x, y);
  }

  lemma LoopObstaclesRows(grid: Grid, start: State, y: nat)
    requires ValidGrid(grid) && OnGrid(grid, start)
    ensures LoopObstaclesBefore(grid, start, 0, 0) == {}
    ensures LoopObstaclesBefore(grid, start, |grid[0]|, y) == LoopObstaclesBefore(grid, start, 0, y + 1)
    ensures LoopObstaclesBefore(grid, start, 0, |grid|) == LoopObstacles(grid, start)
  {
  }

  lemma LoopObstaclesBound(grid: Grid, start: State)
    requires ValidGrid(grid) && OnGrid(grid, start)
    ensures |LoopObstacles(grid, start)| <= |Candidates(grid, start)| < |grid| * |grid[0]|
  {
    var cells := set x: nat, y: nat | y < |grid| && x < |grid[0]| :: (x, y);
    assert start.Position() in cells && start.Position() !in Candidates(grid, start);
    Counting.SubsetBound(LoopObstacles(grid, start), Candidates(grid, start));
    Counting.SubsetBound(Candidates(grid, start), cells);
    CellsBound(grid, cells);
  }

  /** The boundary case: on a 1×1 map the guard leaves at once whatever its
      facing, no cell is reached by a walk, and no cell is left to obstruct. */
  lemma SingleCellMap(d: Direction)
    ensures var grid := [[false]]; var s := State(0, 0, d);
      ValidGrid(grid) && OnGrid(grid, s) && ExitsNext(grid, s) &&
      Visited(grid, s) == {} && Candidates(grid, s) == {}
  {
    var grid := [[false]];
    var s := State(0, 0, d);
    assert forall p :: p in Candidates(grid, s) ==> p == (0, 0);
  }

  // ---------------------------------------------------------------------
  // Parsing
  // ---------------------------------------------------------------------

  /** A map text whose rows all have the length of the first, non-empty row. */
  ghost predicate ValidLines(lines: seq<string>)
  {
    |lines| > 0 && |lines[0]| > 0 && forall y :: 0 <= y < |lines| ==> |lines[y]| == |lines[0]|
  }

  /** The obstacle grid of `GuardMap::parse`: a cell is an obstacle exactly
      when its character is '#'; every other character is open floor. */
  function ParseGrid(lines: seq<string>): (grid: Grid)
    ensures |grid| == |lines|
    ensures forall y :: 0 <= y < |lines| ==> |grid[y]| == |lines[y]|
    ensures forall y, x :: 0 <= y < |lines| && 0 <= x < |lines[y]| ==> (grid[y][x] <==> lines[y][x] == '#')
    ensures ValidLines(lines) ==> ValidGrid(grid)
  {
    seq(|lines|, y requires 0 <= y < |lines| =>
      seq(|lines[y]|, x requires 0 <= x < |lines[y]| => lines[y][x] == '#'))
  }

  ghost predicate GlyphAt(lines: seq<string>, x: int, y: int)
  {
    0 <= y < |lines| && 0 <= x < |lines[y]| && IsDirectionChar(lines[y][x])
  }

  /** Row-major order: row first, then column. */
  ghost predicate After(x: int, y: int, x0: int, y0: int)
  {
    y > y0 || (y == y0 && x > x0)
  }

  /** Column of the last direction glyph among the first `n` characters of `row`. */
  function LastGlyphInRow(row: string, n: nat): (r: Option<nat>)
    requires n <= |row|
    ensures r.None? ==> forall x :: 0 <= x < n ==> !IsDirectionChar(row[x])
    ensures r.Some? ==> r.value < n && IsDirectionChar(row[r.value])
    ensures r.Some? ==> forall x :: r.value < x < n ==> !IsDirectionChar(row[x])
    decreases n
  {
    if n == 0 then None
    else if IsDirectionChar(row[n - 1]) then Some(n - 1)
    else LastGlyphInRow(row, n - 1)
  }

  /** Position of the last direction glyph in the first `rows` rows, in row-major order. */
  function LastGlyph(lines: seq<string>, rows: nat): (r: Option<(nat, nat)>)
    requires rows <= |lines|
    ensures r.None? ==> forall y, x :: 0 <= y < rows ==> !GlyphAt(lines, x, y)
    ensures r.Some? ==> r.value.1 < rows && GlyphAt(lines, r.value.0, r.value.1)
    ensures r.Some? ==> forall y, x :: y < rows && After(x, y, r.value.0, r.value.1) ==> !GlyphAt(lines, x, y)
    decreases rows
  {
    if rows == 0 then None
    else
      match LastGlyphInRow(lines[rows - 1], |lines[rows - 1]|)
      case Some(x) => Some((x, rows - 1))
      case None => LastGlyph(lines, rows - 1)
  }

  /** Position of the last direction glyph before column `x` of row `y`,
      in row-major order. */
  function ScanGlyph(lines: seq<string>, y: nat, x: nat): Option<(nat, nat)>
    requires y < |lines| && x <= |lines[y]|
  {
    match LastGlyphInRow(lines[y], x)
    case Some(c) => Some((c, y))
    case None => LastGlyph(lines, y)
  }

  /** The guard `(pos, dir)` stands on the glyph `found`, or is the default. */
  ghost predicate GuardFrom(lines: seq<string>, found: Option<(nat, nat)>, pos: (nat, nat), dir: Direction)
  {
    match found
    case None => pos == (0, 0) && dir == Up
    case Some(p) => pos == p && p.1 < |lines| && p.0 < |lines[p.1]| && Glyph(dir) == lines[p.1][p.0]
  }

  /** The guard of `GuardMap::parse`: the position and facing of the last
      direction glyph in row-major order, or (0, 0) facing up when the map
      has none. */
  function ParseGuard(lines: seq<string>): (s: State)
    ensures (forall y, x :: !GlyphAt(lines, x, y)) ==> s == State(0, 0, Up)
    ensures (exists y, x :: GlyphAt(lines, x, y)) ==>
              && GlyphAt(lines, s.x, s.y)
              && Glyph(s.dir) == lines[s.y][s.x]
              && forall y, x :: After(x, y, s.x, s.y) ==> !GlyphAt(lines, x, y)
    ensures ValidLines(lines) ==> OnGrid(ParseGrid(lines), s)
  {
    match LastGlyph(lines, |lines|)
    case Some(p) => State(p.0, p.1, FromChar(lines[p.1][p.0]))
    case None => State(0, 0, Up)
  }

  // ---------------------------------------------------------------------
  // The mutable map
  // ---------------------------------------------------------------------

  /** `GuardMap`: the obstacle grid and the guard's mutable position and facing. */
  class GuardMap {
    var obstacles: Grid
    var guardPos: (nat, nat)
    var guardDir: Direction

    ghost predicate Valid()
      reads this
    {
      ValidGrid(obstacles) && OnGrid(obstacles, Guard())
    }

    function Guard(): State
      reads this
    {
      State(guardPos.0, guardPos.1, guardDir)
    }

    constructor (obstacles: Grid, pos: (nat, nat), dir: Direction)
      ensures this.obstacles == obstacles && guardPos == pos && guardDir == dir
    {
      this.obstacles := obstacles;
      guardPos := pos;
      guardDir := dir;
    }

    /** `GuardMap::parse`: one pass over the characters in row-major order;
        every direction glyph overwrites the guard, so the last one wins. */
    static method Parse(lines: seq<string>) returns (m: GuardMap)
      ensures fresh(m)
      ensures m.obstacles == ParseGrid(lines) && m.Guard() == ParseGuard(lines)
      ensures ValidLines(lines) ==> m.Valid()
    {
      ghost var grid := ParseGrid(lines);
      var pos: (nat, nat) := (0, 0);
      var dir := Up;
      var rows: Grid := [];
      for y := 0 to |lines|
        invariant rows == grid[..y]
        invariant GuardFrom(lines, LastGlyph(lines, y), pos, dir)
      {
        var row: seq<bool> := [];
        for x := 0 to |lines[y]|
          invariant row == grid[y][..x]
          invariant GuardFrom(lines, ScanGlyph(lines, y, x), pos, dir)
        {
          var c := lines[y][x];
          if IsDirectionChar(c) {
            pos := (x, y);
            dir := FromChar(c);
          }
          row := row + [c == '#'];
        }
        assert row == grid[y];
        rows := rows + [row];
      }
      assert rows == grid;
      m := new GuardMap(rows, pos, dir);
      GlyphRoundTrip(dir);
    }

    /** `#[derive(Clone)]`: a fresh map with the same grid and guard. */
    method Clone() returns (m: GuardMap)
      ensures fresh(m) && m.obstacles == obstacles && m.Guard() == Guard()
    {
      m := new GuardMap(obstacles, guardPos, guardDir);
    }

    /** `next_walk_out_of_map`: the guard stands at the edge it faces, so
        the cell ahead lies outside the map. */
    predicate NextWalkOutOfMap()
      requires Valid()
      reads this
      ensures NextWalkOutOfMap() <==> !InGrid(obstacles, guardPos.0 + DeltaX(guardDir), guardPos.1 + DeltaY(guardDir))
    {
      ExitsNextIffAheadOutside(obstacles, Guard());
      ExitsNext(obstacles, Guard())
    }

    /** `walk`: the guard moves to the cell ahead; its facing and the map stay. */
    method Walk()
      requires guardDir == Up ==> guardPos.1 > 0
      requires guardDir == Left ==> guardPos.0 > 0
      modifies this`guardPos
      ensures guardPos == NextPosition(old(guardPos.0), old(guardPos.1), guardDir)
    {
      guardPos := NextPosition(guardPos.0, guardPos.1, guardDir);
    }

    /** `rotate_right_if_something_in_front`: a guard that is not about to
        leave and faces an obstacle turns right and reports it; otherwise
        nothing changes. The guard never moves. */
    method RotateRightIfSomethingInFront() returns (turned: bool)
      requires Valid()
      modifies this`guardDir
      ensures Valid()
      ensures turned <==> !ExitsNext(obstacles, old(Guard())) && Blocked(obstacles, old(Guard()))
      ensures guardPos == old(guardPos)
      ensures guardDir == if turned then TurnRight(old(guardDir)) else old(guardDir)
      ensures turned ==> Guard() == Advance(obstacles, old(Guard()))
    {
      turned := false;
      if !NextWalkOutOfMap() {
        var next := NextPosition(guardPos.0, guardPos.1, guardDir);
        if obstacles[next.1][next.0] {
          guardDir := TurnRight(guardDir);
          turned := true;
        }
      }
    }

    /** The inner loop of `walk_till_out_of_map`: turn right for as long as
        the cell ahead is blocked. The guard stays on its cell, and each turn
        is the next recorded state. */
    method TurnWhileBlocked(ghost start: State, ghost k: nat) returns (ghost k': nat)
      requires Valid() && OnGrid(obstacles, start) && !ExitsNext(obstacles, start)
      requires Escapes(obstacles, start) && k <= ExitIndex(obstacles, start)
      requires Guard() == Trace(obstacles, start, k)
      modifies this`guardDir
      ensures Valid() && guardPos == old(guardPos)
      ensures k <= k' <= ExitIndex(obstacles, start) && Guard() == Trace(obstacles, start, k')
      ensures ExitsNext(obstacles, Guard()) || !Blocked(obstacles, Guard())
      ensures Reached(obstacles, start, k' + 1) == Reached(obstacles, start, k + 1)
    {
      ghost var grid := obstacles;
      k' := k;
      var turned := RotateRightIfSomethingInFront();
      if turned {
        TurnStep(grid, start, k');
      }
      while turned
        invariant obstacles == grid && Valid() && guardPos == old(guardPos)
        invariant k <= k' <= ExitIndex(grid, start)
        invariant turned ==> k' < ExitIndex(grid, start) && Guard() == Trace(grid, start, k' + 1)
        invariant turned ==> Reached(grid, start, k' + 2) == Reached(grid, start, k' + 1)
        invariant !turned ==> Guard() == Trace(grid, start, k')
        invariant !turned ==> ExitsNext(grid, Guard()) || !Blocked(grid, Guard())
        invariant Reached(grid, start, k' + 1) == Reached(grid, start, k + 1)
        decreases ExitIndex(grid, start) - k' + (if turned then 1 else 0)
      {
        k' := k' + 1;
        turned := RotateRightIfSomethingInFront();
        if turned {
          TurnStep(grid, start, k');
        }
      }
    }

    /** `walk_till_out_of_map`: walk, turn while blocked, record the cell,
        until the guard faces out of the map; the number of distinct cells
        recorded. The source loops forever on a map the guard never leaves,
        hence the precondition. */
    method WalkTillOutOfMap() returns (count: nat)
      requires Valid() && Escapes(obstacles, Guard())
      modifies this`guardPos, this`guardDir
      ensures Valid() && ExitsNext(obstacles, Guard())
      ensures Guard() == ExitState(obstacles, old(Guard()))
      ensures count == |Visited(obstacles, old(Guard()))|
      ensures count <= |obstacles| * |obstacles[0]|
    {
      ghost var start := Guard();
      ghost var grid := obstacles;
      ghost var started := false;
      ghost var e: nat := if ExitsNext(grid, start) then 0 else ExitIndex(grid, start);
      ghost var k: nat := 0;
      var visited: set<(nat, nat)> := {};
      while !NextWalkOutOfMap()
        invariant obstacles == grid && Valid() && Escapes(grid, start)
        invariant !ExitsNext(grid, start) ==> e == ExitIndex(grid, start)
        invariant !started ==> Guard() == start && visited == {} && k == 0
        invariant started ==> !ExitsNext(grid, start) && k <= e
        invariant started ==> Guard() == Trace(grid, start, k)
        invariant started ==> visited == Reached(grid, start, k + 1)
        invariant started ==> ExitsNext(grid, Guard()) || !Blocked(grid, Guard())
        decreases if started then e - k else e + 1
      {
        if started {
          WalkStep(grid, start, k);
          k := k + 1;
        } else {
          FirstWalk(grid, start);
        }
        Walk();
        started := true;
        k := TurnWhileBlocked(start, k);
        visited := visited + {guardPos};
      }
      if started {
        ExitReached(grid, start, k);
        ExitAt(grid, start, k);
      }
      count := |visited|;
      VisitedBound(obstacles, start);
    }

    /** `contains_loop`: walk and turn as `walk_till_out_of_map` does, but
        record every (x, y, direction) state after each walk and each turn;
        report a loop at the first state recorded twice, and no loop when
        the guard faces out of the map. Recorded states are distinct, so the
        search ends within 4·R·C recordings. */
    method ContainsLoop() returns (looped: bool)
      requires Valid()
      modifies this`guardPos, this`guardDir
      ensures Valid()
      ensures looped <==> Loops(obstacles, old(Guard()))
      ensures !looped ==> Escapes(obstacles, old(Guard())) && Guard() == ExitState(obstacles, old(Guard()))
    {
      ghost var start := Guard();
      ghost var grid := obstacles;
      ghost var bound := 4 * |grid| * |grid[0]|;
      var steps: seq<State> := [];
      while true
        invariant obstacles == grid && Valid()
        invariant |steps| == 0 ==> Guard() == start
        invariant |steps| > 0 ==> Recorded(grid, start, steps) && Guard() == steps[|steps| - 1]
        invariant |steps| > 0 ==> ExitsNext(grid, Guard()) || !Blocked(grid, Guard())
        invariant |steps| <= bound
        decreases bound - |steps|
      {
        if NextWalkOutOfMap() {
          if |steps| > 0 {
            var last := |steps| - 1;
            forall i: nat | i < last ensures !ExitsNext(grid, Trace(grid, start, i)) {
              assert steps[i] == Trace(grid, start, i);
            }
            ExitAt(grid, start, last);
          }
          return false;
        }
        Walk();
        var stepPos := Guard();
        if |steps| == 0 {
          RecordFirst(grid, start);
        }
        if stepPos in steps {
          RepeatFound(grid, start, steps);
          return true;
        }
        if |steps| > 0 {
          RecordNext(grid, start, steps);
        }
        steps := steps + [stepPos];
        ghost var walked := |steps|;
        var turned := RotateRightIfSomethingInFront();
        while turned
          invariant obstacles == grid && Valid() && walked <= |steps|
          invariant |steps| > 0 && Recorded(grid, start, steps) && |steps| <= bound
          invariant turned ==> !ExitsNext(grid, steps[|steps| - 1])
          invariant turned ==> Guard() == Advance(grid, steps[|steps| - 1])
          invariant !turned ==> Guard() == steps[|steps| - 1]
          invariant !turned ==> ExitsNext(grid, Guard()) || !Blocked(grid, Guard())
          decreases bound - |steps| + (if turned then 1 else 0)
        {
          stepPos := Guard();
          if stepPos in steps {
            RepeatFound(grid, start, steps);
            return true;
          }
          RecordNext(grid, start, steps);
          steps := steps + [stepPos];
          turned := RotateRightIfSomethingInFront();
        }
      }
    }

    /** One trial of `obstacle_positions_causing_loop`: `contains_loop` on a
        clone with an extra obstacle at (x, y). */
    method LoopsWithObstacleAt(x: nat, y: nat) returns (looped: bool)
      requires Valid() && InGrid(obstacles, x, y)
      ensures looped <==> Loops(WithObstacle(obstacles, x, y), Guard())
    {
      var m := Clone();
      m.obstacles := m.obstacles[y := m.obstacles[y][x := true]];
      looped := m.ContainsLoop();
    }

    /** `obstacle_positions_causing_loop`: for every open cell other than
        the guard's, in row-major order, run `contains_loop` on a clone with
        one extra obstacle there and count the loops. The trials work on
        clones, so this map and its guard stay as they are. */
    method ObstaclePositionsCausingLoop() returns (positions: nat)
      requires Valid() || |obstacles| == 0 || |obstacles[0]| == 0
      ensures Valid() ==> positions == |LoopObstacles(obstacles, Guard())|
      ensures Valid() ==> positions <= |Candidates(obstacles, Guard())|
      ensures |obstacles| == 0 || |obstacles[0]| == 0 ==> positions == 0
    {
      ghost var grid := obstacles;
      ghost var start := Guard();
      ghost var valid := Valid();
      if valid {
        LoopObstaclesRows(grid, start, 0);
      }
      positions := 0;
      for y := 0 to |obstacles|
        invariant valid ==> positions == |LoopObstaclesBefore(grid, start, 0, y)|
        invariant !valid ==> positions == 0
      {
        for x := 0 to |obstacles[0]|
          invariant valid ==> positions == |LoopObstaclesBefore(grid, start, x, y)|
          invariant !valid ==> positions == 0
        {
          assert valid;
          LoopObstaclesStep(grid, start, x, y);
          var pos := (x, y);
          if pos == guardPos || obstacles[y][x] {
            continue;
          }
          var looped := LoopsWithObstacleAt(x, y);
          if looped {
            positions := positions + 1;
          }
        }
        if valid {
          LoopObstaclesRows(grid, start, y);
        }
      }
      if valid {
        LoopObstaclesBound(grid, start);
      }
    }
  }

  /** `solve_a`: the number of distinct cells the guard walks onto before it leaves. */
  method SolveA(lines: seq<string>) returns (count: nat)
    requires ValidLines(lines) && Escapes(ParseGrid(lines), ParseGuard(lines))
    ensures count == |Visited(ParseGrid(lines), ParseGuard(lines))|
    ensures count <= |lines| * |lines[0]|
  {
    var m := GuardMap.Parse(lines);
    count := m.WalkTillOutOfMap();
  }

  /** `solve_b`: the number of cells where one more obstacle traps the
      guard; none on an empty map or one whose first line is empty. */
  method SolveB(lines: seq<string>) returns (count: nat)
    requires ValidLines(lines) || |lines| == 0 || |lines[0]| == 0
    ensures ValidLines(lines) ==> count == |LoopObstacles(ParseGrid(lines), ParseGuard(lines))|
    ensures ValidLines(lines) ==> count < |lines| * |lines[0]|
    ensures |lines| == 0 || |lines[0]| == 0 ==> count == 0
  {
    var m := GuardMap.Parse(lines);
    count := m.ObstaclePositionsCausingLoop();
    if ValidLines(lines) {
      LoopObstaclesBound(ParseGrid(lines), ParseGuard(lines));
    }
  }
}
