/**
 * Day 6 (src/day06.rs): a guard walks a grid, turning right at every `#`,
 * until it steps off the grid or comes back to a (row, column, direction)
 * state it has already been in. Part 1 counts the cells the guard visits;
 * part 2 counts the cells of that path on which one more obstacle makes the
 * guard walk in a loop.
 */
module Day06 {
  import opened Wrappers
  import opened Text

  /** The rows of the map, as `parse` keeps them. */
  type Grid = seq<string>

  /** A position of the guard with the direction it faces:
      0 = up, 1 = right, 2 = down, 3 = left. */
  datatype State = State(r: nat, c: nat, d: nat)

  predicate InGrid(m: Grid, s: State)
  {
    |m| > 0 && s.r < |m| && s.c < |m[0]| && s.d < 4
  }

  /** The (row, column) step of each direction. */
  const Moves: seq<(int, int)> := [(-1, 0), (0, 1), (1, 0), (0, -1)]

  /** One turn of the loop of `patrol`: off the grid (None), a right turn in
      front of a `#`, or a step forward. */
  function Step(m: Grid, s: State): (next: Option<State>)
    requires WideRows(m) && InGrid(m, s)
    ensures next.Some? ==> InGrid(m, next.value)
    ensures next.Some? && (next.value.r, next.value.c) != (s.r, s.c) ==> m[next.value.r][next.value.c] != '#'
    ensures next.Some? && (next.value.r, next.value.c) == (s.r, s.c) ==> next.value.d == (s.d + 1) % 4
  {
    var mv := Moves[s.d];
    var rr, cc := s.r + mv.0, s.c + mv.1;
    if !(0 <= rr < |m|) || !(0 <= cc < |m[0]|) then None
    else if m[rr][cc] == '#' then Some(State(s.r, s.c, (s.d + 1) % 4))
    else Some(State(rr, cc, s.d))
  }

  /** The state after n turns of the loop from s0, or None once the guard has left. */
  function Walk(m: Grid, s0: State, n: nat): (s: Option<State>)
    requires WideRows(m) && InGrid(m, s0)
    ensures s.Some? ==> InGrid(m, s.value)
  {
    if n == 0 then Some(s0)
    else match Walk(m, s0, n - 1)
      case None => None
      case Some(s) => Step(m, s)
  }

  /** The guard's n-th state is its last on the grid. */
  ghost predicate ExitsAfter(m: Grid, s0: State, n: nat)
    requires WideRows(m) && InGrid(m, s0)
  {
    Walk(m, s0, n).Some? && Walk(m, s0, n + 1).None?
  }

  /** The guard is in the same state after i and after j turns. */
  ghost predicate Repeats(m: Grid, s0: State, i: nat, j: nat)
    requires WideRows(m) && InGrid(m, s0)
  {
    i < j && Walk(m, s0, i).Some? && Walk(m, s0, i) == Walk(m, s0, j)
  }

  /** The guard comes back to a state it was in: it walks in a loop. */
  ghost predicate Loops(m: Grid, s0: State)
    requires WideRows(m) && InGrid(m, s0)
  {
    exists i: nat, j: nat :: Repeats(m, s0, i, j)
  }

  /** The states of the first n turns. */
  ghost function Reached(m: Grid, s0: State, n: nat): (states: set<State>)
    requires WideRows(m) && InGrid(m, s0)
    ensures forall s :: s in states ==> InGrid(m, s)
  {
    if n == 0 then {}
    else match Walk(m, s0, n - 1)
      case None => Reached(m, s0, n - 1)
      case Some(s) => Reached(m, s0, n - 1) + {s}
  }

  /** A reached state is the state after some earlier number of turns. */
  lemma {:induction false} ReachedAt(m: Grid, s0: State, n: nat, s: State)
    requires WideRows(m) && InGrid(m, s0) && s in Reached(m, s0, n)
    ensures exists i: nat :: i < n && Walk(m, s0, i) == Some(s)
  {
    if Walk(m, s0, n - 1) != Some(s) {
      ReachedAt(m, s0, n - 1, s);
    }
  }

  /** Every state of a grid of R rows and C columns. */
  ghost function AllStates(rows: nat, cols: nat): set<State>
  {
    set r: nat, c: nat, d: nat | r < rows && c < cols && d < 4 :: State(r, c, d)
  }

  /** The cells of a set of states. */
  ghost function CellsOf(states: set<State>): set<(nat, nat)>
  {
    set s | s in states :: (s.r, s.c)
  }

  /** p comes before q in row-major order. */
  predicate Before(p: (nat, nat), q: (nat, nat))
  {
    p.0 < q.0 || (p.0 == q.0 && p.1 < q.1)
  }

  /** Strictly increasing in row-major order (so without repeats). */
  predicate RowMajor(cells: seq<(nat, nat)>)
  {
    forall i, j :: 0 <= i < j < |cells| ==> Before(cells[i], cells[j])
  }

  /** `seen[r][c].iter().any(|&b| b)`. */
  predicate AnySeen(seen: array3<bool>, r: nat, c: nat)
    reads seen
    requires r < seen.Length0 && c < seen.Length1 && seen.Length2 == 4
  {
    seen[r, c, 0] || seen[r, c, 1] || seen[r, c, 2] || seen[r, c, 3]
  }

  /** The `cartesian_product(..).filter(..).collect()` of `patrol`: the cells
      with any direction seen, in row-major order. */
  method SeenCells(seen: array3<bool>) returns (cells: seq<(nat, nat)>)
    requires seen.Length2 == 4
    ensures RowMajor(cells)
    ensures forall p :: p in cells <==> p.0 < seen.Length0 && p.1 < seen.Length1 && AnySeen(seen, p.0, p.1)
  {
    cells := [];
    var r := 0;
    while r < seen.Length0
      invariant 0 <= r <= seen.Length0
      invariant RowMajor(cells)
      invariant forall k :: 0 <= k < |cells| ==> cells[k].0 < r
      invariant forall p :: p in cells <==> p.0 < r && p.1 < seen.Length1 && AnySeen(seen, p.0, p.1)
    {
      var c := 0;
      while c < seen.Length1
        invariant 0 <= c <= seen.Length1
        invariant RowMajor(cells)
        invariant forall k :: 0 <= k < |cells| ==> Before(cells[k], (r, c))
        invariant forall p :: p in cells <==>
          ((p.0 < r && p.1 < seen.Length1) || (p.0 == r && p.1 < c)) && AnySeen(seen, p.0, p.1)
      {
        if seen[r, c, 0] || seen[r, c, 1] || seen[r, c, 2] || seen[r, c, 3] {
          cells := cells + [(r, c)];
        }
        c := c + 1;
      }
      r := r + 1;
    }
  }

  /** `patrol`: walks from (r0, c0) facing up, marking each state in `seen`,
      until a state comes round again (None) or the guard steps off the grid
      (the visited cells in row-major order, or nothing when not asked for them).
      The ghost n is the number of turns taken. */
  method Patrol(m: Grid, r0: nat, c0: nat, returnSquares: bool) returns (res: Option<seq<(nat, nat)>>, ghost n: nat)
    requires WideRows(m) && r0 < |m| && c0 < |m[0]|
    ensures res.None? ==> exists i: nat :: Repeats(m, State(r0, c0, 0), i, n)
    ensures res.None? <==> Loops(m, State(r0, c0, 0))
    ensures res.Some? ==> ExitsAfter(m, State(r0, c0, 0), n)
    ensures res.Some? && !returnSquares ==> res.value == []
    ensures res.Some? && returnSquares ==> RowMajor(res.value)
    ensures res.Some? && returnSquares ==>
      forall p :: p in res.value <==> p in CellsOf(Reached(m, State(r0, c0, 0), n + 1))
    ensures res.Some? && returnSquares ==> (r0, c0) in res.value
    ensures n <= |m| * |m[0]| * 4
    ensures res.Some? ==> n < |m| * |m[0]| * 4
  {
    var s0 := State(r0, c0, 0);
    var seen := new bool[|m|, |m[0]|, 4]((_, _, _) => false);
    var s := s0;
    ghost var steps: nat := 0;
    while true
      invariant Walk(m, s0, steps) == Some(s) && InGrid(m, s)
      invariant seen.Length0 == |m| && seen.Length1 == |m[0]| && seen.Length2 == 4
      invariant Marks(seen, m, s0, steps)
      invariant |Reached(m, s0, steps)| == steps <= |m| * |m[0]| * 4
      decreases AllStates(|m|, |m[0]|) - Reached(m, s0, steps)
    {
      if seen[s.r, s.c, s.d] {
        ReachedAt(m, s0, steps, s);
        ghost var i: nat :| i < steps && Walk(m, s0, i) == Some(s);
        assert Repeats(m, s0, i, steps);
        return None, steps;
      }
      assert s in AllStates(|m|, |m[0]|) && s !in Reached(m, s0, steps);
      Mark(seen, m, s0, steps, s);
      var next := Step(m, s);
      assert Walk(m, s0, steps + 1) == next;
      if next.None? {
        ExitMeansNoLoop(m, s0, steps);
        if !returnSquares {
          return Some([]), steps;
        }
        var visited := VisitedCells(m, s0, steps + 1, seen);
        return Some(visited), steps;
      }
      s := next.value;
      steps := steps + 1;
    }
  }

  /** `seen[r][c][d] = true` for the n-th state. */
  method Mark(seen: array3<bool>, ghost m: Grid, ghost s0: State, ghost n: nat, s: State)
    requires WideRows(m) && InGrid(m, s0) && Marks(seen, m, s0, n) && Walk(m, s0, n) == Some(s)
    requires !seen[s.r, s.c, s.d] && |Reached(m, s0, n)| == n
    modifies seen
    ensures Marks(seen, m, s0, n + 1)
    ensures Reached(m, s0, n + 1) == Reached(m, s0, n) + {s}
    ensures |Reached(m, s0, n + 1)| == n + 1 <= |m| * |m[0]| * 4
  {
    seen[s.r, s.c, s.d] := true;
    StatesBound(m, Reached(m, s0, n + 1));
  }

  /** The cells the guard visited in its first n states, read off `seen`. */
  method VisitedCells(m: Grid, s0: State, ghost n: nat, seen: array3<bool>) returns (visited: seq<(nat, nat)>)
    requires WideRows(m) && InGrid(m, s0) && Marks(seen, m, s0, n) && n >= 1
    ensures RowMajor(visited)
    ensures forall p :: p in visited <==> p in CellsOf(Reached(m, s0, n))
    ensures (s0.r, s0.c) in visited
  {
    visited := SeenCells(seen);
    SeenIsReached(m, s0, n, seen);
    StartReached(m, s0, n);
  }

  /** `seen` marks exactly the states of the first n turns. */
  ghost predicate Marks(seen: array3<bool>, m: Grid, s0: State, n: nat)
    reads seen
    requires WideRows(m) && InGrid(m, s0)
  {
    && seen.Length0 == |m| && seen.Length1 == |m[0]| && seen.Length2 == 4
    && forall i, j, k :: 0 <= i < |m| && 0 <= j < |m[0]| && 0 <= k < 4 ==>
         (seen[i, j, k] <==> State(i, j, k) in Reached(m, s0, n))
  }

  /** When `seen` marks exactly the states of the first n turns, the cells with
      any direction seen are the cells of those states. */
  lemma SeenIsReached(m: Grid, s0: State, n: nat, seen: array3<bool>)
    requires WideRows(m) && InGrid(m, s0)
    requires Marks(seen, m, s0, n)
    ensures forall p: (nat, nat) :: (p.0 < |m| && p.1 < |m[0]| && AnySeen(seen, p.0, p.1)) <==> p in CellsOf(Reached(m, s0, n))
  {
    forall p: (nat, nat) | p in CellsOf(Reached(m, s0, n))
      ensures p.0 < |m| && p.1 < |m[0]| && AnySeen(seen, p.0, p.1)
    {
      ReachedCellSeen(m, s0, n, seen, p);
    }
    forall p: (nat, nat) | p.0 < |m| && p.1 < |m[0]| && AnySeen(seen, p.0, p.1)
      ensures p in CellsOf(Reached(m, s0, n))
    {
      var k :| 0 <= k < 4 && seen[p.0, p.1, k];
      assert State(p.0, p.1, k) in Reached(m, s0, n);
    }
  }

  lemma ReachedCellSeen(m: Grid, s0: State, n: nat, seen: array3<bool>, p: (nat, nat))
    requires WideRows(m) && InGrid(m, s0)
    requires Marks(seen, m, s0, n)
    requires p in CellsOf(Reached(m, s0, n))
    ensures p.0 < |m| && p.1 < |m[0]| && AnySeen(seen, p.0, p.1)
  {
    var s :| s in Reached(m, s0, n) && (s.r, s.c) == p;
    assert seen[s.r, s.c, s.d];
  }

  /** The four states of one cell. */
  function CellStates(r: nat, c: nat): (states: seq<State>)
    ensures |states| == 4 && forall d :: 0 <= d < 4 ==> states[d] == State(r, c, d)
  {
    seq(4, d requires 0 <= d < 4 => State(r, c, d))
  }

  /** Every state of the first `cols` cells of row r. */
  function RowStates(r: nat, cols: nat): (states: seq<State>)
    ensures |states| == 4 * cols
    ensures forall c: nat, d: nat :: c < cols && d < 4 ==> State(r, c, d) in states
  {
    if cols == 0 then []
    else
      var states := RowStates(r, cols - 1) + CellStates(r, cols - 1);
      var last := cols - 1;
      forall d: nat | d < 4 ensures State(r, last, d) in states {
        assert states[4 * last + d] == State(r, last, d);
      }
      states
  }

  /** Every state of a grid of `rows` rows and `cols` columns, in a list of
      rows × cols × 4 entries. */
  function GridStates(rows: nat, cols: nat): (states: seq<State>)
    ensures |states| == rows * cols * 4
    ensures forall s: State :: s.r < rows && s.c < cols && s.d < 4 ==> s in states
  {
    if rows == 0 then []
    else
      var states := GridStates(rows - 1, cols) + RowStates(rows - 1, cols);
      assert rows * cols * 4 == (rows - 1) * cols * 4 + 4 * cols;
      states
  }

  /** A list has no more distinct entries than it is long. */
  lemma {:induction false} DistinctBound(xs: seq<State>)
    ensures |set x | x in xs| <= |xs|
  {
    if xs != [] {
      DistinctBound(xs[1..]);
      assert (set x | x in xs) == {xs[0]} + (set x | x in xs[1..]);
    }
  }

  /** A set of states on the grid has at most rows × cols × 4 members. */
  lemma StatesBound(m: Grid, states: set<State>)
    requires |m| > 0 && forall s :: s in states ==> InGrid(m, s)
    ensures |states| <= |m| * |m[0]| * 4
  {
    var all := GridStates(|m|, |m[0]|);
    DistinctBound(all);
    var listed := set x | x in all;
    forall s | s in states ensures s in listed {
      assert s in all;
    }
    assert listed == states + (listed - states);
    assert states * (listed - states) == {};
  }

  /** Walking a + b turns is walking a turns, then b more from there. */
  lemma {:induction false} WalkShift(m: Grid, s0: State, a: nat, b: nat)
    requires WideRows(m) && InGrid(m, s0)
    ensures Walk(m, s0, a + b) == if Walk(m, s0, a).Some? then Walk(m, Walk(m, s0, a).value, b) else None
  {
    if b > 0 {
      WalkShift(m, s0, a, b - 1);
      assert a + b - 1 == a + (b - 1);
    }
  }

  /** Once off the grid, the guard stays off it. */
  lemma {:induction false} GoneStaysGone(m: Grid, s0: State, i: nat, j: nat)
    requires WideRows(m) && InGrid(m, s0) && i <= j && Walk(m, s0, i).None?
    ensures Walk(m, s0, j).None?
    decreases j - i
  {
    if i < j {
      GoneStaysGone(m, s0, i + 1, j);
    }
  }

  /** A guard that comes back to a state it was in never leaves the grid. */
  lemma {:induction false} RepeatNeverExits(m: Grid, s0: State, i: nat, j: nat, k: nat)
    requires WideRows(m) && InGrid(m, s0) && Repeats(m, s0, i, j)
    ensures Walk(m, s0, k).Some?
    decreases k
  {
    if k <= j {
      if Walk(m, s0, k).None? {
        GoneStaysGone(m, s0, k, j);
      }
    } else {
      var d := k - j;
      RepeatNeverExits(m, s0, i, j, i + d);
      SameAfterRepeat(m, s0, i, j, d);
      assert j + d == k;
    }
  }

  /** From a repeated state the walk goes on the same way both times. */
  lemma SameAfterRepeat(m: Grid, s0: State, i: nat, j: nat, d: nat)
    requires WideRows(m) && InGrid(m, s0) && Repeats(m, s0, i, j)
    ensures Walk(m, s0, j + d) == Walk(m, s0, i + d)
  {
    WalkShift(m, s0, j, d);
    WalkShift(m, s0, i, d);
  }

  /** Leaving the grid and walking in a loop exclude each other. */
  lemma ExitMeansNoLoop(m: Grid, s0: State, n: nat)
    requires WideRows(m) && InGrid(m, s0) && ExitsAfter(m, s0, n)
    ensures !Loops(m, s0)
  {
    if Loops(m, s0) {
      var i: nat, j: nat :| Repeats(m, s0, i, j);
      RepeatNeverExits(m, s0, i, j, n + 1);
    }
  }

  /** A walk of at least one turn has the start among its states. */
  lemma {:induction false} StartReached(m: Grid, s0: State, n: nat)
    requires WideRows(m) && InGrid(m, s0) && n >= 1
    ensures s0 in Reached(m, s0, n)
  {
    if n > 1 {
      StartReached(m, s0, n - 1);
    }
  }

  /** Every state of the walk stands on the start cell or on a cell without `#`. */
  lemma {:induction false} WalkAvoidsObstacles(m: Grid, s0: State, n: nat)
    requires WideRows(m) && InGrid(m, s0) && Walk(m, s0, n).Some?
    ensures var s := Walk(m, s0, n).value; (s.r, s.c) == (s0.r, s0.c) || m[s.r][s.c] != '#'
  {
    if n > 0 {
      WalkAvoidsObstacles(m, s0, n - 1);
    }
  }

  // ---------------------------------------------------------------- parse

  /** The index of the last `^` of a row, if any. */
  function LastCaret(row: string): (c: Option<nat>)
    ensures c.Some? ==> c.value < |row| && row[c.value] == '^'
    ensures c.Some? ==> forall k :: c.value < k < |row| ==> row[k] != '^'
    ensures c.None? <==> '^' !in row
  {
    if row == [] then None
    else if row[|row| - 1] == '^' then Some(|row| - 1)
    else
      assert row == row[..|row| - 1] + [row[|row| - 1]];
      LastCaret(row[..|row| - 1])
  }

  /** The start `parse` settles on, looking from row r on: the last `^` of the
      first row holding one, or (0, 0) when no row does. */
  function StartFrom(rows: Grid, r: nat): (start: (nat, nat))
    ensures start == (0, 0) || (r <= start.0 < |rows| && start.1 < |rows[start.0]| && rows[start.0][start.1] == '^')
    decreases |rows| - r
  {
    if r >= |rows| then (0, 0)
    else match LastCaret(rows[r])
      case Some(c) => (r, c)
      case None => StartFrom(rows, r + 1)
  }

  /** What the start is: either no row has a `^` and the start is (0, 0), or
      the start is a `^` with no `^` in any earlier row nor later in its own row. */
  lemma {:induction false} StartFromIs(rows: Grid, r: nat)
    ensures var st := StartFrom(rows, r);
      || ((forall i :: r <= i < |rows| ==> '^' !in rows[i]) && st == (0, 0))
      || (&& r <= st.0 < |rows| && st.1 < |rows[st.0]| && rows[st.0][st.1] == '^'
          && (forall i :: r <= i < st.0 ==> '^' !in rows[i])
          && (forall k :: st.1 < k < |rows[st.0]| ==> rows[st.0][k] != '^'))
    decreases |rows| - r
  {
    if r < |rows| && LastCaret(rows[r]).None? {
      StartFromIs(rows, r + 1);
    }
  }

  /** `parse`: the rows between `\n`s, copied unchanged, and the start found
      by scanning rows until one holds a `^`. */
  method Parse(input: string) returns (grid: Grid, start: (nat, nat))
    ensures grid == SplitOn(input, {'\n'})
    ensures start == StartFrom(grid, 0)
  {
    var rows := SplitOn(input, {'\n'});
    grid := [];
    start := (0, 0);
    var found := false;
    var r := 0;
    while r < |rows|
      invariant 0 <= r <= |rows| && grid == rows[..r]
      invariant found ==> start == StartFrom(rows, 0)
      invariant !found ==> start == (0, 0) && StartFrom(rows, 0) == StartFrom(rows, r)
    {
      var line := rows[r];
      if found {
        grid := grid + [line];
      } else {
        var row, caret := ScanRow(line);
        if caret.Some? {
          start := (r, caret.value);
          found := true;
        }
        grid := grid + [row];
      }
      r := r + 1;
    }
    assert rows[..r] == rows;
  }

  /** The inner loop of `parse` over one row: the row copied character by
      character, and the column of its last `^`, if any. */
  method ScanRow(line: string) returns (row: string, caret: Option<nat>)
    ensures row == line
    ensures caret == LastCaret(line)
  {
    row := [];
    caret := None;
    var c := 0;
    while c < |line|
      invariant 0 <= c <= |line| && row == line[..c]
      invariant caret == LastCaret(line[..c])
    {
      assert line[..c + 1][..c] == line[..c];
      if line[c] == '^' {
        caret := Some(c);
      }
      row := row + [line[c]];
      c := c + 1;
    }
    assert line[..c] == line;
  }

  // ---------------------------------------------------------------- part 1

  /** A list strictly increasing in row-major order has as many entries as cells. */
  lemma {:induction false} RowMajorSize(cells: seq<(nat, nat)>)
    requires RowMajor(cells)
    ensures |set p | p in cells| == |cells|
  {
    if cells != [] {
      RowMajorSize(cells[1..]);
      assert (set p | p in cells) == {cells[0]} + (set p | p in cells[1..]);
      assert cells[0] !in cells[1..] by {
        forall k | 0 <= k < |cells[1..]| ensures cells[1..][k] != cells[0] {
          assert Before(cells[0], cells[k + 1]);
        }
      }
    }
  }

  /** `part1_impl`: the number of cells the guard visits before leaving the
      grid. The `unwrap` panics on a looping walk, so the walk must not loop. */
  method Part1(grid: Grid, start: (nat, nat)) returns (count: nat, ghost n: nat)
    requires WideRows(grid) && start.0 < |grid| && start.1 < |grid[0]|
    requires !Loops(grid, State(start.0, start.1, 0))
    ensures ExitsAfter(grid, State(start.0, start.1, 0), n)
    ensures count == |CellsOf(Reached(grid, State(start.0, start.1, 0), n + 1))|
    ensures count >= 1
  {
    var path;
    path, n := Patrol(grid, start.0, start.1, true);
    count := |path.value|;
    RowMajorSize(path.value);
    assert (set p | p in path.value) == CellsOf(Reached(grid, State(start.0, start.1, 0), n + 1));
  }

  // ---------------------------------------------------------------- part 2

  /** Every cell of a list lies within the grid. */
  predicate OnGrid(m: Grid, cells: seq<(nat, nat)>)
  {
    |m| > 0 && forall i :: 0 <= i < |cells| ==> cells[i].0 < |m| && cells[i].1 < |m[0]|
  }

  /** The cells of reached states lie within the grid. */
  lemma ReachedOnGrid(m: Grid, s0: State, n: nat, cells: seq<(nat, nat)>)
    requires WideRows(m) && InGrid(m, s0)
    requires forall p :: p in cells ==> p in CellsOf(Reached(m, s0, n))
    ensures OnGrid(m, cells)
  {
    forall i | 0 <= i < |cells| ensures cells[i].0 < |m| && cells[i].1 < |m[0]| {
      assert cells[i] in cells;
      var s :| s in Reached(m, s0, n) && (s.r, s.c) == cells[i];
    }
  }

  /** `map[r][c] = ch`: one cell rewritten, the shape and every other cell kept. */
  function Put(m: Grid, p: (nat, nat), ch: char): (m': Grid)
    requires p.0 < |m| && p.1 < |m[p.0]|
    ensures |m'| == |m| && forall r :: 0 <= r < |m| ==> |m'[r]| == |m[r]|
    ensures m'[p.0][p.1] == ch
    ensures forall r, c :: 0 <= r < |m| && 0 <= c < |m[r]| && (r, c) != p ==> m'[r][c] == m[r][c]
  {
    m[p.0 := m[p.0][p.1 := ch]]
  }

  /** The map after blocking and resetting each of the cells in turn: each
      of them reads `.`, whatever it held before. */
  function Restored(m: Grid, cells: seq<(nat, nat)>): (m': Grid)
    requires WideRows(m) && OnGrid(m, cells)
    ensures |m'| == |m| && forall r :: 0 <= r < |m| ==> |m'[r]| == |m[r]|
    ensures forall i :: 0 <= i < |cells| ==> m'[cells[i].0][cells[i].1] == '.'
  {
    if cells == [] then m
    else
      var last := cells[|cells| - 1];
      var earlier := Restored(m, cells[..|cells| - 1]);
      var m' := Put(earlier, last, '.');
      assert forall i :: 0 <= i < |cells| - 1 ==> cells[i] == cells[..|cells| - 1][i];
      m'
  }

  /** The map `part2_impl` hands to `patrol` for the i-th path cell. */
  function Blocked(m: Grid, cells: seq<(nat, nat)>, i: nat): (m': Grid)
    requires WideRows(m) && OnGrid(m, cells) && i < |cells|
    ensures |m'| == |m| && forall r :: 0 <= r < |m| ==> |m'[r]| == |m[r]|
    ensures WideRows(m') && m'[cells[i].0][cells[i].1] == '#'
  {
    Put(Restored(m, cells[..i]), cells[i], '#')
  }

  /** How many of the first k cells, blocked in turn, make the guard loop. */
  ghost function LoopingCount(m: Grid, s0: State, cells: seq<(nat, nat)>, k: nat): (count: nat)
    requires WideRows(m) && InGrid(m, s0) && OnGrid(m, cells) && k <= |cells|
    ensures count <= k
  {
    if k == 0 then 0
    else LoopingCount(m, s0, cells, k - 1) + if Loops(Blocked(m, cells, k - 1), s0) then 1 else 0
  }

  /** `part2_impl`: blocks each cell of the part 1 path in turn (the start
      cell included), counts the blockings under which `patrol` finds a loop,
      and resets the cell to `.` each time. The ghost path is that part 1 path. */
  method Part2(grid: Grid, start: (nat, nat)) returns (count: nat, ghost path: seq<(nat, nat)>, ghost n: nat)
    requires WideRows(grid) && start.0 < |grid| && start.1 < |grid[0]|
    requires !Loops(grid, State(start.0, start.1, 0))
    ensures ExitsAfter(grid, State(start.0, start.1, 0), n)
    ensures RowMajor(path) && OnGrid(grid, path)
    ensures forall p :: p in path <==> p in CellsOf(Reached(grid, State(start.0, start.1, 0), n + 1))
    ensures count == LoopingCount(grid, State(start.0, start.1, 0), path, |path|)
    ensures grid[start.0][start.1] != '#' ==> count == PlainCount(grid, State(start.0, start.1, 0), path, |path|)
  {
    var res;
    res, n := Patrol(grid, start.0, start.1, true);
    var cells := res.value;
    ReachedOnGrid(grid, State(start.0, start.1, 0), n + 1, cells);
    path := cells;
    count := CountLoopingBlocks(grid, start, cells);
    PathCountIsPlain(grid, State(start.0, start.1, 0), n + 1, cells);
  }

  /** On the walk's own path, from a start without `#`, the count of
      `part2_impl` is that of blocking each path cell alone. */
  lemma PathCountIsPlain(m: Grid, s0: State, n: nat, cells: seq<(nat, nat)>)
    requires WideRows(m) && InGrid(m, s0) && OnGrid(m, cells)
    requires forall p :: p in cells ==> p in CellsOf(Reached(m, s0, n))
    ensures m[s0.r][s0.c] != '#' ==> LoopingCount(m, s0, cells, |cells|) == PlainCount(m, s0, cells, |cells|)
  {
    if m[s0.r][s0.c] != '#' {
      PathAvoidsObstacles(m, s0, n, cells);
      LoopingCountIsPlain(m, s0, cells, |cells|);
    }
  }

  /** The filter-and-count of `part2_impl` over a list of cells. */
  method CountLoopingBlocks(grid: Grid, start: (nat, nat), cells: seq<(nat, nat)>) returns (count: nat)
    requires WideRows(grid) && start.0 < |grid| && start.1 < |grid[0]| && OnGrid(grid, cells)
    ensures count == LoopingCount(grid, State(start.0, start.1, 0), cells, |cells|)
  {
    var m := grid;
    count := 0;
    var k := 0;
    while k < |cells|
      invariant 0 <= k <= |cells|
      invariant m == Restored(grid, cells[..k])
      invariant count == LoopingCount(grid, State(start.0, start.1, 0), cells, k)
    {
      var loops;
      m, loops := TryBlock(grid, start, cells, k, m);
      if loops {
        count := count + 1;
      }
      k := k + 1;
    }
    assert cells[..k] == cells;
  }

  /** One step of the filter: `map[r][c] = '#'`, run `patrol`, `map[r][c] = '.'`. */
  method TryBlock(grid: Grid, start: (nat, nat), cells: seq<(nat, nat)>, k: nat, m: Grid) returns (m': Grid, loops: bool)
    requires WideRows(grid) && start.0 < |grid| && start.1 < |grid[0]| && OnGrid(grid, cells) && k < |cells|
    requires m == Restored(grid, cells[..k])
    ensures m' == Restored(grid, cells[..k + 1])
    ensures loops <==> Loops(Blocked(grid, cells, k), State(start.0, start.1, 0))
  {
    var cell := cells[k];
    var blocked := Put(m, cell, '#');
    var res, _ := Patrol(blocked, start.0, start.1, false);
    loops := res.None?;
    m' := Put(blocked, cell, '.');
    assert cells[..k + 1][..k] == cells[..k];
    PutTwice(m, cell, '#', '.');
  }

  /** Writing a cell twice leaves only the second write. */
  lemma PutTwice(m: Grid, p: (nat, nat), a: char, b: char)
    requires p.0 < |m| && p.1 < |m[p.0]|
    ensures Put(Put(m, p, a), p, b) == Put(m, p, b)
  {
    assert m[p.0][p.1 := a][p.1 := b] == m[p.0][p.1 := b];
  }

  /** How many of the first k cells, each blocked alone on the original map,
      make the guard loop. */
  ghost function PlainCount(m: Grid, s0: State, cells: seq<(nat, nat)>, k: nat): (count: nat)
    requires WideRows(m) && InGrid(m, s0) && OnGrid(m, cells) && k <= |cells|
    ensures count <= k
  {
    if k == 0 then 0
    else PlainCount(m, s0, cells, k - 1) + if Loops(Put(m, cells[k - 1], '#'), s0) then 1 else 0
  }

  /** Two maps of the same shape with `#` in the same cells. */
  predicate SameObstacles(a: Grid, b: Grid)
  {
    && |a| == |b|
    && (forall r :: 0 <= r < |a| ==> |a[r]| == |b[r]|)
    && (forall r, c :: 0 <= r < |a| && 0 <= c < |a[r]| ==> (a[r][c] == '#' <==> b[r][c] == '#'))
  }

  lemma {:induction false} SameObstaclesSameWalk(a: Grid, b: Grid, s0: State, n: nat)
    requires WideRows(a) && InGrid(a, s0) && SameObstacles(a, b)
    ensures WideRows(b) && InGrid(b, s0) && Walk(a, s0, n) == Walk(b, s0, n)
  {
    if n > 0 {
      SameObstaclesSameWalk(a, b, s0, n - 1);
    }
  }

  /** Only where the `#`s are decides whether the guard loops. */
  lemma SameObstaclesSameLoops(a: Grid, b: Grid, s0: State)
    requires WideRows(a) && InGrid(a, s0) && SameObstacles(a, b)
    ensures WideRows(b) && InGrid(b, s0) && (Loops(a, s0) <==> Loops(b, s0))
  {
    SameObstaclesSameWalk(a, b, s0, 0);
    if Loops(a, s0) {
      var i: nat, j: nat :| Repeats(a, s0, i, j);
      SameObstaclesSameWalk(a, b, s0, i);
      SameObstaclesSameWalk(a, b, s0, j);
      assert Repeats(b, s0, i, j);
    }
    if Loops(b, s0) {
      var i: nat, j: nat :| Repeats(b, s0, i, j);
      SameObstaclesSameWalk(a, b, s0, i);
      SameObstaclesSameWalk(a, b, s0, j);
      assert Repeats(a, s0, i, j);
    }
  }

  lemma PutKeepsSameObstacles(a: Grid, b: Grid, p: (nat, nat), ch: char)
    requires SameObstacles(a, b) && p.0 < |a| && p.1 < |a[p.0]|
    ensures SameObstacles(Put(a, p, ch), Put(b, p, ch))
  {
  }

  /** Resetting to `.` cells that held no `#` keeps the obstacles where they were. */
  lemma {:induction false} RestoredKeepsObstacles(m: Grid, cells: seq<(nat, nat)>)
    requires WideRows(m) && OnGrid(m, cells)
    requires forall i :: 0 <= i < |cells| ==> m[cells[i].0][cells[i].1] != '#'
    ensures SameObstacles(Restored(m, cells), m)
  {
    if cells != [] {
      var earlier := cells[..|cells| - 1];
      assert forall i :: 0 <= i < |earlier| ==> earlier[i] == cells[i];
      RestoredKeepsObstacles(m, earlier);
    }
  }

  /** When no cell of the list holds `#`, resetting the earlier cells to `.`
      changes nothing: the count is that of blocking each cell alone. */
  lemma {:induction false} LoopingCountIsPlain(m: Grid, s0: State, cells: seq<(nat, nat)>, k: nat)
    requires WideRows(m) && InGrid(m, s0) && OnGrid(m, cells) && k <= |cells|
    requires forall i :: 0 <= i < |cells| ==> m[cells[i].0][cells[i].1] != '#'
    ensures LoopingCount(m, s0, cells, k) == PlainCount(m, s0, cells, k)
  {
    if k > 0 {
      LoopingCountIsPlain(m, s0, cells, k - 1);
      var earlier := cells[..k - 1];
      assert forall i :: 0 <= i < |earlier| ==> earlier[i] == cells[i];
      RestoredKeepsObstacles(m, earlier);
      PutKeepsSameObstacles(Restored(m, earlier), m, cells[k - 1], '#');
      SameObstaclesSameLoops(Blocked(m, cells, k - 1), Put(m, cells[k - 1], '#'), s0);
    }
  }

  /** Starting on a cell without `#`, the guard only ever visits cells without `#`. */
  lemma PathAvoidsObstacles(m: Grid, s0: State, n: nat, cells: seq<(nat, nat)>)
    requires WideRows(m) && InGrid(m, s0) && m[s0.r][s0.c] != '#'
    requires forall p :: p in cells ==> p in CellsOf(Reached(m, s0, n))
    ensures OnGrid(m, cells)
    ensures forall i :: 0 <= i < |cells| ==> m[cells[i].0][cells[i].1] != '#'
  {
    ReachedOnGrid(m, s0, n, cells);
    forall i | 0 <= i < |cells| ensures m[cells[i].0][cells[i].1] != '#' {
      assert cells[i] in cells;
      var s :| s in Reached(m, s0, n) && (s.r, s.c) == cells[i];
      ReachedAt(m, s0, n, s);
      var j: nat :| j < n && Walk(m, s0, j) == Some(s);
      WalkAvoidsObstacles(m, s0, j);
    }
  }
}

