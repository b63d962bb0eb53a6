/**
 * Day 4 (src/day04.rs): a letter grid in which part 1 counts the words
 * XMAS in all eight directions and part 2 counts the X-shaped pairs of
 * MAS crossing at an `A`.
 */
module Day04 {
  import opened Text

  /** `parse`: the rows of the grid are the pieces between `\n`s (a final
      `\n` leaves an empty last row). */
  function Parse(input: string): (m: seq<string>)
    ensures |m| == Occurrences(input, '\n') + 1
    ensures forall r :: 0 <= r < |m| ==> '\n' !in m[r]
    ensures Join(m, '\n') == input
  {
    SplitCount(input, '\n');
    JoinSplit(input, '\n');
    SplitOn(input, {'\n'})
  }

  /** `get`: the cell at row r, column c of its own row, or `_` outside the grid. */
  function Get(m: seq<string>, r: int, c: int): char
  {
    if 0 <= r < |m| && 0 <= c < |m[r]| then m[r][c] else '_'
  }

  /** The bounds `count_xmas` checks: the number of rows, and the width of the first row. */
  predicate InBounds(m: seq<string>, r: int, c: int)
    requires |m| > 0
  {
    0 <= r < |m| && 0 <= c < |m[0]|
  }

  /** The eight directions of `count_xmas`, as (row, column) steps. */
  const Directions: seq<(int, int)> := [(0, -1), (-1, 0), (0, 1), (1, 0), (1, 1), (-1, 1), (1, -1), (-1, -1)]

  const Xmas: string := "XMAS"

  /** Step i away from (r, c) in direction (dr, dc) is in bounds and holds letter i of XMAS. */
  predicate LetterAt(m: seq<string>, r: int, c: int, d: (int, int), i: nat)
    requires |m| > 0 && i < 4
  {
    var (rr, cc) := (r + d.0 * i, c + d.1 * i);
    InBounds(m, rr, cc) && Get(m, rr, cc) == Xmas[i]
  }

  /** `(1..4).all(...)`: the letters M, A, S follow in direction d. */
  predicate MasFollows(m: seq<string>, r: int, c: int, d: (int, int))
    requires |m| > 0
  {
    LetterAt(m, r, c, d, 1) && LetterAt(m, r, c, d, 2) && LetterAt(m, r, c, d, 3)
  }

  /** The number of the given directions in which M, A, S follow. */
  function CountDirections(m: seq<string>, r: int, c: int, dirs: seq<(int, int)>): (n: nat)
    requires |m| > 0
    ensures n <= |dirs|
  {
    if dirs == [] then 0
    else (if MasFollows(m, r, c, dirs[0]) then 1 else 0) + CountDirections(m, r, c, dirs[1..])
  }

  /** No direction counts exactly when none matches, all count exactly when all match. */
  lemma {:induction false} CountDirectionsExtremes(m: seq<string>, r: int, c: int, dirs: seq<(int, int)>)
    requires |m| > 0
    ensures CountDirections(m, r, c, dirs) == 0 <==> forall k :: 0 <= k < |dirs| ==> !MasFollows(m, r, c, dirs[k])
    ensures CountDirections(m, r, c, dirs) == |dirs| <==> forall k :: 0 <= k < |dirs| ==> MasFollows(m, r, c, dirs[k])
  {
    if dirs != [] {
      CountDirectionsExtremes(m, r, c, dirs[1..]);
      assert forall k :: 1 <= k < |dirs| ==> dirs[k] == dirs[1..][k - 1];
    }
  }

  /** `count_xmas`: in how many of the eight directions M, A, S follow (r, c). */
  function CountXmas(m: seq<string>, r: nat, c: nat): (n: nat)
    requires |m| > 0
    ensures n <= 8
  {
    CountDirections(m, r, c, Directions)
  }

  /** The four letters read from (r, c) in direction d. */
  function WordFrom(m: seq<string>, r: int, c: int, d: (int, int)): string
  {
    [Get(m, r, c), Get(m, r + d.0, c + d.1), Get(m, r + 2 * d.0, c + 2 * d.1), Get(m, r + 3 * d.0, c + 3 * d.1)]
  }

  /** On a rectangular grid, an X at (r, c) with M, A, S following in
      direction d is exactly the word XMAS read from (r, c) along d. */
  lemma MasFollowsIsWord(m: seq<string>, r: nat, c: nat, d: (int, int))
    requires |m| > 0 && forall k :: 0 <= k < |m| ==> |m[k]| == |m[0]|
    requires r < |m| && c < |m[0]|
    ensures (m[r][c] == 'X' && MasFollows(m, r, c, d)) <==> WordFrom(m, r, c, d) == Xmas
  {
    var w := WordFrom(m, r, c, d);
    assert d.0 * 1 == d.0 && d.1 * 1 == d.1 && d.0 * 2 == 2 * d.0 && d.1 * 2 == 2 * d.1;
    assert d.0 * 3 == 3 * d.0 && d.1 * 3 == 3 * d.1;
    if w == Xmas {
      assert w[1] == 'M' && w[2] == 'A' && w[3] == 'S';
    }
  }

  /** `is_x_mas`: both diagonals through (r, c) read MS or SM. */
  function IsXMas(m: seq<string>, r: nat, c: nat): (ok: bool)
    requires r >= 1 && c >= 1
    ensures ok ==> r + 1 < |m| && c + 1 < |m[r - 1]| && c + 1 < |m[r + 1]|
    ensures ok ==> Get(m, r - 1, c - 1) != Get(m, r + 1, c + 1) && Get(m, r - 1, c + 1) != Get(m, r + 1, c - 1)
  {
    var w1 := [Get(m, r - 1, c - 1), Get(m, r + 1, c + 1)];
    var w2 := [Get(m, r - 1, c + 1), Get(m, r + 1, c - 1)];
    (w1 == "MS" || w1 == "SM") && (w2 == "MS" || w2 == "SM")
  }

  /** An X-MAS: the two ends of each diagonal are one M and one S. */
  lemma IsXMasIffEnds(m: seq<string>, r: nat, c: nat)
    requires r >= 1 && c >= 1
    ensures IsXMas(m, r, c) <==>
      {Get(m, r - 1, c - 1), Get(m, r + 1, c + 1)} == {'M', 'S'} &&
      {Get(m, r - 1, c + 1), Get(m, r + 1, c - 1)} == {'M', 'S'}
  {
    PairIsMS(Get(m, r - 1, c - 1), Get(m, r + 1, c + 1));
    PairIsMS(Get(m, r - 1, c + 1), Get(m, r + 1, c - 1));
  }

  lemma PairIsMS(a: char, b: char)
    ensures ([a, b] == "MS" || [a, b] == "SM") <==> {a, b} == {'M', 'S'}
  {
    if {a, b} == {'M', 'S'} {
      assert 'M' in {a, b} && 'S' in {a, b};
      assert a in {'M', 'S'} && b in {'M', 'S'};
    }
  }

  /** Which of the two searches, or (for the bounds below) plain letter counting. */
  datatype Search = WordSearch | CrossSearch | Letter(ch: char)

  /** What the loops of `part1`/`part2` add for one cell. */
  function CellScore(s: Search, m: seq<string>, r: nat, c: nat): nat
    requires |m| > 0 && r < |m| && c < |m[r]|
    requires s.CrossSearch? ==> r >= 1 && c >= 1
  {
    match s
    case WordSearch => if m[r][c] == 'X' then CountXmas(m, r, c) else 0
    case CrossSearch => if m[r][c] == 'A' && IsXMas(m, r, c) then 1 else 0
    case Letter(ch) => if m[r][c] == ch then 1 else 0
  }

  /** The cells of row r in columns [lo, hi) may be visited. */
  predicate RowScannable(s: Search, m: seq<string>, r: nat, lo: nat, hi: nat)
  {
    |m| > 0 && r < |m| && (hi <= lo || hi <= |m[r]|) && (s.CrossSearch? ==> r >= 1 && lo >= 1)
  }

  /** The sum of the cell scores of row r over columns [lo, hi). */
  function RowScore(s: Search, m: seq<string>, r: nat, lo: nat, hi: nat): nat
    requires RowScannable(s, m, r, lo, hi)
    decreases hi
  {
    if hi <= lo then 0 else RowScore(s, m, r, lo, hi - 1) + CellScore(s, m, r, hi - 1)
  }

  /** Rows [rlo, rhi) and columns [clo, chi) may be visited. */
  predicate Scannable(s: Search, m: seq<string>, rlo: nat, rhi: nat, clo: nat, chi: nat)
  {
    && |m| > 0 && rhi <= |m|
    && (forall r :: rlo <= r < rhi ==> chi <= |m[r]|)
    && (s.CrossSearch? ==> rlo >= 1 && clo >= 1)
  }

  /** The sum of the cell scores over rows [rlo, rhi) and columns [clo, chi). */
  function GridScore(s: Search, m: seq<string>, rlo: nat, rhi: nat, clo: nat, chi: nat): nat
    requires Scannable(s, m, rlo, rhi, clo, chi)
    decreases rhi
  {
    if rhi <= rlo then 0 else GridScore(s, m, rlo, rhi - 1, clo, chi) + RowScore(s, m, rhi - 1, clo, chi)
  }

  /** What `part2` needs to index `m[r][c]` without panicking: a first row to
      subtract one from, and interior rows at least as wide as its interior. */
  predicate CrossScannable(m: seq<string>)
  {
    |m| > 0 && (|m| >= 3 ==> |m[0]| >= 1 && forall r :: 1 <= r < |m| - 1 ==> |m[r]| >= |m[0]| - 1)
  }

  /** `part1`: the total of `count_xmas` over the cells holding X. */
  method Part1(input: string) returns (res: nat)
    requires WideRows(Parse(input))
    ensures var m := Parse(input); res == GridScore(WordSearch, m, 0, |m|, 0, |m[0]|)
  {
    var m := Parse(input);
    res := 0;
    var r := 0;
    while r < |m|
      invariant 0 <= r <= |m|
      invariant res == GridScore(WordSearch, m, 0, r, 0, |m[0]|)
    {
      var c := 0;
      while c < |m[0]|
        invariant 0 <= c <= |m[0]|
        invariant res == GridScore(WordSearch, m, 0, r, 0, |m[0]|) + RowScore(WordSearch, m, r, 0, c)
      {
        if m[r][c] == 'X' {
          res := res + CountXmas(m, r, c);
        }
        c := c + 1;
      }
      r := r + 1;
    }
  }

  /** `part2`: the number of interior `A` cells at the centre of an X-MAS. */
  method Part2(input: string) returns (res: nat)
    requires CrossScannable(Parse(input))
    ensures var m := Parse(input); |m| < 3 ==> res == 0
    ensures var m := Parse(input); |m| >= 3 ==> res == GridScore(CrossSearch, m, 1, |m| - 1, 1, |m[0]| - 1)
  {
    var m := Parse(input);
    res := 0;
    var r := 1;
    while r < |m| - 1
      invariant 1 <= r && (|m| >= 3 ==> r <= |m| - 1)
      invariant |m| >= 3 ==> res == GridScore(CrossSearch, m, 1, r, 1, |m[0]| - 1)
      invariant |m| < 3 ==> res == 0
    {
      assert |m| >= 3 && r < |m| - 1;
      var c := 1;
      while c < |m[0]| - 1
        invariant 1 <= c <= if |m[0]| >= 2 then |m[0]| - 1 else 1
        invariant res == GridScore(CrossSearch, m, 1, r, 1, |m[0]| - 1) + RowScore(CrossSearch, m, r, 1, c)
      {
        if m[r][c] == 'A' {
          res := res + if IsXMas(m, r, c) then 1 else 0;
        }
        c := c + 1;
      }
      r := r + 1;
    }
  }

  /** Row scores compare when every cell does (with a factor k). */
  lemma {:induction false} RowScoreBound(s: Search, t: Search, k: nat, m: seq<string>, r: nat, lo: nat, hi: nat)
    requires RowScannable(s, m, r, lo, hi) && RowScannable(t, m, r, lo, hi)
    requires forall c :: lo <= c < hi ==> CellScore(s, m, r, c) <= k * CellScore(t, m, r, c)
    ensures RowScore(s, m, r, lo, hi) <= k * RowScore(t, m, r, lo, hi)
    decreases hi
  {
    if hi > lo {
      RowScoreBound(s, t, k, m, r, lo, hi - 1);
      SumBound(k, RowScore(s, m, r, lo, hi - 1), CellScore(s, m, r, hi - 1),
        RowScore(t, m, r, lo, hi - 1), CellScore(t, m, r, hi - 1));
    }
  }

  /** Grid scores compare when every cell does (with a factor k). */
  lemma {:induction false} GridScoreBound(s: Search, t: Search, k: nat, m: seq<string>, rlo: nat, rhi: nat, clo: nat, chi: nat)
    requires Scannable(s, m, rlo, rhi, clo, chi) && Scannable(t, m, rlo, rhi, clo, chi)
    requires forall r, c :: rlo <= r < rhi && clo <= c < chi ==> CellScore(s, m, r, c) <= k * CellScore(t, m, r, c)
    ensures GridScore(s, m, rlo, rhi, clo, chi) <= k * GridScore(t, m, rlo, rhi, clo, chi)
    decreases rhi
  {
    if rhi > rlo {
      GridScoreBound(s, t, k, m, rlo, rhi - 1, clo, chi);
      RowScoreBound(s, t, k, m, rhi - 1, clo, chi);
      SumBound(k, GridScore(s, m, rlo, rhi - 1, clo, chi), RowScore(s, m, rhi - 1, clo, chi),
        GridScore(t, m, rlo, rhi - 1, clo, chi), RowScore(t, m, rhi - 1, clo, chi));
    }
  }

  lemma SumBound(k: nat, x: nat, y: nat, x': nat, y': nat)
    requires x <= k * x' && y <= k * y'
    ensures x + y <= k * (x' + y')
  {
  }

  /** Part 1 finds at most eight words per X in the grid. */
  lemma Part1Bound(m: seq<string>)
    requires WideRows(m)
    ensures GridScore(WordSearch, m, 0, |m|, 0, |m[0]|) <= 8 * GridScore(Letter('X'), m, 0, |m|, 0, |m[0]|)
  {
    GridScoreBound(WordSearch, Letter('X'), 8, m, 0, |m|, 0, |m[0]|);
  }

  /** Part 2 finds at most one X-MAS per interior A. */
  lemma Part2Bound(m: seq<string>)
    requires CrossScannable(m) && |m| >= 3
    ensures GridScore(CrossSearch, m, 1, |m| - 1, 1, |m[0]| - 1) <= GridScore(Letter('A'), m, 1, |m| - 1, 1, |m[0]| - 1)
  {
    GridScoreBound(CrossSearch, Letter('A'), 1, m, 1, |m| - 1, 1, |m[0]| - 1);
  }

  /** A 3x3 grid with one X-MAS around its centre. */
  lemma OneCross(m: seq<string>)
    requires m == ["M.S", ".A.", "M.S"]
    ensures GridScore(CrossSearch, m, 1, |m| - 1, 1, |m[0]| - 1) == 1
  {
    assert m[1][1] == 'A';
    assert Get(m, 0, 0) == 'M' && Get(m, 2, 2) == 'S' && Get(m, 0, 2) == 'S' && Get(m, 2, 0) == 'M';
    assert IsXMas(m, 1, 1);
    assert RowScore(CrossSearch, m, 1, 1, 2) == 1;
  }

  /** A one-row grid holding XMAS forwards and backwards: two words. */
  lemma OneWordBothWays(m: seq<string>)
    requires m == ["XMASAMX"]
    ensures GridScore(WordSearch, m, 0, |m|, 0, |m[0]|) == 2
  {
    XmasRightward(m);
    XmasLeftward(m);
    var row := m[0];
    assert row[1] == 'M' && row[2] == 'A' && row[3] == 'S' && row[4] == 'A' && row[5] == 'M';
    assert RowScore(WordSearch, m, 0, 0, 7) == 2;
  }

  /** The `X` at the left end starts one word, reading to the right. */
  lemma XmasRightward(m: seq<string>)
    requires m == ["XMASAMX"]
    ensures m[0][0] == 'X' && CountXmas(m, 0, 0) == 1
  {
    var row := m[0];
    assert row[0] == 'X' && row[1] == 'M' && row[2] == 'A' && row[3] == 'S';
    var D := Directions;
    assert !LetterAt(m, 0, 0, D[0], 1) && !LetterAt(m, 0, 0, D[1], 1) && !LetterAt(m, 0, 0, D[3], 1);
    assert !LetterAt(m, 0, 0, D[4], 1) && !LetterAt(m, 0, 0, D[5], 1) && !LetterAt(m, 0, 0, D[6], 1) && !LetterAt(m, 0, 0, D[7], 1);
    CountDirectionsExtremes(m, 0, 0, D[3..]);
    assert D[1..][1..] == D[2..] && D[2..][1..] == D[3..];
    assert MasFollows(m, 0, 0, D[2..][0]);
    assert CountDirections(m, 0, 0, D[2..]) == 1;
    assert CountDirections(m, 0, 0, D[1..]) == 1;
  }

  /** The `X` at the right end starts one word, reading to the left. */
  lemma XmasLeftward(m: seq<string>)
    requires m == ["XMASAMX"]
    ensures m[0][6] == 'X' && CountXmas(m, 0, 6) == 1
  {
    var row := m[0];
    assert row[6] == 'X' && row[5] == 'M' && row[4] == 'A' && row[3] == 'S';
    var D := Directions;
    assert MasFollows(m, 0, 6, D[0]);
    assert !LetterAt(m, 0, 6, D[1], 1) && !LetterAt(m, 0, 6, D[2], 1) && !LetterAt(m, 0, 6, D[3], 1);
    assert !LetterAt(m, 0, 6, D[4], 1) && !LetterAt(m, 0, 6, D[5], 1) && !LetterAt(m, 0, 6, D[6], 1) && !LetterAt(m, 0, 6, D[7], 1);
    CountDirectionsExtremes(m, 0, 6, D[1..]);
  }
}
