/**
 * Day 1 (src/day01.rs): two columns of numbers, sorted; part 1 is the total
 * distance between the sorted columns paired up, part 2 the similarity score
 * computed by merging runs of equal values.
 */
module Day01 {
  import opened Text
  import opened Digits

  /** A line the parser accepts: at least two whitespace-separated words, the
      first two being numbers of one to five digits (further words are ignored). */
  predicate WellFormedLine(line: string)
  {
    var words := Words(line);
    |words| >= 2 && IsShortNumeral(words[0]) && IsShortNumeral(words[1])
  }

  predicate WellFormedInput(input: string)
  {
    forall line :: line in Lines(input) ==> WellFormedLine(line)
  }

  /** Column `k` (0 for the left one, 1 for the right one) of the lines, in input order. */
  function Column(lines: seq<string>, k: nat): (col: seq<nat>)
    requires k <= 1
    requires forall i :: 0 <= i < |lines| ==> WellFormedLine(lines[i])
    ensures |col| == |lines|
  {
    if lines == [] then []
    else
      Column(lines[..|lines| - 1], k) + [Field(lines[|lines| - 1], k)]
  }

  /** The number in word `k` of a well-formed line. */
  function Field(line: string, k: nat): nat
    requires k <= 1 && WellFormedLine(line)
  {
    ParseNumber(Words(line)[k])
  }

  predicate Sorted(s: seq<nat>)
  {
    forall i, j :: 0 <= i < j < |s| ==> s[i] <= s[j]
  }

  /** Insert `x` into a sorted sequence. */
  function Insert(x: nat, s: seq<nat>): (r: seq<nat>)
    requires Sorted(s)
    ensures Sorted(r)
    ensures |r| == |s| + 1
    ensures multiset(r) == multiset(s) + multiset{x}
  {
    if s == [] || x <= s[0] then
      InsertFront(x, s);
      [x] + s
    else
      SortedTail(s);
      var tail := Insert(x, s[1..]);
      InsertBehind(x, s, tail);
      [s[0]] + tail
  }

  lemma InsertFront(x: nat, s: seq<nat>)
    requires Sorted(s) && (s == [] || x <= s[0])
    ensures Sorted([x] + s)
  {
    forall i, j | 0 <= i < j < |s| + 1 ensures ([x] + s)[i] <= ([x] + s)[j] {
      if i > 0 {
        assert s[i - 1] <= s[j - 1];
      } else {
        assert s[0] <= s[j - 1];
      }
    }
  }

  lemma InsertBehind(x: nat, s: seq<nat>, tail: seq<nat>)
    requires Sorted(s) && s != [] && s[0] < x
    requires Sorted(tail) && multiset(tail) == multiset(s[1..]) + multiset{x}
    ensures Sorted([s[0]] + tail)
    ensures multiset([s[0]] + tail) == multiset(s) + multiset{x}
  {
    MultisetOfTail(s);
    forall k | 0 <= k < |tail| ensures s[0] <= tail[k] {
      assert tail[k] in multiset(tail);
      if tail[k] != x {
        assert tail[k] in multiset(s[1..]);
        var m :| 0 <= m < |s[1..]| && s[1..][m] == tail[k];
        assert s[0] <= s[m + 1];
      }
    }
    forall i, j | 0 <= i < j < |tail| + 1 ensures ([s[0]] + tail)[i] <= ([s[0]] + tail)[j] {
      if i > 0 {
        assert tail[i - 1] <= tail[j - 1];
      }
    }
  }

  /** The result of `sort_unstable`: the same numbers in ascending order. */
  function SortAscending(s: seq<nat>): (r: seq<nat>)
    ensures Sorted(r)
    ensures |r| == |s|
    ensures multiset(r) == multiset(s)
  {
    if s == [] then []
    else
      assert s == [s[0]] + s[1..];
      Insert(s[0], SortAscending(s[1..]))
  }

  /** A sorted arrangement of a multiset is unique, so the parsed columns are determined. */
  lemma {:induction false} SortedPermutationUnique(a: seq<nat>, b: seq<nat>)
    requires Sorted(a) && Sorted(b)
    requires multiset(a) == multiset(b)
    ensures a == b
    decreases |a|
  {
    assert |a| == |multiset(a)| == |multiset(b)| == |b|;
    if a != [] {
      SortedHeadIsLeast(b, a[0]);
      SortedHeadIsLeast(a, b[0]);
      assert a[0] == b[0];
      MultisetOfTail(a);
      MultisetOfTail(b);
      SortedTail(a);
      SortedTail(b);
      SortedPermutationUnique(a[1..], b[1..]);
      SameHeadAndTail(a, b);
    }
  }

  lemma SameHeadAndTail(a: seq<nat>, b: seq<nat>)
    requires a != [] && b != [] && a[0] == b[0] && a[1..] == b[1..]
    ensures a == b
  {
    assert a == [a[0]] + a[1..];
    assert b == [b[0]] + b[1..];
  }

  /** The head of a sorted sequence is at most any of its elements. */
  lemma SortedHeadIsLeast(s: seq<nat>, x: nat)
    requires Sorted(s) && x in multiset(s)
    ensures s != [] && s[0] <= x
  {
    var i :| 0 <= i < |s| && s[i] == x;
  }

  lemma SortedTail(s: seq<nat>)
    requires Sorted(s) && s != []
    ensures Sorted(s[1..])
  {
    forall i, j | 0 <= i < j < |s| - 1 ensures s[1..][i] <= s[1..][j] {
      assert s[i + 1] <= s[j + 1];
    }
  }

  lemma MultisetOfTail(s: seq<nat>)
    requires s != []
    ensures multiset(s[1..]) == multiset(s) - multiset{s[0]}
  {
    assert s == [s[0]] + s[1..];
  }

  /** `parse`: one left and one right number per line, then each column sorted. */
  method Parse(input: string) returns (left: seq<nat>, right: seq<nat>)
    requires WellFormedInput(input)
    ensures |left| == |right| == |Lines(input)|
    ensures Sorted(left) && multiset(left) == multiset(Column(Lines(input), 0))
    ensures Sorted(right) && multiset(right) == multiset(Column(Lines(input), 1))
  {
    var lines := Lines(input);
    AllLinesWellFormed(input);
    left, right := [], [];
    var i := 0;
    while i < |lines|
      invariant 0 <= i <= |lines|
      invariant left == Column(lines[..i], 0)
      invariant right == Column(lines[..i], 1)
    {
      var parts := Words(lines[i]);
      ColumnSnoc(lines, i, 0);
      ColumnSnoc(lines, i, 1);
      left := left + [ParseNumber(parts[0])];
      right := right + [ParseNumber(parts[1])];
      i := i + 1;
    }
    assert lines[..i] == lines;
    left := SortAscending(left);
    right := SortAscending(right);
  }

  lemma AllLinesWellFormed(input: string)
    requires WellFormedInput(input)
    ensures forall k :: 0 <= k < |Lines(input)| ==> WellFormedLine(Lines(input)[k])
  {
    var lines := Lines(input);
    assert forall k :: 0 <= k < |lines| ==> lines[k] in lines;
  }

  lemma ColumnSnoc(lines: seq<string>, i: nat, k: nat)
    requires k <= 1 && i < |lines|
    requires forall j :: 0 <= j < |lines| ==> WellFormedLine(lines[j])
    ensures WellFormedLine(lines[i])
    ensures Column(lines[..i + 1], k) == Column(lines[..i], k) + [Field(lines[i], k)]
  {
    assert lines[..i + 1][..i] == lines[..i];
  }

  /** How many pairs `zip` forms: the length of the shorter list. */
  function ZipLength(a: seq<nat>, b: seq<nat>): nat
  {
    if |a| < |b| then |a| else |b|
  }

  /** `part1_impl`: the sum of the absolute differences of the zipped pairs. It is
      zero exactly when the lists agree on every zipped position. */
  function TotalDistance(left: seq<nat>, right: seq<nat>): (d: nat)
    ensures d == 0 <==> left[..ZipLength(left, right)] == right[..ZipLength(left, right)]
  {
    if left == [] || right == [] then 0
    else
      var rest := TotalDistance(left[1..], right[1..]);
      var n := ZipLength(left, right);
      assert left[..n] == [left[0]] + left[1..][..n - 1];
      assert right[..n] == [right[0]] + right[1..][..n - 1];
      AbsDiff(left[0], right[0]) + rest
  }

  /** Swapping the two lists does not change the distance. */
  lemma {:induction false} TotalDistanceSymmetric(left: seq<nat>, right: seq<nat>)
    ensures TotalDistance(left, right) == TotalDistance(right, left)
  {
    if left != [] && right != [] {
      TotalDistanceSymmetric(left[1..], right[1..]);
    }
  }

  /** The test `part1_example`, on the sorted columns of its input. */
  lemma Part1Example()
    ensures TotalDistance([1, 2, 3, 3, 3, 4], [3, 3, 3, 4, 5, 9]) == 11
  {
  }

  /** How often `x` occurs in `s`. */
  function Count(s: seq<nat>, x: nat): nat
  {
    multiset(s)[x]
  }

  /** The similarity score: every number of `left` weighted by how often it occurs in `right`. */
  function Similarity(left: seq<nat>, right: seq<nat>): nat
  {
    if left == [] then 0 else left[0] * Count(right, left[0]) + Similarity(left[1..], right)
  }

  lemma {:induction false} SimilarityAppend(a: seq<nat>, b: seq<nat>, right: seq<nat>)
    ensures Similarity(a + b, right) == Similarity(a, right) + Similarity(b, right)
  {
    if a == [] {
      assert a + b == b;
    } else {
      assert (a + b)[1..] == a[1..] + b;
      SimilarityAppend(a[1..], b, right);
    }
  }

  /** A run of `|run|` copies of `x` scores x * |run| * (occurrences of x in `right`). */
  lemma {:induction false} SimilarityOfRun(run: seq<nat>, x: nat, right: seq<nat>)
    requires forall k :: 0 <= k < |run| ==> run[k] == x
    ensures Similarity(run, right) == x * |run| * Count(right, x)
  {
    if run != [] {
      SimilarityOfRun(run[1..], x, right);
      assert x * |run| * Count(right, x) == x * Count(right, x) + x * |run[1..]| * Count(right, x);
    }
  }

  /** Numbers that do not occur in the other list contribute nothing. */
  lemma {:induction false} SimilarityOfAbsent(left: seq<nat>, right: seq<nat>)
    requires forall k :: 0 <= k < |left| ==> left[k] !in right
    ensures Similarity(left, right) == 0
  {
    if left != [] {
      assert left[0] !in multiset(right);
      SimilarityOfAbsent(left[1..], right);
    }
  }

  lemma MulSucc(a: nat, x: nat)
    ensures a * (x + 1) == a * x + a
  {
  }

  /** One more `a` in `right` adds `a` once for every `a` in `left`. */
  lemma {:induction false} SimilarityConsRight(left: seq<nat>, a: nat, right: seq<nat>)
    ensures Similarity(left, [a] + right) == Similarity(left, right) + a * Count(left, a)
  {
    if left != [] {
      var l0, rest := left[0], left[1..];
      SimilarityConsRight(rest, a, right);
      assert left == [l0] + rest;
      assert multiset([a] + right) == multiset{a} + multiset(right);
      var c := Count(right, l0);
      var cr := Count(rest, a);
      assert Similarity(rest, [a] + right) == Similarity(rest, right) + a * cr;
      if l0 == a {
        assert Count(left, a) == 1 + cr;
        assert Count([a] + right, l0) == c + 1;
        assert Similarity(left, [a] + right) == l0 * (c + 1) + Similarity(rest, [a] + right);
        MulSucc(l0, c);
        MulSucc(a, cr);
        assert Similarity(left, right) == l0 * c + Similarity(rest, right);
      } else {
        assert Count(left, a) == cr;
        assert Count([a] + right, l0) == c;
      }
    }
  }

  /** The score is symmetric: both orders equal the sum over the values v of
      v * (occurrences in left) * (occurrences in right). */
  lemma {:induction false} SimilaritySymmetric(left: seq<nat>, right: seq<nat>)
    ensures Similarity(left, right) == Similarity(right, left)
  {
    if left == [] {
      SimilarityOfAbsent(right, left);
    } else {
      var l0, rest := left[0], left[1..];
      assert left == [l0] + rest;
      SimilaritySymmetric(rest, right);
      SimilarityConsRight(right, l0, rest);
      assert Similarity(left, right) == l0 * Count(right, l0) + Similarity(rest, right);
    }
  }

  /** Where the run of values equal to `s[i]` that starts at `i` ends (`chunk_by`). */
  function RunEnd(s: seq<nat>, i: nat): (e: nat)
    requires i < |s|
    ensures i < e <= |s|
    ensures forall k :: i <= k < e ==> s[k] == s[i]
    ensures e < |s| ==> s[e] != s[i]
    decreases |s| - i
  {
    if i + 1 < |s| && s[i + 1] == s[i] then RunEnd(s, i + 1) else i + 1
  }

  lemma {:induction false} CountOfRun(s: seq<nat>, x: nat)
    requires forall k :: 0 <= k < |s| ==> s[k] == x
    ensures Count(s, x) == |s|
  {
    if s != [] {
      CountOfRun(s[1..], x);
      assert s == [s[0]] + s[1..];
    }
  }

  /** Everything in `right` before index `j` is smaller than everything in `left` from index `i`. */
  predicate Behind(left: seq<nat>, i: nat, right: seq<nat>, j: nat)
    requires i <= |left| && j <= |right|
  {
    forall k, m :: 0 <= k < j && i <= m < |left| ==> right[k] < left[m]
  }

  /** Extending the scored prefix of `left` by the run of `x` at `i`: it adds
      x * (run length) * (occurrences of x in `right`). */
  lemma ScoreRun(left: seq<nat>, right: seq<nat>, i: nat, e: nat)
    requires i < e <= |left|
    requires forall k :: i <= k < e ==> left[k] == left[i]
    ensures Similarity(left[..e], right) == Similarity(left[..i], right) + left[i] * (e - i) * Count(right, left[i])
  {
    var before, run := left[..i], left[i..e];
    assert left[..e] == before + run;
    SimilarityAppend(before, run, right);
    assert forall k :: 0 <= k < |run| ==> run[k] == left[i + k];
    SimilarityOfRun(run, left[i], right);
  }

  /** A value below the run at `j` of a sorted `right`, and above everything before it, does not occur in `right`. */
  lemma CountBelowRun(right: seq<nat>, j: nat, x: nat)
    requires Sorted(right) && j <= |right|
    requires forall k :: 0 <= k < j ==> right[k] < x
    requires j == |right| || x < right[j]
    ensures Count(right, x) == 0
  {
    forall k | 0 <= k < |right|
      ensures right[k] != x
    {
      if j <= k {
        assert right[j] <= right[k];
      }
    }
    assert x !in right;
  }

  /** The value of the run at `j` of a sorted `right`, above everything before it, occurs once per element of the run. */
  lemma CountOfMatchingRun(right: seq<nat>, j: nat)
    requires Sorted(right) && j < |right|
    requires forall k :: 0 <= k < j ==> right[k] < right[j]
    ensures Count(right, right[j]) == RunEnd(right, j) - j
  {
    var x, ej := right[j], RunEnd(right, j);
    var below, run, above := right[..j], right[j..ej], right[ej..];
    CountOfThirds(right, j, ej, x);
    assert forall k :: 0 <= k < |below| ==> below[k] != x by {
      forall k | 0 <= k < |below| ensures below[k] != x {
        assert below[k] == right[k];
      }
    }
    CountOfAbsent(below, x);
    AboveRun(right, j);
    assert forall k :: 0 <= k < |above| ==> above[k] != x by {
      forall k | 0 <= k < |above| ensures above[k] != x {
        assert above[k] == right[ej + k];
      }
    }
    CountOfAbsent(above, x);
    CountOfRun(run, x);
  }

  lemma CountOfThirds(s: seq<nat>, i: nat, j: nat, x: nat)
    requires i <= j <= |s|
    ensures Count(s, x) == Count(s[..i], x) + Count(s[i..j], x) + Count(s[j..], x)
  {
    assert s == s[..i] + (s[i..j] + s[j..]);
    CountOfConcat(s[..i], s[i..j] + s[j..], x);
    CountOfConcat(s[i..j], s[j..], x);
  }

  lemma CountOfAbsent(s: seq<nat>, x: nat)
    requires forall k :: 0 <= k < |s| ==> s[k] != x
    ensures Count(s, x) == 0
  {
    assert x !in s;
  }

  lemma CountOfConcat(a: seq<nat>, b: seq<nat>, x: nat)
    ensures Count(a + b, x) == Count(a, x) + Count(b, x)
  {
    assert multiset(a + b) == multiset(a) + multiset(b);
  }

  /** In a sorted sequence, everything after the run at `i` is larger than its value. */
  lemma AboveRun(s: seq<nat>, i: nat)
    requires Sorted(s) && i < |s|
    ensures forall m :: RunEnd(s, i) <= m < |s| ==> s[i] < s[m]
  {
    var e := RunEnd(s, i);
    forall m | e <= m < |s| ensures s[i] < s[m] {
      assert s[e] != s[i];
      assert s[i] <= s[e];
      assert s[e] <= s[m];
    }
  }

  /** How `Behind` survives each of the three moves of the merge. */
  lemma BehindAdvances(left: seq<nat>, i: nat, right: seq<nat>, j: nat)
    requires Sorted(left) && Sorted(right)
    requires i < |left| && j < |right| && Behind(left, i, right, j)
    ensures forall k :: 0 <= k < j ==> right[k] < left[i]
    ensures left[i] < right[j] ==> Behind(left, RunEnd(left, i), right, j)
    ensures left[i] == right[j] ==> Behind(left, RunEnd(left, i), right, RunEnd(right, j))
    ensures left[i] > right[j] ==> Behind(left, i, right, RunEnd(right, j))
  {
    var ei, ej := RunEnd(left, i), RunEnd(right, j);
    forall k | 0 <= k < j ensures right[k] < left[i] {
      assert Behind(left, i, right, j);
    }
    if left[i] == right[j] {
      AboveRun(left, i);
      forall k, m | 0 <= k < ej && ei <= m < |left|
        ensures right[k] < left[m]
      {
        if k < j {
          assert Behind(left, i, right, j);
        } else {
          assert right[k] == right[j];
        }
      }
    } else if left[i] > right[j] {
      forall k, m | 0 <= k < ej && i <= m < |left|
        ensures right[k] < left[m]
      {
        if k < j {
          assert Behind(left, i, right, j);
        } else {
          assert right[k] == right[j];
          assert left[i] <= left[m];
        }
      }
    }
  }

  /** `part2_impl`: walks the runs of equal values of both sorted lists in step,
      adding value * run length * run length whenever the two runs agree. */
  method SimilarityScore(left: seq<nat>, right: seq<nat>) returns (sum: nat)
    requires Sorted(left) && Sorted(right)
    ensures sum == Similarity(left, right)
  {
    var i, j := 0, 0;
    sum := 0;
    while i < |left| && j < |right|
      invariant 0 <= i <= |left| && 0 <= j <= |right|
      invariant sum == Similarity(left[..i], right)
      invariant Behind(left, i, right, j)
      decreases |left| - i + |right| - j
    {
      var x, y := left[i], right[j];
      var ei, ej := RunEnd(left, i), RunEnd(right, j);
      ScoreRun(left, right, i, ei);
      BehindAdvances(left, i, right, j);
      if x < y {
        CountBelowRun(right, j, x);
        i := ei;
      } else if x == y {
        CountOfMatchingRun(right, j);
        sum := sum + x * (ei - i) * (ej - j);
        i, j := ei, ej;
      } else {
        j := ej;
      }
    }
    assert left == left[..i] + left[i..];
    SimilarityAppend(left[..i], left[i..], right);
    SimilarityOfAbsent(left[i..], right);
  }

  /** The test `part2_example`, on the sorted columns of its input. */
  lemma Part2Example()
    ensures Similarity([1, 2, 3, 3, 3, 4], [3, 3, 3, 4, 5, 9]) == 31
  {
    var r := [3, 3, 3, 4, 5, 9];
    assert multiset(r) == multiset{3, 3, 3, 4, 5, 9};
    assert Count(r, 1) == 0 && Count(r, 2) == 0 && Count(r, 3) == 3 && Count(r, 4) == 1;
    assert Similarity([4], r) == 4;
    assert Similarity([3, 4], r) == 13;
    assert Similarity([3, 3, 4], r) == 22;
    assert Similarity([3, 3, 3, 4], r) == 31;
    assert Similarity([2, 3, 3, 3, 4], r) == 31;
  }
}
