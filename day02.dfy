/**
 * Day 2 (src/day02.rs): reports of levels. A report is safe when the levels
 * move by 1 to 3 at every step and always in the same direction; part 2
 * also accepts a report that becomes safe once one level is removed.
 */
module Day02 {
  import opened Wrappers
  import opened Text
  import opened Digits

  /** What `parse_u16` accepts: one or two digits (other lengths panic). */
  predicate IsLevelText(v: string)
  {
    1 <= |v| <= 2 && IsNumeral(v)
  }

  /** `parse_u16`: the value of one or two digits. */
  function ParseU16(v: string): (n: nat)
    requires IsLevelText(v)
    ensures n == DecimalValue(v)
    ensures n < 100
  {
    if |v| == 1 then
      assert v[..0] == [];
      DigitValue(v[0])
    else
      assert v[..1][..0] == [] && v[..1][0] == v[0];
      assert DecimalValue(v[..1]) == DigitValue(v[0]);
      assert DecimalValue(v) == 10 * DecimalValue(v[..1]) + DigitValue(v[1]);
      DigitValue(v[0]) * 10 + DigitValue(v[1])
  }

  /** The words of a line: the non-empty pieces between spaces. */
  function Tokens(line: string): seq<string>
  {
    NonEmpty(SplitOn(line, {' '}))
  }

  predicate WellFormedLine(line: string)
  {
    forall k :: 0 <= k < |Tokens(line)| ==> IsLevelText(Tokens(line)[k])
  }

  /** The levels of a line, in order. */
  function ParseLevels(tokens: seq<string>): (levels: seq<nat>)
    requires forall k :: 0 <= k < |tokens| ==> IsLevelText(tokens[k])
    ensures |levels| == |tokens|
    ensures forall k :: 0 <= k < |tokens| ==> levels[k] == ParseU16(tokens[k])
  {
    if tokens == [] then []
    else ParseLevels(tokens[..|tokens| - 1]) + [ParseU16(tokens[|tokens| - 1])]
  }

  /** The pieces of the input between `\n` characters. */
  function InputLines(input: string): (lines: seq<string>)
    ensures |lines| == Occurrences(input, '\n') + 1
  {
    SplitCount(input, '\n');
    SplitOn(input, {'\n'})
  }

  /** The report one line stands for. */
  function Report(line: string): seq<nat>
    requires WellFormedLine(line)
  {
    ParseLevels(Tokens(line))
  }

  /** `parse`: one report per `\n`-separated piece of the input (so an empty
      piece, such as the one after a final `\n`, gives an empty report). */
  method Parse(input: string) returns (reports: seq<seq<nat>>)
    requires forall k :: 0 <= k < |InputLines(input)| ==> WellFormedLine(InputLines(input)[k])
    ensures |reports| == |InputLines(input)|
    ensures forall k :: 0 <= k < |reports| ==> reports[k] == Report(InputLines(input)[k])
  {
    var lines := InputLines(input);
    reports := [];
    var i := 0;
    while i < |lines|
      invariant 0 <= i <= |lines| && |reports| == i
      invariant forall k :: 0 <= k < i ==> reports[k] == Report(lines[k])
    {
      var levels := ParseLine(lines[i]);
      reports := reports + [levels];
      i := i + 1;
    }
  }

  /** The inner loop of `parse`: push the value of every word of one line. */
  method ParseLine(line: string) returns (levels: seq<nat>)
    requires WellFormedLine(line)
    ensures levels == Report(line)
    ensures |levels| == |Tokens(line)|
    ensures forall k :: 0 <= k < |levels| ==> levels[k] == DecimalValue(Tokens(line)[k])
  {
    var tokens := Tokens(line);
    levels := [];
    var j := 0;
    while j < |tokens|
      invariant 0 <= j <= |tokens|
      invariant levels == ParseLevels(tokens[..j])
    {
      assert tokens[..j + 1][..j] == tokens[..j];
      levels := levels + [ParseU16(tokens[j])];
      j := j + 1;
    }
    assert tokens[..j] == tokens;
  }

  /** A line of spaces only (in particular an empty line) has no levels. */
  lemma {:induction false} BlankLineHasNoTokens(line: string)
    requires forall k :: 0 <= k < |line| ==> line[k] == ' '
    ensures Tokens(line) == []
    decreases |line|
  {
    if line != [] {
      BlankLineHasNoTokens(line[1..]);
      assert SplitOn(line, {' '}) == [""] + SplitOn(line[1..], {' '});
    }
  }

  /** Two adjacent levels differ by at least one and at most three. */
  predicate GoodGap(a: nat, b: nat)
  {
    1 <= AbsDiff(a, b) <= 3
  }

  /** Every step is a good gap, and the steps all go up or all go down. */
  predicate Safe(report: seq<nat>)
  {
    && (forall k :: 0 <= k < |report| - 1 ==> GoodGap(report[k], report[k + 1]))
    && ((forall k :: 0 <= k < |report| - 1 ==> report[k] < report[k + 1])
        || (forall k :: 0 <= k < |report| - 1 ==> report[k] > report[k + 1]))
  }

  /** Every prefix of a safe report is safe. */
  lemma SafePrefix(report: seq<nat>, n: nat)
    requires Safe(report) && n <= |report|
    ensures Safe(report[..n])
  {
    var p := report[..n];
    assert forall k :: 0 <= k < |p| ==> p[k] == report[k];
  }

  lemma ShorterPrefixSafe(report: seq<nat>, m: nat, n: nat)
    requires n <= m <= |report| && Safe(report[..m])
    ensures Safe(report[..n])
  {
    SafePrefix(report[..m], n);
    assert report[..m][..n] == report[..n];
  }

  /** In a safe report every step is a good gap going the same way as the first step. */
  lemma SafeStep(report: seq<nat>, k: nat)
    requires Safe(report) && k + 1 < |report|
    ensures GoodGap(report[k], report[k + 1])
    ensures (report[k] < report[k + 1]) == (report[0] < report[1])
  {
  }

  /** A safe prefix grows by one step exactly when that step is a good gap in
      the direction of the first step. */
  lemma SafeExtend(report: seq<nat>, i: nat)
    requires i + 1 < |report| && Safe(report[..i + 1])
    ensures Safe(report[..i + 2]) <==>
      GoodGap(report[i], report[i + 1]) && (i == 0 || (report[i] < report[i + 1]) == (report[0] < report[1]))
  {
    var p, q := report[..i + 1], report[..i + 2];
    assert forall k :: 0 <= k < i + 1 ==> p[k] == report[k];
    assert forall k :: 0 <= k < i + 2 ==> q[k] == report[k];
    if GoodGap(report[i], report[i + 1]) && (i == 0 || (report[i] < report[i + 1]) == (report[0] < report[1])) {
      if i > 0 {
        SafeStep(p, 0);
      }
      assert Safe(q);
    }
    if Safe(q) {
      SafeStep(q, i);
    }
  }

  /** A report of fewer than two levels has no adjacent pair, so it is safe. */
  lemma ShortReportSafe(report: seq<nat>)
    requires |report| < 2
    ensures Safe(report) && FirstUnsafe(report).None?
  {
    FirstUnsafeSpec(report);
  }

  /** The first pair, at index `from` or later, whose prefix is not safe. */
  function FirstUnsafeFrom(report: seq<nat>, from: nat): Option<nat>
    decreases |report| - from
  {
    if from + 1 >= |report| then None
    else if !Safe(report[..from + 2]) then Some(from)
    else FirstUnsafeFrom(report, from + 1)
  }

  /** The index of the first adjacent pair that breaks safety, if any. */
  function FirstUnsafe(report: seq<nat>): Option<nat>
  {
    FirstUnsafeFrom(report, 0)
  }

  lemma {:induction false} FirstUnsafeFromSpec(report: seq<nat>, from: nat)
    requires from == 0 || (from < |report| && Safe(report[..from + 1]))
    ensures FirstUnsafeFrom(report, from).None? ==> Safe(report)
    ensures FirstUnsafeFrom(report, from).Some? ==>
      var i := FirstUnsafeFrom(report, from).value;
      i + 1 < |report| && Safe(report[..i + 1]) && !Safe(report[..i + 2])
    decreases |report| - from
  {
    if from + 1 >= |report| {
      if from == 0 {
        assert |report| <= 1;
      } else {
        assert report[..from + 1] == report;
      }
    } else if !Safe(report[..from + 2]) {
      if from == 0 {
        assert Safe(report[..1]);
      }
    } else {
      FirstUnsafeFromSpec(report, from + 1);
    }
  }

  /** `FirstUnsafe` is None exactly for safe reports, and otherwise names the
      first pair at which a prefix stops being safe. */
  lemma FirstUnsafeSpec(report: seq<nat>)
    ensures FirstUnsafe(report).None? <==> Safe(report)
    ensures FirstUnsafe(report).Some? ==>
      var i := FirstUnsafe(report).value;
      i + 1 < |report| && Safe(report[..i + 1]) && !Safe(report[..i + 2])
  {
    FirstUnsafeFromSpec(report, 0);
    if FirstUnsafe(report).Some? {
      var i := FirstUnsafe(report).value;
      if Safe(report) {
        SafePrefix(report, i + 2);
      }
    }
  }

  /** The first bad pair is unique: a pair whose prefix is safe but stops
      being safe with it is the one `FirstUnsafe` finds. */
  lemma FirstUnsafeIs(report: seq<nat>, i: nat)
    requires i + 1 < |report| && Safe(report[..i + 1]) && !Safe(report[..i + 2])
    ensures FirstUnsafe(report) == Some(i)
  {
    FirstUnsafeSpec(report);
    match FirstUnsafe(report)
    case None =>
      SafePrefix(report, i + 2);
    case Some(j) =>
      BreakIsUnique(report, i, j);
  }

  /** Two pairs at which a safe prefix stops being safe are the same pair. */
  lemma BreakIsUnique(report: seq<nat>, i: nat, j: nat)
    requires i + 1 < |report| && Safe(report[..i + 1]) && !Safe(report[..i + 2])
    requires j + 1 < |report| && Safe(report[..j + 1]) && !Safe(report[..j + 2])
    ensures i == j
  {
    if j < i {
      ShorterPrefixSafe(report, i + 1, j + 2);
    } else if i < j {
      ShorterPrefixSafe(report, j + 1, i + 2);
    }
  }

  /** The direction fixed by the first pair (`Ordering::Less` / `Greater`). */
  datatype Direction = Increasing | Decreasing

  /** `is_safe`: one pass over the adjacent pairs, remembering the direction of
      the first one; returns the index of the first bad pair. */
  method IsSafe(report: seq<nat>) returns (bad: Option<nat>)
    ensures bad == FirstUnsafe(report)
    ensures bad.None? <==> Safe(report)
    ensures bad.Some? ==>
      bad.value + 1 < |report| && Safe(report[..bad.value + 1]) && !Safe(report[..bad.value + 2])
  {
    FirstUnsafeSpec(report);
    var direction: Option<Direction> := None;
    var i := 0;
    while i + 1 < |report|
      invariant i == 0 || i < |report|
      invariant i < |report| ==> Safe(report[..i + 1])
      invariant FirstUnsafe(report) == FirstUnsafeFrom(report, i)
      invariant direction.None? <==> i == 0
      invariant direction == Some(Increasing) ==> report[0] < report[1]
      invariant direction == Some(Decreasing) ==> report[0] > report[1]
    {
      var a, b := report[i], report[i + 1];
      SafeExtend(report, i);
      if !(1 <= AbsDiff(a, b) <= 3) {
        return Some(i);
      }
      // A difference of at least one rules out `Ordering::Equal` here.
      if a < b {
        match direction
        case None =>
          direction := Some(Increasing);
        case Some(Increasing) =>
        case Some(Decreasing) =>
          return Some(i);
      } else {
        match direction
        case Some(Decreasing) =>
        case None =>
          direction := Some(Decreasing);
        case Some(Increasing) =>
          return Some(i);
      }
      i := i + 1;
    }
    return None;
  }

  /** `part1_impl`: the number of safe reports. */
  function SafeCount(reports: seq<seq<nat>>): (n: nat)
    ensures n <= |reports|
    ensures n == |reports| <==> forall k :: 0 <= k < |reports| ==> Safe(reports[k])
  {
    if reports == [] then 0
    else
      FirstUnsafeSpec(reports[0]);
      assert forall k :: 1 <= k < |reports| ==> reports[k] == reports[1..][k - 1];
      (if FirstUnsafe(reports[0]).None? then 1 else 0) + SafeCount(reports[1..])
  }

  /** `Vec::remove(k)` on a clone: the report without level `k`. */
  function Remove(report: seq<nat>, k: nat): (r: seq<nat>)
    requires k < |report|
    ensures |r| == |report| - 1
    ensures forall j :: 0 <= j < k ==> r[j] == report[j]
    ensures forall j :: k <= j < |r| ==> r[j] == report[j + 1]
  {
    report[..k] + report[k + 1..]
  }

  /** The per-report decision of `part2_impl`: safe, or safe after removing
      level i - 1 (when i > 0), level i or level i + 1, where i is the first bad pair. */
  function Dampened(report: seq<nat>): (ok: bool)
    ensures Safe(report) ==> ok
    ensures |report| <= 2 ==> ok
  {
    FirstUnsafeSpec(report);
    match FirstUnsafe(report)
    case None => true
    case Some(i) =>
      assert |report| <= 2 ==> i == 0 && |Remove(report, 0)| < 2 && FirstUnsafe(Remove(report, 0)).None? by {
        if |report| <= 2 {
          ShortReportSafe(Remove(report, 0));
        }
      }
      || (i > 0 && i < |report| && FirstUnsafe(Remove(report, i - 1)).None?)
      || FirstUnsafe(Remove(report, i)).None?
      || (i < |report| - 1 && FirstUnsafe(Remove(report, i + 1)).None?)
  }

  /** Part 2 accepts only reports that are safe or become safe after
      removing a single level. */
  lemma DampenedSound(report: seq<nat>)
    requires Dampened(report)
    ensures Safe(report) || exists k :: 0 <= k < |report| && Safe(Remove(report, k))
  {
    FirstUnsafeSpec(report);
    if FirstUnsafe(report).Some? {
      var i := FirstUnsafe(report).value;
      if i > 0 { FirstUnsafeSpec(Remove(report, i - 1)); }
      FirstUnsafeSpec(Remove(report, i));
      if i < |report| - 1 { FirstUnsafeSpec(Remove(report, i + 1)); }
    }
  }

  /** Part 2 accepts every report that some single removal makes safe:
      trying the levels around the first bad pair is enough. */
  lemma DampenedComplete(report: seq<nat>, k: nat)
    requires k < |report| && Safe(Remove(report, k))
    ensures Dampened(report)
  {
    FirstUnsafeSpec(report);
    match FirstUnsafe(report)
    case None =>
    case Some(i) =>
      OnlyNeighbours(report, i, k);
      FirstUnsafeSpec(Remove(report, k));
      DampenedByNeighbour(report, i, k);
  }

  /** Removing a level next to the first bad pair that leaves a safe report is one of the tries. */
  lemma DampenedByNeighbour(report: seq<nat>, i: nat, k: nat)
    requires FirstUnsafe(report) == Some(i) && i + 1 < |report|
    requires k < |report| && i <= k + 1 && k <= i + 1 && FirstUnsafe(Remove(report, k)).None?
    ensures Dampened(report)
  {
    if k + 1 == i {
      assert i > 0 && FirstUnsafe(Remove(report, i - 1)).None?;
    } else if k == i + 1 {
      assert i < |report| - 1 && FirstUnsafe(Remove(report, i + 1)).None?;
    }
  }

  /** If removing level k repairs a report whose first bad pair is i, then k is i - 1, i or i + 1. */
  lemma OnlyNeighbours(report: seq<nat>, i: nat, k: nat)
    requires i + 1 < |report| && Safe(report[..i + 1]) && !Safe(report[..i + 2])
    requires k < |report| && Safe(Remove(report, k))
    ensures i <= k + 1 && k <= i + 1
  {
    var t := Remove(report, k);
    if k > i + 1 {
      SafePrefix(t, i + 2);
    } else if k + 1 < i {
      SafeStep(t, i - 2);
      SafeStep(t, i - 1);
      SafeStep(report[..i + 1], i - 1);
      SafeExtend(report, i);
    }
  }

  /** `part2_impl`: the number of reports part 2 accepts. */
  function DampenedCount(reports: seq<seq<nat>>): (n: nat)
    ensures SafeCount(reports) <= n <= |reports|
  {
    if reports == [] then 0
    else (if Dampened(reports[0]) then 1 else 0) + DampenedCount(reports[1..])
  }

  /** Safety of a report checked step by step along its prefixes. */
  lemma SafeBySteps(report: seq<nat>, n: nat)
    requires 1 <= n <= |report|
    requires forall k :: 0 <= k < n - 1 ==> GoodGap(report[k], report[k + 1])
    requires forall k :: 0 <= k < n - 1 ==> (report[k] < report[k + 1]) == (report[0] < report[1])
    ensures Safe(report[..n])
  {
    if n > 1 {
      SafeBySteps(report, n - 1);
      SafeExtend(report, n - 2);
    }
  }

  /** The reports of the example in the tests of src/day02.rs. */
  const ExampleReports: seq<seq<nat>> :=
    [[7, 6, 4, 2, 1], [1, 2, 7, 8, 9], [9, 7, 6, 2, 1], [1, 3, 2, 4, 5], [8, 6, 4, 4, 1], [1, 3, 6, 7, 9]]

  /** A report whose every step is a good gap in the direction of the first one
      is safe, and `FirstUnsafe` finds nothing. */
  lemma SafeWhole(report: seq<nat>)
    requires |report| >= 1
    requires forall k :: 0 <= k < |report| - 1 ==> GoodGap(report[k], report[k + 1])
    requires forall k :: 0 <= k < |report| - 1 ==> (report[k] < report[k + 1]) == (report[0] < report[1])
    ensures Safe(report) && FirstUnsafe(report).None?
  {
    SafeBySteps(report, |report|);
    assert report[..|report|] == report;
    FirstUnsafeSpec(report);
  }

  /** A report whose steps before pair i are good and whose pair i is a bad gap
      or a change of direction has its first bad pair at i. */
  lemma BreaksAt(report: seq<nat>, i: nat)
    requires i + 1 < |report|
    requires forall k :: 0 <= k < i ==> GoodGap(report[k], report[k + 1])
    requires forall k :: 0 <= k < i ==> (report[k] < report[k + 1]) == (report[0] < report[1])
    requires !GoodGap(report[i], report[i + 1]) || (i > 0 && (report[i] < report[i + 1]) != (report[0] < report[1]))
    ensures FirstUnsafe(report) == Some(i)
  {
    SafeBySteps(report, i + 1);
    SafeExtend(report, i);
    FirstUnsafeIs(report, i);
  }

  /** What `is_safe` says of each example report. */
  lemma ExampleFirstUnsafe()
    ensures FirstUnsafe(ExampleReports[0]).None? && FirstUnsafe(ExampleReports[1]) == Some(1)
    ensures FirstUnsafe(ExampleReports[2]) == Some(2) && FirstUnsafe(ExampleReports[3]) == Some(1)
    ensures FirstUnsafe(ExampleReports[4]) == Some(2) && FirstUnsafe(ExampleReports[5]).None?
  {
    var r := ExampleReports;
    ExampleSafe(r[0]);
    ExampleBreaksAt(r[1], 1);
    ExampleBreaksAt(r[2], 2);
    ExampleBreaksAt(r[3], 1);
    ExampleBreaksAt(r[4], 2);
    ExampleSafe(r[5]);
  }

  lemma ExampleSafe(report: seq<nat>)
    requires report == [7, 6, 4, 2, 1] || report == [1, 3, 6, 7, 9]
    ensures FirstUnsafe(report).None?
  {
    SafeWhole(report);
  }

  lemma ExampleBreaksAt(report: seq<nat>, i: nat)
    requires (report == [1, 2, 7, 8, 9] && i == 1) || (report == [9, 7, 6, 2, 1] && i == 2)
          || (report == [1, 3, 2, 4, 5] && i == 1) || (report == [8, 6, 4, 4, 1] && i == 2)
    ensures FirstUnsafe(report) == Some(i)
  {
    BreaksAt(report, i);
  }

  /** Test `part1_example`: two of the example reports are safe. */
  lemma Part1Example()
    ensures SafeCount(ExampleReports) == 2
  {
    var r := ExampleReports;
    ExampleFirstUnsafe();
    assert SafeCount(r[6..]) == 0;
    assert r[5..][1..] == r[6..];
    assert SafeCount(r[5..]) == 1;
    assert r[4..][1..] == r[5..];
    assert SafeCount(r[4..]) == 1;
    assert r[3..][1..] == r[4..];
    assert SafeCount(r[3..]) == 1;
    assert r[2..][1..] == r[3..];
    assert SafeCount(r[2..]) == 1;
    assert r[1..][1..] == r[2..];
    assert SafeCount(r[1..]) == 1;
  }

  /** Test `part2_example`: with one level removable, four of the example reports pass. */
  lemma Part2Example()
    ensures DampenedCount(ExampleReports) == 4
  {
    var r := ExampleReports;
    ExampleVerdicts();
    assert DampenedCount(r[6..]) == 0;
    assert r[5..][1..] == r[6..];
    assert DampenedCount(r[5..]) == 1;
    assert r[4..][1..] == r[5..];
    assert DampenedCount(r[4..]) == 2;
    assert r[3..][1..] == r[4..];
    assert DampenedCount(r[3..]) == 3;
    assert r[2..][1..] == r[3..];
    assert DampenedCount(r[2..]) == 3;
    assert r[1..][1..] == r[2..];
    assert DampenedCount(r[1..]) == 3;
  }

  /** Which example reports part 2 accepts. */
  lemma ExampleVerdicts()
    ensures Dampened(ExampleReports[0]) && !Dampened(ExampleReports[1]) && !Dampened(ExampleReports[2])
    ensures Dampened(ExampleReports[3]) && Dampened(ExampleReports[4]) && Dampened(ExampleReports[5])
  {
    var r := ExampleReports;
    ExampleFirstUnsafe();
    ExampleNoRepairRising(r[1]);
    ExampleNoRepairFalling(r[2]);
    ExampleRepairSecond(r[3]);
    ExampleRepairThird(r[4]);
  }

  /** [1, 2, 7, 8, 9] stays unsafe whichever of the levels around its jump is removed. */
  lemma ExampleNoRepairRising(report: seq<nat>)
    requires report == [1, 2, 7, 8, 9]
    ensures !Dampened(report)
  {
    BreaksAt(report, 1);
    RemovalStaysUnsafe(report, 0, 0);
    RemovalStaysUnsafe(report, 1, 0);
    RemovalStaysUnsafe(report, 2, 1);
    NoTryRepairs(report, 1);
  }

  /** Removing level j leaves a bad gap at k: the report stays unsafe. */
  lemma RemovalStaysUnsafe(report: seq<nat>, j: nat, k: nat)
    requires j < |report| && k + 2 < |report|
    requires !GoodGap(Remove(report, j)[k], Remove(report, j)[k + 1])
    ensures FirstUnsafe(Remove(report, j)).Some?
  {
    FirstUnsafeSpec(Remove(report, j));
  }

  /** A report that none of the three tries around its first bad pair repairs is rejected. */
  lemma NoTryRepairs(report: seq<nat>, i: nat)
    requires FirstUnsafe(report) == Some(i) && i + 1 < |report|
    requires i > 0 ==> FirstUnsafe(Remove(report, i - 1)).Some?
    requires FirstUnsafe(Remove(report, i)).Some? && FirstUnsafe(Remove(report, i + 1)).Some?
    ensures !Dampened(report)
  {
  }

  /** [9, 7, 6, 2, 1] stays unsafe whichever of the levels around its drop is removed. */
  lemma ExampleNoRepairFalling(report: seq<nat>)
    requires report == [9, 7, 6, 2, 1]
    ensures !Dampened(report)
  {
    BreaksAt(report, 2);
    RemovalStaysUnsafe(report, 1, 1);
    RemovalStaysUnsafe(report, 2, 1);
    RemovalStaysUnsafe(report, 3, 2);
    NoTryRepairs(report, 2);
  }

  /** [1, 3, 2, 4, 5] turns at its second pair; without its second level it is safe. */
  lemma ExampleRepairSecond(report: seq<nat>)
    requires report == [1, 3, 2, 4, 5]
    ensures Dampened(report)
  {
    BreaksAt(report, 1);
    assert Remove(report, 1) == [1, 2, 4, 5];
    SafeWhole(Remove(report, 1));
  }

  /** [8, 6, 4, 4, 1] stalls at its third pair; without its third level it is safe. */
  lemma ExampleRepairThird(report: seq<nat>)
    requires report == [8, 6, 4, 4, 1]
    ensures Dampened(report)
  {
    BreaksAt(report, 2);
    assert Remove(report, 2) == [8, 6, 4, 1];
    SafeWhole(Remove(report, 2));
  }

  /** Test `part2_boundary_conditions`: each of its one-report inputs is accepted. */
  lemma Part2BoundaryConditions()
    ensures DampenedCount([[1, 3, 6, 7, 9, 5]]) == 1
    ensures DampenedCount([[9, 1, 2, 3, 4, 5]]) == 1
    ensures DampenedCount([[5, 2, 3, 4, 5]]) == 1
    ensures DampenedCount([[1, 2, 2, 4, 7]]) == 1
  {
    DampenLast([1, 3, 6, 7, 9, 5]);
    SingleReport([1, 3, 6, 7, 9, 5]);
    DampenFirstJump([9, 1, 2, 3, 4, 5]);
    SingleReport([9, 1, 2, 3, 4, 5]);
    DampenFirstTurn([5, 2, 3, 4, 5]);
    SingleReport([5, 2, 3, 4, 5]);
    DampenSecond([1, 2, 2, 4, 7]);
    SingleReport([1, 2, 2, 4, 7]);
  }

  lemma SingleReport(report: seq<nat>)
    ensures DampenedCount([report]) == if Dampened(report) then 1 else 0
  {
    assert [report][1..] == [];
  }

  /** [1, 3, 6, 7, 9, 5] turns at its last pair; without its last level it is safe. */
  lemma DampenLast(report: seq<nat>)
    requires report == [1, 3, 6, 7, 9, 5]
    ensures Dampened(report)
  {
    BreaksAt(report, 4);
    assert Remove(report, 5) == [1, 3, 6, 7, 9];
    SafeWhole(Remove(report, 5));
  }

  /** [9, 1, 2, 3, 4, 5] jumps at its first pair; without its first level it is safe. */
  lemma DampenFirstJump(report: seq<nat>)
    requires report == [9, 1, 2, 3, 4, 5]
    ensures Dampened(report)
  {
    BreaksAt(report, 0);
    assert Remove(report, 0) == [1, 2, 3, 4, 5];
    SafeWhole(Remove(report, 0));
  }

  /** [5, 2, 3, 4, 5] turns at its second pair; without its first level it is safe. */
  lemma DampenFirstTurn(report: seq<nat>)
    requires report == [5, 2, 3, 4, 5]
    ensures Dampened(report)
  {
    BreaksAt(report, 1);
    assert Remove(report, 0) == [2, 3, 4, 5];
    SafeWhole(Remove(report, 0));
  }

  /** [1, 2, 2, 4, 7] stalls at its second pair; without its second level it is safe. */
  lemma DampenSecond(report: seq<nat>)
    requires report == [1, 2, 2, 4, 7]
    ensures Dampened(report)
  {
    BreaksAt(report, 1);
    assert Remove(report, 1) == [1, 2, 4, 7];
    SafeWhole(Remove(report, 1));
  }
}
