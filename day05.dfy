/**
 * Day 5 (src/day05.rs): page-ordering rules `x|y` ("x must come before
 * y") and updates (lists of page numbers). Part 1 sums the middle page of
 * the updates already in order; part 2 reorders the others and sums their
 * middle pages.
 */
module Day05 {
  import opened Wrappers
  import opened Text
  import opened Digits

  /** For every page y, the pages that must come before it (`rules[y]`). */
  type Rules = map<nat, set<nat>>

  /** `rules.get(b).map_or_else(|| false, |set| set.contains(a))`: a rule puts a before b. */
  predicate Precedes(rules: Rules, a: nat, b: nat)
  {
    b in rules && a in rules[b]
  }

  /** The two halves of the input around its first blank line. */
  function Sections(input: string): Option<(string, string)>
  {
    SplitOnce(input, "\n\n")
  }

  /** A rule line `x|y` with a number on each side of its first `|`. */
  predicate IsRuleLine(line: string)
  {
    match SplitOnce(line, "|")
    case None => false
    case Some((x, y)) => IsShortNumeral(x) && IsShortNumeral(y)
  }

  /** The pair (x, y) of a rule line `x|y`. */
  function RulePair(line: string): (nat, nat)
    requires IsRuleLine(line)
  {
    var (x, y) := SplitOnce(line, "|").value;
    (ParseNumber(x), ParseNumber(y))
  }

  /** A rule line is `x|y` for two numerals with no `|` in x, and its pair is their values. */
  lemma RulePairSplits(line: string)
    requires IsRuleLine(line)
    ensures exists x, y :: (IsShortNumeral(x) && IsShortNumeral(y) && '|' !in x &&
                            line == x + "|" + y && RulePair(line) == (ParseNumber(x), ParseNumber(y)))
  {
    var (x, y) := SplitOnce(line, "|").value;
    forall j | 0 <= j < |x|
      ensures x[j] != '|'
    {
      assert !OccursAt(line, "|", j);
      assert line[j..j + 1] == [x[j]];
    }
  }

  /** The pairs of a sequence of rule lines, in order. */
  function RulePairs(lines: seq<string>): (pairs: seq<(nat, nat)>)
    requires forall i :: 0 <= i < |lines| ==> IsRuleLine(lines[i])
    ensures |pairs| == |lines|
    ensures forall i :: 0 <= i < |lines| ==> pairs[i] == RulePair(lines[i])
  {
    seq(|lines|, i requires 0 <= i < |lines| => RulePair(lines[i]))
  }

  /** An update line: comma-separated numbers. */
  predicate IsUpdateLine(line: string)
  {
    var fields := SplitOn(line, {','});
    forall k :: 0 <= k < |fields| ==> IsShortNumeral(fields[k])
  }

  /** `l.split(',').map(parse_number).collect()`. */
  function Update(line: string): (page: seq<nat>)
    requires IsUpdateLine(line)
    ensures |page| == |SplitOn(line, {','})| && |page| >= 1
    ensures forall k :: 0 <= k < |page| ==> page[k] == DecimalValue(SplitOn(line, {','})[k])
  {
    var fields := SplitOn(line, {','});
    seq(|fields|, k requires 0 <= k < |fields| => ParseNumber(fields[k]))
  }

  /** What `parse` accepts without panicking: a blank line (`split_once(..).unwrap()`),
      rule lines each with a `|` between two numbers, update lines of numbers. */
  predicate WellFormed(input: string)
  {
    match Sections(input)
    case None => false
    case Some((s1, s2)) =>
      && (forall i :: 0 <= i < |Lines(s1)| ==> IsRuleLine(Lines(s1)[i]))
      && (forall i :: 0 <= i < |Lines(s2)| ==> IsUpdateLine(Lines(s2)[i]))
  }

  function RuleLines(input: string): seq<string>
    requires WellFormed(input)
  {
    Lines(Sections(input).value.0)
  }

  function UpdateLines(input: string): seq<string>
    requires WellFormed(input)
  {
    Lines(Sections(input).value.1)
  }

  /** The updates of the second section, one per line. */
  function Pages(input: string): (pages: seq<seq<nat>>)
    requires WellFormed(input)
    ensures |pages| == |UpdateLines(input)|
    ensures forall k :: 0 <= k < |pages| ==> pages[k] == Update(UpdateLines(input)[k]) && |pages[k]| >= 1
  {
    var lines := UpdateLines(input);
    seq(|lines|, k requires 0 <= k < |lines| => Update(lines[k]))
  }

  /** `parse`: `rules[y]` collects every x of a rule `x|y`, and nothing else;
      the updates are the lines of the second section. */
  method Parse(input: string) returns (rules: Rules, pages: seq<seq<nat>>)
    requires WellFormed(input)
    ensures forall a: nat, b: nat :: Precedes(rules, a, b) <==> (a, b) in RulePairs(RuleLines(input))
    ensures forall b :: b in rules ==> rules[b] != {}
    ensures pages == Pages(input)
  {
    rules := CollectRules(RuleLines(input));
    pages := Pages(input);
  }

  /** The loop of `parse` over the rule lines, inserting x into `rules[y]` for each `x|y`. */
  method CollectRules(lines: seq<string>) returns (rules: Rules)
    requires forall i :: 0 <= i < |lines| ==> IsRuleLine(lines[i])
    ensures forall a: nat, b: nat :: Precedes(rules, a, b) <==> (a, b) in RulePairs(lines)
    ensures forall b :: b in rules ==> rules[b] != {}
  {
    var pairs := RulePairs(lines);
    rules := map[];
    var i := 0;
    while i < |lines|
      invariant 0 <= i <= |lines|
      invariant forall a: nat, b: nat :: Precedes(rules, a, b) <==> (a, b) in pairs[..i]
      invariant forall b :: b in rules ==> rules[b] != {}
    {
      var (x, y) := RulePair(lines[i]);
      AddRuleAdds(rules, x, y);
      rules := AddRule(rules, x, y);
      assert pairs[..i + 1] == pairs[..i] + [(x, y)];
      i := i + 1;
    }
    assert pairs[..i] == pairs;
  }

  /** `rules.entry(y).or_default().insert(x)`. */
  function AddRule(rules: Rules, x: nat, y: nat): Rules
  {
    rules[y := (if y in rules then rules[y] else {}) + {x}]
  }

  /** Adding a rule adds exactly that one ordered pair. */
  lemma AddRuleAdds(rules: Rules, x: nat, y: nat)
    ensures forall a: nat, b: nat :: Precedes(AddRule(rules, x, y), a, b) <==> Precedes(rules, a, b) || (a, b) == (x, y)
    ensures y in AddRule(rules, x, y) && AddRule(rules, x, y).Keys == rules.Keys + {y}
    ensures forall b :: b in rules && b != y ==> AddRule(rules, x, y)[b] == rules[b]
  {
  }

  /** `page.is_sorted_by(...)`: the pairwise scan from the front, which stops at
      the first adjacent pair no rule orders. */
  function InOrder(rules: Rules, page: seq<nat>): (ok: bool)
    ensures ok <==> forall i :: 0 <= i < |page| - 1 ==> Precedes(rules, page[i], page[i + 1])
  {
    |page| < 2 || (Precedes(rules, page[0], page[1]) && InOrder(rules, page[1..]))
  }

  /** `page[page.len() / 2]`. */
  function Middle(page: seq<nat>): (m: nat)
    requires |page| > 0
    ensures m in page
  {
    page[|page| / 2]
  }

  /** Every update has a middle page. */
  predicate NonEmptyPages(pages: seq<seq<nat>>)
  {
    forall k :: 0 <= k < |pages| ==> |pages[k]| > 0
  }

  /** `part1_impl`: the sum of the middle pages of the updates in order. It is
      at most the sum over all updates, and equal to it when every update is in
      order. */
  function Part1(rules: Rules, pages: seq<seq<nat>>): (sum: nat)
    requires NonEmptyPages(pages)
    ensures sum <= MiddleTotal(pages)
    ensures (forall k :: 0 <= k < |pages| ==> InOrder(rules, pages[k])) ==> sum == MiddleTotal(pages)
    ensures (forall k :: 0 <= k < |pages| ==> !InOrder(rules, pages[k])) ==> sum == 0
  {
    if pages == [] then 0
    else
      var last := pages[|pages| - 1];
      Part1(rules, pages[..|pages| - 1]) + if InOrder(rules, last) then Middle(last) else 0
  }

  /** `reorder` rearranges every update that is out of order, keeping its
      pages: what part 2's `sort_by` is known to do to them. */
  ghost predicate Reorders(rules: Rules, pages: seq<seq<nat>>, reorder: seq<nat> -> seq<nat>)
  {
    forall k :: 0 <= k < |pages| && !InOrder(rules, pages[k]) ==> multiset(reorder(pages[k])) == multiset(pages[k])
  }

  /** Part 2's answer when each update out of order is rearranged by `reorder`. */
  function Part2Sum(rules: Rules, pages: seq<seq<nat>>, reorder: seq<nat> -> seq<nat>): nat
    requires NonEmptyPages(pages) && Reorders(rules, pages, reorder)
  {
    if pages == [] then 0
    else
      var last := pages[|pages| - 1];
      assert Reorders(rules, pages[..|pages| - 1], reorder) by {
        assert forall k :: 0 <= k < |pages| - 1 ==> pages[..|pages| - 1][k] == pages[k];
      }
      var init := Part2Sum(rules, pages[..|pages| - 1], reorder);
      if InOrder(rules, last) then init
      else
        SameLength(reorder(last), last);
        init + Middle(reorder(last))
  }

  /** `part2_impl`: sorts a clone of each update that is out of order and sums
      the middles; the updates passed in are left as they were. */
  method Part2(rules: Rules, pages: seq<seq<nat>>, reorder: seq<nat> -> seq<nat>) returns (sum: nat)
    requires NonEmptyPages(pages) && Reorders(rules, pages, reorder)
    ensures sum == Part2Sum(rules, pages, reorder)
  {
    var copies := pages;
    sum := 0;
    var k := 0;
    while k < |copies|
      invariant 0 <= k <= |copies|
      invariant |copies| == |pages|
      invariant forall j :: k <= j < |copies| ==> copies[j] == pages[j]
      invariant Reorders(rules, pages[..k], reorder)
      invariant sum == Part2Sum(rules, pages[..k], reorder)
    {
      Part2SumStep(rules, pages, k, reorder);
      if !InOrder(rules, copies[k]) {
        var sorted := reorder(copies[k]);
        SameLength(sorted, copies[k]);
        copies := copies[k := sorted];
        sum := sum + Middle(copies[k]);
      }
      k := k + 1;
    }
    assert pages[..k] == pages;
  }

  /** Part 2's sum over one more update adds that update's share. */
  lemma Part2SumStep(rules: Rules, pages: seq<seq<nat>>, k: nat, reorder: seq<nat> -> seq<nat>)
    requires NonEmptyPages(pages) && Reorders(rules, pages, reorder) && k < |pages|
    ensures NonEmptyPages(pages[..k + 1]) && Reorders(rules, pages[..k + 1], reorder)
    ensures Reorders(rules, pages[..k], reorder)
    ensures !InOrder(rules, pages[k]) ==> |reorder(pages[k])| == |pages[k]|
    ensures Part2Sum(rules, pages[..k + 1], reorder)
      == Part2Sum(rules, pages[..k], reorder) + if InOrder(rules, pages[k]) then 0 else Middle(reorder(pages[k]))
  {
    var p := pages[..k + 1];
    assert p[..k] == pages[..k];
    assert forall j :: 0 <= j < k + 1 ==> p[j] == pages[j];
    if !InOrder(rules, pages[k]) {
      SameLength(reorder(pages[k]), pages[k]);
    }
  }

  /** The sum of the middle pages of all the updates. */
  function MiddleTotal(pages: seq<seq<nat>>): nat
    requires NonEmptyPages(pages)
  {
    if pages == [] then 0 else MiddleTotal(pages[..|pages| - 1]) + Middle(pages[|pages| - 1])
  }

  /** Part 1 and part 2 split the updates between them: with no reordering
      at all, their answers add up to the middles of all the updates. */
  lemma {:induction false} Partition(rules: Rules, pages: seq<seq<nat>>)
    requires NonEmptyPages(pages)
    ensures Reorders(rules, pages, p => p)
    ensures Part1(rules, pages) + Part2Sum(rules, pages, p => p) == MiddleTotal(pages)
  {
    if pages != [] {
      Partition(rules, pages[..|pages| - 1]);
    }
  }

  /** Reordering an update keeps its pages, so part 2 adds the number of a
      page that really is in the update. */
  lemma MiddleOfReordered(page: seq<nat>, sorted: seq<nat>)
    requires |page| > 0 && multiset(sorted) == multiset(page)
    ensures |sorted| == |page|
    ensures Middle(sorted) in page
  {
    assert |sorted| == |multiset(sorted)|;
    var m := Middle(sorted);
    assert m in multiset(sorted);
  }

  lemma SameLength(a: seq<nat>, b: seq<nat>)
    requires multiset(a) == multiset(b)
    ensures |a| == |b|
  {
    assert |multiset(a)| == |a| && |multiset(b)| == |b|;
  }

  /** The rules and updates of the tests of src/day05.rs, as `parse` builds them. */
  const ExampleRules: Rules := map[53 := {47, 75, 61, 97}, 13 := {97, 61, 29, 47, 75, 53}, 61 := {97, 47, 75},
                                   47 := {97, 75}, 29 := {75, 97, 53, 61, 47}, 75 := {97}]
  const ExamplePages: seq<seq<nat>> := [[75, 47, 61, 53, 29], [97, 61, 53, 29, 13], [75, 29, 13],
                                        [75, 97, 47, 61, 53], [61, 13, 29], [97, 13, 75, 29, 47]]
  /** The example of the test `part1_example`: updates 0-2 are in order, with middles 61 + 53 + 29. */
  lemma Part1Example(rules: Rules, pages: seq<seq<nat>>)
    requires rules == ExampleRules && pages == ExamplePages
    ensures NonEmptyPages(pages) && Part1(rules, pages) == 143
  {
    ExampleOrder(rules, pages);
    Part1OfSix(rules, pages);
    assert Middle(pages[0]) == 61 && Middle(pages[1]) == 53 && Middle(pages[2]) == 29;
  }

  /** Part 1's sum over one more update adds its middle when it is in order. */
  lemma Part1Step(rules: Rules, pages: seq<seq<nat>>, k: nat)
    requires NonEmptyPages(pages) && k < |pages|
    ensures NonEmptyPages(pages[..k]) && NonEmptyPages(pages[..k + 1])
    ensures Part1(rules, pages[..k + 1]) == Part1(rules, pages[..k]) + if InOrder(rules, pages[k]) then Middle(pages[k]) else 0
  {
    var p := pages[..k + 1];
    assert p[..k] == pages[..k] && p[k] == pages[k];
  }

  /** Six updates of which only the first three are in order. */
  lemma Part1OfSix(rules: Rules, pages: seq<seq<nat>>)
    requires |pages| == 6 && NonEmptyPages(pages)
    requires InOrder(rules, pages[0]) && InOrder(rules, pages[1]) && InOrder(rules, pages[2])
    requires !InOrder(rules, pages[3]) && !InOrder(rules, pages[4]) && !InOrder(rules, pages[5])
    ensures Part1(rules, pages) == Middle(pages[0]) + Middle(pages[1]) + Middle(pages[2])
  {
    Part1Step(rules, pages, 0);
    Part1Step(rules, pages, 1);
    Part1Step(rules, pages, 2);
    Part1Step(rules, pages, 3);
    Part1Step(rules, pages, 4);
    Part1Step(rules, pages, 5);
    assert pages[..0] == [] && pages[..6] == pages;
  }

  /** The comparator of part 2's `sort_by` answers `Less` for (a, b) exactly
      when no rule puts a before b, and `Equal` otherwise. */
  predicate RankedBelow(rules: Rules, a: nat, b: nat)
  {
    !Precedes(rules, a, b)
  }

  /** What a sort with that comparator promises of its result: no page is
      ranked below the page before it, so each page has a rule putting it
      before its predecessor. Where the rules relate every pair, the result
      therefore runs against the rules. */
  predicate SortedByComparator(rules: Rules, page: seq<nat>)
  {
    forall i :: 0 <= i < |page| - 1 ==> !RankedBelow(rules, page[i + 1], page[i])
  }

  /** What the sort makes of the three example updates out of order: each
      result keeps the pages of its update and is sorted by the comparator,
      so it is the puzzle's order reversed, with the same middle page. */
  lemma ExampleSortResults(rules: Rules, pages: seq<seq<nat>>)
    requires rules == ExampleRules && pages == ExamplePages
    ensures SortedByComparator(rules, [53, 61, 47, 75, 97]) && multiset(pages[3]) == multiset([53, 61, 47, 75, 97])
    ensures SortedByComparator(rules, [13, 29, 61]) && multiset(pages[4]) == multiset([13, 29, 61])
    ensures SortedByComparator(rules, [13, 29, 47, 75, 97]) && multiset(pages[5]) == multiset([13, 29, 47, 75, 97])
  {
    ChainSorted(rules, [53, 61, 47, 75, 97]);
    ChainSorted(rules, [13, 29, 61]);
    ChainSorted(rules, [13, 29, 47, 75, 97]);
    ExampleRepairKeepsPages3(pages[3], [53, 61, 47, 75, 97]);
    ExampleRepairKeepsPages4(pages[4], [13, 29, 61]);
    ExampleRepairKeepsPages5(pages[5], [13, 29, 47, 75, 97]);
  }

  /** Each of the three sorted example updates has every page ruled before its predecessor. */
  lemma ChainSorted(rules: Rules, page: seq<nat>)
    requires rules == ExampleRules
    requires page == [53, 61, 47, 75, 97] || page == [13, 29, 61] || page == [13, 29, 47, 75, 97]
    ensures SortedByComparator(rules, page)
  {
    if page == [13, 29, 61] {
      assert Precedes(rules, 29, 13) && Precedes(rules, 61, 29);
    } else if page == [53, 61, 47, 75, 97] {
      assert Precedes(rules, 61, 53) && Precedes(rules, 47, 61) && Precedes(rules, 75, 47) && Precedes(rules, 97, 75);
    } else {
      assert Precedes(rules, 29, 13) && Precedes(rules, 47, 29) && Precedes(rules, 75, 47) && Precedes(rules, 97, 75);
    }
  }

  /** Each sorted update keeps the pages of the update it sorts. */
  lemma ExampleRepairKeepsPages3(a: seq<nat>, a': seq<nat>)
    requires a == [75, 97, 47, 61, 53] && a' == [53, 61, 47, 75, 97]
    ensures multiset(a) == multiset(a')
  {
    assert a == [75] + [97] + [47] + [61] + [53] && a' == [53] + [61] + [47] + [75] + [97];
  }

  lemma ExampleRepairKeepsPages4(b: seq<nat>, b': seq<nat>)
    requires b == [61, 13, 29] && b' == [13, 29, 61]
    ensures multiset(b) == multiset(b')
  {
    assert b == [61] + [13] + [29] && b' == [13] + [29] + [61];
  }

  lemma ExampleRepairKeepsPages5(c: seq<nat>, c': seq<nat>)
    requires c == [97, 13, 75, 29, 47] && c' == [13, 29, 47, 75, 97]
    ensures multiset(c) == multiset(c')
  {
    assert c == [97] + [13] + [75] + [29] + [47] && c' == [13] + [29] + [47] + [75] + [97];
  }

  /** Which example updates are in order: the first three, and only those. */
  lemma ExampleOrder(rules: Rules, pages: seq<seq<nat>>)
    requires rules == ExampleRules && pages == ExamplePages
    ensures |pages| == 6 && NonEmptyPages(pages)
    ensures InOrder(rules, pages[0]) && InOrder(rules, pages[1]) && InOrder(rules, pages[2])
    ensures !InOrder(rules, pages[3]) && !InOrder(rules, pages[4]) && !InOrder(rules, pages[5])
  {
    assert !Precedes(rules, pages[3][0], pages[3][1]);
    assert !Precedes(rules, pages[4][1], pages[4][2]);
    assert !Precedes(rules, pages[5][1], pages[5][2]);
  }

  /** The example of the test `part2_example`, with the three updates out of
      order sorted as `ExampleSortResults` describes: 47 + 29 + 47. */
  lemma Part2Example(rules: Rules, pages: seq<seq<nat>>, reorder: seq<nat> -> seq<nat>)
    requires rules == ExampleRules && pages == ExamplePages
    requires reorder(pages[3]) == [53, 61, 47, 75, 97]
    requires reorder(pages[4]) == [13, 29, 61]
    requires reorder(pages[5]) == [13, 29, 47, 75, 97]
    ensures NonEmptyPages(pages) && Reorders(rules, pages, reorder)
    ensures Part2Sum(rules, pages, reorder) == 123
  {
    ExampleOrder(rules, pages);
    ExampleSortResults(rules, pages);
    ReordersLastThree(rules, pages, reorder);
    Part2ExampleSum(rules, pages, reorder);
  }

  /** Six updates of which only the last three are out of order, and those three rearranged. */
  lemma ReordersLastThree(rules: Rules, pages: seq<seq<nat>>, reorder: seq<nat> -> seq<nat>)
    requires |pages| == 6
    requires InOrder(rules, pages[0]) && InOrder(rules, pages[1]) && InOrder(rules, pages[2])
    requires multiset(pages[3]) == multiset(reorder(pages[3]))
    requires multiset(pages[4]) == multiset(reorder(pages[4]))
    requires multiset(pages[5]) == multiset(reorder(pages[5]))
    ensures Reorders(rules, pages, reorder)
  {
    forall k | 0 <= k < |pages| && !InOrder(rules, pages[k])
      ensures multiset(reorder(pages[k])) == multiset(pages[k])
    {
      assert k == 3 || k == 4 || k == 5;
    }
  }

  lemma Part2ExampleSum(rules: Rules, pages: seq<seq<nat>>, reorder: seq<nat> -> seq<nat>)
    requires |pages| == 6 && NonEmptyPages(pages) && Reorders(rules, pages, reorder)
    requires InOrder(rules, pages[0]) && InOrder(rules, pages[1]) && InOrder(rules, pages[2])
    requires !InOrder(rules, pages[3]) && !InOrder(rules, pages[4]) && !InOrder(rules, pages[5])
    requires reorder(pages[3]) == [53, 61, 47, 75, 97]
    requires reorder(pages[4]) == [13, 29, 61]
    requires reorder(pages[5]) == [13, 29, 47, 75, 97]
    ensures Part2Sum(rules, pages, reorder) == 123
  {
    Part2OfSix(rules, pages, reorder);
    assert Middle(reorder(pages[3])) == 47 && Middle(reorder(pages[4])) == 29 && Middle(reorder(pages[5])) == 47;
  }

  /** Six updates of which only the last three are out of order. */
  lemma Part2OfSix(rules: Rules, pages: seq<seq<nat>>, reorder: seq<nat> -> seq<nat>)
    requires |pages| == 6 && NonEmptyPages(pages) && Reorders(rules, pages, reorder)
    requires InOrder(rules, pages[0]) && InOrder(rules, pages[1]) && InOrder(rules, pages[2])
    requires !InOrder(rules, pages[3]) && !InOrder(rules, pages[4]) && !InOrder(rules, pages[5])
    ensures |reorder(pages[3])| > 0 && |reorder(pages[4])| > 0 && |reorder(pages[5])| > 0
    ensures Part2Sum(rules, pages, reorder)
      == Middle(reorder(pages[3])) + Middle(reorder(pages[4])) + Middle(reorder(pages[5]))
  {
    Part2SumStep(rules, pages, 0, reorder);
    Part2SumStep(rules, pages, 1, reorder);
    Part2SumStep(rules, pages, 2, reorder);
    Part2SumStep(rules, pages, 3, reorder);
    Part2SumStep(rules, pages, 4, reorder);
    Part2SumStep(rules, pages, 5, reorder);
    assert pages[..0] == [] && pages[..6] == pages;
  }
}
