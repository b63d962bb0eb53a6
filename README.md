# Advent of Code 2024, days 1–6, in Dafny

This project models the puzzle solutions of the `aoc2024` crate (days 1 to 6) and
the shared number parser in `src/lib.rs`. Each day has a parser, which turns the
puzzle text into a value, and two solvers over that value:

- **Day 1** (`day01.dfy`) sorts two columns of location ids. Part 1 sums the
  distances between paired ids. Part 2 computes the similarity score: each left id
  times the number of times it appears on the right. The score is computed by one
  merge-like pass over the two sorted lists.
- **Day 2** (`day02.dfy`) checks reports of levels. A report is safe when it is
  strictly monotone with steps of 1 to 3. Part 2 forgives one bad level (the
  "Problem Dampener") by retrying only the removals next to the first bad pair.
- **Day 3** (`day03.dfy`) scans corrupted memory for `mul(x,y)` instructions and
  sums their products. Part 2 also honours `do()` and `don't()`.
- **Day 4** (`day04.dfy`) counts `XMAS` in all eight directions of a letter grid
  (part 1) and the `MAS` crosses (part 2).
- **Day 5** (`day05.dfy`) collects page-ordering rules into a map from a page to the
  pages that must come before it. It sums the middle page of every update already
  in order (part 1) and of every other update once reordered (part 2).
- **Day 6** (`day06.dfy`) walks a guard over a grid: it turns right at `#` and stops
  when it leaves the grid or repeats a (cell, direction) state. Part 1 counts the
  visited cells. Part 2 counts the cells of that path that, once made `#`, trap
  the guard in a loop.

`digits.dfy` holds `parse_number` from `src/lib.rs` and the `abs_diff` of days 1
and 2. `text.dfy` models the pieces of the Rust standard library the parsers use
(`split`, `lines`, `split_ascii_whitespace`, `split_once`) and the grid shape
condition `WideRows` of days 4 and 6, and `wrappers.dfy` holds `Option`.

The Rust code is modelled on unbounded naturals. Each place where a fixed-width
integer matters is written out or listed below. A Rust panic (`unwrap` on
`None`, an index out of range) becomes a `requires` that rules out exactly the
inputs that would panic. Where the source updates state step by step, the model
is a method with loop invariants. The `seen` table of `patrol` is an
`array3<bool>`. Reports, updates and grids are values, so the clones that
day 2 and day 5 make before changing an update, and the fact that the caller's
data is left unchanged, are immediate in the model. Each method is proved against a specification function
(`Walk`, `Similarity`, `Part2Sum`, `GridScore`, …), and the puzzle's own
properties are proved as lemmas about those functions.

## Model

| member | source | states |
|---|---|---|
| Digits.PowersOf10AreTenToTheK | src/lib.rs:7 | The table of powers of ten has five entries, and entry k is 10^k. |
| Digits.ParseNumber | src/lib.rs:9-16 | For a numeral of one to five digits, `parse_number` (also copied at `src/day01.rs:26-33`) yields its decimal value, which is below 10^length. |
| Digits.DigitTermsFrom | src/lib.rs:12-15 | The sum of the terms digit × 10^position over a suffix equals the decimal value of that suffix. |
| Digits.LeadingDigit | src/lib.rs:12-15 | A numeral's value is its first digit times 10^(length-1) plus the value of the rest, and it is below 10^length. |
| Digits.LeadingZeroIgnored | src/lib.rs:12-15 | A leading `0` does not change the parsed value. |
| Digits.HandParsing | src/day01.rs:121-123 | `parse_number("91527")` is 91527. |
| Text.SplitOn | src/day02.rs:7 | `split` yields at least one piece, and no piece contains a separator. |
| Text.JoinSplit | src/day04.rs:5 | Joining the pieces of a split with the separator gives back the input. |
| Text.SplitJoin | src/day04.rs:5 | Splitting a join of separator-free pieces gives back the pieces. |
| Text.SplitCount | src/day02.rs:7 | A split yields one more piece than there are separators. |
| Text.Lines | src/day01.rs:8 | No line contains `\n`. Line i is piece i of the split at `\n`, with a final `\r` removed when a `\n` followed it and only then; the empty piece after a final `\n` is dropped. |
| Text.OneLine | src/day01.rs:8 | A text without `\n` is a single line, kept whole even when it ends in `\r`. |
| Text.CrLfLine | src/day01.rs:8 | A line ended by `\r\n` loses both characters. |
| Text.Words | src/day01.rs:12 | Every word is non-empty and contains no ASCII whitespace. |
| Text.SplitOnce | src/day05.rs:9 | `split_once` splits at the first occurrence of the pattern: the input is before + pattern + after, and the pattern occurs nowhere earlier. `None` means it occurs nowhere. |
| Day01.Parse | src/day01.rs:4-21 | Yields two sorted columns with one entry per line, each a permutation of the numbers in that column of the input. |
| Day01.Insert | src/day01.rs:17-18 | Inserting into a sorted list keeps it sorted and adds exactly the one element. |
| Day01.SortAscending | src/day01.rs:17-18 | `sort_unstable` yields a sorted permutation of its input. |
| Day01.SortedPermutationUnique | src/day01.rs:17-18 | Two sorted permutations of the same multiset are equal, so sorting is fully determined. |
| Day01.TotalDistance | src/day01.rs:36-39 | The total distance is 0 exactly when the zipped prefixes of the two lists are equal. |
| Day01.TotalDistanceSymmetric | src/day01.rs:36-39 | The total distance does not depend on which list is on the left. |
| Day01.Part1Example | src/day01.rs:91-103 | The example lists have total distance 11. |
| Day01.SimilarityAppend | src/day01.rs:42-74 | The similarity of a concatenation is the sum of the similarities of its parts. |
| Day01.SimilarityOfRun | src/day01.rs:63-67 | A run of n copies of x contributes x × n × (copies of x on the right). |
| Day01.SimilarityOfAbsent | src/day01.rs:60-62 | Left ids that do not occur on the right contribute nothing. |
| Day01.SimilarityConsRight | src/day01.rs:42-74 | Adding a to the right list raises the score by a × (copies of a on the left). |
| Day01.SimilaritySymmetric | src/day01.rs:42-74 | The similarity score is symmetric in its two lists. |
| Day01.RunEnd | src/day01.rs:47-48 | `chunk_by` ends a run at the first element that differs from its head, and no earlier. |
| Day01.ScoreRun | src/day01.rs:63-67 | Taking a whole run of equal left ids adds id × run length × (count on the right). |
| Day01.CountBelowRun | src/day01.rs:60-62 | When the left id falls between right runs, it has no copies on the right. |
| Day01.CountOfMatchingRun | src/day01.rs:63-67 | On a sorted right list, the count of a value is the length of its run. |
| Day01.BehindAdvances | src/day01.rs:59-71 | Each of the three comparison branches keeps the invariant that every id already passed on one side is smaller than the current id on the other. |
| Day01.SimilarityScore | src/day01.rs:42-74 | On sorted lists, the merge over runs computes the similarity score. Every turn advances at least one list, which is the loop's termination measure. |
| Day01.Part2Example | src/day01.rs:106-118 | The example lists have similarity score 31. |
| Day02.ParseU16 | src/day02.rs:25-34 | A one- or two-digit level parses to its decimal value, which is below 100. |
| Day02.ParseLevels | src/day02.rs:10-15 | Each token parses to the level at the same position. |
| Day02.InputLines | src/day02.rs:7 | Splitting at `\n` yields one more line than there are newlines. |
| Day02.Parse | src/day02.rs:4-23 | Yields one report per line, each the parsed levels of that line. |
| Day02.ParseLine | src/day02.rs:8-17 | The levels of a line are the decimal values of its non-empty space-separated tokens, in order. |
| Day02.BlankLineHasNoTokens | src/day02.rs:12-13 | A line of spaces has no tokens, so it gives an empty report. |
| Day02.SafeExtend | src/day02.rs:53-71 | A safe prefix stays safe with one more level exactly when the new gap is 1 to 3 and goes the same way as the first gap. |
| Day02.ShortReportSafe | src/day02.rs:50-73 | A report of fewer than two levels is safe and has no bad pair. |
| Day02.FirstUnsafeSpec | src/day02.rs:47-74 | No bad pair exists exactly when the report is safe; otherwise the pair found ends the longest safe prefix. |
| Day02.FirstUnsafeIs | src/day02.rs:47-74 | The index ending the longest safe prefix is the one `is_safe` reports. |
| Day02.BreakIsUnique | src/day02.rs:47-74 | There is only one index where the safe prefix ends. |
| Day02.IsSafe | src/day02.rs:47-74 | The loop returns `None` exactly for safe reports; otherwise it returns the index where the safe prefix first fails. |
| Day02.SafeCount | src/day02.rs:37-45 | Part 1 counts at most every report, and counts every report exactly when all are safe. |
| Day02.Remove | src/day02.rs:85 | `remove(k)` drops the k-th level and keeps the others in order. |
| Day02.Dampened | src/day02.rs:80-112 | A safe report is accepted, and so is every report of at most two levels (removing one of two levels leaves a safe report). |
| Day02.DampenedSound | src/day02.rs:77-115 | Every report part 2 accepts is safe or becomes safe after removing one level. |
| Day02.DampenedComplete | src/day02.rs:77-115 | Every report that becomes safe after removing some level is accepted, even though only the removals next to the first bad pair are tried. |
| Day02.OnlyNeighbours | src/day02.rs:83-105 | A removal that repairs a report lies within one of the first bad pair. |
| Day02.DampenedCount | src/day02.rs:77-115 | Part 2 counts at least the reports part 1 counts and at most all of them. |
| Day02.ExampleFirstUnsafe | src/day02.rs:129-142 | Gives where the first bad pair of each example report lies. |
| Day02.Part1Example | src/day02.rs:129-142 | Two example reports are safe. |
| Day02.Part2Example | src/day02.rs:144-157 | Four example reports are safe with the dampener. |
| Day02.ExampleVerdicts | src/day02.rs:144-157 | Gives the dampened verdict of each example report. |
| Day02.Part2BoundaryConditions | src/day02.rs:159-181 | Each of the four edge reports in the test (bad last, first or second level, or a repeated level) is accepted by part 2. |
| Day03.ParseU16 | src/day03.rs:30-45 | A one- to three-digit operand parses to its decimal value, which is below 1000. |
| Day03.ParseAll | src/day03.rs:22 | Operands parse in order, one value each. |
| Day03.EvalMul | src/day03.rs:18-28 | A `mul(x,y)` evaluates to x × y (the corrected evaluation; see Findings). |
| Day03.EvalMulAsWritten | src/day03.rs:23-24 | The product as the code computes it is x × y modulo 2^16. |
| Day03.AsWrittenAgreesBelowLimit | src/day03.rs:23-24 | The written product is right exactly when x × y is below 65536. |
| Day03.MulOverflowExample | src/day03.rs:23-24 | `mul(300,300)` is 90000 but the written code gives 24464. |
| Day03.DigitRun | src/day03.rs:11 | `\d` matches the longest run of digits at a position. |
| Day03.MulMatchIsMulExpression | src/day03.rs:11 | What the `mul` pattern matches at the front of a string is a well-formed `mul(x,y)`. |
| Day03.MulExpressionIsMatched | src/day03.rs:11 | Every well-formed `mul(x,y)` at the front of a string is matched, with exactly its length. |
| Day03.MulNotToggle | src/day03.rs:53-54 | No instruction is both a `mul` and a `do()`/`don't()`. |
| Day03.ToggleMatch | src/day03.rs:49 | The toggle alternatives match only `do()` or `don't()`. |
| Day03.MatchAt | src/day03.rs:49 | A match at a position is non-empty and is a `mul`, or a toggle when toggles are enabled. |
| Day03.Scan | src/day03.rs:11-12 | `find_iter` yields only `mul` instructions, plus toggles when toggles are enabled. |
| Day03.MulsOfScan | src/day03.rs:49-50 | Dropping the toggles from part 2's scan gives exactly part 1's scan. |
| Day03.SumOfProducts | src/day03.rs:12-14 | A list with no `mul` sums to 0. |
| Day03.Part1 | src/day03.rs:10-15 | When every scanned `mul` has operands `parse_u16` can read, part 1 is the sum of the products of all `mul`s, which are also exactly the `mul`s of part 2's scan. |
| Day03.ScanTogglesParsable | src/day03.rs:49 | Part 2's scan holds no `mul` that part 1's scan lacks, so it needs no more operands to be readable. |
| Day03.Step | src/day03.rs:52-62 | A toggle leaves the sum alone and sets the switch to whether it is `do()`. A `mul` leaves the switch alone; while enabled it adds its product, while disabled it adds nothing and is not evaluated, so only an enabled `mul` needs readable operands. |
| Day03.Fold | src/day03.rs:52-63 | The fold never lowers the sum; it needs readable operands only for the `mul`s it reaches while enabled. |
| Day03.EnabledAtShift | src/day03.rs:52-62 | Seen from the second instruction, the switch starts as the first instruction left it. |
| Day03.EnabledSumShift | src/day03.rs:52-62 | The enabled products split into the first instruction's share and the enabled products of the rest. |
| Day03.FoldStep | src/day03.rs:52-62 | The fold takes one step: an enabled `mul` adds its product, and the switch passes on as the instruction leaves it. |
| Day03.FoldIsEnabledSum | src/day03.rs:52-63 | The fold adds exactly the products of the `mul`s reached while the last preceding `do()`/`don't()` (or the start) says enabled, and ends with that switch. |
| Day03.Part2 | src/day03.rs:48-64 | Part 2 is the sum of the products of exactly the `mul`s that are enabled where they occur. |
| Day03.EnabledSumAtMost | src/day03.rs:48-64 | When every `mul` is readable, the enabled products add up to no more than all products. |
| Day03.DisabledLongOperand | src/day03.rs:52-62 | After `don't()`, `mul(1234,5)` is skipped without being parsed: part 2 handles it and gives 0, although part 1 would panic on it. |
| Day03.SumOfMuls | src/day03.rs:12-14 | Dropping toggles does not change the sum of products. |
| Day03.Part2AtMostPart1 | src/day03.rs:48-64 | Part 2's answer never exceeds part 1's. |
| Day03.FoldWithoutToggles | src/day03.rs:52-62 | With no toggles, the fold adds every product. |
| Day03.NoTogglesSameAsPart1 | src/day03.rs:48-64 | Input without `do()`/`don't()` gives the same answer in both parts. |
| Day03.ScanExample1 | src/day03.rs:78-86 | The first example scans to `mul(2,4)`, `mul(5,5)`, `mul(11,8)`, `mul(8,5)`. |
| Day03.ScanExample2 | src/day03.rs:88-96 | The second example scans to those same four `mul`s, with `don't()` and `do()` between them. |
| Day03.Part1Example | src/day03.rs:78-86 | Part 1 of the first example is 161. |
| Day03.Part2Example | src/day03.rs:88-96 | Part 2 of the second example is 48. |
| Day04.Parse | src/day04.rs:4-6 | The rows are the `\n`-separated pieces: none holds a newline, there is one more row than there are newlines, and joined they give back the input. |
| Day04.Get | src/day04.rs:44-46 | (definition of `get`: the letter at (r, c) inside the grid, `_` outside it, including at negative coordinates.) What it means to its callers is stated by `Day04.MasFollowsIsWord` and `Day04.IsXMasIffEnds`. |
| Day04.CountDirections | src/day04.rs:61-70 | At most one word is counted per direction. |
| Day04.CountDirectionsExtremes | src/day04.rs:61-70 | The count is 0 exactly when `MAS` follows in no direction, and is full exactly when it follows in every direction. |
| Day04.CountXmas | src/day04.rs:49-71 | A cell starts at most eight words. |
| Day04.MasFollowsIsWord | src/day04.rs:49-71 | On a rectangular grid, an `X` followed by `MAS` in a direction is exactly the four letters `XMAS` read that way. |
| Day04.IsXMas | src/day04.rs:74-78 | A cross never reaches off the grid (all four corners lie inside it), and on each diagonal the two ends differ. |
| Day04.IsXMasIffEnds | src/day04.rs:74-78 | A cross is an `A` whose two diagonals each have one `M` end and one `S` end. |
| Day04.PairIsMS | src/day04.rs:77 | Two letters spell `MS` or `SM` exactly when they are one `M` and one `S`. |
| Day04.Part1 | src/day04.rs:9-23 | The nested loops sum the word count of every cell of the grid. |
| Day04.Part2 | src/day04.rs:26-42 | Grids of fewer than three rows score 0; otherwise the loops count the crosses centred on every inner cell. |
| Day04.RowScoreBound | src/day04.rs:9-23 | A per-cell bound between two scores carries over to a row. |
| Day04.GridScoreBound | src/day04.rs:9-23 | A per-cell bound between two scores carries over to the grid. |
| Day04.Part1Bound | src/day04.rs:9-23 | Part 1 is at most eight times the number of `X`s. |
| Day04.Part2Bound | src/day04.rs:26-42 | Part 2 is at most the number of inner `A`s. |
| Day04.OneCross | src/day04.rs:74-78 | The grid `M.S/.A./M.S` holds exactly one cross. |
| Day04.OneWordBothWays | src/day04.rs:49-71 | `XMASAMX` holds exactly two words, one read forwards and one read backwards. |
| Day05.RulePairSplits | src/day05.rs:14 | A rule line is `x|y` with x and y numerals, and it parses to (x, y). |
| Day05.RulePairs | src/day05.rs:13-19 | Each rule line gives the pair at the same position. |
| Day05.Update | src/day05.rs:23 | An update line gives one page per comma-separated numeral, in order, with at least one page. |
| Day05.Pages | src/day05.rs:21-24 | One update per line of the second section. |
| Day05.Parse | src/day05.rs:8-27 | a must precede b exactly when the rule `a|b` is in the first section; no page maps to an empty set; the updates are those of the second section. |
| Day05.CollectRules | src/day05.rs:11-19 | The map built by the loop records a rule for (a, b) exactly when `a|b` is among the lines, and holds no empty set. |
| Day05.AddRuleAdds | src/day05.rs:15-18 | `entry(y).or_default().insert(x)` adds exactly the rule (x, y) and touches no other key. |
| Day05.InOrder | src/day05.rs:36 | `is_sorted_by` with the rules comparator holds exactly when each page is ruled to precede the next one. |
| Day05.Part1 | src/day05.rs:30-40 | Part 1 never exceeds the sum of all middle pages; it equals that sum when every update is in order and is 0 when none is. |
| Day05.Middle | src/day05.rs:38 | The middle page is one of the update's pages. |
| Day05.Part2 | src/day05.rs:43-63 | The loop over copies of the updates computes the reordered middle sum. |
| Day05.Part2SumStep | src/day05.rs:48-62 | One more update adds its reordered middle page only when it is out of order. |
| Day05.Partition | src/day05.rs:33-39 | Every update counts in exactly one part: part 1 plus part 2 with no reordering gives the sum of all middles. |
| Day05.MiddleOfReordered | src/day05.rs:54-60 | A reordered update keeps its length, and its middle page is one of its pages. |
| Day05.ExampleOrder | src/day05.rs:36 | Under the example rules, the first three example updates are in order and the last three are not. |
| Day05.Part1Example | src/day05.rs:106-109 | Part 1 of the example is 143. |
| Day05.ExampleSortResults | src/day05.rs:54-59 | Under the example rules, [53, 61, 47, 75, 97], [13, 29, 61] and [13, 29, 47, 75, 97] are permutations of the three out-of-order updates in which no page is ranked below its predecessor by the `sort_by` comparator: each page is ruled to precede the page before it. |
| Day05.Part2Example | src/day05.rs:111-114 | With those sort results (the reverse of the puzzle's corrected orders, as the comparator ranks each page below every page that must precede it), the example gives part 2 = 123 (47 + 29 + 47). |
| Day06.Step | src/day06.rs:87-105 | One loop turn either leaves the grid, turns right on the spot, or moves onto a cell that is not `#`. |
| Day06.Walk | src/day06.rs:81-106 | The guard stays on the grid until it leaves. |
| Day06.ReachedAt | src/day06.rs:81-106 | Every state in the visited set was reached at some earlier turn. |
| Day06.SeenCells | src/day06.rs:94-97 | The list built from `seen` is in row-major order and holds exactly the cells with some direction marked. |
| Day06.Mark | src/day06.rs:86 | Marking a new state adds exactly that state to the visited set, whose size stays within rows × columns × 4. |
| Day06.VisitedCells | src/day06.rs:94-98 | The returned cells are exactly the cells of the visited states, in row-major order, and include the start. |
| Day06.SeenIsReached | src/day06.rs:94-96 | A cell has a mark in `seen` exactly when the walk visited it. |
| Day06.GridStates | src/day06.rs:78 | There are rows × columns × 4 states, and the enumeration lists each one. |
| Day06.DistinctBound | src/day06.rs:78 | A list has no more distinct elements than entries. |
| Day06.StatesBound | src/day06.rs:78 | No more than rows × columns × 4 distinct states exist. |
| Day06.WalkShift | src/day06.rs:81-106 | Walking a + b turns is walking a turns and then b more. |
| Day06.GoneStaysGone | src/day06.rs:90-99 | Once off the grid the guard stays off. |
| Day06.RepeatNeverExits | src/day06.rs:82-84 | A walk that repeats a state never leaves the grid. |
| Day06.ExitMeansNoLoop | src/day06.rs:90-99 | A walk that leaves the grid does not loop. |
| Day06.StartReached | src/day06.rs:78-86 | The start state is among the visited ones. |
| Day06.WalkAvoidsObstacles | src/day06.rs:101-105 | The guard never stands on a `#` other than the start cell. |
| Day06.Patrol | src/day06.rs:72-107 | `None` exactly when the walk loops. Otherwise the walk leaves after n turns, fewer than rows × columns × 4, and the result is empty or the visited cells in row-major order including the start. |
| Day06.LastCaret | src/day06.rs:24-33 | Finds the last `^` of a row, or `None` when it has none. |
| Day06.StartFrom | src/day06.rs:8-38 | The start is (0, 0) or a `^` cell at or below the row where the search begins. |
| Day06.ScanRow | src/day06.rs:22-34 | The inner loop copies the row unchanged and ends with the column of its last `^`, if any. |
| Day06.StartFromIs | src/day06.rs:8-39 | The start is (0, 0) when no row has a `^`; otherwise it is the last `^` of the first row holding one. |
| Day06.Parse | src/day06.rs:5-40 | Yields the rows of the input unchanged and the start as above. |
| Day06.RowMajorSize | src/day06.rs:94-97 | A list in strict row-major order has as many entries as distinct cells. |
| Day06.Part1 | src/day06.rs:43-47 | On a walk that does not loop, the answer is the number of distinct cells visited, which is at least 1. |
| Day06.Put | src/day06.rs:64 | Writing a cell changes that cell and nothing else. |
| Day06.Restored | src/day06.rs:66 | After the writes back, every tried cell holds `.` and the grid keeps its shape. |
| Day06.Blocked | src/day06.rs:64 | The grid tried for cell i has `#` at that cell and keeps its shape. |
| Day06.Part2 | src/day06.rs:50-70 | The answer counts the path cells whose blocking makes the walk loop, over the grid as the loop leaves it. When the start cell is not `#`, that equals the count over the untouched grid. |
| Day06.CountLoopingBlocks | src/day06.rs:62-69 | The filter counts the cells whose blocking leads to a loop. |
| Day06.TryBlock | src/day06.rs:63-68 | One filter step tests exactly the grid with that cell blocked, then leaves `.` behind. |
| Day06.PutTwice | src/day06.rs:64-66 | A second write to a cell overrides the first. |
| Day06.SameObstaclesSameWalk | src/day06.rs:66 | Grids with the same `#` cells give the same walk. |
| Day06.SameObstaclesSameLoops | src/day06.rs:66 | Grids with the same `#` cells loop alike. |
| Day06.RestoredKeepsObstacles | src/day06.rs:66 | Writing `.` over cells that were not `#` keeps the obstacles as they were. |
| Day06.LoopingCountIsPlain | src/day06.rs:62-69 | When no tried cell was `#`, the restores do not change any later verdict. |
| Day06.PathCountIsPlain | src/day06.rs:56-69 | On the path of part 1, with the start not `#`, the count equals the count over the untouched grid. |
| Day06.PathAvoidsObstacles | src/day06.rs:56 | Every cell of the path lies on the grid, and none is `#`. |

## Left out

- Reading the input, the `aoc_runner` attributes and the thin `part1`/`part2` entry points are not modelled. Each solver takes its parsed input as a parameter.
- Input text is a `string` of ASCII characters. Rust's `&str`/`&[u8]` byte handling and UTF-8 are not modelled.
- Integer widths (`u16`, `u32`, `usize`) are unbounded naturals everywhere except day 3's product (see Findings). The counters and sums of days 1 to 5 (day 3's `u32` sums included) are not checked for overflow.
- Text.Lines: `str::lines` is modelled as a split at `\n` that drops one trailing empty piece and removes the `\r` of each `\r\n`; a `\r` not followed by `\n` is kept. No other line ending is recognised, as in Rust.
- Day01.SortAscending: `sort_unstable` is specified by its result (a sorted permutation, which `Day01.SortedPermutationUnique` shows is unique) and computed by insertion, not by the standard library's algorithm.
- Day01.Parse: every line must start with two numerals of one to five digits; further words are ignored, as in the source. `parse_number` does not check its bytes: on a line with fewer than two words the `unwrap` panics, a word of six or more characters indexes past the table, a byte below `'0'` underflows in `c - 48`, and any other non-digit byte is silently given the value `c - 48` (so `1a` parses as 1·10 + 49 = 59). The model demands ASCII digits and does not describe those garbage values.
- Day02.ParseU16: levels must be one or two ASCII digits. `parse_u16` at `src/day02.rs:25-34` panics on any other length and, unchecked, computes garbage from non-digit bytes.
- Day03.Scan: the regular expressions are replaced by a hand-written leftmost-first scanner for the same patterns. `Day03.MulMatchIsMulExpression` and `Day03.MulExpressionIsMatched` prove that it matches exactly the `mul(\d+,\d+)` texts. The `regex` crate itself is not modelled.
- Day03.EvalMul: `parse_u16` panics on operands longer than three digits, which `\d+` lets through. Part 1 therefore requires every scanned `mul` to have short operands (`ParsableMuls`). Part 2 evaluates only the `mul`s reached while enabled, so it requires short operands of those alone (`FoldParsable`); `Day03.DisabledLongOperand` shows an input part 2 accepts and part 1 does not.
- The `parse` of `src/day03.rs:5-7` returns its input unchanged, so it is not modelled separately.
- Day04.Part1: columns are bounded by the first row's length, so the grid must have rows at least as wide as the first (`WideRows`), which is the condition under which the source does not index out of range. An input ending in `\n` gives an empty last row and so is outside that condition.
- Day04.CountXmas: the `i16` arithmetic of `count_xmas` is modelled on `int`. Grids wider or taller than 32767 cells, where that arithmetic would wrap, are not modelled.
- The example totals of `src/day04.rs` (18 and 9) and `src/day06.rs` (41 and 6) are not proved. Small grids (`Day04.OneWordBothWays`, `Day04.OneCross`) and the general bounds stand in for them.
- Day05.Part2: `sort_by`, given the comparator on `src/day05.rs:54-59`, is a foreign standard-library call. Its comparator answers `Equal` when a is ruled to precede b and `Less` otherwise, never `Greater`, so on rules that leave a pair unrelated it is not a consistent order and the outcome there depends on the sorting algorithm. The model takes the sort as a parameter `reorder` that must return a permutation of every out-of-order update (`Reorders`). Part 2 is proved for any such `reorder`. On the example the rules relate every pair of pages in an update, so the comparator ranks each page below every page that must precede it; the example sum 123 is proved for the results sorted that way (`Day05.ExampleSortResults`), which are the puzzle's corrected orders reversed and have the same middle pages.
- Day05: `FxHashMap<u32, FxHashSet<u32>>` is a `map<nat, set<nat>>`, and hashing is not modelled.
- Day05.Parse: the input must contain a blank line and well-formed rules and updates. The `unwrap`s of `src/day05.rs:9` and `:14` panic otherwise.
- Day06.Patrol: requires `WideRows` (every row at least as wide as the first). This is stronger than what the source needs to avoid a panic, since `patrol` only reads the rows it steps into.
- Day06.Patrol: the `wrapping_add` of `src/day06.rs:88` is modelled as a step to −1 that fails the bounds test. This is the same outcome, because a wrapped `usize` is never below `m.len()`.
- Day06.Parse: the start is the last `^` of the first row holding one, as the code does (`found_start` is checked once per row). The puzzle text speaks of a single `^`. Input with no `^` starts at (0, 0), as the code does.
- Day06.Part1: requires that the walk does not loop, because `unwrap` panics otherwise.
- Day06.Part2: requires the same, for the same reason. The start cell is tried like every other path cell, as in the code. Writing `.` back matters only when the start cell itself was `#`; in that case the count is stated over the grid as the loop leaves it.
- Day06.Mark, Day06.Patrol, Day06.SeenCells, Day06.VisitedCells, Day06.TryBlock: the ghost walk length `n` used in their contracts has no counterpart in the source.

## Findings

| source | as written | input that shows it | evidently intended | confidence | as-written member | corrected member |
|---|---|---|---|---|---|---|
| src/day03.rs:23-24 | The two operands are parsed as `u16` and multiplied as `u16`. A product of 65536 or more wraps in a release build (and panics in a debug build). | `mul(300,300)`: 90000 is reduced modulo 65536 to 24464. | The product of two operands of up to three digits (at most 998001) is added in full. | not executed | Day03.EvalMulAsWritten, Day03.MulOverflowExample | Day03.EvalMul |
