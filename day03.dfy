/**
 * Day 3 (src/day03.rs): a corrupted program text from which the
 * instructions `mul(a,b)`, `do()` and `don't()` are picked out left to right
 * without overlap. Part 1 sums the products of all `mul`s; part 2 folds the
 * instructions with an enabled flag and only adds products while enabled.
 * The regular expressions of the source are modelled by a hand-written
 * scanner that recognises the same instructions.
 */
module Day03 {
  import opened Wrappers
  import opened Text
  import opened Digits

  /** `parse_u16` of this puzzle: one to three digits (other lengths panic). */
  function ParseU16(v: string): (n: nat)
    requires 1 <= |v| <= 3 && IsNumeral(v)
    ensures n == DecimalValue(v)
    ensures n < 1000
  {
    if |v| == 1 then
      assert v[..0] == [];
      DigitValue(v[0])
    else if |v| == 2 then
      assert v[..1][..0] == [] && v[..1][0] == v[0];
      assert DecimalValue(v[..1]) == DigitValue(v[0]);
      DigitValue(v[0]) * 10 + DigitValue(v[1])
    else
      assert v[..2][..1][..0] == [] && v[..2][..1][0] == v[0] && v[..2][1] == v[1];
      assert DecimalValue(v[..2][..1]) == DigitValue(v[0]);
      assert DecimalValue(v[..2]) == DigitValue(v[0]) * 10 + DigitValue(v[1]);
      DigitValue(v[0]) * 100 + DigitValue(v[1]) * 10 + DigitValue(v[2])
  }

  /** The text between `mul(` and the final `)`, split at `,`. */
  function Operands(e: string): seq<string>
    requires |e| >= 5
  {
    SplitOn(e[4..|e| - 1], {','})
  }

  /** `e` reads `mul(` digits `,` digits `)`: what `mul\(\d+,\d+\)` matches. */
  predicate MulExpression(e: string)
  {
    && |e| >= 5 && e[..4] == "mul(" && e[|e| - 1] == ')'
    && var ps := Operands(e);
    && |ps| == 2
    && ps[0] != [] && IsNumeral(ps[0])
    && ps[1] != [] && IsNumeral(ps[1])
  }

  /** Both numbers have at most three digits, as `parse_u16` demands. */
  predicate ShortOperands(e: string)
    requires MulExpression(e)
  {
    |Operands(e)[0]| <= 3 && |Operands(e)[1]| <= 3
  }

  /** The two operands of a mul expression, as numbers. */
  function Left(e: string): nat
    requires MulExpression(e)
  {
    DecimalValue(Operands(e)[0])
  }

  function Right(e: string): nat
    requires MulExpression(e)
  {
    DecimalValue(Operands(e)[1])
  }

  /** `.map(parse_u16)` over the operand strings. */
  function ParseAll(parts: seq<string>): (vals: seq<nat>)
    requires forall k :: 0 <= k < |parts| ==> 1 <= |parts[k]| <= 3 && IsNumeral(parts[k])
    ensures |vals| == |parts|
    ensures forall k :: 0 <= k < |parts| ==> vals[k] == DecimalValue(parts[k])
  {
    if parts == [] then [] else [ParseU16(parts[0])] + ParseAll(parts[1..])
  }

  /** `.reduce(|acc, val| val * acc)` with unbounded integers. */
  function ReduceProduct(vals: seq<nat>): nat
    requires |vals| >= 1
  {
    if |vals| == 1 then vals[0] else vals[|vals| - 1] * ReduceProduct(vals[..|vals| - 1])
  }

  /** `.reduce(|acc, val| val * acc)` in `u16`, wrapping at 2^16 as a release build does. */
  function ReduceProductU16(vals: seq<nat>): nat
    requires |vals| >= 1
  {
    if |vals| == 1 then vals[0] % 0x1_0000
    else (vals[|vals| - 1] * ReduceProductU16(vals[..|vals| - 1])) % 0x1_0000
  }

  /** `eval_mul_expression` as evidently intended: the product of the two numbers. */
  function EvalMul(e: string): (v: nat)
    requires MulExpression(e) && ShortOperands(e)
    ensures v == Left(e) * Right(e)
  {
    OperandValues(e);
    ProductOfPair(Left(e), Right(e));
    ReduceProduct(ParseAll(Operands(e)))
  }

  /** The operands of a mul expression with short operands parse to its two numbers. */
  lemma OperandValues(e: string)
    requires MulExpression(e) && ShortOperands(e)
    ensures forall k :: 0 <= k < |Operands(e)| ==> 1 <= |Operands(e)[k]| <= 3 && IsNumeral(Operands(e)[k])
    ensures ParseAll(Operands(e)) == [Left(e), Right(e)]
  {
    var ps := Operands(e);
    var vals := ParseAll(ps);
    assert vals[0] == Left(e) && vals[1] == Right(e);
  }

  lemma ProductOfPair(x: nat, y: nat)
    ensures ReduceProduct([x, y]) == x * y
  {
    assert [x, y][..1] == [x];
  }

  /** `eval_mul_expression` as written: the product is formed in `u16` before
      the cast to `u32`, so it is taken modulo 2^16. */
  function EvalMulAsWritten(e: string): (v: nat)
    requires MulExpression(e) && ShortOperands(e)
    ensures v < 0x1_0000
    ensures v == (Left(e) * Right(e)) % 0x1_0000
  {
    OperandValues(e);
    WrappedPair(Left(e), Right(e));
    ReduceProductU16(ParseAll(Operands(e)))
  }

  lemma WrappedPair(x: nat, y: nat)
    requires x < 1000
    ensures ReduceProductU16([x, y]) == (x * y) % 0x1_0000
  {
    assert [x, y][..1] == [x];
    assert x % 0x1_0000 == x;
    assert y * x == x * y;
  }

  /** The two evaluations agree exactly when the product fits in `u16`. */
  lemma AsWrittenAgreesBelowLimit(e: string)
    requires MulExpression(e) && ShortOperands(e)
    ensures EvalMulAsWritten(e) == EvalMul(e) <==> Left(e) * Right(e) < 0x1_0000
  {
  }

  /** `mul(300,300)` evaluates to 24464 instead of 90000. */
  lemma MulOverflowExample()
    ensures MulExpression("mul(300,300)") && ShortOperands("mul(300,300)")
    ensures EvalMul("mul(300,300)") == 90000
    ensures EvalMulAsWritten("mul(300,300)") == 24464
  {
    var e := "mul(300,300)";
    OperandsOfExample();
    assert DecimalValue("300") == 300 by {
      assert "300"[..2] == "30" && "30"[..1] == "3" && "3"[..0] == "";
    }
  }

  lemma OperandsOfExample()
    ensures Operands("mul(300,300)") == ["300", "300"]
  {
    var e := "mul(300,300)";
    var ps := ["300", "300"];
    assert ps[1..] == ["300"];
    assert Join(ps, ',') == "300" + [','] + "300";
    assert e[4..|e| - 1] == Join(ps, ',');
    SplitJoin(ps, ',');
  }

  /** The number of consecutive digits from index `from` on. */
  function DigitRun(s: string, from: nat): (n: nat)
    requires from <= |s|
    ensures from + n <= |s|
    ensures forall j :: from <= j < from + n ==> IsDigit(s[j])
    ensures from + n < |s| ==> !IsDigit(s[from + n])
    decreases |s| - from
  {
    if from == |s| || !IsDigit(s[from]) then 0 else 1 + DigitRun(s, from + 1)
  }

  /** A run of digits ending before a non-digit is what `DigitRun` counts. */
  lemma {:induction false} DigitRunIs(s: string, from: nat, n: nat)
    requires from + n <= |s|
    requires forall j :: from <= j < from + n ==> IsDigit(s[j])
    requires from + n < |s| ==> !IsDigit(s[from + n])
    ensures DigitRun(s, from) == n
    decreases n
  {
    if n > 0 {
      DigitRunIs(s, from + 1, n - 1);
    }
  }

  /** The length of the `mul(a,b)` that starts `s`, if one does. The digit runs
      are maximal: a digit never matches `,` or `)`, so `\d+` has no other choice. */
  function MulMatch(s: string): (n: Option<nat>)
  {
    if |s| >= 4 && s[..4] == "mul(" then
      var a := DigitRun(s, 4);
      if a >= 1 && 4 + a < |s| && s[4 + a] == ',' then
        var b := DigitRun(s, 5 + a);
        if b >= 1 && 5 + a + b < |s| && s[5 + a + b] == ')' then Some(6 + a + b) else None
      else None
    else None
  }

  /** What `MulMatch` finds is a mul expression. */
  lemma MulMatchIsMulExpression(s: string)
    ensures MulMatch(s).Some? ==> MulMatch(s).value <= |s| && MulExpression(s[..MulMatch(s).value])
  {
    if MulMatch(s).Some? {
      var a := DigitRun(s, 4);
      var b := DigitRun(s, 5 + a);
      var n := 6 + a + b;
      var x, y := s[4..4 + a], s[5 + a..5 + a + b];
      DigitSlice(s, 4, a);
      DigitSlice(s, 5 + a, b);
      PrefixSlice(s, n, 0, 4);
      PrefixSlice(s, n, 4, 4 + a);
      PrefixSlice(s, n, 5 + a, 5 + a + b);
      MulFromParts(s[..n], x, y);
    }
  }

  /** A run counted by `DigitRun` is a numeral. */
  lemma DigitSlice(s: string, from: nat, n: nat)
    requires from <= |s| && n == DigitRun(s, from)
    ensures IsNumeral(s[from..from + n])
  {
    var run := s[from..from + n];
    forall k | 0 <= k < |run|
      ensures IsDigit(run[k])
    {
      assert run[k] == s[from + k];
    }
  }

  /** Text laid out as `mul(`, a numeral, `,`, a numeral, `)` is a mul expression
      whose operands are the two numerals. */
  lemma MulFromParts(e: string, x: string, y: string)
    requires x != [] && y != [] && IsNumeral(x) && IsNumeral(y)
    requires |e| == 6 + |x| + |y| && e[..4] == "mul("
    requires e[4..4 + |x|] == x && e[4 + |x|] == ',' && e[5 + |x|..5 + |x| + |y|] == y
    requires e[|e| - 1] == ')'
    ensures MulExpression(e) && Operands(e) == [x, y]
  {
    assert e[4..|e| - 1] == x + [','] + y;
    assert [x, y][1..] == [y];
    assert Join([x, y], ',') == x + [','] + y;
    SplitJoin([x, y], ',');
  }

  /** Conversely, every mul expression at the start of `s` is found by `MulMatch`,
      with its full length: the match is unique. */
  lemma MulExpressionIsMatched(s: string, n: nat)
    requires n <= |s| && MulExpression(s[..n])
    ensures MulMatch(s) == Some(n)
  {
    var e := s[..n];
    var ps := Operands(e);
    MulExpressionLayout(e);
    var a, b := |ps[0]|, |ps[1]|;
    PrefixSlice(s, n, 0, 4);
    assert s[..4] == "mul(";
    PrefixSlice(s, n, 4, 4 + a);
    assert s[4 + a] == e[4 + a];
    DigitRunOver(s, 4, ps[0]);
    PrefixSlice(s, n, 5 + a, 5 + a + b);
    assert s[5 + a + b] == e[5 + a + b];
    DigitRunOver(s, 5 + a, ps[1]);
  }

  lemma PrefixSlice(s: string, n: nat, i: nat, j: nat)
    requires i <= j <= n <= |s|
    ensures s[..n][i..j] == s[i..j]
    ensures i == 0 ==> s[..j] == s[..n][..j]
  {
  }

  /** A mul expression is `mul(`, the first operand, `,`, the second, `)`. */
  lemma MulExpressionLayout(e: string)
    requires MulExpression(e)
    ensures |e| == 6 + |Operands(e)[0]| + |Operands(e)[1]|
    ensures e[4..4 + |Operands(e)[0]|] == Operands(e)[0]
    ensures e[4 + |Operands(e)[0]|] == ','
    ensures e[5 + |Operands(e)[0]|..|e| - 1] == Operands(e)[1]
  {
    var ps := Operands(e);
    var inner := e[4..|e| - 1];
    JoinSplit(inner, ',');
    assert ps[1..] == [ps[1]];
    assert inner == ps[0] + [','] + ps[1];
    assert e[4..4 + |ps[0]|] == inner[..|ps[0]|];
    assert e[5 + |ps[0]|..|e| - 1] == inner[|ps[0]| + 1..];
  }

  /** `DigitRun` over a numeral followed by a non-digit is its length. */
  lemma DigitRunOver(s: string, from: nat, x: string)
    requires from + |x| < |s| && s[from..from + |x|] == x && IsNumeral(x)
    requires !IsDigit(s[from + |x|])
    ensures DigitRun(s, from) == |x|
  {
    forall j | from <= j < from + |x|
      ensures IsDigit(s[j])
    {
      assert s[j] == x[j - from];
    }
    DigitRunIs(s, from, |x|);
  }

  predicate IsToggle(t: string)
  {
    t == "do()" || t == "don't()"
  }

  /** No instruction is both a `mul` and a toggle. */
  lemma MulNotToggle(t: string)
    ensures !(MulExpression(t) && IsToggle(t))
  {
    if MulExpression(t) {
      assert t[0] == t[..4][0] == 'm';
    }
  }

  /** The length of the `do()` or `don't()` that starts `s`, if one does. */
  function ToggleMatch(s: string): (n: Option<nat>)
    ensures n.Some? ==> n.value <= |s| && IsToggle(s[..n.value])
    ensures n.Some? ==> forall j :: 0 <= j < n.value ==> s[j] != 'm'
  {
    if |s| >= 4 && s[..4] == "do()" then Some(4)
    else if |s| >= 7 && s[..7] == "don't()" then Some(7)
    else None
  }

  /** The instruction starting `s`: a `mul`, or with `toggles` also `do()`/`don't()`.
      At one position at most one alternative can match. */
  function MatchAt(s: string, toggles: bool): (n: Option<nat>)
    ensures n.Some? ==> 1 <= n.value <= |s|
    ensures n.Some? ==> MulExpression(s[..n.value]) || (toggles && IsToggle(s[..n.value]))
  {
    MulMatchIsMulExpression(s);
    if MulMatch(s).Some? then MulMatch(s)
    else if toggles then ToggleMatch(s)
    else None
  }

  /** `find_iter`: the leftmost match, then the search resumes after it. */
  function Scan(s: string, toggles: bool): (instructions: seq<string>)
    ensures forall k :: 0 <= k < |instructions| ==>
      MulExpression(instructions[k]) || (toggles && IsToggle(instructions[k]))
    decreases |s|
  {
    if s == [] then []
    else
      match MatchAt(s, toggles)
      case Some(n) => [s[..n]] + Scan(s[n..], toggles)
      case None => Scan(s[1..], toggles)
  }

  /** Positions holding no `m` (and, when toggles are scanned, no `d`) start no instruction. */
  lemma {:induction false} SkipWithout(s: string, k: nat, toggles: bool)
    requires k <= |s|
    requires forall j :: 0 <= j < k ==> s[j] != 'm' && (toggles ==> s[j] != 'd')
    ensures Scan(s, toggles) == Scan(s[k..], toggles)
    decreases k
  {
    if k > 0 {
      assert !(|s| >= 4 && s[..4] == "mul(") by {
        if |s| >= 4 {
          assert s[..4][0] == s[0];
        }
      }
      if toggles {
        assert ToggleMatch(s).None? by {
          if |s| >= 4 {
            assert s[..4][0] == s[0];
          }
        }
      }
      SkipWithout(s[1..], k - 1, toggles);
      assert s[1..][k - 1..] == s[k..];
    }
  }


  /** The `mul`s among a sequence of instructions, in order. */
  function Muls(instructions: seq<string>): (muls: seq<string>)
    ensures |muls| <= |instructions|
    ensures forall k :: 0 <= k < |muls| ==> muls[k] in instructions
  {
    if instructions == [] then []
    else if IsToggle(instructions[0]) then Muls(instructions[1..])
    else [instructions[0]] + Muls(instructions[1..])
  }

  /** Scanning for all three instructions and keeping the `mul`s finds exactly
      the `mul`s part 1 finds: a `do()` or `don't()` hides no `mul`. */
  lemma {:induction false} MulsOfScan(s: string)
    ensures Muls(Scan(s, true)) == Scan(s, false)
    decreases |s|
  {
    if s != [] {
      MulMatchIsMulExpression(s);
      match MulMatch(s)
      case Some(n) =>
        MulNotToggle(s[..n]);
        MulsOfScan(s[n..]);
      case None =>
        match ToggleMatch(s)
        case Some(n) =>
          ToggleHidesNoMul(s, n);
          MulsOfScan(s[n..]);
        case None =>
          MulsOfScan(s[1..]);
    }
  }

  /** A `do()` or `don't()` at the front is skipped by a scan for `mul`s alone. */
  lemma ToggleHidesNoMul(s: string, n: nat)
    requires MulMatch(s).None? && ToggleMatch(s) == Some(n)
    ensures n <= |s| && IsToggle(s[..n])
    ensures Scan(s, false) == Scan(s[n..], false)
  {
    var t := s[1..];
    forall j | 0 <= j < n - 1
      ensures t[j] != 'm'
    {
      assert t[j] == s[j + 1];
    }
    SkipWithout(t, n - 1, false);
    assert t[n - 1..] == s[n..];
    assert Scan(s, false) == Scan(t, false);
  }

  /** Every `mul` has short operands, so `parse_u16` does not panic. */
  predicate ParsableMuls(instructions: seq<string>)
  {
    forall k :: 0 <= k < |instructions| && MulExpression(instructions[k]) ==> ShortOperands(instructions[k])
  }

  /** The sum of the products of the `mul`s. */
  function SumOfProducts(instructions: seq<string>): (sum: nat)
    requires ParsableMuls(instructions)
    ensures sum == 0 <== forall k :: 0 <= k < |instructions| ==> !MulExpression(instructions[k])
  {
    if instructions == [] then 0
    else
      var rest := SumOfProducts(instructions[1..]);
      if MulExpression(instructions[0]) then EvalMul(instructions[0]) + rest else rest
  }

  /** `part1_impl`: the sum of the products of all `mul` instructions. Part 2's
      scan holds the same `mul`s, so part 1 is also the sum over that scan with
      its `do()`/`don't()` ignored. */
  function Part1(input: string): (sum: nat)
    requires ParsableMuls(Scan(input, false))
    ensures ParsableMuls(Scan(input, true))
    ensures sum == SumOfProducts(Scan(input, true))
  {
    ScanTogglesParsable(input);
    MulsOfScan(input);
    SumOfMuls(Scan(input, true));
    SumOfProducts(Scan(input, false))
  }

  /** Part 2's scan holds no `mul` that part 1's scan lacks. */
  lemma ScanTogglesParsable(input: string)
    requires ParsableMuls(Scan(input, false))
    ensures ParsableMuls(Scan(input, true))
  {
    var all := Scan(input, true);
    MulsOfScan(input);
    forall k | 0 <= k < |all| && MulExpression(all[k])
      ensures ShortOperands(all[k])
    {
      MulIsKept(all, k);
    }
  }

  /** The enabled flag after `instruction`: set by `do()`, cleared by `don't()`. */
  function Toggled(enabled: bool, instruction: string): bool
  {
    if instruction == "do()" then true
    else if instruction == "don't()" then false
    else enabled
  }

  /** Whether the instruction at index `k` is reached while enabled: the latest
      `do()` or `don't()` before it decides, and `enabled` when there is none. */
  predicate EnabledAt(instructions: seq<string>, k: nat, enabled: bool)
    requires k <= |instructions|
  {
    if k == 0 then enabled
    else if IsToggle(instructions[k - 1]) then instructions[k - 1] == "do()"
    else EnabledAt(instructions, k - 1, enabled)
  }

  /** Every `mul` reached while enabled has short operands: `parse_u16` only
      runs on those, so the fold does not panic. */
  predicate FoldParsable(instructions: seq<string>, enabled: bool)
  {
    forall k :: 0 <= k < |instructions| && MulExpression(instructions[k]) && EnabledAt(instructions, k, enabled) ==>
      ShortOperands(instructions[k])
  }

  /** The sum of the products of the `mul`s among the first `n` instructions
      that are reached while enabled. */
  function EnabledSum(instructions: seq<string>, n: nat, enabled: bool): nat
    requires n <= |instructions| && FoldParsable(instructions, enabled)
  {
    if n == 0 then 0
    else
      var k := n - 1;
      EnabledSum(instructions, k, enabled)
      + if MulExpression(instructions[k]) && EnabledAt(instructions, k, enabled) then EvalMul(instructions[k]) else 0
  }

  /** One step of the fold in `part2_impl`. */
  function Step(acc: nat, enabled: bool, instruction: string): (r: (nat, bool))
    requires enabled && MulExpression(instruction) ==> ShortOperands(instruction)
    ensures IsToggle(instruction) ==> r.0 == acc
    ensures IsToggle(instruction) ==> (r.1 <==> instruction == "do()")
    ensures !IsToggle(instruction) ==> r.1 == enabled
    ensures !enabled ==> r.0 == acc
    ensures enabled && MulExpression(instruction) ==> r == (acc + EvalMul(instruction), true)
    ensures !MulExpression(instruction) ==> r.0 == acc
    ensures r.0 >= acc
  {
    MulNotToggle(instruction);
    if instruction == "do()" then (acc, true)
    else if instruction == "don't()" then (acc, false)
    else if enabled then
      if MulExpression(instruction) then (acc + EvalMul(instruction), true) else (acc, true)
    else (acc, enabled)
  }

  /** The fold over the instructions, from the state `(acc, enabled)`. */
  function Fold(instructions: seq<string>, acc: nat, enabled: bool): (r: (nat, bool))
    requires FoldParsable(instructions, enabled)
    ensures acc <= r.0
    decreases |instructions|
  {
    if instructions == [] then (acc, enabled)
    else
      FoldParsableShift(instructions, enabled);
      var (acc', enabled') := Step(acc, enabled, instructions[0]);
      Fold(instructions[1..], acc', enabled')
  }

  /** Seen from the second instruction on, the flag starts as the first one left it. */
  lemma {:induction false} EnabledAtShift(instructions: seq<string>, k: nat, enabled: bool)
    requires k < |instructions|
    ensures EnabledAt(instructions, k + 1, enabled) == EnabledAt(instructions[1..], k, Toggled(enabled, instructions[0]))
    decreases k
  {
    if k > 0 {
      EnabledAtShift(instructions, k - 1, enabled);
      assert instructions[1..][k - 1] == instructions[k];
    }
  }

  /** The first instruction can be evaluated, and the rest stay parsable from the flag it leaves. */
  lemma FoldParsableShift(instructions: seq<string>, enabled: bool)
    requires instructions != [] && FoldParsable(instructions, enabled)
    ensures enabled && MulExpression(instructions[0]) ==> ShortOperands(instructions[0])
    ensures FoldParsable(instructions[1..], Toggled(enabled, instructions[0]))
  {
    assert EnabledAt(instructions, 0, enabled) == enabled;
    var rest := instructions[1..];
    forall k | 0 <= k < |rest| && MulExpression(rest[k]) && EnabledAt(rest, k, Toggled(enabled, instructions[0]))
      ensures ShortOperands(rest[k])
    {
      EnabledAtShift(instructions, k, enabled);
      assert rest[k] == instructions[k + 1];
    }
  }

  /** The enabled sum splits into the first instruction's share and the sum over the rest. */
  lemma {:induction false} EnabledSumShift(instructions: seq<string>, n: nat, enabled: bool)
    requires n < |instructions| && FoldParsable(instructions, enabled)
    ensures FoldParsable(instructions[1..], Toggled(enabled, instructions[0]))
    ensures EnabledSum(instructions, n + 1, enabled)
      == (if enabled && MulExpression(instructions[0]) then EvalMul(instructions[0]) else 0)
         + EnabledSum(instructions[1..], n, Toggled(enabled, instructions[0]))
    decreases n
  {
    FoldParsableShift(instructions, enabled);
    if n > 0 {
      EnabledSumShift(instructions, n - 1, enabled);
      EnabledAtShift(instructions, n - 1, enabled);
      assert instructions[1..][n - 1] == instructions[n];
    }
  }

  /** The fold adds exactly the products of the `mul`s reached while enabled,
      and ends with the flag the last `do()`/`don't()` set. */
  lemma {:induction false} FoldIsEnabledSum(instructions: seq<string>, acc: nat, enabled: bool)
    requires FoldParsable(instructions, enabled)
    ensures Fold(instructions, acc, enabled).0 == acc + EnabledSum(instructions, |instructions|, enabled)
    ensures Fold(instructions, acc, enabled).1 == EnabledAt(instructions, |instructions|, enabled)
    decreases |instructions|
  {
    if instructions != [] {
      var first, rest := instructions[0], instructions[1..];
      FoldStep(instructions, acc, enabled);
      var gain, flag := if enabled && MulExpression(first) then EvalMul(first) else 0, Toggled(enabled, first);
      FoldIsEnabledSum(rest, acc + gain, flag);
      EnabledSumShift(instructions, |rest|, enabled);
      EnabledAtShift(instructions, |rest|, enabled);
    }
  }

  /** One step of the fold: the first instruction adds its product when it is
      an enabled `mul`, and hands its flag on to the rest. */
  lemma FoldStep(instructions: seq<string>, acc: nat, enabled: bool)
    requires instructions != [] && FoldParsable(instructions, enabled)
    ensures FoldParsable(instructions[1..], Toggled(enabled, instructions[0]))
    ensures enabled && MulExpression(instructions[0]) ==> ShortOperands(instructions[0])
    ensures Fold(instructions, acc, enabled)
      == Fold(instructions[1..],
              acc + (if enabled && MulExpression(instructions[0]) then EvalMul(instructions[0]) else 0),
              Toggled(enabled, instructions[0]))
  {
    FoldParsableShift(instructions, enabled);
    var r := Step(acc, enabled, instructions[0]);
    assert r.1 == Toggled(enabled, instructions[0]);
  }

  /** `part2_impl`: the fold starting enabled with a zero sum, which adds the
      products of exactly the `mul`s reached while enabled. */
  function Part2(input: string): (sum: nat)
    requires FoldParsable(Scan(input, true), true)
    ensures sum == EnabledSum(Scan(input, true), |Scan(input, true)|, true)
  {
    FoldIsEnabledSum(Scan(input, true), 0, true);
    Fold(Scan(input, true), 0, true).0
  }

  /** A `mul` that `parse_u16` cannot read is harmless while disabled: after
      `don't()`, `mul(1234,5)` is skipped without being evaluated, although
      part 1 would evaluate it. */
  lemma DisabledLongOperand(ins: seq<string>)
    requires ins == ["don't()", "mul(1234,5)"]
    ensures MulExpression(ins[1]) && !ShortOperands(ins[1]) && !ParsableMuls(ins)
    ensures FoldParsable(ins, true) && Fold(ins, 0, true) == (0, false)
  {
    LongOperandMul(ins[1]);
    assert !MulExpression(ins[0]) by {
      assert ins[0][..4][0] == 'd';
    }
    assert !EnabledAt(ins, 1, true);
    assert FoldParsable(ins, true);
    assert EnabledSum(ins, 1, true) == 0;
    assert EnabledSum(ins, 2, true) == 0;
    FoldIsEnabledSum(ins, 0, true);
  }

  lemma LongOperandMul(e: string)
    requires e == "mul(1234,5)"
    ensures MulExpression(e) && Operands(e) == ["1234", "5"]
  {
    assert e[..4] == "mul(" && e[4..8] == "1234" && e[8] == ',' && e[9..10] == "5";
    MulFromParts(e, "1234", "5");
  }

  /** Dropping the toggles keeps the products. */
  lemma {:induction false} SumOfMuls(instructions: seq<string>)
    requires ParsableMuls(instructions)
    ensures ParsableMuls(Muls(instructions))
    ensures SumOfProducts(Muls(instructions)) == SumOfProducts(instructions)
    decreases |instructions|
  {
    if instructions != [] {
      SumOfMuls(instructions[1..]);
      var m := Muls(instructions);
      if !IsToggle(instructions[0]) {
        assert m == [instructions[0]] + Muls(instructions[1..]);
        assert m[1..] == Muls(instructions[1..]);
        assert forall k :: 1 <= k < |m| ==> m[k] == Muls(instructions[1..])[k - 1];
      } else {
        MulNotToggle(instructions[0]);
        assert m == Muls(instructions[1..]);
      }
    }
  }

  /** Part 2 needs no more of the input than part 1, and never exceeds it. */
  lemma Part2AtMostPart1(input: string)
    requires ParsableMuls(Scan(input, false))
    ensures ParsableMuls(Scan(input, true)) && FoldParsable(Scan(input, true), true)
    ensures Part2(input) <= Part1(input)
  {
    ScanTogglesParsable(input);
    EnabledSumAtMost(Scan(input, true), true);
  }

  /** When every `mul` can be evaluated, the enabled ones add up to no more
      than all of them. */
  lemma {:induction false} EnabledSumAtMost(instructions: seq<string>, enabled: bool)
    requires ParsableMuls(instructions)
    ensures FoldParsable(instructions, enabled)
    ensures EnabledSum(instructions, |instructions|, enabled) <= SumOfProducts(instructions)
    decreases |instructions|
  {
    if instructions != [] {
      var rest := instructions[1..];
      assert ParsableMuls(rest) by {
        forall k | 0 <= k < |rest| && MulExpression(rest[k]) ensures ShortOperands(rest[k]) {
          assert rest[k] == instructions[k + 1];
        }
      }
      EnabledSumAtMost(rest, Toggled(enabled, instructions[0]));
      EnabledSumShift(instructions, |rest|, enabled);
    }
  }

  /** A `mul` among the instructions survives `Muls`. */
  lemma {:induction false} MulIsKept(instructions: seq<string>, k: nat)
    requires k < |instructions| && MulExpression(instructions[k])
    ensures instructions[k] in Muls(instructions)
    decreases k
  {
    MulNotToggle(instructions[k]);
    if k > 0 {
      MulIsKept(instructions[1..], k - 1);
    }
  }

  /** Without `do()`/`don't()` instructions the fold adds every product. */
  lemma {:induction false} FoldWithoutToggles(instructions: seq<string>, acc: nat)
    requires ParsableMuls(instructions)
    requires forall k :: 0 <= k < |instructions| ==> !IsToggle(instructions[k])
    ensures Fold(instructions, acc, true) == (acc + SumOfProducts(instructions), true)
    decreases |instructions|
  {
    if instructions != [] {
      var (acc', enabled') := Step(acc, true, instructions[0]);
      FoldWithoutToggles(instructions[1..], acc');
    }
  }

  /** With no `do()` or `don't()` in the scanned program, part 2 equals part 1. */
  lemma NoTogglesSameAsPart1(input: string)
    requires ParsableMuls(Scan(input, false))
    requires forall k :: 0 <= k < |Scan(input, true)| ==> !IsToggle(Scan(input, true)[k])
    ensures ParsableMuls(Scan(input, true)) && FoldParsable(Scan(input, true), true)
    ensures Part2(input) == Part1(input)
  {
    Part2AtMostPart1(input);
    MulsOfScan(input);
    NoTogglesKept(Scan(input, true));
    FoldWithoutToggles(Scan(input, true), 0);
  }

  lemma {:induction false} NoTogglesKept(instructions: seq<string>)
    requires forall k :: 0 <= k < |instructions| ==> !IsToggle(instructions[k])
    ensures Muls(instructions) == instructions
    decreases |instructions|
  {
    if instructions != [] {
      NoTogglesKept(instructions[1..]);
    }
  }
  /** A `mul` with the given operand texts. */
  lemma MulLiteral(x: string, y: string)
    requires 1 <= |x| <= 3 && 1 <= |y| <= 3 && IsNumeral(x) && IsNumeral(y)
    ensures MulExpression("mul(" + x + "," + y + ")")
    ensures Operands("mul(" + x + "," + y + ")") == [x, y]
  {
    var e := "mul(" + x + "," + y + ")";
    assert e[..4] == "mul(" && e[4..4 + |x|] == x && e[5 + |x|..5 + |x| + |y|] == y;
    MulFromParts(e, x, y);
  }

  /** A `mul` at the front of the text is the next instruction. */
  lemma ScanMulAt(s: string, n: nat, toggles: bool)
    requires n <= |s| && MulExpression(s[..n])
    ensures Scan(s, toggles) == [s[..n]] + Scan(s[n..], toggles)
  {
    MulExpressionIsMatched(s, n);
  }

  /** A `do()` or `don't()` at the front of the text is the next instruction of part 2. */
  lemma ScanToggleAt(s: string, n: nat)
    requires n <= |s| && IsToggle(s[..n])
    ensures Scan(s, true) == [s[..n]] + Scan(s[n..], true)
  {
    assert s[0] == s[..n][0] == 'd';
    assert !(|s| >= 4 && s[..4] == "mul(") by {
      if |s| >= 4 {
        assert s[..4][0] == s[0];
      }
    }
    if n == 7 {
      assert s[..4] == s[..n][..4] == "don'";
    }
  }

  /** A position where no instruction starts is skipped. */
  lemma NoMatchAt(s: string, toggles: bool)
    requires s != [] && MulMatch(s).None? && (toggles ==> s[0] != 'd')
    ensures Scan(s, toggles) == Scan(s[1..], toggles)
  {
    if toggles {
      assert ToggleMatch(s).None? by {
        if |s| >= 4 {
          assert s[..4][0] == s[0];
        }
      }
    }
  }

  /** A stretch without `m` (nor `d` when toggles are scanned) is skipped. */
  lemma SkipPlain(s: string, k: nat, toggles: bool)
    requires k <= |s| && 'm' !in s[..k] && (toggles ==> 'd' !in s[..k])
    ensures Scan(s, toggles) == Scan(s[k..], toggles)
  {
    forall j | 0 <= j < k
      ensures s[j] != 'm' && (toggles ==> s[j] != 'd')
    {
      assert s[j] == s[..k][j];
    }
    SkipWithout(s, k, toggles);
  }

  /** Text without `m` (nor `d` when toggles are scanned) holds no instruction. */
  lemma ScanPlain(plain: string, rest: string, toggles: bool)
    requires 'm' !in plain && (toggles ==> 'd' !in plain)
    ensures Scan(plain + rest, toggles) == Scan(rest, toggles)
  {
    var s := plain + rest;
    assert s[..|plain|] == plain && s[|plain|..] == rest;
    SkipPlain(s, |plain|, toggles);
  }

  /** A `mul` in front of the rest of the text. */
  lemma ScanMul(x: string, y: string, rest: string, toggles: bool)
    requires 1 <= |x| <= 3 && 1 <= |y| <= 3 && IsNumeral(x) && IsNumeral(y)
    ensures Scan(("mul(" + x + "," + y + ")") + rest, toggles) == ["mul(" + x + "," + y + ")"] + Scan(rest, toggles)
  {
    var e := "mul(" + x + "," + y + ")";
    MulLiteral(x, y);
    var s := e + rest;
    assert s[..|e|] == e && s[|e|..] == rest;
    ScanMulAt(s, |e|, toggles);
  }

  /** A `do()` or `don't()` in front of the rest of the text. */
  lemma ScanToggle(t: string, rest: string)
    requires IsToggle(t)
    ensures Scan(t + rest, true) == [t] + Scan(rest, true)
  {
    var s := t + rest;
    assert s[..|t|] == t && s[|t|..] == rest;
    ScanToggleAt(s, |t|);
  }

  /** The end `mul(8,5))` shared by both examples. */
  lemma ScanEnd(toggles: bool)
    ensures Scan("mul(8,5))", toggles) == ["mul(8,5)"]
  {
    ScanPlain(")", "", toggles);
    assert ")" + "" == ")";
    EndLayout();
    ScanPieceMul("8", "5", "mul(8,5)", ")", toggles);
    assert Scan("", toggles) == [];
  }

  lemma EndLayout()
    ensures "mul(8,5))" == "mul(8,5)" + ")"
    ensures "mul(8,5)" == "mul(" + "8" + "," + "5" + ")"
  {
  }

  /* The pieces of the two examples, each scanned in front of an arbitrary rest. */

  lemma ScanPieceMul11x8(rest: string, toggles: bool)
    ensures Scan("mul(11,8)" + rest, toggles) == ["mul(11,8)"] + Scan(rest, toggles)
  {
    ScanPieceMul("11", "8", "mul(11,8)", rest, toggles);
  }

  lemma ScanPieceMul5x5(rest: string, toggles: bool)
    ensures Scan("mul(5,5)+" + rest, toggles) == ["mul(5,5)"] + Scan(rest, toggles)
  {
    ScanPieceMul("5", "5", "mul(5,5)", "+" + rest, toggles);
    ScanPlain("+", rest, toggles);
    Assoc("mul(5,5)", "+", rest);
    assert "mul(5,5)" + "+" == "mul(5,5)+";
  }

  /** A `mul` written as one literal, in front of the rest of the text. */
  lemma ScanPieceMul(x: string, y: string, e: string, rest: string, toggles: bool)
    requires 1 <= |x| <= 3 && 1 <= |y| <= 3 && IsNumeral(x) && IsNumeral(y)
    requires e == "mul(" + x + "," + y + ")"
    ensures Scan(e + rest, toggles) == [e] + Scan(rest, toggles)
  {
    ScanMul(x, y, rest, toggles);
  }

  lemma ScanPieceStart(sep: string, rest: string, toggles: bool)
    requires sep == "%&" || sep == "&"
    ensures Scan(("xmul(2,4)" + sep) + rest, toggles) == ["mul(2,4)"] + Scan(rest, toggles)
  {
    var tail := "mul(2,4)" + (sep + rest);
    ScanPieceMul("2", "4", "mul(2,4)", sep + rest, toggles);
    ScanPlain(sep, rest, toggles);
    ScanPlain("x", tail, toggles);
    assert ("xmul(2,4)" + sep) + rest == "x" + tail by {
      StartLayout(sep, rest);
    }
  }

  lemma StartLayout(sep: string, rest: string)
    ensures ("xmul(2,4)" + sep) + rest == "x" + ("mul(2,4)" + (sep + rest))
  {
    assert "xmul(2,4)" == "x" + "mul(2,4)";
    Assoc("x", "mul(2,4)", sep);
    Assoc("x" + "mul(2,4)", sep, rest);
    Assoc("x", "mul(2,4)" + sep, rest);
    Assoc("mul(2,4)", sep, rest);
  }

  lemma ScanPieceBracket(tail: string, rest: string, toggles: bool)
    requires tail == "3,7]!@^" || tail == "3,7]!^"
    ensures Scan(("mul[" + tail) + rest, toggles) == Scan(rest, toggles)
  {
    ScanBracketMul(tail, rest, toggles);
    ScanPlain("ul[" + tail, rest, toggles);
  }

  lemma ScanPieceBroken(tail: string, rest: string, toggles: bool)
    requires tail == "" || tail == "("
    ensures Scan(("mul(32,64]" + tail) + rest, toggles) == Scan(rest, toggles)
  {
    Assoc("mul(32,64]", tail, rest);
    ScanBrokenMul(tail + rest, toggles);
    Assoc("ul(32,64]", tail, rest);
    BrokenPlain(tail);
    ScanPlain("ul(32,64]" + tail, rest, toggles);
  }

  lemma BrokenPlain(tail: string)
    requires tail == "" || tail == "("
    ensures 'm' !in "ul(32,64]" + tail && 'd' !in "ul(32,64]" + tail
  {
    if tail == "" {
      assert "ul(32,64]" + tail == "ul(32,64]";
    } else {
      assert "ul(32,64]" + tail == "ul(32,64](";
    }
  }

  lemma ScanPieceDont(rest: string, toggles: bool)
    requires toggles
    ensures Scan("don't()_" + rest, toggles) == ["don't()"] + Scan(rest, toggles)
  {
    assert "don't()_" + rest == "don't()" + ("_" + rest);
    ScanToggle("don't()", "_" + rest);
    ScanPlain("_", rest, toggles);
  }

  lemma ScanPieceDo(rest: string, toggles: bool)
    requires toggles
    ensures Scan("undo()?" + rest, toggles) == ["do()"] + Scan(rest, toggles)
  {
    assert "undo()?" + rest == "un" + ("do()" + ("?" + rest));
    ScanPlain("un", "do()" + ("?" + rest), toggles);
    ScanToggle("do()", "?" + rest);
    ScanPlain("?", rest, toggles);
  }

  lemma Assoc(a: string, b: string, c: string)
    ensures (a + b) + c == a + (b + c)
  {
  }

  /** `mul(32,64]` starts no `mul`. */
  lemma ScanBrokenMul(rest: string, toggles: bool)
    ensures Scan("mul(32,64]" + rest, toggles) == Scan("ul(32,64]" + rest, toggles)
  {
    var s := "mul(32,64]" + rest;
    assert s[4..6] == "32" && s[7..9] == "64" && s[9] == ']';
    DigitRunOver(s, 4, "32");
    DigitRunOver(s, 7, "64");
    assert s[1..] == "ul(32,64]" + rest;
    NoMatchAt(s, toggles);
  }

  /** `mul[` starts no `mul`. */
  lemma ScanBracketMul(tail: string, rest: string, toggles: bool)
    ensures Scan(("mul[" + tail) + rest, toggles) == Scan(("ul[" + tail) + rest, toggles)
  {
    var s := ("mul[" + tail) + rest;
    assert s[..4] == "mul[";
    assert s[1..] == ("ul[" + tail) + rest;
    NoMatchAt(s, toggles);
  }

  /** The program text of the test `part1_example`. */
  const Example1: string :=
    ("xmul(2,4)" + "%&") + (("mul[" + "3,7]!@^") + ("do_not_" + ("mul(5,5)+" + (("mul(32,64]" + "") + ("then(" + ("mul(11,8)" + "mul(8,5))"))))))

  /** The program text of the test `part2_example`. */
  const Example2: string :=
    ("xmul(2,4)" + "&") + (("mul[" + "3,7]!^") + ("don't()_" + ("mul(5,5)+" + (("mul(32,64]" + "(") + ("mul(11,8)" + ("undo()?" + "mul(8,5))"))))))

  /** The second half of both examples. */
  lemma ScanExampleTail(tail: string, toggles: bool)
    requires tail == "" || tail == "("
    ensures Scan(("mul(32,64]" + tail) + ("then(" + ("mul(11,8)" + "mul(8,5))")), toggles) == ["mul(11,8)", "mul(8,5)"]
  {
    var s7 := "mul(8,5))";
    ScanEnd(toggles);
    var s6 := "mul(11,8)" + s7;
    ScanPieceMul11x8(s7, toggles);
    var s5 := "then(" + s6;
    ScanPlain("then(", s6, toggles);
    ScanPieceBroken(tail, s5, toggles);
  }

  /** The `mul`s part 1 finds in its example. */
  lemma ScanExample1(toggles: bool)
    requires !toggles
    ensures Scan(Example1, toggles) == ["mul(2,4)", "mul(5,5)", "mul(11,8)", "mul(8,5)"]
  {
    var s4 := ("mul(32,64]" + "") + ("then(" + ("mul(11,8)" + "mul(8,5))"));
    ScanExampleTail("", toggles);
    ScanExample1Head(s4, toggles);
  }

  lemma ScanExample1Head(s4: string, toggles: bool)
    requires !toggles
    ensures Scan(("xmul(2,4)" + "%&") + (("mul[" + "3,7]!@^") + ("do_not_" + ("mul(5,5)+" + s4))), toggles)
      == ["mul(2,4)", "mul(5,5)"] + Scan(s4, toggles)
  {
    var s3 := "mul(5,5)+" + s4;
    ScanPieceMul5x5(s4, toggles);
    var s2 := "do_not_" + s3;
    ScanPlain("do_not_", s3, toggles);
    var s1 := ("mul[" + "3,7]!@^") + s2;
    ScanPieceBracket("3,7]!@^", s2, toggles);
    ScanPieceStart("%&", s1, toggles);
  }

  /** The instructions part 2 finds in its example. */
  lemma ScanExample2(toggles: bool)
    requires toggles
    ensures Scan(Example2, toggles) == ["mul(2,4)", "don't()", "mul(5,5)", "mul(11,8)", "do()", "mul(8,5)"]
  {
    var s7 := "mul(8,5))";
    ScanEnd(toggles);
    var s6 := "undo()?" + s7;
    ScanPieceDo(s7, toggles);
    var s5 := "mul(11,8)" + s6;
    ScanPieceMul11x8(s6, toggles);
    var s4 := ("mul(32,64]" + "(") + s5;
    ScanPieceBroken("(", s5, toggles);
    ScanExample2Head(s4, toggles);
  }

  lemma ScanExample2Head(s4: string, toggles: bool)
    requires toggles
    ensures Scan(("xmul(2,4)" + "&") + (("mul[" + "3,7]!^") + ("don't()_" + ("mul(5,5)+" + s4))), toggles)
      == ["mul(2,4)", "don't()", "mul(5,5)"] + Scan(s4, toggles)
  {
    var s3 := "mul(5,5)+" + s4;
    ScanPieceMul5x5(s4, toggles);
    var s2 := "don't()_" + s3;
    ScanPieceDont(s3, toggles);
    var s1 := ("mul[" + "3,7]!^") + s2;
    ScanPieceBracket("3,7]!^", s2, toggles);
    ScanPieceStart("&", s1, toggles);
  }

  /** The value of a `mul` written as one literal. */
  lemma MulValue(x: string, y: string, e: string)
    requires 1 <= |x| <= 3 && 1 <= |y| <= 3 && IsNumeral(x) && IsNumeral(y)
    requires e == "mul(" + x + "," + y + ")"
    ensures MulExpression(e) && ShortOperands(e)
    ensures EvalMul(e) == DecimalValue(x) * DecimalValue(y)
  {
    MulLiteral(x, y);
  }

  /** A `mul` of two one-digit numbers. */
  lemma SingleDigitProduct(e: string, v: nat)
    requires |e| == 8 && e[..4] == "mul(" && e[5] == ',' && e[7] == ')'
    requires IsDigit(e[4]) && IsDigit(e[6])
    requires v == DigitValue(e[4]) * DigitValue(e[6])
    ensures MulExpression(e) && ShortOperands(e) && EvalMul(e) == v
  {
    var x, y := e[4..5], e[6..7];
    assert x == [e[4]] && y == [e[6]];
    assert x[..0] == [] && y[..0] == [];
    MulFromParts(e, x, y);
  }

  lemma ElevenTimesEight(e: string)
    requires e == "mul(11,8)"
    ensures MulExpression(e) && ShortOperands(e) && EvalMul(e) == 88
  {
    assert e == "mul(" + "11" + "," + "8" + ")";
    MulValue("11", "8", e);
    assert DecimalValue("11") == 11 by {
      assert "11"[..1] == "1";
    }
  }

  /** The example's four `mul`s and their products. */
  lemma ExampleMuls(a: string, b: string, c: string, d: string)
    requires a == "mul(2,4)" && b == "mul(5,5)" && c == "mul(11,8)" && d == "mul(8,5)"
    ensures MulExpression(a) && ShortOperands(a) && EvalMul(a) == 8
    ensures MulExpression(b) && ShortOperands(b) && EvalMul(b) == 25
    ensures MulExpression(c) && ShortOperands(c) && EvalMul(c) == 88
    ensures MulExpression(d) && ShortOperands(d) && EvalMul(d) == 40
  {
    ExampleFirstMuls(a, b);
    ExampleLastMuls(c, d);
  }

  lemma ExampleFirstMuls(a: string, b: string)
    requires a == "mul(2,4)" && b == "mul(5,5)"
    ensures MulExpression(a) && ShortOperands(a) && EvalMul(a) == 8
    ensures MulExpression(b) && ShortOperands(b) && EvalMul(b) == 25
  {
    SingleDigitProduct(a, 8);
    SingleDigitProduct(b, 25);
  }

  lemma ExampleLastMuls(c: string, d: string)
    requires c == "mul(11,8)" && d == "mul(8,5)"
    ensures MulExpression(c) && ShortOperands(c) && EvalMul(c) == 88
    ensures MulExpression(d) && ShortOperands(d) && EvalMul(d) == 40
  {
    ElevenTimesEight(c);
    SingleDigitProduct(d, 40);
  }

  /** A `mul` in front adds its product. */
  lemma SumCons(e: string, rest: seq<string>)
    requires MulExpression(e) && ShortOperands(e) && ParsableMuls(rest)
    ensures ParsableMuls([e] + rest)
    ensures SumOfProducts([e] + rest) == EvalMul(e) + SumOfProducts(rest)
  {
    assert ([e] + rest)[1..] == rest;
  }

  /** Four `mul`s in a row sum to the sum of their products. */
  lemma SumOfFour(a: string, b: string, c: string, d: string)
    requires MulExpression(a) && ShortOperands(a) && MulExpression(b) && ShortOperands(b)
    requires MulExpression(c) && ShortOperands(c) && MulExpression(d) && ShortOperands(d)
    ensures ParsableMuls([a, b, c, d])
    ensures SumOfProducts([a, b, c, d]) == EvalMul(a) + EvalMul(b) + EvalMul(c) + EvalMul(d)
  {
    SumCons(d, []);
    assert [d] + [] == [d];
    SumCons(c, [d]);
    assert [c] + [d] == [c, d];
    SumCons(b, [c, d]);
    assert [b] + [c, d] == [b, c, d];
    SumCons(a, [b, c, d]);
    assert [a] + [b, c, d] == [a, b, c, d];
  }

  /** Test `part1_example`: the example program sums to 161. */
  lemma Part1Example()
    ensures ParsableMuls(Scan(Example1, false))
    ensures Part1(Example1) == 161
  {
    ScanExample1(false);
    ExampleMuls("mul(2,4)", "mul(5,5)", "mul(11,8)", "mul(8,5)");
    SumOfFour("mul(2,4)", "mul(5,5)", "mul(11,8)", "mul(8,5)");
  }

  /** Test `part2_example`: with the `don't()` and `do()` the example sums to 48. */
  lemma Part2Example()
    ensures ParsableMuls(Scan(Example2, true)) && FoldParsable(Scan(Example2, true), true)
    ensures Part2(Example2) == 48
  {
    ScanExample2(true);
    var a, b, c, d := "mul(2,4)", "mul(5,5)", "mul(11,8)", "mul(8,5)";
    ExampleMuls(a, b, c, d);
    FoldDontDo(a, "don't()", b, c, "do()", d);
  }

  /** `mul`, `don't()`, `mul`, `mul`, `do()`, `mul`: only the first and last products count. */
  lemma FoldDontDo(a: string, n: string, b: string, c: string, o: string, d: string)
    requires MulExpression(a) && ShortOperands(a) && MulExpression(b) && ShortOperands(b)
    requires MulExpression(c) && ShortOperands(c) && MulExpression(d) && ShortOperands(d)
    requires IsToggle(n) && n != "do()" && o == "do()"
    ensures ParsableMuls([a, n, b, c, o, d])
    ensures Fold([a, n, b, c, o, d], 0, true).0 == EvalMul(a) + EvalMul(d)
  {
    MulNotToggle(a);
    MulNotToggle(b);
    MulNotToggle(c);
    MulNotToggle(d);
    MulNotToggle(n);
    MulNotToggle(o);
    var ins := [a, n, b, c, o, d];
    var v := EvalMul(a);
    assert ParsableMuls(ins);
    FoldDisabledTail(ins, v);
    FoldStep(ins[1..], v, true);
    assert ins[1..][0] == n && ins[1..][1..] == ins[2..];
    assert Step(v, true, n) == (v, false);
  }

  /** After the `don't()`: two `mul`s are skipped, the `do()` re-enables, the last `mul` counts. */
  lemma FoldDisabledTail(ins: seq<string>, v: nat)
    requires |ins| == 6 && ParsableMuls(ins)
    requires !IsToggle(ins[2]) && !IsToggle(ins[3]) && ins[4] == "do()"
    requires MulExpression(ins[5]) && !IsToggle(ins[5])
    ensures Fold(ins[2..], v, false) == (v + EvalMul(ins[5]), true)
  {
    assert Fold(ins[5..], v, true) == (v + EvalMul(ins[5]), true);
    assert Fold(ins[4..], v, false) == (v + EvalMul(ins[5]), true);
    assert Fold(ins[3..], v, false) == (v + EvalMul(ins[5]), true);
  }
}
