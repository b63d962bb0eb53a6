/**
 * The shared number parser of src/lib.rs (copied verbatim in src/day01.rs):
 * the value of a string of one to five ASCII digits, computed as a sum of
 * digit * power-of-ten terms looked up in a five-entry table; and the
 * `abs_diff` that day 1 and day 2 both use.
 */
module Digits {

  /** The lookup table `POWERS_OF_10`. */
  const PowersOf10: seq<nat> := [1, 10, 100, 1000, 10000]

  /** Ten to the power `k`. */
  function Pow10(k: nat): (p: nat)
    ensures p >= 1
  {
    if k == 0 then 1 else 10 * Pow10(k - 1)
  }

  /** Entry k of the table is 10^k. */
  lemma PowersOf10AreTenToTheK()
    ensures |PowersOf10| == 5
    ensures forall k :: 0 <= k < |PowersOf10| ==> PowersOf10[k] == Pow10(k)
  {
    assert Pow10(4) == 10000 && Pow10(3) == 1000 && Pow10(2) == 100 && Pow10(1) == 10;
  }

  predicate IsDigit(ch: char)
  {
    '0' <= ch <= '9'
  }

  /** Every character is an ASCII digit. */
  predicate IsNumeral(s: string)
  {
    forall i :: 0 <= i < |s| ==> IsDigit(s[i])
  }

  /** `c - 48`: the value of one digit. */
  function DigitValue(ch: char): (v: nat)
    requires IsDigit(ch)
    ensures v < 10
  {
    ch as int - '0' as int
  }

  /** The decimal value of a digit string, read left to right (Horner's rule). */
  function DecimalValue(s: string): nat
    requires IsNumeral(s)
  {
    if s == [] then 0 else 10 * DecimalValue(s[..|s| - 1]) + DigitValue(s[|s| - 1])
  }

  /** The inputs on which the parser yields the decimal value: one to five
      ASCII digits. Outside them `val.len() - 1` underflows on the empty
      string, a sixth character indexes past the table, and a non-digit
      byte gives a meaningless term (or underflows in `c - 48` when it lies
      below `'0'`). */
  predicate IsShortNumeral(s: string)
  {
    1 <= |s| <= 5 && IsNumeral(s)
  }

  /** `parse_number`: the sum over the digits of digit * POWERS_OF_10[len - 1 - n]. */
  function ParseNumber(val: string): (n: nat)
    requires IsShortNumeral(val)
    ensures n == DecimalValue(val)
    ensures n < Pow10(|val|)
  {
    DigitTermsFrom(val, 0)
  }

  /** The terms for the digits at index `from` and after, summed. */
  function DigitTermsFrom(val: string, from: nat): (sum: nat)
    requires IsShortNumeral(val) && from <= |val|
    ensures sum == DecimalValue(val[from..])
    ensures DecimalValue(val[from..]) < Pow10(|val| - from)
    decreases |val| - from
  {
    if from == |val| then 0
    else
      var rest := DigitTermsFrom(val, from + 1);
      PowersOf10AreTenToTheK();
      LeadingDigit(val[from..]);
      assert val[from..][1..] == val[from + 1..];
      DigitValue(val[from]) * PowersOf10[|val| - 1 - from] + rest
  }

  /** Reading the first digit separately: it weighs 10^(len - 1). */
  lemma {:induction false} LeadingDigit(s: string)
    requires IsNumeral(s) && s != []
    ensures DecimalValue(s) == DigitValue(s[0]) * Pow10(|s| - 1) + DecimalValue(s[1..])
    ensures DecimalValue(s) < Pow10(|s|)
    decreases |s|
  {
    if |s| == 1 {
      assert s[..0] == [];
    } else {
      var init := s[..|s| - 1];
      LeadingDigit(init);
      assert init[1..] == s[1..][..|s| - 2];
      assert init[0] == s[0];
      assert s[1..][|s| - 2] == s[|s| - 1];
      var a, p, t, last := DigitValue(s[0]), Pow10(|s| - 2), DecimalValue(init[1..]), DigitValue(s[|s| - 1]);
      assert DecimalValue(s[1..]) == 10 * t + last;
      assert Pow10(|s| - 1) == 10 * p;
      Regroup(a, p, t, last, DecimalValue(init));
    }
  }

  lemma Regroup(a: nat, p: nat, t: nat, last: nat, init: nat)
    requires init == a * p + t && init < 10 * p && last < 10
    ensures 10 * init + last == a * (10 * p) + (10 * t + last)
    ensures 10 * init + last < 10 * (10 * p)
  {
  }

  /** Leading zeros do not change the value. */
  lemma LeadingZeroIgnored(s: string)
    requires IsNumeral(s) && |s| <= 4
    ensures IsShortNumeral("0" + s)
    ensures ParseNumber("0" + s) == DecimalValue(s)
  {
    LeadingDigit("0" + s);
    assert ("0" + s)[1..] == s;
  }

  /** The example of the test `hand_parsing` in src/day01.rs. */
  lemma HandParsing()
    ensures IsShortNumeral("91527") && ParseNumber("91527") == 91527
  {
    assert DecimalValue("9152") == 9152 by {
      assert DecimalValue("915") == 915 by {
        assert DecimalValue("91") == 91 by {
          assert "91"[..1] == "9";
          assert "9"[..0] == "";
        }
        assert "915"[..2] == "91";
      }
      assert "9152"[..3] == "915";
    }
    assert "91527"[..4] == "9152";
  }

  /** `abs_diff` on two levels or location IDs (src/day01.rs and src/day02.rs). */
  function AbsDiff(a: nat, b: nat): nat
  {
    if a < b then b - a else a - b
  }
}
