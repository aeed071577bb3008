/** The card-number check of src/common/logging/redact.ts against Annex B of ISO/IEC 7812-1. */
module Luhn {
  predicate IsDigit(c: char) {
    '0' <= c <= '9'
  }

  predicate AllDigits(s: string) {
    forall i :: 0 <= i < |s| ==> IsDigit(s[i])
  }

  function Value(c: char): int {
    c as int - 48
  }

  /** Annex B: a doubled digit contributes the sum of the decimal digits of its double. */
  function Weight(d: int, doubled: bool): int {
    if doubled then 2 * d / 10 + 2 * d % 10 else d
  }

  /** Annex B, from the right; `doubled` says whether the rightmost digit of `s` is a doubled one. */
  function AnnexB(s: string, doubled: bool): int {
    if s == "" then 0
    else Weight(Value(s[|s| - 1]), doubled) + AnnexB(s[..|s| - 1], !doubled)
  }

  predicate Passes(s: string) {
    AllDigits(s) && AnnexB(s, false) % 10 == 0
  }

  /** The sum of the digits of a two-digit double is the double less nine. */
  lemma WeightIs(d: int, doubled: bool)
    requires 0 <= d <= 9
    ensures Weight(d, doubled) == if !doubled then d else if d * 2 > 9 then d * 2 - 9 else d * 2
  {
    assert d < 5 ==> 2 * d / 10 == 0 && 2 * d % 10 == 2 * d;
    assert d >= 5 ==> 2 * d / 10 == 1 && 2 * d % 10 == 2 * d - 10;
  }

  /** One character of the loop: what it takes from the sum still owed. */
  lemma LastCharacter(s: string, doubled: bool)
    requires s != ""
    ensures AnnexB(s, doubled) == Weight(Value(s[|s| - 1]), doubled) + AnnexB(s[..|s| - 1], !doubled)
  {
  }

  method PassesLuhn(digits: string) returns (ok: bool)
    ensures ok <==> Passes(digits)
  {
    var sum := 0;
    var double := false;
    var i := |digits| - 1;
    assert digits[..i + 1] == digits;
    assert AnnexB("", true) == AnnexB("", false) == 0;
    hide Weight, AnnexB;
    while i >= 0
      invariant -1 <= i < |digits|
      invariant forall k :: i < k < |digits| ==> IsDigit(digits[k])
      invariant sum + AnnexB(digits[..i + 1], double) == AnnexB(digits, false)
    {
      var d := digits[i] as int - 48;
      if d < 0 || d > 9 {
        return false;
      }
      assert digits[..i + 1][..i] == digits[..i];
      LastCharacter(digits[..i + 1], double);
      WeightIs(d, double);
      if double {
        d := d * 2;
        if d > 9 {
          d := d - 9;
        }
      }
      sum := sum + d;
      double := !double;
      i := i - 1;
    }
    assert digits[..i + 1] == "";
    return sum % 10 == 0;
  }

  /** Whether the digit at `i` is doubled, counting from the right end of a string of length `n`. */
  predicate DoubledAt(n: nat, i: nat, doubled: bool)
    requires i < n
  {
    doubled == ((n - 1 - i) % 2 == 0)
  }

  /** Replacing one character moves the sum by the difference of the two weights at that place. */
  lemma {:induction false} ReplaceOne(s: string, i: nat, c: char, doubled: bool)
    requires i < |s|
    ensures AnnexB(s[i := c], doubled)
         == AnnexB(s, doubled) - Weight(Value(s[i]), DoubledAt(|s|, i, doubled))
             + Weight(Value(c), DoubledAt(|s|, i, doubled))
  {
    hide Weight, Value;
    var n := |s| - 1;
    var t := s[i := c];
    if i == n {
      assert t[..n] == s[..n];
    } else {
      assert DoubledAt(n, i, !doubled) == DoubledAt(|s|, i, doubled);
      ReplaceOne(s[..n], i, c, !doubled);
      assert t[..n] == s[..n][i := c];
    }
  }

  /** Away from a multiple of ten by less than ten means away from every multiple of ten. */
  lemma ShiftedMultiple(sum: int, shift: int)
    requires sum % 10 == 0 && -9 <= shift <= 9
    ensures (sum + shift) % 10 == 0 <==> shift == 0
  {
  }

  /** Ten digits, ten different weights between 0 and 9, doubled or not. */
  lemma WeightsDiffer(d: int, e: int, doubled: bool)
    requires 0 <= d <= 9 && 0 <= e <= 9
    ensures 0 <= Weight(d, doubled) <= 9
    ensures Weight(d, doubled) == Weight(e, doubled) <==> d == e
  {
    assert Weight(d, true) == if d < 5 then 2 * d else 2 * d - 9;
    assert Weight(e, true) == if e < 5 then 2 * e else 2 * e - 9;
  }

  /** Every single-digit error in a passing number is caught. */
  lemma SingleDigitErrorCaught(s: string, i: nat, c: char)
    requires Passes(s) && i < |s| && IsDigit(c) && c != s[i]
    ensures !Passes(s[i := c])
  {
    var doubled := DoubledAt(|s|, i, false);
    ReplaceOne(s, i, c, false);
    WeightsDiffer(Value(c), Value(s[i]), doubled);
    WeightsDiffer(Value(s[i]), Value(c), doubled);
    ShiftedMultiple(AnnexB(s, false), Weight(Value(c), doubled) - Weight(Value(s[i]), doubled));
  }

  /** What a digit gains by moving from a plain place to a doubled one. */
  lemma GainsDiffer(d: int, e: int)
    requires 0 <= d <= 9 && 0 <= e <= 9
    ensures -4 <= Weight(d, true) - d <= 4
    ensures Weight(d, true) - d == Weight(e, true) - e <==> d == e || (d == 0 && e == 9) || (d == 9 && e == 0)
  {
    assert Weight(d, true) == if d < 5 then 2 * d else 2 * d - 9;
    assert Weight(e, true) == if e < 5 then 2 * e else 2 * e - 9;
  }

  /** Swapping neighbours goes unnoticed exactly when they are equal or are a 0 and a 9. */
  lemma SwapCaught(s: string, i: nat)
    requires Passes(s) && i + 1 < |s|
    ensures Passes(s[i := s[i + 1]][i + 1 := s[i]])
       <==> s[i] == s[i + 1] || (s[i] == '0' && s[i + 1] == '9') || (s[i] == '9' && s[i + 1] == '0')
  {
    var a, b := s[i], s[i + 1];
    var half := s[i := b];
    var swapped := half[i + 1 := a];
    ReplaceOne(s, i, b, false);
    ReplaceOne(half, i + 1, a, false);
    GainsDiffer(Value(a), Value(b));
    GainsDiffer(Value(b), Value(a));
    SwapShift(s, i, AnnexB(half, false) - AnnexB(s, false), AnnexB(swapped, false) - AnnexB(half, false));
    ShiftedMultiple(AnnexB(s, false), AnnexB(swapped, false) - AnnexB(s, false));
  }

  /** Of the two places one is doubled, so the two shifts add up to a difference of gains. */
  lemma SwapShift(s: string, i: nat, first: int, second: int)
    requires i + 1 < |s|
    requires first == Weight(Value(s[i + 1]), DoubledAt(|s|, i, false)) - Weight(Value(s[i]), DoubledAt(|s|, i, false))
    requires second == Weight(Value(s[i]), DoubledAt(|s|, i + 1, false))
      - Weight(Value(s[i + 1]), DoubledAt(|s|, i + 1, false))
    ensures var gain := Weight(Value(s[i + 1]), true) - Value(s[i + 1]) - (Weight(Value(s[i]), true) - Value(s[i]));
      first + second == gain || first + second == -gain
  {
    assert DoubledAt(|s|, i, false) == !DoubledAt(|s|, i + 1, false);
  }

  /** Every payload of digits is completed by exactly one check digit. */
  lemma OneCheckDigit(s: string, c: char)
    requires AllDigits(s) && IsDigit(c)
    ensures Passes(s + [c]) <==> Value(c) == (10 - AnnexB(s, true) % 10) % 10
  {
    assert (s + [c])[..|s|] == s;
    CompletesTo(Value(c), AnnexB(s, true));
    hide Weight;
  }

  /** Below ten, one summand alone brings a sum up to a multiple of ten. */
  lemma CompletesTo(d: int, sum: int)
    requires 0 <= d <= 9
    ensures (d + sum) % 10 == 0 <==> d == (10 - sum % 10) % 10
  {
  }

  /** Which end the doubling starts from, and what a double of ten or more counts. */
  lemma ShortNumbers()
    ensures Passes("18") && !Passes("81") && Passes("59") && !Passes("95") && Passes("0") && !Passes("5")
  {
    TwoDigits('1', '8');
    TwoDigits('8', '1');
    TwoDigits('5', '9');
    TwoDigits('9', '5');
  }

  lemma TwoDigits(a: char, b: char)
    requires IsDigit(a) && IsDigit(b)
    ensures AllDigits([a, b])
    ensures AnnexB([a, b], false) == Weight(Value(a), true) + Weight(Value(b), false)
  {
    LastCharacter([a, b], false);
    LastCharacter([a], true);
    assert [a, b][..1] == [a] && [a][..0] == "" && AnnexB("", false) == 0;
  }
}
