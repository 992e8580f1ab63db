/**
 * EAN-13 barcodes (GS1 General Specifications, section 7.9; symbology ISO/IEC 15420): twelve
 * data digits followed by the standard modulo-10 check digit.
 */
module Barcodes {
  import opened Digits

  /** GS1's weights counted from the left of a full 13-digit code: 1, 3, 1, 3, ... */
  function Weight(i: nat): nat {
    if i % 2 == 0 then 1 else 3
  }

  /** Sum of the digits of `s` weighted by position from the left. */
  function WeightedSum(s: string): nat
    requires AllDigits(s)
  {
    if s == [] then 0
    else WeightedSum(s[..|s| - 1]) + Weight(|s| - 1) * DigitValue(s[|s| - 1])
  }

  /**
   * The check-digit calculation as GS1 states it: starting from the rightmost data digit,
   * weights 3 and 1 alternate (`w` is the weight of the rightmost digit of `s`).
   */
  function SumFromRight(s: string, w: nat): nat
    requires AllDigits(s)
  {
    if s == [] then 0
    else w * DigitValue(s[|s| - 1]) + SumFromRight(s[..|s| - 1], if w == 3 then 1 else 3)
  }

  /** The check digit: ten minus the weighted sum modulo ten, and zero when that is ten. */
  function CheckDigit(data: string): (d: nat)
    requires |data| == 12 && AllDigits(data)
    ensures d < 10
  {
    var m := SumFromRight(data, 3) % 10;
    if m == 0 then 0 else 10 - m
  }

  /** A 13-digit string whose left-weighted digit sum is a multiple of ten. */
  predicate IsValidEan13(code: string) {
    |code| == 13 && AllDigits(code) && WeightedSum(code) % 10 == 0
  }

  /** `Barby::EAN13.new(data).to_s`: the data followed by its check digit. */
  function Ean13(data: string): (code: string)
    requires |data| == 12 && AllDigits(data)
    ensures |code| == 13 && AllDigits(code) && code[..12] == data
    ensures code[12] == DigitChar(CheckDigit(data))
  {
    data + [DigitChar(CheckDigit(data))]
  }

  /** Counting weights from the right or from the left gives the same sum. */
  lemma {:induction false} RightSumIsLeftSum(s: string)
    requires 1 <= |s| && AllDigits(s)
    ensures SumFromRight(s, Weight(|s| - 1)) == WeightedSum(s)
  {
    var n := |s|;
    if n > 1 {
      assert (if Weight(n - 1) == 3 then 1 else 3) == Weight(n - 2);
      RightSumIsLeftSum(s[..n - 1]);
    } else {
      assert s[..0] == [];
    }
  }

  lemma WeightedSumAppend(s: string, c: char)
    requires AllDigits(s) && IsDigit(c)
    ensures AllDigits(s + [c]) && WeightedSum(s + [c]) == WeightedSum(s) + Weight(|s|) * DigitValue(c)
  {
    assert (s + [c])[..|s|] == s;
  }

  /** A generated barcode passes the EAN-13 validity check. */
  lemma Ean13IsValid(data: string)
    requires |data| == 12 && AllDigits(data)
    ensures IsValidEan13(Ean13(data))
  {
    RightSumIsLeftSum(data);
    WeightedSumAppend(data, DigitChar(CheckDigit(data)));
  }

  /** The check digit is the only digit that makes the data a valid EAN-13 code. */
  lemma CheckDigitUnique(data: string, d: nat)
    requires |data| == 12 && AllDigits(data) && d < 10
    requires IsValidEan13(data + [DigitChar(d)])
    ensures d == CheckDigit(data)
  {
    RightSumIsLeftSum(data);
    WeightedSumAppend(data, DigitChar(d));
    assert Weight(12) == 1 && DigitValue(DigitChar(d)) == d;
    OnlyComplementCompletes(WeightedSum(data), d);
  }

  /** The only digit that brings a sum to a multiple of ten is its complement modulo ten. */
  lemma OnlyComplementCompletes(sum: nat, d: nat)
    requires d < 10 && (sum + d) % 10 == 0
    ensures d == (if sum % 10 == 0 then 0 else 10 - sum % 10)
  {
    var q, m := sum / 10, sum % 10;
    assert sum + d == 10 * q + (m + d);
    assert (m + d) % 10 == 0;
  }

  /** Changing the digit at position `i` changes the weighted sum by the weighted difference. */
  lemma {:induction false} WeightedSumChange(s: string, i: nat, c: char)
    requires AllDigits(s) && i < |s| && IsDigit(c)
    ensures AllDigits(s[i := c])
    ensures WeightedSum(s[i := c]) + Weight(i) * DigitValue(s[i])
         == WeightedSum(s) + Weight(i) * DigitValue(c)
  {
    var t := s[i := c];
    if i == |s| - 1 {
      assert t[..|t| - 1] == s[..|s| - 1];
    } else {
      assert t[..|t| - 1] == s[..|s| - 1][i := c];
      WeightedSumChange(s[..|s| - 1], i, c);
    }
  }

  /** EAN-13 detects every single-digit substitution error. */
  lemma SingleErrorDetected(code: string, i: nat, c: char)
    requires IsValidEan13(code) && i < 13 && IsDigit(c) && c != code[i]
    ensures !IsValidEan13(code[i := c])
  {
    WeightedSumChange(code, i, c);
    var a, b := DigitValue(code[i]), DigitValue(c);
    assert a != b;
    WeightedDigitChange(WeightedSum(code), WeightedSum(code[i := c]), Weight(i), a, b);
  }

  /** A weight of 1 or 3 times a nonzero difference of two digits is never a multiple of ten. */
  lemma WeightedDigitChange(before: int, after: int, w: int, a: int, b: int)
    requires w == 1 || w == 3
    requires 0 <= a < 10 && 0 <= b < 10 && a != b
    requires after + w * a == before + w * b
    requires before % 10 == 0
    ensures after % 10 != 0
  {
    var d := w * (b - a);
    assert after == before + d;
    if w == 1 {
      assert -10 < d < 10 && d != 0;
    } else {
      assert d == 3 * (b - a);
      assert -30 < d < 30 && d != 0 && d != 10 && d != -10 && d != 20 && d != -20;
    }
  }
}
