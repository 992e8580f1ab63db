/**
 * Decimal digit strings: the digits Ruby's `%d` / `%0Nd` formatting prints, and the value
 * such a string denotes.
 */
module Digits {

  predicate IsDigit(c: char) {
    '0' <= c <= '9'
  }

  predicate AllDigits(s: string) {
    forall i :: 0 <= i < |s| ==> IsDigit(s[i])
  }

  function DigitChar(d: nat): (c: char)
    requires d < 10
    ensures IsDigit(c)
  {
    ('0' as int + d) as char
  }

  function DigitValue(c: char): (d: nat)
    requires IsDigit(c)
    ensures d < 10 && DigitChar(d) == c
  {
    c as int - '0' as int
  }

  function Pow10(n: nat): (p: nat)
    ensures p >= 1
  {
    if n == 0 then 1 else 10 * Pow10(n - 1)
  }

  /** The number a string of decimal digits denotes (leading zeros allowed). */
  function Value(s: string): (v: nat)
    requires AllDigits(s)
    ensures v < Pow10(|s|)
  {
    if s == [] then 0 else Value(s[..|s| - 1]) * 10 + DigitValue(s[|s| - 1])
  }

  /** Shortest decimal representation of `n`, as Ruby's `Integer#to_s` and `%d` print it. */
  function Show(n: nat): (s: string)
    ensures 1 <= |s| && AllDigits(s)
    ensures Value(s) == n
  {
    if n < 10 then [DigitChar(n)]
    else
      var s := Show(n / 10) + [DigitChar(n % 10)];
      assert s[..|s| - 1] == Show(n / 10);
      s
  }

  function Zeros(k: nat): (s: string)
    ensures |s| == k && AllDigits(s)
  {
    seq(k, _ => '0')
  }

  /** A digit string padded on the left with zeros up to `width` characters. */
  function Padded(d: string, width: nat): (s: string)
    requires AllDigits(d)
    ensures AllDigits(s)
  {
    if |d| < width then Zeros(width - |d|) + d else d
  }

  /** `format("%0<width>d", n)`: `n` in decimal, padded on the left with zeros up to `width`. */
  function ZeroPad(n: nat, width: nat): (s: string)
    ensures AllDigits(s)
  {
    Padded(Show(n), width)
  }

  lemma {:induction false} ValueOfZeros(k: nat)
    ensures Value(Zeros(k)) == 0
  {
    if k > 0 {
      assert Zeros(k)[..k - 1] == Zeros(k - 1);
      ValueOfZeros(k - 1);
    }
  }

  /** Leading zeros do not change the value of a digit string. */
  lemma {:induction false} LeadingZeros(k: nat, s: string)
    requires AllDigits(s)
    ensures AllDigits(Zeros(k) + s) && Value(Zeros(k) + s) == Value(s)
  {
    if s == [] {
      assert Zeros(k) + s == Zeros(k);
      ValueOfZeros(k);
    } else {
      var t := Zeros(k) + s;
      assert t[..|t| - 1] == Zeros(k) + s[..|s| - 1];
      LeadingZeros(k, s[..|s| - 1]);
    }
  }

  /** `Show(n)` fits in `w` characters exactly when `n < 10^w`. */
  lemma {:induction false} ShowFits(n: nat, w: nat)
    requires 1 <= w
    ensures |Show(n)| <= w <==> n < Pow10(w)
  {
    if n >= 10 {
      assert |Show(n)| == |Show(n / 10)| + 1;
      if w == 1 {
        assert |Show(n / 10)| >= 1;
      } else {
        ShowFits(n / 10, w - 1);
        assert n / 10 < Pow10(w - 1) <==> n < 10 * Pow10(w - 1);
      }
    }
  }

  /** The zero-padded form of a number below `10^width` has exactly `width` digits and denotes it. */
  lemma PaddedDigits(n: nat, width: nat)
    requires 1 <= width && n < Pow10(width)
    ensures |ZeroPad(n, width)| == width && Value(ZeroPad(n, width)) == n
  {
    ShowFits(n, width);
    PaddingKeepsValue(Show(n), width);
  }

  /** Padding a string of at most `width` digits gives exactly `width` digits of the same value. */
  lemma PaddingKeepsValue(d: string, width: nat)
    requires AllDigits(d) && |d| <= width
    ensures |Padded(d, width)| == width && Value(Padded(d, width)) == Value(d)
  {
    var p := Padded(d, width);
    if |d| < width {
      var z := Zeros(width - |d|);
      assert p == z + d && |z + d| == width;
      LeadingZeros(width - |d|, d);
    } else {
      assert p == d;
    }
  }

  /** The value of a concatenation: the left part shifted by the length of the right part. */
  lemma {:induction false} ValueAppend(a: string, b: string)
    requires AllDigits(a) && AllDigits(b)
    ensures AllDigits(a + b) && Value(a + b) == Value(a) * Pow10(|b|) + Value(b)
  {
    if b == [] {
      assert a + b == a;
    } else {
      var init, c := b[..|b| - 1], b[|b| - 1];
      assert b == init + [c];
      assert a + b == (a + init) + [c];
      ValueAppend(a, init);
      ValueSnoc(a + init, c);
      ValueSnoc(init, c);
      ShiftOneDigit(Value(a), Value(init), Pow10(|init|), DigitValue(c));
    }
  }

  /** Appending one digit: the value shifts by one place and the digit is added. */
  lemma ValueSnoc(s: string, c: char)
    requires AllDigits(s) && IsDigit(c)
    ensures AllDigits(s + [c]) && Value(s + [c]) == Value(s) * 10 + DigitValue(c)
  {
    assert (s + [c])[..|s|] == s;
  }

  /** Appending one digit to both sides of `a * p + b` multiplies the shift by ten. */
  lemma ShiftOneDigit(a: nat, b: nat, p: nat, d: nat)
    ensures (a * p + b) * 10 + d == a * (10 * p) + (b * 10 + d)
  {
    assert (a * p) * 10 == a * (10 * p);
  }

  lemma {:induction false} Pow10Add(m: nat, n: nat)
    ensures Pow10(m + n) == Pow10(m) * Pow10(n)
  {
    if n > 0 {
      Pow10Add(m, n - 1);
      assert Pow10(m + n) == 10 * (Pow10(m) * Pow10(n - 1));
    }
  }

  /** End of the maximal run of digits in `s` that starts at `j` (a greedy `\d+`). */
  function DigitRunEnd(s: string, j: nat): (k: nat)
    requires j <= |s|
    ensures j <= k <= |s| && AllDigits(s[j..k])
    ensures k < |s| ==> !IsDigit(s[k])
    decreases |s| - j
  {
    if j < |s| && IsDigit(s[j]) then
      var k := DigitRunEnd(s, j + 1);
      assert s[j..k] == [s[j]] + s[j + 1..k];
      k
    else j
  }

  /** The digit run from `j` covers a stretch of digits that ends at `k` before a non-digit. */
  lemma {:induction false} DigitRunOver(s: string, j: nat, k: nat)
    requires j <= k <= |s| && AllDigits(s[j..k])
    requires k < |s| ==> !IsDigit(s[k])
    ensures DigitRunEnd(s, j) == k
    decreases k - j
  {
    if j < k {
      assert s[j] == s[j..k][0];
      assert s[j + 1..k] == s[j..k][1..];
      DigitRunOver(s, j + 1, k);
    }
  }
}
