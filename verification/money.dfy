/**
 * The money codec of a registration: amounts are stored as integer cents; a setter turns what
 * it is given into cents and a getter turns cents back into an amount in euros.
 */
module Money {
  import opened Wrappers
  import opened Digits

  /** What the `paid=` / `price=` setters can be handed: form text, a number, or `nil`. */
  datatype Amount = Text(s: string) | Number(x: real) | Nil

  /** Index of the first `c` in `s`, or `|s|` when there is none. */
  function FirstIndex(s: string, c: char): (i: nat)
    ensures i <= |s| && c !in s[..i]
    ensures i < |s| ==> s[i] == c
  {
    if s == [] then 0
    else if s[0] == c then 0
    else
      var i := 1 + FirstIndex(s[1..], c);
      assert s[..i] == [s[0]] + s[1..][..i - 1];
      i
  }

  /** `value.sub!(',', '.')`: the first comma, and only the first, becomes a dot. */
  function ReplaceFirstComma(s: string): (r: string)
    ensures |r| == |s|
    ensures forall k :: 0 <= k < |s| ==> r[k] == (if s[k] == ',' && ',' !in s[..k] then '.' else s[k])
  {
    var i := FirstIndex(s, ',');
    if i == |s| then s
    else
      var r := s[..i] + "." + s[i + 1..];
      assert forall k :: i < k < |s| ==> s[i] in s[..k];
      r
  }

  /** The characters Ruby's float scanner skips before a number. */
  predicate IsSpace(c: char) {
    c == ' ' || c == '\t' || c == '\n' || c == '\r' || c as int == 11 || c as int == 12
  }

  function SkipSpaces(s: string, i: nat): (j: nat)
    requires i <= |s|
    ensures i <= j <= |s|
    decreases |s| - i
  {
    if i < |s| && IsSpace(s[i]) then SkipSpaces(s, i + 1) else i
  }

  /** The decimal number found at the start of a string: a sign, whole digits, fraction digits. */
  datatype Literal = Literal(negative: bool, whole: string, fraction: string)

  /**
   * What `String#to_f` reads: leading white space, an optional sign, digits, and a fraction
   * when a dot is followed by a digit; the rest of the string is ignored.
   */
  function ScanFloat(s: string): (lit: Literal)
    ensures AllDigits(lit.whole) && AllDigits(lit.fraction)
  {
    var a := SkipSpaces(s, 0);
    var b := SignEnd(s, a);
    var c := DigitRunEnd(s, b);
    Literal(a < |s| && s[a] == '-', s[b..c], Fraction(s, c))
  }

  /** Past an optional sign at `a`. */
  function SignEnd(s: string, a: nat): (b: nat)
    requires a <= |s|
    ensures a <= b <= |s|
  {
    if a < |s| && (s[a] == '-' || s[a] == '+') then a + 1 else a
  }

  /** The fraction digits read at `c`: after a dot that a digit follows, up to the first non-digit. */
  function Fraction(s: string, c: nat): (f: string)
    requires c <= |s|
    ensures AllDigits(f)
  {
    if c + 1 < |s| && s[c] == '.' && IsDigit(s[c + 1]) then s[c + 1..DigitRunEnd(s, c + 1)] else ""
  }

  /** The exact number a literal denotes: its digits without the dot, over `10^k` for `k` decimals. */
  function Exact(lit: Literal): real
    requires AllDigits(lit.whole) && AllDigits(lit.fraction)
  {
    ValueAppend(lit.whole, lit.fraction);
    var magnitude := Value(lit.whole + lit.fraction) as real / Pow10(|lit.fraction|) as real;
    if lit.negative then -magnitude else magnitude
  }

  /** Truncation toward zero, as Ruby's `Float#to_int` does it. */
  function Trunc(x: real): int {
    if x >= 0.0 then x.Floor else -((-x).Floor)
  }

  /** The first two fraction digits, padded with zeros. */
  function TwoPlaces(fraction: string): (t: string)
    requires AllDigits(fraction)
    ensures |t| == 2 && AllDigits(t)
  {
    if |fraction| >= 2 then fraction[..2] else fraction + Zeros(2 - |fraction|)
  }

  /** Cents of a literal, read off its digits: whole part times 100 plus the first two decimals. */
  function Cents(lit: Literal): int
    requires AllDigits(lit.whole) && AllDigits(lit.fraction)
  {
    var magnitude := Value(lit.whole) * 100 + Value(TwoPlaces(lit.fraction));
    if lit.negative then -magnitude else magnitude
  }

  /**
   * `to_cents`: a string has its first comma turned into a dot and is read as a float; the
   * number is scaled by 100 and truncated toward zero. `nil` is not a string and reads as 0.0,
   * so it gives 0 cents. What a text gives is stated by `TextCentsTruncate` and `CommaAmountCents`.
   */
  function ToCents(a: Amount): (c: int)
    ensures a.Number? && a.x >= 0.0 ==> 0 <= c && c as real <= a.x * 100.0 < c as real + 1.0
    ensures a.Number? && a.x < 0.0 ==> c <= 0 && c as real - 1.0 < a.x * 100.0 <= c as real
    ensures a.Nil? ==> c == 0
  {
    match a
    case Text(s) => Cents(ScanFloat(ReplaceFirstComma(s)))
    case Number(x) => Trunc(x * 100.0)
    case Nil => 0
  }

  /** A string amount is the number `to_f` reads after the comma replacement, times 100, truncated. */
  lemma TextCentsTruncate(s: string)
    ensures ToCents(Text(s)) == Trunc(Exact(ScanFloat(ReplaceFirstComma(s))) * 100.0)
  {
    CentsIsTruncation(ScanFloat(ReplaceFirstComma(s)));
  }

  /** `from_cents`: a stored amount in euros, reading a missing amount as zero. */
  function FromCents(c: Option<int>): (x: real)
    ensures c.None? ==> x == 0.0
    ensures x * 100.0 == c.GetOr(0) as real
  {
    c.GetOr(0) as real / 100.0
  }

  /** The first two decimals bracket the whole fraction: `T / 100 <= F / 10^k < (T + 1) / 100`. */
  lemma TwoPlacesBounds(fraction: string)
    requires AllDigits(fraction)
    ensures Value(TwoPlaces(fraction)) * Pow10(|fraction|) <= Value(fraction) * 100
    ensures Value(fraction) * 100 < Value(TwoPlaces(fraction)) * Pow10(|fraction|) + Pow10(|fraction|)
  {
    if |fraction| >= 2 {
      LongFractionBounds(fraction);
    } else {
      ShortFractionExact(fraction);
    }
  }

  lemma LongFractionBounds(fraction: string)
    requires AllDigits(fraction) && |fraction| >= 2
    ensures Value(TwoPlaces(fraction)) * Pow10(|fraction|) <= Value(fraction) * 100
    ensures Value(fraction) * 100 < Value(TwoPlaces(fraction)) * Pow10(|fraction|) + Pow10(|fraction|)
  {
    var k := |fraction|;
    var head, rest := fraction[..2], fraction[2..];
    assert fraction == head + rest;
    assert TwoPlaces(fraction) == head;
    assert |rest| == k - 2;
    ValueAppend(head, rest);
    Pow10Add(2, k - 2);
    var q, p := Pow10(k - 2), Pow10(k);
    assert p == 100 * q by {
      assert Pow10(2) == 100;
    }
    SplitBounds(Value(head), q, Value(rest), Value(fraction), p);
  }

  /** With at most two decimals, padding to two decimals loses nothing. */
  lemma ShortFractionExact(fraction: string)
    requires AllDigits(fraction) && |fraction| <= 2
    ensures Value(TwoPlaces(fraction)) * Pow10(|fraction|) == Value(fraction) * 100
  {
    if |fraction| == 2 {
      TwoDecimals(fraction);
    } else if |fraction| == 1 {
      OneDecimal(fraction);
    } else {
      NoDecimals(fraction);
    }
  }

  lemma TwoDecimals(fraction: string)
    requires AllDigits(fraction) && |fraction| == 2
    ensures Value(TwoPlaces(fraction)) * Pow10(|fraction|) == Value(fraction) * 100
  {
    assert TwoPlaces(fraction) == fraction;
    assert Pow10(2) == 100;
  }

  lemma OneDecimal(fraction: string)
    requires AllDigits(fraction) && |fraction| == 1
    ensures Value(TwoPlaces(fraction)) * Pow10(|fraction|) == Value(fraction) * 100
  {
    assert TwoPlaces(fraction) == fraction + ['0'];
    ValueSnoc(fraction, '0');
    assert Pow10(1) == 10;
  }

  lemma NoDecimals(fraction: string)
    requires |fraction| == 0
    ensures AllDigits(fraction) && Value(TwoPlaces(fraction)) * Pow10(|fraction|) == Value(fraction) * 100
  {
    assert TwoPlaces(fraction) == ([] + ['0']) + ['0'];
    ValueSnoc([], '0');
    ValueSnoc([] + ['0'], '0');
  }

  /** With more than two decimals, the dropped digits are worth less than one cent. */
  lemma SplitBounds(t: nat, q: nat, r: nat, f: nat, p: nat)
    requires r < q && f == t * q + r && p == 100 * q
    ensures t * p <= f * 100 < t * p + p
  {
    assert f * 100 == t * p + r * 100;
  }

  lemma DivisionBounds(t: int, f: int, p: int)
    requires p > 0 && t * p <= f < t * p + p
    ensures t as real <= f as real / p as real < (t + 1) as real
  {
    var q := f as real / p as real;
    assert q * p as real == f as real;
    assert (t * p) as real == t as real * p as real;
  }

  lemma TruncOfBracket(n: nat, x: real)
    requires n as real <= x < (n + 1) as real
    ensures Trunc(x) == n && Trunc(-x) == -(n as int)
  {
  }

  /** Whole part and first two decimals bracket the scaled digits of the literal. */
  lemma ScaledBounds(w: nat, t: nat, f: nat, p: nat)
    requires p > 0 && t * p <= f * 100 < t * p + p
    ensures (w * 100 + t) * p <= (w * p + f) * 100 < (w * 100 + t) * p + p
  {
    assert (w * 100 + t) * p == w * 100 * p + t * p;
    assert (w * p + f) * 100 == w * 100 * p + f * 100;
  }

  /** Truncating `100 * n / p` where `n = w * p + f` keeps `w * 100` plus the cents of `f / p`. */
  lemma TruncOfRatio(w: nat, t: nat, f: nat, p: nat, n: nat)
    requires p > 0 && n == w * p + f && t * p <= f * 100 < t * p + p
    ensures Trunc((n as real / p as real) * 100.0) == w * 100 + t
    ensures Trunc(-(n as real / p as real) * 100.0) == -(w * 100 + t)
  {
    ScaledBounds(w, t, f, p);
    DivisionBounds(w * 100 + t, n * 100, p);
    var scaled := (n * 100) as real / p as real;
    assert scaled == (n as real / p as real) * 100.0;
    TruncOfBracket(w * 100 + t, scaled);
  }

  /** Reading cents off the digits is exactly truncating the scaled exact value. */
  lemma CentsIsTruncation(lit: Literal)
    requires AllDigits(lit.whole) && AllDigits(lit.fraction)
    ensures Cents(lit) == Trunc(Exact(lit) * 100.0)
  {
    ValueAppend(lit.whole, lit.fraction);
    TwoPlacesBounds(lit.fraction);
    TruncOfRatio(Value(lit.whole), Value(TwoPlaces(lit.fraction)), Value(lit.fraction),
      Pow10(|lit.fraction|), Value(lit.whole + lit.fraction));
  }

  /** A number of cents shown in euros and set again gives back the same cents. */
  lemma CentsRoundTrip(c: int)
    ensures ToCents(Number(FromCents(Some(c)))) == c
  {
    assert FromCents(Some(c)) * 100.0 == c as real;
  }

  /** An amount written with at most two decimals is stored without loss. */
  lemma TextRoundTrip(s: string)
    requires |ScanFloat(ReplaceFirstComma(s)).fraction| <= 2
    ensures FromCents(Some(ToCents(Text(s)))) == Exact(ScanFloat(ReplaceFirstComma(s)))
  {
    var lit := ScanFloat(ReplaceFirstComma(s));
    TextCentsTruncate(s);
    ShortFractionExact(lit.fraction);
    ValueAppend(lit.whole, lit.fraction);
    SameRatio(Value(lit.whole), Value(TwoPlaces(lit.fraction)), Value(lit.fraction),
      Pow10(|lit.fraction|), Value(lit.whole + lit.fraction));
  }

  lemma SameRatio(w: nat, t: nat, f: nat, p: nat, n: nat)
    requires p > 0 && n == w * p + f && t * p == f * 100
    ensures (w * 100 + t) as real / 100.0 == n as real / p as real
    ensures (-(w * 100 + t)) as real / 100.0 == -(n as real / p as real)
  {
    assert (w * 100 + t) * p == n * 100;
    assert ((w * 100 + t) * p) as real == (w * 100 + t) as real * p as real;
    assert (n * 100) as real == n as real * 100.0;
  }

  /** Text without any digit is read as zero cents: the setter never reports a malformed amount. */
  lemma NoDigitsNoCents(s: string)
    requires forall i :: 0 <= i < |s| ==> !IsDigit(s[i])
    ensures ToCents(Text(s)) == 0
  {
    var r := ReplaceFirstComma(s);
    assert forall i :: 0 <= i < |r| ==> !IsDigit(r[i]);
    var lit := ScanFloat(r);
    var a := SkipSpaces(r, 0);
    var b := SignEnd(r, a);
    assert DigitRunEnd(r, b) == b;
    assert lit.whole == [] && lit.fraction == [];
    assert TwoPlaces(lit.fraction) == Zeros(2);
    ValueOfZeros(2);
  }

  /**
   * Only the first comma is a decimal separator: a later comma ends the number, so "1,234,56" is
   * read as 1.234, i.e. 123 cents.
   */
  lemma OnlyFirstCommaCounts(w: string, f: string, g: string)
    requires AllDigits(w) && AllDigits(f) && |f| >= 1
    ensures ToCents(Text(w + "," + f + "," + g)) == Value(w) * 100 + Value(TwoPlaces(f))
  {
    assert w + "," + f + "," + g == "" + "" + w + "," + f + ("," + g);
    CommaAmountCents("", "", w, f, "," + g);
  }


  /** Skipping white space from `i` stops at the first character that is not white space. */
  lemma {:induction false} SkipSpacesOver(s: string, i: nat, j: nat)
    requires i <= j <= |s|
    requires forall k :: i <= k < j ==> IsSpace(s[k])
    requires j < |s| ==> !IsSpace(s[j])
    ensures SkipSpaces(s, i) == j
    decreases j - i
  {
    if i < j {
      SkipSpacesOver(s, i + 1, j);
    }
  }

  /** The characters `to_f` accepts in front of the digits. */
  predicate IsSign(sign: string) {
    sign == "" || sign == "-" || sign == "+"
  }

  /**
   * What `to_f` reads, by positions: white space up to `a`, a sign up to `b`, whole digits up to
   * `c`, and either nothing more (`c == e`) or a dot followed by fraction digits up to `e`.
   */
  lemma ScanAt(s: string, a: nat, b: nat, c: nat)
    requires a <= b <= c <= |s| && b <= a + 1
    requires forall k :: 0 <= k < a ==> IsSpace(s[k])
    requires a < |s| ==> !IsSpace(s[a])
    requires b == a + 1 <==> a < |s| && (s[a] == '-' || s[a] == '+')
    requires AllDigits(s[b..c]) && (c < |s| ==> !IsDigit(s[c]))
    ensures ScanFloat(s) == Literal(a < |s| && s[a] == '-', s[b..c], Fraction(s, c))
  {
    SkipSpacesOver(s, 0, a);
    DigitRunOver(s, b, c);
  }

  /** A dot followed by the digit run `s[c + 1..e]` is the fraction read at `c`. */
  lemma FractionAt(s: string, c: nat, e: nat)
    requires c + 1 < e <= |s| && s[c] == '.' && AllDigits(s[c + 1..e])
    requires e < |s| ==> !IsDigit(s[e])
    ensures Fraction(s, c) == s[c + 1..e]
  {
    assert s[c + 1] == s[c + 1..e][0];
    DigitRunOver(s, c + 1, e);
  }


  /**
   * `to_f` reads the number written at the start of the text: leading white space, an optional
   * sign, the whole digits and, after a dot, the fraction digits, up to the first non-digit.
   */
  lemma ScanWritten(pad: string, sign: string, w: string, f: string, rest: string)
    requires forall i :: 0 <= i < |pad| ==> IsSpace(pad[i])
    requires IsSign(sign) && AllDigits(w) && AllDigits(f) && |f| >= 1
    requires rest == [] || !IsDigit(rest[0])
    ensures ScanFloat(pad + sign + w + "." + f + rest) == Literal(sign == "-", w, f)
  {
    var s := pad + sign + w + "." + f + rest;
    var e := |pad| + |sign| + |w| + 1 + |f|;
    FractionLayout(pad, sign, w, f, rest);
    assert forall k :: 0 <= k < |pad| ==> IsSpace(s[k]) by {
      assert forall k :: 0 <= k < |pad| ==> s[k] == s[..|pad|][k];
    }
    assert e < |s| ==> !IsDigit(s[e]) by {
      assert e < |s| ==> s[e] == s[e..][0];
    }
    ScanParts(s, |pad|, sign, w, f);
  }

  /** `ScanWritten` on the positions of the parts in the text. */
  lemma ScanParts(s: string, a: nat, sign: string, w: string, f: string)
    requires IsSign(sign) && AllDigits(w) && AllDigits(f) && |f| >= 1
    requires a + |sign| + |w| + 1 + |f| <= |s|
    requires forall k :: 0 <= k < a ==> IsSpace(s[k])
    requires s[a..a + |sign|] == sign && s[a + |sign|..a + |sign| + |w|] == w && s[a + |sign| + |w|] == '.'
    requires s[a + |sign| + |w| + 1..a + |sign| + |w| + 1 + |f|] == f
    requires a + |sign| + |w| + 1 + |f| < |s| ==> !IsDigit(s[a + |sign| + |w| + 1 + |f|])
    ensures ScanFloat(s) == Literal(sign == "-", w, f)
  {
    var b := a + |sign|;
    var c := b + |w|;
    var e := c + 1 + |f|;
    assert !IsSpace(s[a]) && (b == a + 1 <==> s[a] == '-' || s[a] == '+') && (s[a] == '-' <==> sign == "-") by {
      if sign != "" {
        assert s[a] == s[a..b][0];
      } else if w != "" {
        assert s[a] == s[b..c][0];
      }
    }
    assert AllDigits(s[b..c]) && !IsDigit(s[c]) && AllDigits(s[c + 1..e]);
    FractionAt(s, c, e);
    ScanAt(s, a, b, c);
  }

  /** Where the parts of a written decimal number sit in the text. */
  lemma FractionLayout(pad: string, sign: string, w: string, f: string, rest: string)
    ensures var s, b := pad + sign + w + "." + f + rest, |pad| + |sign|;
      && s[..|pad|] == pad && s[|pad|..b] == sign && s[b..b + |w|] == w && s[b + |w|] == '.'
      && s[b + |w| + 1..b + |w| + 1 + |f|] == f && s[b + |w| + 1 + |f|..] == rest
  {
  }

  /**
   * The same without a fraction: the number ends at the first character that neither is a digit
   * nor starts a fraction.
   */
  lemma ScanWrittenWhole(pad: string, sign: string, w: string, rest: string)
    requires forall i :: 0 <= i < |pad| ==> IsSpace(pad[i])
    requires IsSign(sign) && AllDigits(w) && |w| >= 1
    requires rest == [] || (!IsDigit(rest[0]) && !(rest[0] == '.' && |rest| >= 2 && IsDigit(rest[1])))
    ensures ScanFloat(pad + sign + w + rest) == Literal(sign == "-", w, "")
  {
    var s := pad + sign + w + rest;
    var a, b := |pad|, |pad| + |sign|;
    var c := b + |w|;
    assert s[..a] == pad && s[a..b] == sign && s[b..c] == w && s[c..] == rest;
    assert forall k :: 0 <= k < a ==> IsSpace(s[k]) by {
      assert forall k :: 0 <= k < a ==> s[k] == s[..a][k];
    }
    assert !IsSpace(s[a]) && (b == a + 1 <==> s[a] == '-' || s[a] == '+') && (s[a] == '-' <==> sign == "-") by {
      if sign != "" {
        assert s[a] == s[a..b][0];
      } else {
        assert s[a] == s[b..c][0];
      }
    }
    assert (c < |s| ==> !IsDigit(s[c])) && Fraction(s, c) == "" by {
      if c < |s| {
        assert s[c] == s[c..][0];
        if c + 1 < |s| {
          assert s[c + 1] == s[c..][1];
        }
      }
    }
    ScanAt(s, a, b, c);
  }


  /**
   * Form input with a decimal comma: the first comma is the separator, so the amount is stored as
   * its whole euros and its first two decimals, in cents, with the sign written.
   */
  lemma CommaAmountCents(pad: string, sign: string, w: string, f: string, rest: string)
    requires forall i :: 0 <= i < |pad| ==> IsSpace(pad[i])
    requires IsSign(sign) && AllDigits(w) && AllDigits(f) && |f| >= 1
    requires rest == [] || !IsDigit(rest[0])
    ensures ToCents(Text(pad + sign + w + "," + f + rest))
         == var cents := Value(w) * 100 + Value(TwoPlaces(f)); if sign == "-" then -cents else cents
  {
    var s := pad + sign + w + "," + f + rest;
    assert ScanFloat(ReplaceFirstComma(s)) == Literal(sign == "-", w, f) by {
      CommaToDot(pad, sign, w, f, rest);
      ScanWritten(pad, sign, w, f, rest);
    }
    LiteralCents(s, Literal(sign == "-", w, f));
  }

  /** The cents of a text are the cents of the literal `to_f` reads from it once the comma is replaced. */
  lemma LiteralCents(s: string, lit: Literal)
    requires ScanFloat(ReplaceFirstComma(s)) == lit
    ensures AllDigits(lit.whole) && AllDigits(lit.fraction) && ToCents(Text(s)) == Cents(lit)
  {
  }

  /** White space, a sign and digits hold no comma, so the comma after them is the separator. */
  lemma CommaToDot(pad: string, sign: string, w: string, f: string, rest: string)
    requires forall i :: 0 <= i < |pad| ==> IsSpace(pad[i])
    requires IsSign(sign) && AllDigits(w)
    ensures ReplaceFirstComma(pad + sign + w + "," + f + rest) == pad + sign + w + "." + f + rest
  {
    var p := pad + sign + w;
    forall k | 0 <= k < |p|
      ensures p[k] != ','
    {
      if k < |pad| {
        assert p[k] == pad[k];
      } else if k < |pad| + |sign| {
        assert p[k] == sign[k - |pad|];
      } else {
        assert p[k] == w[k - |pad| - |sign|];
      }
    }
    ReplaceSeparator(p, f + rest);
    assert p + "," + (f + rest) == pad + sign + w + "," + f + rest;
    assert p + "." + (f + rest) == pad + sign + w + "." + f + rest;
  }

  /** With no comma before it, the separator written as a comma is the one that becomes a dot. */
  lemma ReplaceSeparator(p: string, q: string)
    requires ',' !in p
    ensures ReplaceFirstComma(p + "," + q) == p + "." + q
  {
    var s := p + "," + q;
    forall k | 0 <= k < |p|
      ensures s[k] != ','
    {
      assert s[k] == p[k];
    }
    FirstIndexAt(s, ',', |p|);
    assert s[..|p|] == p && s[|p| + 1..] == q;
  }

  /** The first occurrence is the position of a `c` with none before it. */
  lemma {:induction false} FirstIndexAt(s: string, c: char, j: nat)
    requires j < |s| && s[j] == c
    requires forall k :: 0 <= k < j ==> s[k] != c
    ensures FirstIndex(s, c) == j
  {
    if j > 0 {
      FirstIndexAt(s[1..], c, j - 1);
    }
  }
}
