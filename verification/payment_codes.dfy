/**
 * Payment codes: the reference a registrant quotes on a bank transfer, and the scan that finds
 * such a reference again in a line of a bank statement.
 */
module PaymentCodes {
  import opened Wrappers
  import opened Digits

  const Prefix: string := "GAN"

  /** The size of the space `rand(10**15)` draws from. */
  function Space(): nat {
    Pow10(15)
  }

  /**
   * `format("GAN%<check>02d%<number>015d", check: r % 97, number: r)` for a random draw
   * `r < 10^15`: the prefix, a two-digit check pair, then `r` in fifteen digits.
   */
  function CreatePaymentCode(r: nat): (code: string)
    requires r < Space()
    ensures |code| == 20 && code[..3] == Prefix && AllDigits(code[3..])
    ensures Value(code[5..]) == r
    ensures Value(code[3..5]) == Value(code[5..]) % 97
  {
    PaddedDigits(r % 97, 2);
    PaddedDigits(r, 15);
    var check, number := ZeroPad(r % 97, 2), ZeroPad(r, 15);
    var digits := check + number;
    var code := Prefix + digits;
    assert code[3..] == digits && digits[..2] == check && digits[2..] == number;
    assert code[3..5] == check && code[5..] == number;
    code
  }

  /** Distinct draws give distinct codes, so a collision means the same draw came up twice. */
  lemma CreatePaymentCodeInjective(r1: nat, r2: nat)
    requires r1 < Space() && r2 < Space()
    requires CreatePaymentCode(r1) == CreatePaymentCode(r2)
    ensures r1 == r2
  {
  }

  /** `/GAN\d+/` can start matching at index `i` of `line`. */
  predicate MatchesAt(line: string, i: nat) {
    i + 3 < |line| && line[i..i + 3] == Prefix && IsDigit(line[i + 3])
  }

  /** The leftmost index at or after `from` where `/GAN\d+/` matches. */
  function LeftmostMatch(line: string, from: nat): (m: Option<nat>)
    requires from <= |line|
    ensures m.Some? ==> from <= m.value && MatchesAt(line, m.value)
    ensures m.Some? ==> forall j :: from <= j < m.value ==> !MatchesAt(line, j)
    ensures m.None? ==> forall j :: from <= j ==> !MatchesAt(line, j)
    decreases |line| - from
  {
    if from == |line| then None
    else if MatchesAt(line, from) then Some(from)
    else LeftmostMatch(line, from + 1)
  }

  /**
   * `/GAN\d+/.match(csvline)[0]`: the leftmost occurrence of the prefix followed by a digit,
   * extended over every digit that follows; `None` when the line holds no such occurrence.
   */
  function ExtractPaymentCode(line: string): (m: Option<string>)
    ensures m.None? <==> forall i :: !MatchesAt(line, i)
    ensures m.Some? ==> exists i: nat :: IsLeftmostMatch(line, i) && m.value == line[i..DigitRunEnd(line, i + 3)]
  {
    match LeftmostMatch(line, 0)
    case None => None
    case Some(i) =>
      var code := line[i..DigitRunEnd(line, i + 3)];
      assert IsLeftmostMatch(line, i);
      Some(code)
  }

  ghost predicate IsLeftmostMatch(line: string, i: nat) {
    MatchesAt(line, i) && forall j :: 0 <= j < i ==> !MatchesAt(line, j)
  }

  /** A leftmost match is unique, so the extraction above is determined by the line. */
  lemma LeftmostMatchUnique(line: string, i: nat, j: nat)
    requires IsLeftmostMatch(line, i) && IsLeftmostMatch(line, j)
    ensures i == j
  {
  }

  /** No match starts inside `before` when `before` has none and a code follows it. */
  lemma NoMatchBeforeCode(before: string, code: string, after: string, j: nat)
    requires |code| == 20 && code[..3] == Prefix
    requires ExtractPaymentCode(before).None?
    requires j < |before|
    ensures !MatchesAt(before + code + after, j)
  {
    var line := before + code + after;
    var n := |before|;
    if j + 3 < n {
      assert line[j..j + 3] == before[j..j + 3];
      assert line[j + 3] == before[j + 3];
      assert !MatchesAt(before, j);
    } else {
      assert line[j + 3] == code[j + 3 - n];
      assert code[j + 3 - n] == code[..3][j + 3 - n];
    }
  }

  /**
   * A generated code quoted in a bank-statement line is found again, exactly: provided nothing
   * before it already looks like a code and it is not directly followed by another digit.
   */
  lemma FindsQuotedCode(before: string, r: nat, after: string)
    requires r < Space()
    requires ExtractPaymentCode(before).None?
    requires after == [] || !IsDigit(after[0])
    ensures ExtractPaymentCode(before + CreatePaymentCode(r) + after) == Some(CreatePaymentCode(r))
  {
    var code := CreatePaymentCode(r);
    var line := before + code + after;
    var n := |before|;
    forall j | 0 <= j < n
      ensures !MatchesAt(line, j)
    {
      NoMatchBeforeCode(before, code, after, j);
    }
    assert line[n..n + 20] == code;
    assert code[3] == code[3..][0];
    assert line[n..n + 3] == code[..3];
    assert MatchesAt(line, n);
    assert IsLeftmostMatch(line, n);
    assert line[n + 3..n + 20] == code[3..];
    DigitRunOver(line, n + 3, n + 20);
    var m := ExtractPaymentCode(line);
    var i: nat :| IsLeftmostMatch(line, i) && m.value == line[i..DigitRunEnd(line, i + 3)];
    LeftmostMatchUnique(line, i, n);
  }
}
