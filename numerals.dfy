/**
 * The validity gates of the numeric token parsers in base/parser.ts, written as predicates on
 * strings, and the integer a valid numeral denotes. `\d` is an ASCII digit (no `u` flag).
 */
module Numerals {

  /** An ASCII digit, what `\d` matches. */
  predicate IsDigit(c: char) {
    '0' <= c <= '9'
  }

  /** Every character is a digit (the empty string included). */
  predicate AllDigits(s: string) {
    forall i :: 0 <= i < |s| ==> IsDigit(s[i])
  }

  /** `\d+`: one or more ASCII digits. */
  predicate IsDigits(s: string) {
    |s| > 0 && AllDigits(s)
  }

  /** `^-?\d+$`, the gate of `integer` and `bigint`. */
  predicate IsIntegerFormat(s: string) {
    IsDigits(s) || (|s| > 0 && s[0] == '-' && IsDigits(s[1..]))
  }

  /** `\d+(\.\d+)?`: digits with at most one fractional part. */
  predicate IsUnsignedDecimal(u: string) {
    IsDigits(u) || exists k :: 0 < k < |u| && u[k] == '.' && IsDigits(u[..k]) && IsDigits(u[k + 1..])
  }

  /** `^-?\d+(\.\d+)?$`, the gate of `decimal`. */
  predicate IsDecimalFormat(s: string) {
    IsUnsignedDecimal(s) || (|s| > 0 && s[0] == '-' && IsUnsignedDecimal(s[1..]))
  }

  /** The value of one ASCII digit. */
  function DigitValue(c: char): (d: nat)
    requires IsDigit(c)
    ensures d < 10
  {
    c as int - '0' as int
  }

  /** The natural number a digit string denotes, most significant digit first. */
  function DigitsValue(s: string): nat
    requires AllDigits(s)
    decreases |s|
  {
    if |s| == 0 then 0 else 10 * DigitsValue(s[..|s| - 1]) + DigitValue(s[|s| - 1])
  }

  /** The integer a numeral accepted by the integer gate denotes. */
  function IntegerValue(s: string): int
    requires IsIntegerFormat(s)
  {
    if s[0] == '-' then -(DigitsValue(s[1..]) as int) else DigitsValue(s)
  }

  /** The ASCII digit of a value below ten. */
  function DigitChar(d: nat): (c: char)
    requires d < 10
    ensures IsDigit(c) && DigitValue(c) == d
  {
    ('0' as int + d) as char
  }

  /** The decimal numeral of a natural number, without leading zeros. */
  function RenderNat(n: nat): (s: string)
    ensures IsDigits(s)
    decreases n
  {
    if n < 10 then [DigitChar(n)] else RenderNat(n / 10) + [DigitChar(n % 10)]
  }

  /** The decimal numeral of an integer `n`, with a leading `-` when it is negative. */
  function Render(n: int): string {
    if n < 0 then "-" + RenderNat(-n) else RenderNat(n)
  }

  /** A run of `k` zero digits. */
  function Zeros(k: nat): (z: string)
    ensures |z| == k && AllDigits(z)
  {
    seq(k, _ => '0')
  }

  /** A natural number's numeral denotes that number. */
  lemma {:induction false} RenderNatValue(n: nat)
    ensures DigitsValue(RenderNat(n)) == n
  {
    if n >= 10 {
      RenderNatValue(n / 10);
      var s := RenderNat(n);
      assert s[..|s| - 1] == RenderNat(n / 10);
    }
  }

  /** Every integer's numeral passes the integer gate and denotes that integer again. */
  lemma RenderRoundTrip(n: int)
    ensures IsIntegerFormat(Render(n)) && IntegerValue(Render(n)) == n
  {
    var s := Render(n);
    if n < 0 {
      RenderNatValue(-n);
      assert s[1..] == RenderNat(-n);
    } else {
      RenderNatValue(n);
    }
  }

  /** A run of zeros denotes 0. */
  lemma {:induction false} ZerosValue(k: nat)
    ensures DigitsValue(Zeros(k)) == 0
  {
    if k > 0 {
      ZerosValue(k - 1);
      assert Zeros(k)[..k - 1] == Zeros(k - 1);
    }
  }

  /** Leading zeros do not change the value a digit string denotes. */
  lemma {:induction false} LeadingZeros(k: nat, s: string)
    requires AllDigits(s)
    ensures AllDigits(Zeros(k) + s)
    ensures DigitsValue(Zeros(k) + s) == DigitsValue(s)
    decreases |s|
  {
    var z := Zeros(k) + s;
    if |s| == 0 {
      assert z == Zeros(k);
      ZerosValue(k);
    } else {
      LeadingZeros(k, s[..|s| - 1]);
      assert z[..|z| - 1] == Zeros(k) + s[..|s| - 1];
    }
  }

  /** The decimal gate accepts everything the integer gate accepts. */
  lemma IntegerGateWithinDecimalGate(s: string)
    ensures IsIntegerFormat(s) ==> IsDecimalFormat(s)
  {
  }

  /** A numeral without a dot passes the decimal gate exactly when it passes the integer gate. */
  lemma DecimalGateWithoutDot(s: string)
    requires forall i :: 0 <= i < |s| ==> s[i] != '.'
    ensures IsDecimalFormat(s) <==> IsIntegerFormat(s)
  {
  }

  /** No gate accepts the empty string. */
  lemma GatesRejectEmpty()
    ensures !IsIntegerFormat("") && !IsDecimalFormat("")
  {
  }

  /** A string that starts with neither a digit nor a sign passes no gate (`a1000`, `a100.0`). */
  lemma NoGateForNonNumeralStart(s: string)
    requires |s| > 0 && s[0] != '-' && !IsDigit(s[0])
    ensures !IsIntegerFormat(s) && !IsDecimalFormat(s)
  {
  }

  /** A string with a dot never passes the integer gate (`100.0`). */
  lemma NoIntegerGateWithDot(s: string, k: nat)
    requires k < |s| && s[k] == '.'
    ensures !IsIntegerFormat(s)
  {
    assert !IsDigit(s[k]);
  }

  /** Digits, a dot and digits pass the decimal gate (`100.0`, `1000.9`). */
  lemma DecimalGateWithFraction(s: string, k: nat)
    requires 0 < k < |s| && s[k] == '.' && IsDigits(s[..k]) && IsDigits(s[k + 1..])
    ensures IsDecimalFormat(s)
  {
  }

  /** Leading zeros are allowed: `007` denotes 7, and `-5` denotes -5. */
  lemma ValueExamples()
    ensures IsIntegerFormat("007") && IntegerValue("007") == 7
    ensures IsIntegerFormat("-5") && IntegerValue("-5") == -5
  {
    LeadingZeros(2, "7");
    assert Zeros(2) + "7" == "007";
    assert "-5"[1..] == "5";
  }
}
