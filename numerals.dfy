/**
 * Numerals written as digit strings: the digits of a radix up to 36, the value
 * a digit string denotes, and the canonical lowercase rendering of a number
 * (what Rust's `{}`/`{:x}` and Go's `strconv.FormatInt`/`%x` print).
 */
module Numerals {

  /** Bounds of the 64-bit signed integers both programs parse into. */
  const I64_MIN: int := -0x8000_0000_0000_0000
  const I64_MAX: int := 0x7fff_ffff_ffff_ffff

  predicate InI64(v: int) {
    I64_MIN <= v <= I64_MAX
  }

  /** The value of an ASCII digit or letter (either case) as a radix-36 digit; -1 for anything else. */
  function DigitValue(c: char): int {
    if '0' <= c <= '9' then c as int - '0' as int
    else if 'a' <= c <= 'z' then c as int - 'a' as int + 10
    else if 'A' <= c <= 'Z' then c as int - 'A' as int + 10
    else -1
  }

  predicate IsDigit(c: char, radix: nat) {
    0 <= DigitValue(c) < radix
  }

  predicate AllDigits(s: string, radix: nat) {
    forall i :: 0 <= i < |s| ==> IsDigit(s[i], radix)
  }

  /** The number a string of digits denotes, most significant digit first. */
  function DigitsValue(s: string, radix: nat): nat
    requires AllDigits(s, radix)
  {
    if s == [] then 0
    else DigitsValue(s[..|s| - 1], radix) * radix + DigitValue(s[|s| - 1])
  }

  /** The lowercase character for a digit. */
  function DigitChar(d: nat): (c: char)
    requires d < 36
    ensures IsDigit(c, d + 1) && DigitValue(c) == d
    ensures c != '+' && c != '-'
  {
    if d < 10 then ('0' as int + d) as char else ('a' as int + d - 10) as char
  }

  /** Division by a radix, as the digit recursion uses it. */
  lemma DivMod(n: nat, radix: nat)
    requires 2 <= radix && n >= radix
    ensures 0 < n / radix < n && 0 <= n % radix < radix && n == n / radix * radix + n % radix
  {
  }

  lemma MulMonotone(a: nat, b: nat, n: nat)
    requires a <= b
    ensures a * n <= b * n
  {
  }

  /** Quotient and remainder are the only ones with a remainder in [0, d). */
  lemma DivModUnique(a: int, d: int, q: int, r: int)
    requires d > 0 && a == d * q + r && 0 <= r < d
    ensures a / d == q && a % d == r
  {
    var q', r' := a / d, a % d;
    assert a == d * q' + r';
    var k := q - q';
    assert d * k == r' - r by {
      assert d * q - d * q' == d * (q - q');
    }
    if k >= 1 {
      MulMonotone(1, k, d);
    }
  }

  /** The canonical rendering of `n`: no sign, no leading zero, lowercase letters. */
  function ToDigits(n: nat, radix: nat): (s: string)
    requires 2 <= radix <= 36
    ensures |s| > 0 && AllDigits(s, radix)
    ensures DigitsValue(s, radix) == n
    ensures |s| > 1 ==> s[0] != '0'
    decreases n
  {
    if n < radix then [DigitChar(n)]
    else
      DivMod(n, radix);
      var high := ToDigits(n / radix, radix);
      var s := high + [DigitChar(n % radix)];
      assert s[..|s| - 1] == high;
      s
  }

  /** Every character is a decimal digit or a lowercase letter. */
  predicate Lowercase(s: string) {
    forall i :: 0 <= i < |s| ==> '0' <= s[i] <= '9' || 'a' <= s[i] <= 'z'
  }

  /** The canonical rendering uses lowercase letters for the digits above 9. */
  lemma {:induction false} ToDigitsLowercase(n: nat, radix: nat)
    requires 2 <= radix <= 36
    ensures Lowercase(ToDigits(n, radix))
    decreases n
  {
    if n >= radix {
      DivMod(n, radix);
      ToDigitsLowercase(n / radix, radix);
    }
  }

  /**
   * `s` renders `v` in `radix`: a minus sign exactly when `v` is negative, then
   * the digits of its magnitude, without a leading zero.
   */
  predicate Renders(s: string, v: int, radix: nat) {
    |s| > 0 && (s[0] == '-' <==> v < 0) &&
    var d := if v < 0 then s[1..] else s;
    |d| > 0 && AllDigits(d, radix) && DigitsValue(d, radix) == (if v < 0 then -v else v) &&
    (|d| > 1 ==> d[0] != '0')
  }

  /** A signed rendering: a minus sign before the digits of a negative number (Go's `FormatInt`). */
  function SignedDigits(v: int, radix: nat): string
    requires 2 <= radix <= 36
  {
    if v < 0 then "-" + ToDigits(-v, radix) else ToDigits(v, radix)
  }

  /** The signed rendering of `v` renders `v`. */
  lemma SignedDigitsRenders(v: int, radix: nat)
    requires 2 <= radix <= 36
    ensures Renders(SignedDigits(v, radix), v, radix)
  {
  }

  /** A text renders at most one number. */
  lemma RendersInjective(s: string, a: int, b: int, radix: nat)
    requires Renders(s, a, radix) && Renders(s, b, radix)
    ensures a == b
  {
  }

  /** Distinct numbers have distinct signed renderings. */
  lemma SignedDigitsInjective(a: int, b: int, radix: nat)
    requires 2 <= radix <= 36
    requires SignedDigits(a, radix) == SignedDigits(b, radix)
    ensures a == b
  {
    SignedDigitsRenders(a, radix);
    SignedDigitsRenders(b, radix);
    RendersInjective(SignedDigits(a, radix), a, b, radix);
  }
}
