/** Decimal rendering of integers and `Util.num_digit`, which counts the
    characters of `str(abs(i))`. */
module Digits {

  /** Python's `abs` on integers. */
  function Abs(i: int): nat
  {
    if i < 0 then -i else i
  }

  /** `10` raised to the power `k`. */
  function Pow10(k: nat): nat
  {
    if k == 0 then 1 else 10 * Pow10(k - 1)
  }

  /** The character of a decimal digit. */
  function DigitChar(d: nat): char
    requires d < 10
  {
    ('0' as int + d) as char
  }

  /** The value of a decimal digit character (0 for any other character). */
  function DigitValue(c: char): nat
  {
    if '0' <= c <= '9' then (c as int - '0' as int) as nat else 0
  }

  /** Python's `str(n)` for a non-negative integer: decimal digits, most
      significant first, with no leading zero except for "0" itself. */
  function DecimalString(n: nat): (s: string)
    ensures |s| >= 1
    ensures forall i :: 0 <= i < |s| ==> '0' <= s[i] <= '9'
    ensures |s| > 1 ==> s[0] != '0'
    decreases n
  {
    if n < 10 then [DigitChar(n)]
    else DecimalString(n / 10) + [DigitChar(n % 10)]
  }

  /** Reads a string of decimal digits back as a number. */
  function ParseDecimal(s: string): nat
    decreases |s|
  {
    if |s| == 0 then 0
    else 10 * ParseDecimal(s[..|s| - 1]) + DigitValue(s[|s| - 1])
  }

  /** Rendering then reading a number gives the number back. */
  lemma {:induction false} ParseDecimalString(n: nat)
    ensures ParseDecimal(DecimalString(n)) == n
    decreases n
  {
    if n >= 10 {
      ParseDecimalString(n / 10);
      var s := DecimalString(n);
      assert s[..|s| - 1] == DecimalString(n / 10);
    }
  }

  /** A positive number rendered with `k` digits lies in `[10^(k-1), 10^k)`. */
  lemma {:induction false} DecimalStringMagnitude(n: nat)
    requires n >= 1
    ensures var k := |DecimalString(n)|; Pow10(k - 1) <= n < Pow10(k)
    decreases n
  {
    if n >= 10 {
      DecimalStringMagnitude(n / 10);
      var k := |DecimalString(n / 10)|;
      assert Pow10(k) == 10 * Pow10(k - 1);
      assert Pow10(k + 1) == 10 * Pow10(k);
    }
  }

  /** `num_digit`: the number of decimal digits of `|i|`. It is at least 1,
      exactly 1 for zero, and for a non-zero `i` it is the `n` with
      `10^(n-1) <= |i| < 10^n`. */
  function NumDigit(i: int): (n: nat)
    ensures n >= 1
    ensures i == 0 ==> n == 1
    ensures i != 0 ==> Pow10(n - 1) <= Abs(i) < Pow10(n)
  {
    var n := |DecimalString(Abs(i))|;
    if i == 0 then n
    else
      DecimalStringMagnitude(Abs(i));
      n
  }

  /** The digit count ignores the sign. */
  lemma NumDigitOfNegation(i: int)
    ensures NumDigit(-i) == NumDigit(i)
  {
  }

  /** The digit count is determined by magnitude alone: any count meeting the
      power-of-ten bounds is the digit count. */
  lemma {:induction false} NumDigitUnique(i: int, k: nat)
    requires i != 0
    requires k >= 1 && Pow10(k - 1) <= Abs(i) < Pow10(k)
    ensures NumDigit(i) == k
  {
    var n := NumDigit(i);
    if n < k {
      Pow10Monotone(n, k - 1);
    } else if n > k {
      Pow10Monotone(k, n - 1);
    }
  }

  /** Powers of ten grow with the exponent. */
  lemma {:induction false} Pow10Monotone(a: nat, b: nat)
    requires a <= b
    ensures Pow10(a) <= Pow10(b)
    decreases b - a
  {
    if a < b {
      Pow10Monotone(a, b - 1);
    }
  }
}
