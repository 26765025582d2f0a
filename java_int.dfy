/** Java's 32-bit `int` arithmetic and the parsing and printing of decimal
    integers (`Integer.valueOf`, `String.valueOf(int)`, JavaScript `String(n)`).
    Only ASCII digits are modelled. */
module JavaInt {
  import opened Wrappers

  const MIN: int := -0x8000_0000
  const MAX: int := 0x7FFF_FFFF
  const MODULUS: int := 0x1_0000_0000

  /** The values a Java `int` can hold. */
  type Int32 = x: int | MIN <= x <= MAX

  /** Two's-complement wrap-around of a mathematical integer into `int`. */
  function Wrap(x: int): (r: Int32)
    ensures (r - x) % MODULUS == 0
    ensures MIN <= x <= MAX ==> r == x
  {
    var m := x % MODULUS;
    if m <= MAX then m else m - MODULUS
  }

  /** `a + b` on Java ints. */
  function Add(a: Int32, b: Int32): (r: Int32)
    ensures MIN <= a + b <= MAX ==> r == a + b
    ensures a + b > MAX ==> r == a + b - MODULUS
  {
    Wrap(a + b)
  }

  /** `a - b` on Java ints. */
  function Sub(a: Int32, b: Int32): (r: Int32)
    ensures MIN <= a - b <= MAX ==> r == a - b
    ensures a - b < MIN ==> r == a - b + MODULUS
  {
    Wrap(a - b)
  }

  /** `a * b` on Java ints. */
  function Mul(a: Int32, b: Int32): (r: Int32)
    ensures MIN <= a * b <= MAX ==> r == a * b
  {
    Wrap(a * b)
  }

  /** The narrowing `(int)` cast of a non-negative whole `double`: values above
      `Integer.MAX_VALUE` saturate. */
  function SaturatingCast(x: nat): (r: Int32)
    ensures 0 <= r
    ensures r == if x <= MAX then x else MAX
  {
    if x <= MAX then x else MAX
  }

  // ---------------------------------------------------------------------
  // Decimal digits

  predicate IsDigit(c: char) {
    '0' <= c <= '9'
  }

  predicate AllDigits(s: string) {
    forall i :: 0 <= i < |s| ==> IsDigit(s[i])
  }

  function DigitValue(c: char): nat
    requires IsDigit(c)
  {
    c as int - '0' as int
  }

  function DigitChar(d: nat): (c: char)
    requires d < 10
    ensures IsDigit(c) && DigitValue(c) == d
  {
    ('0' as int + d) as char
  }

  /** The value of a string of decimal digits, most significant first. */
  function DigitsValue(s: string): nat
    requires AllDigits(s)
  {
    if s == [] then 0 else DigitsValue(s[..|s| - 1]) * 10 + DigitValue(s[|s| - 1])
  }

  /** The shortest decimal rendering of `n` (no leading zeros). */
  function NatToDigits(n: nat): (s: string)
    ensures AllDigits(s) && |s| >= 1
    ensures |s| > 1 ==> s[0] != '0'
  {
    if n < 10 then [DigitChar(n)] else NatToDigits(n / 10) + [DigitChar(n % 10)]
  }

  /** `String.valueOf(n)` in Java, `String(n)` in JavaScript, for whole numbers. */
  function IntToString(n: int): string {
    if n < 0 then "-" + NatToDigits(-n) else NatToDigits(n)
  }

  /** `Integer.valueOf(s)` with its `NumberFormatException` as `None`: an optional
      `+` or `-` sign followed by at least one digit, whose value fits an `int`. */
  function ParseInt(s: string): (r: Option<Int32>)
    ensures r.Some? ==> |s| >= 1
    ensures r.Some? && r.value < 0 ==> s[0] == '-'
  {
    if |s| == 0 then None
    else if s[0] == '-' || s[0] == '+' then
      if |s| == 1 || !AllDigits(s[1..]) then None
      else
        var v: int := if s[0] == '-' then -(DigitsValue(s[1..]) as int) else DigitsValue(s[1..]);
        if MIN <= v <= MAX then Some(v) else None
    else if !AllDigits(s) then None
    else
      var v := DigitsValue(s);
      if v <= MAX then Some(v) else None
  }

  lemma {:induction false} DigitsRoundTrip(n: nat)
    ensures DigitsValue(NatToDigits(n)) == n
  {
    if n >= 10 {
      var s := NatToDigits(n);
      assert s[..|s| - 1] == NatToDigits(n / 10);
      DigitsRoundTrip(n / 10);
    }
  }

  /** Printing an `int` and parsing it back gives the same `int`. */
  lemma ParseIntRoundTrip(n: Int32)
    ensures ParseInt(IntToString(n)) == Some(n)
  {
    DigitsRoundTrip(if n < 0 then -(n as int) else n);
    if n < 0 {
      var s := IntToString(n);
      assert s[1..] == NatToDigits(-(n as int));
    } else {
      assert NatToDigits(n)[0] != '-' && NatToDigits(n)[0] != '+' by {
        assert IsDigit(NatToDigits(n)[0]);
      }
    }
  }
}
