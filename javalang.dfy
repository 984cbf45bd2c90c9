/**
 * The few pieces of java.lang behaviour the sender's decision rules depend on:
 * 32-bit int wrap-around, integer division that truncates toward zero, and the
 * String tests startsWith, equalsIgnoreCase/compareToIgnoreCase and the regular
 * expression "\\d+". Case folding is ASCII-only.
 */
module JavaLang {

  const INT_MIN: int := -0x8000_0000
  const INT_MAX: int := 0x7FFF_FFFF

  /** A Java `int`. */
  type Int32 = x: int | INT_MIN <= x <= INT_MAX

  /** A Java `byte`. */
  type Byte = x: int | -128 <= x <= 127

  /** The value of a Java `int` expression whose exact result is `x`: two's-complement wrap-around. */
  function Wrap32(x: int): (r: Int32)
    ensures INT_MIN <= x <= INT_MAX ==> r == x
    ensures (r - x) % 0x1_0000_0000 == 0
  {
    (x - INT_MIN) % 0x1_0000_0000 + INT_MIN
  }

  /** Java's `a / b` for a positive divisor: the quotient is truncated toward zero. */
  function JavaDiv(a: int, b: int): (q: int)
    requires b > 0
    ensures a >= 0 ==> q >= 0 && q * b <= a < q * b + b
    ensures a < 0 ==> q <= 0 && q * b - b < a <= q * b
  {
    if a >= 0 then a / b else -((-a) / b)
  }

  /** `s.startsWith(p)`. */
  predicate StartsWith(s: string, p: string)
    ensures StartsWith(s, p) <==> |p| <= |s| && forall i :: 0 <= i < |p| ==> s[i] == p[i]
  {
    |p| <= |s| && s[..|p|] == p
  }

  /** ASCII lower-casing of one character. */
  function LowerAscii(c: char): char {
    if 'A' <= c <= 'Z' then (c as int + 32) as char else c
  }

  /** `a.equalsIgnoreCase(b)`, equivalently `a.compareToIgnoreCase(b) == 0`, on ASCII. */
  predicate EqualsIgnoreCase(a: string, b: string)
    ensures a == b ==> EqualsIgnoreCase(a, b)
    ensures EqualsIgnoreCase(a, b) ==>
      |a| == |b| && forall i :: 0 <= i < |a| && !('A' <= a[i] <= 'Z') && !('a' <= a[i] <= 'z') ==> a[i] == b[i]
  {
    |a| == |b| && forall i :: 0 <= i < |a| ==> LowerAscii(a[i]) == LowerAscii(b[i])
  }

  predicate IsDigit(c: char) {
    '0' <= c <= '9'
  }

  /** `s.matches("\\d+")`: one or more ASCII digits and nothing else. */
  predicate AllDigits(s: string)
    ensures AllDigits(s) ==> s != [] && IsDigit(s[0])
  {
    |s| > 0 && forall i :: 0 <= i < |s| ==> IsDigit(s[i])
  }
}
