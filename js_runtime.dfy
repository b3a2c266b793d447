/** The few JavaScript built-ins the components rely on, with their observable
    behaviour on the values the components pass them: `null`-able values,
    `Array.prototype.indexOf`, `String.prototype.startsWith`, the `%` operator,
    `Math.floor` of a quotient, `Number.prototype.toString` on integers and
    `String.prototype.padStart`. */
module JsRuntime {

  /** A value that may be `null` (or absent). */
  datatype Option<+T> = None | Some(value: T)

  /** `Array.prototype.indexOf`: the first position holding `x`, or -1. */
  function IndexOf<T(==)>(s: seq<T>, x: T): (i: int)
    ensures -1 <= i < |s|
    ensures i >= 0 ==> s[i] == x && x !in s[..i]
    ensures i == -1 <==> x !in s
  {
    if s == [] then -1
    else if s[0] == x then 0
    else
      var j := IndexOf(s[1..], x);
      if j == -1 then -1
      else
        assert s[..j + 1] == [s[0]] + s[1..][..j];
        j + 1
  }

  /** `String.prototype.startsWith` with position 0. */
  predicate StartsWith(s: string, prefix: string)
    ensures StartsWith(s, prefix) <==>
      |prefix| <= |s| && forall k :: 0 <= k < |prefix| ==> s[k] == prefix[k]
  {
    |prefix| <= |s| && s[..|prefix|] == prefix
  }

  /** JavaScript's `%` on integers: truncating division, so the remainder has the
      sign of the dividend (Dafny's `%` is Euclidean and never negative). A zero
      remainder of a negative dividend is JavaScript's `-0`, which prints as `0` just
      as this 0 does. */
  function JsRem(a: int, b: int): (r: int)
    requires b > 0
    ensures a >= 0 ==> 0 <= r < b
    ensures a < 0 ==> -b < r <= 0
    ensures a >= 0 ==> r == a % b
    ensures (a - r) % b == 0
  {
    if a >= 0 then NonNegativeRemainder(a, b); a % b
    else NegativeRemainder(a, b); -((-a) % b)
  }

  /** A multiple of `b` leaves remainder 0. */
  lemma MultipleMod(b: int, k: int)
    requires b > 0
    ensures (b * k) % b == 0
  {
    var x := b * k;
    var q, m := x / b, x % b;
    assert x == b * q + m && 0 <= m < b;
    var d := k - q;
    assert b * d == b * k - b * q;
    assert m == b * d;
  }

  /** For a non-negative dividend the remainder differs from it by a multiple of
      the divisor. */
  lemma NonNegativeRemainder(a: int, b: int)
    requires b > 0 && a >= 0
    ensures (a - a % b) % b == 0
  {
    assert a - a % b == b * (a / b);
    MultipleMod(b, a / b);
  }

  /** For a negative dividend the negated remainder of the magnitude differs from
      the dividend by a multiple of the divisor. */
  lemma NegativeRemainder(a: int, b: int)
    requires b > 0 && a < 0
    ensures var r := -((-a) % b); -b < r <= 0 && (a - r) % b == 0
  {
    var q, m := (-a) / b, (-a) % b;
    assert -a == b * q + m;
    assert a - (-m) == b * (-q);
    MultipleMod(b, -q);
  }

  /** `Math.floor(a / b)` for a positive divisor. Dafny's `/` on int is Euclidean,
      which for a positive divisor rounds toward negative infinity. */
  function FloorDiv(a: int, b: int): (q: int)
    requires b > 0
    ensures q * b <= a < q * b + b
  {
    a / b
  }

  predicate IsDigit(c: char)
  {
    '0' <= c <= '9'
  }

  predicate AllDigits(s: string)
  {
    forall k :: 0 <= k < |s| ==> IsDigit(s[k])
  }

  function DigitValue(c: char): (d: nat)
    requires IsDigit(c)
    ensures d < 10
  {
    c as int - '0' as int
  }

  function DigitChar(d: nat): (c: char)
    requires d < 10
    ensures IsDigit(c) && DigitValue(c) == d
  {
    ('0' as int + d) as char
  }

  /** The number written by a string of decimal digits, most significant first;
      the empty string reads as 0. */
  function DigitsValue(s: string): nat
    requires AllDigits(s)
  {
    if s == [] then 0 else 10 * DigitsValue(s[..|s| - 1]) + DigitValue(s[|s| - 1])
  }

  /** The decimal representation of `n` with no leading zero, as
      `Number.prototype.toString` prints a non-negative integer. */
  function NatToString(n: nat): (s: string)
    ensures 1 <= |s| && AllDigits(s)
    ensures DigitsValue(s) == n
    ensures |s| == 1 <==> n < 10
    ensures s[0] == '0' ==> n == 0
  {
    if n < 10 then [DigitChar(n)]
    else
      var prefix := NatToString(n / 10);
      var s := prefix + [DigitChar(n % 10)];
      assert s[..|s| - 1] == prefix;
      s
  }

  /** `Number.prototype.toString` on an integer: a minus sign then the magnitude.
      (JavaScript prints negative zero as "0"; an int has no negative zero.) */
  function IntToString(i: int): (s: string)
    ensures i >= 0 ==> s == NatToString(i)
    ensures i < 0 ==> s == "-" + NatToString(-i)
  {
    if i < 0 then "-" + NatToString(-i) else NatToString(i)
  }

  /** `String.prototype.padStart(width, fill)` with a one-character fill:
      prepends copies of `fill` until the length reaches `width`. */
  function PadStart(s: string, width: nat, fill: char): (r: string)
    ensures |r| == if |s| >= width then |s| else width
    ensures r[|r| - |s|..] == s
    ensures forall k :: 0 <= k < |r| - |s| ==> r[k] == fill
    decreases width - |s|
  {
    if |s| >= width then s else PadStart([fill] + s, width, fill)
  }

  /** Leading zeros do not change the value of a digit string. */
  lemma {:induction false} LeadingZerosValue(z: string, s: string)
    requires forall k :: 0 <= k < |z| ==> z[k] == '0'
    requires AllDigits(s)
    ensures AllDigits(z + s) && DigitsValue(z + s) == DigitsValue(s)
    decreases |s|
  {
    if s == [] {
      assert z + s == z;
      AllZerosValue(z);
    } else {
      var t := z + s;
      assert t[..|t| - 1] == z + s[..|s| - 1];
      LeadingZerosValue(z, s[..|s| - 1]);
    }
  }

  lemma {:induction false} AllZerosValue(z: string)
    requires forall k :: 0 <= k < |z| ==> z[k] == '0'
    ensures AllDigits(z) && DigitsValue(z) == 0
    decreases |z|
  {
    if z != [] {
      AllZerosValue(z[..|z| - 1]);
    }
  }
}
