/**
 * Amounts of money as exact reals, the 0.01 settling tolerance, and the
 * `toFixed(2)` rounding and formatting that the bill screens apply to them.
 * `toFixed(2)` picks the nearest multiple of 0.01 and, on a tie, the one of
 * larger magnitude; the model applies that rule to the exact value.
 */
module Money {

  /** Balances closer to zero than this are treated as settled. */
  const Tolerance: real := 0.01

  function Abs(x: real): (r: real)
    ensures r >= 0.0 && (r == x || r == -x)
  {
    if x < 0.0 then -x else x
  }

  function Min(a: real, b: real): (r: real)
    ensures r <= a && r <= b && (r == a || r == b)
  {
    if a <= b then a else b
  }

  /** The whole number of cents nearest to |x|, ties rounded up. */
  function Cents(x: real): (n: nat)
    ensures n as real - 0.5 <= Abs(x) * 100.0 < n as real + 0.5
  {
    (Abs(x) * 100.0 + 0.5).Floor
  }

  /** `parseFloat(x.toFixed(2))`: x rounded to two decimals. */
  function Round2(x: real): (r: real)
    ensures Abs(r - x) <= 0.005
    ensures r * 100.0 == (r * 100.0).Floor as real
    ensures x >= 0.0 ==> r >= 0.0
    ensures x >= Tolerance ==> r >= Tolerance
  {
    var n := Cents(x);
    var m: int := if x < 0.0 then -(n as int) else n as int;
    assert m as real / 100.0 * 100.0 == m as real;
    assert (m as real).Floor == m;
    m as real / 100.0
  }

  function Digit(d: nat): (c: char)
    requires d < 10
    ensures '0' <= c <= '9' && (c as int) - ('0' as int) == d
  {
    ('0' as int + d) as char
  }

  /** Decimal digits of n, without leading zeros (`String(n)` for a whole number). */
  function NatToString(n: nat): (s: string)
    ensures |s| >= 1 && forall k :: 0 <= k < |s| ==> '0' <= s[k] <= '9'
  {
    if n < 10 then [Digit(n)] else NatToString(n / 10) + [Digit(n % 10)]
  }

  /** `String(i)` for an integer, as template literals print a quantity. */
  function IntToString(i: int): (s: string)
    ensures |s| >= 1
    ensures (s[0] == '-') <==> i < 0
    ensures '0' <= s[|s| - 1] <= '9'
  {
    if i < 0 then "-" + NatToString(-i) else NatToString(i)
  }

  /** The value of a string of decimal digits. */
  function DigitsValue(s: string): nat
    requires forall k :: 0 <= k < |s| ==> '0' <= s[k] <= '9'
  {
    if s == [] then 0 else DigitsValue(s[..|s| - 1]) * 10 + ((s[|s| - 1] as int) - ('0' as int))
  }

  lemma {:induction false} NatToStringRoundTrip(n: nat)
    ensures DigitsValue(NatToString(n)) == n
  {
    if n >= 10 {
      NatToStringRoundTrip(n / 10);
      var s := NatToString(n);
      assert s[..|s| - 1] == NatToString(n / 10);
    }
  }

  /** `x.toFixed(2)`: optional minus sign, whole part, a point and two decimals. */
  function Fixed2(x: real): (s: string)
    ensures |s| >= 4 && s[|s| - 3] == '.'
    ensures '0' <= s[|s| - 2] <= '9' && '0' <= s[|s| - 1] <= '9'
    ensures (s[0] == '-') <==> x < 0.0
  {
    var n := Cents(x);
    (if x < 0.0 then "-" else "") + NatToString(n / 100) + "." + [Digit(n % 100 / 10), Digit(n % 10)]
  }

  /** Reading a non-negative `toFixed(2)` text back gives the rounded amount. */
  lemma Fixed2Value(x: real)
    requires x >= 0.0
    ensures var s := Fixed2(x);
      var whole := s[..|s| - 3];
      && (forall k :: 0 <= k < |whole| ==> '0' <= whole[k] <= '9')
      && '0' <= s[|s| - 2] <= '9' && '0' <= s[|s| - 1] <= '9'
      && (DigitsValue(whole) * 100 + ((s[|s| - 2] as int) - ('0' as int)) * 10
          + ((s[|s| - 1] as int) - ('0' as int))) as real / 100.0 == Round2(x)
  {
    var n := Cents(x);
    var s := Fixed2(x);
    assert s == NatToString(n / 100) + "." + [Digit(n % 100 / 10), Digit(n % 10)];
    assert s[..|s| - 3] == NatToString(n / 100);
    NatToStringRoundTrip(n / 100);
    assert (n / 100) * 100 + (n % 100 / 10) * 10 + n % 10 == n;
    assert Round2(x) == n as real / 100.0;
  }

  /** A negative amount prints as a minus sign before the text of its magnitude. */
  lemma Fixed2Negative(x: real)
    requires x < 0.0
    ensures Fixed2(x) == "-" + Fixed2(-x)
  {
    assert Cents(x) == Cents(-x);
  }
}
