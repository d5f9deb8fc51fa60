// Java integer semantics that differ from Dafny's: truncating division and
// remainder, and 32-bit wrap-around.
module JavaInt {

  function Abs(x: int): nat
  {
    if x < 0 then -x else x
  }

  /** Java's `a / b` on integers: the quotient truncated toward zero. */
  function JDiv(a: int, b: int): (q: int)
    requires b != 0
    ensures Abs(q) == Abs(a) / Abs(b)
    ensures q < 0 ==> ((a < 0) != (b < 0))
  {
    DivNonNeg(Abs(a), Abs(b));
    var m := Abs(a) / Abs(b);
    if (a < 0) != (b < 0) then -m else m
  }

  lemma DivNonNeg(x: int, y: int)
    requires x >= 0 && y > 0
    ensures x / y >= 0
  {
  }

  /** Java's `a % b` on integers: the remainder takes the sign of `a`. */
  function JRem(a: int, b: int): (r: int)
    requires b != 0
    ensures Abs(r) == Abs(a) % Abs(b)
    ensures r < 0 ==> a < 0
    ensures a < 0 ==> r <= 0
  {
    if a < 0 then -(Abs(a) % Abs(b)) else Abs(a) % Abs(b)
  }

  /** On a non-negative dividend and a positive divisor Java agrees with Dafny. */
  lemma JavaAgreesOnNatural(a: int, b: int)
    requires a >= 0 && b > 0
    ensures JDiv(a, b) == a / b && JRem(a, b) == a % b
  {
  }

  /** The division identity holds for Java's pair as well. */
  lemma JDivRem(a: int, b: int)
    requires b > 0
    ensures a == b * JDiv(a, b) + JRem(a, b)
  {
    if a < 0 {
      var m := -a;
      assert m == b * (m / b) + m % b;
      assert JDiv(a, b) == -(m / b);
      assert b * JDiv(a, b) == -(b * (m / b));
    }
  }

  lemma NegModZero(a: int, b: int)
    requires b > 0 && a % b == 0
    ensures (-a) % b == 0
  {
    var q := a / b;
    assert a == b * q;
    assert -a == b * (-q);
    MultipleMod(-a, b, -q);
  }

  /** A multiple of `b` leaves remainder 0. */
  lemma MultipleMod(a: int, b: int, q: int)
    requires b > 0 && a == b * q
    ensures a % b == 0
  {
    var r := a % b;
    var d := a / b;
    assert a == b * d + r;
    assert b * (q - d) == r;
    if q - d >= 1 { assert false; } else if q - d <= -1 { assert false; }
  }

  /** Whether a remainder is zero does not depend on the rounding convention. */
  lemma JRemZeroIff(a: int, b: int)
    requires b > 0
    ensures JRem(a, b) == 0 <==> a % b == 0
  {
    if a < 0 {
      if a % b == 0 { NegModZero(a, b); }
      if (-a) % b == 0 { NegModZero(-a, b); }
    }
  }

  const TWO_32: int := 0x1_0000_0000
  const TWO_31: int := 0x8000_0000

  /** The Java `int` obtained from an unbounded integer by 32-bit wrap-around. */
  function Wrap32(x: int): (r: int)
    ensures -TWO_31 <= r < TWO_31
    ensures -TWO_31 <= x < TWO_31 ==> r == x
  {
    (x + TWO_31) % TWO_32 - TWO_31
  }

  /** Java's `Integer.compare`, also used for `Long.compare`. */
  function IntCompare(x: int, y: int): (c: int)
    ensures c == -1 || c == 0 || c == 1
    ensures c == 0 <==> x == y
    ensures c < 0 <==> x < y
  {
    RealCompare(x as real, y as real)
  }

  /** A product of positive numbers is positive and at least either factor. */
  lemma PositiveProduct(a: int, b: int)
    requires a > 0 && b > 0
    ensures a * b >= a && a * b >= b
  {
    assert a * b == a * (b - 1) + a;
    assert a * b == (a - 1) * b + b;
  }

  /**
   * Java's `Double.compare` on scores, which here are never NaN; the ordering Java puts between
   * -0.0 and 0.0 is not modelled.
   */
  function RealCompare(x: real, y: real): (c: int)
    ensures c == -1 || c == 0 || c == 1
    ensures c == 0 <==> x == y
    ensures c < 0 <==> x < y
  {
    if x < y then -1 else if x == y then 0 else 1
  }

  /** A Java reference that may be `null`. */
  datatype Option<T> = None | Some(value: T)

  const LONG_MAX: int := 0x7FFF_FFFF_FFFF_FFFF

  predicate IsDigit(c: char) { '0' <= c <= '9' }

  /** The decimal digits of a natural number, most significant first. */
  function NatToString(n: nat): (s: string)
    ensures |s| > 0 && forall i :: 0 <= i < |s| ==> IsDigit(s[i])
    ensures n > 0 ==> s[0] != '0'
    decreases n
  {
    if n < 10 then ["0123456789"[n]] else NatToString(n / 10) + ["0123456789"[n % 10]]
  }

  /** Java's decimal rendering of an integer (`Integer.toString`, `StringBuilder.append(int)`). */
  function IntToString(n: int): (s: string)
    ensures |s| > 0 && (IsDigit(s[0]) || s[0] == '-')
    ensures forall i :: 1 <= i < |s| ==> IsDigit(s[i])
  {
    if n < 0 then "-" + NatToString(-n) else NatToString(n)
  }

  /** Reads a string of decimal digits back as a number. */
  function ParseNat(s: string): (n: int)
    requires forall i :: 0 <= i < |s| ==> IsDigit(s[i])
    ensures n >= 0
  {
    if |s| == 0 then 0
    else
      assert IsDigit(s[|s| - 1]);
      10 * ParseNat(s[..|s| - 1]) + (s[|s| - 1] as int - '0' as int)
  }

  function ParseInt(s: string): int
    requires |s| > 0 && (IsDigit(s[0]) || s[0] == '-')
    requires forall i :: 1 <= i < |s| ==> IsDigit(s[i])
  {
    if s[0] == '-' then -ParseNat(s[1..]) else ParseNat(s)
  }

  lemma {:induction false} ParseNatToString(n: nat)
    ensures ParseNat(NatToString(n)) == n as int
    decreases n
  {
    var s := NatToString(n);
    if n >= 10 {
      ParseNatToString(n / 10);
      assert s[..|s| - 1] == NatToString(n / 10);
    }
  }

  lemma ParseNegative(s: string)
    requires |s| > 0 && forall i :: 0 <= i < |s| ==> IsDigit(s[i])
    ensures ParseInt("-" + s) == -ParseNat(s)
  {
    assert ("-" + s)[1..] == s;
  }

  /** The decimal rendering is read back exactly, so distinct integers render differently. */
  lemma IntToStringRoundTrip(n: int)
    ensures ParseInt(IntToString(n)) == n
  {
    if n < 0 {
      var s := NatToString(-n);
      assert IntToString(n) == "-" + s;
      ParseNegative(s);
      ParseNatToString(-n);
    } else {
      assert IntToString(n) == NatToString(n);
      ParseNatToString(n);
    }
  }

  lemma IntToStringInjective(a: int, b: int)
    ensures IntToString(a) == IntToString(b) ==> a == b
  {
    IntToStringRoundTrip(a);
    IntToStringRoundTrip(b);
  }
}
