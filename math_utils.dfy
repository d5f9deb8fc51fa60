// MathUtils: Euclid's greatest common factor and the index of a maximum.
module MathUtils {
  import opened JavaInt

  /** `d` divides `n`; zero divides only zero. */
  predicate Divides(d: int, n: int)
  {
    if d == 0 then n == 0 else n % d == 0
  }

  /**
   * MathUtils.getGCF: `b == 0` gives `a`, otherwise the factor of `b` and `a % b`,
   * with Java's truncating remainder.
   */
  function Gcf(a: int, b: int): int
    decreases Abs(b)
  {
    if b == 0 then a else Gcf(b, JRem(a, b))
  }

  lemma DividesLinear(g: int, x: int, y: int, c: int)
    requires g > 0 && Divides(g, x) && Divides(g, y)
    ensures Divides(g, c * x + y)
  {
    var kx := x / g;
    var ky := y / g;
    assert x == g * kx;
    assert y == g * ky;
    assert c * x == g * (c * kx);
    assert c * x + y == g * (c * kx + ky);
    MultipleMod(c * x + y, g, c * kx + ky);
  }

  lemma DividesSelf(a: int)
    ensures Divides(a, a) && Divides(a, 0)
  {
    if a != 0 {
      if a > 0 {
        MultipleMod(a, a, 1);
      } else {
        assert a == (-a) * -1;
        assert a % a == a % (-a);
        MultipleMod(a, -a, -1);
      }
    }
  }

  lemma GcfNonNegative(a: int, b: int)
    requires a >= 0 && b >= 0
    ensures Gcf(a, b) >= 0
    decreases b
  {
    if b != 0 {
      JavaAgreesOnNatural(a, b);
      GcfNonNegative(b, a % b);
    }
  }

  /** For non-negative inputs the result divides both. */
  lemma {:induction false} GcfDividesBoth(a: int, b: int)
    requires a >= 0 && b >= 0
    ensures Divides(Gcf(a, b), a) && Divides(Gcf(a, b), b)
    decreases b
  {
    if b == 0 {
      DividesSelf(a);
    } else {
      JavaAgreesOnNatural(a, b);
      var g := Gcf(b, a % b);
      assert g == Gcf(a, b);
      GcfDividesBoth(b, a % b);
      GcfNonNegative(b, a % b);
      assert g > 0;
      assert a == (a / b) * b + a % b;
      DividesLinear(g, b, a % b, a / b);
    }
  }

  /** For non-negative inputs every common divisor divides the result. */
  lemma {:induction false} GcfGreatest(a: int, b: int, d: int)
    requires a >= 0 && b >= 0 && d > 0
    requires Divides(d, a) && Divides(d, b)
    ensures Divides(d, Gcf(a, b))
    decreases b
  {
    if b != 0 {
      JavaAgreesOnNatural(a, b);
      assert a % b == (-(a / b)) * b + a;
      DividesLinear(d, b, a, -(a / b));
      GcfGreatest(b, a % b, d);
    }
  }

  /** For non-negative inputs that are not both zero the result is positive. */
  lemma {:induction false} GcfPositive(a: int, b: int)
    requires a >= 0 && b >= 0 && (a != 0 || b != 0)
    ensures Gcf(a, b) > 0
    decreases b
  {
    if b != 0 {
      JavaAgreesOnNatural(a, b);
      GcfPositive(b, a % b);
    }
  }

  /** `getGCF(a, 0) == a` for every `a`, and `getGCF(0, b) == b` for non-negative `b`. */
  lemma GcfZero(a: int, b: int)
    requires b >= 0
    ensures Gcf(a, 0) == a
    ensures Gcf(0, b) == b
  {
    if b != 0 {
      JavaAgreesOnNatural(0, b);
      assert Gcf(0, b) == Gcf(b, 0);
    }
  }

  lemma DividesAntisymmetric(x: int, y: int)
    requires x >= 0 && y >= 0 && Divides(x, y) && Divides(y, x)
    ensures x == y
  {
    if x != 0 && y != 0 {
      DividesBound(x, y);
      DividesBound(y, x);
    }
  }

  lemma DividesBound(x: int, y: int)
    requires x > 0 && y > 0 && Divides(x, y)
    ensures x <= y
  {
    var k := y / x;
    assert y == x * k;
    if k <= 0 { assert false; }
    assert x * k >= x * 1;
  }

  /** On non-negative inputs the factor does not depend on the argument order. */
  lemma GcfSymmetric(a: int, b: int)
    requires a >= 0 && b >= 0
    ensures Gcf(a, b) == Gcf(b, a)
  {
    var g, h := Gcf(a, b), Gcf(b, a);
    GcfNonNegative(a, b);
    GcfNonNegative(b, a);
    GcfDividesBoth(a, b);
    GcfDividesBoth(b, a);
    if a == 0 && b == 0 {
      GcfZero(0, 0);
    } else {
      GcfPositive(a, b);
      GcfPositive(b, a);
      GcfGreatest(b, a, g);
      GcfGreatest(a, b, h);
      DividesAntisymmetric(g, h);
    }
  }

  /** The factor of 1 and anything is 1. */
  lemma GcfOne(x: int)
    requires x >= 0
    ensures Gcf(1, x) == 1
  {
    GcfNonNegative(1, x);
    GcfPositive(1, x);
    GcfDividesBoth(1, x);
    DividesBound(Gcf(1, x), 1);
  }

  /**
   * MathUtils.getMaxIndex over an array of (finite) doubles: the first index holding
   * the maximum, or -1 for an empty array.
   */
  method GetMaxIndex(a: array<real>) returns (maxIndex: int)
    ensures a.Length == 0 <==> maxIndex == -1
    ensures maxIndex != -1 ==> 0 <= maxIndex < a.Length
    ensures maxIndex != -1 ==> forall j :: 0 <= j < a.Length ==> a[j] <= a[maxIndex]
    ensures maxIndex != -1 ==> forall j :: 0 <= j < maxIndex ==> a[j] < a[maxIndex]
  {
    // -1 stands for Java's initial maximum, Double.NEGATIVE_INFINITY
    var maxVal := 0.0;
    maxIndex := -1;
    var i := 0;
    while i < a.Length
      invariant 0 <= i <= a.Length
      invariant (maxIndex == -1) <==> i == 0
      invariant maxIndex != -1 ==> 0 <= maxIndex < i && maxVal == a[maxIndex]
      invariant maxIndex != -1 ==> forall j :: 0 <= j < i ==> a[j] <= maxVal
      invariant maxIndex != -1 ==> forall j :: 0 <= j < maxIndex ==> a[j] < maxVal
    {
      if maxIndex == -1 || a[i] > maxVal {
        maxVal := a[i];
        maxIndex := i;
      }
      i := i + 1;
    }
  }
}
