/**
 * The parts of Java's 32-bit `int` arithmetic that the simulator depends on:
 * wrap-around of `+` and `*`, bitwise complement, the remainder operator
 * (which truncates toward zero, unlike Dafny's Euclidean `%`) and `Math.abs`.
 */
module JavaInt {

  const Modulus: int := 0x1_0000_0000
  const MinValue: int := -0x8000_0000
  const MaxValue: int := 0x7fff_ffff

  type Int32 = x: int | MinValue <= x <= MaxValue

  /** The Java `int` that an exact integer result wraps around to. */
  function Wrap(x: int): (r: Int32)
    ensures (r - x) % Modulus == 0
  {
    var m := x % Modulus;
    if m <= MaxValue then m else m - Modulus
  }

  lemma WrapOfInt32(x: Int32)
    ensures Wrap(x) == x
  {
    if x >= 0 {
      assert x % Modulus == x;
    } else {
      assert x % Modulus == x + Modulus;
    }
  }

  /** `Wrap` identifies exactly the integers that are congruent modulo 2^32. */
  lemma WrapEqualIff(x: int, y: int)
    ensures Wrap(x) == Wrap(y) <==> (x - y) % Modulus == 0
  {
    var d := x - y;
    var q := d / Modulus;
    if Wrap(x) == Wrap(y) {
      // Wrap(x) - x and Wrap(y) - y are both multiples of the modulus.
      var a := (Wrap(x) - x) / Modulus;
      var b := (Wrap(y) - y) / Modulus;
      assert d == (b - a) * Modulus;
      MultipleMod(b - a);
    } else {
      if d % Modulus == 0 {
        assert d == q * Modulus;
        var a := (Wrap(x) - x) / Modulus;
        var b := (Wrap(y) - y) / Modulus;
        assert Wrap(x) - Wrap(y) == (a - b + q) * Modulus;
        MultipleIsZero(Wrap(x) - Wrap(y), a - b + q);
      }
    }
  }

  /** Two Java ints are congruent modulo 2^32 only when equal. */
  lemma Int32Congruent(x: Int32, y: Int32)
    ensures (x - y) % Modulus == 0 <==> x == y
  {
    WrapEqualIff(x, y);
    WrapOfInt32(x);
    WrapOfInt32(y);
  }

  lemma MultipleMod(k: int)
    ensures (k * Modulus) % Modulus == 0
  {
  }

  /** Two Java ints that differ by a multiple of 2^32 are equal. */
  lemma MultipleIsZero(d: int, k: int)
    requires -Modulus < d < Modulus
    requires d == k * Modulus
    ensures d == 0
  {
  }

  /** Adding before or after wrapping gives the same Java int. */
  lemma WrapAdd(x: int, y: int)
    ensures Wrap(Wrap(x) + y) == Wrap(x + y)
  {
    WrapEqualIff(Wrap(x) + y, x + y);
  }

  /** Java's `~x`: in two's complement the bitwise complement of x is -x - 1. */
  function Complement(x: Int32): (r: Int32)
    ensures x + r == -1
  {
    -(x as int) - 1
  }

  /** Java's `a % b` for a positive divisor: the remainder takes the sign of a. */
  function Rem(a: int, b: int): (r: int)
    requires b > 0
    ensures (a - r) % b == 0
    ensures a >= 0 ==> 0 <= r < b
    ensures a < 0 ==> -b < r <= 0
  {
    if a >= 0 then
      DivisionIdentity(a, b);
      a % b
    else
      DivisionIdentity(-a, b);
      NegatedMultiple((-a) / b, b);
      -((-a) % b)
  }

  lemma DivisionIdentity(n: int, b: int)
    requires b > 0
    ensures n - n % b == b * (n / b)
    ensures (n - n % b) % b == 0
  {
    MultipleOf(n / b, b);
  }

  lemma MultipleOf(q: int, b: int)
    requires b > 0
    ensures (b * q) % b == 0
  {
    var r, d := (b * q) % b, (b * q) / b;
    assert b * (q - d) == r;
    if q - d >= 1 {
      ProductAtLeast(b, q - d);
    } else if q - d <= -1 {
      ProductAtLeast(b, d - q);
    }
  }

  lemma ProductAtLeast(b: int, k: int)
    requires b > 0 && k >= 1
    ensures b * k >= b
  {
    assert b * k == b + b * (k - 1);
  }

  lemma NegatedMultiple(q: int, b: int)
    requires b > 0
    ensures (-(b * q)) % b == 0
  {
    assert -(b * q) == b * (-q);
    MultipleOf(-q, b);
  }

  /** Euclidean division is determined by any quotient and remainder that fit. */
  lemma ModUnique(a: int, n: int, q: int, r: int)
    requires n > 0 && 0 <= r < n
    requires a == n * q + r
    ensures a % n == r && a / n == q
  {
    var d := q - a / n;
    assert n * d == a % n - r;
    if d >= 1 {
      ProductAtLeast(n, d);
    } else if d <= -1 {
      ProductAtLeast(n, -d);
    }
  }

  /**
   * The "positive modulo" `(x % n + n) % n` of Java code: it is the
   * Euclidean remainder, in [0, n) and congruent to x, for negative x too.
   */
  function PositiveModulo(x: int, n: int): (r: int)
    requires n > 0
    ensures r == x % n
  {
    PositiveModuloIsEuclidean(x, n);
    Rem(Rem(x, n) + n, n)
  }

  lemma PositiveModuloIsEuclidean(x: int, n: int)
    requires n > 0
    ensures Rem(Rem(x, n) + n, n) == x % n
  {
    var r1 := Rem(x, n);
    if x >= 0 {
      ModUnique(r1 + n, n, 1, r1);
      assert r1 == x % n;
    } else {
      var m, q := (-x) % n, (-x) / n;
      assert -x == n * q + m;
      assert r1 == -m;
      if m == 0 {
        ModUnique(n, n, 1, 0);
        ModUnique(x, n, -q, 0);
      } else {
        ModUnique(n - m, n, 0, n - m);
        ModUnique(x, n, -q - 1, n - m);
      }
    }
  }

  /** Java's `Math.abs(int)`: the negation of `Integer.MIN_VALUE` overflows back to itself. */
  function Abs(x: Int32): (r: Int32)
    ensures x != MinValue ==> r >= 0 && (r == x || r == -x)
    ensures x == MinValue ==> r == MinValue
  {
    if x >= 0 then x else Wrap(-(x as int))
  }
}
