/** Greatest common divisors of natural numbers. */
module Divisors {
  import opened TwosComplement

  predicate Divides(d: nat, n: int)
    requires d > 0
  {
    n % d == 0
  }

  // Euclid's algorithm.
  function Gcd(a: nat, b: nat): (g: nat)
    ensures a > 0 || b > 0 ==> g > 0
    decreases b
  {
    if b == 0 then a else Gcd(b, a % b)
  }

  lemma RemainderOfSum(x: int, d: nat, m: int)
    requires d > 0
    ensures (x + d * m) % d == x % d
  {
    assert d * (x / d + m) == d * (x / d) + d * m;
    DivUnique(x + d * m, d, x / d + m, x % d);
  }

  lemma MultiplesDivide(d: nat, m: int)
    requires d > 0
    ensures Divides(d, d * m)
  {
    RemainderOfSum(0, d, m);
    DivUnique(0, d, 0, 0);
  }

  lemma Quotient(d: nat, n: int) returns (k: int)
    requires d > 0 && Divides(d, n)
    ensures n == d * k && (n > 0 ==> k > 0)
  {
    k := n / d;
    if n > 0 && k <= 0 { Multiple(d, 1 - k); Distribute(d, 0, 0 - k); }
  }

  // A divisor of b divides a exactly if it divides the remainder of a by b.
  lemma DividesRemainder(d: nat, a: nat, b: nat)
    requires d > 0 && b > 0 && Divides(d, b)
    ensures Divides(d, a) <==> Divides(d, a % b)
  {
    var m := Quotient(d, b);
    var q, r := a / b, a % b;
    assert a == b * q + r;
    assert b * q == d * (m * q) by { Associate(d, m, q); }
    RemainderOfSum(r, d, m * q);
  }

  lemma Associate(d: int, m: int, q: int)
    ensures (d * m) * q == d * (m * q)
  {
  }

  /** The result divides both numbers, and every common divisor divides it. */
  lemma {:induction false} GcdGreatest(a: nat, b: nat, d: nat)
    requires (a > 0 || b > 0) && d > 0
    ensures Divides(Gcd(a, b), a) && Divides(Gcd(a, b), b)
    ensures Divides(d, a) && Divides(d, b) <==> Divides(d, Gcd(a, b))
    decreases b
  {
    if b == 0 {
      MultiplesDivide(a, 1);
      MultiplesDivide(a, 0);
      MultiplesDivide(d, 0);
    } else {
      var r := a % b;
      GcdGreatest(b, r, d);
      var g := Gcd(b, r);
      DividesRemainder(g, a, b);
      if Divides(d, b) {
        DividesRemainder(d, a, b);
      } else if Divides(d, g) {
        DividesThrough(d, g, b);
      }
    }
  }

  lemma DividesThrough(d: nat, e: nat, n: int)
    requires d > 0 && e > 0 && Divides(d, e) && Divides(e, n)
    ensures Divides(d, n)
  {
    var m := Quotient(d, e);
    var k := Quotient(e, n);
    Associate(d, m, k);
    MultiplesDivide(d, m * k);
  }

  lemma DivisorAtMost(d: nat, n: nat)
    requires d > 0 && n > 0 && Divides(d, n)
    ensures d <= n
  {
    var k := Quotient(d, n);
    Multiple(d, k);
  }

  // Numbers with the same common divisors have the same greatest one.
  lemma SameDivisors(a: nat, b: nat, a': nat, b': nat)
    requires (a > 0 || b > 0) && (a' > 0 || b' > 0)
    requires forall d: nat :: d > 0 ==> (Divides(d, a) && Divides(d, b) <==> Divides(d, a') && Divides(d, b'))
    ensures Gcd(a, b) == Gcd(a', b')
  {
    var g, g' := Gcd(a, b), Gcd(a', b');
    GcdGreatest(a, b, g');
    GcdGreatest(a', b', g);
    hide Divides, Gcd;
    DivisorAtMost(g, g');
    DivisorAtMost(g', g);
  }

  lemma GcdSymmetric(a: nat, b: nat)
    requires a > 0 || b > 0
    ensures Gcd(a, b) == Gcd(b, a)
  {
    hide Gcd, Divides;
    SameDivisors(a, b, b, a);
  }

  lemma {:induction false} GcdTwice(u: nat, v: nat)
    ensures Gcd(2 * u, 2 * v) == 2 * Gcd(u, v)
    decreases v
  {
    if v > 0 {
      assert 2 * u == (2 * v) * (u / v) + 2 * (u % v) by { Associate(2, v, u / v); }
      DivUnique(2 * u, 2 * v, u / v, 2 * (u % v));
      GcdTwice(v, u % v);
    }
  }

  // An odd divisor of twice a number divides the number.
  lemma OddDivisor(d: nat, u: nat)
    requires d % 2 == 1 && Divides(d, 2 * u)
    ensures Divides(d, u)
  {
    var k := Quotient(d, 2 * u);
    OddTimes(d / 2, k);
    assert d == 2 * (d / 2) + 1;
    var h := k / 2;
    assert k == 2 * h;
    assert 2 * u == 2 * (d * h) by { Associate(d, 2, h); Associate(2, d, h); }
    MultiplesDivide(d, h);
  }

  lemma OddTimes(c: int, k: int)
    requires ((2 * c + 1) * k) % 2 == 0
    ensures k % 2 == 0
  {
    assert (2 * c + 1) * k == 2 * (c * k) + k;
  }

  lemma OddHasOddDivisors(d: nat, v: nat)
    requires v % 2 == 1 && d > 0 && Divides(d, v)
    ensures d % 2 == 1
  {
    if d % 2 == 0 {
      var k := Quotient(d, v);
      Associate(2, d / 2, k);
    }
  }

  // A factor of two is no common factor with an odd number.
  lemma GcdHalf(u: nat, v: nat)
    requires v % 2 == 1
    ensures Gcd(2 * u, v) == Gcd(u, v)
  {
    forall d: nat | d > 0 ensures Divides(d, 2 * u) && Divides(d, v) <==> Divides(d, u) && Divides(d, v) {
      if Divides(d, v) {
        OddHasOddDivisors(d, v);
        if Divides(d, 2 * u) {
          OddDivisor(d, u);
        } else if Divides(d, u) {
          var k := Quotient(d, u);
          MultiplesDivide(d, 2 * k);
          Associate(2, d, k);
          Associate(d, 2, k);
        }
      }
    }
    hide Gcd, Divides;
    SameDivisors(2 * u, v, u, v);
  }

  lemma {:induction false} GcdPower(u: nat, i: nat, v: nat)
    requires v % 2 == 1
    ensures Shifted(u, i) >= 0 && Gcd(Shifted(u, i), v) == Gcd(u, v)
  {
    if i == 0 {
      assert Shifted(u, 0) == u;
    } else {
      hide Gcd, Divides;
      GcdPower(u, i - 1, v);
      ShiftedTwice(u, i);
      GcdHalf(Shifted(u, i - 1), v);
    }
  }

  /** Powers of two taken out of both numbers come back as the smaller one. */
  lemma {:induction false} GcdShifted(u: nat, i: nat, v: nat, j: nat)
    requires u % 2 == 1 && v % 2 == 1
    ensures Shifted(u, i) > 0 && Shifted(v, j) > 0
    ensures Gcd(Shifted(u, i), Shifted(v, j)) == Shifted(Gcd(u, v), if i < j then i else j)
  {
    hide Gcd, Divides;
    ShiftedPositive(u, i);
    ShiftedPositive(v, j);
    ShiftedNone(u);
    ShiftedNone(v);
    ShiftedNone(Gcd(u, v));
    if j == 0 {
      GcdPower(u, i, v);
    } else if i == 0 {
      GcdSymmetric(u, Shifted(v, j));
      GcdPower(v, j, u);
      GcdSymmetric(u, v);
    } else {
      GcdShifted(u, i - 1, v, j - 1);
      ShiftedTwice(u, i);
      ShiftedTwice(v, j);
      ShiftedTwice(Gcd(u, v), if i < j then i else j);
      GcdTwice(Shifted(u, i - 1), Shifted(v, j - 1));
    }
  }

  lemma ShiftedPositive(u: nat, i: nat)
    requires u > 0
    ensures Shifted(u, i) > 0
  {
    Multiple(Pow2(i), u);
  }

  lemma ShiftedNone(u: int)
    ensures Shifted(u, 0) == u
  {
  }
}
