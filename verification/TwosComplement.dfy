/** Integers as infinite sequences of bits, and the sixteen operations that act
    on the bits of two integers one by one. */
module TwosComplement {

  function Pow2(n: nat): (p: nat)
    ensures p > 0
  {
    if n == 0 then 1 else 2 * Pow2(n - 1)
  }

  // Bit n of the infinite two's complement representation.
  predicate Bit(x: int, n: nat) { x / Pow2(n) % 2 == 1 }

  // A truth table: its value for both bits clear, only the second set, only the
  // first set, and both set.
  datatype Table = Table(ff: bool, ft: bool, tf: bool, tt: bool) {
    predicate At(a: bool, b: bool) {
      if a then if b then tt else tf else if b then ft else ff
    }
    function Not(): Table { Table(!ff, !ft, !tf, !tt) }
    function FlipFirst(): Table { Table(tf, tt, ff, ft) }
    function FlipSecond(): Table { Table(ft, ff, tt, tf) }
    function Swap(): Table { Table(ff, tf, ft, tt) }
  }

  const CLR := Table(false, false, false, false)
  const AND := Table(false, false, false, true)
  const ANDC2 := Table(false, false, true, false)
  const FIRST := Table(false, false, true, true)
  const ANDC1 := Table(false, true, false, false)
  const SECOND := Table(false, true, false, true)
  const XOR := Table(false, true, true, false)
  const IOR := Table(false, true, true, true)
  const NOR := Table(true, false, false, false)
  const EQV := Table(true, false, false, true)
  const C2 := Table(true, false, true, false)
  const ORC2 := Table(true, false, true, true)
  const C1 := Table(true, true, false, false)
  const ORC1 := Table(true, true, false, true)
  const NAND := Table(true, true, true, false)
  const SET := Table(true, true, true, true)

  function Abs(x: int): nat { if x < 0 then -x else x }

  function BitValue(b: bool): int { if b then 1 else 0 }

  // The operation applied to every bit of x and y.
  function Boole(t: Table, x: int, y: int): int
    decreases Abs(x) + Abs(y)
  {
    if -1 <= x <= 0 && -1 <= y <= 0 then -BitValue(t.At(x == -1, y == -1))
    else 2 * Boole(t, x / 2, y / 2) + BitValue(t.At(x % 2 == 1, y % 2 == 1))
  }

  // The recursive equation holds at the ends as well.
  lemma BooleUnfold(t: Table, x: int, y: int)
    ensures Boole(t, x, y) == 2 * Boole(t, x / 2, y / 2) + BitValue(t.At(x % 2 == 1, y % 2 == 1))
  {
  }

  lemma {:induction false} PowAdd(m: nat, n: nat)
    ensures Pow2(m + n) == Pow2(m) * Pow2(n)
  {
    if m > 0 { PowAdd(m - 1, n); }
  }

  lemma {:induction false} PowMonotone(m: nat, n: nat)
    requires m <= n
    ensures Pow2(m) <= Pow2(n)
    decreases n
  {
    if m < n { PowMonotone(m, n - 1); }
  }

  // Bit n + 1 of x is bit n of half of x.
  lemma BitHalf(x: int, n: nat)
    ensures Bit(x, 0) <==> x % 2 == 1
    ensures Bit(x, n + 1) <==> Bit(x / 2, n)
  {
    DivTwice(x, Pow2(n));
  }

  lemma DivTwice(x: int, p: nat)
    requires p > 0
    ensures x / (2 * p) == x / 2 / p
  {
    var q, r := x / 2 / p, x / 2 % p;
    assert x / 2 == p * q + r;
    assert x == 2 * (p * q + r) + x % 2;
    assert x == (2 * p) * q + (2 * r + x % 2);
    DivUnique(x, 2 * p, q, 2 * r + x % 2);
  }

  lemma Multiple(d: nat, k: int)
    requires k > 0
    ensures d * k >= d
  {
  }

  lemma Distribute(d: int, a: int, b: int)
    ensures d * (a - b) == d * a - d * b
    ensures d * (a + b) == d * a + d * b
  {
  }

  lemma DivUnique(x: int, d: nat, q: int, r: nat)
    requires d > 0 && x == d * q + r && r < d
    ensures x / d == q && x % d == r
  {
    var q', r' := x / d, x % d;
    assert x == d * q' + r' && r' < d;
    if q > q' {
      Multiple(d, q - q');
      Distribute(d, q, q');
    } else if q < q' {
      Multiple(d, q' - q);
      Distribute(d, q', q);
    }
  }

  /** Every bit of the result is the operation applied to the bits of the operands. */
  lemma {:induction false} BooleBit(t: Table, x: int, y: int, n: nat)
    ensures Bit(Boole(t, x, y), n) <==> t.At(Bit(x, n), Bit(y, n))
    decreases n
  {
    BooleUnfold(t, x, y);
    var r := Boole(t, x, y);
    BitHalf(x, n);
    BitHalf(y, n);
    BitHalf(r, n);
    if n > 0 {
      BooleBit(t, x / 2, y / 2, n - 1);
      BitHalf(x, n - 1);
      BitHalf(y, n - 1);
      BitHalf(r, n - 1);
      assert r / 2 == Boole(t, x / 2, y / 2);
    }
  }

  /** An integer is determined by its bits. */
  lemma {:induction false} SameBits(x: int, y: int)
    requires forall n: nat :: Bit(x, n) <==> Bit(y, n)
    ensures x == y
    decreases Abs(x) + Abs(y)
  {
    BitHalf(x, 0);
    BitHalf(y, 0);
    assert Bit(x, 0) <==> Bit(y, 0);
    assert x % 2 == y % 2;
    if !(-1 <= x <= 0 && -1 <= y <= 0) {
      forall n: nat ensures Bit(x / 2, n) <==> Bit(y / 2, n) {
        BitHalf(x, n);
        BitHalf(y, n);
        assert Bit(x, n + 1) <==> Bit(y, n + 1);
      }
      SameBits(x / 2, y / 2);
    }
  }

  // ---- complements ----

  lemma HalfComplement(x: int)
    ensures (-x - 1) / 2 == -(x / 2) - 1 && (-x - 1) % 2 == 1 - x % 2
  {
  }

  lemma {:induction false} FlippedFirst(t: Table, x: int, y: int)
    ensures Boole(t, -x - 1, y) == Boole(t.FlipFirst(), x, y)
    decreases Abs(x) + Abs(y)
  {
    if !(-1 <= x <= 0 && -1 <= y <= 0) {
      HalfComplement(x);
      FlippedFirst(t, x / 2, y / 2);
      BooleUnfold(t, -x - 1, y);
      BooleUnfold(t.FlipFirst(), x, y);
      hide Boole;
    }
  }

  lemma {:induction false} Swapped(t: Table, x: int, y: int)
    ensures Boole(t, x, y) == Boole(t.Swap(), y, x)
    decreases Abs(x) + Abs(y)
  {
    if !(-1 <= x <= 0 && -1 <= y <= 0) { Swapped(t, x / 2, y / 2); }
  }

  lemma FlippedSecond(t: Table, x: int, y: int)
    ensures Boole(t, x, -y - 1) == Boole(t.FlipSecond(), x, y)
  {
    Swapped(t, x, -y - 1);
    FlippedFirst(t.Swap(), y, x);
    Swapped(t.Swap().FlipFirst(), y, x);
  }

  lemma {:induction false} Complemented(t: Table, x: int, y: int)
    ensures -Boole(t, x, y) - 1 == Boole(t.Not(), x, y)
    decreases Abs(x) + Abs(y)
  {
    if !(-1 <= x <= 0 && -1 <= y <= 0) { Complemented(t, x / 2, y / 2); }
  }

  // The number whose bits are compared: x itself, or its complement when x is negative.
  function Magnitude(x: int): nat { if x < 0 then -x - 1 else x }

  // The table for the magnitudes of operands with these signs.
  function SignTable(t: Table, negative1: bool, negative2: bool): Table {
    var t1 := if negative1 then t.FlipFirst() else t;
    if negative2 then t1.FlipSecond() else t1
  }

  /** Sign-magnitude form: an operation on integers is one of the operations on
      their magnitudes, complemented when the table says that the signs do so. */
  lemma BooleMagnitudes(t: Table, x: int, y: int)
    ensures var u, a, b := SignTable(t, x < 0, y < 0), Magnitude(x), Magnitude(y);
            Boole(t, x, y) == if u.ff then -Boole(u.Not(), a, b) - 1 else Boole(u, a, b)
  {
    var a, b := Magnitude(x), Magnitude(y);
    if x < 0 { FlippedFirst(t, a, y); }
    var t1 := if x < 0 then t.FlipFirst() else t;
    if y < 0 { FlippedSecond(t1, a, b); }
    var u := SignTable(t, x < 0, y < 0);
    Complemented(u, a, b);
  }

  lemma {:induction false} BooleNatural(t: Table, x: nat, y: nat)
    requires !t.ff
    ensures Boole(t, x, y) >= 0
    decreases x + y
  {
    if x > 0 || y > 0 { BooleNatural(t, x / 2, y / 2); }
  }

  // What a pair of table entries does to a single operand.
  function Unary(whenClear: bool, whenSet: bool, x: int): int {
    if whenSet then if whenClear then -1 else x
    else if whenClear then -x - 1 else 0
  }

  lemma {:induction false} BooleSecondZero(t: Table, x: int)
    ensures Boole(t, x, 0) == Unary(t.ff, t.tf, x)
    decreases Abs(x)
  {
    BooleUnfold(t, x, 0);
    if !(-1 <= x <= 0) { BooleSecondZero(t, x / 2); }
  }

  lemma BooleFirstZero(t: Table, y: int)
    ensures Boole(t, 0, y) == Unary(t.ff, t.ft, y)
  {
    Swapped(t, 0, y);
    BooleSecondZero(t.Swap(), y);
  }

  // Operations that look at one operand only.
  lemma {:induction false} BooleOneSided(t: Table, x: int, y: int)
    ensures t.ff == t.ft && t.tf == t.tt ==> Boole(t, x, y) == Unary(t.ff, t.tf, x)
    decreases Abs(x) + Abs(y)
  {
    BooleUnfold(t, x, y);
    if !(-1 <= x <= 0 && -1 <= y <= 0) { BooleOneSided(t, x / 2, y / 2); }
  }

  // x with w clear bits below it.
  function Shifted(x: int, w: nat): int { Pow2(w) * x }

  /** The low and high parts of the operands are treated separately. */
  lemma {:induction false} BooleSplit(t: Table, w: nat, x: nat, y: nat, X: nat, Y: nat)
    requires !t.ff && x < Pow2(w) && y < Pow2(w)
    ensures 0 <= Boole(t, x, y) < Pow2(w)
    ensures Boole(t, x + Shifted(X, w), y + Shifted(Y, w)) == Boole(t, x, y) + Shifted(Boole(t, X, Y), w)
    decreases w
  {
    hide *;
    if w == 0 {
      SplitNothing(t, X, Y);
    } else {
      ShiftedTwice(X, w);
      var x', y' := x / 2, y / 2;
      BooleSplit(t, w - 1, x', y', X, Y);
      SplitStep(t, w, x', x % 2, y', y % 2, X, Y);
    }
  }

  lemma SplitNothing(t: Table, X: nat, Y: nat)
    requires !t.ff
    ensures Pow2(0) == 1 && Boole(t, 0, 0) == 0
    ensures Shifted(X, 0) == X && Shifted(Y, 0) == Y && Shifted(Boole(t, X, Y), 0) == Boole(t, X, Y)
  {
  }

  lemma ShiftedTwice(x: int, w: nat)
    requires w > 0
    ensures Shifted(x, w) == 2 * Shifted(x, w - 1) && Pow2(w) == 2 * Pow2(w - 1)
  {
    assert Pow2(w) * x == 2 * (Pow2(w - 1) * x);
  }

  lemma BooleDouble(t: Table, x: int, c: int, y: int, d: int)
    requires 0 <= c <= 1 && 0 <= d <= 1
    ensures Boole(t, 2 * x + c, 2 * y + d) == 2 * Boole(t, x, y) + BitValue(t.At(c == 1, d == 1))
  {
    BooleUnfold(t, 2 * x + c, 2 * y + d);
  }

  lemma SplitStep(t: Table, w: nat, x: nat, c: nat, y: nat, d: nat, X: nat, Y: nat)
    requires w > 0 && c <= 1 && d <= 1
    requires 0 <= Boole(t, x, y) < Pow2(w - 1)
    requires Boole(t, x + Shifted(X, w - 1), y + Shifted(Y, w - 1)) == Boole(t, x, y) + Shifted(Boole(t, X, Y), w - 1)
    ensures 0 <= Boole(t, 2 * x + c, 2 * y + d) < Pow2(w)
    ensures Boole(t, 2 * x + c + Shifted(X, w), 2 * y + d + Shifted(Y, w))
            == Boole(t, 2 * x + c, 2 * y + d) + Shifted(Boole(t, X, Y), w)
  {
    hide *;
    ShiftedTwice(X, w);
    ShiftedTwice(Y, w);
    ShiftedTwice(Boole(t, X, Y), w);
    BooleDouble(t, x, c, y, d);
    BooleDouble(t, x + Shifted(X, w - 1), c, y + Shifted(Y, w - 1), d);
    BitRange(t.At(c == 1, d == 1));
  }

  lemma BitRange(b: bool)
    ensures 0 <= BitValue(b) <= 1
  {
  }

  // ---- ranges of bits ----

  lemma DivDiv(x: int, p: nat, q: nat)
    requires p > 0 && q > 0
    ensures x / (p * q) == x / p / q
  {
    var a, r := x / p, x % p;
    var b, c := a / q, a % q;
    assert x == p * a + r && a == q * b + c;
    NestedDivision(p, q, b, c, r);
    DivUnique(x, p * q, b, p * c + r);
  }

  lemma NestedDivision(p: nat, q: nat, b: int, c: nat, r: nat)
    requires c < q && r < p
    ensures p * (q * b + c) + r == (p * q) * b + (p * c + r) && 0 <= p * c + r < p * q
  {
    Multiple(p, q - c);
    Distribute(p, q, c);
  }

  // The bits from m on are the bits of the quotient by the m-th power of two.
  lemma BitAbove(x: int, m: nat, k: nat)
    ensures Bit(x, m + k) <==> Bit(x / Pow2(m), k)
  {
    PowAdd(m, k);
    DivDiv(x, Pow2(m), Pow2(k));
  }

  // The bits below w do not depend on multiples of the w-th power of two.
  lemma BitBelow(x: int, h: int, w: nat, k: nat)
    requires k < w
    ensures Bit(x + Shifted(h, w), k) <==> Bit(x, k)
  {
    hide Pow2, Shifted;
    var c := EvenMultiple(h, w, k);
    AddMultiple(x, Pow2(k), 2 * c);
  }

  lemma EvenMultiple(h: int, w: nat, k: nat) returns (c: int)
    requires k < w
    ensures Shifted(h, w) == Pow2(k) * (2 * c)
  {
    PowAdd(k, w - k);
    c := Pow2(w - k - 1) * h;
    Regroup(Pow2(k), Pow2(w - k - 1), h);
  }

  lemma Regroup(p: int, q: int, h: int)
    ensures (p * (2 * q)) * h == p * (2 * (q * h))
  {
  }

  lemma AddMultiple(x: int, p: nat, m: int)
    requires p > 0
    ensures (x + p * m) / p == x / p + m
  {
    var q, r := x / p, x % p;
    assert p * (q + m) == p * q + p * m;
    DivUnique(x + p * m, p, q + m, r);
  }

  // A number between -2^k and 2^k.
  predicate Within(x: int, k: nat) { 0 - Pow2(k) <= x < Pow2(k) }

  lemma BitOutside(x: int, k: nat, n: nat)
    requires Within(x, k) && k <= n
    ensures Bit(x, n) <==> x < 0
  {
    PowMonotone(k, n);
    if x < 0 { DivUnique(x, Pow2(n), -1, x + Pow2(n)); } else { DivUnique(x, Pow2(n), 0, x); }
  }

  /** An operation never needs more bits than its operands. */
  lemma {:induction false} BooleRange(t: Table, x: int, y: int, k: nat)
    requires Within(x, k) && Within(y, k)
    ensures Within(Boole(t, x, y), k)
    decreases k
  {
    if k > 0 {
      BooleUnfold(t, x, y);
      BooleRange(t, x / 2, y / 2, k - 1);
    }
  }

  lemma {:induction false} NoBitsBelow(x: int, k: nat)
    requires Within(x, k) && x < 0
    ensures (forall n: nat :: n < k ==> !Bit(x, n)) <==> x == 0 - Pow2(k)
    decreases k
  {
    if k > 0 {
      NoBitsBelow(x / 2, k - 1);
      BitHalf(x, 0);
      forall n: nat ensures Bit(x / 2, n) <==> Bit(x, n + 1) { BitHalf(x, n); }
      if forall n: nat :: n < k - 1 ==> !Bit(x / 2, n) {
        if x % 2 == 0 {
          forall n: nat | n < k ensures !Bit(x, n) {
            if n > 0 { assert !Bit(x / 2, n - 1); assert Bit(x / 2, n - 1) <==> Bit(x, n - 1 + 1); }
          }
        } else {
          assert Bit(x, 0);
        }
      } else {
        var n: nat :| n < k - 1 && Bit(x / 2, n);
        assert Bit(x, n + 1);
      }
    }
  }
}
