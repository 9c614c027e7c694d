/** Natural numbers as little-endian sequences of limbs. */
module Limbs {
  import opened TwosComplement

  const LIMB_BITS: nat := 64

  const BASE: nat := Pow2(LIMB_BITS)

  type Limb = x: int | 0 <= x < BASE witness 0

  function PowB(n: nat): (p: nat)
    ensures p > 0
  {
    if n == 0 then 1 else BaseTimes(PowB(n - 1))
  }

  function BaseTimes(x: int): (y: int)
    ensures x > 0 ==> y > 0
    ensures x == 0 ==> y == 0
  {
    BASE * x
  }

  // The number that the limbs stand for, least significant first.
  function Val(limbs: seq<Limb>): nat {
    if limbs == [] then 0 else limbs[0] + BaseTimes(Val(limbs[1..]))
  }

  function Zeros(n: nat): (z: seq<Limb>)
    ensures |z| == n
  {
    seq(n, _ => 0)
  }

  // No leading zero limb.
  predicate Normal(limbs: seq<Limb>) { limbs == [] || limbs[|limbs| - 1] != 0 }

  lemma BaseBig()
    ensures BASE >= 0x4000_0000_0000_0000
  {
    PowMonotone(62, LIMB_BITS);
    assert Pow2(62) == 0x4000_0000_0000_0000 by { Pow62(); }
  }

  lemma Pow62()
    ensures Pow2(62) == 0x4000_0000_0000_0000
  {
    assert Pow2(0) == 1;
    hide Pow2;
    PowByte(0);
    PowByte(8);
    PowByte(16);
    PowByte(24);
    PowByte(32);
    PowByte(40);
    PowByte(48);
    PowQuad(56);
    PowQuad(58);
    PowQuad(60);
  }

  lemma PowQuad(n: nat)
    ensures Pow2(n + 2) == 4 * Pow2(n)
  {
    assert Pow2(n + 1) == 2 * Pow2(n);
  }

  lemma PowByte(n: nat)
    ensures Pow2(n + 8) == 0x100 * Pow2(n)
  {
    hide Pow2;
    PowQuad(n);
    PowQuad(n + 2);
    PowQuad(n + 4);
    PowQuad(n + 6);
  }

  lemma BaseLinear(x: int, y: int)
    ensures BaseTimes(x + y) == BaseTimes(x) + BaseTimes(y)
    ensures BaseTimes(x - y) == BaseTimes(x) - BaseTimes(y)
    ensures x <= y ==> BaseTimes(x) <= BaseTimes(y)
    ensures BaseTimes(1) == BASE
    ensures BaseTimes(x) == Shifted(x, LIMB_BITS)
  {
    hide Pow2;
    if x < y { Multiple(BASE, y - x); Distribute(BASE, y, x); }
    Distribute(BASE, x, y);
    Distribute(BASE, x, -y);
  }

  lemma {:induction false} ValSnoc(limbs: seq<Limb>, x: Limb)
    ensures Val(limbs + [x]) == Val(limbs) + PowB(|limbs|) * x
  {
    hide BaseTimes;
    if limbs == [] {
      ValOne(x);
      assert [] + [x] == [x];
    } else {
      assert (limbs + [x])[1..] == limbs[1..] + [x];
      ValSnoc(limbs[1..], x);
      BaseLinear(Val(limbs[1..]), PowB(|limbs| - 1) * x);
      BaseAssociates(PowB(|limbs| - 1), x);
    }
  }

  lemma ValOne(x: Limb)
    ensures Val([x]) == x
  {
    assert Val([x][1..]) == 0;
  }

  lemma BaseAssociates(x: int, y: int)
    ensures BaseTimes(x * y) == BaseTimes(x) * y
  {
    assert BASE * (x * y) == (BASE * x) * y;
  }

  lemma {:induction false} ValConcat(a: seq<Limb>, b: seq<Limb>)
    ensures Val(a + b) == Val(a) + PowB(|a|) * Val(b)
  {
    hide BaseTimes;
    if a == [] {
      assert a + b == b;
    } else {
      assert (a + b)[1..] == a[1..] + b;
      ValConcat(a[1..], b);
      BaseLinear(Val(a[1..]), PowB(|a| - 1) * Val(b));
      BaseAssociates(PowB(|a| - 1), Val(b));
    }
  }

  lemma {:induction false} ValZeros(n: nat)
    ensures Val(Zeros(n)) == 0
  {
    if n > 0 {
      assert Zeros(n)[1..] == Zeros(n - 1);
      ValZeros(n - 1);
    }
  }

  lemma ValPadded(a: seq<Limb>, n: nat)
    ensures Val(a + Zeros(n)) == Val(a)
  {
    ValConcat(a, Zeros(n));
    ValZeros(n);
  }

  lemma {:induction false} ValBound(limbs: seq<Limb>)
    ensures Val(limbs) < PowB(|limbs|)
  {
    hide BaseTimes;
    if limbs != [] {
      ValBound(limbs[1..]);
      var v, p := Val(limbs[1..]), PowB(|limbs| - 1);
      BaseLinear(v, 1);
      BaseLinear(v + 1, p);
    }
  }

  /** A number without leading zero limbs fills its top limb. */
  lemma NormalBound(limbs: seq<Limb>)
    requires Normal(limbs) && limbs != []
    ensures PowB(|limbs| - 1) <= Val(limbs)
  {
    var n := |limbs| - 1;
    ValSnoc(limbs[..n], limbs[n]);
    assert limbs[..n] + [limbs[n]] == limbs;
    hide *;
    Multiple(PowB(n), limbs[n]);
  }

  lemma {:induction false} PowBMonotone(m: nat, n: nat)
    requires m <= n
    ensures PowB(m) <= PowB(n)
    decreases n
  {
    hide BaseTimes;
    if m < n {
      PowBMonotone(m, n - 1);
      BaseGrows(PowB(n - 1));
    }
  }

  lemma {:induction false} PowBBits(n: nat)
    ensures PowB(n) == Pow2(LIMB_BITS * n)
  {
    if n > 0 {
      PowBBits(n - 1);
      hide Pow2;
      PowAdd(LIMB_BITS, LIMB_BITS * (n - 1));
    } else {
      assert Pow2(LIMB_BITS * n) == 1;
    }
  }

  lemma BaseGrows(x: int)
    requires x >= 0
    ensures BaseTimes(x) >= x
    ensures x > 0 ==> BaseTimes(x) > x
  {
    BaseBig();
    assert (BASE - 1) * x >= 0;
    if x > 0 { assert (BASE - 1) * x >= 1 * x; }
  }

  /** Normal limbs are determined by their number. */
  lemma {:induction false} ValInjective(a: seq<Limb>, b: seq<Limb>)
    requires |a| == |b| && Val(a) == Val(b)
    ensures a == b
  {
    if a != [] {
      BaseDigits(a[0], Val(a[1..]), b[0], Val(b[1..]));
      ValInjective(a[1..], b[1..]);
      assert a == [a[0]] + a[1..] && b == [b[0]] + b[1..];
    }
  }

  lemma BaseDigits(x: Limb, X: nat, y: Limb, Y: nat)
    requires x + BaseTimes(X) == y + BaseTimes(Y)
    ensures x == y && X == Y
  {
    DivUnique(x + BASE * X, BASE, X, x);
    DivUnique(y + BASE * Y, BASE, Y, y);
  }

  lemma NormalUnique(a: seq<Limb>, b: seq<Limb>)
    requires Normal(a) && Normal(b) && Val(a) == Val(b)
    ensures a == b
  {
    ValBound(a);
    ValBound(b);
    if |a| < |b| {
      NormalBound(b);
      PowBMonotone(|a|, |b| - 1);
    } else if |b| < |a| {
      NormalBound(a);
      PowBMonotone(|b|, |a| - 1);
    } else {
      ValInjective(a, b);
    }
  }

  lemma NormalByBound(limbs: seq<Limb>)
    requires limbs != [] && PowB(|limbs| - 1) <= Val(limbs)
    ensures Normal(limbs)
  {
    if limbs[|limbs| - 1] == 0 {
      TopZero(limbs);
      ValBound(limbs[..|limbs| - 1]);
    }
  }

  // A normal number less a small one has at most its top limb zero.
  lemma QuickNormalize(limbs: seq<Limb>, less: seq<Limb>, x: nat)
    requires limbs != [] && Normal(limbs) && |less| == |limbs| && Val(less) + x == Val(limbs)
    requires x <= 0x2000_0000_0000_0000 && less[|limbs| - 1] == 0
    ensures Normal(less[..|limbs| - 1]) && Val(less[..|limbs| - 1]) == Val(less)
  {
    hide *;
    var n := |limbs| - 1;
    NormalBound(limbs);
    TopZero(less);
    if n > 0 && less[n - 1] == 0 {
      TopZero(less[..n]);
      assert less[..n][..n - 1] == less[..n - 1];
      ValBound(less[..n - 1]);
      PowBGap(n);
    }
    NotTopZero(less[..n]);
  }

  lemma TopZero(limbs: seq<Limb>)
    requires limbs != [] && limbs[|limbs| - 1] == 0
    ensures Val(limbs[..|limbs| - 1]) == Val(limbs)
  {
    var n := |limbs| - 1;
    ValSnoc(limbs[..n], 0);
    assert limbs[..n] + [0] == limbs;
  }

  lemma NotTopZero(limbs: seq<Limb>)
    ensures Normal(limbs) <==> limbs == [] || limbs[|limbs| - 1] != 0
  {
  }

  lemma PowBGap(n: nat)
    requires n > 0
    ensures PowB(n) > PowB(n - 1) + 0x2000_0000_0000_0000
  {
    BaseGap(PowB(n - 1));
  }

  lemma BaseGap(x: nat)
    requires x > 0
    ensures BaseTimes(x) > x + 0x2000_0000_0000_0000
  {
    BaseBig();
    BaseLinear(1, x - 1);
    BaseGrows(x - 1);
  }

  // ---- operations limb by limb ----

  // What the word operations of the machine do to two limbs.
  function WordOp(t: Table, x: Limb, y: Limb): (r: Limb)
    requires !t.ff
  {
    WordOpBound(t, x, y);
    Boole(t, x, y)
  }

  lemma WordOpBound(t: Table, x: Limb, y: Limb)
    requires !t.ff
    ensures 0 <= Boole(t, x, y) < BASE
  {
    BooleSplit(t, LIMB_BITS, x, y, 0, 0);
  }

  function LimbOp(t: Table, a: seq<Limb>, b: seq<Limb>): (r: seq<Limb>)
    requires !t.ff && |a| == |b|
    ensures |r| == |a|
  {
    seq(|a|, i requires 0 <= i < |a| => WordOp(t, a[i], b[i]))
  }

  /** Operating limb by limb is operating on the numbers. */
  lemma {:induction false} LimbOpVal(t: Table, a: seq<Limb>, b: seq<Limb>)
    requires !t.ff && |a| == |b|
    ensures Val(LimbOp(t, a, b)) == Boole(t, Val(a), Val(b))
  {
    if a == [] {
      assert Boole(t, 0, 0) == 0;
    } else {
      LimbOpVal(t, a[1..], b[1..]);
      LimbOpFirst(t, a, b);
      hide Boole, BaseTimes, LimbOp, WordOp;
      FirstLimbSplit(t, a[0], Val(a[1..]), b[0], Val(b[1..]));
    }
  }

  lemma LimbOpFirst(t: Table, a: seq<Limb>, b: seq<Limb>)
    requires !t.ff && |a| == |b| && a != []
    ensures LimbOp(t, a, b)[0] == WordOp(t, a[0], b[0])
    ensures LimbOp(t, a, b)[1..] == LimbOp(t, a[1..], b[1..])
  {
    hide Boole, WordOp;
  }

  lemma FirstLimbSplit(t: Table, x: Limb, X: nat, y: Limb, Y: nat)
    requires !t.ff
    ensures Boole(t, x + BaseTimes(X), y + BaseTimes(Y)) == WordOp(t, x, y) + BaseTimes(Boole(t, X, Y))
  {
    hide Boole, BaseTimes, Pow2;
    BooleSplit(t, LIMB_BITS, x, y, X, Y);
    BaseLinear(X, 0);
    BaseLinear(Y, 0);
    BaseLinear(Boole(t, X, Y), 0);
  }
}
