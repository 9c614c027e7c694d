/** Questions about the bits of an integer: a single bit, how many bits differ
    from the sign, and how many bits the integer needs. */
module BitQueries {
  import opened Options
  import opened TwosComplement
  import opened Limbs
  import opened LimbBuffers
  import opened BooleOperators
  import opened Bignum
  import opened LogicalOperations

  const FIXNUM_BITS: nat := 62

  // ---- a single bit ----

  // The word negated, and once more decremented for a borrow from below.
  function NegatedWord(limb: Limb, borrow: bool): Limb { LowWord((if borrow then -1 else 0) - limb) }

  // A bit of a word is a bit of any number that agrees with it modulo the base.
  lemma BitOfLowWord(x: int, b: nat)
    requires b < LIMB_BITS
    ensures Bit(LowWord(x), b) <==> Bit(x, b)
  {
    hide Bit, Pow2;
    var h := x / BASE;
    BaseLinear(h, 0);
    assert x == LowWord(x) + Shifted(h, LIMB_BITS);
    BitBelow(LowWord(x), h, LIMB_BITS, b);
  }

  // The bits of limb j of a bignum in two's complement.
  lemma BitOfLimb(len: int, limbs: seq<Limb>, j: nat, b: nat)
    requires |limbs| == Abs(len) && j < |limbs| && b < LIMB_BITS
    ensures Bit(Number(limbs, len), LIMB_BITS * j + b)
            <==> Bit(if len < 0 then NegatedWord(limbs[j], Val(limbs[..j]) != 0) else limbs[j], b)
  {
    hide Bit, Pow2, Val, PowB, LowWord, BaseTimes;
    PowBBits(j);
    BitAbove(Number(limbs, len), LIMB_BITS * j, b);
    QuotientWord(len, limbs, j);
    BitOfLowWord(Number(limbs, len) / PowB(j), b);
  }

  lemma QuotientWord(len: int, limbs: seq<Limb>, j: nat)
    requires |limbs| == Abs(len) && j < |limbs|
    ensures LowWord(Number(limbs, len) / PowB(j))
            == if len < 0 then NegatedWord(limbs[j], Val(limbs[..j]) != 0) else limbs[j]
  {
    hide Val, PowB, LowWord, Pow2, BaseTimes;
    TopLimbs(limbs, j);
    LimbQuotients(limbs, j);
    QuotientWords(limbs[j], Val(limbs[j + 1..]), Val(limbs[..j]), Val(limbs[j..]));
  }

  lemma QuotientWords(high: Limb, rest: nat, low: nat, quotient: nat)
    requires quotient == high + BaseTimes(rest)
    ensures LowWord(quotient) == high
    ensures LowWord(Borrow(low) - quotient) == NegatedWord(high, low != 0)
  {
    hide BaseTimes, LowWord, Pow2;
    LowWordAdd(Borrow(low) - high, rest);
    LowWordAdd(high, 0 - rest);
    BaseLinear(0, rest);
    WordItself(high);
  }

  lemma TopLimbs(limbs: seq<Limb>, j: nat)
    requires j < |limbs|
    ensures Val(limbs[j..]) == limbs[j] + BaseTimes(Val(limbs[j + 1..]))
  {
    assert limbs[j..][0] == limbs[j] && limbs[j..][1..] == limbs[j + 1..];
  }

  lemma BignumWithin(i: Integer)
    requires i.Bignum? && Canonical(i)
    ensures Within(Value(i), LIMB_BITS * |i.limbs|)
    ensures i.len < 0 <==> Value(i) < 0
  {
    PowBBits(|i.limbs|);
    ValBound(i.limbs);
  }

  // One limb of the magnitude, turned into two's complement by looking for a
  // borrow in the limbs below it.
  method TwosComplementLimb(limbs: seq<Limb>, j: nat) returns (limb: Limb)
    requires j < |limbs|
    ensures limb == NegatedWord(limbs[j], Val(limbs[..j]) != 0)
  {
    hide Val;
    limb := NegatedWord(limbs[j], false);
    var k := j;
    while k != 0
      invariant 0 <= k <= j && limb == NegatedWord(limbs[j], false)
      invariant forall i :: k <= i < j ==> limbs[i] == 0
    {
      k := k - 1;
      if limbs[k] != 0 {
        limb := LowWord(limb - 1);
        assert limbs[..j][k] != 0;
        ZeroLimbs(limbs[..j]);
        DecrementWraps(limbs[j]);
        return;
      }
    }
    ZeroLimbs(limbs[..j]);
  }

  lemma DecrementWraps(x: Limb)
    ensures LowWord(NegatedWord(x, false) - 1) == NegatedWord(x, true)
  {
    hide Pow2;
    Carry(0 - x);
    LowWordAdd(-1 - x, HighWord(0 - x));
  }

  /** cl__logbitp, an error for a negative index. A bignum as an index is taken to
      lie beyond the bits of any integer. */
  method Logbitp(index: Integer, i: Integer) returns (r: Option<bool>)
    requires Canonical(index) && Canonical(i)
    ensures r.None? <==> Value(index) < 0
    ensures Value(index) >= 0 ==>
              r == Some(if index.Fixnum? then Bit(Value(i), Value(index)) else Value(i) < 0)
    ensures Value(index) >= 0 && (index.Bignum? && i.Bignum? ==> LIMB_BITS * |i.limbs| <= Value(index)) ==>
              r == Some(Bit(Value(i), Value(index)))
  {
    hide Bit, Pow2, Val;
    if index.Fixnum? {
      if index.n < 0 {
        return None;
      }
      if i.Fixnum? {
        FixnumWithin(i.n);
        if index.n >= FIXNUM_BITS {
          BitOutside(i.n, 61, index.n);
          return Some(i.n < 0);
        }
        return Some(Bit(i.n, index.n));
      }
      BignumWithin(i);
      var j := index.n / LIMB_BITS;
      if j < |i.limbs| {
        BitOfLimb(i.len, i.limbs, j, index.n % LIMB_BITS);
        var limb := i.limbs[j];
        if i.len < 0 {
          limb := TwosComplementLimb(i.limbs, j);
        }
        return Some(Bit(limb, index.n % LIMB_BITS));
      }
      BitOutside(Value(i), LIMB_BITS * |i.limbs|, index.n);
      return Some(i.len < 0);
    }
    if Value(index) < 0 {
      return None;
    }
    if i.Bignum? {
      BignumWithin(i);
      if LIMB_BITS * |i.limbs| <= Value(index) { BitOutside(Value(i), LIMB_BITS * |i.limbs|, Value(index)); }
    } else {
      FixnumWithin(i.n);
      BitOutside(i.n, 61, Value(index));
    }
    r := Some(Value(i) < 0);
  }

  // ---- counting bits ----

  function CountBits(x: nat): nat { if x == 0 then 0 else x % 2 + CountBits(x / 2) }

  // How many of the lowest k bits differ from the sign.
  function Differing(x: int, k: nat): nat {
    if k == 0 then 0 else (if Bit(x, k - 1) != (x < 0) then 1 else 0) + Differing(x, k - 1)
  }

  // The places below k whose bits differ from the sign.
  function DifferingBits(x: int, k: nat): set<int> { set n: nat | n < k && Bit(x, n) != (x < 0) }

  lemma {:induction false} DifferingIsCardinality(x: int, k: nat)
    ensures Differing(x, k) == |DifferingBits(x, k)|
  {
    hide Bit;
    if k == 0 {
      assert DifferingBits(x, 0) == {};
    } else {
      DifferingIsCardinality(x, k - 1);
      assert DifferingBits(x, k) == DifferingBits(x, k - 1) + if Bit(x, k - 1) != (x < 0) then {k - 1} else {};
    }
  }

  lemma {:induction false} DifferingHalf(x: int, k: nat)
    ensures Differing(x, k + 1) == (if (x % 2 == 1) != (x < 0) then 1 else 0) + Differing(x / 2, k)
  {
    hide Bit;
    BitHalf(x, 0);
    if k > 0 {
      BitHalf(x, k - 1);
      DifferingHalf(x, k - 1);
    }
  }

  /** logcount: the bits set in the magnitude are those that differ from the sign. */
  lemma {:induction false} CountIsDiffering(x: int, k: nat)
    requires Within(x, k)
    ensures Differing(x, k) == CountBits(Magnitude(x))
    decreases k
  {
    if k > 0 {
      DifferingHalf(x, k - 1);
      CountIsDiffering(x / 2, k - 1);
      hide Differing;
      HalfComplement(x);
    }
  }

  lemma {:induction false} CountSplit(w: nat, x: nat, X: nat)
    requires x < Pow2(w)
    ensures CountBits(x + Shifted(X, w)) == CountBits(x) + CountBits(X)
    decreases w
  {
    hide *;
    if w == 0 {
      CountNoBits(X);
    } else {
      ShiftedTwice(X, w);
      CountSplit(w - 1, x / 2, X);
      ShiftedNatural(X, w - 1);
      CountDouble(x / 2 + Shifted(X, w - 1), x % 2);
      CountDouble(x / 2, x % 2);
    }
  }

  lemma CountNoBits(X: nat)
    ensures Pow2(0) == 1 && Shifted(X, 0) == X && CountBits(0) == 0
  {
  }

  lemma ShiftedNatural(X: nat, w: nat)
    ensures Shifted(X, w) >= 0
  {
  }

  lemma CountDouble(x: nat, c: nat)
    requires c <= 1
    ensures CountBits(2 * x + c) == CountBits(x) + c
  {
  }

  // mpn_popcount, with the instruction that counts the bits of a word
  method MpnPopcount(limbs: seq<Limb>) returns (count: nat)
    ensures count == CountBits(Val(limbs))
  {
    hide Val, CountBits, Pow2, PowB;
    count := 0;
    var i := 0;
    CountNothing(limbs[..0]);
    while i < |limbs|
      invariant 0 <= i <= |limbs| && count == CountBits(Val(limbs[..i]))
    {
      CountLimb(limbs[..i], limbs[i]);
      assert limbs[..i] + [limbs[i]] == limbs[..i + 1];
      count := count + CountBits(limbs[i]);
      i := i + 1;
    }
    assert limbs[..i] == limbs;
  }

  lemma CountNothing(limbs: seq<Limb>)
    requires limbs == []
    ensures CountBits(Val(limbs)) == 0
  {
  }

  lemma CountLimb(low: seq<Limb>, limb: Limb)
    ensures CountBits(Val(low + [limb])) == CountBits(Val(low)) + CountBits(limb)
  {
    hide Val, CountBits, Pow2, PowB;
    ValSnoc(low, limb);
    ValBound(low);
    PowBBits(|low|);
    CountSplit(LIMB_BITS * |low|, Val(low), limb);
  }

  /** Bignum_O::popcount */
  method Popcount(i: Integer) returns (count: nat)
    requires i.Bignum? && Canonical(i)
    ensures forall k: nat :: Within(Value(i), k) ==> count == Differing(Value(i), k)
    ensures forall k: nat :: Within(Value(i), k) ==>
              count == |set n: nat | n < k && Bit(Value(i), n) != (Value(i) < 0)|
  {
    forall k: nat | Within(Value(i), k)
      ensures Differing(Value(i), k) == |set n: nat | n < k && Bit(Value(i), n) != (Value(i) < 0)|
    {
      DifferingIsCardinality(Value(i), k);
    }
    hide Val, CountBits, Differing, Within;
    if i.len > 0 {
      count := MpnPopcount(i.limbs);
    } else {
      var sublimbs := SubtractOne(i.limbs);
      count := MpnPopcount(sublimbs);
    }
    assert count == CountBits(Magnitude(Value(i)));
    forall k: nat | Within(Value(i), k) ensures count == Differing(Value(i), k) { CountIsDiffering(Value(i), k); }
  }

  // ---- the length of an integer ----

  function BitLength(x: nat): nat { if x == 0 then 0 else 1 + BitLength(x / 2) }

  lemma {:induction false} BitLengthBounds(x: nat)
    ensures x < Pow2(BitLength(x))
    ensures x > 0 ==> BitLength(x) > 0 && Pow2(BitLength(x) - 1) <= x
  {
    if x > 0 { BitLengthBounds(x / 2); }
  }

  // mpn_sizeinbase for the base two, with the instruction that finds the highest bit
  method MpnSizeInBase2(limbs: seq<Limb>) returns (size: nat)
    requires limbs != [] && limbs[|limbs| - 1] != 0
    ensures size > 0 && Pow2(size - 1) <= Val(limbs) < Pow2(size)
  {
    var top := limbs[|limbs| - 1];
    size := LIMB_BITS * (|limbs| - 1) + BitLength(top);
    hide Val, Pow2, PowB, BitLength;
    BitLengthBounds(top);
    SizeBounds(limbs[..|limbs| - 1], top, BitLength(top));
    assert limbs[..|limbs| - 1] + [top] == limbs;
  }

  lemma SizeBounds(low: seq<Limb>, top: Limb, b: nat)
    requires b > 0 && Pow2(b - 1) <= top < Pow2(b)
    ensures Pow2(LIMB_BITS * |low| + b - 1) <= Val(low + [top]) < Pow2(LIMB_BITS * |low| + b)
  {
    ValSnoc(low, top);
    ValBound(low);
    PowBBits(|low|);
    PowAdd(LIMB_BITS * |low|, b);
    PowAdd(LIMB_BITS * |low|, b - 1);
    var p := PowB(|low|);
    hide *;
    Scaled(p, Pow2(b - 1), top);
    Scaled(p, top + 1, Pow2(b));
    Distribute(p, top, -1);
  }

  lemma Scaled(p: nat, x: int, y: int)
    requires x <= y
    ensures p * x <= p * y
  {
  }

  /** Bignum_O::bit_length_: the least k such that the integer lies between
      -2^k and 2^k. */
  method BitLengthOf(i: Integer) returns (length: nat)
    requires i.Bignum? && Canonical(i)
    ensures Within(Value(i), length) && forall k: nat :: Within(Value(i), k) ==> length <= k
  {
    hide Val, Pow2, PowB;
    NonzeroLength(i);
    if i.len > 0 {
      length := MpnSizeInBase2(i.limbs);
    } else {
      var sublimbs := SubtractOne(i.limbs);
      var size := |sublimbs|;
      if sublimbs[size - 1] == 0 {
        QuickNormalize(i.limbs, sublimbs, 1);
        SomeLimb(sublimbs[..size - 1]);
        size := size - 1;
      }
      length := MpnSizeInBase2(sublimbs[..size]);
      assert sublimbs[..|sublimbs|] == sublimbs;
    }
    LeastLength(Value(i), length);
  }

  lemma SomeLimb(limbs: seq<Limb>)
    requires Val(limbs) > 0
    ensures limbs != []
  {
  }

  lemma LeastLength(x: int, length: nat)
    requires length > 0 && Pow2(length - 1) <= Magnitude(x) < Pow2(length)
    ensures Within(x, length) && forall k: nat :: Within(x, k) ==> length <= k
  {
    forall k: nat | Within(x, k) ensures length <= k {
      if k < length { PowMonotone(k, length - 1); }
    }
  }
}
