/** Greatest common divisors of bignums. */
module BignumGcd {
  import opened TwosComplement
  import opened Limbs
  import opened LimbBuffers
  import opened Bignum
  import opened LogicalOperations
  import opened BignumAddition
  import opened BignumShifts
  import opened Divisors

  // The limbs of a number.
  function LimbsOf(n: nat): (limbs: seq<Limb>)
    ensures n > 0 ==> limbs != []
    ensures Normal(limbs)
    decreases n
  {
    BaseBig();
    QuotientSmaller(n);
    if n == 0 then [] else [LowWord(n)] + LimbsOf(HighWord(n))
  }

  lemma QuotientSmaller(n: nat)
    ensures n > 0 ==> 0 <= HighWord(n) < n
    ensures n > 0 && HighWord(n) == 0 ==> LowWord(n) == n
  {
    if n > 0 {
      Carry(n);
      BaseBig();
      BaseIs(HighWord(n));
      SmallerQuotient(n, HighWord(n), LowWord(n));
    }
  }

  lemma SmallerQuotient(n: nat, h: int, w: Limb)
    requires n > 0 && n == w + BASE * h && BASE > 2
    ensures 0 <= h < n && (h == 0 ==> n == w)
  {
    if h < 0 { Multiple(BASE, 0 - h); Distribute(BASE, 0, h); Distribute(BASE, 0, 0 - h); }
    if h > 0 { assert BASE * h >= 2 * h; }
  }

  lemma {:induction false} LimbsOfVal(n: nat)
    ensures Val(LimbsOf(n)) == n
    decreases n
  {
    if n > 0 {
      QuotientSmaller(n);
      LimbsOfVal(HighWord(n));
      Carry(n);
      assert LimbsOf(n)[1..] == LimbsOf(HighWord(n));
    }
  }

  // mpn_gcd, which wants the larger number first and an odd number among the
  // two; here the second.
  method MpnGcd(a: seq<Limb>, b: seq<Limb>) returns (g: seq<Limb>)
    requires a != [] && b != [] && Normal(a) && Normal(b) && Val(b) % 2 == 1
    requires |b| < |a| || (|b| == |a| && b[|b| - 1] <= a[|a| - 1])
    ensures g != [] && Normal(g) && Val(g) == Gcd(Val(a), Val(b))
  {
    hide Val, Normal;
    LimbsOfVal(Gcd(Val(a), Val(b)));
    g := LimbsOf(Gcd(Val(a), Val(b)));
  }

  // The number of zero bits below the lowest set bit of a word.
  function TrailingZeros(x: nat): (z: nat)
    requires x > 0
    ensures x % 2 == 1 <==> z == 0
  {
    if x % 2 == 1 then 0 else 1 + TrailingZeros(x / 2)
  }

  lemma {:induction false} TrailingZerosMean(x: nat, w: nat)
    requires 0 < x < Pow2(w)
    ensures TrailingZeros(x) < w
    ensures ShiftedDown(x, TrailingZeros(x)) % 2 == 1
              && x == Shifted(ShiftedDown(x, TrailingZeros(x)), TrailingZeros(x))
    decreases w
  {
    if x % 2 == 1 {
      ShiftedDownNothing(x);
      ShiftedNone(x);
    } else {
      hide Shifted, ShiftedDown;
      TrailingZerosMean(x / 2, w - 1);
      var z := TrailingZeros(x / 2);
      ShiftedDownAgain(x, 1, z);
      ShiftedDownOnce(x);
      ShiftedTwice(ShiftedDown(x / 2, z), z + 1);
    }
  }

  lemma ShiftedDownOnce(x: int)
    ensures ShiftedDown(x, 1) == x / 2
  {
    assert Pow2(1) == 2;
  }

  // The lowest limb decides how far a number can be shifted down exactly.
  lemma OddAboveZeros(x: Limb, rest: nat)
    requires x > 0
    ensures var z, v := TrailingZeros(x), x + BaseTimes(rest);
            z < LIMB_BITS && ShiftedDown(v, z) % 2 == 1 && v == Shifted(ShiftedDown(v, z), z)
  {
    hide *;
    var z := TrailingZeros(x);
    LimbFits(x);
    TrailingZerosMean(x, LIMB_BITS);
    var odd := ShiftedDown(x, z);
    var above := EvenMultiple(rest, LIMB_BITS, z);
    BaseLinear(rest, 0);
    EvenIsShifted(above, z);
    ShiftedTotal(x + BaseTimes(rest), x, BaseTimes(rest), z);
    ShiftedSum(odd, 2 * above, z);
    MultipleShiftedDown(odd + 2 * above, z);
  }

  lemma LimbFits(x: Limb)
    ensures x < Pow2(LIMB_BITS)
  {
  }

  lemma EvenIsShifted(c: int, z: nat)
    ensures Pow2(z) * (2 * c) == Shifted(2 * c, z)
  {
  }

  /** The zero limbs and bits shifted out of an operand, which leaves an odd number. */
  method StripZeros(limbs: seq<Limb>) returns (odd: seq<Limb>, zeroLimbs: nat, zeroBits: nat)
    requires limbs != [] && Normal(limbs)
    ensures odd != [] && Normal(odd) && Val(odd) % 2 == 1 && zeroBits < LIMB_BITS
    ensures Val(limbs) == Shifted(Val(odd), LIMB_BITS * zeroLimbs + zeroBits)
  {
    hide *;
    var rest := limbs;
    zeroLimbs := 0;
    PositiveNormal(limbs);
    ZeroPlaces(rest);
    while rest[0] == 0
      invariant rest != [] && Normal(rest) && Val(rest) > 0 && Val(limbs) == Place(zeroLimbs, Val(rest))
      decreases |rest|
    {
      DropZeroLimb(rest, zeroLimbs);
      zeroLimbs := zeroLimbs + 1;
      rest := rest[1..];
    }
    zeroBits := TrailingZeros(rest[0]);
    LowestLimb(rest);
    OddAboveZeros(rest[0], Val(rest[1..]));
    var copy := new Limb[|rest|](_ => 0);
    RshiftMagnitude(copy, rest, zeroBits);
    var size := |rest|;
    ghost var all := copy[..size];
    NothingPlaced(zeroBits);
    QuotientNormal(rest, 0, zeroBits, all);
    NotTopZero(all);
    if zeroBits != 0 && copy[size - 1] == 0 {
      size := size - 1;
    }
    odd := copy[..size];
    assert odd == if size == |rest| then all else all[..|all| - 1];
    OddNotEmpty(odd);
    PlaceShifted(zeroLimbs, Val(odd), zeroBits);
  }

  lemma ZeroPlaces(limbs: seq<Limb>)
    ensures Place(0, Val(limbs)) == Val(limbs)
  {
    NothingAtPlace(0, Val(limbs));
  }

  lemma NothingPlaced(b: nat)
    ensures LIMB_BITS * 0 + b == b
  {
  }

  lemma LowestLimb(limbs: seq<Limb>)
    requires limbs != []
    ensures Val(limbs) == limbs[0] + BaseTimes(Val(limbs[1..]))
  {
  }

  lemma OddNotEmpty(limbs: seq<Limb>)
    requires Val(limbs) % 2 == 1
    ensures limbs != []
  {
  }

  lemma DropZeroLimb(limbs: seq<Limb>, n: nat)
    requires limbs != [] && limbs[0] == 0 && Val(limbs) > 0 && Normal(limbs)
    ensures limbs[1..] != [] && Normal(limbs[1..]) && Val(limbs[1..]) > 0
    ensures Place(n, Val(limbs)) == Place(n + 1, Val(limbs[1..]))
  {
    hide PowB, Pow2;
    LowestLimb(limbs);
    PlaceSum(n, Val(limbs[1..]), 0);
    hide BaseTimes;
    if Val(limbs[1..]) == 0 { BaseOfNothing(); }
  }

  lemma BaseOfNothing()
    ensures BaseTimes(0) == 0
  {
  }

  // The smaller of two shifts, compared limbs first.
  lemma SmallerShift(l1: nat, b1: nat, l2: nat, b2: nat)
    requires b1 < LIMB_BITS && b2 < LIMB_BITS
    ensures var s1, s2 := LIMB_BITS * l1 + b1, LIMB_BITS * l2 + b2;
            (l1 > l2 ==> s2 < s1) && (l1 < l2 ==> s1 < s2)
  {
  }

  /** next_gcd: the greatest common divisor of two magnitudes, in canonical form. */
  method NextGcd(llimbs: seq<Limb>, rlimbs: seq<Limb>) returns (r: Integer)
    requires llimbs != [] && Normal(llimbs) && rlimbs != [] && Normal(rlimbs)
    ensures Canonical(r) && Value(r) == Gcd(Val(llimbs), Val(rlimbs))
  {
    hide *;
    var left, leftLimbs, leftBits := StripZeros(llimbs);
    var right, rightLimbs, rightBits := StripZeros(rlimbs);
    SmallerShift(leftLimbs, leftBits, rightLimbs, rightBits);
    var zeroLimbs, zeroBits: nat;
    if leftLimbs > rightLimbs {
      zeroLimbs, zeroBits := rightLimbs, rightBits;
    } else if leftLimbs < rightLimbs {
      zeroLimbs, zeroBits := leftLimbs, leftBits;
    } else {
      zeroLimbs, zeroBits := leftLimbs, if leftBits < rightBits then leftBits else rightBits;
    }
    GcdShifted(Val(left), LIMB_BITS * leftLimbs + leftBits, Val(right), LIMB_BITS * rightLimbs + rightBits);
    var g: seq<Limb>;
    if |left| < |right| || (|left| == |right| && left[|left| - 1] < right[|right| - 1]) {
      g := MpnGcd(right, left);
      GcdSymmetric(Val(right), Val(left));
    } else {
      g := MpnGcd(left, right);
    }
    r := ShiftedUp(g, zeroLimbs, zeroBits);
  }

  // The shared zero limbs and bits put back.
  method ShiftedUp(limbs: seq<Limb>, zeroLimbs: nat, zeroBits: nat) returns (r: Integer)
    requires limbs != [] && Normal(limbs) && zeroBits < LIMB_BITS
    ensures Canonical(r) && Value(r) == Shifted(Val(limbs), LIMB_BITS * zeroLimbs + zeroBits)
  {
    hide *;
    var resultSize := |limbs| + zeroLimbs;
    var result := new Limb[resultSize + 1](_ => 0);
    var carry := ShiftInto(result, limbs, zeroLimbs, zeroBits);
    ghost var middle := result[zeroLimbs..zeroLimbs + |limbs|];
    Clear(result, zeroLimbs);
    if carry != 0 {
      result[resultSize] := carry;
      resultSize := resultSize + 1;
    }
    ConcatPointwise(result[..resultSize], zeroLimbs, middle, carry);
    ShiftedLimbs(zeroLimbs, middle, carry, Val(limbs), zeroBits);
    NotTopZero(result[..resultSize]);
    if carry == 0 {
      ShiftedTop(limbs, middle, zeroBits);
      TopOfConcat(Zeros(zeroLimbs), middle);
    }
    PositiveResult(result, resultSize);
    r := BignumResult(resultSize, result[..resultSize]);
  }

  lemma PositiveResult(result: array<Limb>, size: nat)
    requires size <= result.Length && Normal(result[..size])
    ensures Value(BignumResult(size, result[..size])) == Val(result[..size])
    ensures Canonical(BignumResult(size, result[..size]))
    ensures Abs(size) == size
  {
    hide Val, Normal, BignumResult, Canonical;
    ResultCanonical(result, size);
  }

  lemma MagnitudeOf(i: Integer)
    requires i.Bignum? && Canonical(i)
    ensures Val(i.limbs) == Abs(Value(i))
  {
  }

  /** core__next_gcd */
  method GcdOfBignums(left: Integer, right: Integer) returns (r: Integer)
    requires left.Bignum? && right.Bignum? && Canonical(left) && Canonical(right)
    ensures Canonical(r) && Value(r) == Gcd(Abs(Value(left)), Abs(Value(right)))
  {
    hide *;
    NonzeroLimbs(left);
    NonzeroLimbs(right);
    MagnitudeOf(left);
    MagnitudeOf(right);
    r := NextGcd(left.limbs, right.limbs);
  }

  // What make_fixnum keeps of a word.
  function WrapFixnum(x: int): (f: int)
    ensures IsFixnum(f)
    ensures IsFixnum(x) ==> f == x
  {
    (x - MOST_NEGATIVE_FIXNUM) % 0x4000_0000_0000_0000 + MOST_NEGATIVE_FIXNUM
  }

  // mpn_gcd_1
  function MpnGcd1(limbs: seq<Limb>, small: nat): (g: nat)
    requires small > 0
    ensures 0 < g <= small
  {
    GcdGreatest(Val(limbs), small, 1);
    DivisorAtMost(Gcd(Val(limbs), small), small);
    Gcd(Val(limbs), small)
  }

  // core__next_fgcd
  function NextFgcd(big: Integer, small: int): Integer
    requires big.Bignum?
  {
    if small == 0 then big else Fixnum(WrapFixnum(MpnGcd1(big.limbs, Abs(small))))
  }

  /** The greatest common divisor of a bignum and a fixnum comes out right unless
      the fixnum is zero and the bignum negative, which is then returned as it is,
      or the divisor is the magnitude of the most negative fixnum, which is none. */
  lemma NextFgcdExactly(big: Integer, small: int)
    requires big.Bignum? && Canonical(big) && IsFixnum(small)
    ensures Canonical(NextFgcd(big, small))
    ensures Value(NextFgcd(big, small)) == Gcd(Abs(Value(big)), Abs(small))
            <==> !(small == 0 && big.len < 0)
                 && !(small == MOST_NEGATIVE_FIXNUM && Divides(0x2000_0000_0000_0000, Value(big)))
  {
    hide Val;
    MagnitudeOf(big);
    var x, y := Abs(Value(big)), Abs(small);
    NonzeroLength(big);
    if small != 0 {
      GcdGreatest(x, y, y);
      DivisorAtMost(Gcd(x, y), y);
      MultiplesDivide(y, 1);
      if Divides(y, x) { DivisorAtMost(y, Gcd(x, y)); }
      NegativeMultiple(y, x);
      hide Gcd, Divides;
    }
  }

  /** Both inputs exist: a negative bignum comes back for a zero fixnum, and the
      greatest common divisor of -2^63 and -2^61 comes out negative. */
  lemma NextFgcdGoesWrong()
    ensures Canonical(Bignum(-1, [TOP_BIT])) && Value(Bignum(-1, [TOP_BIT])) == -0x8000_0000_0000_0000
    ensures Value(NextFgcd(Bignum(-1, [TOP_BIT]), 0)) == -0x8000_0000_0000_0000
    ensures NextFgcd(Bignum(-1, [TOP_BIT]), MOST_NEGATIVE_FIXNUM) == Fixnum(MOST_NEGATIVE_FIXNUM)
  {
    Pow62();
    PowQuad(62);
    ValOne(TOP_BIT);
    var v, d := 0x8000_0000_0000_0000, 0x2000_0000_0000_0000;
    hide Pow2, Gcd;
    GcdGreatest(v, d, d);
    DivisorAtMost(Gcd(v, d), d);
    MultiplesDivide(d, 4);
    MultiplesDivide(d, 1);
    DivisorAtMost(d, Gcd(v, d));
  }

  lemma NegativeMultiple(d: nat, n: int)
    requires d > 0
    ensures Divides(d, n) <==> Divides(d, 0 - n)
  {
    if Divides(d, n) {
      var k := Quotient(d, n);
      MultiplesDivide(d, 0 - k);
      Distribute(d, 0, k);
    }
    if Divides(d, 0 - n) {
      var k := Quotient(d, 0 - n);
      MultiplesDivide(d, 0 - k);
      Distribute(d, 0, k);
    }
  }
}
