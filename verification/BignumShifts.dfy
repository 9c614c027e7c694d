/** Shifts of bignums. */
module BignumShifts {
  import opened TwosComplement
  import opened Limbs
  import opened LimbBuffers
  import opened Bignum
  import opened LogicalOperations
  import opened BignumAddition

  // The whole limbs of a shift, which are counted in 32 bits.
  function LimbShift(shift: nat): nat { shift / LIMB_BITS % 0x1_0000_0000 }

  function BitShift(shift: nat): (b: nat)
    ensures b < LIMB_BITS
  {
    shift % LIMB_BITS
  }

  // The shift that takes place.
  function EffectiveShift(shift: nat): nat { LIMB_BITS * LimbShift(shift) + BitShift(shift) }

  lemma EffectiveShiftExact(shift: nat)
    ensures EffectiveShift(shift) <= shift
    ensures EffectiveShift(shift) == shift <==> shift / LIMB_BITS < 0x1_0000_0000
  {
  }

  // ---- left ----

  lemma ShiftedSum(x: int, y: int, b: nat)
    ensures Shifted(x + y, b) == Shifted(x, b) + Shifted(y, b)
    ensures Shifted(0, b) == 0
  {
    Distribute(Pow2(b), x, y);
  }

  lemma ShiftedTotal(z: int, x: int, y: int, b: nat)
    requires z == x + y
    ensures Shifted(z, b) == Shifted(x, b) + Shifted(y, b)
  {
    ShiftedSum(x, y, b);
  }

  lemma PlaceShifted(n: nat, x: int, b: nat)
    ensures Place(n, Shifted(x, b)) == Shifted(Place(n, x), b) == Shifted(x, LIMB_BITS * n + b)
  {
    PowBBits(n);
    PowAdd(LIMB_BITS * n, b);
    var p, q := PowB(n), Pow2(b);
    hide PowB, Pow2;
    Rotated(p, q, x);
  }

  lemma Rotated(p: int, q: int, x: int)
    ensures p * (q * x) == q * (p * x) == (p * q) * x
  {
  }

  // One limb of a left shift.
  lemma LshiftStep(done: seq<Limb>, read: seq<Limb>, x: Limb, y: Limb, carry: int, carry': int, b: nat)
    requires |done| == |read| && Val(done) + Place(|done|, carry) == Shifted(Val(read), b)
    requires y + BaseTimes(carry') == Shifted(x, b) + carry
    ensures Val(done + [y]) + Place(|done| + 1, carry') == Shifted(Val(read + [x]), b)
  {
    hide *;
    SnocPlace(done, y);
    SnocPlace(read, x);
    ShiftedTotal(Val(read + [x]), Val(read), Place(|done|, x), b);
    PlaceShifted(|done|, x, b);
    Regrouped(|done|, Shifted(x, b), carry, y, carry');
  }

  // A word shifted left, with the bits that come in and those that go out.
  method LshiftWord(x: Limb, carry: Limb, b: nat) returns (y: Limb, carry': Limb)
    requires carry < Pow2(b) && b < LIMB_BITS
    ensures y + BaseTimes(carry') == Shifted(x, b) + carry && carry' < Pow2(b)
  {
    hide Pow2, Shifted, BaseTimes, LowWord, HighWord;
    LshiftCarry(x, carry, b);
    PowMonotone(b, LIMB_BITS);
    y, carry' := LowWord(Shifted(x, b) + carry), HighWord(Shifted(x, b) + carry);
  }

  lemma LshiftCarry(x: Limb, carry: int, b: nat)
    requires 0 <= carry < Pow2(b) && b < LIMB_BITS
    ensures var sum := Shifted(x, b) + carry;
            LowWord(sum) + BaseTimes(HighWord(sum)) == sum && 0 <= HighWord(sum) < Pow2(b)
  {
    var sum := Shifted(x, b) + carry;
    Carry(sum);
    var p := Pow2(b);
    hide Pow2;
    assert 0 <= p * x <= p * (BASE - 1) by {
      ProductNatural(p, x);
      ProductNatural(p, BASE - 1 - x);
      Distribute(p, BASE - 1, x);
    }
    HighWordBound(sum, p);
  }

  lemma ProductNatural(p: nat, x: nat)
    ensures p * x >= 0
  {
  }

  lemma HighWordBound(sum: nat, p: nat)
    requires sum < p * (BASE - 1) + p
    ensures HighWord(sum) < p
  {
    var h := sum / BASE;
    if h >= p {
      ProductNatural(BASE, h - p);
      Distribute(BASE, h, p);
    }
  }

  // mpn_lshift into a buffer from an index on
  method MpnLshift(result: array<Limb>, at: nat, limbs: seq<Limb>, b: nat) returns (carry: Limb)
    requires at + |limbs| <= result.Length && b < LIMB_BITS
    modifies result
    ensures Val(result[at..at + |limbs|]) + Place(|limbs|, carry) == Shifted(Val(limbs), b)
    ensures forall k :: 0 <= k < result.Length && !(at <= k < at + |limbs|) ==> result[k] == old(result[k])
  {
    hide *;
    ShiftedSum(0, 0, b);
    NoLimbsYet();
    ghost var read, done: seq<Limb> := [], [];
    var i: nat := 0;
    carry := 0;
    while i < |limbs|
      invariant i <= |limbs| && |done| == |read| == i && carry < Pow2(b)
      invariant forall k :: 0 <= k < i ==> result[at + k] == done[k] && limbs[k] == read[k]
      invariant Val(done) + Place(i, carry) == Shifted(Val(read), b)
      invariant forall k :: 0 <= k < result.Length && !(at <= k < at + i) ==> result[k] == old(result[k])
    {
      var y, carry' := LshiftWord(limbs[i], carry, b);
      LshiftStep(done, read, limbs[i], y, carry, carry', b);
      read, done := read + [limbs[i]], done + [y];
      result[at + i] := y;
      carry := carry';
      i := i + 1;
    }
    assert result[at..at + |limbs|] == done && limbs == read;
  }

  // A shifted magnitude: zero limbs, the shifted limbs, and what was carried out.
  lemma ShiftedLimbs(n: nat, middle: seq<Limb>, carry: Limb, v: nat, b: nat)
    requires Val(middle) + Place(|middle|, carry) == Shifted(v, b)
    ensures Val(Zeros(n) + middle + [carry]) == Shifted(v, LIMB_BITS * n + b)
    ensures carry == 0 ==> Val(Zeros(n) + middle) == Shifted(v, LIMB_BITS * n + b)
  {
    hide *;
    PlaceShifted(n, v, b);
    SnocPlace(middle, carry);
    PlaceSum(|middle|, carry, 0);
    assert Zeros(n) + middle + [carry] == Zeros(n) + (middle + [carry]);
    PlacedAbove(n, middle + [carry]);
    PlacedAbove(n, middle);
  }

  lemma PlacedAbove(n: nat, limbs: seq<Limb>)
    ensures Val(Zeros(n) + limbs) == Place(n, Val(limbs))
  {
    ValConcat(Zeros(n), limbs);
    ValZeros(n);
  }

  // A shift makes a magnitude no smaller.
  lemma ShiftedGrows(v: nat, b: nat)
    ensures v <= Shifted(v, b)
    ensures Shifted(0 - v, b) == 0 - Shifted(v, b)
  {
    PowMonotone(0, b);
    assert (Pow2(b) - 1) * v >= 0;
    Distribute(Pow2(b), 0, v);
  }

  // The limbs of the magnitude shifted into the buffer above the whole limbs.
  method ShiftInto(result: array<Limb>, limbs: seq<Limb>, nlimbs: nat, nbits: nat) returns (carry: Limb)
    requires result.Length == |limbs| + nlimbs + 1 && nbits < LIMB_BITS
    modifies result
    ensures Val(result[nlimbs..nlimbs + |limbs|]) + Place(|limbs|, carry) == Shifted(Val(limbs), nbits)
  {
    hide Val, Shifted, Place;
    if nbits == 0 {
      carry := 0;
      CopyUp(result, nlimbs, limbs);
      NoShift(Val(limbs), |limbs|);
    } else {
      carry := MpnLshift(result, nlimbs, limbs, nbits);
    }
  }

  /** core__next_lshift: the product with a power of two, in canonical form. */
  method NextLshift(num: Integer, shift: nat) returns (r: Integer)
    requires num.Bignum? && Canonical(num)
    ensures r.Bignum? && Canonical(r) && Value(r) == Shifted(Value(num), EffectiveShift(shift))
    ensures Value(r) == Shifted(Value(num), shift) <==> shift / LIMB_BITS < 0x1_0000_0000
  {
    hide *;
    NonzeroLimbs(num);
    ghost var e := EffectiveShiftIs(shift);
    var size := |num.limbs|;
    var nlimbs, nbits := LimbShift(shift), BitShift(shift);
    var resultSize := size + nlimbs + 1;
    var result := new Limb[resultSize](_ => 0);
    var carry := ShiftInto(result, num.limbs, nlimbs, nbits);
    ghost var middle := result[nlimbs..nlimbs + size];
    if carry == 0 {
      resultSize := resultSize - 1;
    } else {
      result[resultSize - 1] := carry;
    }
    Clear(result, nlimbs);
    var limbs := result[..resultSize];
    ConcatPointwise(limbs, nlimbs, middle, carry);
    r := Bignum(if num.len < 0 then -(resultSize as int) else resultSize, limbs);
    LshiftResult(num, r, middle, carry, nlimbs, nbits);
    LshiftExact(num, shift);
  }

  lemma EffectiveShiftIs(shift: nat) returns (e: nat)
    ensures e == EffectiveShift(shift) == LIMB_BITS * LimbShift(shift) + BitShift(shift)
  {
    e := EffectiveShift(shift);
  }

  lemma ConcatPointwise(limbs: seq<Limb>, n: nat, middle: seq<Limb>, carry: Limb)
    requires |limbs| == n + |middle| + if carry == 0 then 0 else 1
    requires forall k :: 0 <= k < n ==> limbs[k] == 0
    requires forall k :: 0 <= k < |middle| ==> limbs[n + k] == middle[k]
    requires carry != 0 ==> limbs[|limbs| - 1] == carry
    ensures limbs == if carry == 0 then Zeros(n) + middle else Zeros(n) + middle + [carry]
  {
  }

  lemma LshiftResult(num: Integer, r: Integer, middle: seq<Limb>, carry: Limb, n: nat, b: nat)
    requires num.Bignum? && Canonical(num) && |middle| == |num.limbs|
    requires Val(middle) + Place(|middle|, carry) == Shifted(Val(num.limbs), b)
    requires r.Bignum? && r.limbs == if carry == 0 then Zeros(n) + middle else Zeros(n) + middle + [carry]
    requires r.len == if num.len < 0 then -(|r.limbs| as int) else |r.limbs|
    ensures Canonical(r) && Value(r) == Shifted(Value(num), LIMB_BITS * n + b)
  {
    hide Val, Shifted, Place, Normal;
    var v, k := Val(num.limbs), LIMB_BITS * n + b;
    ShiftedLimbs(n, middle, carry, v, b);
    ShiftedGrows(v, k);
    NonzeroLength(num);
    if carry == 0 {
      ShiftedTop(num.limbs, middle, b);
      TopOfConcat(Zeros(n), middle);
    } else {
      TopLimbNormal(r.limbs);
    }
  }

  lemma TopOfConcat(low: seq<Limb>, high: seq<Limb>)
    requires high != [] && Normal(high)
    ensures Normal(low + high)
  {
  }

  lemma ShiftedTop(limbs: seq<Limb>, middle: seq<Limb>, b: nat)
    requires |middle| == |limbs| && limbs != [] && Normal(limbs)
               && Val(middle) + Place(|middle|, 0) == Shifted(Val(limbs), b)
    ensures Normal(middle)
  {
    hide Val, PowB, Pow2, Shifted, Place, Normal;
    PlaceSum(|middle|, 0, 0);
    ShiftedGrows(Val(limbs), b);
    NormalBound(limbs);
    NormalByBound(middle);
  }

  lemma NoShift(v: nat, n: nat)
    ensures v + Place(n, 0) == Shifted(v, 0)
  {
  }

  // Copying limbs into a buffer from an index on.
  method CopyUp(result: array<Limb>, at: nat, limbs: seq<Limb>)
    requires at + |limbs| <= result.Length
    modifies result
    ensures result[at..at + |limbs|] == limbs
    ensures forall k :: 0 <= k < result.Length && !(at <= k < at + |limbs|) ==> result[k] == old(result[k])
  {
    var i := 0;
    while i < |limbs|
      invariant 0 <= i <= |limbs|
      invariant forall k :: 0 <= k < i ==> result[at + k] == limbs[k]
      invariant forall k :: 0 <= k < result.Length && !(at <= k < at + i) ==> result[k] == old(result[k])
    {
      result[at + i] := limbs[i];
      i := i + 1;
    }
  }

  method Clear(result: array<Limb>, n: nat)
    requires n <= result.Length
    modifies result
    ensures forall k :: 0 <= k < result.Length ==> result[k] == if k < n then 0 else old(result[k])
  {
    var i := 0;
    while i < n
      invariant 0 <= i <= n
      invariant forall k :: 0 <= k < result.Length ==> result[k] == if k < i then 0 else old(result[k])
    {
      result[i] := 0;
      i := i + 1;
    }
  }

  // ---- right ----

  // A word shifted right, with the bits that come in from the next one.
  function RshiftWord(x: Limb, next: Limb, b: nat): (r: Limb)
    requires 0 < b < LIMB_BITS
  {
    RshiftWordFits(x, next, b);
    x / Pow2(b) + LowWord(Shifted(next, LIMB_BITS - b))
  }

  lemma RshiftWordFits(x: Limb, next: nat, b: nat)
    requires 0 < b < LIMB_BITS
    ensures 0 <= x / Pow2(b) + LowWord(Shifted(next, LIMB_BITS - b)) < BASE
    ensures LowWord(Shifted(next, LIMB_BITS - b)) == Pow2(LIMB_BITS - b) * (next % Pow2(b))
  {
    PowAdd(b, LIMB_BITS - b);
    var p, q := Pow2(b), Pow2(LIMB_BITS - b);
    hide Pow2;
    WordParts(x, next, p, q);
  }

  lemma WordParts(x: Limb, next: nat, p: nat, q: nat)
    requires p > 0 && q > 0 && BASE == p * q
    ensures 0 <= x / p + q * (next % p) < BASE
    ensures (q * next) % BASE == q * (next % p)
  {
    hide *;
    var h, r := next / p, next % p;
    assert next == p * h + r;
    ProductParts(p, q, h, r);
    WordHigh(x, p, q);
    ProductNatural(q, p - 1 - r);
    Distribute(q, p - 1, r);
    Distribute(q, p, 1);
    ProductNatural(q, r);
    BaseProduct(p, q);
    DivUnique(q * next, BASE, h, q * r);
  }

  lemma BaseProduct(p: nat, q: nat)
    ensures q * p == p * q && q * 1 == q
  {
  }

  lemma ProductParts(p: nat, q: nat, h: int, r: int)
    ensures q * (p * h + r) == (p * q) * h + q * r
  {
  }

  lemma WordHigh(x: nat, p: nat, q: nat)
    requires p > 0 && x < p * q
    ensures 0 <= x / p < q
  {
    var h := x / p;
    if h >= q {
      Distribute(p, h, q);
      ProductNatural(p, h - q);
    }
  }

  function ShiftedDown(x: int, e: nat): int { x / Pow2(e) }

  // One limb of a right shift.
  lemma RshiftStep(x: Limb, next: Limb, rest: nat, b: nat)
    requires 0 < b < LIMB_BITS && next == LowWord(rest)
    ensures RshiftWord(x, next, b) + BaseTimes(ShiftedDown(rest, b)) == ShiftedDown(x + BaseTimes(rest), b)
  {
    RshiftWordFits(x, next, b);
    PowAdd(b, LIMB_BITS - b);
    var p, q := Pow2(b), Pow2(LIMB_BITS - b);
    hide Pow2;
    assert next % p == rest % p by { SameRemainder(rest, p, q); }
    RshiftArithmetic(x, rest, p, q);
  }

  lemma SameRemainder(x: nat, p: nat, q: nat)
    requires p > 0 && BASE == p * q
    ensures LowWord(x) % p == x % p
  {
    hide *;
    var h, w := HighWord(x), LowWord(x);
    Carry(x);
    BaseIs(h);
    var d, r := w / p, w % p;
    assert w == p * d + r;
    assert x == p * (q * h + d) + r by { Nested(p, q, h, d); }
    DivUnique(x, p, q * h + d, r);
  }

  lemma Nested(p: int, q: int, h: int, d: int)
    ensures p * (q * h + d) == (p * q) * h + p * d
  {
  }

  lemma RshiftArithmetic(x: Limb, rest: nat, p: nat, q: nat)
    requires p > 0 && q > 0 && BASE == p * q
    ensures x / p + q * (rest % p) + BaseTimes(rest / p) == (x + BaseTimes(rest)) / p
  {
    hide *;
    var h, r := rest / p, rest % p;
    assert rest == p * h + r;
    ProductParts(p, q, h, r);
    BaseIs(rest);
    BaseIs(h);
    AddMultiple(x, p, q * rest);
    assert p * (q * rest) == (p * q) * rest by { Nested(p, q, rest, 0); }
  }

  lemma BaseIs(x: int)
    ensures BaseTimes(x) == BASE * x
  {
  }

  lemma {:induction false} RshiftVal(limbs: seq<Limb>, r: seq<Limb>, b: nat)
    requires 0 < b < LIMB_BITS && |r| == |limbs|
    requires forall i :: 0 <= i < |r| ==> r[i] == RshiftWord(limbs[i], Digit(limbs, i + 1), b)
    ensures Val(r) == ShiftedDown(Val(limbs), b)
  {
    if limbs == [] {
      DivUnique(0, Pow2(b), 0, 0);
    } else {
      hide Pow2, ShiftedDown, RshiftWord, BaseTimes;
      forall i | 0 <= i < |r| - 1
        ensures r[1..][i] == RshiftWord(limbs[1..][i], Digit(limbs[1..], i + 1), b)
      {
        assert r[1..][i] == r[i + 1] && Digit(limbs[1..], i + 1) == Digit(limbs, i + 1 + 1);
      }
      RshiftVal(limbs[1..], r[1..], b);
      FirstDigit(limbs[1..]);
      RshiftStep(limbs[0], Digit(limbs, 1), Val(limbs[1..]), b);
    }
  }

  lemma FirstDigit(limbs: seq<Limb>)
    ensures Digit(limbs, 0) == LowWord(Val(limbs))
  {
    hide Pow2;
    WordItself(Digit(limbs, 0));
    if limbs != [] {
      LowWordAdd(limbs[0], 0 - Val(limbs[1..]));
      BaseLinear(0, Val(limbs[1..]));
      hide BaseTimes;
    }
  }

  // mpn_rshift, without the bits shifted out
  method MpnRshift(result: array<Limb>, limbs: seq<Limb>, b: nat)
    requires |limbs| <= result.Length && 0 < b < LIMB_BITS
    modifies result
    ensures Val(result[..|limbs|]) == ShiftedDown(Val(limbs), b)
  {
    hide *;
    var i := 0;
    while i < |limbs|
      invariant 0 <= i <= |limbs|
      invariant forall k :: 0 <= k < i ==> result[k] == RshiftWord(limbs[k], Digit(limbs, k + 1), b)
    {
      result[i] := RshiftWord(limbs[i], Digit(limbs, i + 1), b);
      i := i + 1;
    }
    RshiftVal(limbs, result[..|limbs|], b);
  }

  // ---- quotients by powers of two ----

  // A shift by whole limbs and bits, taken one after the other.
  lemma ShiftedDownLimbs(limbs: seq<Limb>, n: nat, b: nat)
    requires n <= |limbs|
    ensures ShiftedDown(Val(limbs[n..]), b) == ShiftedDown(Val(limbs), LIMB_BITS * n + b)
  {
    PowBBits(n);
    PowAdd(LIMB_BITS * n, b);
    LimbQuotients(limbs, n);
    DivDiv(Val(limbs), PowB(n), Pow2(b));
  }

  lemma ShiftedDownSmall(x: nat, k: nat, e: nat)
    requires x < Pow2(k) && k <= e
    ensures ShiftedDown(x, e) == 0
  {
    PowMonotone(k, e);
    DivUnique(x, Pow2(e), 0, x);
  }

  // The quotient of a negative number, rounded down.
  lemma ShiftedDownNegative(v: nat, e: nat)
    requires v > 0
    ensures ShiftedDown(0 - v, e) == 0 - ShiftedDown(v - 1, e) - 1
  {
    var p := Pow2(e);
    var q, r := (v - 1) / p, (v - 1) % p;
    assert v - 1 == p * q + r;
    assert 0 - v == p * (0 - q - 1) + (p - 1 - r) by { Distribute(p, 0, q + 1); Distribute(p, 0 - q, 1); }
    DivUnique(0 - v, p, 0 - q - 1, p - 1 - r);
  }

  // Quotients of numbers with at least k + 1 bits.
  lemma ShiftedDownBound(v: nat, k: nat, e: nat, m: nat)
    requires Pow2(k) <= v && e + m <= k
    ensures Pow2(m) <= ShiftedDown(v, e) && Pow2(m) <= ShiftedDown(v - 1, e) + 1
  {
    PowMonotone(e + m, k);
    PowAdd(e, m);
    var p, q := Pow2(e), Pow2(m);
    hide Pow2;
    QuotientAtLeast(v, p, q);
    QuotientAtLeast(v - 1 + p, p, q);
    AddMultiple(v - 1, p, 1);
  }

  lemma QuotientAtLeast(v: nat, p: nat, q: nat)
    requires p > 0 && p * q <= v
    ensures q <= v / p
  {
    var h := v / p;
    if h < q {
      Multiple(p, q - h);
      Distribute(p, q, h);
    }
  }

  lemma ShiftedDownNatural(x: nat, e: nat)
    ensures 0 <= ShiftedDown(x, e) <= x
    ensures e > 0 && x > 0 ==> 2 * ShiftedDown(x, e) <= x
  {
    var p, q := Pow2(e), x / Pow2(e);
    assert x == p * q + x % p;
    if e > 0 {
      PowMonotone(1, e);
      assert Pow2(1) == 2;
    }
    hide Pow2;
    assert q >= 0 by { if q < 0 { Multiple(p, 0 - q); Distribute(p, 0, 0 - q); Distribute(p, 0, q); } }
    TimesAtLeast(p, 1, q);
    if e > 0 { TimesAtLeast(p, 2, q); }
  }

  lemma TimesAtLeast(p: nat, c: nat, q: nat)
    requires c <= p
    ensures c * q <= p * q
  {
  }

  // ---- the right shift ----

  // A negative number shifted right by whole limbs needs a limb more than the
  // result has: the limbs that remain are full and some limb below is not zero.
  predicate LosesCarry(limbs: seq<Limb>, n: nat, b: nat) {
    n < |limbs| && b == 0
    && (forall i :: n <= i < |limbs| ==> limbs[i] == BASE - 1)
    && exists i :: 0 <= i < n && limbs[i] != 0
  }

  lemma {:induction false} AllOnes(limbs: seq<Limb>)
    ensures Val(limbs) == PowB(|limbs|) - 1 <==> forall i :: 0 <= i < |limbs| ==> limbs[i] == BASE - 1
  {
    if limbs != [] {
      AllOnes(limbs[1..]);
      ValBound(limbs[1..]);
      assert forall i :: 0 < i < |limbs| ==> limbs[i] == limbs[1..][i - 1];
      hide Pow2, BaseTimes;
      FullLimb(limbs[0], Val(limbs[1..]), PowB(|limbs| - 1));
    }
  }

  lemma FullLimb(x: Limb, rest: nat, p: nat)
    requires rest < p
    ensures x + BaseTimes(rest) == BaseTimes(p) - 1 <==> x == BASE - 1 && rest == p - 1
  {
    hide Pow2, BaseTimes;
    BaseLinear(p, 1);
    if rest < p - 1 {
      BaseLinear(rest, 1);
      BaseLinear(rest + 1, p - 1);
    }
  }

  // What the shift leaves of a negative number's magnitude, rounded up, and when
  // that does not fit the remaining limbs.
  lemma NegativeQuotient(limbs: seq<Limb>, n: nat, b: nat)
    requires n < |limbs| && limbs != [] && Normal(limbs)
    ensures var q := ShiftedDown(Val(limbs) - 1, LIMB_BITS * n + b);
            0 <= q && q + 1 <= PowB(|limbs| - n) && (q + 1 == PowB(|limbs| - n) <==> LosesCarry(limbs, n, b))
  {
    hide *;
    var v, rs := Val(limbs), |limbs| - n;
    PositiveNormal(limbs);
    ShiftedDownNatural(v - 1, LIMB_BITS * n + b);
    NegativeWhole(limbs, n);
    if b > 0 {
      ShiftedDownAgain(v - 1, LIMB_BITS * n, b);
      ShiftedDownNatural(v - 1, LIMB_BITS * n);
      var h := ShiftedDown(v - 1, LIMB_BITS * n);
      ShiftedDownNatural(h, b);
      NeverLoses(limbs, n, b);
      TwoLimbs(rs);
    }
  }

  lemma PositiveNormal(limbs: seq<Limb>)
    requires limbs != [] && Normal(limbs)
    ensures 0 < PowB(|limbs| - 1) <= Val(limbs) < PowB(|limbs|)
  {
    NormalBound(limbs);
    ValBound(limbs);
  }

  lemma NeverLoses(limbs: seq<Limb>, n: nat, b: nat)
    requires b > 0
    ensures !LosesCarry(limbs, n, b)
  {
  }

  lemma TwoLimbs(n: nat)
    requires n > 0
    ensures PowB(n) > 2
  {
    PowBMonotone(1, n);
    BaseBig();
    BaseIs(1);
    assert PowB(1) == BaseTimes(1);
  }

  lemma ShiftedDownAgain(x: int, d: nat, e: nat)
    ensures ShiftedDown(x, d + e) == ShiftedDown(ShiftedDown(x, d), e)
  {
    PowAdd(d, e);
    DivDiv(x, Pow2(d), Pow2(e));
  }

  lemma NegativeWhole(limbs: seq<Limb>, n: nat)
    requires n < |limbs| && limbs != [] && Normal(limbs)
    ensures var h := ShiftedDown(Val(limbs) - 1, LIMB_BITS * n);
            h + 1 <= PowB(|limbs| - n) && (h + 1 == PowB(|limbs| - n) <==> LosesCarry(limbs, n, 0))
  {
    hide *;
    PositiveNormal(limbs);
    RoundedUp(limbs, n);
    ZeroLimbs(limbs[..n]);
    AllOnes(limbs[n..]);
    ValBound(limbs[n..]);
    LosesCarryParts(limbs, n);
  }

  lemma RoundedUp(limbs: seq<Limb>, n: nat)
    requires n < |limbs| && Val(limbs) > 0
    ensures ShiftedDown(Val(limbs) - 1, LIMB_BITS * n) + 1 == Val(limbs[n..]) + if Val(limbs[..n]) == 0 then 0 else 1
  {
    hide Val, PowB, Pow2;
    ShiftedDownNegative(Val(limbs), LIMB_BITS * n);
    PowBBits(n);
    LimbQuotients(limbs, n);
  }

  lemma LosesCarryParts(limbs: seq<Limb>, n: nat)
    requires n < |limbs|
    ensures LosesCarry(limbs, n, 0)
            <==> (forall i :: 0 <= i < |limbs| - n ==> limbs[n..][i] == BASE - 1)
                 && !(forall i :: 0 <= i < n ==> limbs[..n][i] == 0)
  {
    assert forall i :: n <= i < |limbs| ==> limbs[i] == limbs[n..][i - n];
    assert forall i :: 0 <= i < n ==> limbs[i] == limbs[..n][i];
  }

  // The limbs above the whole limbs of the shift, shifted by the remaining bits.
  method RshiftMagnitude(result: array<Limb>, limbs: seq<Limb>, b: nat)
    requires |limbs| <= result.Length && b < LIMB_BITS
    modifies result
    ensures Val(result[..|limbs|]) == ShiftedDown(Val(limbs), b)
    ensures b == 0 ==> result[..|limbs|] == limbs
  {
    hide Val, ShiftedDown;
    if b == 0 {
      CopyUp(result, 0, limbs);
      assert result[..|limbs|] == limbs;
      ShiftedDownNothing(Val(limbs));
    } else {
      MpnRshift(result, limbs, b);
    }
  }

  lemma ShiftedDownNothing(x: int)
    ensures ShiftedDown(x, 0) == x
  {
  }

  // The carry out of the rounded up quotient.
  lemma RoundingCarry(limbs: seq<Limb>, n: nat, b: nat, r: seq<Limb>, carry: Limb)
    requires n < |limbs| && limbs != [] && Normal(limbs) && carry <= 1 && |r| == |limbs| - n
    requires Val(r) + PowB(|r|) * carry == ShiftedDown(Val(limbs) - 1, LIMB_BITS * n + b) + 1
    ensures !LosesCarry(limbs, n, b) ==> Val(r) == ShiftedDown(Val(limbs) - 1, LIMB_BITS * n + b) + 1
    ensures LosesCarry(limbs, n, b) ==> r == Zeros(|limbs| - n)
  {
    hide *;
    NegativeQuotient(limbs, n, b);
    ValBound(r);
    OneTimes(PowB(|r|), carry);
    ZeroLimbs(r);
    AllZeros(r);
  }

  lemma AllZeros(limbs: seq<Limb>)
    ensures (forall i :: 0 <= i < |limbs| ==> limbs[i] == 0) ==> limbs == Zeros(|limbs|)
  {
  }

  lemma OneTimes(p: nat, c: nat)
    requires c <= 1
    ensures p * c == if c == 0 then 0 else p
  {
  }

  // The limbs of a quotient: the top one is zero only when bits were shifted
  // out of it, and then only that one is.
  lemma QuotientNormal(limbs: seq<Limb>, n: nat, b: nat, r: seq<Limb>)
    requires n < |limbs| && limbs != [] && Normal(limbs) && |r| == |limbs| - n && b < LIMB_BITS
    requires ShiftedDown(Val(limbs), LIMB_BITS * n + b) <= Val(r)
             || ShiftedDown(Val(limbs) - 1, LIMB_BITS * n + b) + 1 <= Val(r)
    ensures b == 0 ==> Normal(r)
    ensures b > 0 && r[|r| - 1] == 0 ==> Normal(r[..|r| - 1]) && Val(r[..|r| - 1]) == Val(r)
    ensures r[|r| - 1] != 0 ==> Normal(r)
  {
    hide *;
    NotTopZero(r);
    if b == 0 {
      QuotientAtLeastLimbs(limbs, n, b, |r| - 1);
      NormalByBound(r);
    } else if r[|r| - 1] == 0 {
      TopZero(r);
      if |r| > 1 {
        QuotientAtLeastLimbs(limbs, n, b, |r| - 2);
        NormalByBound(r[..|r| - 1]);
      } else {
        NotTopZero(r[..0]);
      }
    }
  }

  lemma QuotientAtLeastLimbs(limbs: seq<Limb>, n: nat, b: nat, m: nat)
    requires limbs != [] && Normal(limbs)
    requires n + m + (if b == 0 then 0 else 1) <= |limbs| - 1 && b < LIMB_BITS
    ensures PowB(m) <= ShiftedDown(Val(limbs), LIMB_BITS * n + b)
    ensures PowB(m) <= ShiftedDown(Val(limbs) - 1, LIMB_BITS * n + b) + 1
  {
    NormalBound(limbs);
    PowBBits(|limbs| - 1);
    PowBBits(m);
    hide *;
    ShiftedDownBound(Val(limbs), LIMB_BITS * (|limbs| - 1), LIMB_BITS * n + b, LIMB_BITS * m);
  }

  // The branch of core__next_rshift for negative numbers
  method RshiftNegative(limbs: seq<Limb>, n: nat, b: nat) returns (r: Integer)
    requires n < |limbs| && limbs != [] && Normal(limbs) && b < LIMB_BITS
    ensures !LosesCarry(limbs, n, b) ==>
              Canonical(r) && Value(r) == ShiftedDown(0 - Val(limbs), LIMB_BITS * n + b)
    ensures LosesCarry(limbs, n, b) ==> r == BignumResult(n - |limbs|, Zeros(|limbs| - n))
  {
    hide Val, PowB, ShiftedDown, Normal, BignumResult, LosesCarry, Canonical;
    PositiveNormal(limbs);
    ShiftedDownNegative(Val(limbs), LIMB_BITS * n + b);
    BaseBig();
    var resultSize := |limbs| - n;
    var result := new Limb[resultSize](_ => 0);
    var copy := SubtractOne(limbs);
    RshiftMagnitude(result, copy[n..], b);
    ShiftedDownLimbs(copy, n, b);
    var carry := Add1(result, result, resultSize, 1);
    ghost var all := result[..resultSize];
    RoundingCarry(limbs, n, b, all, carry);
    if !LosesCarry(limbs, n, b) { QuotientNormal(limbs, n, b, all); }
    if b != 0 && result[resultSize - 1] == 0 {
      NeverLoses(limbs, n, b);
      resultSize := resultSize - 1;
      assert result[..resultSize] == all[..|all| - 1];
    }
    if !LosesCarry(limbs, n, b) { NegativeResult(result, resultSize); }
    r := BignumResult(-(resultSize as int), result[..resultSize]);
  }

  lemma NegativeResult(result: array<Limb>, size: nat)
    requires size <= result.Length && Normal(result[..size])
    ensures Value(BignumResult(-(size as int), result[..size])) == 0 - Val(result[..size])
    ensures Canonical(BignumResult(-(size as int), result[..size]))
  {
    hide Val, Normal, BignumResult, Canonical;
    ZeroNumber(result[..0]);
    ResultCanonical(result, -(size as int));
  }

  // The branch of core__next_rshift for positive numbers
  method RshiftPositive(limbs: seq<Limb>, n: nat, b: nat) returns (r: Integer)
    requires n < |limbs| && limbs != [] && Normal(limbs) && b < LIMB_BITS
    ensures Canonical(r) && Value(r) == ShiftedDown(Val(limbs), LIMB_BITS * n + b)
  {
    hide Val, PowB, ShiftedDown, Normal, BignumResult, Canonical;
    var resultSize := |limbs| - n;
    var result := new Limb[resultSize](_ => 0);
    RshiftMagnitude(result, limbs[n..], b);
    ShiftedDownLimbs(limbs, n, b);
    ghost var all := result[..resultSize];
    QuotientNormal(limbs, n, b, all);
    if b != 0 && result[resultSize - 1] == 0 {
      resultSize := resultSize - 1;
      assert result[..resultSize] == all[..|all| - 1];
    }
    ResultCanonical(result, resultSize);
    r := BignumResult(resultSize, result[..resultSize]);
  }

  ghost predicate RshiftLosesCarry(num: Integer, shift: nat) {
    num.Bignum? && num.len < 0 && LosesCarry(num.limbs, LimbShift(shift), BitShift(shift))
  }

  /** core__next_rshift: the quotient by the power of two that is shifted by,
      rounded down, except where the carry of a negative number shifted by whole
      limbs is lost; and exactly when that is the quotient that was asked for. */
  method NextRshift(num: Integer, shift: nat) returns (r: Integer)
    requires num.Bignum? && Canonical(num)
    ensures !RshiftLosesCarry(num, shift) ==>
              Canonical(r) && Value(r) == ShiftedDown(Value(num), EffectiveShift(shift))
    ensures RshiftLosesCarry(num, shift) ==>
              r == BignumResult(LimbShift(shift) - |num.limbs|, Zeros(|num.limbs| - LimbShift(shift)))
    ensures Canonical(r) && Value(r) == ShiftedDown(Value(num), shift)
            <==> !RshiftLosesCarry(num, shift)
                 && (shift / LIMB_BITS < 0x1_0000_0000 || Within(Value(num), EffectiveShift(shift)))
  {
    RshiftExact(num, shift);
    if RshiftLosesCarry(num, shift) { LostCarryIsNotCanonical(num, shift); }
    hide Val, PowB, ShiftedDown, Normal, BignumResult, LosesCarry, Canonical, LimbShift, Within;
    var size, nlimbs, nbits := |num.limbs|, LimbShift(shift), BitShift(shift);
    NonzeroLimbs(num);
    if nlimbs >= size {
      AllShiftedOut(num.limbs, nlimbs, nbits);
      r := Fixnum(if num.len < 0 then -1 else 0);
    } else if num.len < 0 {
      r := RshiftNegative(num.limbs, nlimbs, nbits);
    } else {
      r := RshiftPositive(num.limbs, nlimbs, nbits);
    }
  }

  lemma NonzeroLimbs(num: Integer)
    requires num.Bignum? && Canonical(num)
    ensures num.limbs != [] && Normal(num.limbs) && |num.limbs| == Abs(num.len)
    ensures Canonical(Fixnum(-1)) && Canonical(Fixnum(0))
  {
    NonzeroLength(num);
  }

  lemma AllShiftedOut(limbs: seq<Limb>, n: nat, b: nat)
    requires |limbs| <= n && limbs != [] && Normal(limbs)
    ensures !LosesCarry(limbs, n, b)
    ensures ShiftedDown(Val(limbs), LIMB_BITS * n + b) == 0 && ShiftedDown(0 - Val(limbs), LIMB_BITS * n + b) == -1
  {
    PositiveNormal(limbs);
    PowBBits(|limbs|);
    hide Val, PowB, Pow2, ShiftedDown;
    ShiftedDownSmall(Val(limbs), LIMB_BITS * |limbs|, LIMB_BITS * n + b);
    ShiftedDownSmall(Val(limbs) - 1, LIMB_BITS * |limbs|, LIMB_BITS * n + b);
    ShiftedDownNegative(Val(limbs), LIMB_BITS * n + b);
  }

  /** Exactly when the quotient by the power of two that is shifted by is the one
      that was asked for: the count of whole limbs fits 32 bits, or the number is
      so small that only its sign is left. */
  lemma RshiftExact(num: Integer, shift: nat)
    ensures ShiftedDown(Value(num), EffectiveShift(shift)) == ShiftedDown(Value(num), shift)
            <==> shift / LIMB_BITS < 0x1_0000_0000 || Within(Value(num), EffectiveShift(shift))
  {
    hide Val;
    var x, e := Value(num), EffectiveShift(shift);
    EffectiveShiftExact(shift);
    ShiftedDownAgain(x, e, shift - e);
    HalvedOnlyAtEnds(ShiftedDown(x, e), shift - e);
    WithinIsShiftedOut(x, e);
  }

  lemma WithinIsShiftedOut(x: int, e: nat)
    ensures Within(x, e) <==> -1 <= ShiftedDown(x, e) <= 0
  {
    var p := Pow2(e);
    var q, r := x / p, x % p;
    assert x == p * q + r && 0 <= r < p;
    hide Pow2;
    if q >= 1 { TimesAtLeast(p, 0, q); Multiple(p, q); }
    if q <= -2 { Multiple(p, -1 - q); Distribute(p, -1, q); Distribute(p, 0, 1); }
  }

  lemma LostCarryIsNotCanonical(num: Integer, shift: nat)
    requires RshiftLosesCarry(num, shift)
    ensures !Canonical(BignumResult(LimbShift(shift) - |num.limbs|, Zeros(|num.limbs| - LimbShift(shift))))
  {
    hide Canonical;
    ZerosNotCanonical(|num.limbs| - LimbShift(shift));
  }

  /** Exactly when the product is the one with the power of two that was asked for. */
  lemma LshiftExact(num: Integer, shift: nat)
    requires num.Bignum? && Canonical(num)
    ensures Shifted(Value(num), EffectiveShift(shift)) == Shifted(Value(num), shift)
            <==> shift / LIMB_BITS < 0x1_0000_0000
  {
    hide Val, Shifted;
    EffectiveShiftExact(shift);
    ShiftedInjective(Value(num), EffectiveShift(shift), shift);
  }

  // Different shifts of a number other than zero are different.
  lemma ShiftedInjective(x: int, e: nat, d: nat)
    requires x != 0 && e <= d
    ensures Shifted(x, e) == Shifted(x, d) <==> e == d
  {
    if e < d {
      PowAdd(e, d - e);
      PowMonotone(1, d - e);
      assert Pow2(1) == 2;
      var p, q := Pow2(e), Pow2(d - e);
      hide Pow2;
      Rotated(p, q, x);
      NoFixedPoint(q, p * x) by { NonzeroProduct(p, x); }
    }
  }

  lemma NonzeroProduct(p: nat, x: int)
    requires p > 0 && x != 0
    ensures p * x != 0
  {
  }

  lemma NoFixedPoint(q: int, y: int)
    requires q >= 2 && y != 0
    ensures q * y != y
  {
    assert q * y == y + (q - 1) * y;
    assert (q - 1) * y != 0;
  }

  // 2^32 whole limbs are counted as none: both shifts by 2^38 return 2^63 unchanged.
  lemma HugeShiftDoesNothing()
    ensures EffectiveShift(0x40_0000_0000) == 0 && Canonical(Bignum(1, [TOP_BIT]))
    ensures Shifted(Value(Bignum(1, [TOP_BIT])), 0) == Value(Bignum(1, [TOP_BIT]))
            != Shifted(Value(Bignum(1, [TOP_BIT])), 0x40_0000_0000)
    ensures ShiftedDown(Value(Bignum(1, [TOP_BIT])), 0) == Value(Bignum(1, [TOP_BIT]))
            != ShiftedDown(Value(Bignum(1, [TOP_BIT])), 0x40_0000_0000)
  {
    Pow62();
    PowQuad(62);
    ValOne(TOP_BIT);
    var num, shift := Bignum(1, [TOP_BIT]), 0x40_0000_0000;
    ShiftedDownNothing(Value(num));
    assert Shifted(Value(num), 0) == Value(num);
    hide Pow2, Shifted, ShiftedDown, Val;
    LshiftExact(num, shift);
    HalvedOnlyAtEnds(Value(num), shift);
  }

  lemma HalvedOnlyAtEnds(x: int, e: nat)
    ensures ShiftedDown(x, e) == x <==> e == 0 || -1 <= x <= 0
  {
    hide Pow2, ShiftedDown;
    if e == 0 {
      ShiftedDownNothing(x);
    } else if x >= 0 {
      ShiftedDownNatural(x, e);
    } else {
      ShiftedDownNegative(0 - x, e);
      ShiftedDownNatural(0 - x - 1, e);
    }
  }

  lemma ZerosNotCanonical(n: nat)
    requires n > 0
    ensures !Canonical(BignumResult(0 - n, Zeros(n)))
  {
    BaseBig();
  }

  /** A carry is lost for -(B^2 - B + 1) shifted by one limb. */
  lemma RshiftLosesACarry()
    ensures Canonical(Bignum(-2, [1, BASE - 1])) && RshiftLosesCarry(Bignum(-2, [1, BASE - 1]), LIMB_BITS)
  {
    BaseBig();
    ShortVal([1, BASE - 1]);
    assert [1, BASE - 1][0] != 0;
  }

  /** A right shift undoes a left shift by the same amount. */
  method ShiftBack(num: Integer, shift: nat) returns (r: Integer)
    requires num.Bignum? && Canonical(num)
    ensures r == num
  {
    hide Val, PowB, Pow2, ShiftedDown, Shifted, Normal, Canonical, RshiftLosesCarry;
    var shifted := NextLshift(num, shift);
    r := NextRshift(shifted, shift);
    var e := EffectiveShift(shift);
    MultipleShiftedDown(Value(num), e);
    NoCarryAfterLshift(shifted, Value(num), shift);
    CanonicalUnique(r, num);
  }

  lemma MultipleShiftedDown(x: int, e: nat)
    ensures ShiftedDown(Shifted(x, e), e) == x
  {
    DivUnique(Shifted(x, e), Pow2(e), x, 0);
  }

  // A multiple of the power of two has no limb below to borrow from.
  lemma NoCarryAfterLshift(num: Integer, x: int, shift: nat)
    requires num.Bignum? && Canonical(num) && Value(num) == Shifted(x, EffectiveShift(shift))
    ensures !RshiftLosesCarry(num, shift)
  {
    var n := LimbShift(shift);
    if RshiftLosesCarry(num, shift) {
      hide Val, PowB, Pow2, ShiftedDown, Shifted, Normal, Canonical;
      var v := Val(num.limbs);
      LimbQuotients(num.limbs, n);
      ZeroLimbs(num.limbs[..n]);
      LosesCarryParts(num.limbs, n);
      PowBBits(n);
      MultipleQuotients(v, 0 - x, LIMB_BITS * n);
    }
  }

  lemma MultipleQuotients(v: nat, y: int, e: nat)
    requires 0 - v == Shifted(0 - y, e)
    ensures v / Pow2(e) == y && (0 - v) / Pow2(e) == 0 - y
  {
    Distribute(Pow2(e), y, 0 - y);
    DivUnique(v, Pow2(e), y, 0);
    DivUnique(0 - v, Pow2(e), 0 - y, 0);
  }
}
