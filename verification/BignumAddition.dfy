/** Sums of bignums. */
module BignumAddition {
  import opened TwosComplement
  import opened Limbs
  import opened LimbBuffers
  import opened BooleOperators
  import opened Bignum
  import opened LogicalOperations

  // An integer as limbs and a signed length, in either sign of a bignum's magnitude.
  ghost predicate IsParts(limbs: seq<Limb>, len: int) { |limbs| == Abs(len) && Normal(limbs) && limbs != [] }

  lemma ResultCanonical(result: array<Limb>, len: int)
    requires Abs(len) <= result.Length && Normal(result[..Abs(len)])
    ensures Value(BignumResult(len, result[..Abs(len)])) == Number(result[..Abs(len)], len)
    ensures Canonical(BignumResult(len, result[..Abs(len)]))
  {
    var limbs := result[..Abs(len)];
    if limbs != [] { SomeValue(limbs); }
    hide Val, Normal;
    BignumResultCanonical(len, limbs) by { assert Tidy(limbs); }
  }

  lemma SomeValue(limbs: seq<Limb>)
    requires Normal(limbs) && limbs != []
    ensures Val(limbs) > 0
  {
    NormalBound(limbs);
  }

  // The difference of two magnitudes, the larger one first.
  method Subtract(result: array<Limb>, a: seq<Limb>, b: seq<Limb>) returns (size: nat)
    requires |b| <= |a| <= result.Length && Val(b) <= Val(a)
    modifies result
    ensures size <= |a| && Normal(result[..size]) && Val(result[..size]) == Val(a) - Val(b)
  {
    hide Val, PowB, Normal;
    var carry := AddSigned(result, a, true, b);
    ValBound(result[..|a|]);
    NoBorrowLeft(Val(result[..|a|]), PowB(|a|), carry, Val(a) - Val(b));
    size := Normalize(|a|, result);
  }

  lemma NoBorrowLeft(r: nat, p: nat, carry: int, difference: nat)
    requires -1 <= carry <= 0 && r < p && r + p * carry == difference
    ensures carry == 0
  {
  }

  // The sum of two magnitudes, the longer one first.
  method Add(result: array<Limb>, a: seq<Limb>, b: seq<Limb>) returns (size: nat)
    requires |b| <= |a| < result.Length && Normal(a) && a != []
    modifies result
    ensures size <= result.Length && Normal(result[..size]) && Val(result[..size]) == Val(a) + Val(b)
  {
    hide Val, PowB, BaseTimes;
    BaseBig();
    var carry := AddSigned(result, a, false, b);
    ghost var low := result[..|a|];
    result[|a|] := carry;
    size := |a| + carry;
    assert result[..|a|] == low && result[..|a| + 1] == low + [result[|a|]];
    ValSnoc(low, result[|a|]);
    if carry == 0 { TopStays(a, low); }
  }

  lemma TopStays(a: seq<Limb>, r: seq<Limb>)
    requires Normal(a) && a != [] && |r| == |a| && Val(r) + PowB(|a|) * 0 >= Val(a)
    ensures Normal(r)
  {
    NormalBound(a);
    NormalByBound(r);
  }

  /** next_add: the exact sum in canonical form. */
  method NextAdd(llimbs: seq<Limb>, llen: int, rlimbs: seq<Limb>, rlen: int) returns (r: Integer)
    requires IsParts(llimbs, llen) && IsParts(rlimbs, rlen)
    ensures Canonical(r) && Value(r) == Number(llimbs, llen) + Number(rlimbs, rlen)
  {
    hide Val, PowB, Normal, BignumResult;
    var left, leftLen, right, rightLen := llimbs, llen, rlimbs, rlen;
    if Abs(llen) < Abs(rlen) {
      left, leftLen, right, rightLen := rlimbs, rlen, llimbs, llen;
    }
    var result := new Limb[1 + |left|](_ => 0);
    var len: int;
    if (leftLen < 0) != (rightLen < 0) {
      var cmp := 1;
      if |left| == |right| {
        cmp := MpnCmp(left, right);
      } else {
        LongerIsLarger(left, right);
      }
      if cmp < 0 {
        var size := Subtract(result, right, left);
        len := if rightLen < 0 then -(size as int) else size;
      } else {
        var size := Subtract(result, left, right);
        len := if leftLen < 0 then -(size as int) else size;
      }
    } else {
      var size := Add(result, left, right);
      len := if leftLen < 0 then -(size as int) else size;
    }
    ZeroNumber(result[..0]);
    ResultCanonical(result, len);
    r := BignumResult(len, result[..Abs(len)]);
  }

  lemma ZeroNumber(limbs: seq<Limb>)
    requires limbs == []
    ensures Val(limbs) == 0
  {
  }

  lemma LongerIsLarger(a: seq<Limb>, b: seq<Limb>)
    requires Normal(a) && |b| < |a|
    ensures Val(b) < Val(a)
  {
    NormalBound(a);
    ValBound(b);
    PowBMonotone(|b|, |a| - 1);
  }

  /** core__next_add and core__next_sub */
  method AddBignums(left: Integer, right: Integer) returns (sum: Integer, difference: Integer)
    requires left.Bignum? && right.Bignum? && Canonical(left) && Canonical(right)
    ensures Canonical(sum) && Value(sum) == Value(left) + Value(right)
    ensures Canonical(difference) && Value(difference) == Value(left) - Value(right)
  {
    hide Val, Normal;
    NonzeroLength(left);
    NonzeroLength(right);
    sum := NextAdd(left.limbs, left.len, right.limbs, right.len);
    difference := NextAdd(left.limbs, left.len, right.limbs, -right.len);
  }

  // A magnitude less a word that is no larger.
  method SubtractWord(result: array<Limb>, limbs: seq<Limb>, x: Limb) returns (size: nat)
    requires Normal(limbs) && 0 < |limbs| <= result.Length && x <= Val(limbs) && x <= 0x2000_0000_0000_0000
    modifies result
    ensures size <= result.Length && Normal(result[..size]) && Val(result[..size]) == Val(limbs) - x
  {
    hide Val, PowB, Normal;
    var s := Stored(limbs);
    size := |limbs|;
    assert s[..size] == limbs;
    var borrow := Sub1(result, s, size, x);
    ghost var less := result[..size];
    ValBound(less);
    NegatedTimes(PowB(size), 0 - borrow);
    NoBorrowLeft(Val(less), PowB(size), 0 - borrow, Val(limbs) - x);
    TopLimbNormal(less);
    if result[size - 1] == 0 {
      QuickNormalize(limbs, less, x);
      assert less[..size - 1] == result[..size - 1];
      size := size - 1;
    }
  }

  // A magnitude and a word.
  method AddWord(result: array<Limb>, limbs: seq<Limb>, x: Limb) returns (size: nat)
    requires Normal(limbs) && 0 < |limbs| < result.Length
    modifies result
    ensures size <= result.Length && Normal(result[..size]) && Val(result[..size]) == Val(limbs) + x
  {
    hide Val, PowB, Normal;
    var s := Stored(limbs);
    size := |limbs|;
    assert s[..size] == limbs;
    var carry := Add1(result, s, size, x);
    ghost var low := result[..size];
    if carry != 0 {
      result[size] := carry;
      assert result[..size + 1] == low + [carry];
      ValSnoc(low, carry);
      TopLimbNormal(low + [carry]);
      size := size + 1;
    } else {
      TopStays(limbs, low);
    }
  }

  /** next_fadd: no fixnum exceeds the magnitude of a bignum, so that the sign
      is that of the bignum and at most one limb is lost. */
  method NextFadd(limbs: seq<Limb>, len: int, right: int) returns (r: Integer)
    requires IsParts(limbs, len) && IsFixnum(right) && Abs(right) <= Val(limbs)
    ensures Canonical(r) && Value(r) == Number(limbs, len) + right
  {
    hide Val, PowB, Normal, BignumResult;
    BaseBig();
    var result := new Limb[|limbs| + 1](_ => 0);
    var size: nat;
    if (len < 0) != (right < 0) {
      size := SubtractWord(result, limbs, Abs(right));
    } else {
      size := AddWord(result, limbs, Abs(right));
    }
    var resultLen := if len < 0 then -(size as int) else size;
    ZeroNumber(result[..0]);
    ResultCanonical(result, resultLen);
    r := BignumResult(resultLen, result[..Abs(resultLen)]);
  }

  lemma TopLimbNormal(limbs: seq<Limb>)
    ensures limbs != [] && limbs[|limbs| - 1] != 0 ==> Normal(limbs)
  {
  }

  lemma FixnumBelowBignum(i: Integer)
    requires i.Bignum? && Canonical(i)
    ensures forall f :: IsFixnum(f) ==> Abs(f) <= Val(i.limbs)
    ensures IsParts(i.limbs, i.len) && IsParts(i.limbs, -i.len)
  {
    hide Val;
    NonzeroLength(i);
  }

  /** core__next_fadd and core__next_fsub */
  method AddFixnum(big: Integer, small: int) returns (sum: Integer, difference: Integer)
    requires big.Bignum? && Canonical(big) && IsFixnum(small)
    ensures Canonical(sum) && Value(sum) == Value(big) + small
    ensures Canonical(difference) && Value(difference) == small - Value(big)
  {
    FixnumBelowBignum(big);
    hide Val, Normal, IsFixnum, IsParts;
    sum := NextFadd(big.limbs, big.len, small);
    difference := NextFadd(big.limbs, -big.len, small);
    NonzeroLength(big);
  }
}
