/** Integers as the runtime represents them: fixnums, and bignums of a signed
    number of limbs for everything that is not a fixnum. */
module Bignum {
  import opened TwosComplement
  import opened Limbs
  import opened BooleOperators

  const MOST_POSITIVE_FIXNUM: int := 0x1fff_ffff_ffff_ffff
  const MOST_NEGATIVE_FIXNUM: int := -0x2000_0000_0000_0000

  predicate IsFixnum(n: int) { MOST_NEGATIVE_FIXNUM <= n <= MOST_POSITIVE_FIXNUM }

  datatype Integer = Fixnum(n: int) | Bignum(len: int, limbs: seq<Limb>)

  function Value(i: Integer): int {
    match i
    case Fixnum(n) => n
    case Bignum(len, limbs) => Number(limbs, len)
  }

  // The one representation of each integer: a bignum is no fixnum and has no zero top limb.
  predicate Canonical(i: Integer) {
    match i
    case Fixnum(n) => IsFixnum(n)
    case Bignum(len, limbs) => |limbs| == Abs(len) && Normal(limbs) && !IsFixnum(Number(limbs, len))
  }

  // bignum_result, with its comparison of unsigned words for one negative limb.
  function BignumResult(len: int, limbs: seq<Limb>): Integer
    requires |limbs| == Abs(len)
  {
    if len == 0 then Fixnum(0)
    else if len == 1 && limbs[0] <= MOST_POSITIVE_FIXNUM then Fixnum(limbs[0])
    else if len == -1 && UnsignedNegation(limbs[0]) >= BASE + MOST_NEGATIVE_FIXNUM then Fixnum(-(limbs[0] as int))
    else Bignum(len, limbs)
  }

  function UnsignedNegation(x: Limb): Limb { if x == 0 then 0 else BASE - x }

  lemma ShortVal(limbs: seq<Limb>)
    ensures limbs == [] ==> Val(limbs) == 0
    ensures |limbs| == 1 ==> Val(limbs) == limbs[0]
    ensures |limbs| > 1 && Normal(limbs) ==> Val(limbs) >= BASE
  {
    if |limbs| == 1 {
      assert limbs[1..] == [];
    } else if |limbs| > 1 && Normal(limbs) {
      NormalBound(limbs);
      PowBMonotone(1, |limbs| - 1);
      assert PowB(1) == BaseTimes(1) == BASE;
    }
  }

  /** bignum_result yields the canonical representation of exactly the number
      that its limbs stand for. */
  lemma BignumResultCanonical(len: int, limbs: seq<Limb>)
    requires |limbs| == Abs(len) && Tidy(limbs) && (len < 0 ==> Val(limbs) > 0)
    ensures Value(BignumResult(len, limbs)) == Number(limbs, len) && Canonical(BignumResult(len, limbs))
  {
    hide Val, Pow2;
    ShortVal(limbs);
    BaseBig();
  }

  // A negative zero limb is not taken for the fixnum zero.
  lemma NegativeZeroStaysBignum()
    ensures BignumResult(-1, [0]) == Bignum(-1, [0]) && !Canonical(BignumResult(-1, [0]))
  {
    BaseBig();
    ValOne(0);
  }

  /** The canonical representation is unique, so eql on representations is
      equality of integers. */
  lemma CanonicalUnique(i: Integer, j: Integer)
    requires Canonical(i) && Canonical(j)
    ensures i == j <==> Value(i) == Value(j)
  {
    if Value(i) == Value(j) && i.Bignum? && j.Bignum? {
      SameSign(i.limbs, i.len, j.limbs, j.len);
      NormalUnique(i.limbs, j.limbs);
    }
  }

  lemma SameSign(a: seq<Limb>, la: int, b: seq<Limb>, lb: int)
    requires |a| == Abs(la) && |b| == Abs(lb) && Number(a, la) == Number(b, lb) && Number(a, la) != 0
    ensures la < 0 <==> lb < 0
    ensures Val(a) == Val(b)
  {
  }

  // ---- comparison ----

  // mpn_cmp
  method MpnCmp(a: seq<Limb>, b: seq<Limb>) returns (cmp: int)
    requires |a| == |b|
    ensures cmp < 0 <==> Val(a) < Val(b)
    ensures cmp > 0 <==> Val(a) > Val(b)
  {
    var i := |a|;
    assert a[i..] == b[i..];
    while i > 0
      invariant 0 <= i <= |a| && a[i..] == b[i..]
    {
      i := i - 1;
      if a[i] != b[i] {
        TopDecides(a, b, i);
        return if a[i] < b[i] then -1 else 1;
      }
      assert a[i..] == [a[i]] + a[i + 1..] && b[i..] == [b[i]] + b[i + 1..];
    }
    assert a[0..] == a && b[0..] == b;
    cmp := 0;
  }

  // The highest limb in which two numbers differ decides their order.
  lemma TopDecides(a: seq<Limb>, b: seq<Limb>, i: nat)
    requires |a| == |b| && i < |a| && a[i + 1..] == b[i + 1..] && a[i] != b[i]
    ensures Val(a) < Val(b) <==> a[i] < b[i]
    ensures Val(a) != Val(b)
  {
    TopSplit(a, i);
    TopSplit(b, i);
    ValBound(a[..i]);
    ValBound(b[..i]);
    var p := PowB(i);
    hide *;
    TopOrder(p, Val(a[..i]), a[i], Val(b[..i]), b[i]);
  }

  lemma TopOrder(p: nat, x: nat, a: int, y: nat, b: int)
    requires x < p && y < p && a != b
    ensures x + p * a < y + p * b <==> a < b
    ensures x + p * a != y + p * b
  {
    if a < b { Multiple(p, b - a); Distribute(p, b, a); } else { Multiple(p, a - b); Distribute(p, a, b); }
  }

  lemma TopSplit(a: seq<Limb>, i: nat)
    requires i < |a|
    ensures Val(a) == Val(a[..i]) + PowB(i) * a[i] + PowB(i + 1) * Val(a[i + 1..])
  {
    hide Val, PowB;
    assert a == (a[..i] + [a[i]]) + a[i + 1..];
    ValConcat(a[..i] + [a[i]], a[i + 1..]);
    ValSnoc(a[..i], a[i]);
  }

  /** core__next_compare is the order of the integers. */
  method NextCompare(left: Integer, right: Integer) returns (c: int)
    requires left.Bignum? && right.Bignum? && Canonical(left) && Canonical(right)
    ensures c == if Value(left) < Value(right) then -1 else if Value(left) > Value(right) then 1 else 0
  {
    hide Val;
    NonzeroLength(left);
    NonzeroLength(right);
    LengthOrder(left.limbs, left.len, right.limbs, right.len);
    if left.len < right.len {
      c := -1;
    } else if left.len > right.len {
      c := 1;
    } else {
      var cmp := MpnCmp(left.limbs, right.limbs);
      if cmp < 0 {
        c := if left.len < 0 then 1 else -1;
      } else if cmp > 0 {
        c := if left.len < 0 then -1 else 1;
      } else {
        c := 0;
      }
    }
  }

  // Signed lengths order normal numbers as far as they differ.
  lemma LengthOrder(a: seq<Limb>, la: int, b: seq<Limb>, lb: int)
    requires |a| == Abs(la) && |b| == Abs(lb) && Normal(a) && Normal(b) && la != 0 && lb != 0
    ensures la < lb ==> Number(a, la) < Number(b, lb)
    ensures lb < la ==> Number(b, lb) < Number(a, la)
  {
    hide Val;
    ValBound(a);
    ValBound(b);
    NormalBound(a);
    NormalBound(b);
    if |a| < |b| { PowBMonotone(|a|, |b| - 1); } else if |b| < |a| { PowBMonotone(|b|, |a| - 1); }
  }

  /** Bignum_O::eql_ */
  method Eql(left: Integer, right: Integer) returns (same: bool)
    requires left.Bignum? && Canonical(left) && Canonical(right)
    ensures same <==> Value(left) == Value(right)
  {
    hide Val;
    NonzeroLength(left);
    if right.Bignum? { NonzeroLength(right); }
    if right.Fixnum? || left.len != right.len {
      if right.Bignum? { LengthOrder(left.limbs, left.len, right.limbs, right.len); }
      return false;
    }
    var cmp := MpnCmp(left.limbs, right.limbs);
    same := cmp == 0;
  }

  lemma NonzeroLength(i: Integer)
    requires i.Bignum? && Canonical(i)
    ensures i.len != 0
  {
  }

  /** Bignum_O::negate_ */
  method Negate(i: Integer) returns (r: Integer)
    requires i.Bignum? && Canonical(i)
    ensures Canonical(r) && Value(r) == -Value(i)
  {
    ShortVal(i.limbs);
    hide Val;
    BaseBig();
    if i.len == 1 && i.limbs[0] == -MOST_NEGATIVE_FIXNUM {
      r := Fixnum(MOST_NEGATIVE_FIXNUM);
    } else {
      r := Bignum(-i.len, i.limbs);
    }
  }
}
