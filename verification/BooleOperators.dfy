/** The sixteen boolean operators on bignums in sign-magnitude form: each works
    on the magnitudes, and its result read as an integer is the operation on the
    two's complement bits of the operands. */
module BooleOperators {
  import opened TwosComplement
  import opened Limbs
  import opened LimbBuffers

  // The integer that |len| limbs stand for, negative when len is.
  function Number(limbs: seq<Limb>, len: int): int { if len < 0 then 0 - Val(limbs) else Val(limbs) }

  // Either normal, or the zero limb that a fixnum zero is passed as.
  predicate Tidy(limbs: seq<Limb>) { Normal(limbs) || limbs == [0] }

  ghost predicate IsOperand(s: array<Limb>, len: int)
    reads s
  {
    Abs(len) <= s.Length && Tidy(s[..Abs(len)]) && (len < 0 ==> Val(s[..Abs(len)]) > 0)
  }

  ghost predicate IsNormal(s: array<Limb>, len: int)
    reads s
  {
    Abs(len) <= s.Length && Normal(s[..Abs(len)])
  }

  ghost function NumberOf(s: array<Limb>, len: int): int
    requires Abs(len) <= s.Length
    reads s
  {
    Number(s[..Abs(len)], len)
  }

  function Max(a: nat, b: nat): nat { if a < b then b else a }

  function Min(a: nat, b: nat): nat { if a < b then a else b }

  // The result buffer is as long as the longer operand, and when it is no longer
  // than that, the result does not need another limb.
  ghost predicate HasRoom(t: Table, result: array<Limb>, s1: array<Limb>, len1: int, s2: array<Limb>, len2: int)
    requires Abs(len1) <= s1.Length && Abs(len2) <= s2.Length
    reads s1, s2
  {
    var m := Max(Abs(len1), Abs(len2));
    0 < result.Length && m <= result.Length
    && (m == result.Length ==> 0 < Boole(t, NumberOf(s1, len1), NumberOf(s2, len2)) + PowB(m))
  }

  // ---- auxiliaries on magnitudes ----

  // next_addone_aux
  method NextAddOneAux(result: array<Limb>, s: array<Limb>, size: nat) returns (size': nat)
    requires size <= s.Length && size <= result.Length
    requires size == result.Length ==> Val(s[..size]) + 1 < PowB(size)
    modifies result
    ensures 0 < size' <= result.Length && Normal(result[..size'])
    ensures Val(result[..size']) == old(Val(s[..size])) + 1
  {
    if size == 0 {
      AddToNothing();
      result[0] := 1;
      assert result[..1] == [1];
      return 1;
    }
    ghost var before := Val(s[..size]);
    var carry := Add1(result, s, size, 1);
    ghost var done := result[..size];
    ValBound(done);
    hide Val, PowB;
    if carry != 0 {
      OneCarry(done, carry, before, size, result.Length);
      result[size] := carry;
      assert result[..size + 1] == done + [carry];
      size' := size + 1;
    } else {
      size' := Normalize(size, result);
      SomethingThere(result[..size'], before);
    }
  }

  lemma AddToNothing()
    ensures Val([]) == 0 && PowB(0) == 1 && Val([1]) == 1 && 1 < BASE
  {
    ValOne(1);
    BaseBig();
  }

  lemma OneCarry(done: seq<Limb>, carry: Limb, before: nat, size: nat, room: nat)
    requires carry == 1 && |done| == size && Val(done) + PowB(size) * carry == before + 1
    requires size == room ==> before + 1 < PowB(size)
    ensures size != room
    ensures Val(done + [carry]) == before + 1 && Normal(done + [carry])
  {
    ValSnoc(done, carry);
  }

  lemma SomethingThere(limbs: seq<Limb>, before: nat)
    requires Val(limbs) == before + 1
    ensures limbs != []
  {
  }

  // Limbs operated on after both numbers have been padded to n limbs.
  lemma PaddedOp(t: Table, a: seq<Limb>, b: seq<Limb>, r: seq<Limb>, n: nat)
    requires !t.ff && |a| <= n && |b| <= n && |r| <= n
    requires forall i :: 0 <= i < n ==>
               Digit(r, i) == WordOp(t, Digit(a, i), Digit(b, i))
    ensures Val(r) == Boole(t, Val(a), Val(b))
  {
    hide *;
    var a', b', r' := Padded(a, n), Padded(b, n), Padded(r, n);
    PaddedVal(a, n);
    PaddedVal(b, n);
    PaddedVal(r, n);
    LimbOpVal(t, a', b');
    PaddedLimbs(t, a, b, r, n);
  }

  function Padded(limbs: seq<Limb>, n: nat): (p: seq<Limb>)
    requires |limbs| <= n
    ensures |p| == n
  {
    limbs + Zeros(n - |limbs|)
  }

  lemma PaddedVal(limbs: seq<Limb>, n: nat)
    requires |limbs| <= n
    ensures Val(Padded(limbs, n)) == Val(limbs)
  {
    hide Val;
    ValPadded(limbs, n - |limbs|);
  }

  lemma PaddedLimbs(t: Table, a: seq<Limb>, b: seq<Limb>, r: seq<Limb>, n: nat)
    requires !t.ff && |a| <= n && |b| <= n && |r| <= n
    requires forall i :: 0 <= i < n ==> Digit(r, i) == WordOp(t, Digit(a, i), Digit(b, i))
    ensures Padded(r, n) == LimbOp(t, Padded(a, n), Padded(b, n))
  {
    hide Val, Boole, WordOp, Pow2;
    var a', b', r' := Padded(a, n), Padded(b, n), Padded(r, n);
    forall i | 0 <= i < n ensures r'[i] == LimbOp(t, a', b')[i] {
      assert r'[i] == Digit(r, i) && a'[i] == Digit(a, i) && b'[i] == Digit(b, i);
    }
  }

  lemma WordSimple(x: Limb)
    ensures WordOp(AND, x, 0) == 0 && WordOp(AND, 0, x) == 0
    ensures WordOp(IOR, x, 0) == x && WordOp(IOR, 0, x) == x
    ensures WordOp(XOR, x, 0) == x && WordOp(XOR, 0, x) == x
    ensures WordOp(ANDC2, x, 0) == x && WordOp(ANDC2, 0, x) == 0
  {
    hide Boole;
    BooleSecondZero(AND, x);
    BooleSecondZero(IOR, x);
    BooleSecondZero(XOR, x);
    BooleSecondZero(ANDC2, x);
    BooleFirstZero(AND, x);
    BooleFirstZero(IOR, x);
    BooleFirstZero(XOR, x);
    BooleFirstZero(ANDC2, x);
  }

  // next_and_aux
  method NextAndAux(result: array<Limb>, s1: array<Limb>, size1: nat, s2: array<Limb>, size2: nat) returns (size: nat)
    requires size1 <= s1.Length && size2 <= s2.Length && Min(size1, size2) <= result.Length
    modifies result
    ensures size <= Min(size1, size2) && Normal(result[..size])
    ensures Val(result[..size]) == Boole(AND, old(Val(s1[..size1])), old(Val(s2[..size2])))
  {
    hide Val, Boole, Normal;
    ghost var a, b := s1[..size1], s2[..size2];
    size := Min(size1, size2);
    LogicN(AND, result, s1, s2, size);
    AndValue(a, b, result[..size]);
    size := Normalize(size, result);
  }

  lemma AndValue(a: seq<Limb>, b: seq<Limb>, r: seq<Limb>)
    requires |r| == Min(|a|, |b|) && r == LimbOp(AND, a[..|r|], b[..|r|])
    ensures Val(r) == Boole(AND, Val(a), Val(b))
  {
    hide Val, Boole, WordOp;
    var n := Max(|a|, |b|);
    forall i | 0 <= i < n
      ensures Digit(r, i) == WordOp(AND, Digit(a, i), Digit(b, i))
    {
      WordSimple(Digit(a, i));
      WordSimple(Digit(b, i));
    }
    PaddedOp(AND, a, b, r, n);
  }

  // Where the shorter operand ends, the limbs of the longer one are taken over.
  ghost predicate Merged(t: Table, a: seq<Limb>, b: seq<Limb>, r: seq<Limb>)
    requires !t.ff
  {
    |r| == Max(|a|, |b|)
    && forall i :: 0 <= i < |r| ==>
         r[i] == if i < |a| then if i < |b| then WordOp(t, a[i], b[i]) else a[i] else b[i]
  }

  lemma MergedValue(t: Table, a: seq<Limb>, b: seq<Limb>, r: seq<Limb>)
    requires t == IOR || t == XOR || (t == ANDC2 && |b| <= |a|)
    requires Merged(t, a, b, r)
    ensures Val(r) == Boole(t, Val(a), Val(b))
  {
    hide Val, Boole, WordOp;
    var n := |r|;
    forall i | 0 <= i < n
      ensures Digit(r, i) == WordOp(t, Digit(a, i), Digit(b, i))
    {
      WordSimple(Digit(a, i));
      WordSimple(Digit(b, i));
    }
    PaddedOp(t, a, b, r, n);
  }

  // The bitwise function and the loop that copies the high limbs.
  method Merge(t: Table, result: array<Limb>, s1: array<Limb>, size1: nat, s2: array<Limb>, size2: nat)
    requires !t.ff && size1 <= s1.Length && size2 <= s2.Length && Max(size1, size2) <= result.Length
    modifies result
    ensures Merged(t, old(s1[..size1]), old(s2[..size2]), result[..Max(size1, size2)])
  {
    hide WordOp;
    ghost var a, b := s1[..size1], s2[..size2];
    if size1 < size2 {
      LogicN(t, result, s1, s2, size1);
      assert forall i :: 0 <= i < size1 ==> result[i] == LimbOp(t, a, b[..size1])[i];
      CopyLimbs(result, s2, size1, size2);
    } else {
      LogicN(t, result, s1, s2, size2);
      assert forall i :: 0 <= i < size2 ==> result[i] == LimbOp(t, a[..size2], b)[i];
      CopyLimbs(result, s1, size2, size1);
    }
  }

  // next_ior_aux
  method NextIorAux(result: array<Limb>, s1: array<Limb>, size1: nat, s2: array<Limb>, size2: nat) returns (size: nat)
    requires size1 <= s1.Length && size2 <= s2.Length && Max(size1, size2) <= result.Length
    modifies result
    ensures size == Max(size1, size2)
    ensures Val(result[..size]) == Boole(IOR, old(Val(s1[..size1])), old(Val(s2[..size2])))
    ensures old(Tidy(s1[..size1]) && Tidy(s2[..size2])) ==> Tidy(result[..size])
    ensures old(Normal(s1[..size1]) && Normal(s2[..size2])) ==> Normal(result[..size])
  {
    hide Val, Boole, Normal, Tidy, Merged;
    ghost var a, b := s1[..size1], s2[..size2];
    Merge(IOR, result, s1, size1, s2, size2);
    size := Max(size1, size2);
    MergedValue(IOR, a, b, result[..size]);
    IorTidy(a, b, result[..size]);
  }

  lemma IorTidy(a: seq<Limb>, b: seq<Limb>, r: seq<Limb>)
    requires Merged(IOR, a, b, r)
    ensures Normal(a) && Normal(b) ==> Normal(r)
    ensures Tidy(a) && Tidy(b) ==> Tidy(r)
  {
    if r != [] {
      var k := |r| - 1;
      if k < |a| && k < |b| {
        IorZero(a[k], b[k]);
      }
    }
  }

  lemma {:induction false} IorZero(x: nat, y: nat)
    ensures Boole(IOR, x, y) == 0 <==> x == 0 && y == 0
    decreases x + y
  {
    BooleNatural(IOR, x, y);
    if x > 0 || y > 0 {
      IorZero(x / 2, y / 2);
      BooleNatural(IOR, x / 2, y / 2);
    }
  }

  // next_xor_aux
  method NextXorAux(result: array<Limb>, s1: array<Limb>, size1: nat, s2: array<Limb>, size2: nat) returns (size: nat)
    requires size1 <= s1.Length && size2 <= s2.Length && Max(size1, size2) <= result.Length
    modifies result
    ensures size <= Max(size1, size2) && Normal(result[..size])
    ensures Val(result[..size]) == Boole(XOR, old(Val(s1[..size1])), old(Val(s2[..size2])))
  {
    hide Val, Boole, Normal, Merged;
    ghost var a, b := s1[..size1], s2[..size2];
    Merge(XOR, result, s1, size1, s2, size2);
    MergedValue(XOR, a, b, result[..Max(size1, size2)]);
    size := Normalize(Max(size1, size2), result);
  }

  // next_andc2_aux
  method NextAndc2Aux(result: array<Limb>, s1: array<Limb>, size1: nat, s2: array<Limb>, size2: nat) returns (size: nat)
    requires size1 <= s1.Length && size2 <= s2.Length && size1 <= result.Length
    modifies result
    ensures size <= size1 && Normal(result[..size])
    ensures Val(result[..size]) == Boole(ANDC2, old(Val(s1[..size1])), old(Val(s2[..size2])))
  {
    hide Val, Boole, Normal, Merged;
    ghost var a, b := s1[..size1], s2[..size2];
    if size1 < size2 {
      LogicN(ANDC2, result, s1, s2, size1);
      Andc2Value(a, b, result[..size1]);
    } else {
      Merge(ANDC2, result, s1, size1, s2, size2);
      MergedValue(ANDC2, a, b, result[..size1]);
    }
    size := Normalize(size1, result);
  }

  lemma Andc2Value(a: seq<Limb>, b: seq<Limb>, r: seq<Limb>)
    requires |a| < |b| && r == LimbOp(ANDC2, a, b[..|a|])
    ensures Val(r) == Boole(ANDC2, Val(a), Val(b))
  {
    hide Val, Boole, WordOp;
    forall i | 0 <= i < |b|
      ensures Digit(r, i) == WordOp(ANDC2, Digit(a, i), Digit(b, i))
    {
      WordSimple(b[i]);
    }
    PaddedOp(ANDC2, a, b, r, |b|);
  }

  // ---- the operators ----

  /** How an operation on signed operands comes down to their magnitudes. */
  lemma Signs(t: Table, x: int, y: int)
    ensures var u, a, b := SignTable(t, x < 0, y < 0), Magnitude(x), Magnitude(y);
            Boole(t, x, y) == if u.ff then 0 - Boole(u.Not(), a, b) - 1 else Boole(u, a, b)
    ensures y == 0 ==> Boole(t, x, y) == Unary(t.ff, t.tf, x)
    ensures x == 0 ==> Boole(t, x, y) == Unary(t.ff, t.ft, y)
    ensures Boole(t, x, y) == Boole(t.Swap(), y, x)
  {
    BooleMagnitudes(t, x, y);
    if y == 0 { BooleSecondZero(t, x); }
    if x == 0 { BooleFirstZero(t, y); }
    Swapped(t, x, y);
  }

  lemma OperandMeans(s: array<Limb>, len: int)
    requires IsOperand(s, len)
    ensures len < 0 ==> NumberOf(s, len) < 0
    ensures len >= 0 ==> NumberOf(s, len) >= 0
    ensures len == 0 ==> NumberOf(s, len) == 0
    ensures Val(s[..Abs(len)]) == Abs(NumberOf(s, len))
  {
  }

  // A temporary buffer with the magnitude less one.
  method Decremented(s: array<Limb>, size: nat) returns (temp: array<Limb>)
    requires size <= s.Length && Val(s[..size]) > 0
    ensures fresh(temp) && temp.Length == size && Val(temp[..size]) == Val(s[..size]) - 1
  {
    temp := new Limb[size](_ => 0);
    ghost var v := Val(s[..size]);
    NotNothing(s[..size]);
    BaseBig();
    var borrow := Sub1(temp, s, size, 1);
    ValBound(temp[..size]);
    NoBorrow(Val(temp[..size]), borrow, PowB(size), v);
  }

  lemma NotNothing(limbs: seq<Limb>)
    requires Val(limbs) > 0
    ensures |limbs| > 0
  {
  }

  lemma NoBorrow(r: nat, borrow: Limb, p: nat, v: nat)
    requires borrow <= 1 && r - p * borrow == v - 1 && v > 0 && r < p
    ensures borrow == 0
  {
    assert borrow == 1 ==> p * borrow == p;
  }

  // The negative of one more than the magnitude in the result.
  method NegativeOf(result: array<Limb>, size: nat) returns (len: int)
    requires size <= result.Length && (size == result.Length ==> Val(result[..size]) + 1 < PowB(size))
    modifies result
    ensures len < 0 && IsOperand(result, len) && IsNormal(result, len)
    ensures NumberOf(result, len) == 0 - old(Val(result[..size])) - 1
  {
    hide Val, PowB, Normal;
    var size' := NextAddOneAux(result, result, size);
    len := -(size' as int);
  }

  // next_clr
  method NextClr(result: array<Limb>, s1: array<Limb>, len1: int, s2: array<Limb>, len2: int) returns (len: int)
    requires IsOperand(s1, len1) && IsOperand(s2, len2)
    ensures IsOperand(result, len) && IsNormal(result, len)
    ensures NumberOf(result, len) == Boole(CLR, NumberOf(s1, len1), NumberOf(s2, len2))
  {
    BooleOneSided(CLR, NumberOf(s1, len1), NumberOf(s2, len2));
    len := 0;
  }

  // next_set_aux
  method NextSetAux(result: array<Limb>) returns (len: int)
    requires result.Length > 0
    modifies result
    ensures IsOperand(result, len) && IsNormal(result, len) && NumberOf(result, len) == -1
  {
    BaseBig();
    result[0] := 1;
    ValOne(1);
    assert result[..1] == [1];
    len := -1;
  }

  // next_set
  method NextSet(result: array<Limb>, s1: array<Limb>, len1: int, s2: array<Limb>, len2: int) returns (len: int)
    requires IsOperand(s1, len1) && IsOperand(s2, len2) && HasRoom(SET, result, s1, len1, s2, len2)
    modifies result
    ensures IsOperand(result, len) && NumberOf(result, len) == old(Boole(SET, NumberOf(s1, len1), NumberOf(s2, len2)))
    ensures old(IsNormal(s1, len1) && IsNormal(s2, len2)) ==> IsNormal(result, len)
  {
    hide Val, Boole, PowB, Normal, Tidy;
    ghost var n1, n2 := NumberOf(s1, len1), NumberOf(s2, len2);
    OperandMeans(s1, len1);
    OperandMeans(s2, len2);
    Signs(SET, n1, n2);
    BooleOneSided(SET, n1, n2);
    len := NextSetAux(result);
  }

  // next_1
  method Next1(result: array<Limb>, s1: array<Limb>, len1: int, s2: array<Limb>, len2: int) returns (len: int)
    requires IsOperand(s1, len1) && IsOperand(s2, len2) && HasRoom(FIRST, result, s1, len1, s2, len2)
    modifies result
    ensures IsOperand(result, len) && NumberOf(result, len) == old(Boole(FIRST, NumberOf(s1, len1), NumberOf(s2, len2)))
    ensures old(IsNormal(s1, len1) && IsNormal(s2, len2)) ==> IsNormal(result, len)
  {
    hide Val, Boole, PowB, Normal, Tidy;
    ghost var n1, n2 := NumberOf(s1, len1), NumberOf(s2, len2);
    OperandMeans(s1, len1);
    OperandMeans(s2, len2);
    Signs(FIRST, n1, n2);
    BooleOneSided(FIRST, n1, n2);
    ghost var limbs := s1[..Abs(len1)];
    if len1 != 0 { CopyLimbs(result, s1, 0, Abs(len1)); }
    assert result[..Abs(len1)] == limbs;
    len := len1;
  }

  // next_2
  method Next2(result: array<Limb>, s1: array<Limb>, len1: int, s2: array<Limb>, len2: int) returns (len: int)
    requires IsOperand(s1, len1) && IsOperand(s2, len2) && HasRoom(SECOND, result, s1, len1, s2, len2)
    modifies result
    ensures IsOperand(result, len)
              && NumberOf(result, len) == old(Boole(SECOND, NumberOf(s1, len1), NumberOf(s2, len2)))
    ensures old(IsNormal(s1, len1) && IsNormal(s2, len2)) ==> IsNormal(result, len)
  {
    hide Val, Boole, PowB, Normal, Tidy;
    ghost var n1, n2 := NumberOf(s1, len1), NumberOf(s2, len2);
    OperandMeans(s1, len1);
    OperandMeans(s2, len2);
    Signs(SECOND, n1, n2);
    Signs(FIRST, n2, n1);
    len := Next1(result, s2, len2, s1, len1);
  }

  // The magnitude less one, normalized.
  method DecrementInto(result: array<Limb>, s: array<Limb>, size: nat) returns (size': nat)
    requires size <= s.Length && size <= result.Length && Val(s[..size]) > 0
    modifies result
    ensures size' <= size && Normal(result[..size']) && Val(result[..size']) == old(Val(s[..size])) - 1
  {
    BaseBig();
    ghost var v := Val(s[..size]);
    NotNothing(s[..size]);
    var borrow := Sub1(result, s, size, 1);
    ValBound(result[..size]);
    NoBorrow(Val(result[..size]), borrow, PowB(size), v);
    size' := Normalize(size, result);
  }

  // next_com
  method NextCom(result: array<Limb>, s: array<Limb>, size: int) returns (len: int)
    requires IsOperand(s, size) && 0 < result.Length && Abs(size) <= result.Length
    requires Abs(size) == result.Length ==> NumberOf(s, size) + 1 < PowB(Abs(size))
    modifies result
    ensures IsOperand(result, len) && IsNormal(result, len)
    ensures NumberOf(result, len) == old(0 - NumberOf(s, size)) - 1
  {
    hide Val, Boole, PowB, Normal;
    OperandMeans(s, size);
    if size > 0 {
      var size' := NextAddOneAux(result, s, size);
      len := -(size' as int);
    } else if size < 0 {
      len := DecrementInto(result, s, -size);
    } else {
      len := NextSetAux(result);
    }
  }

  // next_c1
  method NextC1(result: array<Limb>, s1: array<Limb>, len1: int, s2: array<Limb>, len2: int) returns (len: int)
    requires IsOperand(s1, len1) && IsOperand(s2, len2) && HasRoom(C1, result, s1, len1, s2, len2)
    modifies result
    ensures IsOperand(result, len) && NumberOf(result, len) == old(Boole(C1, NumberOf(s1, len1), NumberOf(s2, len2)))
    ensures old(IsNormal(s1, len1) && IsNormal(s2, len2)) ==> IsNormal(result, len)
  {
    hide Val, Boole, PowB, Normal, Tidy;
    ghost var n1, n2 := NumberOf(s1, len1), NumberOf(s2, len2);
    OperandMeans(s1, len1);
    OperandMeans(s2, len2);
    Signs(C1, n1, n2);
    BooleOneSided(C1, n1, n2);
    len := NextCom(result, s1, len1);
  }

  lemma NoLimbs(result: array<Limb>)
    ensures NumberOf(result, 0) == 0 && IsNormal(result, 0) && IsOperand(result, 0)
  {
  }

  // Copying an operand into the result.
  method CopyOperand(result: array<Limb>, s: array<Limb>, len: int)
    requires IsOperand(s, len) && Abs(len) <= result.Length
    modifies result
    ensures IsOperand(result, len) && NumberOf(result, len) == old(NumberOf(s, len))
    ensures old(IsNormal(s, len)) ==> IsNormal(result, len)
  {
    hide Val, Normal;
    ghost var limbs := s[..Abs(len)];
    CopyLimbs(result, s, 0, Abs(len));
    assert result[..Abs(len)] == limbs;
  }

  // next_addneg: t1 is positive and t2 the magnitude of a negative operand
  method NextAddNeg(result: array<Limb>, t1: array<Limb>, size1: nat, t2: array<Limb>, size2: nat) returns (size: nat)
    requires size1 <= t1.Length && size2 <= t2.Length && Val(t2[..size2]) > 0
    requires size1 <= result.Length
    modifies result
    ensures size <= result.Length && Normal(result[..size])
    ensures Val(result[..size]) == old(Boole(AND, Val(t1[..size1]), 0 - Val(t2[..size2])))
  {
    hide Val, Boole, PowB, Normal;
    Signs(AND, Val(t1[..size1]), 0 - Val(t2[..size2]));
    var temp := Decremented(t2, size2);
    size := NextAndc2Aux(result, t1, size1, temp, size2);
  }

  // next_and
  method NextAnd(result: array<Limb>, s1: array<Limb>, len1: int, s2: array<Limb>, len2: int) returns (len: int)
    requires IsOperand(s1, len1) && IsOperand(s2, len2) && HasRoom(AND, result, s1, len1, s2, len2)
    modifies result
    ensures IsOperand(result, len) && NumberOf(result, len) == old(Boole(AND, NumberOf(s1, len1), NumberOf(s2, len2)))
    ensures old(IsNormal(s1, len1) && IsNormal(s2, len2)) ==> IsNormal(result, len)
  {
    hide Val, Boole, PowB, Normal;
    ghost var n1, n2 := NumberOf(s1, len1), NumberOf(s2, len2);
    OperandMeans(s1, len1);
    OperandMeans(s2, len2);
    Signs(AND, n1, n2);
    if len1 > 0 {
      if len2 > 0 {
        len := NextAndAux(result, s1, len1, s2, len2);
      } else if len2 < 0 {
        len := NextAddNeg(result, s1, len1, s2, -len2);
      } else {
        NoLimbs(result);
        len := 0;
      }
    } else if len1 < 0 {
      if len2 > 0 {
        Signs(AND, n2, n1);
        len := NextAddNeg(result, s2, len2, s1, -len1);
      } else if len2 < 0 {
        var temp1 := Decremented(s1, -len1);
        var temp2 := Decremented(s2, -len2);
        var size := NextIorAux(result, temp1, -len1, temp2, -len2);
        size := Normalize(size, result);
        len := NegativeOf(result, size);
      } else {
        NoLimbs(result);
        len := 0;
      }
    } else {
      NoLimbs(result);
      len := 0;
    }
  }

  // next_andc2
  method NextAndc2(result: array<Limb>, s1: array<Limb>, len1: int, s2: array<Limb>, len2: int) returns (len: int)
    requires IsOperand(s1, len1) && IsOperand(s2, len2) && HasRoom(ANDC2, result, s1, len1, s2, len2)
    modifies result
    ensures IsOperand(result, len) && NumberOf(result, len) == old(Boole(ANDC2, NumberOf(s1, len1), NumberOf(s2, len2)))
    ensures old(IsNormal(s1, len1) && IsNormal(s2, len2)) ==> IsNormal(result, len)
  {
    hide Val, Boole, PowB, Normal;
    ghost var n1, n2 := NumberOf(s1, len1), NumberOf(s2, len2);
    OperandMeans(s1, len1);
    OperandMeans(s2, len2);
    Signs(ANDC2, n1, n2);
    if len1 > 0 {
      if len2 > 0 {
        len := NextAndc2Aux(result, s1, len1, s2, len2);
      } else if len2 < 0 {
        var temp := Decremented(s2, -len2);
        len := NextAndAux(result, s1, len1, temp, -len2);
      } else {
        CopyOperand(result, s1, len1);
        len := len1;
      }
    } else if len1 < 0 {
      if len2 > 0 {
        var temp := Decremented(s1, -len1);
        var size := NextIorAux(result, temp, -len1, s2, len2);
        len := NegativeOf(result, size);
      } else if len2 < 0 {
        var temp1 := Decremented(s1, -len1);
        var temp2 := Decremented(s2, -len2);
        Swapped(ANDC1, Val(temp1[..-len1]), Val(temp2[..-len2]));
        len := NextAndc2Aux(result, temp2, -len2, temp1, -len1);
      } else {
        CopyOperand(result, s1, len1);
        len := len1;
      }
    } else {
      NoLimbs(result);
      len := 0;
    }
  }

  // next_andc1
  method NextAndc1(result: array<Limb>, s1: array<Limb>, len1: int, s2: array<Limb>, len2: int) returns (len: int)
    requires IsOperand(s1, len1) && IsOperand(s2, len2) && HasRoom(ANDC1, result, s1, len1, s2, len2)
    modifies result
    ensures IsOperand(result, len) && NumberOf(result, len) == old(Boole(ANDC1, NumberOf(s1, len1), NumberOf(s2, len2)))
    ensures old(IsNormal(s1, len1) && IsNormal(s2, len2)) ==> IsNormal(result, len)
  {
    hide Val, Boole, PowB, Normal;
    ghost var n1, n2 := NumberOf(s1, len1), NumberOf(s2, len2);
    OperandMeans(s1, len1);
    OperandMeans(s2, len2);
    Signs(ANDC1, n1, n2);
    Signs(ANDC2, n2, n1);
    len := NextAndc2(result, s2, len2, s1, len1);
  }

  // next_xorneg
  method NextXorNeg(result: array<Limb>, t1: array<Limb>, size1: nat, t2: array<Limb>, size2: nat) returns (len: int)
    requires size1 <= t1.Length && size2 <= t2.Length && Val(t2[..size2]) > 0
    requires Max(size1, size2) <= result.Length
    requires Max(size1, size2) == result.Length ==>
               0 < Boole(XOR, Val(t1[..size1]), 0 - Val(t2[..size2])) + PowB(result.Length)
    modifies result
    ensures IsOperand(result, len) && IsNormal(result, len)
    ensures NumberOf(result, len) == old(Boole(XOR, Val(t1[..size1]), 0 - Val(t2[..size2])))
  {
    hide Val, Boole, PowB, Normal;
    Signs(XOR, Val(t1[..size1]), 0 - Val(t2[..size2]));
    var temp := Decremented(t2, size2);
    var size := NextXorAux(result, t1, size1, temp, size2);
    len := NegativeOf(result, size);
  }

  // next_xor
  method NextXor(result: array<Limb>, s1: array<Limb>, len1: int, s2: array<Limb>, len2: int) returns (len: int)
    requires IsOperand(s1, len1) && IsOperand(s2, len2) && HasRoom(XOR, result, s1, len1, s2, len2)
    modifies result
    ensures IsOperand(result, len) && NumberOf(result, len) == old(Boole(XOR, NumberOf(s1, len1), NumberOf(s2, len2)))
    ensures old(IsNormal(s1, len1) && IsNormal(s2, len2)) ==> IsNormal(result, len)
  {
    hide Val, Boole, PowB, Normal;
    ghost var n1, n2 := NumberOf(s1, len1), NumberOf(s2, len2);
    OperandMeans(s1, len1);
    OperandMeans(s2, len2);
    Signs(XOR, n1, n2);
    if len1 > 0 {
      if len2 > 0 {
        len := NextXorAux(result, s1, len1, s2, len2);
      } else if len2 < 0 {
        len := NextXorNeg(result, s1, len1, s2, -len2);
      } else {
        CopyOperand(result, s1, len1);
        len := len1;
      }
    } else if len1 < 0 {
      if len2 > 0 {
        Signs(XOR, n2, n1);
        len := NextXorNeg(result, s2, len2, s1, -len1);
      } else if len2 < 0 {
        var temp1 := Decremented(s1, -len1);
        var temp2 := Decremented(s2, -len2);
        len := NextXorAux(result, temp1, -len1, temp2, -len2);
      } else {
        CopyOperand(result, s1, len1);
        len := len1;
      }
    } else {
      if len2 != 0 { CopyOperand(result, s2, len2); } else { NoLimbs(result); }
      len := len2;
    }
  }

  // next_iorneg
  method NextIorNeg(result: array<Limb>, t1: array<Limb>, size1: nat, t2: array<Limb>, size2: nat) returns (len: int)
    requires size1 <= t1.Length && size2 <= t2.Length && Val(t2[..size2]) > 0
    requires Max(size1, size2) <= result.Length
    requires Max(size1, size2) == result.Length ==>
               0 < Boole(IOR, Val(t1[..size1]), 0 - Val(t2[..size2])) + PowB(result.Length)
    modifies result
    ensures IsOperand(result, len) && IsNormal(result, len)
    ensures NumberOf(result, len) == old(Boole(IOR, Val(t1[..size1]), 0 - Val(t2[..size2])))
  {
    hide Val, Boole, PowB, Normal;
    Signs(IOR, Val(t1[..size1]), 0 - Val(t2[..size2]));
    var temp := Decremented(t2, size2);
    Swapped(ANDC1, Val(t1[..size1]), Val(temp[..size2]));
    var size := NextAndc2Aux(result, temp, size2, t1, size1);
    len := NegativeOf(result, size);
  }

  // next_ior
  method NextIor(result: array<Limb>, s1: array<Limb>, len1: int, s2: array<Limb>, len2: int) returns (len: int)
    requires IsOperand(s1, len1) && IsOperand(s2, len2) && HasRoom(IOR, result, s1, len1, s2, len2)
    modifies result
    ensures IsOperand(result, len) && NumberOf(result, len) == old(Boole(IOR, NumberOf(s1, len1), NumberOf(s2, len2)))
    ensures old(IsNormal(s1, len1) && IsNormal(s2, len2)) ==> IsNormal(result, len)
  {
    hide Val, Boole, PowB, Normal;
    ghost var n1, n2 := NumberOf(s1, len1), NumberOf(s2, len2);
    OperandMeans(s1, len1);
    OperandMeans(s2, len2);
    Signs(IOR, n1, n2);
    if len1 > 0 {
      if len2 > 0 {
        len := NextIorAux(result, s1, len1, s2, len2);
      } else if len2 < 0 {
        len := NextIorNeg(result, s1, len1, s2, -len2);
      } else {
        CopyOperand(result, s1, len1);
        len := len1;
      }
    } else if len1 < 0 {
      if len2 > 0 {
        Signs(IOR, n2, n1);
        len := NextIorNeg(result, s2, len2, s1, -len1);
      } else if len2 < 0 {
        var temp1 := Decremented(s1, -len1);
        var temp2 := Decremented(s2, -len2);
        var size := NextAndAux(result, temp1, -len1, temp2, -len2);
        len := NegativeOf(result, size);
      } else {
        CopyOperand(result, s1, len1);
        len := len1;
      }
    } else {
      if len2 != 0 { CopyOperand(result, s2, len2); } else { NoLimbs(result); }
      len := len2;
    }
  }

  // next_norneg
  method NextNorNeg(result: array<Limb>, t1: array<Limb>, size1: nat, t2: array<Limb>, size2: nat) returns (size: nat)
    requires size1 <= t1.Length && size2 <= t2.Length && Val(t2[..size2]) > 0
    requires size2 <= result.Length
    modifies result
    ensures size <= result.Length && Normal(result[..size])
    ensures Val(result[..size]) == old(Boole(NOR, Val(t1[..size1]), 0 - Val(t2[..size2])))
  {
    hide Val, Boole, PowB, Normal;
    Signs(NOR, Val(t1[..size1]), 0 - Val(t2[..size2]));
    var temp := Decremented(t2, size2);
    Swapped(ANDC1, Val(t1[..size1]), Val(temp[..size2]));
    size := NextAndc2Aux(result, temp, size2, t1, size1);
  }

  // next_nor
  method NextNor(result: array<Limb>, s1: array<Limb>, len1: int, s2: array<Limb>, len2: int) returns (len: int)
    requires IsOperand(s1, len1) && IsOperand(s2, len2) && HasRoom(NOR, result, s1, len1, s2, len2)
    modifies result
    ensures IsOperand(result, len) && NumberOf(result, len) == old(Boole(NOR, NumberOf(s1, len1), NumberOf(s2, len2)))
    ensures old(IsNormal(s1, len1) && IsNormal(s2, len2)) ==> IsNormal(result, len)
  {
    hide Val, Boole, PowB, Normal;
    ghost var n1, n2 := NumberOf(s1, len1), NumberOf(s2, len2);
    OperandMeans(s1, len1);
    OperandMeans(s2, len2);
    Signs(NOR, n1, n2);
    if len1 > 0 {
      if len2 > 0 {
        var size := NextIorAux(result, s1, len1, s2, len2);
        len := NegativeOf(result, size);
      } else if len2 < 0 {
        len := NextNorNeg(result, s1, len1, s2, -len2);
      } else {
        len := NextCom(result, s1, len1);
      }
    } else if len1 < 0 {
      if len2 > 0 {
        Signs(NOR, n2, n1);
        len := NextNorNeg(result, s2, len2, s1, -len1);
      } else if len2 < 0 {
        var temp1 := Decremented(s1, -len1);
        var temp2 := Decremented(s2, -len2);
        len := NextAndAux(result, temp1, -len1, temp2, -len2);
      } else {
        len := NextCom(result, s1, len1);
      }
    } else {
      len := NextCom(result, s2, len2);
    }
  }

  // next_eqvneg
  method NextEqvNeg(result: array<Limb>, t1: array<Limb>, size1: nat, t2: array<Limb>, size2: nat) returns (size: nat)
    requires size1 <= t1.Length && size2 <= t2.Length && Val(t2[..size2]) > 0
    requires Max(size1, size2) <= result.Length
    modifies result
    ensures size <= result.Length && Normal(result[..size])
    ensures Val(result[..size]) == old(Boole(EQV, Val(t1[..size1]), 0 - Val(t2[..size2])))
  {
    hide Val, Boole, PowB, Normal;
    Signs(EQV, Val(t1[..size1]), 0 - Val(t2[..size2]));
    var temp := Decremented(t2, size2);
    size := NextXorAux(result, t1, size1, temp, size2);
  }

  // next_eqv
  method NextEqv(result: array<Limb>, s1: array<Limb>, len1: int, s2: array<Limb>, len2: int) returns (len: int)
    requires IsOperand(s1, len1) && IsOperand(s2, len2) && HasRoom(EQV, result, s1, len1, s2, len2)
    modifies result
    ensures IsOperand(result, len) && NumberOf(result, len) == old(Boole(EQV, NumberOf(s1, len1), NumberOf(s2, len2)))
    ensures old(IsNormal(s1, len1) && IsNormal(s2, len2)) ==> IsNormal(result, len)
  {
    hide Val, Boole, PowB, Normal;
    ghost var n1, n2 := NumberOf(s1, len1), NumberOf(s2, len2);
    OperandMeans(s1, len1);
    OperandMeans(s2, len2);
    Signs(EQV, n1, n2);
    if len1 > 0 {
      if len2 > 0 {
        var size := NextXorAux(result, s1, len1, s2, len2);
        len := NegativeOf(result, size);
      } else if len2 < 0 {
        len := NextEqvNeg(result, s1, len1, s2, -len2);
      } else {
        len := NextCom(result, s1, len1);
      }
    } else if len1 < 0 {
      if len2 > 0 {
        Signs(EQV, n2, n1);
        len := NextEqvNeg(result, s2, len2, s1, -len1);
      } else if len2 < 0 {
        var temp1 := Decremented(s1, -len1);
        var temp2 := Decremented(s2, -len2);
        var size := NextXorAux(result, temp1, -len1, temp2, -len2);
        len := NegativeOf(result, size);
      } else {
        len := NextCom(result, s1, len1);
      }
    } else {
      len := NextCom(result, s2, len2);
    }
  }

  // next_c2
  method NextC2(result: array<Limb>, s1: array<Limb>, len1: int, s2: array<Limb>, len2: int) returns (len: int)
    requires IsOperand(s1, len1) && IsOperand(s2, len2) && HasRoom(C2, result, s1, len1, s2, len2)
    modifies result
    ensures IsOperand(result, len) && NumberOf(result, len) == old(Boole(C2, NumberOf(s1, len1), NumberOf(s2, len2)))
    ensures old(IsNormal(s1, len1) && IsNormal(s2, len2)) ==> IsNormal(result, len)
  {
    hide Val, Boole, PowB, Normal;
    ghost var n1, n2 := NumberOf(s1, len1), NumberOf(s2, len2);
    OperandMeans(s1, len1);
    OperandMeans(s2, len2);
    Signs(C2, n1, n2);
    Signs(C1, n2, n1);
    BooleOneSided(C1, n2, n1);
    len := NextCom(result, s2, len2);
  }

  // next_orc2
  method NextOrc2(result: array<Limb>, s1: array<Limb>, len1: int, s2: array<Limb>, len2: int) returns (len: int)
    requires IsOperand(s1, len1) && IsOperand(s2, len2) && HasRoom(ORC2, result, s1, len1, s2, len2)
    modifies result
    ensures IsOperand(result, len) && NumberOf(result, len) == old(Boole(ORC2, NumberOf(s1, len1), NumberOf(s2, len2)))
    ensures old(IsNormal(s1, len1) && IsNormal(s2, len2)) ==> IsNormal(result, len)
  {
    hide Val, Boole, PowB, Normal;
    ghost var n1, n2 := NumberOf(s1, len1), NumberOf(s2, len2);
    OperandMeans(s1, len1);
    OperandMeans(s2, len2);
    Signs(ORC2, n1, n2);
    if len1 > 0 {
      if len2 > 0 {
        Signs(ANDC2, n2, n1);
        var size := NextAndc2Aux(result, s2, len2, s1, len1);
        len := NegativeOf(result, size);
      } else if len2 < 0 {
        var temp := Decremented(s2, -len2);
        var size := NextIorAux(result, s1, len1, temp, -len2);
        size := Normalize(size, result);
        len := size;
      } else {
        len := NextSetAux(result);
      }
    } else if len1 < 0 {
      if len2 > 0 {
        var temp := Decremented(s1, -len1);
        var size := NextAndAux(result, temp, -len1, s2, len2);
        len := NegativeOf(result, size);
      } else if len2 < 0 {
        var temp1 := Decremented(s1, -len1);
        var temp2 := Decremented(s2, -len2);
        var size := NextAndc2Aux(result, temp1, -len1, temp2, -len2);
        len := NegativeOf(result, size);
      } else {
        len := NextSetAux(result);
      }
    } else {
      len := NextCom(result, s2, len2);
    }
  }

  // next_orc1
  method NextOrc1(result: array<Limb>, s1: array<Limb>, len1: int, s2: array<Limb>, len2: int) returns (len: int)
    requires IsOperand(s1, len1) && IsOperand(s2, len2) && HasRoom(ORC1, result, s1, len1, s2, len2)
    modifies result
    ensures IsOperand(result, len) && NumberOf(result, len) == old(Boole(ORC1, NumberOf(s1, len1), NumberOf(s2, len2)))
    ensures old(IsNormal(s1, len1) && IsNormal(s2, len2)) ==> IsNormal(result, len)
  {
    hide Val, Boole, PowB, Normal;
    ghost var n1, n2 := NumberOf(s1, len1), NumberOf(s2, len2);
    OperandMeans(s1, len1);
    OperandMeans(s2, len2);
    Signs(ORC1, n1, n2);
    Signs(ORC2, n2, n1);
    len := NextOrc2(result, s2, len2, s1, len1);
  }

  // next_nandneg
  method NextNandNeg(result: array<Limb>, t1: array<Limb>, size1: nat, t2: array<Limb>, size2: nat) returns (len: int)
    requires size1 <= t1.Length && size2 <= t2.Length && Val(t2[..size2]) > 0
    requires Max(size1, size2) <= result.Length
    requires Max(size1, size2) == result.Length ==>
               0 < Boole(NAND, Val(t1[..size1]), 0 - Val(t2[..size2])) + PowB(result.Length)
    modifies result
    ensures IsOperand(result, len) && IsNormal(result, len)
    ensures NumberOf(result, len) == old(Boole(NAND, Val(t1[..size1]), 0 - Val(t2[..size2])))
  {
    hide Val, Boole, PowB, Normal;
    Signs(NAND, Val(t1[..size1]), 0 - Val(t2[..size2]));
    var temp := Decremented(t2, size2);
    var size := NextAndc2Aux(result, t1, size1, temp, size2);
    len := NegativeOf(result, size);
  }

  // next_nand
  method NextNand(result: array<Limb>, s1: array<Limb>, len1: int, s2: array<Limb>, len2: int) returns (len: int)
    requires IsOperand(s1, len1) && IsOperand(s2, len2) && HasRoom(NAND, result, s1, len1, s2, len2)
    modifies result
    ensures IsOperand(result, len) && NumberOf(result, len) == old(Boole(NAND, NumberOf(s1, len1), NumberOf(s2, len2)))
    ensures old(IsNormal(s1, len1) && IsNormal(s2, len2)) ==> IsNormal(result, len)
  {
    hide Val, Boole, PowB, Normal;
    ghost var n1, n2 := NumberOf(s1, len1), NumberOf(s2, len2);
    OperandMeans(s1, len1);
    OperandMeans(s2, len2);
    Signs(NAND, n1, n2);
    if len1 > 0 {
      if len2 > 0 {
        var size := NextAndAux(result, s1, len1, s2, len2);
        len := NegativeOf(result, size);
      } else if len2 < 0 {
        len := NextNandNeg(result, s1, len1, s2, -len2);
      } else {
        len := NextSetAux(result);
      }
    } else if len1 < 0 {
      if len2 > 0 {
        Signs(NAND, n2, n1);
        len := NextNandNeg(result, s2, len2, s1, -len1);
      } else if len2 < 0 {
        var temp1 := Decremented(s1, -len1);
        var temp2 := Decremented(s2, -len2);
        var size := NextIorAux(result, temp1, -len1, temp2, -len2);
        size := Normalize(size, result);
        len := size;
      } else {
        len := NextSetAux(result);
      }
    } else {
      len := NextSetAux(result);
    }
  }
}
