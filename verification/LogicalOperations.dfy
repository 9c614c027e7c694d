/** Logical operations on integers of either representation. */
module LogicalOperations {
  import opened Options
  import opened TwosComplement
  import opened Limbs
  import opened LimbBuffers
  import opened BooleOperators
  import opened Bignum

  // The operations in the order of their numbers.
  const OPERATIONS: seq<Table> :=
    [CLR, AND, ANDC2, FIRST, ANDC1, SECOND, XOR, IOR, NOR, EQV, C2, ORC2, C1, ORC1, NAND, SET]

  type OperationNumber = n: nat | n < 16 witness 0

  /** What each number means for every bit of the result. */
  lemma OperationBits(op: OperationNumber, x: int, y: int)
    ensures var z := Boole(OPERATIONS[op], x, y);
            forall n: nat {:trigger Bit(z, n)} ::
              && (op == 0 ==> !Bit(z, n))
              && (op == 1 ==> (Bit(z, n) <==> Bit(x, n) && Bit(y, n)))
              && (op == 2 ==> (Bit(z, n) <==> Bit(x, n) && !Bit(y, n)))
              && (op == 3 ==> (Bit(z, n) <==> Bit(x, n)))
              && (op == 4 ==> (Bit(z, n) <==> !Bit(x, n) && Bit(y, n)))
              && (op == 5 ==> (Bit(z, n) <==> Bit(y, n)))
              && (op == 6 ==> (Bit(z, n) <==> Bit(x, n) != Bit(y, n)))
              && (op == 7 ==> (Bit(z, n) <==> Bit(x, n) || Bit(y, n)))
              && (op == 8 ==> (Bit(z, n) <==> !Bit(x, n) && !Bit(y, n)))
              && (op == 9 ==> (Bit(z, n) <==> Bit(x, n) == Bit(y, n)))
              && (op == 10 ==> (Bit(z, n) <==> !Bit(y, n)))
              && (op == 11 ==> (Bit(z, n) <==> Bit(x, n) || !Bit(y, n)))
              && (op == 12 ==> (Bit(z, n) <==> !Bit(x, n)))
              && (op == 13 ==> (Bit(z, n) <==> !Bit(x, n) || Bit(y, n)))
              && (op == 14 ==> (Bit(z, n) <==> !Bit(x, n) || !Bit(y, n)))
              && (op == 15 ==> Bit(z, n))
  {
    hide Bit, Boole;
    forall n: nat
      ensures Bit(Boole(OPERATIONS[op], x, y), n) <==> OPERATIONS[op].At(Bit(x, n), Bit(y, n))
    {
      BooleBit(OPERATIONS[op], x, y, n);
    }
  }

  // The entry of next_operations, applied.
  method NextOperation(op: OperationNumber, result: array<Limb>, s1: array<Limb>, len1: int, s2: array<Limb>, len2: int)
    returns (len: int)
    requires IsOperand(s1, len1) && IsOperand(s2, len2) && HasRoom(OPERATIONS[op], result, s1, len1, s2, len2)
    modifies result
    ensures IsOperand(result, len)
    ensures NumberOf(result, len) == old(Boole(OPERATIONS[op], NumberOf(s1, len1), NumberOf(s2, len2)))
  {
    hide Val, Boole, PowB, Normal, Tidy;
    match op
    case 0 => len := NextClr(result, s1, len1, s2, len2);
    case 1 => len := NextAnd(result, s1, len1, s2, len2);
    case 2 => len := NextAndc2(result, s1, len1, s2, len2);
    case 3 => len := Next1(result, s1, len1, s2, len2);
    case 4 => len := NextAndc1(result, s1, len1, s2, len2);
    case 5 => len := Next2(result, s1, len1, s2, len2);
    case 6 => len := NextXor(result, s1, len1, s2, len2);
    case 7 => len := NextIor(result, s1, len1, s2, len2);
    case 8 => len := NextNor(result, s1, len1, s2, len2);
    case 9 => len := NextEqv(result, s1, len1, s2, len2);
    case 10 => len := NextC2(result, s1, len1, s2, len2);
    case 11 => len := NextOrc2(result, s1, len1, s2, len2);
    case 12 => len := NextC1(result, s1, len1, s2, len2);
    case 13 => len := NextOrc1(result, s1, len1, s2, len2);
    case 14 => len := NextNand(result, s1, len1, s2, len2);
    case 15 => len := NextSet(result, s1, len1, s2, len2);
  }

  // ---- fixnums ----

  function Complement(i: int): int { -i - 1 }

  // The entry of fixnum_operations, applied: operators of the machine on words.
  function FixnumOperation(op: OperationNumber, i: int, j: int): int {
    match op
    case 0 => 0
    case 1 => Boole(AND, i, j)
    case 2 => Boole(AND, i, Complement(j))
    case 3 => i
    case 4 => Boole(AND, Complement(i), j)
    case 5 => j
    case 6 => Boole(XOR, i, j)
    case 7 => Boole(IOR, i, j)
    case 8 => Complement(Boole(IOR, i, j))
    case 9 => Complement(Boole(XOR, i, j))
    case 10 => Complement(j)
    case 11 => Boole(IOR, i, Complement(j))
    case 12 => Complement(i)
    case 13 => Boole(IOR, Complement(i), j)
    case 14 => Complement(Boole(AND, i, j))
    case 15 => -1
  }

  /** The two tables of operators have the same meaning, and fixnums are closed
      under all of them. */
  lemma FixnumOperationMeans(op: OperationNumber, i: int, j: int)
    ensures FixnumOperation(op, i, j) == Boole(OPERATIONS[op], i, j)
    ensures IsFixnum(i) && IsFixnum(j) ==> IsFixnum(FixnumOperation(op, i, j))
  {
    hide Boole, Pow2;
    FlippedSecond(AND, i, j);
    FlippedSecond(IOR, i, j);
    FlippedFirst(AND, i, j);
    FlippedFirst(IOR, i, j);
    Complemented(IOR, i, j);
    Complemented(XOR, i, j);
    Complemented(AND, i, j);
    Degenerate(i, j);
    FixnumWithin(i);
    FixnumWithin(j);
    FixnumWithin(Boole(OPERATIONS[op], i, j));
    if IsFixnum(i) && IsFixnum(j) { BooleRange(OPERATIONS[op], i, j, 61); }
  }

  // The operations that ignore an operand.
  lemma Degenerate(i: int, j: int)
    ensures Boole(CLR, i, j) == 0 && Boole(SET, i, j) == -1
    ensures Boole(FIRST, i, j) == i && Boole(C1, i, j) == -i - 1
    ensures Boole(SECOND, i, j) == j && Boole(C2, i, j) == -j - 1
  {
    hide Boole;
    BooleOneSided(CLR, i, j);
    BooleOneSided(SET, i, j);
    BooleOneSided(FIRST, i, j);
    BooleOneSided(C1, i, j);
    BooleOneSided(FIRST, j, i);
    BooleOneSided(C1, j, i);
    Swapped(SECOND, i, j);
    Swapped(C2, i, j);
  }

  lemma FixnumWithin(i: int)
    ensures IsFixnum(i) <==> Within(i, 61)
  {
    Pow62();
    assert Pow2(62) == 2 * Pow2(61);
  }

  // ---- two operands ----

  // A buffer with these limbs.
  method Stored(limbs: seq<Limb>) returns (s: array<Limb>)
    ensures fresh(s) && s.Length == |limbs| && s[..] == limbs
  {
    s := new Limb[|limbs|](i requires 0 <= i < |limbs| => limbs[i]);
  }

  // The limbs of the magnitude less one of a negative bignum.
  method SubtractOne(limbs: seq<Limb>) returns (sublimbs: seq<Limb>)
    requires Val(limbs) > 0
    ensures |sublimbs| == |limbs| && Val(sublimbs) == Val(limbs) - 1
  {
    var s := Stored(limbs);
    assert s[..|limbs|] == limbs;
    var temp := Decremented(s, |limbs|);
    sublimbs := temp[..|limbs|];
  }

  lemma BignumIsOperand(i: Integer, s: array<Limb>)
    requires i.Bignum? && Canonical(i) && Abs(i.len) <= s.Length && s[..Abs(i.len)] == i.limbs
    ensures IsOperand(s, i.len) && NumberOf(s, i.len) == Value(i) && i.len != 0
    ensures Abs(Value(i)) < PowB(Abs(i.len))
  {
    ValBound(i.limbs);
    hide Pow2, PowB;
  }

  // A fixnum is passed as its magnitude with a length of one, minus one or,
  // for a zero in an operation of two operands, zero.
  lemma FixnumIsOperand(f: int, s: array<Limb>, len: int)
    requires IsFixnum(f) && s.Length > 0 && s[0] == Abs(f)
    requires if f < 0 then len == -1 else len == 1 || (f == 0 && len == 0)
    ensures IsOperand(s, len) && NumberOf(s, len) == f
  {
    ShortVal(s[..Abs(len)]);
  }

  lemma FixnumFitsLimb(f: int)
    requires IsFixnum(f)
    ensures Abs(f) < BASE
  {
    BaseBig();
  }

  lemma ResultMeans(result: array<Limb>, len: int)
    requires IsOperand(result, len)
    ensures Value(BignumResult(len, result[..Abs(len)])) == NumberOf(result, len)
    ensures Canonical(BignumResult(len, result[..Abs(len)]))
  {
    hide Val, Tidy;
    BignumResultCanonical(len, result[..Abs(len)]);
  }

  // The length that a fixnum operand is passed with.
  function FixnumLength(f: int): int { if f < 0 then -1 else if f > 0 then 1 else 0 }

  // next_boole_mixed1
  method NextBooleMixed1(op: OperationNumber, big: Integer, small: int) returns (r: Integer)
    requires big.Bignum? && Canonical(big) && IsFixnum(small)
    ensures Canonical(r) && Value(r) == Boole(OPERATIONS[op], Value(big), small)
  {
    var s := Stored(big.limbs);
    var result := new Limb[Abs(big.len) + 1](_ => 0);
    FixnumFitsLimb(small);
    var flimb := Stored([Abs(small)]);
    BignumIsOperand(big, s);
    FixnumIsOperand(small, flimb, FixnumLength(small));
    hide Val, Boole, PowB, Normal, Tidy, Pow2, BignumResult;
    var rlen := NextOperation(op, result, s, big.len, flimb, FixnumLength(small));
    ResultMeans(result, rlen);
    r := BignumResult(rlen, result[..Abs(rlen)]);
  }

  // next_boole_mixed2
  method NextBooleMixed2(op: OperationNumber, small: int, big: Integer) returns (r: Integer)
    requires big.Bignum? && Canonical(big) && IsFixnum(small)
    ensures Canonical(r) && Value(r) == Boole(OPERATIONS[op], small, Value(big))
  {
    var s := Stored(big.limbs);
    var result := new Limb[Abs(big.len) + 1](_ => 0);
    FixnumFitsLimb(small);
    var flimb := Stored([Abs(small)]);
    BignumIsOperand(big, s);
    FixnumIsOperand(small, flimb, FixnumLength(small));
    hide Val, Boole, PowB, Normal, Tidy, Pow2, BignumResult;
    var rlen := NextOperation(op, result, flimb, FixnumLength(small), s, big.len);
    ResultMeans(result, rlen);
    r := BignumResult(rlen, result[..Abs(rlen)]);
  }

  // Two bignums whose result does not fit the buffer that clasp_boole gives it,
  // which is as long as the longer one: the operation sets the sign and no bit
  // of any limb.
  predicate Overruns(t: Table, i1: Integer, i2: Integer) {
    i1.Bignum? && i2.Bignum?
    && t.At(Value(i1) < 0, Value(i2) < 0)
    && forall n: nat :: n < LIMB_BITS * Max(Abs(i1.len), Abs(i2.len)) ==> !t.At(Bit(Value(i1), n), Bit(Value(i2), n))
  }

  /** The buffer is too short exactly for the negative power of the base that
      needs one limb more than it has. */
  lemma OverrunsExactly(t: Table, i1: Integer, i2: Integer)
    requires i1.Bignum? && i2.Bignum? && Canonical(i1) && Canonical(i2)
    ensures var m, z := Max(Abs(i1.len), Abs(i2.len)), Boole(t, Value(i1), Value(i2));
            (Overruns(t, i1, i2) <==> z == 0 - PowB(m)) && 0 - PowB(m) <= z < PowB(m)
  {
    var m := Max(Abs(i1.len), Abs(i2.len));
    var x, y, k := Value(i1), Value(i2), LIMB_BITS * m;
    var z := Boole(t, x, y);
    PowBBits(m);
    ValBound(i1.limbs);
    ValBound(i2.limbs);
    PowBMonotone(Abs(i1.len), m);
    PowBMonotone(Abs(i2.len), m);
    hide *;
    ResultBits(t, x, y, k);
  }

  lemma ResultBits(t: Table, x: int, y: int, k: nat)
    requires Within(x, k) && Within(y, k)
    ensures Within(Boole(t, x, y), k)
    ensures Boole(t, x, y) == 0 - Pow2(k)
            <==> t.At(x < 0, y < 0) && forall n: nat :: n < k ==> !t.At(Bit(x, n), Bit(y, n))
  {
    hide Boole, Bit, Pow2;
    var z := Boole(t, x, y);
    BooleRange(t, x, y, k);
    BitOutside(x, k, k);
    BitOutside(y, k, k);
    BitOutside(z, k, k);
    BooleBit(t, x, y, k);
    forall n: nat ensures Bit(z, n) <==> t.At(Bit(x, n), Bit(y, n)) { BooleBit(t, x, y, n); }
    if z < 0 { NoBitsBelow(z, k); }
  }

  // The branch of clasp_boole for two bignums, with its buffer of the length of
  // the longer one
  method BooleOfBignums(op: OperationNumber, i1: Integer, i2: Integer) returns (r: Integer)
    requires i1.Bignum? && i2.Bignum? && Canonical(i1) && Canonical(i2) && !Overruns(OPERATIONS[op], i1, i2)
    ensures Canonical(r) && Value(r) == Boole(OPERATIONS[op], Value(i1), Value(i2))
  {
    hide Overruns;
    OverrunsExactly(OPERATIONS[op], i1, i2);
    var s1 := Stored(i1.limbs);
    var s2 := Stored(i2.limbs);
    BignumIsOperand(i1, s1);
    BignumIsOperand(i2, s2);
    var result := new Limb[Max(Abs(i1.len), Abs(i2.len))](_ => 0);
    hide Val, Boole, PowB, Normal, Tidy, Pow2, BignumResult;
    var len := NextOperation(op, result, s1, i1.len, s2, i2.len);
    ResultMeans(result, len);
    r := BignumResult(len, result[..Abs(len)]);
  }

  /** clasp_boole: the canonical integer whose bits are the operation on the bits
      of the operands, for each of the sixteen numbers. None stands for the write past the end of the buffer of two
      bignums, which happens exactly where their bits say so. */
  method ClaspBoole(op: OperationNumber, i1: Integer, i2: Integer) returns (r: Option<Integer>)
    requires Canonical(i1) && Canonical(i2)
    ensures r.None? <==> Overruns(OPERATIONS[op], i1, i2)
    ensures r.Some? ==> Canonical(r.value) && Value(r.value) == Boole(OPERATIONS[op], Value(i1), Value(i2))
    ensures r.Some? ==>
              var x, y, z := Value(i1), Value(i2), Value(r.value);
              forall n: nat {:trigger Bit(z, n)} ::
                && (op == 0 ==> !Bit(z, n))
                && (op == 1 ==> (Bit(z, n) <==> Bit(x, n) && Bit(y, n)))
                && (op == 2 ==> (Bit(z, n) <==> Bit(x, n) && !Bit(y, n)))
                && (op == 3 ==> (Bit(z, n) <==> Bit(x, n)))
                && (op == 4 ==> (Bit(z, n) <==> !Bit(x, n) && Bit(y, n)))
                && (op == 5 ==> (Bit(z, n) <==> Bit(y, n)))
                && (op == 6 ==> (Bit(z, n) <==> Bit(x, n) != Bit(y, n)))
                && (op == 7 ==> (Bit(z, n) <==> Bit(x, n) || Bit(y, n)))
                && (op == 8 ==> (Bit(z, n) <==> !Bit(x, n) && !Bit(y, n)))
                && (op == 9 ==> (Bit(z, n) <==> Bit(x, n) == Bit(y, n)))
                && (op == 10 ==> (Bit(z, n) <==> !Bit(y, n)))
                && (op == 11 ==> (Bit(z, n) <==> Bit(x, n) || !Bit(y, n)))
                && (op == 12 ==> (Bit(z, n) <==> !Bit(x, n)))
                && (op == 13 ==> (Bit(z, n) <==> !Bit(x, n) || Bit(y, n)))
                && (op == 14 ==> (Bit(z, n) <==> !Bit(x, n) || !Bit(y, n)))
                && (op == 15 ==> Bit(z, n))
  {
    hide Boole, Canonical, Bit;
    OperationBits(op, Value(i1), Value(i2));
    var i: Integer;
    if i1.Fixnum? {
      if i2.Fixnum? {
        FixnumOperationMeans(op, i1.n, i2.n);
        FixnumIsCanonical(i1, i2, FixnumOperation(op, i1.n, i2.n));
        i := Fixnum(FixnumOperation(op, i1.n, i2.n));
      } else {
        FixnumIsCanonical(i1, i1, 0);
        i := NextBooleMixed2(op, i1.n, i2);
      }
    } else if i2.Fixnum? {
      FixnumIsCanonical(i2, i2, 0);
      i := NextBooleMixed1(op, i1, i2.n);
    } else {
      if Overruns(OPERATIONS[op], i1, i2) {
        return None;
      }
      i := BooleOfBignums(op, i1, i2);
    }
    r := Some(i);
  }

  lemma FixnumIsCanonical(i1: Integer, i2: Integer, n: int)
    requires i1.Fixnum? && i2.Fixnum? && Canonical(i1) && Canonical(i2)
    ensures IsFixnum(i1.n) && IsFixnum(i2.n)
    ensures IsFixnum(n) ==> Canonical(Fixnum(n))
  {
  }

  const TOP_BIT: Limb := HalfBase()

  function HalfBase(): (h: Limb)
    ensures 2 * h == BASE
  {
    assert Pow2(LIMB_BITS) == 2 * Pow2(63);
    Pow2(63)
  }

  /** The buffer can be too short: the logand of -2^63 and -2^63 - 1 is -2^64. */
  lemma LogandOverruns()
    ensures TOP_BIT + 1 < BASE
    ensures Canonical(Bignum(-1, [TOP_BIT])) && Canonical(Bignum(-1, [TOP_BIT + 1]))
    ensures Overruns(AND, Bignum(-1, [TOP_BIT]), Bignum(-1, [TOP_BIT + 1]))
  {
    Pow62();
    PowQuad(62);
    hide Pow2, Overruns, Boole;
    ValOne(TOP_BIT);
    ValOne(TOP_BIT + 1);
    OverrunsExactly(AND, Bignum(-1, [TOP_BIT]), Bignum(-1, [TOP_BIT + 1]));
    PowBBits(1);
    AndNeighbours(63);
  }

  lemma {:induction false} AndNeighbours(k: nat)
    ensures Boole(AND, 0 - Pow2(k), 0 - Pow2(k) - 1) == 0 - Pow2(k + 1)
  {
    if k == 0 {
      assert Pow2(1) == 2;
    } else {
      AndNeighbours(k - 1);
      PowAdd(1, k - 1);
      PowAdd(1, k);
      hide Boole, Pow2;
      NeighbourStep(Pow2(k - 1));
    }
  }

  lemma NeighbourStep(p: nat)
    ensures Boole(AND, 0 - 2 * p, 0 - 2 * p - 1) == 2 * Boole(AND, 0 - p, 0 - p - 1)
  {
    BooleUnfold(AND, 0 - 2 * p, 0 - 2 * p - 1);
    hide Boole;
    assert (0 - 2 * p) / 2 == 0 - p && (0 - 2 * p - 1) / 2 == 0 - p - 1;
  }

  // ---- any number of operands ----

  // The operation folded over integers from the left.
  function FoldBoole(t: Table, x: int, ys: seq<int>): int
    decreases |ys|
  {
    if ys == [] then x else FoldBoole(t, Boole(t, x, ys[0]), ys[1..])
  }

  function FoldBit(t: Table, a: bool, bs: seq<bool>): bool
    decreases |bs|
  {
    if bs == [] then a else FoldBit(t, t.At(a, bs[0]), bs[1..])
  }

  function BitsAt(ys: seq<int>, n: nat): (bs: seq<bool>)
    ensures |bs| == |ys|
  {
    seq(|ys|, i requires 0 <= i < |ys| => Bit(ys[i], n))
  }

  /** The bits of a fold are the folded bits. */
  lemma {:induction false} FoldBooleBit(t: Table, x: int, ys: seq<int>, n: nat)
    ensures Bit(FoldBoole(t, x, ys), n) <==> FoldBit(t, Bit(x, n), BitsAt(ys, n))
    decreases |ys|
  {
    hide Boole, Bit;
    if ys != [] {
      BooleBit(t, x, ys[0], n);
      FoldBooleBit(t, Boole(t, x, ys[0]), ys[1..], n);
      assert BitsAt(ys, n)[1..] == BitsAt(ys[1..], n);
    }
  }

  /** logand keeps the bits set in all integers, logior those set in any. */
  lemma {:induction false} FoldAndIor(x: int, ys: seq<int>, n: nat)
    ensures Bit(FoldBoole(AND, x, ys), n) <==> Bit(x, n) && forall i :: 0 <= i < |ys| ==> Bit(ys[i], n)
    ensures Bit(FoldBoole(IOR, x, ys), n) <==> Bit(x, n) || exists i :: 0 <= i < |ys| && Bit(ys[i], n)
    decreases |ys|
  {
    hide Boole, Bit;
    if ys != [] {
      BooleBit(AND, x, ys[0], n);
      BooleBit(IOR, x, ys[0], n);
      FoldAndIor(Boole(AND, x, ys[0]), ys[1..], n);
      FoldAndIor(Boole(IOR, x, ys[0]), ys[1..], n);
      assert forall i :: 0 < i < |ys| ==> ys[i] == ys[1..][i - 1];
    }
  }

  // The integers that have bit n set, by their places.
  function SetBits(xs: seq<int>, n: nat): set<int> { set i | 0 <= i < |xs| && Bit(xs[i], n) }

  lemma {:induction false} FoldLast(t: Table, x: int, ys: seq<int>, y: int)
    ensures FoldBoole(t, x, ys + [y]) == Boole(t, FoldBoole(t, x, ys), y)
    decreases |ys|
  {
    hide Boole;
    if ys == [] {
      assert ([] + [y])[1..] == [];
    } else {
      assert (ys + [y])[1..] == ys[1..] + [y];
      FoldLast(t, Boole(t, x, ys[0]), ys[1..], y);
    }
  }

  lemma SetBitsLast(xs: seq<int>, x: int, n: nat)
    ensures |SetBits(xs + [x], n)| == |SetBits(xs, n)| + if Bit(x, n) then 1 else 0
  {
    hide Bit;
    assert SetBits(xs + [x], n) == SetBits(xs, n) + if Bit(x, n) then {|xs|} else {};
  }

  /** logxor sets the bits that are set in an odd number of the integers, logeqv
      those that are clear in an even number of them. */
  lemma {:induction false} FoldXorEqv(x: int, ys: seq<int>, n: nat)
    ensures Bit(FoldBoole(XOR, x, ys), n) <==> |SetBits([x] + ys, n)| % 2 == 1
    ensures Bit(FoldBoole(EQV, x, ys), n) <==> (1 + |ys| - |SetBits([x] + ys, n)|) % 2 == 0
    decreases |ys|
  {
    hide Boole, Bit, SetBits;
    if ys == [] {
      assert SetBits([], n) == {} by { NoSetBits(n); }
      SetBitsLast([], x, n);
      assert [] + [x] == [x] + ys;
    } else {
      var k := |ys| - 1;
      assert ys == ys[..k] + [ys[k]] && [x] + ys == ([x] + ys[..k]) + [ys[k]];
      FoldXorEqv(x, ys[..k], n);
      SetBitsLast([x] + ys[..k], ys[k], n);
      FoldLast(XOR, x, ys[..k], ys[k]);
      FoldLast(EQV, x, ys[..k], ys[k]);
      BooleBit(XOR, FoldBoole(XOR, x, ys[..k]), ys[k], n);
      BooleBit(EQV, FoldBoole(EQV, x, ys[..k]), ys[k], n);
    }
  }

  lemma NoSetBits(n: nat)
    ensures SetBits([], n) == {}
  {
  }

  function Values(integers: seq<Integer>): (xs: seq<int>)
    ensures |xs| == |integers|
  {
    seq(|integers|, i requires 0 <= i < |integers| => Value(integers[i]))
  }

  ghost predicate SizedWithin(i: Integer, max: nat) {
    Canonical(i) && (i.Bignum? ==> 0 < Abs(i.len) <= max)
  }

  lemma ValueWithin(i: Integer, max: nat)
    requires SizedWithin(i, max) && max > 0
    ensures Within(Value(i), LIMB_BITS * max)
  {
    PowBBits(max);
    PowBMonotone(1, max);
    assert PowB(1) == BASE by { BaseLinear(0, 0); }
    BaseBig();
    hide Pow2, PowB, Val;
    if i.Bignum? {
      ValBound(i.limbs);
      PowBMonotone(Abs(i.len), max);
    }
  }

  // Another limb is room enough for a step that keeps within the shorter range.
  lemma RoomForStep(t: Table, result: array<Limb>, s1: array<Limb>, len1: int, s2: array<Limb>, len2: int, max: nat)
    requires Abs(len1) <= s1.Length && Abs(len2) <= s2.Length
    requires result.Length == max + 1 && Abs(len1) <= max + 1 && Abs(len2) <= max
    requires Within(NumberOf(s1, len1), LIMB_BITS * max) && Within(NumberOf(s2, len2), LIMB_BITS * max)
    ensures HasRoom(t, result, s1, len1, s2, len2)
    ensures Within(Boole(t, NumberOf(s1, len1), NumberOf(s2, len2)), LIMB_BITS * max)
  {
    hide Boole, Val;
    BooleRange(t, NumberOf(s1, len1), NumberOf(s2, len2), LIMB_BITS * max);
    PowBBits(max);
    assert PowB(max) < PowB(max + 1) by { BaseGrows(PowB(max)); }
  }

  method AllFixnums(op: OperationNumber, integers: seq<Integer>) returns (r: Integer)
    requires integers != [] && forall i :: 0 <= i < |integers| ==> integers[i].Fixnum? && Canonical(integers[i])
    ensures Canonical(r) && Value(r) == FoldBoole(OPERATIONS[op], Value(integers[0]), Values(integers)[1..])
  {
    var result := integers[0].n;
    ghost var xs := Values(integers);
    var i := 1;
    while i < |integers|
      invariant 1 <= i <= |integers| && IsFixnum(result)
      invariant FoldBoole(OPERATIONS[op], result, xs[i..]) == FoldBoole(OPERATIONS[op], xs[0], xs[1..])
    {
      assert xs[i..][0] == xs[i] == integers[i].n && xs[i..][1..] == xs[i + 1..];
      FixnumOperationMeans(op, result, integers[i].n);
      result := FixnumOperation(op, result, integers[i].n);
      i := i + 1;
    }
    r := Fixnum(result);
  }

  /** next_operation_rest: with any bignum among the operands the accumulator is
      a buffer of one limb more than the longest of them, which every step reads
      and overwrites; the outcome is the fold of the integers either way. */
  method NextOperationRest(op: OperationNumber, integers: seq<Integer>) returns (r: Integer)
    requires integers != [] && forall i :: 0 <= i < |integers| ==> Canonical(integers[i])
    ensures Canonical(r) && Value(r) == FoldBoole(OPERATIONS[op], Value(integers[0]), Values(integers)[1..])
  {
    var max: nat := 0;
    var i := 0;
    while i < |integers|
      invariant 0 <= i <= |integers|
      invariant forall k :: 0 <= k < i ==> SizedWithin(integers[k], max)
    {
      if integers[i].Bignum? {
        NonzeroLength(integers[i]);
        max := Max(max, Abs(integers[i].len));
      }
      i := i + 1;
    }
    if max == 0 {
      assert forall k :: 0 <= k < |integers| ==> SizedWithin(integers[k], max);
      r := AllFixnums(op, integers);
    } else {
      r := Accumulated(op, integers, max);
    }
  }

  method Accumulated(op: OperationNumber, integers: seq<Integer>, max: nat) returns (r: Integer)
    requires integers != [] && max > 0 && forall i :: 0 <= i < |integers| ==> SizedWithin(integers[i], max)
    ensures Canonical(r) && Value(r) == FoldBoole(OPERATIONS[op], Value(integers[0]), Values(integers)[1..])
  {
    hide Val, Boole, PowB, Normal, Tidy, Pow2, BignumResult, HasRoom, Within, Canonical, Value, FoldBoole;
    ghost var xs := Values(integers);
    var result := new Limb[max + 1](_ => 0);
    var len := FirstOperand(result, integers[0], max);
    var i := 1;
    while i < |integers|
      invariant 1 <= i <= |integers| && IsOperand(result, len)
      invariant Within(NumberOf(result, len), LIMB_BITS * max)
      invariant FoldBoole(OPERATIONS[op], NumberOf(result, len), xs[i..]) == FoldBoole(OPERATIONS[op], xs[0], xs[1..])
    {
      FoldStep(OPERATIONS[op], NumberOf(result, len), xs, i);
      var s, len2 := NextOperand(integers[i], max);
      RoomForStep(OPERATIONS[op], result, result, len, s, len2, max);
      len := NextOperation(op, result, result, len, s, len2);
      i := i + 1;
    }
    FoldNothing(OPERATIONS[op], NumberOf(result, len), xs[i..]);
    ResultMeans(result, len);
    r := BignumResult(len, result[..Abs(len)]);
  }

  lemma FoldStep(t: Table, x: int, xs: seq<int>, i: nat)
    requires i < |xs|
    ensures FoldBoole(t, x, xs[i..]) == FoldBoole(t, Boole(t, x, xs[i]), xs[i + 1..])
  {
    hide Boole;
    assert xs[i..][1..] == xs[i + 1..];
  }

  lemma FoldNothing(t: Table, x: int, xs: seq<int>)
    requires xs == []
    ensures FoldBoole(t, x, xs) == x
  {
  }

  method FirstOperand(result: array<Limb>, first: Integer, max: nat) returns (len: int)
    requires SizedWithin(first, max) && max > 0 && result.Length == max + 1
    modifies result
    ensures IsOperand(result, len) && NumberOf(result, len) == Value(first)
    ensures Within(NumberOf(result, len), LIMB_BITS * max)
  {
    hide Val, PowB, Normal, Tidy, Pow2, Within;
    ValueWithin(first, max);
    if first.Fixnum? {
      FixnumFitsLimb(first.n);
      len := if first.n < 0 then -1 else 1;
      result[0] := Abs(first.n);
      FixnumIsOperand(first.n, result, len);
    } else {
      len := first.len;
      var s := Stored(first.limbs);
      CopyLimbs(result, s, 0, Abs(len));
      assert result[..Abs(len)] == first.limbs;
      BignumIsOperand(first, result);
    }
  }

  method NextOperand(i: Integer, max: nat) returns (s: array<Limb>, len: int)
    requires SizedWithin(i, max) && max > 0
    ensures fresh(s) && IsOperand(s, len) && NumberOf(s, len) == Value(i) && Abs(len) <= max
    ensures Within(NumberOf(s, len), LIMB_BITS * max)
  {
    hide Val, PowB, Normal, Tidy, Pow2, Within;
    ValueWithin(i, max);
    if i.Fixnum? {
      FixnumFitsLimb(i.n);
      s := Stored([Abs(i.n)]);
      len := if i.n < 0 then -1 else 1;
      FixnumIsOperand(i.n, s, len);
    } else {
      s := Stored(i.limbs);
      len := i.len;
      BignumIsOperand(i, s);
    }
  }

  lemma OperationNumbers()
    ensures OPERATIONS[1] == AND && OPERATIONS[7] == IOR && OPERATIONS[6] == XOR && OPERATIONS[9] == EQV
  {
  }

  /** cl__logand: a bit is set exactly if it is set in every integer. */
  method Logand(integers: seq<Integer>) returns (r: Integer)
    requires forall i :: 0 <= i < |integers| ==> Canonical(integers[i])
    ensures Canonical(r)
    ensures forall n: nat :: Bit(Value(r), n) <==> forall i :: 0 <= i < |integers| ==> Bit(Value(integers[i]), n)
  {
    if integers == [] {
      r := Fixnum(-1);
      FixnumWithin(-1);
      AllBitsSet();
      return;
    }
    ghost var xs := Values(integers);
    OperationNumbers();
    hide Boole, Bit, Canonical, FoldBoole;
    r := NextOperationRest(1, integers);
    forall n: nat
      ensures Bit(Value(r), n) <==> forall i :: 0 <= i < |integers| ==> Bit(Value(integers[i]), n)
    {
      FoldAndIor(xs[0], xs[1..], n);
      AllOf(xs, n);
      assert forall i :: 0 <= i < |integers| ==> xs[i] == Value(integers[i]);
    }
  }

  /** cl__logior: a bit is set exactly if it is set in some integer. */
  method Logior(integers: seq<Integer>) returns (r: Integer)
    requires forall i :: 0 <= i < |integers| ==> Canonical(integers[i])
    ensures Canonical(r)
    ensures forall n: nat :: Bit(Value(r), n) <==> exists i :: 0 <= i < |integers| && Bit(Value(integers[i]), n)
  {
    if integers == [] {
      r := Fixnum(0);
      FixnumWithin(0);
      AllBitsSet();
      return;
    }
    ghost var xs := Values(integers);
    OperationNumbers();
    hide Boole, Bit, Canonical, FoldBoole;
    r := NextOperationRest(7, integers);
    forall n: nat
      ensures Bit(Value(r), n) <==> exists i :: 0 <= i < |integers| && Bit(Value(integers[i]), n)
    {
      FoldAndIor(xs[0], xs[1..], n);
      AllOf(xs, n);
      assert forall i :: 0 <= i < |integers| ==> xs[i] == Value(integers[i]);
    }
  }

  /** cl__logxor: a bit is set exactly if it is set in an odd number of integers. */
  method Logxor(integers: seq<Integer>) returns (r: Integer)
    requires forall i :: 0 <= i < |integers| ==> Canonical(integers[i])
    ensures Canonical(r)
    ensures forall n: nat ::
              Bit(Value(r), n) <==> |set i | 0 <= i < |integers| && Bit(Value(integers[i]), n)| % 2 == 1
  {
    if integers == [] {
      r := Fixnum(0);
      FixnumWithin(0);
      AllBitsSet();
      forall n: nat
        ensures Bit(Value(r), n) <==> |set i | 0 <= i < |integers| && Bit(Value(integers[i]), n)| % 2 == 1
      {
        NoneSet(integers, n);
      }
      return;
    }
    ghost var xs := Values(integers);
    OperationNumbers();
    hide Boole, Bit, Canonical, FoldBoole;
    r := NextOperationRest(6, integers);
    forall n: nat
      ensures Bit(Value(r), n) <==> |set i | 0 <= i < |integers| && Bit(Value(integers[i]), n)| % 2 == 1
    {
      FoldXorEqv(xs[0], xs[1..], n);
      assert [xs[0]] + xs[1..] == xs;
      assert SetBits(xs, n) == set i | 0 <= i < |integers| && Bit(Value(integers[i]), n);
    }
  }

  /** cl__logeqv: a bit is set exactly if it is clear in an even number of integers. */
  method Logeqv(integers: seq<Integer>) returns (r: Integer)
    requires forall i :: 0 <= i < |integers| ==> Canonical(integers[i])
    ensures Canonical(r)
    ensures forall n: nat ::
              Bit(Value(r), n)
              <==> (|integers| - |set i | 0 <= i < |integers| && Bit(Value(integers[i]), n)|) % 2 == 0
  {
    if integers == [] {
      r := Fixnum(-1);
      FixnumWithin(-1);
      AllBitsSet();
      forall n: nat
        ensures Bit(Value(r), n)
                <==> (|integers| - |set i | 0 <= i < |integers| && Bit(Value(integers[i]), n)|) % 2 == 0
      {
        NoneSet(integers, n);
      }
      return;
    }
    ghost var xs := Values(integers);
    OperationNumbers();
    hide Boole, Bit, Canonical, FoldBoole;
    r := NextOperationRest(9, integers);
    forall n: nat
      ensures Bit(Value(r), n)
              <==> (|integers| - |set i | 0 <= i < |integers| && Bit(Value(integers[i]), n)|) % 2 == 0
    {
      FoldXorEqv(xs[0], xs[1..], n);
      assert [xs[0]] + xs[1..] == xs;
      assert SetBits(xs, n) == set i | 0 <= i < |integers| && Bit(Value(integers[i]), n);
    }
  }

  lemma NoneSet(integers: seq<Integer>, n: nat)
    requires integers == []
    ensures |set i | 0 <= i < |integers| && Bit(Value(integers[i]), n)| == 0
  {
    assert (set i | 0 <= i < |integers| && Bit(Value(integers[i]), n)) == {};
  }

  lemma AllBitsSet()
    ensures forall n: nat :: Bit(-1, n) && !Bit(0, n)
    ensures Canonical(Fixnum(-1)) && Canonical(Fixnum(0))
  {
    Pow62();
    forall n: nat ensures Bit(-1, n) && !Bit(0, n) {
      DivUnique(-1, Pow2(n), -1, Pow2(n) - 1);
      DivUnique(0, Pow2(n), 0, 0);
    }
  }

  // The first of the integers and the rest are all of them.
  lemma AllOf(xs: seq<int>, n: nat)
    requires xs != []
    ensures (forall i :: 0 <= i < |xs| ==> Bit(xs[i], n))
            <==> Bit(xs[0], n) && forall i :: 0 <= i < |xs[1..]| ==> Bit(xs[1..][i], n)
    ensures (exists i :: 0 <= i < |xs| && Bit(xs[i], n))
            <==> Bit(xs[0], n) || exists i :: 0 <= i < |xs[1..]| && Bit(xs[1..][i], n)
  {
    hide Bit;
    assert forall i :: 1 <= i < |xs| ==> xs[i] == xs[1..][i - 1];
  }

  /** cl__lognot is the operator that complements its first operand. */
  method Lognot(a: Integer) returns (r: Integer)
    requires Canonical(a)
    ensures Canonical(r) && Value(r) == -Value(a) - 1
    ensures forall n: nat :: Bit(Value(r), n) <==> !Bit(Value(a), n)
  {
    ComplementBits(Value(a));
    hide Bit;
    if a.Fixnum? {
      r := Fixnum(-a.n - 1);
    } else {
      var s := Stored(a.limbs);
      var result := new Limb[Abs(a.len) + 1](_ => 0);
      BignumIsOperand(a, s);
      hide Val, PowB, Normal, Tidy, Pow2, BignumResult;
      var len := NextCom(result, s, a.len);
      ResultMeans(result, len);
      r := BignumResult(len, result[..Abs(len)]);
    }
  }

  lemma ComplementBits(x: int)
    ensures forall n: nat :: Bit(-x - 1, n) <==> !Bit(x, n)
  {
    hide Boole, Bit;
    BooleOneSided(C1, x, 0);
    forall n: nat ensures Bit(-x - 1, n) <==> !Bit(x, n) { BooleBit(C1, x, 0, n); }
  }
}
