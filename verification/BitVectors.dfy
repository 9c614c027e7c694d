/** Bit vectors packed into words of 64 bits, the first element in the highest bit. */
module BitVectors {
  import opened Options
  import opened TwosComplement
  import opened Limbs
  import opened LimbBuffers
  import opened BitQueries

  // The element j of a word.
  predicate WordBit(w: Limb, j: nat)
    requires j < LIMB_BITS
  {
    Bit(w, LIMB_BITS - 1 - j)
  }

  /** The first element of a word is its highest bit, the last one its lowest. */
  lemma HighestFirst(w: Limb)
    ensures WordBit(w, 0) <==> 2 * w >= BASE
    ensures WordBit(w, LIMB_BITS - 1) <==> w % 2 == 1
  {
    var h := Pow2(LIMB_BITS - 1);
    assert BASE == 2 * h && Pow2(0) == 1;
    if w >= h { DivUnique(w, h, 1, w - h); } else { DivUnique(w, h, 0, w); }
  }

  function WordNot(w: Limb): Limb { BASE - 1 - w }

  lemma WordNotBit(w: Limb, j: nat)
    requires j < LIMB_BITS
    ensures WordBit(WordNot(w), j) <==> !WordBit(w, j)
  {
    hide *;
    BaseTimesOne();
    BitBelow(0 - w - 1, 1, LIMB_BITS, LIMB_BITS - 1 - j);
    NotIsComplement(w);
    ComplementBit(w, LIMB_BITS - 1 - j);
    WordBitIs(w, j);
    WordBitIs(WordNot(w), j);
  }

  lemma BaseTimesOne()
    ensures Shifted(1, LIMB_BITS) == BASE
  {
  }

  lemma NotIsComplement(w: Limb)
    ensures WordNot(w) == 0 - w - 1 + BASE
  {
  }

  lemma ComplementBit(x: int, n: nat)
    ensures Bit(0 - x - 1, n) <==> !Bit(x, n)
  {
    hide Boole, Bit;
    BooleOneSided(C1, x, 0);
    BooleBit(C1, x, 0, n);
  }

  lemma WordBitIs(w: Limb, j: nat)
    requires j < LIMB_BITS
    ensures WordBit(w, j) == Bit(w, LIMB_BITS - 1 - j)
  {
  }

  lemma WordOpBit(t: Table, a: Limb, b: Limb, j: nat)
    requires !t.ff && j < LIMB_BITS
    ensures WordBit(WordOp(t, a, b), j) <==> t.At(WordBit(a, j), WordBit(b, j))
  {
    hide Boole, Bit;
    BooleBit(t, a, b, LIMB_BITS - 1 - j);
  }

  // The operators that are defined on bit vectors.
  datatype Operator = BitAnd | BitIor | BitXor | BitNand | BitNor | BitEqv | BitAndc1 | BitAndc2 | BitOrc1 | BitOrc2

  function Form(op: Operator, a: Limb, b: Limb): Limb {
    match op
    case BitAnd => WordOp(AND, a, b)
    case BitIor => WordOp(IOR, a, b)
    case BitXor => WordOp(XOR, a, b)
    case BitNand => WordNot(WordOp(AND, a, b))
    case BitNor => WordNot(WordOp(IOR, a, b))
    case BitEqv => WordNot(WordOp(XOR, a, b))
    case BitAndc1 => WordOp(AND, WordNot(a), b)
    case BitAndc2 => WordOp(AND, a, WordNot(b))
    case BitOrc1 => WordOp(IOR, WordNot(a), b)
    case BitOrc2 => WordOp(IOR, a, WordNot(b))
  }

  /** What each operator does to every element of a word. */
  lemma FormBit(op: Operator, a: Limb, b: Limb, j: nat)
    requires j < LIMB_BITS
    ensures var x, y, z := WordBit(a, j), WordBit(b, j), WordBit(Form(op, a, b), j);
            && (op == BitAnd ==> z == (x && y))
            && (op == BitIor ==> z == (x || y))
            && (op == BitXor ==> z == (x != y))
            && (op == BitNand ==> z == (!x || !y))
            && (op == BitNor ==> z == (!x && !y))
            && (op == BitEqv ==> z == (x == y))
            && (op == BitAndc1 ==> z == (!x && y))
            && (op == BitAndc2 ==> z == (x && !y))
            && (op == BitOrc1 ==> z == (!x || y))
            && (op == BitOrc2 ==> z == (x || !y))
  {
    hide WordBit, WordOp, WordNot;
    WordNotBit(a, j);
    WordNotBit(b, j);
    match op
    case BitAnd => WordOpBit(AND, a, b, j);
    case BitIor => WordOpBit(IOR, a, b, j);
    case BitXor => WordOpBit(XOR, a, b, j);
    case BitNand => WordOpBit(AND, a, b, j); WordNotBit(WordOp(AND, a, b), j);
    case BitNor => WordOpBit(IOR, a, b, j); WordNotBit(WordOp(IOR, a, b), j);
    case BitEqv => WordOpBit(XOR, a, b, j); WordNotBit(WordOp(XOR, a, b), j);
    case BitAndc1 => WordOpBit(AND, WordNot(a), b, j);
    case BitAndc2 => WordOpBit(AND, a, WordNot(b), j);
    case BitOrc1 => WordOpBit(IOR, WordNot(a), b, j);
    case BitOrc2 => WordOpBit(IOR, a, WordNot(b), j);
  }

  // ---- single elements of a word ----

  lemma PowerBit(o: nat, k: nat)
    ensures Bit(Pow2(o), k) <==> k == o
  {
    if k < o {
      ShiftedNoneOf(o);
      BitBelow(0, 1, o, k);
      ZeroBit(k);
    } else if k > o {
      PowMonotone(o + 1, k);
      BitOutside(Pow2(o), o + 1, k);
    } else {
      DivUnique(Pow2(o), Pow2(o), 1, 0);
    }
  }

  lemma ShiftedNoneOf(o: nat)
    ensures Shifted(1, o) == Pow2(o)
  {
  }

  lemma ZeroBit(k: nat)
    ensures !Bit(0, k)
  {
    DivUnique(0, Pow2(k), 0, 0);
  }

  // The mask of one element.
  function UnitMask(j: nat): Limb
    requires j < LIMB_BITS
  {
    PowMonotone(LIMB_BITS - j, LIMB_BITS);
    assert Pow2(LIMB_BITS - j) == 2 * Pow2(LIMB_BITS - 1 - j);
    Pow2(LIMB_BITS - 1 - j)
  }

  lemma UnitMaskBit(j: nat, k: nat)
    requires j < LIMB_BITS && k < LIMB_BITS
    ensures WordBit(UnitMask(j), k) <==> k == j
  {
    PowerBit(LIMB_BITS - 1 - j, LIMB_BITS - 1 - k);
  }

  // bitUnit: the masked word, which is zero or the mask
  function GetUnit(w: Limb, j: nat): bool
    requires j < LIMB_BITS
  {
    WordOp(AND, w, UnitMask(j)) != 0
  }

  lemma {:induction false} SomeBit(x: nat, k: nat)
    requires x < Pow2(k)
    ensures x != 0 <==> exists n: nat :: n < k && Bit(x, n)
    decreases k
  {
    if k > 0 {
      SomeBit(x / 2, k - 1);
      BitHalf(x, 0);
      if x / 2 != 0 {
        var n: nat :| n < k - 1 && Bit(x / 2, n);
        BitHalf(x, n);
        assert Bit(x, n + 1);
      } else if x != 0 {
        assert Bit(x, 0);
      } else {
        forall n: nat ensures !Bit(x, n) { ZeroBit(n); }
      }
    }
  }

  lemma SomeWordBit(w: Limb)
    ensures w != 0 <==> exists j: nat :: j < LIMB_BITS && WordBit(w, j)
  {
    SomeBit(w, LIMB_BITS);
    if w != 0 {
      var n: nat :| n < LIMB_BITS && Bit(w, n);
      assert WordBit(w, LIMB_BITS - 1 - n);
    }
  }

  lemma GetUnitMeans(w: Limb, j: nat)
    requires j < LIMB_BITS
    ensures GetUnit(w, j) == WordBit(w, j)
  {
    hide WordBit, WordOp, UnitMask;
    var m := WordOp(AND, w, UnitMask(j));
    SomeWordBit(m);
    forall k: nat | k < LIMB_BITS ensures WordBit(m, k) <==> k == j && WordBit(w, j) {
      WordOpBit(AND, w, UnitMask(j), k);
      UnitMaskBit(j, k);
    }
    if WordBit(w, j) { assert WordBit(m, j); }
  }

  // setBitUnit
  function SetUnit(w: Limb, j: nat, value: bool): Limb
    requires j < LIMB_BITS
  {
    WordOp(IOR, WordOp(AND, w, WordNot(UnitMask(j))), if value then UnitMask(j) else 0)
  }

  lemma SetUnitMeans(w: Limb, j: nat, value: bool, k: nat)
    requires j < LIMB_BITS && k < LIMB_BITS
    ensures WordBit(SetUnit(w, j, value), k) <==> if k == j then value else WordBit(w, k)
  {
    hide WordBit, WordOp, UnitMask, WordNot;
    var kept := WordOp(AND, w, WordNot(UnitMask(j)));
    WordNotBit(UnitMask(j), k);
    UnitMaskBit(j, k);
    WordOpBit(AND, w, WordNot(UnitMask(j)), k);
    WordOpBit(IOR, kept, if value then UnitMask(j) else 0, k);
    SomeWordBit(0);
  }

  // ---- vectors ----

  // The number of words for a number of elements.
  function WordsFor(length: nat): (n: nat)
    ensures LIMB_BITS * n >= length > LIMB_BITS * (n - 1)
  {
    length / LIMB_BITS + if length % LIMB_BITS == 0 then 0 else 1
  }

  class SimpleBitVector {
    const length: nat
    const words: array<Limb>

    ghost predicate Valid()
      reads this
    {
      words.Length == WordsFor(length)
    }

    // The element i.
    predicate At(i: nat)
      requires Valid() && i < length
      reads this, words
    {
      WordBit(words[i / LIMB_BITS], i % LIMB_BITS)
    }

    // The elements of the vector.
    ghost function Contents(): (s: seq<bool>)
      requires Valid()
      reads this, words
      ensures |s| == length
    {
      seq(length, i requires 0 <= i < length && Valid() reads this, words => At(i))
    }

    constructor (length: nat, initial: bool)
      ensures Valid() && fresh(words) && this.length == length
      ensures forall i :: 0 <= i < length ==> Contents()[i] == initial
    {
      FillBits(initial);
      hide WordBit, FillWord;
      this.length := length;
      words := new Limb[WordsFor(length)](_ => FillWord(initial));
    }

    method Get(i: nat) returns (b: bool)
      requires Valid() && i < length
      ensures b == Contents()[i]
    {
      hide WordBit, GetUnit;
      GetUnitMeans(words[i / LIMB_BITS], i % LIMB_BITS);
      b := GetUnit(words[i / LIMB_BITS], i % LIMB_BITS);
    }

    method Set(i: nat, value: bool)
      requires Valid() && i < length
      modifies words
      ensures Contents() == old(Contents())[i := value]
    {
      hide WordBit, SetUnit;
      ghost var before := Contents();
      var w := words[i / LIMB_BITS];
      words[i / LIMB_BITS] := SetUnit(w, i % LIMB_BITS, value);
      forall k: nat | k < length ensures Contents()[k] == if k == i then value else before[k] {
        SetUnitMeans(w, i % LIMB_BITS, value, k % LIMB_BITS);
        SamePlace(i, k);
      }
    }
  }

  lemma SamePlace(i: nat, k: nat)
    ensures i / LIMB_BITS == k / LIMB_BITS && i % LIMB_BITS == k % LIMB_BITS <==> i == k
  {
  }

  // initialFillValue
  function FillWord(initial: bool): Limb { if initial then WordNot(0) else 0 }

  lemma FillBits(initial: bool)
    ensures forall j: nat :: j < LIMB_BITS ==> WordBit(FillWord(initial), j) == initial
  {
    hide WordBit, WordNot;
    SomeWordBit(0);
    forall j: nat | j < LIMB_BITS ensures WordBit(FillWord(initial), j) == initial { WordNotBit(0, j); }
  }

  /** DEF_SBV_BIT_OP: the operator acts on every element below the length, for
      operands and results that may be the same vectors. */
  method SbvBitOp(op: Operator, a: SimpleBitVector, b: SimpleBitVector, r: SimpleBitVector, length: nat)
    requires a.Valid() && b.Valid() && r.Valid()
    requires length <= a.length && length <= b.length && length <= r.length
    modifies r.words
    ensures forall i :: 0 <= i < length ==>
              var x, y, z := old(a.Contents())[i], old(b.Contents())[i], r.Contents()[i];
              && (op == BitAnd ==> z == (x && y))
              && (op == BitIor ==> z == (x || y))
              && (op == BitXor ==> z == (x != y))
              && (op == BitNand ==> z == (!x || !y))
              && (op == BitNor ==> z == (!x && !y))
              && (op == BitEqv ==> z == (x == y))
              && (op == BitAndc1 ==> z == (!x && y))
              && (op == BitAndc2 ==> z == (x && !y))
              && (op == BitOrc1 ==> z == (!x || y))
              && (op == BitOrc2 ==> z == (x || !y))
    ensures forall i :: LIMB_BITS * WordsFor(length) <= i < r.length ==> r.Contents()[i] == old(r.Contents())[i]
  {
    hide WordBit, Form;
    var nwords := WordsFor(length);
    ghost var aw, bw, rw := a.words[..], b.words[..], r.words[..];
    ghost var ac, bc, rc := a.Contents(), b.Contents(), r.Contents();
    FewerWords(length, a.length);
    FewerWords(length, b.length);
    FewerWords(length, r.length);
    var i := 0;
    while i < nwords
      invariant 0 <= i <= nwords
      invariant forall k :: 0 <= k < i ==> r.words[k] == Form(op, aw[k], bw[k])
      invariant forall k :: i <= k < r.words.Length ==> r.words[k] == rw[k]
      invariant a.words != r.words ==> a.words[..] == aw
      invariant b.words != r.words ==> b.words[..] == bw
    {
      r.words[i] := Form(op, a.words[i], b.words[i]);
      i := i + 1;
    }
    forall i: nat | i < length
      ensures var x, y, z := ac[i], bc[i], r.Contents()[i];
              && (op == BitAnd ==> z == (x && y))
              && (op == BitIor ==> z == (x || y))
              && (op == BitXor ==> z == (x != y))
              && (op == BitNand ==> z == (!x || !y))
              && (op == BitNor ==> z == (!x && !y))
              && (op == BitEqv ==> z == (x == y))
              && (op == BitAndc1 ==> z == (!x && y))
              && (op == BitAndc2 ==> z == (x && !y))
              && (op == BitOrc1 ==> z == (!x || y))
              && (op == BitOrc2 ==> z == (x || !y))
    {
      InsideWords(i, length);
      FormBit(op, aw[i / LIMB_BITS], bw[i / LIMB_BITS], i % LIMB_BITS);
    }
  }

  lemma FewerWords(m: nat, n: nat)
    requires m <= n
    ensures WordsFor(m) <= WordsFor(n)
  {
  }

  lemma InsideWords(i: nat, length: nat)
    requires i < length
    ensures i / LIMB_BITS < WordsFor(length)
  {
  }

  /** core__sbv_bit_not */
  method SbvBitNot(vec: SimpleBitVector, res: SimpleBitVector, length: nat)
    requires vec.Valid() && res.Valid() && length <= vec.length && length <= res.length
    modifies res.words
    ensures forall i :: 0 <= i < length ==> res.Contents()[i] == !old(vec.Contents())[i]
    ensures forall i :: LIMB_BITS * WordsFor(length) <= i < res.length ==> res.Contents()[i] == old(res.Contents())[i]
  {
    hide WordBit, WordNot;
    var nwords := WordsFor(length);
    ghost var vw, rw, vc := vec.words[..], res.words[..], vec.Contents();
    FewerWords(length, vec.length);
    FewerWords(length, res.length);
    var i := 0;
    while i < nwords
      invariant 0 <= i <= nwords
      invariant forall k :: 0 <= k < i ==> res.words[k] == WordNot(vw[k])
      invariant forall k :: i <= k < res.words.Length ==> res.words[k] == rw[k]
      invariant vec.words != res.words ==> vec.words[..] == vw
    {
      res.words[i] := WordNot(vec.words[i]);
      i := i + 1;
    }
    forall i: nat | i < length ensures res.Contents()[i] == !vc[i] {
      InsideWords(i, length);
      WordNotBit(vw[i / LIMB_BITS], i % LIMB_BITS);
    }
  }

  // ---- scans ----

  lemma LowOnes(m: nat, k: nat)
    ensures Bit(Pow2(m) - 1, k) <==> k < m
  {
    if k < m {
      ShiftedNoneOf(m);
      BitBelow(-1, 1, m, k);
      ComplementBit(0, k);
      ZeroBit(k);
    } else {
      BitOutside(Pow2(m) - 1, m, k);
    }
  }

  // A left shift of an int, which is defined for amounts below its 32 bits.
  function IntShift(x: Option<int>, amount: nat): Option<int> {
    if x.Some? && amount < 32 then Some(Shifted(x.value, amount)) else None
  }

  // The mask as DO_BIT_ARRAY_WORDS writes it, with an int for the literal one.
  function IntMask(leftover: nat): Option<int>
    requires leftover < LIMB_BITS
  {
    var power := IntShift(Some(1), leftover);
    if power.None? then None else IntShift(Some(power.value - 1), LIMB_BITS - leftover)
  }

  // The mask of the elements of a last word, at the width of a word.
  function Mask(leftover: nat): Limb
    requires 0 < leftover < LIMB_BITS
  {
    MaskFits(leftover);
    Shifted(Pow2(leftover) - 1, LIMB_BITS - leftover)
  }

  lemma MaskFits(leftover: nat)
    requires 0 < leftover < LIMB_BITS
    ensures Shifted(Pow2(leftover) - 1, LIMB_BITS - leftover) == BASE - Pow2(LIMB_BITS - leftover) >= 0
    ensures Pow2(LIMB_BITS - leftover) <= BASE
  {
    PowAdd(LIMB_BITS - leftover, leftover);
    PowMonotone(LIMB_BITS - leftover, LIMB_BITS);
    var p, q := Pow2(LIMB_BITS - leftover), Pow2(leftover);
    hide Pow2;
    Distribute(p, q, 1);
  }

  lemma MaskBit(leftover: nat, j: nat)
    requires 0 < leftover < LIMB_BITS && j < LIMB_BITS
    ensures WordBit(Mask(leftover), j) <==> j < leftover
  {
    MaskFits(leftover);
    LowOnes(LIMB_BITS - leftover, LIMB_BITS - 1 - j);
    hide Pow2, Bit;
    WordNotBit(Pow2(LIMB_BITS - leftover) - 1, j);
    assert Mask(leftover) == WordNot(Pow2(LIMB_BITS - leftover) - 1);
  }

  // The first n elements of a word.
  function Elements(w: Limb, n: nat): (s: seq<bool>)
    requires n <= LIMB_BITS
    ensures |s| == n
  {
    seq(n, j requires 0 <= j < n => WordBit(w, j))
  }

  // The last word without what lies beyond the length.
  function Masked(w: Limb, leftover: nat): Limb
    requires 0 < leftover < LIMB_BITS
  {
    WordOp(AND, w, Mask(leftover))
  }

  lemma MaskedBit(w: Limb, leftover: nat, j: nat)
    requires 0 < leftover < LIMB_BITS && j < LIMB_BITS
    ensures WordBit(Masked(w, leftover), j) <==> j < leftover && WordBit(w, j)
  {
    hide WordBit, WordOp, Mask;
    WordOpBit(AND, w, Mask(leftover), j);
    MaskBit(leftover, j);
  }

  function CountTrue(s: seq<bool>): nat {
    if s == [] then 0 else CountTrue(s[..|s| - 1]) + if s[|s| - 1] then 1 else 0
  }

  function TruePlaces(s: seq<bool>): set<int> { set i | 0 <= i < |s| && s[i] }

  lemma {:induction false} CountIsCardinality(s: seq<bool>)
    ensures CountTrue(s) == |TruePlaces(s)|
    decreases |s|
  {
    if s == [] {
      assert TruePlaces(s) == {};
    } else {
      var t := s[..|s| - 1];
      CountIsCardinality(t);
      assert TruePlaces(s) == TruePlaces(t) + if s[|s| - 1] then {|s| - 1} else {};
    }
  }

  lemma {:induction false} CountConcat(a: seq<bool>, b: seq<bool>)
    ensures CountTrue(a + b) == CountTrue(a) + CountTrue(b)
  {
    if b == [] {
      assert a + b == a;
    } else {
      var n := |b| - 1;
      assert (a + b)[..|a| + n] == a + b[..n];
      CountConcat(a, b[..n]);
    }
  }

  lemma {:induction false} CountFalse(s: seq<bool>)
    ensures CountTrue(s) == 0 <==> forall i :: 0 <= i < |s| ==> !s[i]
  {
    if s != [] {
      CountFalse(s[..|s| - 1]);
      assert forall i :: 0 <= i < |s| - 1 ==> s[i] == s[..|s| - 1][i];
    }
  }

  // The bits of a number, the highest first.
  function HighFirst(x: nat, n: nat): (s: seq<bool>)
    ensures |s| == n
  {
    seq(n, j requires 0 <= j < n => Bit(x, n - 1 - j))
  }

  lemma {:induction false} CountHighFirst(x: nat, n: nat)
    requires x < Pow2(n)
    ensures CountBits(x) == CountTrue(HighFirst(x, n))
    decreases n
  {
    if n > 0 {
      CountHighFirst(x / 2, n - 1);
      BitHalf(x, 0);
      HighFirstSnoc(x, n);
      hide Bit, Pow2, HighFirst;
      CountConcat(HighFirst(x / 2, n - 1), [Bit(x, 0)]);
      CountOne(Bit(x, 0));
    }
  }

  lemma CountOne(b: bool)
    ensures CountTrue([b]) == if b then 1 else 0
  {
    assert CountTrue([b][..0]) == 0;
  }

  lemma HighFirstSnoc(x: nat, n: nat)
    requires n > 0
    ensures HighFirst(x, n) == HighFirst(x / 2, n - 1) + [Bit(x, 0)]
  {
    hide Bit, Pow2;
    forall j | 0 <= j < n - 1 ensures HighFirst(x, n)[j] == HighFirst(x / 2, n - 1)[j] { BitHalf(x, n - 2 - j); }
  }

  lemma CountWord(w: Limb)
    ensures CountBits(w) == CountTrue(Elements(w, LIMB_BITS))
  {
    CountHighFirst(w, LIMB_BITS);
    hide Bit;
    assert Elements(w, LIMB_BITS) == HighFirst(w, LIMB_BITS);
  }

  lemma CountMasked(w: Limb, leftover: nat)
    requires 0 < leftover < LIMB_BITS
    ensures CountBits(Masked(w, leftover)) == CountTrue(Elements(w, leftover))
  {
    var m := Masked(w, leftover);
    CountWord(m);
    hide WordBit, Masked, CountBits;
    forall j: nat | j < LIMB_BITS
      ensures WordBit(m, j) <==> j < leftover && WordBit(w, j) { MaskedBit(w, leftover, j); }
    var rest := Elements(m, LIMB_BITS)[leftover..];
    assert Elements(m, LIMB_BITS) == Elements(w, leftover) + rest;
    CountConcat(Elements(w, leftover), rest);
    CountFalse(rest);
  }

  // The elements in the first i words.
  ghost function Before(vec: SimpleBitVector, i: nat): (s: seq<bool>)
    requires vec.Valid() && LIMB_BITS * i <= vec.length
    reads vec, vec.words
    ensures |s| == LIMB_BITS * i && s <= vec.Contents()
    ensures LIMB_BITS * i == vec.length ==> s == vec.Contents()
  {
    vec.Contents()[..LIMB_BITS * i]
  }

  lemma WholeWord(vec: SimpleBitVector, i: nat)
    requires vec.Valid() && LIMB_BITS * (i + 1) <= vec.length
    ensures i < vec.words.Length
    ensures Before(vec, i + 1) == Before(vec, i) + Elements(vec.words[i], LIMB_BITS)
  {
    hide WordBit;
    InsideWords(LIMB_BITS * i, vec.length);
    var c, e := vec.Contents(), Elements(vec.words[i], LIMB_BITS);
    forall j: nat | j < LIMB_BITS ensures c[LIMB_BITS * i + j] == e[j] { Located(i, j); }
  }

  lemma LastWord(vec: SimpleBitVector, i: nat, leftover: nat)
    requires vec.Valid() && LIMB_BITS * i + leftover == vec.length && 0 < leftover < LIMB_BITS
    ensures i < vec.words.Length
    ensures vec.Contents() == Before(vec, i) + Elements(vec.words[i], leftover)
  {
    hide WordBit;
    InsideWords(LIMB_BITS * i, vec.length);
    var c, e := vec.Contents(), Elements(vec.words[i], leftover);
    forall j: nat | j < leftover ensures c[LIMB_BITS * i + j] == e[j] { Located(i, j); }
  }

  lemma Located(i: nat, j: nat)
    requires j < LIMB_BITS
    ensures (LIMB_BITS * i + j) / LIMB_BITS == i && (LIMB_BITS * i + j) % LIMB_BITS == j
  {
  }

  /** core__sbv_popcnt: the number of elements that are set, whatever the last
      word holds beyond the length. */
  method SbvPopcnt(vec: SimpleBitVector) returns (count: nat)
    requires vec.Valid()
    ensures count == CountTrue(vec.Contents())
    ensures count == |TruePlaces(vec.Contents())|
  {
    CountIsCardinality(vec.Contents());
    hide WordBit, Before, Elements, CountTrue, CountBits, Masked, TruePlaces, vec.Contents;
    var nwords, leftover := vec.length / LIMB_BITS, vec.length % LIMB_BITS;
    count := 0;
    var i := 0;
    NoneCounted(Before(vec, 0));
    while i < nwords
      invariant 0 <= i <= nwords && count == CountTrue(Before(vec, i))
    {
      WholeWord(vec, i);
      CountWord(vec.words[i]);
      CountConcat(Before(vec, i), Elements(vec.words[i], LIMB_BITS));
      count := count + CountBits(vec.words[i]);
      i := i + 1;
    }
    if leftover != 0 {
      LastWord(vec, i, leftover);
      CountMasked(vec.words[i], leftover);
      CountConcat(Before(vec, i), Elements(vec.words[i], leftover));
      count := count + CountBits(Masked(vec.words[i], leftover));
    }
  }

  // The words that DO_BIT_ARRAY_WORDS hands to its statement from word i on, as
  // it is written; None where it computes an undefined mask. A statement that
  // returns for a word that is not zero ends the scan.
  function ScanAsWritten(words: seq<Limb>, length: nat, early: bool, i: nat): Option<seq<Limb>>
    requires i <= length / LIMB_BITS && WordsFor(length) <= |words|
    decreases length / LIMB_BITS - i
  {
    if i < length / LIMB_BITS then
      if early && words[i] != 0 then Some([words[i]])
      else
        match ScanAsWritten(words, length, early, i + 1)
        case None => None
        case Some(rest) => Some([words[i]] + rest)
    else if length % LIMB_BITS == 0 then Some([])
    else
      match IntMask(length % LIMB_BITS)
      case None => None
      case Some(mask) => Some([WordOp(AND, words[i], LowWord(mask))])
  }

  lemma {:induction false} WordsAsWritten(words: seq<Limb>, length: nat, early: bool, i: nat)
    requires i <= length / LIMB_BITS && WordsFor(length) <= |words|
    ensures ScanAsWritten(words, length, early, i).Some?
            <==> length % LIMB_BITS == 0 || (early && exists k :: i <= k < length / LIMB_BITS && words[k] != 0)
    decreases length / LIMB_BITS - i
  {
    hide Shifted, WordOp;
    if i < length / LIMB_BITS { WordsAsWritten(words, length, early, i + 1); }
  }

  /** The mask is never defined, as one of its two shifts is by the width of an int
      or more. So counting the elements is defined exactly for lengths that are
      multiples of the word's, and a test or search for an element also when an
      element is set before the last word. */
  lemma ScanIsDefined(vec: SimpleBitVector, early: bool)
    requires vec.Valid()
    ensures ScanAsWritten(vec.words[..], vec.length, early, 0).Some?
            <==> vec.length % LIMB_BITS == 0
                 || (early && exists k :: 0 <= k < LIMB_BITS * (vec.length / LIMB_BITS) && vec.Contents()[k])
  {
    hide WordBit, ScanAsWritten;
    WordsAsWritten(vec.words[..], vec.length, early, 0);
    var n := vec.length / LIMB_BITS;
    if k: nat :| k < n && vec.words[k] != 0 {
      SomeWordBit(vec.words[k]);
      var j: nat :| j < LIMB_BITS && WordBit(vec.words[k], j);
      Located(k, j);
      assert vec.Contents()[LIMB_BITS * k + j];
    }
    if k: nat :| k < LIMB_BITS * n && vec.Contents()[k] {
      SomeWordBit(vec.words[k / LIMB_BITS]);
      assert vec.words[..][k / LIMB_BITS] != 0;
    }
  }

  lemma NoneCounted(s: seq<bool>)
    requires s == []
    ensures CountTrue(s) == 0
  {
  }

  predicate NoneSet(s: seq<bool>) { forall i :: 0 <= i < |s| ==> !s[i] }

  lemma NoneSetConcat(a: seq<bool>, b: seq<bool>)
    ensures NoneSet(a + b) <==> NoneSet(a) && NoneSet(b)
  {
    assert forall i :: 0 <= i < |b| ==> (a + b)[|a| + i] == b[i];
    assert forall i :: 0 <= i < |a| ==> (a + b)[i] == a[i];
  }

  lemma NoneSetWord(w: Limb)
    ensures w == 0 <==> NoneSet(Elements(w, LIMB_BITS))
  {
    SomeWordBit(w);
    hide WordBit;
    if w != 0 {
      var j: nat :| j < LIMB_BITS && WordBit(w, j);
      assert Elements(w, LIMB_BITS)[j];
    }
  }

  lemma NoneSetMasked(w: Limb, leftover: nat)
    requires 0 < leftover < LIMB_BITS
    ensures Masked(w, leftover) == 0 <==> NoneSet(Elements(w, leftover))
  {
    var m := Masked(w, leftover);
    NoneSetWord(m);
    hide WordBit, Masked;
    forall j: nat | j < LIMB_BITS
      ensures WordBit(m, j) <==> j < leftover && WordBit(w, j) { MaskedBit(w, leftover, j); }
    var all, some := Elements(m, LIMB_BITS), Elements(w, leftover);
    assert forall j :: 0 <= j < leftover ==> all[j] == some[j];
    assert forall j :: leftover <= j < LIMB_BITS ==> !all[j];
  }

  lemma SomeSetBefore(vec: SimpleBitVector, i: nat)
    requires vec.Valid() && LIMB_BITS * i <= vec.length && !NoneSet(Before(vec, i))
    ensures !NoneSet(vec.Contents())
  {
    assert Before(vec, i) <= vec.Contents();
    NoneSetConcat(Before(vec, i), vec.Contents()[LIMB_BITS * i..]);
  }

  /** core__sbv_zerop */
  method SbvZerop(vec: SimpleBitVector) returns (zero: bool)
    requires vec.Valid()
    ensures zero <==> forall i :: 0 <= i < vec.length ==> !vec.Contents()[i]
  {
    NoneSetIs(vec.Contents());
    NoneSetIs(Before(vec, 0));
    hide WordBit, Before, Elements, Masked, NoneSet, vec.Contents;
    var nwords, leftover := vec.length / LIMB_BITS, vec.length % LIMB_BITS;
    var i := 0;
    while i < nwords
      invariant 0 <= i <= nwords && NoneSet(Before(vec, i))
    {
      WholeWord(vec, i);
      NoneSetWord(vec.words[i]);
      NoneSetConcat(Before(vec, i), Elements(vec.words[i], LIMB_BITS));
      if vec.words[i] != 0 {
        SomeSetBefore(vec, i + 1);
        return false;
      }
      i := i + 1;
    }
    if leftover != 0 {
      LastWord(vec, i, leftover);
      NoneSetMasked(vec.words[i], leftover);
      NoneSetConcat(Before(vec, i), Elements(vec.words[i], leftover));
      return Masked(vec.words[i], leftover) == 0;
    }
    zero := true;
  }

  lemma NoneSetIs(s: seq<bool>)
    ensures NoneSet(s) <==> forall i :: 0 <= i < |s| ==> !s[i]
  {
  }

  // The instruction that counts the zero bits above the highest set bit
  function LeadingZeros(w: Limb): (z: nat)
    requires w != 0
    ensures z < LIMB_BITS
  {
    BitLengthBounds(w);
    LengthWithin(w);
    LIMB_BITS - BitLength(w)
  }

  lemma LengthWithin(w: Limb)
    requires w != 0
    ensures 0 < BitLength(w) <= LIMB_BITS
  {
    hide Pow2, BitLength;
    BitLengthBounds(w);
    if BitLength(w) > LIMB_BITS { PowMonotone(LIMB_BITS, BitLength(w) - 1); }
  }

  lemma LeadingZerosMean(w: Limb)
    requires w != 0
    ensures WordBit(w, LeadingZeros(w)) && forall j: nat :: j < LeadingZeros(w) ==> !WordBit(w, j)
  {
    var b := BitLength(w);
    BitLengthBounds(w);
    LengthWithin(w);
    DivUnique(w, Pow2(b - 1), 1, w - Pow2(b - 1));
    forall j: nat | j < LIMB_BITS - b ensures !WordBit(w, j) { BitOutside(w, b, LIMB_BITS - 1 - j); }
  }

  // The index of the first element that is set.
  ghost predicate IsFirst(s: seq<bool>, r: Option<nat>) {
    match r
    case None => NoneSet(s)
    case Some(i) => i < |s| && s[i] && NoneSet(s[..i])
  }

  lemma FirstInWord(before: seq<bool>, w: Limb)
    requires NoneSet(before) && w != 0
    ensures IsFirst(before + Elements(w, LIMB_BITS), Some(|before| + LeadingZeros(w)))
  {
    LeadingZerosMean(w);
    hide WordBit, LeadingZeros;
  }

  lemma FirstInLastWord(before: seq<bool>, w: Limb, leftover: nat)
    requires NoneSet(before) && 0 < leftover < LIMB_BITS && Masked(w, leftover) != 0
    ensures IsFirst(before + Elements(w, leftover), Some(|before| + LeadingZeros(Masked(w, leftover))))
  {
    var m := Masked(w, leftover);
    LeadingZerosMean(m);
    hide WordBit, LeadingZeros, Masked;
    forall j: nat | j < LIMB_BITS
      ensures WordBit(m, j) <==> j < leftover && WordBit(w, j) { MaskedBit(w, leftover, j); }
    assert WordBit(m, LeadingZeros(m));
  }

  lemma FirstInPrefix(vec: SimpleBitVector, i: nat, r: nat)
    requires vec.Valid() && LIMB_BITS * i <= vec.length && IsFirst(Before(vec, i), Some(r))
    ensures IsFirst(vec.Contents(), Some(r))
  {
    assert Before(vec, i) <= vec.Contents();
    assert vec.Contents()[..r] == Before(vec, i)[..r];
  }

  // What a whole word tells about the first element that is set.
  lemma WordScanned(v: SimpleBitVector, i: nat)
    requires v.Valid() && LIMB_BITS * (i + 1) <= v.length && NoneSet(Before(v, i))
    ensures i < v.words.Length
    ensures v.words[i] == 0 ==> NoneSet(Before(v, i + 1))
    ensures v.words[i] != 0 ==> IsFirst(v.Contents(), Some(LIMB_BITS * i + LeadingZeros(v.words[i])))
  {
    hide WordBit, Before, Elements, NoneSet, IsFirst, LeadingZeros, v.Contents;
    WholeWord(v, i);
    NoneSetWord(v.words[i]);
    NoneSetConcat(Before(v, i), Elements(v.words[i], LIMB_BITS));
    if v.words[i] != 0 {
      FirstInWord(Before(v, i), v.words[i]);
      FirstInPrefix(v, i + 1, LIMB_BITS * i + LeadingZeros(v.words[i]));
    }
  }

  lemma LastWordScanned(v: SimpleBitVector, i: nat, leftover: nat)
    requires v.Valid() && LIMB_BITS * i + leftover == v.length && 0 < leftover < LIMB_BITS && NoneSet(Before(v, i))
    ensures i < v.words.Length
    ensures var w := Masked(v.words[i], leftover);
            if w == 0 then NoneSet(v.Contents()) else IsFirst(v.Contents(), Some(LIMB_BITS * i + LeadingZeros(w)))
  {
    hide WordBit, Before, Elements, Masked, NoneSet, IsFirst, LeadingZeros, v.Contents;
    LastWord(v, i, leftover);
    NoneSetMasked(v.words[i], leftover);
    NoneSetConcat(Before(v, i), Elements(v.words[i], leftover));
    if Masked(v.words[i], leftover) != 0 { FirstInLastWord(Before(v, i), v.words[i], leftover); }
  }

  /** core__sbv_position_one: the index of the first element that is set, or None. */
  method SbvPositionOne(v: SimpleBitVector) returns (r: Option<nat>)
    requires v.Valid()
    ensures IsFirst(v.Contents(), r)
    ensures r.None? ==> forall i :: 0 <= i < v.length ==> !v.Contents()[i]
    ensures r.Some? ==>
              r.value < v.length && v.Contents()[r.value] && forall i :: 0 <= i < r.value ==> !v.Contents()[i]
  {
    NoneIsFirst(v.Contents());
    NoneSetIs(Before(v, 0));
    hide WordBit, Before, Elements, Masked, NoneSet, IsFirst, LeadingZeros, v.Contents;
    var nwords, leftover := v.length / LIMB_BITS, v.length % LIMB_BITS;
    var i := 0;
    while i < nwords
      invariant 0 <= i <= nwords && NoneSet(Before(v, i))
    {
      WordScanned(v, i);
      var w := v.words[i];
      if w != 0 {
        return Some(i * LIMB_BITS + LeadingZeros(w));
      }
      i := i + 1;
    }
    if leftover != 0 {
      LastWordScanned(v, i, leftover);
      var w := Masked(v.words[i], leftover);
      if w != 0 {
        return Some(i * LIMB_BITS + LeadingZeros(w));
      }
      return None;
    }
    r := None;
  }

  lemma NoneIsFirst(s: seq<bool>)
    ensures IsFirst(s, None) <==> NoneSet(s)
  {
  }

  /** ranged_bit_vector_EQ_ */
  method RangedEqual(x: SimpleBitVector, y: SimpleBitVector, startX: nat, endX: nat, startY: nat, endY: nat)
    returns (same: bool)
    requires x.Valid() && y.Valid() && startX <= endX <= x.length && startY <= endY <= y.length
    ensures same <==> x.Contents()[startX..endX] == y.Contents()[startY..endY]
  {
    hide WordBit, x.Contents;
    ghost var a, b := x.Contents(), y.Contents();
    if endX - startX != endY - startY {
      return false;
    }
    var ix, iy := startX, startY;
    while ix < endX
      invariant startX <= ix <= endX && iy - startY == ix - startX
      invariant forall k :: startX <= k < ix ==> a[k] == b[k - startX + startY]
    {
      var bitX := x.Get(ix);
      var bitY := y.Get(iy);
      if bitX != bitY {
        SlicesDiffer(a, b, startX, endX, startY, endY, ix);
        return false;
      }
      ix, iy := ix + 1, iy + 1;
    }
    SlicesAgree(a, b, startX, endX, startY, endY);
    same := true;
  }

  lemma SlicesAgree(a: seq<bool>, b: seq<bool>, startA: nat, endA: nat, startB: nat, endB: nat)
    requires startA <= endA <= |a| && startB <= endB <= |b| && endA - startA == endB - startB
    requires forall k :: startA <= k < endA ==> a[k] == b[k - startA + startB]
    ensures a[startA..endA] == b[startB..endB]
  {
  }

  lemma SlicesDiffer(a: seq<bool>, b: seq<bool>, startA: nat, endA: nat, startB: nat, endB: nat, k: nat)
    requires startA <= k < endA <= |a| && startB <= endB <= |b| && endA - startA == endB - startB
    requires a[k] != b[k - startA + startB]
    ensures a[startA..endA] != b[startB..endB]
  {
    assert a[startA..endA][k - startA] == a[k] && b[startB..endB][k - startA] == b[k - startA + startB];
  }
}
