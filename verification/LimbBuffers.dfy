/** The multi-precision primitives on buffers of limbs. A result buffer may be
    one of the operands. */
module LimbBuffers {
  import opened TwosComplement
  import opened Limbs

  // Buffer contents after the first n limbs are as before.
  twostate predicate Beyond(result: array<Limb>, n: nat)
    reads result
  {
    forall i :: n <= i < result.Length ==> result[i] == old(result[i])
  }

  // mpn_and_n, mpn_ior_n, mpn_xor_n and mpn_andn_n
  method LogicN(t: Table, result: array<Limb>, s1: array<Limb>, s2: array<Limb>, n: nat)
    requires !t.ff && n <= result.Length && n <= s1.Length && n <= s2.Length
    modifies result
    ensures result[..n] == LimbOp(t, old(s1[..n]), old(s2[..n]))
    ensures Beyond(result, n)
  {
    var i := 0;
    while i < n
      invariant 0 <= i <= n
      invariant forall k :: 0 <= k < i ==> result[k] == WordOp(t, old(s1[k]), old(s2[k]))
      invariant Beyond(result, i)
    {
      result[i] := WordOp(t, s1[i], s2[i]);
      i := i + 1;
    }
  }

  // mpn_copyi, and the loops that copy the high limbs of the longer operand
  method CopyLimbs(result: array<Limb>, s: array<Limb>, from: nat, to: nat)
    requires from <= to <= result.Length && to <= s.Length
    modifies result
    ensures forall k :: 0 <= k < result.Length ==> result[k] == if from <= k < to then old(s[k]) else old(result[k])
  {
    var i := from;
    while i < to
      invariant from <= i <= to
      invariant forall k :: 0 <= k < result.Length ==> result[k] == if from <= k < i then old(s[k]) else old(result[k])
    {
      result[i] := s[i];
      i := i + 1;
    }
  }

  // BIGNUM_NORMALIZE
  method Normalize(size: nat, limbs: array<Limb>) returns (size': nat)
    requires size <= limbs.Length
    ensures size' <= size && Val(limbs[..size']) == Val(limbs[..size]) && Normal(limbs[..size'])
  {
    size' := size;
    while size' > 0 && limbs[size' - 1] == 0
      invariant size' <= size && Val(limbs[..size']) == Val(limbs[..size])
    {
      ValSnoc(limbs[..size' - 1], limbs[size' - 1]);
      assert limbs[..size' - 1] + [limbs[size' - 1]] == limbs[..size'];
      size' := size' - 1;
    }
  }

  // A number at the place of limb n.
  function Place(n: nat, x: int): int { PowB(n) * x }

  lemma PlaceSum(n: nat, x: int, y: int)
    ensures Place(n, x + y) == Place(n, x) + Place(n, y)
    ensures Place(n, x - y) == Place(n, x) - Place(n, y)
    ensures Place(n, BaseTimes(x)) == Place(n + 1, x)
    ensures Place(n, 0) == 0 && Place(0, x) == x
  {
    var p := PowB(n);
    assert PowB(n + 1) * x == p * BaseTimes(x) by { Commutes(p, x); }
    hide *;
    Distribute(p, x, y);
    Distribute(p, x, 0 - y);
    Distribute(p, 0, 0 - y);
    NothingAtPlace(n, x);
  }

  lemma NothingAtPlace(n: nat, x: int)
    ensures Place(n, 0) == 0 && Place(0, x) == x
  {
  }

  lemma Commutes(p: int, c: int)
    ensures BaseTimes(p) * c == p * BaseTimes(c)
  {
    assert (BASE * p) * c == p * (BASE * c);
  }

  // One limb of a sum: what is written and what is carried.
  lemma SumStep(done: seq<Limb>, before: seq<Limb>, x: Limb, y: Limb, carry: int, carry': int, total: int)
    requires |done| == |before|
    requires Val(done) + Place(|done|, carry) == Val(before) + total
    requires y + BaseTimes(carry') == x + carry
    ensures Val(done + [y]) + Place(|done| + 1, carry') == Val(before + [x]) + total
  {
    hide *;
    SnocPlace(done, y);
    SnocPlace(before, x);
    Regrouped(|done|, x, carry, y, carry');
  }

  lemma Regrouped(n: nat, x: int, carry: int, y: int, carry': int)
    requires y + BaseTimes(carry') == x + carry
    ensures Place(n, y) + Place(n + 1, carry') == Place(n, x) + Place(n, carry)
  {
    PlaceSum(n, y, BaseTimes(carry'));
    PlaceSum(n, carry', 0);
    PlaceSum(n, x, carry);
    hide *;
  }

  lemma SnocPlace(limbs: seq<Limb>, x: Limb)
    ensures Val(limbs + [x]) == Val(limbs) + Place(|limbs|, x)
  {
    ValSnoc(limbs, x);
  }

  // What a word sum leaves in a word, and what it carries.
  function LowWord(x: int): Limb { x % BASE }

  function HighWord(x: int): int { x / BASE }

  lemma Carry(sum: int)
    ensures LowWord(sum) + BaseTimes(HighWord(sum)) == sum
    ensures 0 <= sum < BASE ==> HighWord(sum) == 0
    ensures BASE <= sum < 2 * BASE ==> HighWord(sum) == 1
    ensures sum < 0 && 0 <= sum + BASE ==> HighWord(sum) == -1
  {
    if 0 <= sum < BASE {
      DivUnique(sum, BASE, 0, sum);
    } else if BASE <= sum < 2 * BASE {
      DivUnique(sum, BASE, 1, sum - BASE);
    } else if sum < 0 && 0 <= sum + BASE {
      DivUnique(sum, BASE, -1, sum + BASE);
    }
  }

  lemma NothingYet(x: Limb)
    ensures Val([]) == 0 && Place(0, x) == x && Place(0, 0 - x) == 0 - x
  {
  }

  // mpn_add_1
  method Add1(result: array<Limb>, s: array<Limb>, n: nat, x: Limb) returns (carry: Limb)
    requires 0 < n <= result.Length && n <= s.Length
    modifies result
    ensures carry <= 1 && Val(result[..n]) + PowB(n) * carry == old(Val(s[..n])) + x
    ensures Beyond(result, n)
  {
    NothingYet(x);
    hide Val, PowB, Pow2, BaseTimes, LowWord, HighWord;
    ghost var read, done := [], [];
    var i: nat := 0;
    carry := x;
    while i < n
      invariant i <= n && (i > 0 ==> carry <= 1) && |done| == |read| == i
      invariant forall k :: 0 <= k < i ==> result[k] == done[k] && old(s[k]) == read[k]
      invariant Val(done) + Place(i, carry) == Val(read) + x
      invariant forall k :: i <= k < result.Length ==> result[k] == old(result[k])
    {
      var sum := s[i] + carry;
      Carry(sum);
      SumStep(done, read, s[i], LowWord(sum), carry, HighWord(sum), x);
      read, done := read + [s[i]], done + [LowWord(sum)];
      result[i] := LowWord(sum);
      carry := HighWord(sum);
      i := i + 1;
    }
    assert result[..n] == done && old(s[..n]) == read;
  }

  // mpn_sub_1: the borrow is a carry with its sign changed.
  method Sub1(result: array<Limb>, s: array<Limb>, n: nat, x: Limb) returns (borrow: Limb)
    requires 0 < n <= result.Length && n <= s.Length
    modifies result
    ensures borrow <= 1 && Val(result[..n]) - PowB(n) * borrow == old(Val(s[..n])) - x
    ensures Beyond(result, n)
  {
    NothingYet(x);
    hide Val, PowB, Pow2, BaseTimes, LowWord, HighWord;
    ghost var read, done := [], [];
    var i: nat := 0;
    var carry: int := 0 - x;
    while i < n
      invariant i <= n && |done| == |read| == i
      invariant 0 <= 0 - carry < BASE && (i > 0 ==> -1 <= carry)
      invariant forall k :: 0 <= k < i ==> result[k] == done[k] && old(s[k]) == read[k]
      invariant Val(done) + Place(i, carry) == Val(read) + (0 - x)
      invariant forall k :: i <= k < result.Length ==> result[k] == old(result[k])
    {
      var difference := s[i] + carry;
      Carry(difference);
      SumStep(done, read, s[i], LowWord(difference), carry, HighWord(difference), 0 - x);
      read, done := read + [s[i]], done + [LowWord(difference)];
      result[i] := LowWord(difference);
      carry := HighWord(difference);
      i := i + 1;
    }
    borrow := 0 - carry;
    assert result[..n] == done && old(s[..n]) == read;
    NegatedTimes(PowB(n), carry);
  }

  lemma NegatedTimes(p: int, c: int)
    ensures p * c == 0 - p * (0 - c)
  {
  }

  // The i-th limb of a number, with the zeros above its limbs.
  function Digit(limbs: seq<Limb>, i: nat): Limb { if i < |limbs| then limbs[i] else 0 }

  function Signed(negative: bool, x: int): int { if negative then 0 - x else x }

  // One limb of a sum or difference of two numbers.
  lemma SumStep2(done: seq<Limb>, before: seq<Limb>, x: Limb, other: seq<Limb>, y: Limb, subtract: bool,
                 z: Limb, carry: int, carry': int)
    requires |done| == |before| == |other|
    requires Val(done) + Place(|done|, carry) == Val(before) + Signed(subtract, Val(other))
    requires z + BaseTimes(carry') == x + Signed(subtract, y) + carry
    ensures Val(done + [z]) + Place(|done| + 1, carry') == Val(before + [x]) + Signed(subtract, Val(other + [y]))
  {
    hide *;
    SnocPlace(other, y);
    SignedSum(subtract, Val(other), |done|, y);
    var y', total := Signed(subtract, y), Signed(subtract, Val(other + [y]));
    PlaceSum(|done|, carry, y');
    SumStep(done, before, x, z, carry + y', carry', total);
  }

  lemma SignedSum(negative: bool, v: int, n: nat, y: int)
    ensures Signed(negative, v + Place(n, y)) == Signed(negative, v) + Place(n, Signed(negative, y))
  {
    hide Place;
    PlaceSum(n, 0, y);
  }

  lemma NoLimbsYet()
    ensures Val([]) == 0 && Place(0, 0) == 0
  {
  }

  lemma PaddedDigits(b: seq<Limb>, read: seq<Limb>)
    requires |b| <= |read| && forall k :: 0 <= k < |read| ==> read[k] == Digit(b, k)
    ensures Val(read) == Val(b)
  {
    hide Val;
    ValPadded(b, |read| - |b|);
    assert read == b + Zeros(|read| - |b|);
  }

  // mpn_add, or mpn_sub and mpn_sub_n, whose borrow is a carry with its sign changed
  method AddSigned(result: array<Limb>, a: seq<Limb>, subtract: bool, b: seq<Limb>) returns (carry: int)
    requires |b| <= |a| <= result.Length
    modifies result
    ensures Val(result[..|a|]) + PowB(|a|) * carry == Val(a) + Signed(subtract, Val(b))
    ensures if subtract then -1 <= carry <= 0 else 0 <= carry <= 1
    ensures Beyond(result, |a|)
  {
    NoLimbsYet();
    hide Val, PowB, Pow2, BaseTimes, LowWord, HighWord;
    ghost var readA, readB, done: seq<Limb> := [], [], [];
    var i: nat := 0;
    carry := 0;
    while i < |a|
      invariant i <= |a| && |done| == |readA| == |readB| == i
      invariant if subtract then -1 <= carry <= 0 else 0 <= carry <= 1
      invariant forall k :: 0 <= k < i ==> result[k] == done[k] && a[k] == readA[k] && Digit(b, k) == readB[k]
      invariant Val(done) + Place(i, carry) == Val(readA) + Signed(subtract, Val(readB))
      invariant forall k :: i <= k < result.Length ==> result[k] == old(result[k])
    {
      var sum := a[i] + Signed(subtract, Digit(b, i)) + carry;
      Carry(sum);
      SumStep2(done, readA, a[i], readB, Digit(b, i), subtract, LowWord(sum), carry, HighWord(sum));
      readA, readB, done := readA + [a[i]], readB + [Digit(b, i)], done + [LowWord(sum)];
      result[i] := LowWord(sum);
      carry := HighWord(sum);
      i := i + 1;
    }
    assert result[..|a|] == done && a == readA;
    PaddedDigits(b, readB);
  }

  // ---- limbs and quotients ----

  lemma LowWordAdd(x: int, y: int)
    ensures LowWord(x - BaseTimes(y)) == LowWord(x)
  {
    AddMultiple(x, BASE, 0 - y);
  }

  lemma WordItself(x: Limb)
    ensures LowWord(x) == x
  {
    DivUnique(x, BASE, 0, x);
  }

  lemma {:induction false} ZeroLimbs(limbs: seq<Limb>)
    ensures Val(limbs) == 0 <==> forall i :: 0 <= i < |limbs| ==> limbs[i] == 0
  {
    if limbs != [] {
      ZeroLimbs(limbs[1..]);
      BaseBig();
      assert BaseTimes(Val(limbs[1..])) == 0 <==> Val(limbs[1..]) == 0;
      assert forall i :: 0 < i < |limbs| ==> limbs[i] == limbs[1..][i - 1];
    }
  }

  lemma SplitLimbs(limbs: seq<Limb>, j: nat)
    requires j <= |limbs|
    ensures Val(limbs) == Val(limbs[..j]) + PowB(j) * Val(limbs[j..]) && Val(limbs[..j]) < PowB(j)
  {
    assert limbs == limbs[..j] + limbs[j..];
    ValConcat(limbs[..j], limbs[j..]);
    ValBound(limbs[..j]);
  }

  // The quotients of a number and of its negative by a power of the base.
  lemma LimbQuotients(limbs: seq<Limb>, j: nat)
    requires j <= |limbs|
    ensures Val(limbs) / PowB(j) == Val(limbs[j..])
    ensures (0 - Val(limbs)) / PowB(j) == Borrow(Val(limbs[..j])) - Val(limbs[j..])
  {
    hide *;
    SplitLimbs(limbs, j);
    Quotients(Val(limbs), Val(limbs[..j]), PowB(j), Val(limbs[j..]));
  }

  function Borrow(low: nat): int { if low == 0 then 0 else -1 }

  lemma Quotients(x: nat, low: nat, p: nat, high: nat)
    requires low < p && x == low + p * high
    ensures x / p == high && (0 - x) / p == Borrow(low) - high
  {
    DivUnique(x, p, high, low);
    if low == 0 {
      DivUnique(0 - x, p, 0 - high, 0);
    } else {
      assert p * (-1 - high) == 0 - p - p * high;
      DivUnique(0 - x, p, -1 - high, p - low);
    }
  }
}
