/** Small modules in whose linked code the machine does not go where it should. */
module LinkedExamples {
  import opened Options
  import opened Instructions
  import opened Relaxation
  import opened Emission

  // A backward label 0x8001 bytes away needs 24 bits and is read as a forward one.
  lemma BackwardLabel24IsMisread()
    ensures var d := -0x8001;
            ControlSize(d) == Some(4)
            && ReadDisplacement(EmitControl(4, d, VM_JUMP_8, VM_JUMP_16, VM_JUMP_24), 0, 4) == 0x7f_7fff
  {
    LittleEndianUnfold(-0x8001);
  }

  // A label one instruction behind a jump-if-supplied is missed by 256 bytes.
  lemma BackwardSuppliedJumpIsMisread()
    ensures var items, sizes := [Mark(0), Ins(I0(VM_POP)), Supplied(0, 0)], [0, 1, 3];
            && WellFormed(items) && Consistent(items, sizes)
            && |LinkedCode(items, sizes)| == 4
            && SuppliedNext(LinkedCode(items, sizes), 1, true) == 256
  {
    var items: seq<Item>, sizes: seq<nat> := [Mark(0), Ins(I0(VM_POP)), Supplied(0, 0)], [0, 1, 3];
    assert Mark(0) == items[0];
    assert Pos(sizes, 1) == 0 && Pos(sizes, 2) == 1 && Pos(sizes, 3) == 4;
    assert Target(items, 0) == 0;
    assert Delta(items, sizes, 2) == -1;
    assert forall k :: 0 <= k < 3 ==> Want(items, sizes, k) == Some(sizes[k]);
    ItemInPlace(items, sizes, 2);
    LittleEndianUnfold(-1);
    var bytes := ItemBytes(items, sizes, 2);
    assert bytes[0] == VM_JUMP_IF_SUPPLIED_8 && bytes[2] == 255;
    assert LinkedCode(items, sizes)[1 + 0] == bytes[0] && LinkedCode(items, sizes)[1 + 2] == bytes[2];
  }

  // A jump-if-supplied over 128 instructions, which takes its long form.
  function FarSupplied(): (items: seq<Item>)
    ensures |items| == 130
  {
    [Supplied(0, 0)] + seq(128, _ => Ins(I0(VM_POP))) + [Mark(0)]
  }

  function FarSizes(): (sizes: seq<nat>)
    ensures |sizes| == 130
  {
    [4] + seq(128, _ => 1) + [0]
  }

  lemma FarItems(k: nat)
    requires k < 130
    ensures FarSupplied()[k] == if k == 0 then Supplied(0, 0) else if k < 129 then Ins(I0(VM_POP)) else Mark(0)
    ensures FarSizes()[k] == if k == 0 then 4 else if k < 129 then 1 else 0
  {
  }

  lemma {:induction false} FarPosition(k: nat)
    requires k <= 128
    ensures Pos(FarSizes(), 0) == 0 && Pos(FarSizes(), k + 1) == 4 + k
  {
    FarItems(k);
    hide FarSizes;
    if k == 0 { assert Pos(FarSizes(), 0) == 0; } else { FarPosition(k - 1); }
  }

  lemma FarTarget()
    ensures Target(FarSupplied(), 0) == 129 && Mark(0) in FarSupplied()
  {
    hide FarSupplied;
    var t := Target(FarSupplied(), 0);
    FarItems(129);
    assert FarSupplied()[129] == Mark(0);
    FarItems(t);
  }

  lemma FarDelta()
    ensures FarSupplied()[0] == Supplied(0, 0) && Delta(FarSupplied(), FarSizes(), 0) == 132
  {
    hide FarSupplied, FarSizes, Target, Pos;
    FarItems(0);
    FarTarget();
    FarPosition(0);
    FarPosition(128);
  }

  lemma FarWant(k: nat)
    requires k < 130
    ensures Emittable(FarSupplied()[k]) && Want(FarSupplied(), FarSizes(), k) == Some(FarSizes()[k])
    ensures FarSupplied()[k].IsLabelFixup() ==> Mark(FarSupplied()[k].id) in FarSupplied()
  {
    hide FarSupplied, FarSizes, Target, Pos, Delta;
    FarItems(k);
    if k == 0 {
      FarDelta();
      FarTarget();
    }
  }

  lemma MakeLinked(items: seq<Item>, sizes: seq<nat>)
    requires |sizes| == |items|
    requires forall k :: 0 <= k < |items| ==> Emittable(items[k])
    requires forall k :: 0 <= k < |items| ==> Want(items, sizes, k) == Some(sizes[k])
    requires forall k :: 0 <= k < |items| ==> items[k].IsLabelFixup() ==> Mark(items[k].id) in items
    ensures WellFormed(items) && Consistent(items, sizes)
  {
    hide Want, Emittable;
  }

  lemma FarIsLinked()
    ensures WellFormed(FarSupplied()) && Consistent(FarSupplied(), FarSizes())
  {
    hide FarSupplied, FarSizes, Want, Emittable;
    var items, sizes := FarSupplied(), FarSizes();
    forall k | 0 <= k < |items|
      ensures Emittable(items[k]) && Want(items, sizes, k) == Some(sizes[k])
      ensures items[k].IsLabelFixup() ==> Mark(items[k].id) in items
    {
      FarWant(k);
    }
    MakeLinked(items, sizes);
  }

  lemma SuppliedMisses(code: seq<Byte>)
    requires 4 <= |code| && code[0] == VM_JUMP_IF_SUPPLIED_16
    ensures SuppliedNext(code, 0, false) == 5
  {
  }

  /** Without the argument such a jump falls through to the second instruction
      instead of the first. */
  lemma LongSuppliedFallsTooFar()
    ensures var items, sizes := FarSupplied(), FarSizes();
            && WellFormed(items) && Consistent(items, sizes) && 4 <= |LinkedCode(items, sizes)|
            && SuppliedNext(LinkedCode(items, sizes), 0, false) == 5 && Pos(sizes, 1) == 4
  {
    FarIsLinked();
    FarItems(0);
    FarPosition(0);
    FarDelta();
    hide Consistent, WellFormed, LinkedCode, FarSizes, FarSupplied, Pos, Delta, SuppliedNext;
    SuppliedIsEmitted(FarSupplied(), FarSizes(), 0);
    SuppliedReads(LinkedCode(FarSupplied(), FarSizes()), 0, 0, 132, 4);
    SuppliedMisses(LinkedCode(FarSupplied(), FarSizes()));
  }
}
