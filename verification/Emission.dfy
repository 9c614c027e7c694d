/** The bytes of a module: the assembly with placeholders that the compiler
    builds, the final code that linking makes of it, and what the virtual
    machine reads back from a linked jump. */
module Emission {
  import opened Options
  import opened Instructions
  import opened Relaxation
  import TwosComplement

  // The low n bytes of an offset, least significant first.
  function LittleEndian(offset: int, n: nat): (bytes: seq<Byte>)
    ensures |bytes| == n
    decreases n
  {
    if n == 0 then [] else [offset % 256] + LittleEndian(offset / 256, n - 1)
  }

  function Zeros(n: nat): (bytes: seq<Byte>)
    ensures |bytes| == n
  {
    seq(n, _ => 0)
  }

  // The bytes appended when an item is emitted into a function.
  function Placeholder(item: Item): (bytes: seq<Byte>)
    requires Emittable(item)
    ensures |bytes| == InitialSize(item)
  {
    if item.Ins? then Encode(item.ins) else Zeros(InitialSize(item))
  }

  function Assembly(items: seq<Item>): seq<Byte>
    requires forall k :: 0 <= k < |items| ==> Emittable(items[k])
  {
    if items == [] then []
    else Assembly(items[..|items| - 1]) + Placeholder(items[|items| - 1])
  }

  // emit_control_label_fixup
  function EmitControl(size: nat, offset: int, op8: Byte, op16: Byte, op24: Byte): (bytes: seq<Byte>)
    requires 2 <= size <= 4
    ensures |bytes| == size
  {
    [if size == 2 then op8 else if size == 3 then op16 else op24] + LittleEndian(offset, size - 1)
  }

  // JumpIfSuppliedFixup_O::emit
  function EmitSupplied(size: nat, index: Byte, offset: int): (bytes: seq<Byte>)
    requires 3 <= size <= 4
    ensures |bytes| == size
  {
    [if size == 3 then VM_JUMP_IF_SUPPLIED_8 else VM_JUMP_IF_SUPPLIED_16, index] + LittleEndian(offset, size - 2)
  }

  // The emit method of every fixup class, given the size that linking settled on.
  function Emit(item: Item, size: nat, delta: int): (bytes: seq<Byte>)
    requires Emittable(item) && Resize(item, delta) == Some(size)
    ensures |bytes| == size
  {
    match item
    case Ins(ins) => Encode(ins)
    case Mark(_) => []
    case Control(_, op8, op16, op24) => EmitControl(size, delta, op8, op16, op24)
    case Exit(_, lex) =>
      if lex.closedOverP then EmitControl(size, delta, VM_EXIT_8, VM_EXIT_16, VM_EXIT_24)
      else EmitControl(size, delta, VM_JUMP_8, VM_JUMP_16, VM_JUMP_24)
    case Supplied(_, index) =>
      EmitSupplied(size, index, delta)
    case LexRef(_, opcode) => if size == 1 then [opcode] else []
    case Encage(lex) => if size == 0 then [] else Encode(I1(VM_ENCELL, lex.frameIndex))
    case LexSet(lex) =>
      if lex.Indirect() then Encode(I1(VM_REF, lex.frameIndex)) + [VM_CELL_SET]
      else Encode(I1(VM_SET, lex.frameIndex))
    case Entry(lex) => Encode(I1(if lex.closedOverP then VM_ENTRY else VM_SAVE_SP, lex.frameIndex))
    case RestoreSp(lex) => Encode(I1(if lex.closedOverP then VM_REF else VM_RESTORE_SP, lex.frameIndex))
    case EntryClose(_) => if size == 1 then [VM_ENTRY_CLOSE] else []
  }

  function ItemBytes(items: seq<Item>, sizes: seq<nat>, k: nat): (bytes: seq<Byte>)
    requires |sizes| == |items| && k < |items| && Emittable(items[k])
    requires Want(items, sizes, k) == Some(sizes[k])
    ensures |bytes| == sizes[k]
  {
    Emit(items[k], sizes[k], Delta(items, sizes, k))
  }

  // The final code of the first k items.
  function Code(items: seq<Item>, sizes: seq<nat>, k: nat): (bytes: seq<Byte>)
    requires |sizes| == |items| && k <= |items|
    requires forall j :: 0 <= j < k ==> Emittable(items[j]) && Want(items, sizes, j) == Some(sizes[j])
    ensures |bytes| == Pos(sizes, k)
  {
    if k == 0 then [] else Code(items, sizes, k - 1) + ItemBytes(items, sizes, k - 1)
  }

  ghost function LinkedCode(items: seq<Item>, sizes: seq<nat>): seq<Byte>
    requires WellFormed(items) && Consistent(items, sizes)
  {
    Code(items, sizes, |items|)
  }

  // The bytes stand in the code from position p on.
  ghost predicate Holds(code: seq<Byte>, p: nat, bytes: seq<Byte>) {
    && p + |bytes| <= |code|
    && forall i {:trigger bytes[i]} :: 0 <= i < |bytes| ==> code[p + i] == bytes[i]
  }

  lemma {:induction false} CodeExtends(items: seq<Item>, sizes: seq<nat>, i: nat, j: nat)
    requires WellFormed(items) && Consistent(items, sizes) && i <= j <= |items|
    ensures Code(items, sizes, i) <= Code(items, sizes, j)
    decreases j
  {
    hide Emit, Want;
    if i < j { CodeExtends(items, sizes, i, j - 1); }
  }

  /** The bytes of each item stand at the item's module position. */
  lemma ItemInPlace(items: seq<Item>, sizes: seq<nat>, k: nat)
    requires WellFormed(items) && Consistent(items, sizes) && k < |items|
    ensures Holds(LinkedCode(items, sizes), Pos(sizes, k), ItemBytes(items, sizes, k))
  {
    hide Emit, Want, Pos;
    CodeExtends(items, sizes, k + 1, |items|);
    var code, before, bytes := LinkedCode(items, sizes), Code(items, sizes, k), ItemBytes(items, sizes, k);
    var upto := Code(items, sizes, k + 1);
    assert upto == before + bytes && |before| == Pos(sizes, k);
    assert upto <= code;
    hide Code, ItemBytes, LinkedCode, Consistent, WellFormed;
    forall i {:trigger bytes[i]} | 0 <= i < |bytes| ensures code[|before| + i] == bytes[i] {
      assert upto[|before| + i] == bytes[i];
    }
  }

  // ---- assembly ----

  lemma {:induction false} AssemblyLength(items: seq<Item>, k: nat)
    requires forall j :: 0 <= j < |items| ==> Emittable(items[j])
    requires k <= |items|
    ensures |Assembly(items[..k])| == Pos(InitialSizes(items), k)
  {
    if k > 0 {
      AssemblyLength(items, k - 1);
      assert items[..k][..k - 1] == items[..k - 1];
    }
  }

  lemma {:induction false} AssemblyPrefix(items: seq<Item>, i: nat, j: nat)
    requires forall k :: 0 <= k < |items| ==> Emittable(items[k])
    requires i <= j <= |items|
    ensures Assembly(items[..i]) <= Assembly(items[..j])
  {
    if i < j {
      AssemblyPrefix(items, i, j - 1);
      assert items[..j][..j - 1] == items[..j - 1];
    }
  }

  // ---- what the virtual machine reads ----

  function SignedByte(b: Byte): int { if b < 128 then b else b - 256 }

  // The two bytes of an operand of a long instruction.
  function Word(code: seq<Byte>, p: nat): nat
    requires p + 2 <= |code|
  {
    var low: int, high: int := code[p], code[p + 1];
    low + 0x100 * high
  }

  // read_s16
  function ReadS16(code: seq<Byte>, p: nat): int
    requires p + 2 <= |code|
  {
    var low: int, high: int := code[p], code[p + 1];
    var n := low + 0x100 * high;
    if n < 0x8000 then n else n - 0x1_0000
  }

  // read_label with three bytes: the sign bit of the last byte is dropped.
  function ReadLabel24(code: seq<Byte>, p: nat): int
    requires p + 3 <= |code|
  {
    var b0: int, b1: int, b2: int := code[p], code[p + 1], code[p + 2];
    b0 + 0x100 * b1 + 0x1_0000 * (b2 % 128)
  }

  // The displacement a jump, jump-if or exit of the given total size takes.
  function ReadDisplacement(code: seq<Byte>, pc: nat, size: nat): int
    requires 2 <= size <= 4 && pc + size <= |code|
  {
    if size == 2 then SignedByte(code[pc + 1])
    else if size == 3 then ReadS16(code, pc + 1)
    else ReadLabel24(code, pc + 1)
  }

  lemma LittleEndianUnfold(d: int)
    ensures LittleEndian(d, 1) == [d % 256]
    ensures LittleEndian(d, 2) == [d % 256, d / 256 % 256]
    ensures LittleEndian(d, 3) == [d % 256, d / 256 % 256, d / 256 / 256 % 256]
  {
    assert LittleEndian(d / 256 / 256, 1) == [d / 256 / 256 % 256];
    assert LittleEndian(d / 256, 2) == [d / 256 % 256, d / 256 / 256 % 256];
  }

  /** The displacement stands behind the opcode in two's complement, its low byte
      first. */
  lemma EmittedDisplacement(size: nat, d: int, op8: Byte, op16: Byte, op24: Byte)
    requires ControlSize(d) == Some(size)
    ensures var bytes, half := EmitControl(size, d, op8, op16, op24), HalfRange(size - 1);
            && |bytes| == size
            && bytes[0] == (if size == 2 then op8 else if size == 3 then op16 else op24)
            && var u := Unsigned(bytes[1..]);
               u < 2 * half && d == if u < half then u else u - 2 * half
  {
    var bytes := EmitControl(size, d, op8, op16, op24);
    assert bytes[1..] == LittleEndian(d, size - 1);
    UnsignedLittleEndian(d, size - 1);
    ControlSizeIsLeast(d);
    InRange(d, HalfRange(size - 1));
  }

  lemma {:induction false} UnsignedLittleEndian(d: int, n: nat)
    requires n > 0
    ensures Unsigned(LittleEndian(d, n)) == d % (2 * HalfRange(n))
    decreases n
  {
    assert LittleEndian(d, n)[1..] == LittleEndian(d / 256, n - 1);
    if n == 1 {
      assert LittleEndian(d / 256, 0) == [];
    } else {
      UnsignedLittleEndian(d / 256, n - 1);
      ModOfProduct(d, 2 * HalfRange(n - 1));
      assert 2 * HalfRange(n) == 256 * (2 * HalfRange(n - 1));
    }
  }

  lemma ModOfProduct(d: int, m: int)
    requires m > 0
    ensures d % (256 * m) == d % 256 + 256 * (d / 256 % m)
  {
    var q, r := d / 256 / m, d / 256 % m;
    assert d / 256 == m * q + r;
    assert d == 256 * m * q + (256 * r + d % 256);
    var x := 256 * r + d % 256;
    assert 0 <= x < 256 * m;
    SameRemainder(d, 256 * m, q, x);
  }

  lemma SameRemainder(d: int, m: int, q: int, x: int)
    requires m > 0 && d == m * q + x && 0 <= x < m
    ensures d % m == x
  {
    TwosComplement.DivUnique(d, m, q, x);
  }

  lemma InRange(d: int, half: int)
    requires half > 0 && -half <= d < half
    ensures d % (2 * half) == if d < 0 then d + 2 * half else d
  {
    SameRemainder(d, 2 * half, if d < 0 then -1 else 0, if d < 0 then d + 2 * half else d);
  }

  // An emitted displacement reads back, except that a negative 24-bit one does not.
  lemma DisplacementReadsBack(code: seq<Byte>, pc: nat, size: nat, d: int, op8: Byte, op16: Byte, op24: Byte)
    requires ControlSize(d) == Some(size)
    requires Holds(code, pc, EmitControl(size, d, op8, op16, op24))
    ensures ReadDisplacement(code, pc, size) == d <==> !(size == 4 && d < 0)
  {
    LittleEndianUnfold(d);
    var bytes := EmitControl(size, d, op8, op16, op24);
    assert forall i :: 1 <= i < size ==> bytes[i] == LittleEndian(d, size - 1)[i - 1];
    assert code[pc + 1] == bytes[1] && (3 <= size ==> code[pc + 2] == bytes[2])
        && (4 <= size ==> code[pc + 3] == bytes[3]);
  }

  /** End-to-end jumps: in the linked code of any module, the displacement the
      machine reads at a control or exit fixup leads to the module position of
      its label, unless the fixup needed 24 bits for a backward label. */
  lemma JumpLandsOnLabel(items: seq<Item>, sizes: seq<nat>, k: nat)
    requires WellFormed(items) && Consistent(items, sizes) && k < |items|
    requires items[k].Control? || items[k].Exit?
    ensures 2 <= sizes[k] <= 4 && Pos(sizes, k) + sizes[k] <= |LinkedCode(items, sizes)|
    ensures var pc := Pos(sizes, k);
            var t := Target(items, items[k].id);
            t < |items| &&
            (pc + ReadDisplacement(LinkedCode(items, sizes), pc, sizes[k]) == Pos(sizes, t)
             <==> !(sizes[k] == 4 && t < k))
    ensures Pos(sizes, k) + sizes[k] == Pos(sizes, k + 1)
  {
    var pc, t := Pos(sizes, k), Target(items, items[k].id);
    if t < k { PosMonotone(sizes, t, k); } else { PosMonotone(sizes, k, t); }
    JumpReadsDelta(items, sizes, k);
  }

  lemma JumpReadsDelta(items: seq<Item>, sizes: seq<nat>, k: nat)
    requires WellFormed(items) && Consistent(items, sizes) && k < |items|
    requires items[k].Control? || items[k].Exit?
    ensures Pos(sizes, k) + sizes[k] <= |LinkedCode(items, sizes)|
    ensures ControlSize(Delta(items, sizes, k)) == Some(sizes[k])
    ensures ReadDisplacement(LinkedCode(items, sizes), Pos(sizes, k), sizes[k]) == Delta(items, sizes, k)
            <==> !(sizes[k] == 4 && Delta(items, sizes, k) < 0)
  {
    ItemInPlace(items, sizes, k);
    var code, pc, d := LinkedCode(items, sizes), Pos(sizes, k), Delta(items, sizes, k);
    assert Resize(items[k], d) == ControlSize(d);
    var op8, op16, op24 :=
      if items[k].Control? then items[k].opcode8 else if items[k].lex.closedOverP then VM_EXIT_8 else VM_JUMP_8,
      if items[k].Control? then items[k].opcode16 else if items[k].lex.closedOverP then VM_EXIT_16 else VM_JUMP_16,
      if items[k].Control? then items[k].opcode24 else if items[k].lex.closedOverP then VM_EXIT_24 else VM_JUMP_24;
    assert ItemBytes(items, sizes, k) == EmitControl(sizes[k], d, op8, op16, op24);
    DisplacementReadsBack(code, pc, sizes[k], d, op8, op16, op24);
  }

  // Where vm_jump_if_supplied_8 and vm_jump_if_supplied_16 continue: the short
  // form reads an unsigned displacement, the long form has already advanced
  // over its opcode when it adds 4.
  function SuppliedNext(code: seq<Byte>, pc: nat, supplied: bool): int
    requires pc + 4 <= |code| || (pc + 3 <= |code| && code[pc] == VM_JUMP_IF_SUPPLIED_8)
  {
    if code[pc] == VM_JUMP_IF_SUPPLIED_8 then
      if supplied then pc + code[pc + 2] else pc + 3
    else
      var pc' := pc + 1;
      if supplied then pc' + ReadS16(code, pc' + 1) - 1 else pc' + 4
  }

  /** Jump-if-supplied in the linked code of any module: the argument slot reads
      back; a supplied argument leads to the label except in the short form
      backward; a missing one falls through to the next item except in the long
      form, which lands one byte too far. */
  lemma SuppliedJumpLands(items: seq<Item>, sizes: seq<nat>, k: nat)
    requires WellFormed(items) && Consistent(items, sizes) && k < |items| && items[k].Supplied?
    ensures var code, pc, t := LinkedCode(items, sizes), Pos(sizes, k), Target(items, items[k].id);
            && 3 <= sizes[k] <= 4 && pc + sizes[k] <= |code| && t < |items|
            && code[pc] == (if sizes[k] == 3 then VM_JUMP_IF_SUPPLIED_8 else VM_JUMP_IF_SUPPLIED_16)
            && code[pc + 1] == items[k].index
            && (SuppliedNext(code, pc, true) == Pos(sizes, t) <==> !(sizes[k] == 3 && Pos(sizes, t) < pc))
            && (SuppliedNext(code, pc, false) == Pos(sizes, k + 1) <==> sizes[k] == 3)
  {
    SuppliedIsEmitted(items, sizes, k);
    SuppliedReads(LinkedCode(items, sizes), Pos(sizes, k), items[k].index, Delta(items, sizes, k), sizes[k]);
  }

  lemma SuppliedIsEmitted(items: seq<Item>, sizes: seq<nat>, k: nat)
    requires WellFormed(items) && Consistent(items, sizes) && k < |items| && items[k].Supplied?
    ensures SuppliedSize(Delta(items, sizes, k)) == Some(sizes[k]) && items[k].index < 256
    ensures Holds(LinkedCode(items, sizes), Pos(sizes, k),
                  EmitSupplied(sizes[k], items[k].index, Delta(items, sizes, k)))
    ensures Delta(items, sizes, k) == Pos(sizes, Target(items, items[k].id)) - Pos(sizes, k)
    ensures Target(items, items[k].id) < |items| && Pos(sizes, k + 1) == Pos(sizes, k) + sizes[k]
  {
    ItemInPlace(items, sizes, k);
    hide Holds, LinkedCode;
    assert Want(items, sizes, k) == SuppliedSize(Delta(items, sizes, k));
  }

  lemma SuppliedReads(code: seq<Byte>, pc: nat, index: Byte, d: int, size: nat)
    requires SuppliedSize(d) == Some(size) && Holds(code, pc, EmitSupplied(size, index, d))
    ensures pc + size <= |code|
    ensures code[pc] == (if size == 3 then VM_JUMP_IF_SUPPLIED_8 else VM_JUMP_IF_SUPPLIED_16) && code[pc + 1] == index
    ensures SuppliedNext(code, pc, true) == pc + d <==> !(size == 3 && d < 0)
    ensures SuppliedNext(code, pc, false) == pc + size <==> size == 3
  {
    LittleEndianUnfold(d);
    var bytes := EmitSupplied(size, index, d);
    assert code[pc] == bytes[0] && code[pc + 1] == bytes[1] && code[pc + 2] == bytes[2];
    assert size == 4 ==> code[pc + 3] == bytes[3];
  }

  /** The index of the argument stands behind the opcode of a jump-if-supplied. */
  lemma SuppliedIndex(items: seq<Item>, sizes: seq<nat>, k: nat)
    requires WellFormed(items) && Consistent(items, sizes) && k < |items| && items[k].Supplied?
    ensures |sizes| == |items| && 3 <= sizes[k] <= 4 && Pos(sizes, k) + sizes[k] <= |LinkedCode(items, sizes)|
    ensures LinkedCode(items, sizes)[Pos(sizes, k) + 1] == items[k].index
  {
    ItemInPlace(items, sizes, k);
    hide LinkedCode, Pos, Target, LittleEndian;
    assert Want(items, sizes, k) == Some(sizes[k]);
    var bytes := ItemBytes(items, sizes, k);
    assert LinkedCode(items, sizes)[Pos(sizes, k) + 1] == bytes[1];
  }
}
