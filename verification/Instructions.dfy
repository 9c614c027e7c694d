/** The instruction stream that the bytecode compiler emits: opcodes, operand
    encodings, labels and fixups, and the number of bytes each of them takes. */
module Instructions {

  import opened Options

  type Byte = x: int | 0 <= x < 256

  const VM_REF: Byte := 0
  const VM_CONST: Byte := 1
  const VM_CALL: Byte := 3
  const VM_CALL_RECEIVE_ONE: Byte := 4
  const VM_CALL_RECEIVE_FIXED: Byte := 5
  const VM_BIND: Byte := 6
  const VM_SET: Byte := 7
  const VM_MAKE_CELL: Byte := 8
  const VM_CELL_REF: Byte := 9
  const VM_CELL_SET: Byte := 10
  const VM_RETURN: Byte := 14
  const VM_BIND_REQUIRED_ARGS: Byte := 15
  const VM_PARSE_KEY_ARGS: Byte := 19
  const VM_JUMP_8: Byte := 20
  const VM_JUMP_16: Byte := 21
  const VM_JUMP_24: Byte := 22
  const VM_JUMP_IF_8: Byte := 23
  const VM_JUMP_IF_16: Byte := 24
  const VM_JUMP_IF_24: Byte := 25
  const VM_JUMP_IF_SUPPLIED_8: Byte := 26
  const VM_JUMP_IF_SUPPLIED_16: Byte := 27
  const VM_CHECK_ARG_COUNT_LE: Byte := 28
  const VM_CHECK_ARG_COUNT_EQ: Byte := 30
  const VM_PUSH_VALUES: Byte := 31
  const VM_POP_VALUES: Byte := 33
  const VM_SAVE_SP: Byte := 37
  const VM_RESTORE_SP: Byte := 38
  const VM_ENTRY: Byte := 39
  const VM_EXIT_8: Byte := 40
  const VM_EXIT_16: Byte := 41
  const VM_EXIT_24: Byte := 42
  const VM_ENTRY_CLOSE: Byte := 43
  const VM_NIL: Byte := 54
  const VM_PUSH: Byte := 56
  const VM_POP: Byte := 57
  const VM_DUP: Byte := 58
  const VM_CALLED_FDEFINITION: Byte := 60
  const VM_ENCELL: Byte := 63
  const VM_LONG: Byte := 255

  // The numbers that the compiler and the machine share.
  lemma OpcodeNumbers()
    ensures VM_REF == 0 && VM_CONST == 1 && VM_CALL == 3 && VM_CALL_RECEIVE_ONE == 4 && VM_CALL_RECEIVE_FIXED == 5
    ensures VM_BIND == 6 && VM_SET == 7 && VM_MAKE_CELL == 8 && VM_CELL_REF == 9 && VM_CELL_SET == 10
    ensures VM_RETURN == 14 && VM_BIND_REQUIRED_ARGS == 15 && VM_PARSE_KEY_ARGS == 19
    ensures VM_JUMP_8 == 20 && VM_JUMP_16 == 21 && VM_JUMP_24 == 22
    ensures VM_JUMP_IF_8 == 23 && VM_JUMP_IF_16 == 24 && VM_JUMP_IF_24 == 25
    ensures VM_JUMP_IF_SUPPLIED_8 == 26 && VM_JUMP_IF_SUPPLIED_16 == 27
    ensures VM_CHECK_ARG_COUNT_LE == 28 && VM_CHECK_ARG_COUNT_EQ == 30
    ensures VM_PUSH_VALUES == 31 && VM_POP_VALUES == 33 && VM_SAVE_SP == 37 && VM_RESTORE_SP == 38
    ensures VM_ENTRY == 39 && VM_EXIT_8 == 40 && VM_EXIT_16 == 41 && VM_EXIT_24 == 42 && VM_ENTRY_CLOSE == 43
    ensures VM_NIL == 54 && VM_PUSH == 56 && VM_POP == 57 && VM_DUP == 58
    ensures VM_CALLED_FDEFINITION == 60 && VM_ENCELL == 63 && VM_LONG == 255
  {
  }

  // An instruction as assemble0, assemble1 and assemble2 receive it.
  datatype Instruction =
    | I0(opcode: Byte)
    | I1(opcode: Byte, a: nat)
    | I2(opcode: Byte, a: nat, b: nat)

  // What a fixup knows of a lexical variable or dynamic environment when the
  // module is linked.
  datatype Lexical = Lexical(frameIndex: nat, closedOverP: bool, setP: bool) {
    predicate Indirect() { closedOverP && setP }
  }

  // One emission into a function: an instruction, a label or a fixup.
  datatype Item =
    | Ins(ins: Instruction)
    | Mark(id: nat)
    | Control(id: nat, opcode8: Byte, opcode16: Byte, opcode24: Byte)
    | Supplied(id: nat, index: nat)
    | Exit(id: nat, lex: Lexical)
    | LexRef(lex: Lexical, opcode: Byte)
    | Encage(lex: Lexical)
    | LexSet(lex: Lexical)
    | Entry(lex: Lexical)
    | RestoreSp(lex: Lexical)
    | EntryClose(lex: Lexical)
  {
    predicate IsLabelFixup() { Control? || Supplied? || Exit? }
  }

  predicate Encodable(ins: Instruction) {
    match ins
    case I0(_) => true
    case I1(_, a) => a < 0x1_0000
    case I2(_, a, b) => a < 0x1_0000 && b < 0x1_0000
  }

  function Low(n: nat): Byte { n % 256 }

  function High(n: nat): Byte
    requires n < 0x1_0000
  {
    n / 256
  }

  // assemble0, assemble1 and assemble2.
  function Encode(ins: Instruction): (bytes: seq<Byte>)
    requires Encodable(ins)
    ensures 1 <= |bytes| <= 6
  {
    match ins
    case I0(op) => [op]
    case I1(op, a) =>
      if a < 256 then [op, a] else [VM_LONG, op, Low(a), High(a)]
    case I2(op, a, b) =>
      if a < 256 && b < 256 then [op, a, b]
      else [VM_LONG, op, Low(a), High(a), Low(b), High(b)]
  }

  // The number that bytes stand for, the low one first.
  function Unsigned(bytes: seq<Byte>): nat {
    if bytes == [] then 0
    else
      var low: int := bytes[0];
      low + 256 * Unsigned(bytes[1..])
  }

  /** Operands up to 255 take a byte each; longer ones take two, the low byte
      first, behind a vm_long. */
  lemma OperandBytes(op: Byte, a: nat, b: nat)
    requires a < 0x1_0000 && b < 0x1_0000
    ensures var bytes := Encode(I1(op, a));
            if a < 256 then bytes == [op, a]
            else |bytes| == 4 && bytes[..2] == [255, op] && Unsigned(bytes[2..]) == a
    ensures var bytes := Encode(I2(op, a, b));
            if a < 256 && b < 256 then bytes == [op, a, b]
            else |bytes| == 6 && bytes[..2] == [255, op] && Unsigned(bytes[2..4]) == a && Unsigned(bytes[4..]) == b
  {
    UnsignedWord(a);
    UnsignedWord(b);
    var one, two := Encode(I1(op, a)), Encode(I2(op, a, b));
    if a >= 256 { assert one[..2] == [VM_LONG, op] && one[2..] == [Low(a), High(a)]; }
    if a >= 256 || b >= 256 {
      assert two[..2] == [VM_LONG, op] && two[2..4] == [Low(a), High(a)] && two[4..] == [Low(b), High(b)];
    }
  }

  lemma UnsignedWord(a: nat)
    requires a < 0x1_0000
    ensures Unsigned([Low(a), High(a)]) == a
  {
    assert [Low(a), High(a)][1..] == [High(a)] && [High(a)][1..] == [];
    assert Unsigned([High(a)]) == High(a);
  }

  // Limits that the source's types and its SIMPLE_ERRORs enforce before an item is emitted.
  predicate Emittable(item: Item) {
    match item
    case Ins(ins) => Encodable(ins)
    case Mark(_) => true
    case Control(_, _, _, _) => true
    case Supplied(_, index) => index < 256
    case _ => item.lex.frameIndex < 0x1_0000
  }

  // The bytes reserved for an item when it is emitted.
  function InitialSize(item: Item): nat
    requires Emittable(item)
  {
    match item
    case Ins(ins) => |Encode(ins)|
    case Control(_, _, _, _) => 2
    case Supplied(_, _) => 3
    case Exit(_, _) => 2
    case _ => 0
  }

  // resize_control_label_fixup; None stands for the error it signals.
  function ControlSize(delta: int): (size: Option<nat>) {
    if -0x80 <= delta <= 0x7f then Some(2)
    else if -0x8000 <= delta <= 0x7fff then Some(3)
    else if -0x80_0000 <= delta <= 0x7f_ffff then Some(4)
    else None
  }

  // JumpIfSuppliedFixup_O::resize
  function SuppliedSize(delta: int): (size: Option<nat>) {
    if -0x80 <= delta <= 0x7f then Some(3)
    else if -0x8000 <= delta <= 0x7fff then Some(4)
    else None
  }

  // Half of the numbers that so many bytes can hold.
  function HalfRange(bytes: nat): (half: int)
    requires bytes > 0
    ensures half > 0
  {
    if bytes == 1 then 128 else 256 * HalfRange(bytes - 1)
  }

  // A distance fits in so many bytes in two's complement.
  predicate Fits(distance: int, bytes: nat)
    requires bytes > 0
  {
    -HalfRange(bytes) <= distance < HalfRange(bytes)
  }

  // A label fixup of this size holds this distance: behind the opcode, and for a
  // jump-if-supplied behind the index of the argument as well.
  predicate Spans(item: Item, size: nat, distance: int)
    requires item.IsLabelFixup()
  {
    if item.Supplied? then 3 <= size <= 4 && Fits(distance, size - 2)
    else 2 <= size <= 4 && Fits(distance, size - 1)
  }

  lemma Ranges()
    ensures HalfRange(1) == 0x80 && HalfRange(2) == 0x8000 && HalfRange(3) == 0x80_0000
  {
  }

  /** A jump gets the fewest bytes that its distance fits in, and an error is
      signalled exactly for a distance that does not fit in 24 bits. */
  lemma ControlSizeIsLeast(distance: int)
    ensures ControlSize(distance).None? <==> !(-0x80_0000 <= distance < 0x80_0000)
    ensures ControlSize(distance).Some? ==>
              var s := ControlSize(distance).value;
              && 2 <= s <= 4 && Fits(distance, s - 1)
              && forall bytes: nat :: 0 < bytes < s - 1 ==> !Fits(distance, bytes)
  {
    Ranges();
  }

  /** The same for a jump-if-supplied, whose distance has at most 16 bits. */
  lemma SuppliedSizeIsLeast(distance: int)
    ensures SuppliedSize(distance).None? <==> !(-0x8000 <= distance < 0x8000)
    ensures SuppliedSize(distance).Some? ==>
              var s := SuppliedSize(distance).value;
              && 3 <= s <= 4 && Fits(distance, s - 2)
              && forall bytes: nat :: 0 < bytes < s - 2 ==> !Fits(distance, bytes)
  {
    Ranges();
  }

  // The resize method of every fixup class; delta is read by label fixups only.
  function Resize(item: Item, delta: int): (size: Option<nat>)
    requires Emittable(item)
  {
    match item
    case Ins(_) => Some(InitialSize(item))
    case Mark(_) => Some(0)
    case Control(_, _, _, _) => ControlSize(delta)
    case Exit(_, _) => ControlSize(delta)
    case Supplied(_, _) => SuppliedSize(delta)
    case LexRef(lex, _) => Some(if lex.Indirect() then 1 else 0)
    case Encage(lex) =>
      Some(if !lex.Indirect() then 0 else if lex.frameIndex < 256 then 2 else 4)
    case LexSet(lex) =>
      Some(if lex.frameIndex < 256 then if lex.Indirect() then 3 else 2
           else if lex.Indirect() then 5 else 4)
    case Entry(lex) => Some(if lex.frameIndex < 256 then 2 else 4)
    case RestoreSp(lex) => Some(if lex.frameIndex < 256 then 2 else 4)
    case EntryClose(lex) => Some(if lex.closedOverP then 1 else 0)
  }

  // The largest size an item can be given.
  function MaxSize(item: Item): nat
    requires Emittable(item)
  {
    if item.Ins? || item.Mark? then InitialSize(item) else 5
  }

  /** The resize method of a label fixup gives the least size that spans the
      distance, and an error exactly when none does. */
  lemma ResizeIsLeast(item: Item, distance: int)
    requires item.IsLabelFixup() && Emittable(item)
    ensures Resize(item, distance).None? <==> forall size: nat :: !Spans(item, size, distance)
    ensures Resize(item, distance).Some? ==>
              && Spans(item, Resize(item, distance).value, distance)
              && forall size: nat :: Spans(item, size, distance) ==> Resize(item, distance).value <= size
  {
    Ranges();
    ControlSizeIsLeast(distance);
    SuppliedSizeIsLeast(distance);
    assert Resize(item, distance).Some? ==> Spans(item, Resize(item, distance).value, distance);
    forall size: nat | Spans(item, size, distance)
      ensures Resize(item, distance).Some? && Resize(item, distance).value <= size
    {
      var bytes := if item.Supplied? then size - 2 else size - 1;
      assert Fits(distance, bytes) && (bytes == 1 || bytes == 2 || bytes == 3);
    }
  }
}
