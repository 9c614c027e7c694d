/** The machine that fetches and decodes bytes, and the proof that on linked code
    it does what the symbolic machine does on the items. */
module ByteMachine {
  import opened Options
  import opened Instructions
  import opened Relaxation
  import opened Emission
  import opened Source
  import opened VirtualMachine
  import opened SymbolicMachine

  // How many operands bytecode_vm and long_dispatch read after an opcode of this model.
  function Operands(op: Byte): Option<nat> {
    if op in {VM_NIL, VM_PUSH, VM_POP, VM_DUP, VM_PUSH_VALUES, VM_POP_VALUES, VM_RETURN} then Some(0)
    else if op in {VM_REF, VM_CONST, VM_CALL, VM_CALL_RECEIVE_ONE, VM_SET, VM_BIND_REQUIRED_ARGS,
                   VM_CHECK_ARG_COUNT_LE, VM_CHECK_ARG_COUNT_EQ, VM_SAVE_SP, VM_RESTORE_SP,
                   VM_CALLED_FDEFINITION} then Some(1)
    else if op in {VM_CALL_RECEIVE_FIXED, VM_BIND} then Some(2)
    else None
  }

  datatype Decoded = Decoded(ins: Instruction, length: nat)

  // The instruction at pc, unless it is a jump or outside this model.
  function Decode(code: seq<Byte>, pc: nat): Option<Decoded> {
    if pc >= |code| then None
    else if code[pc] != VM_LONG then
      match Operands(code[pc])
      case None => None
      case Some(n) =>
        if pc + 1 + n > |code| then None
        else if n == 0 then Some(Decoded(I0(code[pc]), 1))
        else if n == 1 then Some(Decoded(I1(code[pc], code[pc + 1]), 2))
        else Some(Decoded(I2(code[pc], code[pc + 1], code[pc + 2]), 3))
    else if pc + 1 >= |code| then None
    else
      match Operands(code[pc + 1])
      case None => None
      case Some(n) =>
        if n == 0 || pc + 2 + 2 * n > |code| then None
        else if n == 1 then Some(Decoded(I1(code[pc + 1], Word(code, pc + 2)), 4))
        else Some(Decoded(I2(code[pc + 1], Word(code, pc + 2), Word(code, pc + 4)), 6))
  }

  // An instruction whose opcode takes the operands it is given.
  predicate WellShaped(ins: Instruction) {
    Operands(ins.opcode) == Some(match ins case I0(_) => 0 case I1(_, _) => 1 case I2(_, _, _) => 2)
  }

  /** What assemble0, assemble1 and assemble2 emit decodes to the instruction
      they were given, short or long, and to exactly the emitted length. */
  lemma EncodedDecodes(code: seq<Byte>, pc: nat, ins: Instruction)
    requires WellShaped(ins) && Encodable(ins) && Holds(code, pc, Encode(ins))
    ensures Decode(code, pc) == Some(Decoded(ins, |Encode(ins)|))
  {
    var bytes := Encode(ins);
    assert code[pc] == bytes[0];
    assert |bytes| > 1 ==> code[pc + 1] == bytes[1];
    assert |bytes| > 2 ==> code[pc + 2] == bytes[2];
    assert |bytes| > 3 ==> code[pc + 3] == bytes[3];
    assert |bytes| > 4 ==> code[pc + 4] == bytes[4] && code[pc + 5] == bytes[5];
  }

  function EncodeAll(stream: seq<Instruction>): seq<Byte>
    requires forall ins :: ins in stream ==> Encodable(ins)
  {
    if stream == [] then [] else Encode(stream[0]) + EncodeAll(stream[1..])
  }

  // Decoding from pc to the end of the code.
  function DecodeAll(code: seq<Byte>, pc: nat): Option<seq<Instruction>>
    decreases |code| - pc
  {
    if pc >= |code| then Some([])
    else
      match Decode(code, pc)
      case None => None
      case Some(d) =>
        if d.length == 0 then None
        else
          match DecodeAll(code, pc + d.length)
          case None => None
          case Some(rest) => Some([d.ins] + rest)
  }

  /** Any stream of instructions, short and long mixed, decodes to itself. */
  lemma {:induction false} StreamRoundTrip(before: seq<Byte>, stream: seq<Instruction>)
    requires forall ins :: ins in stream ==> WellShaped(ins) && Encodable(ins)
    ensures DecodeAll(before + EncodeAll(stream), |before|) == Some(stream)
    decreases |stream|
  {
    hide Encode, Decode, Operands, WellShaped, Encodable;
    if stream != [] {
      var first, rest := Encode(stream[0]), EncodeAll(stream[1..]);
      var code := before + (first + rest);
      assert code == (before + first) + rest;
      StreamRoundTrip(before + first, stream[1..]);
      forall i {:trigger first[i]} | 0 <= i < |first| ensures code[|before| + i] == first[i] { }
      EncodedDecodes(code, |before|, stream[0]);
      assert [stream[0]] + stream[1..] == stream;
    }
  }

  datatype Point = Point(pc: int, state: State)

  predicate IsJump(op: Byte) { VM_JUMP_8 <= op <= VM_JUMP_24 }

  predicate IsJumpIf(op: Byte) { VM_JUMP_IF_8 <= op <= VM_JUMP_IF_24 }

  function JumpSize(op: Byte): nat {
    if op == VM_JUMP_8 || op == VM_JUMP_IF_8 then 2
    else if op == VM_JUMP_16 || op == VM_JUMP_IF_16 then 3
    else 4
  }

  // One turn of the loop of bytecode_vm.
  function ByteStep(code: seq<Byte>, image: Image, c: Point): Option<Point> {
    if !(0 <= c.pc < |code|) then None
    else if IsJump(code[c.pc]) then
      var size := JumpSize(code[c.pc]);
      if c.pc + size > |code| then None
      else Some(Point(c.pc + ReadDisplacement(code, c.pc, size), c.state))
    else if IsJumpIf(code[c.pc]) then
      var size := JumpSize(code[c.pc]);
      if c.pc + size > |code| || c.state.stack == [] then None
      else
        Some(Point(if TopOf(c.state) != Nil then c.pc + ReadDisplacement(code, c.pc, size) else c.pc + size,
                   Dropped(c.state, 1)))
    else
      match Decode(code, c.pc)
      case None => None
      case Some(d) =>
        var s := Execute(image, d.ins, c.state);
        if s == None then None else Some(Point(c.pc + d.length, s.value))
  }

  /** The two checks of the argument count: a call passes the one for equality with
      exactly n arguments and the one for a maximum with at most n, and goes on
      behind the check with nothing changed. */
  lemma ArgumentChecks(code: seq<Byte>, image: Image, pc: nat, s: State, n: nat)
    requires n < 0x1_0000
    ensures Holds(code, pc, Encode(I1(VM_CHECK_ARG_COUNT_EQ, n))) ==>
              ByteStep(code, image, Point(pc, s))
              == if |image.args| == n then Some(Point(pc + if n < 256 then 2 else 4, s)) else None
    ensures Holds(code, pc, Encode(I1(VM_CHECK_ARG_COUNT_LE, n))) ==>
              ByteStep(code, image, Point(pc, s))
              == if |image.args| <= n then Some(Point(pc + if n < 256 then 2 else 4, s)) else None
  {
    var eq, le := I1(VM_CHECK_ARG_COUNT_EQ, n), I1(VM_CHECK_ARG_COUNT_LE, n);
    if Holds(code, pc, Encode(eq)) { EncodedDecodes(code, pc, eq); }
    if Holds(code, pc, Encode(le)) { EncodedDecodes(code, pc, le); }
    hide Decode, Operands;
    if Holds(code, pc, Encode(eq)) { NotAJump(code, pc) by { assert Decode(code, pc).Some?; } }
    if Holds(code, pc, Encode(le)) { NotAJump(code, pc) by { assert Decode(code, pc).Some?; } }
  }

  /** A call that receives a fixed number of values pops the function and its
      arguments and pushes so many of the values, nil for those that are missing. */
  lemma ReceivesFixed(image: Image, s: State, rest: seq<Value>, name: Name, args: seq<Value>, b: nat)
    requires s.stack == rest + [FunctionCell(name)] + args
    ensures var history := s.history + [Event(name, args)];
            var mv, t := image.world.answer(history), Execute(image, I2(VM_CALL_RECEIVE_FIXED, |args|, b), s);
            && t.Some? && t.value.mv == mv && t.value.history == history && t.value.regs == s.regs
            && |t.value.stack| == |rest| + b && t.value.stack[..|rest|] == rest
            && forall i :: 0 <= i < b ==> t.value.stack[|rest| + i] == if i < |mv| then mv[i] else Nil
  {
    var n := |s.stack|;
    assert s.stack[n - |args| - 1] == FunctionCell(name) && s.stack[n - |args|..] == args;
    assert s.stack[..n - (|args| + 1)] == rest;
  }

  function ByteSteps(code: seq<Byte>, image: Image, c: Point, n: nat): Option<Point>
    decreases n
  {
    if n == 0 then Some(c)
    else
      var d := ByteStep(code, image, c);
      if d == None then None else ByteSteps(code, image, d.value, n - 1)
  }

  ghost predicate ByteReaches(code: seq<Byte>, image: Image, c: Point, d: Point) {
    exists n: nat :: ByteSteps(code, image, c, n) == Some(d)
  }

  // ---- simulation ----

  // An item that this model's machine can run, and no backward 24-bit jump.
  ghost predicate Runnable(items: seq<Item>, sizes: seq<nat>, k: nat)
    requires |sizes| == |items| && k < |items|
  {
    && (EffectOf(items[k]).Run? ==> WellShaped(EffectOf(items[k]).ins))
    && ((items[k].Control? || items[k].Exit?) && sizes[k] == 4 ==> k <= Target(items, items[k].id))
  }

  // Every item that n steps from configuration c come to is runnable.
  ghost predicate RunnableRun(p: Program, sizes: seq<nat>, c: Config, n: nat)
    requires |sizes| == |p.items|
    decreases n
  {
    n == 0 || c.pc >= |p.items| ||
    (Runnable(p.items, sizes, c.pc) && (Step(p, c).Some? ==> RunnableRun(p, sizes, Step(p, c).value, n - 1)))
  }

  /** An item that runs an instruction is emitted as that instruction. */
  lemma RunBytes(items: seq<Item>, sizes: seq<nat>, k: nat)
    requires WellFormed(items) && Consistent(items, sizes) && k < |items| && EffectOf(items[k]).Run?
    ensures Encodable(EffectOf(items[k]).ins)
    ensures ItemBytes(items, sizes, k) == Encode(EffectOf(items[k]).ins) && sizes[k] == |Encode(EffectOf(items[k]).ins)|
  {
    hide Pos, Target;
    assert Want(items, sizes, k) == Some(sizes[k]);
  }

  lemma SkipBytes(items: seq<Item>, sizes: seq<nat>, k: nat)
    requires WellFormed(items) && Consistent(items, sizes) && k < |items| && EffectOf(items[k]).Skip?
    ensures sizes[k] == 0
  {
    hide Pos, Target;
    assert Want(items, sizes, k) == Some(sizes[k]);
  }

  // The opcode that a jump is emitted with.
  lemma JumpBytes(items: seq<Item>, sizes: seq<nat>, k: nat)
    requires WellFormed(items) && Consistent(items, sizes) && k < |items|
    requires EffectOf(items[k]).Goto? || EffectOf(items[k]).GotoIf?
    ensures 2 <= sizes[k] <= 4 && Pos(sizes, k) + sizes[k] <= |LinkedCode(items, sizes)|
    ensures LinkedCode(items, sizes)[Pos(sizes, k)]
            == (if EffectOf(items[k]).Goto? then VM_JUMP_8 else VM_JUMP_IF_8) + (sizes[k] - 2)
  {
    ItemInPlace(items, sizes, k);
    hide LinkedCode, Pos, Target, LittleEndian;
    assert Want(items, sizes, k) == Some(sizes[k]);
    var bytes := ItemBytes(items, sizes, k);
    assert LinkedCode(items, sizes)[Pos(sizes, k) + 0] == bytes[0];
  }

  /** Refinement: one step of the symbolic machine on the items is at most one
      step of the machine on the linked bytes. */
  lemma StepRefines(p: Program, sizes: seq<nat>, c: Config, d: Config)
    requires WellFormed(p.items) && Consistent(p.items, sizes) && |sizes| == |p.items|
    requires Step(p, c) == Some(d) && Runnable(p.items, sizes, c.pc)
    ensures c.pc < |p.items| && d.pc <= |p.items|
    ensures var code, from, to :=
              LinkedCode(p.items, sizes), Point(Pos(sizes, c.pc), c.state), Point(Pos(sizes, d.pc), d.state);
            ByteStep(code, p.image, from) == Some(to) || from == to
  {
    hide LinkedCode, Consistent, WellFormed, Decode, ReadDisplacement, EffectOf, Execute, Encode, Operands, Encodable;
    var k := c.pc;
    var code := LinkedCode(p.items, sizes);
    match EffectOf(p.items[k])
    case Run(ins) => RunRefines(p, sizes, c, d);
    case Skip => SkipBytes(p.items, sizes, k);
    case Goto(id) => JumpRefines(p, sizes, c, d);
    case GotoIf(id) => JumpRefines(p, sizes, c, d);
    case Unmodelled =>
  }

  lemma RunRefines(p: Program, sizes: seq<nat>, c: Config, d: Config)
    requires WellFormed(p.items) && Consistent(p.items, sizes) && |sizes| == |p.items|
    requires c.pc < |p.items| && Step(p, c) == Some(d) && EffectOf(p.items[c.pc]).Run?
    requires Runnable(p.items, sizes, c.pc)
    ensures d.pc == c.pc + 1
    ensures ByteStep(LinkedCode(p.items, sizes), p.image, Point(Pos(sizes, c.pc), c.state))
            == Some(Point(Pos(sizes, d.pc), d.state))
  {
    hide *;
    RunStep(p, c, d);
    SameLength(p.items, sizes);
    var k, ins := c.pc, EffectOf(p.items[c.pc]).ins;
    var code, pc := LinkedCode(p.items, sizes), Pos(sizes, k);
    ItemInPlace(p.items, sizes, k);
    RunBytes(p.items, sizes, k);
    RunnableMeans(p.items, sizes, k);
    EncodedDecodes(code, pc, ins);
    DecodedStep(code, p.image, pc, c.state, Decoded(ins, |Encode(ins)|), d.state);
    PosNext(sizes, k);
  }

  lemma RunStep(p: Program, c: Config, d: Config)
    requires Step(p, c) == Some(d) && c.pc < |p.items| && EffectOf(p.items[c.pc]).Run?
    ensures d.pc == c.pc + 1 && Execute(p.image, EffectOf(p.items[c.pc]).ins, c.state) == Some(d.state)
  {
    hide Execute, EffectOf;
  }

  lemma PosNext(sizes: seq<nat>, k: nat)
    requires k < |sizes|
    ensures Pos(sizes, k + 1) == Pos(sizes, k) + sizes[k]
  {
  }

  lemma RunnableMeans(items: seq<Item>, sizes: seq<nat>, k: nat)
    requires |sizes| == |items| && k < |items| && Runnable(items, sizes, k)
    ensures EffectOf(items[k]).Run? ==> WellShaped(EffectOf(items[k]).ins)
    ensures (items[k].Control? || items[k].Exit?) && sizes[k] == 4 ==> k <= Target(items, items[k].id)
  {
    hide WellShaped, EffectOf;
  }

  lemma DecodedStep(code: seq<Byte>, image: Image, pc: nat, s: State, i: Decoded, s': State)
    requires Decode(code, pc) == Some(i) && Execute(image, i.ins, s) == Some(s')
    ensures ByteStep(code, image, Point(pc, s)) == Some(Point(pc + i.length, s'))
  {
    NotAJump(code, pc);
    hide Execute, Decode, IsJump, IsJumpIf;
  }

  lemma NotAJump(code: seq<Byte>, pc: nat)
    requires Decode(code, pc).Some?
    ensures pc < |code| && !IsJump(code[pc]) && !IsJumpIf(code[pc])
  {
  }

  lemma JumpRefines(p: Program, sizes: seq<nat>, c: Config, d: Config)
    requires WellFormed(p.items) && Consistent(p.items, sizes) && |sizes| == |p.items|
    requires c.pc < |p.items| && Step(p, c) == Some(d) && Runnable(p.items, sizes, c.pc)
    requires (EffectOf(p.items[c.pc]).Goto? || EffectOf(p.items[c.pc]).GotoIf?)
    ensures d.pc <= |p.items|
    ensures ByteStep(LinkedCode(p.items, sizes), p.image, Point(Pos(sizes, c.pc), c.state))
            == Some(Point(Pos(sizes, d.pc), d.state))
  {
    hide *;
    var k := c.pc;
    JumpStep(p, c, d);
    SameLength(p.items, sizes);
    JumpBytes(p.items, sizes, k);
    JumpLandsOnLabel(p.items, sizes, k);
    RunnableMeans(p.items, sizes, k);
    var goto_ := EffectOf(p.items[k]).Goto?;
    JumpingStep(LinkedCode(p.items, sizes), p.image, Pos(sizes, k), c.state, goto_, sizes[k]);
  }

  lemma JumpStep(p: Program, c: Config, d: Config)
    requires Step(p, c) == Some(d) && c.pc < |p.items|
    requires EffectOf(p.items[c.pc]).Goto? || EffectOf(p.items[c.pc]).GotoIf?
    ensures p.items[c.pc].Control? || p.items[c.pc].Exit?
    ensures var t := Target(p.items, p.items[c.pc].id);
            if EffectOf(p.items[c.pc]).Goto? then d == At(t, c.state)
            else c.state.stack != [] && d == At(if TopOf(c.state) != Nil then t else c.pc + 1, Dropped(c.state, 1))
  {
    hide Execute;
  }

  // What the machine does at a jump of a given size.
  lemma JumpingStep(code: seq<Byte>, image: Image, pc: nat, s: State, goto_: bool, size: nat)
    requires 2 <= size <= 4 && pc + size <= |code|
    requires code[pc] == (if goto_ then VM_JUMP_8 else VM_JUMP_IF_8) + (size - 2)
    ensures var t := pc + ReadDisplacement(code, pc, size);
            if goto_ then ByteStep(code, image, Point(pc, s)) == Some(Point(t, s))
            else s.stack != [] ==>
                   ByteStep(code, image, Point(pc, s))
                   == Some(Point(if TopOf(s) != Nil then t else pc + size, Dropped(s, 1)))
  {
    hide ReadDisplacement, Decode, Execute;
  }

  /** Refinement over whole runs. */
  lemma {:induction false} RunRefinesAll(p: Program, sizes: seq<nat>, c: Config, d: Config, n: nat)
    requires WellFormed(p.items) && Consistent(p.items, sizes) && |sizes| == |p.items|
    requires Steps(p, c, n) == Some(d) && c.pc <= |p.items| && RunnableRun(p, sizes, c, n)
    ensures d.pc <= |p.items|
    ensures ByteReaches(LinkedCode(p.items, sizes), p.image, Point(Pos(sizes, c.pc), c.state),
              Point(Pos(sizes, d.pc), d.state))
    decreases n
  {
    hide Step, ByteStep, LinkedCode, Consistent, WellFormed, Runnable;
    var code, from := LinkedCode(p.items, sizes), Point(Pos(sizes, c.pc), c.state);
    if n == 0 {
      assert ByteSteps(code, p.image, from, 0) == Some(from);
    } else {
      var e := Step(p, c).value;
      StepsInside(p, c);
      StepRefines(p, sizes, c, e);
      RunRefinesAll(p, sizes, e, d, n - 1);
      var mid, to := Point(Pos(sizes, e.pc), e.state), Point(Pos(sizes, d.pc), d.state);
      if from != mid {
        var m: nat :| ByteSteps(code, p.image, mid, m) == Some(to);
        assert ByteSteps(code, p.image, from, m + 1) == Some(to);
      }
    }
  }

  lemma StepsInside(p: Program, c: Config)
    ensures Step(p, c).Some? ==> c.pc < |p.items|
  {
  }

  lemma SameLength(items: seq<Item>, sizes: seq<nat>)
    requires WellFormed(items) && Consistent(items, sizes)
    ensures |sizes| == |items|
  {
  }
}
