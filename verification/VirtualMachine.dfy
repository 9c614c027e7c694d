/** The machine that runs bytecode: the effect of each instruction on the stack,
    the registers of the frame and the multiple-values vector. */
module VirtualMachine {
  import opened Options
  import opened Instructions
  import opened Source

  // A register holds a Lisp object or a saved stack pointer.
  datatype Slot = Val(value: Value) | Sp(depth: nat)

  // What does not change while a function runs: the literals of its module, the
  // arguments it was called with, and what the functions it calls answer.
  datatype Image = Image(literals: seq<Value>, args: seq<Value>, world: World)

  datatype State = State(stack: seq<Value>, regs: seq<Slot>, mv: seq<Value>, history: seq<Event>)

  function NthValue(vs: seq<Value>, i: nat): Value { if i < |vs| then vs[i] else Nil }

  function Pushed(s: State, v: Value): State { s.(stack := s.stack + [v]) }

  function TopOf(s: State): Value
    requires s.stack != []
  {
    s.stack[|s.stack| - 1]
  }

  function Dropped(s: State, n: nat): State
    requires n <= |s.stack|
  {
    s.(stack := s.stack[..|s.stack| - n])
  }

  // setreg and copytoreg
  function WithRegs(s: State, base: nat, vs: seq<Value>): (s': State)
    requires base + |vs| <= |s.regs|
    ensures |s'.regs| == |s.regs|
  {
    s.(regs := seq(|s.regs|, i requires 0 <= i < |s.regs| =>
                     if base <= i < base + |vs| then Val(vs[i - base]) else s.regs[i]))
  }

  // The call that an instruction with nargs arguments makes: the function cell
  // lies below the arguments, and all of them leave the stack.
  function Called(world: World, s: State, nargs: nat): Option<State> {
    if |s.stack| < nargs + 1 || !s.stack[|s.stack| - nargs - 1].FunctionCell? then None
    else
      var history := s.history + [Event(s.stack[|s.stack| - nargs - 1].name, s.stack[|s.stack| - nargs..])];
      Some(Dropped(s, nargs + 1).(mv := world.answer(history), history := history))
  }

  // Every instruction that neither jumps nor returns. None stands for an error that
  // the instruction signals, for an instruction outside this model, and for an
  // access out of bounds.
  function Execute(image: Image, ins: Instruction, s: State): Option<State> {
    match ins
    case I0(op) =>
      if op == VM_NIL then Some(Pushed(s, Nil))
      else if op == VM_PUSH then Some(Pushed(s, NthValue(s.mv, 0)))
      else if op == VM_POP then
        if s.stack == [] then None else Some(Dropped(s, 1).(mv := [TopOf(s)]))
      else if op == VM_DUP then
        if s.stack == [] then None else Some(Pushed(s, TopOf(s)))
      else if op == VM_PUSH_VALUES then
        Some(s.(stack := s.stack + s.mv + [Fixnum(|s.mv|)]))
      else if op == VM_POP_VALUES then
        if s.stack == [] || !TopOf(s).Fixnum? || !(0 <= TopOf(s).n < |s.stack|) then None
        else
          var n := TopOf(s).n;
          Some(Dropped(s, n + 1).(mv := s.stack[|s.stack| - 1 - n..|s.stack| - 1]))
      else None
    case I1(op, n) =>
      if op == VM_REF then
        if n < |s.regs| && s.regs[n].Val? then Some(Pushed(s, s.regs[n].value)) else None
      else if op == VM_CONST || op == VM_CALLED_FDEFINITION then
        if n < |image.literals| then Some(Pushed(s, image.literals[n])) else None
      else if op == VM_SET then
        if n < |s.regs| && s.stack != [] then Some(WithRegs(Dropped(s, 1), n, [TopOf(s)])) else None
      else if op == VM_SAVE_SP then
        if n < |s.regs| then Some(s.(regs := s.regs[n := Sp(|s.stack|)])) else None
      else if op == VM_CHECK_ARG_COUNT_EQ then
        if |image.args| == n then Some(s) else None
      else if op == VM_CHECK_ARG_COUNT_LE then
        if |image.args| <= n then Some(s) else None
      else if op == VM_BIND_REQUIRED_ARGS then
        if n <= |image.args| && n <= |s.regs| then Some(WithRegs(s, 0, image.args[..n])) else None
      else if op == VM_RESTORE_SP then
        if n < |s.regs| && s.regs[n].Sp? && s.regs[n].depth <= |s.stack|
        then Some(s.(stack := s.stack[..s.regs[n].depth])) else None
      else if op == VM_CALL then Called(image.world, s, n)
      else if op == VM_CALL_RECEIVE_ONE then
        var c := Called(image.world, s, n);
        if c == None then None else Some(Pushed(c.value, NthValue(c.value.mv, 0)))
      else None
    case I2(op, a, b) =>
      if op == VM_BIND then
        if a <= |s.stack| && b + a <= |s.regs|
        then Some(WithRegs(Dropped(s, a), b, s.stack[|s.stack| - a..])) else None
      else if op == VM_CALL_RECEIVE_FIXED then
        var c := Called(image.world, s, a);
        if c == None then None
        else Some(c.value.(stack := c.value.stack + seq(b, i requires 0 <= i => NthValue(c.value.mv, i))))
      else None
  }
}
