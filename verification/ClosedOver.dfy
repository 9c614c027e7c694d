/** The bytes emitted for variables and dynamic environments that are closed
    over, and for those that are not, run by one machine: a variable keeps its
    value in a cell as it does in a register, and an exit restores the stack as
    a jump behind a restored stack pointer does. */
module ClosedOver {
  import opened Options
  import opened Instructions
  import opened Emission

  // What a register or a place of the stack holds.
  datatype Thing = Object(id: nat) | Cell(address: nat) | Env(id: nat) | Sp(depth: nat)

  // A dynamic environment that has been entered and not yet closed.
  datatype DynEnv = DynEnv(id: nat, depth: nat)

  datatype State = State(stack: seq<Thing>, regs: seq<Thing>, cells: seq<Thing>, envs: seq<DynEnv>, made: nat)

  datatype Point = Point(pc: int, state: State)

  datatype Fetched = Fetched(op: Byte, n: nat, length: nat)

  // The opcodes here that have a register as operand.
  predicate HasRegister(op: Byte) {
    op == VM_REF || op == VM_SET || op == VM_ENCELL || op == VM_ENTRY || op == VM_SAVE_SP || op == VM_RESTORE_SP
  }

  function Fetch(code: seq<Byte>, pc: int): Option<Fetched> {
    if !(0 <= pc < |code|) then None
    else if code[pc] == VM_LONG then
      if pc + 4 > |code| || !HasRegister(code[pc + 1]) then None else Some(Fetched(code[pc + 1], Word(code, pc + 2), 4))
    else if HasRegister(code[pc]) then
      if pc + 2 > |code| then None else Some(Fetched(code[pc], code[pc + 1], 2))
    else Some(Fetched(code[pc], 0, 1))
  }

  // The index of the innermost environment with this id.
  function EnvIndex(envs: seq<DynEnv>, id: nat): (i: Option<nat>)
    ensures i.Some? ==> i.value < |envs| && envs[i.value].id == id
    ensures i.Some? <==> exists e :: e in envs && e.id == id
  {
    if envs == [] then None
    else if envs[|envs| - 1].id == id then Some(|envs| - 1)
    else EnvIndex(envs[..|envs| - 1], id)
  }

  // The displacement of a jump or an exit at pc.
  function Jumps(op: Byte): Option<nat> {
    if op == VM_JUMP_8 || op == VM_EXIT_8 then Some(2)
    else if op == VM_JUMP_16 || op == VM_EXIT_16 then Some(3)
    else if op == VM_JUMP_24 || op == VM_EXIT_24 then Some(4)
    else None
  }

  // One turn of bytecode_vm. An exit pops its environment, abandons what was
  // entered since, and goes on with the stack pointer that vm_entry had.
  function Step(code: seq<Byte>, c: Point): Option<Point> {
    var s := c.state;
    match Fetch(code, c.pc)
    case None => None
    case Some(f) =>
      var next := c.pc + f.length;
      var top := if s.stack == [] then Object(0) else s.stack[|s.stack| - 1];
      var rest := if s.stack == [] then [] else s.stack[..|s.stack| - 1];
      if f.op == VM_REF then
        if f.n < |s.regs| then Some(Point(next, s.(stack := s.stack + [s.regs[f.n]]))) else None
      else if f.op == VM_SET then
        if f.n < |s.regs| && s.stack != [] then Some(Point(next, s.(stack := rest, regs := s.regs[f.n := top])))
            else None
      else if f.op == VM_MAKE_CELL then
        if s.stack == [] then None
        else Some(Point(next, s.(stack := rest + [Cell(|s.cells|)], cells := s.cells + [top])))
      else if f.op == VM_CELL_REF then
        if s.stack != [] && top.Cell? && top.address < |s.cells|
        then Some(Point(next, s.(stack := rest + [s.cells[top.address]]))) else None
      else if f.op == VM_CELL_SET then
        if |s.stack| > 1 && top.Cell? && top.address < |s.cells|
        then Some(Point(next, s.(stack := rest[..|rest| - 1], cells := s.cells[top.address := rest[|rest| - 1]])))
        else None
      else if f.op == VM_ENCELL then
        if f.n < |s.regs|
        then Some(Point(next, s.(regs := s.regs[f.n := Cell(|s.cells|)], cells := s.cells + [s.regs[f.n]]))) else None
      else if f.op == VM_SAVE_SP then
        if f.n < |s.regs| then Some(Point(next, s.(regs := s.regs[f.n := Sp(|s.stack|)]))) else None
      else if f.op == VM_RESTORE_SP then
        if f.n < |s.regs| && s.regs[f.n].Sp? && s.regs[f.n].depth <= |s.stack|
        then Some(Point(next, s.(stack := s.stack[..s.regs[f.n].depth]))) else None
      else if f.op == VM_ENTRY then
        if f.n < |s.regs|
        then Some(Point(next, s.(regs := s.regs[f.n := Env(s.made)], envs := s.envs + [DynEnv(s.made, |s.stack|)],
                                 made := s.made + 1)))
        else None
      else if f.op == VM_ENTRY_CLOSE then
        if s.envs == [] then None else Some(Point(next, s.(envs := s.envs[..|s.envs| - 1])))
      else
        match Jumps(f.op)
        case None => None
        case Some(size) =>
          if f.length != 1 || c.pc + size > |code| then None
          else
            var target := c.pc + ReadDisplacement(code, c.pc, size);
            if f.op == VM_JUMP_8 || f.op == VM_JUMP_16 || f.op == VM_JUMP_24 then Some(Point(target, s))
            else if s.stack == [] || !top.Env? then None
            else
              match EnvIndex(s.envs, top.id)
              case None => None
              case Some(i) =>
                if s.envs[i].depth > |rest| then None
                else Some(Point(target, s.(stack := rest[..s.envs[i].depth], envs := s.envs[..i + 1])))
  }

  function Steps(code: seq<Byte>, c: Point, n: nat): Option<Point>
    decreases n
  {
    if n == 0 then Some(c)
    else
      var d := Step(code, c);
      if d == None then None else Steps(code, d.value, n - 1)
  }

  ghost predicate Reaches(code: seq<Byte>, c: Point, d: Point) { exists n: nat :: Steps(code, c, n) == Some(d) }

  lemma ReachesItself(code: seq<Byte>, c: Point)
    ensures Reaches(code, c, c)
  {
    assert Steps(code, c, 0) == Some(c);
  }

  lemma ReachesNext(code: seq<Byte>, c: Point, d: Point)
    requires Step(code, c) == Some(d)
    ensures Reaches(code, c, d)
  {
    hide Step;
    assert Steps(code, d, 0) == Some(d);
    assert Steps(code, c, 1) == Some(d);
  }

  lemma ReachesOn(code: seq<Byte>, c: Point, d: Point, e: Point)
    requires Step(code, c) == Some(d) && Reaches(code, d, e)
    ensures Reaches(code, c, e)
  {
    hide Step;
    var n: nat :| Steps(code, d, n) == Some(e);
    assert Steps(code, c, n + 1) == Some(e);
  }

  // The bytes of an item without a label.
  function Bytes(item: Item): seq<Byte>
    requires Emittable(item) && !item.IsLabelFixup()
  {
    Emit(item, Resize(item, 0).value, 0)
  }

  lemma FetchRegister(code: seq<Byte>, pc: nat, op: Byte, n: nat)
    requires HasRegister(op) && n < 0x1_0000 && Holds(code, pc, Encode(I1(op, n)))
    ensures Fetch(code, pc) == Some(Fetched(op, n, |Encode(I1(op, n))|))
  {
    var bytes := Encode(I1(op, n));
    assert code[pc] == bytes[0] && code[pc + 1] == bytes[1];
    assert |bytes| > 2 ==> code[pc + 2] == bytes[2] && code[pc + 3] == bytes[3];
  }

  lemma FetchPlain(code: seq<Byte>, pc: nat, op: Byte)
    requires !HasRegister(op) && op != VM_LONG && Holds(code, pc, [op])
    ensures Fetch(code, pc) == Some(Fetched(op, 0, 1))
  {
    assert code[pc + 0] == [op][0];
  }

  lemma HoldsParts(code: seq<Byte>, pc: nat, a: seq<Byte>, b: seq<Byte>)
    requires Holds(code, pc, a + b)
    ensures Holds(code, pc, a) && Holds(code, pc + |a|, b)
  {
    forall i {:trigger a[i]} | 0 <= i < |a| ensures code[pc + i] == a[i] { assert (a + b)[i] == a[i]; }
    forall i {:trigger b[i]} | 0 <= i < |b| ensures code[pc + |a| + i] == b[i] { assert (a + b)[|a| + i] == b[i]; }
  }

  // ---- variables ----

  // The variable has this value, in its register or in the cell that its register holds.
  predicate Keeps(s: State, lex: Lexical, v: Thing) {
    && lex.frameIndex < |s.regs|
    && var r := s.regs[lex.frameIndex];
       if lex.Indirect() then r.Cell? && r.address < |s.cells| && s.cells[r.address] == v else r == v
  }

  // The value on top of the stack becomes that of a new variable.
  lemma MakesVariable(code: seq<Byte>, pc: nat, lex: Lexical, s: State, rest: seq<Thing>, v: Thing) returns (t: State)
    requires lex.frameIndex < 0x1_0000 && lex.frameIndex < |s.regs| && s.stack == rest + [v]
    requires Holds(code, pc, Bytes(LexRef(lex, VM_MAKE_CELL)) + Encode(I1(VM_SET, lex.frameIndex)))
    ensures Reaches(code, Point(pc, s),
              Point(pc + |Bytes(LexRef(lex, VM_MAKE_CELL))| + |Encode(I1(VM_SET, lex.frameIndex))|, t))
    ensures t.stack == rest && Keeps(t, lex, v) && t.envs == s.envs && s.cells <= t.cells
    ensures |t.regs| == |s.regs| && forall i :: 0 <= i < |s.regs| && i != lex.frameIndex ==> t.regs[i] == s.regs[i]
  {
    var n, make := lex.frameIndex, Bytes(LexRef(lex, VM_MAKE_CELL));
    HoldsParts(code, pc, make, Encode(I1(VM_SET, n)));
    FetchRegister(code, pc + |make|, VM_SET, n);
    assert (rest + [v])[..|rest|] == rest;
    var end := pc + |make| + |Encode(I1(VM_SET, n))|;
    if lex.Indirect() {
      FetchPlain(code, pc, VM_MAKE_CELL);
      var s1 := s.(stack := rest + [Cell(|s.cells|)], cells := s.cells + [v]);
      assert s1.stack[..|rest|] == rest;
      t := s1.(stack := rest, regs := s.regs[n := Cell(|s.cells|)]);
      ReachesNext(code, Point(pc + 1, s1), Point(end, t));
      ReachesOn(code, Point(pc, s), Point(pc + 1, s1), Point(end, t));
    } else {
      t := s.(stack := rest, regs := s.regs[n := v]);
      ReachesNext(code, Point(pc, s), Point(end, t));
    }
  }

  /** Reading a variable pushes its value, wherever it is kept. */
  lemma ReadsVariable(code: seq<Byte>, pc: nat, lex: Lexical, s: State, v: Thing)
    requires lex.frameIndex < 0x1_0000 && Keeps(s, lex, v)
    requires Holds(code, pc, Encode(I1(VM_REF, lex.frameIndex)) + Bytes(LexRef(lex, VM_CELL_REF)))
    ensures Reaches(code, Point(pc, s),
                    Point(pc + |Encode(I1(VM_REF, lex.frameIndex))| + |Bytes(LexRef(lex, VM_CELL_REF))|,
                          s.(stack := s.stack + [v])))
  {
    var n, ref, read := lex.frameIndex, Encode(I1(VM_REF, lex.frameIndex)), Bytes(LexRef(lex, VM_CELL_REF));
    HoldsParts(code, pc, ref, read);
    FetchRegister(code, pc, VM_REF, n);
    var end := Point(pc + |ref| + |read|, s.(stack := s.stack + [v]));
    if lex.Indirect() {
      FetchPlain(code, pc + |ref|, VM_CELL_REF);
      var s1 := s.(stack := s.stack + [s.regs[n]]);
      assert s1.stack[..|s.stack|] == s.stack;
      ReachesNext(code, Point(pc + |ref|, s1), end);
      ReachesOn(code, Point(pc, s), Point(pc + |ref|, s1), end);
    } else {
      ReachesNext(code, Point(pc, s), end);
    }
  }

  /** Assigning a variable gives it the value on top of the stack and changes no
      other register and no other cell. */
  lemma WritesVariable(code: seq<Byte>, pc: nat, lex: Lexical, s: State, rest: seq<Thing>, v: Thing, w: Thing)
    returns (t: State)
    requires lex.frameIndex < 0x1_0000 && Keeps(s, lex, w) && s.stack == rest + [v]
    requires Holds(code, pc, Bytes(LexSet(lex)))
    ensures Reaches(code, Point(pc, s), Point(pc + |Bytes(LexSet(lex))|, t))
    ensures t.stack == rest && Keeps(t, lex, v) && t.envs == s.envs
    ensures |t.regs| == |s.regs| && forall i :: 0 <= i < |s.regs| && i != lex.frameIndex ==> t.regs[i] == s.regs[i]
    ensures |t.cells| == |s.cells|
    ensures forall a :: 0 <= a < |s.cells| && (lex.Indirect() ==> Cell(a) != s.regs[lex.frameIndex]) ==>
              t.cells[a] == s.cells[a]
  {
    var n := lex.frameIndex;
    assert (rest + [v])[..|rest|] == rest;
    var end := pc + |Bytes(LexSet(lex))|;
    if lex.Indirect() {
      var ref := Encode(I1(VM_REF, n));
      HoldsParts(code, pc, ref, [VM_CELL_SET]);
      FetchRegister(code, pc, VM_REF, n);
      FetchPlain(code, pc + |ref|, VM_CELL_SET);
      var s1 := s.(stack := s.stack + [s.regs[n]]);
      t := s.(stack := rest, cells := s.cells[s.regs[n].address := v]);
      assert s1.stack[..|s.stack|] == s.stack;
      ReachesNext(code, Point(pc + |ref|, s1), Point(end, t));
      ReachesOn(code, Point(pc, s), Point(pc + |ref|, s1), Point(end, t));
    } else {
      FetchRegister(code, pc, VM_SET, n);
      t := s.(stack := rest, regs := s.regs[n := v]);
      ReachesNext(code, Point(pc, s), Point(end, t));
    }
  }

  /** An argument in its register becomes a variable of that value. */
  lemma EncagesArgument(code: seq<Byte>, pc: nat, lex: Lexical, s: State) returns (t: State)
    requires lex.frameIndex < 0x1_0000 && lex.frameIndex < |s.regs| && Holds(code, pc, Bytes(Encage(lex)))
    ensures Reaches(code, Point(pc, s), Point(pc + |Bytes(Encage(lex))|, t))
    ensures Keeps(t, lex, s.regs[lex.frameIndex]) && t.stack == s.stack && t.envs == s.envs && s.cells <= t.cells
    ensures |t.regs| == |s.regs| && forall i :: 0 <= i < |s.regs| && i != lex.frameIndex ==> t.regs[i] == s.regs[i]
  {
    var n := lex.frameIndex;
    if lex.Indirect() {
      FetchRegister(code, pc, VM_ENCELL, n);
      t := s.(regs := s.regs[n := Cell(|s.cells|)], cells := s.cells + [s.regs[n]]);
      ReachesNext(code, Point(pc, s), Point(pc + |Bytes(Encage(lex))|, t));
    } else {
      t := s;
      ReachesItself(code, Point(pc, s));
    }
  }

  // ---- blocks and tagbodies ----

  // The register remembers the stack at the entry, by itself or with an
  // environment that is still entered.
  predicate Remembers(s: State, lex: Lexical, depth: nat) {
    && lex.frameIndex < |s.regs|
    && var r := s.regs[lex.frameIndex];
       if lex.closedOverP then r.Env? && EnvIndex(s.envs, r.id).Some?
           && s.envs[EnvIndex(s.envs, r.id).value].depth == depth
       else r == Sp(depth)
  }

  // Entering remembers the stack as it is, and nothing else changes.
  lemma Enters(code: seq<Byte>, pc: nat, lex: Lexical, s: State) returns (t: State)
    requires lex.frameIndex < 0x1_0000 && lex.frameIndex < |s.regs| && Holds(code, pc, Bytes(Entry(lex)))
    ensures Reaches(code, Point(pc, s), Point(pc + |Bytes(Entry(lex))|, t))
    ensures Remembers(t, lex, |s.stack|) && t.stack == s.stack && t.cells == s.cells && s.envs <= t.envs
    ensures |t.regs| == |s.regs| && forall i :: 0 <= i < |s.regs| && i != lex.frameIndex ==> t.regs[i] == s.regs[i]
  {
    var n := lex.frameIndex;
    if lex.closedOverP {
      FetchRegister(code, pc, VM_ENTRY, n);
      t := s.(regs := s.regs[n := Env(s.made)], envs := s.envs + [DynEnv(s.made, |s.stack|)], made := s.made + 1);
    } else {
      FetchRegister(code, pc, VM_SAVE_SP, n);
      t := s.(regs := s.regs[n := Sp(|s.stack|)]);
    }
    ReachesNext(code, Point(pc, s), Point(pc + |Bytes(Entry(lex))|, t));
  }

  /** However much has been pushed since and whatever has been entered, the bytes of
      an exit lead to the displacement read there, with the stack of the entry. */
  lemma Leaves(code: seq<Byte>, pc: nat, lex: Lexical, id: nat, size: nat, delta: int, s: State, depth: nat)
    returns (t: State)
    requires lex.frameIndex < 0x1_0000 && Remembers(s, lex, depth) && depth <= |s.stack|
    requires ControlSize(delta) == Some(size)
    requires Holds(code, pc, Bytes(RestoreSp(lex)) + Emit(Exit(id, lex), size, delta))
    ensures var exit := pc + |Bytes(RestoreSp(lex))|;
            && exit + size <= |code|
            && Reaches(code, Point(pc, s), Point(exit + ReadDisplacement(code, exit, size), t))
    ensures t.stack == s.stack[..depth] && t.regs == s.regs && t.cells == s.cells && t.envs <= s.envs
    ensures Remembers(t, lex, depth)
  {
    var n, restore := lex.frameIndex, Bytes(RestoreSp(lex));
    var exit, bytes := pc + |restore|, Emit(Exit(id, lex), size, delta);
    HoldsParts(code, pc, restore, bytes);
    ExitOpcode(code, exit, lex, id, size, delta);
    var target := exit + ReadDisplacement(code, exit, size);
    hide ReadDisplacement, Emit, EmitControl, LittleEndian;
    if lex.closedOverP {
      FetchRegister(code, pc, VM_REF, n);
      var s1 := s.(stack := s.stack + [s.regs[n]]);
      var i := EnvIndex(s.envs, s.regs[n].id).value;
      t := s.(stack := s.stack[..depth], envs := s.envs[..i + 1]);
      StillInnermost(s.envs, i);
      Exits(code, exit, size, s1, s.stack, t);
      ReachesOn(code, Point(pc, s), Point(exit, s1), Point(target, t));
    } else {
      FetchRegister(code, pc, VM_RESTORE_SP, n);
      t := s.(stack := s.stack[..depth]);
      ReachesNext(code, Point(exit, t), Point(target, t));
      ReachesOn(code, Point(pc, s), Point(exit, t), Point(target, t));
    }
  }

  lemma ExitOpcode(code: seq<Byte>, exit: nat, lex: Lexical, id: nat, size: nat, delta: int)
    requires lex.frameIndex < 0x1_0000 && ControlSize(delta) == Some(size)
    requires Holds(code, exit, Emit(Exit(id, lex), size, delta))
    ensures 2 <= size <= 4 && exit + size <= |code|
    ensures Fetch(code, exit) == Some(Fetched(code[exit], 0, 1))
    ensures code[exit] == (if lex.closedOverP then VM_EXIT_8 else VM_JUMP_8) + (size - 2)
    ensures Jumps(code[exit]) == Some(size)
  {
    var bytes := Emit(Exit(id, lex), size, delta);
    assert code[exit + 0] == bytes[0];
    hide LittleEndian;
  }

  // The exit itself, with the environment on top of the stack.
  lemma Exits(code: seq<Byte>, pc: nat, size: nat, s: State, rest: seq<Thing>, t: State)
    requires 2 <= size <= 4 && pc + size <= |code| && Fetch(code, pc) == Some(Fetched(code[pc], 0, 1))
    requires code[pc] == VM_EXIT_8 + (size - 2) && s.stack != [] && s.stack[|s.stack| - 1].Env?
    requires s.stack == rest + [s.stack[|s.stack| - 1]]
    requires EnvIndex(s.envs, s.stack[|s.stack| - 1].id).Some?
    requires var i := EnvIndex(s.envs, s.stack[|s.stack| - 1].id).value;
             s.envs[i].depth <= |rest| && t == s.(stack := rest[..s.envs[i].depth], envs := s.envs[..i + 1])
    ensures Reaches(code, Point(pc, s), Point(pc + ReadDisplacement(code, pc, size), t))
  {
    hide ReadDisplacement, Fetch, EnvIndex;
    assert s.stack[..|s.stack| - 1] == rest;
    ReachesNext(code, Point(pc, s), Point(pc + ReadDisplacement(code, pc, size), t));
  }

  lemma StillInnermost(envs: seq<DynEnv>, i: nat)
    requires i < |envs|
    ensures EnvIndex(envs[..i + 1], envs[i].id) == Some(i)
  {
  }

  // Closing takes the innermost environment out, if there is one for the entry.
  lemma Closes(code: seq<Byte>, pc: nat, lex: Lexical, s: State)
    requires Emittable(EntryClose(lex)) && Holds(code, pc, Bytes(EntryClose(lex))) && (lex.closedOverP ==> s.envs != [])
    ensures Reaches(code, Point(pc, s),
                    Point(pc + |Bytes(EntryClose(lex))|,
                          if lex.closedOverP then s.(envs := s.envs[..|s.envs| - 1]) else s))
  {
    if lex.closedOverP {
      FetchPlain(code, pc, VM_ENTRY_CLOSE);
      ReachesNext(code, Point(pc, s), Point(pc + 1, s.(envs := s.envs[..|s.envs| - 1])));
    } else {
      ReachesItself(code, Point(pc, s));
    }
  }
}
