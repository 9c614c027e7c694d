/** The machine run on a function's items instead of its bytes: labels are
    positions of marks, and each fixup does what its emitted bytes will do. */
module SymbolicMachine {
  import opened Options
  import opened Instructions
  import opened Relaxation
  import opened ModuleItems
  import opened Source
  import opened VirtualMachine

  datatype Program = Program(items: seq<Item>, image: Image)

  datatype Config = At(pc: nat, state: State)

  // What an item does when nothing is closed over.
  datatype Effect = Run(ins: Instruction) | Skip | Goto(id: nat) | GotoIf(id: nat) | Unmodelled

  function EffectOf(item: Item): Effect {
    match item
    case Ins(ins) => Run(ins)
    case Mark(_) => Skip
    case Control(id, op8, op16, op24) =>
      if op8 == VM_JUMP_8 && op16 == VM_JUMP_16 && op24 == VM_JUMP_24 then Goto(id)
      else if op8 == VM_JUMP_IF_8 && op16 == VM_JUMP_IF_16 && op24 == VM_JUMP_IF_24 then GotoIf(id)
      else Unmodelled
    case Supplied(_, _) => Unmodelled
    case Exit(id, lex) => if lex.closedOverP then Unmodelled else Goto(id)
    case LexRef(lex, _) => if lex.Indirect() then Unmodelled else Skip
    case Encage(lex) => if lex.Indirect() then Unmodelled else Skip
    case LexSet(lex) => if lex.Indirect() then Unmodelled else Run(I1(VM_SET, lex.frameIndex))
    case Entry(lex) => if lex.closedOverP then Unmodelled else Run(I1(VM_SAVE_SP, lex.frameIndex))
    case RestoreSp(lex) => if lex.closedOverP then Unmodelled else Run(I1(VM_RESTORE_SP, lex.frameIndex))
    case EntryClose(lex) => if lex.closedOverP then Unmodelled else Skip
  }

  function Step(p: Program, c: Config): Option<Config> {
    if c.pc >= |p.items| then None
    else
      match EffectOf(p.items[c.pc])
      case Run(ins) =>
        var s := Execute(p.image, ins, c.state);
        if s == None then None else Some(At(c.pc + 1, s.value))
      case Skip => Some(At(c.pc + 1, c.state))
      case Goto(id) => Some(At(Target(p.items, id), c.state))
      case GotoIf(id) =>
        if c.state.stack == [] then None
        else Some(At(if TopOf(c.state) != Nil then Target(p.items, id) else c.pc + 1, Dropped(c.state, 1)))
      case Unmodelled => None
  }

  function Steps(p: Program, c: Config, n: nat): Option<Config>
    decreases n
  {
    if n == 0 then Some(c)
    else
      var d := Step(p, c);
      if d == None then None else Steps(p, d.value, n - 1)
  }

  ghost predicate Reaches(p: Program, c: Config, d: Config) {
    exists n: nat :: Steps(p, c, n) == Some(d)
  }

  lemma ReachesItself(p: Program, c: Config)
    ensures Reaches(p, c, c)
  {
    assert Steps(p, c, 0) == Some(c);
  }

  lemma ReachesNext(p: Program, c: Config, d: Config)
    requires Step(p, c) == Some(d)
    ensures Reaches(p, c, d)
  {
    hide Step;
    assert Steps(p, d, 0) == Some(d);
    assert Steps(p, c, 1) == Some(d);
  }

  lemma {:induction false} StepsAdd(p: Program, c: Config, d: Config, e: Config, m: nat, n: nat)
    requires Steps(p, c, m) == Some(d) && Steps(p, d, n) == Some(e)
    ensures Steps(p, c, m + n) == Some(e)
    decreases m
  {
    hide Step;
    if m > 0 { StepsAdd(p, Step(p, c).value, d, e, m - 1, n); }
  }

  lemma ReachesOn(p: Program, c: Config, d: Config, e: Config)
    requires Reaches(p, c, d) && Reaches(p, d, e)
    ensures Reaches(p, c, e)
  {
    hide Step;
    var m: nat :| Steps(p, c, m) == Some(d);
    var n: nat :| Steps(p, d, n) == Some(e);
    StepsAdd(p, c, d, e, m, n);
  }

  // The code stands in the items from position at on.
  ghost predicate CodeAt(items: seq<Item>, at: nat, code: seq<Item>) {
    && at + |code| <= |items|
    && forall i {:trigger code[i]} :: 0 <= i < |code| ==> items[at + i] == code[i]
  }

  lemma CodeParts(items: seq<Item>, at: nat, a: seq<Item>, b: seq<Item>)
    requires CodeAt(items, at, a + b)
    ensures CodeAt(items, at, a) && CodeAt(items, at + |a|, b)
  {
    forall i {:trigger a[i]} | 0 <= i < |a| ensures items[at + i] == a[i] { assert (a + b)[i] == a[i]; }
    forall i {:trigger b[i]} | 0 <= i < |b| ensures items[at + |a| + i] == b[i] {
      assert (a + b)[|a| + i] == b[i];
    }
  }

  lemma CodeItem(items: seq<Item>, at: nat, item: Item)
    requires CodeAt(items, at, [item])
    ensures at < |items| && items[at] == item
  {
    assert [item][0] == item;
  }

  // Straight-line steps.
  lemma Runs(p: Program, pc: nat, item: Item, s: State, s': State)
    requires CodeAt(p.items, pc, [item]) && EffectOf(item).Run?
    requires Execute(p.image, EffectOf(item).ins, s) == Some(s')
    ensures Reaches(p, At(pc, s), At(pc + 1, s'))
  {
    hide Execute, EffectOf;
    CodeItem(p.items, pc, item);
    ReachesNext(p, At(pc, s), At(pc + 1, s'));
  }

  lemma Skips(p: Program, pc: nat, item: Item, s: State)
    requires CodeAt(p.items, pc, [item]) && EffectOf(item).Skip?
    ensures Reaches(p, At(pc, s), At(pc + 1, s))
  {
    hide Execute, EffectOf;
    CodeItem(p.items, pc, item);
    ReachesNext(p, At(pc, s), At(pc + 1, s));
  }

  // Jumps to a label whose mark stands at a known place.
  lemma Jumps(p: Program, pc: nat, item: Item, s: State, t: nat)
    requires CodeAt(p.items, pc, [item]) && EffectOf(item).Goto?
    requires UniqueMarks(p.items) && CodeAt(p.items, t, [Mark(EffectOf(item).id)])
    ensures Reaches(p, At(pc, s), At(t, s))
  {
    hide Execute, EffectOf;
    CodeItem(p.items, pc, item);
    CodeItem(p.items, t, Mark(EffectOf(item).id));
    TargetIs(p.items, t, EffectOf(item).id);
    ReachesNext(p, At(pc, s), At(t, s));
  }
}
