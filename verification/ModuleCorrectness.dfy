/** A module compiled from any number of lambdas, linked, and run as bytes. */
module ModuleCorrectness {
  import opened Options
  import opened Instructions
  import opened Relaxation
  import opened Emission
  import opened ModuleItems
  import opened Linker
  import opened BytecodeWriter
  import opened Source
  import opened VirtualMachine
  import opened SymbolicMachine
  import opened ByteMachine
  import opened Compiler
  import opened CompilerCorrectness
  import opened CodeShape
  import opened Lambda
  import opened BytecodeCompiler

  // A lambda that has been compiled, and where the literals and labels stood before.
  datatype Compiled =
    Compiled(params: seq<Name>, body: Forms, loops: bool, literals: seq<Constant>, labels: nat)
  {
    predicate Covered() { Compiler.Covered(params, body, loops) }

    function Output(): Output
      requires Covered()
    {
      Compiler.CompileLambda(params, body, loops, literals, labels)
    }
  }

  // A function of a module is a compiled lambda, made before the label bound.
  ghost predicate IsLambda(part: seq<Item>, l: Compiled, literals: seq<Constant>, bound: nat) {
    l.Covered() && part == l.Output().code && l.Output().gen.literals <= literals && l.Output().gen.labels <= bound
  }

  // The labels of function f are below this.
  function Bound(lambdas: seq<Compiled>, f: nat, labels: nat): nat {
    if f + 1 < |lambdas| then lambdas[f + 1].labels else labels
  }

  // The functions of a module are compiled lambdas, one after the other.
  ghost predicate InOrder(parts: seq<seq<Item>>, lambdas: seq<Compiled>, literals: seq<Constant>, labels: nat) {
    && |parts| == |lambdas|
    && forall f :: 0 <= f < |lambdas| ==> IsLambda(parts[f], lambdas[f], literals, Bound(lambdas, f, labels))
  }

  lemma AppendInOrder(parts: seq<seq<Item>>, lambdas: seq<Compiled>, literals: seq<Constant>, labels: nat, l: Compiled)
    requires InOrder(parts, lambdas, literals, labels) && l.Covered() && l.literals == literals && l.labels == labels
    ensures InOrder(parts + [l.Output().code], lambdas + [l], l.Output().gen.literals, l.Output().gen.labels)
  {
    var parts', lambdas', o := parts + [l.Output().code], lambdas + [l], l.Output();
    assert literals <= o.gen.literals;
    forall f | 0 <= f < |lambdas'|
      ensures IsLambda(parts'[f], lambdas'[f], o.gen.literals, Bound(lambdas', f, o.gen.labels)) {
      if f < |lambdas| {
        assert IsLambda(parts[f], lambdas[f], literals, Bound(lambdas, f, labels));
        assert Bound(lambdas', f, o.gen.labels) == Bound(lambdas, f, labels);
        MoreLiterals(parts[f], lambdas[f], literals, o.gen.literals, Bound(lambdas, f, labels));
      }
    }
  }

  lemma MoreLiterals(part: seq<Item>, l: Compiled, literals: seq<Constant>, literals': seq<Constant>, bound: nat)
    requires IsLambda(part, l, literals, bound) && literals <= literals'
    ensures IsLambda(part, l, literals', bound)
  {
  }

  // ---- the shape of the module's items ----

  // What a whole function leaves open: nothing but, if it has loops, the direction of its jumps.
  function Opening(loops: bool): set<int> { ExitLabels(Null(loops)) }

  lemma LambdaShaped(params: seq<Name>, body: Forms, loops: bool, literals: seq<Constant>, labels: nat)
    requires Compiler.Covered(params, body, loops)
    ensures var o := Compiler.CompileLambda(params, body, loops, literals, labels);
            labels <= o.gen.labels && Shaped(o.code, Ids(labels, o.gen.labels), Opening(loops))
  {
    hide *;
    UnfoldedLambda(params, body, loops, literals, labels);
    var scope, g := Parameters(params, loops), Gen(literals, labels + 1, |params|);
    var b := CompileProgn(body, scope, -1, g);
    PrognShaped(body, scope, -1, g);
    IsShaped(b, labels + 1, scope);
    OnlyLoops(params, loops);
    OneMark(labels, {});
    PrologueShaped(|params|);
    var open := Opening(loops);
    Join([Mark(labels)], {labels}, {}, Prologue(|params|), {}, {}, {labels}, {});
    Join([Mark(labels)] + Prologue(|params|), {labels}, {}, b.code, Ids(labels + 1, b.gen.labels), open,
         Ids(labels, b.gen.labels), open);
    ReturnShaped();
    Join([Mark(labels)] + Prologue(|params|) + b.code, Ids(labels, b.gen.labels), open, [Op(VM_RETURN)], {}, {},
         Ids(labels, b.gen.labels), open);
  }

  lemma {:induction false} OnlyLoops(params: seq<Name>, loops: bool)
    ensures ExitLabels(Parameters(params, loops)) == Opening(loops)
  {
    if params != [] { OnlyLoops(params[..|params| - 1], loops); }
  }

  lemma PrologueShaped(n: nat)
    ensures Shaped(Prologue(n), {}, {})
  {
    Plain(Prologue(n), {});
  }

  lemma ReturnShaped()
    ensures Shaped([Op(VM_RETURN)], {}, {})
  {
    Plain([Op(VM_RETURN)], {});
  }

  lemma {:induction false} ModuleShaped(parts: seq<seq<Item>>, lambdas: seq<Compiled>, literals: seq<Constant>,
                                        labels: nat)
    requires InOrder(parts, lambdas, literals, labels)
    ensures Shaped(Flatten(parts), Ids(0, labels), {BACKWARD})
  {
    hide *;
    if parts == [] {
      NoItems();
      Plain([], {}) by { NothingShaped(); }
      Widen([], {}, {}, Ids(0, labels), {BACKWARD});
    } else {
      var n := |parts| - 1;
      InOrderFront(parts, lambdas, literals, labels);
      var l := lambdas[n];
      LastItems(parts);
      CoveredMeans(l);
      ModuleShaped(parts[..n], lambdas[..n], literals, l.labels);
      LambdaShaped(l.params, l.body, l.loops, l.literals, l.labels);
      OpeningMeans(l.loops);
      Join(Flatten(parts[..n]), Ids(0, l.labels), {BACKWARD}, parts[n], Ids(l.labels, l.Output().gen.labels),
           Opening(l.loops), Ids(0, labels), {BACKWARD});
    }
  }

  lemma OpeningMeans(loops: bool)
    ensures Opening(loops) == if loops then {BACKWARD} else {}
  {
  }

  lemma NothingShaped()
    ensures AllWellShaped([])
  {
  }

  lemma NoItems()
    ensures Flatten([]) == []
  {
  }

  lemma LastItems(parts: seq<seq<Item>>)
    requires parts != []
    ensures Flatten(parts) == Flatten(parts[..|parts| - 1]) + parts[|parts| - 1]
  {
  }

  lemma InOrderFront(parts: seq<seq<Item>>, lambdas: seq<Compiled>, literals: seq<Constant>, labels: nat)
    requires InOrder(parts, lambdas, literals, labels) && parts != []
    ensures var n := |parts| - 1;
            && n + 1 == |lambdas| && InOrder(parts[..n], lambdas[..n], literals, lambdas[n].labels)
            && lambdas[n].Covered()
            && parts[n] == lambdas[n].Output().code && lambdas[n].Output().gen.labels <= labels
  {
    hide CompileLambda, ScopedForms, IsLambda;
    var n := |parts| - 1;
    LastLambda(parts[n], lambdas[n], literals, Bound(lambdas, n, labels));
    forall f | 0 <= f < n
      ensures IsLambda(parts[..n][f], lambdas[..n][f], literals, Bound(lambdas[..n], f, lambdas[n].labels))
    {
      assert IsLambda(parts[f], lambdas[f], literals, Bound(lambdas, f, labels));
    }
  }

  lemma LastLambda(part: seq<Item>, l: Compiled, literals: seq<Constant>, bound: nat)
    requires IsLambda(part, l, literals, bound)
    ensures l.Covered() && part == l.Output().code && l.Output().gen.labels <= bound
  {
    hide CompileLambda;
  }

  lemma TwiceCounted(items: seq<Item>, i: nat, j: nat, id: nat)
    requires i < j < |items| && items[i] == items[j] == Mark(id)
    ensures multiset(items)[Mark(id)] >= 2
  {
    assert items == items[..j] + [items[j]] + items[j + 1..];
    assert items[..j][i] == items[i];
    assert items[i] in multiset(items[..j]);
  }

  lemma ShapedMarks(items: seq<Item>, ids: set<nat>, open: set<int>)
    requires Shaped(items, ids, open)
    ensures UniqueMarks(items)
  {
    forall i, j | 0 <= i < j < |items| && items[i].Mark? ensures items[i] != items[j] {
      if items[i] == items[j] {
        TwiceCounted(items, i, j, items[i].id);
        assert false;
      }
    }
  }

  // The functions of a module are shaped.
  ghost predicate AllShaped(parts: seq<seq<Item>>, lambdas: seq<Compiled>) {
    && |parts| == |lambdas|
    && forall f :: 0 <= f < |parts| ==> Forward(parts[f], Opening(lambdas[f].loops)) && AllWellShaped(parts[f])
  }

  /** All labels of shaped functions have been contextualized. */
  lemma ShapedPlaced(fs: seq<Cfunction>, parts: seq<seq<Item>>, lambdas: seq<Compiled>, labels: map<nat, Place>)
    requires Emitted(fs, parts, labels) && AllShaped(parts, lambdas)
    ensures LabelsPlaced(fs, labels)
  {
    EmittedIsAnnotated(fs, parts, labels);
    hide Holding, Notes;
    forall f, i | 0 <= f < |fs| && 0 <= i < |fs[f].annotations| && fs[f].annotations[i].item.IsLabelFixup()
      ensures fs[f].annotations[i].item.id in labels
    {
      assert Annotated(fs[f], parts[f]);
      var j := MarkOf(parts[f], lambdas[f].loops, Notes(parts[f])[i]);
      var k := NoteOf(parts[f], j);
      assert fs[f].annotations[k].item == Mark(parts[f][Notes(parts[f])[i]].id);
    }
  }

  // Where a function marks the label of a jump: further on if it has no loops.
  lemma MarkOf(code: seq<Item>, loops: bool, i: nat) returns (j: nat)
    requires Forward(code, Opening(loops)) && i < |code| && code[i].IsLabelFixup()
    ensures j < |code| && code[j] == Mark(code[i].id) && (!loops ==> i < j)
  {
    OpeningMeans(loops);
    var id := code[i].id;
    if MarkedAfter(code, i, id) {
      j :| i < j < |code| && code[j] == Mark(id);
    } else {
      j :| 0 <= j < |code| && code[j] == Mark(id);
    }
  }

  // ---- the code of one function ----

  // No jump from a up to b is a backward one of 24 bits.
  ghost predicate NoFarLoops(items: seq<Item>, sizes: seq<nat>, a: nat, b: nat)
    requires |sizes| == |items| && b <= |items|
  {
    forall k :: a <= k < b && (items[k].Control? || items[k].Exit?) && sizes[k] == 4 ==>
      k <= Target(items, items[k].id)
  }

  // The items from a up to b are runnable, and control does not leave them.
  ghost predicate Confined(p: Program, sizes: seq<nat>, a: nat, b: nat)
    requires |sizes| == |p.items| && b <= |p.items|
  {
    && (forall k :: a <= k < b ==> Runnable(p.items, sizes, k))
    && (forall k :: a <= k < b && (p.items[k].Control? || p.items[k].Exit?) ==>
          a <= Target(p.items, p.items[k].id) < b)
    && a < b && p.items[b - 1] == Op(VM_RETURN)
  }

  lemma StepConfined(p: Program, sizes: seq<nat>, a: nat, b: nat, c: Config)
    requires |sizes| == |p.items| && b <= |p.items| && Confined(p, sizes, a, b) && a <= c.pc < b
    ensures Runnable(p.items, sizes, c.pc)
    ensures Step(p, c).Some? ==> a <= Step(p, c).value.pc < b
  {
    hide Runnable, Target, Step;
    assert p.items[c.pc] == p.items[c.pc];
    if c.pc == b - 1 { ReturnStops(p, c); } else { MovesOn(p, c); }
  }

  lemma ReturnStops(p: Program, c: Config)
    requires c.pc < |p.items| && p.items[c.pc] == Op(VM_RETURN)
    ensures Step(p, c) == None
  {
  }

  lemma MovesOn(p: Program, c: Config)
    requires c.pc < |p.items|
    ensures var item := p.items[c.pc];
            Step(p, c).Some? ==>
              || Step(p, c).value.pc == c.pc + 1
              || ((item.Control? || item.Exit?) && Step(p, c).value.pc == Target(p.items, item.id))
  {
    hide Execute, Target;
  }

  /** A run within a function is a run of runnable items. */
  lemma {:induction false} RunConfined(p: Program, sizes: seq<nat>, a: nat, b: nat, c: Config, n: nat)
    requires |sizes| == |p.items| && b <= |p.items| && Confined(p, sizes, a, b) && a <= c.pc < b
    ensures RunnableRun(p, sizes, c, n)
    ensures Steps(p, c, n).Some? ==> a <= Steps(p, c, n).value.pc < b
    decreases n
  {
    hide Confined, Step, Runnable;
    if n > 0 {
      StepConfined(p, sizes, a, b, c);
      if Step(p, c).Some? { RunConfined(p, sizes, a, b, Step(p, c).value, n - 1); }
    }
  }

  // Where a jump of function f goes.
  lemma JumpTarget(parts: seq<seq<Item>>, f: nat, loops: bool, k: nat)
    requires f < |parts| && UniqueMarks(Flatten(parts)) && Forward(parts[f], Opening(loops))
    requires Start(parts, f) <= k < Start(parts, f + 1) <= |Flatten(parts)| && Flatten(parts)[k].IsLabelFixup()
    ensures Start(parts, f) <= Target(Flatten(parts), Flatten(parts)[k].id) < Start(parts, f + 1)
    ensures !loops ==> k <= Target(Flatten(parts), Flatten(parts)[k].id)
  {
    hide Forward, Opening, Start, Flatten, Target, UniqueMarks;
    FunctionItems(parts, f);
    var items, i := Flatten(parts), k - Start(parts, f);
    assert items[Start(parts, f) + i] == parts[f][i];
    var j := MarkOf(parts[f], loops, i);
    assert items[Start(parts, f) + j] == parts[f][j];
    TargetIs(items, Start(parts, f) + j, items[k].id);
  }

  /** The code of a function confines control; its items are runnable if no jump
      of 24 bits goes backward. */
  lemma FunctionConfined(parts: seq<seq<Item>>, f: nat, loops: bool, image: Image, sizes: seq<nat>)
    requires f < |parts| && UniqueMarks(Flatten(parts)) && |sizes| == |Flatten(parts)|
    requires Forward(parts[f], Opening(loops)) && AllWellShaped(parts[f])
    requires parts[f] != [] && parts[f][|parts[f]| - 1] == Op(VM_RETURN)
    requires Start(parts, f + 1) <= |Flatten(parts)|
    requires loops ==> NoFarLoops(Flatten(parts), sizes, Start(parts, f), Start(parts, f + 1))
    ensures Confined(Program(Flatten(parts), image), sizes, Start(parts, f), Start(parts, f + 1))
  {
    hide *;
    FunctionItems(parts, f);
    var items, a, b := Flatten(parts), Start(parts, f), Start(parts, f + 1);
    forall k | a <= k < b
      ensures Runnable(items, sizes, k)
      ensures items[k].Control? || items[k].Exit? ==> a <= Target(items, items[k].id) < b
    {
      assert items[a + (k - a)] == parts[f][k - a];
      WellShapedAt(parts[f], k - a);
      ControlsAreFixups(items[k]);
      if items[k].Control? || items[k].Exit? { JumpTarget(parts, f, loops, k); }
      if loops { NotFar(items, sizes, a, b, k); }
      MakeRunnable(items, sizes, k);
    }
    assert b - 1 == a + (|parts[f]| - 1) && items[a + (|parts[f]| - 1)] == parts[f][|parts[f]| - 1];
    MakeConfined(Program(items, image), sizes, a, b);
  }

  lemma WellShapedAt(code: seq<Item>, i: nat)
    requires AllWellShaped(code) && i < |code|
    ensures EffectOf(code[i]).Run? ==> WellShaped(EffectOf(code[i]).ins)
  {
    hide EffectOf, WellShaped;
  }

  lemma NotFar(items: seq<Item>, sizes: seq<nat>, a: nat, b: nat, k: nat)
    requires |sizes| == |items| && b <= |items| && NoFarLoops(items, sizes, a, b) && a <= k < b
    ensures (items[k].Control? || items[k].Exit?) && sizes[k] == 4 ==> k <= Target(items, items[k].id)
  {
    hide Target;
  }

  lemma MakeRunnable(items: seq<Item>, sizes: seq<nat>, k: nat)
    requires |sizes| == |items| && k < |items|
    requires EffectOf(items[k]).Run? ==> WellShaped(EffectOf(items[k]).ins)
    requires (items[k].Control? || items[k].Exit?) && sizes[k] == 4 ==> k <= Target(items, items[k].id)
    ensures Runnable(items, sizes, k)
  {
    hide EffectOf, WellShaped, Target;
  }

  lemma MakeConfined(p: Program, sizes: seq<nat>, a: nat, b: nat)
    requires |sizes| == |p.items| && a < b <= |p.items| && p.items[b - 1] == Op(VM_RETURN)
    requires forall k :: a <= k < b ==> Runnable(p.items, sizes, k)
    requires forall k :: a <= k < b && (p.items[k].Control? || p.items[k].Exit?) ==>
               a <= Target(p.items, p.items[k].id) < b
    ensures Confined(p, sizes, a, b)
  {
    hide Runnable, Target;
  }

  /** A function of at most 32768 bytes has no backward jump of 24 bits. */
  lemma ShortFunction(parts: seq<seq<Item>>, f: nat, loops: bool, sizes: seq<nat>)
    requires f < |parts| && UniqueMarks(Flatten(parts)) && Forward(parts[f], Opening(loops))
    requires WellFormed(Flatten(parts)) && Consistent(Flatten(parts), sizes) && |sizes| == |Flatten(parts)|
    requires Start(parts, f + 1) <= |Flatten(parts)|
    requires Pos(sizes, Start(parts, f + 1)) - Pos(sizes, Start(parts, f)) <= 0x8000
    ensures NoFarLoops(Flatten(parts), sizes, Start(parts, f), Start(parts, f + 1))
  {
    hide *;
    var items, a, b := Flatten(parts), Start(parts, f), Start(parts, f + 1);
    forall k | a <= k < b && (items[k].Control? || items[k].Exit?) && sizes[k] == 4
      ensures k <= Target(items, items[k].id)
    {
      ControlsAreFixups(items[k]);
      JumpTarget(parts, f, loops, k);
      var t := Target(items, items[k].id);
      if t < k {
        PosMonotone(sizes, a, t);
        PosMonotone(sizes, k + 1, b);
        PosMonotone(sizes, t, k);
        FarSize(items, sizes, k);
        assert false;
      }
    }
    NoneFar(items, sizes, a, b);
  }

  lemma NoneFar(items: seq<Item>, sizes: seq<nat>, a: nat, b: nat)
    requires |sizes| == |items| && b <= |items|
    requires forall k :: a <= k < b && (items[k].Control? || items[k].Exit?) && sizes[k] == 4 ==>
               k <= Target(items, items[k].id)
    ensures NoFarLoops(items, sizes, a, b)
  {
    hide Target;
  }

  lemma ControlsAreFixups(item: Item)
    ensures item.Control? || item.Exit? ==> item.IsLabelFixup()
  {
  }

  // The distance that a jump of 24 bits covers.
  lemma FarSize(items: seq<Item>, sizes: seq<nat>, k: nat)
    requires WellFormed(items) && Consistent(items, sizes) && |sizes| == |items| && k < |items|
    requires (items[k].Control? || items[k].Exit?) && sizes[k] == 4 && Target(items, items[k].id) < k
    ensures Pos(sizes, k + 1) == Pos(sizes, k) + 4
    ensures Pos(sizes, k) - Pos(sizes, Target(items, items[k].id)) > 0x8000
  {
    PosNext(sizes, k);
    PosMonotone(sizes, Target(items, items[k].id), k);
    hide Pos, Target;
    assert Want(items, sizes, k) == Some(sizes[k]);
  }

  // ---- running the bytes ----

  // What the bytes of a function come to, from a point where they stop.
  ghost predicate ByteAnswers(code: seq<Byte>, image: Image, params: seq<Name>, body: Forms, loops: bool, s: State,
                              d: Point) {
    if |image.args| != |params| then
      && 0 <= d.pc && Decode(code, d.pc).Some? && Decode(code, d.pc).value.ins == ArgumentCheck(|params|)
      && ByteStep(code, image, d) == None && d.state == s
    else
      var res := EvalProgn(image.world, body, Arguments(params, image.args), s.history);
      && d.state.history == res.history
      && match res.outcome
         case Values(vs) =>
           && 0 <= d.pc < |code| && code[d.pc] == VM_RETURN
           && d.state.mv == vs && d.state.stack == s.stack
         case Return(to, _) => loops && to == Nowhere
  }

  ghost predicate RunsAs(code: seq<Byte>, image: Image, entry: nat, params: seq<Name>, body: Forms, loops: bool,
                         s: State) {
    exists d :: ByteReaches(code, image, Point(entry, s), d) && ByteAnswers(code, image, params, body, loops, s, d)
  }

  // The code from entry on computes what the lambda means: for all arguments,
  // whatever the called functions answer, however often its loops jump back, and
  // whatever the stack and the registers of the frame hold.
  ghost predicate Implements(code: seq<Byte>, entry: nat, literals: seq<Value>, nlocals: nat, l: Compiled) {
    forall image: Image, s: State :: image.literals == literals && nlocals <= |s.regs| ==>
      RunsAs(code, image, entry, l.params, l.body, l.loops, s)
  }

  function Resolved(literals: seq<Constant>): (vs: seq<Value>)
    ensures |vs| == |literals|
  {
    seq(|literals|, i requires 0 <= i < |literals| => Resolve(literals[i]))
  }

  lemma ByteReturn(items: seq<Item>, sizes: seq<nat>, k: nat)
    requires WellFormed(items) && Consistent(items, sizes) && k < |items| && items[k] == Op(VM_RETURN)
    ensures |sizes| == |items|
    ensures Pos(sizes, k) < |LinkedCode(items, sizes)| && LinkedCode(items, sizes)[Pos(sizes, k)] == VM_RETURN
  {
    ItemInPlace(items, sizes, k);
    hide LinkedCode, Pos;
    assert ItemBytes(items, sizes, k) == [VM_RETURN];
    assert LinkedCode(items, sizes)[Pos(sizes, k) + 0] == ItemBytes(items, sizes, k)[0];
  }

  // A check of the argument count that stops the symbolic machine stops the machine.
  lemma ByteRejects(p: Program, sizes: seq<nat>, c: Config)
    requires WellFormed(p.items) && Consistent(p.items, sizes) && |sizes| == |p.items|
    requires Step(p, c) == None && c.pc < |p.items| && EffectOf(p.items[c.pc]).Run?
    requires Runnable(p.items, sizes, c.pc)
    ensures Decode(LinkedCode(p.items, sizes), Pos(sizes, c.pc)).Some?
    ensures Decode(LinkedCode(p.items, sizes), Pos(sizes, c.pc)).value.ins == EffectOf(p.items[c.pc]).ins
    ensures ByteStep(LinkedCode(p.items, sizes), p.image, Point(Pos(sizes, c.pc), c.state)) == None
  {
    hide *;
    var k, ins := c.pc, EffectOf(p.items[c.pc]).ins;
    var code, pc := LinkedCode(p.items, sizes), Pos(sizes, k);
    ItemInPlace(p.items, sizes, k);
    RunBytes(p.items, sizes, k);
    RunnableMeans(p.items, sizes, k);
    EncodedDecodes(code, pc, ins);
    Stops(p, c);
    DecodedStops(code, p.image, pc, c.state, Decoded(ins, |Encode(ins)|));
  }

  lemma Stops(p: Program, c: Config)
    requires Step(p, c) == None && c.pc < |p.items| && EffectOf(p.items[c.pc]).Run?
    ensures Execute(p.image, EffectOf(p.items[c.pc]).ins, c.state) == None
  {
    hide Execute, EffectOf;
  }

  lemma DecodedStops(code: seq<Byte>, image: Image, pc: nat, s: State, i: Decoded)
    requires Decode(code, pc) == Some(i) && Execute(image, i.ins, s) == None
    ensures ByteStep(code, image, Point(pc, s)) == None
  {
    NotAJump(code, pc);
    hide Execute, Decode, IsJump, IsJumpIf;
  }

  lemma LambdaPlaced(parts: seq<seq<Item>>, lambdas: seq<Compiled>, literals: seq<Constant>, labels: nat, f: nat,
                     image: Image, s: State)
    requires InOrder(parts, lambdas, literals, labels) && f < |lambdas|
    requires image.literals == Resolved(literals) && lambdas[f].Output().gen.nlocals <= |s.regs|
    ensures f < |parts|
    ensures Placed(Program(Flatten(parts), image), Start(parts, f), lambdas[f].Output(), s)
  {
    hide *;
    InOrderAt(parts, lambdas, literals, labels, f);
    var p, o := Program(Flatten(parts), image), lambdas[f].Output();
    ModuleShaped(parts, lambdas, literals, labels);
    ShapedMarks(Flatten(parts), Ids(0, labels), {BACKWARD});
    FunctionItems(parts, f);
    FunctionSpan(parts, f);
    StandsAt(p.items, Start(parts, f), o.code);
    LoadsAll(p, o.gen, literals, s);
    Replaced(p, Start(parts, f), o, s);
  }

  lemma InOrderAt(parts: seq<seq<Item>>, lambdas: seq<Compiled>, literals: seq<Constant>, labels: nat, f: nat)
    requires InOrder(parts, lambdas, literals, labels) && f < |lambdas|
    ensures f < |parts| && lambdas[f].Covered()
    ensures parts[f] == lambdas[f].Output().code && lambdas[f].Output().gen.literals <= literals
  {
    hide CompileLambda;
    assert IsLambda(parts[f], lambdas[f], literals, Bound(lambdas, f, labels));
  }

  lemma StandsAt(items: seq<Item>, at: nat, code: seq<Item>)
    requires at + |code| <= |items|
    requires forall k {:trigger code[k]} :: 0 <= k < |code| ==> items[at + k] == code[k]
    ensures CodeAt(items, at, code)
  {
  }

  lemma LoadsAll(p: Program, g: Gen, literals: seq<Constant>, s: State)
    requires g.literals <= literals && p.image.literals == Resolved(literals) && g.nlocals <= |s.regs|
    ensures Loaded(p, g, s)
  {
  }

  // The functions of a module are shaped, end with a vm_return and follow each other.
  lemma AllLambdasShaped(parts: seq<seq<Item>>, lambdas: seq<Compiled>, literals: seq<Constant>, labels: nat)
    requires InOrder(parts, lambdas, literals, labels)
    ensures AllShaped(parts, lambdas) && UniqueMarks(Flatten(parts))
    ensures forall f :: 0 <= f < |parts| ==> parts[f] != [] && parts[f][|parts[f]| - 1] == Op(VM_RETURN)
  {
    hide *;
    InOrderLength(parts, lambdas, literals, labels);
    forall f | 0 <= f < |parts|
      ensures Forward(parts[f], Opening(lambdas[f].loops)) && AllWellShaped(parts[f])
      ensures parts[f] != [] && parts[f][|parts[f]| - 1] == Op(VM_RETURN)
    {
      var l := lambdas[f];
      InOrderAt(parts, lambdas, literals, labels, f);
      CoveredMeans(l);
      LambdaShaped(l.params, l.body, l.loops, l.literals, l.labels);
      ShapedForward(parts[f], Ids(l.labels, l.Output().gen.labels), Opening(l.loops));
      EndsWithReturn(l);
    }
    ModuleShaped(parts, lambdas, literals, labels);
    ShapedMarks(Flatten(parts), Ids(0, labels), {BACKWARD});
    MakeAllShaped(parts, lambdas);
  }

  lemma MakeAllShaped(parts: seq<seq<Item>>, lambdas: seq<Compiled>)
    requires |parts| == |lambdas|
    requires forall f :: 0 <= f < |parts| ==> Forward(parts[f], Opening(lambdas[f].loops)) && AllWellShaped(parts[f])
    ensures AllShaped(parts, lambdas)
  {
    hide Forward, AllWellShaped, Opening;
  }

  lemma AllShapedAt(parts: seq<seq<Item>>, lambdas: seq<Compiled>, f: nat)
    requires AllShaped(parts, lambdas) && f < |parts|
    ensures f < |lambdas| && Forward(parts[f], Opening(lambdas[f].loops)) && AllWellShaped(parts[f])
  {
    hide Forward, AllWellShaped, Opening;
  }

  lemma EndsWithReturn(l: Compiled)
    requires l.Covered()
    ensures l.Output().code != [] && l.Output().code[|l.Output().code| - 1] == Op(VM_RETURN)
  {
    hide CompileProgn, Prologue;
  }

  // A function of a module, where it stands: without loops, or with none that is far.
  ghost predicate Near(parts: seq<seq<Item>>, lambdas: seq<Compiled>, sizes: seq<nat>, f: nat)
    requires f < |parts| == |lambdas| && |sizes| == |Flatten(parts)|
  {
    FunctionSpan(parts, f);
    lambdas[f].loops ==> NoFarLoops(Flatten(parts), sizes, Start(parts, f), Start(parts, f + 1))
  }

  lemma LambdaRuns(parts: seq<seq<Item>>, lambdas: seq<Compiled>, literals: seq<Constant>, labels: nat, sizes: seq<nat>,
                   f: nat, image: Image, s: State)
    requires InOrder(parts, lambdas, literals, labels) && f < |lambdas| == |parts| && lambdas[f].Covered()
    requires WellFormed(Flatten(parts)) && Consistent(Flatten(parts), sizes) && |sizes| == |Flatten(parts)|
    requires image.literals == Resolved(literals) && lambdas[f].Output().gen.nlocals <= |s.regs|
    requires Near(parts, lambdas, sizes, f)
    ensures RunsAs(LinkedCode(Flatten(parts), sizes), image, Pos(sizes, Start(parts, f)),
                   lambdas[f].params, lambdas[f].body, lambdas[f].loops, s)
  {
    hide *;
    var items, l := Flatten(parts), lambdas[f];
    var p, at := Program(items, image), Start(parts, f);
    CoveredMeans(l);
    LambdaPlaced(parts, lambdas, literals, labels, f, image, s);
    AllLambdasShaped(parts, lambdas, literals, labels);
    AllShapedAt(parts, lambdas, f);
    NearMeans(parts, lambdas, sizes, f);
    FunctionSpan(parts, f);
    FunctionConfined(parts, f, l.loops, image, sizes);
    var c := FunctionCorrect(p, l.params, l.body, l.loops, l.literals, l.labels, at, s);
    ReachesBytes(p, sizes, at, Start(parts, f + 1), At(at, s), c);
    AnswersBytes(p, sizes, l.params, l.body, l.loops, s, c);
    RunsTo(LinkedCode(items, sizes), image, Pos(sizes, at), l.params, l.body, l.loops, s,
           Point(Pos(sizes, c.pc), c.state));
  }

  lemma NearMeans(parts: seq<seq<Item>>, lambdas: seq<Compiled>, sizes: seq<nat>, f: nat)
    requires f < |parts| == |lambdas| && |sizes| == |Flatten(parts)| && Near(parts, lambdas, sizes, f)
    ensures Start(parts, f + 1) <= |Flatten(parts)|
    ensures lambdas[f].loops ==> NoFarLoops(Flatten(parts), sizes, Start(parts, f), Start(parts, f + 1))
  {
    hide NoFarLoops, Flatten, Start;
    FunctionSpan(parts, f);
  }

  lemma CoveredMeans(l: Compiled)
    requires l.Covered()
    ensures Compiler.Covered(l.params, l.body, l.loops)
    ensures l.Output() == Compiler.CompileLambda(l.params, l.body, l.loops, l.literals, l.labels)
  {
    hide CompileLambda;
  }

  lemma ReachesBytes(p: Program, sizes: seq<nat>, a: nat, b: nat, c: Config, d: Config)
    requires WellFormed(p.items) && Consistent(p.items, sizes) && |sizes| == |p.items| && b <= |p.items|
    requires Confined(p, sizes, a, b) && Reaches(p, c, d) && a <= c.pc < b
    ensures a <= d.pc < b && Runnable(p.items, sizes, d.pc)
    ensures ByteReaches(LinkedCode(p.items, sizes), p.image, Point(Pos(sizes, c.pc), c.state),
              Point(Pos(sizes, d.pc), d.state))
  {
    hide WellFormed, Consistent, Runnable, RunnableRun, Confined, LinkedCode, Step;
    var n: nat :| Steps(p, c, n) == Some(d);
    RunConfined(p, sizes, a, b, c, n);
    StepConfined(p, sizes, a, b, d);
    RunRefinesAll(p, sizes, c, d, n);
  }

  lemma AnswersBytes(p: Program, sizes: seq<nat>, params: seq<Name>, body: Forms, loops: bool, s: State, c: Config)
    requires WellFormed(p.items) && Consistent(p.items, sizes) && |sizes| == |p.items|
    requires c.pc < |p.items| && Runnable(p.items, sizes, c.pc) && Answers(p, params, body, loops, s, c)
    ensures ByteAnswers(LinkedCode(p.items, sizes), p.image, params, body, loops, s, Point(Pos(sizes, c.pc), c.state))
  {
    hide WellFormed, Consistent, Runnable, LinkedCode, Step, ByteStep, EvalProgn, Arguments, Decode, Pos;
    if |p.image.args| != |params| {
      ByteRejects(p, sizes, c);
    } else if p.items[c.pc] == Op(VM_RETURN) {
      ByteReturn(p.items, sizes, c.pc);
    }
  }

  lemma RunsTo(code: seq<Byte>, image: Image, entry: nat, params: seq<Name>, body: Forms, loops: bool, s: State,
               d: Point)
    requires ByteReaches(code, image, Point(entry, s), d) && ByteAnswers(code, image, params, body, loops, s, d)
    ensures RunsAs(code, image, entry, params, body, loops, s)
  {
    hide ByteReaches, ByteAnswers;
  }

  /** End to end: in the linked bytes of any module of compiled lambdas, each
      function computes what its source means, unless it jumps back too far. */
  lemma LinkedLambdaImplements(parts: seq<seq<Item>>, lambdas: seq<Compiled>, literals: seq<Constant>, labels: nat,
                               sizes: seq<nat>, f: nat)
    requires InOrder(parts, lambdas, literals, labels) && f < |lambdas| == |parts| && lambdas[f].Covered()
    requires WellFormed(Flatten(parts)) && Consistent(Flatten(parts), sizes) && |sizes| == |Flatten(parts)|
    requires Near(parts, lambdas, sizes, f)
    ensures Implements(LinkedCode(Flatten(parts), sizes), Pos(sizes, Start(parts, f)), Resolved(literals),
                       lambdas[f].Output().gen.nlocals, lambdas[f])
  {
    hide InOrder, WellFormed, Consistent, LinkedCode, RunsAs, CompileLambda, Start, Flatten, Near;
    var l := lambdas[f];
    forall image: Image, s: State | image.literals == Resolved(literals) && l.Output().gen.nlocals <= |s.regs|
      ensures RunsAs(LinkedCode(Flatten(parts), sizes), image, Pos(sizes, Start(parts, f)), l.params, l.body, l.loops,
                     s)
    {
      LambdaRuns(parts, lambdas, literals, labels, sizes, f, image, s);
    }
  }

  // ---- the module as it is compiled and linked ----

  // What linking needs to know of a function: its entry label and its registers.
  datatype Function = Function(entry: nat, nlocals: nat)

  lemma InOrderLength(parts: seq<seq<Item>>, lambdas: seq<Compiled>, literals: seq<Constant>, labels: nat)
    requires InOrder(parts, lambdas, literals, labels)
    ensures |parts| == |lambdas|
    ensures forall f :: 0 <= f < |lambdas| ==> lambdas[f].Covered()
  {
    hide CompileLambda, ScopedForms;
    assert forall f :: 0 <= f < |lambdas| ==> IsLambda(parts[f], lambdas[f], literals, Bound(lambdas, f, labels));
  }

  lemma ShapedForward(code: seq<Item>, ids: set<nat>, open: set<int>)
    requires Shaped(code, ids, open)
    ensures Forward(code, open) && AllWellShaped(code)
  {
    hide Forward, AllWellShaped;
  }

  // The entry label of a function stands first among its items.
  lemma EntryTarget(parts: seq<seq<Item>>, lambdas: seq<Compiled>, literals: seq<Constant>, labels: nat, f: nat)
    requires InOrder(parts, lambdas, literals, labels) && f < |lambdas|
    ensures f < |parts| && Start(parts, f) < |Flatten(parts)|
    ensures Target(Flatten(parts), lambdas[f].labels) == Start(parts, f)
    ensures Mark(lambdas[f].labels) in Flatten(parts)
  {
    hide *;
    var l := lambdas[f];
    InOrderAt(parts, lambdas, literals, labels, f);
    CoveredMeans(l);
    StartsWithMark(l);
    FunctionItems(parts, f);
    FunctionSpan(parts, f);
    ModuleShaped(parts, lambdas, literals, labels);
    ShapedMarks(Flatten(parts), Ids(0, labels), {BACKWARD});
    assert Flatten(parts)[Start(parts, f) + 0] == parts[f][0];
    TargetIs(Flatten(parts), Start(parts, f), l.labels);
  }

  lemma StartsWithMark(l: Compiled)
    requires l.Covered()
    ensures l.Output().code != [] && l.Output().code[0] == Mark(l.labels)
  {
    hide CompileProgn, Prologue;
  }

  lemma MarkIsPlaced(fs: seq<Cfunction>, parts: seq<seq<Item>>, labels: map<nat, Place>, id: nat)
    requires AllAnnotated(fs, parts) && LabelsAgree(fs, labels) && Mark(id) in Flatten(parts)
    ensures id in labels
  {
    var g :| 0 <= g < |Flatten(parts)| && Flatten(parts)[g] == Mark(id);
    var f, i := ItemAnnotation(fs, parts, g);
    assert fs[f].annotations[i].item.Mark?;
  }

  // The position that link_load reads for an entry label is that of the function's first item.
  lemma EntryPosition(fs: seq<Cfunction>, parts: seq<seq<Item>>, labels: map<nat, Place>, sizes: seq<nat>, id: nat)
    requires Relaxing(fs, parts, labels, sizes) && Mark(id) in Flatten(parts)
    ensures id in labels && |sizes| == |Flatten(parts)| && Target(Flatten(parts), id) < |sizes|
    ensures var p := labels[id];
            && p.cfunction < |fs| && p.index < |fs[p.cfunction].annotations|
            && ModulePosition(fs, p.cfunction, p.index) == Pos(sizes, Target(Flatten(parts), id))
  {
    hide *;
    RelaxingMeans(fs, parts, labels, sizes, 0);
    RelaxingLaid(fs, parts, labels, sizes);
    LaidIsAnnotated(fs, parts, sizes);
    MarkIsPlaced(fs, parts, labels, id);
    PlaceIsTarget(fs, parts, labels, id);
    PositionInLayout(fs, parts, sizes, labels[id].cfunction, labels[id].index);
  }

  lemma RelaxingLaid(fs: seq<Cfunction>, parts: seq<seq<Item>>, labels: map<nat, Place>, sizes: seq<nat>)
    requires Relaxing(fs, parts, labels, sizes)
    ensures AllLaid(fs, parts, sizes)
  {
    hide AllLaid, LabelsAgree, LabelsPlaced, Flatten, Optimistic, WellFormed;
  }

  // Where the code of function f ends.
  function EndOf(entries: seq<nat>, length: nat, f: nat): nat
    requires f < |entries|
  {
    if f + 1 < |entries| then entries[f + 1] else length
  }

  lemma ShortIsNear(parts: seq<seq<Item>>, lambdas: seq<Compiled>, literals: seq<Constant>, labels: nat,
                    sizes: seq<nat>, entries: seq<nat>, f: nat)
    requires InOrder(parts, lambdas, literals, labels) && f < |lambdas| == |parts| == |entries|
    requires WellFormed(Flatten(parts)) && Consistent(Flatten(parts), sizes) && |sizes| == |Flatten(parts)|
    requires forall g :: 0 <= g < |entries| ==> Start(parts, g) < |sizes| && entries[g] == Pos(sizes, Start(parts, g))
    requires lambdas[f].loops ==> EndOf(entries, |LinkedCode(Flatten(parts), sizes)|, f) - entries[f] <= 0x8000
    ensures Near(parts, lambdas, sizes, f)
  {
    hide *;
    AllLambdasShaped(parts, lambdas, literals, labels);
    AllShapedAt(parts, lambdas, f);
    FunctionItems(parts, f);
    FunctionSpan(parts, f);
    if lambdas[f].loops {
      EndMeans(parts, sizes, entries, f);
      ShortFunction(parts, f, true, sizes);
    }
    MakeNear(parts, lambdas, sizes, f);
  }

  lemma EndMeans(parts: seq<seq<Item>>, sizes: seq<nat>, entries: seq<nat>, f: nat)
    requires WellFormed(Flatten(parts)) && Consistent(Flatten(parts), sizes) && |sizes| == |Flatten(parts)|
    requires f < |parts| == |entries|
    requires forall g :: 0 <= g < |entries| ==> Start(parts, g) < |sizes| && entries[g] == Pos(sizes, Start(parts, g))
    requires f + 1 == |parts| ==> Start(parts, f + 1) == |Flatten(parts)|
    ensures Start(parts, f + 1) <= |sizes|
    ensures EndOf(entries, |LinkedCode(Flatten(parts), sizes)|, f) == Pos(sizes, Start(parts, f + 1))
  {
    hide Flatten, Start, Pos, LinkedCode, WellFormed, Consistent;
    if f + 1 == |parts| { TotalSize(Flatten(parts), sizes); }
  }

  lemma TotalSize(items: seq<Item>, sizes: seq<nat>)
    requires WellFormed(items) && Consistent(items, sizes)
    ensures |LinkedCode(items, sizes)| == Pos(sizes, |items|)
  {
    hide Pos, WellFormed, Consistent;
  }

  lemma MakeNear(parts: seq<seq<Item>>, lambdas: seq<Compiled>, sizes: seq<nat>, f: nat)
    requires f < |parts| == |lambdas| && |sizes| == |Flatten(parts)| && Start(parts, f + 1) <= |Flatten(parts)|
    requires lambdas[f].loops ==> NoFarLoops(Flatten(parts), sizes, Start(parts, f), Start(parts, f + 1))
    ensures Near(parts, lambdas, sizes, f)
  {
    hide NoFarLoops, Flatten, Start;
  }

  class ModuleCompiler {
    const m: Module
    var literals: seq<Constant>
    var functions: seq<Function>
    ghost var lambdas: seq<Compiled>

    ghost predicate Valid()
      reads this, m
    {
      && m.Valid() && InOrder(m.parts, lambdas, literals, m.nextLabel)
      && |functions| == |lambdas|
      && forall f :: 0 <= f < |lambdas| ==>
           lambdas[f].Covered() && functions[f] == Function(lambdas[f].labels, lambdas[f].Output().gen.nlocals)
    }

    constructor ()
      ensures Valid() && fresh(m) && lambdas == [] && literals == []
    {
      m := new Module();
      literals, functions, lambdas := [], [], [];
    }

    lemma ValidMeans()
      requires Valid()
      ensures m.Valid() && Emitted(m.cfunctions, m.parts, m.labels) && |m.cfunctions| == |m.parts|
      ensures InOrder(m.parts, lambdas, literals, m.nextLabel) && |functions| == |lambdas|
      ensures forall f :: 0 <= f < |lambdas| ==>
                lambdas[f].Covered() && functions[f] == Function(lambdas[f].labels, lambdas[f].Output().gen.nlocals)
    {
      hide InOrder, CompileLambda, ScopedForms, Emitted;
      ValidIsEmitted(m);
    }

    /** bytecompile_into: fails exactly when an operand exceeds a limit or the
        lambda is outside what this model covers. */
    method Add(params: seq<Name>, body: Forms, loops: bool) returns (ok: bool)
      requires Valid()
      modifies this, m
      ensures var l := Compiled(params, body, loops, old(literals), old(m.nextLabel));
              && ok == (l.Covered() && WithinLimits(l.Output().code))
              && (ok ==> Valid() && lambdas == old(lambdas) + [l])
    {
      hide CompileLambda, Module.Valid, ScopedForms, InOrder, WithinLimits;
      ghost var l := Compiled(params, body, loops, literals, m.nextLabel);
      var entry, nlocals := m.nextLabel, 0;
      ok, literals, nlocals := AddLambda(m, params, body, loops, literals);
      if ok {
        AppendInOrder(old(m.parts), lambdas, old(literals), old(m.nextLabel), l);
        functions := functions + [Function(entry, nlocals)];
        lambdas := lambdas + [l];
      }
    }

    /** link_load: when a layout exists, every function of the module, called
        at its entry point, computes in bytes what its source means, if it has
        no loops or is at most 32768 bytes long. */
    method LinkLoad() returns (code: Option<array<Byte>>, entries: seq<nat>)
      requires Valid() && lambdas != []
      modifies m
      ensures lambdas == old(lambdas) && literals == old(literals) && functions == old(functions)
                && m.parts == old(m.parts)
      ensures code.None? ==> WellFormed(Flatten(m.parts)) && forall t :: !Consistent(Flatten(m.parts), t)
      ensures code.Some? ==>
                |entries| == |lambdas| == |functions|
                && forall f :: 0 <= f < |lambdas| ==>
                     (lambdas[f].loops ==> EndOf(entries, code.value.Length, f) - entries[f] <= 0x8000) ==>
                     Implements(code.value[..], entries[f], Resolved(literals), functions[f].nlocals, lambdas[f])
    {
      hide *;
      entries := [];
      ghost var labels := m.nextLabel;
      ghost var parts := m.parts;
      ValidMeans();
      InOrderLength(parts, lambdas, literals, labels);
      AllLambdasShaped(parts, lambdas, literals, labels);
      ShapedPlaced(m.cfunctions, parts, lambdas, m.labels);
      EmittedIsWellFormed(m.cfunctions, parts, m.labels);
      ghost var sizes;
      code, sizes := Link(m);
      if code == None { return; }
      RelaxingMeans(m.cfunctions, parts, m.labels, sizes, 0);
      var f := 0;
      while f < |functions|
        invariant 0 <= f <= |functions| && |entries| == f
        invariant m.parts == parts && Relaxing(m.cfunctions, parts, m.labels, sizes)
        invariant code.Some? && code.value[..] == LinkedCode(Flatten(parts), sizes)
        invariant forall g :: 0 <= g < f ==> Start(parts, g) < |sizes| && entries[g] == Pos(sizes, Start(parts, g))
      {
        EntryTarget(parts, lambdas, literals, labels, f);
        EntryPosition(m.cfunctions, parts, m.labels, sizes, functions[f].entry);
        var place := m.labels[functions[f].entry];
        entries := entries + [ModulePosition(m.cfunctions, place.cfunction, place.index)];
        f := f + 1;
      }
      forall f | 0 <= f < |lambdas|
          && (lambdas[f].loops ==> EndOf(entries, code.value.Length, f) - entries[f] <= 0x8000)
        ensures Implements(code.value[..], entries[f], Resolved(literals), functions[f].nlocals, lambdas[f])
      {
        ShortIsNear(parts, lambdas, literals, labels, sizes, entries, f);
        LinkedLambdaImplements(parts, lambdas, literals, labels, sizes, f);
      }
    }
  }
}
