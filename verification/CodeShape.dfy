/** What every piece of compiled code looks like to the linker: each label is
    marked once, every jump of a function without loops goes forward, every
    instruction has the operands its opcode takes. */
module CodeShape {
  import opened Options
  import opened Instructions
  import opened Source
  import opened SymbolicMachine
  import opened ByteMachine
  import opened Compiler

  // The labels from lo up to hi.
  function Ids(lo: nat, hi: nat): (ids: set<nat>)
    ensures forall id :: id in ids <==> lo <= id < hi
  {
    if hi <= lo then {} else Ids(lo, hi - 1) + {hi - 1}
  }

  // Marks of the given labels only, each at most once.
  ghost predicate MarksOnce(code: seq<Item>, ids: set<nat>) {
    forall id: nat :: multiset(code)[Mark(id)] <= if id in ids then 1 else 0
  }

  ghost predicate MarkedAfter(code: seq<Item>, i: nat, id: nat) {
    exists j :: i < j < |code| && code[j] == Mark(id)
  }

  // Among the open labels of code: the code may jump backward.
  const BACKWARD := -1

  // A jump's label is marked further on, or it is one of the open ones, or it is
  // marked anywhere in code that may jump backward.
  ghost predicate Forward(code: seq<Item>, open: set<int>) {
    forall i :: 0 <= i < |code| && code[i].IsLabelFixup() ==>
      code[i].id in open || MarkedAfter(code, i, code[i].id) || (BACKWARD in open && Mark(code[i].id) in code)
  }

  ghost predicate AllWellShaped(code: seq<Item>) {
    forall i :: 0 <= i < |code| && EffectOf(code[i]).Run? ==> WellShaped(EffectOf(code[i]).ins)
  }

  ghost predicate Shaped(code: seq<Item>, ids: set<nat>, open: set<int>) {
    MarksOnce(code, ids) && Forward(code, open) && AllWellShaped(code)
  }

  lemma MarksJoin(a: seq<Item>, idsA: set<nat>, b: seq<Item>, idsB: set<nat>, ids: set<nat>)
    requires MarksOnce(a, idsA) && MarksOnce(b, idsB) && idsA !! idsB && idsA + idsB <= ids
    ensures MarksOnce(a + b, ids)
  {
    forall id: nat ensures multiset(a + b)[Mark(id)] <= if id in ids then 1 else 0 {
      assert multiset(a + b) == multiset(a) + multiset(b);
    }
  }

  lemma ForwardJoin(a: seq<Item>, openA: set<int>, b: seq<Item>, openB: set<int>, open: set<int>)
    requires Forward(a, openA) && Forward(b, openB) && openB <= open
    requires forall id: int :: id in openA ==> id in open || (0 <= id && Mark(id) in b)
    ensures Forward(a + b, open)
  {
    var c := a + b;
    forall i | 0 <= i < |c| && c[i].IsLabelFixup() && c[i].id !in open
      ensures MarkedAfter(c, i, c[i].id) || (BACKWARD in open && Mark(c[i].id) in c)
    {
      var id := c[i].id;
      if i < |a| {
        assert c[i] == a[i];
        if id in openA {
          var j :| 0 <= j < |b| && b[j] == Mark(id);
          assert c[|a| + j] == Mark(id);
        } else if MarkedAfter(a, i, id) {
          var j :| i < j < |a| && a[j] == Mark(id);
          assert c[j] == Mark(id);
        } else {
          var j :| 0 <= j < |a| && a[j] == Mark(id);
          assert BACKWARD in openA && c[j] == Mark(id);
        }
      } else {
        assert c[i] == b[i - |a|];
        if MarkedAfter(b, i - |a|, id) {
          var j :| i - |a| < j < |b| && b[j] == Mark(id);
          assert c[|a| + j] == Mark(id);
        } else if id !in openB {
          var j :| 0 <= j < |b| && b[j] == Mark(id);
          assert c[|a| + j] == Mark(id);
        }
      }
    }
  }

  /** Pieces of code with labels of their own join; a jump may leave the first
      piece for a mark in the second. */
  lemma Join(a: seq<Item>, idsA: set<nat>, openA: set<int>, b: seq<Item>, idsB: set<nat>, openB: set<int>,
             ids: set<nat>, open: set<int>)
    requires Shaped(a, idsA, openA) && Shaped(b, idsB, openB)
    requires idsA !! idsB && idsA + idsB <= ids && openB <= open
    requires forall id: int :: id in openA ==> id in open || (0 <= id && Mark(id) in b)
    ensures Shaped(a + b, ids, open)
  {
    hide MarksOnce, Forward;
    MarksJoin(a, idsA, b, idsB, ids);
    ForwardJoin(a, openA, b, openB, open);
  }

  lemma Widen(code: seq<Item>, ids: set<nat>, open: set<int>, ids': set<nat>, open': set<int>)
    requires Shaped(code, ids, open) && ids <= ids' && open <= open'
    ensures Shaped(code, ids', open')
  {
  }

  // Labels marked in code that may jump backward need not be open.
  lemma Close(code: seq<Item>, ids: set<nat>, open: set<int>, open': set<int>)
    requires Shaped(code, ids, open) && BACKWARD in open'
    requires forall id: int :: id in open ==> id in open' || (0 <= id && Mark(id) in code)
    ensures Shaped(code, ids, open')
  {
  }

  // Code without labels or jumps.
  lemma Plain(code: seq<Item>, open: set<int>)
    requires forall i :: 0 <= i < |code| ==> !code[i].Mark? && !code[i].IsLabelFixup()
    requires AllWellShaped(code)
    ensures Shaped(code, {}, open)
  {
    forall id: nat ensures multiset(code)[Mark(id)] <= 0 {
      assert Mark(id) !in code;
    }
  }

  lemma OneMark(id: nat, open: set<int>)
    ensures Shaped([Mark(id)], {id}, open)
  {
    assert forall k: nat :: multiset([Mark(id)])[Mark(k)] == if k == id then 1 else 0;
  }

  lemma OneJump(item: Item)
    requires item.IsLabelFixup() && !EffectOf(item).Run?
    ensures Shaped([item], {}, {item.id})
  {
    assert forall k: nat :: multiset([item])[Mark(k)] == 0;
  }

  // The labels of the blocks and tags in scope, and whether there may be loops.
  function ExitLabels(scope: Scope): set<int> {
    match scope
    case Null(loops) => if loops then {BACKWARD} else {}
    case Var(_, outer) => ExitLabels(outer)
    case Blk(_, exit, _, outer) => {exit} + ExitLabels(outer)
    case Tags(tags, labels, outer) => (set tag | tag in tags :: labels + TagIndex(tags, tag)) + ExitLabels(outer)
  }

  lemma {:induction false} ExitIsOpen(scope: Scope, to: Destination)
    requires FindExit(scope, to).Some?
    ensures FindExit(scope, to).value.exit in ExitLabels(scope)
  {
    match scope
    case Var(_, outer) => ExitIsOpen(outer, to);
    case Blk(_, _, _, outer) => if !scope.Catches(to) { ExitIsOpen(outer, to); }
    case Tags(_, _, outer) => if !scope.Catches(to) { ExitIsOpen(outer, to); }
  }

  lemma {:induction false} LoopsAllowed(scope: Scope)
    ensures Nowhere in Exits(scope) <==> BACKWARD in ExitLabels(scope)
  {
    match scope
    case Null(_) =>
    case Var(_, outer) => LoopsAllowed(outer);
    case Blk(_, _, _, outer) => LoopsAllowed(outer);
    case Tags(_, _, outer) => LoopsAllowed(outer);
  }

  lemma {:induction false} UnwindPlain(scope: Scope, to: Destination)
    ensures forall i :: 0 <= i < |Unwind(scope, to)| ==>
              Unwind(scope, to)[i].EntryClose? && !Unwind(scope, to)[i].lex.closedOverP
    decreases scope
  {
    match scope
    case Null(_) =>
    case Var(_, outer) => UnwindPlain(outer, to);
    case Blk(_, _, _, outer) => UnwindPlain(outer, to);
    case Tags(_, _, outer) => UnwindPlain(outer, to);
  }

  lemma {:induction false} BindAllLabels(scope: Scope, bindings: Bindings)
    ensures ExitLabels(BindAll(scope, bindings)) == ExitLabels(scope)
    decreases bindings
  {
    match bindings
    case NoMore =>
    case Binding(name, _, rest) => BindAllLabels(Var(name, scope), rest);
  }

  // ---- the shape of compiled code ----

  ghost predicate ShapedOutput(o: Output, labels: nat, scope: Scope) {
    labels <= o.gen.labels && Shaped(o.code, Ids(labels, o.gen.labels), ExitLabels(scope))
  }

  // Joins an output with code that has no labels.
  lemma WithPlain(o: Output, labels: nat, scope: Scope, code: seq<Item>)
    requires ShapedOutput(o, labels, scope)
    requires forall i :: 0 <= i < |code| ==> !code[i].Mark? && !code[i].IsLabelFixup()
    requires AllWellShaped(code)
    ensures Shaped(o.code + code, Ids(labels, o.gen.labels), ExitLabels(scope))
    ensures Shaped(code + o.code, Ids(labels, o.gen.labels), ExitLabels(scope))
  {
    hide Shaped, AllWellShaped;
    Plain(code, {});
    Join(o.code, Ids(labels, o.gen.labels), ExitLabels(scope), code, {}, {}, Ids(labels, o.gen.labels),
        ExitLabels(scope));
    Join(code, {}, {}, o.code, Ids(labels, o.gen.labels), ExitLabels(scope), Ids(labels, o.gen.labels),
        ExitLabels(scope));
  }

  // Joins two outputs, the second compiled after the first.
  lemma InTurn(a: Output, labels: nat, scopeA: Scope, b: Output, scopeB: Scope)
    requires ShapedOutput(a, labels, scopeA) && ShapedOutput(b, a.gen.labels, scopeB)
    requires ExitLabels(scopeA) == ExitLabels(scopeB)
    ensures ShapedOutput(Output(a.code + b.code, b.gen), labels, scopeA)
  {
    hide Shaped;
    Join(a.code, Ids(labels, a.gen.labels), ExitLabels(scopeA), b.code, Ids(a.gen.labels, b.gen.labels),
        ExitLabels(scopeB),
         Ids(labels, b.gen.labels), ExitLabels(scopeA));
  }

  lemma LiteralShaped(value: Value, scope: Scope, r: Receiving, g: Gen)
    ensures ShapedOutput(CompileLiteral(value, r, g), g.labels, scope)
  {
    var o := CompileLiteral(value, r, g);
    Plain(o.code, ExitLabels(scope));
    hide Shaped;
    Widen(o.code, {}, ExitLabels(scope), Ids(g.labels, o.gen.labels), ExitLabels(scope));
  }

  /** Compiled code is shaped, whatever the form and the context. */
  lemma {:induction false} CompiledShaped(form: Form, scope: Scope, r: Receiving, g: Gen)
    requires Scoped(form, Vars(scope), Exits(scope))
    ensures ShapedOutput(Compile(form, scope, r, g), g.labels, scope)
    decreases form, 1
  {
    hide Shaped, AllWellShaped, CompileIf, CompileBlock, CompileProg1, CompileTagbody, CompileProgn, CompileClauses,
      CompileSetq, CompileLiteral;
    match form
    case Literal(value) => LiteralShaped(value, scope, r, g);
    case Variable(name) => VariableShaped(name, scope, r, g);
    case Progn(body) => PrognShaped(body, scope, r, g);
    case Let(_, _) => LetShaped(form, scope, r, g);
    case LetStar(clauses) => ClausesShaped(clauses, scope, r, g);
    case Setq(pairs) => SetqShaped(pairs, scope, r, g);
    case If(_, _, _) => IfShaped(form, scope, r, g);
    case Block(_, _) => BlockShaped(form, scope, r, g);
    case ReturnFrom(_, _) => ReturnFromShaped(form, scope, r, g);
    case Tagbody(_) => TagbodyShaped(form, scope, r, g);
    case Go(_) => GoShaped(form, scope, r, g);
    case MultipleValueProg1(_, _) => Prog1Shaped(form, scope, r, g);
    case Call(_, _) => CallShaped(form, scope, r, g);
  }

  lemma VariableShaped(name: Name, scope: Scope, r: Receiving, g: Gen)
    requires name in Vars(scope)
    ensures ShapedOutput(Compile(Variable(name), scope, r, g), g.labels, scope)
  {
    var o := Compile(Variable(name), scope, r, g);
    Plain(o.code, ExitLabels(scope));
    hide Shaped;
    Widen(o.code, {}, ExitLabels(scope), Ids(g.labels, o.gen.labels), ExitLabels(scope));
  }

  lemma {:induction false} PrognShaped(forms: Forms, scope: Scope, r: Receiving, g: Gen)
    requires ScopedForms(forms, Vars(scope), Exits(scope))
    ensures ShapedOutput(CompileProgn(forms, scope, r, g), g.labels, scope)
    decreases forms, 1
  {
    hide ShapedOutput, Compile;
    match forms
    case Done => LiteralShaped(Nil, scope, r, g);
    case More(first, rest) =>
      if rest.Done? {
        CompiledShaped(first, scope, r, g);
      } else {
        CompiledShaped(first, scope, 0, g);
        var f := Compile(first, scope, 0, g);
        PrognShaped(rest, scope, r, f.gen);
        InTurn(f, g.labels, scope, CompileProgn(rest, scope, r, f.gen), scope);
      }
  }

  lemma {:induction false} EffectsShaped(forms: Forms, scope: Scope, g: Gen)
    requires ScopedForms(forms, Vars(scope), Exits(scope))
    ensures ShapedOutput(CompileEffects(forms, scope, g), g.labels, scope)
    decreases forms, 1
  {
    hide ShapedOutput, Compile;
    match forms
    case Done => EmptyShaped(scope, g);
    case More(first, rest) =>
      CompiledShaped(first, scope, 0, g);
      var f := Compile(first, scope, 0, g);
      EffectsShaped(rest, scope, f.gen);
      InTurn(f, g.labels, scope, CompileEffects(rest, scope, f.gen), scope);
  }

  lemma EmptyShaped(scope: Scope, g: Gen)
    ensures ShapedOutput(Output([], g), g.labels, scope)
  {
    Plain([], ExitLabels(scope));
  }

  lemma {:induction false} ArgsShaped(forms: Forms, scope: Scope, g: Gen)
    requires ScopedForms(forms, Vars(scope), Exits(scope))
    ensures ShapedOutput(CompileArgs(forms, scope, g), g.labels, scope)
    decreases forms, 1
  {
    hide ShapedOutput, Compile;
    match forms
    case Done => EmptyShaped(scope, g);
    case More(first, rest) =>
      CompiledShaped(first, scope, 1, g);
      var f := Compile(first, scope, 1, g);
      ArgsShaped(rest, scope, f.gen);
      InTurn(f, g.labels, scope, CompileArgs(rest, scope, f.gen), scope);
  }

  // An output followed by plain code, with the generator advanced but no new label.
  lemma ThenPlain(o: Output, labels: nat, scope: Scope, code: seq<Item>, g': Gen)
    requires ShapedOutput(o, labels, scope) && g'.labels == o.gen.labels
    requires forall i :: 0 <= i < |code| ==> !code[i].Mark? && !code[i].IsLabelFixup()
    requires AllWellShaped(code)
    ensures ShapedOutput(Output(o.code + code, g'), labels, scope)
  {
    hide Shaped, AllWellShaped;
    WithPlain(o, labels, scope, code);
  }

  lemma {:induction false} InitsShaped(bindings: Bindings, scope: Scope, post: Scope, g: Gen)
    requires ScopedInits(bindings, Vars(scope), Exits(scope))
    ensures ShapedOutput(CompileInits(bindings, scope, post, g), g.labels, scope)
    decreases bindings, 1
  {
    hide ShapedOutput, Compile;
    match bindings
    case NoMore => EmptyShaped(scope, g);
    case Binding(name, init, rest) =>
      CompiledShaped(init, scope, 1, g);
      var f := Compile(init, scope, 1, g);
      var g1 := f.gen.Needing(post.FrameEnd() + 1);
      var cell := [LexRef(Lex(post.FrameEnd()), VM_MAKE_CELL)];
      ThenPlain(f, g.labels, scope, cell, g1);
      InitsShaped(rest, scope, Var(name, post), g1);
      InTurn(Output(f.code + cell, g1), g.labels, scope, CompileInits(rest, scope, Var(name, post), g1), scope);
  }

  lemma {:induction false} ClausesShaped(clauses: Clauses, scope: Scope, r: Receiving, g: Gen)
    requires ScopedClauses(clauses, Vars(scope), Exits(scope))
    ensures ShapedOutput(CompileClauses(clauses, scope, r, g), g.labels, scope)
    decreases clauses, 1
  {
    hide ShapedOutput, Compile;
    match clauses
    case In(body) => PrognShaped(body, scope, r, g);
    case Clause(name, init, rest) =>
      CompiledShaped(init, scope, 1, g);
      var f := Compile(init, scope, 1, g);
      var index := scope.FrameEnd();
      var g1 := f.gen.Needing(index + 1);
      var bind := [LexRef(Lex(index), VM_MAKE_CELL), Op1(VM_SET, index)];
      ThenPlain(f, g.labels, scope, bind, g1);
      ClausesShaped(rest, Var(name, scope), r, g1);
      InTurn(Output(f.code + bind, g1), g.labels, scope, CompileClauses(rest, Var(name, scope), r, g1),
          Var(name, scope));
  }

  lemma {:induction false} SetqShaped(pairs: Bindings, scope: Scope, r: Receiving, g: Gen)
    requires ScopedPairs(pairs, Vars(scope), Exits(scope))
    ensures ShapedOutput(CompileSetq(pairs, scope, r, g), g.labels, scope)
    decreases pairs, 1
  {
    hide ShapedOutput, Compile, FindVar, Vars;
    match pairs
    case NoMore =>
      assert CompileSetq(pairs, scope, r, g) == CompileLiteral(Nil, r, g);
      LiteralShaped(Nil, scope, r, g);
    case Binding(name, init, rest) =>
      CompiledShaped(init, scope, 1, g);
      var f := Compile(init, scope, 1, g);
      var r1: Receiving := if rest.NoMore? then r else 0;
      var dup := if r1 != 0 then [Op(VM_DUP)] else [];
      var set_ := [LexSet(Lex(FindVar(scope, name).value))];
      ThenPlain(f, g.labels, scope, dup, f.gen);
      ThenPlain(Output(f.code + dup, f.gen), g.labels, scope, set_, f.gen);
      ThenPlain(Output(f.code + dup + set_, f.gen), g.labels, scope, PopIfAll(r1), f.gen);
      if rest.Binding? {
        SetqShaped(rest, scope, r, f.gen);
        InTurn(Output(f.code + dup + set_ + PopIfAll(r1), f.gen), g.labels, scope,
            CompileSetq(rest, scope, r, f.gen), scope);
      }
  }

  lemma {:induction false} LetShaped(form: Form, scope: Scope, r: Receiving, g: Gen)
    requires form.Let? && Scoped(form, Vars(scope), Exits(scope))
    ensures ShapedOutput(Compile(form, scope, r, g), g.labels, scope)
    decreases form, 0
  {
    hide ShapedOutput, CompileInits, CompileProgn, BindAll;
    var i := CompileInits(form.bindings, scope, scope, g);
    InitsShaped(form.bindings, scope, scope, g);
    var bind := EmitBind(Count(form.bindings), scope.FrameEnd());
    ThenPlain(i, g.labels, scope, bind, i.gen);
    var inner := BindAll(scope, form.bindings);
    PrognShaped(form.body, inner, r, i.gen);
    BindAllLabels(scope, form.bindings);
    InTurn(Output(i.code + bind, i.gen), g.labels, scope, CompileProgn(form.body, inner, r, i.gen), inner);
  }

  lemma {:induction false} CallShaped(form: Form, scope: Scope, r: Receiving, g: Gen)
    requires form.Call? && Scoped(form, Vars(scope), Exits(scope))
    ensures ShapedOutput(Compile(form, scope, r, g), g.labels, scope)
    decreases form, 0
  {
    hide ShapedOutput, CompileArgs, LiteralIndex;
    var k := FunctionCellInfo(form.function_);
    var g1 := WithLiteral(g, k);
    var cell := [Op1(VM_CALLED_FDEFINITION, LiteralIndex(g.literals, k))];
    EmptyShaped(scope, g);
    ThenPlain(Output([], g), g.labels, scope, cell, g1);
    assert [] + cell == cell;
    ArgsShaped(form.args, scope, g1);
    var a := CompileArgs(form.args, scope, g1);
    InTurn(Output(cell, g1), g.labels, scope, a, scope);
    ThenPlain(Output(cell + a.code, a.gen), g.labels, scope, [EmitCall(Length(form.args), r)], a.gen);
  }

  lemma {:induction false} Prog1Shaped(form: Form, scope: Scope, r: Receiving, g: Gen)
    requires form.MultipleValueProg1? && Scoped(form, Vars(scope), Exits(scope))
    ensures ShapedOutput(CompileProg1(form, scope, r, g), g.labels, scope)
    decreases form, 0
  {
    hide ShapedOutput, CompileEffects, Compile;
    var f := Compile(form.first, scope, r, g);
    CompiledShaped(form.first, scope, r, g);
    var b := CompileEffects(form.body, scope, f.gen);
    EffectsShaped(form.body, scope, f.gen);
    if r == -1 {
      ThenPlain(f, g.labels, scope, [Op(VM_PUSH_VALUES)], f.gen);
      InTurn(Output(f.code + [Op(VM_PUSH_VALUES)], f.gen), g.labels, scope, b, scope);
      ThenPlain(Output(f.code + [Op(VM_PUSH_VALUES)] + b.code, b.gen), g.labels, scope, [Op(VM_POP_VALUES)], b.gen);
    } else {
      InTurn(f, g.labels, scope, b, scope);
    }
  }

  lemma {:induction false} ReturnFromShaped(form: Form, scope: Scope, r: Receiving, g: Gen)
    requires form.ReturnFrom? && Scoped(form, Vars(scope), Exits(scope))
    ensures ShapedOutput(Compile(form, scope, r, g), g.labels, scope)
    decreases form, 0
  {
    hide *;
    ReturnFromCode(form, scope, r, g);
    var to := ToBlock(form.name);
    var r1: Receiving := if FindExit(scope, to).value.receiving == 0 then 0 else -1;
    CompiledShaped(form.result, scope, r1, g);
    LeavingShaped(Compile(form.result, scope, r1, g), g.labels, scope, to);
  }

  lemma ReturnFromCode(form: Form, scope: Scope, r: Receiving, g: Gen)
    requires form.ReturnFrom? && Scoped(form, Vars(scope), Exits(scope))
    ensures var to := ToBlock(form.name);
            && Scoped(form.result, Vars(scope), Exits(scope)) && FindExit(scope, to).Some?
            && var info := FindExit(scope, to).value;
               var f := Compile(form.result, scope, if info.receiving == 0 then 0 else -1, g);
               Compile(form, scope, r, g) == Output(f.code + Unwind(scope, to) + Leaving(info), f.gen)
  {
    hide CompileIf, CompileBlock, CompileProg1, CompileProgn, CompileClauses, CompileSetq, CompileLiteral,
      CompileInits, CompileArgs, CompileTagbody, Unwind, FindExit, Leaving;
  }

  lemma GoShaped(form: Form, scope: Scope, r: Receiving, g: Gen)
    requires form.Go? && Scoped(form, Vars(scope), Exits(scope))
    ensures ShapedOutput(Compile(form, scope, r, g), g.labels, scope)
  {
    hide *;
    GoCode(form, scope, r, g);
    EmptyShaped(scope, g);
    LeavingShaped(Output([], g), g.labels, scope, ToTag(form.tag));
    var code := Unwind(scope, ToTag(form.tag));
    assert [] + code == code;
  }

  lemma GoCode(form: Form, scope: Scope, r: Receiving, g: Gen)
    requires form.Go? && Scoped(form, Vars(scope), Exits(scope))
    ensures var to := ToTag(form.tag);
            && FindExit(scope, to).Some?
            && Compile(form, scope, r, g) == Output(Unwind(scope, to) + Leaving(FindExit(scope, to).value), g)
  {
    hide Unwind, FindExit, Leaving;
  }

  // Code that ends by leaving for a destination in scope.
  lemma LeavingShaped(o: Output, labels: nat, scope: Scope, to: Destination)
    requires ShapedOutput(o, labels, scope) && FindExit(scope, to).Some?
    ensures ShapedOutput(Output(o.code + Unwind(scope, to) + Leaving(FindExit(scope, to).value), o.gen), labels, scope)
  {
    hide *;
    var info := FindExit(scope, to).value;
    var unwind, restore, exit := Unwind(scope, to), RestoreSp(Lex(info.index)), Exit(info.exit, Lex(info.index));
    LeavingCode(scope, to, info);
    ExitIsOpen(scope, to);
    SpShaped(info.index);
    ThenPlain(o, labels, scope, unwind, o.gen);
    ThenPlain(Output(o.code + unwind, o.gen), labels, scope, [restore], o.gen);
    IsShaped(Output(o.code + unwind + [restore], o.gen), labels, scope);
    OneJump(exit);
    Join(o.code + unwind + [restore], Ids(labels, o.gen.labels), ExitLabels(scope), [exit], {}, {info.exit},
         Ids(labels, o.gen.labels), ExitLabels(scope));
    assert o.code + unwind + [restore] + [exit] == o.code + unwind + [restore, exit];
    MakeShaped(Output(o.code + unwind + [restore, exit], o.gen), labels, scope);
  }

  lemma LeavingCode(scope: Scope, to: Destination, info: BlockInfo)
    ensures var exit := Exit(info.exit, Lex(info.index));
            Leaving(info) == [RestoreSp(Lex(info.index)), exit] && exit.IsLabelFixup() && !EffectOf(exit).Run?
    ensures var unwind := Unwind(scope, to);
            && (forall i :: 0 <= i < |unwind| ==> !unwind[i].Mark? && !unwind[i].IsLabelFixup())
            && AllWellShaped(unwind)
  {
    hide Unwind;
    UnwindPlain(scope, to);
  }

  // ---- tagbody ----

  function LabelsOf(scope: Scope, tags: seq<Name>): set<nat> { set tag | tag in tags :: LabelOf(scope, tag) }

  lemma BindTagsSeparate(scope: Scope, tags: seq<Name>, labels: nat)
    ensures var inner := BindTags(scope, tags, labels);
            && Separate(inner, tags, labels + |tags|) && LabelsOf(inner, tags) <= Ids(labels, labels + |tags|)
            && (forall id: int :: id in ExitLabels(inner) ==> id in ExitLabels(scope) || id in LabelsOf(inner, tags))
  {
    if tags != [] {
      forall tag | tag in tags
        ensures LabelOf(Tags(tags, labels, scope), tag) == labels + TagIndex(tags, tag)
      {
        assert Tags(tags, labels, scope).Catches(ToTag(tag));
      }
    }
  }

  // The tags of the statements are marked, each once.
  ghost predicate ShapedStatements(o: Output, tags: seq<Name>, labels: nat, scope: Scope) {
    && labels <= o.gen.labels
    && Shaped(o.code, LabelsOf(scope, tags) + Ids(labels, o.gen.labels), ExitLabels(scope))
    && forall tag :: tag in tags ==> Mark(LabelOf(scope, tag)) in o.code
  }

  lemma {:induction false} StatementsShaped(statements: Statements, scope: Scope, g: Gen)
    requires ScopedStatements(statements, Vars(scope), Exits(scope))
    requires Separate(scope, TagsOf(statements), g.labels)
    ensures ShapedStatements(CompileStatements(statements, scope, g), TagsOf(statements), g.labels, scope)
    decreases statements, 1
  {
    hide *;
    StatementsCode(statements, scope, g);
    match statements
    case Ended => NoStatements(scope, g);
    case Tag(name, rest) =>
      StatementsShaped(rest, scope, g);
      AfterTag(name, TagsOf(rest), CompileStatements(rest, scope, g), g.labels, scope);
    case Statement(form, rest) =>
      var f := Compile(form, scope, 0, g);
      CompiledShaped(form, scope, 0, g);
      StatementsShaped(rest, scope, f.gen);
      AfterStatement(f, g.labels, TagsOf(rest), CompileStatements(rest, scope, f.gen), scope);
  }

  lemma StatementsCode(statements: Statements, scope: Scope, g: Gen)
    requires ScopedStatements(statements, Vars(scope), Exits(scope))
    requires Separate(scope, TagsOf(statements), g.labels)
    ensures statements.Ended? ==> TagsOf(statements) == [] && CompileStatements(statements, scope, g) == Output([], g)
    ensures statements.Tag? ==>
              && ScopedStatements(statements.rest, Vars(scope), Exits(scope))
              && TagsOf(statements) == [statements.name] + TagsOf(statements.rest)
              && statements.name !in TagsOf(statements.rest)
              && Separate(scope, TagsOf(statements.rest), g.labels)
              && var b := CompileStatements(statements.rest, scope, g);
                 CompileStatements(statements, scope, g)
                 == Output([Mark(LabelOf(scope, statements.name))] + b.code, b.gen)
    ensures statements.Statement? ==>
              && Scoped(statements.form, Vars(scope), Exits(scope))
              && ScopedStatements(statements.rest, Vars(scope), Exits(scope))
              && TagsOf(statements) == TagsOf(statements.rest)
              && var f := Compile(statements.form, scope, 0, g);
                 var b := CompileStatements(statements.rest, scope, f.gen);
                 && Separate(scope, TagsOf(statements.rest), f.gen.labels)
                 && CompileStatements(statements, scope, g) == Output(f.code + b.code, b.gen)
  {
    hide Compile, FindExit, Exits, Vars, Scoped;
  }

  lemma NoStatements(scope: Scope, g: Gen)
    ensures ShapedStatements(Output([], g), [], g.labels, scope)
  {
    Plain([], ExitLabels(scope));
    hide Shaped;
    Widen([], {}, ExitLabels(scope), LabelsOf(scope, []) + Ids(g.labels, g.labels), ExitLabels(scope));
  }

  lemma AfterTag(name: Name, tags: seq<Name>, b: Output, labels: nat, scope: Scope)
    requires ShapedStatements(b, tags, labels, scope) && Separate(scope, [name] + tags, labels) && name !in tags
    ensures ShapedStatements(Output([Mark(LabelOf(scope, name))] + b.code, b.gen), [name] + tags, labels, scope)
  {
    var id, all := LabelOf(scope, name), [name] + tags;
    assert name in all && forall tag :: tag in tags ==> tag in all;
    assert forall tag :: tag in all ==> tag == name || tag in tags;
    OneMark(id, {});
    hide Shaped, LabelOf;
    assert {id} !! LabelsOf(scope, tags) + Ids(labels, b.gen.labels);
    Join([Mark(id)], {id}, {}, b.code, LabelsOf(scope, tags) + Ids(labels, b.gen.labels), ExitLabels(scope),
         LabelsOf(scope, all) + Ids(labels, b.gen.labels), ExitLabels(scope));
    assert ([Mark(id)] + b.code)[0] == Mark(id);
  }

  lemma AfterStatement(f: Output, labels: nat, tags: seq<Name>, b: Output, scope: Scope)
    requires ShapedOutput(f, labels, scope) && ShapedStatements(b, tags, f.gen.labels, scope)
    requires Separate(scope, tags, labels)
    ensures ShapedStatements(Output(f.code + b.code, b.gen), tags, labels, scope)
  {
    hide Shaped, LabelOf;
    Join(f.code, Ids(labels, f.gen.labels), ExitLabels(scope),
         b.code, LabelsOf(scope, tags) + Ids(f.gen.labels, b.gen.labels), ExitLabels(scope),
         LabelsOf(scope, tags) + Ids(labels, b.gen.labels), ExitLabels(scope));
  }

  /** The gos of a tagbody jump to labels marked in it, in whatever direction. */
  lemma {:induction false} TagbodyShaped(form: Form, scope: Scope, r: Receiving, g: Gen)
    requires form.Tagbody? && Scoped(form, Vars(scope), Exits(scope))
    ensures ShapedOutput(CompileTagbody(form, scope, r, g), g.labels, scope)
    decreases form, 0
  {
    hide *;
    TagbodyCode(form, scope, r, g);
    var tags := TagsOf(form.statements);
    var inner, g1 := BindTags(scope, tags, g.labels), TagbodyGen(scope, tags, g);
    var b := CompileStatements(form.statements, inner, g1);
    BindTagsSeparate(scope, tags, g.labels);
    StatementsShaped(form.statements, inner, g1);
    ClosedStatements(b, tags, g.labels, g1.labels, inner, scope);
    var lex := Lex(scope.FrameEnd());
    SpShaped(scope.FrameEnd());
    var code := if tags == [] then b.code else [Entry(lex)] + b.code + [EntryClose(lex)];
    if tags != [] {
      IsShaped(b, g.labels, scope);
      WithPlain(b, g.labels, scope, [Entry(lex)]);
      MakeShaped(Output([Entry(lex)] + b.code, b.gen), g.labels, scope);
      ThenPlain(Output([Entry(lex)] + b.code, b.gen), g.labels, scope, [EntryClose(lex)], b.gen);
    }
    LiteralShaped(Nil, scope, r, b.gen);
    InTurn(Output(code, b.gen), g.labels, scope, CompileLiteral(Nil, r, b.gen), scope);
  }

  lemma TagbodyCode(form: Form, scope: Scope, r: Receiving, g: Gen)
    requires form.Tagbody? && Scoped(form, Vars(scope), Exits(scope))
    ensures var tags := TagsOf(form.statements);
            var inner, g1 := BindTags(scope, tags, g.labels), TagbodyGen(scope, tags, g);
            var lex := Lex(scope.FrameEnd());
            && ScopedStatements(form.statements, Vars(inner), Exits(inner))
            && g1.labels == g.labels + |tags|
            && (tags == [] ==> inner == scope) && (tags != [] ==> Nowhere in Exits(scope))
            && var b := CompileStatements(form.statements, inner, g1);
               var code := if tags == [] then b.code else [Entry(lex)] + b.code + [EntryClose(lex)];
               CompileTagbody(form, scope, r, g) == Output(code + CompileLiteral(Nil, r, b.gen).code, b.gen)
               && CompileLiteral(Nil, r, b.gen).gen == b.gen
  {
    hide CompileStatements, TagsOf, ToTags;
  }

  // Seen from outside, the labels of a tagbody's tags are new ones.
  lemma ClosedStatements(b: Output, tags: seq<Name>, labels: nat, labels': nat, inner: Scope, scope: Scope)
    requires ShapedStatements(b, tags, labels', inner) && labels' == labels + |tags|
    requires LabelsOf(inner, tags) <= Ids(labels, labels')
    requires tags != [] ==> Nowhere in Exits(scope)
    requires tags == [] ==> inner == scope
    requires forall id: int :: id in ExitLabels(inner) ==> id in ExitLabels(scope) || id in LabelsOf(inner, tags)
    ensures ShapedOutput(b, labels, scope)
  {
    LoopsAllowed(scope);
    hide Shaped, ExitLabels, LabelOf;
    Widen(b.code, LabelsOf(inner, tags) + Ids(labels', b.gen.labels), ExitLabels(inner),
          Ids(labels, b.gen.labels), ExitLabels(inner));
    if tags != [] {
      Close(b.code, Ids(labels, b.gen.labels), ExitLabels(inner), ExitLabels(scope));
    }
  }

  lemma {:induction false} IfShaped(form: Form, scope: Scope, r: Receiving, g: Gen)
    requires form.If? && Scoped(form, Vars(scope), Exits(scope))
    ensures ShapedOutput(CompileIf(form, scope, r, g), g.labels, scope)
    decreases form, 0
  {
    hide *;
    IfCode(form, scope, r, g);
    var c := Compile(form.cond, scope, 1, g);
    var L := c.gen.labels;
    var g1 := c.gen.(labels := L + 2);
    var e := Compile(form.els, scope, r, g1);
    var t := Compile(form.thn, scope, r, e.gen);
    CompiledShaped(form.cond, scope, 1, g);
    CompiledShaped(form.els, scope, r, g1);
    CompiledShaped(form.thn, scope, r, e.gen);
    IsShaped(c, g.labels, scope);
    IsShaped(e, L + 2, scope);
    IsShaped(t, e.gen.labels, scope);
    var x := ExitLabels(scope);
    var top := t.gen.labels;
    OneJump(JumpIf(L));
    OneJump(Jump(L + 1));
    OneMark(L, {});
    OneMark(L + 1, {});
    Join([Jump(L + 1)], {}, {L + 1}, [Mark(L)], {L}, {}, {L}, {L + 1});
    var mid := [Jump(L + 1), Mark(L)];
    assert [Jump(L + 1)] + [Mark(L)] == mid && Mark(L) == mid[1];
    Join(c.code, Ids(g.labels, L), x, [JumpIf(L)], {}, {L}, Ids(g.labels, L), x + {L});
    var a1 := c.code + [JumpIf(L)];
    Join(a1, Ids(g.labels, L), x + {L}, e.code, Ids(L + 2, e.gen.labels), x,
         Ids(g.labels, L) + Ids(L + 2, e.gen.labels), x + {L});
    var a2 := a1 + e.code;
    Join(a2, Ids(g.labels, L) + Ids(L + 2, e.gen.labels), x + {L}, mid, {L}, {L + 1},
         Ids(g.labels, L + 1) + Ids(L + 2, e.gen.labels), x + {L + 1});
    var a3 := a2 + mid;
    Join(a3, Ids(g.labels, L + 1) + Ids(L + 2, e.gen.labels), x + {L + 1}, t.code, Ids(e.gen.labels, top), x,
         Ids(g.labels, L + 1) + Ids(L + 2, top), x + {L + 1});
    assert [Mark(L + 1)][0] == Mark(L + 1);
    Join(a3 + t.code, Ids(g.labels, L + 1) + Ids(L + 2, top), x + {L + 1}, [Mark(L + 1)], {L + 1}, {},
        Ids(g.labels, top), x);
    MakeShaped(Output(a3 + t.code + [Mark(L + 1)], t.gen), g.labels, scope);
  }

  lemma IfCode(form: Form, scope: Scope, r: Receiving, g: Gen)
    requires form.If? && Scoped(form, Vars(scope), Exits(scope))
    ensures Scoped(form.cond, Vars(scope), Exits(scope))
    ensures Scoped(form.thn, Vars(scope), Exits(scope)) && Scoped(form.els, Vars(scope), Exits(scope))
    ensures var c := Compile(form.cond, scope, 1, g);
            var L := c.gen.labels;
            var e := Compile(form.els, scope, r, c.gen.(labels := L + 2));
            var t := Compile(form.thn, scope, r, e.gen);
            CompileIf(form, scope, r, g)
            == Output(c.code + [JumpIf(L)] + e.code + [Jump(L + 1), Mark(L)] + t.code + [Mark(L + 1)], t.gen)
            && g.labels <= L && L + 2 <= e.gen.labels <= t.gen.labels
    ensures forall id :: JumpIf(id).IsLabelFixup() && Jump(id).IsLabelFixup()
                         && !EffectOf(JumpIf(id)).Run? && !EffectOf(Jump(id)).Run?
    ensures forall id :: JumpIf(id).Control? && Jump(id).Control? && JumpIf(id).id == id && Jump(id).id == id
  {
    hide Compile;
  }

  lemma IsShaped(o: Output, labels: nat, scope: Scope)
    requires ShapedOutput(o, labels, scope)
    ensures labels <= o.gen.labels && Shaped(o.code, Ids(labels, o.gen.labels), ExitLabels(scope))
  {
    hide Shaped;
  }

  lemma {:induction false} BlockShaped(form: Form, scope: Scope, r: Receiving, g: Gen)
    requires form.Block? && Scoped(form, Vars(scope), Exits(scope))
    ensures ShapedOutput(CompileBlock(form, scope, r, g), g.labels, scope)
    decreases form, 0
  {
    hide *;
    BlockCode(form, scope, r, g);
    var L := g.labels;
    var inner := Blk(form.name, L, r, scope);
    var lex := Lex(scope.FrameEnd());
    var g1 := g.Needing(scope.FrameEnd() + 1).(labels := L + 2);
    var b := CompileProgn(form.body, inner, r, g1);
    PrognShaped(form.body, inner, r, g1);
    SpShaped(scope.FrameEnd());
    WithPlain(b, L + 2, inner, [Entry(lex)]);
    LandingShaped(r, L);
    LandingMarks(r, L, L + 1);
    Join([Entry(lex)] + b.code, Ids(L + 2, b.gen.labels), ExitLabels(inner), Landing(r, L, L + 1), Ids(L, L + 2), {},
         Ids(L, b.gen.labels), ExitLabels(scope));
    var o := Output([Entry(lex)] + b.code + Landing(r, L, L + 1), b.gen);
    MakeShaped(o, L, scope);
    ThenPlain(o, L, scope, [EntryClose(lex)], b.gen);
  }

  lemma BlockCode(form: Form, scope: Scope, r: Receiving, g: Gen)
    requires form.Block? && Scoped(form, Vars(scope), Exits(scope))
    ensures var inner := Blk(form.name, g.labels, r, scope);
            var g1 := g.Needing(scope.FrameEnd() + 1).(labels := g.labels + 2);
            ScopedForms(form.body, Vars(inner), Exits(inner))
            && var b := CompileProgn(form.body, inner, r, g1);
               CompileBlock(form, scope, r, g)
               == Output([Entry(Lex(scope.FrameEnd()))] + b.code + Landing(r, g.labels, g.labels + 1)
                         + [EntryClose(Lex(scope.FrameEnd()))], b.gen)
               && g.labels + 2 == g1.labels <= b.gen.labels
               && ExitLabels(inner) == {g.labels} + ExitLabels(scope)
  {
    hide CompileProgn, Landing;
  }

  lemma LandingMarks(r: Receiving, exit: nat, normal: nat)
    ensures Mark(exit) in Landing(r, exit, normal)
  {
    assert Landing(r, exit, normal)[if r == 1 then 1 else 0] == Mark(exit);
  }

  lemma SpShaped(index: nat)
    ensures var lex := Lex(index);
            && AllWellShaped([Entry(lex)]) && AllWellShaped([EntryClose(lex)]) && AllWellShaped([RestoreSp(lex)])
            && !Entry(lex).IsLabelFixup() && !EntryClose(lex).IsLabelFixup() && !RestoreSp(lex).IsLabelFixup()
  {
  }

  lemma MakeShaped(o: Output, labels: nat, scope: Scope)
    requires labels <= o.gen.labels && Shaped(o.code, Ids(labels, o.gen.labels), ExitLabels(scope))
    ensures ShapedOutput(o, labels, scope)
  {
  }

  lemma LandingShaped(r: Receiving, L: nat)
    ensures Shaped(Landing(r, L, L + 1), Ids(L, L + 2), {})
  {
    OneMark(L, {});
    if r == 1 {
      OneMark(L + 1, {});
      OneJump(Jump(L + 1));
      Plain([Op(VM_PUSH)], {});
      hide Shaped;
      Join([Jump(L + 1)], {}, {L + 1}, [Mark(L)], {L}, {}, {L}, {L + 1});
      Join([Jump(L + 1)] + [Mark(L)], {L}, {L + 1}, [Op(VM_PUSH)], {}, {}, {L}, {L + 1});
      assert [Mark(L + 1)][0] == Mark(L + 1);
      Join([Jump(L + 1)] + [Mark(L)] + [Op(VM_PUSH)], {L}, {L + 1}, [Mark(L + 1)], {L + 1}, {}, Ids(L, L + 2), {});
      assert [Jump(L + 1)] + [Mark(L)] + [Op(VM_PUSH)] + [Mark(L + 1)]
          == [Jump(L + 1), Mark(L), Op(VM_PUSH), Mark(L + 1)];
    } else {
      Widen([Mark(L)], {L}, {}, Ids(L, L + 2), {});
    }
  }
}
