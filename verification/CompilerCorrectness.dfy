/** The compiler preserves meaning: running the code emitted for a form does
    what the evaluator says, in every context and environment. */
module CompilerCorrectness {
  import opened Options
  import opened Instructions
  import opened ModuleItems
  import opened Relaxation
  import opened Source
  import opened VirtualMachine
  import opened SymbolicMachine
  import opened Compiler

  function Resolve(c: Constant): Value {
    match c
    case ConstantInfo(value) => value
    case FunctionCellInfo(fname) => FunctionCell(fname)
  }

  // The program's literals include those compiled so far, and its frame has the registers.
  ghost predicate Loaded(p: Program, g: Gen, s: State) {
    && |g.literals| <= |p.image.literals| && g.nlocals <= |s.regs|
    && forall i :: 0 <= i < |g.literals| ==> p.image.literals[i] == Resolve(g.literals[i])
  }

  // The registers of the scope hold the environment's values and the stack pointers
  // of the blocks and tagbodies.
  ghost predicate Matches(scope: Scope, env: Env, regs: seq<Slot>) {
    match scope
    case Null(_) => true
    case Var(name, outer) =>
      && env.Bind? && env.name == name
      && outer.FrameEnd() < |regs| && regs[outer.FrameEnd()] == Val(env.value)
      && Matches(outer, env.outer, regs)
    case _ =>
      var outer := scope.outer;
      outer.FrameEnd() < |regs| && regs[outer.FrameEnd()].Sp? && Matches(outer, env, regs)
  }

  // No stack pointer saved in the first n registers lies above height h.
  ghost predicate Low(n: nat, regs: seq<Slot>, h: nat) {
    forall i :: 0 <= i < n && i < |regs| && regs[i].Sp? ==> regs[i].depth <= h
  }

  // The stack pointers saved in the first n registers are the same.
  ghost predicate Kept(n: nat, regs: seq<Slot>, regs': seq<Slot>) {
    && |regs| == |regs'|
    && forall i :: 0 <= i < n && i < |regs| && (regs[i].Sp? || regs'[i].Sp?) ==> regs'[i] == regs[i]
  }

  ghost predicate Ready(scope: Scope, env: Env, s: State) {
    Matches(scope, env, s.regs) && Low(scope.FrameEnd(), s.regs, |s.stack|)
  }

  // A return-from has arrived at its block's exit label, or a go at its tag.
  ghost predicate Arrived(p: Program, scope: Scope, to: Destination, vs: seq<Value>, s: State, c: Config) {
    && FindExit(scope, to).Some?
    && var b := FindExit(scope, to).value;
       && b.index < |s.regs| && s.regs[b.index].Sp? && s.regs[b.index].depth <= |s.stack|
       && c.pc == Target(p.items, b.exit)
       && c.state.stack == s.stack[..s.regs[b.index].depth]
       && (b.receiving != 0 ==> c.state.mv == vs)
  }

  // Control has left the form. When the source has run out of jumps, nothing is
  // said of the machine but that it has done what the source did until then.
  ghost predicate Exited(p: Program, scope: Scope, to: Destination, vs: seq<Value>, s: State, c: Config) {
    to in Exits(scope) && (to == Nowhere || Arrived(p, scope, to, vs, s, c))
  }

  /** What the machine has done in configuration c, started in state s, when the
      code up to end has run and the source gives the result res. */
  ghost predicate Finished(p: Program, scope: Scope, end: nat, pushed: seq<Value>, all: bool,
                           s: State, res: Result, c: Config) {
    && Kept(scope.FrameEnd(), s.regs, c.state.regs)
    && Matches(scope, res.env, c.state.regs)
    && c.state.history == res.history
    && match res.outcome
       case Values(vs) =>
         c.pc == end && c.state.stack == s.stack + pushed && (all ==> c.state.mv == vs)
       case Return(to, vs) => Exited(p, scope, to, vs, s, c)
  }

  function PushedBy(r: Receiving, res: Result): seq<Value> {
    if r == 1 then [Primary(res.outcome.vs)] else []
  }

  // ---- frames ----

  lemma {:induction false} VarHolds(scope: Scope, env: Env, regs: seq<Slot>, name: Name)
    requires Matches(scope, env, regs) && FindVar(scope, name).Some?
    ensures var i := FindVar(scope, name).value;
            i < |regs| && regs[i] == Val(Lookup(env, name))
  {
    match scope
    case Var(n, outer) => if n != name { VarHolds(outer, env.outer, regs, name); }
    case Blk(_, _, _, outer) => VarHolds(outer, env, regs, name);
    case Tags(_, _, outer) => VarHolds(outer, env, regs, name);
  }

  lemma {:induction false} ExitHolds(scope: Scope, env: Env, regs: seq<Slot>, to: Destination)
    requires Matches(scope, env, regs) && FindExit(scope, to).Some?
    ensures var i := FindExit(scope, to).value.index;
            i < |regs| && regs[i].Sp?
  {
    match scope
    case Var(_, outer) => ExitHolds(outer, env.outer, regs, to);
    case Blk(_, _, _, outer) => if !scope.Catches(to) { ExitHolds(outer, env, regs, to); }
    case Tags(_, _, outer) => if !scope.Catches(to) { ExitHolds(outer, env, regs, to); }
  }

  lemma {:induction false} MatchesBelow(scope: Scope, env: Env, regs: seq<Slot>, regs': seq<Slot>)
    requires Matches(scope, env, regs) && |regs| == |regs'|
    requires forall i :: 0 <= i < scope.FrameEnd() && i < |regs| ==> regs'[i] == regs[i]
    ensures Matches(scope, env, regs')
  {
    match scope
    case Null(_) =>
    case Var(_, outer) => MatchesBelow(outer, env.outer, regs, regs');
    case _ => MatchesBelow(scope.outer, env, regs, regs');
  }

  // Assigning a variable's register assigns the variable and nothing else.
  lemma {:induction false} VarAssigned(scope: Scope, env: Env, regs: seq<Slot>, name: Name, v: Value)
    requires Matches(scope, env, regs) && FindVar(scope, name).Some?
    ensures FindVar(scope, name).value < |regs|
    ensures Matches(scope, Update(env, name, v), regs[FindVar(scope, name).value := Val(v)])
  {
    VarHolds(scope, env, regs, name);
    var i := FindVar(scope, name).value;
    match scope
    case Var(n, outer) =>
      if n == name {
        MatchesBelow(outer, env.outer, regs, regs[i := Val(v)]);
      } else {
        VarAssigned(outer, env.outer, regs, name, v);
      }
    case Blk(_, _, _, outer) => VarAssigned(outer, env, regs, name, v);
    case Tags(_, _, outer) => VarAssigned(outer, env, regs, name, v);
  }

  lemma ReadyAfter(scope: Scope, env: Env, s: State, env': Env, s': State)
    requires Ready(scope, env, s) && Kept(scope.FrameEnd(), s.regs, s'.regs)
    requires Matches(scope, env', s'.regs) && |s.stack| <= |s'.stack|
    ensures Ready(scope, env', s')
  {
    hide Matches;
  }

  lemma KeptOn(n: nat, a: seq<Slot>, b: seq<Slot>, c: seq<Slot>)
    requires Kept(n, a, b) && Kept(n, b, c)
    ensures Kept(n, a, c)
  {
  }

  /** A run that pushes extra and goes on as another finished run. */
  lemma Compose(p: Program, scope: Scope, env: Env, s: State, extra: seq<Value>, s': State,
                end: nat, pushed: seq<Value>, all: bool, res: Result, c: Config)
    requires Ready(scope, env, s) && Kept(scope.FrameEnd(), s.regs, s'.regs) && s'.stack == s.stack + extra
    requires Finished(p, scope, end, pushed, all, s', res, c)
    ensures Finished(p, scope, end, extra + pushed, all, s, res, c)
  {
    hide Matches;
    KeptOn(scope.FrameEnd(), s.regs, s'.regs, c.state.regs);
    match res.outcome
    case Values(vs) =>
      assert s.stack + (extra + pushed) == (s.stack + extra) + pushed;
    case Return(to, vs) =>
      if to != Nowhere {
        var b := FindExit(scope, to).value;
        assert s.regs[b.index] == s'.regs[b.index];
        var d := s.regs[b.index].depth;
        assert (s.stack + extra)[..d] == s.stack[..d];
      }
  }

  // Where the code would have ended does not matter once it has been left.
  lemma Left(p: Program, scope: Scope, end: nat, pushed: seq<Value>, all: bool, s: State, res: Result, c: Config,
             end': nat, pushed': seq<Value>, all': bool)
    requires Finished(p, scope, end, pushed, all, s, res, c) && res.outcome.Return?
    ensures Finished(p, scope, end', pushed', all', s, res, c)
  {
    hide Matches, Kept, Exited;
  }

  // What a form that has finished normally leaves behind.
  lemma Normally(p: Program, scope: Scope, env: Env, end: nat, pushed: seq<Value>, all: bool,
                 s: State, res: Result, c: Config)
    requires Ready(scope, env, s) && Finished(p, scope, end, pushed, all, s, res, c) && res.outcome.Values?
    ensures Ready(scope, res.env, c.state) && Kept(scope.FrameEnd(), s.regs, c.state.regs)
    ensures |c.state.regs| == |s.regs| && Matches(scope, res.env, c.state.regs)
    ensures c.pc == end && c.state.stack == s.stack + pushed && c.state.history == res.history
    ensures all ==> c.state.mv == res.outcome.vs
  {
    hide Matches, Low;
    ReadyAfter(scope, env, s, res.env, c.state);
  }

  lemma MakeFinished(p: Program, scope: Scope, end: nat, pushed: seq<Value>, all: bool,
                     s: State, res: Result, s': State)
    requires Kept(scope.FrameEnd(), s.regs, s'.regs) && Matches(scope, res.env, s'.regs)
    requires s'.history == res.history && s'.stack == s.stack + pushed
    requires res.outcome.Values? && (all ==> s'.mv == res.outcome.vs)
    ensures Finished(p, scope, end, pushed, all, s, res, At(end, s'))
  {
    hide Matches, Kept;
  }

  lemma StillLoaded(p: Program, g: Gen, g': Gen, s: State, s': State)
    requires Loaded(p, g', s) && Grows(g, g') && |s'.regs| == |s.regs|
    ensures Loaded(p, g, s')
  {
  }

  lemma KeptItself(n: nat, regs: seq<Slot>)
    ensures Kept(n, regs, regs)
  {
  }

  lemma Unready(scope: Scope, env: Env, s: State)
    requires Ready(scope, env, s)
    ensures Matches(scope, env, s.regs) && Low(scope.FrameEnd(), s.regs, |s.stack|)
  {
  }

  // ---- the single value of a form ----

  // Once the value has been pushed, a vm_pop turns it into all values.
  lemma Single(p: Program, scope: Scope, at: nat, r: Receiving, s: State, v: Value, env: Env,
               s': State) returns (c: Config)
    requires r != 0 && CodeAt(p.items, at, PopIfAll(r))
    requires Kept(scope.FrameEnd(), s.regs, s'.regs) && Matches(scope, env, s'.regs)
    requires s'.stack == s.stack + [v]
    ensures Reaches(p, At(at, s'), c)
    ensures var res := Result(Values([v]), env, s'.history);
            Finished(p, scope, at + |PopIfAll(r)|, PushedBy(r, res), r == -1, s, res, c)
  {
    var res := Result(Values([v]), env, s'.history);
    var t := if r == -1 then s'.(stack := s.stack, mv := [v]) else s';
    c := At(at + |PopIfAll(r)|, t);
    hide Matches, Kept;
    if r == -1 {
      assert s'.stack[..|s'.stack| - 1] == s.stack;
      Runs(p, at, Op(VM_POP), s', t);
    } else {
      ReachesItself(p, c);
    }
    MakeFinished(p, scope, c.pc, PushedBy(r, res), r == -1, s, res, t);
  }

  // What the code of an output relies on when it is placed at a position.
  ghost predicate Placed(p: Program, at: nat, o: Output, s: State) {
    UniqueMarks(p.items) && CodeAt(p.items, at, o.code) && Loaded(p, o.gen, s)
  }

  lemma CorrectLiteral(p: Program, value: Value, scope: Scope, r: Receiving, g: Gen, at: nat, env: Env, s: State)
    returns (c: Config)
    requires Placed(p, at, CompileLiteral(value, r, g), s) && Ready(scope, env, s)
    ensures Reaches(p, At(at, s), c)
    ensures var res, o := Result(Values([value]), env, s.history), CompileLiteral(value, r, g);
            Finished(p, scope, at + |o.code|, PushedBy(r, res), r == -1, s, res, c)
  {
    var o := CompileLiteral(value, r, g);
    KeptItself(scope.FrameEnd(), s.regs);
    hide Matches, Kept, Low, PopIfAll;
    if r == 0 {
      c := At(at, s);
      ReachesItself(p, c);
      MakeFinished(p, scope, at, [], false, s, Result(Values([value]), env, s.history), s);
    } else {
      var k := ConstantInfo(value);
      var op := if value == Nil then Op(VM_NIL) else Op1(VM_CONST, LiteralIndex(g.literals, k));
      CodeParts(p.items, at, [op], PopIfAll(r));
      Runs(p, at, op, s, Pushed(s, value));
      c := Single(p, scope, at + 1, r, s, value, env, Pushed(s, value));
      ReachesOn(p, At(at, s), At(at + 1, Pushed(s, value)), c);
    }
  }

  lemma CorrectVariable(p: Program, name: Name, scope: Scope, r: Receiving, g: Gen, at: nat, env: Env, s: State)
    returns (c: Config)
    requires name in Vars(scope)
    requires Placed(p, at, Compile(Variable(name), scope, r, g), s) && Ready(scope, env, s)
    ensures Reaches(p, At(at, s), c)
    ensures var res, o := Eval(p.image.world, Variable(name), env, s.history), Compile(Variable(name), scope, r, g);
            Finished(p, scope, at + |o.code|, PushedBy(r, res), r == -1, s, res, c)
  {
    hide *;
    UnfoldedVariable(p.image.world, name, scope, r, g, env, s.history);
    Unready(scope, env, s);
    KeptItself(scope.FrameEnd(), s.regs);
    var v := Lookup(env, name);
    var res := Result(Values([v]), env, s.history);
    if r == 0 {
      c := At(at, s);
      ReachesItself(p, c);
      PushesNone(res);
      assert s.stack + [] == s.stack;
      MakeFinished(p, scope, at, [], false, s, res, s);
    } else {
      Unplaced(p, at, Output(Reading(scope, name) + PopIfAll(r), g), s);
      CodeParts(p.items, at, Reading(scope, name), PopIfAll(r));
      var s' := s.(stack := s.stack + [v]);
      Reads(p, at, scope, name, env, s, s');
      c := Single(p, scope, at + 2, r, s, v, env, s');
      ReachesOn(p, At(at, s), At(at + 2, s'), c);
    }
  }

  // What compile_symbol emits to push a lexical variable.
  function Reading(scope: Scope, name: Name): (code: seq<Item>)
    requires name in Vars(scope)
    ensures |code| == 2
  {
    var index := FindVar(scope, name).value;
    [Op1(VM_REF, index), LexRef(Lex(index), VM_CELL_REF)]
  }

  lemma UnfoldedVariable(world: World, name: Name, scope: Scope, r: Receiving, g: Gen, env: Env, history: seq<Event>)
    requires name in Vars(scope)
    ensures Compile(Variable(name), scope, r, g) == Output(if r == 0 then [] else Reading(scope, name) + PopIfAll(r), g)
    ensures Eval(world, Variable(name), env, history) == Result(Values([Lookup(env, name)]), env, history)
  {
    hide PopIfAll;
  }

  lemma Reads(p: Program, pc: nat, scope: Scope, name: Name, env: Env, s: State, s': State)
    requires name in Vars(scope) && Matches(scope, env, s.regs) && CodeAt(p.items, pc, Reading(scope, name))
    requires s' == s.(stack := s.stack + [Lookup(env, name)])
    ensures Reaches(p, At(pc, s), At(pc + 2, s'))
  {
    VarHolds(scope, env, s.regs, name);
    var index := FindVar(scope, name).value;
    var ref, cellRef := Op1(VM_REF, index), LexRef(Lex(index), VM_CELL_REF);
    hide Matches, Lookup, FindVar, CodeAt, Reaches, Vars;
    assert Reading(scope, name) == [ref] + [cellRef];
    CodeParts(p.items, pc, [ref], [cellRef]);
    Runs(p, pc, ref, s, s');
    Skips(p, pc + 1, cellRef, s');
    ReachesOn(p, At(pc, s), At(pc + 1, s'), At(pc + 2, s'));
  }

  // ---- placing parts ----

  lemma PlacedParts(p: Program, at: nat, a: Output, b: Output, s: State)
    requires Placed(p, at, Output(a.code + b.code, b.gen), s) && Grows(a.gen, b.gen)
    ensures Placed(p, at, a, s) && Placed(p, at + |a.code|, b, s)
  {
    hide CodeAt, UniqueMarks;
    CodeParts(p.items, at, a.code, b.code);
    StillLoaded(p, a.gen, b.gen, s, s);
  }

  lemma PlacedIn(p: Program, at: nat, o: Output, s: State, s': State)
    requires Placed(p, at, o, s) && |s'.regs| == |s.regs|
    ensures Placed(p, at, o, s')
  {
  }

  lemma Unplaced(p: Program, at: nat, o: Output, s: State)
    requires Placed(p, at, o, s)
    ensures UniqueMarks(p.items) && CodeAt(p.items, at, o.code) && Loaded(p, o.gen, s)
  {
  }

  lemma Replaced(p: Program, at: nat, o: Output, s: State)
    requires UniqueMarks(p.items) && CodeAt(p.items, at, o.code) && Loaded(p, o.gen, s)
    ensures Placed(p, at, o, s)
  {
  }

  // ---- the forms ----

  // The forms that are compiled and evaluated by a function of their own.
  lemma Unfolded(world: World, form: Form, scope: Scope, r: Receiving, g: Gen, env: Env, history: seq<Event>)
    requires Scoped(form, Vars(scope), Exits(scope))
    ensures form.Literal? ==>
              && Compile(form, scope, r, g) == CompileLiteral(form.value, r, g)
              && Eval(world, form, env, history) == Result(Values([form.value]), env, history)
    ensures form.Variable? ==> form.name in Vars(scope)
    ensures form.Progn? ==>
              && ScopedForms(form.body, Vars(scope), Exits(scope))
              && Compile(form, scope, r, g) == CompileProgn(form.body, scope, r, g)
              && Eval(world, form, env, history) == EvalProgn(world, form.body, env, history)
    ensures form.LetStar? ==>
              && ScopedClauses(form.clauses, Vars(scope), Exits(scope))
              && Compile(form, scope, r, g) == CompileClauses(form.clauses, scope, r, g)
              && Eval(world, form, env, history) == EvalClauses(world, form.clauses, env, history)
    ensures form.Setq? ==>
              && ScopedPairs(form.pairs, Vars(scope), Exits(scope))
              && Compile(form, scope, r, g) == CompileSetq(form.pairs, scope, r, g)
              && Eval(world, form, env, history) == EvalSetq(world, form.pairs, env, history)
    ensures form.If? ==> Compile(form, scope, r, g) == CompileIf(form, scope, r, g)
    ensures form.Block? ==> Compile(form, scope, r, g) == CompileBlock(form, scope, r, g)
    ensures form.Tagbody? ==> Compile(form, scope, r, g) == CompileTagbody(form, scope, r, g)
    ensures form.MultipleValueProg1? ==> Compile(form, scope, r, g) == CompileProg1(form, scope, r, g)
  {
    hide CompileIf, CompileBlock, CompileProg1, CompileProgn, CompileClauses, CompileSetq, CompileLiteral,
      EvalProgn, EvalClauses, EvalSetq, CompileInits, CompileArgs, EvalInits, EvalArgs, CompileTagbody, EvalLoop;
  }

  /** Whatever a form is, and wherever its code stands in a program, running the
      code from its start finishes as the evaluator says. */
  lemma {:induction false} Correct(p: Program, form: Form, scope: Scope, r: Receiving, g: Gen, at: nat, env: Env,
                                   s: State)
    returns (c: Config)
    requires Scoped(form, Vars(scope), Exits(scope))
    requires Placed(p, at, Compile(form, scope, r, g), s) && Ready(scope, env, s)
    ensures Reaches(p, At(at, s), c)
    ensures var res := Eval(p.image.world, form, env, s.history);
            Finished(p, scope, at + |Compile(form, scope, r, g).code|, PushedBy(r, res), r == -1, s, res, c)
    decreases form, 1
  {
    hide *;
    Unfolded(p.image.world, form, scope, r, g, env, s.history);
    match form
    case Literal(value) => c := CorrectLiteral(p, value, scope, r, g, at, env, s);
    case Variable(name) => c := CorrectVariable(p, name, scope, r, g, at, env, s);
    case Progn(body) => c := CorrectProgn(p, body, scope, r, g, at, env, s);
    case Let(_, _) => c := CorrectLet(p, form, scope, r, g, at, env, s);
    case LetStar(clauses) => c := CorrectClauses(p, clauses, scope, r, g, at, env, s);
    case Setq(pairs) => c := CorrectSetq(p, pairs, scope, r, g, at, env, s);
    case If(_, _, _) => c := CorrectIf(p, form, scope, r, g, at, env, s);
    case Block(_, _) => c := CorrectBlock(p, form, scope, r, g, at, env, s);
    case ReturnFrom(_, _) => c := CorrectReturnFrom(p, form, scope, r, g, at, env, s);
    case Tagbody(_) => c := CorrectTagbody(p, form, scope, r, g, at, env, s);
    case Go(_) => c := CorrectGo(p, form, scope, r, g, at, env, s);
    case MultipleValueProg1(_, _) => c := CorrectProg1(p, form, scope, r, g, at, env, s);
    case Call(_, _) => c := CorrectCall(p, form, scope, r, g, at, env, s);
  }

  lemma {:induction false} CorrectProgn(p: Program, forms: Forms, scope: Scope, r: Receiving, g: Gen, at: nat, env: Env,
                                        s: State)
    returns (c: Config)
    requires ScopedForms(forms, Vars(scope), Exits(scope))
    requires Placed(p, at, CompileProgn(forms, scope, r, g), s) && Ready(scope, env, s)
    ensures Reaches(p, At(at, s), c)
    ensures var res := EvalProgn(p.image.world, forms, env, s.history);
            Finished(p, scope, at + |CompileProgn(forms, scope, r, g).code|, PushedBy(r, res), r == -1, s, res, c)
    decreases forms, 1
  {
    hide Finished, Ready, Reaches, Placed, Compile, Eval, Kept, Matches;
    match forms
    case Done => c := CorrectLiteral(p, Nil, scope, r, g, at, env, s);
    case More(first, rest) =>
      if rest.Done? {
        c := Correct(p, first, scope, r, g, at, env, s);
      } else {
        var f := Compile(first, scope, 0, g);
        var b := CompileProgn(rest, scope, r, f.gen);
        PlacedParts(p, at, f, b, s);
        c := Correct(p, first, scope, 0, g, at, env, s);
        c := AndThenProgn(p, rest, scope, r, f.gen, at, at + |f.code|, env, s,
            Eval(p.image.world, first, env, s.history), c);
      }
  }

  // A form evaluated for effect, followed by the rest of a progn.
  lemma {:induction false} AndThenProgn(p: Program, rest: Forms, scope: Scope, r: Receiving, g: Gen, at: nat, next: nat,
                                        env: Env, s: State, res1: Result, c1: Config)
    returns (c: Config)
    requires ScopedForms(rest, Vars(scope), Exits(scope))
    requires Placed(p, next, CompileProgn(rest, scope, r, g), s) && Ready(scope, env, s)
    requires Reaches(p, At(at, s), c1) && Finished(p, scope, next, [], false, s, res1, c1)
    ensures Reaches(p, At(at, s), c)
    ensures var res := if res1.outcome.Return? then res1 else EvalProgn(p.image.world, rest, res1.env, res1.history);
            Finished(p, scope, next + |CompileProgn(rest, scope, r, g).code|, PushedBy(r, res), r == -1, s, res, c)
    decreases rest, 2
  {
    hide *;
    var end := next + |CompileProgn(rest, scope, r, g).code|;
    if res1.outcome.Return? {
      c := c1;
      Left(p, scope, next, [], false, s, res1, c, end, PushedBy(r, res1), r == -1);
    } else {
      Normally(p, scope, env, next, [], false, s, res1, c1);
      PlacedIn(p, next, CompileProgn(rest, scope, r, g), s, c1.state);
      c := CorrectProgn(p, rest, scope, r, g, next, res1.env, c1.state);
      var res := EvalProgn(p.image.world, rest, res1.env, res1.history);
      ReachesOn(p, At(at, s), c1, c);
      Compose(p, scope, env, s, [], c1.state, end, PushedBy(r, res), r == -1, res, c);
      assert [] + PushedBy(r, res) == PushedBy(r, res);
    }
  }

  // The forms after the first of a multiple-value-prog1: their values are dropped.
  lemma {:induction false} CorrectEffects(p: Program, forms: Forms, scope: Scope, g: Gen, at: nat, env: Env, s: State)
    returns (c: Config)
    requires ScopedForms(forms, Vars(scope), Exits(scope))
    requires Placed(p, at, CompileEffects(forms, scope, g), s) && Ready(scope, env, s)
    ensures Reaches(p, At(at, s), c)
    ensures var res := EvalProgn(p.image.world, forms, env, s.history);
            Finished(p, scope, at + |CompileEffects(forms, scope, g).code|, [], false, s, res, c)
    decreases forms, 1
  {
    hide Finished, Ready, Reaches, Placed, Compile, Eval, Kept, Matches;
    match forms
    case Done =>
      c := At(at, s);
      Nothing(p, scope, at, env, s);
    case More(first, rest) =>
      var f := Compile(first, scope, 0, g);
      var b := CompileEffects(rest, scope, f.gen);
      PlacedParts(p, at, f, b, s);
      c := Correct(p, first, scope, 0, g, at, env, s);
      if rest.More? {
        c := AndThenEffects(p, rest, scope, f.gen, at, at + |f.code|, env, s,
            Eval(p.image.world, first, env, s.history), c);
      }
  }

  // No code at all finishes without a value.
  lemma Nothing(p: Program, scope: Scope, at: nat, env: Env, s: State)
    requires Ready(scope, env, s)
    ensures Reaches(p, At(at, s), At(at, s))
    ensures Finished(p, scope, at, [], false, s, Result(Values([Nil]), env, s.history), At(at, s))
  {
    hide Matches, Low;
    ReachesItself(p, At(at, s));
    MakeFinished(p, scope, at, [], false, s, Result(Values([Nil]), env, s.history), s);
  }

  lemma {:induction false} AndThenEffects(p: Program, rest: Forms, scope: Scope, g: Gen, at: nat, next: nat,
                                          env: Env, s: State, res1: Result, c1: Config)
    returns (c: Config)
    requires ScopedForms(rest, Vars(scope), Exits(scope))
    requires Placed(p, next, CompileEffects(rest, scope, g), s) && Ready(scope, env, s)
    requires Reaches(p, At(at, s), c1) && Finished(p, scope, next, [], false, s, res1, c1)
    ensures Reaches(p, At(at, s), c)
    ensures var res := if res1.outcome.Return? then res1 else EvalProgn(p.image.world, rest, res1.env, res1.history);
            Finished(p, scope, next + |CompileEffects(rest, scope, g).code|, [], false, s, res, c)
    decreases rest, 2
  {
    hide *;
    var end := next + |CompileEffects(rest, scope, g).code|;
    if res1.outcome.Return? {
      c := c1;
      Left(p, scope, next, [], false, s, res1, c, end, [], false);
    } else {
      Normally(p, scope, env, next, [], false, s, res1, c1);
      PlacedIn(p, next, CompileEffects(rest, scope, g), s, c1.state);
      c := CorrectEffects(p, rest, scope, g, next, res1.env, c1.state);
      var res := EvalProgn(p.image.world, rest, res1.env, res1.history);
      ReachesOn(p, At(at, s), c1, c);
      Compose(p, scope, env, s, [], c1.state, end, [], false, res, c);
      var none: seq<Value> := [];
      assert none + none == none;
    }
  }

  // The values that argument or init forms leave on the stack.
  function Pushes(res: Result): seq<Value> { if res.outcome.Values? then res.outcome.vs else [] }

  lemma {:induction false} CorrectArgs(p: Program, forms: Forms, scope: Scope, g: Gen, at: nat, env: Env, s: State)
    returns (c: Config)
    requires ScopedForms(forms, Vars(scope), Exits(scope))
    requires Placed(p, at, CompileArgs(forms, scope, g), s) && Ready(scope, env, s)
    ensures Reaches(p, At(at, s), c)
    ensures var res := EvalArgs(p.image.world, forms, env, s.history);
            Finished(p, scope, at + |CompileArgs(forms, scope, g).code|, Pushes(res), false, s, res, c)
    decreases forms, 1
  {
    hide Finished, Ready, Reaches, Placed, Compile, Eval, Kept, Matches;
    match forms
    case Done =>
      c := At(at, s);
      Nothing(p, scope, at, env, s);
      Revalued(p, scope, at, [], s, Result(Values([Nil]), env, s.history), c, []);
    case More(first, rest) =>
      var f := Compile(first, scope, 1, g);
      var b := CompileArgs(rest, scope, f.gen);
      PlacedParts(p, at, f, b, s);
      c := Correct(p, first, scope, 1, g, at, env, s);
      c := AndThenArgs(p, rest, scope, f.gen, at, at + |f.code|, env, s, Eval(p.image.world, first, env, s.history), c);
  }

  // When no values are wanted, it does not matter which there are.
  lemma Revalued(p: Program, scope: Scope, end: nat, pushed: seq<Value>, s: State, res: Result, c: Config,
                 vs: seq<Value>)
    requires Finished(p, scope, end, pushed, false, s, res, c) && res.outcome.Values?
    ensures Finished(p, scope, end, pushed, false, s, res.(outcome := Values(vs)), c)
  {
    hide Matches, Kept;
  }

  lemma {:induction false} AndThenArgs(p: Program, rest: Forms, scope: Scope, g: Gen, at: nat, next: nat,
                                       env: Env, s: State, res1: Result, c1: Config)
    returns (c: Config)
    requires ScopedForms(rest, Vars(scope), Exits(scope))
    requires Placed(p, next, CompileArgs(rest, scope, g), s) && Ready(scope, env, s)
    requires Reaches(p, At(at, s), c1) && Finished(p, scope, next, PushedBy(1, res1), false, s, res1, c1)
    ensures Reaches(p, At(at, s), c)
    ensures var a := EvalArgs(p.image.world, rest, res1.env, res1.history);
            var res := if res1.outcome.Return? then res1
                       else if a.outcome.Return? then a
                       else a.(outcome := Values([Primary(res1.outcome.vs)] + a.outcome.vs));
            Finished(p, scope, next + |CompileArgs(rest, scope, g).code|, Pushes(res), false, s, res, c)
    decreases rest, 2
  {
    hide *;
    var end := next + |CompileArgs(rest, scope, g).code|;
    if res1.outcome.Return? {
      c := c1;
      Left(p, scope, next, PushedBy(1, res1), false, s, res1, c, end, Pushes(res1), false);
    } else {
      var pushed := PushedBy(1, res1);
      Normally(p, scope, env, next, pushed, false, s, res1, c1);
      PlacedIn(p, next, CompileArgs(rest, scope, g), s, c1.state);
      c := CorrectArgs(p, rest, scope, g, next, res1.env, c1.state);
      var a := EvalArgs(p.image.world, rest, res1.env, res1.history);
      ReachesOn(p, At(at, s), c1, c);
      Compose(p, scope, env, s, pushed, c1.state, end, Pushes(a), false, a, c);
      ArgsJoined(p, scope, end, s, res1, a, c);
    }
  }

  lemma ArgsJoined(p: Program, scope: Scope, end: nat, s: State, res1: Result, a: Result, c: Config)
    requires res1.outcome.Values?
    requires Finished(p, scope, end, PushedBy(1, res1) + Pushes(a), false, s, a, c)
    ensures var res := if a.outcome.Return? then a
              else a.(outcome := Values([Primary(res1.outcome.vs)] + a.outcome.vs));
            Finished(p, scope, end, Pushes(res), false, s, res, c)
  {
    hide Matches, Kept;
  }

  // ---- multiple-value-prog1 ----

  lemma {:induction false} CorrectProg1(p: Program, form: Form, scope: Scope, r: Receiving, g: Gen, at: nat, env: Env,
                                        s: State)
    returns (c: Config)
    requires form.MultipleValueProg1? && Scoped(form, Vars(scope), Exits(scope))
    requires Placed(p, at, CompileProg1(form, scope, r, g), s) && Ready(scope, env, s)
    ensures Reaches(p, At(at, s), c)
    ensures var res := Eval(p.image.world, form, env, s.history);
            Finished(p, scope, at + |CompileProg1(form, scope, r, g).code|, PushedBy(r, res), r == -1, s, res, c)
    decreases form, 0
  {
    hide Finished, Ready, Reaches, Placed, Compile, CompileEffects, EvalProgn, Kept, Matches, CodeAt;
    var f := Compile(form.first, scope, r, g);
    var b := CompileEffects(form.body, scope, f.gen);
    if r == -1 {
      PlacedParts(p, at, Output(f.code + [Op(VM_PUSH_VALUES)] + b.code, b.gen), Output([Op(VM_POP_VALUES)], b.gen), s);
      PlacedParts(p, at, Output(f.code + [Op(VM_PUSH_VALUES)], f.gen), b, s);
      PlacedParts(p, at, f, Output([Op(VM_PUSH_VALUES)], f.gen), s);
      c := Correct(p, form.first, scope, -1, g, at, env, s);
      c := AndThenSaving(p, form.body, scope, f.gen, at, at + |f.code|, env, s,
          Eval(p.image.world, form.first, env, s.history), c);
    } else {
      PlacedParts(p, at, f, b, s);
      c := Correct(p, form.first, scope, r, g, at, env, s);
      c := AndThenKeeping(p, form.body, scope, r, f.gen, at, at + |f.code|, env, s,
                          Eval(p.image.world, form.first, env, s.history), c);
    }
  }

  lemma {:induction false} AndThenKeeping(p: Program, body: Forms, scope: Scope, r: Receiving, g: Gen, at: nat,
                                          next: nat,
                                          env: Env, s: State, res1: Result, c1: Config)
    returns (c: Config)
    requires ScopedForms(body, Vars(scope), Exits(scope)) && r != -1
    requires Placed(p, next, CompileEffects(body, scope, g), s) && Ready(scope, env, s)
    requires Reaches(p, At(at, s), c1) && Finished(p, scope, next, PushedBy(r, res1), false, s, res1, c1)
    ensures Reaches(p, At(at, s), c)
    ensures var b := EvalProgn(p.image.world, body, res1.env, res1.history);
            var res := if res1.outcome.Return? then res1
                       else if b.outcome.Return? then b else b.(outcome := res1.outcome);
            Finished(p, scope, next + |CompileEffects(body, scope, g).code|, PushedBy(r, res), false, s, res, c)
    decreases body, 2
  {
    hide *;
    var end := next + |CompileEffects(body, scope, g).code|;
    var pushed := PushedBy(r, res1);
    if res1.outcome.Return? {
      c := c1;
      Left(p, scope, next, pushed, false, s, res1, c, end, pushed, false);
    } else {
      Normally(p, scope, env, next, pushed, false, s, res1, c1);
      PlacedIn(p, next, CompileEffects(body, scope, g), s, c1.state);
      c := CorrectEffects(p, body, scope, g, next, res1.env, c1.state);
      var b := EvalProgn(p.image.world, body, res1.env, res1.history);
      ReachesOn(p, At(at, s), c1, c);
      Compose(p, scope, env, s, pushed, c1.state, end, [], false, b, c);
      assert pushed + [] == pushed;
      if b.outcome.Return? {
        Left(p, scope, end, pushed, false, s, b, c, end, PushedBy(r, b), false);
      } else {
        Revalued(p, scope, end, pushed, s, b, c, res1.outcome.vs);
        SamePushed(r, res1, b.(outcome := res1.outcome));
      }
    }
  }

  lemma SamePushed(r: Receiving, a: Result, b: Result)
    requires a.outcome.vs == b.outcome.vs
    ensures PushedBy(r, a) == PushedBy(r, b)
  {
  }

  lemma {:induction false} AndThenSaving(p: Program, body: Forms, scope: Scope, g: Gen, at: nat, next: nat,
                                         env: Env, s: State, res1: Result, c1: Config)
    returns (c: Config)
    requires ScopedForms(body, Vars(scope), Exits(scope))
    requires Placed(p, next, Output([Op(VM_PUSH_VALUES)], g), s) && Ready(scope, env, s)
    requires Placed(p, next + 1, CompileEffects(body, scope, g), s)
    requires Placed(p, next + 1 + |CompileEffects(body, scope, g).code|,
                    Output([Op(VM_POP_VALUES)], CompileEffects(body, scope, g).gen), s)
    requires Reaches(p, At(at, s), c1) && Finished(p, scope, next, [], true, s, res1, c1)
    ensures Reaches(p, At(at, s), c)
    ensures var b := EvalProgn(p.image.world, body, res1.env, res1.history);
            var res := if res1.outcome.Return? then res1
                       else if b.outcome.Return? then b else b.(outcome := res1.outcome);
            Finished(p, scope, next + 1 + |CompileEffects(body, scope, g).code| + 1, [], true, s, res, c)
    decreases body, 2
  {
    hide *;
    var pop := next + 1 + |CompileEffects(body, scope, g).code|;
    if res1.outcome.Return? {
      c := c1;
      Left(p, scope, next, [], true, s, res1, c, pop + 1, [], true);
    } else {
      Normally(p, scope, env, next, [], true, s, res1, c1);
      var vs := res1.outcome.vs;
      var saved := vs + [Fixnum(|vs|)];
      var s1 := c1.state.(stack := s.stack + saved);
      PushesValues(p, next, g, s, c1.state, s1);
      ReachesOn(p, At(at, s), c1, At(next + 1, s1));
      ReadyAfter(scope, env, s, res1.env, s1);
      PlacedIn(p, next + 1, CompileEffects(body, scope, g), s, s1);
      var c2 := CorrectEffects(p, body, scope, g, next + 1, res1.env, s1);
      ReachesOn(p, At(at, s), At(next + 1, s1), c2);
      var b := EvalProgn(p.image.world, body, res1.env, res1.history);
      Compose(p, scope, env, s, saved, s1, pop, [], false, b, c2);
      assert saved + [] == saved;
      if b.outcome.Return? {
        c := c2;
        Left(p, scope, pop, saved, false, s, b, c, pop + 1, [], true);
      } else {
        Normally(p, scope, env, pop, saved, false, s, b, c2);
        var t := c2.state.(stack := s.stack, mv := vs);
        PopsValues(p, pop, CompileEffects(body, scope, g).gen, s, vs, c2.state, t);
        c := At(pop + 1, t);
        ReachesOn(p, At(at, s), c2, c);
        assert s.stack + [] == s.stack;
        MakeFinished(p, scope, pop + 1, [], true, s, b.(outcome := res1.outcome), t);
      }
    }
  }

  lemma PushesValues(p: Program, pc: nat, g: Gen, s0: State, s: State, s': State)
    requires Placed(p, pc, Output([Op(VM_PUSH_VALUES)], g), s0)
    requires s' == s.(stack := s.stack + (s.mv + [Fixnum(|s.mv|)]))
    ensures Reaches(p, At(pc, s), At(pc + 1, s'))
  {
    assert s.stack + s.mv + [Fixnum(|s.mv|)] == s.stack + (s.mv + [Fixnum(|s.mv|)]);
    Runs(p, pc, Op(VM_PUSH_VALUES), s, s');
  }

  lemma PopsValues(p: Program, pc: nat, g: Gen, s0: State, vs: seq<Value>, s: State, s': State)
    requires Placed(p, pc, Output([Op(VM_POP_VALUES)], g), s0)
    requires s.stack == s0.stack + (vs + [Fixnum(|vs|)]) && s' == s.(stack := s0.stack, mv := vs)
    ensures Reaches(p, At(pc, s), At(pc + 1, s'))
  {
    var n := |s.stack|;
    assert s.stack[n - 1] == Fixnum(|vs|);
    assert s.stack[n - 1 - |vs|..n - 1] == vs;
    assert s.stack[..n - (|vs| + 1)] == s0.stack;
    Runs(p, pc, Op(VM_POP_VALUES), s, s');
  }

  // ---- calls ----

  lemma {:induction false} CorrectCall(p: Program, form: Form, scope: Scope, r: Receiving, g: Gen, at: nat, env: Env,
                                       s: State)
    returns (c: Config)
    requires form.Call? && Scoped(form, Vars(scope), Exits(scope))
    requires Placed(p, at, Compile(form, scope, r, g), s) && Ready(scope, env, s)
    ensures Reaches(p, At(at, s), c)
    ensures var res := Eval(p.image.world, form, env, s.history);
            Finished(p, scope, at + |Compile(form, scope, r, g).code|, PushedBy(r, res), r == -1, s, res, c)
    decreases form, 0
  {
    hide Finished, Ready, Reaches, Placed, CompileArgs, EvalArgs, Kept, Matches, CodeAt, EmitCall, LiteralIndex,
      PushedBy;
    var k := FunctionCellInfo(form.function_);
    var g1 := WithLiteral(g, k);
    var cell := Op1(VM_CALLED_FDEFINITION, LiteralIndex(g.literals, k));
    var a := CompileArgs(form.args, scope, g1);
    PlacedParts(p, at, Output([cell] + a.code, a.gen), Output([EmitCall(Length(form.args), r)], a.gen), s);
    PlacedParts(p, at, Output([cell], g1), a, s);
    PushesCell(p, at, form.function_, g, s);
    c := AfterCell(p, form, scope, r, g1, at, env, s);
  }

  lemma PushesCell(p: Program, pc: nat, name: Name, g: Gen, s: State)
    requires Placed(p, pc, Output([Op1(VM_CALLED_FDEFINITION, LiteralIndex(g.literals, FunctionCellInfo(name)))],
                                  WithLiteral(g, FunctionCellInfo(name))), s)
    ensures Reaches(p, At(pc, s), At(pc + 1, Pushed(s, FunctionCell(name))))
  {
    Runs(p, pc, Op1(VM_CALLED_FDEFINITION, LiteralIndex(g.literals, FunctionCellInfo(name))), s,
        Pushed(s, FunctionCell(name)));
  }

  lemma {:induction false} AfterCell(p: Program, form: Form, scope: Scope, r: Receiving, g: Gen, at: nat, env: Env,
                                     s: State)
    returns (c: Config)
    requires form.Call? && ScopedForms(form.args, Vars(scope), Exits(scope)) && Ready(scope, env, s)
    requires Placed(p, at + 1, CompileArgs(form.args, scope, g), s)
    requires Placed(p, at + 1 + |CompileArgs(form.args, scope, g).code|,
                    Output([EmitCall(Length(form.args), r)], CompileArgs(form.args, scope, g).gen), s)
    requires Reaches(p, At(at, s), At(at + 1, Pushed(s, FunctionCell(form.function_))))
    ensures Reaches(p, At(at, s), c)
    ensures var a := EvalArgs(p.image.world, form.args, env, s.history);
            var h := a.history + [Event(form.function_, a.outcome.vs)];
            var res := if a.outcome.Return? then a else Result(Values(p.image.world.answer(h)), a.env, h);
            Finished(p, scope, at + 1 + |CompileArgs(form.args, scope, g).code| + 1, PushedBy(r, res), r == -1, s,
                res, c)
    decreases form, 0, 0
  {
    hide *;
    var call := at + 1 + |CompileArgs(form.args, scope, g).code|;
    var cell := FunctionCell(form.function_);
    var s1 := s.(stack := s.stack + [cell]);
    assert s1 == Pushed(s, cell) by { PushedMeans(s, cell); }
    Unready(scope, env, s);
    KeptItself(scope.FrameEnd(), s.regs);
    ReadyAfter(scope, env, s, env, s1);
    PlacedIn(p, at + 1, CompileArgs(form.args, scope, g), s, s1);
    var c1 := CorrectArgs(p, form.args, scope, g, at + 1, env, s1);
    var a := EvalArgs(p.image.world, form.args, env, s.history);
    ReachesOn(p, At(at, s), At(at + 1, s1), c1);
    Compose(p, scope, env, s, [cell], s1, call, Pushes(a), false, a, c1);
    if a.outcome.Return? {
      c := c1;
      Left(p, scope, call, [cell] + Pushes(a), false, s, a, c, call + 1, PushedBy(r, a), r == -1);
    } else {
      PushesMeans(a);
      Normally(p, scope, env, call, [cell] + Pushes(a), false, s, a, c1);
      c := Calls(p, call, form.function_, r, CompileArgs(form.args, scope, g).gen, scope, s, a, c1.state);
      ReachesOn(p, At(at, s), c1, c);
    }
  }

  lemma PushedMeans(s: State, v: Value)
    ensures Pushed(s, v) == s.(stack := s.stack + [v])
  {
  }

  lemma PushesMeans(a: Result)
    requires a.outcome.Values?
    ensures Pushes(a) == a.outcome.vs
  {
  }

  // The call instruction itself, in each receiving context.
  lemma Calls(p: Program, pc: nat, name: Name, r: Receiving, g: Gen, scope: Scope, s: State, a: Result, s1: State)
    returns (c: Config)
    requires a.outcome.Values? && Placed(p, pc, Output([EmitCall(|a.outcome.vs|, r)], g), s)
    requires Kept(scope.FrameEnd(), s.regs, s1.regs) && Matches(scope, a.env, s1.regs)
    requires s1.stack == s.stack + ([FunctionCell(name)] + a.outcome.vs) && s1.history == a.history
    ensures Reaches(p, At(pc, s1), c)
    ensures var h := a.history + [Event(name, a.outcome.vs)];
            var res := Result(Values(p.image.world.answer(h)), a.env, h);
            Finished(p, scope, pc + 1, PushedBy(r, res), r == -1, s, res, c)
  {
    var vs, n := a.outcome.vs, |s1.stack|;
    var h := a.history + [Event(name, vs)];
    var res := Result(Values(p.image.world.answer(h)), a.env, h);
    assert s1.stack[n - |vs| - 1] == FunctionCell(name);
    assert s1.stack[n - |vs|..] == vs;
    assert s1.stack[..n - (|vs| + 1)] == s.stack;
    var t := s1.(stack := s.stack, mv := p.image.world.answer(h), history := h);
    assert Called(p.image.world, s1, |vs|) == Some(t);
    var t' := t.(stack := s.stack + PushedBy(r, res));
    assert s.stack + [] == s.stack;
    assert r == 0 ==> t.(stack := t.stack + seq(0, i requires 0 <= i => NthValue(t.mv, i))) == t';
    hide Kept, Matches, Reaches, CodeAt, UniqueMarks, Loaded, Called;
    assert Execute(p.image, EffectOf(EmitCall(|vs|, r)).ins, s1) == Some(t');
    Runs(p, pc, EmitCall(|vs|, r), s1, t');
    c := At(pc + 1, t');
    MakeFinished(p, scope, pc + 1, PushedBy(r, res), r == -1, s, res, t');
  }

  // ---- let* ----

  lemma {:induction false} CorrectClauses(p: Program, clauses: Clauses, scope: Scope, r: Receiving, g: Gen, at: nat,
                                          env: Env, s: State)
    returns (c: Config)
    requires ScopedClauses(clauses, Vars(scope), Exits(scope))
    requires Placed(p, at, CompileClauses(clauses, scope, r, g), s) && Ready(scope, env, s)
    ensures Reaches(p, At(at, s), c)
    ensures var res := EvalClauses(p.image.world, clauses, env, s.history);
            Finished(p, scope, at + |CompileClauses(clauses, scope, r, g).code|, PushedBy(r, res), r == -1, s, res, c)
    decreases clauses, 1
  {
    hide Finished, Ready, Reaches, Placed, Compile, Eval, Kept, Matches, CodeAt, PushedBy;
    match clauses
    case In(body) => c := CorrectProgn(p, body, scope, r, g, at, env, s);
    case Clause(name, init, rest) =>
      var f := Compile(init, scope, 1, g);
      var index := scope.FrameEnd();
      var g1 := f.gen.Needing(index + 1);
      var b := CompileClauses(rest, Var(name, scope), r, g1);
      var bind := [LexRef(Lex(index), VM_MAKE_CELL), Op1(VM_SET, index)];
      PlacedParts(p, at, Output(f.code + bind, g1), b, s);
      PlacedParts(p, at, f, Output(bind, g1), s);
      c := Correct(p, init, scope, 1, g, at, env, s);
      c := AndThenClauses(p, name, rest, scope, r, g1, at, at + |f.code|, env, s,
          Eval(p.image.world, init, env, s.history), c);
  }

  lemma {:induction false} AndThenClauses(p: Program, name: Name, rest: Clauses, scope: Scope, r: Receiving, g: Gen,
                                          at: nat, next: nat, env: Env, s: State, res1: Result, c1: Config)
    returns (c: Config)
    requires ScopedClauses(rest, Vars(Var(name, scope)), Exits(Var(name, scope))) && Ready(scope, env, s)
    requires Placed(p, next, Output([LexRef(Lex(scope.FrameEnd()), VM_MAKE_CELL), Op1(VM_SET, scope.FrameEnd())], g), s)
    requires scope.FrameEnd() < g.nlocals
    requires Placed(p, next + 2, CompileClauses(rest, Var(name, scope), r, g), s)
    requires Reaches(p, At(at, s), c1) && Finished(p, scope, next, PushedBy(1, res1), false, s, res1, c1)
    ensures Reaches(p, At(at, s), c)
    ensures var b := EvalClauses(p.image.world, rest, Bind(name, Primary(res1.outcome.vs), res1.env), res1.history);
            var res := if res1.outcome.Return? then res1 else b.(env := Outer(b.env));
            Finished(p, scope, next + 2 + |CompileClauses(rest, Var(name, scope), r, g).code|,
                     PushedBy(r, res), r == -1, s, res, c)
    decreases rest, 2
  {
    hide *;
    var end := next + 2 + |CompileClauses(rest, Var(name, scope), r, g).code|;
    if res1.outcome.Return? {
      c := c1;
      Left(p, scope, next, PushedBy(1, res1), false, s, res1, c, end, PushedBy(r, res1), r == -1);
    } else {
      var v := Primary(res1.outcome.vs);
      Normally(p, scope, env, next, PushedBy(1, res1), false, s, res1, c1);
      PushesOne(res1);
      var s2 := BindsOne(p, next, g, scope, name, env, s, res1.env, v, c1.state);
      ReachesOn(p, At(at, s), c1, At(next + 2, s2));
      PlacedIn(p, next + 2, CompileClauses(rest, Var(name, scope), r, g), s, s2);
      c := CorrectClauses(p, rest, Var(name, scope), r, g, next + 2, Bind(name, v, res1.env), s2);
      ReachesOn(p, At(at, s), At(next + 2, s2), c);
      var b := EvalClauses(p.image.world, rest, Bind(name, v, res1.env), res1.history);
      OutOfVar(p, scope, name, end, PushedBy(r, b), r == -1, s2, b, c);
      var res := b.(env := Outer(b.env));
      SamePushed(r, b, res);
      Compose(p, scope, env, s, [], s2, end, PushedBy(r, res), r == -1, res, c);
      assert [] + PushedBy(r, res) == PushedBy(r, res);
    }
  }

  lemma PushesOne(res: Result)
    ensures PushedBy(1, res) == [Primary(res.outcome.vs)]
  {
  }

  // The vm_set of a let*: the value moves from the stack to the new variable.
  lemma BindsOne(p: Program, pc: nat, g: Gen, scope: Scope, name: Name, env: Env, s: State, env1: Env, v: Value,
                 s1: State)
    returns (s2: State)
    requires Placed(p, pc, Output([LexRef(Lex(scope.FrameEnd()), VM_MAKE_CELL), Op1(VM_SET, scope.FrameEnd())], g), s)
    requires scope.FrameEnd() < g.nlocals
    requires Ready(scope, env, s) && Ready(scope, env1, s1) && Kept(scope.FrameEnd(), s.regs, s1.regs)
    requires s1.stack == s.stack + [v]
    ensures Reaches(p, At(pc, s1), At(pc + 2, s2))
    ensures Ready(Var(name, scope), Bind(name, v, env1), s2)
    ensures Kept(scope.FrameEnd(), s.regs, s2.regs) && |s2.regs| == |s.regs|
    ensures s2.stack == s.stack + [] && s2.history == s1.history
  {
    var n := scope.FrameEnd();
    var cell, set_ := LexRef(Lex(n), VM_MAKE_CELL), Op1(VM_SET, n);
    assert [cell, set_] == [cell] + [set_];
    CodeParts(p.items, pc, [cell], [set_]);
    s2 := s1.(stack := s.stack, regs := s1.regs[n := Val(v)]);
    assert s1.stack[..|s1.stack| - 1] == s.stack;
    assert WithRegs(Dropped(s1, 1), n, [v]) == s2;
    Skips(p, pc, cell, s1);
    Runs(p, pc + 1, set_, s1, s2);
    ReachesOn(p, At(pc, s1), At(pc + 1, s1), At(pc + 2, s2));
    MatchesBelow(scope, env1, s1.regs, s2.regs);
    assert s.stack + [] == s.stack;
  }

  // Leaving the scope of a variable.
  lemma OutOfVar(p: Program, scope: Scope, name: Name, end: nat, pushed: seq<Value>, all: bool, s: State, res: Result,
                 c: Config)
    requires Finished(p, Var(name, scope), end, pushed, all, s, res, c)
    ensures Finished(p, scope, end, pushed, all, s, res.(env := Outer(res.env)), c)
  {
  }

  // ---- setq ----

  lemma {:induction false} CorrectSetq(p: Program, pairs: Bindings, scope: Scope, r: Receiving, g: Gen, at: nat,
                                       env: Env, s: State)
    returns (c: Config)
    requires ScopedPairs(pairs, Vars(scope), Exits(scope))
    requires Placed(p, at, CompileSetq(pairs, scope, r, g), s) && Ready(scope, env, s)
    ensures Reaches(p, At(at, s), c)
    ensures var res := EvalSetq(p.image.world, pairs, env, s.history);
            Finished(p, scope, at + |CompileSetq(pairs, scope, r, g).code|, PushedBy(r, res), r == -1, s, res, c)
    decreases pairs, 1
  {
    hide *;
    match pairs
    case NoMore => c := SetsNothing(p, pairs, scope, r, g, at, env, s);
    case Binding(name, init, rest) =>
      UnfoldedSetq(p.image.world, pairs, scope, r, g, env, s.history);
      var r1: Receiving := if rest.NoMore? then r else 0;
      var f := Compile(init, scope, 1, g);
      var assign := Assigning(scope, name, r1);
      var res1 := Eval(p.image.world, init, env, s.history);
      if rest.NoMore? {
        PlacedParts(p, at, f, Output(assign, f.gen), s);
        c := Correct(p, init, scope, 1, g, at, env, s);
        c := AndThenAssign(p, name, scope, r, f.gen, at, at + |f.code|, env, s, res1, c);
      } else {
        var b := CompileSetq(rest, scope, r, f.gen);
        PlacedParts(p, at, Output(f.code + assign, f.gen), b, s);
        PlacedParts(p, at, f, Output(assign, f.gen), s);
        c := Correct(p, init, scope, 1, g, at, env, s);
        c := AndThenAssign(p, name, scope, 0, f.gen, at, at + |f.code|, env, s, res1, c);
        c := AndThenSetq(p, rest, scope, r, f.gen, at, at + |f.code| + |assign|, env, s, Assigned(res1, name), c);
      }
  }

  lemma UnfoldedSetq(world: World, pairs: Bindings, scope: Scope, r: Receiving, g: Gen, env: Env, history: seq<Event>)
    requires pairs.Binding? && ScopedPairs(pairs, Vars(scope), Exits(scope))
    ensures pairs.name in Vars(scope) && Scoped(pairs.init, Vars(scope), Exits(scope))
    ensures ScopedPairs(pairs.rest, Vars(scope), Exits(scope))
    ensures var f := Compile(pairs.init, scope, 1, g);
            && Grows(f.gen, f.gen)
            && if pairs.rest.NoMore? then
                 CompileSetq(pairs, scope, r, g) == Output(f.code + Assigning(scope, pairs.name, r), f.gen)
               else
                 var b := CompileSetq(pairs.rest, scope, r, f.gen);
                 CompileSetq(pairs, scope, r, g) == Output(f.code + Assigning(scope, pairs.name, 0) + b.code, b.gen)
                 && Grows(f.gen, b.gen)
    ensures var a := Assigned(Eval(world, pairs.init, env, history), pairs.name);
            EvalSetq(world, pairs, env, history)
            == if a.outcome.Return? || pairs.rest.NoMore? then a else EvalSetq(world, pairs.rest, a.env, a.history)
  {
    hide Compile, Eval, FindVar, PopIfAll, Update;
    var r1: Receiving := if pairs.rest.NoMore? then r else 0;
    assert Compile(pairs.init, scope, 1, g).code + (if r1 != 0 then [Op(VM_DUP)] else [])
           + [LexSet(Lex(FindVar(scope, pairs.name).value))] + PopIfAll(r1)
           == Compile(pairs.init, scope, 1, g).code + Assigning(scope, pairs.name, r1);
  }

  lemma SetsNothing(p: Program, pairs: Bindings, scope: Scope, r: Receiving, g: Gen, at: nat, env: Env, s: State)
    returns (c: Config)
    requires pairs.NoMore? && Placed(p, at, CompileSetq(pairs, scope, r, g), s) && Ready(scope, env, s)
    ensures Reaches(p, At(at, s), c)
    ensures var res := EvalSetq(p.image.world, pairs, env, s.history);
            Finished(p, scope, at + |CompileSetq(pairs, scope, r, g).code|, PushedBy(r, res), r == -1, s, res, c)
  {
    assert CompileSetq(pairs, scope, r, g) == CompileLiteral(Nil, r, g);
    assert EvalSetq(p.image.world, pairs, env, s.history) == Result(Values([Nil]), env, s.history);
    hide *;
    c := CorrectLiteral(p, Nil, scope, r, g, at, env, s);
  }

  function Assigned(res: Result, name: Name): Result {
    if res.outcome.Return? then res
    else
      var v := Primary(res.outcome.vs);
      Result(Values([v]), Update(res.env, name, v), res.history)
  }

  lemma AndThenAssign(p: Program, name: Name, scope: Scope, r: Receiving, g: Gen, at: nat, next: nat,
                      env: Env, s: State, res1: Result, c1: Config)
    returns (c: Config)
    requires name in Vars(scope) && Ready(scope, env, s)
    requires Placed(p, next, Output(Assigning(scope, name, r), g), s)
    requires Reaches(p, At(at, s), c1) && Finished(p, scope, next, PushedBy(1, res1), false, s, res1, c1)
    ensures Reaches(p, At(at, s), c)
    ensures var res := Assigned(res1, name);
            Finished(p, scope, next + |Assigning(scope, name, r)|, PushedBy(r, res), r == -1, s, res, c)
  {
    hide *;
    var end := next + |Assigning(scope, name, r)|;
    if res1.outcome.Return? {
      c := c1;
      Left(p, scope, next, PushedBy(1, res1), false, s, res1, c, end, PushedBy(r, res1), r == -1);
      AssignedMeans(res1, name);
    } else {
      AssignedMeans(res1, name);
      Normally(p, scope, env, next, PushedBy(1, res1), false, s, res1, c1);
      PushesOne(res1);
      c := Assigns(p, next, g, scope, name, r, s, res1.env, Primary(res1.outcome.vs), c1.state);
      ReachesOn(p, At(at, s), c1, c);
    }
  }

  lemma AssignedMeans(res: Result, name: Name)
    ensures res.outcome.Return? ==> Assigned(res, name) == res
    ensures res.outcome.Values? ==>
              Assigned(res, name) == Result(Values([Primary(res.outcome.vs)]),
                  Update(res.env, name, Primary(res.outcome.vs)), res.history)
  {
  }

  lemma Assigns(p: Program, pc: nat, g: Gen, scope: Scope, name: Name, r: Receiving, s: State, env: Env, v: Value,
                s1: State)
    returns (c: Config)
    requires name in Vars(scope) && Placed(p, pc, Output(Assigning(scope, name, r), g), s)
    requires Kept(scope.FrameEnd(), s.regs, s1.regs) && Matches(scope, env, s1.regs)
    requires s1.stack == s.stack + [v]
    ensures Reaches(p, At(pc, s1), c)
    ensures var res := Result(Values([v]), Update(env, name, v), s1.history);
            Finished(p, scope, pc + |Assigning(scope, name, r)|, PushedBy(r, res), r == -1, s, res, c)
  {
    hide *;
    Unplaced(p, pc, Output(Assigning(scope, name, r), g), s);
    var i := FindVar(scope, name).value;
    KeepsAssigned(scope, name, env, v, s1.regs);
    var regs, env' := s1.regs[i := Val(v)], Update(env, name, v);
    KeptOn(scope.FrameEnd(), s.regs, s1.regs, regs);
    AssigningMeans(scope, name, r);
    var tail := [LexSet(Lex(i))] + PopIfAll(r);
    if r == 0 {
      var t := s1.(stack := s.stack, regs := regs);
      PopMeans(r);
      assert tail == [LexSet(Lex(i))];
      Sets(p, pc, i, s.stack, v, s1, t);
      c := At(pc + 1, t);
      PushesNone(Result(Values([v]), env', s1.history));
      assert s.stack + [] == s.stack;
      MakeFinished(p, scope, pc + 1, [], false, s, Result(Values([v]), env', s1.history), t);
    } else {
      var t := s1.(regs := regs);
      SetsKeeping(p, pc, i, r, v, s1, t);
      c := Single(p, scope, pc + 2, r, s, v, env', t);
      ReachesOn(p, At(pc, s1), At(pc + 2, t), c);
    }
  }

  // The value is assigned and stays on the stack.
  lemma SetsKeeping(p: Program, pc: nat, i: nat, r: Receiving, v: Value, s: State, t: State)
    requires CodeAt(p.items, pc, [Op(VM_DUP)] + ([LexSet(Lex(i))] + PopIfAll(r))) && i < |s.regs|
    requires s.stack != [] && s.stack[|s.stack| - 1] == v && t == s.(regs := s.regs[i := Val(v)])
    ensures Reaches(p, At(pc, s), At(pc + 2, t)) && CodeAt(p.items, pc + 2, PopIfAll(r))
  {
    hide *;
    CodeParts(p.items, pc, [Op(VM_DUP)], [LexSet(Lex(i))] + PopIfAll(r));
    CodeParts(p.items, pc + 1, [LexSet(Lex(i))], PopIfAll(r));
    var s2 := s.(stack := s.stack + [v]);
    Duplicates(p, pc, v, s, s2);
    Sets(p, pc + 1, i, s.stack, v, s2, t);
    ReachesOn(p, At(pc, s), At(pc + 1, s2), At(pc + 2, t));
  }

  lemma KeepsAssigned(scope: Scope, name: Name, env: Env, v: Value, regs: seq<Slot>)
    requires name in Vars(scope) && Matches(scope, env, regs)
    ensures var i := FindVar(scope, name).value;
            && i < |regs| && Matches(scope, Update(env, name, v), regs[i := Val(v)])
            && Kept(scope.FrameEnd(), regs, regs[i := Val(v)])
    ensures FindVar(scope, name).Some?
  {
    VarHolds(scope, env, regs, name);
    VarAssigned(scope, env, regs, name, v);
  }

  lemma AssigningMeans(scope: Scope, name: Name, r: Receiving)
    requires name in Vars(scope)
    ensures Assigning(scope, name, r)
            == var tail := [LexSet(Lex(FindVar(scope, name).value))] + PopIfAll(r);
               if r == 0 then tail else [Op(VM_DUP)] + tail
  {
  }

  lemma Duplicates(p: Program, pc: nat, v: Value, s: State, s': State)
    requires CodeAt(p.items, pc, [Op(VM_DUP)]) && s.stack != [] && s.stack[|s.stack| - 1] == v
    requires s' == s.(stack := s.stack + [v])
    ensures Reaches(p, At(pc, s), At(pc + 1, s'))
  {
    Runs(p, pc, Op(VM_DUP), s, s');
  }

  lemma PopMeans(r: Receiving)
    ensures PopIfAll(r) == if r == -1 then [Op(VM_POP)] else []
  {
  }

  lemma Sets(p: Program, pc: nat, i: nat, rest: seq<Value>, v: Value, s: State, t: State)
    requires CodeAt(p.items, pc, [LexSet(Lex(i))]) && i < |s.regs|
    requires s.stack == rest + [v] && t == s.(stack := rest, regs := s.regs[i := Val(v)])
    ensures Reaches(p, At(pc, s), At(pc + 1, t))
  {
    assert s.stack[..|s.stack| - 1] == rest;
    assert WithRegs(Dropped(s, 1), i, [v]) == t;
    Runs(p, pc, LexSet(Lex(i)), s, t);
  }

  lemma {:induction false} AndThenSetq(p: Program, rest: Bindings, scope: Scope, r: Receiving, g: Gen, at: nat,
                                       next: nat,
                                       env: Env, s: State, res1: Result, c1: Config)
    returns (c: Config)
    requires ScopedPairs(rest, Vars(scope), Exits(scope))
    requires Placed(p, next, CompileSetq(rest, scope, r, g), s) && Ready(scope, env, s)
    requires Reaches(p, At(at, s), c1) && Finished(p, scope, next, PushedBy(0, res1), false, s, res1, c1)
    ensures Reaches(p, At(at, s), c)
    ensures var res := if res1.outcome.Return? then res1 else EvalSetq(p.image.world, rest, res1.env, res1.history);
            Finished(p, scope, next + |CompileSetq(rest, scope, r, g).code|, PushedBy(r, res), r == -1, s, res, c)
    decreases rest, 2
  {
    hide *;
    var end := next + |CompileSetq(rest, scope, r, g).code|;
    PushesNone(res1);
    if res1.outcome.Return? {
      c := c1;
      Left(p, scope, next, [], false, s, res1, c, end, PushedBy(r, res1), r == -1);
    } else {
      Normally(p, scope, env, next, [], false, s, res1, c1);
      PlacedIn(p, next, CompileSetq(rest, scope, r, g), s, c1.state);
      c := CorrectSetq(p, rest, scope, r, g, next, res1.env, c1.state);
      var res := EvalSetq(p.image.world, rest, res1.env, res1.history);
      ReachesOn(p, At(at, s), c1, c);
      Compose(p, scope, env, s, [], c1.state, end, PushedBy(r, res), r == -1, res, c);
      assert [] + PushedBy(r, res) == PushedBy(r, res);
    }
  }

  lemma PushesNone(res: Result)
    ensures PushedBy(0, res) == []
  {
  }

  // ---- if ----

  lemma {:induction false} CorrectIf(p: Program, form: Form, scope: Scope, r: Receiving, g: Gen, at: nat, env: Env,
                                     s: State)
    returns (c: Config)
    requires form.If? && Scoped(form, Vars(scope), Exits(scope))
    requires Placed(p, at, CompileIf(form, scope, r, g), s) && Ready(scope, env, s)
    ensures Reaches(p, At(at, s), c)
    ensures var res := Eval(p.image.world, form, env, s.history);
            Finished(p, scope, at + |CompileIf(form, scope, r, g).code|, PushedBy(r, res), r == -1, s, res, c)
    decreases form, 0
  {
    hide Finished, Ready, Reaches, Placed, Compile, Kept, Matches, CodeAt, PushedBy;
    var k := Compile(form.cond, scope, 1, g);
    var thenId, doneId := k.gen.labels, k.gen.labels + 1;
    var g1 := k.gen.(labels := k.gen.labels + 2);
    var e := Compile(form.els, scope, r, g1);
    var t := Compile(form.thn, scope, r, e.gen);
    var mid := [Jump(doneId), Mark(thenId)];
    PlacedParts(p, at, Output(k.code + [JumpIf(thenId)] + e.code + mid + t.code, t.gen),
        Output([Mark(doneId)], t.gen), s);
    PlacedParts(p, at, Output(k.code + [JumpIf(thenId)] + e.code + mid, e.gen), t, s);
    PlacedParts(p, at, Output(k.code + [JumpIf(thenId)] + e.code, e.gen), Output(mid, e.gen), s);
    PlacedParts(p, at, Output(k.code + [JumpIf(thenId)], g1), e, s);
    PlacedParts(p, at, k, Output([JumpIf(thenId)], g1), s);
    c := Correct(p, form.cond, scope, 1, g, at, env, s);
    c := AndThenBranch(p, form, scope, r, g1, e.gen, thenId, doneId, at, at + |k.code|, env, s,
                       Eval(p.image.world, form.cond, env, s.history), c);
  }

  // Which branch is taken, given the state after the condition.
  lemma {:induction false} AndThenBranch(p: Program, form: Form, scope: Scope, r: Receiving, g: Gen, g': Gen,
                                         thenId: nat, doneId: nat, at: nat, next: nat, env: Env, s: State,
                                             res1: Result, c1: Config)
    returns (c: Config)
    requires form.If? && Scoped(form.els, Vars(scope), Exits(scope)) && Scoped(form.thn, Vars(scope), Exits(scope))
    requires Ready(scope, env, s)
    requires Placed(p, next, Output([JumpIf(thenId)], g), s)
    requires Placed(p, next + 1, Compile(form.els, scope, r, g), s)
    requires g' == Compile(form.els, scope, r, g).gen
    requires Placed(p, next + 1 + |Compile(form.els, scope, r, g).code|, Output([Jump(doneId), Mark(thenId)], g'), s)
    requires Placed(p, next + 1 + |Compile(form.els, scope, r, g).code| + 2, Compile(form.thn, scope, r, g'), s)
    requires Placed(p, next + 1 + |Compile(form.els, scope, r, g).code| + 2 + |Compile(form.thn, scope, r, g').code|,
                    Output([Mark(doneId)], Compile(form.thn, scope, r, g').gen), s)
    requires Reaches(p, At(at, s), c1) && Finished(p, scope, next, PushedBy(1, res1), false, s, res1, c1)
    ensures Reaches(p, At(at, s), c)
    ensures var res := if res1.outcome.Return? then res1
                       else if Primary(res1.outcome.vs) != Nil
                           then Eval(p.image.world, form.thn, res1.env, res1.history)
                       else Eval(p.image.world, form.els, res1.env, res1.history);
            var e, t := |Compile(form.els, scope, r, g).code|, |Compile(form.thn, scope, r, g').code|;
            Finished(p, scope, next + 1 + e + 2 + t + 1, PushedBy(r, res), r == -1, s, res, c)
    decreases form, 0, 0
  {
    hide *;
    var e, t := Compile(form.els, scope, r, g), Compile(form.thn, scope, r, g');
    var elseEnd := next + 1 + |e.code|;
    var thenEnd := elseEnd + 2 + |t.code|;
    if res1.outcome.Return? {
      c := c1;
      Left(p, scope, next, PushedBy(1, res1), false, s, res1, c, thenEnd + 1, PushedBy(r, res1), r == -1);
    } else {
      Normally(p, scope, env, next, PushedBy(1, res1), false, s, res1, c1);
      PushesOne(res1);
      var v := Primary(res1.outcome.vs);
      var s1 := c1.state.(stack := s.stack);
      ReadyAfter(scope, env, s, res1.env, s1);
      Branches(p, next, elseEnd, thenId, doneId, g, g', s, v, c1.state, s1);
      assert s.stack + [] == s.stack;
      if v != Nil {
        ReachesOn(p, At(at, s), c1, At(elseEnd + 2, s1));
        PlacedIn(p, elseEnd + 2, t, s, s1);
        var c2 := Correct(p, form.thn, scope, r, g', elseEnd + 2, res1.env, s1);
        ReachesOn(p, At(at, s), At(elseEnd + 2, s1), c2);
        c := Joins(p, scope, thenEnd, doneId, t.gen, r, at, env, s, res1.env, s1,
                   Eval(p.image.world, form.thn, res1.env, res1.history), c2);
      } else {
        ReachesOn(p, At(at, s), c1, At(next + 1, s1));
        PlacedIn(p, next + 1, e, s, s1);
        var c2 := Correct(p, form.els, scope, r, g, next + 1, res1.env, s1);
        ReachesOn(p, At(at, s), At(next + 1, s1), c2);
        c := JumpsAndJoins(p, scope, elseEnd, thenEnd, thenId, doneId, g', t.gen, r, at, env, s, res1.env, s1,
                           Eval(p.image.world, form.els, res1.env, res1.history), c2);
      }
    }
  }

  // The conditional jump pops the condition.
  lemma Branches(p: Program, pc: nat, elseEnd: nat, thenId: nat, doneId: nat, g: Gen, g': Gen, s0: State, v: Value,
                 s: State, s': State)
    requires Placed(p, pc, Output([JumpIf(thenId)], g), s0)
    requires Placed(p, elseEnd, Output([Jump(doneId), Mark(thenId)], g'), s0)
    requires s.stack == s0.stack + [v] && s' == s.(stack := s0.stack)
    ensures v != Nil ==> Reaches(p, At(pc, s), At(elseEnd + 2, s'))
    ensures v == Nil ==> Reaches(p, At(pc, s), At(pc + 1, s'))
  {
    CodeItem(p.items, pc, JumpIf(thenId));
    assert [Jump(doneId), Mark(thenId)] == [Jump(doneId)] + [Mark(thenId)];
    CodeParts(p.items, elseEnd, [Jump(doneId)], [Mark(thenId)]);
    CodeItem(p.items, elseEnd + 1, Mark(thenId));
    TargetIs(p.items, elseEnd + 1, thenId);
    assert s.stack[..|s.stack| - 1] == s0.stack;
    if v != Nil {
      ReachesNext(p, At(pc, s), At(elseEnd + 1, s'));
      Skips(p, elseEnd + 1, Mark(thenId), s');
      ReachesOn(p, At(pc, s), At(elseEnd + 1, s'), At(elseEnd + 2, s'));
    } else {
      ReachesNext(p, At(pc, s), At(pc + 1, s'));
    }
  }

  // A branch ends at the mark where the branches join.
  lemma Joins(p: Program, scope: Scope, end: nat, doneId: nat, g: Gen, r: Receiving, at: nat, env: Env, s: State,
              env1: Env, s1: State, res: Result, c2: Config) returns (c: Config)
    requires Placed(p, end, Output([Mark(doneId)], g), s) && Ready(scope, env, s)
    requires Ready(scope, env1, s1) && Kept(scope.FrameEnd(), s.regs, s1.regs) && s1.stack == s.stack
    requires Reaches(p, At(at, s), c2) && Finished(p, scope, end, PushedBy(r, res), r == -1, s1, res, c2)
    ensures Reaches(p, At(at, s), c) && Finished(p, scope, end + 1, PushedBy(r, res), r == -1, s, res, c)
  {
    hide *;
    assert s.stack == s.stack + [];
    Compose(p, scope, env, s, [], s1, end, PushedBy(r, res), r == -1, res, c2);
    assert [] + PushedBy(r, res) == PushedBy(r, res);
    if res.outcome.Return? {
      c := c2;
      Left(p, scope, end, PushedBy(r, res), r == -1, s, res, c, end + 1, PushedBy(r, res), r == -1);
    } else {
      Normally(p, scope, env, end, PushedBy(r, res), r == -1, s, res, c2);
      c := At(end + 1, c2.state);
      Unplaced(p, end, Output([Mark(doneId)], g), s);
      SkipsMark(p, end, doneId, c2.state);
      ReachesOn(p, At(at, s), c2, c);
      MakeFinished(p, scope, end + 1, PushedBy(r, res), r == -1, s, res, c2.state);
    }
  }

  lemma SkipsMark(p: Program, pc: nat, id: nat, s: State)
    requires CodeAt(p.items, pc, [Mark(id)])
    ensures Reaches(p, At(pc, s), At(pc + 1, s))
  {
    Skips(p, pc, Mark(id), s);
  }

  // The other branch jumps over this one to the same mark.
  lemma JumpsAndJoins(p: Program, scope: Scope, elseEnd: nat, end: nat, thenId: nat, doneId: nat, g: Gen, g': Gen,
                      r: Receiving, at: nat, env: Env, s: State, env1: Env, s1: State, res: Result, c2: Config)
    returns (c: Config)
    requires Placed(p, elseEnd, Output([Jump(doneId), Mark(thenId)], g), s)
    requires Placed(p, end, Output([Mark(doneId)], g'), s) && Ready(scope, env, s)
    requires Ready(scope, env1, s1) && Kept(scope.FrameEnd(), s.regs, s1.regs) && s1.stack == s.stack
    requires Reaches(p, At(at, s), c2) && Finished(p, scope, elseEnd, PushedBy(r, res), r == -1, s1, res, c2)
    ensures Reaches(p, At(at, s), c) && Finished(p, scope, end + 1, PushedBy(r, res), r == -1, s, res, c)
  {
    hide *;
    if res.outcome.Return? {
      Left(p, scope, elseEnd, PushedBy(r, res), r == -1, s1, res, c2, end, PushedBy(r, res), r == -1);
      c := Joins(p, scope, end, doneId, g', r, at, env, s, env1, s1, res, c2);
    } else {
      Normally(p, scope, env1, elseEnd, PushedBy(r, res), r == -1, s1, res, c2);
      JumpsOver(p, elseEnd, end, thenId, doneId, g, g', s, c2.state);
      var c3 := At(end, c2.state);
      ReachesOn(p, At(at, s), c2, c3);
      MakeFinished(p, scope, end, PushedBy(r, res), r == -1, s1, res, c2.state);
      c := Joins(p, scope, end, doneId, g', r, at, env, s, env1, s1, res, c3);
    }
  }

  lemma JumpsOver(p: Program, pc: nat, end: nat, thenId: nat, doneId: nat, g: Gen, g': Gen, s0: State, s: State)
    requires Placed(p, pc, Output([Jump(doneId), Mark(thenId)], g), s0)
    requires Placed(p, end, Output([Mark(doneId)], g'), s0)
    ensures Reaches(p, At(pc, s), At(end, s))
  {
    assert [Jump(doneId), Mark(thenId)] == [Jump(doneId)] + [Mark(thenId)];
    CodeParts(p.items, pc, [Jump(doneId)], [Mark(thenId)]);
    Jumps(p, pc, Jump(doneId), s, end);
  }

  // ---- return-from ----

  lemma {:induction false} CorrectReturnFrom(p: Program, form: Form, scope: Scope, r: Receiving, g: Gen, at: nat,
                                             env: Env, s: State)
    returns (c: Config)
    requires form.ReturnFrom? && Scoped(form, Vars(scope), Exits(scope))
    requires Placed(p, at, Compile(form, scope, r, g), s) && Ready(scope, env, s)
    ensures Reaches(p, At(at, s), c)
    ensures var res := Eval(p.image.world, form, env, s.history);
            Finished(p, scope, at + |Compile(form, scope, r, g).code|, PushedBy(r, res), r == -1, s, res, c)
    decreases form, 0
  {
    hide *;
    UnfoldedReturnFrom(p.image.world, form, scope, r, g, env, s.history);
    var info := FindExit(scope, ToBlock(form.name)).value;
    var r1: Receiving := if info.receiving == 0 then 0 else -1;
    var f := Compile(form.result, scope, r1, g);
    var res1 := Eval(p.image.world, form.result, env, s.history);
    var exit := Leaving(info);
    PlacedParts(p, at, Output(f.code + Unwind(scope, ToBlock(form.name)), f.gen), Output(exit, f.gen), s);
    PlacedParts(p, at, f, Output(Unwind(scope, ToBlock(form.name)), f.gen), s);
    c := Correct(p, form.result, scope, r1, g, at, env, s);
    PushesWhenOne(r1, res1);
    c := AndThenExit(p, ToBlock(form.name), scope, r, f.gen, at, at + |f.code|, env, s, res1, c);
  }

  lemma UnfoldedReturnFrom(world: World, form: Form, scope: Scope, r: Receiving, g: Gen, env: Env, history: seq<Event>)
    requires form.ReturnFrom? && Scoped(form, Vars(scope), Exits(scope))
    ensures FindExit(scope, ToBlock(form.name)).Some? && Scoped(form.result, Vars(scope), Exits(scope))
    ensures var info := FindExit(scope, ToBlock(form.name)).value;
            var f := Compile(form.result, scope, if info.receiving == 0 then 0 else -1, g);
            Compile(form, scope, r, g)
            == Output(f.code + Unwind(scope, ToBlock(form.name))
                      + Leaving(info), f.gen)
            && Grows(f.gen, f.gen)
    ensures var res1 := Eval(world, form.result, env, history);
            Eval(world, form, env, history)
            == if res1.outcome.Return? then res1 else res1.(outcome := Return(ToBlock(form.name), res1.outcome.vs))
  {
    hide Unwind, CompileIf, CompileBlock, CompileProg1, CompileProgn, CompileClauses, CompileSetq, CompileLiteral,
      EvalProgn, EvalClauses, EvalSetq, CompileInits, CompileArgs, EvalInits, EvalArgs, FindExit;
  }

  lemma PushesWhenOne(r: Receiving, res: Result)
    ensures r != 1 ==> PushedBy(r, res) == []
  {
  }

  lemma AndThenExit(p: Program, to: Destination, scope: Scope, r: Receiving, g: Gen, at: nat, next: nat,
                    env: Env, s: State, res1: Result, c1: Config)
    returns (c: Config)
    requires FindExit(scope, to).Some? && Ready(scope, env, s)
    requires Placed(p, next, Output(Unwind(scope, to), g), s)
    requires var info := FindExit(scope, to).value;
             Placed(p, next + |Unwind(scope, to)|,
                    Output(Leaving(info), g), s)
    requires Reaches(p, At(at, s), c1)
    requires Finished(p, scope, next, [], FindExit(scope, to).value.receiving != 0, s, res1, c1)
    ensures Reaches(p, At(at, s), c)
    ensures var res := if res1.outcome.Return? then res1 else res1.(outcome := Return(to, res1.outcome.vs));
            Finished(p, scope, next + |Unwind(scope, to)| + 2, PushedBy(r, res), r == -1, s, res, c)
  {
    hide *;
    var info := FindExit(scope, to).value;
    var end := next + |Unwind(scope, to)|;
    if res1.outcome.Return? {
      c := c1;
      Left(p, scope, next, [], info.receiving != 0, s, res1, c, end + 2, PushedBy(r, res1), r == -1);
    } else {
      Normally(p, scope, env, next, [], info.receiving != 0, s, res1, c1);
      Unplaced(p, next, Output(Unwind(scope, to), g), s);
      Unwinds(p, next, scope, to, c1.state);
      ReachesOn(p, At(at, s), c1, At(end, c1.state));
      assert s.stack + [] == s.stack;
      c := Leaves(p, end, g, scope, to, env, s, res1, c1.state, PushedBy(r, res1), r == -1);
      ReachesOn(p, At(at, s), At(end, c1.state), c);
      SamePushed(r, res1, res1.(outcome := Return(to, res1.outcome.vs)));
    }
  }

  // Nothing has been closed over: no interposed environment needs closing.
  lemma {:induction false} Unwinds(p: Program, pc: nat, scope: Scope, to: Destination, s: State)
    requires CodeAt(p.items, pc, Unwind(scope, to))
    ensures Reaches(p, At(pc, s), At(pc + |Unwind(scope, to)|, s))
    decreases scope
  {
    hide CodeAt, Reaches;
    match scope
    case Null(_) => ReachesItself(p, At(pc, s));
    case Var(_, outer) => Unwinds(p, pc, outer, to, s);
    case _ =>
      if scope.Catches(to) {
        ReachesItself(p, At(pc, s));
      } else {
        var close := EntryClose(Lex(scope.outer.FrameEnd()));
        CodeParts(p.items, pc, [close], Unwind(scope.outer, to));
        Skips(p, pc, close, s);
        Unwinds(p, pc + 1, scope.outer, to, s);
        ReachesOn(p, At(pc, s), At(pc + 1, s), At(pc + |Unwind(scope, to)|, s));
      }
  }

  // The stack pointer is restored and control goes to the exit label.
  lemma Leaves(p: Program, pc: nat, g: Gen, scope: Scope, to: Destination, env: Env, s: State, res1: Result, s1: State,
               pushed: seq<Value>, all: bool)
    returns (c: Config)
    requires FindExit(scope, to).Some? && Ready(scope, env, s)
    requires var info := FindExit(scope, to).value;
             Placed(p, pc, Output(Leaving(info), g), s)
             && (info.receiving != 0 ==> s1.mv == res1.outcome.vs)
    requires res1.outcome.Values? && Matches(scope, res1.env, s1.regs) && Kept(scope.FrameEnd(), s.regs, s1.regs)
    requires s1.history == res1.history && s1.stack == s.stack
    ensures Reaches(p, At(pc, s1), c)
    ensures Finished(p, scope, pc + 2, pushed, all, s, res1.(outcome := Return(to, res1.outcome.vs)), c)
  {
    var info := FindExit(scope, to).value;
    ExitHolds(scope, env, s.regs, to);
    var restore, exit := RestoreSp(Lex(info.index)), Exit(info.exit, Lex(info.index));
    assert [restore, exit] == [restore] + [exit];
    CodeParts(p.items, pc, [restore], [exit]);
    var t := s1.(stack := s.stack[..s.regs[info.index].depth]);
    Runs(p, pc, restore, s1, t);
    CodeItem(p.items, pc + 1, exit);
    c := At(Target(p.items, info.exit), t);
    ReachesNext(p, At(pc + 1, t), c);
    ReachesOn(p, At(pc, s1), At(pc + 1, t), c);
  }

  // ---- let ----

  lemma {:induction false} CorrectInits(p: Program, bindings: Bindings, scope: Scope, post: Scope, g: Gen, at: nat,
                                        env: Env, s: State)
    returns (c: Config)
    requires ScopedInits(bindings, Vars(scope), Exits(scope))
    requires Placed(p, at, CompileInits(bindings, scope, post, g), s) && Ready(scope, env, s)
    ensures Reaches(p, At(at, s), c)
    ensures var res := EvalInits(p.image.world, bindings, env, s.history);
            Finished(p, scope, at + |CompileInits(bindings, scope, post, g).code|, Pushes(res), false, s, res, c)
    decreases bindings, 1
  {
    hide Finished, Ready, Reaches, Placed, Compile, Eval, Kept, Matches, PushedBy, CodeAt;
    match bindings
    case NoMore =>
      c := At(at, s);
      Nothing(p, scope, at, env, s);
      Revalued(p, scope, at, [], s, Result(Values([Nil]), env, s.history), c, []);
    case Binding(name, init, rest) =>
      var f := Compile(init, scope, 1, g);
      var g1 := f.gen.Needing(post.FrameEnd() + 1);
      var b := CompileInits(rest, scope, Var(name, post), g1);
      var cell := [LexRef(Lex(post.FrameEnd()), VM_MAKE_CELL)];
      PlacedParts(p, at, Output(f.code + cell, g1), b, s);
      PlacedParts(p, at, f, Output(cell, g1), s);
      c := Correct(p, init, scope, 1, g, at, env, s);
      c := AndThenInits(p, rest, scope, post, Var(name, post), g1, at, at + |f.code|, env, s,
                        Eval(p.image.world, init, env, s.history), c);
  }

  lemma {:induction false} AndThenInits(p: Program, rest: Bindings, scope: Scope, post: Scope, post': Scope, g: Gen,
                                        at: nat, next: nat, env: Env, s: State, res1: Result, c1: Config)
    returns (c: Config)
    requires ScopedInits(rest, Vars(scope), Exits(scope)) && Ready(scope, env, s)
    requires Placed(p, next, Output([LexRef(Lex(post.FrameEnd()), VM_MAKE_CELL)], g), s)
    requires Placed(p, next + 1, CompileInits(rest, scope, post', g), s)
    requires Reaches(p, At(at, s), c1) && Finished(p, scope, next, PushedBy(1, res1), false, s, res1, c1)
    ensures Reaches(p, At(at, s), c)
    ensures var a := EvalInits(p.image.world, rest, res1.env, res1.history);
            var res := if res1.outcome.Return? then res1
                       else if a.outcome.Return? then a
                       else a.(outcome := Values([Primary(res1.outcome.vs)] + a.outcome.vs));
            Finished(p, scope, next + 1 + |CompileInits(rest, scope, post', g).code|, Pushes(res), false, s, res, c)
    decreases rest, 2
  {
    hide *;
    var end := next + 1 + |CompileInits(rest, scope, post', g).code|;
    var pushed := PushedBy(1, res1);
    if res1.outcome.Return? {
      c := c1;
      Left(p, scope, next, pushed, false, s, res1, c, end, Pushes(res1), false);
    } else {
      Normally(p, scope, env, next, pushed, false, s, res1, c1);
      SkipsCell(p, next, post.FrameEnd(), g, s, c1.state);
      ReachesOn(p, At(at, s), c1, At(next + 1, c1.state));
      PlacedIn(p, next + 1, CompileInits(rest, scope, post', g), s, c1.state);
      c := CorrectInits(p, rest, scope, post', g, next + 1, res1.env, c1.state);
      var a := EvalInits(p.image.world, rest, res1.env, res1.history);
      ReachesOn(p, At(at, s), At(next + 1, c1.state), c);
      Compose(p, scope, env, s, pushed, c1.state, end, Pushes(a), false, a, c);
      ArgsJoined(p, scope, end, s, res1, a, c);
    }
  }

  lemma SkipsCell(p: Program, pc: nat, index: nat, g: Gen, s0: State, s: State)
    requires Placed(p, pc, Output([LexRef(Lex(index), VM_MAKE_CELL)], g), s0)
    ensures Reaches(p, At(pc, s), At(pc + 1, s))
  {
    Skips(p, pc, LexRef(Lex(index), VM_MAKE_CELL), s);
  }

  lemma {:induction false} CorrectLet(p: Program, form: Form, scope: Scope, r: Receiving, g: Gen, at: nat, env: Env,
                                      s: State)
    returns (c: Config)
    requires form.Let? && Scoped(form, Vars(scope), Exits(scope))
    requires Placed(p, at, Compile(form, scope, r, g), s) && Ready(scope, env, s)
    ensures Reaches(p, At(at, s), c)
    ensures var res := Eval(p.image.world, form, env, s.history);
            Finished(p, scope, at + |Compile(form, scope, r, g).code|, PushedBy(r, res), r == -1, s, res, c)
    decreases form, 0
  {
    hide *;
    UnfoldedLet(p.image.world, form, scope, r, g, env, s.history);
    var i := CompileInits(form.bindings, scope, scope, g);
    var bind := EmitBind(Count(form.bindings), scope.FrameEnd());
    var b := CompileProgn(form.body, BindAll(scope, form.bindings), r, i.gen);
    PlacedParts(p, at, Output(i.code + bind, i.gen), b, s);
    PlacedParts(p, at, i, Output(bind, i.gen), s);
    c := CorrectInits(p, form.bindings, scope, scope, g, at, env, s);
    c := AndThenBody(p, form, scope, r, i.gen, at, at + |i.code|, env, s,
        EvalInits(p.image.world, form.bindings, env, s.history), c);
  }

  lemma UnfoldedLet(world: World, form: Form, scope: Scope, r: Receiving, g: Gen, env: Env, history: seq<Event>)
    requires form.Let? && Scoped(form, Vars(scope), Exits(scope))
    ensures ScopedInits(form.bindings, Vars(scope), Exits(scope))
    ensures ScopedForms(form.body, Vars(BindAll(scope, form.bindings)), Exits(BindAll(scope, form.bindings)))
    ensures var i := CompileInits(form.bindings, scope, scope, g);
            var b := CompileProgn(form.body, BindAll(scope, form.bindings), r, i.gen);
            && Compile(form, scope, r, g)
               == Output(i.code + EmitBind(Count(form.bindings), scope.FrameEnd()) + b.code, b.gen)
            && Grows(i.gen, b.gen) && Grows(i.gen, i.gen)
            && (Count(form.bindings) > 0 ==> scope.FrameEnd() + Count(form.bindings) <= i.gen.nlocals)
    ensures var res1 := EvalInits(world, form.bindings, env, history);
            Eval(world, form, env, history)
            == if res1.outcome.Return? then res1
               else
                 var b := EvalProgn(world, form.body, Extend(res1.env, form.bindings, res1.outcome.vs), res1.history);
                 b.(env := Drop(b.env, Count(form.bindings)))
  {
    hide CompileIf, CompileBlock, CompileProg1, CompileProgn, CompileClauses, CompileSetq, CompileLiteral, EmitBind,
      EvalProgn, EvalClauses, EvalSetq, CompileInits, CompileArgs, EvalInits, EvalArgs, BindAll, Extend, Drop;
  }

  lemma {:induction false} AndThenBody(p: Program, form: Form, scope: Scope, r: Receiving, g: Gen, at: nat, next: nat,
                                       env: Env, s: State, res1: Result, c1: Config)
    returns (c: Config)
    requires form.Let? && Ready(scope, env, s)
    requires ScopedForms(form.body, Vars(BindAll(scope, form.bindings)), Exits(BindAll(scope, form.bindings)))
    requires Placed(p, next, Output(EmitBind(Count(form.bindings), scope.FrameEnd()), g), s)
    requires Count(form.bindings) > 0 ==> scope.FrameEnd() + Count(form.bindings) <= g.nlocals
    requires Placed(p, next + |EmitBind(Count(form.bindings), scope.FrameEnd())|,
                    CompileProgn(form.body, BindAll(scope, form.bindings), r, g), s)
    requires res1.outcome.Values? ==> |res1.outcome.vs| == Count(form.bindings)
    requires Reaches(p, At(at, s), c1) && Finished(p, scope, next, Pushes(res1), false, s, res1, c1)
    ensures Reaches(p, At(at, s), c)
    ensures var res := if res1.outcome.Return? then res1
                       else
                         var b := EvalProgn(p.image.world, form.body,
                             Extend(res1.env, form.bindings, res1.outcome.vs), res1.history);
                         b.(env := Drop(b.env, Count(form.bindings)));
            Finished(p, scope, next + |EmitBind(Count(form.bindings), scope.FrameEnd())|
                               + |CompileProgn(form.body, BindAll(scope, form.bindings), r, g).code|,
                     PushedBy(r, res), r == -1, s, res, c)
    decreases form, 0, 0
  {
    hide *;
    var n := Count(form.bindings);
    var inner := BindAll(scope, form.bindings);
    var start := next + |EmitBind(n, scope.FrameEnd())|;
    var end := start + |CompileProgn(form.body, inner, r, g).code|;
    if res1.outcome.Return? {
      c := c1;
      Left(p, scope, next, Pushes(res1), false, s, res1, c, end, PushedBy(r, res1), r == -1);
    } else {
      PushesMeans(res1);
      var vs := res1.outcome.vs;
      Normally(p, scope, env, next, vs, false, s, res1, c1);
      var s2 := BindsAll(p, next, g, scope, form.bindings, env, s, res1.env, vs, c1.state);
      ReachesOn(p, At(at, s), c1, At(start, s2));
      PlacedIn(p, start, CompileProgn(form.body, inner, r, g), s, s2);
      var env2 := Extend(res1.env, form.bindings, vs);
      c := CorrectProgn(p, form.body, inner, r, g, start, env2, s2);
      ReachesOn(p, At(at, s), At(start, s2), c);
      var b := EvalProgn(p.image.world, form.body, env2, res1.history);
      OutOfVars(p, scope, form.bindings, end, PushedBy(r, b), r == -1, s2, b, c);
      var res := b.(env := Drop(b.env, n));
      SamePushed(r, b, res);
      Compose(p, scope, env, s, [], s2, end, PushedBy(r, res), r == -1, res, c);
      assert [] + PushedBy(r, res) == PushedBy(r, res);
    }
  }

  // emit_bind moves the values of the init forms from the stack to the new variables.
  lemma BindsAll(p: Program, pc: nat, g: Gen, scope: Scope, bindings: Bindings, env: Env, s: State,
                 env1: Env, vs: seq<Value>, s1: State)
    returns (s2: State)
    requires Placed(p, pc, Output(EmitBind(Count(bindings), scope.FrameEnd()), g), s)
    requires Count(bindings) > 0 ==> scope.FrameEnd() + Count(bindings) <= g.nlocals
    requires |vs| == Count(bindings)
    requires Ready(scope, env, s) && Ready(scope, env1, s1) && Kept(scope.FrameEnd(), s.regs, s1.regs)
    requires s1.stack == s.stack + vs
    ensures Reaches(p, At(pc, s1), At(pc + |EmitBind(Count(bindings), scope.FrameEnd())|, s2))
    ensures Ready(BindAll(scope, bindings), Extend(env1, bindings, vs), s2)
    ensures Kept(scope.FrameEnd(), s.regs, s2.regs) && |s2.regs| == |s.regs|
    ensures s2.stack == s.stack + [] && s2.history == s1.history
  {
    hide *;
    var base := scope.FrameEnd();
    Unready(scope, env1, s1);
    EnoughRegisters(p, pc, Output(EmitBind(Count(bindings), base), g), s, s1, scope.FrameEnd());
    s2 := BindsRegisters(p, pc, g, base, s, vs, s1);
    MatchesBelow(scope, env1, s1.regs, s2.regs);
    MatchesAll(scope, env1, bindings, vs, s2.regs);
    Unready(scope, env, s);
    LowKept(base, s.regs, s1.regs, |s.stack|);
    AllLow(scope, bindings, vs, s1.regs, s2);
    BothReady(BindAll(scope, bindings), Extend(env1, bindings, vs), s2);
    KeptBelow(base, s1.regs, s2.regs);
    KeptOn(base, s.regs, s1.regs, s2.regs);
    assert s.stack + [] == s.stack;
  }

  lemma EnoughRegisters(p: Program, pc: nat, o: Output, s: State, s1: State, n: nat)
    requires Placed(p, pc, o, s) && Kept(n, s.regs, s1.regs)
    ensures o.gen.nlocals <= |s1.regs| == |s.regs|
  {
  }

  lemma LowKept(n: nat, regs: seq<Slot>, regs': seq<Slot>, h: nat)
    requires Low(n, regs, h) && Kept(n, regs, regs')
    ensures Low(n, regs', h)
  {
  }

  lemma KeptBelow(n: nat, regs: seq<Slot>, regs': seq<Slot>)
    requires |regs| == |regs'| && forall i :: 0 <= i < n && i < |regs| ==> regs'[i] == regs[i]
    ensures Kept(n, regs, regs')
  {
  }

  lemma BothReady(scope: Scope, env: Env, s: State)
    requires Matches(scope, env, s.regs) && Low(scope.FrameEnd(), s.regs, |s.stack|)
    ensures Ready(scope, env, s)
  {
  }

  lemma BindsRegisters(p: Program, pc: nat, g: Gen, base: nat, s: State, vs: seq<Value>, s1: State) returns (s2: State)
    requires Placed(p, pc, Output(EmitBind(|vs|, base), g), s)
    requires |vs| > 0 ==> base + |vs| <= |s1.regs|
    requires s1.stack == s.stack + vs
    ensures Reaches(p, At(pc, s1), At(pc + |EmitBind(|vs|, base)|, s2))
    ensures s2.stack == s.stack && s2.history == s1.history && |s2.regs| == |s1.regs|
    ensures forall i {:trigger vs[i]} :: 0 <= i < |vs| ==> s2.regs[base + i] == Val(vs[i])
    ensures forall i :: 0 <= i < base && i < |s1.regs| ==> s2.regs[i] == s1.regs[i]
  {
    var n := |vs|;
    assert s1.stack[..|s1.stack| - n] == s.stack && s1.stack[|s1.stack| - n..] == vs;
    if n == 0 {
      s2 := s1;
      ReachesItself(p, At(pc, s1));
    } else {
      s2 := WithRegs(s1.(stack := s.stack), base, vs);
      if n == 1 {
        assert [TopOf(s1)] == vs;
        Runs(p, pc, Op1(VM_SET, base), s1, s2);
      } else {
        Runs(p, pc, Ins(I2(VM_BIND, n, base)), s1, s2);
      }
    }
  }

  lemma {:induction false} MatchesAll(scope: Scope, env: Env, bindings: Bindings, vs: seq<Value>, regs: seq<Slot>)
    requires |vs| == Count(bindings) && Matches(scope, env, regs)
    requires |vs| > 0 ==> scope.FrameEnd() + |vs| <= |regs|
    requires forall i {:trigger vs[i]} :: 0 <= i < |vs| ==> regs[scope.FrameEnd() + i] == Val(vs[i])
    ensures Matches(BindAll(scope, bindings), Extend(env, bindings, vs), regs)
    decreases bindings
  {
    match bindings
    case NoMore =>
    case Binding(name, _, rest) =>
      assert regs[scope.FrameEnd() + 0] == Val(vs[0]);
      forall i {:trigger vs[1..][i]} | 0 <= i < |vs[1..]|
        ensures regs[Var(name, scope).FrameEnd() + i] == Val(vs[1..][i])
      {
        assert vs[1..][i] == vs[i + 1];
      }
      MatchesAll(Var(name, scope), Bind(name, vs[0], env), rest, vs[1..], regs);
  }

  lemma AllLow(scope: Scope, bindings: Bindings, vs: seq<Value>, regs: seq<Slot>, s: State)
    requires |vs| == Count(bindings) && (|vs| > 0 ==> scope.FrameEnd() + |vs| <= |s.regs|) && |regs| == |s.regs|
    requires forall i {:trigger vs[i]} :: 0 <= i < |vs| ==> s.regs[scope.FrameEnd() + i] == Val(vs[i])
    requires forall i :: 0 <= i < scope.FrameEnd() && i < |regs| ==> s.regs[i] == regs[i]
    requires Low(scope.FrameEnd(), regs, |s.stack|)
    ensures Low(BindAll(scope, bindings).FrameEnd(), s.regs, |s.stack|)
  {
    hide BindAll;
    var base := scope.FrameEnd();
    forall i | base <= i < base + |vs| ensures s.regs[i].Val? {
      assert s.regs[base + (i - base)] == Val(vs[i - base]);
    }
  }

  lemma {:induction false} OutOfVars(p: Program, scope: Scope, bindings: Bindings, end: nat, pushed: seq<Value>,
                                     all: bool,
                                     s: State, res: Result, c: Config)
    requires Finished(p, BindAll(scope, bindings), end, pushed, all, s, res, c)
    ensures Finished(p, scope, end, pushed, all, s, res.(env := Drop(res.env, Count(bindings))), c)
    decreases bindings
  {
    hide Finished;
    match bindings
    case NoMore =>
    case Binding(name, _, rest) =>
      OutOfVars(p, Var(name, scope), rest, end, pushed, all, s, res, c);
      OutOfVar(p, scope, name, end, pushed, all, s, res.(env := Drop(res.env, Count(rest))), c);
      DropOuter(res.env, Count(rest));
  }

  lemma {:induction false} DropOuter(env: Env, n: nat)
    ensures Drop(env, n + 1) == Outer(Drop(env, n))
    decreases n
  {
    if n > 0 { DropOuter(Outer(env), n - 1); }
  }

  // ---- block ----

  lemma {:induction false} CorrectBlock(p: Program, form: Form, scope: Scope, r: Receiving, g: Gen, at: nat, env: Env,
                                        s: State)
    returns (c: Config)
    requires form.Block? && Scoped(form, Vars(scope), Exits(scope))
    requires Placed(p, at, CompileBlock(form, scope, r, g), s) && Ready(scope, env, s)
    ensures Reaches(p, At(at, s), c)
    ensures var res := Eval(p.image.world, form, env, s.history);
            Finished(p, scope, at + |CompileBlock(form, scope, r, g).code|, PushedBy(r, res), r == -1, s, res, c)
    decreases form, 0
  {
    hide *;
    UnfoldedBlock(p.image.world, form, scope, r, g, env, s.history);
    var exit, normal, lex := g.labels, g.labels + 1, Lex(scope.FrameEnd());
    var inner := Blk(form.name, exit, r, scope);
    var g1 := g.Needing(scope.FrameEnd() + 1).(labels := g.labels + 2);
    var b := CompileProgn(form.body, inner, r, g1);
    var landing := Landing(r, exit, normal);
    PlacedParts(p, at, Output([Entry(lex)] + b.code + landing, b.gen), Output([EntryClose(lex)], b.gen), s);
    PlacedParts(p, at, Output([Entry(lex)] + b.code, b.gen), Output(landing, b.gen), s);
    PlacedParts(p, at, Output([Entry(lex)], g1), b, s);
    var s1 := Enters(p, at, g1, inner, env, s);
    PlacedIn(p, at + 1, b, s, s1);
    var c1 := CorrectProgn(p, form.body, inner, r, g1, at + 1, env, s1);
    ReachesOn(p, At(at, s), At(at + 1, s1), c1);
    var res1 := EvalProgn(p.image.world, form.body, env, s.history);
    c := Lands(p, scope, form.name, r, exit, normal, b.gen, at + 1 + |b.code|, env, s, s1, res1, c1);
    ReachesOn(p, At(at, s), c1, c);
  }

  function Caught(res: Result, name: Name): Result {
    if res.outcome.Return? && res.outcome.exit == ToBlock(name) then res.(outcome := Values(res.outcome.vs)) else res
  }

  lemma UnfoldedBlock(world: World, form: Form, scope: Scope, r: Receiving, g: Gen, env: Env, history: seq<Event>)
    requires form.Block? && Scoped(form, Vars(scope), Exits(scope))
    ensures var inner := Blk(form.name, g.labels, r, scope);
            var g1 := g.Needing(scope.FrameEnd() + 1).(labels := g.labels + 2);
            ScopedForms(form.body, Vars(inner), Exits(inner))
            && scope.FrameEnd() < g1.nlocals
            && var b := CompileProgn(form.body, inner, r, g1);
               CompileBlock(form, scope, r, g)
               == Output([Entry(Lex(scope.FrameEnd()))] + b.code + Landing(r, g.labels, g.labels + 1)
                         + [EntryClose(Lex(scope.FrameEnd()))], b.gen)
               && Grows(g1, b.gen) && Grows(b.gen, b.gen)
    ensures Eval(world, form, env, history) == Caught(EvalProgn(world, form.body, env, history), form.name)
  {
    hide CompileProgn, EvalProgn;
  }

  // Entering a block or a tagbody saves the stack pointer.
  lemma Enters(p: Program, pc: nat, g: Gen, inner: Scope, env: Env, s: State)
    returns (s1: State)
    requires (inner.Blk? || inner.Tags?) && Ready(inner.outer, env, s)
    requires Placed(p, pc, Output([Entry(Lex(inner.outer.FrameEnd()))], g), s)
    requires inner.outer.FrameEnd() < g.nlocals
    ensures Reaches(p, At(pc, s), At(pc + 1, s1))
    ensures Ready(inner, env, s1) && Kept(inner.outer.FrameEnd(), s.regs, s1.regs)
    ensures |s1.regs| == |s.regs| && s1.stack == s.stack && s1.history == s.history
    ensures inner.outer.FrameEnd() < |s1.regs| && s1.regs[inner.outer.FrameEnd()] == Sp(|s.stack|)
  {
    var n := inner.outer.FrameEnd();
    s1 := s.(regs := s.regs[n := Sp(|s.stack|)]);
    Runs(p, pc, Entry(Lex(n)), s, s1);
    MatchesBelow(inner.outer, env, s.regs, s1.regs);
  }

  /** However the body of a block ends, control arrives behind the block with
      the block's values, or goes on to an outer block. */
  lemma Lands(p: Program, scope: Scope, name: Name, r: Receiving, exit: nat, normal: nat, g: Gen, pc: nat,
              env: Env, s: State, s1: State, res1: Result, c1: Config)
    returns (c: Config)
    requires Placed(p, pc, Output(Landing(r, exit, normal), g), s) && Ready(scope, env, s)
    requires Placed(p, pc + |Landing(r, exit, normal)|, Output([EntryClose(Lex(scope.FrameEnd()))], g), s)
    requires Kept(scope.FrameEnd(), s.regs, s1.regs) && s1.stack == s.stack
    requires scope.FrameEnd() < |s1.regs| && s1.regs[scope.FrameEnd()] == Sp(|s.stack|)
    requires Finished(p, Blk(name, exit, r, scope), pc, PushedBy(r, res1), r == -1, s1, res1, c1)
    ensures Reaches(p, c1, c)
    ensures var res := Caught(res1, name);
            Finished(p, scope, pc + |Landing(r, exit, normal)| + 1, PushedBy(r, res), r == -1, s, res, c)
  {
    hide *;
    var res := Caught(res1, name);
    CaughtMeans(res1, name, r);
    var end := pc + |Landing(r, exit, normal)|;
    if res1.outcome.Return? && res1.outcome.exit != ToBlock(name) {
      c := c1;
      OutOfBlock(p, scope, name, exit, r, pc, PushedBy(r, res1), r == -1, s1, res1, c1);
      assert s.stack == s.stack + [];
      Compose(p, scope, env, s, [], s1, pc, PushedBy(r, res1), r == -1, res1, c);
      assert [] + PushedBy(r, res1) == PushedBy(r, res1);
      Left(p, scope, pc, PushedBy(r, res1), r == -1, s, res1, c, end + 1, PushedBy(r, res), r == -1);
      ReachesItself(p, c);
    } else {
      var t;
      if res1.outcome.Return? {
        t := LandsAtExit(p, scope, name, r, exit, normal, g, pc, s, s1, res1, c1);
      } else {
        t := LandsNormally(p, scope, name, r, exit, normal, g, pc, s, s1, res1, c1);
      }
      SkipsClose(p, end, scope.FrameEnd(), g, s, t);
      c := At(end + 1, t);
      ReachesOn(p, c1, At(end, t), c);
      MakeFinished(p, scope, end + 1, PushedBy(r, res), r == -1, s, res, t);
    }
  }

  lemma CaughtMeans(res: Result, name: Name, r: Receiving)
    ensures res.outcome.Return? && res.outcome.exit != ToBlock(name) ==> Caught(res, name) == res
    ensures res.outcome.Values? ==> Caught(res, name) == res
    ensures res.outcome.Return? && res.outcome.exit == ToBlock(name) ==>
              Caught(res, name) == res.(outcome := Values(res.outcome.vs))
    ensures PushedBy(r, Caught(res, name)) == PushedBy(r, res)
  {
  }

  lemma SkipsClose(p: Program, pc: nat, index: nat, g: Gen, s0: State, s: State)
    requires Placed(p, pc, Output([EntryClose(Lex(index))], g), s0)
    ensures Reaches(p, At(pc, s), At(pc + 1, s))
  {
    Skips(p, pc, EntryClose(Lex(index)), s);
  }

  // A return-from to another block passes through this one.
  lemma OutOfBlock(p: Program, scope: Scope, name: Name, exit: nat, r: Receiving, end: nat, pushed: seq<Value>,
                   all: bool,
                   s: State, res: Result, c: Config)
    requires Finished(p, Blk(name, exit, r, scope), end, pushed, all, s, res, c)
    requires res.outcome.Return? && res.outcome.exit != ToBlock(name)
    ensures Finished(p, scope, end, pushed, all, s, res, c)
  {
  }

  lemma LandsNormally(p: Program, scope: Scope, name: Name, r: Receiving, exit: nat, normal: nat, g: Gen, pc: nat,
                      s: State, s1: State, res1: Result, c1: Config)
    returns (t: State)
    requires Placed(p, pc, Output(Landing(r, exit, normal), g), s) && res1.outcome.Values?
    requires Kept(scope.FrameEnd(), s.regs, s1.regs) && s1.stack == s.stack
    requires Finished(p, Blk(name, exit, r, scope), pc, PushedBy(r, res1), r == -1, s1, res1, c1)
    ensures Reaches(p, c1, At(pc + |Landing(r, exit, normal)|, t))
    ensures Kept(scope.FrameEnd(), s.regs, t.regs) && Matches(scope, res1.env, t.regs)
    ensures t.history == res1.history && t.stack == s.stack + PushedBy(r, res1)
    ensures r == -1 ==> t.mv == res1.outcome.vs
  {
    t := c1.state;
    KeptOn(scope.FrameEnd(), s.regs, s1.regs, t.regs);
    hide Kept, Matches, PushedBy;
    if r == 1 {
      var before := [Jump(normal), Mark(exit), Op(VM_PUSH)];
      assert Landing(r, exit, normal) == before + [Mark(normal)];
      assert before == [Jump(normal)] + [Mark(exit), Op(VM_PUSH)];
      CodeParts(p.items, pc, before, [Mark(normal)]);
      CodeParts(p.items, pc, [Jump(normal)], [Mark(exit), Op(VM_PUSH)]);
      Jumps(p, pc, Jump(normal), t, pc + 3);
      SkipsMark(p, pc + 3, normal, t);
      ReachesOn(p, c1, At(pc + 3, t), At(pc + 4, t));
    } else {
      SkipsMark(p, pc, exit, t);
    }
  }

  lemma LandsAtExit(p: Program, scope: Scope, name: Name, r: Receiving, exit: nat, normal: nat, g: Gen, pc: nat,
                    s: State, s1: State, res1: Result, c1: Config)
    returns (t: State)
    requires Placed(p, pc, Output(Landing(r, exit, normal), g), s)
               && res1.outcome == Return(ToBlock(name), res1.outcome.vs)
    requires Kept(scope.FrameEnd(), s.regs, s1.regs) && s1.stack == s.stack
    requires scope.FrameEnd() < |s1.regs| && s1.regs[scope.FrameEnd()] == Sp(|s.stack|)
    requires Finished(p, Blk(name, exit, r, scope), pc, PushedBy(r, res1), r == -1, s1, res1, c1)
    ensures Reaches(p, c1, At(pc + |Landing(r, exit, normal)|, t))
    ensures Kept(scope.FrameEnd(), s.regs, t.regs) && Matches(scope, res1.env, t.regs)
    ensures t.history == res1.history && t.stack == s.stack + PushedBy(r, res1)
    ensures r == -1 ==> t.mv == res1.outcome.vs
  {
    var u := c1.state;
    KeptOn(scope.FrameEnd(), s.regs, s1.regs, u.regs);
    assert s.stack[..|s.stack|] == s.stack;
    assert u.stack == s.stack && (r != 0 ==> u.mv == res1.outcome.vs) && c1.pc == Target(p.items, exit);
    assert Matches(scope, res1.env, u.regs) && u.history == res1.history;
    var vs := res1.outcome.vs;
    hide Kept, Matches, Finished;
    if r == 1 {
      t := Pushed(u, Primary(vs));
      LandsPushing(p, exit, normal, g, pc, s, u, t);
    } else {
      CodeItem(p.items, pc, Mark(exit));
      TargetIs(p.items, pc, exit);
      t := u;
      SkipsMark(p, pc, exit, u);
      assert s.stack + [] == s.stack;
    }
  }

  // At the exit label of a block that wants one value, the first of all values is pushed.
  lemma LandsPushing(p: Program, exit: nat, normal: nat, g: Gen, pc: nat, s0: State, u: State, t: State)
    requires Placed(p, pc, Output(Landing(1, exit, normal), g), s0) && t == Pushed(u, Primary(u.mv))
    ensures Reaches(p, At(Target(p.items, exit), u), At(pc + |Landing(1, exit, normal)|, t))
  {
    var after := [Mark(exit), Op(VM_PUSH), Mark(normal)];
    assert Landing(1, exit, normal) == [Jump(normal)] + after;
    assert after == [Mark(exit)] + [Op(VM_PUSH), Mark(normal)];
    assert [Op(VM_PUSH), Mark(normal)] == [Op(VM_PUSH)] + [Mark(normal)];
    hide Reaches, CodeAt, UniqueMarks, Target;
    CodeParts(p.items, pc, [Jump(normal)], after);
    CodeParts(p.items, pc + 1, [Mark(exit)], [Op(VM_PUSH), Mark(normal)]);
    CodeParts(p.items, pc + 2, [Op(VM_PUSH)], [Mark(normal)]);
    CodeItem(p.items, pc + 1, Mark(exit));
    TargetIs(p.items, pc + 1, exit);
    SkipsMark(p, pc + 1, exit, u);
    Runs(p, pc + 2, Op(VM_PUSH), u, t);
    SkipsMark(p, pc + 3, normal, t);
    ReachesOn(p, At(pc + 1, u), At(pc + 2, u), At(pc + 3, t));
    ReachesOn(p, At(pc + 1, u), At(pc + 3, t), At(pc + 4, t));
  }

  // ---- tagbody and go ----

  lemma CorrectGo(p: Program, form: Form, scope: Scope, r: Receiving, g: Gen, at: nat, env: Env, s: State)
    returns (c: Config)
    requires form.Go? && Scoped(form, Vars(scope), Exits(scope))
    requires Placed(p, at, Compile(form, scope, r, g), s) && Ready(scope, env, s)
    ensures Reaches(p, At(at, s), c)
    ensures var res := Eval(p.image.world, form, env, s.history);
            Finished(p, scope, at + |Compile(form, scope, r, g).code|, PushedBy(r, res), r == -1, s, res, c)
  {
    hide *;
    UnfoldedGo(p.image.world, form, scope, r, g, env, s.history);
    var to := ToTag(form.tag);
    var info := FindExit(scope, to).value;
    PlacedParts(p, at, Output(Unwind(scope, to), g), Output(Leaving(info), g), s);
    TagsReceiveNothing(scope, form.tag);
    Nothing(p, scope, at, env, s);
    Revalued(p, scope, at, [], s, Result(Values([Nil]), env, s.history), At(at, s), []);
    c := AndThenExit(p, to, scope, r, g, at, at, env, s, Result(Values([]), env, s.history), At(at, s));
  }

  lemma UnfoldedGo(world: World, form: Form, scope: Scope, r: Receiving, g: Gen, env: Env, history: seq<Event>)
    requires form.Go? && Scoped(form, Vars(scope), Exits(scope))
    ensures var to := ToTag(form.tag);
            && FindExit(scope, to).Some?
            && Compile(form, scope, r, g) == Output(Unwind(scope, to) + Leaving(FindExit(scope, to).value), g)
            && Grows(g, g)
            && Eval(world, form, env, history) == Result(Return(to, []), env, history)
  {
    hide Unwind, Leaving, FindExit, CompileIf, CompileBlock, CompileProg1, CompileProgn, CompileClauses, CompileSetq,
      CompileLiteral, EvalProgn, EvalClauses, EvalSetq, CompileInits, CompileArgs, EvalInits, EvalArgs;
  }

  lemma {:induction false} TagsReceiveNothing(scope: Scope, tag: Name)
    requires FindExit(scope, ToTag(tag)).Some?
    ensures FindExit(scope, ToTag(tag)).value.receiving == 0
  {
    match scope
    case Var(_, outer) => TagsReceiveNothing(outer, tag);
    case Blk(_, _, _, outer) => TagsReceiveNothing(outer, tag);
    case Tags(_, _, outer) => if !scope.Catches(ToTag(tag)) { TagsReceiveNothing(outer, tag); }
  }

  // Where the statements of a tagbody start: at the beginning or at a tag.
  function StartOf(items: seq<Item>, scope: Scope, from: Option<Name>, at: nat): nat
    requires from.Some? ==> ToTag(from.value) in Exits(scope)
  {
    if from.Some? then Target(items, FindExit(scope, ToTag(from.value)).value.exit) else at
  }

  /** The statements of a tagbody run in order, from any of its tags. */
  lemma {:induction false} CorrectStatements(p: Program, statements: Statements, from: Option<Name>, scope: Scope,
                                             g: Gen, at: nat, env: Env, s: State)
    returns (c: Config)
    requires ScopedStatements(statements, Vars(scope), Exits(scope))
    requires from.Some? ==> from.value in TagsOf(statements) && ToTag(from.value) in Exits(scope)
    requires Placed(p, at, CompileStatements(statements, scope, g), s) && Ready(scope, env, s)
    ensures Reaches(p, At(StartOf(p.items, scope, from, at), s), c)
    ensures var res := EvalStatements(p.image.world, statements, from, env, s.history);
            Finished(p, scope, at + |CompileStatements(statements, scope, g).code|, [], false, s, res, c)
    decreases statements, 1
  {
    hide *;
    UnfoldedStatements(p.image.world, statements, from, scope, g, env, s.history);
    match statements
    case Ended =>
      c := At(at, s);
      Nothing(p, scope, at, env, s);
      StartMeans(p.items, scope, from, at);
    case Tag(name, rest) =>
      var id := FindExit(scope, ToTag(name)).value.exit;
      var b := CompileStatements(rest, scope, g);
      PlacedParts(p, at, Output([Mark(id)], g), b, s);
      StartMeans(p.items, scope, from, at);
      if from.Some? && from.value != name {
        c := CorrectStatements(p, rest, from, scope, g, at + 1, env, s);
        StartMeans(p.items, scope, from, at + 1);
      } else {
        PassesTag(p, at, id, g, s);
        c := CorrectStatements(p, rest, None, scope, g, at + 1, env, s);
        StartMeans(p.items, scope, None, at + 1);
        ReachesOn(p, At(at, s), At(at + 1, s), c);
      }
    case Statement(form, rest) =>
      var f := Compile(form, scope, 0, g);
      var b := CompileStatements(rest, scope, f.gen);
      PlacedParts(p, at, f, b, s);
      StartMeans(p.items, scope, from, at);
      if from.Some? {
        c := CorrectStatements(p, rest, from, scope, f.gen, at + |f.code|, env, s);
        StartMeans(p.items, scope, from, at + |f.code|);
      } else {
        var res1 := Eval(p.image.world, form, env, s.history);
        c := Correct(p, form, scope, 0, g, at, env, s);
        PushesNone(res1);
        c := AndThenStatements(p, rest, scope, f.gen, at, at + |f.code|, env, s, res1, c);
      }
  }

  lemma UnfoldedStatements(world: World, statements: Statements, from: Option<Name>, scope: Scope, g: Gen, env: Env,
                           history: seq<Event>)
    requires ScopedStatements(statements, Vars(scope), Exits(scope))
    requires from.Some? ==> from.value in TagsOf(statements) && ToTag(from.value) in Exits(scope)
    ensures statements.Ended? ==>
              && from.None? && CompileStatements(statements, scope, g) == Output([], g)
              && EvalStatements(world, statements, from, env, history) == Result(Values([Nil]), env, history)
    ensures statements.Tag? ==>
              && FindExit(scope, ToTag(statements.name)).Some?
              && ScopedStatements(statements.rest, Vars(scope), Exits(scope))
              && (from.Some? && from.value != statements.name ==> from.value in TagsOf(statements.rest))
              && var b := CompileStatements(statements.rest, scope, g);
                 CompileStatements(statements, scope, g)
                 == Output([Mark(FindExit(scope, ToTag(statements.name)).value.exit)] + b.code, b.gen)
                 && Grows(g, b.gen)
    ensures statements.Tag? ==>
              EvalStatements(world, statements, from, env, history)
              == EvalStatements(world, statements.rest,
                                if from.Some? && from.value != statements.name then from else None, env, history)
    ensures statements.Statement? ==>
              && Scoped(statements.form, Vars(scope), Exits(scope))
              && ScopedStatements(statements.rest, Vars(scope), Exits(scope))
              && (from.Some? ==> from.value in TagsOf(statements.rest))
              && var f := Compile(statements.form, scope, 0, g);
                 var b := CompileStatements(statements.rest, scope, f.gen);
                 CompileStatements(statements, scope, g) == Output(f.code + b.code, b.gen) && Grows(f.gen, b.gen)
    ensures statements.Statement? ==>
              EvalStatements(world, statements, from, env, history)
              == if from.Some? then EvalStatements(world, statements.rest, from, env, history)
                 else
                   var r := Eval(world, statements.form, env, history);
                   if r.outcome.Return? then r else EvalStatements(world, statements.rest, None, r.env, r.history)
  {
    hide Compile, Eval, FindExit, Exits, Vars, Scoped;
  }

  lemma StartMeans(items: seq<Item>, scope: Scope, from: Option<Name>, at: nat)
    requires from.Some? ==> ToTag(from.value) in Exits(scope)
    ensures from.None? ==> StartOf(items, scope, from, at) == at
    ensures from.Some? ==> StartOf(items, scope, from, at)
                           == Target(items, FindExit(scope, ToTag(from.value)).value.exit)
  {
  }

  // Control runs into a tag, or arrives at it from a go.
  lemma PassesTag(p: Program, pc: nat, id: nat, g: Gen, s: State)
    requires Placed(p, pc, Output([Mark(id)], g), s)
    ensures Reaches(p, At(pc, s), At(pc + 1, s)) && Target(p.items, id) == pc
  {
    CodeItem(p.items, pc, Mark(id));
    TargetIs(p.items, pc, id);
    SkipsMark(p, pc, id, s);
  }

  lemma {:induction false} AndThenStatements(p: Program, rest: Statements, scope: Scope, g: Gen, at: nat, next: nat,
                                             env: Env, s: State, res1: Result, c1: Config)
    returns (c: Config)
    requires ScopedStatements(rest, Vars(scope), Exits(scope))
    requires Placed(p, next, CompileStatements(rest, scope, g), s) && Ready(scope, env, s)
    requires Reaches(p, At(at, s), c1) && Finished(p, scope, next, [], false, s, res1, c1)
    ensures Reaches(p, At(at, s), c)
    ensures var res := if res1.outcome.Return? then res1
                       else EvalStatements(p.image.world, rest, None, res1.env, res1.history);
            Finished(p, scope, next + |CompileStatements(rest, scope, g).code|, [], false, s, res, c)
    decreases rest, 2
  {
    hide *;
    var end := next + |CompileStatements(rest, scope, g).code|;
    if res1.outcome.Return? {
      c := c1;
      Left(p, scope, next, [], false, s, res1, c, end, [], false);
    } else {
      Normally(p, scope, env, next, [], false, s, res1, c1);
      PlacedIn(p, next, CompileStatements(rest, scope, g), s, c1.state);
      c := CorrectStatements(p, rest, None, scope, g, next, res1.env, c1.state);
      StartMeans(p.items, scope, None, next);
      var res := EvalStatements(p.image.world, rest, None, res1.env, res1.history);
      ReachesOn(p, At(at, s), c1, c);
      Compose(p, scope, env, s, [], c1.state, end, [], false, res, c);
      var none: seq<Value> := [];
      assert none + none == none;
    }
  }

  /** However often its gos jump back, the code of a tagbody does what the loop of
      the evaluator does: every go arrives at its tag with the stack that the
      tagbody was entered with. */
  lemma {:induction false} CorrectLoop(p: Program, statements: Statements, from: Option<Name>, labels: nat,
                                       scope: Scope, g: Gen, at: nat, env: Env, s: State, jumps: nat)
    returns (c: Config)
    requires var inner := Tags(TagsOf(statements), labels, scope);
             && ScopedStatements(statements, Vars(inner), Exits(inner)) && Nowhere in Exits(inner)
             && (from.Some? ==> from.value in TagsOf(statements) && ToTag(from.value) in Exits(inner))
             && Placed(p, at, CompileStatements(statements, inner, g), s) && Ready(inner, env, s)
    requires scope.FrameEnd() < |s.regs| && s.regs[scope.FrameEnd()] == Sp(|s.stack|)
    ensures Reaches(p, At(StartOf(p.items, Tags(TagsOf(statements), labels, scope), from, at), s), c)
    ensures var inner := Tags(TagsOf(statements), labels, scope);
            var res := EvalLoop(p.image.world, statements, from, env, s.history, jumps);
            Finished(p, inner, at + |CompileStatements(statements, inner, g).code|, [], false, s, res, c)
    decreases statements, 2, jumps
  {
    hide *;
    var tags := TagsOf(statements);
    var inner := Tags(tags, labels, scope);
    var end := at + |CompileStatements(statements, inner, g).code|;
    var res1 := EvalStatements(p.image.world, statements, from, env, s.history);
    UnfoldedLoop(p.image.world, statements, from, env, s.history, jumps);
    var c1 := CorrectStatements(p, statements, from, inner, g, at, env, s);
    if GoesTo(res1.outcome, tags) {
      Returns(p, tags, labels, scope, at, end, env, s, res1, c1);
      var tag := res1.outcome.exit.tag;
      if jumps == 0 {
        c := c1;
        Exhausted(p, inner, end, s, res1, c);
      } else {
        PlacedIn(p, at, CompileStatements(statements, inner, g), s, c1.state);
        c := CorrectLoop(p, statements, Some(tag), labels, scope, g, at, res1.env, c1.state, jumps - 1);
        ReachesOn(p, At(StartOf(p.items, inner, from, at), s), c1, c);
        var res := EvalLoop(p.image.world, statements, Some(tag), res1.env, res1.history, jumps - 1);
        Compose(p, inner, env, s, [], c1.state, end, [], false, res, c);
        var none: seq<Value> := [];
        assert none + none == none;
      }
    } else {
      c := c1;
      if res1.outcome.Values? { Revalued(p, inner, end, [], s, res1, c, [Nil]); }
    }
  }

  lemma UnfoldedLoop(world: World, statements: Statements, from: Option<Name>, env: Env, history: seq<Event>,
                     jumps: nat)
    ensures var r := EvalStatements(world, statements, from, env, history);
            && (GoesTo(r.outcome, TagsOf(statements)) ==>
                  && r.outcome.Return? && r.outcome.exit.ToTag? && r.outcome.exit.tag in TagsOf(statements)
                  && EvalLoop(world, statements, from, env, history, jumps)
                     == if jumps == 0 then r.(outcome := Return(Nowhere, []))
                        else EvalLoop(world, statements, Some(r.outcome.exit.tag), r.env, r.history, jumps - 1))
            && (!GoesTo(r.outcome, TagsOf(statements)) ==>
                  EvalLoop(world, statements, from, env, history, jumps)
                  == if r.outcome.Return? then r else r.(outcome := Values([Nil])))
  {
    hide EvalStatements, TagsOf;
  }

  // A go to a tag of the innermost tagbody arrives ready to run on from the tag.
  lemma Returns(p: Program, tags: seq<Name>, labels: nat, scope: Scope, at: nat, end: nat, env: Env, s: State,
                res1: Result, c1: Config)
    requires var inner := Tags(tags, labels, scope);
             Ready(inner, env, s) && Finished(p, inner, end, [], false, s, res1, c1)
    requires scope.FrameEnd() < |s.regs| && s.regs[scope.FrameEnd()] == Sp(|s.stack|)
    requires res1.outcome.Return? && res1.outcome.exit.ToTag? && res1.outcome.exit.tag in tags
    ensures var inner := Tags(tags, labels, scope);
            && ToTag(res1.outcome.exit.tag) in Exits(inner)
            && c1.pc == StartOf(p.items, inner, Some(res1.outcome.exit.tag), at)
            && Ready(inner, res1.env, c1.state) && Kept(inner.FrameEnd(), s.regs, c1.state.regs)
            && |c1.state.regs| == |s.regs| && c1.state.regs[scope.FrameEnd()] == Sp(|s.stack|)
            && c1.state.stack == s.stack && c1.state.stack == s.stack + [] && c1.state.history == res1.history
  {
    hide Matches;
    var inner := Tags(tags, labels, scope);
    assert inner.FrameEnd() == scope.FrameEnd() + 1;
    assert s.stack[..|s.stack|] == s.stack;
    ReadyAfter(inner, env, s, res1.env, c1.state);
  }

  lemma Exhausted(p: Program, scope: Scope, end: nat, s: State, res: Result, c: Config)
    requires Finished(p, scope, end, [], false, s, res, c) && Nowhere in Exits(scope)
    ensures Finished(p, scope, end, [], false, s, res.(outcome := Return(Nowhere, [])), c)
  {
    hide Matches, Kept, Arrived;
  }

  lemma {:induction false} CorrectTagbody(p: Program, form: Form, scope: Scope, r: Receiving, g: Gen, at: nat,
                                          env: Env, s: State)
    returns (c: Config)
    requires form.Tagbody? && Scoped(form, Vars(scope), Exits(scope))
    requires Placed(p, at, CompileTagbody(form, scope, r, g), s) && Ready(scope, env, s)
    ensures Reaches(p, At(at, s), c)
    ensures var res := Eval(p.image.world, form, env, s.history);
            Finished(p, scope, at + |CompileTagbody(form, scope, r, g).code|, PushedBy(r, res), r == -1, s, res, c)
    decreases form, 0
  {
    hide *;
    UnfoldedTagbody(p.image.world, form, scope, r, g, env, s.history);
    var statements, tags := form.statements, TagsOf(form.statements);
    var g1, lex := TagbodyGen(scope, tags, g), Lex(scope.FrameEnd());
    var b := CompileStatements(statements, BindTags(scope, tags, g.labels), g1);
    var n := CompileLiteral(Nil, r, b.gen);
    var res1 := EvalLoop(p.image.world, statements, None, env, s.history, p.image.world.jumps);
    if tags == [] {
      PlacedParts(p, at, b, n, s);
      c := CorrectStatements(p, statements, None, scope, g, at, env, s);
      StartMeans(p.items, scope, None, at);
      NoTags(p, scope, at + |b.code|, s, EvalStatements(p.image.world, statements, None, env, s.history), c);
      c := AndThenNil(p, scope, r, b.gen, at, at + |b.code|, env, s, res1, c);
    } else {
      PlacedParts(p, at, Output([Entry(lex)] + b.code + [EntryClose(lex)], b.gen), n, s);
      PlacedParts(p, at, Output([Entry(lex)] + b.code, b.gen), Output([EntryClose(lex)], b.gen), s);
      PlacedParts(p, at, Output([Entry(lex)], g1), b, s);
      var inner := Tags(tags, g.labels, scope);
      var s1 := Enters(p, at, g1, inner, env, s);
      PlacedIn(p, at + 1, b, s, s1);
      var c1 := CorrectLoop(p, statements, None, g.labels, scope, g1, at + 1, env, s1, p.image.world.jumps);
      StartMeans(p.items, inner, None, at + 1);
      ReachesOn(p, At(at, s), At(at + 1, s1), c1);
      c := LeavesTagbody(p, scope, tags, g.labels, b.gen, at + 1 + |b.code|, env, s, s1, res1, c1);
      ReachesOn(p, At(at, s), c1, c);
      c := AndThenNil(p, scope, r, b.gen, at, at + 1 + |b.code| + 1, env, s, res1, c);
    }
  }

  lemma UnfoldedTagbody(world: World, form: Form, scope: Scope, r: Receiving, g: Gen, env: Env, history: seq<Event>)
    requires form.Tagbody? && Scoped(form, Vars(scope), Exits(scope))
    ensures var tags := TagsOf(form.statements);
            var inner, g1 := BindTags(scope, tags, g.labels), TagbodyGen(scope, tags, g);
            var lex := Lex(scope.FrameEnd());
            && ScopedStatements(form.statements, Vars(inner), Exits(inner))
            && (tags == [] ==> inner == scope && g1 == g)
            && (tags != [] ==> inner == Tags(tags, g.labels, scope) && Nowhere in Exits(inner)
                               && scope.FrameEnd() < g1.nlocals)
            && var b := CompileStatements(form.statements, inner, g1);
               var n := CompileLiteral(Nil, r, b.gen);
               && CompileTagbody(form, scope, r, g)
                  == Output((if tags == [] then b.code else [Entry(lex)] + b.code + [EntryClose(lex)]) + n.code, n.gen)
               && n.gen == b.gen && Grows(g1, b.gen) && Grows(b.gen, b.gen)
    ensures var res1 := EvalLoop(world, form.statements, None, env, history, world.jumps);
            && Eval(world, form, env, history) == res1
            && !GoesTo(res1.outcome, TagsOf(form.statements))
            && (res1.outcome.Values? ==> res1.outcome == Values([Nil]))
            && (TagsOf(form.statements) == [] ==>
                  var r := EvalStatements(world, form.statements, None, env, history);
                  res1 == if r.outcome.Return? then r else r.(outcome := Values([Nil])))
  {
    LoopLeaves(world, form.statements, None, env, history, world.jumps);
    hide CompileStatements, EvalStatements, TagsOf, ToTags, CompileIf, CompileBlock, CompileProg1, CompileProgn,
      CompileClauses, CompileSetq, EvalProgn, EvalClauses, EvalSetq, CompileInits, CompileArgs, EvalInits, EvalArgs;
  }

  // A loop never ends with a go to one of its own tags.
  lemma {:induction false} LoopLeaves(world: World, statements: Statements, from: Option<Name>, env: Env,
                                      history: seq<Event>, jumps: nat)
    ensures var res := EvalLoop(world, statements, from, env, history, jumps);
            && !GoesTo(res.outcome, TagsOf(statements))
            && (res.outcome.Values? ==> res.outcome == Values([Nil]))
    decreases jumps
  {
    hide EvalStatements, TagsOf;
    var r := EvalStatements(world, statements, from, env, history);
    if GoesTo(r.outcome, TagsOf(statements)) && jumps > 0 {
      LoopLeaves(world, statements, Some(r.outcome.exit.tag), r.env, r.history, jumps - 1);
    }
  }

  lemma NoTags(p: Program, scope: Scope, end: nat, s: State, res: Result, c: Config)
    requires Finished(p, scope, end, [], false, s, res, c)
    ensures Finished(p, scope, end, [], false, s,
                     if res.outcome.Return? then res else res.(outcome := Values([Nil])), c)
  {
    hide *;
    if res.outcome.Values? { Revalued(p, scope, end, [], s, res, c, [Nil]); }
  }

  // A tagbody that has ended is left behind its entry-close; a transfer of
  // control to somewhere else passes through it.
  lemma LeavesTagbody(p: Program, scope: Scope, tags: seq<Name>, labels: nat, g: Gen, pc: nat, env: Env, s: State,
                      s1: State, res: Result, c1: Config)
    returns (c: Config)
    requires Placed(p, pc, Output([EntryClose(Lex(scope.FrameEnd()))], g), s) && Ready(scope, env, s)
    requires Kept(scope.FrameEnd(), s.regs, s1.regs) && s1.stack == s.stack
    requires Finished(p, Tags(tags, labels, scope), pc, [], false, s1, res, c1) && !GoesTo(res.outcome, tags)
    ensures Reaches(p, c1, c) && Finished(p, scope, pc + 1, [], false, s, res, c)
  {
    hide *;
    OutOfTags(p, scope, tags, labels, pc, s1, res, c1);
    var none: seq<Value> := [];
    assert s.stack == s.stack + [] && none + none == none;
    Compose(p, scope, env, s, [], s1, pc, [], false, res, c1);
    if res.outcome.Return? {
      c := c1;
      ReachesItself(p, c);
      Left(p, scope, pc, [], false, s, res, c, pc + 1, [], false);
    } else {
      Normally(p, scope, env, pc, [], false, s, res, c1);
      c := At(pc + 1, c1.state);
      SkipsClose(p, pc, scope.FrameEnd(), g, s, c1.state);
      MakeFinished(p, scope, pc + 1, [], false, s, res, c1.state);
    }
  }

  lemma OutOfTags(p: Program, scope: Scope, tags: seq<Name>, labels: nat, end: nat, s: State, res: Result, c: Config)
    requires Finished(p, Tags(tags, labels, scope), end, [], false, s, res, c) && !GoesTo(res.outcome, tags)
    ensures Finished(p, scope, end, [], false, s, res, c)
  {
  }

  // The nil that a tagbody returns.
  lemma AndThenNil(p: Program, scope: Scope, r: Receiving, g: Gen, at: nat, next: nat, env: Env, s: State,
                   res1: Result, c1: Config)
    returns (c: Config)
    requires Placed(p, next, CompileLiteral(Nil, r, g), s) && Ready(scope, env, s)
    requires Reaches(p, At(at, s), c1) && Finished(p, scope, next, [], false, s, res1, c1)
    requires res1.outcome.Values? ==> res1.outcome == Values([Nil])
    ensures Reaches(p, At(at, s), c)
    ensures Finished(p, scope, next + |CompileLiteral(Nil, r, g).code|, PushedBy(r, res1), r == -1, s, res1, c)
  {
    hide *;
    var end := next + |CompileLiteral(Nil, r, g).code|;
    if res1.outcome.Return? {
      c := c1;
      Left(p, scope, next, [], false, s, res1, c, end, PushedBy(r, res1), r == -1);
    } else {
      Normally(p, scope, env, next, [], false, s, res1, c1);
      PlacedIn(p, next, CompileLiteral(Nil, r, g), s, c1.state);
      c := CorrectLiteral(p, Nil, scope, r, g, next, res1.env, c1.state);
      ReachesOn(p, At(at, s), c1, c);
      Compose(p, scope, env, s, [], c1.state, end, PushedBy(r, res1), r == -1, res1, c);
      assert [] + PushedBy(r, res1) == PushedBy(r, res1);
    }
  }
}
