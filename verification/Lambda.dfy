/** Whole functions: a compiled lambda run from its entry point. */
module Lambda {
  import opened Options
  import opened Instructions
  import opened Source
  import opened VirtualMachine
  import opened SymbolicMachine
  import opened Compiler
  import opened CompilerCorrectness

  // The environment of a function's body.
  function Arguments(params: seq<Name>, args: seq<Value>): Env
    requires |args| == |params|
  {
    if params == [] then Top
    else
      var n := |params| - 1;
      Bind(params[n], args[n], Arguments(params[..n], args[..n]))
  }

  /** Every parameter has its argument; of two with the same name the later counts. */
  lemma {:induction false} ArgumentsMean(params: seq<Name>, args: seq<Value>, i: nat)
    requires |args| == |params| && i < |params| && params[i] !in params[i + 1..]
    ensures Lookup(Arguments(params, args), params[i]) == args[i]
    decreases |params|
  {
    var n := |params| - 1;
    if i < n {
      assert params[n] == params[i + 1..][n - i - 1];
      assert params[i + 1..] == params[..n][i + 1..] + [params[n]];
      ArgumentsMean(params[..n], args[..n], i);
    }
  }

  lemma {:induction false} ArgumentsMatch(params: seq<Name>, loops: bool, args: seq<Value>, regs: seq<Slot>)
    requires |args| == |params| <= |regs|
    requires forall i {:trigger regs[i]} :: 0 <= i < |args| ==> regs[i] == Val(args[i])
    ensures Matches(Parameters(params, loops), Arguments(params, args), regs)
  {
    if params != [] {
      var n := |params| - 1;
      ArgumentsMatch(params[..n], loops, args[..n], regs);
      assert regs[n] == Val(args[n]);
    }
  }

  // Encages do nothing when nothing is closed over.
  lemma {:induction false} SkipsEncages(p: Program, pc: nat, n: nat, s: State)
    requires CodeAt(p.items, pc, Encages(n))
    ensures Reaches(p, At(pc, s), At(pc + n, s))
  {
    hide CodeAt, Reaches;
    if n == 0 {
      ReachesItself(p, At(pc, s));
    } else {
      CodeParts(p.items, pc, Encages(n - 1), [Encage(Lex(n - 1))]);
      SkipsEncages(p, pc, n - 1, s);
      Skips(p, pc + (n - 1), Encage(Lex(n - 1)), s);
      ReachesOn(p, At(pc, s), At(pc + (n - 1), s), At(pc + n, s));
    }
  }

  // With the right number of arguments the prologue puts them into the first registers.
  lemma Binds(p: Program, pc: nat, params: seq<Name>, loops: bool, s: State) returns (s': State)
    requires CodeAt(p.items, pc, Prologue(|params|)) && |p.image.args| == |params| <= |s.regs|
    ensures Reaches(p, At(pc, s), At(pc + |Prologue(|params|)|, s'))
    ensures Ready(Parameters(params, loops), Arguments(params, p.image.args), s')
    ensures s'.stack == s.stack && s'.history == s.history && |s'.regs| == |s.regs|
  {
    var n, args := |params|, p.image.args;
    s' := if n == 0 then s else WithRegs(s, 0, args);
    assert args[..n] == args;
    PrologueRuns(p, pc, n, s);
    hide CodeAt, Reaches, Matches;
    ArgumentsMatch(params, loops, args, s'.regs);
  }

  lemma PrologueRuns(p: Program, pc: nat, n: nat, s: State)
    requires CodeAt(p.items, pc, Prologue(n)) && |p.image.args| == n <= |s.regs|
    ensures Reaches(p, At(pc, s), At(pc + |Prologue(n)|, if n == 0 then s else WithRegs(s, 0, p.image.args[..n])))
  {
    hide CodeAt, Reaches;
    if n == 0 {
      Runs(p, pc, Op1(VM_CHECK_ARG_COUNT_LE, 0), s, s);
    } else {
      var s' := WithRegs(s, 0, p.image.args[..n]);
      var check, bind := Op1(VM_CHECK_ARG_COUNT_EQ, n), Op1(VM_BIND_REQUIRED_ARGS, n);
      CodeParts(p.items, pc, [check, bind], Encages(n));
      assert [check, bind] == [check] + [bind];
      CodeParts(p.items, pc, [check], [bind]);
      Runs(p, pc, check, s, s);
      Runs(p, pc + 1, bind, s, s');
      SkipsEncages(p, pc + 2, n, s');
      ReachesOn(p, At(pc, s), At(pc + 1, s), At(pc + 2, s'));
      ReachesOn(p, At(pc, s), At(pc + 2, s'), At(pc + 2 + n, s'));
    }
  }

  lemma AtStart(items: seq<Item>, at: nat, code: seq<Item>)
    requires CodeAt(items, at, code) && code != []
    ensures at < |items| && items[at] == code[0]
  {
    assert items[at + 0] == code[0];
  }

  // A wrong number of arguments is caught by the first instruction.
  lemma Rejects(p: Program, pc: nat, n: nat, s: State)
    requires CodeAt(p.items, pc, Prologue(n)) && |p.image.args| != n
    ensures pc < |p.items| && p.items[pc] == Ins(ArgumentCheck(n)) && Step(p, At(pc, s)) == None
  {
    var check := Ins(ArgumentCheck(n));
    assert Prologue(n)[0] == check;
    hide CodeAt, Prologue;
    AtStart(p.items, pc, Prologue(n));
  }

  // What running a function comes to: an error for a wrong number of arguments,
  // and otherwise the values of its body, with the stack as it was. When a loop
  // has run out of jumps, the calls made until then are those of the source.
  ghost predicate Answers(p: Program, params: seq<Name>, body: Forms, loops: bool, s: State, c: Config) {
    if |p.image.args| != |params| then
      c.pc < |p.items| && p.items[c.pc] == Ins(ArgumentCheck(|params|)) && Step(p, c) == None && c.state == s
    else
      var res := EvalProgn(p.image.world, body, Arguments(params, p.image.args), s.history);
      && c.state.history == res.history
      && match res.outcome
         case Values(vs) =>
           && c.pc < |p.items| && p.items[c.pc] == Op(VM_RETURN)
           && c.state.mv == vs && c.state.stack == s.stack
         case Return(to, _) => loops && to == Nowhere
  }

  /** A compiled function, wherever it stands in a module's code, answers as its source does. */
  lemma FunctionCorrect(p: Program, params: seq<Name>, body: Forms, loops: bool, literals: seq<Constant>, labels: nat,
                        at: nat, s: State)
    returns (c: Config)
    requires Covered(params, body, loops)
    requires Placed(p, at, CompileLambda(params, body, loops, literals, labels), s)
    ensures Reaches(p, At(at, s), c) && Answers(p, params, body, loops, s, c)
  {
    hide *;
    UnfoldedLambda(params, body, loops, literals, labels);
    var scope, g := Parameters(params, loops), Gen(literals, labels + 1, |params|);
    var b := CompileProgn(body, scope, -1, g);
    var prologue := Prologue(|params|);
    PlacedParts(p, at, Output([Mark(labels)] + prologue + b.code, b.gen), Output([Op(VM_RETURN)], b.gen), s);
    PlacedParts(p, at, Output([Mark(labels)] + prologue, g), b, s);
    PlacedParts(p, at, Output([Mark(labels)], g), Output(prologue, g), s);
    Unplaced(p, at, Output([Mark(labels)], g), s);
    Unplaced(p, at + 1, Output(prologue, g), s);
    SkipsMark(p, at, labels, s);
    if |p.image.args| != |params| {
      c := At(at + 1, s);
      Rejects(p, at + 1, |params|, s);
      Rejected(p, params, body, loops, s, c);
    } else {
      EnoughRegisters(p, at + 1, Output(prologue, g), s, s, 0) by { KeptItself(0, s.regs); }
      var s1 := Binds(p, at + 1, params, loops, s);
      var start := at + 1 + |prologue|;
      ReachesOn(p, At(at, s), At(at + 1, s), At(start, s1));
      PlacedIn(p, start, b, s, s1);
      var env := Arguments(params, p.image.args);
      c := CorrectProgn(p, body, scope, -1, g, start, env, s1);
      ReachesOn(p, At(at, s), At(start, s1), c);
      Unplaced(p, start + |b.code|, Output([Op(VM_RETURN)], b.gen), s);
      Returned(p, params, body, loops, scope, start + |b.code|, s, s1, env,
          EvalProgn(p.image.world, body, env, s.history), c);
    }
  }

  lemma UnfoldedLambda(params: seq<Name>, body: Forms, loops: bool, literals: seq<Constant>, labels: nat)
    requires Covered(params, body, loops)
    ensures ScopedForms(body, Vars(Parameters(params, loops)), Exits(Parameters(params, loops)))
    ensures Exits(Parameters(params, loops)) == Exits(Null(loops))
    ensures var g := Gen(literals, labels + 1, |params|);
            var b := CompileProgn(body, Parameters(params, loops), -1, g);
            && CompileLambda(params, body, loops, literals, labels)
               == Output([Mark(labels)] + Prologue(|params|) + b.code + [Op(VM_RETURN)], b.gen)
            && Grows(g, b.gen) && Grows(g, g) && Grows(b.gen, b.gen)
  {
    hide CompileProgn, ScopedForms, Prologue;
  }

  lemma Rejected(p: Program, params: seq<Name>, body: Forms, loops: bool, s: State, c: Config)
    requires |p.image.args| != |params| && Step(p, c) == None && c.state == s
    requires c.pc < |p.items| && p.items[c.pc] == Ins(ArgumentCheck(|params|))
    ensures Answers(p, params, body, loops, s, c)
  {
    hide Step;
  }

  lemma Returned(p: Program, params: seq<Name>, body: Forms, loops: bool, scope: Scope, end: nat, s: State, s1: State,
                 env: Env, res: Result, c: Config)
    requires |p.image.args| == |params| && env == Arguments(params, p.image.args) && Exits(scope) == Exits(Null(loops))
    requires res == EvalProgn(p.image.world, body, env, s.history)
    requires s1.stack == s.stack && s1.history == s.history
    requires Finished(p, scope, end, PushedBy(-1, res), true, s1, res, c)
    requires CodeAt(p.items, end, [Op(VM_RETURN)])
    ensures Answers(p, params, body, loops, s, c)
  {
    hide Step, EvalProgn, Arguments, Kept, Matches;
    CodeItem(p.items, end, Op(VM_RETURN));
  }
}
