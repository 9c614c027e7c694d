/** The bound on jumps is no restriction: an evaluation that stays within it is
    the same under every larger bound. */
module Jumps {
  import opened Options
  import opened Source

  // No tagbody has run out of jumps.
  predicate Settled(res: Result) { res.outcome.Return? ==> res.outcome.exit != Nowhere }

  function WithJumps(world: World, jumps: nat): World { world.(jumps := jumps) }

  /** A form that is settled under one bound on jumps has the same result under
      every larger one. */
  lemma {:induction false} MoreJumps(world: World, jumps: nat, form: Form, env: Env, history: seq<Event>)
    requires world.jumps <= jumps && Settled(Eval(world, form, env, history))
    ensures Eval(WithJumps(world, jumps), form, env, history) == Eval(world, form, env, history)
    decreases form
  {
    match form
    case Literal(_) =>
    case Variable(_) =>
    case Go(_) =>
    case Progn(body) => MoreForms(world, jumps, body, env, history);
    case Let(bindings, body) =>
      MoreInits(world, jumps, bindings, env, history);
      var r := EvalInits(world, bindings, env, history);
      if r.outcome.Values? {
        MoreForms(world, jumps, body, Extend(r.env, bindings, r.outcome.vs), r.history);
      }
    case LetStar(clauses) => MoreClauses(world, jumps, clauses, env, history);
    case Setq(pairs) => MorePairs(world, jumps, pairs, env, history);
    case If(cond, thn, els) =>
      MoreJumps(world, jumps, cond, env, history);
      var r := Eval(world, cond, env, history);
      if r.outcome.Values? {
        if Primary(r.outcome.vs) != Nil {
          MoreJumps(world, jumps, thn, r.env, r.history);
        } else {
          MoreJumps(world, jumps, els, r.env, r.history);
        }
      }
    case Block(_, body) => MoreForms(world, jumps, body, env, history);
    case ReturnFrom(_, result) => MoreJumps(world, jumps, result, env, history);
    case Tagbody(statements) => MoreLoops(world, jumps, statements, None, env, history, world.jumps, jumps);
    case MultipleValueProg1(first, body) =>
      MoreJumps(world, jumps, first, env, history);
      var r := Eval(world, first, env, history);
      if r.outcome.Values? { MoreForms(world, jumps, body, r.env, r.history); }
    case Call(_, args) => MoreArgs(world, jumps, args, env, history);
  }

  lemma {:induction false} MoreForms(world: World, jumps: nat, forms: Forms, env: Env, history: seq<Event>)
    requires world.jumps <= jumps && Settled(EvalProgn(world, forms, env, history))
    ensures EvalProgn(WithJumps(world, jumps), forms, env, history) == EvalProgn(world, forms, env, history)
    decreases forms
  {
    match forms
    case Done =>
    case More(first, rest) =>
      MoreJumps(world, jumps, first, env, history);
      var r := Eval(world, first, env, history);
      if r.outcome.Values? && rest.More? { MoreForms(world, jumps, rest, r.env, r.history); }
  }

  lemma {:induction false} MoreArgs(world: World, jumps: nat, forms: Forms, env: Env, history: seq<Event>)
    requires world.jumps <= jumps && Settled(EvalArgs(world, forms, env, history))
    ensures EvalArgs(WithJumps(world, jumps), forms, env, history) == EvalArgs(world, forms, env, history)
    decreases forms
  {
    match forms
    case Done =>
    case More(first, rest) =>
      MoreJumps(world, jumps, first, env, history);
      var r := Eval(world, first, env, history);
      if r.outcome.Values? { MoreArgs(world, jumps, rest, r.env, r.history); }
  }

  lemma {:induction false} MoreInits(world: World, jumps: nat, bindings: Bindings, env: Env, history: seq<Event>)
    requires world.jumps <= jumps && Settled(EvalInits(world, bindings, env, history))
    ensures EvalInits(WithJumps(world, jumps), bindings, env, history) == EvalInits(world, bindings, env, history)
    decreases bindings
  {
    match bindings
    case NoMore =>
    case Binding(_, init, rest) =>
      MoreJumps(world, jumps, init, env, history);
      var r := Eval(world, init, env, history);
      if r.outcome.Values? { MoreInits(world, jumps, rest, r.env, r.history); }
  }

  lemma {:induction false} MoreClauses(world: World, jumps: nat, clauses: Clauses, env: Env, history: seq<Event>)
    requires world.jumps <= jumps && Settled(EvalClauses(world, clauses, env, history))
    ensures EvalClauses(WithJumps(world, jumps), clauses, env, history) == EvalClauses(world, clauses, env, history)
    decreases clauses
  {
    match clauses
    case In(body) => MoreForms(world, jumps, body, env, history);
    case Clause(name, init, rest) =>
      MoreJumps(world, jumps, init, env, history);
      var r := Eval(world, init, env, history);
      if r.outcome.Values? {
        MoreClauses(world, jumps, rest, Bind(name, Primary(r.outcome.vs), r.env), r.history);
      }
  }

  lemma {:induction false} MorePairs(world: World, jumps: nat, pairs: Bindings, env: Env, history: seq<Event>)
    requires world.jumps <= jumps && Settled(EvalSetq(world, pairs, env, history))
    ensures EvalSetq(WithJumps(world, jumps), pairs, env, history) == EvalSetq(world, pairs, env, history)
    decreases pairs
  {
    match pairs
    case NoMore =>
    case Binding(name, init, rest) =>
      MoreJumps(world, jumps, init, env, history);
      var r := Eval(world, init, env, history);
      if r.outcome.Values? && rest.Binding? {
        MorePairs(world, jumps, rest, Update(r.env, name, Primary(r.outcome.vs)), r.history);
      }
  }

  lemma {:induction false} MoreLoops(world: World, jumps: nat, statements: Statements, from: Option<Name>, env: Env,
                                     history: seq<Event>, left: nat, left': nat)
    requires world.jumps <= jumps && left <= left'
    requires Settled(EvalLoop(world, statements, from, env, history, left))
    ensures EvalLoop(WithJumps(world, jumps), statements, from, env, history, left')
            == EvalLoop(world, statements, from, env, history, left)
    decreases statements, 1, left
  {
    MoreStatements(world, jumps, statements, from, env, history);
    var r := EvalStatements(world, statements, from, env, history);
    if GoesTo(r.outcome, TagsOf(statements)) && left > 0 {
      MoreLoops(world, jumps, statements, Some(r.outcome.exit.tag), r.env, r.history, left - 1, left' - 1);
    }
  }

  lemma {:induction false} MoreStatements(world: World, jumps: nat, statements: Statements, from: Option<Name>,
                                          env: Env, history: seq<Event>)
    requires world.jumps <= jumps && Settled(EvalStatements(world, statements, from, env, history))
    ensures EvalStatements(WithJumps(world, jumps), statements, from, env, history)
            == EvalStatements(world, statements, from, env, history)
    decreases statements, 0
  {
    match statements
    case Ended =>
    case Tag(name, rest) =>
      MoreStatements(world, jumps, rest, if from == Some(name) then None else from, env, history);
    case Statement(form, rest) =>
      if from.Some? {
        MoreStatements(world, jumps, rest, from, env, history);
      } else {
        MoreJumps(world, jumps, form, env, history);
        var r := Eval(world, form, env, history);
        if r.outcome.Values? { MoreStatements(world, jumps, rest, None, r.env, r.history); }
      }
  }
}
