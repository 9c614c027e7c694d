/** The part of the source language that the compiler is modelled on, and its
    meaning: an evaluator over environments that knows nothing of registers,
    stacks or labels. */
module Source {
  import opened Options

  type Name = string

  // Lisp objects; nil, the unbound marker and fixnums are told apart.
  datatype Value = Nil | Unbound | Fixnum(n: int) | FunctionCell(name: Name) | Object(id: nat)

  // A call of a global function; the history of calls is what a program can be observed to do.
  datatype Event = Event(function_: Name, args: seq<Value>)

  // What the world answers, the values of the last call of a history, and how
  // often control may jump back within one execution of a tagbody.
  datatype World = World(answer: seq<Event> -> seq<Value>, jumps: nat)

  datatype Form =
    | Literal(value: Value)
    | Variable(name: Name)
    | Progn(body: Forms)
    | Let(bindings: Bindings, body: Forms)
    | LetStar(clauses: Clauses)
    | Setq(pairs: Bindings)
    | If(cond: Form, thn: Form, els: Form)
    | Block(name: Name, body: Forms)
    | ReturnFrom(name: Name, result: Form)
    | Tagbody(statements: Statements)
    | Go(tag: Name)
    | MultipleValueProg1(first: Form, body: Forms)
    | Call(function_: Name, args: Forms)

  datatype Forms = Done | More(first: Form, rest: Forms)

  datatype Bindings = NoMore | Binding(name: Name, init: Form, rest: Bindings)

  // The bindings of a let* followed by its body.
  datatype Clauses = In(body: Forms) | Clause(name: Name, init: Form, rest: Clauses)

  datatype Statements = Ended | Tag(name: Name, rest: Statements) | Statement(form: Form, rest: Statements)

  // Where a form that does not end normally transfers control: to a block or to
  // a tag; nowhere when a tagbody has run out of jumps.
  datatype Destination = ToBlock(name: Name) | ToTag(tag: Name) | Nowhere

  // The variables in scope, innermost first.
  datatype Env = Top | Bind(name: Name, value: Value, outer: Env)

  datatype Outcome = Values(vs: seq<Value>) | Return(exit: Destination, vs: seq<Value>)

  datatype Result = Result(outcome: Outcome, env: Env, history: seq<Event>)

  function Primary(vs: seq<Value>): Value { if vs == [] then Nil else vs[0] }

  predicate Binds(env: Env, name: Name) {
    env.Bind? && (env.name == name || Binds(env.outer, name))
  }

  function Lookup(env: Env, name: Name): Value {
    match env
    case Top => Unbound
    case Bind(n, v, outer) => if n == name then v else Lookup(outer, name)
  }

  function Update(env: Env, name: Name, value: Value): Env {
    match env
    case Top => Top
    case Bind(n, v, outer) => if n == name then Bind(n, value, outer) else Bind(n, v, Update(outer, name, value))
  }

  function Outer(env: Env): Env { if env.Bind? then env.outer else Top }

  // env with the bindings of a let around it; the last binding is innermost.
  function Extend(env: Env, bindings: Bindings, vs: seq<Value>): Env
    requires |vs| == Count(bindings)
    decreases bindings
  {
    match bindings
    case NoMore => env
    case Binding(name, _, rest) => Extend(Bind(name, vs[0], env), rest, vs[1..])
  }

  function Count(bindings: Bindings): nat {
    match bindings
    case NoMore => 0
    case Binding(_, _, rest) => 1 + Count(rest)
  }

  function Drop(env: Env, n: nat): Env {
    if n == 0 then env else Drop(Outer(env), n - 1)
  }

  function Eval(world: World, form: Form, env: Env, history: seq<Event>): Result
    decreases form
  {
    match form
    case Literal(value) => Result(Values([value]), env, history)
    case Variable(name) => Result(Values([Lookup(env, name)]), env, history)
    case Progn(body) => EvalProgn(world, body, env, history)
    case Let(bindings, body) =>
      var r := EvalInits(world, bindings, env, history);
      if r.outcome.Return? then r
      else
        var b := EvalProgn(world, body, Extend(r.env, bindings, r.outcome.vs), r.history);
        b.(env := Drop(b.env, Count(bindings)))
    case LetStar(clauses) => EvalClauses(world, clauses, env, history)
    case Setq(pairs) => EvalSetq(world, pairs, env, history)
    case If(cond, thn, els) =>
      var r := Eval(world, cond, env, history);
      if r.outcome.Return? then r
      else if Primary(r.outcome.vs) != Nil then Eval(world, thn, r.env, r.history)
      else Eval(world, els, r.env, r.history)
    case Block(name, body) =>
      var r := EvalProgn(world, body, env, history);
      if r.outcome.Return? && r.outcome.exit == ToBlock(name) then r.(outcome := Values(r.outcome.vs)) else r
    case ReturnFrom(name, result) =>
      var r := Eval(world, result, env, history);
      if r.outcome.Return? then r else r.(outcome := Return(ToBlock(name), r.outcome.vs))
    case Tagbody(statements) => EvalLoop(world, statements, None, env, history, world.jumps)
    case Go(tag) => Result(Return(ToTag(tag), []), env, history)
    case MultipleValueProg1(first, body) =>
      var r := Eval(world, first, env, history);
      if r.outcome.Return? then r
      else
        var b := EvalProgn(world, body, r.env, r.history);
        if b.outcome.Return? then b else b.(outcome := r.outcome)
    case Call(name, args) =>
      var r := EvalArgs(world, args, env, history);
      if r.outcome.Return? then r
      else
        var h := r.history + [Event(name, r.outcome.vs)];
        Result(Values(world.answer(h)), r.env, h)
  }

  // The forms in order; the values are those of the last one.
  function EvalProgn(world: World, forms: Forms, env: Env, history: seq<Event>): Result
    decreases forms
  {
    match forms
    case Done => Result(Values([Nil]), env, history)
    case More(first, rest) =>
      var r := Eval(world, first, env, history);
      if r.outcome.Return? || rest.Done? then r else EvalProgn(world, rest, r.env, r.history)
  }

  // The primary values of the forms, in order.
  function EvalArgs(world: World, forms: Forms, env: Env, history: seq<Event>): (r: Result)
    ensures r.outcome.Values? ==> |r.outcome.vs| == Length(forms)
    decreases forms
  {
    match forms
    case Done => Result(Values([]), env, history)
    case More(first, rest) =>
      var r := Eval(world, first, env, history);
      if r.outcome.Return? then r
      else
        var a := EvalArgs(world, rest, r.env, r.history);
        if a.outcome.Return? then a else a.(outcome := Values([Primary(r.outcome.vs)] + a.outcome.vs))
  }

  function Length(forms: Forms): nat {
    match forms
    case Done => 0
    case More(_, rest) => 1 + Length(rest)
  }

  // The primary values of the init forms, all evaluated outside the bindings.
  function EvalInits(world: World, bindings: Bindings, env: Env, history: seq<Event>): (r: Result)
    ensures r.outcome.Values? ==> |r.outcome.vs| == Count(bindings)
    decreases bindings
  {
    match bindings
    case NoMore => Result(Values([]), env, history)
    case Binding(_, init, rest) =>
      var r := Eval(world, init, env, history);
      if r.outcome.Return? then r
      else
        var a := EvalInits(world, rest, r.env, r.history);
        if a.outcome.Return? then a else a.(outcome := Values([Primary(r.outcome.vs)] + a.outcome.vs))
  }

  function EvalClauses(world: World, clauses: Clauses, env: Env, history: seq<Event>): Result
    decreases clauses
  {
    match clauses
    case In(body) => EvalProgn(world, body, env, history)
    case Clause(name, init, rest) =>
      var r := Eval(world, init, env, history);
      if r.outcome.Return? then r
      else
        var b := EvalClauses(world, rest, Bind(name, Primary(r.outcome.vs), r.env), r.history);
        b.(env := Outer(b.env))
  }

  // Assignments in order; the value is the last one assigned.
  function EvalSetq(world: World, pairs: Bindings, env: Env, history: seq<Event>): Result
    decreases pairs
  {
    match pairs
    case NoMore => Result(Values([Nil]), env, history)
    case Binding(name, init, rest) =>
      var r := Eval(world, init, env, history);
      if r.outcome.Return? then r
      else
        var value := Primary(r.outcome.vs);
        var env' := Update(r.env, name, value);
        if rest.NoMore? then Result(Values([value]), env', r.history)
        else EvalSetq(world, rest, env', r.history)
  }

  function TagsOf(statements: Statements): seq<Name> {
    match statements
    case Ended => []
    case Tag(name, rest) => [name] + TagsOf(rest)
    case Statement(_, rest) => TagsOf(rest)
  }

  // The outcome is a go to one of these tags.
  predicate GoesTo(outcome: Outcome, tags: seq<Name>) {
    outcome.Return? && outcome.exit.ToTag? && outcome.exit.tag in tags
  }

  // The statements of a tagbody, started at a tag if one is given; a go to one of
  // its tags starts them again.
  function EvalLoop(world: World, statements: Statements, from: Option<Name>, env: Env, history: seq<Event>,
                    jumps: nat): Result
    decreases statements, 1, jumps
  {
    var r := EvalStatements(world, statements, from, env, history);
    if GoesTo(r.outcome, TagsOf(statements)) then
      if jumps == 0 then r.(outcome := Return(Nowhere, []))
      else EvalLoop(world, statements, Some(r.outcome.exit.tag), r.env, r.history, jumps - 1)
    else if r.outcome.Return? then r
    else r.(outcome := Values([Nil]))
  }

  // The statements in order, those before the tag left out if one is given.
  function EvalStatements(world: World, statements: Statements, from: Option<Name>, env: Env, history: seq<Event>)
    : Result
    decreases statements, 0
  {
    match statements
    case Ended => Result(Values([Nil]), env, history)
    case Tag(name, rest) => EvalStatements(world, rest, if from == Some(name) then None else from, env, history)
    case Statement(form, rest) =>
      if from.Some? then EvalStatements(world, rest, from, env, history)
      else
        var r := Eval(world, form, env, history);
        if r.outcome.Return? then r else EvalStatements(world, rest, None, r.env, r.history)
  }
}
