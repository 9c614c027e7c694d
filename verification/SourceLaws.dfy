/** What the evaluator makes of small programs: the laws of the language that its
    definition is to be measured by. */
module SourceLaws {
  import opened Options
  import opened Source

  function One(form: Form): Forms { More(form, Done) }

  function Two(a: Form, b: Form): Forms { More(a, One(b)) }

  // A result that is just a value.
  function Just(v: Value, env: Env, history: seq<Event>): Result { Result(Values([v]), env, history) }

  lemma Unfold(world: World, form: Form, env: Env, history: seq<Event>)
    ensures EvalProgn(world, One(form), env, history) == Eval(world, form, env, history)
    ensures EvalProgn(world, Done, env, history) == Just(Nil, env, history)
  {
    hide Eval;
  }

  lemma UnfoldTwo(world: World, a: Form, b: Form, env: Env, history: seq<Event>)
    ensures var r := Eval(world, a, env, history);
            EvalProgn(world, Two(a, b), env, history)
            == if r.outcome.Return? then r else Eval(world, b, r.env, r.history)
  {
    hide Eval;
    var r := Eval(world, a, env, history);
    if r.outcome.Values? { Unfold(world, b, r.env, r.history); }
  }

  /** An if takes its first branch for every value but nil. */
  lemma IfTakes(world: World, v: Value, a: Form, b: Form, env: Env, history: seq<Event>)
    ensures v != Nil ==> Eval(world, If(Literal(v), a, b), env, history) == Eval(world, a, env, history)
    ensures Eval(world, If(Literal(Nil), a, b), env, history) == Eval(world, b, env, history)
  {
  }

  // ---- variables ----

  /** Assigning a variable changes its innermost binding and no other variable. */
  lemma {:induction false} UpdateMeans(env: Env, x: Name, y: Name, v: Value)
    ensures Lookup(Update(env, x, v), y) == if x == y && Binds(env, x) then v else Lookup(env, y)
    ensures Binds(Update(env, x, v), y) <==> Binds(env, y)
  {
    match env
    case Top =>
    case Bind(_, _, outer) => UpdateMeans(outer, x, y, v);
  }

  // The place of the last binding of a name.
  ghost predicate LastBinding(bindings: Bindings, name: Name, i: nat)
    decreases bindings
  {
    match bindings
    case NoMore => false
    case Binding(n, _, rest) => if i == 0 then n == name && !Bound(rest, name) else LastBinding(rest, name, i - 1)
  }

  ghost predicate Bound(bindings: Bindings, name: Name) {
    bindings.Binding? && (bindings.name == name || Bound(bindings.rest, name))
  }

  /** A let binds every variable to the value of its own init form; all others
      keep their values. */
  lemma {:induction false} ExtendMeans(env: Env, bindings: Bindings, vs: seq<Value>, name: Name, i: nat)
    requires |vs| == Count(bindings)
    ensures LastBinding(bindings, name, i) ==> i < |vs| && Lookup(Extend(env, bindings, vs), name) == vs[i]
    ensures !Bound(bindings, name) ==> Lookup(Extend(env, bindings, vs), name) == Lookup(env, name)
    ensures Drop(Extend(env, bindings, vs), Count(bindings)) == env
    decreases bindings
  {
    match bindings
    case NoMore =>
    case Binding(n, _, rest) =>
      ExtendMeans(Bind(n, vs[0], env), rest, vs[1..], name, if i == 0 then 0 else i - 1);
      DropOuter(Extend(Bind(n, vs[0], env), rest, vs[1..]), Count(rest));
  }

  lemma {:induction false} DropOuter(env: Env, n: nat)
    ensures Drop(env, n + 1) == Outer(Drop(env, n))
    decreases n
  {
    if n > 0 { DropOuter(Outer(env), n - 1); }
  }

  /** A let evaluates its init forms outside its bindings, which are undone at the end. */
  lemma LetIsParallel(world: World, x: Name, y: Name, v: Value, w: Value, env: Env, history: seq<Event>)
    requires x != y
    ensures var inner := Let(Binding(x, Literal(v), Binding(y, Variable(x), NoMore)), One(Variable(y)));
            Eval(world, Let(Binding(x, Literal(w), NoMore), One(inner)), env, history) == Just(w, env, history)
  {
    var e := Bind(x, w, env);
    var bindings := Binding(x, Literal(v), Binding(y, Variable(x), NoMore));
    assert EvalInits(world, NoMore, e, history) == Result(Values([]), e, history);
    assert EvalInits(world, bindings.rest, e, history) == Result(Values([w]), e, history);
    assert EvalInits(world, bindings, e, history) == Result(Values([v, w]), e, history);
    var e2 := Bind(y, w, Bind(x, v, e));
    assert [v, w][1..] == [w] && [w][1..] == [];
    assert Extend(e2, NoMore, []) == e2;
    assert Extend(Bind(x, v, e), bindings.rest, [w]) == e2;
    assert Extend(e, bindings, [v, w]) == e2;
    Unfold(world, Variable(y), e2, history);
    assert Count(bindings.rest) == 1 && Count(bindings) == 2;
    assert Drop(e, 0) == e && Drop(Outer(e2), 1) == e && Drop(e2, 2) == e;
    assert Eval(world, Let(bindings, One(Variable(y))), e, history) == Just(w, e, history);
    LetOne(world, x, w, Let(bindings, One(Variable(y))), env, history);
  }

  /** A let* evaluates each init form in the scope of the bindings before it. */
  lemma LetStarIsSequential(world: World, x: Name, y: Name, v: Value, w: Value, env: Env, history: seq<Event>)
    requires x != y
    ensures var inner := LetStar(Clause(x, Literal(v), Clause(y, Variable(x), In(One(Variable(y))))));
            Eval(world, Let(Binding(x, Literal(w), NoMore), One(inner)), env, history) == Just(v, env, history)
  {
    var e := Bind(x, w, env);
    var body := In(One(Variable(y)));
    var second := Clause(y, Variable(x), body);
    var first := Clause(x, Literal(v), second);
    var e1 := Bind(x, v, e);
    var e2 := Bind(y, v, e1);
    Unfold(world, Variable(y), e2, history);
    assert EvalClauses(world, body, e2, history) == Just(v, e2, history);
    assert Eval(world, Variable(x), e1, history) == Just(v, e1, history);
    assert EvalClauses(world, second, e1, history) == Just(v, e1, history);
    assert Eval(world, Literal(v), e, history) == Just(v, e, history);
    assert EvalClauses(world, first, e, history) == Just(v, e, history);
    assert Eval(world, LetStar(first), e, history) == EvalClauses(world, first, e, history);
    LetOne(world, x, w, LetStar(first), env, history);
  }

  // A let of one variable around a form.
  lemma LetOne(world: World, x: Name, w: Value, body: Form, env: Env, history: seq<Event>)
    ensures var b := Eval(world, body, Bind(x, w, env), history);
            Eval(world, Let(Binding(x, Literal(w), NoMore), One(body)), env, history) == b.(env := Outer(b.env))
  {
    assert EvalInits(world, NoMore, env, history) == Result(Values([]), env, history);
    assert EvalInits(world, Binding(x, Literal(w), NoMore), env, history) == Result(Values([w]), env, history);
    assert Extend(env, Binding(x, Literal(w), NoMore), [w]) == Bind(x, w, env);
    var e := Bind(x, w, env);
    Unfold(world, body, e, history);
    var b := Eval(world, body, e, history);
    assert Drop(b.env, 1) == Drop(Outer(b.env), 0) == Outer(b.env);
  }

  /** Assignments happen in order and each sees those before it. */
  lemma SetqInOrder(world: World, x: Name, y: Name, v: Value, env: Env, history: seq<Event>)
    requires x != y && Binds(env, x) && Binds(env, y)
    ensures var r := Eval(world, Setq(Binding(x, Literal(v), Binding(y, Variable(x), NoMore))), env, history);
            r == Just(v, Update(Update(env, x, v), y, v), history) && Lookup(r.env, x) == v && Lookup(r.env, y) == v
  {
    UpdateMeans(env, x, x, v);
    UpdateMeans(env, x, y, v);
    var e := Update(env, x, v);
    UpdateMeans(e, y, x, v);
    UpdateMeans(e, y, y, v);
    var second := Binding(y, Variable(x), NoMore);
    hide Update, Lookup, Binds;
    assert Eval(world, Variable(x), e, history) == Just(v, e, history);
    assert EvalSetq(world, second, e, history) == Just(v, Update(e, y, v), history);
    assert EvalSetq(world, Binding(x, Literal(v), second), env, history) == EvalSetq(world, second, e, history);
  }

  // ---- control ----

  // A call of f with no arguments, and what it returns.
  function CallOf(f: Name): Form { Call(f, Done) }

  function AfterCall(history: seq<Event>, f: Name): seq<Event> { history + [Event(f, [])] }

  lemma CallMeans(world: World, f: Name, env: Env, history: seq<Event>)
    ensures var h := AfterCall(history, f);
            Eval(world, CallOf(f), env, history) == Result(Values(world.answer(h)), env, h)
  {
  }

  /** Arguments are evaluated from left to right, and the call sees their primary values. */
  lemma ArgumentsInOrder(world: World, f: Name, g: Name, h: Name, env: Env, history: seq<Event>)
    ensures var h1 := AfterCall(history, g);
            var h2 := AfterCall(h1, h);
            var h3 := h2 + [Event(f, [Primary(world.answer(h1)), Primary(world.answer(h2))])];
            Eval(world, Call(f, Two(CallOf(g), CallOf(h))), env, history) == Result(Values(world.answer(h3)), env, h3)
  {
    var h1 := AfterCall(history, g);
    var h2 := AfterCall(h1, h);
    CallMeans(world, g, env, history);
    CallMeans(world, h, env, h1);
    var a, b := Primary(world.answer(h1)), Primary(world.answer(h2));
    assert EvalArgs(world, Done, env, h2) == Result(Values([]), env, h2);
    assert EvalArgs(world, One(CallOf(h)), env, h1) == Result(Values([b]), env, h2);
    assert EvalArgs(world, Two(CallOf(g), CallOf(h)), env, history) == Result(Values([a, b]), env, h2);
  }

  /** A return-from gives its block its values and skips what comes after it, also
      when another block lies between; the innermost block of a name is meant. */
  lemma ReturnSkips(world: World, name: Name, other: Name, v: Value, f: Name, env: Env, history: seq<Event>)
    requires name != other
    ensures var leave := ReturnFrom(name, Literal(v));
            && Eval(world, Block(name, Two(leave, CallOf(f))), env, history) == Just(v, env, history)
            && Eval(world, Block(name, Two(Block(other, One(leave)), CallOf(f))), env, history) == Just(v, env, history)
            && Eval(world, Block(name, Two(Block(name, One(leave)), CallOf(f))), env, history)
               == Eval(world, CallOf(f), env, history)
  {
    var leave := ReturnFrom(name, Literal(v));
    var gone := Result(Return(ToBlock(name), [v]), env, history);
    assert Eval(world, leave, env, history) == gone;
    UnfoldTwo(world, leave, CallOf(f), env, history);
    Unfold(world, leave, env, history);
    assert Eval(world, Block(other, One(leave)), env, history) == gone;
    UnfoldTwo(world, Block(other, One(leave)), CallOf(f), env, history);
    assert Eval(world, Block(name, One(leave)), env, history) == Just(v, env, history);
    UnfoldTwo(world, Block(name, One(leave)), CallOf(f), env, history);
    CallMeans(world, f, env, history);
  }

  /** The first form's values are those of a multiple-value-prog1, and the other
      forms are evaluated after it. */
  lemma Prog1Keeps(world: World, f: Name, g: Name, env: Env, history: seq<Event>)
    ensures var h1 := AfterCall(history, f);
            Eval(world, MultipleValueProg1(CallOf(f), One(CallOf(g))), env, history)
            == Result(Values(world.answer(h1)), env, AfterCall(h1, g))
  {
    var h1 := AfterCall(history, f);
    CallMeans(world, f, env, history);
    CallMeans(world, g, env, h1);
    Unfold(world, CallOf(g), env, h1);
  }

  /** A go forward skips the statements up to its tag; a tagbody returns nil. */
  lemma GoForward(world: World, tag: Name, f: Name, g: Name, env: Env, history: seq<Event>)
    requires world.jumps > 0
    ensures var statements := Statement(Go(tag), Statement(CallOf(f), Tag(tag, Statement(CallOf(g), Ended))));
            Eval(world, Tagbody(statements), env, history) == Just(Nil, env, AfterCall(history, g))
  {
    var last := Statement(CallOf(g), Ended);
    var statements := Statement(Go(tag), Statement(CallOf(f), Tag(tag, last)));
    CallMeans(world, g, env, history);
    var h := AfterCall(history, g);
    assert TagsOf(statements) == [tag]
        by { assert TagsOf(last) == [] && TagsOf(Tag(tag, last)) == [tag] + TagsOf(last); }
    assert EvalStatements(world, Ended, None, env, h) == Just(Nil, env, h);
    assert EvalStatements(world, last, None, env, history) == Just(Nil, env, h);
    assert EvalStatements(world, Tag(tag, last), Some(tag), env, history) == Just(Nil, env, h);
    assert EvalStatements(world, statements, Some(tag), env, history) == Just(Nil, env, h);
    hide EvalStatements;
    assert EvalLoop(world, statements, Some(tag), env, history, world.jumps - 1) == Just(Nil, env, h);
    GoFirst(world, tag, statements.rest, env, history);
  }

  // A tagbody that starts with a go to one of its tags.
  lemma GoFirst(world: World, tag: Name, rest: Statements, env: Env, history: seq<Event>)
    requires tag in TagsOf(rest) && world.jumps > 0
    ensures Eval(world, Tagbody(Statement(Go(tag), rest)), env, history)
            == EvalLoop(world, Statement(Go(tag), rest), Some(tag), env, history, world.jumps - 1)
  {
    var statements := Statement(Go(tag), rest);
    assert TagsOf(statements) == TagsOf(rest);
    assert EvalStatements(world, statements, None, env, history) == Result(Return(ToTag(tag), []), env, history);
  }

  /** A go backward repeats the statements from its tag on. */
  lemma GoBackward(world: World, tag: Name, f: Name, env: Env, history: seq<Event>, jumps: nat)
    requires jumps > 0
    ensures var statements := Tag(tag, Statement(CallOf(f), Statement(Go(tag), Ended)));
            EvalLoop(world, statements, None, env, history, jumps)
            == EvalLoop(world, statements, Some(tag), env, AfterCall(history, f), jumps - 1)
  {
    var back := Statement(Go(tag), Ended);
    var statements := Tag(tag, Statement(CallOf(f), back));
    CallMeans(world, f, env, history);
    var h := AfterCall(history, f);
    assert EvalStatements(world, back, None, env, h) == Result(Return(ToTag(tag), []), env, h);
    assert EvalStatements(world, Statement(CallOf(f), back), None, env, history)
        == Result(Return(ToTag(tag), []), env, h);
    assert TagsOf(statements) == [tag] + TagsOf(Statement(CallOf(f), back));
  }
}
