/** The compile_* functions of the bytecode compiler: what they emit for a form
    in a lexical environment, in a context that receives 0, 1 or all values. */
module Compiler {
  import opened Options
  import opened Instructions
  import opened Source

  // The number of values a context receives; -1 stands for all of them.
  type Receiving = x: int | x == 0 || x == 1 || x == -1

  datatype Constant = ConstantInfo(value: Value) | FunctionCellInfo(fname: Name)

  // What compilation has accumulated: the module's literals, the labels made and
  // the registers the function needs.
  datatype Gen = Gen(literals: seq<Constant>, labels: nat, nlocals: nat) {
    function Needing(n: nat): Gen { this.(nlocals := if nlocals < n then n else nlocals) }
  }

  predicate Grows(g: Gen, g': Gen) {
    g.literals <= g'.literals && g.labels <= g'.labels && g.nlocals <= g'.nlocals
  }

  // A lexical environment, innermost entry first. Each entry has a register; the
  // tags of a tagbody share one, and their labels follow each other. The null
  // environment says whether its function may have loops, which changes no code.
  datatype Scope =
    | Null(loops: bool)
    | Var(name: Name, outer: Scope)
    | Blk(name: Name, exit: nat, receiving: Receiving, outer: Scope)
    | Tags(tags: seq<Name>, labels: nat, outer: Scope)
  {
    function FrameEnd(): nat { if Null? then 0 else outer.FrameEnd() + 1 }

    // A transfer of control to this destination ends at this entry.
    predicate Catches(to: Destination) {
      (Blk? && to == ToBlock(name)) || (Tags? && to.ToTag? && to.tag in tags)
    }
  }

  function TagIndex(tags: seq<Name>, tag: Name): (i: nat)
    requires tag in tags
    ensures i < |tags| && tags[i] == tag
  {
    if tags[0] == tag then 0 else 1 + TagIndex(tags[1..], tag)
  }

  // A BlockInfo_O, or the TagInfo_O of a tag, whose tagbody receives nothing.
  datatype BlockInfo = BlockInfo(index: nat, exit: nat, receiving: Receiving)

  function Lex(index: nat): Lexical { Lexical(index, false, false) }

  // Lexenv_O::variableInfo
  function FindVar(scope: Scope, name: Name): (index: Option<nat>)
    ensures index.Some? ==> index.value < scope.FrameEnd()
    ensures index.Some? <==> name in Vars(scope)
  {
    match scope
    case Null(_) => None
    case Var(n, outer) => if n == name then Some(outer.FrameEnd()) else FindVar(outer, name)
    case Blk(_, _, _, outer) => FindVar(outer, name)
    case Tags(_, _, outer) => FindVar(outer, name)
  }

  // Lexenv_O::blockInfo and Lexenv_O::tagInfo
  function FindExit(scope: Scope, to: Destination): (info: Option<BlockInfo>)
    ensures info.Some? ==> info.value.index < scope.FrameEnd()
    ensures info.Some? <==> to in Exits(scope) && to != Nowhere
  {
    match scope
    case Null(_) => None
    case Var(_, outer) => FindExit(outer, to)
    case Blk(_, exit, receiving, outer) =>
      if scope.Catches(to) then Some(BlockInfo(outer.FrameEnd(), exit, receiving)) else FindExit(outer, to)
    case Tags(tags, labels, outer) =>
      if scope.Catches(to) then Some(BlockInfo(outer.FrameEnd(), labels + TagIndex(tags, to.tag), 0))
      else FindExit(outer, to)
  }

  function LabelOf(scope: Scope, tag: Name): nat {
    var info := FindExit(scope, ToTag(tag));
    if info.Some? then info.value.exit else 0
  }

  // The tags have labels of their own, all made before.
  ghost predicate Separate(scope: Scope, tags: seq<Name>, labels: nat) {
    && (forall a, b :: a in tags && b in tags && a != b ==> LabelOf(scope, a) != LabelOf(scope, b))
    && (forall a :: a in tags ==> LabelOf(scope, a) < labels)
  }

  // Context::literal_index and fcell_index
  function LiteralIndex(literals: seq<Constant>, c: Constant): (i: nat)
    ensures i <= |literals|
    ensures i < |literals| ==> literals[i] == c
    ensures c !in literals[..i]
  {
    if literals == [] then 0
    else if literals[0] == c then 0
    else 1 + LiteralIndex(literals[1..], c)
  }

  function WithLiteral(g: Gen, c: Constant): (g': Gen)
    ensures Grows(g, g')
    ensures LiteralIndex(g.literals, c) < |g'.literals| && g'.literals[LiteralIndex(g.literals, c)] == c
  {
    if LiteralIndex(g.literals, c) < |g.literals| then g else g.(literals := g.literals + [c])
  }

  function Vars(scope: Scope): set<Name> {
    match scope
    case Null(_) => {}
    case Var(n, outer) => {n} + Vars(outer)
    case Blk(_, _, _, outer) => Vars(outer)
    case Tags(_, _, outer) => Vars(outer)
  }

  function ToTags(tags: seq<Name>): set<Destination> { set tag | tag in tags :: ToTag(tag) }

  // Where control may be transferred to; nowhere only by a function that may have loops.
  function Exits(scope: Scope): set<Destination> {
    match scope
    case Null(loops) => if loops then {Nowhere} else {}
    case Var(_, outer) => Exits(outer)
    case Blk(n, _, _, outer) => {ToBlock(n)} + Exits(outer)
    case Tags(tags, _, outer) => ToTags(tags) + Exits(outer)
  }

  // bind1var for each binding of a let.
  function BindAll(scope: Scope, bindings: Bindings): (scope': Scope)
    ensures scope'.FrameEnd() == scope.FrameEnd() + Count(bindings)
    ensures Vars(scope') == Names(bindings, Vars(scope)) && Exits(scope') == Exits(scope)
    decreases bindings
  {
    match bindings
    case NoMore => scope
    case Binding(name, _, rest) => BindAll(Var(name, scope), rest)
  }

  function Names(bindings: Bindings, vars: set<Name>): set<Name>
    decreases bindings
  {
    match bindings
    case NoMore => vars
    case Binding(name, _, rest) => Names(rest, {name} + vars)
  }

  // The forms this model covers: every variable is lexical, every return-from is
  // inside its block and every go inside its tagbody, whose tags are distinct.
  predicate Scoped(form: Form, vars: set<Name>, exits: set<Destination>)
    decreases form
  {
    match form
    case Literal(_) => true
    case Variable(name) => name in vars
    case Progn(body) => ScopedForms(body, vars, exits)
    case Let(bindings, body) =>
      ScopedInits(bindings, vars, exits) && ScopedForms(body, Names(bindings, vars), exits)
    case LetStar(clauses) => ScopedClauses(clauses, vars, exits)
    case Setq(pairs) => ScopedPairs(pairs, vars, exits)
    case If(cond, thn, els) =>
      Scoped(cond, vars, exits) && Scoped(thn, vars, exits) && Scoped(els, vars, exits)
    case Block(name, body) => ScopedForms(body, vars, {ToBlock(name)} + exits)
    case ReturnFrom(name, result) => ToBlock(name) in exits && Scoped(result, vars, exits)
    case Tagbody(statements) =>
      var tags := TagsOf(statements);
      (tags != [] ==> Nowhere in exits) && ScopedStatements(statements, vars, ToTags(tags) + exits)
    case Go(tag) => ToTag(tag) in exits
    case MultipleValueProg1(first, body) => Scoped(first, vars, exits) && ScopedForms(body, vars, exits)
    case Call(_, args) => ScopedForms(args, vars, exits)
  }

  predicate ScopedForms(forms: Forms, vars: set<Name>, exits: set<Destination>)
    decreases forms
  {
    forms.More? ==> Scoped(forms.first, vars, exits) && ScopedForms(forms.rest, vars, exits)
  }

  predicate ScopedInits(bindings: Bindings, vars: set<Name>, exits: set<Destination>)
    decreases bindings
  {
    bindings.Binding? ==> Scoped(bindings.init, vars, exits) && ScopedInits(bindings.rest, vars, exits)
  }

  predicate ScopedPairs(pairs: Bindings, vars: set<Name>, exits: set<Destination>)
    decreases pairs
  {
    pairs.Binding? ==>
      pairs.name in vars && Scoped(pairs.init, vars, exits) && ScopedPairs(pairs.rest, vars, exits)
  }

  predicate ScopedClauses(clauses: Clauses, vars: set<Name>, exits: set<Destination>)
    decreases clauses
  {
    match clauses
    case In(body) => ScopedForms(body, vars, exits)
    case Clause(name, init, rest) => Scoped(init, vars, exits) && ScopedClauses(rest, {name} + vars, exits)
  }

  predicate ScopedStatements(statements: Statements, vars: set<Name>, exits: set<Destination>)
    decreases statements
  {
    match statements
    case Ended => true
    case Tag(name, rest) => ToTag(name) in exits && name !in TagsOf(rest) && ScopedStatements(rest, vars, exits)
    case Statement(form, rest) => Scoped(form, vars, exits) && ScopedStatements(rest, vars, exits)
  }

  datatype Output = Output(code: seq<Item>, gen: Gen)

  function Op(opcode: Byte): Item { Ins(I0(opcode)) }

  function Op1(opcode: Byte, a: nat): Item { Ins(I1(opcode, a)) }

  // The vm_pop that ends a form whose one value is wanted as all values.
  function PopIfAll(r: Receiving): seq<Item> { if r == -1 then [Op(VM_POP)] else [] }

  function Jump(id: nat): Item { Control(id, VM_JUMP_8, VM_JUMP_16, VM_JUMP_24) }

  function JumpIf(id: nat): Item { Control(id, VM_JUMP_IF_8, VM_JUMP_IF_16, VM_JUMP_IF_24) }

  // Context::emit_bind
  function EmitBind(count: nat, offset: nat): seq<Item> {
    if count == 0 then []
    else if count == 1 then [Op1(VM_SET, offset)]
    else [Ins(I2(VM_BIND, count, offset))]
  }

  // Context::emit_call
  function EmitCall(nargs: nat, r: Receiving): Item {
    if r == 1 then Op1(VM_CALL_RECEIVE_ONE, nargs)
    else if r == -1 then Op1(VM_CALL, nargs)
    else Ins(I2(VM_CALL_RECEIVE_FIXED, nargs, 0))
  }

  // compile_literal
  function CompileLiteral(value: Value, r: Receiving, g: Gen): (o: Output)
    ensures Grows(g, o.gen)
  {
    if r == 0 then Output([], g)
    else if value == Nil then Output([Op(VM_NIL)] + PopIfAll(r), g)
    else
      var c := ConstantInfo(value);
      Output([Op1(VM_CONST, LiteralIndex(g.literals, c))] + PopIfAll(r), WithLiteral(g, c))
  }

  // The dynamic environments between a form and its destination, unwound by compile_exit.
  function Unwind(scope: Scope, to: Destination): seq<Item> {
    match scope
    case Null(_) => []
    case Var(_, outer) => Unwind(outer, to)
    case _ =>
      if scope.Catches(to) then [] else [EntryClose(Lex(scope.outer.FrameEnd()))] + Unwind(scope.outer, to)
  }

  // What compile_exit emits after the unwinding.
  function Leaving(info: BlockInfo): (code: seq<Item>)
    ensures |code| == 2
  {
    [RestoreSp(Lex(info.index)), Exit(info.exit, Lex(info.index))]
  }

  // compile_form
  function Compile(form: Form, scope: Scope, r: Receiving, g: Gen): (o: Output)
    requires Scoped(form, Vars(scope), Exits(scope))
    ensures Grows(g, o.gen)
    decreases form, 1
  {
    match form
    case Literal(value) => CompileLiteral(value, r, g)
    case Variable(name) =>
      if r == 0 then Output([], g)
      else
        var index := FindVar(scope, name).value;
        Output([Op1(VM_REF, index), LexRef(Lex(index), VM_CELL_REF)] + PopIfAll(r), g)
    case Progn(body) => CompileProgn(body, scope, r, g)
    case Let(bindings, body) =>
      var i := CompileInits(bindings, scope, scope, g);
      var b := CompileProgn(body, BindAll(scope, bindings), r, i.gen);
      Output(i.code + EmitBind(Count(bindings), scope.FrameEnd()) + b.code, b.gen)
    case LetStar(clauses) => CompileClauses(clauses, scope, r, g)
    case Setq(pairs) => CompileSetq(pairs, scope, r, g)
    case If(cond, thn, els) => CompileIf(form, scope, r, g)
    case Block(name, body) => CompileBlock(form, scope, r, g)
    case ReturnFrom(name, result) =>
      var info := FindExit(scope, ToBlock(name)).value;
      var c := Compile(result, scope, if info.receiving == 0 then 0 else -1, g);
      Output(c.code + Unwind(scope, ToBlock(name)) + Leaving(info), c.gen)
    case Tagbody(statements) => CompileTagbody(form, scope, r, g)
    case Go(tag) => Output(Unwind(scope, ToTag(tag)) + Leaving(FindExit(scope, ToTag(tag)).value), g)
    case MultipleValueProg1(first, body) => CompileProg1(form, scope, r, g)
    case Call(name, args) =>
      var c := FunctionCellInfo(name);
      var a := CompileArgs(args, scope, WithLiteral(g, c));
      Output([Op1(VM_CALLED_FDEFINITION, LiteralIndex(g.literals, c))] + a.code + [EmitCall(Length(args), r)], a.gen)
  }

  // compile_if
  function CompileIf(form: Form, scope: Scope, r: Receiving, g: Gen): (o: Output)
    requires form.If? && Scoped(form, Vars(scope), Exits(scope))
    ensures Grows(g, o.gen)
    decreases form, 0
  {
    var c := Compile(form.cond, scope, 1, g);
    var thenLabel, doneLabel := c.gen.labels, c.gen.labels + 1;
    var e := Compile(form.els, scope, r, c.gen.(labels := c.gen.labels + 2));
    var t := Compile(form.thn, scope, r, e.gen);
    Output(c.code + [JumpIf(thenLabel)] + e.code + [Jump(doneLabel), Mark(thenLabel)] + t.code + [Mark(doneLabel)],
           t.gen)
  }

  // What compile_block emits after the body.
  function Landing(r: Receiving, exit: nat, normal: nat): seq<Item> {
    if r == 1 then [Jump(normal), Mark(exit), Op(VM_PUSH), Mark(normal)] else [Mark(exit)]
  }

  // compile_block
  function CompileBlock(form: Form, scope: Scope, r: Receiving, g: Gen): (o: Output)
    requires form.Block? && Scoped(form, Vars(scope), Exits(scope))
    ensures Grows(g, o.gen) && scope.FrameEnd() < o.gen.nlocals
    decreases form, 0
  {
    var exit, normal := g.labels, g.labels + 1;
    var lex := Lex(scope.FrameEnd());
    var b := CompileProgn(form.body, Blk(form.name, exit, r, scope), r,
                          g.Needing(scope.FrameEnd() + 1).(labels := g.labels + 2));
    Output([Entry(lex)] + b.code + Landing(r, exit, normal) + [EntryClose(lex)], b.gen)
  }

  // Lexenv_O::bind_tags
  function BindTags(scope: Scope, tags: seq<Name>, labels: nat): (scope': Scope)
    ensures Vars(scope') == Vars(scope) && Exits(scope') == ToTags(tags) + Exits(scope)
  {
    if tags == [] then scope else Tags(tags, labels, scope)
  }

  // What compile_tagbody has used before the statements, if there are tags.
  function TagbodyGen(scope: Scope, tags: seq<Name>, g: Gen): (g': Gen)
    ensures Grows(g, g') && (tags != [] ==> scope.FrameEnd() < g'.nlocals)
  {
    if tags == [] then g else g.Needing(scope.FrameEnd() + 1).(labels := g.labels + |tags|)
  }

  // compile_tagbody
  function CompileTagbody(form: Form, scope: Scope, r: Receiving, g: Gen): (o: Output)
    requires form.Tagbody? && Scoped(form, Vars(scope), Exits(scope))
    ensures Grows(g, o.gen)
    decreases form, 0
  {
    var tags, lex := TagsOf(form.statements), Lex(scope.FrameEnd());
    var b := CompileStatements(form.statements, BindTags(scope, tags, g.labels), TagbodyGen(scope, tags, g));
    var n := CompileLiteral(Nil, r, b.gen);
    Output((if tags == [] then b.code else [Entry(lex)] + b.code + [EntryClose(lex)]) + n.code, n.gen)
  }

  // The statements of a tagbody, each tag's label at its place.
  function CompileStatements(statements: Statements, scope: Scope, g: Gen): (o: Output)
    requires ScopedStatements(statements, Vars(scope), Exits(scope))
    ensures Grows(g, o.gen)
    decreases statements, 1
  {
    match statements
    case Ended => Output([], g)
    case Tag(name, rest) =>
      var b := CompileStatements(rest, scope, g);
      Output([Mark(FindExit(scope, ToTag(name)).value.exit)] + b.code, b.gen)
    case Statement(form, rest) =>
      var f := Compile(form, scope, 0, g);
      var b := CompileStatements(rest, scope, f.gen);
      Output(f.code + b.code, b.gen)
  }

  // compile_multiple_value_prog1
  function CompileProg1(form: Form, scope: Scope, r: Receiving, g: Gen): (o: Output)
    requires form.MultipleValueProg1? && Scoped(form, Vars(scope), Exits(scope))
    ensures Grows(g, o.gen)
    decreases form, 0
  {
    var f := Compile(form.first, scope, r, g);
    var b := CompileEffects(form.body, scope, f.gen);
    if r == -1 then Output(f.code + [Op(VM_PUSH_VALUES)] + b.code + [Op(VM_POP_VALUES)], b.gen)
    else Output(f.code + b.code, b.gen)
  }

  // compile_progn
  function CompileProgn(forms: Forms, scope: Scope, r: Receiving, g: Gen): (o: Output)
    requires ScopedForms(forms, Vars(scope), Exits(scope))
    ensures Grows(g, o.gen)
    decreases forms, 1
  {
    match forms
    case Done => CompileLiteral(Nil, r, g)
    case More(first, rest) =>
      if rest.Done? then Compile(first, scope, r, g)
      else
        var f := Compile(first, scope, 0, g);
        var b := CompileProgn(rest, scope, r, f.gen);
        Output(f.code + b.code, b.gen)
  }

  // The forms of a multiple-value-prog1 after the first.
  function CompileEffects(forms: Forms, scope: Scope, g: Gen): (o: Output)
    requires ScopedForms(forms, Vars(scope), Exits(scope))
    ensures Grows(g, o.gen)
    decreases forms, 1
  {
    match forms
    case Done => Output([], g)
    case More(first, rest) =>
      var f := Compile(first, scope, 0, g);
      var b := CompileEffects(rest, scope, f.gen);
      Output(f.code + b.code, b.gen)
  }

  // The arguments of compile_call.
  function CompileArgs(forms: Forms, scope: Scope, g: Gen): (o: Output)
    requires ScopedForms(forms, Vars(scope), Exits(scope))
    ensures Grows(g, o.gen)
    decreases forms, 1
  {
    match forms
    case Done => Output([], g)
    case More(first, rest) =>
      var f := Compile(first, scope, 1, g);
      var b := CompileArgs(rest, scope, f.gen);
      Output(f.code + b.code, b.gen)
  }

  // The loop of compile_let: post is post_binding_env.
  function CompileInits(bindings: Bindings, scope: Scope, post: Scope, g: Gen): (o: Output)
    requires ScopedInits(bindings, Vars(scope), Exits(scope))
    ensures Grows(g, o.gen)
    ensures bindings.Binding? ==> post.FrameEnd() + Count(bindings) <= o.gen.nlocals
    decreases bindings, 1
  {
    match bindings
    case NoMore => Output([], g)
    case Binding(name, init, rest) =>
      var f := Compile(init, scope, 1, g);
      var b := CompileInits(rest, scope, Var(name, post), f.gen.Needing(post.FrameEnd() + 1));
      Output(f.code + [LexRef(Lex(post.FrameEnd()), VM_MAKE_CELL)] + b.code, b.gen)
  }

  // compile_letSTAR
  function CompileClauses(clauses: Clauses, scope: Scope, r: Receiving, g: Gen): (o: Output)
    requires ScopedClauses(clauses, Vars(scope), Exits(scope))
    ensures Grows(g, o.gen)
    decreases clauses, 1
  {
    match clauses
    case In(body) => CompileProgn(body, scope, r, g)
    case Clause(name, init, rest) =>
      var f := Compile(init, scope, 1, g);
      var index := scope.FrameEnd();
      var b := CompileClauses(rest, Var(name, scope), r, f.gen.Needing(index + 1));
      Output(f.code + [LexRef(Lex(index), VM_MAKE_CELL), Op1(VM_SET, index)] + b.code, b.gen)
  }

  // compile_setq_1 after the value has been computed.
  function Assigning(scope: Scope, name: Name, r: Receiving): seq<Item>
    requires name in Vars(scope)
  {
    (if r != 0 then [Op(VM_DUP)] else []) + ([LexSet(Lex(FindVar(scope, name).value))] + PopIfAll(r))
  }

  // compile_setq and compile_setq_1
  function CompileSetq(pairs: Bindings, scope: Scope, r: Receiving, g: Gen): (o: Output)
    requires ScopedPairs(pairs, Vars(scope), Exits(scope))
    ensures Grows(g, o.gen)
    decreases pairs, 1
  {
    match pairs
    case NoMore => Output(if r == 0 then [] else [Op(VM_NIL)] + PopIfAll(r), g)
    case Binding(name, init, rest) =>
      var r1: Receiving := if rest.NoMore? then r else 0;
      var f := Compile(init, scope, 1, g);
      var one := f.code + (if r1 != 0 then [Op(VM_DUP)] else [])
                 + [LexSet(Lex(FindVar(scope, name).value))] + PopIfAll(r1);
      if rest.NoMore? then Output(one, f.gen)
      else
        var b := CompileSetq(rest, scope, r, f.gen);
        Output(one + b.code, b.gen)
  }

  // bind_vars for required parameters.
  function Parameters(params: seq<Name>, loops: bool): (scope: Scope)
    ensures scope.FrameEnd() == |params| && Exits(scope) == Exits(Null(loops))
    ensures Vars(scope) == set name | name in params
  {
    if params == [] then Null(loops) else Var(params[|params| - 1], Parameters(params[..|params| - 1], loops))
  }

  function Encages(n: nat): (code: seq<Item>)
    ensures |code| == n
    ensures forall i :: 0 <= i < n ==> code[i] == Encage(Lex(i))
  {
    if n == 0 then [] else Encages(n - 1) + [Encage(Lex(n - 1))]
  }

  // The check that a call has n arguments.
  function ArgumentCheck(n: nat): Instruction {
    if n == 0 then I1(VM_CHECK_ARG_COUNT_LE, 0) else I1(VM_CHECK_ARG_COUNT_EQ, n)
  }

  // What a function with n required parameters does before its body.
  function Prologue(n: nat): seq<Item> {
    if n == 0 then [Ins(ArgumentCheck(0))]
    else [Ins(ArgumentCheck(n)), Op1(VM_BIND_REQUIRED_ARGS, n)] + Encages(n)
  }

  // A function that this model covers, with or without loops.
  predicate Covered(params: seq<Name>, body: Forms, loops: bool) {
    ScopedForms(body, (set name | name in params), Exits(Null(loops)))
  }

  // compile_lambda and compile_with_lambda_list for required parameters. The
  // first label is the function's entry point.
  function CompileLambda(params: seq<Name>, body: Forms, loops: bool, literals: seq<Constant>, labels: nat)
    : (o: Output)
    requires Covered(params, body, loops)
    ensures literals <= o.gen.literals && labels < o.gen.labels && |params| <= o.gen.nlocals
  {
    var b := CompileProgn(body, Parameters(params, loops), -1, Gen(literals, labels + 1, |params|));
    Output([Mark(labels)] + Prologue(|params|) + b.code + [Op(VM_RETURN)], b.gen)
  }
}
