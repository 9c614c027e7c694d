/** The compiler as it runs: methods that emit into a function of a module, look
    literals up in the module's table and count the registers needed. */
module BytecodeCompiler {
  import opened Options
  import opened Instructions
  import opened Linker
  import opened Source
  import opened Compiler

  predicate WithinLimits(code: seq<Item>) {
    forall i :: 0 <= i < |code| ==> Emittable(code[i])
  }

  lemma EmittableParts(a: seq<Item>, b: seq<Item>)
    ensures WithinLimits(a + b) <==> WithinLimits(a) && WithinLimits(b)
  {
    hide Emittable;
    if WithinLimits(a + b) {
      assert forall i :: 0 <= i < |a| ==> (a + b)[i] == a[i];
      assert forall i :: 0 <= i < |b| ==> (a + b)[|a| + i] == b[i];
    }
  }

  // What the rest of the world sees of a compilation: the items of each
  // function, the labels placed, and the literals, labels and registers used.
  datatype Snapshot = Snapshot(parts: seq<seq<Item>>, placed: set<nat>, gen: Gen)

  // From one snapshot to another, exactly the output's code has been emitted into function f.
  ghost predicate Emits(a: Snapshot, b: Snapshot, f: nat, o: Output) {
    && f < |a.parts| && b.parts == a.parts[f := a.parts[f] + o.code]
    && b.gen == o.gen && WithinLimits(o.code) && a.gen.labels <= b.gen.labels
    && forall id :: id in b.placed && id < a.gen.labels ==> id in a.placed
  }

  lemma EmitsThen(a: Snapshot, b: Snapshot, c: Snapshot, f: nat, o1: Output, o2: Output)
    requires Emits(a, b, f, o1) && Emits(b, c, f, o2)
    ensures Emits(a, c, f, Output(o1.code + o2.code, o2.gen))
  {
    EmittableParts(o1.code, o2.code);
    hide WithinLimits;
    assert a.parts[f] + o1.code + o2.code == a.parts[f] + (o1.code + o2.code);
  }

  lemma EmitsNothing(a: Snapshot, f: nat)
    requires f < |a.parts|
    ensures Emits(a, a, f, Output([], a.gen))
  {
    assert a.parts[f] + [] == a.parts[f];
  }

  // A label made since the first snapshot is placed.
  lemma EmitsMark(a: Snapshot, b: Snapshot, c: Snapshot, f: nat, o: Output, id: nat)
    requires Emits(a, b, f, o) && a.gen.labels <= id && f < |b.parts|
    requires c == Snapshot(b.parts[f := b.parts[f] + [Mark(id)]], b.placed + {id}, b.gen)
    ensures Emits(a, c, f, Output(o.code + [Mark(id)], o.gen))
  {
    MarkIsEmittable(id);
    EmittableParts(o.code, [Mark(id)]);
    hide WithinLimits;
    assert a.parts[f] + o.code + [Mark(id)] == a.parts[f] + (o.code + [Mark(id)]);
  }

  lemma MarkIsEmittable(id: nat)
    ensures WithinLimits([Mark(id)])
  {
  }

  // The generator advances without code.
  lemma EmitsLater(a: Snapshot, b: Snapshot, f: nat, o: Output, c: Snapshot)
    requires Emits(a, b, f, o) && c.parts == b.parts && c.placed == b.placed && b.gen.labels <= c.gen.labels
    ensures Emits(a, c, f, Output(o.code, c.gen))
  {
  }

  lemma EmitsFrom(a: Snapshot, a': Snapshot, b: Snapshot, f: nat, o: Output)
    requires Emits(a', b, f, o) && a'.parts == a.parts && a'.placed == a.placed && a.gen.labels <= a'.gen.labels
    ensures Emits(a, b, f, o)
  {
  }

  class Compilation {
    const m: Module
    const f: nat                  // the function that is being compiled
    var literals: seq<Constant>
    var nlocals: nat

    ghost predicate Valid()
      reads this, m
    {
      m.Valid() && f < |m.cfunctions|
    }

    ghost function Now(): Snapshot
      reads this, m
    {
      Snapshot(m.parts, m.labels.Keys, Gen(literals, m.nextLabel, nlocals))
    }

    constructor (m: Module, f: nat, literals: seq<Constant>)
      requires m.Valid() && f < |m.cfunctions|
      ensures Valid() && this.m == m && this.f == f
                && Now() == Snapshot(m.parts, m.labels.Keys, Gen(literals, m.nextLabel, 0))
    {
      this.m, this.f, this.literals, this.nlocals := m, f, literals, 0;
    }

    // One instruction, label or fixup.
    method Emit(item: Item) returns (ok: bool)
      requires Valid() && (item.Mark? ==> item.id !in m.labels && item.id < m.nextLabel)
      modifies m`cfunctions, m`parts, m`labels
      ensures Valid()
      ensures ok == WithinLimits([item])
      ensures f < |old(Now()).parts|
      ensures ok ==> Now() == Snapshot(old(Now()).parts[f := old(Now()).parts[f] + [item]],
                                       old(Now()).placed + (if item.Mark? then {item.id} else {}), old(Now()).gen)
      ensures ok ==> m.labels.Keys == old(m.labels.Keys) + if item.Mark? then {item.id} else {}
      ensures ok && !item.Mark? ==> Emits(old(Now()), Now(), f, Output([item], old(Now()).gen))
    {
      assert |m.parts| == |m.cfunctions|;
      assert WithinLimits([item]) <==> Emittable([item][0]);
      if item.Ins? {
        ok := m.Assemble(f, item.ins);
      } else {
        ok := Emittable(item);
        if ok { m.Contextualize(f, item); }
      }
    }

    // Context::literal_index and fcell_index
    method FindLiteral(c: Constant) returns (index: nat)
      requires Valid()
      modifies `literals
      ensures Valid() && index == LiteralIndex(old(Now()).gen.literals, c)
      ensures Now() == old(Now()).(gen := WithLiteral(old(Now()).gen, c))
    {
      index := 0;
      while index < |literals|
        invariant 0 <= index <= |literals|
        invariant index + LiteralIndex(literals[index..], c) == LiteralIndex(literals, c)
      {
        if literals[index] == c { return; }
        index := index + 1;
      }
      literals := literals + [c];
    }

    // setNlocals
    method Need(n: nat)
      requires Valid()
      modifies `nlocals
      ensures Valid() && Now() == old(Now()).(gen := old(Now()).gen.Needing(n))
    {
      if nlocals < n { nlocals := n; }
    }

    // The vm_pop that turns one value into all values.
    method EmitPopIfAll(r: Receiving)
      requires Valid()
      modifies m`cfunctions, m`parts, m`labels
      ensures Valid() && WithinLimits(PopIfAll(r)) && Emits(old(Now()), Now(), f, Output(PopIfAll(r), old(Now()).gen))
    {
      if r == -1 {
        var ok := Emit(Op(VM_POP));
      } else {
        EmitsNothing(Now(), f);
      }
    }

    // compile_literal
    method CompileLiteral(value: Value, r: Receiving) returns (ok: bool)
      requires Valid()
      modifies `literals, m`cfunctions, m`parts, m`labels
      ensures Valid()
      ensures ok == WithinLimits(Compiler.CompileLiteral(value, r, old(Now()).gen).code)
      ensures ok ==> Emits(old(Now()), Now(), f, Compiler.CompileLiteral(value, r, old(Now()).gen))
    {
      ghost var s0 := Now();
      if r == 0 {
        EmitsNothing(s0, f);
        return true;
      }
      var push: Item;
      if value == Nil {
        push := Op(VM_NIL);
      } else {
        var index := FindLiteral(ConstantInfo(value));
        push := Op1(VM_CONST, index);
      }
      ghost var s1 := Now();
      hide Emits, WithinLimits, PopIfAll, LiteralIndex, Emittable;
      EmittableParts([push], PopIfAll(r));
      ok := Emit(push);
      if ok {
        EmitsFrom(s0, s1, Now(), f, Output([push], s1.gen));
        ghost var s2 := Now();
        EmitPopIfAll(r);
        EmitsThen(s0, s2, Now(), f, Output([push], s1.gen), Output(PopIfAll(r), s1.gen));
      } else {
        assert !WithinLimits([push] + PopIfAll(r));
      }
    }

    // compile_symbol for a lexical variable
    method CompileVariable(name: Name, scope: Scope, r: Receiving) returns (ok: bool)
      requires Valid() && name in Vars(scope)
      modifies m`cfunctions, m`parts, m`labels
      ensures Valid()
      ensures ok == WithinLimits(Compiler.Compile(Variable(name), scope, r, old(Now()).gen).code)
      ensures ok ==> Emits(old(Now()), Now(), f, Compiler.Compile(Variable(name), scope, r, old(Now()).gen))
    {
      ghost var s0 := Now();
      if r == 0 {
        EmitsNothing(s0, f);
        return true;
      }
      var index := FindVar(scope, name).value;
      var ref, cellRef := Op1(VM_REF, index), LexRef(Lex(index), VM_CELL_REF);
      ghost var code := [ref, cellRef] + PopIfAll(r);
      assert Compiler.Compile(Variable(name), scope, r, s0.gen) == Output(code, s0.gen);
      hide Emits, WithinLimits, PopIfAll, FindVar, Emittable, Compile;
      assert code == [ref] + ([cellRef] + PopIfAll(r));
      EmittableParts([ref], [cellRef] + PopIfAll(r));
      EmittableParts([cellRef], PopIfAll(r));
      ok := Emit(ref);
      if ok {
        ghost var s1 := Now();
        ok := Emit(cellRef);
        if ok {
          ghost var s2 := Now();
          EmitPopIfAll(r);
          EmitsThen(s1, s2, Now(), f, Output([cellRef], s0.gen), Output(PopIfAll(r), s0.gen));
          EmitsThen(s0, s1, Now(), f, Output([ref], s0.gen), Output([cellRef] + PopIfAll(r), s0.gen));
        } else {
          PopIsEmittable(r);
        }
      }
    }

    // compile_form
    method CompileForm(form: Form, scope: Scope, r: Receiving) returns (ok: bool)
      requires Valid()
      modifies this, m
      ensures Valid()
      ensures ok == (Scoped(form, Vars(scope), Exits(scope))
                     && WithinLimits(Compiler.Compile(form, scope, r, old(Now()).gen).code))
      ensures ok ==> Emits(old(Now()), Now(), f, Compiler.Compile(form, scope, r, old(Now()).gen))
      decreases form, 1
    {
      hide *;
      Dispatched(form, scope, r, Now().gen);
      match form
      case Literal(value) => ok := CompileLiteral(value, r);
      case Variable(name) =>
        if name !in Vars(scope) { return false; }
        ok := CompileVariable(name, scope, r);
      case Progn(body) => ok := CompileProgn(body, scope, r);
      case Let(_, _) => ok := CompileLet(form, scope, r);
      case LetStar(clauses) => ok := CompileLetStar(clauses, scope, r);
      case Setq(pairs) => ok := CompileSetq(pairs, scope, r);
      case If(_, _, _) => ok := CompileIf(form, scope, r);
      case Block(_, _) => ok := CompileBlock(form, scope, r);
      case ReturnFrom(_, _) => ok := CompileReturnFrom(form, scope, r);
      case Tagbody(_) => ok := CompileTagbody(form, scope, r);
      case Go(_) => ok := CompileGo(form, scope, r);
      case MultipleValueProg1(_, _) => ok := CompileMultipleValueProg1(form, scope, r);
      case Call(_, _) => ok := CompileCall(form, scope, r);
    }

    // compile_progn
    method CompileProgn(forms: Forms, scope: Scope, r: Receiving) returns (ok: bool)
      requires Valid()
      modifies this, m
      ensures Valid()
      ensures ok == (ScopedForms(forms, Vars(scope), Exits(scope))
                     && WithinLimits(Compiler.CompileProgn(forms, scope, r, old(Now()).gen).code))
      ensures ok ==> Emits(old(Now()), Now(), f, Compiler.CompileProgn(forms, scope, r, old(Now()).gen))
      decreases forms, 1
    {
      hide *;
      ghost var s0 := Now();
      PrognCode(forms, scope, r, s0.gen);
      if forms.Done? {
        ok := CompileLiteral(Nil, r);
      } else if forms.rest.Done? {
        ok := CompileForm(forms.first, scope, r);
      } else {
        ok := CompileForm(forms.first, scope, 0);
        if ok {
          ghost var s1 := Now();
          EmitsMeans(s0, s1, f, Compiler.Compile(forms.first, scope, 0, s0.gen));
          ok := CompileProgn(forms.rest, scope, r);
          if ok {
            EmitsThen(s0, s1, Now(), f, Compiler.Compile(forms.first, scope, 0, s0.gen),
                      Compiler.CompileProgn(forms.rest, scope, r, s1.gen));
          }
        }
      }
    }

    // The forms of a multiple-value-prog1 after the first.
    method CompileEffects(forms: Forms, scope: Scope) returns (ok: bool)
      requires Valid()
      modifies this, m
      ensures Valid()
      ensures ok == (ScopedForms(forms, Vars(scope), Exits(scope))
                     && WithinLimits(Compiler.CompileEffects(forms, scope, old(Now()).gen).code))
      ensures ok ==> Emits(old(Now()), Now(), f, Compiler.CompileEffects(forms, scope, old(Now()).gen))
      decreases forms, 1
    {
      hide *;
      ghost var s0 := Now();
      EffectsCode(forms, scope, s0.gen);
      if forms.Done? {
        Nothing();
        ok := true;
      } else {
        ok := CompileForm(forms.first, scope, 0);
        if ok {
          ghost var s1 := Now();
          EmitsMeans(s0, s1, f, Compiler.Compile(forms.first, scope, 0, s0.gen));
          ok := CompileEffects(forms.rest, scope);
          if ok {
            EmitsThen(s0, s1, Now(), f, Compiler.Compile(forms.first, scope, 0, s0.gen),
                      Compiler.CompileEffects(forms.rest, scope, s1.gen));
          }
        }
      }
    }

    // The arguments of compile_call.
    method CompileArgs(forms: Forms, scope: Scope) returns (ok: bool)
      requires Valid()
      modifies this, m
      ensures Valid()
      ensures ok == (ScopedForms(forms, Vars(scope), Exits(scope))
                     && WithinLimits(Compiler.CompileArgs(forms, scope, old(Now()).gen).code))
      ensures ok ==> Emits(old(Now()), Now(), f, Compiler.CompileArgs(forms, scope, old(Now()).gen))
      decreases forms, 1
    {
      hide *;
      ghost var s0 := Now();
      ArgsCode(forms, scope, s0.gen);
      if forms.Done? {
        Nothing();
        ok := true;
      } else {
        ok := CompileForm(forms.first, scope, 1);
        if ok {
          ghost var s1 := Now();
          EmitsMeans(s0, s1, f, Compiler.Compile(forms.first, scope, 1, s0.gen));
          ok := CompileArgs(forms.rest, scope);
          if ok {
            EmitsThen(s0, s1, Now(), f, Compiler.Compile(forms.first, scope, 1, s0.gen),
                      Compiler.CompileArgs(forms.rest, scope, s1.gen));
          }
        }
      }
    }

    lemma Nothing()
      requires Valid()
      ensures Emits(Now(), Now(), f, Output([], Now().gen))
    {
      EmitsNothing(Now(), f);
    }

    // compile_multiple_value_prog1
    method CompileMultipleValueProg1(form: Form, scope: Scope, r: Receiving) returns (ok: bool)
      requires Valid() && form.MultipleValueProg1?
      modifies this, m
      ensures Valid()
      ensures ok == (Scoped(form, Vars(scope), Exits(scope))
                     && WithinLimits(Compiler.Compile(form, scope, r, old(Now()).gen).code))
      ensures ok ==> Emits(old(Now()), Now(), f, Compiler.Compile(form, scope, r, old(Now()).gen))
      decreases form, 0
    {
      hide *;
      ghost var s0 := Now();
      Prog1Code(form, scope, r, s0.gen);
      ok := CompileForm(form.first, scope, r);
      if !ok { return; }
      ghost var s1 := Now();
      ghost var first := Compiler.Compile(form.first, scope, r, s0.gen);
      EmitsMeans(s0, s1, f, first);
      if r == -1 {
        ok := Emit(Op(VM_PUSH_VALUES));
        ghost var s2 := Now();
        EmitsThen(s0, s1, s2, f, first, Output([Op(VM_PUSH_VALUES)], s1.gen));
        ok := CompileEffects(form.body, scope);
        if !ok { return; }
        ghost var s3 := Now();
        ghost var body := Compiler.CompileEffects(form.body, scope, s1.gen);
        EmitsMeans(s2, s3, f, body);
        EmitsThen(s0, s2, s3, f, Output(first.code + [Op(VM_PUSH_VALUES)], s1.gen), body);
        ok := Emit(Op(VM_POP_VALUES));
        EmitsThen(s0, s3, Now(), f, Output(first.code + [Op(VM_PUSH_VALUES)] + body.code, body.gen),
                  Output([Op(VM_POP_VALUES)], body.gen));
      } else {
        ok := CompileEffects(form.body, scope);
        if !ok { return; }
        EmitsThen(s0, s1, Now(), f, first, Compiler.CompileEffects(form.body, scope, s1.gen));
      }
    }

    // compile_called_function for a global function, and compile_call
    method CompileCall(form: Form, scope: Scope, r: Receiving) returns (ok: bool)
      requires Valid() && form.Call?
      modifies this, m
      ensures Valid()
      ensures ok == (Scoped(form, Vars(scope), Exits(scope))
                     && WithinLimits(Compiler.Compile(form, scope, r, old(Now()).gen).code))
      ensures ok ==> Emits(old(Now()), Now(), f, Compiler.Compile(form, scope, r, old(Now()).gen))
      decreases form, 0
    {
      hide *;
      ghost var s0 := Now();
      CallCode(form, scope, r, s0.gen);
      var index := FindLiteral(FunctionCellInfo(form.function_));
      ghost var s1 := Now();
      var cell := Op1(VM_CALLED_FDEFINITION, index);
      ok := Emit(cell);
      if !ok { return; }
      ghost var s2 := Now();
      EmitsFrom(s0, s1, s2, f, Output([cell], s1.gen));
      EmitsMeans(s0, s2, f, Output([cell], s1.gen));
      ok := CompileArgs(form.args, scope);
      if !ok { return; }
      ghost var s3 := Now();
      ghost var args := Compiler.CompileArgs(form.args, scope, s1.gen);
      EmitsMeans(s2, s3, f, args);
      EmitsThen(s0, s2, s3, f, Output([cell], s1.gen), args);
      var call := EmitCall(Length(form.args), r);
      ok := Emit(call);
      if ok { EmitsThen(s0, s3, Now(), f, Output([cell] + args.code, args.gen), Output([call], args.gen)); }
    }

    // The init forms of a let; post is the environment that the bindings make.
    method CompileInits(bindings: Bindings, scope: Scope, post: Scope) returns (ok: bool)
      requires Valid()
      modifies this, m
      ensures Valid()
      ensures ok == (ScopedInits(bindings, Vars(scope), Exits(scope))
                     && WithinLimits(Compiler.CompileInits(bindings, scope, post, old(Now()).gen).code))
      ensures ok ==> Emits(old(Now()), Now(), f, Compiler.CompileInits(bindings, scope, post, old(Now()).gen))
      decreases bindings, 1
    {
      hide *;
      ghost var s0 := Now();
      InitsCode(bindings, scope, post, s0.gen);
      if bindings.NoMore? {
        Nothing();
        return true;
      }
      ok := CompileForm(bindings.init, scope, 1);
      if !ok { return; }
      ghost var s1 := Now();
      ghost var init := Compiler.Compile(bindings.init, scope, 1, s0.gen);
      EmitsMeans(s0, s1, f, init);
      Need(post.FrameEnd() + 1);
      ghost var s2 := Now();
      EmitsLater(s0, s1, f, init, s2);
      var cell := LexRef(Lex(post.FrameEnd()), VM_MAKE_CELL);
      ok := Emit(cell);
      if !ok { return; }
      ghost var s3 := Now();
      EmitsThen(s0, s2, s3, f, Output(init.code, s2.gen), Output([cell], s2.gen));
      EmitsMeans(s0, s3, f, Output(init.code + [cell], s2.gen));
      ok := CompileInits(bindings.rest, scope, Var(bindings.name, post));
      if ok {
        EmitsThen(s0, s3, Now(), f, Output(init.code + [cell], s2.gen),
                  Compiler.CompileInits(bindings.rest, scope, Var(bindings.name, post), s2.gen));
      }
    }

    // compile_let
    method CompileLet(form: Form, scope: Scope, r: Receiving) returns (ok: bool)
      requires Valid() && form.Let?
      modifies this, m
      ensures Valid()
      ensures ok == (Scoped(form, Vars(scope), Exits(scope))
                     && WithinLimits(Compiler.Compile(form, scope, r, old(Now()).gen).code))
      ensures ok ==> Emits(old(Now()), Now(), f, Compiler.Compile(form, scope, r, old(Now()).gen))
      decreases form, 0
    {
      hide *;
      ghost var s0 := Now();
      LetCode(form, scope, r, s0.gen);
      ok := CompileInits(form.bindings, scope, scope);
      if !ok { return; }
      ghost var s1 := Now();
      ghost var inits := Compiler.CompileInits(form.bindings, scope, scope, s0.gen);
      EmitsMeans(s0, s1, f, inits);
      ok := EmitBind(Count(form.bindings), scope.FrameEnd());
      if !ok { return; }
      ghost var s2 := Now();
      ghost var bind := Compiler.EmitBind(Count(form.bindings), scope.FrameEnd());
      EmitsThen(s0, s1, s2, f, inits, Output(bind, s1.gen));
      EmitsMeans(s0, s2, f, Output(inits.code + bind, s1.gen));
      var inner := BindAll(scope, form.bindings);
      ok := CompileProgn(form.body, inner, r);
      if ok {
        EmitsThen(s0, s2, Now(), f, Output(inits.code + bind, s1.gen),
            Compiler.CompileProgn(form.body, inner, r, s1.gen));
      }
    }

    // Context::emit_bind
    method EmitBind(count: nat, offset: nat) returns (ok: bool)
      requires Valid()
      modifies m`cfunctions, m`parts, m`labels
      ensures Valid() && ok == WithinLimits(Compiler.EmitBind(count, offset))
      ensures ok ==> Emits(old(Now()), Now(), f, Output(Compiler.EmitBind(count, offset), old(Now()).gen))
    {
      hide Emits, Emittable;
      if count == 1 {
        ok := Emit(Op1(VM_SET, offset));
      } else if count == 0 {
        Nothing();
        ok := true;
      } else {
        ok := Emit(Ins(I2(VM_BIND, count, offset)));
      }
    }

    // compile_letSTAR
    method CompileLetStar(clauses: Clauses, scope: Scope, r: Receiving) returns (ok: bool)
      requires Valid()
      modifies this, m
      ensures Valid()
      ensures ok == (ScopedClauses(clauses, Vars(scope), Exits(scope))
                     && WithinLimits(Compiler.CompileClauses(clauses, scope, r, old(Now()).gen).code))
      ensures ok ==> Emits(old(Now()), Now(), f, Compiler.CompileClauses(clauses, scope, r, old(Now()).gen))
      decreases clauses, 1
    {
      hide *;
      ghost var s0 := Now();
      ClausesCode(clauses, scope, r, s0.gen);
      if clauses.In? {
        ok := CompileProgn(clauses.body, scope, r);
        return;
      }
      ok := CompileForm(clauses.init, scope, 1);
      if !ok { return; }
      ghost var s1 := Now();
      ghost var init := Compiler.Compile(clauses.init, scope, 1, s0.gen);
      EmitsMeans(s0, s1, f, init);
      var index := scope.FrameEnd();
      Need(index + 1);
      ghost var s2 := Now();
      EmitsLater(s0, s1, f, init, s2);
      var cell, bind := LexRef(Lex(index), VM_MAKE_CELL), Op1(VM_SET, index);
      ok := Emit(cell);
      if !ok { return; }
      ghost var s3 := Now();
      EmitsThen(s0, s2, s3, f, Output(init.code, s2.gen), Output([cell], s2.gen));
      ok := Emit(bind);
      if !ok { return; }
      ghost var s4 := Now();
      EmitsThen(s0, s3, s4, f, Output(init.code + [cell], s2.gen), Output([bind], s2.gen));
      assert init.code + [cell] + [bind] == init.code + [cell, bind];
      EmitsMeans(s0, s4, f, Output(init.code + [cell, bind], s2.gen));
      var inner := Var(clauses.name, scope);
      ok := CompileLetStar(clauses.rest, inner, r);
      if ok {
        EmitsThen(s0, s4, Now(), f, Output(init.code + [cell, bind], s2.gen),
                  Compiler.CompileClauses(clauses.rest, inner, r, s2.gen));
      }
    }

    // compile_setq, with compile_setq_1 for each pair
    method CompileSetq(pairs: Bindings, scope: Scope, r: Receiving) returns (ok: bool)
      requires Valid()
      modifies this, m
      ensures Valid()
      ensures ok == (ScopedPairs(pairs, Vars(scope), Exits(scope))
                     && WithinLimits(Compiler.CompileSetq(pairs, scope, r, old(Now()).gen).code))
      ensures ok ==> Emits(old(Now()), Now(), f, Compiler.CompileSetq(pairs, scope, r, old(Now()).gen))
      decreases pairs, 1
    {
      hide *;
      ghost var s0 := Now();
      SetqCode(pairs, scope, r, s0.gen);
      if pairs.NoMore? {
        ok := CompileLiteral(Nil, r);
        return;
      }
      if pairs.name !in Vars(scope) { return false; }
      var r1: Receiving := if pairs.rest.NoMore? then r else 0;
      ok := CompileForm(pairs.init, scope, 1);
      if !ok { return; }
      ghost var s1 := Now();
      ghost var init := Compiler.Compile(pairs.init, scope, 1, s0.gen);
      EmitsMeans(s0, s1, f, init);
      ok := EmitAssignment(pairs.name, scope, r1);
      if !ok { return; }
      ghost var s2 := Now();
      ghost var assign := Assigning(scope, pairs.name, r1);
      EmitsThen(s0, s1, s2, f, init, Output(assign, s1.gen));
      if pairs.rest.Binding? {
        EmitsMeans(s0, s2, f, Output(init.code + assign, s1.gen));
        ok := CompileSetq(pairs.rest, scope, r);
        if ok {
          EmitsThen(s0, s2, Now(), f, Output(init.code + assign, s1.gen),
                    Compiler.CompileSetq(pairs.rest, scope, r, s1.gen));
        }
      }
    }

    // The end of compile_setq_1.
    method EmitAssignment(name: Name, scope: Scope, r: Receiving) returns (ok: bool)
      requires Valid() && name in Vars(scope)
      modifies m`cfunctions, m`parts, m`labels
      ensures Valid() && ok == WithinLimits(Assigning(scope, name, r))
      ensures ok ==> Emits(old(Now()), Now(), f, Output(Assigning(scope, name, r), old(Now()).gen))
    {
      ghost var s0 := Now();
      var index := FindVar(scope, name).value;
      hide *;
      AssigningCode(scope, name, r);
      if r != 0 {
        ok := Emit(Op(VM_DUP));
      } else {
        Nothing();
      }
      ghost var s1 := Now();
      ghost var dup := if r != 0 then [Op(VM_DUP)] else [];
      ok := Emit(LexSet(Lex(index)));
      if !ok { return; }
      ghost var s2 := Now();
      EmitPopIfAll(r);
      EmitsThen(s0, s1, s2, f, Output(dup, s0.gen), Output([LexSet(Lex(index))], s0.gen));
      EmitsThen(s0, s2, Now(), f, Output(dup + [LexSet(Lex(index))], s0.gen), Output(PopIfAll(r), s0.gen));
    }

    // compile_return_from with compile_exit
    method CompileReturnFrom(form: Form, scope: Scope, r: Receiving) returns (ok: bool)
      requires Valid() && form.ReturnFrom?
      modifies this, m
      ensures Valid()
      ensures ok == (Scoped(form, Vars(scope), Exits(scope))
                     && WithinLimits(Compiler.Compile(form, scope, r, old(Now()).gen).code))
      ensures ok ==> Emits(old(Now()), Now(), f, Compiler.Compile(form, scope, r, old(Now()).gen))
      decreases form, 0
    {
      hide *;
      ghost var s0 := Now();
      ReturnFromCode(form, scope, r, s0.gen);
      var to := ToBlock(form.name);
      var found := FindExit(scope, to);
      if found.None? { return false; }
      var info := found.value;
      var r1: Receiving := if info.receiving == 0 then 0 else -1;
      ok := CompileForm(form.result, scope, r1);
      if !ok { return; }
      ghost var s1 := Now();
      ghost var result := Compiler.Compile(form.result, scope, r1, s0.gen);
      EmitsMeans(s0, s1, f, result);
      ok := EmitExit(scope, to, info);
      if !ok { return; }
      ghost var exit := Unwind(scope, to) + Leaving(info);
      EmitsThen(s0, s1, Now(), f, result, Output(exit, s1.gen));
      assert result.code + exit == result.code + Unwind(scope, to) + Leaving(info);
    }

    // compile_go
    method CompileGo(form: Form, scope: Scope, r: Receiving) returns (ok: bool)
      requires Valid() && form.Go?
      modifies m`cfunctions, m`parts, m`labels
      ensures Valid()
      ensures ok == (Scoped(form, Vars(scope), Exits(scope))
                     && WithinLimits(Compiler.Compile(form, scope, r, old(Now()).gen).code))
      ensures ok ==> Emits(old(Now()), Now(), f, Compiler.Compile(form, scope, r, old(Now()).gen))
    {
      hide *;
      GoCode(form, scope, r, Now().gen);
      var found := FindExit(scope, ToTag(form.tag));
      if found.None? { return false; }
      ok := EmitExit(scope, ToTag(form.tag), found.value);
    }

    // compile_exit within one function
    method EmitExit(scope: Scope, to: Destination, info: BlockInfo) returns (ok: bool)
      requires Valid()
      modifies m`cfunctions, m`parts, m`labels
      ensures Valid() && ok == WithinLimits(Unwind(scope, to) + Leaving(info))
      ensures ok ==> Emits(old(Now()), Now(), f, Output(Unwind(scope, to) + Leaving(info), old(Now()).gen))
    {
      hide *;
      ghost var s0, unwind := Now(), Unwind(scope, to);
      var restore, exit := RestoreSp(Lex(info.index)), Exit(info.exit, Lex(info.index));
      LeavingCode(scope, to, info);
      ok := EmitUnwind(scope, to);
      if !ok { return; }
      ghost var s1 := Now();
      EmitsMeans(s0, s1, f, Output(unwind, s0.gen));
      ok := Emit(restore);
      if !ok { return; }
      ghost var s2 := Now();
      EmitsThen(s0, s1, s2, f, Output(unwind, s0.gen), Output([restore], s0.gen));
      ok := Emit(exit);
      if !ok { return; }
      EmitsThen(s0, s2, Now(), f, Output(unwind + [restore], s0.gen), Output([exit], s0.gen));
      assert unwind + [restore] + [exit] == unwind + [restore, exit];
    }

    // The loop of compile_exit over the interposed dynamic environments.
    method EmitUnwind(scope: Scope, to: Destination) returns (ok: bool)
      requires Valid()
      modifies m`cfunctions, m`parts, m`labels
      ensures Valid() && ok == WithinLimits(Unwind(scope, to))
      ensures ok ==> Emits(old(Now()), Now(), f, Output(Unwind(scope, to), old(Now()).gen))
    {
      hide *;
      ghost var s0, whole := Now(), Unwind(scope, to);
      var cur := scope;
      ghost var done := [];
      Nothing();
      EmptyEmittable();
      while !cur.Null? && !cur.Catches(to)
        invariant Valid() && whole == done + Unwind(cur, to) && WithinLimits(done)
        invariant Emits(s0, Now(), f, Output(done, s0.gen))
        decreases cur
      {
        UnwindCode(cur, to);
        if !cur.Var? {
          var close := EntryClose(Lex(cur.outer.FrameEnd()));
          ghost var s1 := Now();
          EmitsMeans(s0, s1, f, Output(done, s0.gen));
          assert whole == (done + [close]) + Unwind(cur.outer, to);
          EmittableParts(done + [close], Unwind(cur.outer, to));
          EmittableParts(done, [close]);
          ok := Emit(close);
          if !ok { return; }
          EmitsThen(s0, s1, Now(), f, Output(done, s0.gen), Output([close], s0.gen));
          done := done + [close];
        }
        cur := cur.outer;
      }
      UnwindCode(cur, to);
      assert whole == done;
      ok := true;
    }

    // Label_O::contextualize for a label made since snapshot s0.
    method EmitMark(id: nat, ghost s0: Snapshot, ghost o: Output)
      requires Valid() && id !in Now().placed && id < Now().gen.labels && Emits(s0, Now(), f, o) && s0.gen.labels <= id
      modifies m`cfunctions, m`parts, m`labels
      ensures Valid() && Emits(s0, Now(), f, Output(o.code + [Mark(id)], o.gen))
      ensures Now().placed == old(Now()).placed + {id} && Now().gen == old(Now()).gen
    {
      assert id !in m.labels && id < m.nextLabel;
      hide *;
      ghost var s1 := Now();
      MarkIsEmittable(id);
      var ok := Emit(Mark(id));
      EmitsMark(s0, s1, Now(), f, o, id);
    }

    // Label_O::make
    method MakeLabel() returns (id: nat)
      requires Valid()
      modifies m`nextLabel
      ensures Valid() && id == old(Now()).gen.labels && id !in Now().placed
      ensures Now() == old(Now()).(gen := old(Now()).gen.(labels := id + 1))
    {
      id := m.MakeLabel();
    }

    // compile_if
    method CompileIf(form: Form, scope: Scope, r: Receiving) returns (ok: bool)
      requires Valid() && form.If?
      modifies this, m
      ensures Valid()
      ensures ok == (Scoped(form, Vars(scope), Exits(scope))
                     && WithinLimits(Compiler.Compile(form, scope, r, old(Now()).gen).code))
      ensures ok ==> Emits(old(Now()), Now(), f, Compiler.Compile(form, scope, r, old(Now()).gen))
      decreases form, 0
    {
      hide *;
      ghost var s0 := Now();
      IfCode(form, scope, r, s0.gen);
      ok := CompileForm(form.cond, scope, 1);
      if !ok { return; }
      ghost var s1 := Now();
      ghost var cond := Compiler.Compile(form.cond, scope, 1, s0.gen);
      EmitsMeans(s0, s1, f, cond);
      var thenLabel := MakeLabel();
      var doneLabel := MakeLabel();
      ghost var s2 := Now();
      EmitsLater(s0, s1, f, cond, s2);
      ok := CompileElse(form, scope, r, thenLabel, doneLabel);
      if !ok { return; }
      ghost var s3 := Now();
      ghost var els := ElseCode(form, scope, r, s2.gen, thenLabel, doneLabel);
      EmitsMeans(s2, s3, f, els);
      EmitsThen(s0, s2, s3, f, Output(cond.code, s2.gen), els);
      StaysUnplaced(s2, s3, f, els, doneLabel);
      EmitMark(thenLabel, s0, Output(cond.code + els.code, els.gen));
      ghost var s4 := Now();
      ghost var code := cond.code + els.code + [Mark(thenLabel)];
      ok := CompileForm(form.thn, scope, r);
      if !ok { return; }
      ghost var s5 := Now();
      ghost var thn := Compiler.Compile(form.thn, scope, r, els.gen);
      EmitsThen(s0, s4, s5, f, Output(code, els.gen), thn);
      EmitsMeans(s4, s5, f, thn);
      StaysUnplaced(s4, s5, f, thn, doneLabel);
      EmitMark(doneLabel, s0, Output(code + thn.code, thn.gen));
    }

    // The part of compile_if from the conditional jump to the end of the else branch.
    method CompileElse(form: Form, scope: Scope, r: Receiving, thenLabel: nat, doneLabel: nat) returns (ok: bool)
      requires Valid() && form.If? && thenLabel < Now().gen.labels && thenLabel !in Now().placed
      modifies this, m
      ensures Valid()
      ensures ok == (Scoped(form.els, Vars(scope), Exits(scope))
                     && WithinLimits(Compiler.Compile(form.els, scope, r, old(Now()).gen).code))
      ensures ok ==> Emits(old(Now()), Now(), f, ElseCode(form, scope, r, old(Now()).gen, thenLabel, doneLabel))
      ensures ok ==> thenLabel < Now().gen.labels && thenLabel !in Now().placed
      decreases form, 0, 0
    {
      hide *;
      ghost var s0 := Now();
      JumpIsEmittable(thenLabel);
      JumpIsEmittable(doneLabel);
      ok := Emit(JumpIf(thenLabel));
      ghost var s1 := Now();
      EmitsMeans(s0, s1, f, Output([JumpIf(thenLabel)], s0.gen));
      ok := CompileForm(form.els, scope, r);
      if !ok { return; }
      ElseMeans(form, scope, r, s0.gen, thenLabel, doneLabel);
      ghost var s2 := Now();
      ghost var els := Compiler.Compile(form.els, scope, r, s0.gen);
      EmitsMeans(s1, s2, f, els);
      EmitsThen(s0, s1, s2, f, Output([JumpIf(thenLabel)], s0.gen), els);
      ok := Emit(Jump(doneLabel));
      EmitsThen(s0, s2, Now(), f, Output([JumpIf(thenLabel)] + els.code, els.gen), Output([Jump(doneLabel)], els.gen));
      StaysUnplaced(s0, Now(), f, ElseCode(form, scope, r, s0.gen, thenLabel, doneLabel), thenLabel);
    }

    // compile_block
    method CompileBlock(form: Form, scope: Scope, r: Receiving) returns (ok: bool)
      requires Valid() && form.Block?
      modifies this, m
      ensures Valid()
      ensures ok == (Scoped(form, Vars(scope), Exits(scope))
                     && WithinLimits(Compiler.Compile(form, scope, r, old(Now()).gen).code))
      ensures ok ==> Emits(old(Now()), Now(), f, Compiler.Compile(form, scope, r, old(Now()).gen))
      decreases form, 0
    {
      hide *;
      ghost var s0 := Now();
      BlockCode(form, scope, r, s0.gen);
      var exit := MakeLabel();
      var normal := MakeLabel();
      Need(scope.FrameEnd() + 1);
      ghost var s1 := Now();
      var lex := Lex(scope.FrameEnd());
      ok := Emit(Entry(lex));
      if !ok { return; }
      ghost var s2 := Now();
      EmitsMeans(s1, s2, f, Output([Entry(lex)], s1.gen));
      StaysUnplaced(s1, s2, f, Output([Entry(lex)], s1.gen), exit);
      StaysUnplaced(s1, s2, f, Output([Entry(lex)], s1.gen), normal);
      EmitsFrom(s0, s1, s2, f, Output([Entry(lex)], s1.gen));
      var inner := Blk(form.name, exit, r, scope);
      ok := CompileProgn(form.body, inner, r);
      if !ok { return; }
      ghost var s3 := Now();
      ghost var body := Compiler.CompileProgn(form.body, inner, r, s1.gen);
      EmitsMeans(s2, s3, f, body);
      StaysUnplaced(s2, s3, f, body, exit);
      StaysUnplaced(s2, s3, f, body, normal);
      ghost var code := [Entry(lex)] + body.code;
      EmitsThen(s0, s2, s3, f, Output([Entry(lex)], s1.gen), body);
      EmitLanding(r, exit, normal, s0, Output(code, body.gen));
      ghost var s4 := Now();
      code := code + Landing(r, exit, normal);
      EmitsMeans(s0, s4, f, Output(code, body.gen));
      ok := Emit(EntryClose(lex));
      if ok { EmitsThen(s0, s4, Now(), f, Output(code, body.gen), Output([EntryClose(lex)], body.gen)); }
    }

    // The end of compile_block, after the body.
    method EmitLanding(r: Receiving, exit: nat, normal: nat, ghost s0: Snapshot, ghost o: Output)
      requires Valid() && Emits(s0, Now(), f, o) && exit != normal
      requires exit !in Now().placed && exit < Now().gen.labels && s0.gen.labels <= exit
      requires normal !in Now().placed && normal < Now().gen.labels && s0.gen.labels <= normal
      modifies m`cfunctions, m`parts, m`labels
      ensures Valid() && Emits(s0, Now(), f, Output(o.code + Landing(r, exit, normal), o.gen))
    {
      hide *;
      LandingCode(r, exit, normal);
      ghost var s1 := Now();
      EmitsMeans(s0, s1, f, o);
      if r != 1 {
        EmitMark(exit, s0, o);
        return;
      }
      JumpIsEmittable(normal);
      PushIsEmittable();
      ghost var jump := Output([Jump(normal)], o.gen);
      var ok := Emit(Jump(normal));
      ghost var s2 := Now();
      EmitsMeans(s1, s2, f, jump);
      StaysUnplaced(s1, s2, f, jump, exit);
      StaysUnplaced(s1, s2, f, jump, normal);
      EmitsThen(s0, s1, s2, f, o, jump);
      EmitMark(exit, s0, Output(o.code + [Jump(normal)], o.gen));
      ghost var s3 := Now();
      ok := Emit(Op(VM_PUSH));
      ghost var s4 := Now();
      EmitsMeans(s3, s4, f, Output([Op(VM_PUSH)], o.gen));
      StaysUnplaced(s3, s4, f, Output([Op(VM_PUSH)], o.gen), normal);
      EmitsThen(s0, s3, s4, f, Output(o.code + [Jump(normal)] + [Mark(exit)], o.gen), Output([Op(VM_PUSH)], o.gen));
      EmitMark(normal, s0, Output(o.code + [Jump(normal)] + [Mark(exit)] + [Op(VM_PUSH)], o.gen));
      assert o.code + [Jump(normal)] + [Mark(exit)] + [Op(VM_PUSH)] + [Mark(normal)]
             == o.code + [Jump(normal), Mark(exit), Op(VM_PUSH), Mark(normal)];
    }

    // The tags among the statements of a tagbody.
    method CollectTags(statements: Statements) returns (tags: seq<Name>)
      ensures tags == TagsOf(statements)
    {
      tags := [];
      var cur := statements;
      while !cur.Ended?
        invariant tags + TagsOf(cur) == TagsOf(statements)
        decreases cur
      {
        if cur.Tag? { tags := tags + [cur.name]; }
        cur := cur.rest;
      }
    }

    // Lexenv_O::bind_tags
    method BindTags(scope: Scope, tags: seq<Name>) returns (inner: Scope)
      requires Valid()
      modifies `nlocals, m`nextLabel
      ensures Valid() && inner == Compiler.BindTags(scope, tags, old(Now()).gen.labels)
      ensures Now() == old(Now()).(gen := TagbodyGen(scope, tags, old(Now()).gen))
      ensures TagsUnplaced(inner, tags, old(Now()).gen.labels, Now())
    {
      hide *;
      ghost var s0 := Now();
      TagbodyMeans(scope, tags, s0.gen);
      if tags == [] {
        NoTagsUnplaced(scope, s0.gen.labels, s0);
        return scope;
      }
      Need(scope.FrameEnd() + 1);
      ghost var s1 := Now();
      var i, first := 0, 0;
      while i < |tags|
        invariant 0 <= i <= |tags| && Valid()
        invariant Now() == s1.(gen := s1.gen.(labels := s1.gen.labels + i))
        invariant i > 0 ==> first == s1.gen.labels
        invariant forall id :: s1.gen.labels <= id < s1.gen.labels + i ==> id !in s1.placed
      {
        var id := MakeLabel();
        if i == 0 { first := id; }
        i := i + 1;
      }
      inner := Tags(tags, first, scope);
      NewTagsUnplaced(scope, tags, first, Now());
    }

    // The statements of compile_tagbody. The labels of the tags were made since snapshot s0.
    method CompileStatements(statements: Statements, scope: Scope, ghost s0: Snapshot, ghost o: Output)
      returns (ok: bool)
      requires Valid() && Emits(s0, Now(), f, o) && TagsUnplaced(scope, TagsOf(statements), s0.gen.labels, Now())
      modifies this, m
      ensures Valid()
      ensures ok == (ScopedStatements(statements, Vars(scope), Exits(scope))
                     && WithinLimits(Compiler.CompileStatements(statements, scope, old(Now()).gen).code))
      ensures ok ==>
                var b := Compiler.CompileStatements(statements, scope, old(Now()).gen);
                Emits(s0, Now(), f, Output(o.code + b.code, b.gen))
      decreases statements, 1
    {
      hide *;
      ghost var s1 := Now();
      TagsInScope(scope, TagsOf(statements), s0.gen.labels, s1);
      StatementsCode(statements, scope, s1.gen);
      EmitsMeans(s0, s1, f, o);
      match statements
      case Ended =>
        assert o.code + [] == o.code;
        ok := true;
      case Tag(name, rest) =>
        FirstUnplaced(scope, name, TagsOf(rest), s0.gen.labels, s1);
        var tags := CollectTags(rest);
        if name in tags { return false; }
        var id := FindExit(scope, ToTag(name)).value.exit;
        EmitMark(id, s0, o);
        RestUnplaced(scope, name, tags, s0.gen.labels, s1, Now());
        ok := CompileStatements(rest, scope, s0, Output(o.code + [Mark(id)], o.gen));
        if ok {
          ghost var b := Compiler.CompileStatements(rest, scope, s1.gen);
          assert o.code + [Mark(id)] + b.code == o.code + ([Mark(id)] + b.code);
        }
      case Statement(form, rest) =>
        ok := CompileForm(form, scope, 0);
        if !ok { return; }
        ghost var s2 := Now();
        ghost var a := Compiler.Compile(form, scope, 0, s1.gen);
        EmitsMeans(s1, s2, f, a);
        EmitsThen(s0, s1, s2, f, o, a);
        StillUnplaced(scope, TagsOf(rest), s0.gen.labels, s1, s2, f, a);
        ok := CompileStatements(rest, scope, s0, Output(o.code + a.code, a.gen));
        if ok {
          ghost var b := Compiler.CompileStatements(rest, scope, a.gen);
          assert o.code + a.code + b.code == o.code + (a.code + b.code);
        }
    }

    // compile_tagbody
    method CompileTagbody(form: Form, scope: Scope, r: Receiving) returns (ok: bool)
      requires Valid() && form.Tagbody?
      modifies this, m
      ensures Valid()
      ensures ok == (Scoped(form, Vars(scope), Exits(scope))
                     && WithinLimits(Compiler.Compile(form, scope, r, old(Now()).gen).code))
      ensures ok ==> Emits(old(Now()), Now(), f, Compiler.Compile(form, scope, r, old(Now()).gen))
      decreases form, 0
    {
      hide *;
      ghost var s0 := Now();
      TagbodyCode(form, scope, r, s0.gen);
      var tags := CollectTags(form.statements);
      if tags != [] && Nowhere !in Exits(scope) { return false; }
      var inner := BindTags(scope, tags);
      ghost var s1, code := Now(), [];
      Nothing();
      FunctionExists(s1, s1, f, Output([], s1.gen));
      NothingYet(s0, s1, f) by { TagbodyMeans(scope, tags, s0.gen); }
      var lex := Lex(scope.FrameEnd());
      if tags != [] {
        ok := Emit(Entry(lex));
        if !ok { return; }
        code := [Entry(lex)];
        StillUnplaced(inner, tags, s0.gen.labels, s1, Now(), f, Output(code, s1.gen));
        EmitsFrom(s0, s1, Now(), f, Output(code, s1.gen)) by { TagbodyMeans(scope, tags, s0.gen); }
      }
      ok := CompileStatements(form.statements, inner, s0, Output(code, s1.gen));
      if !ok { return; }
      ghost var b := Compiler.CompileStatements(form.statements, inner, s1.gen);
      ghost var s2 := Now();
      code := code + b.code;
      EmitsMeans(s0, s2, f, Output(code, b.gen));
      if tags != [] {
        ok := Emit(EntryClose(lex));
        if !ok { return; }
        EmitsThen(s0, s2, Now(), f, Output(code, b.gen), Output([EntryClose(lex)], b.gen));
        code := code + [EntryClose(lex)];
      }
      ghost var s3 := Now();
      EmitsMeans(s0, s3, f, Output(code, b.gen));
      ok := CompileLiteral(Nil, r);
      if ok { EmitsThen(s0, s3, Now(), f, Output(code, b.gen), Compiler.CompileLiteral(Nil, r, b.gen)); }
    }

    // The argument count check, the binding of required arguments and their encages.
    method EmitPrologue(n: nat) returns (ok: bool)
      requires Valid()
      modifies m`cfunctions, m`parts, m`labels
      ensures Valid() && ok == WithinLimits(Prologue(n))
      ensures ok ==> Emits(old(Now()), Now(), f, Output(Prologue(n), old(Now()).gen))
    {
      hide *;
      ghost var s0 := Now();
      PrologueCode(n);
      if n == 0 {
        ok := Emit(Op1(VM_CHECK_ARG_COUNT_LE, 0));
        return;
      }
      var check, bind := Op1(VM_CHECK_ARG_COUNT_EQ, n), Op1(VM_BIND_REQUIRED_ARGS, n);
      ok := Emit(check);
      if !ok { return; }
      ghost var s1 := Now();
      EmitsMeans(s0, s1, f, Output([check], s0.gen));
      ok := Emit(bind);
      if !ok { return; }
      ghost var s2 := Now();
      EmitsMeans(s1, s2, f, Output([bind], s0.gen));
      EmitsThen(s0, s1, s2, f, Output([check], s0.gen), Output([bind], s0.gen));
      assert [check] + [bind] == [check, bind];
      ok := EmitEncages(n);
      if ok { EmitsThen(s0, s2, Now(), f, Output([check, bind], s0.gen), Output(Encages(n), s0.gen)); }
    }

    method EmitEncages(n: nat) returns (ok: bool)
      requires Valid()
      modifies m`cfunctions, m`parts, m`labels
      ensures Valid() && ok == WithinLimits(Encages(n))
      ensures ok ==> Emits(old(Now()), Now(), f, Output(Encages(n), old(Now()).gen))
    {
      hide *;
      ghost var s0 := Now();
      Nothing();
      EncagesCode(0, n);
      var i := 0;
      while i < n
        invariant 0 <= i <= n && Valid()
        invariant Emits(s0, Now(), f, Output(Encages(i), s0.gen))
      {
        ghost var s1 := Now();
        EmitsMeans(s0, s1, f, Output(Encages(i), s0.gen));
        EncagesCode(i, n);
        ok := Emit(Encage(Lex(i)));
        if !ok { return; }
        EmitsThen(s0, s1, Now(), f, Output(Encages(i), s0.gen), Output([Encage(Lex(i))], s0.gen));
        i := i + 1;
      }
      EmitsMeans(s0, Now(), f, Output(Encages(n), s0.gen));
      ok := true;
    }

    // compile_with_lambda_list for required parameters, and the vm_return of compile_lambda.
    method CompileFunction(params: seq<Name>, body: Forms, loops: bool, entry: nat) returns (ok: bool)
      requires Valid() && entry !in Now().placed && Now().gen == Gen(Now().gen.literals, entry + 1, 0)
      requires f < |Now().parts| && Now().parts[f] == []
      modifies this, m
      ensures Valid()
      ensures ok == (Covered(params, body, loops)
                     && WithinLimits(Compiler.CompileLambda(params, body, loops, old(Now()).gen.literals, entry).code))
      ensures ok ==>
                var o := Compiler.CompileLambda(params, body, loops, old(Now()).gen.literals, entry);
                Now().parts == old(Now()).parts[f := o.code] && Now().gen == o.gen
    {
      hide *;
      ghost var s0 := Now();
      ghost var g := s0.gen.(labels := entry);
      ghost var s := s0.(gen := g);
      LambdaCode(params, body, loops, s0.gen.literals, entry);
      Need(|params|);
      var scope := Parameters(params, loops);
      NeedingParams(s0.gen, |params|);
      ghost var s1 := Now();
      NothingYet(s, s1, f);
      EmitMark(entry, s, Output([], s1.gen));
      assert [] + [Mark(entry)] == [Mark(entry)];
      ghost var s2 := Now();
      ok := EmitPrologue(|params|);
      if !ok { return; }
      ghost var s3 := Now();
      EmitsMeans(s2, s3, f, Output(Prologue(|params|), s2.gen));
      EmitsThen(s, s2, s3, f, Output([Mark(entry)], s2.gen), Output(Prologue(|params|), s2.gen));
      ok := CompileProgn(body, scope, -1);
      if !ok { return; }
      ghost var s4 := Now();
      ghost var b := Compiler.CompileProgn(body, scope, -1, s3.gen);
      EmitsMeans(s3, s4, f, b);
      EmitsThen(s, s3, s4, f, Output([Mark(entry)] + Prologue(|params|), s3.gen), b);
      ok := Emit(Op(VM_RETURN));
      EmitsThen(s, s4, Now(), f, Output([Mark(entry)] + Prologue(|params|) + b.code, b.gen),
          Output([Op(VM_RETURN)], b.gen));
      AllEmitted(s, Now(), f, Compiler.CompileLambda(params, body, loops, s0.gen.literals, entry));
    }
  }

  lemma PopIsEmittable(r: Receiving)
    ensures WithinLimits(PopIfAll(r))
  {
  }

  // Code compiled after a label was made does not place it.
  lemma StaysUnplaced(a: Snapshot, b: Snapshot, f: nat, o: Output, id: nat)
    requires Emits(a, b, f, o) && id < a.gen.labels && id !in a.placed
    ensures id !in b.placed && id < b.gen.labels
  {
    hide WithinLimits;
  }

  lemma EmitsMeans(a: Snapshot, b: Snapshot, f: nat, o: Output)
    requires Emits(a, b, f, o)
    ensures b.gen == o.gen && WithinLimits(o.code) && a.gen.labels <= b.gen.labels
  {
    hide WithinLimits;
  }

  lemma FunctionExists(a: Snapshot, b: Snapshot, f: nat, o: Output)
    requires Emits(a, b, f, o)
    ensures f < |a.parts|
  {
    hide WithinLimits;
  }

  // What each construct's code consists of, and that it is covered exactly when its parts are.

  lemma Dispatched(form: Form, scope: Scope, r: Receiving, g: Gen)
    ensures form.Literal? ==>
              Scoped(form, Vars(scope), Exits(scope))
              && Compiler.Compile(form, scope, r, g) == Compiler.CompileLiteral(form.value, r, g)
    ensures form.Variable? ==> (Scoped(form, Vars(scope), Exits(scope)) <==> form.name in Vars(scope))
    ensures form.Progn? ==>
              (Scoped(form, Vars(scope), Exits(scope)) <==> ScopedForms(form.body, Vars(scope), Exits(scope)))
              && (Scoped(form, Vars(scope), Exits(scope)) ==>
                    Compiler.Compile(form, scope, r, g) == Compiler.CompileProgn(form.body, scope, r, g))
    ensures form.LetStar? ==>
              (Scoped(form, Vars(scope), Exits(scope)) <==> ScopedClauses(form.clauses, Vars(scope), Exits(scope)))
              && (Scoped(form, Vars(scope), Exits(scope)) ==>
                    Compiler.Compile(form, scope, r, g) == Compiler.CompileClauses(form.clauses, scope, r, g))
    ensures form.Setq? ==>
              (Scoped(form, Vars(scope), Exits(scope)) <==> ScopedPairs(form.pairs, Vars(scope), Exits(scope)))
              && (Scoped(form, Vars(scope), Exits(scope)) ==>
                    Compiler.Compile(form, scope, r, g) == Compiler.CompileSetq(form.pairs, scope, r, g))
  {
    hide CompileIf, CompileBlock, CompileProg1, CompileProgn, CompileClauses, CompileSetq, CompileLiteral, CompileInits,
      CompileArgs;
  }

  lemma PrognCode(forms: Forms, scope: Scope, r: Receiving, g: Gen)
    ensures forms.Done? ==>
              ScopedForms(forms, Vars(scope), Exits(scope))
              && Compiler.CompileProgn(forms, scope, r, g) == Compiler.CompileLiteral(Nil, r, g)
    ensures forms.More? ==>
              (ScopedForms(forms, Vars(scope), Exits(scope)) <==>
               Scoped(forms.first, Vars(scope), Exits(scope)) && ScopedForms(forms.rest, Vars(scope), Exits(scope)))
    ensures forms.More? && ScopedForms(forms, Vars(scope), Exits(scope)) ==>
              if forms.rest.Done?
              then Compiler.CompileProgn(forms, scope, r, g) == Compiler.Compile(forms.first, scope, r, g)
              else
                var a := Compiler.Compile(forms.first, scope, 0, g);
                var b := Compiler.CompileProgn(forms.rest, scope, r, a.gen);
                Compiler.CompileProgn(forms, scope, r, g) == Output(a.code + b.code, b.gen)
                && (WithinLimits(a.code + b.code) <==> WithinLimits(a.code) && WithinLimits(b.code))
    ensures forms.More? && forms.rest.Done? ==> ScopedForms(forms.rest, Vars(scope), Exits(scope))
  {
    hide Compile, WithinLimits;
    if forms.More? && ScopedForms(forms, Vars(scope), Exits(scope)) && forms.rest.More? {
      var a := Compiler.Compile(forms.first, scope, 0, g);
      EmittableParts(a.code, Compiler.CompileProgn(forms.rest, scope, r, a.gen).code);
    }
  }

  lemma EffectsCode(forms: Forms, scope: Scope, g: Gen)
    ensures forms.Done? ==>
              ScopedForms(forms, Vars(scope), Exits(scope))
              && Compiler.CompileEffects(forms, scope, g) == Output([], g) && WithinLimits([])
    ensures forms.More? ==>
              (ScopedForms(forms, Vars(scope), Exits(scope)) <==>
               Scoped(forms.first, Vars(scope), Exits(scope)) && ScopedForms(forms.rest, Vars(scope), Exits(scope)))
    ensures forms.More? && ScopedForms(forms, Vars(scope), Exits(scope)) ==>
              var a := Compiler.Compile(forms.first, scope, 0, g);
              var b := Compiler.CompileEffects(forms.rest, scope, a.gen);
              Compiler.CompileEffects(forms, scope, g) == Output(a.code + b.code, b.gen)
              && (WithinLimits(a.code + b.code) <==> WithinLimits(a.code) && WithinLimits(b.code))
  {
    hide Compile;
    if forms.More? && ScopedForms(forms, Vars(scope), Exits(scope)) {
      var a := Compiler.Compile(forms.first, scope, 0, g);
      EmittableParts(a.code, Compiler.CompileEffects(forms.rest, scope, a.gen).code);
    }
  }

  lemma ArgsCode(forms: Forms, scope: Scope, g: Gen)
    ensures forms.Done? ==>
              ScopedForms(forms, Vars(scope), Exits(scope))
              && Compiler.CompileArgs(forms, scope, g) == Output([], g) && WithinLimits([])
    ensures forms.More? ==>
              (ScopedForms(forms, Vars(scope), Exits(scope)) <==>
               Scoped(forms.first, Vars(scope), Exits(scope)) && ScopedForms(forms.rest, Vars(scope), Exits(scope)))
    ensures forms.More? && ScopedForms(forms, Vars(scope), Exits(scope)) ==>
              var a := Compiler.Compile(forms.first, scope, 1, g);
              var b := Compiler.CompileArgs(forms.rest, scope, a.gen);
              Compiler.CompileArgs(forms, scope, g) == Output(a.code + b.code, b.gen)
              && (WithinLimits(a.code + b.code) <==> WithinLimits(a.code) && WithinLimits(b.code))
  {
    hide Compile;
    if forms.More? && ScopedForms(forms, Vars(scope), Exits(scope)) {
      var a := Compiler.Compile(forms.first, scope, 1, g);
      EmittableParts(a.code, Compiler.CompileArgs(forms.rest, scope, a.gen).code);
    }
  }

  lemma Prog1Code(form: Form, scope: Scope, r: Receiving, g: Gen)
    requires form.MultipleValueProg1?
    ensures Scoped(form, Vars(scope), Exits(scope))
            <==> Scoped(form.first, Vars(scope), Exits(scope)) && ScopedForms(form.body, Vars(scope), Exits(scope))
    ensures Scoped(form, Vars(scope), Exits(scope)) ==>
              var a := Compiler.Compile(form.first, scope, r, g);
              var b := Compiler.CompileEffects(form.body, scope, a.gen);
              var o := Compiler.Compile(form, scope, r, g);
              && (if r == -1 then o == Output(a.code + [Op(VM_PUSH_VALUES)] + b.code + [Op(VM_POP_VALUES)], b.gen)
                  else o == Output(a.code + b.code, b.gen))
              && (WithinLimits(o.code) <==> WithinLimits(a.code) && WithinLimits(b.code))
    ensures WithinLimits([Op(VM_PUSH_VALUES)]) && WithinLimits([Op(VM_POP_VALUES)])
    ensures !Op(VM_PUSH_VALUES).Mark? && !Op(VM_POP_VALUES).Mark?
  {
    assert WithinLimits([Op(VM_PUSH_VALUES)]) && WithinLimits([Op(VM_POP_VALUES)]);
    hide CompileTagbody, CompileEffects, WithinLimits, CompileIf, CompileBlock, CompileProgn, CompileClauses,
      CompileSetq,
      CompileLiteral, CompileInits,
      CompileArgs;
    if Scoped(form, Vars(scope), Exits(scope)) {
      var a := Compiler.Compile(form.first, scope, r, g);
      var b := Compiler.CompileEffects(form.body, scope, a.gen);
      EmittableParts(a.code, b.code);
      EmittableParts(a.code + [Op(VM_PUSH_VALUES)] + b.code, [Op(VM_POP_VALUES)]);
      EmittableParts(a.code + [Op(VM_PUSH_VALUES)], b.code);
      EmittableParts(a.code, [Op(VM_PUSH_VALUES)]);
    }
  }

  lemma CallCode(form: Form, scope: Scope, r: Receiving, g: Gen)
    requires form.Call?
    ensures Scoped(form, Vars(scope), Exits(scope)) <==> ScopedForms(form.args, Vars(scope), Exits(scope))
    ensures var k := FunctionCellInfo(form.function_);
            var g1 := WithLiteral(g, k);
            var cell, call := Op1(VM_CALLED_FDEFINITION, LiteralIndex(g.literals, k)), EmitCall(Length(form.args), r);
            && !cell.Mark? && !call.Mark? && g1.labels == g.labels
            && (Scoped(form, Vars(scope), Exits(scope)) ==>
                  var a := Compiler.CompileArgs(form.args, scope, g1);
                  Compiler.Compile(form, scope, r, g) == Output([cell] + a.code + [call], a.gen)
                  && (WithinLimits([cell] + a.code + [call])
                      <==> WithinLimits([cell]) && WithinLimits(a.code) && WithinLimits([call])))
  {
    hide CompileTagbody, CompileEffects, WithinLimits, CompileIf, CompileBlock, CompileProgn, CompileClauses,
      CompileSetq,
      CompileLiteral,
      CompileInits, CompileArgs, LiteralIndex, CompileProg1;
    if Scoped(form, Vars(scope), Exits(scope)) {
      var k := FunctionCellInfo(form.function_);
      var cell, call := Op1(VM_CALLED_FDEFINITION, LiteralIndex(g.literals, k)), EmitCall(Length(form.args), r);
      var a := Compiler.CompileArgs(form.args, scope, WithLiteral(g, k));
      EmittableParts([cell] + a.code, [call]);
      EmittableParts([cell], a.code);
    }
  }

  lemma InitsCode(bindings: Bindings, scope: Scope, post: Scope, g: Gen)
    ensures bindings.NoMore? ==>
              ScopedInits(bindings, Vars(scope), Exits(scope))
              && Compiler.CompileInits(bindings, scope, post, g) == Output([], g) && WithinLimits([])
    ensures bindings.Binding? ==>
              (ScopedInits(bindings, Vars(scope), Exits(scope)) <==>
               Scoped(bindings.init, Vars(scope), Exits(scope))
               && ScopedInits(bindings.rest, Vars(scope), Exits(scope)))
    ensures bindings.Binding? && Scoped(bindings.init, Vars(scope), Exits(scope)) ==>
              var a := Compiler.Compile(bindings.init, scope, 1, g);
              var g1 := a.gen.Needing(post.FrameEnd() + 1);
              var cell := LexRef(Lex(post.FrameEnd()), VM_MAKE_CELL);
              && g1.labels == a.gen.labels
              && (ScopedInits(bindings, Vars(scope), Exits(scope)) ==>
                    var b := Compiler.CompileInits(bindings.rest, scope, Var(bindings.name, post), g1);
                    Compiler.CompileInits(bindings, scope, post, g) == Output(a.code + [cell] + b.code, b.gen)
                    && (WithinLimits(a.code + [cell] + b.code)
                        <==> WithinLimits(a.code) && WithinLimits([cell]) && WithinLimits(b.code)))
  {
    hide Compile;
    if bindings.Binding? && ScopedInits(bindings, Vars(scope), Exits(scope)) {
      var a := Compiler.Compile(bindings.init, scope, 1, g);
      var cell := LexRef(Lex(post.FrameEnd()), VM_MAKE_CELL);
      var b := Compiler.CompileInits(bindings.rest, scope, Var(bindings.name, post),
          a.gen.Needing(post.FrameEnd() + 1));
      EmittableParts(a.code + [cell], b.code);
      EmittableParts(a.code, [cell]);
    }
  }

  lemma LetCode(form: Form, scope: Scope, r: Receiving, g: Gen)
    requires form.Let?
    ensures var inner := BindAll(scope, form.bindings);
            Scoped(form, Vars(scope), Exits(scope)) <==>
              ScopedInits(form.bindings, Vars(scope), Exits(scope))
              && ScopedForms(form.body, Vars(inner), Exits(inner))
    ensures Scoped(form, Vars(scope), Exits(scope)) ==>
              var a := Compiler.CompileInits(form.bindings, scope, scope, g);
              var bind := Compiler.EmitBind(Count(form.bindings), scope.FrameEnd());
              var b := Compiler.CompileProgn(form.body, BindAll(scope, form.bindings), r, a.gen);
              Compiler.Compile(form, scope, r, g) == Output(a.code + bind + b.code, b.gen)
              && (WithinLimits(a.code + bind + b.code)
                  <==> WithinLimits(a.code) && WithinLimits(bind) && WithinLimits(b.code))
  {
    hide CompileTagbody, CompileEffects, WithinLimits, CompileIf, CompileBlock, CompileProgn, CompileClauses,
      CompileSetq,
      CompileLiteral,
      CompileInits, CompileArgs, CompileProg1, BindAll, EmitBind;
    if Scoped(form, Vars(scope), Exits(scope)) {
      var a := Compiler.CompileInits(form.bindings, scope, scope, g);
      var bind := Compiler.EmitBind(Count(form.bindings), scope.FrameEnd());
      EmittableParts(a.code + bind, Compiler.CompileProgn(form.body, BindAll(scope, form.bindings), r, a.gen).code);
      EmittableParts(a.code, bind);
    }
  }

  lemma ClausesCode(clauses: Clauses, scope: Scope, r: Receiving, g: Gen)
    ensures clauses.In? ==>
              (ScopedClauses(clauses, Vars(scope), Exits(scope)) <==>
                  ScopedForms(clauses.body, Vars(scope), Exits(scope)))
              && (ScopedClauses(clauses, Vars(scope), Exits(scope)) ==>
                    Compiler.CompileClauses(clauses, scope, r, g) == Compiler.CompileProgn(clauses.body, scope, r, g))
    ensures clauses.Clause? ==>
              var inner := Var(clauses.name, scope);
              ScopedClauses(clauses, Vars(scope), Exits(scope)) <==>
              Scoped(clauses.init, Vars(scope), Exits(scope))
              && ScopedClauses(clauses.rest, Vars(inner), Exits(inner))
    ensures clauses.Clause? && Scoped(clauses.init, Vars(scope), Exits(scope)) ==>
              var index := scope.FrameEnd();
              var a := Compiler.Compile(clauses.init, scope, 1, g);
              var g1 := a.gen.Needing(index + 1);
              var cell, bind := LexRef(Lex(index), VM_MAKE_CELL), Op1(VM_SET, index);
              && g1.labels == a.gen.labels && !bind.Mark?
              && (ScopedClauses(clauses, Vars(scope), Exits(scope)) ==>
                    var b := Compiler.CompileClauses(clauses.rest, Var(clauses.name, scope), r, g1);
                    Compiler.CompileClauses(clauses, scope, r, g) == Output(a.code + [cell, bind] + b.code, b.gen)
                    && (WithinLimits(a.code + [cell, bind] + b.code) <==>
                        WithinLimits(a.code) && WithinLimits([cell]) && WithinLimits([bind]) && WithinLimits(b.code)))
  {
    hide Compile;
    if clauses.Clause? && ScopedClauses(clauses, Vars(scope), Exits(scope)) {
      var index := scope.FrameEnd();
      var a := Compiler.Compile(clauses.init, scope, 1, g);
      var cell, bind := LexRef(Lex(index), VM_MAKE_CELL), Op1(VM_SET, index);
      var b := Compiler.CompileClauses(clauses.rest, Var(clauses.name, scope), r, a.gen.Needing(index + 1));
      EmittableParts(a.code + [cell, bind], b.code);
      EmittableParts(a.code, [cell, bind]);
      assert [cell, bind] == [cell] + [bind];
      EmittableParts([cell], [bind]);
    }
  }

  lemma EmptyEmittable()
    ensures WithinLimits([])
  {
  }

  lemma UnwindCode(scope: Scope, to: Destination)
    ensures scope.Null? ==> Unwind(scope, to) == []
    ensures scope.Var? ==> !scope.Catches(to) && Unwind(scope, to) == Unwind(scope.outer, to)
    ensures !scope.Null? && scope.Catches(to) ==> Unwind(scope, to) == []
    ensures !scope.Null? && !scope.Var? && !scope.Catches(to) ==>
              Unwind(scope, to) == [EntryClose(Lex(scope.outer.FrameEnd()))] + Unwind(scope.outer, to)
  {
  }

  lemma LeavingCode(scope: Scope, to: Destination, info: BlockInfo)
    ensures var restore, exit := RestoreSp(Lex(info.index)), Exit(info.exit, Lex(info.index));
            && Leaving(info) == [restore, exit]
            && (WithinLimits(Unwind(scope, to) + Leaving(info))
                <==> WithinLimits(Unwind(scope, to)) && WithinLimits([restore]) && WithinLimits([exit]))
  {
    hide WithinLimits, Unwind;
    var restore, exit := RestoreSp(Lex(info.index)), Exit(info.exit, Lex(info.index));
    EmittableParts(Unwind(scope, to), [restore, exit]);
    assert [restore, exit] == [restore] + [exit];
    EmittableParts([restore], [exit]);
  }

  lemma GoCode(form: Form, scope: Scope, r: Receiving, g: Gen)
    requires form.Go?
    ensures var to := ToTag(form.tag);
            && (Scoped(form, Vars(scope), Exits(scope)) <==> FindExit(scope, to).Some?)
            && (FindExit(scope, to).Some? ==>
                  Compiler.Compile(form, scope, r, g)
                  == Output(Unwind(scope, to) + Leaving(FindExit(scope, to).value), g))
  {
    hide Unwind, FindExit, Leaving;
  }

  // The labels of the tags have been made since there were lo labels, and none is placed.
  ghost predicate TagsUnplaced(scope: Scope, tags: seq<Name>, lo: nat, now: Snapshot) {
    && Separate(scope, tags, now.gen.labels)
    && forall tag {:trigger LabelOf(scope, tag)} :: tag in tags ==>
         ToTag(tag) in Exits(scope) && lo <= LabelOf(scope, tag) && LabelOf(scope, tag) !in now.placed
  }

  lemma TagsInScope(scope: Scope, tags: seq<Name>, lo: nat, now: Snapshot)
    requires TagsUnplaced(scope, tags, lo, now)
    ensures forall tag :: tag in tags ==> ToTag(tag) in Exits(scope)
  {
    hide LabelOf, Separate;
    forall tag | tag in tags ensures ToTag(tag) in Exits(scope) { assert lo <= LabelOf(scope, tag); }
  }

  lemma NoTagsUnplaced(scope: Scope, lo: nat, now: Snapshot)
    ensures TagsUnplaced(scope, [], lo, now)
  {
  }

  lemma NewTagsUnplaced(scope: Scope, tags: seq<Name>, first: nat, now: Snapshot)
    requires first + |tags| == now.gen.labels
    requires forall id :: first <= id < first + |tags| ==> id !in now.placed
    ensures TagsUnplaced(Tags(tags, first, scope), tags, first, now)
  {
    var inner := Tags(tags, first, scope);
    forall tag | tag in tags
      ensures ToTag(tag) in Exits(inner) && LabelOf(inner, tag) == first + TagIndex(tags, tag)
    {
      assert inner.Catches(ToTag(tag));
    }
  }

  lemma FirstUnplaced(scope: Scope, name: Name, tags: seq<Name>, lo: nat, now: Snapshot)
    requires TagsUnplaced(scope, [name] + tags, lo, now)
    ensures FindExit(scope, ToTag(name)).Some?
    ensures var id := FindExit(scope, ToTag(name)).value.exit;
            id == LabelOf(scope, name) && lo <= id < now.gen.labels && id !in now.placed
  {
    assert name in [name] + tags;
  }

  lemma RestUnplaced(scope: Scope, name: Name, tags: seq<Name>, lo: nat, a: Snapshot, b: Snapshot)
    requires TagsUnplaced(scope, [name] + tags, lo, a) && name !in tags
    requires b.placed == a.placed + {LabelOf(scope, name)} && b.gen == a.gen
    ensures TagsUnplaced(scope, tags, lo, b)
  {
    hide LabelOf;
    assert name in [name] + tags && forall tag :: tag in tags ==> tag in [name] + tags;
  }

  lemma StillUnplaced(scope: Scope, tags: seq<Name>, lo: nat, a: Snapshot, b: Snapshot, f: nat, o: Output)
    requires TagsUnplaced(scope, tags, lo, a) && Emits(a, b, f, o)
    ensures TagsUnplaced(scope, tags, lo, b)
  {
    hide LabelOf, WithinLimits;
  }

  lemma TagbodyMeans(scope: Scope, tags: seq<Name>, g: Gen)
    ensures tags == [] ==> Compiler.BindTags(scope, tags, g.labels) == scope && TagbodyGen(scope, tags, g) == g
    ensures tags != [] ==>
              && Compiler.BindTags(scope, tags, g.labels) == Tags(tags, g.labels, scope)
              && TagbodyGen(scope, tags, g) == g.Needing(scope.FrameEnd() + 1).(labels := g.labels + |tags|)
              && g.Needing(scope.FrameEnd() + 1).labels == g.labels
    ensures g.labels <= TagbodyGen(scope, tags, g).labels
  {
  }

  lemma StatementsCode(statements: Statements, scope: Scope, g: Gen)
    requires forall tag :: tag in TagsOf(statements) ==> ToTag(tag) in Exits(scope)
    ensures statements.Ended? ==>
              && ScopedStatements(statements, Vars(scope), Exits(scope))
              && Compiler.CompileStatements(statements, scope, g) == Output([], g) && WithinLimits([])
    ensures statements.Tag? ==>
              && TagsOf(statements) == [statements.name] + TagsOf(statements.rest)
              && (ScopedStatements(statements, Vars(scope), Exits(scope))
                  <==> statements.name !in TagsOf(statements.rest)
                       && ScopedStatements(statements.rest, Vars(scope), Exits(scope)))
    ensures statements.Tag? && ScopedStatements(statements, Vars(scope), Exits(scope)) ==>
              var b := Compiler.CompileStatements(statements.rest, scope, g);
              var mark := Mark(FindExit(scope, ToTag(statements.name)).value.exit);
              && Compiler.CompileStatements(statements, scope, g) == Output([mark] + b.code, b.gen)
              && (WithinLimits([mark] + b.code) <==> WithinLimits(b.code))
    ensures statements.Statement? ==>
              && TagsOf(statements) == TagsOf(statements.rest)
              && (ScopedStatements(statements, Vars(scope), Exits(scope))
                  <==> Scoped(statements.form, Vars(scope), Exits(scope))
                       && ScopedStatements(statements.rest, Vars(scope), Exits(scope)))
    ensures statements.Statement? && ScopedStatements(statements, Vars(scope), Exits(scope)) ==>
              var a := Compiler.Compile(statements.form, scope, 0, g);
              var b := Compiler.CompileStatements(statements.rest, scope, a.gen);
              && Compiler.CompileStatements(statements, scope, g) == Output(a.code + b.code, b.gen)
              && (WithinLimits(a.code + b.code) <==> WithinLimits(a.code) && WithinLimits(b.code))
  {
    EmptyEmittable();
    hide Compile, WithinLimits, FindExit, Exits, Vars, Scoped;
    if ScopedStatements(statements, Vars(scope), Exits(scope)) {
      match statements
      case Ended =>
      case Tag(name, rest) =>
        assert name in TagsOf(statements);
        var id := FindExit(scope, ToTag(name)).value.exit;
        MarkIsEmittable(id);
        EmittableParts([Mark(id)], Compiler.CompileStatements(rest, scope, g).code);
      case Statement(form, rest) =>
        var a := Compiler.Compile(form, scope, 0, g);
        EmittableParts(a.code, Compiler.CompileStatements(rest, scope, a.gen).code);
    }
  }

  lemma TagbodyCode(form: Form, scope: Scope, r: Receiving, g: Gen)
    requires form.Tagbody?
    ensures var tags := TagsOf(form.statements);
            var inner, g1 := Compiler.BindTags(scope, tags, g.labels), TagbodyGen(scope, tags, g);
            var entry, close := [Entry(Lex(scope.FrameEnd()))], [EntryClose(Lex(scope.FrameEnd()))];
            && (Scoped(form, Vars(scope), Exits(scope))
                <==> (tags != [] ==> Nowhere in Exits(scope))
                     && ScopedStatements(form.statements, Vars(inner), Exits(inner)))
            && (Scoped(form, Vars(scope), Exits(scope)) ==>
                  var b := Compiler.CompileStatements(form.statements, inner, g1);
                  var n := Compiler.CompileLiteral(Nil, r, b.gen);
                  var code := if tags == [] then b.code else entry + b.code + close;
                  && Compiler.Compile(form, scope, r, g) == Output(code + n.code, n.gen)
                  && [] + b.code == b.code && n.gen == b.gen
                  && (WithinLimits(code + n.code)
                      <==> WithinLimits(b.code) && WithinLimits(n.code)
                           && (tags != [] ==> WithinLimits(entry) && WithinLimits(close))))
  {
    hide CompileEffects, WithinLimits, CompileProgn, CompileClauses, CompileSetq, TagsOf, ToTags,
      CompileInits, CompileArgs, CompileProg1, CompileIf, CompileBlock, CompileStatements, Exits, Vars;
    var tags := TagsOf(form.statements);
    if Scoped(form, Vars(scope), Exits(scope)) {
      var entry, close := [Entry(Lex(scope.FrameEnd()))], [EntryClose(Lex(scope.FrameEnd()))];
      var b := Compiler.CompileStatements(form.statements, Compiler.BindTags(scope, tags, g.labels),
                                          TagbodyGen(scope, tags, g));
      var code := if tags == [] then b.code else entry + b.code + close;
      EmittableParts(code, Compiler.CompileLiteral(Nil, r, b.gen).code);
      EmittableParts(entry + b.code, close);
      EmittableParts(entry, b.code);
    }
  }

  lemma AssigningCode(scope: Scope, name: Name, r: Receiving)
    requires name in Vars(scope)
    ensures FindVar(scope, name).Some?
    ensures var dup := if r != 0 then [Op(VM_DUP)] else [];
            var bind := LexSet(Lex(FindVar(scope, name).value));
            && Assigning(scope, name, r) == dup + [bind] + PopIfAll(r)
            && (WithinLimits(Assigning(scope, name, r)) <==> WithinLimits([bind]))
            && WithinLimits(dup) && WithinLimits(PopIfAll(r)) && !Op(VM_DUP).Mark?
  {
    var dup := if r != 0 then [Op(VM_DUP)] else [];
    var bind := LexSet(Lex(FindVar(scope, name).value));
    assert WithinLimits(dup) && WithinLimits(PopIfAll(r));
    EmittableParts(dup + [bind], PopIfAll(r));
    EmittableParts(dup, [bind]);
    hide WithinLimits, PopIfAll;
    assert Assigning(scope, name, r) == dup + [bind] + PopIfAll(r);
  }

  lemma SetqCode(pairs: Bindings, scope: Scope, r: Receiving, g: Gen)
    ensures pairs.NoMore? ==>
              ScopedPairs(pairs, Vars(scope), Exits(scope))
              && Compiler.CompileSetq(pairs, scope, r, g) == Compiler.CompileLiteral(Nil, r, g)
    ensures pairs.Binding? ==>
              (ScopedPairs(pairs, Vars(scope), Exits(scope))
               <==> pairs.name in Vars(scope) && Scoped(pairs.init, Vars(scope), Exits(scope))
                    && ScopedPairs(pairs.rest, Vars(scope), Exits(scope)))
    ensures pairs.Binding? && pairs.rest.NoMore? ==> ScopedPairs(pairs.rest, Vars(scope), Exits(scope))
    ensures pairs.Binding? && ScopedPairs(pairs, Vars(scope), Exits(scope)) ==>
              var a := Compiler.Compile(pairs.init, scope, 1, g);
              if pairs.rest.NoMore? then
                var assign := Assigning(scope, pairs.name, r);
                Compiler.CompileSetq(pairs, scope, r, g) == Output(a.code + assign, a.gen)
                && (WithinLimits(a.code + assign) <==> WithinLimits(a.code) && WithinLimits(assign))
              else
                var assign, b := Assigning(scope, pairs.name, 0), Compiler.CompileSetq(pairs.rest, scope, r, a.gen);
                Compiler.CompileSetq(pairs, scope, r, g) == Output(a.code + assign + b.code, b.gen)
                && (WithinLimits(a.code + assign + b.code)
                    <==> WithinLimits(a.code) && WithinLimits(assign) && WithinLimits(b.code))
  {
    hide Compile, WithinLimits, PopIfAll, FindVar, Vars;
    if pairs.Binding? && ScopedPairs(pairs, Vars(scope), Exits(scope)) {
      var a := Compiler.Compile(pairs.init, scope, 1, g);
      var r1: Receiving := if pairs.rest.NoMore? then r else 0;
      var assign := Assigning(scope, pairs.name, r1);
      var dup: seq<Item> := if r1 != 0 then [Op(VM_DUP)] else [];
      assert a.code + dup + [LexSet(Lex(FindVar(scope, pairs.name).value))] + PopIfAll(r1) == a.code + assign;
      EmittableParts(a.code, assign);
      if pairs.rest.Binding? {
        EmittableParts(a.code + assign, Compiler.CompileSetq(pairs.rest, scope, r, a.gen).code);
      }
    }
  }

  lemma ReturnFromCode(form: Form, scope: Scope, r: Receiving, g: Gen)
    requires form.ReturnFrom?
    ensures Scoped(form, Vars(scope), Exits(scope))
            <==> FindExit(scope, ToBlock(form.name)).Some? && Scoped(form.result, Vars(scope), Exits(scope))
    ensures Scoped(form, Vars(scope), Exits(scope)) ==>
              var to := ToBlock(form.name);
              var info := FindExit(scope, to).value;
              var a := Compiler.Compile(form.result, scope, if info.receiving == 0 then 0 else -1, g);
              Compiler.Compile(form, scope, r, g) == Output(a.code + Unwind(scope, to) + Leaving(info), a.gen)
              && (WithinLimits(a.code + Unwind(scope, to) + Leaving(info))
                  <==> WithinLimits(a.code) && WithinLimits(Unwind(scope, to) + Leaving(info)))
  {
    hide CompileTagbody, CompileEffects, WithinLimits, CompileIf, CompileBlock, CompileProgn, CompileClauses,
      CompileSetq,
      CompileLiteral,
      CompileInits, CompileArgs, CompileProg1, FindExit, Unwind, Leaving;
    if Scoped(form, Vars(scope), Exits(scope)) {
      var to := ToBlock(form.name);
      var info := FindExit(scope, to).value;
      var a := Compiler.Compile(form.result, scope, if info.receiving == 0 then 0 else -1, g);
      EmittableParts(a.code, Unwind(scope, to) + Leaving(info));
      assert a.code + (Unwind(scope, to) + Leaving(info)) == a.code + Unwind(scope, to) + Leaving(info);
    }
  }

  lemma JumpIsEmittable(id: nat)
    ensures WithinLimits([Jump(id)]) && WithinLimits([JumpIf(id)]) && !Jump(id).Mark? && !JumpIf(id).Mark?
  {
  }

  lemma PushIsEmittable()
    ensures WithinLimits([Op(VM_PUSH)]) && !Op(VM_PUSH).Mark?
  {
  }

  lemma LandingCode(r: Receiving, exit: nat, normal: nat)
    ensures Landing(r, exit, normal)
            == if r == 1 then [Jump(normal), Mark(exit), Op(VM_PUSH), Mark(normal)] else [Mark(exit)]
    ensures WithinLimits(Landing(r, exit, normal))
  {
  }

  // What compile_if emits between the condition and the then branch's label.
  ghost function ElseCode(form: Form, scope: Scope, r: Receiving, g: Gen, thenLabel: nat, doneLabel: nat): Output
    requires form.If?
  {
    if Scoped(form.els, Vars(scope), Exits(scope)) then
      var e := Compiler.Compile(form.els, scope, r, g);
      Output([JumpIf(thenLabel)] + e.code + [Jump(doneLabel)], e.gen)
    else Output([], g)
  }

  lemma ElseMeans(form: Form, scope: Scope, r: Receiving, g: Gen, thenLabel: nat, doneLabel: nat)
    requires form.If? && Scoped(form.els, Vars(scope), Exits(scope))
    ensures var e := Compiler.Compile(form.els, scope, r, g);
            ElseCode(form, scope, r, g, thenLabel, doneLabel)
            == Output([JumpIf(thenLabel)] + e.code + [Jump(doneLabel)], e.gen)
  {
    hide Compile;
  }

  lemma IfCode(form: Form, scope: Scope, r: Receiving, g: Gen)
    requires form.If?
    ensures Scoped(form, Vars(scope), Exits(scope))
            <==> Scoped(form.cond, Vars(scope), Exits(scope)) && Scoped(form.thn, Vars(scope), Exits(scope))
                 && Scoped(form.els, Vars(scope), Exits(scope))
    ensures Scoped(form, Vars(scope), Exits(scope)) ==>
              var c := Compiler.Compile(form.cond, scope, 1, g);
              var L := c.gen.labels;
              var g1 := c.gen.(labels := L + 1).(labels := L + 1 + 1);
              var e := Compiler.Compile(form.els, scope, r, g1);
              var j := ElseCode(form, scope, r, g1, L, L + 1);
              var t := Compiler.Compile(form.thn, scope, r, e.gen);
              var code := c.code + j.code + [Mark(L)] + t.code + [Mark(L + 1)];
              && j.gen == e.gen
              && Compiler.Compile(form, scope, r, g) == Output(code, t.gen)
              && (WithinLimits(code) <==> WithinLimits(c.code) && WithinLimits(e.code) && WithinLimits(t.code))
  {
    hide *;
    IfIsDispatched(form, scope, r, g);
    if Scoped(form, Vars(scope), Exits(scope)) {
      var c := Compiler.Compile(form.cond, scope, 1, g);
      var L := c.gen.labels;
      var g1 := c.gen.(labels := L + 1).(labels := L + 1 + 1);
      var e := Compiler.Compile(form.els, scope, r, g1);
      var t := Compiler.Compile(form.thn, scope, r, e.gen);
      IfMeans(form, scope, r, g);
      TwoLabels(c.gen);
      ElseMeans(form, scope, r, g1, L, L + 1);
      IfEmittable(c.code, e.code, t.code, L);
    }
  }

  lemma IfIsDispatched(form: Form, scope: Scope, r: Receiving, g: Gen)
    requires form.If?
    ensures Scoped(form, Vars(scope), Exits(scope))
            <==> Scoped(form.cond, Vars(scope), Exits(scope)) && Scoped(form.thn, Vars(scope), Exits(scope))
                 && Scoped(form.els, Vars(scope), Exits(scope))
    ensures Scoped(form, Vars(scope), Exits(scope)) ==>
              Compiler.Compile(form, scope, r, g) == Compiler.CompileIf(form, scope, r, g)
  {
    hide CompileIf;
  }

  lemma IfMeans(form: Form, scope: Scope, r: Receiving, g: Gen)
    requires form.If? && Scoped(form, Vars(scope), Exits(scope)) && Scoped(form.cond, Vars(scope), Exits(scope))
    requires Scoped(form.thn, Vars(scope), Exits(scope)) && Scoped(form.els, Vars(scope), Exits(scope))
    ensures var c := Compiler.Compile(form.cond, scope, 1, g);
            var L := c.gen.labels;
            var e := Compiler.Compile(form.els, scope, r, c.gen.(labels := L + 2));
            var t := Compiler.Compile(form.thn, scope, r, e.gen);
            Compiler.CompileIf(form, scope, r, g)
            == Output(c.code + [JumpIf(L)] + e.code + [Jump(L + 1), Mark(L)] + t.code + [Mark(L + 1)], t.gen)
  {
    hide Compile, Scoped, Exits, Vars;
  }

  lemma TwoLabels(g: Gen)
    ensures g.(labels := g.labels + 1).(labels := g.labels + 1 + 1) == g.(labels := g.labels + 2)
  {
  }

  lemma IfEmittable(c: seq<Item>, e: seq<Item>, t: seq<Item>, L: nat)
    ensures c + [JumpIf(L)] + e + [Jump(L + 1), Mark(L)] + t + [Mark(L + 1)]
            == c + ([JumpIf(L)] + e + [Jump(L + 1)]) + [Mark(L)] + t + [Mark(L + 1)]
    ensures WithinLimits(c + ([JumpIf(L)] + e + [Jump(L + 1)]) + [Mark(L)] + t + [Mark(L + 1)])
            <==> WithinLimits(c) && WithinLimits(e) && WithinLimits(t)
  {
    hide WithinLimits;
    JumpIsEmittable(L);
    JumpIsEmittable(L + 1);
    MarkIsEmittable(L);
    MarkIsEmittable(L + 1);
    var j := [JumpIf(L)] + e + [Jump(L + 1)];
    EmittableParts(c + j + [Mark(L)] + t, [Mark(L + 1)]);
    EmittableParts(c + j + [Mark(L)], t);
    EmittableParts(c + j, [Mark(L)]);
    EmittableParts(c, j);
    EmittableParts([JumpIf(L)] + e, [Jump(L + 1)]);
    EmittableParts([JumpIf(L)], e);
  }

  lemma BlockCode(form: Form, scope: Scope, r: Receiving, g: Gen)
    requires form.Block?
    ensures var inner := Blk(form.name, g.labels, r, scope);
            var g1 := g.Needing(scope.FrameEnd() + 1).(labels := g.labels + 2);
            var lex := Lex(scope.FrameEnd());
            && g1 == g.(labels := g.labels + 1).(labels := g.labels + 1 + 1).Needing(scope.FrameEnd() + 1)
            && (Scoped(form, Vars(scope), Exits(scope)) <==> ScopedForms(form.body, Vars(inner), Exits(inner)))
            && (Scoped(form, Vars(scope), Exits(scope)) ==>
                  var b := Compiler.CompileProgn(form.body, inner, r, g1);
                  var code := [Entry(lex)] + b.code + Landing(r, g.labels, g.labels + 1) + [EntryClose(lex)];
                  && Compiler.Compile(form, scope, r, g) == Output(code, b.gen)
                  && (WithinLimits(code)
                      <==> WithinLimits([Entry(lex)]) && WithinLimits(b.code) && WithinLimits([EntryClose(lex)])))
  {
    hide CompileTagbody, CompileEffects, WithinLimits, CompileProgn, CompileClauses, CompileSetq, CompileLiteral,
      Landing,
      CompileInits, CompileArgs, CompileProg1, CompileIf;
    var inner := Blk(form.name, g.labels, r, scope);
    var g1 := g.Needing(scope.FrameEnd() + 1).(labels := g.labels + 2);
    var lex := Lex(scope.FrameEnd());
    if Scoped(form, Vars(scope), Exits(scope)) {
      var b := Compiler.CompileProgn(form.body, inner, r, g1);
      LandingCode(r, g.labels, g.labels + 1);
      EmittableParts([Entry(lex)] + b.code + Landing(r, g.labels, g.labels + 1), [EntryClose(lex)]);
      EmittableParts([Entry(lex)] + b.code, Landing(r, g.labels, g.labels + 1));
      EmittableParts([Entry(lex)], b.code);
    }
  }

  lemma PrologueCode(n: nat)
    ensures n == 0 ==> Prologue(n) == [Op1(VM_CHECK_ARG_COUNT_LE, 0)]
    ensures !Op1(VM_CHECK_ARG_COUNT_LE, n).Mark?
    ensures var check, bind := Op1(VM_CHECK_ARG_COUNT_EQ, n), Op1(VM_BIND_REQUIRED_ARGS, n);
            && !check.Mark? && !bind.Mark?
            && (n > 0 ==>
                  Prologue(n) == [check, bind] + Encages(n)
                  && (WithinLimits(Prologue(n)) <==>
                      WithinLimits([check]) && WithinLimits([bind]) && WithinLimits(Encages(n))))
  {
    hide WithinLimits, Encages;
    var check, bind := Op1(VM_CHECK_ARG_COUNT_EQ, n), Op1(VM_BIND_REQUIRED_ARGS, n);
    EmittableParts([check, bind], Encages(n));
    assert [check, bind] == [check] + [bind];
    EmittableParts([check], [bind]);
  }

  // Emitting the first i encages of n.
  lemma {:induction false} EncagesCode(i: nat, n: nat)
    requires i <= n
    ensures Encages(0) == []
    ensures i < n ==> Encages(i + 1) == Encages(i) + [Encage(Lex(i))]
    ensures i < n && !WithinLimits([Encage(Lex(i))]) ==> !WithinLimits(Encages(n))
  {
    assert i < n ==> Encages(n)[i] == Encage(Lex(i)) == [Encage(Lex(i))][0];
  }

  lemma NeedingParams(g: Gen, n: nat)
    requires g.nlocals == 0
    ensures g.Needing(n) == g.(nlocals := n)
  {
  }

  // Making the entry label and counting the parameters' registers emits nothing.
  lemma NothingYet(a: Snapshot, b: Snapshot, f: nat)
    requires f < |a.parts| && b.parts == a.parts && b.placed == a.placed && a.gen.labels <= b.gen.labels
    ensures Emits(a, b, f, Output([], b.gen))
  {
    assert a.parts[f] + [] == a.parts[f];
  }

  lemma AllEmitted(a: Snapshot, b: Snapshot, f: nat, o: Output)
    requires Emits(a, b, f, o) && a.parts[f] == []
    ensures b.parts == a.parts[f := o.code] && b.gen == o.gen && WithinLimits(o.code)
  {
    hide WithinLimits;
    assert [] + o.code == o.code;
  }

  lemma LambdaCode(params: seq<Name>, body: Forms, loops: bool, literals: seq<Constant>, labels: nat)
    ensures var scope := Parameters(params, loops);
            && (Covered(params, body, loops) <==> ScopedForms(body, Vars(scope), Exits(scope)))
            && (Covered(params, body, loops) ==>
                  var c := Compiler.CompileProgn(body, scope, -1, Gen(literals, labels + 1, |params|));
                  var code := [Mark(labels)] + Prologue(|params|) + c.code + [Op(VM_RETURN)];
                  && Compiler.CompileLambda(params, body, loops, literals, labels) == Output(code, c.gen)
                  && (WithinLimits(code) <==> WithinLimits(Prologue(|params|)) && WithinLimits(c.code)))
    ensures WithinLimits([Op(VM_RETURN)]) && !Op(VM_RETURN).Mark?
  {
    assert WithinLimits([Op(VM_RETURN)]);
    MarkIsEmittable(labels);
    hide WithinLimits, CompileProgn, ScopedForms, Prologue;
    if Covered(params, body, loops) {
      var c := Compiler.CompileProgn(body, Parameters(params, loops), -1, Gen(literals, labels + 1, |params|));
      EmittableParts([Mark(labels)] + Prologue(|params|) + c.code, [Op(VM_RETURN)]);
      EmittableParts([Mark(labels)] + Prologue(|params|), c.code);
      EmittableParts([Mark(labels)], Prologue(|params|));
    }
  }

  /** compile_lambda: adds to the module a function whose items are exactly the
      compiled lambda, unless an operand exceeds a limit or the lambda is not
      covered, as when a return-from has no block, a go has no tag or a variable
      is not lexical. */
  method AddLambda(m: Module, params: seq<Name>, body: Forms, loops: bool, literals: seq<Constant>)
    returns (ok: bool, literals': seq<Constant>, nlocals: nat)
    requires m.Valid()
    modifies m
    ensures m.Valid()
    ensures ok == (Covered(params, body, loops)
                   && WithinLimits(Compiler.CompileLambda(params, body, loops, literals, old(m.nextLabel)).code))
    ensures ok ==>
              var o := Compiler.CompileLambda(params, body, loops, literals, old(m.nextLabel));
              m.parts == old(m.parts) + [o.code] && Gen(literals', m.nextLabel, nlocals) == o.gen
  {
    var f := m.AddFunction();
    var entry := m.MakeLabel();
    assert |m.cfunctions| == |m.parts|;
    var c := new Compilation(m, f, literals);
    ghost var parts := m.parts;
    ok := c.CompileFunction(params, body, loops, entry);
    literals', nlocals := c.literals, c.nlocals;
    assert ok ==> m.parts == parts[f := c.Now().parts[f]];
  }
}
