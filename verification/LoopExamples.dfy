/** A compiled loop whose go jumps back over too much code does not arrive at its tag. */
module LoopExamples {
  import opened Options
  import opened Instructions
  import opened Relaxation
  import opened Emission
  import opened Source
  import opened Compiler

  // n calls of a function, and then a go to tag a.
  function Body(n: nat): Statements {
    if n == 0 then Statement(Go("a"), Ended) else Statement(Call("f", Done), Body(n - 1))
  }

  // (lambda () (tagbody a (f) ... (f) (go a)))
  function Loop(n: nat): Forms { More(Tagbody(Tag("a", Body(n))), Done) }

  function Calls(n: nat): (code: seq<Item>)
    ensures |code| == 2 * n
  {
    if n == 0 then []
    else [Op1(VM_CALLED_FDEFINITION, 0), Ins(I2(VM_CALL_RECEIVE_FIXED, 0, 0))] + Calls(n - 1)
  }

  function Start(): seq<Item> { [Mark(0), Ins(ArgumentCheck(0)), Entry(Lex(0)), Mark(1)] }

  function End(): seq<Item> {
    [RestoreSp(Lex(0)), Exit(1, Lex(0)), EntryClose(Lex(0)), Op(VM_NIL), Op(VM_POP), Op(VM_RETURN)]
  }

  function LoopItems(n: nat): (items: seq<Item>)
    ensures |items| == 2 * n + 10
  {
    Start() + Calls(n) + End()
  }

  lemma {:induction false} BodyScoped(n: nat, vars: set<Name>, exits: set<Destination>)
    requires ToTag("a") in exits
    ensures ScopedStatements(Body(n), vars, exits) && TagsOf(Body(n)) == []
  {
    if n > 0 { BodyScoped(n - 1, vars, exits); }
  }

  function Inside(): Scope { Tags(["a"], 1, Null(true)) }

  lemma InsideMeans()
    ensures Vars(Inside()) == {} && ToTag("a") in Exits(Inside()) && Nowhere in Exits(Null(true))
    ensures Exits(Inside()) == ToTags(["a"]) + Exits(Null(true))
    ensures FindExit(Inside(), ToTag("a")) == Some(BlockInfo(0, 1, 0)) && Unwind(Inside(), ToTag("a")) == []
  {
    assert "a" in ["a"];
    assert Inside().Catches(ToTag("a"));
  }

  lemma LoopScoped(n: nat)
    ensures TagsOf(Tag("a", Body(n))) == ["a"]
    ensures ScopedStatements(Tag("a", Body(n)), Vars(Inside()), Exits(Inside()))
    ensures Scoped(Tagbody(Tag("a", Body(n))), {}, Exits(Null(true)))
  {
    InsideMeans();
    BodyScoped(n, {}, Exits(Inside()));
    hide Body, Inside;
    assert TagsOf(Tag("a", Body(n))) == ["a"];
    assert ScopedStatements(Tag("a", Body(n)), {}, Exits(Inside()));
  }

  // The code of the statements, once the cell of f is the first literal.
  lemma {:induction false} BodyCode(n: nat, scope: Scope, g: Gen)
    requires scope == Inside() && g.literals <= [FunctionCellInfo("f")]
    requires ScopedStatements(Body(n), Vars(scope), Exits(scope))
    ensures CompileStatements(Body(n), scope, g).code == Calls(n) + [RestoreSp(Lex(0)), Exit(1, Lex(0))]
    decreases n
  {
    hide *;
    BodyMeans(n);
    if n == 0 {
      GoBack(scope, g);
    } else {
      var g' := WithLiteral(g, FunctionCellInfo("f"));
      StatementCode(Call("f", Done), Body(n - 1), scope, g);
      CallCode(scope, g);
      BodyCode(n - 1, scope, g');
      var end := [RestoreSp(Lex(0)), Exit(1, Lex(0))];
      assert Calls(1) + (Calls(n - 1) + end) == Calls(1) + Calls(n - 1) + end;
    }
  }

  lemma BodyMeans(n: nat)
    ensures n > 0 ==> Body(n) == Statement(Call("f", Done), Body(n - 1)) && Calls(n) == Calls(1) + Calls(n - 1)
  {
  }

  lemma StatementCode(form: Form, rest: Statements, scope: Scope, g: Gen)
    requires ScopedStatements(Statement(form, rest), Vars(scope), Exits(scope))
    ensures Scoped(form, Vars(scope), Exits(scope)) && ScopedStatements(rest, Vars(scope), Exits(scope))
    ensures var f := Compile(form, scope, 0, g);
            CompileStatements(Statement(form, rest), scope, g).code
            == f.code + CompileStatements(rest, scope, f.gen).code
  {
    hide Compile, Scoped;
  }

  lemma CallCode(scope: Scope, g: Gen)
    requires g.literals <= [FunctionCellInfo("f")]
    requires Scoped(Call("f", Done), Vars(scope), Exits(scope))
    ensures var g' := WithLiteral(g, FunctionCellInfo("f"));
            && g'.literals == [FunctionCellInfo("f")]
            && Compile(Call("f", Done), scope, 0, g) == Output(Calls(1), g')
  {
    assert g.literals == [] || g.literals == [FunctionCellInfo("f")];
    assert LiteralIndex(g.literals, FunctionCellInfo("f")) == 0;
    assert Calls(1) == [Op1(VM_CALLED_FDEFINITION, 0), Ins(I2(VM_CALL_RECEIVE_FIXED, 0, 0))] + Calls(0);
  }

  lemma GoBack(scope: Scope, g: Gen)
    requires scope == Inside() && ScopedStatements(Body(0), Vars(scope), Exits(scope))
    ensures CompileStatements(Body(0), scope, g).code == Calls(0) + [RestoreSp(Lex(0)), Exit(1, Lex(0))]
  {
    InsideMeans();
  }

  lemma TagbodyCode(n: nat)
    ensures Scoped(Tagbody(Tag("a", Body(n))), {}, Exits(Null(true)))
    ensures CompileTagbody(Tagbody(Tag("a", Body(n))), Null(true), -1, Gen([], 1, 0)).code
            == [Entry(Lex(0))] + ([Mark(1)] + (Calls(n) + [RestoreSp(Lex(0)), Exit(1, Lex(0))])) + [EntryClose(Lex(0))]
               + [Op(VM_NIL), Op(VM_POP)]
  {
    LoopScoped(n);
    InsideMeans();
    var g1 := Gen([], 2, 1);
    BodyCode(n, Inside(), g1);
    var b := CompileStatements(Tag("a", Body(n)), Inside(), g1);
    assert b.code == [Mark(1)] + CompileStatements(Body(n), Inside(), g1).code;
    assert BindTags(Null(true), ["a"], 1) == Inside() && TagbodyGen(Null(true), ["a"], Gen([], 1, 0)) == g1;
    assert CompileLiteral(Nil, -1, b.gen).code == [Op(VM_NIL), Op(VM_POP)];
    hide CompileStatements, Calls, Body, Inside, Exits, Vars, ScopedStatements;
  }

  /** What the compiler emits for the loop. */
  lemma LoopIsCompiled(n: nat)
    ensures Covered([], Loop(n), true) && CompileLambda([], Loop(n), true, [], 0).code == LoopItems(n)
  {
    TagbodyCode(n);
    var form := Tagbody(Tag("a", Body(n)));
    LambdaOf(form);
    hide *;
    LoopMeans(n);
    Reassociated(Calls(n));
  }

  lemma LoopMeans(n: nat)
    ensures Loop(n) == More(Tagbody(Tag("a", Body(n))), Done) && LoopItems(n) == Start() + Calls(n) + End()
  {
  }

  lemma LambdaOf(form: Form)
    requires form.Tagbody? && Scoped(form, {}, Exits(Null(true)))
    ensures Covered([], More(form, Done), true)
    ensures CompileLambda([], More(form, Done), true, [], 0).code
            == [Mark(0)] + [Ins(ArgumentCheck(0))] + CompileTagbody(form, Null(true), -1, Gen([], 1, 0)).code
               + [Op(VM_RETURN)]
  {
    hide CompileTagbody, Scoped, Exits;
    var none: seq<Name>, g := [], Gen([], 1, 0);
    assert (set name | name in none) == {};
    assert ScopedForms(More(form, Done), {}, Exits(Null(true)));
    assert Covered(none, More(form, Done), true);
    assert Parameters(none, true) == Null(true) && Vars(Null(true)) == {};
    assert Compile(form, Null(true), -1, g) == CompileTagbody(form, Null(true), -1, g);
    assert CompileProgn(More(form, Done), Null(true), -1, g) == CompileTagbody(form, Null(true), -1, g);
  }

  lemma Reassociated(calls: seq<Item>)
    ensures [Mark(0)] + [Ins(ArgumentCheck(0))]
            + ([Entry(Lex(0))] + ([Mark(1)] + (calls + [RestoreSp(Lex(0)), Exit(1, Lex(0))])) + [EntryClose(Lex(0))]
               + [Op(VM_NIL), Op(VM_POP)])
            + [Op(VM_RETURN)]
            == Start() + calls + End()
  {
  }

  // ---- the linked loop ----

  lemma {:induction false} CallsAt(n: nat, i: nat)
    requires i < n
    ensures Calls(n)[2 * i] == Op1(VM_CALLED_FDEFINITION, 0)
    ensures Calls(n)[2 * i + 1] == Ins(I2(VM_CALL_RECEIVE_FIXED, 0, 0))
    decreases n
  {
    if i > 0 {
      CallsAt(n - 1, i - 1);
      assert Calls(n)[2 * i] == Calls(n - 1)[2 * (i - 1)];
      assert Calls(n)[2 * i + 1] == Calls(n - 1)[2 * (i - 1) + 1];
    }
  }

  // Where the tag, the calls and the go stand.
  lemma LoopItemsAt(n: nat)
    ensures var items := LoopItems(n);
            && items[0] == Mark(0) && items[1] == Ins(ArgumentCheck(0)) && items[2] == Entry(Lex(0))
            && items[3] == Mark(1) && items[2 * n + 4] == RestoreSp(Lex(0)) && items[2 * n + 5] == Exit(1, Lex(0))
            && (forall k :: 0 <= k < |items| && items[k].IsLabelFixup() ==> k == 2 * n + 5)
            && (forall k :: 0 <= k < |items| ==> Emittable(items[k]))
            && Target(items, 1) == 3
    ensures forall i {:trigger LoopItems(n)[2 * i + 4]} :: 0 <= i < n ==>
              && LoopItems(n)[2 * i + 4] == Op1(VM_CALLED_FDEFINITION, 0)
              && LoopItems(n)[2 * i + 5] == Ins(I2(VM_CALL_RECEIVE_FIXED, 0, 0))
  {
    var items := LoopItems(n);
    forall i {:trigger items[2 * i + 4]} | 0 <= i < n
      ensures items[2 * i + 4] == Op1(VM_CALLED_FDEFINITION, 0)
      ensures items[2 * i + 5] == Ins(I2(VM_CALL_RECEIVE_FIXED, 0, 0))
    {
      CallsAt(n, i);
      assert items[4 + 2 * i] == Calls(n)[2 * i] && items[4 + (2 * i + 1)] == Calls(n)[2 * i + 1];
    }
    forall k | 0 <= k < |items|
      ensures Emittable(items[k]) && (items[k].IsLabelFixup() ==> k == 2 * n + 5)
    {
      if 4 <= k < 2 * n + 4 {
        var i := (k - 4) / 2;
        assert items[2 * i + 4].Ins? && items[2 * i + 5].Ins?;
        assert k == 2 * i + 4 || k == 2 * i + 5;
        assert Emittable(items[2 * i + 4]) && Emittable(items[2 * i + 5]);
      } else if k < 4 {
        assert items[k] == Start()[k];
      } else {
        assert items[k] == End()[k - (2 * n + 4)];
      }
    }
  }

  // The bytes of every item but the go.
  ghost predicate FixedSizes(n: nat, sizes: seq<nat>) {
    && |sizes| == 2 * n + 10
    && forall k :: 0 <= k < 2 * n + 10 && k != 2 * n + 5 ==>
         Emittable(LoopItems(n)[k]) && Some(sizes[k]) == Resize(LoopItems(n)[k], 0)
  }

  lemma {:induction false} CallPositions(n: nat, sizes: seq<nat>, i: nat)
    requires FixedSizes(n, sizes) && i <= n
    ensures Pos(sizes, 2 * i + 4) == Pos(sizes, 3) + 5 * i
    decreases i
  {
    LoopItemsAt(n);
    if i == 0 {
      assert sizes[3] == 0;
    } else {
      CallPositions(n, sizes, i - 1);
      assert LoopItems(n)[2 * (i - 1) + 4] == Op1(VM_CALLED_FDEFINITION, 0);
      assert sizes[2 * i + 2] == 2 && sizes[2 * i + 3] == 3;
    }
  }

  // The go jumps back over the calls and its vm_restore_sp.
  lemma LoopDistance(n: nat, sizes: seq<nat>)
    requires FixedSizes(n, sizes)
    ensures Delta(LoopItems(n), sizes, 2 * n + 5) == -(5 * n + 2)
  {
    LoopItemsAt(n);
    CallPositions(n, sizes, n);
    assert sizes[2 * n + 4] == 2;
    hide LoopItems;
    assert Pos(sizes, 2 * n + 5) == Pos(sizes, 2 * n + 4) + sizes[2 * n + 4];
  }

  function LoopSizes(n: nat): (sizes: seq<nat>)
    requires 5 * n + 2 <= 0x80_0000
    ensures |sizes| == 2 * n + 10
  {
    LoopItemsAt(n);
    seq(2 * n + 10, k requires 0 <= k < 2 * n + 10 =>
      if k == 2 * n + 5 then ControlSize(-(5 * n + 2)).value else Resize(LoopItems(n)[k], 0).value)
  }

  // The loop can be linked.
  lemma LoopLinks(n: nat)
    requires 5 * n + 2 <= 0x80_0000
    ensures WellFormed(LoopItems(n)) && Consistent(LoopItems(n), LoopSizes(n))
  {
    var items, sizes := LoopItems(n), LoopSizes(n);
    LoopItemsAt(n);
    assert items[3] in items;
    LoopDistance(n, sizes);
    hide LoopItems;
    forall k | 0 <= k < |items| ensures Want(items, sizes, k) == Some(sizes[k]) {
      if k != 2 * n + 5 { assert Delta(items, sizes, k) == 0; }
    }
  }

  /** However the loop is linked, its go arrives at its tag if and only if the
      tag is at most 32768 bytes back. */
  lemma LoopArrives(n: nat, sizes: seq<nat>)
    requires WellFormed(LoopItems(n)) && Consistent(LoopItems(n), sizes)
    ensures var items, k := LoopItems(n), 2 * n + 5;
            && items[k] == Exit(1, Lex(0)) && Target(items, 1) == 3 && |sizes| == |items| && 2 <= sizes[k] <= 4
            && Pos(sizes, k) + sizes[k] <= |LinkedCode(items, sizes)|
            && (Pos(sizes, k) + ReadDisplacement(LinkedCode(items, sizes), Pos(sizes, k), sizes[k]) == Pos(sizes, 3)
                <==> 5 * n + 2 <= 0x8000)
  {
    var items, k := LoopItems(n), 2 * n + 5;
    LoopItemsAt(n);
    hide LoopItems, LinkedCode;
    forall j | 0 <= j < |items| && j != k ensures Some(sizes[j]) == Resize(items[j], 0) {
      assert Want(items, sizes, j) == Some(sizes[j]);
    }
    LoopDistance(n, sizes);
    JumpLandsOnLabel(items, sizes, k);
    assert Want(items, sizes, k) == Some(sizes[k]);
  }
}
