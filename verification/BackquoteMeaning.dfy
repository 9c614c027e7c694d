/** What a backquoted template means, and that evaluating its expansion gives it. */
module BackquoteMeaning {
  import opened Options
  import opened Backquote

  // The value of a form and the state that its evaluation leaves behind.
  datatype Outcome<S> = Value(value: Sexp, state: S) | Failed

  datatype Outcomes<S> = Values(values: seq<Sexp>, state: S) | NoValues

  // An evaluator that knows quote, list and append and leaves all other forms,
  // which may change the state, to the program.
  function Eval<S>(program: (Sexp, S) -> Outcome<S>, form: Sexp, s: S): Outcome<S>
    decreases form, 1
  {
    if form.Cons? && form.car == Atom(QuoteName) && form.cdr.Cons? && form.cdr.cdr == NIL then
      Value(form.cdr.car, s)
    else if form.Cons? && form.car == Atom(ListName) then
      match EvalArguments(program, form.cdr, s)
      case NoValues => Failed
      case Values(values, s') => Value(Dotted(values, NIL), s')
    else if form.Cons? && form.car == Atom(AppendName) then
      match EvalArguments(program, form.cdr, s)
      case NoValues => Failed
      case Values(values, s') =>
        if values == [] || Append(values).None? then Failed else Value(Append(values).value, s')
    else program(form, s)
  }

  function EvalArguments<S>(program: (Sexp, S) -> Outcome<S>, forms: Sexp, s: S): Outcomes<S>
    decreases forms, 0
  {
    match forms
    case Atom(name) => if name.Nil? then Values([], s) else NoValues
    case Cons(form, rest) =>
      match Eval(program, form, s)
      case Failed => NoValues
      case Value(v, s') =>
        match EvalArguments(program, rest, s')
        case NoValues => NoValues
        case Values(vs, s'') => Values([v] + vs, s'')
  }

  // ---- the meaning of templates ----

  /** Section 2.4.6 of the Common Lisp HyperSpec, with the forms in a template
      evaluated from left to right. The template of an outer backquote is the
      expansion of the inner one. */
  function Instantiate<S>(program: (Sexp, S) -> Outcome<S>, template: Sexp, s: S): Outcome<S>
    decreases Backquotes(template), template, 1
  {
    match template
    case Atom(_) => Value(template, s)
    case Cons(head, _) =>
      if head == Atom(Quasiquote) then
        assert Backquotes(head) == 1;
        match Cadr(template)
        case None => Failed
        case Some(inner) =>
          match CompletelyProcess(inner)
          case None => Failed
          case Some(expansion) => Instantiate(program, expansion, s)
      else InstantiateTail(program, template, s)
  }

  function InstantiateTail<S>(program: (Sexp, S) -> Outcome<S>, p: Sexp, s: S): Outcome<S>
    decreases Backquotes(p), p, 0
  {
    match p
    case Atom(_) => Value(p, s)
    case Cons(head, rest) =>
      if head == Atom(Unquote) then
        match Cadr(p)
        case None => Failed
        case Some(form) => Eval(program, form, s)
      else
        match Contribution(program, head, s)
        case NoValues => Failed
        case Values(elements, s') =>
          match InstantiateTail(program, rest, s')
          case Failed => Failed
          case Value(tail, s'') => Value(Dotted(elements, tail), s'')
  }

  // The elements that a subtemplate stands for in a list.
  function Contribution<S>(program: (Sexp, S) -> Outcome<S>, x: Sexp, s: S): Outcomes<S>
    decreases Backquotes(x), x, 2
  {
    if x.Cons? && x.car == Atom(Unquote) then
      if Cadr(x).None? then NoValues else OneElement(Eval(program, Cadr(x).value, s))
    else if x.Cons? && (x.car == Atom(UnquoteSplice) || x.car == Atom(UnquoteNsplice)) then
      if Cadr(x).None? then NoValues else AllElements(Eval(program, Cadr(x).value, s))
    else OneElement(Instantiate(program, x, s))
  }

  function OneElement<S>(v: Outcome<S>): Outcomes<S> {
    match v
    case Failed => NoValues
    case Value(value, s) => Values([value], s)
  }

  // The elements of a list value.
  function AllElements<S>(v: Outcome<S>): Outcomes<S> {
    match v
    case Failed => NoValues
    case Value(value, s) => if Elements(value).None? then NoValues else Values(Elements(value).value, s)
  }

  // ---- tokens ----

  lemma RemovedList2(token: Symbol, x: Sexp)
    requires token != BqClobberable
    ensures RemoveTokens(List2(Atom(token), x)) == List2(Atom(Finished(token)), RemoveTokens(x))
    ensures NoTokens(RemoveTokens(x)) ==> NoTokens(RemoveTokens(List2(Atom(token), x)))
  {
    assert NoTokens(NIL) && NoTokens(Atom(Finished(token)));
    assert NoTokens(List1(RemoveTokens(x))) <==> NoTokens(RemoveTokens(x));
    assert MapRemoveTokens(NIL) == NIL;
    assert MapRemoveTokens(List1(x)) == List1(RemoveTokens(x));
    assert RemoveTokens(Atom(token)) == Atom(Finished(token));
    assert RemoveTokens(List2(Atom(token), x)) == MapRemoveTokens(List2(Atom(token), x));
  }

  lemma RemovedList1(x: Sexp)
    ensures MapRemoveTokens(List1(x)) == List1(RemoveTokens(x))
    ensures NoTokens(List1(RemoveTokens(x))) <==> NoTokens(RemoveTokens(x))
  {
    assert MapRemoveTokens(NIL) == NIL && NoTokens(NIL);
  }

  lemma RemovedAppend(arguments: Sexp)
    ensures RemoveTokens(Cons(Atom(BqAppend), arguments)) == Cons(Atom(AppendName), MapRemoveTokens(arguments))
  {
  }

  // The functions that the tokens stand for.
  lemma TokensStandFor(x: Sexp)
    requires NoTokens(x)
    ensures RemoveTokens(List2(Atom(BqList), x)) == List2(Atom(ListName), x)
    ensures RemoveTokens(List2(Atom(BqAppend), x)) == List2(Atom(AppendName), x)
    ensures RemoveTokens(List2(Atom(BqNconc), x)) == List2(Atom(NconcName), x)
    ensures RemoveTokens(List2(Atom(BqQuote), x)) == List2(Atom(QuoteName), x)
    ensures RemoveTokens(List2(Atom(BqListStar), x)) == List2(Atom(ListStarName), x)
  {
    RemovedList2(BqList, x);
    RemovedList2(BqAppend, x);
    RemovedList2(BqNconc, x);
    RemovedList2(BqQuote, x);
    RemovedList2(BqListStar, x);
    hide RemoveTokens, NoTokens, List2;
  }

  // A list* of two arguments is a cons, and what may be clobbered is what it is.
  lemma ListStarIsCons(x: Sexp, y: Sexp)
    requires NoTokens(x) && NoTokens(y)
    ensures RemoveTokens(Cons(Atom(BqListStar), List2(x, y))) == Cons(Atom(ConsName), List2(x, y))
    ensures RemoveTokens(List2(Atom(BqClobberable), x)) == x
  {
    assert NoTokens(NIL) && NoTokens(List1(y)) && NoTokens(List2(x, y));
  }

  predicate IsSplice(x: Sexp) { x == Atom(UnquoteSplice) || x == Atom(UnquoteNsplice) }

  // The case of a list template.
  lemma ProcessedList(x: Sexp)
    requires x.Cons? && x.car != Atom(Quasiquote) && x.car != Atom(Unquote) && !IsSplice(x.car)
    ensures Process(x).Some? <==> ProcessTail(x).Some?
    ensures ProcessTail(x).Some? ==> Process(x).value == Cons(Atom(BqAppend), ProcessTail(x).value)
  {
  }

  // The case of a nested backquote.
  lemma ProcessedNested(x: Sexp)
    requires x.Cons? && x.car == Atom(Quasiquote) && Process(x).Some?
    ensures Cadr(x).Some? && Backquotes(Cadr(x).value) < Backquotes(x)
    ensures var raw := Process(Cadr(x).value);
            raw.Some? && CompletelyProcess(Cadr(x).value) == Some(RemoveTokens(raw.value))
            && Process(x) == Process(RemoveTokens(raw.value)) && Backquotes(RemoveTokens(raw.value)) < Backquotes(x)
  {
    assert Backquotes(x.car) == 1;
  }

  /** A finished expansion of a template without tokens has none either. */
  lemma {:induction false} ExpansionHasNoTokens(x: Sexp)
    requires NoTokens(x) && Process(x).Some?
    ensures NoTokens(RemoveTokens(Process(x).value))
    decreases Backquotes(x), x, 1
  {
    if x.Atom? {
      RemovedList2(BqQuote, x);
    } else if x.car == Atom(Quasiquote) {
      ProcessedNested(x);
      hide Process;
      ExpansionHasNoTokens(Cadr(x).value);
      ExpansionHasNoTokens(CompletelyProcess(Cadr(x).value).value);
    } else if x.car != Atom(Unquote) {
      ProcessedList(x);
      hide Process, ProcessTail;
      TailHasNoTokens(x);
      RemovedAppend(ProcessTail(x).value);
    }
  }

  lemma {:induction false} TailHasNoTokens(p: Sexp)
    requires NoTokens(p) && ProcessTail(p).Some?
    ensures ProcessTail(p).value.Cons? && NoTokens(MapRemoveTokens(ProcessTail(p).value))
    decreases Backquotes(p), p, 0
  {
    match p
    case Atom(_) =>
      RemovedList2(BqQuote, p);
      RemovedList1(List2(Atom(BqQuote), p));
    case Cons(head, rest) =>
      if head == Atom(Unquote) {
        RemovedList1(Cadr(p).value);
      } else {
        BracketHasNoTokens(head);
        TailHasNoTokens(rest);
      }
  }

  lemma {:induction false} BracketHasNoTokens(x: Sexp)
    requires NoTokens(x) && Bracket(x).Some?
    ensures NoTokens(RemoveTokens(Bracket(x).value))
    decreases Backquotes(x), x, 2
  {
    if x.Cons? && x.car == Atom(Unquote) {
      RemovedList2(BqList, Cadr(x).value);
    } else if x.Cons? && x.car == Atom(UnquoteSplice) {
    } else if x.Cons? && x.car == Atom(UnquoteNsplice) {
    } else {
      ExpansionHasNoTokens(x);
      RemovedList2(BqList, Process(x).value);
    }
  }

  // ---- evaluation of expansions ----

  // The value of an argument of append, and of all that follow it.
  lemma AppendStep<S>(program: (Sexp, S) -> Outcome<S>, form: Sexp, rest: Sexp, s: S)
    requires rest.Cons?
    ensures var v := Eval(program, form, s);
            Eval(program, Cons(Atom(AppendName), Cons(form, rest)), s)
            == Joined(program, AllElements(v), rest)
  {
    var v := Eval(program, form, s);
    if v.Value? {
      var vs := EvalArguments(program, rest, v.state);
      if vs.Values? {
        ArgumentsExist(program, rest, v.state);
        assert ([v.value] + vs.values)[1..] == vs.values;
      }
    }
  }

  lemma ArgumentsExist<S>(program: (Sexp, S) -> Outcome<S>, forms: Sexp, s: S)
    requires forms.Cons? && EvalArguments(program, forms, s).Values?
    ensures EvalArguments(program, forms, s).values != []
  {
  }

  function Joined<S>(program: (Sexp, S) -> Outcome<S>, elements: Outcomes<S>, rest: Sexp): Outcome<S> {
    match elements
    case NoValues => Failed
    case Values(es, s) =>
      match Eval(program, Cons(Atom(AppendName), rest), s)
      case Failed => Failed
      case Value(tail, s') => Value(Dotted(es, tail), s')
  }

  lemma ListOfOne<S>(program: (Sexp, S) -> Outcome<S>, form: Sexp, s: S)
    ensures AllElements(Eval(program, List2(Atom(ListName), form), s)) == OneElement(Eval(program, form, s))
  {
    var v := Eval(program, form, s);
    if v.Value? {
      assert EvalArguments(program, NIL, v.state) == Values([], v.state);
      assert EvalArguments(program, List1(form), s) == Values([v.value], v.state);
      assert [v.value][1..] == [];
      assert Dotted([v.value], NIL) == List1(v.value);
      assert Elements(NIL) == Some([]);
      assert Elements(List1(v.value)) == Some([v.value]);
    } else {
      assert EvalArguments(program, List1(form), s) == NoValues;
    }
  }

  lemma LastArgument<S>(program: (Sexp, S) -> Outcome<S>, form: Sexp, s: S)
    ensures Eval(program, Cons(Atom(AppendName), List1(form)), s) == Eval(program, form, s)
  {
    var v := Eval(program, form, s);
    if v.Value? {
      assert EvalArguments(program, NIL, v.state) == Values([], v.state);
      assert EvalArguments(program, List1(form), s) == Values([v.value], v.state);
    } else {
      assert EvalArguments(program, List1(form), s) == NoValues;
    }
  }

  /** Evaluating the expansion of a template instantiates it: with the same value
      or failure, and with the forms in it evaluated once each in the same order. */
  lemma {:induction false} ExpansionMeans<S>(program: (Sexp, S) -> Outcome<S>, template: Sexp, s: S)
    requires NoTokens(template) && CompletelyProcess(template).Some?
    ensures Eval(program, CompletelyProcess(template).value, s) == Instantiate(program, template, s)
    decreases Backquotes(template), template, 1
  {
    if template.Atom? {
      RemovedList2(BqQuote, template);
    } else if template.car == Atom(Quasiquote) {
      ProcessedNested(template);
      var inner := Cadr(template).value;
      ExpansionHasNoTokens(inner);
      hide Process;
      ExpansionMeans(program, CompletelyProcess(inner).value, s);
    } else if template.car == Atom(Unquote) {
      UnquotedForm(program, template, s);
    } else {
      ProcessedList(template);
      hide Process, ProcessTail;
      TailMeans(program, template, s);
      RemovedAppend(ProcessTail(template).value);
    }
  }

  lemma UnquotedForm<S>(program: (Sexp, S) -> Outcome<S>, template: Sexp, s: S)
    requires NoTokens(template) && template.Cons? && template.car == Atom(Unquote) && Cadr(template).Some?
    ensures CompletelyProcess(template) == Cadr(template)
    ensures Instantiate(program, template, s) == Eval(program, Cadr(template).value, s)
  {
  }

  lemma {:induction false} TailMeans<S>(program: (Sexp, S) -> Outcome<S>, p: Sexp, s: S)
    requires NoTokens(p) && ProcessTail(p).Some?
    ensures Eval(program, Cons(Atom(AppendName), MapRemoveTokens(ProcessTail(p).value)), s)
            == InstantiateTail(program, p, s)
    decreases Backquotes(p), p, 0
  {
    match p
    case Atom(_) =>
      RemovedList2(BqQuote, p);
      LastArgument(program, List2(Atom(QuoteName), p), s);
    case Cons(head, rest) =>
      if head == Atom(Unquote) {
        assert MapRemoveTokens(List1(Cadr(p).value)) == List1(Cadr(p).value);
        LastArgument(program, Cadr(p).value, s);
      } else {
        var form := RemoveTokens(Bracket(head).value);
        var forms := MapRemoveTokens(ProcessTail(rest).value);
        TailHasNoTokens(rest);
        BracketMeans(program, head, s);
        AppendStep(program, form, forms, s);
        var elements := Contribution(program, head, s);
        if elements.Values? { TailMeans(program, rest, elements.state); }
      }
  }

  lemma {:induction false} BracketMeans<S>(program: (Sexp, S) -> Outcome<S>, x: Sexp, s: S)
    requires NoTokens(x) && Bracket(x).Some?
    ensures AllElements(Eval(program, RemoveTokens(Bracket(x).value), s)) == Contribution(program, x, s)
    decreases Backquotes(x), x, 2
  {
    if x.Cons? && x.car == Atom(Unquote) {
      RemovedList2(BqList, Cadr(x).value);
      ListOfOne(program, Cadr(x).value, s);
    } else if x.Cons? && x.car == Atom(UnquoteSplice) {
    } else if x.Cons? && x.car == Atom(UnquoteNsplice) {
    } else {
      ExpansionMeans(program, x, s);
      RemovedList2(BqList, Process(x).value);
      ListOfOne(program, RemoveTokens(Process(x).value), s);
    }
  }

  // A comma, a comma with an at-sign and one with a dot, in front of a form.
  function Comma(form: Sexp): Sexp { List2(Atom(Unquote), form) }

  function CommaAt(form: Sexp): Sexp { List2(Atom(UnquoteSplice), form) }

  function CommaDot(form: Sexp): Sexp { List2(Atom(UnquoteNsplice), form) }

  /** A comma stands for the value of its form, alone or as the last cdr. */
  lemma CommaMeans<S>(program: (Sexp, S) -> Outcome<S>, a: Sexp, x: Symbol, s: S)
    requires x != Unquote && x != Quasiquote && x != UnquoteSplice && x != UnquoteNsplice
    ensures Instantiate(program, Comma(a), s) == Eval(program, a, s)
    ensures Instantiate(program, Cons(Atom(x), Comma(a)), s)
            == match Eval(program, a, s) case Failed => Failed case Value(v, s') => Value(Cons(Atom(x), v), s')
  {
    hide Eval;
    assert Cadr(Comma(a)) == Some(a);
    assert InstantiateTail(program, Comma(a), s) == Eval(program, a, s);
    assert Contribution(program, Atom(x), s) == Values([Atom(x)], s);
    assert [Atom(x)][1..] == [];
    var v := Eval(program, a, s);
    if v.Value? { assert Dotted([Atom(x)], v.value) == Cons(Atom(x), Dotted([], v.value)); }
  }

  /** A template of two forms makes a list of their values, the first one's first,
      and the second form sees what the first has changed. */
  lemma CommasInOrder<S>(program: (Sexp, S) -> Outcome<S>, a: Sexp, b: Sexp, s: S, v: Sexp, w: Sexp, s': S, s'': S)
    requires Eval(program, a, s) == Value(v, s') && Eval(program, b, s') == Value(w, s'')
    ensures Instantiate(program, List2(Comma(a), Comma(b)), s) == Value(Cons(v, Cons(w, NIL)), s'')
  {
    hide Eval;
    assert InstantiateTail(program, NIL, s'') == Value(NIL, s'');
    assert Cadr(Comma(a)) == Some(a) && Cadr(Comma(b)) == Some(b);
    assert Contribution(program, Comma(a), s) == Values([v], s');
    assert Contribution(program, Comma(b), s') == Values([w], s'');
    assert [w][1..] == [] && [v][1..] == [];
    assert Dotted([w], NIL) == Cons(w, NIL) && Dotted([v], Cons(w, NIL)) == Cons(v, Cons(w, NIL));
    assert InstantiateTail(program, List1(Comma(b)), s') == Value(Cons(w, NIL), s'');
  }

  /** A splice puts the elements of its value in front of what follows, in order. */
  lemma SpliceInOrder<S>(program: (Sexp, S) -> Outcome<S>, a: Sexp, tail: Symbol, s: S, elements: seq<Sexp>, s': S)
    requires Eval(program, a, s) == Value(Dotted(elements, NIL), s')
    ensures Instantiate(program, Cons(CommaAt(a), Atom(tail)), s) == Value(Dotted(elements, Atom(tail)), s')
    ensures Instantiate(program, Cons(CommaDot(a), Atom(tail)), s) == Value(Dotted(elements, Atom(tail)), s')
  {
    ElementsMakeUp(Dotted(elements, NIL), elements);
    hide Eval, Dotted, Elements;
    assert Cadr(CommaAt(a)) == Some(a) && Cadr(CommaDot(a)) == Some(a);
    assert Contribution(program, CommaAt(a), s) == Values(elements, s');
    assert Contribution(program, CommaDot(a), s) == Values(elements, s');
    assert InstantiateTail(program, Atom(tail), s') == Value(Atom(tail), s');
  }

  /** A token in a template is not safe: the template that is the token for list
      expands to a form for the symbol list. */
  lemma TokenIsReplaced<S>(program: (Sexp, S) -> Outcome<S>, s: S)
    ensures CompletelyProcess(Atom(BqList)) == Some(List2(Atom(QuoteName), Atom(ListName)))
    ensures Eval(program, CompletelyProcess(Atom(BqList)).value, s) == Value(Atom(ListName), s)
    ensures Instantiate(program, Atom(BqList), s) == Value(Atom(BqList), s)
  {
    RemovedList2(BqQuote, Atom(BqList));
  }

  // ---- errors ----

  // Templates in which no splice stands for a whole template or a tail, and
  // every unquote has a form.
  predicate Legal(template: Sexp)
    decreases Backquotes(template), template, 1
  {
    template.Atom?
    || (template.car == Atom(Quasiquote)
        && (assert Backquotes(template.car) == 1; Cadr(template).Some?)
        && Legal(Cadr(template).value)
        && (CompletelyProcess(Cadr(template).value).Some? ==> Legal(CompletelyProcess(Cadr(template).value).value)))
    || (template.car == Atom(Unquote) && Cadr(template).Some?)
    || (template.car != Atom(Quasiquote) && template.car != Atom(Unquote) && LegalTail(template))
  }

  predicate LegalTail(p: Sexp)
    decreases Backquotes(p), p, 0
  {
    p.Atom?
    || (p.car == Atom(Unquote) && Cadr(p).Some? && (p.cdr.Atom? || p.cdr.cdr == NIL))
    || (p.car != Atom(Unquote) && !IsSplice(p.car) && LegalElement(p.car) && LegalTail(p.cdr))
  }

  predicate LegalElement(x: Sexp)
    decreases Backquotes(x), x, 2
  {
    if x.Cons? && IsSplice(x.car) then Cadr(x).Some? else Legal(x)
  }

  // A list template of a plain symbol and a tail.
  lemma SymbolAndTail(x: Symbol, p: Sexp)
    requires x != Unquote && x != Quasiquote && x != UnquoteSplice && x != UnquoteNsplice
    ensures Process(Cons(Atom(x), p)).Some? <==> ProcessTail(p).Some?
  {
    ProcessedList(Cons(Atom(x), p));
    assert Bracket(Atom(x)).Some?;
  }

  lemma CommaTails(a: Sexp, b: Sexp)
    ensures ProcessTail(CommaAt(a)).None? && ProcessTail(CommaDot(a)).None?
    ensures ProcessTail(Comma(a)) == Some(List1(a)) && Process(Comma(a)) == Some(a)
    ensures ProcessTail(Cons(Atom(Unquote), List2(a, b))).None?
    ensures Process(CommaAt(a)).None? && Process(CommaDot(a)).None?
  {
    assert Cadr(Comma(a)) == Some(a) && Cadr(Cons(Atom(Unquote), List2(a, b))) == Some(a);
    hide RemoveTokens, Bracket;
  }

  /** Splices that stand for a whole template or a tail are errors, and so is an
      unquote in a tail with more than one form. */
  lemma TheseAreErrors(a: Sexp, b: Sexp, x: Symbol)
    requires x != Unquote && x != Quasiquote && x != UnquoteSplice && x != UnquoteNsplice
    ensures Process(CommaAt(a)).None? && Process(CommaDot(a)).None?
    ensures Process(Cons(Atom(x), CommaAt(a))).None? && Process(Cons(Atom(x), CommaDot(a))).None?
    ensures Process(Cons(Atom(x), Cons(Atom(Unquote), List2(a, b)))).None?
    ensures Process(Cons(Atom(x), Comma(a))).Some? && Process(Comma(a)) == Some(a)
  {
    hide *;
    CommaTails(a, b);
    SymbolAndTail(x, CommaAt(a));
    SymbolAndTail(x, CommaDot(a));
    SymbolAndTail(x, Cons(Atom(Unquote), List2(a, b)));
    SymbolAndTail(x, Comma(a));
  }

  /** The expansion signals an error for exactly the other templates. */
  lemma {:induction false} ErrorsExactly(template: Sexp)
    ensures Process(template).Some? <==> Legal(template)
    decreases Backquotes(template), template, 1
  {
    if template.Cons? {
      if template.car == Atom(Quasiquote) {
        assert Backquotes(template.car) == 1;
        if Cadr(template).Some? {
          var inner := Cadr(template).value;
          ErrorsExactly(inner);
          if CompletelyProcess(inner).Some? { ErrorsExactly(CompletelyProcess(inner).value); }
        }
      } else if template.car != Atom(Unquote) && !IsSplice(template.car) {
        ProcessedList(template);
        hide Process, ProcessTail;
        TailErrorsExactly(template);
      } else if IsSplice(template.car) {
        SpliceIsNoTail(template);
      }
    }
  }

  lemma SpliceIsNoTail(p: Sexp)
    requires p.Cons? && IsSplice(p.car)
    ensures !LegalTail(p) && !Legal(p) && Process(p).None?
  {
  }

  lemma {:induction false} TailErrorsExactly(p: Sexp)
    ensures ProcessTail(p).Some? <==> LegalTail(p)
    decreases Backquotes(p), p, 0
  {
    if p.Cons? && p.car != Atom(Unquote) && !IsSplice(p.car) {
      BracketErrorsExactly(p.car);
      TailErrorsExactly(p.cdr);
      hide Bracket, LegalElement;
    }
  }

  lemma {:induction false} BracketErrorsExactly(x: Sexp)
    ensures Bracket(x).Some? <==> LegalElement(x)
    decreases Backquotes(x), x, 2
  {
    if x.Cons? && x.car == Atom(Unquote) {
    } else if x.Cons? && IsSplice(x.car) {
    } else {
      ErrorsExactly(x);
      hide Process, Legal;
    }
  }
}
