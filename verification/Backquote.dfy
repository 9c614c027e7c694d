/** The expansion of backquoted templates into forms that build lists. */
module Backquote {
  import opened Options

  // The symbols that the expansion knows; other atoms are numbered.
  datatype Symbol =
    | Nil | Quasiquote | Unquote | UnquoteSplice | UnquoteNsplice
    | BqList | BqAppend | BqListStar | BqNconc | BqClobberable | BqQuote
    | ListName | AppendName | ListStarName | NconcName | QuoteName | ConsName
    | Other(id: nat)

  datatype Sexp = Atom(name: Symbol) | Cons(car: Sexp, cdr: Sexp)

  const NIL := Atom(Nil)

  // The tokens of an expansion that is not finished.
  predicate IsToken(name: Symbol) {
    name.BqList? || name.BqAppend? || name.BqListStar? || name.BqNconc? || name.BqClobberable? || name.BqQuote?
  }

  predicate NoTokens(x: Sexp) {
    match x
    case Atom(name) => !IsToken(name)
    case Cons(car, cdr) => NoTokens(car) && NoTokens(cdr)
  }

  // How many times a backquote occurs.
  function Backquotes(x: Sexp): nat {
    match x
    case Atom(name) => if name.Quasiquote? then 1 else 0
    case Cons(car, cdr) => Backquotes(car) + Backquotes(cdr)
  }

  // car of the cdr, which is an error on atoms other than nil
  function Cadr(x: Sexp): (r: Option<Sexp>)
    requires x.Cons?
    ensures r.Some? ==> Backquotes(r.value) <= Backquotes(x.cdr)
    ensures r.Some? && NoTokens(x) ==> NoTokens(r.value)
  {
    assert Backquotes(NIL) == 0 && NoTokens(NIL);
    if x.cdr.Cons? then
      assert Backquotes(x.cdr) == Backquotes(x.cdr.car) + Backquotes(x.cdr.cdr);
      assert NoTokens(x) ==> NoTokens(x.cdr) && NoTokens(x.cdr.car);
      Some(x.cdr.car)
    else if x.cdr == NIL then Some(NIL)
    else None
  }

  function List1(x: Sexp): (r: Sexp)
    ensures Backquotes(r) == Backquotes(x)
  {
    assert Backquotes(NIL) == 0;
    Cons(x, NIL)
  }

  function List2(x: Sexp, y: Sexp): (r: Sexp)
    ensures Backquotes(r) == Backquotes(x) + Backquotes(y)
  {
    Cons(x, List1(y))
  }

  // ---- removing the tokens ----

  // The name of the function that a token stands for.
  function Finished(name: Symbol): Symbol {
    match name
    case BqList => ListName
    case BqAppend => AppendName
    case BqNconc => NconcName
    case BqListStar => ListStarName
    case BqQuote => QuoteName
    case _ => name
  }

  // core__backquote_remove_tokens
  function RemoveTokens(x: Sexp): (r: Sexp)
    ensures Backquotes(r) <= Backquotes(x)
    ensures NoTokens(x) ==> r == x
    decreases x, 1
  {
    match x
    case Atom(name) => Atom(Finished(name))
    case Cons(head, rest) =>
      assert NoTokens(head) ==> head != Atom(BqClobberable) && head != Atom(BqListStar);
      if head == Atom(BqClobberable) && rest.Cons? then RemoveTokens(rest.car)
      else if head == Atom(BqListStar) && rest.Cons? && rest.cdr.Cons? && rest.cdr.cdr == NIL then
        Cons(Atom(ConsName), MapRemoveTokens(rest))
      else MapRemoveTokens(x)
  }

  // core__backquote_maptree with the function above
  function MapRemoveTokens(x: Sexp): (r: Sexp)
    ensures Backquotes(r) <= Backquotes(x)
    ensures NoTokens(x) ==> r == x
    decreases x, 0
  {
    match x
    case Atom(name) => Atom(Finished(name))
    case Cons(car, cdr) => Cons(RemoveTokens(car), MapRemoveTokens(cdr))
  }

  // ---- expansion ----

  // core__backquote_process, None where it signals an error
  function Process(x: Sexp): (r: Option<Sexp>)
    ensures r.Some? ==> Backquotes(r.value) <= Backquotes(x)
    decreases Backquotes(x), x, 1
  {
    match x
    case Atom(_) => Some(List2(Atom(BqQuote), x))
    case Cons(head, _) =>
      if head == Atom(Quasiquote) then
        assert Backquotes(head) == 1;
        match Cadr(x)
        case None => None
        case Some(inner) =>
          match CompletelyProcess(inner)
          case None => None
          case Some(expansion) => Process(expansion)
      else if head == Atom(Unquote) then Cadr(x)
      else if head == Atom(UnquoteSplice) || head == Atom(UnquoteNsplice) then None
      else
        match ProcessTail(x)
        case None => None
        case Some(arguments) => Some(Cons(Atom(BqAppend), arguments))
  }

  // core__backquote_completely_process
  function CompletelyProcess(x: Sexp): (r: Option<Sexp>)
    ensures r.Some? ==> Backquotes(r.value) <= Backquotes(x)
    decreases Backquotes(x), x, 2
  {
    match Process(x)
    case None => None
    case Some(raw) => Some(RemoveTokens(raw))
  }

  // The arguments of append for the elements of a list template from p on.
  function ProcessTail(p: Sexp): (r: Option<Sexp>)
    ensures r.Some? ==> Backquotes(r.value) <= Backquotes(p)
    decreases Backquotes(p), p, 0
  {
    match p
    case Atom(_) => Some(List1(List2(Atom(BqQuote), p)))
    case Cons(head, rest) =>
      if head == Atom(Unquote) then
        match Cadr(p)
        case None => None
        case Some(form) => if rest == NIL || (rest.Cons? && rest.cdr == NIL) then Some(List1(form)) else None
      else if head == Atom(UnquoteSplice) || head == Atom(UnquoteNsplice) then None
      else
        match Bracket(head)
        case None => None
        case Some(bracketed) =>
          match ProcessTail(rest)
          case None => None
          case Some(arguments) => Some(Cons(bracketed, arguments))
  }

  // core__backquote_bracket
  function Bracket(x: Sexp): (r: Option<Sexp>)
    ensures r.Some? ==> Backquotes(r.value) <= Backquotes(x)
    decreases Backquotes(x), x, 2
  {
    if x.Cons? && x.car == Atom(Unquote) then
      match Cadr(x)
      case None => None
      case Some(form) => Some(List2(Atom(BqList), form))
    else if x.Cons? && x.car == Atom(UnquoteSplice) then Cadr(x)
    else if x.Cons? && x.car == Atom(UnquoteNsplice) then
      match Cadr(x)
      case None => None
      case Some(form) => Some(List2(Atom(BqClobberable), form))
    else
      match Process(x)
      case None => None
      case Some(processed) => Some(List2(Atom(BqList), processed))
  }

  // ---- the loops ----

  // cl__nreconc
  function Reconc(q: Sexp, tail: Sexp): Sexp {
    match q
    case Atom(_) => tail
    case Cons(car, cdr) => Reconc(cdr, Cons(car, tail))
  }

  // What the loop makes of the elements collected and those that remain.
  function Collected(q: Sexp, rest: Option<Sexp>): Option<Sexp> {
    match rest
    case None => None
    case Some(arguments) => Some(Reconc(q, arguments))
  }

  /** core__backquote_process: the loop collects the arguments of append in
      reverse. */
  method BackquoteProcess(x: Sexp) returns (r: Option<Sexp>)
    ensures r == Process(x)
    decreases Backquotes(x), x, 1
  {
    if x.Atom? {
      return Some(List2(Atom(BqQuote), x));
    }
    if x.car == Atom(Quasiquote) {
      var inner := Cadr(x);
      if inner.None? {
        return None;
      }
      assert Backquotes(x.car) == 1;
      var raw := BackquoteProcess(inner.value);
      if raw.None? {
        return None;
      }
      r := BackquoteProcess(RemoveTokens(raw.value));
      return;
    } else if x.car == Atom(Unquote) {
      return Cadr(x);
    } else if x.car == Atom(UnquoteSplice) || x.car == Atom(UnquoteNsplice) {
      return None;
    }
    var p, q := x, NIL;
    while p.Cons?
      invariant p == x || (p < x && Backquotes(p) <= Backquotes(x))
      invariant ProcessTail(x) == Collected(q, ProcessTail(p))
      decreases p
    {
      if p.car == Atom(Unquote) {
        var form := Cadr(p);
        if form.None? || !(p.cdr == NIL || (p.cdr.Cons? && p.cdr.cdr == NIL)) {
          return None;
        }
        return Some(Cons(Atom(BqAppend), Reconc(q, List1(form.value))));
      } else if p.car == Atom(UnquoteSplice) || p.car == Atom(UnquoteNsplice) {
        return None;
      }
      var bracketed := BackquoteBracket(p.car);
      if bracketed.None? {
        return None;
      }
      p, q := p.cdr, Cons(bracketed.value, q);
    }
    r := Some(Cons(Atom(BqAppend), Reconc(q, List1(List2(Atom(BqQuote), p)))));
  }

  method BackquoteBracket(x: Sexp) returns (r: Option<Sexp>)
    ensures r == Bracket(x)
    decreases Backquotes(x), x, 2
  {
    if x.Cons? && x.car == Atom(Unquote) {
      var form := Cadr(x);
      return if form.None? then None else Some(List2(Atom(BqList), form.value));
    } else if x.Cons? && x.car == Atom(UnquoteSplice) {
      return Cadr(x);
    } else if x.Cons? && x.car == Atom(UnquoteNsplice) {
      var form := Cadr(x);
      return if form.None? then None else Some(List2(Atom(BqClobberable), form.value));
    }
    var processed := BackquoteProcess(x);
    r := if processed.None? then None else Some(List2(Atom(BqList), processed.value));
  }

  // The elements of a proper list.
  function Elements(x: Sexp): Option<seq<Sexp>> {
    match x
    case Atom(name) => if name.Nil? then Some([]) else None
    case Cons(car, cdr) =>
      match Elements(cdr)
      case None => None
      case Some(rest) => Some([car] + rest)
  }

  // Elements in front of a last cdr.
  function Dotted(elements: seq<Sexp>, last: Sexp): Sexp {
    if elements == [] then last else Cons(elements[0], Dotted(elements[1..], last))
  }

  // What is left of x after k cdrs.
  function NthCdr(x: Sexp, k: nat): Option<Sexp> {
    if k == 0 then Some(x) else if x.Cons? then NthCdr(x.cdr, k - 1) else None
  }

  /** The elements stand at their places, and the last cdr behind them. */
  lemma {:induction false} DottedAt(elements: seq<Sexp>, last: Sexp, k: nat)
    requires k <= |elements|
    ensures NthCdr(Dotted(elements, last), k) == Some(Dotted(elements[k..], last))
    ensures k < |elements| ==>
              && Dotted(elements[k..], last).Cons? && Dotted(elements[k..], last).car == elements[k]
              && Dotted(elements[k..], last).cdr == Dotted(elements[k + 1..], last)
    ensures k == |elements| ==> Dotted(elements[k..], last) == last
    decreases k
  {
    if k == 0 {
      assert elements[0..] == elements;
    } else {
      DottedAt(elements[1..], last, k - 1);
      assert elements[1..][k - 1..] == elements[k..];
      if k < |elements| { assert elements[1..][k..] == elements[k + 1..]; }
    }
  }

  /** The elements of a list are those that make it up, in order; what ends in
      another atom than nil has none. */
  lemma {:induction false} ElementsMakeUp(x: Sexp, elements: seq<Sexp>)
    ensures Elements(x) == Some(elements) <==> x == Dotted(elements, NIL)
    decreases x
  {
    match x
    case Atom(_) =>
    case Cons(car, cdr) =>
      if elements != [] {
        ElementsMakeUp(cdr, elements[1..]);
        assert elements == [elements[0]] + elements[1..];
        if Elements(cdr).Some? { assert ([car] + Elements(cdr).value)[1..] == Elements(cdr).value; }
      }
  }

  // append: all arguments but the last are lists.
  function Append(lists: seq<Sexp>): Option<Sexp>
    requires lists != []
  {
    if |lists| == 1 then Some(lists[0])
    else
      match Elements(lists[0])
      case None => None
      case Some(elements) =>
        match Append(lists[1..])
        case None => None
        case Some(rest) => Some(Dotted(elements, rest))
  }

  function Concat(parts: seq<seq<Sexp>>): seq<Sexp> {
    if parts == [] then [] else parts[0] + Concat(parts[1..])
  }

  // The arguments but the last are the lists of these elements.
  ghost predicate MadeUpOf(lists: seq<Sexp>, parts: seq<seq<Sexp>>) {
    |lists| == |parts| + 1 && forall i :: 0 <= i < |parts| ==> lists[i] == Dotted(parts[i], NIL)
  }

  ghost predicate IsList(x: Sexp) { exists elements :: x == Dotted(elements, NIL) }

  lemma {:induction false} AppendMeans(lists: seq<Sexp>, parts: seq<seq<Sexp>>)
    requires MadeUpOf(lists, parts)
    ensures Append(lists) == Some(Dotted(Concat(parts), lists[|parts|]))
    decreases |parts|
  {
    if parts != [] {
      ElementsMakeUp(lists[0], parts[0]);
      AppendMeans(lists[1..], parts[1..]);
      DottedConcat(parts[0], Concat(parts[1..]), lists[|parts|]);
    }
  }

  lemma {:induction false} AppendFails(lists: seq<Sexp>)
    requires lists != []
    ensures Append(lists).None? <==> exists i :: 0 <= i < |lists| - 1 && !IsList(lists[i])
    decreases |lists|
  {
    if |lists| > 1 {
      AppendFails(lists[1..]);
      IsListMeans(lists[0]);
      hide IsList, Elements;
      assert forall i :: 1 <= i < |lists| ==> lists[i] == lists[1..][i - 1];
    }
  }

  lemma IsListMeans(x: Sexp)
    ensures IsList(x) <==> Elements(x).Some?
  {
    hide Dotted, Elements;
    if IsList(x) {
      var elements :| x == Dotted(elements, NIL);
      ElementsMakeUp(x, elements);
    }
    if Elements(x).Some? { ElementsMakeUp(x, Elements(x).value); }
  }

  /** core__backquote_append: the elements of all lists but the last are collected
      in order and the last argument becomes the tail; an error exactly if there
      is no argument or one before the last is no list. */
  method BackquoteAppend(lists: seq<Sexp>) returns (r: Option<Sexp>)
    ensures r == if lists == [] then None else Append(lists)
    ensures r.None? <==> lists == [] || exists i :: 0 <= i < |lists| - 1 && !IsList(lists[i])
    ensures forall parts :: MadeUpOf(lists, parts) ==> r == Some(Dotted(Concat(parts), lists[|parts|]))
  {
    if lists != [] { AppendFails(lists); }
    forall parts | MadeUpOf(lists, parts) ensures Append(lists) == Some(Dotted(Concat(parts), lists[|parts|])) {
      AppendMeans(lists, parts);
    }
    hide MadeUpOf, IsList, Concat;
    if lists == [] {
      return None;
    }
    var list: seq<Sexp> := [];
    var i := 0;
    while i < |lists| - 1
      invariant 0 <= i <= |lists| - 1
      invariant Append(lists) == Prefixed(list, Append(lists[i..]))
    {
      var elements := Elements(lists[i]);
      assert lists[i..][1..] == lists[i + 1..];
      if elements.None? {
        return None;
      }
      if Append(lists[i + 1..]).Some? { DottedConcat(list, elements.value, Append(lists[i + 1..]).value); }
      list := list + elements.value;
      i := i + 1;
    }
    r := Some(Dotted(list, lists[|lists| - 1]));
  }

  function Prefixed(list: seq<Sexp>, rest: Option<Sexp>): Option<Sexp> {
    match rest
    case None => None
    case Some(tail) => Some(Dotted(list, tail))
  }

  lemma {:induction false} DottedConcat(a: seq<Sexp>, b: seq<Sexp>, last: Sexp)
    ensures Dotted(a + b, last) == Dotted(a, Dotted(b, last))
  {
    if a == [] {
      assert a + b == b;
    } else {
      assert (a + b)[1..] == a[1..] + b;
      DottedConcat(a[1..], b, last);
    }
  }
}
