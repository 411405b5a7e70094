/** What a printed expression evaluates to: the stack machine on the converter's output against
    direct evaluation of the tree. */
module ExpressionMeaning {
  import opened PyValues
  import opened Evaluator
  import opened ShuntingYard

  /** Direct evaluation, left to right; the first exception wins.  `and` and `or` evaluate both
      operands. */
  function Denote(sem: Semantics, e: Expr): Outcome<Value> {
    match e
    case Lit(v) => Ok(v)
    case Neg(a) =>
      var x :- Denote(sem, a);
      Ok(Negate(sem, x))
    case Bin(op, l, r) =>
      var x :- Denote(sem, l);
      var y :- Denote(sem, r);
      Apply(sem, op, x, y)
    case Call(f, a) =>
      var x :- Denote(sem, a);
      sem.construct(f, x)
    case Paren(a) => Denote(sem, a)
  }

  predicate IsOpWord(v: Value) {
    v.StrV? && OpNamed(v.s).Found?
  }

  /** No string literal is spelled like an operator. */
  predicate PlainLiterals(e: Expr) {
    match e
    case Lit(v) => !IsOpWord(v)
    case Neg(a) => PlainLiterals(a)
    case Bin(_, l, r) => PlainLiterals(l) && PlainLiterals(r)
    case Call(_, a) => PlainLiterals(a)
    case Paren(a) => PlainLiterals(a)
  }

  lemma {:induction false} LookupFinds(op: Op, ops: seq<Op>)
    requires op in ops
    requires forall p <- ops :: OpName(p) == OpName(op) ==> p == op
    ensures Lookup(OpName(op), ops) == Found(op)
  {
    if ops[0] != op {
      LookupFinds(op, ops[1..]);
    }
  }

  lemma OpNamesDistinct(op: Op, p: Op)
    requires OpName(op) == OpName(p)
    ensures op == p
  {
    var s := OpName(op);
    var t := OpName(p);
    assert |s| == |t|;
    assert s[0] == t[0];
    assert |s| == 2 ==> s[1] == t[1];
  }

  lemma OpNamedName(op: Op)
    ensures OpNamed(OpName(op)) == Found(op)
  {
    forall p <- OPS | OpName(p) == OpName(op)
      ensures p == op
    {
      OpNamesDistinct(p, op);
    }
    LookupFinds(op, OPS);
  }

  lemma RunStep(sem: Semantics, it: Item, rest: seq<Item>, stack: seq<Value>)
    ensures Run(sem, [it] + rest, stack) ==
            var r := StepItem(sem, it, stack);
            if r.Ok? then Run(sem, rest, r.value) else Raise(r.exn)
  {
    assert ([it] + rest)[1..] == rest;
  }

  lemma StepUnary(sem: Semantics, stack: seq<Value>, x: Value)
    ensures StepItem(sem, OpItem(Not), stack + [x]) == Ok(stack + [Negate(sem, x)])
    ensures forall f :: StepItem(sem, CallItem(f), stack + [x]) ==
                        match sem.construct(f, x)
                        case Ok(v) => Ok(stack + [v])
                        case Raise(e) => Raise(e)
  {
    hide OpName;
    OpNamedName(Not);
    var s := stack + [x];
    assert s[..|s| - 1] == stack;
  }

  lemma StepBinary(sem: Semantics, op: Op, stack: seq<Value>, x: Value, y: Value)
    requires op != Not
    ensures StepItem(sem, OpItem(op), stack + [x] + [y]) ==
            match Apply(sem, op, x, y)
            case Ok(v) => Ok(stack + [v])
            case Raise(e) => Raise(e)
  {
    hide OpName, Apply;
    OpNamedName(op);
    var s := stack + [x] + [y];
    assert s[..|s| - 2] == stack && s[|s| - 2] == x && s[|s| - 1] == y;
  }

  /** From any stack, the postorder of a tree pushes the tree's value, or stops with the tree's
      exception; it never reaches below the stack it was started on. */
  lemma {:induction false} RunPostorder(sem: Semantics, e: Expr, rest: seq<Item>, stack: seq<Value>)
    requires Sufficient(e) && PlainLiterals(e)
    ensures Run(sem, Postorder(e) + rest, stack) ==
            match Denote(sem, e)
            case Ok(v) => Run(sem, rest, stack + [v])
            case Raise(x) => Raise(x)
  {
    hide Run, Level, Lookup, OpName;
    match e {
      case Lit(v) =>
        RunStep(sem, Val(v), rest, stack);
        assert StepItem(sem, Val(v), stack) == Ok(stack + [v]);
      case Paren(a) => RunPostorder(sem, a, rest, stack);
      case Neg(a) =>
        assert Postorder(e) + rest == Postorder(a) + ([OpItem(Not)] + rest);
        RunPostorder(sem, a, [OpItem(Not)] + rest, stack);
        var d := Denote(sem, a);
        if d.Ok? {
          RunStep(sem, OpItem(Not), rest, stack + [d.value]);
          StepUnary(sem, stack, d.value);
        }
      case Call(f, a) =>
        assert Postorder(e) + rest == Postorder(a) + ([CallItem(f)] + rest);
        RunPostorder(sem, a, [CallItem(f)] + rest, stack);
        var d := Denote(sem, a);
        if d.Ok? {
          RunStep(sem, CallItem(f), rest, stack + [d.value]);
          StepUnary(sem, stack, d.value);
        }
      case Bin(op, l, r) =>
        var tail := [OpItem(op)] + rest;
        assert Postorder(e) + rest == Postorder(l) + (Postorder(r) + tail);
        RunPostorder(sem, l, Postorder(r) + tail, stack);
        var x := Denote(sem, l);
        if x.Ok? {
          RunPostorder(sem, r, tail, stack + [x.value]);
          var y := Denote(sem, r);
          if y.Ok? {
            RunStep(sem, OpItem(op), rest, stack + [x.value] + [y.value]);
            StepBinary(sem, op, stack, x.value, y.value);
          }
        }
    }
  }

  predicate GivesTextBack(x: Exn) {
    x == ValueError || x == TypeError || x == ZeroDivisionError
  }

  /** `_evaluate` of a printed tree: the tree's value when it has one, the unchanged text when
      evaluation raises a type, value or zero-division error, and any other exception raised. */
  lemma EvaluatePrinted(sem: Semantics, text: string, e: Expr)
    requires Sufficient(e) && PlainLiterals(e)
    ensures EvaluateSpec(sem, text, Tokens(e)) ==
            var d := Denote(sem, e);
            if d.Raise? && GivesTextBack(d.exn) then Ok(StrV(text)) else d
  {
    hide StepItem, Level, Convert;
    ConversionIsPostorder(e);
    assert Postorder(e) + [] == Postorder(e);
    RunPostorder(sem, e, [], []);
  }

  // ----- string literals spelled like operators -----

  /** How much an RPN element changes the height of the value stack. */
  function Effect(it: Item): int {
    if it.CallItem? then 0
    else if !IsOpWord(it.v) then 1
    else if OpNamed(it.v.s).op == Not then 0
    else -1
  }

  function Net(rpn: seq<Item>): int {
    if rpn == [] then 0 else Effect(rpn[0]) + Net(rpn[1..])
  }

  lemma {:induction false} NetConcat(a: seq<Item>, b: seq<Item>)
    ensures Net(a + b) == Net(a) + Net(b)
  {
    if a == [] {
      assert a + b == b;
    } else {
      assert (a + b)[1..] == a[1..] + b;
      NetConcat(a[1..], b);
    }
  }

  lemma {:induction false} RunHeight(sem: Semantics, rpn: seq<Item>, stack: seq<Value>)
    ensures var r := Run(sem, rpn, stack); r.Ok? ==> |r.value| == |stack| + Net(rpn)
  {
    hide OpNamed, Apply;
    if rpn != [] {
      var s := StepItem(sem, rpn[0], stack);
      if s.Ok? {
        RunHeight(sem, rpn[1..], s.value);
      }
    }
  }

  lemma {:induction false} NetPostorder(e: Expr)
    requires Sufficient(e)
    ensures Net(Postorder(e)) <= 1
    ensures Net(Postorder(e)) == 1 <==> PlainLiterals(e)
  {
    hide OpNamed, OpName, Level;
    match e {
      case Lit(v) => assert Postorder(e)[1..] == [];
      case Paren(a) => NetPostorder(a);
      case Neg(a) =>
        NetPostorder(a);
        OpNamedName(Not);
        NetConcat(Postorder(a), [OpItem(Not)]);
        assert [OpItem(Not)][1..] == [];
      case Call(f, a) =>
        NetPostorder(a);
        NetConcat(Postorder(a), [CallItem(f)]);
        assert [CallItem(f)][1..] == [];
      case Bin(op, l, r) =>
        NetPostorder(l);
        NetPostorder(r);
        OpNamedName(op);
        NetConcat(Postorder(l) + Postorder(r), [OpItem(op)]);
        NetConcat(Postorder(l), Postorder(r));
        assert [OpItem(op)][1..] == [];
    }
  }

  /** The machine returns the value of a tree that has one exactly when no string literal in the
      tree is spelled like an operator; otherwise it never returns any value at all. */
  lemma PlainLiteralsExactly(sem: Semantics, e: Expr)
    requires Sufficient(e)
    ensures !PlainLiterals(e) ==> EvaluateRpnSpec(sem, Postorder(e)).Raise?
    ensures Denote(sem, e).Ok? ==>
              (EvaluateRpnSpec(sem, Postorder(e)) == Denote(sem, e) <==> PlainLiterals(e))
  {
    hide StepItem, Level, OpNamed;
    RunHeight(sem, Postorder(e), []);
    NetPostorder(e);
    if PlainLiterals(e) {
      assert Postorder(e) + [] == Postorder(e);
      RunPostorder(sem, e, [], []);
    }
  }
}
