/** Every expression tree has a printing the converter understands, and a printing has one tree. */
module Printing {
  import opened PyValues
  import opened Evaluator
  import opened ShuntingYard
  import opened ExpressionMeaning
  import opened SufficiencyExact

  /** A tree without parenthesis nodes, in which `not` is only used as the prefix operator. */
  predicate IsTree(e: Expr) {
    match e
    case Lit(_) => true
    case Neg(a) => IsTree(a)
    case Bin(op, l, r) => op != Not && IsTree(l) && IsTree(r)
    case Call(_, a) => IsTree(a)
    case Paren(_) => false
  }

  function Strip(e: Expr): Expr {
    match e
    case Lit(_) => e
    case Neg(a) => Neg(Strip(a))
    case Bin(op, l, r) => Bin(op, Strip(l), Strip(r))
    case Call(f, a) => Call(f, Strip(a))
    case Paren(a) => Strip(a)
  }

  function AtLeast(e: Expr, tightness: nat): Expr {
    if Tightness(e) >= tightness then e else Paren(e)
  }

  /** The printing with parentheses only where the precedences ask for them. */
  function Minimal(t: Expr): Expr {
    match t
    case Lit(_) => t
    case Neg(a) => Neg(AtLeast(Minimal(a), 8))
    case Bin(op, l, r) => Bin(op, AtLeast(Minimal(l), Level(op)), AtLeast(Minimal(r), Level(op) + 1))
    case Call(f, a) => Call(f, Minimal(a))
    case Paren(a) => Minimal(a)
  }

  lemma {:induction false} MinimalIsSufficient(t: Expr)
    requires IsTree(t)
    ensures Sufficient(Minimal(t))
    ensures Strip(Minimal(t)) == t
  {
    match t {
      case Lit(_) =>
      case Neg(a) => MinimalIsSufficient(a);
      case Bin(op, l, r) =>
        MinimalIsSufficient(l);
        MinimalIsSufficient(r);
      case Call(_, a) => MinimalIsSufficient(a);
    }
  }

  // ----- a printing determines its tree -----

  /** The stack machine run on trees instead of values. */
  function Rebuild(rpn: seq<Item>, stack: seq<Expr>): seq<Expr> {
    if rpn == [] then stack
    else
      var it := rpn[0];
      var n := |stack|;
      if it.CallItem? && n >= 1 then
        Rebuild(rpn[1..], stack[..n - 1] + [Call(it.f, stack[n - 1])])
      else if it.Val? && IsOpWord(it.v) && OpNamed(it.v.s).op == Not && n >= 1 then
        Rebuild(rpn[1..], stack[..n - 1] + [Neg(stack[n - 1])])
      else if it.Val? && IsOpWord(it.v) && OpNamed(it.v.s).op != Not && n >= 2 then
        Rebuild(rpn[1..], stack[..n - 2] + [Bin(OpNamed(it.v.s).op, stack[n - 2], stack[n - 1])])
      else if it.Val? then
        Rebuild(rpn[1..], stack + [Lit(it.v)])
      else
        Rebuild(rpn[1..], stack)
  }

  lemma RebuildUnary(it: Item, t: Expr, rest: seq<Item>, stack: seq<Expr>)
    ensures it.CallItem? ==> Rebuild([it] + rest, stack + [t]) == Rebuild(rest, stack + [Call(it.f, t)])
    ensures it == OpItem(Not) ==> Rebuild([it] + rest, stack + [t]) == Rebuild(rest, stack + [Neg(t)])
  {
    hide OpNamed, OpName;
    OpNamedName(Not);
    assert ([it] + rest)[1..] == rest;
    var s := stack + [t];
    assert s[..|s| - 1] == stack;
  }

  lemma RebuildBinary(op: Op, l: Expr, r: Expr, rest: seq<Item>, stack: seq<Expr>)
    requires op != Not
    ensures Rebuild([OpItem(op)] + rest, stack + [l] + [r]) == Rebuild(rest, stack + [Bin(op, l, r)])
  {
    hide OpNamed, OpName;
    OpNamedName(op);
    assert ([OpItem(op)] + rest)[1..] == rest;
    var s := stack + [l] + [r];
    assert s[..|s| - 2] == stack && s[|s| - 2] == l;
  }

  lemma {:induction false} RebuildPostorder(e: Expr, rest: seq<Item>, stack: seq<Expr>)
    requires Sufficient(e) && PlainLiterals(e)
    ensures Rebuild(Postorder(e) + rest, stack) == Rebuild(rest, stack + [Strip(e)])
  {
    hide OpNamed, OpName, Level;
    match e {
      case Lit(v) => assert ([Val(v)] + rest)[1..] == rest;
      case Paren(a) => RebuildPostorder(a, rest, stack);
      case Neg(a) =>
        assert Postorder(e) + rest == Postorder(a) + ([OpItem(Not)] + rest);
        RebuildPostorder(a, [OpItem(Not)] + rest, stack);
        RebuildUnary(OpItem(Not), Strip(a), rest, stack);
      case Call(f, a) =>
        assert Postorder(e) + rest == Postorder(a) + ([CallItem(f)] + rest);
        RebuildPostorder(a, [CallItem(f)] + rest, stack);
        RebuildUnary(CallItem(f), Strip(a), rest, stack);
      case Bin(op, l, r) =>
        var tail := [OpItem(op)] + rest;
        assert Postorder(e) + rest == Postorder(l) + (Postorder(r) + tail);
        RebuildPostorder(l, Postorder(r) + tail, stack);
        RebuildPostorder(r, tail, stack + [Strip(l)]);
        RebuildBinary(op, Strip(l), Strip(r), rest, stack);
    }
  }

  lemma RebuildWhole(e: Expr)
    requires Sufficient(e) && PlainLiterals(e)
    ensures Rebuild(Postorder(e), []) == [Strip(e)]
  {
    assert Postorder(e) + [] == Postorder(e);
    RebuildPostorder(e, [], []);
  }

  /** The rule language is unambiguous: two sufficiently parenthesised printings with the same
      tokens are printings of the same tree. */
  lemma TokensDetermineTree(d: Expr, e: Expr)
    requires Sufficient(d) && PlainLiterals(d)
    requires Sufficient(e) && PlainLiterals(e)
    requires Tokens(d) == Tokens(e)
    ensures Strip(d) == Strip(e)
  {
    hide *;
    ConversionIsPostorder(d);
    ConversionIsPostorder(e);
    RebuildWhole(d);
    RebuildWhole(e);
    assert [Strip(d)][0] == [Strip(e)][0];
  }

  // ----- where the code and its comments part -----

  /** Operators of one level are grouped from the left and never from the right.  This holds of
      `**` as well, although a comment in the operator table calls it right-associative. */
  lemma SameLevelGroupsLeft(op: Op, op': Op, a: Expr, b: Expr, c: Expr)
    requires op != Not && op' != Not && Level(op) == Level(op')
    requires Sufficient(a) && PlainLiterals(a) && Tightness(a) >= Level(op)
    requires Sufficient(b) && PlainLiterals(b) && Tightness(b) > Level(op)
    requires Sufficient(c) && PlainLiterals(c) && Tightness(c) > Level(op)
    ensures var r := Convert(Tokens(a) + [OpTok(op)] + Tokens(b) + [OpTok(op')] + Tokens(c));
            && r == Ok(Postorder(Bin(op', Bin(op, a, b), c)))
            && r != Ok(Postorder(Bin(op, a, Bin(op', b, c))))
  {
    hide Convert, Level, OpNamed, Postorder;
    var left := Bin(op', Bin(op, a, b), c);
    var right := Bin(op, a, Paren(Bin(op', b, c)));
    assert Sufficient(left) && Sufficient(right) by {
      hide Tokens, PlainLiterals;
      assert Sufficient(Bin(op, a, b)) && Sufficient(Bin(op', b, c));
      LevelsBelowEight(op);
    }
    assert PlainLiterals(left) && PlainLiterals(right) by {
      hide Tokens, Sufficient;
      assert PlainLiterals(Bin(op, a, b)) && PlainLiterals(Bin(op', b, c));
    }
    assert Tokens(left) == Tokens(a) + [OpTok(op)] + Tokens(b) + [OpTok(op')] + Tokens(c);
    ParenKeepsPostorder(op, a, Bin(op', b, c));
    ConversionIsPostorder(left);
    GroupingsDiffer(left, right);
  }

  lemma LevelsBelowEight(op: Op)
    ensures Level(op) < 8
  {
  }

  lemma ParenKeepsPostorder(op: Op, a: Expr, b: Expr)
    ensures Postorder(Bin(op, a, Paren(b))) == Postorder(Bin(op, a, b))
  {
    hide OpName;
  }

  lemma GroupingsDiffer(d: Expr, e: Expr)
    requires Sufficient(d) && PlainLiterals(d)
    requires Sufficient(e) && PlainLiterals(e)
    requires Strip(d) != Strip(e)
    ensures Postorder(d) != Postorder(e)
  {
    hide *;
    RebuildWhole(d);
    RebuildWhole(e);
    assert [Strip(d)][0] == Strip(d) && [Strip(e)][0] == Strip(e);
  }

  /** At the beginning of an expression `not not x` raises: the first `not` is moved out before its
      operand exists. */
  lemma DoubledNotUnderflows(sem: Semantics, text: string, e: Expr)
    requires Sufficient(e) && Tightness(e) == 8
    ensures EvaluateSpec(sem, text, [OpTok(Not), OpTok(Not)] + Tokens(e)) == Raise(IndexError)
  {
    hide Run, ConvertFrom, OpNamed, OpName;
    var tail := Done(e) + Emit([OpSym(Not)]);
    DoubledNotConverts(e);
    RunStep(sem, OpItem(Not), tail, []);
    OpNamedName(Not);
  }

  lemma DoubledNotConverts(e: Expr)
    requires Sufficient(e) && Tightness(e) == 8
    ensures Convert([OpTok(Not), OpTok(Not)] + Tokens(e)) == Ok([OpItem(Not)] + (Done(e) + Emit([OpSym(Not)])))
  {
    hide ConvertFrom, OpName, Sufficient, Tokens, Emit;
    var s1 := State([OpSym(Not)], []);
    var s2 := State([OpSym(Not)], [OpItem(Not)]);
    FirstNots();
    assert [OpTok(Not), OpTok(Not)] + Tokens(e) == [OpTok(Not)] + ([OpTok(Not)] + Tokens(e));
    ConvertStep(OpTok(Not), [OpTok(Not)] + Tokens(e), State([], []), s1);
    ConvertStep(OpTok(Not), Tokens(e), s1, s2);
    assert Tokens(e) + [] == Tokens(e);
    ConvertExpr(e, [], [OpSym(Not)], [OpItem(Not)]);
    assert [OpSym(Not)] + Pending(e) == [OpSym(Not)];
    ConvertNothing([OpSym(Not)], [OpItem(Not)] + Done(e));
    DrainTakesPending([OpSym(Not)], [OpItem(Not)] + Done(e));
    assert [OpItem(Not)] + Done(e) + Emit([OpSym(Not)]) == [OpItem(Not)] + (Done(e) + Emit([OpSym(Not)]));
  }

  /** After a binary operator `not not b` does not raise: the first `not` is applied to the operand on
      the left, so `a op not not b` means `(not a) op (not b)`. */
  lemma DoubledNotNegatesTheLeft(sem: Semantics, text: string, op: Op, a: Expr, b: Expr)
    requires op != Not && Tightness(a) >= Level(op) && Tightness(b) == 8
    requires Sufficient(a) && PlainLiterals(a) && Sufficient(b) && PlainLiterals(b)
    ensures EvaluateSpec(sem, text, Tokens(a) + [OpTok(op), OpTok(Not), OpTok(Not)] + Tokens(b)) ==
            var d := Denote(sem, Bin(op, Neg(a), Neg(b)));
            if d.Raise? && GivesTextBack(d.exn) then Ok(StrV(text)) else d
  {
    hide Convert, EvaluateRpnSpec, Tokens, OpNamed;
    var e := Bin(op, Neg(Paren(a)), Neg(b));
    NegsSuffice(op, a, b);
    DenoteNegParen(sem, a);
    EvaluatePrinted(sem, text, e);
    ConversionIsPostorder(e);
    DoubledNotBehindOperator(op, a, b);
  }

  lemma NegsSuffice(op: Op, a: Expr, b: Expr)
    requires op != Not && Tightness(b) == 8
    requires Sufficient(a) && PlainLiterals(a) && Sufficient(b) && PlainLiterals(b)
    ensures Sufficient(Bin(op, Neg(Paren(a)), Neg(b))) && PlainLiterals(Bin(op, Neg(Paren(a)), Neg(b)))
  {
    hide OpNamed;
    assert Sufficient(Neg(Paren(a))) && Sufficient(Neg(b));
    assert PlainLiterals(Neg(Paren(a))) && PlainLiterals(Neg(b));
    BinaryIsLooser(op);
  }

  lemma DenoteNegParen(sem: Semantics, a: Expr)
    ensures Denote(sem, Neg(Paren(a))) == Denote(sem, Neg(a))
  {
  }

  lemma BinaryIsLooser(op: Op)
    requires op != Not
    ensures Level(op) < 7
  {
  }

  lemma DoubledNotBehindOperator(op: Op, a: Expr, b: Expr)
    requires op != Not && Tightness(a) >= Level(op) && Tightness(b) == 8
    requires Sufficient(a) && Sufficient(b)
    ensures Convert(Tokens(a) + [OpTok(op), OpTok(Not), OpTok(Not)] + Tokens(b)) ==
            Ok(Postorder(Bin(op, Neg(Paren(a)), Neg(b))))
  {
    hide ConvertFrom, Sufficient, Level, Tightness, PushOp, StepToken, Done, Pending, Postorder, Emit, Drain, OpName;
    var last := [OpTok(Not)] + Tokens(b);
    var rest := [OpTok(Not)] + last;
    var p := Postorder(a);
    var one, two := [OpSym(op)], [OpSym(op), OpSym(Not)];
    assert Tokens(a) + [OpTok(op), OpTok(Not), OpTok(Not)] + Tokens(b) == Tokens(a) + ([OpTok(op)] + rest);
    ConvertExpr(a, [OpTok(op)] + rest, [], []);
    assert [] + Pending(a) == Pending(a) && [] + Done(a) == Done(a) && [] + one == one && [] + p == p;
    BinOperator(op, a, [], []);
    OpStep(op, State(Pending(a), Done(a)));
    ConvertStep(OpTok(op), rest, State(Pending(a), Done(a)), State(one, p));
    TwoNots(op, p);
    ConvertStep(OpTok(Not), last, State(one, p), State(two, p));
    ConvertStep(OpTok(Not), Tokens(b), State(two, p), State(two, p + [OpItem(Not)]));
    var out := p + [OpItem(Not)] + Postorder(b);
    assert Tokens(b) + [] == Tokens(b);
    LevelBelowEight(Not);
    ConvertExpr(b, [], two, p + [OpItem(Not)]);
    NothingPending(b);
    assert two + Pending(b) == two;
    ConvertNothing(two, out);
    DrainTakesPending(two, out);
    TwoEmitted(op);
    PostorderBin(op, Neg(Paren(a)), Neg(b));
    assert out + [OpItem(Not), OpItem(op)] == (p + [OpItem(Not)]) + (Postorder(b) + [OpItem(Not)]) + [OpItem(op)];
    PostorderNegs(a, b);
  }

  lemma TwoNots(op: Op, out: seq<Item>)
    requires op != Not
    ensures StepToken(OpTok(Not), State([OpSym(op)], out)) == Ok(State([OpSym(op), OpSym(Not)], out))
    ensures StepToken(OpTok(Not), State([OpSym(op), OpSym(Not)], out)) ==
            Ok(State([OpSym(op), OpSym(Not)], out + [OpItem(Not)]))
  {
    hide OpName;
    var one, two := [OpSym(op)], [OpSym(op), OpSym(Not)];
    assert Front(two) == one && one + [OpSym(Not)] == two;
    assert PopOps(one, out + [OpItem(Not)], 7) == State(one, out + [OpItem(Not)]);
    assert PopOps(two, out, 7) == PopOps(one, out + [OpItem(Not)], 7);
  }

  lemma NothingPending(e: Expr)
    requires Tightness(e) == 8
    ensures Pending(e) == [] && Done(e) == Postorder(e)
  {
  }

  lemma TwoEmitted(op: Op)
    ensures Emit([OpSym(op), OpSym(Not)]) == [OpItem(Not), OpItem(op)]
  {
    hide OpName;
    assert Front([OpSym(op), OpSym(Not)]) == [OpSym(op)] && Front([OpSym(op)]) == [];
    assert Emit([OpSym(op)]) == [OpItem(op)] + Emit([]);
  }

  lemma PostorderNegs(a: Expr, b: Expr)
    ensures Postorder(Neg(Paren(a))) == Postorder(a) + [OpItem(Not)]
    ensures Postorder(Neg(b)) == Postorder(b) + [OpItem(Not)]
  {
  }

  lemma ConvertNothing(stack: seq<Sym>, out: seq<Item>)
    ensures ConvertFrom([], State(stack, out)) == Drain(stack, out)
  {
  }

  lemma FirstNots()
    ensures StepToken(OpTok(Not), State([], [])) == Ok(State([OpSym(Not)], []))
    ensures StepToken(OpTok(Not), State([OpSym(Not)], [])) == Ok(State([OpSym(Not)], [OpItem(Not)]))
  {
    hide OpName;
    assert [] + [OpSym(Not)] == [OpSym(Not)];
    assert Front([OpSym(Not)]) == [] && [] + [OpItem(Not)] == [OpItem(Not)];
  }
}
