/** Printed expressions with sufficient parentheses convert to exactly their tree's postorder, and
    running that postorder computes exactly the tree's value. */
module ShuntingYard {
  import opened PyValues
  import opened Evaluator

  /** Expressions as written: `Paren` records the parentheses that were actually printed. */
  datatype Expr =
    | Lit(v: Value)
    | Neg(arg: Expr)
    | Bin(op: Op, left: Expr, right: Expr)
    | Call(f: Func, arg: Expr)
    | Paren(inner: Expr)

  /** How tightly the outermost construct of `e` binds. */
  function Tightness(e: Expr): nat {
    match e
    case Neg(_) => 7
    case Bin(op, _, _) => Level(op)
    case _ => 8
  }

  /** The printed parentheses are enough for the intended tree: left operands may be as loose as
      their operator, right operands must be tighter, and `not` takes only an atom, a call or a
      parenthesised expression, and is not itself a binary operator. */
  predicate Sufficient(e: Expr) {
    match e
    case Lit(_) => true
    case Neg(a) => Tightness(a) == 8 && Sufficient(a)
    case Bin(op, l, r) =>
      op != Not && Tightness(l) >= Level(op) && Tightness(r) > Level(op) && Sufficient(l) && Sufficient(r)
    case Call(_, a) => Sufficient(a)
    case Paren(a) => Sufficient(a)
  }

  function Tokens(e: Expr): seq<Token> {
    match e
    case Lit(v) => [LitTok(v)]
    case Neg(a) => [OpTok(Not)] + Tokens(a)
    case Bin(op, l, r) => Tokens(l) + [OpTok(op)] + Tokens(r)
    case Call(f, a) => [FuncTok(f), OpenTok] + Tokens(a) + [CloseTok]
    case Paren(a) => [OpenTok] + Tokens(a) + [CloseTok]
  }

  function Postorder(e: Expr): seq<Item> {
    match e
    case Lit(v) => [Val(v)]
    case Neg(a) => Postorder(a) + [OpItem(Not)]
    case Bin(op, l, r) => Postorder(l) + Postorder(r) + [OpItem(op)]
    case Call(f, a) => Postorder(a) + [CallItem(f)]
    case Paren(a) => Postorder(a)
  }

  // ----- conversion -----

  /** The operators of `e` still on the stack, and what is already in the output, once the last
      token of `e` has been read. */
  function Pending(e: Expr): seq<Sym> {
    match e
    case Neg(a) => [OpSym(Not)]
    case Bin(op, l, r) => [OpSym(op)] + Pending(r)
    case _ => []
  }

  function Done(e: Expr): seq<Item> {
    match e
    case Neg(a) => Postorder(a)
    case Bin(op, l, r) => Postorder(l) + Done(r)
    case _ => Postorder(e)
  }

  /** A run of stack entries in the order in which they are popped. */
  function Emit(pend: seq<Sym>): seq<Item>
    decreases |pend|
  {
    if pend == [] then [] else [SymItem(Last(pend))] + Emit(Front(pend))
  }

  lemma {:induction false} EmitPrepend(y: Sym, pend: seq<Sym>)
    ensures Emit([y] + pend) == Emit(pend) + [SymItem(y)]
    decreases |pend|
  {
    var p := [y] + pend;
    if pend == [] {
      assert Front(p) == [];
    } else {
      assert Last(p) == Last(pend) && Front(p) == [y] + Front(pend);
      EmitPrepend(y, Front(pend));
    }
  }

  lemma {:induction false} DoneThenPending(e: Expr)
    requires Sufficient(e)
    ensures Done(e) + Emit(Pending(e)) == Postorder(e)
    ensures forall y <- Pending(e) :: y.OpSym? && Level(y.op) >= Tightness(e)
  {
    match e {
      case Neg(a) => assert Front([OpSym(Not)]) == [];
      case Bin(op, l, r) =>
        hide Level;
        DoneThenPending(r);
        EmitPrepend(OpSym(op), Pending(r));
        DoneThenPendingBin(op, l, r);
      case _ =>
    }
  }

  lemma DoneThenPendingBin(op: Op, l: Expr, r: Expr)
    requires Done(r) + Emit(Pending(r)) == Postorder(r)
    requires Emit([OpSym(op)] + Pending(r)) == Emit(Pending(r)) + [OpItem(op)]
    ensures Done(Bin(op, l, r)) + Emit(Pending(Bin(op, l, r))) == Postorder(Bin(op, l, r))
  {
    hide Level, Emit;
    var a, b, c, d := Postorder(l), Done(r), Emit(Pending(r)), [OpItem(op)];
    assert Done(Bin(op, l, r)) == a + b && Emit(Pending(Bin(op, l, r))) == c + d;
    assert Postorder(Bin(op, l, r)) == a + (b + c) + d;
    Regroup(a, b, c, d);
  }

  lemma Regroup<T>(a: seq<T>, b: seq<T>, c: seq<T>, d: seq<T>)
    ensures (a + b) + (c + d) == a + (b + c) + d
  {
  }

  /** An operator of this level pops nothing from `stack`. */
  predicate Stops(stack: seq<Sym>, level: nat) {
    stack == [] || Last(stack).OpenSym? || (Last(stack).OpSym? && Level(Last(stack).op) < level)
  }

  lemma {:induction false} PopOpsTakesPending(stack: seq<Sym>, pend: seq<Sym>, out: seq<Item>, level: nat)
    requires Stops(stack, level)
    requires forall y <- pend :: y.OpSym? && Level(y.op) >= level
    ensures PopOps(stack + pend, out, level) == State(stack, out + Emit(pend))
    decreases |pend|
  {
    var s := stack + pend;
    if pend == [] {
      assert s == stack;
      assert out + Emit(pend) == out;
    } else {
      assert Last(s) == Last(pend) && Front(s) == stack + Front(pend);
      PopOpsTakesPending(stack, Front(pend), out + [SymItem(Last(pend))], level);
      assert out + [SymItem(Last(pend))] + Emit(Front(pend)) == out + Emit(pend);
    }
  }

  lemma {:induction false} PopToOpenTakesPending(stack: seq<Sym>, pend: seq<Sym>, out: seq<Item>)
    requires stack != [] && Last(stack).OpenSym?
    requires forall y <- pend :: y.OpSym?
    ensures PopToOpen(stack + pend, out) == State(stack, out + Emit(pend))
    decreases |pend|
  {
    var s := stack + pend;
    if pend == [] {
      assert s == stack;
      assert out + Emit(pend) == out;
    } else {
      assert Last(s) == Last(pend) && Front(s) == stack + Front(pend);
      PopToOpenTakesPending(stack, Front(pend), out + [SymItem(Last(pend))]);
      assert out + [SymItem(Last(pend))] + Emit(Front(pend)) == out + Emit(pend);
    }
  }

  lemma {:induction false} DrainTakesPending(pend: seq<Sym>, out: seq<Item>)
    requires forall y <- pend :: y.OpSym?
    ensures Drain(pend, out) == Ok(out + Emit(pend))
    decreases |pend|
  {
    if pend == [] {
      assert out + Emit(pend) == out;
    } else {
      DrainTakesPending(Front(pend), out + [SymItem(Last(pend))]);
      assert out + [SymItem(Last(pend))] + Emit(Front(pend)) == out + Emit(pend);
    }
  }

  lemma ConvertStep(tok: Token, rest: seq<Token>, s: State, s': State)
    requires StepToken(tok, s) == Ok(s')
    ensures ConvertFrom([tok] + rest, s) == ConvertFrom(rest, s')
  {
    assert ([tok] + rest)[1..] == rest;
  }

  /** Closing a parenthesis: its pending operators are emitted, and a function name below it
      becomes a call. */
  lemma CloseTakesPending(base: seq<Sym>, pend: seq<Sym>, out: seq<Item>)
    requires forall y <- pend :: y.OpSym?
    ensures CloseParen(State(base + [OpenSym] + pend, out)) ==
            if base != [] && Last(base).FuncSym?
            then Ok(State(Front(base), out + Emit(pend) + [CallItem(Last(base).f)]))
            else Ok(State(base, out + Emit(pend)))
  {
    var inside := base + [OpenSym];
    assert Last(inside) == OpenSym && Front(inside) == base;
    PopToOpenTakesPending(inside, pend, out);
  }

  lemma {:induction false} ConvertExpr(e: Expr, rest: seq<Token>, stack: seq<Sym>, out: seq<Item>)
    requires Sufficient(e)
    requires Stops(stack, Tightness(e))
    ensures ConvertFrom(Tokens(e) + rest, State(stack, out))
         == ConvertFrom(rest, State(stack + Pending(e), out + Done(e)))
    decreases e, 1
  {
    hide ConvertFrom, Emit, Level;
    match e {
      case Lit(v) =>
        ConvertStep(LitTok(v), rest, State(stack, out), State(stack, out + [Val(v)]));
        assert stack + Pending(e) == stack;
      case Neg(a) =>
        ConvertNeg(a, rest, stack, out);
      case Bin(op, l, r) =>
        ConvertBin(op, l, r, rest, stack, out);
      case Paren(a) =>
        ConvertGroup(a, rest, stack, out);
        assert Tokens(e) + rest == [OpenTok] + (Tokens(a) + ([CloseTok] + rest));
        assert stack + Pending(e) == stack;
      case Call(f, a) =>
        ConvertCall(f, a, rest, stack, out);
        assert stack + Pending(e) == stack;
    }
  }

  lemma {:induction false} ConvertCall(f: Func, a: Expr, rest: seq<Token>, stack: seq<Sym>, out: seq<Item>)
    requires Sufficient(a)
    ensures ConvertFrom(Tokens(Call(f, a)) + rest, State(stack, out))
         == ConvertFrom(rest, State(stack, out + Postorder(Call(f, a))))
    decreases a, 3
  {
    hide ConvertFrom, Sufficient;
    var base := stack + [FuncSym(f)];
    var tail := [OpenTok] + (Tokens(a) + ([CloseTok] + rest));
    assert Tokens(Call(f, a)) + rest == [FuncTok(f)] + tail;
    ConvertStep(FuncTok(f), tail, State(stack, out), State(base, out));
    ConvertGroup(a, rest, base, out);
    assert Last(base) == FuncSym(f) && Front(base) == stack;
    assert out + Postorder(a) + [CallItem(f)] == out + Postorder(Call(f, a));
  }

  /** A parenthesised `a` on any stack; a function name on top of the stack is applied to it. */
  lemma {:induction false} ConvertGroup(a: Expr, rest: seq<Token>, base: seq<Sym>, out: seq<Item>)
    requires Sufficient(a)
    ensures ConvertFrom([OpenTok] + (Tokens(a) + ([CloseTok] + rest)), State(base, out)) ==
            if base != [] && Last(base).FuncSym?
            then ConvertFrom(rest, State(Front(base), out + Postorder(a) + [CallItem(Last(base).f)]))
            else ConvertFrom(rest, State(base, out + Postorder(a)))
    decreases a, 2
  {
    hide ConvertFrom, CloseParen, Postorder, Done, Pending, Emit, Sufficient, Tightness, Level, Tokens;
    var tail := [CloseTok] + rest;
    var inside := base + [OpenSym];
    ConvertStep(OpenTok, Tokens(a) + tail, State(base, out), State(inside, out));
    ConvertExpr(a, tail, inside, out);
    DoneThenPending(a);
    CloseTakesPending(base, Pending(a), out + Done(a));
    assert out + Done(a) + Emit(Pending(a)) == out + Postorder(a);
    var s := State(inside + Pending(a), out + Done(a));
    ConvertStep(CloseTok, rest, s, CloseParen(s).value);
  }

  lemma {:induction false} ConvertNeg(a: Expr, rest: seq<Token>, stack: seq<Sym>, out: seq<Item>)
    requires Sufficient(a) && Tightness(a) == 8
    requires Stops(stack, 7)
    ensures ConvertFrom(Tokens(Neg(a)) + rest, State(stack, out))
         == ConvertFrom(rest, State(stack + [OpSym(Not)], out + Postorder(a)))
    decreases a, 2
  {
    var stack' := stack + [OpSym(Not)];
    assert PushOp(Not, State(stack, out)) == State(stack', out);
    assert Tokens(Neg(a)) + rest == [OpTok(Not)] + (Tokens(a) + rest);
    ConvertStep(OpTok(Not), Tokens(a) + rest, State(stack, out), State(stack', out));
    ConvertExpr(a, rest, stack', out);
    assert Pending(a) == [] && stack' + Pending(a) == stack' && Done(a) == Postorder(a);
  }

  lemma {:induction false} ConvertBin(op: Op, l: Expr, r: Expr, rest: seq<Token>, stack: seq<Sym>, out: seq<Item>)
    requires Sufficient(l) && Tightness(l) >= Level(op)
    requires Sufficient(r) && Tightness(r) > Level(op)
    requires Stops(stack, Level(op))
    ensures ConvertFrom(Tokens(Bin(op, l, r)) + rest, State(stack, out))
         == ConvertFrom(rest, State(stack + ([OpSym(op)] + Pending(r)), out + (Postorder(l) + Done(r))))
    decreases Bin(op, l, r), 0
  {
    hide ConvertFrom, PushOp, Postorder, Done, Pending, Emit, Sufficient, Tightness, Level;
    var tail := Tokens(r) + rest;
    assert Tokens(Bin(op, l, r)) + rest == Tokens(l) + ([OpTok(op)] + tail);
    ConvertExpr(l, [OpTok(op)] + tail, stack, out);
    BinOperator(op, l, stack, out);
    var stack' := stack + [OpSym(op)];
    ConvertStep(OpTok(op), tail, State(stack + Pending(l), out + Done(l)), State(stack', out + Postorder(l)));
    ConvertExpr(r, rest, stack', out + Postorder(l));
    assert stack' + Pending(r) == stack + ([OpSym(op)] + Pending(r));
    assert out + Postorder(l) + Done(r) == out + (Postorder(l) + Done(r));
  }

  lemma PushOpTakesPending(op: Op, stack: seq<Sym>, pend: seq<Sym>, out: seq<Item>)
    requires Stops(stack, Level(op))
    requires forall y <- pend :: y.OpSym? && Level(y.op) >= Level(op)
    ensures PushOp(op, State(stack + pend, out)) == State(stack + [OpSym(op)], out + Emit(pend))
  {
    PopOpsTakesPending(stack, pend, out, Level(op));
  }

  lemma BinOperator(op: Op, l: Expr, stack: seq<Sym>, out: seq<Item>)
    requires Sufficient(l) && Tightness(l) >= Level(op)
    requires Stops(stack, Level(op))
    ensures PushOp(op, State(stack + Pending(l), out + Done(l))) == State(stack + [OpSym(op)], out + Postorder(l))
  {
    hide Level, PushOp, Emit, Done, Pending, Sufficient, Postorder, Tightness, Stops;
    DoneThenPending(l);
    PushOpTakesPending(op, stack, Pending(l), out + Done(l));
    assert out + Done(l) + Emit(Pending(l)) == out + Postorder(l);
  }

  /** Shunting-yard correctness: whatever parentheses were printed, as long as they are enough, the
      converter outputs the postorder of the tree. */
  lemma ConversionIsPostorder(e: Expr)
    requires Sufficient(e)
    ensures Convert(Tokens(e)) == Ok(Postorder(e))
  {
    assert Tokens(e) + [] == Tokens(e);
    ConvertExpr(e, [], [], []);
    DoneThenPending(e);
    assert [] + Pending(e) == Pending(e) && [] + Done(e) == Done(e);
    DrainTakesPending(Pending(e), Done(e));
  }
}
