/** The parentheses that are enough are exactly those `Sufficient` asks for: any other printing of a tree
    is converted to something else. */
module SufficiencyExact {
  import opened PyValues
  import opened Evaluator
  import opened ShuntingYard
  import opened ExpressionMeaning

  /** `not` stands only in front of an operand, never between two. */
  predicate PrefixNot(e: Expr) {
    match e
    case Lit(_) => true
    case Neg(a) => PrefixNot(a)
    case Bin(op, l, r) => op != Not && PrefixNot(l) && PrefixNot(r)
    case Call(_, a) => PrefixNot(a)
    case Paren(a) => PrefixNot(a)
  }

  // ----- the output only grows -----

  lemma {:induction false} PopOpsAppends(stack: seq<Sym>, out: seq<Item>, level: nat)
    ensures out <= PopOps(stack, out, level).output
    decreases |stack|
  {
    if stack != [] && Last(stack).OpSym? && Level(Last(stack).op) >= level {
      PopOpsAppends(Front(stack), out + [SymItem(Last(stack))], level);
    }
  }

  lemma {:induction false} PopToOpenAppends(stack: seq<Sym>, out: seq<Item>)
    ensures out <= PopToOpen(stack, out).output
    decreases |stack|
  {
    if stack != [] && !Last(stack).OpenSym? {
      PopToOpenAppends(Front(stack), out + [SymItem(Last(stack))]);
    }
  }

  lemma {:induction false} DrainAppends(stack: seq<Sym>, out: seq<Item>)
    ensures var r := Drain(stack, out); r.Ok? ==> out <= r.value
    decreases |stack|
  {
    if stack != [] && !Last(stack).OpenSym? {
      DrainAppends(Front(stack), out + [SymItem(Last(stack))]);
    }
  }

  lemma StepAppends(tok: Token, s: State)
    ensures var r := StepToken(tok, s); r.Ok? ==> s.output <= r.value.output
  {
    hide Level, OpName, PopOps, PopToOpen;
    match tok
    case OpTok(op) => PopOpsAppends(s.stack, s.output, Level(op));
    case CloseTok => PopToOpenAppends(s.stack, s.output);
    case _ =>
  }

  lemma {:induction false} ConvertAppends(toks: seq<Token>, s: State)
    ensures var r := ConvertFrom(toks, s); r.Ok? ==> s.output <= r.value
  {
    hide StepToken, Drain;
    if toks == [] {
      DrainAppends(s.stack, s.output);
    } else {
      StepAppends(toks[0], s);
      var r := StepToken(toks[0], s);
      if r.Ok? {
        ConvertAppends(toks[1..], r.value);
      }
    }
  }

  /** What one token has put out stays at the front of the whole output. */
  lemma OutputStays(tok: Token, rest: seq<Token>, s: State, s': State, fin: seq<Item>)
    requires StepToken(tok, s) == Ok(s') && ConvertFrom([tok] + rest, s) == Ok(fin)
    ensures ConvertFrom(rest, s') == Ok(fin) && s'.output <= fin
  {
    hide StepToken, ConvertFrom;
    ConvertStep(tok, rest, s, s');
    ConvertAppends(rest, s');
  }

  // ----- what an expression puts out first -----

  predicate IsLiteral(it: Item) {
    it.Val? && !IsOpWord(it.v)
  }

  lemma OpIsNoLiteral(op: Op)
    ensures !IsLiteral(OpItem(op))
  {
    OpNamedName(op);
  }

  lemma {:induction false} PostorderStarts(e: Expr)
    requires PlainLiterals(e)
    ensures Postorder(e) != [] && IsLiteral(Postorder(e)[0])
  {
    hide OpNamed;
    match e
    case Lit(_) =>
    case Neg(a) => PostorderStarts(a);
    case Bin(_, l, _) => PostorderStarts(l);
    case Call(_, a) => PostorderStarts(a);
    case Paren(a) => PostorderStarts(a);
  }

  predicate TopIsNot(stack: seq<Sym>) {
    stack != [] && Last(stack) == OpSym(Not)
  }

  lemma PushNot(stack: seq<Sym>, out: seq<Item>)
    ensures !TopIsNot(stack) ==> PushOp(Not, State(stack, out)) == State(stack + [OpSym(Not)], out)
    ensures TopIsNot(stack) ==> out + [OpItem(Not)] <= PushOp(Not, State(stack, out)).output
  {
    if TopIsNot(stack) {
      PopOpsAppends(Front(stack), out + [OpItem(Not)], 7);
    }
  }

  /** The next element of the output, when an expression is read, is a literal of it, or a `not` that its
      own prefixes push out. */
  lemma {:induction false} FirstItem(e: Expr, rest: seq<Token>, stack: seq<Sym>, out: seq<Item>, fin: seq<Item>)
    requires PlainLiterals(e)
    requires ConvertFrom(Tokens(e) + rest, State(stack, out)) == Ok(fin)
    ensures |out| < |fin| && out == fin[..|out|]
    ensures IsLiteral(fin[|out|]) || fin[|out|] == OpItem(Not)
  {
    hide ConvertFrom, StepToken, PushOp, OpName, OpNamed, IsLiteral, TopIsNot;
    var s := State(stack, out);
    match e {
      case Lit(v) =>
        LiteralStep(v, s);
        OutputStays(LitTok(v), rest, s, State(stack, out + [Val(v)]), fin);
        assert fin[|out|] == (out + [Val(v)])[|out|];
      case Paren(a) =>
        assert Tokens(e) + rest == [OpenTok] + (Tokens(a) + ([CloseTok] + rest));
        OpenStep(s);
        OutputStays(OpenTok, Tokens(a) + ([CloseTok] + rest), s, State(stack + [OpenSym], out), fin);
        FirstItem(a, [CloseTok] + rest, stack + [OpenSym], out, fin);
      case Call(f, a) =>
        var inside := [OpenTok] + (Tokens(a) + ([CloseTok] + rest));
        assert Tokens(e) + rest == [FuncTok(f)] + inside;
        FuncStep(f, s);
        var t := State(stack + [FuncSym(f)], out);
        OutputStays(FuncTok(f), inside, s, t, fin);
        OpenStep(t);
        OutputStays(OpenTok, Tokens(a) + ([CloseTok] + rest), t, State(t.stack + [OpenSym], out), fin);
        FirstItem(a, [CloseTok] + rest, t.stack + [OpenSym], out, fin);
      case Neg(a) =>
        assert Tokens(e) + rest == [OpTok(Not)] + (Tokens(a) + rest);
        OpStep(Not, s);
        PushNot(stack, out);
        OutputStays(OpTok(Not), Tokens(a) + rest, s, PushOp(Not, s), fin);
        if TopIsNot(stack) {
          assert fin[|out|] == (out + [OpItem(Not)])[|out|];
        } else {
          FirstItem(a, rest, stack + [OpSym(Not)], out, fin);
        }
      case Bin(op, l, r) =>
        assert Tokens(e) + rest == Tokens(l) + ([OpTok(op)] + Tokens(r) + rest);
        FirstItem(l, [OpTok(op)] + Tokens(r) + rest, stack, out, fin);
    }
  }

  lemma LiteralStep(v: Value, s: State)
    ensures StepToken(LitTok(v), s) == Ok(State(s.stack, s.output + [Val(v)]))
    ensures !IsOpWord(v) ==> IsLiteral(Val(v))
  {
  }

  lemma OpenStep(s: State)
    ensures StepToken(OpenTok, s) == Ok(State(s.stack + [OpenSym], s.output))
  {
  }

  lemma FuncStep(f: Func, s: State)
    ensures StepToken(FuncTok(f), s) == Ok(State(s.stack + [FuncSym(f)], s.output))
  {
  }

  lemma OpStep(op: Op, s: State)
    ensures StepToken(OpTok(op), s) == Ok(PushOp(op, s))
  {
  }

  // ----- an insufficient printing is converted to something else -----

  predicate NoFuncOnTop(stack: seq<Sym>) {
    stack == [] || !Last(stack).FuncSym?
  }

  /** If the conversion goes on with the postorder of `e` after it has begun to read `e`, then `e` is
      printed with enough parentheses, and its operators pop nothing that was there before. */
  lemma {:induction false} Exact(e: Expr, rest: seq<Token>, stack: seq<Sym>, out: seq<Item>, fin: seq<Item>)
    requires PrefixNot(e) && PlainLiterals(e) && NoFuncOnTop(stack)
    requires ConvertFrom(Tokens(e) + rest, State(stack, out)) == Ok(fin)
    requires out + Postorder(e) <= fin
    ensures Sufficient(e) && Stops(stack, Tightness(e))
    decreases e, 1
  {
    hide ConvertFrom, StepToken, Level, OpName, OpNamed;
    var s := State(stack, out);
    match e {
      case Lit(v) => LevelsBelow(stack);
      case Paren(a) =>
        LevelsBelow(stack);
        assert Tokens(e) + rest == [OpenTok] + (Tokens(a) + ([CloseTok] + rest));
        OpenStep(s);
        OutputStays(OpenTok, Tokens(a) + ([CloseTok] + rest), s, State(stack + [OpenSym], out), fin);
        Exact(a, [CloseTok] + rest, stack + [OpenSym], out, fin);
      case Call(f, a) =>
        LevelsBelow(stack);
        var inside := [OpenTok] + (Tokens(a) + ([CloseTok] + rest));
        assert Tokens(e) + rest == [FuncTok(f)] + inside;
        FuncStep(f, s);
        var t := State(stack + [FuncSym(f)], out);
        OutputStays(FuncTok(f), inside, s, t, fin);
        OpenStep(t);
        OutputStays(OpenTok, Tokens(a) + ([CloseTok] + rest), t, State(t.stack + [OpenSym], out), fin);
        assert out + Postorder(a) <= out + Postorder(e);
        Exact(a, [CloseTok] + rest, t.stack + [OpenSym], out, fin);
      case Neg(a) => ExactNeg(a, rest, stack, out, fin);
      case Bin(op, l, r) => ExactBin(op, l, r, rest, stack, out, fin);
    }
  }

  lemma LevelsBelow(stack: seq<Sym>)
    requires NoFuncOnTop(stack)
    ensures Stops(stack, 8)
  {
  }

  lemma {:induction false} ExactNeg(a: Expr, rest: seq<Token>, stack: seq<Sym>, out: seq<Item>, fin: seq<Item>)
    requires PrefixNot(a) && PlainLiterals(a) && NoFuncOnTop(stack)
    requires ConvertFrom(Tokens(Neg(a)) + rest, State(stack, out)) == Ok(fin)
    requires out + Postorder(Neg(a)) <= fin
    ensures Sufficient(a) && Tightness(a) == 8 && Stops(stack, 7)
    decreases a, 2
  {
    hide ConvertFrom, StepToken, PushOp, OpName, OpNamed, IsLiteral, PlainLiterals, Sufficient;
    var s := State(stack, out);
    assert Tokens(Neg(a)) + rest == [OpTok(Not)] + (Tokens(a) + rest);
    OpStep(Not, s);
    PushNot(stack, out);
    OutputStays(OpTok(Not), Tokens(a) + rest, s, PushOp(Not, s), fin);
    PostorderStarts(a);
    OpIsNoLiteral(Not);
    assert out + Postorder(a) <= out + Postorder(Neg(a));
    FirstIsLiteral(out, Postorder(a), fin);
    assert !(out + [OpItem(Not)] <= fin);
    Exact(a, rest, stack + [OpSym(Not)], out, fin);
    OnlyNotIsSeven(stack, a);
  }

  lemma FirstIsLiteral(out: seq<Item>, next: seq<Item>, fin: seq<Item>)
    requires out + next <= fin && next != [] && IsLiteral(next[0])
    ensures forall op :: !(out + [OpItem(op)] <= fin)
  {
    hide IsLiteral;
    assert fin[|out|] == (out + next)[|out|] == next[0];
    forall op
      ensures !(out + [OpItem(op)] <= fin)
    {
      OpIsNoLiteral(op);
      assert (out + [OpItem(op)])[|out|] == OpItem(op);
    }
  }

  lemma OnlyNotIsSeven(stack: seq<Sym>, a: Expr)
    requires NoFuncOnTop(stack) && !TopIsNot(stack)
    ensures Stops(stack, 7)
    ensures Stops(stack + [OpSym(Not)], Tightness(a)) ==> Tightness(a) == 8
  {
  }

  lemma {:induction false} ExactBin(op: Op, l: Expr, r: Expr, rest: seq<Token>, stack: seq<Sym>, out: seq<Item>,
                                    fin: seq<Item>)
    requires op != Not && PrefixNot(l) && PrefixNot(r) && PlainLiterals(l) && PlainLiterals(r) && NoFuncOnTop(stack)
    requires ConvertFrom(Tokens(Bin(op, l, r)) + rest, State(stack, out)) == Ok(fin)
    requires out + Postorder(Bin(op, l, r)) <= fin
    ensures Sufficient(l) && Tightness(l) >= Level(op)
    ensures Sufficient(r) && Tightness(r) > Level(op)
    ensures Stops(stack, Level(op))
    decreases Bin(op, l, r), 0
  {
    hide ConvertFrom, PushOp, Postorder, Done, Pending, Emit, Sufficient, Tightness, Level, PlainLiterals, PrefixNot,
         OpName, OpNamed;
    var tail := Tokens(r) + rest;
    assert Tokens(Bin(op, l, r)) + rest == Tokens(l) + ([OpTok(op)] + tail);
    assert Postorder(Bin(op, l, r)) == Postorder(l) + Postorder(r) + [OpItem(op)] by { PostorderBin(op, l, r); }
    assert out + Postorder(l) <= out + Postorder(Bin(op, l, r));
    Exact(l, [OpTok(op)] + tail, stack, out, fin);
    ConvertExpr(l, [OpTok(op)] + tail, stack, out);
    LeftOperandEnds(op, l, r, rest, stack, out, fin);
    var stack' := stack + [OpSym(op)];
    assert out + Postorder(l) + Postorder(r) <= out + Postorder(Bin(op, l, r));
    Exact(r, rest, stack', out + Postorder(l), fin);
  }

  lemma PostorderBin(op: Op, l: Expr, r: Expr)
    ensures Postorder(Bin(op, l, r)) == Postorder(l) + Postorder(r) + [OpItem(op)]
  {
  }

  lemma {:induction false} EmitIs(pend: seq<Sym>)
    ensures |Emit(pend)| == |pend|
    ensures forall i | 0 <= i < |pend| :: Emit(pend)[i] == SymItem(pend[|pend| - 1 - i])
    decreases |pend|
  {
    hide SymItem;
    if pend != [] {
      EmitIs(Front(pend));
    }
  }

  lemma EmitAppend(a: seq<Sym>, b: seq<Sym>)
    ensures Emit(a + b) == Emit(b) + Emit(a)
  {
    hide Emit;
    EmitIs(a);
    EmitIs(b);
    EmitIs(a + b);
  }

  /** An operator takes a stretch of operators off the stack, and what it leaves on top it could not
      take. */
  lemma {:induction false} PopOpsTakes(stack: seq<Sym>, out: seq<Item>, level: nat) returns (k: nat)
    ensures k <= |stack| && PopOps(stack, out, level) == State(stack[..k], out + Emit(stack[k..]))
    ensures forall i | k <= i < |stack| :: stack[i].OpSym? && Level(stack[i].op) >= level
    ensures k > 0 ==> !(stack[k - 1].OpSym? && Level(stack[k - 1].op) >= level)
    decreases |stack|
  {
    hide Level, Emit, SymItem;
    if stack != [] && Last(stack).OpSym? && Level(Last(stack).op) >= level {
      k := PopOpsTakes(Front(stack), out + [SymItem(Last(stack))], level);
      assert Front(stack)[..k] == stack[..k];
      assert stack[k..] == Front(stack)[k..] + [Last(stack)];
      EmitAppend(Front(stack)[k..], [Last(stack)]);
      EmitIs([Last(stack)]);
      assert out + [SymItem(Last(stack))] + Emit(Front(stack)[k..]) == out + Emit(stack[k..]);
    } else {
      k := |stack|;
      EmitIs(stack[k..]);
      assert stack[..k] == stack;
      assert out + Emit(stack[k..]) == out;
    }
  }

  /** The element that comes next when `j` pending operators are left: the last of those. */
  lemma NextPending(l: Expr, out: seq<Item>, j: nat, fin: seq<Item>)
    requires Sufficient(l) && 0 < j <= |Pending(l)| && out + Postorder(l) <= fin
    ensures var n := |out + Done(l) + Emit(Pending(l)[j..])|;
            n < |fin| && fin[n] == SymItem(Pending(l)[j - 1])
  {
    hide Emit, Done, Pending, Postorder, SymItem, Level;
    var pend := Pending(l);
    DoneThenPending(l);
    EmitIs(pend);
    EmitIs(pend[j..]);
    var n := |Done(l)| + |pend| - j;
    assert Postorder(l)[n] == Emit(pend)[|pend| - j];
    assert (out + Postorder(l))[|out| + n] == Postorder(l)[n];
  }

  lemma OpDiffers(op: Op)
    requires op != Not
    ensures !IsLiteral(OpItem(op)) && OpItem(op) != OpItem(Not)
  {
    OpIsNoLiteral(op);
    if OpName(op) == OpName(Not) {
      OpNamesDistinct(op, Not);
    }
  }

  lemma WeakerIsNotNot(p: Op, op: Op)
    requires Level(p) < Level(op)
    ensures p != Not
  {
  }

  lemma AllPopped(l: Expr, level: nat)
    requires level < 8
    requires forall i | 0 <= i < |Pending(l)| :: Pending(l)[i].OpSym? && Level(Pending(l)[i].op) >= level
    ensures Tightness(l) >= level
  {
    match l
    case Neg(_) => assert Pending(l)[0] == OpSym(Not);
    case Bin(op, _, _) => assert Pending(l)[0] == OpSym(op);
    case _ =>
  }

  /** The operator behind a left operand pops all of the operand's pending operators, and no other. */
  lemma LeftOperandEnds(op: Op, l: Expr, r: Expr, rest: seq<Token>, stack: seq<Sym>, out: seq<Item>, fin: seq<Item>)
    requires op != Not && PlainLiterals(r) && Sufficient(l) && NoFuncOnTop(stack)
    requires ConvertFrom([OpTok(op)] + (Tokens(r) + rest), State(stack + Pending(l), out + Done(l))) == Ok(fin)
    requires out + Postorder(l) + Postorder(r) <= fin
    ensures Tightness(l) >= Level(op) && Stops(stack, Level(op))
    ensures ConvertFrom(Tokens(r) + rest, State(stack + [OpSym(op)], out + Postorder(l))) == Ok(fin)
  {
    hide ConvertFrom, Emit, Done, Pending, Postorder, Level, Tokens, PlainLiterals, Sufficient, PopOps, StepToken,
         OpName, OpNamed, IsLiteral, Tightness;
    var whole := stack + Pending(l);
    var s := State(whole, out + Done(l));
    OpStep(op, s);
    var k := PopOpsTakes(whole, s.output, Level(op));
    var next := State(whole[..k] + [OpSym(op)], s.output + Emit(whole[k..]));
    OutputStays(OpTok(op), Tokens(r) + rest, s, next, fin);
    AtMostPending(op, l, r, rest, stack, out, fin, k);
    AtLeastPending(op, l, r, stack, out, fin, k);
    assert whole[..k] == stack && whole[k..] == Pending(l);
    DoneThenPending(l);
    assert s.output + Emit(whole[k..]) == out + Postorder(l);
    assert forall i | 0 <= i < |Pending(l)| :: whole[k + i] == Pending(l)[i];
    LevelBelowEight(op);
    AllPopped(l, Level(op));
  }

  lemma LevelBelowEight(op: Op)
    ensures Level(op) < 8
  {
  }

  lemma AtMostPending(op: Op, l: Expr, r: Expr, rest: seq<Token>, stack: seq<Sym>, out: seq<Item>, fin: seq<Item>,
                      k: nat)
    requires PlainLiterals(r) && Sufficient(l) && k <= |stack + Pending(l)|
    requires k > 0 ==> var y := (stack + Pending(l))[k - 1]; !(y.OpSym? && Level(y.op) >= Level(op))
    requires var whole := stack + Pending(l);
             ConvertFrom(Tokens(r) + rest, State(whole[..k] + [OpSym(op)], out + Done(l) + Emit(whole[k..]))) == Ok(fin)
    requires out + Postorder(l) + Postorder(r) <= fin
    ensures k <= |stack|
  {
    hide ConvertFrom, Emit, Done, Pending, Postorder, Level, Tokens, PlainLiterals, Sufficient, OpName, OpNamed,
         IsLiteral, Tightness;
    if k > |stack| {
      var whole, j := stack + Pending(l), k - |stack|;
      assert whole[k..] == Pending(l)[j..] && whole[k - 1] == Pending(l)[j - 1];
      DoneThenPending(l);
      assert whole[k - 1] in Pending(l);
      WeakerIsNotNot(whole[k - 1].op, op);
      OpDiffers(whole[k - 1].op);
      FirstItem(r, rest, whole[..k] + [OpSym(op)], out + Done(l) + Emit(whole[k..]), fin);
      NextPending(l, out, j, fin);
    }
  }

  lemma AtLeastPending(op: Op, l: Expr, r: Expr, stack: seq<Sym>, out: seq<Item>, fin: seq<Item>, k: nat)
    requires PlainLiterals(r) && Sufficient(l) && k <= |stack|
    requires forall i | k <= i < |stack| :: (stack + Pending(l))[i].OpSym?
    requires out + Done(l) + Emit((stack + Pending(l))[k..]) <= fin
    requires out + Postorder(l) + Postorder(r) <= fin
    ensures k == |stack|
  {
    hide Emit, Done, Pending, Postorder, Level, Tokens, PlainLiterals, Sufficient, OpName, OpNamed, IsLiteral,
         Tightness;
    if k < |stack| {
      var pend := Pending(l);
      assert (stack + pend)[k..] == stack[k..] + pend;
      EmitAppend(stack[k..], pend);
      DoneThenPending(l);
      EmitIs(stack[k..]);
      var top := Last(stack);
      assert top == (stack + pend)[|stack| - 1] && top == stack[k..][|stack[k..]| - 1];
      assert Emit(stack[k..])[0] == SymItem(top);
      assert out + Done(l) + Emit((stack + pend)[k..]) == out + Postorder(l) + Emit(stack[k..]);
      assert out + Postorder(l) + [SymItem(top)] <= out + Postorder(l) + Emit(stack[k..]);
      PostorderStarts(r);
      FirstIsLiteral(out + Postorder(l), Postorder(r), fin);
    }
  }

  // ----- the exact condition -----

  /** For every expression tree whose literals are plain, and every printing of it: the conversion gives
      the postorder of the tree if and only if the printing has enough parentheses. */
  lemma ConvertsIffSufficient(e: Expr)
    requires PrefixNot(e) && PlainLiterals(e)
    ensures Convert(Tokens(e)) == Ok(Postorder(e)) <==> Sufficient(e)
  {
    if Convert(Tokens(e)) == Ok(Postorder(e)) {
      assert Tokens(e) + [] == Tokens(e) && [] + Postorder(e) == Postorder(e);
      Exact(e, [], [], [], Postorder(e));
    }
    if Sufficient(e) {
      ConversionIsPostorder(e);
    }
  }
}
