/** The rule language as a layered grammar: the converter reads exactly the grammar's sentences as their
    trees. */
module Precedence {
  import opened PyValues
  import opened Evaluator
  import opened ShuntingYard
  import opened ExpressionMeaning
  import opened SufficiencyExact
  import TokenLists

  /** The binary operators, those that bind tightest first; one group binds equally. */
  const GROUPS: seq<set<Op>> := [
    {Pow},
    {Mul, Div, FloorDiv, Mod},
    {Add, Sub},
    {Eq, Ne, Gt, Lt, Ge, Le},
    {BitAnd, And},
    {BitOr, Or}
  ]

  /** An expression without binary operators outside of its parentheses: an atom, or `not` and one. */
  predicate Operand(e: Expr)
    decreases e, 1
  {
    match e
    case Neg(a) => Atom(a)
    case _ => Atom(e)
  }

  predicate Atom(e: Expr)
    decreases e, 0
  {
    match e
    case Lit(_) => true
    case Call(_, a) => Sentence(a)
    case Paren(a) => Sentence(a)
    case _ => false
  }

  /** A chain of the first `n` groups: `chain(n) ::= chain(n - 1) | chain(n) op chain(n - 1)`, with an
      operator of group `n - 1`. */
  predicate Chain(e: Expr, n: nat)
    requires n <= |GROUPS|
    decreases e, 2 + n
  {
    if n == 0 then Operand(e)
    else Chain(e, n - 1) || (e.Bin? && e.op in GROUPS[n - 1] && Chain(e.left, n) && Chain(e.right, n - 1))
  }

  predicate Sentence(e: Expr)
    decreases e, 3 + |GROUPS|
  {
    Chain(e, |GROUPS|)
  }

  // ----- the levels of the table realise the groups -----

  lemma GroupOf(op: Op)
    ensures op == Not <==> forall n | 0 <= n < 6 :: op !in GROUPS[n]
    ensures forall n | 0 <= n < 6 :: op in GROUPS[n] <==> op != Not && Level(op) == 6 - n
  {
    assert GROUPS[0] == {Pow} && GROUPS[1] == {Mul, Div, FloorDiv, Mod} && GROUPS[2] == {Add, Sub};
    assert GROUPS[3] == {Eq, Ne, Gt, Lt, Ge, Le} && GROUPS[4] == {BitAnd, And} && GROUPS[5] == {BitOr, Or};
  }

  lemma {:induction false} ChainIff(e: Expr, n: nat)
    requires n <= |GROUPS|
    ensures Chain(e, n) <==> Sufficient(e) && Tightness(e) >= 7 - n
    decreases e, 1 + n
  {
    hide Level;
    if n == 0 {
      OperandIff(e);
    } else {
      ChainIff(e, n - 1);
      if e.Bin? {
        GroupOf(e.op);
        ChainIff(e.left, n);
        ChainIff(e.right, n - 1);
      }
    }
  }

  lemma {:induction false} OperandIff(e: Expr)
    ensures Atom(e) <==> Sufficient(e) && Tightness(e) == 8
    ensures Operand(e) <==> Sufficient(e) && Tightness(e) >= 7
    decreases e, 0
  {
    match e
    case Lit(_) =>
    case Neg(a) => OperandIff(a);
    case Call(_, a) => ChainIff(a, |GROUPS|);
    case Paren(a) => ChainIff(a, |GROUPS|);
    case Bin(op, _, _) => GroupOf(op);
  }

  lemma SentenceIff(e: Expr)
    ensures Sentence(e) <==> Sufficient(e)
  {
    hide Level;
    ChainIff(e, |GROUPS|);
    if e.Bin? {
      GroupOf(e.op);
    }
  }

  /** The grammar, exactly: whatever parentheses a printing has, the converter reads it as its tree if and
      only if it is a sentence of the grammar. */
  lemma ReadExactlyBySentences(e: Expr)
    requires PrefixNot(e) && PlainLiterals(e)
    ensures Convert(Tokens(e)) == Ok(Postorder(e)) <==> Sentence(e)
  {
    hide *;
    SentenceIff(e);
    ConvertsIffSufficient(e);
  }

  /** And every sentence is evaluated to the value of its tree. */
  lemma SentenceEvaluates(sem: Semantics, text: string, e: Expr)
    requires Sentence(e) && PlainLiterals(e)
    ensures EvaluateSpec(sem, text, Tokens(e)) ==
            var d := Denote(sem, e);
            if d.Raise? && GivesTextBack(d.exn) then Ok(StrV(text)) else d
  {
    hide *;
    SentenceIff(e);
    EvaluatePrinted(sem, text, e);
  }

  // ----- two operators beside one another -----

  lemma {:induction false} ChainGrows(e: Expr, m: nat, n: nat)
    requires m <= n <= |GROUPS| && Chain(e, m)
    ensures Chain(e, n)
    decreases n
  {
    if m < n {
      ChainGrows(e, m, n - 1);
    }
  }

  lemma LiteralChain(v: Value, n: nat)
    requires n <= |GROUPS|
    ensures Chain(Lit(v), n)
  {
    ChainGrows(Lit(v), 0, n);
  }

  lemma BinChain(l: Expr, op: Op, r: Expr, i: nat, n: nat)
    requires i < n <= |GROUPS| && op in GROUPS[i] && Chain(l, i + 1) && Chain(r, i)
    ensures Chain(Bin(op, l, r), n)
  {
    assert Chain(Bin(op, l, r), i + 1);
    ChainGrows(Bin(op, l, r), i + 1, n);
  }

  /** Of two operators the one of an earlier group is applied first, on whichever side it stands. */
  lemma TighterFirst(i: nat, j: nat, op: Op, op': Op, a: Value, b: Value, c: Value)
    requires i < j < |GROUPS| && op in GROUPS[i] && op' in GROUPS[j]
    ensures Convert([LitTok(a), OpTok(op'), LitTok(b), OpTok(op), LitTok(c)]) ==
            Ok([Val(a), Val(b), Val(c), OpItem(op), OpItem(op')])
    ensures Convert([LitTok(a), OpTok(op), LitTok(b), OpTok(op'), LitTok(c)]) ==
            Ok([Val(a), Val(b), OpItem(op), Val(c), OpItem(op')])
  {
    hide Chain, Convert, OpItem, GROUPS;
    LiteralChain(a, i + 1);
    LiteralChain(a, j + 1);
    LiteralChain(b, i);
    LiteralChain(b, i + 1);
    LiteralChain(c, i);
    LiteralChain(c, j);
    BinChain(Lit(b), op, Lit(c), i, j);
    BinChain(Lit(a), op', Bin(op, Lit(b), Lit(c)), j, |GROUPS|);
    BinChain(Lit(a), op, Lit(b), i, j + 1);
    BinChain(Bin(op, Lit(a), Lit(b)), op', Lit(c), j, |GROUPS|);
    ThreeConvert(op', op, a, b, c);
    ThreeConvert(op, op', a, b, c);
  }

  /** Two operators of one group are applied from the left. */
  lemma OneGroupFromLeft(i: nat, op: Op, op': Op, a: Value, b: Value, c: Value)
    requires i < |GROUPS| && op in GROUPS[i] && op' in GROUPS[i]
    ensures Convert([LitTok(a), OpTok(op), LitTok(b), OpTok(op'), LitTok(c)]) ==
            Ok([Val(a), Val(b), OpItem(op), Val(c), OpItem(op')])
  {
    hide Chain, Convert, OpItem, GROUPS;
    LiteralChain(a, i + 1);
    LiteralChain(b, i);
    LiteralChain(c, i);
    BinChain(Lit(a), op, Lit(b), i, i + 1);
    BinChain(Bin(op, Lit(a), Lit(b)), op', Lit(c), i, |GROUPS|);
    ThreeConvert(op, op', a, b, c);
  }

  lemma ThreeConvert(op: Op, op': Op, a: Value, b: Value, c: Value)
    ensures var toks := [LitTok(a), OpTok(op), LitTok(b), OpTok(op'), LitTok(c)];
            && (Sentence(Bin(op', Bin(op, Lit(a), Lit(b)), Lit(c))) ==>
                  Convert(toks) == Ok([Val(a), Val(b), OpItem(op), Val(c), OpItem(op')]))
            && (Sentence(Bin(op, Lit(a), Bin(op', Lit(b), Lit(c)))) ==>
                  Convert(toks) == Ok([Val(a), Val(b), Val(c), OpItem(op'), OpItem(op)]))
  {
    hide Chain, Convert, OpItem, Sufficient, Level;
    var left, right := Bin(op', Bin(op, Lit(a), Lit(b)), Lit(c)), Bin(op, Lit(a), Bin(op', Lit(b), Lit(c)));
    var toks := [LitTok(a), OpTok(op), LitTok(b), OpTok(op'), LitTok(c)];
    ThreeGrouped(op, op', a, b, c);
    SentenceIff(left);
    SentenceIff(right);
    if Sufficient(left) { ConversionIsPostorder(left); }
    if Sufficient(right) { ConversionIsPostorder(right); }
  }

  lemma ThreeGrouped(op: Op, op': Op, a: Value, b: Value, c: Value)
    ensures var left, right := Bin(op', Bin(op, Lit(a), Lit(b)), Lit(c)), Bin(op, Lit(a), Bin(op', Lit(b), Lit(c)));
            && Tokens(left) == Tokens(right) == [LitTok(a), OpTok(op), LitTok(b), OpTok(op'), LitTok(c)]
            && Postorder(left) == [Val(a), Val(b), OpItem(op), Val(c), OpItem(op')]
            && Postorder(right) == [Val(a), Val(b), Val(c), OpItem(op'), OpItem(op)]
  {
    hide OpItem;
    var x, y := Bin(op, Lit(a), Lit(b)), Bin(op', Lit(b), Lit(c));
    assert Tokens(x) == [LitTok(a), OpTok(op), LitTok(b)] && Postorder(x) == [Val(a), Val(b), OpItem(op)];
    assert Tokens(y) == [LitTok(b), OpTok(op'), LitTok(c)] && Postorder(y) == [Val(b), Val(c), OpItem(op')];
  }

  /** `not` is applied before any binary operator, on both its sides. */
  lemma NotFirst(i: nat, op: Op, a: Value, b: Value)
    requires i < |GROUPS| && op in GROUPS[i]
    ensures Convert([OpTok(Not), LitTok(a), OpTok(op), LitTok(b)]) == Ok([Val(a), OpItem(Not), Val(b), OpItem(op)])
    ensures Convert([LitTok(a), OpTok(op), OpTok(Not), LitTok(b)]) == Ok([Val(a), Val(b), OpItem(Not), OpItem(op)])
  {
    var left, right := Bin(op, Neg(Lit(a)), Lit(b)), Bin(op, Lit(a), Neg(Lit(b)));
    assert Sentence(left) && Sentence(right) by {
      hide GROUPS;
      ChainGrows(Neg(Lit(a)), 0, i + 1);
      ChainGrows(Neg(Lit(b)), 0, i);
      LiteralChain(a, i + 1);
      LiteralChain(b, i);
      BinChain(Neg(Lit(a)), op, Lit(b), i, |GROUPS|);
      BinChain(Lit(a), op, Neg(Lit(b)), i, |GROUPS|);
    }
    hide Chain, Convert, OpItem, Sufficient, Level, GROUPS;
    SentenceIff(left);
    SentenceIff(right);
    ConversionIsPostorder(left);
    ConversionIsPostorder(right);
    assert Tokens(left) == [OpTok(Not), LitTok(a), OpTok(op), LitTok(b)];
    assert Tokens(right) == [LitTok(a), OpTok(op), OpTok(Not), LitTok(b)];
    assert Postorder(left) == [Val(a), OpItem(Not), Val(b), OpItem(op)];
    assert Postorder(right) == [Val(a), Val(b), OpItem(Not), OpItem(op)];
  }

  // ----- what the operators compute -----

  /** A text in which one operator stands between two values: the operands reach the operator in the order in
      which they are written, `and` and `or` choose one of them by the truth of the first, and where the
      operator raises a type, value or zero-division error the text comes back. */
  lemma OneOperator(sem: Semantics, text: string, op: Op, a: Value, b: Value)
    requires op != Not && !IsOpWord(a) && !IsOpWord(b)
    ensures var r := EvaluateSpec(sem, text, [LitTok(a), OpTok(op), LitTok(b)]);
            && (op == And ==> r == Ok(if sem.truthy(a) then b else a))
            && (op == Or ==> r == Ok(if sem.truthy(a) then a else b))
            && (op != And && op != Or ==>
                  r == match sem.binary(op, a, b)
                       case Ok(v) => Ok(v)
                       case Raise(x) =>
                         if x in {ValueError, TypeError, ZeroDivisionError} then Ok(StrV(text)) else Raise(x))
  {
    hide Level, OpNamed;
    var e := Bin(op, Lit(a), Lit(b));
    OneIsSufficient(op, a, b);
    assert Tokens(e) == [LitTok(a), OpTok(op), LitTok(b)];
    hide EvaluateSpec;
    EvaluatePrinted(sem, text, e);
  }

  lemma OneIsSufficient(op: Op, a: Value, b: Value)
    requires op != Not && !IsOpWord(a) && !IsOpWord(b)
    ensures Sufficient(Bin(op, Lit(a), Lit(b))) && PlainLiterals(Bin(op, Lit(a), Lit(b)))
  {
    hide Level, IsOpWord;
    LevelBelowEight(op);
    assert PlainLiterals(Lit(a)) && PlainLiterals(Lit(b)) && Sufficient(Lit(a)) && Sufficient(Lit(b));
  }

  /** `not` in front of a value gives the opposite of its truth, and a call applies the constructor. */
  lemma OnePrefix(sem: Semantics, text: string, f: Func, a: Value)
    requires !IsOpWord(a)
    ensures EvaluateSpec(sem, text, [OpTok(Not), LitTok(a)]) == Ok(BoolV(!sem.truthy(a)))
    ensures EvaluateSpec(sem, text, [FuncTok(f), OpenTok, LitTok(a), CloseTok]) ==
            match sem.construct(f, a)
            case Ok(v) => Ok(v)
            case Raise(x) => if x in {ValueError, TypeError, ZeroDivisionError} then Ok(StrV(text)) else Raise(x)
  {
    hide Level, OpNamed, EvaluateSpec;
    var e, c := Neg(Lit(a)), Call(f, Lit(a));
    assert Sufficient(e) && PlainLiterals(e) && Sufficient(c) && PlainLiterals(c);
    assert Tokens(e) == [OpTok(Not), LitTok(a)] && Tokens(c) == [FuncTok(f), OpenTok, LitTok(a), CloseTok];
    EvaluatePrinted(sem, text, e);
    EvaluatePrinted(sem, text, c);
  }

  // ----- commas and empty calls -----

  /** A comma behind an expression, at the outermost level or inside parentheses: where operators of the
      expression are still pending it raises, and otherwise it is passed over. */
  lemma CommaBehind(e: Expr, rest: seq<Token>, stack: seq<Sym>, out: seq<Item>)
    requires Sentence(e) && (stack == [] || Last(stack).OpenSym?)
    ensures ConvertFrom(Tokens(e) + ([CommaTok] + rest), State(stack, out)) ==
            if e.Bin? || e.Neg? then Raise(UnboundLocalError) else ConvertFrom(rest, State(stack, out + Postorder(e)))
  {
    hide ConvertFrom, Chain, Level, Postorder, Sufficient;
    SentenceIff(e);
    ConvertExpr(e, [CommaTok] + rest, stack, out);
    DoneThenPending(e);
    var s := State(stack + Pending(e), out + Done(e));
    if e.Bin? || e.Neg? {
      assert Last(s.stack) == Last(Pending(e));
      assert Last(Pending(e)) in Pending(e);
      CommaRaises(rest, s);
    } else {
      assert s.stack == stack;
      ConvertStep(CommaTok, rest, s, s);
    }
  }

  lemma CommaRaises(rest: seq<Token>, s: State)
    requires s.stack != [] && Last(s.stack).OpSym?
    ensures ConvertFrom([CommaTok] + rest, s) == Raise(UnboundLocalError)
  {
  }

  /** So a call with two plain arguments never is one: the constructor is applied to the second alone, the
      first is left over, and the text comes back. */
  lemma TwoArguments(sem: Semantics, text: string, f: Func, a: Value, b: Value)
    requires !IsOpWord(a) && !IsOpWord(b)
    ensures EvaluateSpec(sem, text, [FuncTok(f), OpenTok, LitTok(a), CommaTok, LitTok(b), CloseTok]) ==
            match sem.construct(f, b)
            case Ok(_) => Ok(StrV(text))
            case Raise(x) => if x in {ValueError, TypeError, ZeroDivisionError} then Ok(StrV(text)) else Raise(x)
  {
    hide OpNamed, ConvertFrom, Run;
    TwoArgumentsConvert(f, a, b);
    RunThree(sem, f, a, b);
  }

  lemma TwoArgumentsConvert(f: Func, a: Value, b: Value)
    ensures Convert([FuncTok(f), OpenTok, LitTok(a), CommaTok, LitTok(b), CloseTok]) ==
            Ok([Val(a), Val(b), CallItem(f)])
  {
    hide ConvertFrom;
    var s0, s1, s2 := State([], []), State([FuncSym(f)], []), State([FuncSym(f), OpenSym], []);
    var s3, s4 := State(s2.stack, [Val(a)]), State(s2.stack, [Val(a), Val(b)]);
    var s5 := State([], [Val(a), Val(b), CallItem(f)]);
    var rest := [LitTok(a), CommaTok, LitTok(b), CloseTok];
    var toks := [FuncTok(f), OpenTok] + rest;
    assert toks == [FuncTok(f), OpenTok, LitTok(a), CommaTok, LitTok(b), CloseTok];
    assert toks == [FuncTok(f)] + ([OpenTok] + rest) && rest == [LitTok(a)] + ([CommaTok] + [LitTok(b), CloseTok]);
    assert [LitTok(b), CloseTok] == [LitTok(b)] + [CloseTok] && [CloseTok] == [CloseTok] + [];
    assert [] + [FuncSym(f)] == [FuncSym(f)] && [FuncSym(f)] + [OpenSym] == [FuncSym(f), OpenSym];
    assert [] + [Val(a)] == [Val(a)] && [Val(a)] + [Val(b)] == [Val(a), Val(b)];
    assert [Val(a), Val(b)] + [CallItem(f)] == [Val(a), Val(b), CallItem(f)];
    ConvertStep(FuncTok(f), [OpenTok] + rest, s0, s1);
    ConvertStep(OpenTok, rest, s1, s2);
    ConvertStep(LitTok(a), [CommaTok] + [LitTok(b), CloseTok], s2, s3);
    ConvertStep(CommaTok, [LitTok(b), CloseTok], s3, s3);
    ConvertStep(LitTok(b), [CloseTok], s3, s4);
    CloseCall(f, s4.output);
    ConvertStep(CloseTok, [], s4, s5);
    ConvertNothingPending(s5.output);
  }

  lemma CloseCall(f: Func, out: seq<Item>)
    ensures CloseParen(State([FuncSym(f), OpenSym], out)) == Ok(State([], out + [CallItem(f)]))
  {
    var base := [FuncSym(f)];
    assert base + [OpenSym] + [] == [FuncSym(f), OpenSym] && Front(base) == [];
    CloseTakesPending(base, [], out);
    assert out + Emit([]) == out;
  }

  lemma ConvertNothingPending(out: seq<Item>)
    ensures ConvertFrom([], State([], out)) == Ok(out)
  {
  }

  lemma RunThree(sem: Semantics, f: Func, a: Value, b: Value)
    requires !IsOpWord(a) && !IsOpWord(b)
    ensures Run(sem, [Val(a), Val(b), CallItem(f)], []) ==
            match sem.construct(f, b) case Ok(v) => Ok([a, v]) case Raise(x) => Raise(x)
  {
    hide OpNamed, Run;
    var last := [CallItem(f)];
    assert [Val(a), Val(b), CallItem(f)] == [Val(a)] + ([Val(b)] + last) && last == last + [];
    RunStep(sem, Val(a), [Val(b)] + last, []);
    RunStep(sem, Val(b), last, [a]);
    RunStep(sem, CallItem(f), [], [a, b]);
    assert [] + [a] == [a] && [a] + [b] == [a, b] && [a, b][..1] == [a];
    RunNothing(sem, [a]);
    if sem.construct(f, b).Ok? {
      var v := sem.construct(f, b).value;
      assert [a] + [v] == [a, v];
      RunNothing(sem, [a, v]);
    }
  }

  lemma RunNothing(sem: Semantics, stack: seq<Value>)
    ensures Run(sem, [], stack) == Ok(stack)
  {
  }

  /** A call without an argument gives the text back. */
  lemma NoArgument(sem: Semantics, text: string, f: Func)
    ensures EvaluateSpec(sem, text, [FuncTok(f), OpenTok, CloseTok]) == Ok(StrV(text))
  {
    hide ConvertFrom, Run;
    var s1, s2 := State([FuncSym(f)], []), State([FuncSym(f), OpenSym], []);
    var toks := [FuncTok(f), OpenTok, CloseTok];
    assert toks == [FuncTok(f)] + ([OpenTok] + [CloseTok]) && [CloseTok] == [CloseTok] + [];
    assert [] + [FuncSym(f)] == [FuncSym(f)] && [FuncSym(f)] + [OpenSym] == [FuncSym(f), OpenSym];
    ConvertStep(FuncTok(f), [OpenTok] + [CloseTok], State([], []), s1);
    ConvertStep(OpenTok, [CloseTok], s1, s2);
    CloseCall(f, []);
    assert [] + [CallItem(f)] == [CallItem(f)];
    ConvertStep(CloseTok, [], s2, State([], [CallItem(f)]));
    ConvertNothingPending([CallItem(f)]);
    assert [CallItem(f)] == [CallItem(f)] + [];
    RunStep(sem, CallItem(f), [], []);
  }

  /** Parentheses that do not balance raise: this error is not turned into the text. */
  lemma UnbalancedRaises(sem: Semantics, text: string, toks: seq<Token>)
    requires CommaTok !in toks && !TokenLists.Balanced(toks, 0)
    ensures EvaluateSpec(sem, text, toks) == Raise(ValueError)
  {
    hide Convert, TokenLists.Balanced;
    TokenLists.ConvertRaisesExactly(toks);
  }
}
