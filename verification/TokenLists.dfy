/** The converter on arbitrary token lists, well-formed or not: when it raises, and what the output
    is made of. */
module TokenLists {
  import opened PyValues
  import opened Evaluator
  import ExpressionMeaning

  // ----- when conversion raises -----

  /** With `depth` parentheses open, the rest closes them all and never closes one too many. */
  predicate Balanced(toks: seq<Token>, depth: nat) {
    if toks == [] then depth == 0
    else if toks[0].OpenTok? then Balanced(toks[1..], depth + 1)
    else if toks[0].CloseTok? then depth > 0 && Balanced(toks[1..], depth - 1)
    else Balanced(toks[1..], depth)
  }

  function Opens(stack: seq<Sym>): nat
    decreases |stack|
  {
    if stack == [] then 0 else Opens(Front(stack)) + (if Last(stack).OpenSym? then 1 else 0)
  }

  lemma OpensPush(stack: seq<Sym>, y: Sym)
    ensures Opens(stack + [y]) == Opens(stack) + if y.OpenSym? then 1 else 0
  {
    assert Front(stack + [y]) == stack;
  }

  lemma {:induction false} OpensPopOps(stack: seq<Sym>, out: seq<Item>, level: nat)
    ensures Opens(PopOps(stack, out, level).stack) == Opens(stack)
    decreases |stack|
  {
    hide Level;
    if stack != [] && Last(stack).OpSym? && Level(Last(stack).op) >= level {
      OpensPopOps(Front(stack), out + [SymItem(Last(stack))], level);
    }
  }

  lemma {:induction false} OpensPopToOpen(stack: seq<Sym>, out: seq<Item>)
    ensures var s := PopToOpen(stack, out).stack;
            && Opens(s) == Opens(stack)
            && (s != [] ==> Last(s).OpenSym?)
            && (s == [] <==> Opens(stack) == 0)
    decreases |stack|
  {
    if stack != [] && !Last(stack).OpenSym? {
      OpensPopToOpen(Front(stack), out + [SymItem(Last(stack))]);
    }
  }

  lemma OpensStep(tok: Token, s: State)
    ensures var r := StepToken(tok, s);
            match tok
            case OpenTok => r.Ok? && Opens(r.value.stack) == Opens(s.stack) + 1
            case CloseTok =>
              if Opens(s.stack) == 0 then r == Raise(ValueError)
              else r.Ok? && Opens(r.value.stack) == Opens(s.stack) - 1
            case CommaTok => r == Ok(s) || r == Raise(UnboundLocalError)
            case _ => r.Ok? && Opens(r.value.stack) == Opens(s.stack)
  {
    match tok {
      case FuncTok(f) => OpensPush(s.stack, FuncSym(f));
      case OpenTok => OpensPush(s.stack, OpenSym);
      case OpTok(op) =>
        OpensPopOps(s.stack, s.output, Level(op));
        OpensPush(PopOps(s.stack, s.output, Level(op)).stack, OpSym(op));
      case CloseTok => OpensPopToOpen(s.stack, s.output);
      case _ =>
    }
  }

  lemma {:induction false} OpensDrain(stack: seq<Sym>, out: seq<Item>)
    ensures if Opens(stack) == 0 then Drain(stack, out).Ok? else Drain(stack, out) == Raise(ValueError)
    decreases |stack|
  {
    if stack != [] && !Last(stack).OpenSym? {
      OpensDrain(Front(stack), out + [SymItem(Last(stack))]);
    }
  }

  lemma {:induction false} ConvertFromRaises(toks: seq<Token>, s: State)
    ensures ConvertFrom(toks, s).Ok? ==> Balanced(toks, Opens(s.stack))
    ensures CommaTok !in toks ==>
              if Balanced(toks, Opens(s.stack)) then ConvertFrom(toks, s).Ok?
              else ConvertFrom(toks, s) == Raise(ValueError)
  {
    hide StepToken;
    if toks == [] {
      OpensDrain(s.stack, s.output);
    } else {
      OpensStep(toks[0], s);
      var r := StepToken(toks[0], s);
      if r.Ok? {
        ConvertFromRaises(toks[1..], r.value);
      }
    }
  }

  /** A comma-free token list is refused exactly when its parentheses do not balance, whatever else
      is wrong with it; a list with commas is accepted only if they balance. */
  lemma ConvertRaisesExactly(toks: seq<Token>)
    ensures Convert(toks).Ok? ==> Balanced(toks, 0)
    ensures CommaTok !in toks ==>
              if Balanced(toks, 0) then Convert(toks).Ok? else Convert(toks) == Raise(ValueError)
  {
    ConvertFromRaises(toks, State([], []));
  }

  // ----- what the output is made of -----

  /** A call and the bare name of its function count as the same thing. */
  function Erase(it: Item): Item {
    match it
    case CallItem(f) => SymItem(FuncSym(f))
    case Val(_) => it
  }

  function OutputBag(out: seq<Item>): multiset<Item>
    decreases |out|
  {
    if out == [] then multiset{} else OutputBag(Front(out)) + multiset{Erase(Last(out))}
  }

  function StackBag(stack: seq<Sym>): multiset<Item>
    decreases |stack|
  {
    if stack == [] then multiset{}
    else StackBag(Front(stack)) + if Last(stack).OpenSym? then multiset{} else multiset{SymItem(Last(stack))}
  }

  function TokenBag(tok: Token): multiset<Item> {
    match tok
    case FuncTok(f) => multiset{SymItem(FuncSym(f))}
    case OpTok(op) => multiset{OpItem(op)}
    case LitTok(v) => multiset{Val(v)}
    case _ => multiset{}
  }

  function TokensBag(toks: seq<Token>): multiset<Item> {
    if toks == [] then multiset{} else TokenBag(toks[0]) + TokensBag(toks[1..])
  }

  ghost function Bag(s: State): multiset<Item> {
    StackBag(s.stack) + OutputBag(s.output)
  }

  lemma BagPush(stack: seq<Sym>, y: Sym, out: seq<Item>, it: Item)
    ensures StackBag(stack + [y]) == StackBag(stack) + if y.OpenSym? then multiset{} else multiset{SymItem(y)}
    ensures OutputBag(out + [it]) == OutputBag(out) + multiset{Erase(it)}
  {
    assert Front(stack + [y]) == stack && Front(out + [it]) == out;
  }

  /** Moving the top of the stack to the output loses and adds nothing. */
  lemma BagMove(stack: seq<Sym>, out: seq<Item>)
    requires stack != [] && !Last(stack).OpenSym?
    ensures Bag(State(Front(stack), out + [SymItem(Last(stack))])) == Bag(State(stack, out))
  {
    BagPush([], OpenSym, out, SymItem(Last(stack)));
  }

  lemma {:induction false} BagPopOps(stack: seq<Sym>, out: seq<Item>, level: nat)
    ensures Bag(PopOps(stack, out, level)) == Bag(State(stack, out))
    decreases |stack|
  {
    hide Level, Bag;
    if stack != [] && Last(stack).OpSym? && Level(Last(stack).op) >= level {
      BagMove(stack, out);
      BagPopOps(Front(stack), out + [SymItem(Last(stack))], level);
    }
  }

  lemma {:induction false} BagPopToOpen(stack: seq<Sym>, out: seq<Item>)
    ensures Bag(PopToOpen(stack, out)) == Bag(State(stack, out))
    ensures var s := PopToOpen(stack, out).stack; s == [] || Last(s).OpenSym?
    decreases |stack|
  {
    hide Bag;
    if stack != [] && !Last(stack).OpenSym? {
      BagMove(stack, out);
      BagPopToOpen(Front(stack), out + [SymItem(Last(stack))]);
    }
  }

  lemma {:induction false} BagDrain(stack: seq<Sym>, out: seq<Item>)
    ensures var r := Drain(stack, out); r.Ok? ==> OutputBag(r.value) == Bag(State(stack, out))
    decreases |stack|
  {
    if stack != [] && !Last(stack).OpenSym? {
      BagMove(stack, out);
      BagDrain(Front(stack), out + [SymItem(Last(stack))]);
    }
  }

  lemma BagClose(s: State)
    ensures var r := CloseParen(s); r.Ok? ==> Bag(r.value) == Bag(s)
  {
    BagPopToOpen(s.stack, s.output);
    var t := PopToOpen(s.stack, s.output);
    if t.stack != [] {
      var below := Front(t.stack);
      assert Bag(State(below, t.output)) == Bag(t);
      if below != [] && Last(below).FuncSym? {
        BagPush([], OpenSym, t.output, CallItem(Last(below).f));
      }
    }
  }

  lemma BagShift(stack: seq<Sym>, y: Sym, out: seq<Item>, it: Item)
    ensures Bag(State(stack + [y], out)) ==
            Bag(State(stack, out)) + if y.OpenSym? then multiset{} else multiset{SymItem(y)}
    ensures Bag(State(stack, out + [it])) == Bag(State(stack, out)) + multiset{Erase(it)}
  {
    hide SymItem, Erase;
    BagPush(stack, y, out, it);
  }

  lemma BagPushOp(op: Op, s: State)
    ensures Bag(PushOp(op, s)) == Bag(s) + multiset{OpItem(op)}
  {
    hide Level, Bag, PopOps, OpName;
    BagPopOps(s.stack, s.output, Level(op));
    var t := PopOps(s.stack, s.output, Level(op));
    BagShift(t.stack, OpSym(op), t.output, Val(NoneV));
  }

  lemma BagStep(tok: Token, s: State)
    ensures var r := StepToken(tok, s); r.Ok? ==> Bag(r.value) == Bag(s) + TokenBag(tok)
  {
    hide CloseParen, PushOp, OpName, FuncName, Bag;
    match tok {
      case FuncTok(f) => BagShift(s.stack, FuncSym(f), s.output, Val(NoneV));
      case OpenTok => BagShift(s.stack, OpenSym, s.output, Val(NoneV));
      case OpTok(op) => BagPushOp(op, s);
      case CloseTok => BagClose(s);
      case LitTok(v) => BagShift(s.stack, OpenSym, s.output, Val(v));
      case CommaTok =>
    }
  }

  lemma {:induction false} ConvertFromKeepsBag(toks: seq<Token>, s: State)
    ensures var r := ConvertFrom(toks, s); r.Ok? ==> OutputBag(r.value) == Bag(s) + TokensBag(toks)
  {
    hide StepToken, Bag, TokenBag;
    if toks == [] {
      BagDrain(s.stack, s.output);
    } else {
      BagStep(toks[0], s);
      var r := StepToken(toks[0], s);
      if r.Ok? {
        ConvertFromKeepsBag(toks[1..], r.value);
      }
    }
  }

  /** Whenever conversion succeeds, its output is a rearrangement of the tokens other than
      parentheses and commas, with some function names turned into calls. */
  lemma OutputRearrangesTokens(toks: seq<Token>)
    requires Convert(toks).Ok?
    ensures OutputBag(Convert(toks).value) == TokensBag(toks)
  {
    ConvertFromKeepsBag(toks, State([], []));
  }

  // ----- operands keep their order -----

  /** An RPN element that can only have come from a literal. */
  predicate IsOperand(it: Item) {
    && it.Val?
    && (it.v.StrV? ==> OpNamed(it.v.s).NotAnOp? && it.v.s !in ["int", "str", "float", "Version"])
  }

  function Operands(out: seq<Item>): seq<Item>
    decreases |out|
  {
    if out == [] then []
    else Operands(Front(out)) + if IsOperand(Last(out)) then [Last(out)] else []
  }

  function OperandTokens(toks: seq<Token>): seq<Item> {
    if toks == [] then []
    else (if toks[0].LitTok? && IsOperand(Val(toks[0].v)) then [Val(toks[0].v)] else []) + OperandTokens(toks[1..])
  }

  lemma OperandsPush(out: seq<Item>, it: Item)
    ensures Operands(out + [it]) == Operands(out) + if IsOperand(it) then [it] else []
  {
    hide IsOperand;
    assert Front(out + [it]) == out;
  }

  lemma PoppedIsNoOperand(y: Sym)
    requires !y.OpenSym?
    ensures !IsOperand(SymItem(y))
  {
    hide OpNamed, OpName;
    if y.OpSym? {
      ExpressionMeaning.OpNamedName(y.op);
    }
  }

  lemma {:induction false} OperandsPopOps(stack: seq<Sym>, out: seq<Item>, level: nat)
    ensures Operands(PopOps(stack, out, level).output) == Operands(out)
    decreases |stack|
  {
    hide Level, IsOperand;
    if stack != [] && Last(stack).OpSym? && Level(Last(stack).op) >= level {
      PoppedIsNoOperand(Last(stack));
      OperandsPush(out, SymItem(Last(stack)));
      OperandsPopOps(Front(stack), out + [SymItem(Last(stack))], level);
    }
  }

  lemma {:induction false} OperandsPopToOpen(stack: seq<Sym>, out: seq<Item>)
    ensures Operands(PopToOpen(stack, out).output) == Operands(out)
    decreases |stack|
  {
    hide IsOperand;
    if stack != [] && !Last(stack).OpenSym? {
      PoppedIsNoOperand(Last(stack));
      OperandsPush(out, SymItem(Last(stack)));
      OperandsPopToOpen(Front(stack), out + [SymItem(Last(stack))]);
    }
  }

  lemma {:induction false} OperandsDrain(stack: seq<Sym>, out: seq<Item>)
    ensures var r := Drain(stack, out); r.Ok? ==> Operands(r.value) == Operands(out)
    decreases |stack|
  {
    hide IsOperand;
    if stack != [] && !Last(stack).OpenSym? {
      PoppedIsNoOperand(Last(stack));
      OperandsPush(out, SymItem(Last(stack)));
      OperandsDrain(Front(stack), out + [SymItem(Last(stack))]);
    }
  }

  lemma OperandsStep(tok: Token, s: State)
    ensures var r := StepToken(tok, s);
            r.Ok? ==> Operands(r.value.output) == Operands(s.output) + OperandTokens([tok])
  {
    hide Level, OpNamed;
    assert [tok][1..] == [];
    match tok {
      case OpTok(op) => OperandsPopOps(s.stack, s.output, Level(op));
      case CloseTok =>
        OperandsPopToOpen(s.stack, s.output);
        var t := PopToOpen(s.stack, s.output);
        if t.stack != [] && Front(t.stack) != [] && Last(Front(t.stack)).FuncSym? {
          OperandsPush(t.output, CallItem(Last(Front(t.stack)).f));
        }
      case LitTok(v) => OperandsPush(s.output, Val(v));
      case _ =>
    }
  }

  lemma OperandTokensSplit(toks: seq<Token>)
    requires toks != []
    ensures OperandTokens(toks) == OperandTokens([toks[0]]) + OperandTokens(toks[1..])
  {
    hide IsOperand;
    assert [toks[0]][1..] == [];
  }

  lemma {:induction false} ConvertFromKeepsOperands(toks: seq<Token>, s: State)
    ensures var r := ConvertFrom(toks, s); r.Ok? ==> Operands(r.value) == Operands(s.output) + OperandTokens(toks)
  {
    hide StepToken, IsOperand, Operands, Drain;
    if toks == [] {
      OperandsDrain(s.stack, s.output);
    } else {
      OperandsStep(toks[0], s);
      OperandTokensSplit(toks);
      var r := StepToken(toks[0], s);
      if r.Ok? {
        ConvertFromKeepsOperands(toks[1..], r.value);
      }
    }
  }

  /** The literals come out in the order in which they were written. */
  lemma OperandsKeepOrder(toks: seq<Token>)
    requires Convert(toks).Ok?
    ensures Operands(Convert(toks).value) == OperandTokens(toks)
  {
    ConvertFromKeepsOperands(toks, State([], []));
  }
}
