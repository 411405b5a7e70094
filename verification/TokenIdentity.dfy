/** Literals keep their identity through the conversion: which literal is which is decided by where it
    was written, not by its value. */
module TokenIdentity {
  import opened PyValues
  import opened Evaluator
  import opened TokenLists

  /** The same tokens with each literal replaced by the number of its place. */
  function Numbered(toks: seq<Token>): (r: seq<Token>)
    ensures |r| == |toks|
    ensures forall i | 0 <= i < |toks| :: r[i] == if toks[i].LitTok? then LitTok(IntV(i)) else toks[i]
  {
    seq(|toks|, i requires 0 <= i < |toks| => if toks[i].LitTok? then LitTok(IntV(i)) else toks[i])
  }

  /** A number turned back into the literal at its place. */
  function BackItem(it: Item, toks: seq<Token>): Item {
    if it.Val? && it.v.IntV? && 0 <= it.v.i < |toks| && toks[it.v.i].LitTok? then Val(toks[it.v.i].v) else it
  }

  function Back(out: seq<Item>, toks: seq<Token>): (r: seq<Item>)
    ensures |r| == |out| && forall i | 0 <= i < |out| :: r[i] == BackItem(out[i], toks)
  {
    seq(|out|, i requires 0 <= i < |out| => BackItem(out[i], toks))
  }

  lemma BackPush(out: seq<Item>, it: Item, toks: seq<Token>)
    ensures Back(out + [it], toks) == Back(out, toks) + [BackItem(it, toks)]
  {
    hide BackItem;
  }

  lemma BackSym(out: seq<Item>, y: Sym, toks: seq<Token>)
    ensures Back(out + [SymItem(y)], toks) == Back(out, toks) + [SymItem(y)]
  {
    hide OpName, FuncName;
    BackPush(out, SymItem(y), toks);
  }

  lemma {:induction false} BackPopOps(stack: seq<Sym>, out: seq<Item>, level: nat, toks: seq<Token>)
    ensures var r := PopOps(stack, out, level);
            PopOps(stack, Back(out, toks), level) == State(r.stack, Back(r.output, toks))
    decreases |stack|
  {
    hide Level, SymItem, Back;
    if stack != [] && Last(stack).OpSym? && Level(Last(stack).op) >= level {
      BackSym(out, Last(stack), toks);
      BackPopOps(Front(stack), out + [SymItem(Last(stack))], level, toks);
    }
  }

  lemma {:induction false} BackPopToOpen(stack: seq<Sym>, out: seq<Item>, toks: seq<Token>)
    ensures var r := PopToOpen(stack, out);
            PopToOpen(stack, Back(out, toks)) == State(r.stack, Back(r.output, toks))
    decreases |stack|
  {
    hide SymItem, Back;
    if stack != [] && !Last(stack).OpenSym? {
      BackSym(out, Last(stack), toks);
      BackPopToOpen(Front(stack), out + [SymItem(Last(stack))], toks);
    }
  }

  lemma {:induction false} BackDrain(stack: seq<Sym>, out: seq<Item>, toks: seq<Token>)
    ensures var r := Drain(stack, out);
            Drain(stack, Back(out, toks)) == if r.Ok? then Ok(Back(r.value, toks)) else r
    decreases |stack|
  {
    hide SymItem, Back;
    if stack != [] && !Last(stack).OpenSym? {
      BackSym(out, Last(stack), toks);
      BackDrain(Front(stack), out + [SymItem(Last(stack))], toks);
    }
  }

  function BackState(s: State, toks: seq<Token>): State {
    State(s.stack, Back(s.output, toks))
  }

  lemma BackStep(toks: seq<Token>, i: nat, s: State)
    requires i < |toks|
    ensures var r := StepToken(Numbered(toks)[i], s);
            StepToken(toks[i], BackState(s, toks)) == if r.Ok? then Ok(BackState(r.value, toks)) else r
  {
    hide Level, PopOps, PopToOpen, Back;
    match toks[i]
    case OpTok(op) => BackPopOps(s.stack, s.output, Level(op), toks);
    case CloseTok =>
      BackPopToOpen(s.stack, s.output, toks);
      var t := PopToOpen(s.stack, s.output);
      if t.stack != [] && Front(t.stack) != [] && Last(Front(t.stack)).FuncSym? {
        BackPush(t.output, CallItem(Last(Front(t.stack)).f), toks);
      }
    case LitTok(v) => BackPush(s.output, Val(IntV(i)), toks);
    case _ =>
  }

  lemma {:induction false} BackConvert(toks: seq<Token>, i: nat, s: State)
    requires i <= |toks|
    ensures var r := ConvertFrom(Numbered(toks)[i..], s);
            ConvertFrom(toks[i..], BackState(s, toks)) == if r.Ok? then Ok(Back(r.value, toks)) else r
    decreases |toks| - i
  {
    hide StepToken, Drain, Back, Numbered;
    if i == |toks| {
      BackDrain(s.stack, s.output, toks);
    } else {
      BackStep(toks, i, s);
      assert toks[i..][0] == toks[i] && toks[i..][1..] == toks[i + 1..];
      var nums := Numbered(toks);
      assert nums[i..][0] == nums[i] && nums[i..][1..] == nums[i + 1..];
      var r := StepToken(nums[i], s);
      if r.Ok? {
        BackConvert(toks, i + 1, r.value);
      }
    }
  }

  /** The places of the literals, in order. */
  function LiteralPlaces(toks: seq<Token>, i: nat): seq<Item>
    requires i <= |toks|
    decreases |toks| - i
  {
    if i == |toks| then []
    else (if toks[i].LitTok? then [Val(IntV(i))] else []) + LiteralPlaces(toks, i + 1)
  }

  lemma {:induction false} OperandsAreLiterals(toks: seq<Token>, i: nat)
    requires i <= |toks|
    ensures OperandTokens(Numbered(toks)[i..]) == LiteralPlaces(toks, i)
    decreases |toks| - i
  {
    hide OpNamed;
    if i < |toks| {
      var nums := Numbered(toks);
      assert nums[i..][0] == nums[i] && nums[i..][1..] == nums[i + 1..];
      OperandsAreLiterals(toks, i + 1);
    }
  }

  /** By identity: the numbered tokens are converted exactly when the tokens are, and refused with the same
      exception otherwise.  The two outputs differ only in the numbers that stand for the literals, and in
      the numbered one every literal occurs exactly once and in the order written, and everything else is
      the other tokens, some function names having become calls. */
  lemma LiteralsByIdentity(toks: seq<Token>)
    ensures var r := Convert(Numbered(toks));
            Convert(toks) == if r.Ok? then Ok(Back(r.value, toks)) else r
    ensures var r := Convert(Numbered(toks));
            r.Ok? ==> Operands(r.value) == LiteralPlaces(toks, 0) && OutputBag(r.value) == TokensBag(Numbered(toks))
  {
    hide ConvertFrom, Operands, OperandTokens, OutputBag, TokensBag;
    var nums := Numbered(toks);
    assert toks[0..] == toks && nums[0..] == nums;
    assert Back([], toks) == [];
    BackConvert(toks, 0, State([], []));
    if Convert(nums).Ok? {
      OperandsKeepOrder(nums);
      OutputRearrangesTokens(nums);
      OperandsAreLiterals(toks, 0);
    }
  }
}
