/** The rule-expression evaluator: tokens to reverse Polish notation by precedence, and a stack
    machine that runs the result. */
module Evaluator {
  import opened PyValues

  datatype Op =
    | Not | Pow | Mul | Div | FloorDiv | Mod | Add | Sub
    | Eq | Ne | Gt | Lt | Ge | Le | BitAnd | And | BitOr | Or

  /** The precedence column of the operator table; `not` binds tightest. */
  function Level(op: Op): nat {
    match op
    case Not => 7
    case Pow => 6
    case Mul => 5 case Div => 5 case FloorDiv => 5 case Mod => 5
    case Add => 4 case Sub => 4
    case Eq => 3 case Ne => 3 case Gt => 3 case Lt => 3 case Ge => 3 case Le => 3
    case BitAnd => 2 case And => 2
    case BitOr => 1 case Or => 1
  }

  function OpName(op: Op): string {
    match op
    case Not => "not" case Pow => "**"
    case Mul => "*" case Div => "/" case FloorDiv => "//" case Mod => "%"
    case Add => "+" case Sub => "-"
    case Eq => "==" case Ne => "!=" case Gt => ">" case Lt => "<" case Ge => ">=" case Le => "<="
    case BitAnd => "&" case And => "and" case BitOr => "|" case Or => "or"
  }

  const OPS: seq<Op> := [Not, Pow, Mul, Div, FloorDiv, Mod, Add, Sub,
                         Eq, Ne, Gt, Lt, Ge, Le, BitAnd, And, BitOr, Or]

  datatype OpLookup = NotAnOp | Found(op: Op)

  function Lookup(s: string, ops: seq<Op>): (r: OpLookup)
    ensures r.Found? ==> OpName(r.op) == s && r.op in ops
  {
    if ops == [] then NotAnOp
    else if OpName(ops[0]) == s then Found(ops[0])
    else Lookup(s, ops[1..])
  }

  /** Looking a token up in the operator table, as `token in cls.OPS` does. */
  function OpNamed(s: string): OpLookup {
    Lookup(s, OPS)
  }

  datatype Func = IntFn | StrFn | FloatFn | VersionFn

  function FuncName(f: Func): string {
    match f
    case IntFn => "int" case StrFn => "str" case FloatFn => "float" case VersionFn => "Version"
  }

  /** What the tokenizer hands over; NUM, STR, NONE and BOOL all carry the value they denote. */
  datatype Token =
    | FuncTok(f: Func)
    | OpTok(op: Op)
    | OpenTok
    | CloseTok
    | CommaTok
    | LitTok(v: Value)

  /** What the conversion stack may hold: operator names, function names and "(". */
  datatype Sym = OpSym(op: Op) | FuncSym(f: Func) | OpenSym

  /** An element of the RPN list.  Operators are plain Python strings there, so a string literal
      spelled like an operator cannot be told from the operator.  A call is the pair (f, 1): the
      converter never counts more than one argument. */
  datatype Item = Val(v: Value) | CallItem(f: Func)

  function OpItem(op: Op): Item {
    Val(StrV(OpName(op)))
  }

  /** The list element that a popped stack entry becomes. */
  function SymItem(y: Sym): Item {
    match y
    case OpSym(op) => OpItem(op)
    case FuncSym(f) => Val(StrV(FuncName(f)))
    case OpenSym => Val(StrV("("))
  }

  // ----- conversion: specification over values -----

  datatype State = State(stack: seq<Sym>, output: seq<Item>)

  function PopOps(stack: seq<Sym>, output: seq<Item>, level: nat): State
    decreases |stack|
  {
    if stack != [] && Last(stack).OpSym? && Level(Last(stack).op) >= level then
      PopOps(Front(stack), output + [SymItem(Last(stack))], level)
    else
      State(stack, output)
  }

  function PopToOpen(stack: seq<Sym>, output: seq<Item>): State
    decreases |stack|
  {
    if stack != [] && !Last(stack).OpenSym? then
      PopToOpen(Front(stack), output + [SymItem(Last(stack))])
    else
      State(stack, output)
  }

  function PushOp(op: Op, s: State): State {
    var t := PopOps(s.stack, s.output, Level(op));
    State(t.stack + [OpSym(op)], t.output)
  }

  function CloseParen(s: State): Outcome<State> {
    var t := PopToOpen(s.stack, s.output);
    if t.stack == [] then Raise(ValueError)
    else
      var below := Front(t.stack);
      if below != [] && Last(below).FuncSym? then
        Ok(State(Front(below), t.output + [CallItem(Last(below).f)]))
      else
        Ok(State(below, t.output))
  }

  function StepToken(tok: Token, s: State): Outcome<State> {
    match tok
    case FuncTok(f) => Ok(State(s.stack + [FuncSym(f)], s.output))
    case OpTok(op) => Ok(PushOp(op, s))
    case OpenTok => Ok(State(s.stack + [OpenSym], s.output))
    case CloseTok => CloseParen(s)
    case CommaTok =>
      // the argument counter is incremented before it is ever bound
      if s.stack != [] && !Last(s.stack).OpenSym? then Raise(UnboundLocalError) else Ok(s)
    case LitTok(v) => Ok(State(s.stack, s.output + [Val(v)]))
  }

  function Drain(stack: seq<Sym>, output: seq<Item>): Outcome<seq<Item>>
    decreases |stack|
  {
    if stack == [] then Ok(output)
    else if Last(stack).OpenSym? then Raise(ValueError)
    else Drain(Front(stack), output + [SymItem(Last(stack))])
  }

  function ConvertFrom(toks: seq<Token>, s: State): Outcome<seq<Item>> {
    if toks == [] then Drain(s.stack, s.output)
    else
      match StepToken(toks[0], s)
      case Raise(x) => Raise(x)
      case Ok(s') => ConvertFrom(toks[1..], s')
  }

  function Convert(toks: seq<Token>): Outcome<seq<Item>> {
    ConvertFrom(toks, State([], []))
  }

  // ----- conversion: the in-place loops -----

  /** The two lists that `_convert_rpn` hands to its helpers to push and pop in place. */
  class RpnBuilder {
    var stack: seq<Sym>
    var output: seq<Item>

    constructor ()
      ensures stack == [] && output == []
    {
      stack, output := [], [];
    }

    function Contents(): State
      reads this
    {
      State(stack, output)
    }

    method ProcessOp(op: Op)
      modifies this
      ensures Contents() == PushOp(op, old(Contents()))
    {
      var prec := Level(op);
      while stack != [] && Last(stack).OpSym? && Level(Last(stack).op) >= prec
        invariant PopOps(stack, output, prec) == PopOps(old(stack), old(output), prec)
        decreases |stack|
      {
        output := output + [SymItem(Last(stack))];
        stack := Front(stack);
      }
      stack := stack + [OpSym(op)];
    }

    method ProcessParenthese(open: bool) returns (r: Outcome<()>)
      modifies this
      ensures open ==> r == Ok(()) && Contents() == State(old(stack) + [OpenSym], old(output))
      ensures !open ==>
                match CloseParen(old(Contents()))
                case Ok(s) => r == Ok(()) && Contents() == s
                case Raise(x) => r == Raise(x)
    {
      if open {
        stack := stack + [OpenSym];
        return Ok(());
      }
      while stack != [] && !Last(stack).OpenSym?
        invariant PopToOpen(stack, output) == PopToOpen(old(stack), old(output))
        decreases |stack|
      {
        output := output + [SymItem(Last(stack))];
        stack := Front(stack);
      }
      if stack == [] {
        return Raise(ValueError);
      }
      stack := Front(stack);
      if stack != [] && Last(stack).FuncSym? {
        var func := Last(stack).f;
        stack := Front(stack);
        output := output + [CallItem(func)];
      }
      return Ok(());
    }

    method ProcessToken(tok: Token) returns (r: Outcome<()>)
      modifies this
      ensures match StepToken(tok, old(Contents()))
              case Ok(s) => r == Ok(()) && Contents() == s
              case Raise(x) => r == Raise(x)
    {
      r := Ok(());
      match tok {
        case FuncTok(f) => stack := stack + [FuncSym(f)];
        case OpTok(op) => ProcessOp(op);
        case OpenTok => r := ProcessParenthese(true);
        case CloseTok => r := ProcessParenthese(false);
        case CommaTok =>
          if stack != [] && !Last(stack).OpenSym? {
            r := Raise(UnboundLocalError);
          }
        case LitTok(v) => output := output + [Val(v)];
      }
    }
  }

  method ConvertRpn(toks: seq<Token>) returns (r: Outcome<seq<Item>>)
    ensures r == Convert(toks)
  {
    var b := new RpnBuilder();
    for i := 0 to |toks|
      invariant fresh(b)
      invariant ConvertFrom(toks[i..], b.Contents()) == Convert(toks)
    {
      assert toks[i..][0] == toks[i] && toks[i..][1..] == toks[i + 1..];
      var step := b.ProcessToken(toks[i]);
      if step.Raise? {
        return Raise(step.exn);
      }
    }
    while b.stack != []
      invariant fresh(b)
      invariant Drain(b.stack, b.output) == Convert(toks)
      decreases |b.stack|
    {
      if Last(b.stack).OpenSym? {
        return Raise(ValueError);
      }
      b.output := b.output + [SymItem(Last(b.stack))];
      b.stack := Front(b.stack);
    }
    return Ok(b.output);
  }

  // ----- the stack machine -----

  /** The parts of Python the evaluator calls into: truth testing, the functions of the
      `operator` module, and the constructors `int`, `str`, `float` and `Version`. */
  datatype Semantics = Semantics(
    truthy: Value -> bool,
    binary: (Op, Value, Value) -> Outcome<Value>,
    construct: (Func, Value) -> Outcome<Value>)

  /** The table's function for `op`.  `and` and `or` are ordinary functions here: both operands
      have been evaluated by the time they choose one. */
  function Apply(sem: Semantics, op: Op, a: Value, b: Value): Outcome<Value> {
    match op
    case And => Ok(if sem.truthy(a) then b else a)
    case Or => Ok(if sem.truthy(a) then a else b)
    case _ => sem.binary(op, a, b)
  }

  function Negate(sem: Semantics, a: Value): Value {
    BoolV(!sem.truthy(a))
  }

  function StepItem(sem: Semantics, it: Item, stack: seq<Value>): Outcome<seq<Value>> {
    var n := |stack|;
    match it
    case CallItem(f) =>
      if n < 1 then Raise(ValueError)
      else
        var v :- sem.construct(f, stack[n - 1]);
        Ok(stack[..n - 1] + [v])
    case Val(v) =>
      if !v.StrV? || OpNamed(v.s).NotAnOp? then Ok(stack + [v])
      else if OpNamed(v.s).op == Not then
        if n < 1 then Raise(IndexError) else Ok(stack[..n - 1] + [Negate(sem, stack[n - 1])])
      else if n < 2 then Raise(IndexError)
      else
        var r :- Apply(sem, OpNamed(v.s).op, stack[n - 2], stack[n - 1]);
        Ok(stack[..n - 2] + [r])
  }

  function Run(sem: Semantics, rpn: seq<Item>, stack: seq<Value>): Outcome<seq<Value>> {
    if rpn == [] then Ok(stack)
    else
      match StepItem(sem, rpn[0], stack)
      case Raise(x) => Raise(x)
      case Ok(stack') => Run(sem, rpn[1..], stack')
  }

  function EvaluateRpnSpec(sem: Semantics, rpn: seq<Item>): Outcome<Value> {
    match Run(sem, rpn, [])
    case Raise(x) => Raise(x)
    case Ok(stack) => if |stack| == 1 then Ok(stack[0]) else Raise(ValueError)
  }

  /** The machine's value stack, pushed and popped in place. */
  class ValueStack {
    var items: seq<Value>

    constructor ()
      ensures items == []
    {
      items := [];
    }

    method Pop() returns (v: Value)
      requires items != []
      modifies this
      ensures v == Last(old(items)) && items == Front(old(items))
    {
      v := Last(items);
      items := Front(items);
    }

    method Execute(sem: Semantics, it: Item) returns (r: Outcome<()>)
      modifies this
      ensures match StepItem(sem, it, old(items))
              case Ok(s) => r == Ok(()) && items == s
              case Raise(x) => r == Raise(x)
    {
      match it {
        case CallItem(f) =>
          if |items| < 1 {
            return Raise(ValueError);
          }
          var arg := Pop();
          var v :- sem.construct(f, arg);
          items := items + [v];
        case Val(v) =>
          var op := if v.StrV? then OpNamed(v.s) else NotAnOp;
          if op.NotAnOp? {
            items := items + [v];
          } else if op.op == Not {
            if items == [] {
              return Raise(IndexError);
            }
            var a := Pop();
            items := items + [Negate(sem, a)];
          } else {
            if |items| < 2 {
              return Raise(IndexError);
            }
            var b := Pop();
            var a := Pop();
            var v :- Apply(sem, op.op, a, b);
            items := items + [v];
          }
      }
      return Ok(());
    }
  }

  method EvaluateRpn(sem: Semantics, rpn: seq<Item>) returns (r: Outcome<Value>)
    ensures r == EvaluateRpnSpec(sem, rpn)
  {
    var stack := new ValueStack();
    for i := 0 to |rpn|
      invariant fresh(stack)
      invariant Run(sem, rpn[i..], stack.items) == Run(sem, rpn, [])
    {
      assert rpn[i..][0] == rpn[i] && rpn[i..][1..] == rpn[i + 1..];
      var step := stack.Execute(sem, rpn[i]);
      if step.Raise? {
        return Raise(step.exn);
      }
    }
    if |stack.items| != 1 {
      return Raise(ValueError);
    }
    return Ok(stack.items[0]);
  }

  /** What a caller of `_evaluate` sees: type, value and zero-division errors of the machine give
      the text back; every other exception, and every conversion error, goes through. */
  function EvaluateSpec(sem: Semantics, text: string, toks: seq<Token>): Outcome<Value> {
    match Convert(toks)
    case Raise(x) => Raise(x)
    case Ok(rpn) =>
      match EvaluateRpnSpec(sem, rpn)
      case Ok(v) => Ok(v)
      case Raise(x) =>
        if x == ValueError || x == TypeError || x == ZeroDivisionError then Ok(StrV(text)) else Raise(x)
  }

  method Evaluate(sem: Semantics, text: string, toks: seq<Token>) returns (r: Outcome<Value>)
    ensures r == EvaluateSpec(sem, text, toks)
  {
    var rpn := ConvertRpn(toks);
    if rpn.Raise? {
      return Raise(rpn.exn);
    }
    r := EvaluateRpn(sem, rpn.value);
    if r.Raise? && (r.exn == ValueError || r.exn == TypeError || r.exn == ZeroDivisionError) {
      r := Ok(StrV(text));
    }
  }
}
