/** Scanning a laid-out token list gives the list back. */
module ScanRoundTrip {
  import opened PyValues
  import opened Evaluator
  import opened Text
  import opened Scanner

  predicate Delim(c: char) {
    IsSpace(c) || c == '(' || c == ')' || c == ','
  }

  predicate FreeBefore(text: string, i: nat) {
    i == 0 || (i <= |text| && Delim(text[i - 1]))
  }

  predicate FreeAfter(text: string, j: nat) {
    j < |text| ==> Delim(text[j])
  }

  lemma {:induction false} RunEndIs(text: string, i: nat, j: nat, p: char -> bool)
    requires i <= j <= |text|
    requires forall k | i <= k < j :: p(text[k])
    requires j < |text| ==> !p(text[j])
    ensures RunEnd(text, i, p) == j
    decreases j - i
  {
    if i < j {
      RunEndIs(text, i + 1, j, p);
    }
  }

  lemma StartsFirst(text: string, i: nat, w: string)
    requires w != ""
    ensures Starts(text, i, w) ==> i < |text| && text[i] == w[0]
  {
    if Starts(text, i, w) {
      assert text[i..i + |w|][0] == text[i];
    }
  }

  /** The characters an operator can begin with. */
  predicate OpStart(c: char) {
    c in "=!><*/aon+-%&|"
  }

  lemma OpNameStart(op: Op)
    ensures OpName(op) != "" && OpStart(OpName(op)[0])
    ensures forall k | 0 <= k < |OpName(op)| :: !Delim(OpName(op)[k])
  {
  }

  lemma {:induction false} NoOpAt(text: string, i: nat, ops: seq<Op>)
    requires i < |text| && !OpStart(text[i])
    ensures FirstOp(text, i, ops) == NoLex
  {
    hide OpName, OpStart;
    if ops != [] {
      OpNameStart(ops[0]);
      StartsFirst(text, i, OpName(ops[0]));
      NoOpAt(text, i, ops[1..]);
    }
  }

  lemma NoFuncAt(text: string, i: nat)
    requires i < |text| && text[i] !in "isfV"
    ensures FuncAt(text, i) == NoLex
  {
    hide Boundary;
    StartsFirst(text, i, "int");
    StartsFirst(text, i, "str");
    StartsFirst(text, i, "float");
    StartsFirst(text, i, "Version");
  }

  lemma NoWordLiteralAt(text: string, i: nat)
    requires i < |text| && text[i] !in "NtTfF"
    ensures WordLiteralAt(text, i) == NoLex
  {
    hide Boundary;
    StartsFirst(text, i, "None");
    StartsFirst(text, i, "true");
    StartsFirst(text, i, "True");
    StartsFirst(text, i, "false");
    StartsFirst(text, i, "False");
  }

  lemma SpaceLex(text: string, i: nat, j: nat, readFloat: string -> Value)
    requires i < j <= |text|
    requires forall k | i <= k < j :: IsSpace(text[k])
    requires j < |text| ==> !IsSpace(text[j])
    ensures LexAt(text, i, readFloat) == SkipLex(j)
  {
    hide FuncAt, FirstOp, WordLiteralAt;
    NoFuncAt(text, i);
    NoOpAt(text, i, LEXED_OPS);
    NoWordLiteralAt(text, i);
    RunEndIs(text, i, j, IsSpace);
  }

  lemma PunctLex(text: string, i: nat, w: string, tok: Token, readFloat: string -> Value)
    requires Punct(tok) && Spells(w, tok, readFloat) && Starts(text, i, w)
    ensures i < |text| && LexAt(text, i, readFloat) == TokLex(tok, i + 1)
  {
    hide FuncAt, FirstOp;
    StartsFirst(text, i, w);
    NoFuncAt(text, i);
    NoOpAt(text, i, LEXED_OPS);
  }

  lemma StartsEach(text: string, i: nat, w: string)
    requires Starts(text, i, w)
    ensures forall k | i <= k < i + |w| :: text[k] == w[k - i]
    ensures forall k | 0 <= k < |w| :: text[i + k] == w[k]
  {
    forall k | i <= k < i + |w|
      ensures text[k] == w[k - i]
    {
      assert text[i..i + |w|][k - i] == text[k];
    }
  }

  // ----- operators -----

  /** Among the operators of the pattern, the only ones spelled like the beginning of another. */
  lemma OpPrefixes(p: Op, op: Op)
    requires OpName(p) <= OpName(op) && p != op
    ensures (p, op) in {(Gt, Ge), (Lt, Le), (Mul, Pow), (Div, FloorDiv)}
  {
    var s := OpName(p);
    var t := OpName(op);
    assert s == t[..|s|];
    assert s[0] == t[0];
  }

  /** The pattern lists no operator before a longer one that it begins. */
  lemma NoEarlierPrefix(m: nat, k: nat)
    requires m < k < |LEXED_OPS|
    ensures !(OpName(LEXED_OPS[m]) <= OpName(LEXED_OPS[k]))
  {
    if OpName(LEXED_OPS[m]) <= OpName(LEXED_OPS[k]) && LEXED_OPS[m] != LEXED_OPS[k] {
      OpPrefixes(LEXED_OPS[m], LEXED_OPS[k]);
    }
  }

  /** Two words that both start here and one of which is followed by a delimiter: the other, having
      no delimiter in it, is no longer. */
  lemma StartsShorter(text: string, i: nat, v: string, w: string)
    requires Starts(text, i, w) && FreeAfter(text, i + |w|)
    requires forall k | 0 <= k < |v| :: !Delim(v[k])
    ensures Starts(text, i, v) ==> v <= w
  {
    if Starts(text, i, v) {
      StartsEach(text, i, v);
      assert |v| <= |w|;
      assert v == text[i..i + |w|][..|v|];
    }
  }

  lemma {:induction false} FindsFirst(text: string, i: nat, ops: seq<Op>, k: nat)
    requires k < |ops| && Starts(text, i, OpName(ops[k]))
    requires forall m | 0 <= m < k :: !Starts(text, i, OpName(ops[m]))
    ensures FirstOp(text, i, ops) == TokLex(OpTok(ops[k]), i + |OpName(ops[k])|)
    decreases k
  {
    hide OpName, Starts;
    if k > 0 {
      assert ops[1..][k - 1] == ops[k];
      FindsFirst(text, i, ops[1..], k - 1);
    }
  }

  lemma FindsOp(text: string, i: nat, k: nat)
    requires k < |LEXED_OPS|
    requires Starts(text, i, OpName(LEXED_OPS[k])) && FreeAfter(text, i + |OpName(LEXED_OPS[k])|)
    ensures FirstOp(text, i, LEXED_OPS) == TokLex(OpTok(LEXED_OPS[k]), i + |OpName(LEXED_OPS[k])|)
  {
    hide OpName, Starts, FreeAfter, FirstOp, LEXED_OPS;
    forall m | 0 <= m < k
      ensures !Starts(text, i, OpName(LEXED_OPS[m]))
    {
      NoEarlierPrefix(m, k);
      OpNameStart(LEXED_OPS[m]);
      StartsShorter(text, i, OpName(LEXED_OPS[m]), OpName(LEXED_OPS[k]));
    }
    FindsFirst(text, i, LEXED_OPS, k);
  }

  lemma OpStartsNoFunc(op: Op)
    ensures OpName(op) != "" && OpName(op)[0] !in "isfV" && !IsDigit(OpName(op)[0])
    ensures OpName(op)[0] == '-' ==> |OpName(op)| == 1
  {
  }

  lemma OpLex(text: string, i: nat, op: Op, readFloat: string -> Value)
    requires op in LEXED_OPS && Starts(text, i, OpName(op)) && FreeAfter(text, i + |OpName(op)|)
    ensures i < |text| && LexAt(text, i, readFloat) == TokLex(OpTok(op), i + |OpName(op)|)
  {
    hide FuncAt, FirstOp, OpName;
    OpStartsNoFunc(op);
    StartsFirst(text, i, OpName(op));
    NoFuncAt(text, i);
    assert NumAt(text, i, readFloat) == NoLex;
    var k :| 0 <= k < |LEXED_OPS| && LEXED_OPS[k] == op;
    FindsOp(text, i, k);
  }

  // ----- function names and literals -----

  lemma WholeWordHere(text: string, i: nat, w: string)
    requires w != "" && Starts(text, i, w) && FreeBefore(text, i) && FreeAfter(text, i + |w|)
    requires IsWordChar(w[0]) && IsWordChar(Last(w))
    ensures WholeWord(text, i, w)
  {
    StartsEach(text, i, w);
    assert text[i + (|w| - 1)] == Last(w);
  }

  lemma FuncLex(text: string, i: nat, f: Func, readFloat: string -> Value)
    requires Starts(text, i, FuncName(f)) && FreeBefore(text, i) && FreeAfter(text, i + |FuncName(f)|)
    ensures i < |text| && LexAt(text, i, readFloat) == TokLex(FuncTok(f), i + |FuncName(f)|)
  {
    hide FirstOp, Boundary;
    WholeWordHere(text, i, FuncName(f));
    StartsFirst(text, i, "int");
    StartsFirst(text, i, "str");
    StartsFirst(text, i, "float");
    StartsFirst(text, i, "Version");
  }

  lemma NoFuncInWord(text: string, i: nat, w: string)
    requires w in ["None", "true", "True", "false", "False"] && Starts(text, i, w)
    ensures FuncAt(text, i) == NoLex
  {
    hide Boundary;
    StartsEach(text, i, w);
    assert text[i] == w[0] && text[i + 1] == w[1];
    StartsFirst(text, i, "int");
    StartsFirst(text, i, "str");
    StartsFirst(text, i, "Version");
    if Starts(text, i, "float") {
      StartsEach(text, i, "float");
    }
  }

  lemma WordLiteralLex(text: string, i: nat, w: string, v: Value, readFloat: string -> Value)
    requires (w == "None" && v == NoneV) || (w in ["true", "True"] && v == BoolV(true)) ||
             (w in ["false", "False"] && v == BoolV(false))
    requires Starts(text, i, w) && FreeBefore(text, i) && FreeAfter(text, i + |w|)
    ensures i < |text| && LexAt(text, i, readFloat) == TokLex(LitTok(v), i + |w|)
  {
    hide FuncAt, FirstOp, Boundary;
    WholeWordHere(text, i, w);
    StartsFirst(text, i, w);
    NoFuncInWord(text, i, w);
    NoOpAt(text, i, LEXED_OPS);
    StartsFirst(text, i, "None");
    StartsFirst(text, i, "true");
    StartsFirst(text, i, "True");
    StartsFirst(text, i, "false");
  }

  /** A numeral without a point ends where no word character and no point follows; one that has no sign
      begins where no word character precedes. */
  lemma IntLex(text: string, i: nat, w: string, readFloat: string -> Value)
    requires IntWord(w) && Starts(text, i, w) && (w[0] == '-' || !WordAt(text, i - 1))
    requires var j := i + |w|; !WordAt(text, j) && (j < |text| ==> text[j] != '.')
    ensures i < |text| && LexAt(text, i, readFloat) == TokLex(LitTok(IntV(ParseInt(w))), i + |w|)
  {
    hide FuncAt, ParseInt;
    var d := if w[0] == '-' then 1 else 0;
    StartsEach(text, i, w);
    assert text[i] == w[0];
    NoFuncAt(text, i);
    var j := i + |w|;
    forall k | i + d <= k < j
      ensures IsDigit(text[k])
    {
      assert text[k] == w[k - i];
    }
    RunEndIs(text, i + d, j, IsDigit);
    assert Boundary(text, i + d) && Boundary(text, j);
    assert NumeralEnd(text, j) == j;
    assert text[i..j] == w;
    assert '.' !in w;
  }

  /** The two runs of digits of a numeral with a point. */
  lemma FloatRuns(text: string, i: nat, w: string) returns (start: nat, q: nat)
    requires FloatWord(w) && Starts(text, i, w) && !WordAt(text, i + |w|)
    ensures start == (if text[i] == '-' then i + 1 else i) && text[i] == w[0]
    ensures start < q && q + 1 < i + |w| <= |text| && text[q] == '.'
    ensures IsDigit(text[start]) && IsDigit(text[i + |w| - 1])
    ensures RunEnd(text, start, IsDigit) == q && RunEnd(text, q + 1, IsDigit) == i + |w|
  {
    var p :| 0 < p < |w| - 1 && IntWord(w[..p]) && w[p] == '.' && forall k | p < k < |w| :: IsDigit(w[k]);
    assert w[..p][0] == w[0];
    StartsEach(text, i, w);
    start := if w[0] == '-' then i + 1 else i;
    q := i + p;
    forall k | start <= k < q
      ensures IsDigit(text[k])
    {
      assert text[k] == w[k - i] == w[..p][k - i];
    }
    forall k | q < k < i + |w|
      ensures IsDigit(text[k])
    {
      assert text[k] == w[k - i];
    }
    RunEndIs(text, start, q, IsDigit);
    RunEndIs(text, q + 1, i + |w|, IsDigit);
  }

  lemma FloatNumeral(text: string, i: nat, w: string, readFloat: string -> Value)
    requires FloatWord(w) && Starts(text, i, w) && (w[0] == '-' || !WordAt(text, i - 1))
    requires !WordAt(text, i + |w|)
    ensures i < |text| && (text[i] == '-' || IsDigit(text[i]))
    ensures NumAt(text, i, readFloat) == TokLex(LitTok(readFloat(w)), i + |w|)
  {
    var start, q := FloatRuns(text, i, w);
    hide ParseInt, Boundary, FloatWord, RunEnd, NumeralEnd, IsWordChar;
    DigitBoundary(text, start, i + |w|);
    FractionEnds(text, q, i + |w|);
    assert text[i..i + |w|] == w;
    assert w[q - i] == '.';
  }

  lemma FractionEnds(text: string, q: nat, j: nat)
    requires q < |text| && text[q] == '.' && RunEnd(text, q + 1, IsDigit) == j && Boundary(text, j)
    ensures NumeralEnd(text, q) == j
  {
  }

  /** A numeral with a point ends where no word character follows. */
  lemma FloatLex(text: string, i: nat, w: string, readFloat: string -> Value)
    requires FloatWord(w) && Starts(text, i, w) && (w[0] == '-' || !WordAt(text, i - 1))
    requires !WordAt(text, i + |w|)
    ensures i < |text| && LexAt(text, i, readFloat) == TokLex(LitTok(readFloat(w)), i + |w|)
  {
    hide FuncAt, NumAt, FirstOp, WordLiteralAt, StrAt, FloatWord, Starts;
    FloatNumeral(text, i, w, readFloat);
    FuncNotNumeral(text, i);
  }

  lemma FuncNotNumeral(text: string, i: nat)
    requires i < |text| && (text[i] == '-' || IsDigit(text[i]))
    ensures FuncAt(text, i) == NoLex
  {
    NoFuncAt(text, i);
  }

  lemma DigitBoundary(text: string, start: nat, j: nat)
    requires start < j <= |text| && IsDigit(text[start]) && IsDigit(text[j - 1])
    requires !WordAt(text, start - 1) && !WordAt(text, j)
    ensures Boundary(text, start) && Boundary(text, j)
  {
  }

  lemma StrLex(text: string, i: nat, w: string, s: string, readFloat: string -> Value)
    requires Quoted(w, s) && Starts(text, i, w)
    ensures i < |text| && LexAt(text, i, readFloat) == TokLex(LitTok(StrV(s)), i + |w|)
  {
    hide FuncAt, FirstOp;
    StartsEach(text, i, w);
    assert text[i] == w[0] == '\'';
    NoFuncAt(text, i);
    NoOpAt(text, i, LEXED_OPS);
    var end := i + 1 + |s|;
    forall k | i + 1 <= k < end
      ensures NotQuote(text[k])
    {
      assert text[k] == w[k - i] == s[k - i - 1];
    }
    assert text[end] == w[|s| + 1] == '\'';
    RunEndIs(text, i + 1, end, NotQuote);
    assert text[i + 1..end] == s;
  }

  // ----- a minus sign -----

  /** A minus sign begins a numeral when a digit follows it and the digits are not followed by a word
      character: the guard of the pattern's numeral alternative, which comes before the operators. */
  predicate SignHere(text: string, i: nat)
    requires i < |text|
  {
    i + 1 < |text| && IsDigit(text[i + 1]) && !WordAt(text, RunEnd(text, i + 1, IsDigit))
  }

  /** In any text at all, a minus sign is read as the operator if and only if it does not begin a
      numeral; and if it does, a number is read. */
  lemma MinusLex(text: string, i: nat, readFloat: string -> Value)
    requires i < |text| && text[i] == '-'
    ensures LexAt(text, i, readFloat) == TokLex(OpTok(Sub), i + 1) <==> !SignHere(text, i)
    ensures SignHere(text, i) ==> LexAt(text, i, readFloat).TokLex? && LexAt(text, i, readFloat).tok.LitTok?
  {
    hide FuncAt, FirstOp, ParseInt, NumeralEnd, Boundary;
    NoFuncAt(text, i);
    MinusIsSub(text, i);
    if i + 1 < |text| && IsDigit(text[i + 1]) {
      var q := RunEnd(text, i + 1, IsDigit);
      SignBoundary(text, i);
      NumeralEnds(text, i + 1, q);
    }
  }

  lemma SignBoundary(text: string, i: nat)
    requires i + 1 < |text| && text[i] == '-' && IsDigit(text[i + 1])
    ensures Boundary(text, i + 1)
  {
  }

  /** A numeral can end somewhere if and only if no word character follows its integer digits. */
  lemma NumeralEnds(text: string, start: nat, q: nat)
    requires start < q <= |text| && (forall k | start <= k < q :: IsDigit(text[k]))
    ensures q <= NumeralEnd(text, q) <= |text|
    ensures Boundary(text, NumeralEnd(text, q)) <==> !WordAt(text, q)
  {
    assert IsDigit(text[q - 1]);
  }

  lemma MinusIsSub(text: string, i: nat)
    requires i < |text| && text[i] == '-'
    ensures FirstOp(text, i, LEXED_OPS) == TokLex(OpTok(Sub), i + 1)
  {
    hide OpName, Starts, FirstOp;
    assert LEXED_OPS[12] == Sub && forall m | 0 <= m < 12 :: LEXED_OPS[m] != Sub;
    forall op
      ensures Starts(text, i, OpName(op)) <==> op == Sub
    {
      SubStarts(text, i, op);
    }
    SubStarts(text, i, Sub);
    FindsFirst(text, i, LEXED_OPS, 12);
  }

  lemma SubStarts(text: string, i: nat, op: Op)
    requires i < |text| && text[i] == '-'
    ensures Starts(text, i, OpName(op)) <==> op == Sub
    ensures |OpName(Sub)| == 1
  {
    OpNameStart(op);
    StartsFirst(text, i, OpName(op));
  }

  // ----- whole layouts -----

  lemma LexToken(text: string, i: nat, w: string, tok: Token, readFloat: string -> Value)
    requires Spells(w, tok, readFloat) && Starts(text, i, w)
    requires Punct(tok) || (FreeBefore(text, i) && FreeAfter(text, i + |w|))
    ensures i < i + |w| <= |text|
    ensures LexAt(text, i, readFloat) == TokLex(tok, i + |w|)
  {
    hide LexAt, FuncName, OpName, Starts, IntWord, FloatWord, Quoted, FreeBefore, FreeAfter;
    WordBounds(w, tok, readFloat);
    StartsFits(text, i, w);
    match tok {
      case FuncTok(f) => FuncLex(text, i, f, readFloat);
      case OpTok(op) => OpLex(text, i, op, readFloat);
      case LitTok(v) => ValueLex(text, i, w, v, readFloat);
      case _ => PunctLex(text, i, w, tok, readFloat);
    }
  }

  lemma StartsFits(text: string, i: nat, w: string)
    requires Starts(text, i, w)
    ensures i + |w| <= |text|
  {
  }

  lemma ValueLex(text: string, i: nat, w: string, v: Value, readFloat: string -> Value)
    requires SpellsValue(w, v, readFloat) && Starts(text, i, w) && FreeBefore(text, i) && FreeAfter(text, i + |w|)
    ensures LexAt.requires(text, i, readFloat) && LexAt(text, i, readFloat) == TokLex(LitTok(v), i + |w|)
  {
    hide LexAt, Starts, IntWord, FloatWord, Quoted, ParseInt, Delim;
    FreeIsNoWord(text, i, i + |w|);
    if IntWord(w) && v == IntV(ParseInt(w)) {
      IntLex(text, i, w, readFloat);
    } else if FloatWord(w) && v == readFloat(w) {
      FloatLex(text, i, w, readFloat);
    } else if v.StrV? && Quoted(w, v.s) {
      StrLex(text, i, w, v.s, readFloat);
    } else {
      WordLiteralLex(text, i, w, v, readFloat);
    }
  }

  lemma FreeIsNoWord(text: string, i: nat, j: nat)
    ensures FreeBefore(text, i) ==> !WordAt(text, i - 1)
    ensures FreeAfter(text, j) ==> !WordAt(text, j) && (j < |text| ==> text[j] != '.')
  {
  }

  lemma NumeralBounds(w: string)
    requires IntWord(w) || FloatWord(w)
    ensures w != "" && !IsSpace(w[0])
  {
    if FloatWord(w) {
      var p :| 0 < p < |w| - 1 && IntWord(w[..p]);
      assert w[..p][0] == w[0];
    }
  }

  lemma ValueBounds(w: string, v: Value, readFloat: string -> Value)
    requires SpellsValue(w, v, readFloat)
    ensures w != "" && !IsSpace(w[0])
  {
    hide IntWord, FloatWord;
    if IntWord(w) || FloatWord(w) {
      NumeralBounds(w);
    }
  }

  lemma OpBounds(op: Op)
    ensures OpName(op) != "" && !IsSpace(OpName(op)[0])
  {
    OpNameStart(op);
  }

  /** Every spelling is non-empty and begins with no blank, and parentheses and commas delimit. */
  lemma WordBounds(w: string, tok: Token, readFloat: string -> Value)
    requires Spells(w, tok, readFloat)
    ensures w != "" && !IsSpace(w[0])
    ensures Punct(tok) ==> |w| == 1 && Delim(w[0])
  {
    hide OpName, SpellsValue;
    match tok
    case OpTok(op) => OpBounds(op);
    case LitTok(v) => ValueBounds(w, v, readFloat);
    case _ =>
  }

  /** A gap in front of the next token, or at the end of the text, is skipped. */
  lemma SkipGap(text: string, i: nat, gap: string, readFloat: string -> Value)
    requires Starts(text, i, gap) && Spaces(gap)
    requires i + |gap| < |text| ==> !IsSpace(text[i + |gap|])
    ensures Scan(text, i, readFloat) == Scan(text, i + |gap|, readFloat)
  {
    hide LexAt;
    StartsEach(text, i, gap);
    if gap != "" {
      forall k | i <= k < i + |gap|
        ensures IsSpace(text[k])
      {
        assert text[k] == gap[k - i];
      }
      SpaceLex(text, i, i + |gap|, readFloat);
    }
  }

  /** What a layout begins with: its first gap, then its first word. */
  lemma LayOutStarts(text: string, i: nat, words: seq<string>, gaps: seq<string>)
    requires |gaps| == |words| + 1 && i <= |text| && text[i..] == LayOut(words, gaps)
    ensures Starts(text, i, gaps[0])
    ensures words == [] ==> i + |gaps[0]| == |text|
    ensures words != [] ==>
              var j := i + |gaps[0]|;
              && Starts(text, j, words[0])
              && text[j + |words[0]|..] == LayOut(words[1..], gaps[1..])
  {
    assert text[i..][..|gaps[0]|] == text[i..i + |gaps[0]|];
    if words != [] {
      var j := i + |gaps[0]|;
      var rest := LayOut(words[1..], gaps[1..]);
      assert text[j..] == text[i..][|gaps[0]|..] == words[0] + rest;
      assert text[j..j + |words[0]|] == text[j..][..|words[0]|];
      assert text[j + |words[0]|..] == text[j..][|words[0]|..];
    }
  }

  /** The layout after a token that needs a delimiter behind it begins with one, or is empty. */
  lemma LayOutFree(text: string, j: nat, words: seq<string>, toks: seq<Token>, gaps: seq<string>,
                   readFloat: string -> Value)
    requires GapsOk(toks, gaps) && AllSpelled(words, toks, readFloat)
    requires j <= |text| && text[j..] == LayOut(words, gaps)
    requires toks != [] && gaps[0] == "" ==> Punct(toks[0])
    ensures FreeAfter(text, j)
  {
    hide Spells;
    LayOutStarts(text, j, words, gaps);
    StartsEach(text, j, gaps[0]);
    if gaps[0] != "" {
      assert text[j] == gaps[0][0];
    } else if toks != [] {
      WordBounds(words[0], toks[0], readFloat);
      StartsFirst(text, j, words[0]);
    }
  }

  /** The characters around the next token allow it to be recognised. */
  predicate Ready(text: string, i: nat, words: seq<string>, toks: seq<Token>, gaps: seq<string>,
                  readFloat: string -> Value)
  {
    && GapsOk(toks, gaps) && AllSpelled(words, toks, readFloat)
    && i <= |text| && text[i..] == LayOut(words, gaps)
    && (toks == [] || FreeBefore(text, i) || gaps[0] != "" || Punct(toks[0]))
  }

  /** One gap and one token. */
  lemma ScanFirst(text: string, i: nat, words: seq<string>, toks: seq<Token>, gaps: seq<string>,
                  readFloat: string -> Value)
    requires Ready(text, i, words, toks, gaps, readFloat) && toks != []
    ensures var end := i + |gaps[0]| + |words[0]|;
            && Ready(text, end, words[1..], toks[1..], gaps[1..], readFloat)
            && Scan(text, i, readFloat) == [toks[0]] + Scan(text, end, readFloat)
  {
    hide LexAt, Spells, Starts, IsSpace, Scan, LayOut, Delim;
    LayOutStarts(text, i, words, gaps);
    var j := i + |gaps[0]|;
    var tok, w := toks[0], words[0];
    var end := j + |w|;
    WordBounds(w, tok, readFloat);
    StartsFirst(text, j, w);
    SkipGap(text, i, gaps[0], readFloat);
    GapsTail(toks, gaps);
    if !Punct(tok) {
      GapEndsFree(text, i, gaps[0]);
      LayOutFree(text, end, words[1..], toks[1..], gaps[1..], readFloat);
    } else {
      StartsEach(text, j, w);
      assert text[end - 1] == w[0];
    }
    LexToken(text, j, w, tok, readFloat);
    ScanTok(text, j, tok, end, readFloat);
  }

  lemma ScanTok(text: string, j: nat, tok: Token, end: nat, readFloat: string -> Value)
    requires j < end <= |text| && LexAt(text, j, readFloat) == TokLex(tok, end)
    ensures Scan(text, j, readFloat) == [tok] + Scan(text, end, readFloat)
  {
    hide LexAt;
  }

  /** Scanning gives back exactly the tokens that were laid out. */
  lemma {:induction false} ScanLayOut(text: string, i: nat, words: seq<string>, toks: seq<Token>, gaps: seq<string>,
                                      readFloat: string -> Value)
    requires Ready(text, i, words, toks, gaps, readFloat)
    ensures Scan(text, i, readFloat) == toks
    decreases |toks|
  {
    hide LexAt, Spells, Starts;
    if toks != [] {
      ScanFirst(text, i, words, toks, gaps, readFloat);
      ScanLayOut(text, i + |gaps[0]| + |words[0]|, words[1..], toks[1..], gaps[1..], readFloat);
      assert [toks[0]] + toks[1..] == toks;
    } else {
      LayOutStarts(text, i, [], gaps);
      SkipGap(text, i, gaps[0], readFloat);
    }
  }

  lemma GapsTail(toks: seq<Token>, gaps: seq<string>)
    requires toks != [] && GapsOk(toks, gaps)
    ensures GapsOk(toks[1..], gaps[1..])
    ensures |toks| > 1 && gaps[1] == "" ==> Punct(toks[0]) || Punct(toks[1])
  {
    forall k | 0 < k < |toks[1..]| && gaps[1..][k] == ""
      ensures Punct(toks[1..][k - 1]) || Punct(toks[1..][k])
    {
      assert gaps[k + 1] == "";
    }
  }

  lemma GapEndsFree(text: string, i: nat, gap: string)
    requires Starts(text, i, gap) && Spaces(gap)
    requires FreeBefore(text, i) || gap != ""
    ensures FreeBefore(text, i + |gap|)
  {
    StartsEach(text, i, gap);
    if gap != "" {
      assert text[i + |gap| - 1] == gap[|gap| - 1];
    }
  }

  /** The tokenizer reads back every laid-out token list, whatever the spellings and the spacing. */
  lemma ScanRoundTrip(words: seq<string>, toks: seq<Token>, gaps: seq<string>, readFloat: string -> Value)
    requires GapsOk(toks, gaps) && AllSpelled(words, toks, readFloat)
    ensures Scan(LayOut(words, gaps), 0, readFloat) == toks
  {
    var text := LayOut(words, gaps);
    assert text[0..] == text;
    ScanLayOut(text, 0, words, toks, gaps, readFloat);
  }

  /** The pattern's operators are the only ones a text can ever contain: `&` and `|` never become
      tokens, although the operator table has them. */
  lemma {:induction false} OnlyLexedOps(text: string, i: nat, readFloat: string -> Value)
    requires i <= |text|
    ensures forall k | 0 <= k < |Scan(text, i, readFloat)| ::
              Scan(text, i, readFloat)[k] != OpTok(BitAnd) && Scan(text, i, readFloat)[k] != OpTok(BitOr)
    decreases |text| - i
  {
    hide LexAt;
    if i < |text| {
      LexedOp(text, i, readFloat);
      var lex := LexAt(text, i, readFloat);
      if lex.NoLex? {
        OnlyLexedOps(text, i + 1, readFloat);
      } else if i < lex.end <= |text| {
        OnlyLexedOps(text, lex.end, readFloat);
      }
    }
  }

  lemma LexedOp(text: string, i: nat, readFloat: string -> Value)
    requires i < |text|
    ensures var lex := LexAt(text, i, readFloat);
            lex.TokLex? ==> lex.tok != OpTok(BitAnd) && lex.tok != OpTok(BitOr)
  {
    hide FirstOp, Boundary, WholeWord, NumeralEnd, ParseInt;
    FirstOpIsOne(text, i, LEXED_OPS);
  }

  lemma {:induction false} FirstOpIsOne(text: string, i: nat, ops: seq<Op>)
    ensures var lex := FirstOp(text, i, ops);
            lex != NoLex ==> lex.TokLex? && lex.tok.OpTok? && lex.tok.op in ops
  {
    if ops != [] {
      FirstOpIsOne(text, i, ops[1..]);
    }
  }

  /** So a difference of two numbers written without blanks is read as two numbers. */
  lemma TightMinusIsASign(m: nat, n: nat, readFloat: string -> Value)
    ensures Scan(Decimal(m) + "-" + Decimal(n), 0, readFloat) == [LitTok(IntV(m)), LitTok(IntV(0 - n))]
  {
    hide *;
    var a, b := Decimal(m), "-" + Decimal(n);
    var text := a + b;
    assert Decimal(m) + "-" + Decimal(n) == text;
    TwoNumerals(m, n);
    StartsConcat(a, b);
    IntLex(text, 0, a, readFloat);
    IntLex(text, |a|, b, readFloat);
    ScanTwo(text, |a|, LitTok(IntV(m)), LitTok(IntV(0 - n)), readFloat);
  }

  lemma TwoNumerals(m: nat, n: nat)
    ensures var a, b := Decimal(m), "-" + Decimal(n);
            && IntWord(a) && IntWord(b) && ParseInt(a) == m && ParseInt(b) == 0 - n
            && b[0] == '-' && (a + b)[|a|] == '-'
            && !WordAt(a + b, -1) && !WordAt(a + b, |a|) && !WordAt(a + b, |a + b|) && 0 < |a| < |a + b|
  {
    hide Decimal, ParseNat, DigitValue;
    var a, b := Decimal(m), "-" + Decimal(n);
    assert b[1..] == Decimal(n) && forall k | 1 <= k < |b| :: b[k] == Decimal(n)[k - 1];
    DigitIsNoSign(a[0]);
    ParseDecimal(m);
    ParseDecimal(n);
  }

  lemma StartsConcat(a: string, b: string)
    ensures Starts(a + b, 0, a) && Starts(a + b, |a|, b)
  {
    assert (a + b)[0..|a|] == a && (a + b)[|a|..|a| + |b|] == b;
  }

  lemma ScanTwo(text: string, k: nat, t: Token, u: Token, readFloat: string -> Value)
    requires 0 < k < |text|
    requires LexAt(text, 0, readFloat) == TokLex(t, k) && LexAt(text, k, readFloat) == TokLex(u, |text|)
    ensures Scan(text, 0, readFloat) == [t, u]
  {
    hide LexAt;
    ScanTok(text, 0, t, k, readFloat);
    ScanTok(text, k, u, |text|, readFloat);
    ScanEnd(text, readFloat);
    assert [t] + ([u] + []) == [t, u];
  }

  lemma ScanEnd(text: string, readFloat: string -> Value)
    ensures Scan(text, |text|, readFloat) == []
  {
  }

  // ----- the words themselves -----

  /** How each operator is written. */
  const WRITTEN_OPS: seq<(string, Op)> := [
    ("**", Pow), ("*", Mul), ("/", Div), ("//", FloorDiv), ("%", Mod), ("+", Add), ("-", Sub),
    ("==", Eq), ("!=", Ne), (">", Gt), ("<", Lt), (">=", Ge), ("<=", Le), ("and", And), ("or", Or), ("not", Not)
  ]

  const WRITTEN_FUNCS: seq<(string, Func)> :=
    [("int", IntFn), ("str", StrFn), ("float", FloatFn), ("Version", VersionFn)]

  /** A binary operator between two literals, however these are spelled. */
  lemma OperatorIsRead(k: nat, a: string, b: string, x: Value, y: Value, readFloat: string -> Value)
    requires k < |WRITTEN_OPS| && SpellsValue(a, x, readFloat) && SpellsValue(b, y, readFloat)
    ensures var (w, op) := WRITTEN_OPS[k];
            Scan(a + " " + w + " " + b, 0, readFloat) == [LitTok(x), OpTok(op), LitTok(y)]
  {
    hide Scan, SpellsValue;
    var (w, op) := WRITTEN_OPS[k];
    OpWord(k);
    LayOutThree(a, w, b);
    ScanRoundTrip([a, w, b], [LitTok(x), OpTok(op), LitTok(y)], ["", " ", " ", ""], readFloat);
  }

  lemma OpWord(k: nat)
    requires k < |WRITTEN_OPS|
    ensures OpName(WRITTEN_OPS[k].1) == WRITTEN_OPS[k].0 && WRITTEN_OPS[k].1 in LEXED_OPS
  {
  }

  lemma LayOutThree(a: string, b: string, c: string)
    ensures LayOut([a, b, c], ["", " ", " ", ""]) == a + " " + b + " " + c
  {
    assert [a, b, c][1..] == [b, c] && [b, c][1..] == [c] && [c][1..] == [];
    var gaps := ["", " ", " ", ""];
    assert gaps[1..] == [" ", " ", ""] && gaps[1..][1..] == [" ", ""] && gaps[1..][1..][1..] == [""];
    assert LayOut([], [""]) == "" && LayOut([c], [" ", ""]) == " " + c;
    assert LayOut([b, c], [" ", " ", ""]) == " " + (b + (" " + c));
  }

  /** So every operator of the table but `&` and `|` can be written. */
  lemma EveryOtherOperatorIsLexed(op: Op)
    ensures op != BitAnd && op != BitOr <==> op in LEXED_OPS
    ensures op != BitAnd && op != BitOr ==> exists k :: 0 <= k < |WRITTEN_OPS| && WRITTEN_OPS[k].1 == op
  {
    if op != BitAnd && op != BitOr {
      var k := WrittenAt(op);
      OpWord(k);
    }
  }

  function WrittenAt(op: Op): (k: nat)
    requires op != BitAnd && op != BitOr
    ensures k < |WRITTEN_OPS| && WRITTEN_OPS[k].1 == op
  {
    match op
    case Pow => 0 case Mul => 1 case Div => 2 case FloorDiv => 3 case Mod => 4 case Add => 5 case Sub => 6
    case Eq => 7 case Ne => 8 case Gt => 9 case Lt => 10 case Ge => 11 case Le => 12
    case And => 13 case Or => 14 case Not => 15
  }

  /** A call of a constructor on a literal. */
  lemma CallIsRead(k: nat, a: string, x: Value, readFloat: string -> Value)
    requires k < |WRITTEN_FUNCS| && SpellsValue(a, x, readFloat)
    ensures var (w, f) := WRITTEN_FUNCS[k];
            Scan(w + "(" + a + ")", 0, readFloat) == [FuncTok(f), OpenTok, LitTok(x), CloseTok]
  {
    hide Scan, SpellsValue;
    var (w, f) := WRITTEN_FUNCS[k];
    assert FuncName(f) == w;
    LayOutCall(w, a);
    ScanRoundTrip([w, "(", a, ")"], [FuncTok(f), OpenTok, LitTok(x), CloseTok], ["", "", "", "", ""], readFloat);
  }

  lemma LayOutCall(w: string, a: string)
    ensures LayOut([w, "(", a, ")"], ["", "", "", "", ""]) == w + "(" + a + ")"
  {
    assert [w, "(", a, ")"][1..] == ["(", a, ")"] && ["(", a, ")"][1..] == [a, ")"] && [a, ")"][1..] == [")"];
    var gaps := ["", "", "", "", ""];
    assert gaps[1..] == ["", "", "", ""] && gaps[1..][1..] == ["", "", ""] && gaps[1..][1..][1..] == ["", ""];
    assert LayOut([")"], ["", ""]) == ")" by { LayOutOne(")"); }
    assert LayOut([a, ")"], ["", "", ""]) == a + ")";
    assert LayOut(["(", a, ")"], ["", "", "", ""]) == "(" + (a + ")");
  }

  lemma LayOutOne(w: string)
    ensures LayOut([w], ["", ""]) == w
  {
    assert [w][1..] == [] && ["", ""][1..] == [""];
    assert LayOut([], [""]) == "";
  }
}
