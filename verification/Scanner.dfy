/** The tokenizer's pattern, alternative by alternative in the order the regular expression tries
    them, over ASCII text. */
module Scanner {
  import opened PyValues
  import opened Evaluator
  import opened Text

  predicate IsWordChar(c: char) {
    IsDigit(c) || 'a' <= c <= 'z' || 'A' <= c <= 'Z' || c == '_'
  }

  predicate IsSpace(c: char) {
    9 <= c as int <= 13 || 28 <= c as int <= 32
  }

  predicate WordAt(text: string, i: int) {
    0 <= i < |text| && IsWordChar(text[i])
  }

  /** The pattern `\b` at offset `i`. */
  predicate Boundary(text: string, i: int) {
    WordAt(text, i - 1) != WordAt(text, i)
  }

  predicate Starts(text: string, i: nat, w: string) {
    i + |w| <= |text| && text[i..i + |w|] == w
  }

  predicate WholeWord(text: string, i: nat, w: string) {
    Starts(text, i, w) && Boundary(text, i) && Boundary(text, i + |w|)
  }

  /** The end of the longest run from `i` of characters satisfying `p`. */
  function RunEnd(text: string, i: nat, p: char -> bool): (j: nat)
    requires i <= |text|
    ensures i <= j <= |text|
    ensures forall k | i <= k < j :: p(text[k])
    ensures j < |text| ==> !p(text[j])
    decreases |text| - i
  {
    if i < |text| && p(text[i]) then RunEnd(text, i + 1, p) else i
  }

  datatype Lex = NoLex | SkipLex(end: nat) | TokLex(tok: Token, end: nat)

  function FuncAt(text: string, i: nat): Lex {
    if WholeWord(text, i, "int") then TokLex(FuncTok(IntFn), i + 3)
    else if WholeWord(text, i, "str") then TokLex(FuncTok(StrFn), i + 3)
    else if WholeWord(text, i, "float") then TokLex(FuncTok(FloatFn), i + 5)
    else if WholeWord(text, i, "Version") then TokLex(FuncTok(VersionFn), i + 7)
    else NoLex
  }

  /** Where a numeral whose integer digits end at `q` ends: the fraction is kept only as far as a
      word boundary allows, possibly down to the bare point, possibly not at all. */
  function NumeralEnd(text: string, q: nat): nat
    requires q <= |text|
  {
    if q < |text| && text[q] == '.' then
      var r := RunEnd(text, q + 1, IsDigit);
      if Boundary(text, r) then r
      else if Boundary(text, q + 1) then q + 1
      else q
    else q
  }

  function NumAt(text: string, i: nat, readFloat: string -> Value): Lex
    requires i < |text|
  {
    var start := if text[i] == '-' then i + 1 else i;
    if start < |text| && IsDigit(text[start]) && Boundary(text, start) then
      var end := NumeralEnd(text, RunEnd(text, start, IsDigit));
      if Boundary(text, end) && i <= end <= |text| then
        var lexeme := text[i..end];
        TokLex(LitTok(if '.' in lexeme then readFloat(lexeme) else IntV(ParseInt(lexeme))), end)
      else NoLex
    else NoLex
  }

  /** The operators the pattern knows, in its order; `&` and `|` are not among them. */
  const LEXED_OPS: seq<Op> := [Eq, Ne, Ge, Le, Pow, FloorDiv, Gt, Lt, And, Or, Not, Add, Sub, Mul, Div, Mod]

  function FirstOp(text: string, i: nat, ops: seq<Op>): Lex {
    if ops == [] then NoLex
    else if Starts(text, i, OpName(ops[0])) then TokLex(OpTok(ops[0]), i + |OpName(ops[0])|)
    else FirstOp(text, i, ops[1..])
  }

  predicate NotQuote(c: char) {
    c != '\''
  }

  function StrAt(text: string, i: nat): Lex
    requires i < |text|
  {
    if text[i] == '\'' then
      var end := RunEnd(text, i + 1, NotQuote);
      if end > i + 1 && end < |text| then TokLex(LitTok(StrV(text[i + 1..end])), end + 1) else NoLex
    else NoLex
  }

  function WordLiteralAt(text: string, i: nat): Lex {
    if WholeWord(text, i, "None") then TokLex(LitTok(NoneV), i + 4)
    else if WholeWord(text, i, "true") || WholeWord(text, i, "True") then TokLex(LitTok(BoolV(true)), i + 4)
    else if WholeWord(text, i, "false") || WholeWord(text, i, "False") then TokLex(LitTok(BoolV(false)), i + 5)
    else NoLex
  }

  /** The first alternative that matches at `i`. */
  function LexAt(text: string, i: nat, readFloat: string -> Value): Lex
    requires i < |text|
  {
    var f := FuncAt(text, i);
    if f != NoLex then f else
    var n := NumAt(text, i, readFloat);
    if n != NoLex then n else
    var o := FirstOp(text, i, LEXED_OPS);
    if o != NoLex then o
    else if text[i] == '(' then TokLex(OpenTok, i + 1)
    else if text[i] == ')' then TokLex(CloseTok, i + 1)
    else if text[i] == ',' then TokLex(CommaTok, i + 1)
    else
      var s := StrAt(text, i);
      if s != NoLex then s else
      var w := WordLiteralAt(text, i);
      if w != NoLex then w
      else if IsSpace(text[i]) then SkipLex(RunEnd(text, i, IsSpace))
      else NoLex
  }

  /** `finditer` with SKIP matches dropped: characters no alternative matches are passed over. */
  function Scan(text: string, i: nat, readFloat: string -> Value): seq<Token>
    requires i <= |text|
    decreases |text| - i
  {
    if i == |text| then []
    else
      match LexAt(text, i, readFloat)
      case TokLex(tok, end) =>
        if i < end <= |text| then [tok] + Scan(text, end, readFloat) else []
      case SkipLex(end) =>
        if i < end <= |text| then Scan(text, end, readFloat) else []
      case NoLex => Scan(text, i + 1, readFloat)
  }

  // ----- printing tokens as text -----

  /** An optional sign and decimal digits. */
  predicate IntWord(w: string) {
    var d := if w != "" && w[0] == '-' then 1 else 0;
    |w| > d && forall k | d <= k < |w| :: IsDigit(w[k])
  }

  /** A numeral with a point, and digits on both sides of it. */
  predicate FloatWord(w: string) {
    exists p | 0 < p < |w| - 1 :: IntWord(w[..p]) && w[p] == '.' && forall k | p < k < |w| :: IsDigit(w[k])
  }

  predicate Quoted(w: string, s: string) {
    s != "" && (forall i | 0 <= i < |s| :: NotQuote(s[i])) && w == "'" + s + "'"
  }

  /** The ways in which a value can be written. */
  predicate SpellsValue(w: string, v: Value, readFloat: string -> Value) {
    || (IntWord(w) && v == IntV(ParseInt(w)))
    || (FloatWord(w) && v == readFloat(w))
    || (v.StrV? && Quoted(w, v.s))
    || (w == "None" && v == NoneV)
    || (w in ["true", "True"] && v == BoolV(true))
    || (w in ["false", "False"] && v == BoolV(false))
  }

  /** `w` is a spelling of the token. */
  predicate Spells(w: string, tok: Token, readFloat: string -> Value) {
    match tok
    case FuncTok(f) => w == FuncName(f)
    case OpTok(op) => op in LEXED_OPS && w == OpName(op)
    case OpenTok => w == "("
    case CloseTok => w == ")"
    case CommaTok => w == ","
    case LitTok(v) => SpellsValue(w, v, readFloat)
  }

  predicate AllSpelled(words: seq<string>, toks: seq<Token>, readFloat: string -> Value) {
    |words| == |toks| && forall k | 0 <= k < |toks| :: Spells(words[k], toks[k], readFloat)
  }

  predicate Punct(tok: Token) {
    tok.OpenTok? || tok.CloseTok? || tok.CommaTok?
  }

  predicate Spaces(s: string) {
    forall i | 0 <= i < |s| :: IsSpace(s[i])
  }

  /** `gaps[0]` before the first token, `gaps[k]` after the k-th. */
  function LayOut(words: seq<string>, gaps: seq<string>): string
    requires |gaps| == |words| + 1
  {
    if words == [] then gaps[0] else gaps[0] + (words[0] + LayOut(words[1..], gaps[1..]))
  }

  /** Blanks between tokens, which may be left out next to parentheses and commas only. */
  predicate GapsOk(toks: seq<Token>, gaps: seq<string>) {
    && |gaps| == |toks| + 1
    && (forall k | 0 <= k < |gaps| :: Spaces(gaps[k]))
    && (forall k | 0 < k < |toks| :: gaps[k] == "" ==> Punct(toks[k - 1]) || Punct(toks[k]))
  }
}
