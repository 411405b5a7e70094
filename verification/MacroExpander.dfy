/** `${path}` references in rule text are replaced by the referenced value, written so that the
    evaluator reads the value back. */
module MacroExpander {
  import opened PyValues
  import opened Evaluator
  import opened ShuntingYard
  import opened ExpressionMeaning
  import opened Scanner
  import opened ScanRoundTrip
  import opened Json
  import MacroPaths
  import Text

  /** Python's `repr` of strings that need escapes, and `str` of floats, versions and containers. */
  datatype Rendering = Rendering(reprOf: string -> string, strOf: Json -> string)

  /** Characters that `repr` copies unchanged between single quotes. */
  predicate PlainChar(c: char) {
    32 <= c as int <= 126 && c != '\'' && c != '\\'
  }

  predicate PlainString(s: string) {
    forall i | 0 <= i < |s| :: PlainChar(s[i])
  }

  function ValueText(j: Json, rnd: Rendering): string {
    match j
    case Leaf(StrV(s)) => if PlainString(s) then "'" + s + "'" else rnd.reprOf(s)
    case Leaf(NoneV) => "None"
    case Leaf(BoolV(b)) => if b then "True" else "False"
    case Leaf(IntV(i)) => Text.IntText(i)
    case _ => rnd.strOf(j)
  }

  /** What expansion may refer to: the node being checked, and the values by path. */
  datatype Scope = Scope(context: string, visited: map<string, Json>, rnd: Rendering)

  function ExpandVar(path: string, sc: Scope): Outcome<string> {
    var full :- MacroPaths.FullPath(path, sc.context);
    if full in sc.visited then Ok(ValueText(sc.visited[full], sc.rnd)) else Raise(ExpandError)
  }

  /** The reference pattern's character class. */
  predicate PathChar(c: char) {
    IsWordChar(c) || c == '.' || c == '[' || c == ']' || c == '/'
  }

  /** The length of the reference `${...}` that `s` begins with, or 0. */
  function RefLength(s: string): (n: nat)
    ensures n <= |s| && (n > 0 ==> n > 3)
  {
    if |s| >= 2 && s[0] == '$' && s[1] == '{' then
      var e := RunEnd(s, 2, PathChar);
      if e > 2 && e < |s| && s[e] == '}' then e + 1 else 0
    else 0
  }

  /** `VAR_REGEX.sub` on a string: references are replaced from the left, all else is kept. */
  function ExpandText(s: string, sc: Scope): Outcome<string> {
    if s == "" then Ok("")
    else
      var n := RefLength(s);
      if n > 0 then
        var w :- ExpandVar(s[2..n - 1], sc);
        var rest :- ExpandText(s[n..], sc);
        Ok(w + rest)
      else
        var rest :- ExpandText(s[1..], sc);
        Ok([s[0]] + rest)
  }

  // ----- templates -----

  /** A word of a rule as written: itself, or a reference in the place of a literal. */
  datatype Part = Fixed(word: string) | Ref(path: string)

  function PartText(p: Part): string {
    match p
    case Fixed(word) => word
    case Ref(path) => "${" + path + "}"
  }

  function PartTexts(parts: seq<Part>): (r: seq<string>)
    ensures |r| == |parts|
  {
    if parts == [] then [] else [PartText(parts[0])] + PartTexts(parts[1..])
  }

  predicate NoDollar(s: string) {
    forall i | 0 <= i < |s| :: s[i] != '$'
  }

  predicate IsPath(path: string) {
    path != "" && forall i | 0 <= i < |path| :: PathChar(path[i])
  }

  /** The word `p` is expanded to. */
  predicate Becomes(p: Part, w: string, sc: Scope) {
    match p
    case Fixed(word) => w == word && NoDollar(word)
    case Ref(path) => IsPath(path) && ExpandVar(path, sc) == Ok(w)
  }

  /** The value a reference refers to. */
  function Referred(path: string, sc: Scope): Outcome<Json> {
    var full :- MacroPaths.FullPath(path, sc.context);
    if full in sc.visited then Ok(sc.visited[full]) else Raise(ExpandError)
  }

  /** `p` stands for `tok`: it is a spelling of `tok`, or it refers to the value that `tok` is the
      literal of, and what it is expanded to spells that value. */
  predicate StandsFor(p: Part, w: string, tok: Token, sc: Scope, readFloat: string -> Value) {
    && Becomes(p, w, sc) && Spells(w, tok, readFloat)
    && (p.Ref? ==> tok.LitTok? && Referred(p.path, sc) == Ok(Leaf(tok.v)))
  }

  predicate AllStandFor(parts: seq<Part>, words: seq<string>, toks: seq<Token>, sc: Scope,
                        readFloat: string -> Value)
  {
    && |parts| == |words| == |toks|
    && forall k | 0 <= k < |parts| :: StandsFor(parts[k], words[k], toks[k], sc, readFloat)
  }

  /** References to integers, booleans, None and non-empty strings without special characters always
      stand for their values; a reference to a float does when its text is a decimal numeral that
      reads back as the same float. */
  lemma ReferenceStands(path: string, v: Value, sc: Scope, readFloat: string -> Value)
    requires IsPath(path) && Referred(path, sc) == Ok(Leaf(v))
    requires match v
             case StrV(s) => s != "" && PlainString(s)
             case FloatV(_) => FloatWord(sc.rnd.strOf(Leaf(v))) && readFloat(sc.rnd.strOf(Leaf(v))) == v
             case VersionV(_) => false
             case _ => true
    ensures StandsFor(Ref(path), ValueText(Leaf(v), sc.rnd), LitTok(v), sc, readFloat)
  {
    hide FloatWord, IntWord, PathChar, Text.IntText, Text.ParseInt;
    match v
    case IntV(i) =>
      Text.ParseIntText(i);
      IntTextIsWord(i);
    case StrV(s) => PlainIsQuoted(s);
    case _ =>
  }

  lemma IntTextIsWord(i: int)
    ensures IntWord(Text.IntText(i))
  {
    hide Text.Decimal;
    if i >= 0 {
      Text.DigitIsNoSign(Text.Decimal(i)[0]);
    } else {
      var d := Text.Decimal(-i);
      assert forall k | 1 <= k < |"-" + d| :: ("-" + d)[k] == d[k - 1];
    }
  }

  lemma PlainIsQuoted(s: string)
    requires s != "" && PlainString(s)
    ensures Quoted("'" + s + "'", s)
  {
  }

  function Prepend(w: string, r: Outcome<string>): Outcome<string> {
    if r.Ok? then Ok(w + r.value) else r
  }

  lemma {:induction false} ExpandPlain(w: string, rest: string, sc: Scope)
    requires NoDollar(w)
    ensures ExpandText(w + rest, sc) == Prepend(w, ExpandText(rest, sc))
  {
    if w == "" {
      assert w + rest == rest;
      var r := ExpandText(rest, sc);
      assert r.Ok? ==> "" + r.value == r.value;
    } else {
      assert (w + rest)[1..] == w[1..] + rest;
      ExpandPlain(w[1..], rest, sc);
      var r := ExpandText(rest, sc);
      assert r.Ok? ==> [w[0]] + (w[1..] + r.value) == w + r.value;
    }
  }

  /** A text in which no dollar sign stands in front of a brace is left as it is. */
  lemma {:induction false} TextWithoutReferences(s: string, sc: Scope)
    requires forall i | 0 <= i < |s| - 1 :: !(s[i] == '$' && s[i + 1] == '{')
    ensures ExpandText(s, sc) == Ok(s)
    decreases |s|
  {
    if s != "" {
      assert RefLength(s) == 0 by { hide PathChar; assert s[0..] == s; }
      hide RefLength;
      TextWithoutReferences(s[1..], sc);
      assert [s[0]] + s[1..] == s;
    }
  }

  lemma RefLengthIs(path: string, rest: string)
    requires IsPath(path)
    ensures RefLength("${" + path + "}" + rest) == |path| + 3
  {
    hide PathChar;
    var s := "${" + path + "}" + rest;
    var e := 2 + |path|;
    forall k | 2 <= k < e
      ensures PathChar(s[k])
    {
      assert s[k] == path[k - 2];
    }
    assert s[e] == '}';
    assert !PathChar('}') by { BraceEndsPath(); }
    RunEndIs(s, 2, e, PathChar);
  }

  lemma BraceEndsPath()
    ensures !PathChar('}')
  {
  }

  lemma ExpandRef(path: string, rest: string, sc: Scope)
    requires IsPath(path)
    ensures ExpandText("${" + path + "}" + rest, sc) ==
            var w := ExpandVar(path, sc);
            if w.Ok? then Prepend(w.value, ExpandText(rest, sc)) else w
  {
    hide ExpandVar, RefLength;
    RefLengthIs(path, rest);
    var s := "${" + path + "}" + rest;
    assert s[2..|path| + 2] == path && s[|path| + 3..] == rest;
  }

  lemma ExpandPart(p: Part, w: string, rest: string, sc: Scope)
    requires Becomes(p, w, sc)
    ensures ExpandText(PartText(p) + rest, sc) == Prepend(w, ExpandText(rest, sc))
  {
    hide ExpandText, RefLength, PathChar;
    match p {
      case Fixed(word) => ExpandPlain(word, rest, sc);
      case Ref(path) => ExpandRef(path, rest, sc);
    }
  }

  /** Expansion replaces exactly the references of a template. */
  lemma {:induction false} ExpandLayOut(parts: seq<Part>, words: seq<string>, gaps: seq<string>, sc: Scope)
    requires |parts| == |words| && |gaps| == |words| + 1
    requires forall k | 0 <= k < |words| :: Becomes(parts[k], words[k], sc)
    requires forall k | 0 <= k < |gaps| :: Spaces(gaps[k])
    ensures ExpandText(LayOut(PartTexts(parts), gaps), sc) == Ok(LayOut(words, gaps))
    decreases |parts|
  {
    hide ExpandText, Becomes, PartText;
    GapHasNoDollar(gaps[0]);
    if parts == [] {
      ExpandPlain(gaps[0], "", sc);
      ExpandEmpty(sc);
      assert gaps[0] + "" == gaps[0];
    } else {
      var rest := LayOut(PartTexts(parts[1..]), gaps[1..]);
      assert PartTexts(parts)[0] == PartText(parts[0]) && PartTexts(parts)[1..] == PartTexts(parts[1..]);
      ExpandPlain(gaps[0], PartText(parts[0]) + rest, sc);
      ExpandPart(parts[0], words[0], rest, sc);
      ExpandLayOut(parts[1..], words[1..], gaps[1..], sc);
    }
  }

  lemma GapHasNoDollar(gap: string)
    requires Spaces(gap)
    ensures NoDollar(gap)
  {
  }

  lemma ExpandEmpty(sc: Scope)
    ensures ExpandText("", sc) == Ok("")
  {
  }

  /** Expanding a rule text and evaluating the result gives the value of the expression in which
      every reference stands for the value it refers to; where that expression has no value, the
      result is the expanded text or the exception.  Literals may be spelled in any way, decimal
      numerals included, and spacing and parentheses are free as long as they are enough. */
  lemma SubstitutionPreservesMeaning(sem: Semantics, e: Expr, parts: seq<Part>, words: seq<string>, gaps: seq<string>,
                                     sc: Scope, readFloat: string -> Value)
    requires Sufficient(e) && PlainLiterals(e)
    requires AllStandFor(parts, words, Tokens(e), sc, readFloat) && GapsOk(Tokens(e), gaps)
    ensures var expanded := ExpandText(LayOut(PartTexts(parts), gaps), sc);
            && expanded.Ok?
            && var text := expanded.value;
               var d := Denote(sem, e);
               EvaluateSpec(sem, text, Scan(text, 0, readFloat)) ==
               if d.Raise? && GivesTextBack(d.exn) then Ok(StrV(text)) else d
  {
    hide ExpandText, EvaluateSpec, Scan, LayOut, Becomes, Spells;
    ExpandLayOut(parts, words, gaps, sc);
    ScanRoundTrip.ScanRoundTrip(words, Tokens(e), gaps, readFloat);
    EvaluatePrinted(sem, LayOut(words, gaps), e);
  }

  // ----- a lone reference -----

  /** A reference that does not begin with a dot names its entry from everywhere: whatever node is being
      checked, it is replaced by the text of what is stored under that very path, and raises if nothing is. */
  lemma AbsoluteReference(path: string, sc: Scope)
    requires path != "" && path[0] != '.'
    requires forall c <- path :: 'a' <= c <= 'z' || 'A' <= c <= 'Z' || '0' <= c <= '9' || c in "_.[]/"
    ensures ExpandText("${" + path + "}", sc) ==
            if path in sc.visited then Ok(ValueText(sc.visited[path], sc.rnd)) else Raise(ExpandError)
  {
    assert forall i | 0 <= i < |path| :: path[i] in path;
    assert IsPath(path);
    hide ExpandText, PathChar, ValueText;
    assert "${" + path + "}" + "" == "${" + path + "}";
    ExpandRef(path, "", sc);
    ExpandEmpty(sc);
    if path in sc.visited {
      var w := ValueText(sc.visited[path], sc.rnd);
      assert w + "" == w;
    }
  }

  /** Expanding `${path}` and evaluating it gives back the stored value it stands for, unless that is a
      string spelled like an operator: then it raises. */
  lemma LoneReference(sem: Semantics, path: string, w: string, v: Value, sc: Scope, readFloat: string -> Value)
    requires StandsFor(Ref(path), w, LitTok(v), sc, readFloat)
    ensures ExpandText("${" + path + "}", sc) == Ok(w)
    ensures EvaluateSpec(sem, w, Scan(w, 0, readFloat)) == if IsOpWord(v) then Raise(IndexError) else Ok(v)
  {
    hide ExpandText, EvaluateSpec, Scan, Becomes, Spells, OpNamed;
    var e := Lit(v);
    var gaps := ["", ""];
    var toks := Tokens(e);
    LayOutOne("${" + path + "}");
    LayOutOne(w);
    assert [Ref(path)][1..] == [] && toks[1..] == [];
    assert PartTexts([Ref(path)]) == ["${" + path + "}"];
    ExpandLayOut([Ref(path)], [w], gaps, sc);
    ScanRoundTrip.ScanRoundTrip([w], toks, gaps, readFloat);
    if IsOpWord(v) {
      LoneOperatorWord(sem, w, v);
    } else {
      EvaluatePrinted(sem, w, e);
    }
  }

  lemma LoneOperatorWord(sem: Semantics, text: string, v: Value)
    requires IsOpWord(v)
    ensures EvaluateSpec(sem, text, [LitTok(v)]) == Raise(IndexError)
  {
    hide OpNamed, Level;
    ConversionIsPostorder(Lit(v));
    assert [Val(v)][1..] == [];
  }

  /** A stored empty string does not survive: its text holds no token, so the two quotes are given
      back as they are. */
  lemma EmptyStringReference(sem: Semantics, path: string, sc: Scope, readFloat: string -> Value)
    requires IsPath(path) && Referred(path, sc) == Ok(Leaf(StrV("")))
    ensures ExpandText("${" + path + "}", sc) == Ok("''")
    ensures EvaluateSpec(sem, "''", Scan("''", 0, readFloat)) == Ok(StrV("''"))
  {
    hide ExpandText, Scan, LexAt, PathChar, RefLength;
    assert "${" + path + "}" + "" == "${" + path + "}";
    ExpandRef(path, "", sc);
    ExpandEmpty(sc);
    assert "''" + "" == "''" && "'" + "" + "'" == "''";
    TwoQuotes(readFloat);
  }

  lemma TwoQuotes(readFloat: string -> Value)
    ensures Scan("''", 0, readFloat) == []
  {
    hide FuncAt, FirstOp, WordLiteralAt;
    var text := "''";
    forall i | 0 <= i < 2
      ensures LexAt(text, i, readFloat) == NoLex
    {
      NoFuncAt(text, i);
      NoOpAt(text, i, LEXED_OPS);
      NoWordLiteralAt(text, i);
      RunEndIs(text, 1, 1, NotQuote);
      RunEndIs(text, 2, 2, NotQuote);
    }
    ScanEnd(text, readFloat);
    assert Scan(text, 1, readFloat) == Scan(text, 2, readFloat);
  }

  /** `m-n` without blanks is therefore no subtraction: its value is the text itself. */
  lemma TightMinusGivesTextBack(sem: Semantics, m: nat, n: nat, readFloat: string -> Value)
    ensures var text := Text.Decimal(m) + "-" + Text.Decimal(n);
            EvaluateSpec(sem, text, Scan(text, 0, readFloat)) == Ok(StrV(text))
  {
    hide Scan;
    TightMinusIsASign(m, n, readFloat);
    TwoLiterals(sem, IntV(m), IntV(0 - n));
  }

  lemma TwoLiterals(sem: Semantics, a: Value, b: Value)
    requires a.IntV? && b.IntV?
    ensures forall text: string :: EvaluateSpec(sem, text, [LitTok(a), LitTok(b)]) == Ok(StrV(text))
  {
    hide OpNamed, Level;
    var toks := [LitTok(a), LitTok(b)];
    assert [] + [Val(a)] == [Val(a)] && [Val(a)] + [Val(b)] == [Val(a), Val(b)];
    assert [] + [a] == [a] && [a] + [b] == [a, b];
    assert toks == [LitTok(a)] + [LitTok(b)] && [LitTok(b)] == [LitTok(b)] + [];
    ConvertStep(LitTok(a), [LitTok(b)], State([], []), State([], [Val(a)]));
    ConvertStep(LitTok(b), [], State([], [Val(a)]), State([], [Val(a), Val(b)]));
    assert Convert(toks) == Ok([Val(a), Val(b)]);
    RunStep(sem, Val(a), [Val(b)], []);
    RunStep(sem, Val(b), [], [a]);
    assert [Val(a)] + [Val(b)] == [Val(a), Val(b)] && [Val(b)] + [] == [Val(b)];
    assert Run(sem, [], [a] + [b]) == Ok([a, b]);
  }

  // ----- when expansion raises -----

  /** The paths of the references in a text, from the left. */
  function References(s: string): seq<string> {
    if s == "" then []
    else
      var n := RefLength(s);
      if n > 0 then [s[2..n - 1]] + References(s[n..]) else References(s[1..])
  }

  /** A reference does not resolve when it climbs above the root or nothing is stored at its path; then,
      and only then, it raises an ExpandError. */
  lemma ExpandVarRaises(path: string, sc: Scope)
    ensures ExpandVar(path, sc).Ok? <==> Referred(path, sc).Ok?
    ensures ExpandVar(path, sc).Raise? ==> ExpandVar(path, sc) == Raise(ExpandError)
  {
    MacroPaths.OnlyExpandError(path, sc.context);
  }

  predicate AllResolve(paths: seq<string>, sc: Scope) {
    forall k | 0 <= k < |paths| :: Referred(paths[k], sc).Ok?
  }

  lemma AllResolveFirst(path: string, rest: seq<string>, sc: Scope)
    ensures AllResolve([path] + rest, sc) <==> Referred(path, sc).Ok? && AllResolve(rest, sc)
  {
    hide Referred;
    assert forall k | 0 <= k < |rest| :: ([path] + rest)[k + 1] == rest[k];
    assert ([path] + rest)[0] == path;
  }

  /** Expanding any text raises an ExpandError if and only if one of its references does not resolve;
      nothing else can raise. */
  lemma {:induction false} ExpandRaisesExactly(s: string, sc: Scope)
    ensures if AllResolve(References(s), sc) then ExpandText(s, sc).Ok? else ExpandText(s, sc) == Raise(ExpandError)
    decreases |s|
  {
    hide RefLength, ExpandVar, AllResolve;
    if s == "" {
      NothingToResolve(sc);
    } else {
      var n := RefLength(s);
      if n > 0 {
        ExpandVarRaises(s[2..n - 1], sc);
        AllResolveFirst(s[2..n - 1], References(s[n..]), sc);
        ExpandRaisesExactly(s[n..], sc);
      } else {
        ExpandRaisesExactly(s[1..], sc);
      }
    }
  }

  lemma NothingToResolve(sc: Scope)
    ensures AllResolve([], sc)
  {
  }
}
