/** `MacroExpander._build_full_path`: absolute and relative references to configuration paths. */
module MacroPaths {
  import opened PyValues
  import opened Text

  const DOT := '.'

  /** The loop over the components of `context + path`: a name is pushed, an empty component pops. */
  function Walk(comps: seq<string>, stack: seq<string>): Outcome<seq<string>> {
    if comps == [] then Ok(stack)
    else if comps[0] != "" then Walk(comps[1..], stack + [comps[0]])
    else if stack == [] then Raise(ExpandError)
    else Walk(comps[1..], Front(stack))
  }

  function FullPath(path: string, context: string): Outcome<string> {
    if path == [DOT] then Ok(context)
    else if path != "" && path[0] == DOT then
      var comps :- Walk(Split(context + path, DOT), []);
      Ok(Join(comps, DOT))
    else Ok(path)
  }

  method BuildFullPath(path: string, context: string) returns (r: Outcome<string>)
    ensures r == FullPath(path, context)
    ensures path == "" || path[0] != '.' ==> r == Ok(path)
  {
    if path == [DOT] {
      return Ok(context);
    }
    if path != "" && path[0] == DOT {
      var comps := Split(context + path, DOT);
      var stack: seq<string> := [];
      for i := 0 to |comps|
        invariant Walk(comps[i..], stack) == Walk(comps, [])
      {
        assert comps[i..][0] == comps[i] && comps[i..][1..] == comps[i + 1..];
        if comps[i] != "" {
          stack := stack + [comps[i]];
        } else if stack == [] {
          return Raise(ExpandError);
        } else {
          stack := Front(stack);
        }
      }
      return Ok(Join(stack, DOT));
    }
    return Ok(path);
  }

  lemma {:induction false} WalkOnlyExpandError(comps: seq<string>, stack: seq<string>)
    ensures Walk(comps, stack).Raise? ==> Walk(comps, stack) == Raise(ExpandError)
  {
    if comps != [] {
      if comps[0] != "" {
        WalkOnlyExpandError(comps[1..], stack + [comps[0]]);
      } else if stack != [] {
        WalkOnlyExpandError(comps[1..], Front(stack));
      }
    }
  }

  lemma OnlyExpandError(path: string, context: string)
    ensures FullPath(path, context).Raise? ==> FullPath(path, context) == Raise(ExpandError)
  {
    WalkOnlyExpandError(Split(context + path, DOT), []);
  }

  /** A non-empty component without a dot. */
  predicate IsName(s: string) {
    s != "" && Lacks(s, DOT)
  }

  predicate AllNames(comps: seq<string>) {
    forall i | 0 <= i < |comps| :: IsName(comps[i])
  }

  function Repeat<T>(x: T, n: nat): (r: seq<T>)
    ensures |r| == n && forall y <- r :: y == x
  {
    if n == 0 then [] else [x] + Repeat(x, n - 1)
  }

  /** A relative reference: `dots` dots in front of the named components. */
  function Relative(dots: nat, names: seq<string>): string {
    Repeat(DOT, dots) + Join(names, DOT)
  }

  /** How many levels a relative reference climbs: one dot is the separator in front of the first
      name, and there is no such separator when no name follows. */
  function Climb(dots: nat, names: seq<string>): nat
    requires dots >= 1
  {
    if names == [] then dots else dots - 1
  }

  lemma {:induction false} WalkNames(names: seq<string>, rest: seq<string>, stack: seq<string>)
    requires AllNames(names)
    ensures Walk(names + rest, stack) == Walk(rest, stack + names)
  {
    if names == [] {
      assert names + rest == rest && stack + names == stack;
    } else {
      assert (names + rest)[1..] == names[1..] + rest;
      WalkNames(names[1..], rest, stack + [names[0]]);
      assert stack + [names[0]] + names[1..] == stack + names;
    }
  }

  lemma {:induction false} WalkBlanks(k: nat, rest: seq<string>, stack: seq<string>)
    ensures Walk(Repeat("", k) + rest, stack) ==
            if k <= |stack| then Walk(rest, stack[..|stack| - k]) else Raise(ExpandError)
  {
    var comps := Repeat("", k) + rest;
    if k == 0 {
      assert comps == rest && stack[..|stack|] == stack;
    } else {
      assert comps[1..] == Repeat("", k - 1) + rest && comps[0] == "";
      if stack != [] {
        WalkBlanks(k - 1, rest, Front(stack));
        if k <= |stack| {
          assert Front(stack)[..|stack| - k] == stack[..|stack| - k];
        }
      }
    }
  }

  lemma {:induction false} SplitDots(dots: nat, s: string)
    ensures Split(Repeat(DOT, dots) + s, DOT) == Repeat("", dots) + Split(s, DOT)
  {
    var t := Repeat(DOT, dots) + s;
    if dots == 0 {
      assert t == s;
    } else {
      assert t[1..] == Repeat(DOT, dots - 1) + s && t[0] == DOT;
      SplitDots(dots - 1, s);
    }
  }

  lemma {:induction false} SplitContext(ctx: seq<string>, dots: nat, s: string)
    requires dots >= 1 && ctx != [] && AllNames(ctx)
    ensures Split(Join(ctx, DOT) + (Repeat(DOT, dots) + s), DOT) == ctx + Repeat("", dots - 1) + Split(s, DOT)
  {
    hide Split, Repeat;
    var tail := Repeat(DOT, dots - 1) + s;
    var blanks := Repeat("", dots - 1);
    RepeatStart(DOT, dots);
    assert Repeat(DOT, dots) + s == [DOT] + tail;
    if |ctx| == 1 {
      assert Join(ctx, DOT) + ([DOT] + tail) == ctx[0] + [DOT] + tail;
      SplitFirst(ctx[0], tail, DOT);
      SplitDots(dots - 1, s);
      assert [ctx[0]] == ctx;
      assert [ctx[0]] + (blanks + Split(s, DOT)) == ctx + blanks + Split(s, DOT);
    } else {
      var more := Join(ctx[1..], DOT) + ([DOT] + tail);
      assert Join(ctx, DOT) + ([DOT] + tail) == ctx[0] + [DOT] + more;
      SplitFirst(ctx[0], more, DOT);
      SplitContext(ctx[1..], dots, s);
      assert [ctx[0]] + (ctx[1..] + blanks + Split(s, DOT)) == ctx + blanks + Split(s, DOT);
    }
  }

  lemma RepeatStart<T>(x: T, n: nat)
    requires n > 0
    ensures Repeat(x, n) == [x] + Repeat(x, n - 1)
  {
  }

  lemma WalkEnd(stack: seq<string>)
    ensures Walk([], stack) == Ok(stack)
  {
  }

  /** A context of names, then `k` empty components, then more names. */
  lemma WalkClimb(ctx: seq<string>, k: nat, names: seq<string>)
    requires AllNames(ctx) && AllNames(names)
    ensures Walk(ctx + Repeat("", k) + names, []) ==
            if k <= |ctx| then Ok(ctx[..|ctx| - k] + names) else Raise(ExpandError)
  {
    hide Repeat, IsName, Walk, AllNames;
    var blanks := Repeat("", k);
    assert ctx + blanks + names == ctx + (blanks + names) && [] + ctx == ctx;
    WalkNames(ctx, blanks + names, []);
    WalkBlanks(k, names, ctx);
    if k <= |ctx| {
      var kept := ctx[..|ctx| - k];
      assert names + [] == names;
      WalkNames(names, [], kept);
      WalkEnd(kept + names);
    }
  }

  lemma WalkRelative(ctx: seq<string>, dots: nat, names: seq<string>)
    requires dots >= 1 && ctx != [] && AllNames(ctx) && AllNames(names)
    ensures Walk(ctx + Repeat("", dots - 1) + Split(Join(names, DOT), DOT), []) ==
            var k := Climb(dots, names);
            if k <= |ctx| then Ok(ctx[..|ctx| - k] + names) else Raise(ExpandError)
  {
    hide Walk, Repeat;
    WalkClimb(ctx, Climb(dots, names), names);
    if names == [] {
      RepeatEnd("", dots - 1);
      assert Split("", DOT) == [""];
      assert ctx + Repeat("", dots - 1) + [""] == ctx + (Repeat("", dots - 1) + [""]) == ctx + Repeat("", dots) + [];
    } else {
      SplitJoin(names, DOT);
    }
  }

  lemma {:induction false} RepeatEnd<T>(x: T, n: nat)
    ensures Repeat(x, n) + [x] == Repeat(x, n + 1)
  {
    if n > 0 {
      RepeatEnd(x, n - 1);
    }
  }

  lemma NotALoneDot(dots: nat, names: seq<string>)
    requires dots >= 2 || (dots == 1 && names != [] && AllNames(names))
    ensures Relative(dots, names) != [DOT]
  {
    if dots == 1 {
      assert Join(names, DOT)[..|names[0]|] == names[0];
    }
  }

  /** Relative references, for every context and every number of dots: `k` dots in front of a name
      climb `k - 1` levels, dots with no name behind them climb one more (a lone dot stays), and
      the expansion raises exactly when it would climb above the root. */
  lemma RelativeResolution(ctx: seq<string>, dots: nat, names: seq<string>)
    requires dots >= 1 && ctx != [] && AllNames(ctx) && AllNames(names)
    ensures FullPath(Relative(dots, names), Join(ctx, DOT)) ==
            var k := Climb(dots, names);
            if names == [] && dots == 1 then Ok(Join(ctx, DOT))
            else if k <= |ctx| then Ok(Join(ctx[..|ctx| - k] + names, DOT))
            else Raise(ExpandError)
  {
    var path := Relative(dots, names);
    assert path[0] == DOT;
    if names == [] && dots == 1 {
      assert path == [DOT];
    } else {
      NotALoneDot(dots, names);
      SplitContext(ctx, dots, Join(names, DOT));
      WalkRelative(ctx, dots, names);
    }
  }

  /** At the root no relative reference but the lone dot resolves. */
  lemma RootHasNoRelatives(dots: nat, names: seq<string>)
    requires dots >= 1 && (dots == 1 ==> names != []) && AllNames(names)
    ensures FullPath(Relative(dots, names), "") == Raise(ExpandError)
  {
    var path := Relative(dots, names);
    assert path[0] == DOT && "" + path == path;
    NotALoneDot(dots, names);
    SplitDots(dots, Join(names, DOT));
    assert Split(path, DOT)[0] == "";
  }

  /** `${.c}` is the child `c` of the node being checked, never its sibling; the sibling, which the
      user documentation's example intends, is written with two dots. */
  lemma OneDotIsChildTwoDotsSibling(parent: seq<string>, name: string, c: string)
    requires AllNames(parent) && IsName(name) && IsName(c)
    ensures var here := Join(parent + [name], DOT);
            && FullPath(Relative(1, [c]), here) == Ok(here + [DOT] + c)
            && FullPath(Relative(2, [c]), here) == Ok(Join(parent + [c], DOT))
            && FullPath(Relative(1, [c]), here) != Ok(Join(parent + [c], DOT))
  {
    var ctx := parent + [name];
    RelativeResolution(ctx, 1, [c]);
    RelativeResolution(ctx, 2, [c]);
    assert ctx[..|ctx|] == ctx && ctx[..|ctx| - 1] == parent;
    JoinConcat(ctx, [c], DOT);
    SplitJoin(ctx + [c], DOT);
    SplitJoin(parent + [c], DOT);
  }
}
