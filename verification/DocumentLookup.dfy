/** What a rule finds in the table of a document and the variables: by name a variable, and otherwise the
    node of the document at the position with the same rendered path. */
module DocumentLookup {
  import opened PyValues
  import opened Json
  import opened Positions
  import opened RulePaths
  import opened Traverser
  import Text
  import MacroPaths

  /** The path of a longer position begins with the path of a shorter one and a separator. */
  lemma {:induction false} RenderExtends(p: Position, n: nat)
    requires NamedSteps(p) && 0 < n < |p|
    ensures var r := Render(p[..n]);
            0 < |r| < |Render(p)| && Render(p)[..|r|] == r && IsSep(Render(p)[|r|])
    decreases |p|
  {
    var f := Front(p);
    var r := Render(p[..n]);
    assert NamedStep(p[n - 1]) && NamedStep(p[|p| - 1]) && NamedStep(p[|p| - 2]);
    assert Last(p[..n]) == p[n - 1];
    RenderNonEmpty(p[..n]);
    RenderNonEmpty(f);
    ExtendAdds(Render(f), Last(p));
    var whole := Render(f) + Added(Last(p));
    assert Render(p) == whole;
    if n < |f| {
      assert f[..n] == p[..n];
      RenderExtends(f, n);
      assert whole[..|r|] == Render(f)[..|r|];
    } else {
      assert p[..n] == f;
    }
  }

  /** A path of a document position, cut in front of a separator, is the path of a shorter position. */
  lemma {:induction false} CutAtSep(q: Position, k: nat) returns (n: nat)
    requires GoodSteps(q) && 0 < k < |Render(q)| && IsSep(Render(q)[k])
    ensures 0 < n <= |q| && Render(q[..n]) == Render(q)[..k]
    decreases |q|
  {
    hide Extend, Tail, GoodStep;
    var f := Front(q);
    var above, tail := Render(f), Tail(Last(q));
    ExtendShape(above, Last(q));
    TailSepFree(Last(q));
    assert Render(q) == above + [SepOf(Last(q))] + tail;
    NoLaterSep(above, SepOf(Last(q)), tail);
    if k < |above| {
      n := CutAtSep(f, k);
      assert q[..n] == f[..n];
      assert Render(q)[..k] == above[..k];
    } else {
      n := |f|;
      assert q[..n] == f;
    }
  }

  /** When the document has a position with a rule's path, the table has the paths of all rules above. */
  lemma AllAboveListed(data: Json, flat: Table, p: Position, q: Position)
    requires GoodKeys(data) && EveryPosition(data, flat)
    requires p != [] && NamedSteps(p) && Find(data, q).Some? && Render(q) == Render(p)
    ensures AllListed(flat, p)
  {
    hide Render, GoodSteps;
    GoodPosition(data, q);
    forall n: nat | 0 < n <= |p|
      ensures Render(p[..n]) in flat
    {
      assert NamedStep(p[n - 1]) && Last(p[..n]) == p[n - 1];
      RenderNonEmpty(p[..n]);
      if n < |p| {
        RenderExtends(p, n);
        var m := CutAtSep(q, |Render(p[..n])|);
        FindPrefix(data, q[..m], q);
      } else {
        assert p[..n] == p;
      }
    }
  }

  /** The document's keys may have no percent sign, nor may the names of variables. */
  predicate NoPercentKeys(t: Json) {
    match t
    case Leaf(_) => true
    case Dict(m) => forall k | k in m :: PercentFree(k) && NoPercentKeys(m[k])
    case List(xs) => forall i | 0 <= i < |xs| :: NoPercentKeys(xs[i])
  }

  lemma {:induction false} RenderPercentFree(data: Json, p: Position)
    requires NoPercentKeys(data) && Find(data, p).Some?
    ensures PercentFree(Render(p)) && NoPercentKeys(Find(data, p).value)
    decreases |p|
  {
    if p != [] {
      RenderPercentFree(data, Front(p));
    }
  }

  lemma TablePercentFree(data: Json, flat: Table, variables: Table)
    requires NoPercentKeys(data) && OnlyPositions(data, flat) && PercentFreeTable(variables)
    ensures PercentFreeTable(flat + variables)
  {
    hide Render, NoPercentKeys, Find, PercentFree;
    forall s | s in flat
      ensures PercentFree(s)
    {
      var p :| Render(p) == s && Find(data, p) == Some(flat[s]);
      RenderPercentFree(data, p);
    }
  }

  /** The document has the position `q`, and its path is the rule's. */
  ghost predicate SamePath(data: Json, p: Position, q: Position) {
    q != [] && Find(data, q).Some? && Render(q) == Render(p)
  }

  /** What a rule at `p` is checked against, for arbitrary keys in the document and in the rules: None unless
      the paths of the rule and of all rules above it are in the table; and then the variable that its path
      names, or the node of some position of the document that has its path. */
  lemma LookupExact(data: Json, flat: Table, variables: Table, p: Position)
    requires NoPercentKeys(data) && PercentFreeTable(variables)
    requires OnlyPositions(data, flat) && EveryPosition(data, flat)
    requires p != [] && NamedSteps(p)
    ensures var table := flat + variables;
            if !AllListed(table, p) then ValueAt(table, p) == NONE
            else if Render(p) in variables then ValueAt(table, p) == variables[Render(p)]
            else exists q :: SamePath(data, p, q) && Find(data, q) == Some(ValueAt(table, p))
  {
    hide Render, Find, NoPercentKeys, PercentFree, Wanted, Marked, AllListed;
    var table := flat + variables;
    TablePercentFree(data, flat, variables);
    FoundIffListed(table, p);
    if AllListed(table, p) && Render(p) !in variables {
      ListedHere(table, p);
      var q :| Render(q) == Render(p) && Find(data, q) == Some(flat[Render(p)]);
      SomePosition(data, flat, p, q);
    }
  }

  /** Where several positions of the document share the rule's path, it is checked against the node of a
      deepest of them. */
  lemma DeepestIsFound(data: Json, flat: Table, variables: Table, p: Position)
    requires NoPercentKeys(data) && PercentFreeTable(variables)
    requires OnlyPositions(data, flat) && EveryPosition(data, flat) && DeepestStored(data, flat)
    requires p != [] && NamedSteps(p) && Render(p) !in variables && AllListed(flat + variables, p)
    ensures exists q ::
              && SamePath(data, p, q) && Find(data, q) == Some(ValueAt(flat + variables, p))
              && forall r | SamePath(data, p, r) :: |r| <= |q|
  {
    hide Render, Find, NoPercentKeys, PercentFree, Wanted, Marked, AllListed;
    var table := flat + variables;
    TablePercentFree(data, flat, variables);
    FoundIffListed(table, p);
    ListedHere(table, p);
    var q :| Render(q) == Render(p) && Find(data, q) == Some(flat[Render(p)]) &&
             forall r | Find(data, r).Some? && Render(r) == Render(p) :: |r| <= |q|;
    SomePosition(data, flat, p, q);
  }

  lemma ListedHere(table: Table, p: Position)
    requires p != [] && AllListed(table, p)
    ensures Render(p) in table
  {
    AllListedFront(table, p);
  }

  lemma SomePosition(data: Json, flat: Table, p: Position, q: Position)
    requires OnlyPositions(data, flat) && Render(p) in flat
    requires Render(q) == Render(p) && Find(data, q).Some?
    ensures SamePath(data, p, q)
  {
  }

  /** A position of the document is in the table with all positions above it. */
  lemma OwnPathListed(data: Json, flat: Table, variables: Table, p: Position)
    requires EveryPosition(data, flat) && p != [] && NamedSteps(p) && Find(data, p).Some?
    ensures AllListed(flat + variables, p)
  {
    hide Render, Find;
    forall n: nat | 0 < n <= |p|
      ensures Render(p[..n]) in flat
    {
      FindPrefix(data, p[..n], p);
      assert NamedStep(p[n - 1]) && Last(p[..n]) == p[n - 1];
      RenderNonEmpty(p[..n]);
    }
  }

  /** Structural lookup, for arbitrary keys: when no other position of the document has the path of the rule
      with another node than the rule's own position, and no variable has its name, the rule is checked
      against the document's value at its very own position, or None. */
  lemma StructuralLookup(data: Json, flat: Table, variables: Table, p: Position)
    requires NoPercentKeys(data) && PercentFreeTable(variables)
    requires OnlyPositions(data, flat) && EveryPosition(data, flat)
    requires p != [] && NamedSteps(p) && Render(p) !in variables
    requires forall q | SamePath(data, p, q) :: Find(data, q) == Find(data, p)
    ensures ValueAt(flat + variables, p) == match Find(data, p) case Some(n) => n case None => NONE
  {
    hide Render, Find, NoPercentKeys, PercentFree, ValueAt, AllListed;
    LookupExact(data, flat, variables, p);
    if Find(data, p).Some? {
      OwnPathListed(data, flat, variables, p);
    }
  }

  /** For documents whose keys have no dots and brackets, and rules whose keys may have them: the variable, if
      the paths above are in the table too; without a variable, the node of the one position of the document
      that has the rule's path; and None if there is neither. */
  lemma LookupMeaning(data: Json, flat: Table, variables: Table, p: Position)
    requires GoodKeys(data) && NoPercentKeys(data) && PercentFreeTable(variables)
    requires OnlyPositions(data, flat) && EveryPosition(data, flat)
    requires p != [] && NamedSteps(p)
    ensures var table := flat + variables;
            if Render(p) in variables then
              ValueAt(table, p) == if AllListed(table, p) then variables[Render(p)] else NONE
            else
              && (forall q | SamePath(data, p, q) :: Find(data, q) == Some(ValueAt(table, p)))
              && ((forall q :: !SamePath(data, p, q)) ==> ValueAt(table, p) == NONE)
  {
    hide Render, Find, NoPercentKeys, PercentFree, ValueAt, AllListed, GoodKeys, SamePath;
    var table := flat + variables;
    LookupExact(data, flat, variables, p);
    if Render(p) !in variables {
      forall q | SamePath(data, p, q)
        ensures Find(data, q) == Some(ValueAt(table, p))
      {
        ListedInBoth(data, flat, variables, p, q);
        var r :| SamePath(data, p, r) && Find(data, r) == Some(ValueAt(table, p));
        SamePathUnique(data, p, q, r);
      }
    }
  }

  /** With such documents at most one position has a path. */
  lemma SamePathUnique(data: Json, p: Position, q: Position, r: Position)
    requires GoodKeys(data) && SamePath(data, p, q) && SamePath(data, p, r)
    ensures q == r
  {
    GoodPosition(data, q);
    GoodPosition(data, r);
    RenderInjective(q, r);
  }

  lemma ListedInBoth(data: Json, flat: Table, variables: Table, p: Position, q: Position)
    requires GoodKeys(data) && EveryPosition(data, flat)
    requires p != [] && NamedSteps(p) && SamePath(data, p, q)
    ensures AllListed(flat + variables, p)
  {
    AllAboveListed(data, flat, p, q);
  }

  // ----- documents made of several files -----

  /** What a position below the top adds to the path of its file. */
  function Suffix(p: Position): string
    decreases |p|
  {
    if p == [] then "" else Suffix(Front(p)) + Added(Last(p))
  }

  lemma ExtendBelow(path: string, s: Step)
    requires path != ""
    ensures Extend(path, s) == path + Added(s)
    ensures Added(s) != "" && IsSep(Added(s)[0])
  {
    hide Text.Decimal;
  }

  lemma {:induction false} RenderBelow(k: string, p: Position)
    requires k != ""
    ensures Render([Key(k)] + p) == k + Suffix(p)
    decreases |p|
  {
    hide Extend, Added, IsSep, Render, Suffix;
    if p == [] {
      RenderTop(k);
    } else {
      RenderBelow(k, Front(p));
      AddBelow(k, p);
    }
  }

  lemma AddBelow(k: string, p: Position)
    requires p != [] && k != "" && Render([Key(k)] + Front(p)) == k + Suffix(Front(p))
    ensures Render([Key(k)] + p) == k + Suffix(p)
  {
    hide Extend, Added, IsSep, Suffix, Render;
    var above, below := Suffix(Front(p)), [Key(k)] + p;
    EndsBelow(k, p);
    RenderSplits(below);
    ExtendBelow(k + above, Last(p));
    SuffixSplits(p);
    assert (k + above) + Added(Last(p)) == k + Suffix(p);
  }

  lemma EndsBelow(k: string, p: Position)
    requires p != []
    ensures Front([Key(k)] + p) == [Key(k)] + Front(p) && Last([Key(k)] + p) == Last(p)
  {
  }

  lemma RenderSplits(p: Position)
    requires p != []
    ensures Render(p) == Extend(Render(Front(p)), Last(p))
  {
    hide Extend;
  }

  lemma SuffixSplits(p: Position)
    requires p != []
    ensures Suffix(p) == Suffix(Front(p)) + Added(Last(p))
  {
    hide Added;
  }

  lemma {:induction false} SuffixBegins(p: Position)
    ensures Suffix(p) == "" || IsSep(Suffix(p)[0])
    decreases |p|
  {
    if p != [] {
      hide Added, IsSep, Extend;
      SuffixBegins(Front(p));
      ExtendBelow("x", Last(p));
    }
  }

  lemma RenderTop(k: string)
    ensures Render([Key(k)] + []) == k + Suffix([]) && Suffix([]) == ""
  {
    assert [Key(k)] + [] == [Key(k)] && Front([Key(k)]) == [] && k + "" == k;
  }

  /** No file's name, continued by a separator, begins the name of another. */
  ghost predicate NamesApart(names: set<string>) {
    forall a, b | a in names && b in names && |a| < |b| && a <= b :: !IsSep(b[|a|])
  }

  lemma SuffixInjective(p: Position, q: Position)
    requires GoodSteps(p) && GoodSteps(q) && Suffix(p) == Suffix(q)
    ensures p == q
  {
    hide Render, Suffix;
    RenderBelow("x", p);
    RenderBelow("x", q);
    var a, b := [Key("x")] + p, [Key("x")] + q;
    assert SepFree("x") && GoodSteps(a) && GoodSteps(b);
    RenderInjective(a, b);
    assert p == a[1..] && q == b[1..];
  }

  lemma ShorterBegins(a: string, x: string, b: string, y: string)
    requires a + x == b + y && |a| < |b|
    ensures a <= b && x != "" && x[0] == b[|a|]
  {
    var w := a + x;
    assert a == w[..|a|] == b[..|a|];
    assert w[|a|] == b[|a|];
  }

  lemma NameDecided(names: set<string>, a: string, x: string, b: string, y: string)
    requires NamesApart(names) && a in names && b in names && a + x == b + y
    requires (x == "" || IsSep(x[0])) && (y == "" || IsSep(y[0]))
    ensures a == b && x == y
  {
    if |a| < |b| {
      ShorterBegins(a, x, b, y);
    } else if |b| < |a| {
      ShorterBegins(b, y, a, x);
    } else {
      var w := a + x;
      assert a == w[..|a|] == b && x == w[|a|..] == y;
    }
  }

  /** A document that holds one tree per file, under names that may have dots and slashes in them: only the
      rule's own position can have its path, so the lookup is structural. */
  lemma FilesAreTold(data: Json, name: string, p: Position, q: Position)
    requires data.Dict? && "" !in data.m && forall k | k in data.m :: GoodKeys(data.m[k])
    requires NamesApart(data.m.Keys + {name}) && name != "" && GoodSteps(p)
    requires SamePath(data, [Key(name)] + p, q)
    ensures q == [Key(name)] + p
  {
    hide Render, Suffix, GoodKeys, GoodSteps, NamesApart;
    FindPrefix(data, q[..1], q);
    var k := FirstKey(data, q);
    var r := q[1..];
    assert q == [Key(k)] + r;
    FindFront(data, Key(k), r);
    GoodPosition(data.m[k], r);
    RenderBelow(name, p);
    RenderBelow(k, r);
    SuffixBegins(p);
    SuffixBegins(r);
    NameDecided(data.m.Keys + {name}, name, Suffix(p), k, Suffix(r));
    SuffixInjective(p, r);
  }

  lemma FirstKey(data: Json, q: Position) returns (k: string)
    requires data.Dict? && q != [] && Find(data, q[..1]).Some?
    ensures k in data.m && q[0] == Key(k)
  {
    assert Front(q[..1]) == [] && Last(q[..1]) == q[0];
    k := q[0].k;
  }

  /** So a rule for a file is checked against the document's value at its own position, or None. */
  lemma FileLookup(data: Json, flat: Table, variables: Table, name: string, p: Position)
    requires NoPercentKeys(data) && PercentFreeTable(variables) && PercentFree(name) && NamedSteps(p)
    requires OnlyPositions(data, flat) && EveryPosition(data, flat)
    requires data.Dict? && "" !in data.m && forall k | k in data.m :: GoodKeys(data.m[k])
    requires NamesApart(data.m.Keys + {name}) && name != "" && GoodSteps(p)
    requires Render([Key(name)] + p) !in variables
    ensures ValueAt(flat + variables, [Key(name)] + p) ==
            match Find(data, [Key(name)] + p) case Some(n) => n case None => NONE
  {
    hide Render, Find, NoPercentKeys, PercentFree, ValueAt, GoodKeys, NamesApart, GoodSteps, SamePath;
    var whole := [Key(name)] + p;
    forall q | SamePath(data, whole, q)
      ensures Find(data, q) == Find(data, whole)
    {
      FilesAreTold(data, name, p, q);
    }
    StructuralLookup(data, flat, variables, whole);
  }

  /** A rule at the top whose key is the name of a variable, as `ref.x` is, checks that variable. */
  lemma VariableIsChecked(flat: Table, variables: Table, name: string)
    requires name in variables
    ensures ValueAt(flat + variables, [Key(name)]) == variables[name]
  {
    var table := flat + variables;
    assert Front([Key(name)]) == [] && Last([Key(name)]) == Key(name);
    assert Wanted(table, []) == "" && Marked(table, []) == "";
    assert Wanted(table, [Key(name)]) == name;
  }

  /** A rule key that ends in an index in brackets has the path of the item in the list. */
  lemma BracketKeyIsItem(p: Position, k: string, i: nat)
    requires Render(p) != "" || k != ""
    ensures Render(p + [Key(k + "[" + Text.Decimal(i) + "]")]) == Render(p + [Key(k), Index(i)])
  {
    hide Text.Decimal;
    var whole := k + "[" + Text.Decimal(i) + "]";
    assert Front(p + [Key(whole)]) == p && Front(p + [Key(k), Index(i)]) == p + [Key(k)] && Front(p + [Key(k)]) == p;
  }

  // ----- references from one rule to another -----

  function KeysPosition(keys: seq<string>): (p: Position)
    ensures |p| == |keys| && forall i | 0 <= i < |p| :: p[i] == Key(keys[i])
  {
    seq(|keys|, i requires 0 <= i < |keys| => Key(keys[i]))
  }

  /** The path of nested keys: the keys, with dots between them. */
  lemma {:induction false} RenderKeys(keys: seq<string>)
    requires keys != [] && forall i | 0 <= i < |keys| :: keys[i] != ""
    ensures Render(KeysPosition(keys)) == Text.Join(keys, '.') != ""
    decreases |keys|
  {
    var p, k := KeysPosition(keys), Last(keys);
    assert Front(p) == KeysPosition(Front(keys)) && Last(p) == Key(k);
    assert k != "";
    if |keys| == 1 {
      assert keys == [k] && Front(p) == [] && Render([]) == "";
      assert Text.Join(keys, '.') == k;
    } else {
      RenderKeys(Front(keys));
      assert keys == Front(keys) + [k] && Text.Join([k], '.') == k;
      Text.JoinConcat(Front(keys), [k], '.');
      assert Text.Join(Front(keys), '.') + ['.'] + k == Render(Front(p)) + "." + k;
    }
  }

  /** From the rule at a position, `.c` is the path of the position below it, and `..c` that of the position
      beside it. */
  lemma RelativeReferences(above: seq<string>, name: string, c: string)
    requires MacroPaths.AllNames(above) && MacroPaths.IsName(name) && MacroPaths.IsName(c)
    ensures var here := KeysPosition(above + [name]);
            && MacroPaths.FullPath("." + c, Render(here)) == Ok(Render(here + [Key(c)]))
            && MacroPaths.FullPath(".." + c, Render(here)) == Ok(Render(KeysPosition(above) + [Key(c)]))
  {
    hide Render, MacroPaths.FullPath;
    var ctx := above + [name];
    var here := KeysPosition(ctx);
    MacroPaths.OneDotIsChildTwoDotsSibling(above, name, c);
    RenderKeys(ctx);
    RenderKeys(ctx + [c]);
    RenderKeys(above + [c]);
    Text.JoinConcat(ctx, [c], '.');
    assert here + [Key(c)] == KeysPosition(ctx + [c]) && KeysPosition(above) + [Key(c)] == KeysPosition(above + [c]);
    assert Text.Join([c], '.') == c;
    assert MacroPaths.Relative(1, [c]) == "." + c by { Dots(c); }
    assert MacroPaths.Relative(2, [c]) == ".." + c by { Dots(c); }
  }

  lemma Dots(c: string)
    ensures MacroPaths.Relative(1, [c]) == "." + c && MacroPaths.Relative(2, [c]) == ".." + c
  {
    assert MacroPaths.Repeat('.', 1) == "." && MacroPaths.Repeat('.', 2) == "..";
    assert Text.Join([c], '.') == c;
  }
}
