/** The paths under which the rule walk looks values up: the path of the rule above extended by one
    step, with a percent sign behind it when the table does not have it. */
module RulePaths {
  import opened PyValues
  import opened Text
  import opened Json
  import opened Positions

  const NONE: Json := Leaf(NoneV)

  type Table = map<string, Json>

  /** The path that is looked for: what the rule above was looked up under, and one step more. */
  function Wanted(table: Table, p: Position): string
    decreases |p|, 0
  {
    if p == [] then "" else Extend(Marked(table, Front(p)), Last(p))
  }

  /** The path the rule at `p` is then checked under. */
  function Marked(table: Table, p: Position): string
    decreases |p|, 1
  {
    if p == [] || Wanted(table, p) in table then Wanted(table, p) else Wanted(table, p) + "%"
  }

  /** The value it is checked against: what the table has under the wanted path, or None. */
  function ValueAt(table: Table, p: Position): Json {
    if Wanted(table, p) in table then table[Wanted(table, p)] else NONE
  }

  // ----- percent signs -----

  predicate PercentFree(s: string) {
    forall i | 0 <= i < |s| :: s[i] != '%'
  }

  predicate EndsPlain(s: string) {
    s == "" || Last(s) != '%'
  }

  /** A step whose key does not end in a percent sign. */
  predicate PlainStep(s: Step) {
    s.Key? ==> EndsPlain(s.k)
  }

  /** A step whose key is not empty and has no percent sign; dots and brackets are allowed. */
  predicate NamedStep(s: Step) {
    s.Key? ==> s.k != "" && PercentFree(s.k)
  }

  predicate NamedSteps(p: Position) {
    forall i | 0 <= i < |p| :: NamedStep(p[i])
  }

  lemma ExtendEndsPlain(path: string, s: Step)
    requires PlainStep(s)
    ensures EndsPlain(Extend(path, s))
  {
  }

  function Strip(s: string): string {
    if s == "" then "" else (if s[0] == '%' then "" else [s[0]]) + Strip(s[1..])
  }

  lemma {:induction false} StripConcat(a: string, b: string)
    ensures Strip(a + b) == Strip(a) + Strip(b)
  {
    if a == "" {
      assert a + b == b;
    } else {
      assert (a + b)[1..] == a[1..] + b;
      StripConcat(a[1..], b);
    }
  }

  lemma {:induction false} StripNothing(s: string)
    requires PercentFree(s)
    ensures Strip(s) == s
  {
    if s != "" {
      StripNothing(s[1..]);
    }
  }

  /** What a step adds to a path that is not empty. */
  function Added(s: Step): string {
    match s
    case Key(k) => "." + k
    case Index(i) => "[" + Decimal(i) + "]"
  }

  lemma ExtendAdds(path: string, s: Step)
    requires NamedStep(s)
    ensures path != "" || s.Index? ==> Extend(path, s) == path + Added(s)
    ensures path == "" && s.Key? ==> Extend(path, s) == s.k
    ensures PercentFree(Added(s)) && Extend(path, s) != ""
    ensures IsSep(Added(s)[0])
  {
    hide Decimal;
  }

  lemma StripExtend(path: string, s: Step)
    requires NamedStep(s) && (path != "" ==> Strip(path) != "")
    ensures Strip(Extend(path, s)) == Extend(Strip(path), s)
  {
    hide Extend, Added;
    ExtendAdds(path, s);
    ExtendAdds(Strip(path), s);
    StripConcat(path, Added(s));
    StripNothing(Added(s));
    if s.Key? {
      StripNothing(s.k);
    }
  }

  /** Deleting the percent signs recovers the rule's plain path, whatever the table holds. */
  lemma {:induction false} StripMarked(table: Table, p: Position)
    requires NamedSteps(p)
    ensures Strip(Marked(table, p)) == Render(p)
    decreases |p|
  {
    if p != [] {
      StripMarked(table, Front(p));
      if Front(p) != [] {
        assert NamedStep(p[|p| - 2]);
        RenderNonEmpty(Front(p));
      }
      StripExtend(Marked(table, Front(p)), Last(p));
      StripConcat(Wanted(table, p), "%");
      assert Strip("%") == "";
    }
  }

  /** Different rule positions are looked up under different paths, for keys that render
      distinguishably. */
  lemma MarkedInjective(table: Table, p: Position, q: Position)
    requires NamedSteps(p) && GoodSteps(p) && NamedSteps(q) && GoodSteps(q)
    requires Marked(table, p) == Marked(table, q)
    ensures p == q
  {
    StripMarked(table, p);
    StripMarked(table, q);
    RenderInjective(p, q);
  }

  // ----- when the wanted path is in the table -----

  ghost predicate PercentFreeTable(table: Table) {
    forall s | s in table :: PercentFree(s)
  }

  /** The rendered paths of the rule and of every rule above it are in the table. */
  ghost predicate AllListed(table: Table, p: Position) {
    forall n: nat | 0 < n <= |p| :: Render(p[..n]) in table
  }

  lemma AllListedFront(table: Table, p: Position)
    requires p != []
    ensures AllListed(table, p) <==> AllListed(table, Front(p)) && Render(p) in table
  {
    assert forall n: nat | n < |p| :: Front(p)[..n] == p[..n];
    assert p[..|p|] == p;
  }

  /** In a table without percent signs a rule is found exactly when its rendered path and those of all
      rules above it are in the table; and then it is looked up under its rendered path. */
  lemma {:induction false} FoundIffListed(table: Table, p: Position)
    requires p != [] && PercentFreeTable(table) && NamedSteps(p)
    ensures Wanted(table, p) in table <==> AllListed(table, p)
    ensures AllListed(table, p) ==> Marked(table, p) == Wanted(table, p) == Render(p)
    decreases |p|
  {
    hide Extend, Added;
    AllListedFront(table, p);
    var above := Marked(table, Front(p));
    ExtendAdds(above, Last(p));
    if Front(p) == [] {
      assert AllListed(table, []);
    } else {
      FoundIffListed(table, Front(p));
      if Wanted(table, p) in table && Wanted(table, Front(p)) !in table {
        assert Wanted(table, p)[|above| - 1] == '%';
      }
    }
  }
}
