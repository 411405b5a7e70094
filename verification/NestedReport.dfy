/** The report as `Comparator.compare` hands it on: each section's flat differences turned into nested
    dicts. */
module NestedReport {
  import opened PyValues
  import opened Json
  import opened Positions
  import opened Comparator
  import opened Compare
  import opened Unflatten
  import ListNesting

  /** For each file, its value at one path. */
  type Row = map<string, Json>

  predicate KeysOnly(p: Path) {
    forall i | 0 <= i < |p| :: p[i].Key?
  }

  function KeysOf(p: Path): (r: Keys)
    requires KeysOnly(p)
    ensures |r| == |p| && forall i | 0 <= i < |p| :: r[i] == p[i].k
  {
    seq(|p|, i requires 0 <= i < |p| => p[i].k)
  }

  lemma KeyPathOfKeys(p: Path)
    requires KeysOnly(p)
    ensures KeyPath(KeysOf(p)) == p
  {
  }

  /** The same rows, by the keys of their paths. */
  function ByKeys(rows: map<Path, Row>): (r: map<Keys, Row>)
    requires forall p | p in rows :: KeysOnly(p)
    ensures forall q :: q in r <==> KeyPath(q) in rows
    ensures forall q | q in r :: r[q] == rows[KeyPath(q)]
  {
    forall p | p in rows
      ensures KeyPath(KeysOf(p)) == p
    {
      KeyPathOfKeys(p);
    }
    forall q | KeyPath(q) in rows
      ensures KeysOf(KeyPath(q)) == q
    {
    }
    map p | p in rows :: KeysOf(p) := rows[p]
  }

  /** Two files disagree on a path of a section, or one of them lacks it. */
  ghost predicate Differs(dumps: Dumps, c: string, p: Path) {
    exists f, g :: f in dumps && g in dumps && ValueIn(dumps, f, c, p) != ValueIn(dumps, g, c, p)
  }

  /** In every section the paths on which files differ are key paths, and none begins another: the
      differences can be nested without one overwriting another.  What the files agree on is free. */
  ghost predicate Nestable(dumps: Dumps) {
    forall c, p, q | Differs(dumps, c, p) && Differs(dumps, c, q) :: KeysOnly(p) && p != [] && (p <= q ==> p == q)
  }

  lemma ReportedIffDiffers(dumps: Dumps, diff: map<string, map<Path, Row>>, c: string)
    requires Reported(dumps, diff) && c in diff
    ensures forall p :: p in diff[c] <==> Differs(dumps, c, p)
  {
    hide ValueIn;
  }

  lemma DifferencesNest(dumps: Dumps, diff: map<string, map<Path, Row>>, c: string)
    requires Reported(dumps, diff) && Nestable(dumps) && c in diff
    ensures forall p | p in diff[c] :: KeysOnly(p)
    ensures PrefixFree(ByKeys(diff[c]))
  {
    hide Reported, Differs;
    ReportedIffDiffers(dumps, diff, c);
    var flat := ByKeys(diff[c]);
    forall p, q | p in flat && q in flat && p <= q
      ensures p == q
    {
      assert Differs(dumps, c, KeyPath(p)) && Differs(dumps, c, KeyPath(q));
      assert KeyPath(p) <= KeyPath(q);
      assert KeysOf(KeyPath(p)) == p && KeysOf(KeyPath(q)) == q;
    }
    assert KeyPath([]) == [];
  }

  /** The nested dicts under `root` hold exactly the rows, each at the keys of its path. */
  ghost predicate IsNested(rows: map<Path, Row>, root: DictNode<Row>, dirs: map<Keys, DictNode<Row>>)
    reads dirs.Values
  {
    && (forall p | p in rows :: KeysOnly(p))
    && [] in dirs && dirs[[]] == root && Shape(dirs, ContentsOf(dirs))
    && Holds(ContentsOf(dirs), ByKeys(rows), ByKeys(rows).Keys)
  }

  /** One section's differences, nested. */
  method NestSection(rows: map<Path, Row>) returns (root: DictNode<Row>, ghost dirs: map<Keys, DictNode<Row>>)
    requires forall p | p in rows :: KeysOnly(p)
    requires PrefixFree(ByKeys(rows))
    ensures IsNested(rows, root, dirs)
  {
    hide Shape, Holds, ByKeys, ContentsOf, PrefixFree;
    root, dirs := Unflatten.Unflatten(ByKeys(rows));
  }

  /** Comparison and nesting together, for dumps whose differences can be nested. */
  method CompareNested(dumps: Dumps)
    returns (nested: map<string, DictNode<Row>>, ghost diff: map<string, map<Path, Row>>,
             ghost dirs: map<string, map<Keys, DictNode<Row>>>)
    requires Nestable(dumps)
    ensures Reported(dumps, diff) && nested.Keys == diff.Keys == dirs.Keys
    ensures forall c | c in diff :: IsNested(diff[c], nested[c], dirs[c])
    ensures forall c :: c in nested <==> exists file :: IsPair(dumps, file, c)
    ensures (forall c | c in nested :: nested[c].entries == map[]) <==>
            (forall f, g, c | f in dumps && g in dumps :: Visible(dumps, f, c) == Visible(dumps, g, c))
  {
    hide *;
    var flat := Compare.Compare(dumps);
    diff := flat;
    nested, dirs := map[], map[];
    var sections := flat.Keys;
    while sections != {}
      invariant sections <= flat.Keys
      invariant nested.Keys == dirs.Keys == flat.Keys - sections
      invariant forall c | c in nested :: IsNested(diff[c], nested[c], dirs[c])
      decreases |sections|
    {
      var c :| c in sections;
      DifferencesNest(dumps, diff, c);
      var root;
      ghost var ds;
      root, ds := NestSection(flat[c]);
      nested, dirs := nested[c := root], dirs[c := ds];
      sections := sections - {c};
    }
    NestedReportEmptyIff(dumps, nested, diff, dirs);
    SectionsReported(dumps, diff);
  }

  lemma SectionsReported(dumps: Dumps, diff: map<string, map<Path, Row>>)
    requires Reported(dumps, diff)
    ensures forall c :: c in diff <==> exists file :: IsPair(dumps, file, c)
  {
  }

  lemma NestedEmptyIff(rows: map<Path, Row>, root: DictNode<Row>, dirs: map<Keys, DictNode<Row>>)
    requires IsNested(rows, root, dirs)
    ensures root.entries == map[] <==> rows == map[]
  {
    hide Shape, Holds, ByKeys;
    var c, flat := ContentsOf(dirs), ByKeys(rows);
    assert c[[]] == root.entries;
    if root.entries != map[] {
      var k :| k in c[[]];
      var q := EntryLeadsSomewhere(dirs, c, flat, [], k);
    }
    if rows != map[] {
      var p :| p in rows;
      KeyPathOfKeys(p);
      FirstKeyThere(dirs, c, flat, KeysOf(p));
    }
  }

  lemma FirstKeyThere(dirs: map<Keys, DictNode<Row>>, c: Contents<Row>, flat: map<Keys, Row>, q: Keys)
    requires Shape(dirs, c) && Holds(c, flat, flat.Keys) && q in flat
    ensures [] in c && c[[]] != map[]
  {
    assert Stored(c, q, flat[q]);
    if |q| == 1 {
      assert Front(q) == [];
    } else {
      assert q[..1] in c && Front(q[..1]) == [];
    }
  }

  /** The report handed on is empty in every section if and only if all files have the same canonical
      tree in every section. */
  lemma NestedReportEmptyIff(dumps: Dumps, nested: map<string, DictNode<Row>>, diff: map<string, map<Path, Row>>,
                             dirs: map<string, map<Keys, DictNode<Row>>>)
    requires Reported(dumps, diff) && nested.Keys == diff.Keys == dirs.Keys
    requires forall c | c in diff :: IsNested(diff[c], nested[c], dirs[c])
    ensures (forall c | c in nested :: nested[c].entries == map[]) <==>
            (forall f, g, c | f in dumps && g in dumps :: Visible(dumps, f, c) == Visible(dumps, g, c))
  {
    hide *;
    forall c | c in diff
      ensures nested[c].entries == map[] <==> diff[c] == map[]
    {
      NestedEmptyIff(diff[c], nested[c], dirs[c]);
    }
    NothingReportedIff(dumps, diff);
  }

  // ----- differing paths with list indices -----

  /** In one section the files' trees agree, on the way to what differs, on what is a list and what is a
      dict. */
  ghost predicate ShapesAgree(dumps: Dumps, c: string) {
    forall p | Differs(dumps, c, p) ::
      p != [] && forall q | Differs(dumps, c, q) && p != q :: ListNesting.Apart(p, q)
  }

  /** The section's rows, one for each differing path, in some order. */
  ghost predicate RowsInOrder(dumps: Dumps, c: string, paths: seq<Path>) {
    && (forall p :: p in paths <==> Differs(dumps, c, p))
    && (forall i, j | 0 <= i < |paths| && 0 <= j < |paths| && i != j :: paths[i] != paths[j])
  }

  function RowsOf(rows: map<Path, Row>, paths: seq<Path>): seq<Row>
    requires forall p | p in paths :: p in rows
  {
    seq(|paths|, i requires 0 <= i < |paths| => rows[paths[i]])
  }

  /** Every row of the section is found in its nested report, at its path. */
  ghost predicate Lossless(rows: map<Path, Row>, tree: ListNesting.Tree<Row>) {
    forall p | p in rows :: ListNesting.Lookup(tree, p) == Some(rows[p])
  }

  /** Two differing paths go on below the same item of a list. */
  ghost predicate SharedItem(dumps: Dumps, c: string) {
    exists p, q :: Differs(dumps, c, p) && Differs(dumps, c, q) && p != q && ListNesting.ShareItem(false, p, q)
  }

  /** With lists in the dumps: nesting a section's differences, in any order, raises nothing, and every row is
      found in the result if and only if no two differing paths go on below the same item of a list. */
  lemma NestedListsLosslessIff(dumps: Dumps, diff: map<string, map<Path, Row>>, c: string, paths: seq<Path>)
    requires Reported(dumps, diff) && c in diff && ShapesAgree(dumps, c) && RowsInOrder(dumps, c, paths)
    ensures forall p :: p in paths <==> p in diff[c]
    ensures ListNesting.AllApart(paths)
    ensures ListNesting.Build(paths, RowsOf(diff[c], paths)).Ok?
    ensures Lossless(diff[c], ListNesting.Build(paths, RowsOf(diff[c], paths)).value) <==> !SharedItem(dumps, c)
  {
    hide *;
    ReportedIffDiffers(dumps, diff, c);
    AllOfThemApart(dumps, c, paths);
    var rows := RowsOf(diff[c], paths);
    assert |rows| == |paths| by { RowsOfLength(diff[c], paths); }
    ListNesting.LosslessIff(paths, rows);
    LosslessAtPlaces(diff[c], paths, ListNesting.Build(paths, rows).value);
    SharedAtPlaces(dumps, c, paths);
  }

  lemma AllOfThemApart(dumps: Dumps, c: string, paths: seq<Path>)
    requires ShapesAgree(dumps, c) && RowsInOrder(dumps, c, paths)
    ensures ListNesting.AllApart(paths) && forall p :: p in paths <==> Differs(dumps, c, p)
    ensures forall i | 0 <= i < |paths| :: paths[i] != []
  {
    hide Differs, ListNesting.Apart;
    forall i | 0 <= i < |paths|
      ensures Differs(dumps, c, paths[i])
    {
      assert paths[i] in paths;
    }
  }

  lemma RowsOfLength(rows: map<Path, Row>, paths: seq<Path>)
    requires forall p | p in paths :: p in rows
    ensures |RowsOf(rows, paths)| == |paths|
  {
  }

  lemma LosslessAtPlaces(rows: map<Path, Row>, paths: seq<Path>, tree: ListNesting.Tree<Row>)
    requires forall p :: p in paths <==> p in rows
    ensures |RowsOf(rows, paths)| == |paths|
    ensures Lossless(rows, tree) <==>
            forall j | 0 <= j < |paths| :: ListNesting.Lookup(tree, paths[j]) == Some(RowsOf(rows, paths)[j])
  {
    hide ListNesting.Lookup;
    if forall j | 0 <= j < |paths| :: ListNesting.Lookup(tree, paths[j]) == Some(RowsOf(rows, paths)[j]) {
      forall p | p in rows
        ensures ListNesting.Lookup(tree, p) == Some(rows[p])
      {
        var j :| 0 <= j < |paths| && paths[j] == p;
      }
    }
  }

  lemma SharedAtPlaces(dumps: Dumps, c: string, paths: seq<Path>)
    requires RowsInOrder(dumps, c, paths)
    ensures SharedItem(dumps, c) <==>
            exists i, j :: && 0 <= i < |paths| && 0 <= j < |paths| && i != j
                           && ListNesting.ShareItem(false, paths[i], paths[j])
  {
    hide ListNesting.ShareItem, Differs;
    if SharedItem(dumps, c) {
      var p, q :| Differs(dumps, c, p) && Differs(dumps, c, q) && p != q && ListNesting.ShareItem(false, p, q);
      var i :| 0 <= i < |paths| && paths[i] == p;
      var j :| 0 <= j < |paths| && paths[j] == q;
      assert ListNesting.ShareItem(false, paths[i], paths[j]);
    }
  }
}
