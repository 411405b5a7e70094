/** `Comparator._unflatten` on paths with list indices: which rows of a report survive the nesting. */
module ListNesting {
  import opened PyValues
  import opened Positions
  import opened Comparator

  /** A row is opaque here: the paths the theorems are about never lead into one. */
  datatype Tree<V> = Row(v: V) | DictTree(m: map<Step, Tree<V>>) | ListTree(xs: seq<Tree<V>>)

  // ----- one insertion -----

  /** What is put where nothing was: a list with one empty dict in it, or an empty dict. */
  function Fresh<V>(next: Step): Tree<V> {
    if next.Index? then ListTree([DictTree(map[])]) else DictTree(map[])
  }

  /** The loop that appends empty dicts until the index exists. */
  function Pad<V>(xs: seq<Tree<V>>, i: nat): (r: seq<Tree<V>>)
    ensures i < |r| && |r| >= |xs| && forall k | 0 <= k < |xs| :: r[k] == xs[k]
    ensures forall k | |xs| <= k < |r| :: r[k] == DictTree(map[])
  {
    if i < |xs| then xs else xs + seq(i + 1 - |xs|, _ => DictTree(map[]))
  }

  /** Appending to a dict raises; a dict with more entries than the index is left as it is. */
  function Prepare<V>(t: Tree<V>, next: Step): Outcome<Tree<V>> {
    if next.Key? then Ok(t)
    else
      match t
      case ListTree(xs) => Ok(ListTree(Pad(xs, next.i)))
      case DictTree(m) => if |m| > next.i then Ok(t) else Raise(OtherError)
      case Row(_) => Raise(OtherError)
  }

  function Assign<V>(t: Tree<V>, s: Step, v: V): Outcome<Tree<V>> {
    match t
    case DictTree(m) => Ok(DictTree(m[s := Row(v)]))
    case ListTree(xs) =>
      if s.Key? then Raise(TypeError)
      else if s.i >= |xs| then Raise(IndexError)
      else Ok(ListTree(xs[s.i := Row(v)]))
    case Row(_) => Raise(OtherError)
  }

  /** One path put into the tree.  An index is never found in a list, whose elements are no integers, so an
      item of a list that the path goes through is replaced by something fresh, whatever it held. */
  function Put<V>(t: Tree<V>, p: Path, v: V): Outcome<Tree<V>>
    requires p != []
    decreases |p|
  {
    if |p| == 1 then Assign(t, p[0], v)
    else
      match t
      case DictTree(m) =>
        var child :- Prepare(if p[0] in m then m[p[0]] else Fresh(p[1]), p[1]);
        var below :- Put(child, p[1..], v);
        Ok(DictTree(m[p[0] := below]))
      case ListTree(xs) =>
        if p[0].Key? then Raise(TypeError)
        else if p[0].i >= |xs| then Raise(IndexError)
        else
          var child :- Prepare(Fresh(p[1]), p[1]);
          var below :- Put(child, p[1..], v);
          Ok(ListTree(xs[p[0].i := below]))
      case Row(_) => Raise(OtherError)
  }

  /** All rows put in, in this order, into an empty dict. */
  function Build<V>(paths: seq<Path>, values: seq<V>): Outcome<Tree<V>>
    requires |paths| == |values| && forall i | 0 <= i < |paths| :: paths[i] != []
    decreases |paths|
  {
    if paths == [] then Ok(DictTree(map[]))
    else
      var t :- Build(Front(paths), Front(values));
      Put(t, Last(paths), Last(values))
  }

  // ----- what is found afterwards -----

  function Lookup<V>(t: Tree<V>, p: Path): Option<V>
    decreases |p|
  {
    match t
    case Row(v) => if p == [] then Some(v) else None
    case DictTree(m) => if p == [] || p[0] !in m then None else Lookup(m[p[0]], p[1..])
    case ListTree(xs) =>
      if p == [] || p[0].Key? || p[0].i >= |xs| then None else Lookup(xs[p[0].i], p[1..])
  }

  /** Neither path ends on the other's way, and where they part below a common node, that node is a list for
      both or a dict for both. */
  predicate Apart(p: Path, q: Path)
    decreases |p|
  {
    && p != [] && q != []
    && (p[0] == q[0] ==> |p| > 1 && |q| > 1 && p[1].Index? == q[1].Index? && Apart(p[1..], q[1..]))
  }

  /** Both paths go on below the same item of a list. */
  predicate ShareItem(inList: bool, p: Path, q: Path)
    decreases |p|
  {
    && |p| > 1 && |q| > 1 && p[0] == q[0]
    && (inList || ShareItem(p[1].Index?, p[1..], q[1..]))
  }

  /** The tree has the kinds of nodes that the path expects on its way. */
  predicate Accepts<V>(t: Tree<V>, p: Path)
    decreases |p|, 0
  {
    && p != []
    && match t
       case Row(_) => false
       case ListTree(xs) => p[0].Index? && p[0].i < |xs|
       case DictTree(m) => |p| == 1 || p[0] !in m || Fits(m[p[0]], p[1..])
  }

  predicate Fits<V>(t: Tree<V>, p: Path)
    decreases |p|, 1
  {
    p != [] && if p[0].Index? then t.ListTree? else t.DictTree? && Accepts(t, p)
  }

  lemma FreshFits<V>(p: Path)
    requires p != []
    ensures Fits<V>(Fresh(p[0]), p)
  {
  }

  /** Preparing a node that fits a path makes it accept the path, and changes nothing that is found in it. */
  lemma PreparedAccepts<V>(t: Tree<V>, p: Path)
    requires Fits(t, p)
    ensures Prepare(t, p[0]).Ok? && Accepts(Prepare(t, p[0]).value, p)
    ensures Prepare(t, p[0]).value.ListTree? == t.ListTree? == p[0].Index?
    ensures t.DictTree? ==> Prepare(t, p[0]) == Ok(t)
  {
  }

  lemma PreparedFinds<V>(t: Tree<V>, p: Path, q: Path)
    requires Fits(t, p)
    ensures Prepare(t, p[0]).Ok? && Lookup(Prepare(t, p[0]).value, q) == Lookup(t, q)
  {
    if t.ListTree? && q != [] && q[0].Index? {
      var r := Pad(t.xs, p[0].i);
      if |t.xs| <= q[0].i < |r| {
        assert r[q[0].i] == DictTree(map[]);
      }
    }
  }

  lemma FreshFindsNothing<V>(next: Step, p: Path)
    ensures Lookup<V>(Fresh(next), p) == None
  {
    if p != [] && p[0] == Index(0) {
      assert Lookup<V>(DictTree(map[]), p[1..]) == None;
    }
  }

  /** The node the insertion goes down into. */
  ghost function Down<V>(t: Tree<V>, p: Path): Tree<V>
    requires |p| > 1
  {
    if t.DictTree? && p[0] in t.m then t.m[p[0]] else Fresh(p[1])
  }

  lemma DownFits<V>(t: Tree<V>, p: Path)
    requires |p| > 1 && Accepts(t, p)
    ensures Fits(Down(t, p), p[1..])
  {
    FreshFits<V>(p[1..]);
  }

  /** A path that the tree accepts can be put into it, and is then found. */
  lemma {:induction false} PutFinds<V>(t: Tree<V>, p: Path, v: V)
    requires Accepts(t, p)
    ensures Put(t, p, v).Ok? && Put(t, p, v).value.ListTree? == t.ListTree? && !Put(t, p, v).value.Row?
    ensures Lookup(Put(t, p, v).value, p) == Some(v)
    decreases |p|
  {
    if |p| > 1 {
      DownFits(t, p);
      PreparedAccepts(Down(t, p), p[1..]);
      PutFinds(Prepare(Down(t, p), p[1]).value, p[1..], v);
    } else {
      assert p[1..] == [];
    }
  }

  /** What is found elsewhere stays, unless both paths go on below the same item of a list: then nothing is
      found there any more. */
  lemma {:induction false} PutElsewhere<V>(t: Tree<V>, p: Path, v: V, q: Path)
    requires Accepts(t, p) && Apart(p, q)
    ensures Put(t, p, v).Ok?
    ensures Lookup(Put(t, p, v).value, q) == if ShareItem(t.ListTree?, p, q) then None else Lookup(t, q)
    decreases |p|
  {
    PutFinds(t, p, v);
    if |p| > 1 {
      DownFits(t, p);
      var child := Down(t, p);
      PreparedAccepts(child, p[1..]);
      var ready := Prepare(child, p[1]).value;
      PutFinds(ready, p[1..], v);
      if p[0] == q[0] {
        PutElsewhere(ready, p[1..], v, q[1..]);
        PreparedFinds(child, p[1..], q[1..]);
        FreshFindsNothing<V>(p[1], q[1..]);
      }
    }
  }

  /** The tree goes on accepting every other path. */
  lemma {:induction false} PutAccepts<V>(t: Tree<V>, p: Path, v: V, q: Path)
    requires t.DictTree? && Accepts(t, p) && Accepts(t, q) && Apart(p, q)
    ensures Put(t, p, v).Ok? && Accepts(Put(t, p, v).value, q)
    decreases |p|
  {
    PutFinds(t, p, v);
    if |p| > 1 && p[0] == q[0] {
      DownFits(t, p);
      DownFits(t, q);
      var child := Down(t, p);
      PreparedAccepts(child, p[1..]);
      var ready := Prepare(child, p[1]).value;
      PutFinds(ready, p[1..], v);
      if p[1].Key? {
        PutAccepts(ready, p[1..], v, q[1..]);
      }
    }
  }

  // ----- all insertions -----

  predicate AllApart(paths: seq<Path>) {
    && (forall i | 0 <= i < |paths| :: paths[i] != [])
    && (forall i, j | 0 <= i < |paths| && 0 <= j < |paths| && i != j :: Apart(paths[i], paths[j]))
  }

  /** A later path goes on below an item of a list that row `j` lies in. */
  predicate Overrun(paths: seq<Path>, j: nat)
    requires j < |paths|
  {
    exists k | j < k < |paths| :: ShareItem(false, paths[k], paths[j])
  }

  /** What is found after the first `n` insertions. */
  lemma {:induction false} BuildFinds<V>(paths: seq<Path>, values: seq<V>, n: nat)
    requires |paths| == |values| && AllApart(paths) && n <= |paths|
    ensures Build(paths[..n], values[..n]).Ok? && Build(paths[..n], values[..n]).value.DictTree?
    ensures forall j | 0 <= j < |paths| :: Accepts(Build(paths[..n], values[..n]).value, paths[j])
    ensures forall j | 0 <= j < n ::
              Lookup(Build(paths[..n], values[..n]).value, paths[j]) ==
              if Overrun(paths[..n], j) then None else Some(values[j])
    decreases n
  {
    hide Put, Accepts, Lookup, ShareItem, Apart;
    if n == 0 {
      EmptyAccepts<V>(paths);
    } else {
      BuildFinds(paths, values, n - 1);
      var before, now := paths[..n - 1], paths[..n];
      assert Front(now) == before && Front(values[..n]) == values[..n - 1];
      var t := Build(before, values[..n - 1]).value;
      var p, v := paths[n - 1], values[n - 1];
      assert Last(now) == p && Last(values[..n]) == v;
      PutFinds(t, p, v);
      forall j | 0 <= j < |paths|
        ensures Accepts(Put(t, p, v).value, paths[j])
      {
        if j == n - 1 {
          AcceptsAgain(t, p, v);
        } else {
          PutAccepts(t, p, v, paths[j]);
        }
      }
      forall j | 0 <= j < n
        ensures Lookup(Put(t, p, v).value, paths[j]) == if Overrun(now, j) then None else Some(values[j])
      {
        if j < n - 1 {
          PutElsewhere(t, p, v, paths[j]);
          OverrunStep(now, j);
        }
      }
    }
  }

  lemma EmptyAccepts<V>(paths: seq<Path>)
    requires AllApart(paths)
    ensures forall j | 0 <= j < |paths| :: Accepts<V>(DictTree(map[]), paths[j])
  {
  }

  lemma {:induction false} AcceptsAgain<V>(t: Tree<V>, p: Path, v: V)
    requires t.DictTree? && Accepts(t, p)
    ensures Put(t, p, v).Ok? && Accepts(Put(t, p, v).value, p)
    decreases |p|
  {
    PutFinds(t, p, v);
    if |p| > 1 {
      DownFits(t, p);
      PreparedAccepts(Down(t, p), p[1..]);
      var ready := Prepare(Down(t, p), p[1]).value;
      PutFinds(ready, p[1..], v);
      if p[1].Key? {
        AcceptsAgain(ready, p[1..], v);
      }
    }
  }

  lemma OverrunStep(paths: seq<Path>, j: nat)
    requires j < |paths| - 1
    ensures Overrun(paths, j) <==> Overrun(Front(paths), j) || ShareItem(false, Last(paths), paths[j])
  {
    hide ShareItem;
    if Overrun(Front(paths), j) {
      var k :| j < k < |Front(paths)| && ShareItem(false, Front(paths)[k], Front(paths)[j]);
      assert ShareItem(false, paths[k], paths[j]);
    }
    if Overrun(paths, j) {
      var k :| j < k < |paths| && ShareItem(false, paths[k], paths[j]);
      if k < |paths| - 1 {
        assert ShareItem(false, Front(paths)[k], Front(paths)[j]);
      }
    }
  }

  /** For any rows in any order, whose paths do not end on each other's way and agree on what is a list:
      nesting raises nothing, and a row is found in the result if and only if no later row's path goes on
      below an item of a list that it lies in. */
  lemma RowFoundIff<V>(paths: seq<Path>, values: seq<V>, j: nat)
    requires |paths| == |values| && AllApart(paths) && j < |paths|
    ensures Build(paths, values).Ok?
    ensures Lookup(Build(paths, values).value, paths[j]) == if Overrun(paths, j) then None else Some(values[j])
  {
    hide *;
    assert paths[..|paths|] == paths && values[..|values|] == values;
    BuildFinds(paths, values, |paths|);
  }

  lemma {:induction false} ShareItemSymmetric(inList: bool, p: Path, q: Path)
    ensures ShareItem(inList, p, q) <==> ShareItem(inList, q, p)
    decreases |p|
  {
    if |p| > 1 && |q| > 1 && p[0] == q[0] {
      ShareItemSymmetric(p[1].Index?, p[1..], q[1..]);
      ShareItemSymmetric(q[1].Index?, p[1..], q[1..]);
    }
  }

  /** So the nested report keeps every row, in every order of insertion, if and only if no two paths go on
      below the same item of a list. */
  lemma LosslessIff<V>(paths: seq<Path>, values: seq<V>)
    requires |paths| == |values| && AllApart(paths)
    ensures Build(paths, values).Ok?
    ensures (forall j | 0 <= j < |paths| :: Lookup(Build(paths, values).value, paths[j]) == Some(values[j])) <==>
            (forall i, j | 0 <= i < |paths| && 0 <= j < |paths| && i != j :: !ShareItem(false, paths[i], paths[j]))
  {
    hide ShareItem, Lookup, Build, AllApart;
    assert paths[..|paths|] == paths && values[..|values|] == values;
    BuildFinds(paths, values, |paths|);
    if forall j | 0 <= j < |paths| :: !Overrun(paths, j) {
      forall i, j | 0 <= i < |paths| && 0 <= j < |paths| && i != j
        ensures !ShareItem(false, paths[i], paths[j])
      {
        ShareItemSymmetric(false, paths[i], paths[j]);
        assert !Overrun(paths, if i < j then i else j);
      }
    }
  }

  /** Two files that differ in two entries of one list item: only the row that was put in last is handed
      on. */
  lemma FirstOfTwoIsLost<V>(x: V, y: V)
    ensures var p, q := [Key("a"), Index(0), Key("b")], [Key("a"), Index(0), Key("c")];
            var r := Build([p, q], [x, y]);
            r.Ok? && Lookup(r.value, p) == None && Lookup(r.value, q) == Some(y)
  {
    var p, q := [Key("a"), Index(0), Key("b")], [Key("a"), Index(0), Key("c")];
    assert p[1..] == [Index(0), Key("b")] && q[1..] == [Index(0), Key("c")];
    assert p[1..][1..] == [Key("b")] && q[1..][1..] == [Key("c")];
    assert Apart(p[1..][1..], q[1..][1..]) && Apart(q[1..][1..], p[1..][1..]);
    assert Apart(p[1..], q[1..]) && Apart(q[1..], p[1..]);
    assert Apart(p, q) && Apart(q, p);
    assert ShareItem(true, q[1..], p[1..]);
    assert ShareItem(false, q, p);
    RowFoundIff([p, q], [x, y], 0);
    RowFoundIff([p, q], [x, y], 1);
    assert ShareItem(false, [p, q][1], [p, q][0]);
  }
}
