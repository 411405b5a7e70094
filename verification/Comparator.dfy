/** `Comparator`: several dumps flattened by an explicit stack into one table per section, and the
    entries on which they disagree. */
module Comparator {
  import opened PyValues
  import opened Json
  import opened Positions

  /** A path component: a dict key, or an index counted from the END of a list, because the flatten
      loop numbers the reversed list. */
  type Path = seq<Step>

  const WHOLE_KEY := "npuDeviceIds"

  /** What a tree contributes to the flat table at a path: a scalar, or the whole value under the
      device-id key. */
  function At(t: Json, p: Path): Option<Json>
    decreases |p|
  {
    match t
    case Leaf(_) => if p == [] then Some(t) else None
    case Dict(m) =>
      if p == [] || !p[0].Key? || p[0].k !in m then None
      else if p[0].k == WHOLE_KEY then (if |p| == 1 then Some(m[p[0].k]) else None)
      else At(m[p[0].k], p[1..])
    case List(xs) =>
      if p == [] || !p[0].Index? || p[0].i >= |xs| then None
      else At(xs[|xs| - 1 - p[0].i], p[1..])
  }

  /** The flat table of one section: for each path, the value in each file that has it. */
  type FlatTable = map<Path, map<string, Json>>

  ghost predicate HasEntry(flat: FlatTable, p: Path, file: string, v: Json) {
    p in flat && file in flat[p] && flat[p][file] == v
  }

  function Put(flat: FlatTable, p: Path, file: string, v: Json): FlatTable {
    flat[p := (if p in flat then flat[p] else map[])[file := v]]
  }

  /** The defaultdict that all flatten calls of a section write to. */
  class Table {
    var flat: FlatTable

    constructor ()
      ensures flat == map[]
    {
      flat := map[];
    }

    method Set(p: Path, file: string, v: Json)
      modifies this
      ensures flat == Put(old(flat), p, file, v)
    {
      flat := flat[p := (if p in flat then flat[p] else map[])[file := v]];
    }

    /** After flattening a file that has no entries yet, its entries are exactly what its tree
        contributes, and no other file's entries have changed. */
    method Flatten(data: Json, file: string)
      requires NoEmptyRow(flat) && forall p | p in flat :: file !in flat[p]
      modifies this
      ensures forall p: Path, v: Json :: HasEntry(flat, p, file, v) <==> At(data, p) == Some(v)
      ensures OthersKept(old(flat), flat, file) && NoEmptyRow(flat)
    {
      hide Split, SplitDict, SplitList, At, Put, SameUpTo, HasEntry, StackWeight, Weight, WeightKeys, WeightItems;
      ghost var start := flat;
      SameStart(flat, file);
      var stack: seq<(Json, Path)> := [(data, [])];
      SplitStarts(data, file, flat);
      while stack != []
        invariant Split(data, file, flat, stack) && SameUpTo(start, flat, file)
        decreases StackWeight(stack)
      {
        var (node, path) := Last(stack);
        SplitPop(data, file, flat, stack);
        if node.Leaf? {
          SplitLeaf(data, file, start, flat, stack);
        }
        ghost var total := StackWeight(stack);
        PopWeight(stack);
        stack := Front(stack);
        match node {
          case Dict(m) =>
            var keys := m.Keys;
            while keys != {}
              invariant keys <= m.Keys
              invariant SplitDict(data, file, flat, stack, node, path, keys) && SameUpTo(start, flat, file)
              invariant StackWeight(stack) + WeightKeys(node, keys) < total
              decreases |keys|
            {
              var k :| k in keys;
              SplitKey(data, file, start, flat, stack, node, path, keys, k);
              WeightKeysSplit(node, keys, k);
              var newPath := path + [Key(k)];
              if k == WHOLE_KEY {
                Set(newPath, file, m[k]);
              } else {
                StackWeightPush(stack, (m[k], newPath));
                stack := stack + [(m[k], newPath)];
              }
              keys := keys - {k};
            }
            SplitDictEnd(data, file, flat, stack, node, path);
          case List(xs) =>
            for i := 0 to |xs|
              invariant SplitList(data, file, flat, stack, node, path, i) && SameUpTo(start, flat, file)
              invariant StackWeight(stack) + WeightItems(node, |xs| - i) < total
            {
              SplitItem(data, file, flat, stack, node, path, i);
              var item := xs[|xs| - 1 - i];
              ItemWeight(node, |xs| - 1 - i);
              StackWeightPush(stack, (item, path + [Index(i)]));
              stack := stack + [(item, path + [Index(i)])];
            }
            SplitListEnd(data, file, flat, stack, node, path);
          case Leaf(_) =>
            Set(path, file, node);
        }
      }
      SplitEnds(data, file, start, flat);
    }
  }

  // ----- flattening one file -----

  /** The stack entry `(t, path)` will contribute `v` at `p`. */
  predicate Gives(t: Json, path: Path, p: Path, v: Json) {
    path <= p && At(t, p[|path|..]) == Some(v)
  }

  ghost predicate Pending(stack: seq<(Json, Path)>, p: Path, v: Json) {
    exists i :: 0 <= i < |stack| && Gives(stack[i].0, stack[i].1, p, v)
  }

  /** What the entry for one key of a dict contributes. */
  predicate KeyGives(node: Json, path: Path, k: string, p: Path, v: Json)
    requires node.Dict? && k in node.m
  {
    if k == WHOLE_KEY then p == path + [Key(k)] && v == node.m[k]
    else Gives(node.m[k], path + [Key(k)], p, v)
  }

  predicate ItemGives(node: Json, path: Path, i: nat, p: Path, v: Json)
    requires node.List? && i < |node.xs|
  {
    Gives(node.xs[|node.xs| - 1 - i], path + [Index(i)], p, v)
  }

  lemma GivesStep(t: Json, path: Path, s: Step, p: Path, v: Json)
    ensures Gives(t, path + [s], p, v) <==>
            path <= p && |p| > |path| && p[|path|] == s && At(t, p[|path|..][1..]) == Some(v)
  {
    if path <= p && |p| > |path| && p[|path|] == s {
      assert p[..|path| + 1] == path + [s];
      assert p[|path|..][1..] == p[|path| + 1..];
    }
    if path + [s] <= p {
      assert path == (path + [s])[..|path|] == p[..|path|];
      assert p[|path|] == (path + [s])[|path|] == s;
      assert p[|path|..][1..] == p[|path| + 1..];
    }
  }

  lemma DictGives(node: Json, path: Path, p: Path, v: Json)
    requires node.Dict?
    ensures Gives(node, path, p, v) <==> exists k :: k in node.m && KeyGives(node, path, k, p, v)
  {
    forall k | k in node.m
      ensures KeyGives(node, path, k, p, v) ==> Gives(node, path, p, v)
    {
      GivesStep(node.m[k], path, Key(k), p, v);
      if p == path + [Key(k)] {
        assert p[|path|..] == [Key(k)];
      }
    }
    if Gives(node, path, p, v) {
      var rest := p[|path|..];
      var k := rest[0].k;
      GivesStep(node.m[k], path, Key(k), p, v);
      if k == WHOLE_KEY {
        assert p == path + rest && rest == [Key(k)];
      }
      assert KeyGives(node, path, k, p, v);
    }
  }

  lemma ListGives(node: Json, path: Path, p: Path, v: Json)
    requires node.List?
    ensures Gives(node, path, p, v) <==> exists i: nat :: i < |node.xs| && ItemGives(node, path, i, p, v)
  {
    forall i: nat | i < |node.xs|
      ensures ItemGives(node, path, i, p, v) ==> Gives(node, path, p, v)
    {
      GivesStep(node.xs[|node.xs| - 1 - i], path, Index(i), p, v);
    }
    if Gives(node, path, p, v) {
      var i := p[|path|..][0].i;
      GivesStep(node.xs[|node.xs| - 1 - i], path, Index(i), p, v);
      assert ItemGives(node, path, i, p, v);
    }
  }

  lemma PendingPush(stack: seq<(Json, Path)>, entry: (Json, Path), p: Path, v: Json)
    ensures Pending(stack + [entry], p, v) <==> Pending(stack, p, v) || Gives(entry.0, entry.1, p, v)
  {
    var s := stack + [entry];
    if Gives(entry.0, entry.1, p, v) {
      assert s[|stack|] == entry;
    }
    if Pending(stack, p, v) {
      var i :| 0 <= i < |stack| && Gives(stack[i].0, stack[i].1, p, v);
      assert s[i] == stack[i];
    }
  }

  // ----- termination: nodes still to be visited -----

  ghost function Weight(t: Json): nat
    decreases t, 2
  {
    match t
    case Leaf(_) => 1
    case Dict(m) => 1 + WeightKeys(t, m.Keys)
    case List(xs) => 1 + WeightItems(t, |xs|)
  }

  ghost function WeightKeys(t: Json, keys: set<string>): nat
    requires t.Dict? && keys <= t.m.Keys
    decreases t, 1, |keys|
  {
    if keys == {} then 0
    else
      var k :| k in keys;
      Weight(t.m[k]) + WeightKeys(t, keys - {k})
  }

  /** The first `n` items, which are pushed last. */
  ghost function WeightItems(t: Json, n: nat): nat
    requires t.List? && n <= |t.xs|
    decreases t, 1, n
  {
    if n == 0 then 0 else Weight(t.xs[n - 1]) + WeightItems(t, n - 1)
  }

  lemma {:induction false} WeightKeysSplit(t: Json, keys: set<string>, k: string)
    requires t.Dict? && keys <= t.m.Keys && k in keys
    ensures WeightKeys(t, keys) == Weight(t.m[k]) + WeightKeys(t, keys - {k})
    decreases |keys|
  {
    hide Weight;
    var j :| j in keys && WeightKeys(t, keys) == Weight(t.m[j]) + WeightKeys(t, keys - {j});
    if j != k {
      WeightKeysSplit(t, keys - {j}, k);
      WeightKeysSplit(t, keys - {k}, j);
      assert keys - {j} - {k} == keys - {k} - {j};
    }
  }

  ghost function StackWeight(stack: seq<(Json, Path)>): nat {
    if stack == [] then 0 else StackWeight(Front(stack)) + Weight(Last(stack).0)
  }

  lemma StackWeightPush(stack: seq<(Json, Path)>, entry: (Json, Path))
    ensures StackWeight(stack + [entry]) == StackWeight(stack) + Weight(entry.0)
  {
    hide Weight;
    assert Front(stack + [entry]) == stack;
  }

  // ----- the flatten loop -----

  /** Entries of other files are left alone. */
  ghost predicate OthersKept(old': FlatTable, new': FlatTable, file: string) {
    && (forall p, g | p in old' && g in old'[p] && g != file :: p in new' && g in new'[p] && new'[p][g] == old'[p][g])
    && (forall p, g | p in new' && g in new'[p] && g != file :: p in old' && g in old'[p])
  }

  /** No path is in the table without a value. */
  ghost predicate NoEmptyRow(flat: FlatTable) {
    forall p | p in flat :: flat[p] != map[]
  }

  /** Between two turns of the loop: the table's entries for `file` and what the stack still gives
      are together exactly what the tree contributes. */
  ghost predicate Split(data: Json, file: string, flat: FlatTable, stack: seq<(Json, Path)>) {
    forall p: Path, v: Json ::
      HasEntry(flat, p, file, v) || Pending(stack, p, v) <==> At(data, p) == Some(v)
  }

  /** The same inside a dict, whose keys `keys` are still to be handled. */
  ghost predicate SplitDict(data: Json, file: string, flat: FlatTable, stack: seq<(Json, Path)>,
                            node: Json, path: Path, keys: set<string>)
    requires node.Dict? && keys <= node.m.Keys
  {
    forall p: Path, v: Json ::
      HasEntry(flat, p, file, v) || Pending(stack, p, v) || (exists k :: k in keys && KeyGives(node, path, k, p, v))
      <==> At(data, p) == Some(v)
  }

  /** The same inside a list, whose items from index `i` (of the reversed list) are still to come. */
  ghost predicate SplitList(data: Json, file: string, flat: FlatTable, stack: seq<(Json, Path)>,
                            node: Json, path: Path, i: nat)
    requires node.List? && i <= |node.xs|
  {
    forall p: Path, v: Json ::
      HasEntry(flat, p, file, v) || Pending(stack, p, v) ||
      (exists j: nat :: i <= j < |node.xs| && ItemGives(node, path, j, p, v))
      <==> At(data, p) == Some(v)
  }

  ghost predicate SameUpTo(start: FlatTable, flat: FlatTable, file: string) {
    OthersKept(start, flat, file) && NoEmptyRow(flat)
  }

  lemma PutEntry(start: FlatTable, flat: FlatTable, file: string, p: Path, v: Json)
    requires SameUpTo(start, flat, file)
    requires forall w :: HasEntry(flat, p, file, w) ==> w == v
    ensures SameUpTo(start, Put(flat, p, file, v), file)
    ensures forall q: Path, w :: HasEntry(Put(flat, p, file, v), q, file, w) <==>
                                 HasEntry(flat, q, file, w) || (q == p && w == v)
  {
    var next := Put(flat, p, file, v);
    assert file in next[p];
  }

  lemma PendingPop(stack: seq<(Json, Path)>, p: Path, v: Json)
    requires stack != []
    ensures Pending(stack, p, v) <==> Pending(Front(stack), p, v) || Gives(Last(stack).0, Last(stack).1, p, v)
  {
    hide Gives, Pending;
    assert stack == Front(stack) + [Last(stack)];
    PendingPush(Front(stack), Last(stack), p, v);
  }

  lemma SplitPop(data: Json, file: string, flat: FlatTable, stack: seq<(Json, Path)>)
    requires Split(data, file, flat, stack) && stack != []
    ensures var (node, path) := Last(stack);
            && (node.Dict? ==> SplitDict(data, file, flat, Front(stack), node, path, node.m.Keys))
            && (node.List? ==> SplitList(data, file, flat, Front(stack), node, path, 0))
  {
    hide Gives, Pending, KeyGives, ItemGives, HasEntry, At;
    var (node, path) := Last(stack);
    forall p: Path, v: Json
      ensures Pending(stack, p, v) <==> Pending(Front(stack), p, v) || Gives(node, path, p, v)
      ensures node.Dict? ==> (Gives(node, path, p, v) <==>
                exists k :: k in node.m.Keys && KeyGives(node, path, k, p, v))
      ensures node.List? ==> (Gives(node, path, p, v) <==>
                exists j: nat :: 0 <= j < |node.xs| && ItemGives(node, path, j, p, v))
    {
      PendingPop(stack, p, v);
      if node.Dict? { DictGives(node, path, p, v); }
      if node.List? { ListGives(node, path, p, v); }
    }
  }

  /** A scalar on top of the stack is written to the table. */
  lemma SplitLeaf(data: Json, file: string, start: FlatTable, flat: FlatTable, stack: seq<(Json, Path)>)
    requires Split(data, file, flat, stack) && stack != [] && Last(stack).0.Leaf? && SameUpTo(start, flat, file)
    ensures var next := Put(flat, Last(stack).1, file, Last(stack).0);
            Split(data, file, next, Front(stack)) && SameUpTo(start, next, file)
  {
    var (node, path) := Last(stack);
    forall p: Path, v: Json
      ensures Pending(stack, p, v) <==> Pending(Front(stack), p, v) || (p == path && v == node)
    {
      PendingPop(stack, p, v);
      if path <= p && p[|path|..] == [] {
        assert p == path;
      }
    }
    assert Pending(stack, path, node);
    hide Pending, Put, HasEntry, At, SameUpTo;
    PutEntry(start, flat, file, path, node);
  }

  lemma SplitKey(data: Json, file: string, start: FlatTable, flat: FlatTable, stack: seq<(Json, Path)>,
                 node: Json, path: Path, keys: set<string>, k: string)
    requires node.Dict? && keys <= node.m.Keys && k in keys
    requires SplitDict(data, file, flat, stack, node, path, keys) && SameUpTo(start, flat, file)
    ensures if k == WHOLE_KEY then
              var next := Put(flat, path + [Key(k)], file, node.m[k]);
              SplitDict(data, file, next, stack, node, path, keys - {k}) && SameUpTo(start, next, file)
            else
              SplitDict(data, file, flat, stack + [(node.m[k], path + [Key(k)])], node, path, keys - {k})
  {
    hide Pending, Put, HasEntry, At, SameUpTo, Gives;
    var child := path + [Key(k)];
    if k == WHOLE_KEY {
      assert KeyGives(node, path, k, child, node.m[k]);
      assert At(data, child) == Some(node.m[k]);
      forall w | HasEntry(flat, child, file, w)
        ensures w == node.m[k]
      {
        assert At(data, child) == Some(w);
      }
      PutEntry(start, flat, file, child, node.m[k]);
    } else {
      forall p: Path, v: Json
        ensures Pending(stack + [(node.m[k], child)], p, v) <==> Pending(stack, p, v) || KeyGives(node, path, k, p, v)
      {
        PendingPush(stack, (node.m[k], child), p, v);
      }
    }
  }

  lemma SplitItem(data: Json, file: string, flat: FlatTable, stack: seq<(Json, Path)>, node: Json, path: Path, i: nat)
    requires node.List? && i < |node.xs|
    requires SplitList(data, file, flat, stack, node, path, i)
    ensures SplitList(data, file, flat, stack + [(node.xs[|node.xs| - 1 - i], path + [Index(i)])], node, path, i + 1)
  {
    hide Pending, HasEntry, At, Gives;
    var entry := (node.xs[|node.xs| - 1 - i], path + [Index(i)]);
    forall p: Path, v: Json
      ensures Pending(stack + [entry], p, v) <==> Pending(stack, p, v) || ItemGives(node, path, i, p, v)
    {
      PendingPush(stack, entry, p, v);
    }
  }

  lemma SplitStarts(data: Json, file: string, flat: FlatTable)
    requires forall p | p in flat :: file !in flat[p]
    ensures Split(data, file, flat, [(data, [])])
  {
    forall p: Path, v: Json
      ensures Pending([(data, [])], p, v) <==> At(data, p) == Some(v)
    {
      var none: seq<(Json, Path)> := [];
      PendingPush(none, (data, []), p, v);
      assert none + [(data, [])] == [(data, [])] && p[0..] == p;
    }
  }

  lemma SplitDictEnd(data: Json, file: string, flat: FlatTable, stack: seq<(Json, Path)>, node: Json, path: Path)
    requires node.Dict? && SplitDict(data, file, flat, stack, node, path, {})
    ensures Split(data, file, flat, stack)
  {
  }

  lemma SplitListEnd(data: Json, file: string, flat: FlatTable, stack: seq<(Json, Path)>, node: Json, path: Path)
    requires node.List? && SplitList(data, file, flat, stack, node, path, |node.xs|)
    ensures Split(data, file, flat, stack)
  {
  }

  lemma SameStart(flat: FlatTable, file: string)
    requires NoEmptyRow(flat)
    ensures SameUpTo(flat, flat, file)
  {
  }

  lemma PopWeight(stack: seq<(Json, Path)>)
    requires stack != []
    ensures StackWeight(stack) > StackWeight(Front(stack))
    ensures var node := Last(stack).0;
            && (node.Dict? ==> StackWeight(Front(stack)) + WeightKeys(node, node.m.Keys) < StackWeight(stack))
            && (node.List? ==> StackWeight(Front(stack)) + WeightItems(node, |node.xs|) < StackWeight(stack))
  {
    hide WeightKeys, WeightItems;
  }

  lemma ItemWeight(node: Json, n: nat)
    requires node.List? && n < |node.xs|
    ensures WeightItems(node, n + 1) == Weight(node.xs[n]) + WeightItems(node, n)
  {
    hide Weight;
  }

  lemma SplitEnds(data: Json, file: string, start: FlatTable, flat: FlatTable)
    requires Split(data, file, flat, []) && SameUpTo(start, flat, file)
    ensures OthersKept(start, flat, file) && NoEmptyRow(flat)
    ensures forall p: Path, v: Json :: HasEntry(flat, p, file, v) <==> At(data, p) == Some(v)
  {
  }

  // ----- which nodes become entries -----

  /** The node of a tree at a path: keys of dicts, and list items counted from the end. */
  function NodeAt(t: Json, p: Path): Option<Json>
    decreases |p|
  {
    if p == [] then Some(t)
    else
      match p[0]
      case Key(k) => if t.Dict? && k in t.m then NodeAt(t.m[k], p[1..]) else None
      case Index(i) => if t.List? && i < |t.xs| then NodeAt(t.xs[|t.xs| - 1 - i], p[1..]) else None
  }

  /** A node is an entry if and only if it is a scalar or the value under the device-id key, and is not itself
      a part of such a value: device ids are compared as a whole. */
  lemma {:induction false} EntryIff(t: Json, p: Path, v: Json)
    ensures At(t, p) == Some(v) <==>
            && NodeAt(t, p) == Some(v)
            && (forall i | 0 <= i < |p| - 1 :: p[i] != Key("npuDeviceIds"))
            && (v.Leaf? || (p != [] && p[|p| - 1] == Key("npuDeviceIds")))
    decreases |p|
  {
    if p != [] {
      var rest := p[1..];
      assert forall i | 0 <= i < |rest| :: rest[i] == p[i + 1];
      assert rest != [] ==> rest[|rest| - 1] == p[|p| - 1];
      if t.Dict? && p[0].Key? && p[0].k in t.m {
        EntryIff(t.m[p[0].k], rest, v);
        if rest == [] {
          assert p[|p| - 1] == p[0];
        } else {
          assert |p| > 1;
        }
      } else if t.List? && p[0].Index? && p[0].i < |t.xs| {
        EntryIff(t.xs[|t.xs| - 1 - p[0].i], rest, v);
      }
    }
  }
}
