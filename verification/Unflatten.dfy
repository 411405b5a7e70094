/** `Comparator._unflatten`: nested dicts built in place from a flat table of key paths. */
module Unflatten {
  import opened PyValues
  import opened Json
  import Comparator
  import Positions

  type Keys = seq<string>

  datatype Slot<V(!new)> = Val(v: V) | Sub(node: DictNode<V>)

  class DictNode<V(!new)> {
    var entries: map<string, Slot<V>>

    constructor ()
      ensures entries == map[]
    {
      entries := map[];
    }
  }

  /** The entries of every dict of the structure, by the dict's path. */
  type Contents<V(!new)> = map<Keys, map<string, Slot<V>>>

  ghost function ContentsOf<V(!new)>(dirs: map<Keys, DictNode<V>>): (c: Contents<V>)
    reads dirs.Values
    ensures c.Keys == dirs.Keys
  {
    map p | p in dirs :: dirs[p].entries
  }

  ghost predicate DirsDistinct<V(!new)>(dirs: map<Keys, DictNode<V>>) {
    forall p, q | p in dirs && q in dirs && p != q :: dirs[p] != dirs[q]
  }

  /** An entry that is a dict is the dict named by the longer path. */
  ghost predicate LinksDown<V(!new)>(dirs: map<Keys, DictNode<V>>, c: Contents<V>) {
    forall p, k | p in c && k in c[p] && c[p][k].Sub? :: p + [k] in dirs && dirs[p + [k]] == c[p][k].node
  }

  /** Every dict but the root is an entry of the one above it. */
  ghost predicate LinksUp<V(!new)>(c: Contents<V>) {
    forall p | p in c && p != [] :: Front(p) in c && Last(p) in c[Front(p)] && c[Front(p)][Last(p)].Sub?
  }

  /** `dirs` names every dict of the structure by its path, and no dict is reachable twice. */
  ghost predicate Shape<V(!new)>(dirs: map<Keys, DictNode<V>>, c: Contents<V>) {
    [] in dirs && c.Keys == dirs.Keys && DirsDistinct(dirs) && LinksDown(dirs, c) && LinksUp(c)
  }

  /** The value stored at a path. */
  ghost predicate Stored<V(!new)>(c: Contents<V>, p: Keys, v: V) {
    p != [] && Front(p) in c && Last(p) in c[Front(p)] && c[Front(p)][Last(p)] == Val(v)
  }

  ghost predicate PrefixFree<V(!new)>(flat: map<Keys, V>) {
    && [] !in flat
    && forall p, q | p in flat && q in flat && p <= q :: p == q
  }

  /** The dicts are exactly those on the way to some path of `paths`. */
  ghost predicate Ways(keys: set<Keys>, paths: set<Keys>) {
    && (forall p | p in keys :: p == [] || exists q :: q in paths && p < q)
    && (forall q, n: nat | q in paths && n < |q| :: q[..n] in keys)
  }

  /** The same while a further path is being followed down to depth `n`. */
  ghost predicate WaysDown(keys: set<Keys>, paths: set<Keys>, path: Keys, n: nat)
    requires n < |path|
  {
    && (forall p | p in keys :: p == [] || (exists q :: q in paths && p < q) || p < path)
    && (forall q, i: nat | q in paths && i < |q| :: q[..i] in keys)
    && (forall i: nat | i <= n :: path[..i] in keys)
  }

  /** The values stored are exactly those of `paths`. */
  ghost predicate Values<V(!new)>(c: Contents<V>, flat: map<Keys, V>, paths: set<Keys>)
    requires paths <= flat.Keys
  {
    forall p: Keys, v :: Stored(c, p, v) <==> p in paths && flat[p] == v
  }

  ghost predicate Holds<V(!new)>(c: Contents<V>, flat: map<Keys, V>, paths: set<Keys>)
    requires paths <= flat.Keys
  {
    Ways(c.Keys, paths) && Values(c, flat, paths)
  }

  ghost predicate Digging<V(!new)>(c: Contents<V>, flat: map<Keys, V>, paths: set<Keys>, path: Keys, n: nat)
    requires paths <= flat.Keys && n < |path|
  {
    WaysDown(c.Keys, paths, path, n) && Values(c, flat, paths)
  }

  // ----- what one write does -----

  lemma PathSplit(here: Keys, part: string)
    ensures Front(here + [part]) == here && Last(here + [part]) == part
    ensures forall p: Keys :: p != [] && Front(p) == here && Last(p) == part ==> p == here + [part]
  {
    forall p: Keys | p != [] && Front(p) == here && Last(p) == part
      ensures p == here + [part]
    {
      assert p == Front(p) + [Last(p)];
    }
  }

  lemma DirIsNew<V(!new)>(dirs: map<Keys, DictNode<V>>, c: Contents<V>, here: Keys, part: string)
    requires Shape(dirs, c) && here in c && part !in c[here]
    ensures here + [part] !in dirs
  {
    PathSplit(here, part);
  }

  lemma DistinctAdded<V(!new)>(dirs: map<Keys, DictNode<V>>, path: Keys, sub: DictNode<V>)
    requires DirsDistinct(dirs) && sub !in dirs.Values
    ensures DirsDistinct(dirs[path := sub])
  {
    forall p | p in dirs
      ensures dirs[p] != sub
    {
      assert dirs[p] in dirs.Values;
    }
  }

  lemma LinksAdded<V(!new)>(dirs: map<Keys, DictNode<V>>, c: Contents<V>, here: Keys, part: string, sub: DictNode<V>)
    requires c.Keys == dirs.Keys && LinksDown(dirs, c) && LinksUp(c)
    requires here in c && part !in c[here] && here + [part] !in dirs
    ensures var next: Contents<V> := c[here := c[here][part := Sub(sub)]][here + [part] := map[]];
            LinksDown(dirs[here + [part] := sub], next) && LinksUp(next)
  {
    PathSplit(here, part);
  }

  lemma DirAdded<V(!new)>(dirs: map<Keys, DictNode<V>>, c: Contents<V>, here: Keys, part: string, sub: DictNode<V>)
    requires Shape(dirs, c) && here in c && part !in c[here] && sub !in dirs.Values
    ensures Shape(dirs[here + [part] := sub], c[here := c[here][part := Sub(sub)]][here + [part] := map[]])
  {
    DirIsNew(dirs, c, here, part);
    hide DirsDistinct, LinksDown, LinksUp;
    DistinctAdded(dirs, here + [part], sub);
    LinksAdded(dirs, c, here, part, sub);
  }

  lemma NothingStored<V(!new)>(c: Contents<V>, here: Keys, part: string, sub: DictNode<V>)
    requires here in c && part !in c[here] && here + [part] !in c
    ensures var next := c[here := c[here][part := Sub(sub)]][here + [part] := map[]];
            forall p: Keys, v :: Stored(next, p, v) <==> Stored(c, p, v)
  {
    PathSplit(here, part);
  }

  lemma ValueAdded<V(!new)>(dirs: map<Keys, DictNode<V>>, c: Contents<V>, here: Keys, part: string, value: V)
    requires Shape(dirs, c) && here in c && part !in c[here]
    ensures var next := c[here := c[here][part := Val(value)]];
            && Shape(dirs, next)
            && forall p: Keys, v :: Stored(next, p, v) <==> Stored(c, p, v) || (p == here + [part] && v == value)
  {
    PathSplit(here, part);
  }

  lemma PrefixAt(path: Keys, i: nat)
    requires i < |path|
    ensures path[..i + 1] == path[..i] + [path[i]] && path[..i] < path && path[..i + 1] <= path
  {
  }

  // ----- the loops -----

  /** Writing one entry of one dict. */
  method Write<V(!new)>(node: DictNode<V>, part: string, slot: Slot<V>, ghost dirs: map<Keys, DictNode<V>>,
                           ghost here: Keys)
    requires here in dirs && dirs[here] == node && DirsDistinct(dirs)
    modifies node
    ensures ContentsOf(dirs) == old(ContentsOf(dirs))[here := old(node.entries)[part := slot]]
    ensures node.entries == old(node.entries)[part := slot]
  {
    node.entries := node.entries[part := slot];
  }

  lemma ContentsExtend<V(!new)>(dirs: map<Keys, DictNode<V>>, path: Keys, sub: DictNode<V>)
    requires path !in dirs && sub.entries == map[]
    ensures ContentsOf(dirs[path := sub]) == ContentsOf(dirs)[path := map[]]
  {
  }

  method MakeDir<V(!new)>(node: DictNode<V>, part: string, ghost dirs: map<Keys, DictNode<V>>, ghost here: Keys)
    returns (ghost next: map<Keys, DictNode<V>>)
    requires Shape(dirs, ContentsOf(dirs)) && here in dirs && dirs[here] == node && part !in node.entries
    modifies node
    ensures here + [part] !in dirs
    ensures here + [part] in next && fresh(next[here + [part]]) && next == dirs[here + [part] := next[here + [part]]]
    ensures Shape(next, ContentsOf(next)) && part in node.entries
    ensures forall p: Keys, v :: Stored(ContentsOf(next), p, v) <==> Stored(old(ContentsOf(dirs)), p, v)
  {
    ghost var before := ContentsOf(dirs);
    var sub := new DictNode<V>();
    DirIsNew(dirs, before, here, part);
    DirAdded(dirs, before, here, part, sub);
    NothingStored(before, here, part, sub);
    hide Stored, DirsDistinct, LinksDown, LinksUp;
    Write(node, part, Sub(sub), dirs, here);
    next := dirs[here + [part] := sub];
    ContentsExtend(dirs, here + [part], sub);
  }

  /** A proper prefix of the path being inserted is not the place of a value. */
  lemma NoValueOnTheWay<V(!new)>(dirs: map<Keys, DictNode<V>>, c: Contents<V>, flat: map<Keys, V>, paths: set<Keys>,
                                 path: Keys, n: nat)
    requires PrefixFree(flat) && paths <= flat.Keys && path in flat && path !in paths && n + 1 < |path|
    requires Shape(dirs, c) && Digging(c, flat, paths, path, n) && path[n] in c[path[..n]]
    ensures path[..n + 1] in c && c[path[..n]][path[n]] == Sub(dirs[path[..n + 1]])
  {
    var p := path[..n + 1];
    PrefixAt(path, n);
    assert p !in flat;
    assert Front(p) == path[..n] && Last(p) == path[n];
    var slot := c[path[..n]][path[n]];
    assert slot.Val? ==> Stored(c, p, slot.v);
  }

  lemma DigStep<V(!new)>(dirs: map<Keys, DictNode<V>>, c: Contents<V>, flat: map<Keys, V>, paths: set<Keys>,
                         path: Keys, n: nat)
    requires PrefixFree(flat) && paths <= flat.Keys && path in flat && path !in paths && n + 1 < |path|
    requires Shape(dirs, c) && Digging(c, flat, paths, path, n) && path[n] in c[path[..n]]
    ensures Digging(c, flat, paths, path, n + 1)
    ensures path[..n + 1] in c && c[path[..n]][path[n]] == Sub(dirs[path[..n + 1]])
  {
    NoValueOnTheWay(dirs, c, flat, paths, path, n);
    hide Shape, Stored, PrefixFree;
  }

  /** When the last dict has been reached, the last key is free in it. */
  lemma NothingThere<V(!new)>(dirs: map<Keys, DictNode<V>>, c: Contents<V>, flat: map<Keys, V>, paths: set<Keys>,
                                 path: Keys)
    requires PrefixFree(flat) && paths <= flat.Keys && path in flat && path !in paths
    requires Shape(dirs, c) && Digging(c, flat, paths, path, |path| - 1)
    ensures Front(path) in c && Last(path) !in c[Front(path)]
  {
    assert Front(path) == path[..|path| - 1];
    PathIsNoDir(c.Keys, flat, paths, path);
    hide WaysDown, PrefixFree;
    if Last(path) in c[Front(path)] {
      EntryIsValueOrDir(dirs, c, path);
    }
  }

  lemma PathIsNoDir<V(!new)>(keys: set<Keys>, flat: map<Keys, V>, paths: set<Keys>, path: Keys)
    requires PrefixFree(flat) && paths <= flat.Keys && path in flat && WaysDown(keys, paths, path, |path| - 1)
    ensures path !in keys && Front(path) in keys
  {
    assert Front(path) == path[..|path| - 1];
  }

  lemma EntryIsValueOrDir<V(!new)>(dirs: map<Keys, DictNode<V>>, c: Contents<V>, path: Keys)
    requires Shape(dirs, c) && path != [] && Front(path) in c && Last(path) in c[Front(path)]
    ensures path in c || exists v :: Stored(c, path, v)
  {
    hide DirsDistinct, LinksUp;
    assert path == Front(path) + [Last(path)];
    var slot := c[Front(path)][Last(path)];
    assert slot.Val? ==> Stored(c, path, slot.v);
    assert slot.Sub? ==> path in dirs;
  }

  lemma WaysEnd(keys: set<Keys>, paths: set<Keys>, path: Keys)
    requires path != [] && WaysDown(keys, paths, path, |path| - 1)
    ensures Ways(keys, paths + {path})
  {
  }

  lemma WaysStart(keys: set<Keys>, paths: set<Keys>, path: Keys)
    requires [] in keys && path != [] && Ways(keys, paths)
    ensures WaysDown(keys, paths, path, 0)
  {
    assert path[..0] == [];
  }

  lemma WaysMore(keys: set<Keys>, paths: set<Keys>, path: Keys, n: nat)
    requires n + 1 < |path| && WaysDown(keys, paths, path, n)
    ensures WaysDown(keys + {path[..n + 1]}, paths, path, n)
  {
    PrefixAt(path, n);
  }

  /** One step down: the dict is made if it is missing. */
  method Descend<V(!new)>(node: DictNode<V>, ghost dirs: map<Keys, DictNode<V>>, ghost flat: map<Keys, V>,
                          ghost paths: set<Keys>, path: Keys, i: nat)
    returns (child: DictNode<V>, ghost next: map<Keys, DictNode<V>>)
    requires PrefixFree(flat) && paths <= flat.Keys && path in flat && path !in paths && i + 1 < |path|
    requires Shape(dirs, ContentsOf(dirs)) && Digging(ContentsOf(dirs), flat, paths, path, i)
    requires path[..i] in dirs && node == dirs[path[..i]]
    modifies node
    ensures forall p | p in next :: (p in dirs && next[p] == dirs[p]) || fresh(next[p])
    ensures forall p | p in dirs :: p in next && next[p] == dirs[p]
    ensures Shape(next, ContentsOf(next)) && Digging(ContentsOf(next), flat, paths, path, i + 1)
    ensures path[..i + 1] in next && child == next[path[..i + 1]]
  {
    hide Shape, Stored, PrefixFree, WaysDown;
    var part := path[i];
    next := dirs;
    PrefixAt(path, i);
    if part !in node.entries {
      next := MakeDir(node, part, dirs, path[..i]);
      WaysMore(dirs.Keys, paths, path, i);
      assert next.Keys == dirs.Keys + {path[..i + 1]};
    }
    DigStep(next, ContentsOf(next), flat, paths, path, i);
    child := node.entries[part].node;
  }

  /** One entry: the walk down from the root makes the dicts that are missing, and the value is
      stored under the last key. */
  method Insert<V(!new)>(root: DictNode<V>, path: Keys, value: V,
                         ghost dirs: map<Keys, DictNode<V>>, ghost flat: map<Keys, V>, ghost paths: set<Keys>)
    returns (ghost next: map<Keys, DictNode<V>>)
    requires PrefixFree(flat) && paths <= flat.Keys && path in flat && path !in paths && flat[path] == value
    requires [] in dirs && dirs[[]] == root && Shape(dirs, ContentsOf(dirs)) && Holds(ContentsOf(dirs), flat, paths)
    modifies dirs.Values
    ensures forall p | p in next :: (p in dirs && next[p] == dirs[p]) || fresh(next[p])
    ensures [] in next && next[[]] == root && Shape(next, ContentsOf(next)) &&
            Holds(ContentsOf(next), flat, paths + {path})
  {
    hide Stored, Ways, WaysDown, DirsDistinct, LinksDown, LinksUp;
    var node := root;
    next := dirs;
    assert path != [];
    hide PrefixFree;
    WaysStart(dirs.Keys, paths, path);
    assert path[..0] == [];
    for i := 0 to |path| - 1
      invariant forall p | p in next :: (p in dirs && next[p] == dirs[p]) || fresh(next[p])
      invariant [] in next && next[[]] == root && Shape(next, ContentsOf(next))
      invariant Digging(ContentsOf(next), flat, paths, path, i)
      invariant path[..i] in next && node == next[path[..i]]
    {
      node, next := Descend(node, next, flat, paths, path, i);
    }
    LastWritten(next, ContentsOf(next), flat, paths, path);
    assert Front(path) == path[..|path| - 1];
    Write(node, path[|path| - 1], Val(value), next, Front(path));
  }

  /** What writing the value under the last key makes of the structure. */
  lemma LastWritten<V(!new)>(dirs: map<Keys, DictNode<V>>, c: Contents<V>, flat: map<Keys, V>, paths: set<Keys>,
                                 path: Keys)
    requires PrefixFree(flat) && paths <= flat.Keys && path in flat && path !in paths
    requires Shape(dirs, c) && Digging(c, flat, paths, path, |path| - 1)
    ensures path != [] && Front(path) in c
    ensures var next := c[Front(path) := c[Front(path)][Last(path) := Val(flat[path])]];
            Shape(dirs, next) && Holds(next, flat, paths + {path})
  {
    hide Stored, Ways, WaysDown, DirsDistinct, LinksDown, LinksUp;
    assert path == Front(path) + [Last(path)];
    NothingThere(dirs, c, flat, paths, path);
    ValueAdded(dirs, c, Front(path), Last(path), flat[path]);
    WaysEnd(dirs.Keys, paths, path);
  }

  lemma RootOnly<V(!new)>(root: DictNode<V>, flat: map<Keys, V>)
    requires root.entries == map[]
    ensures Shape(map[[] := root], ContentsOf(map[[] := root])) && Holds(ContentsOf(map[[] := root]), flat, {})
  {
  }

  /** Any table of key paths none of which begins another is turned into nested dicts that hold each
      value at its path, no other value, and no dict that is not on the way to one; the order of
      insertion does not matter. */
  method Unflatten<V(!new)>(flat: map<Keys, V>) returns (root: DictNode<V>, ghost dirs: map<Keys, DictNode<V>>)
    requires PrefixFree(flat)
    ensures fresh(root) && forall p | p in dirs :: fresh(dirs[p])
    ensures [] in dirs && dirs[[]] == root && Shape(dirs, ContentsOf(dirs))
    ensures Holds(ContentsOf(dirs), flat, flat.Keys)
  {
    hide Shape, Holds, PrefixFree;
    root := new DictNode<V>();
    dirs := map[[] := root];
    RootOnly(root, flat);
    var todo := flat.Keys;
    assert flat.Keys - todo == {};
    while todo != {}
      invariant todo <= flat.Keys
      invariant forall p | p in dirs :: fresh(dirs[p])
      invariant [] in dirs && dirs[[]] == root && Shape(dirs, ContentsOf(dirs))
      invariant Holds(ContentsOf(dirs), flat, flat.Keys - todo)
      decreases |todo|
    {
      var path :| path in todo;
      ghost var paths := flat.Keys - todo;
      dirs := Insert(root, path, flat[path], dirs, flat, paths);
      todo := todo - {path};
      assert flat.Keys - todo == paths + {path};
    }
    assert flat.Keys - todo == flat.Keys;
  }

  // ----- unflattening undoes flattening -----

  /** The heap structure under `p` is the tree `t`. */
  ghost predicate Represents(c: Contents<Json>, p: Keys, t: Json)
    requires t.Dict?
    decreases t
  {
    && p in c
    && c[p].Keys == t.m.Keys
    && forall k | k in t.m ::
         if t.m[k].Dict? then c[p][k].Sub? && Represents(c, p + [k], t.m[k])
         else c[p][k] == Val(t.m[k])
  }

  /** Dicts of dicts and scalars, none of them empty below the root. */
  predicate DictsOnly(t: Json) {
    t.Dict? && forall k | k in t.m ::
      t.m[k].Leaf? || (t.m[k].Dict? && t.m[k].m != map[] && DictsOnly(t.m[k]))
  }

  /** The scalar at a key path of a tree of dicts. */
  ghost predicate LeafAt(t: Json, p: Keys, v: Json) {
    if p == [] then t.Leaf? && v == t
    else t.Dict? && p[0] in t.m && LeafAt(t.m[p[0]], p[1..], v)
  }

  lemma {:induction false} SomeLeaf(t: Json) returns (p: Keys, v: Json)
    requires DictsOnly(t) && t.m != map[]
    ensures LeafAt(t, p, v) && p != []
  {
    var k :| k in t.m;
    if t.m[k].Leaf? {
      p, v := [k], t.m[k];
    } else {
      var q, w := SomeLeaf(t.m[k]);
      p, v := [k] + q, w;
      assert p[1..] == q;
    }
  }

  lemma {:induction false} LeafPathsPrefixFree(t: Json, p: Keys, v: Json, q: Keys, w: Json)
    requires LeafAt(t, p, v) && LeafAt(t, q, w) && p <= q
    ensures p == q && v == w
  {
    if p != [] {
      LeafPathsPrefixFree(t.m[p[0]], p[1..], v, q[1..], w);
      assert p == [p[0]] + p[1..] && q == [q[0]] + q[1..];
    }
  }

  /** The subtree found under `p` when the whole table holds the leaves of the whole tree. */
  ghost predicate Under(flat: map<Keys, Json>, p: Keys, t: Json) {
    forall q: Keys, v :: p + q in flat && flat[p + q] == v <==> LeafAt(t, q, v)
  }

  lemma UnderChild(flat: map<Keys, Json>, p: Keys, t: Json, k: string)
    requires t.Dict? && k in t.m && Under(flat, p, t)
    ensures Under(flat, p + [k], t.m[k])
  {
    forall q: Keys, v
      ensures p + [k] + q in flat && flat[p + [k] + q] == v <==> LeafAt(t.m[k], q, v)
    {
      assert p + [k] + q == p + ([k] + q) && ([k] + q)[1..] == q && ([k] + q)[0] == k;
      assert LeafAt(t, [k] + q, v) <==> LeafAt(t.m[k], q, v);
    }
  }

  lemma KeyIsThere(dirs: map<Keys, DictNode<Json>>, c: Contents<Json>, flat: map<Keys, Json>, p: Keys, t: Json,
                   k: string)
    requires Shape(dirs, c) && Holds(c, flat, flat.Keys) && p in c
    requires DictsOnly(t) && Under(flat, p, t) && k in t.m
    ensures k in c[p]
    ensures if t.m[k].Dict? then c[p][k].Sub? && p + [k] in c else c[p][k] == Val(t.m[k])
  {
    assert Front(p + [k]) == p && Last(p + [k]) == k;
    UnderChild(flat, p, t, k);
    if t.m[k].Leaf? {
      assert LeafAt(t.m[k], [], t.m[k]);
      assert p + [k] + [] == p + [k];
      assert Stored(c, p + [k], t.m[k]);
    } else {
      var q, v := SomeLeaf(t.m[k]);
      assert (p + [k] + q)[..|p| + 1] == p + [k];
    }
  }

  /** Every entry of a dict lies on the way to some path of the table. */
  lemma EntryLeadsSomewhere<V(!new)>(dirs: map<Keys, DictNode<V>>, c: Contents<V>, flat: map<Keys, V>, p: Keys,
                                         k: string) returns (q: Keys)
    requires Shape(dirs, c) && Holds(c, flat, flat.Keys) && p in c && k in c[p]
    ensures q in flat && p + [k] <= q
  {
    var slot := c[p][k];
    assert Front(p + [k]) == p && Last(p + [k]) == k;
    if slot.Val? {
      assert Stored(c, p + [k], slot.v);
      q := p + [k];
    } else {
      assert p + [k] in c;
      q :| q in flat && p + [k] < q;
    }
  }

  lemma NoOtherKey(dirs: map<Keys, DictNode<Json>>, c: Contents<Json>, flat: map<Keys, Json>, p: Keys, t: Json,
                   k: string)
    requires Shape(dirs, c) && Holds(c, flat, flat.Keys) && p in c && k in c[p]
    requires t.Dict? && Under(flat, p, t)
    ensures k in t.m
  {
    hide Shape, Holds;
    var q := EntryLeadsSomewhere(dirs, c, flat, p, k);
    var rest := q[|p|..];
    assert q[..|p| + 1] == p + [k];
    assert p == q[..|p|] && q == p + rest && rest[0] == q[|p|] == k;
    assert LeafAt(t, rest, flat[q]);
  }

  lemma {:induction false} Rebuilt(dirs: map<Keys, DictNode<Json>>, c: Contents<Json>, flat: map<Keys, Json>, p: Keys,
                                   t: Json)
    requires Shape(dirs, c) && Holds(c, flat, flat.Keys) && p in c
    requires DictsOnly(t) && Under(flat, p, t)
    ensures Represents(c, p, t)
    decreases t
  {
    forall k | k in t.m
      ensures k in c[p]
      ensures if t.m[k].Dict? then c[p][k].Sub? && Represents(c, p + [k], t.m[k])
              else c[p][k] == Val(t.m[k])
    {
      KeyIsThere(dirs, c, flat, p, t, k);
      if t.m[k].Dict? {
        UnderChild(flat, p, t, k);
        Rebuilt(dirs, c, flat, p + [k], t.m[k]);
      }
    }
    forall k | k in c[p]
      ensures k in t.m
    {
      NoOtherKey(dirs, c, flat, p, t, k);
    }
  }

  /** The table of a tree's leaves. */
  ghost predicate LeavesOf(t: Json, flat: map<Keys, Json>) {
    forall q: Keys, v :: q in flat && flat[q] == v <==> LeafAt(t, q, v)
  }

  lemma LeavesArePrefixFree(t: Json, flat: map<Keys, Json>)
    requires t.Dict? && LeavesOf(t, flat)
    ensures PrefixFree(flat)
  {
    forall p, q | p in flat && q in flat && p <= q
      ensures p == q
    {
      LeafPathsPrefixFree(t, p, flat[p], q, flat[q]);
    }
    assert [] in flat ==> LeafAt(t, [], flat[[]]);
  }

  /** Unflattening undoes flattening: from the leaves of a tree of non-empty dicts, the nested dicts
      that are built represent that tree. */
  lemma UnflattenRebuilds(t: Json, flat: map<Keys, Json>, dirs: map<Keys, DictNode<Json>>, c: Contents<Json>)
    requires DictsOnly(t) && LeavesOf(t, flat)
    requires Shape(dirs, c) && Holds(c, flat, flat.Keys)
    ensures Represents(c, [], t)
  {
    hide Holds, DictsOnly, Represents;
    forall q: Keys, v
      ensures [] + q in flat && flat[[] + q] == v <==> LeafAt(t, q, v)
    {
      assert [] + q == q;
    }
    Rebuilt(dirs, c, flat, [], t);
  }

  // ----- the leaves are what the comparator's flatten writes -----

  function KeyPath(p: Keys): (r: Comparator.Path)
    ensures |r| == |p| && forall i | 0 <= i < |p| :: r[i] == Positions.Key(p[i])
  {
    if p == [] then [] else [Positions.Key(p[0])] + KeyPath(p[1..])
  }

  predicate NoWholeKey(t: Json) {
    t.Dict? ==> Comparator.WHOLE_KEY !in t.m && forall k | k in t.m :: NoWholeKey(t.m[k])
  }

  /** On a tree of dicts the flatten writes exactly the leaves, under their key paths. */
  lemma {:induction false} FlattenWritesLeaves(t: Json, p: Keys, v: Json)
    requires (t.Leaf? || DictsOnly(t)) && NoWholeKey(t)
    ensures Comparator.At(t, KeyPath(p)) == Some(v) <==> LeafAt(t, p, v)
    decreases |p|
  {
    if p != [] {
      assert KeyPath(p)[1..] == KeyPath(p[1..]);
      if t.Dict? && p[0] in t.m {
        FlattenWritesLeaves(t.m[p[0]], p[1..], v);
      }
    }
  }
}
