/** Which documents the comparator can tell apart: exactly those with different canonical forms,
    where a container that holds no scalar counts as absent. */
module Canonical {
  import opened PyValues
  import opened Json
  import opened Positions
  import opened Comparator

  /** The canonical form of a tree that contributes nothing. */
  const NOTHING := Dict(map[])

  /** Leading items that contribute nothing are invisible, because paths count from a list's end. */
  function Trim(ys: seq<Json>): seq<Json> {
    if ys == [] || ys[0] != NOTHING then ys else Trim(ys[1..])
  }

  function Canon(t: Json): Json
    decreases t, 1
  {
    match t
    case Leaf(_) => t
    case Dict(m) =>
      Dict(map k | k in m && (k == WHOLE_KEY || Canon(m[k]) != NOTHING) :: if k == WHOLE_KEY then m[k] else Canon(m[k]))
    case List(xs) =>
      var ys := Trim(CanonItems(xs));
      if ys == [] then NOTHING else List(ys)
  }

  function CanonItems(xs: seq<Json>): (ys: seq<Json>)
    ensures |ys| == |xs| && forall i | 0 <= i < |xs| :: ys[i] == Canon(xs[i])
    decreases xs, 0
  {
    if xs == [] then [] else [Canon(xs[0])] + CanonItems(xs[1..])
  }

  /** No dict or list without entries, except in a value that is compared whole. */
  predicate NoEmptyContainers(t: Json) {
    match t
    case Leaf(_) => true
    case Dict(m) => m != map[] && forall k | k in m && k != WHOLE_KEY :: NoEmptyContainers(m[k])
    case List(xs) => xs != [] && forall i | 0 <= i < |xs| :: NoEmptyContainers(xs[i])
  }

  lemma {:induction false} CanonOfFull(t: Json)
    requires NoEmptyContainers(t)
    ensures Canon(t) == t && t != NOTHING
  {
    match t {
      case Leaf(_) =>
      case Dict(m) =>
        forall k | k in m && k != WHOLE_KEY
          ensures Canon(m[k]) == m[k] && m[k] != NOTHING
        {
          CanonOfFull(m[k]);
        }
        assert Canon(t).m == m;
      case List(xs) =>
        forall i | 0 <= i < |xs|
          ensures Canon(xs[i]) == xs[i] && xs[i] != NOTHING
        {
          CanonOfFull(xs[i]);
        }
        assert CanonItems(xs) == xs;
    }
  }

  // ----- items counted from the end -----

  function FromEnd(ys: seq<Json>, i: nat): Json {
    if i < |ys| then ys[|ys| - 1 - i] else NOTHING
  }

  lemma {:induction false} TrimFromEnd(ys: seq<Json>)
    ensures forall i: nat :: FromEnd(Trim(ys), i) == FromEnd(ys, i)
    ensures Trim(ys) == [] || Trim(ys)[0] != NOTHING
    ensures |Trim(ys)| <= |ys|
  {
    if ys != [] && ys[0] == NOTHING {
      TrimFromEnd(ys[1..]);
    }
  }

  lemma TrimmedUnique(a: seq<Json>, b: seq<Json>)
    requires a == [] || a[0] != NOTHING
    requires b == [] || b[0] != NOTHING
    requires forall i: nat :: FromEnd(a, i) == FromEnd(b, i)
    ensures a == b
  {
    var n := if |a| > |b| then |a| else |b|;
    if n > 0 {
      assert FromEnd(a, n - 1) == FromEnd(b, n - 1);
    }
    assert |a| == |b|;
    forall j | 0 <= j < |a|
      ensures a[j] == b[j]
    {
      assert FromEnd(a, |a| - 1 - j) == FromEnd(b, |a| - 1 - j);
    }
  }

  // ----- contributions -----

  /** The two trees contribute the same to the flat table. */
  ghost predicate SameFlat(t: Json, u: Json) {
    forall p: Path :: At(t, p) == At(u, p)
  }

  lemma AtKey(m: map<string, Json>, k: string, p: Path)
    ensures At(Dict(m), [Key(k)] + p) ==
            if k !in m then None
            else if k == WHOLE_KEY then (if p == [] then Some(m[k]) else None)
            else At(m[k], p)
  {
    assert ([Key(k)] + p)[1..] == p;
  }

  lemma AtIndex(xs: seq<Json>, i: nat, p: Path)
    ensures At(List(xs), [Index(i)] + p) == if i < |xs| then At(xs[|xs| - 1 - i], p) else None
  {
    assert ([Index(i)] + p)[1..] == p;
  }

  /** A tree contributes nothing exactly when its canonical form is empty. */
  lemma {:induction false} NothingContributes(t: Json)
    ensures Canon(t) == NOTHING <==> forall p: Path :: At(t, p).None?
    decreases t
  {
    match t {
      case Leaf(_) => assert At(t, []).Some?;
      case Dict(m) => NothingInDict(m);
      case List(xs) => NothingInList(xs);
    }
  }

  lemma {:induction false} NothingInDict(m: map<string, Json>)
    ensures Canon(Dict(m)) == NOTHING <==> forall p: Path :: At(Dict(m), p).None?
    decreases Dict(m), 0
  {
    forall k | k in m && k != WHOLE_KEY
      ensures Canon(m[k]) == NOTHING <==> forall p: Path :: At(m[k], p).None?
    {
      NothingContributes(m[k]);
    }
    var c := Canon(Dict(m)).m;
    if c != map[] {
      var k :| k in c;
      if k == WHOLE_KEY {
        AtKey(m, k, []);
      } else {
        var p: Path :| At(m[k], p).Some?;
        AtKey(m, k, p);
      }
    } else {
      forall p: Path
        ensures At(Dict(m), p).None?
      {
        if p != [] && p[0].Key? && p[0].k in m {
          var k := p[0].k;
          assert k !in c;
          assert At(m[k], p[1..]).None?;
        }
      }
    }
  }

  lemma TrimToNothing(ys: seq<Json>)
    ensures Trim(ys) == [] <==> forall i | 0 <= i < |ys| :: ys[i] == NOTHING
  {
    TrimFromEnd(ys);
    forall i | 0 <= i < |ys|
      ensures FromEnd(Trim(ys), |ys| - 1 - i) == ys[i]
    {
    }
    if Trim(ys) != [] {
      var j := |Trim(ys)| - 1;
      assert FromEnd(Trim(ys), j) == FromEnd(ys, j) == ys[|ys| - 1 - j];
    }
  }

  lemma ListCanon(xs: seq<Json>)
    ensures Canon(List(xs)) == NOTHING <==> forall i | 0 <= i < |xs| :: Canon(xs[i]) == NOTHING
  {
    TrimToNothing(CanonItems(xs));
  }

  lemma {:induction false} NothingInList(xs: seq<Json>)
    ensures Canon(List(xs)) == NOTHING <==> forall p: Path :: At(List(xs), p).None?
    decreases List(xs), 0
  {
    hide Canon;
    forall i | 0 <= i < |xs|
      ensures Canon(xs[i]) == NOTHING <==> forall p: Path :: At(xs[i], p).None?
    {
      NothingContributes(xs[i]);
    }
    ListCanon(xs);
    if i :| 0 <= i < |xs| && Canon(xs[i]) != NOTHING {
      var p: Path :| At(xs[i], p).Some?;
      AtIndex(xs, |xs| - 1 - i, p);
    } else {
      forall p: Path
        ensures At(List(xs), p).None?
      {
        if p != [] && p[0].Index? && p[0].i < |xs| {
          assert At(xs[|xs| - 1 - p[0].i], p[1..]).None?;
        }
      }
    }
  }

  /** Injectivity of the flatten, exactly: two trees have the same flat form if and only if they
      have the same canonical form. */
  lemma {:induction false} CanonDecides(t: Json, u: Json)
    ensures Canon(t) == Canon(u) <==> SameFlat(t, u)
    decreases t
  {
    if t.Leaf? || u.Leaf? {
      ScalarDecides(t, u);
    } else if t.Dict? && u.Dict? {
      forall k | k in t.m && k in u.m
        ensures Canon(t.m[k]) == Canon(u.m[k]) <==> SameFlat(t.m[k], u.m[k])
      {
        CanonDecides(t.m[k], u.m[k]);
      }
      DictDecides(t.m, u.m);
    } else if t.List? && u.List? {
      forall i, j | 0 <= i < |t.xs| && 0 <= j < |u.xs|
        ensures Canon(t.xs[i]) == Canon(u.xs[j]) <==> SameFlat(t.xs[i], u.xs[j])
      {
        CanonDecides(t.xs[i], u.xs[j]);
      }
      ListDecides(t.xs, u.xs);
    } else {
      MixedDecides(t, u);
    }
  }

  lemma KeyContribution(m: map<string, Json>, k: string)
    ensures k in Canon(Dict(m)).m <==> exists p: Path :: At(Dict(m), [Key(k)] + p).Some?
    ensures k in Canon(Dict(m)).m ==> k in m && Canon(Dict(m)).m[k] == if k == WHOLE_KEY then m[k] else Canon(m[k])
  {
    if k in m {
      NothingContributes(m[k]);
    }
    forall p: Path
      ensures At(Dict(m), [Key(k)] + p) ==
              if k !in m then None
              else if k == WHOLE_KEY then (if p == [] then Some(m[k]) else None)
              else At(m[k], p)
    {
      AtKey(m, k, p);
    }
    assert k in Canon(Dict(m)).m <==> k in m && (k == WHOLE_KEY || Canon(m[k]) != NOTHING);
    if p: Path :| At(Dict(m), [Key(k)] + p).Some? {
      AtKey(m, k, p);
      assert k in m && (k != WHOLE_KEY ==> At(m[k], p).Some?);
      assert k != WHOLE_KEY ==> Canon(m[k]) != NOTHING;
      assert k in Canon(Dict(m)).m;
    }
    if k in Canon(Dict(m)).m {
      if k == WHOLE_KEY {
        assert At(Dict(m), [Key(k)] + []).Some?;
      } else {
        var p: Path :| At(m[k], p).Some?;
        AtKey(m, k, p);
        assert At(Dict(m), [Key(k)] + p).Some?;
      }
    }
    assert k in Canon(Dict(m)).m ==> exists p: Path :: At(Dict(m), [Key(k)] + p).Some?;
  }

  lemma DictDecides(m: map<string, Json>, n: map<string, Json>)
    requires forall k | k in m && k in n :: Canon(m[k]) == Canon(n[k]) <==> SameFlat(m[k], n[k])
    ensures Canon(Dict(m)) == Canon(Dict(n)) <==> SameFlat(Dict(m), Dict(n))
  {
    var c, d := Canon(Dict(m)).m, Canon(Dict(n)).m;
    if c == d {
      forall p: Path
        ensures At(Dict(m), p) == At(Dict(n), p)
      {
        if p != [] && p[0].Key? {
          assert p == [p[0]] + p[1..];
          SameCanonSameKey(m, n, p[0].k, p[1..]);
        }
      }
    }
    if SameFlat(Dict(m), Dict(n)) {
      forall k
        ensures k in c <==> k in d
        ensures k in c ==> c[k] == d[k]
      {
        SameFlatSameKey(m, n, k);
      }
      assert c == d;
    }
  }

  lemma SameCanonSameKey(m: map<string, Json>, n: map<string, Json>, k: string, p: Path)
    requires forall k | k in m && k in n :: Canon(m[k]) == Canon(n[k]) <==> SameFlat(m[k], n[k])
    requires Canon(Dict(m)) == Canon(Dict(n))
    ensures At(Dict(m), [Key(k)] + p) == At(Dict(n), [Key(k)] + p)
  {
    hide Canon;
    KeyContribution(m, k);
    KeyContribution(n, k);
    AtKey(m, k, p);
    AtKey(n, k, p);
  }

  lemma SameFlatSameKey(m: map<string, Json>, n: map<string, Json>, k: string)
    requires forall k | k in m && k in n :: Canon(m[k]) == Canon(n[k]) <==> SameFlat(m[k], n[k])
    requires SameFlat(Dict(m), Dict(n))
    ensures var c, d := Canon(Dict(m)).m, Canon(Dict(n)).m; (k in c <==> k in d) && (k in c ==> c[k] == d[k])
  {
    hide Canon;
    KeyContribution(m, k);
    KeyContribution(n, k);
    if k in m && k in n {
      forall p: Path
        ensures k != WHOLE_KEY ==> At(m[k], p) == At(n[k], p)
        ensures k == WHOLE_KEY ==> m[k] == n[k]
      {
        AtKey(m, k, p);
        AtKey(n, k, p);
        AtKey(m, k, []);
        AtKey(n, k, []);
        assert At(Dict(m), [Key(k)] + p) == At(Dict(n), [Key(k)] + p);
        assert At(Dict(m), [Key(k)] + []) == At(Dict(n), [Key(k)] + []);
      }
    }
  }

  lemma ListDecides(xs: seq<Json>, us: seq<Json>)
    requires forall i, j | 0 <= i < |xs| && 0 <= j < |us| :: Canon(xs[i]) == Canon(us[j]) <==> SameFlat(xs[i], us[j])
    ensures Canon(List(xs)) == Canon(List(us)) <==> SameFlat(List(xs), List(us))
  {
    var ys, zs := CanonItems(xs), CanonItems(us);
    TrimFromEnd(ys);
    TrimFromEnd(zs);
    forall i: nat
      ensures FromEnd(ys, i) == FromEnd(zs, i) <==>
              forall p: Path :: At(List(xs), [Index(i)] + p) == At(List(us), [Index(i)] + p)
    {
      ItemDecides(xs, us, i);
    }
    if Trim(ys) == Trim(zs) {
      forall p: Path
        ensures At(List(xs), p) == At(List(us), p)
      {
        if p != [] && p[0].Index? {
          assert p == [p[0]] + p[1..];
          assert FromEnd(Trim(ys), p[0].i) == FromEnd(Trim(zs), p[0].i);
          assert FromEnd(ys, p[0].i) == FromEnd(zs, p[0].i);
        }
      }
    }
    if SameFlat(List(xs), List(us)) {
      forall i: nat
        ensures FromEnd(Trim(ys), i) == FromEnd(Trim(zs), i)
      {
        assert FromEnd(ys, i) == FromEnd(zs, i);
      }
      TrimmedUnique(Trim(ys), Trim(zs));
    }
  }

  /** The item that paths beginning with index `i` lead to, or nothing. */
  function ItemFromEnd(xs: seq<Json>, i: nat): Json {
    if i < |xs| then xs[|xs| - 1 - i] else NOTHING
  }

  lemma ItemContribution(xs: seq<Json>, i: nat, p: Path)
    ensures FromEnd(CanonItems(xs), i) == Canon(ItemFromEnd(xs, i))
    ensures At(List(xs), [Index(i)] + p) == At(ItemFromEnd(xs, i), p)
  {
    hide Canon, CanonItems, At;
    AtIndex(xs, i, p);
    EmptyIsNothing();
  }

  lemma ItemsDecide(xs: seq<Json>, us: seq<Json>, i: nat)
    requires forall i, j | 0 <= i < |xs| && 0 <= j < |us| :: Canon(xs[i]) == Canon(us[j]) <==> SameFlat(xs[i], us[j])
    ensures Canon(ItemFromEnd(xs, i)) == Canon(ItemFromEnd(us, i)) <==> SameFlat(ItemFromEnd(xs, i), ItemFromEnd(us, i))
  {
    hide Canon, SameFlat;
    if i >= |xs| || i >= |us| {
      NothingDecides(ItemFromEnd(xs, i), ItemFromEnd(us, i));
    }
  }

  lemma ItemDecides(xs: seq<Json>, us: seq<Json>, i: nat)
    requires forall i, j | 0 <= i < |xs| && 0 <= j < |us| :: Canon(xs[i]) == Canon(us[j]) <==> SameFlat(xs[i], us[j])
    ensures FromEnd(CanonItems(xs), i) == FromEnd(CanonItems(us), i) <==>
            forall p: Path :: At(List(xs), [Index(i)] + p) == At(List(us), [Index(i)] + p)
  {
    hide Canon, CanonItems, At, FromEnd, ItemFromEnd;
    ItemsDecide(xs, us, i);
    ItemContribution(xs, i, []);
    ItemContribution(us, i, []);
    forall p: Path
      ensures At(List(xs), [Index(i)] + p) == At(List(us), [Index(i)] + p) <==>
              At(ItemFromEnd(xs, i), p) == At(ItemFromEnd(us, i), p)
    {
      ItemContribution(xs, i, p);
      ItemContribution(us, i, p);
    }
  }

  lemma NothingDecides(x: Json, u: Json)
    requires x == NOTHING || u == NOTHING
    ensures Canon(x) == Canon(u) <==> SameFlat(x, u)
  {
    hide Canon;
    NothingContributes(x);
    NothingContributes(u);
    EmptyIsNothing();
    if Canon(x) == Canon(u) {
      forall p: Path
        ensures At(x, p) == At(u, p)
      {
        assert At(x, p) == None && At(u, p) == None;
      }
    }
    if SameFlat(x, u) {
      assert forall p: Path :: At(x, p).None?;
      assert forall p: Path :: At(u, p).None?;
    }
  }

  lemma EmptyIsNothing()
    ensures Canon(NOTHING) == NOTHING && forall p: Path :: At(NOTHING, p).None?
  {
  }

  lemma ScalarDecides(t: Json, u: Json)
    requires t.Leaf? || u.Leaf?
    ensures Canon(t) == Canon(u) <==> SameFlat(t, u)
  {
    assert t.Leaf? <==> At(t, []).Some?;
    assert u.Leaf? <==> At(u, []).Some?;
    if t == u {
      assert SameFlat(t, u);
    } else {
      assert At(t, []) != At(u, []);
    }
  }

  /** A dict and a list share no path. */
  lemma MixedDecides(t: Json, u: Json)
    requires (t.Dict? && u.List?) || (t.List? && u.Dict?)
    ensures Canon(t) == Canon(u) <==> SameFlat(t, u)
  {
    NothingContributes(t);
    NothingContributes(u);
    forall p: Path
      ensures At(t, p).None? || At(u, p).None?
    {
    }
    if Canon(t) == Canon(u) {
      assert Canon(t) == NOTHING;
      forall p: Path
        ensures At(t, p) == At(u, p)
      {
        assert At(t, p) == None && At(u, p) == None;
      }
    }
    if SameFlat(t, u) {
      assert forall p: Path :: At(t, p).None?;
      assert forall p: Path :: At(u, p).None?;
    }
  }
}
