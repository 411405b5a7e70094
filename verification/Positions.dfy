/** Positions in a document, the path strings they are rendered as, and the frontier of a
    breadth-first walk over them. */
module Positions {
  import opened PyValues
  import opened Text
  import opened Json

  datatype Step = Key(k: string) | Index(i: nat)

  type Position = seq<Step>

  function Child(t: Json, s: Step): Option<Json> {
    match s
    case Key(k) => if t.Dict? && k in t.m then Some(t.m[k]) else None
    case Index(i) => if t.List? && i < |t.xs| then Some(t.xs[i]) else None
  }

  /** Structural lookup: what the document holds at a position. */
  function Find(t: Json, p: Position): Option<Json>
    decreases |p|
  {
    if p == [] then Some(t)
    else
      match Find(t, Front(p))
      case None => None
      case Some(n) => Child(n, Last(p))
  }

  lemma FindChild(t: Json, p: Position, s: Step)
    ensures Find(t, p + [s]) == match Find(t, p) case None => None case Some(n) => Child(n, s)
  {
    assert Front(p + [s]) == p;
  }

  lemma {:induction false} FindFront(t: Json, s: Step, p: Position)
    ensures Find(t, [s] + p) == match Child(t, s) case None => None case Some(n) => Find(n, p)
    decreases |p|
  {
    if p == [] {
      assert [s] + p == [] + [s];
      FindChild(t, [], s);
    } else {
      assert Front([s] + p) == [s] + Front(p) && Last([s] + p) == Last(p);
      FindFront(t, s, Front(p));
    }
  }

  lemma {:induction false} FindPrefix(t: Json, p: Position, q: Position)
    requires p <= q && Find(t, q).Some?
    ensures Find(t, p).Some?
    decreases |q|
  {
    if p != q {
      assert p <= Front(q);
      FindPrefix(t, p, Front(q));
    }
  }

  /** All positions of a document. */
  ghost function AllPositions(t: Json): set<Position>
    decreases t
  {
    match t
    case Leaf(_) => {[]}
    case Dict(m) => {[]} + set k, p | k in m && p in AllPositions(m[k]) :: [Key(k)] + p
    case List(xs) => {[]} + set i: nat, p | i < |xs| && p in AllPositions(xs[i]) :: [Index(i)] + p
  }

  lemma {:induction false} AllPositionsComplete(t: Json, p: Position)
    requires Find(t, p).Some?
    ensures p in AllPositions(t)
    decreases |p|
  {
    if p != [] {
      assert p == [p[0]] + p[1..];
      FindFront(t, p[0], p[1..]);
      AllPositionsComplete(Child(t, p[0]).value, p[1..]);
    }
  }

  // ----- rendering -----

  /** The path of a child, as both walks build it. */
  function Extend(path: string, s: Step): string {
    match s
    case Key(k) => if path == "" then k else path + "." + k
    case Index(i) => path + "[" + Decimal(i) + "]"
  }

  function Render(p: Position): string
    decreases |p|
  {
    if p == [] then "" else Extend(Render(Front(p)), Last(p))
  }

  predicate IsSep(c: char) {
    c == '.' || c == '['
  }

  predicate SepFree(s: string) {
    forall i | 0 <= i < |s| :: !IsSep(s[i])
  }

  /** A key whose rendering can be told apart: not empty, no dot, no bracket. */
  predicate GoodKey(k: string) {
    k != "" && SepFree(k)
  }

  predicate GoodStep(s: Step) {
    s.Key? ==> GoodKey(s.k)
  }

  predicate GoodSteps(p: Position) {
    forall i | 0 <= i < |p| :: GoodStep(p[i])
  }

  predicate GoodKeys(t: Json) {
    match t
    case Leaf(_) => true
    case Dict(m) => forall k | k in m :: GoodKey(k) && GoodKeys(m[k])
    case List(xs) => forall i | 0 <= i < |xs| :: GoodKeys(xs[i])
  }

  lemma {:induction false} GoodPosition(t: Json, p: Position)
    requires GoodKeys(t) && Find(t, p).Some?
    ensures GoodSteps(p) && GoodKeys(Find(t, p).value)
    decreases |p|
  {
    if p != [] {
      GoodPosition(t, Front(p));
      assert p == Front(p) + [Last(p)];
    }
  }

  lemma NoLaterSep(a: string, c: char, s: string)
    requires SepFree(s)
    ensures forall k | |a| < k < |a + [c] + s| :: !IsSep((a + [c] + s)[k])
  {
    forall k | |a| < k < |a + [c] + s|
      ensures !IsSep((a + [c] + s)[k])
    {
      assert (a + [c] + s)[k] == s[k - |a| - 1];
    }
  }

  lemma HasSep(a: string, c: char, s: string)
    requires IsSep(c)
    ensures !SepFree(a + [c] + s)
  {
    assert (a + [c] + s)[|a|] == c;
  }

  /** A string is cut at its last separator in only one way. */
  lemma LastCut(a: string, c: char, s: string, b: string, d: char, t: string)
    requires a + [c] + s == b + [d] + t
    requires IsSep(c) && IsSep(d) && SepFree(s) && SepFree(t)
    ensures a == b && c == d && s == t
  {
    var w := a + [c] + s;
    assert w[|a|] == c && w[|b|] == d;
    NoLaterSep(a, c, s);
    NoLaterSep(b, d, t);
    assert |a| == |b|;
    assert a == w[..|a|] == b;
    assert s == w[|a| + 1..] == t;
  }

  /** The rendering of a longer position, cut at its last separator. */
  function Tail(s: Step): string {
    match s
    case Key(k) => k
    case Index(i) => Decimal(i) + "]"
  }

  lemma TailSepFree(s: Step)
    requires GoodStep(s)
    ensures SepFree(Tail(s)) && Tail(s) != ""
  {
  }

  lemma TailInjective(s: Step, t: Step)
    requires s.Key? == t.Key? && Tail(s) == Tail(t)
    ensures s == t
  {
    if s.Index? {
      assert Decimal(s.i) == Front(Tail(s)) && Decimal(t.i) == Front(Tail(t));
      DecimalInjective(s.i, t.i);
    }
  }

  function SepOf(s: Step): char {
    if s.Key? then '.' else '['
  }

  lemma ExtendShape(path: string, s: Step)
    requires GoodStep(s)
    ensures Extend(path, s) != ""
    ensures path != "" || s.Index? ==> Extend(path, s) == path + [SepOf(s)] + Tail(s)
    ensures path == "" && s.Key? ==> Extend(path, s) == Tail(s) && SepFree(Tail(s))
  {
    hide Decimal;
    TailSepFree(s);
  }

  lemma ExtendInjective(a: string, s: Step, b: string, t: Step)
    requires GoodStep(s) && GoodStep(t) && Extend(a, s) == Extend(b, t)
    ensures a == b && s == t
  {
    hide Extend, Tail, GoodStep;
    ExtendShape(a, s);
    ExtendShape(b, t);
    TailSepFree(s);
    TailSepFree(t);
    var x, y := a == "" && s.Key?, b == "" && t.Key?;
    if !x && !y {
      LastCut(a, SepOf(s), Tail(s), b, SepOf(t), Tail(t));
    } else if x && !y {
      HasSep(b, SepOf(t), Tail(t));
    } else if !x && y {
      HasSep(a, SepOf(s), Tail(s));
    }
    TailInjective(s, t);
  }

  lemma RenderNonEmpty(p: Position)
    requires p != [] && (Last(p).Key? ==> Last(p).k != "")
    ensures Render(p) != ""
  {
  }

  /** With good keys, different positions have different paths. */
  lemma {:induction false} RenderInjective(p: Position, q: Position)
    requires GoodSteps(p) && GoodSteps(q) && Render(p) == Render(q)
    ensures p == q
    decreases |p|
  {
    if p == [] || q == [] {
      if p != [] { RenderNonEmpty(p); }
      if q != [] { RenderNonEmpty(q); }
    } else {
      ExtendInjective(Render(Front(p)), Last(p), Render(Front(q)), Last(q));
      RenderInjective(Front(p), Front(q));
      assert p == Front(p) + [Last(p)] && q == Front(q) + [Last(q)];
    }
  }

  // ----- the frontier of a breadth-first walk -----

  ghost predicate Behind(queue: seq<Position>, p: Position) {
    exists i :: 0 <= i < |queue| && queue[i] <= p
  }

  /** No position is queued twice, below another queued position, or above one already handled. */
  ghost predicate Frontier(done: set<Position>, queue: seq<Position>) {
    && (forall i, j | 0 <= i < |queue| && 0 <= j < |queue| && i != j :: !(queue[i] <= queue[j]))
    && (forall d, i | d in done && 0 <= i < |queue| :: !(queue[i] <= d))
  }

  ghost function Below(p: Position, steps: seq<Step>): (r: seq<Position>)
    ensures |r| == |steps| && forall i | 0 <= i < |r| :: r[i] == p + [steps[i]]
  {
    seq(|steps|, i requires 0 <= i < |steps| => p + [steps[i]])
  }

  predicate Distinct<T(==)>(s: seq<T>) {
    forall i, j | 0 <= i < j < |s| :: s[i] != s[j]
  }

  lemma PrefixOfChild(r: Position, p: Position, s: Step)
    ensures r <= p + [s] <==> r <= p || r == p + [s]
  {
    if r <= p + [s] && |r| <= |p| {
      assert r == (p + [s])[..|r|] == p[..|r|];
    }
    if r <= p {
      assert r == p[..|r|] == (p + [s])[..|r|];
    }
  }

  lemma ChildPrefix(r: Position, p: Position, s: Step)
    ensures p + [s] <= r ==> p <= r
  {
    if p + [s] <= r {
      assert p == (p + [s])[..|p|] == r[..|p|];
    }
  }

  /** Taking the first position off the queue and queueing children of it keeps the frontier. */
  lemma FrontierStep(done: set<Position>, queue: seq<Position>, steps: seq<Step>)
    requires queue != [] && Frontier(done, queue) && Distinct(steps)
    ensures queue[0] !in done
    ensures Frontier(done + {queue[0]}, queue[1..] + Below(queue[0], steps))
  {
    var q := queue[0];
    assert q <= q;
    var kids := Below(q, steps);
    var next := queue[1..] + kids;
    forall i, j | 0 <= i < |next| && 0 <= j < |next| && i != j
      ensures !(next[i] <= next[j])
    {
      var n := |queue| - 1;
      if j >= n {
        PrefixOfChild(next[i], q, steps[j - n]);
        if i >= n {
          assert |next[i]| == |next[j]| && next[i][|q|] == steps[i - n] && next[j][|q|] == steps[j - n];
        } else {
          assert next[i] == queue[i + 1] && q <= next[j];
        }
      } else if i >= n {
        assert next[j] == queue[j + 1];
        ChildPrefix(next[j], q, steps[i - n]);
      }
    }
    forall d, i | d in done + {q} && 0 <= i < |next|
      ensures !(next[i] <= d)
    {
      var n := |queue| - 1;
      if i >= n {
        ChildPrefix(d, q, steps[i - n]);
      }
    }
  }

  /** Breadth first: the queue is in the order of depth and spans at most two depths, and nothing deeper than
      its head has been handled. */
  ghost predicate ByDepth(done: set<Position>, queue: seq<Position>) {
    && (forall i, j | 0 <= i <= j < |queue| :: |queue[i]| <= |queue[j]| <= |queue[0]| + 1)
    && (forall d | d in done && queue != [] :: |d| <= |queue[0]|)
  }

  lemma ByDepthStep(done: set<Position>, queue: seq<Position>, steps: seq<Step>)
    requires queue != [] && ByDepth(done, queue)
    ensures ByDepth(done + {queue[0]}, queue[1..] + Below(queue[0], steps))
  {
    var kids := Below(queue[0], steps);
    var n, next := |queue| - 1, queue[1..] + kids;
    forall i, j | 0 <= i <= j < |next|
      ensures |next[i]| <= |next[j]| <= |next[0]| + 1
    {
      assert next[0] == if n > 0 then queue[1] else kids[0];
      assert next[i] == if i < n then queue[i + 1] else kids[i - n];
      assert next[j] == if j < n then queue[j + 1] else kids[j - n];
    }
    if next != [] {
      assert next[0] == if n > 0 then queue[1] else kids[0];
    }
  }
}
