/** `Traverser.traverse`: a document flattened breadth-first into a map from path strings to nodes. */
module Traverser {
  import opened PyValues
  import opened Json
  import opened Positions

  /** The work queue both walks use: nodes with the paths they were reached by. */
  class Deque {
    var items: seq<(Json, string)>

    constructor (node: Json, path: string)
      ensures items == [(node, path)]
    {
      items := [(node, path)];
    }

    method Append(node: Json, path: string)
      modifies this
      ensures items == old(items) + [(node, path)]
    {
      items := items + [(node, path)];
    }

    method PopLeft() returns (r: (Json, string))
      requires items != []
      modifies this
      ensures r == old(items)[0] && items == old(items)[1..]
    {
      r := items[0];
      items := items[1..];
    }
  }

  /** The steps to a node's children, each once, in the order in which they were queued. */
  ghost predicate StepsOf(node: Json, steps: seq<Step>) {
    && Distinct(steps)
    && (forall i | 0 <= i < |steps| :: Child(node, steps[i]).Some?)
    && (forall s: Step | Child(node, s).Some? :: s in steps)
  }

  /** The queue entries for the children `steps` of `node`. */
  ghost predicate Entries(node: Json, path: string, steps: seq<Step>, entries: seq<(Json, string)>) {
    && |entries| == |steps|
    && forall i | 0 <= i < |steps| ::
         Child(node, steps[i]) == Some(entries[i].0) && entries[i].1 == Extend(path, steps[i])
  }

  lemma NoEntries(node: Json, path: string)
    ensures Entries(node, path, [], [])
  {
  }

  lemma EntriesPush(node: Json, path: string, steps: seq<Step>, kids: seq<(Json, string)>, s: Step, child: Json)
    requires Entries(node, path, steps, kids) && Child(node, s) == Some(child)
    ensures Entries(node, path, steps + [s], kids + [(child, Extend(path, s))])
    ensures Extend(path, s) ==
            match s
            case Key(k) => if path == "" then k else path + "." + k
            case Index(i) => if path == "" then "[" + Text.Decimal(i) + "]" else path + "[" + Text.Decimal(i) + "]"
  {
    hide Text.Decimal;
  }

  method TraverseDict(node: Json, path: string, queue: Deque) returns (ghost steps: seq<Step>)
    requires node.Dict?
    modifies queue
    ensures StepsOf(node, steps)
    ensures |queue.items| >= |old(queue.items)| && queue.items[..|old(queue.items)|] == old(queue.items)
    ensures Entries(node, path, steps, queue.items[|old(queue.items)|..])
  {
    hide Entries, Extend;
    var keys := node.m.Keys;
    steps := [];
    NoEntries(node, path);
    assert queue.items[|queue.items|..] == [];
    while keys != {}
      invariant keys <= node.m.Keys
      invariant forall k :: k in node.m && k !in keys <==> Key(k) in steps
      invariant forall i | 0 <= i < |steps| :: steps[i].Key? && steps[i].k in node.m
      invariant Distinct(steps)
      invariant |queue.items| == |old(queue.items)| + |steps|
      invariant queue.items[..|old(queue.items)|] == old(queue.items)
      invariant Entries(node, path, steps, queue.items[|old(queue.items)|..])
      decreases |keys|
    {
      var k :| k in keys;
      var newPath := if path == "" then k else path + "." + k;
      ghost var kids := queue.items[|old(queue.items)|..];
      EntriesPush(node, path, steps, kids, Key(k), node.m[k]);
      queue.Append(node.m[k], newPath);
      assert queue.items[|old(queue.items)|..] == kids + [(node.m[k], newPath)];
      keys := keys - {k};
      steps := steps + [Key(k)];
    }
  }

  method TraverseList(node: Json, path: string, queue: Deque) returns (ghost steps: seq<Step>)
    requires node.List?
    modifies queue
    ensures StepsOf(node, steps)
    ensures |queue.items| >= |old(queue.items)| && queue.items[..|old(queue.items)|] == old(queue.items)
    ensures Entries(node, path, steps, queue.items[|old(queue.items)|..])
  {
    hide Entries, Extend;
    steps := [];
    NoEntries(node, path);
    assert queue.items[|queue.items|..] == [];
    for i := 0 to |node.xs|
      invariant |steps| == i && forall j | 0 <= j < i :: steps[j] == Index(j)
      invariant |queue.items| == |old(queue.items)| + |steps|
      invariant queue.items[..|old(queue.items)|] == old(queue.items)
      invariant Entries(node, path, steps, queue.items[|old(queue.items)|..])
    {
      var newPath := if path == "" then "[" + Text.Decimal(i) + "]" else path + "[" + Text.Decimal(i) + "]";
      ghost var kids := queue.items[|old(queue.items)|..];
      EntriesPush(node, path, steps, kids, Index(i), node.xs[i]);
      queue.Append(node.xs[i], newPath);
      assert queue.items[|old(queue.items)|..] == kids + [(node.xs[i], newPath)];
      steps := steps + [Index(i)];
    }
    forall s: Step | Child(node, s).Some?
      ensures s in steps
    {
      assert steps[s.i] == s;
    }
  }

  /** Every stored path is the rendering of a position of the document, and the node stored there is
      the node at such a position. */
  ghost predicate OnlyPositions(data: Json, visited: map<string, Json>) {
    forall s | s in visited :: s != "" && exists p :: Render(p) == s && Find(data, p) == Some(visited[s])
  }

  /** Every position with a non-empty rendering is stored. */
  ghost predicate EveryPosition(data: Json, visited: map<string, Json>) {
    forall p: Position | Find(data, p).Some? && Render(p) != "" :: Render(p) in visited
  }

  /** Under each path the node of a deepest position with that path is stored: deeper nodes are visited later
      and overwrite. */
  ghost predicate DeepestStored(data: Json, visited: map<string, Json>) {
    forall s | s in visited ::
      exists p ::
        && Render(p) == s && Find(data, p) == Some(visited[s])
        && forall q | Find(data, q).Some? && Render(q) == s :: |q| <= |p|
  }

  /** The same for the positions handled so far. */
  ghost predicate LatestStored(data: Json, done: set<Position>, visited: map<string, Json>) {
    forall s | s in visited ::
      s != "" && exists p ::
        && Render(p) == s && Find(data, p) == Some(visited[s])
        && forall q | q in done && Render(q) == s :: |q| <= |p|
  }

  lemma LatestStoredStep(data: Json, done: set<Position>, at: seq<Position>, visited: map<string, Json>)
    requires at != [] && ByDepth(done, at) && LatestStored(data, done, visited) && Find(data, at[0]).Some?
    ensures LatestStored(data, done + {at[0]}, Store(visited, (Find(data, at[0]).value, Render(at[0]))))
  {
    hide Render, Find;
    var next := Store(visited, (Find(data, at[0]).value, Render(at[0])));
    forall s | s in next
      ensures s != "" && exists p ::
                && Render(p) == s && Find(data, p) == Some(next[s])
                && forall q | q in done + {at[0]} && Render(q) == s :: |q| <= |p|
    {
      if s == Render(at[0]) && s != "" {
        assert Find(data, at[0]) == Some(next[s]);
      } else {
        var p :| Render(p) == s && Find(data, p) == Some(visited[s]) &&
                 forall q | q in done && Render(q) == s :: |q| <= |p|;
        assert forall q | q in done + {at[0]} && Render(q) == s :: |q| <= |p|;
      }
    }
  }

  import Text

  /** Where the walk stands: `queue` entry `i` is the node at position `at[i]`, with its path. */
  ghost predicate QueueAt(data: Json, at: seq<Position>, queue: seq<(Json, string)>) {
    && |at| == |queue|
    && forall i | 0 <= i < |at| :: Find(data, at[i]) == Some(queue[i].0) && queue[i].1 == Render(at[i])
  }

  /** The work invariant of both walks: positions still to come lie behind the queue. */
  ghost predicate Covers(data: Json, done: set<Position>, at: seq<Position>) {
    forall p: Position | Find(data, p).Some? :: p in done || Behind(at, p)
  }

  lemma BehindSplit(data: Json, at: seq<Position>, steps: seq<Step>, p: Position)
    requires at != [] && Behind(at, p) && Find(data, p).Some? && Find(data, at[0]).Some?
    requires StepsOf(Find(data, at[0]).value, steps)
    ensures p == at[0] || Behind(at[1..] + Below(at[0], steps), p)
  {
    var i :| 0 <= i < |at| && at[i] <= p;
    var next := at[1..] + Below(at[0], steps);
    if i > 0 {
      assert next[i - 1] == at[i];
    } else if p != at[0] {
      var j := ChildOnTheWay(data, at[0], steps, p);
      assert next[|at| - 1 + j] == at[0] + [steps[j]];
    }
  }

  /** A position below `q` lies behind one of the children of `q`. */
  lemma ChildOnTheWay(data: Json, q: Position, steps: seq<Step>, p: Position) returns (j: nat)
    requires q <= p && q != p && Find(data, p).Some? && Find(data, q).Some?
    requires StepsOf(Find(data, q).value, steps)
    ensures j < |steps| && q + [steps[j]] <= p
  {
    var s := p[|q|];
    assert q + [s] <= p;
    FindPrefix(data, q + [s], p);
    FindChild(data, q, s);
    j :| 0 <= j < |steps| && steps[j] == s;
  }

  lemma CoversStep(data: Json, done: set<Position>, at: seq<Position>, steps: seq<Step>)
    requires at != [] && Covers(data, done, at) && Find(data, at[0]).Some?
    requires StepsOf(Find(data, at[0]).value, steps)
    ensures Covers(data, done + {at[0]}, at[1..] + Below(at[0], steps))
  {
    forall p: Position | Find(data, p).Some?
      ensures p in done + {at[0]} || Behind(at[1..] + Below(at[0], steps), p)
    {
      if p !in done {
        BehindSplit(data, at, steps, p);
      }
    }
  }

  lemma QueueStep(data: Json, at: seq<Position>, queue: seq<(Json, string)>, steps: seq<Step>, kids: seq<(Json,
                  string)>)
    requires at != [] && QueueAt(data, at, queue)
    requires Entries(queue[0].0, queue[0].1, steps, kids)
    ensures QueueAt(data, at[1..] + Below(at[0], steps), queue[1..] + kids)
  {
    hide Extend;
    var next, items := at[1..] + Below(at[0], steps), queue[1..] + kids;
    var n := |at| - 1;
    forall i | 0 <= i < |next|
      ensures Find(data, next[i]) == Some(items[i].0) && items[i].1 == Render(next[i])
    {
      if i >= n {
        FindChild(data, at[0], steps[i - n]);
        assert Front(next[i]) == at[0];
      } else {
        assert next[i] == at[i + 1] && items[i] == queue[i + 1];
      }
    }
  }

  lemma LeafHasNoSteps(node: Json)
    requires node.Leaf?
    ensures StepsOf(node, []) && forall path :: Entries(node, path, [], [])
  {
  }

  /** Everything that holds between two turns of the traversal loop. */
  ghost predicate Walking(data: Json, done: set<Position>, at: seq<Position>, queue: seq<(Json, string)>,
                          visited: map<string, Json>)
  {
    && QueueAt(data, at, queue)
    && Frontier(done, at) && Covers(data, done, at)
    && done <= AllPositions(data)
    && (forall p | p in done && Render(p) != "" :: Render(p) in visited)
    && OnlyPositions(data, visited)
    && ByDepth(done, at) && LatestStored(data, done, visited)
  }

  lemma WalkStarts(data: Json)
    ensures Walking(data, {}, [[]], [(data, "")], map[])
  {
    forall p: Position
      ensures Behind([[]], p)
    {
      assert [[]][0] <= p;
    }
  }

  function Store(visited: map<string, Json>, entry: (Json, string)): map<string, Json> {
    if entry.1 != "" then visited[entry.1 := entry.0] else visited
  }

  lemma WalkStep(data: Json, done: set<Position>, at: seq<Position>, queue: seq<(Json, string)>,
                 visited: map<string, Json>, steps: seq<Step>, kids: seq<(Json, string)>)
    requires Walking(data, done, at, queue, visited) && queue != []
    requires StepsOf(queue[0].0, steps) && Entries(queue[0].0, queue[0].1, steps, kids)
    ensures at != [] && at[0] in AllPositions(data) - done
    ensures Walking(data, done + {at[0]}, at[1..] + Below(at[0], steps), queue[1..] + kids, Store(visited, queue[0]))
  {
    hide Covers, Frontier, QueueAt, ByDepth, LatestStored;
    QueueHead(data, at, queue);
    QueueStep(data, at, queue, steps, kids);
    CoversStep(data, done, at, steps);
    FrontierStep(done, at, steps);
    ByDepthStep(done, at, steps);
    LatestStoredStep(data, done, at, visited);
    AllPositionsComplete(data, at[0]);
    StoreKeepsPositions(data, at[0], visited);
  }

  lemma QueueHead(data: Json, at: seq<Position>, queue: seq<(Json, string)>)
    requires QueueAt(data, at, queue) && queue != []
    ensures at != [] && Find(data, at[0]) == Some(queue[0].0) && queue[0].1 == Render(at[0])
  {
  }

  lemma StoreKeepsPositions(data: Json, p: Position, visited: map<string, Json>)
    requires OnlyPositions(data, visited) && Find(data, p).Some?
    ensures OnlyPositions(data, Store(visited, (Find(data, p).value, Render(p))))
  {
  }

  lemma WalkEnds(data: Json, done: set<Position>, at: seq<Position>, visited: map<string, Json>)
    requires Walking(data, done, at, [], visited)
    ensures OnlyPositions(data, visited) && EveryPosition(data, visited) && DeepestStored(data, visited)
  {
    assert forall p: Position :: !Behind([], p);
    forall s | s in visited
      ensures exists p ::
                && Render(p) == s && Find(data, p) == Some(visited[s])
                && forall q | Find(data, q).Some? && Render(q) == s :: |q| <= |p|
    {
      var p :| Render(p) == s && Find(data, p) == Some(visited[s]) &&
               forall q | q in done && Render(q) == s :: |q| <= |p|;
      assert forall q | Find(data, q).Some? && Render(q) == s :: q in done;
    }
  }

  /** A document that is a dict or a list is flattened without loss: whatever its keys, nothing but
      its positions is stored and every position is stored. */
  method Traverse(data: Json) returns (r: Outcome<map<string, Json>>)
    ensures data.Leaf? ==> r == Raise(TypeError)
    ensures !data.Leaf? ==> r.Ok? && OnlyPositions(data, r.value) && EveryPosition(data, r.value)
    ensures !data.Leaf? ==> DeepestStored(data, r.value)
  {
    hide Walking, Entries, StepsOf, OnlyPositions, EveryPosition, DeepestStored, AllPositions;
    if data.Leaf? {
      return Raise(TypeError);
    }
    var queue := new Deque(data, "");
    var visited: map<string, Json> := map[];
    ghost var at: seq<Position> := [[]];
    ghost var done: set<Position> := {};
    WalkStarts(data);
    while queue.items != []
      invariant fresh(queue)
      invariant Walking(data, done, at, queue.items, visited)
      decreases |AllPositions(data) - done|
    {
      ghost var before := queue.items;
      var entry := queue.PopLeft();
      var node, path := entry.0, entry.1;
      ghost var seen := visited;
      if path != "" {
        visited := visited[path := node];
      }
      ghost var steps: seq<Step> := [];
      if node.Dict? {
        steps := TraverseDict(node, path, queue);
      } else if node.List? {
        steps := TraverseList(node, path, queue);
      } else {
        LeafHasNoSteps(node);
      }
      ghost var kids := queue.items[|before| - 1..];
      assert queue.items == before[1..] + kids;
      WalkStep(data, done, at, before, seen, steps, kids);
      assert AllPositions(data) - (done + {at[0]}) == AllPositions(data) - done - {at[0]};
      done, at := done + {at[0]}, at[1..] + Below(at[0], steps);
    }
    WalkEnds(data, done, at, visited);
    return Ok(visited);
  }

  /** The map holds exactly the document's non-root positions, each under its own path with its own
      node. */
  ghost predicate Flattened(data: Json, visited: map<string, Json>) {
    && (forall p: Position | p != [] && Find(data, p).Some? ::
          Render(p) in visited && visited[Render(p)] == Find(data, p).value)
    && (forall s | s in visited :: exists p: Position :: p != [] && Find(data, p).Some? && Render(p) == s)
  }

  /** Every position below the root has a path, and those that share one hold equal nodes. */
  ghost predicate PathsTell(data: Json) {
    && (forall p: Position | p != [] && Find(data, p).Some? :: Render(p) != "")
    && (forall p: Position, q: Position | p != [] && q != [] && Find(data, p).Some? && Find(data, q).Some? &&
                                          Render(p) == Render(q) :: Find(data, p) == Find(data, q))
  }

  /** The flattening is faithful if and only if the paths tell the positions of the document apart as
      far as their nodes differ. */
  lemma FlattenedIff(data: Json, visited: map<string, Json>)
    requires OnlyPositions(data, visited) && EveryPosition(data, visited)
    ensures Flattened(data, visited) <==> PathsTell(data)
  {
    hide Find, Render;
    assert Render([]) == "" by { EmptyPath(); }
    if PathsTell(data) {
      forall p: Position | p != [] && Find(data, p).Some?
        ensures Render(p) in visited && visited[Render(p)] == Find(data, p).value
      {
        var q :| Render(q) == Render(p) && Find(data, q) == Some(visited[Render(p)]);
      }
    }
  }

  lemma EmptyPath()
    ensures Render([]) == ""
  {
  }

  /** Keys without dots and brackets tell all positions apart. */
  lemma TraversalIsFaithful(data: Json, visited: map<string, Json>)
    requires GoodKeys(data)
    requires OnlyPositions(data, visited) && EveryPosition(data, visited)
    ensures Flattened(data, visited)
  {
    forall p: Position | p != [] && Find(data, p).Some?
      ensures Render(p) != "" && GoodSteps(p)
    {
      GoodPosition(data, p);
      RenderNonEmpty(p);
    }
    forall p: Position, q: Position | p != [] && q != [] && Find(data, p).Some? && Find(data, q).Some? &&
                                      Render(p) == Render(q)
      ensures Find(data, p) == Find(data, q)
    {
      RenderInjective(p, q);
    }
    FlattenedIff(data, visited);
  }

  /** A key with a dot in it is enough to lose a node, when another position has its path. */
  lemma DottedKeyLosesANode(x: Json, y: Json, visited: map<string, Json>)
    requires x != y
    requires OnlyPositions(Dict(map["a.b" := x, "a" := Dict(map["b" := y])]), visited)
    requires EveryPosition(Dict(map["a.b" := x, "a" := Dict(map["b" := y])]), visited)
    ensures !Flattened(Dict(map["a.b" := x, "a" := Dict(map["b" := y])]), visited)
  {
    var data := Dict(map["a.b" := x, "a" := Dict(map["b" := y])]);
    var p, q := [Key("a.b")], [Key("a"), Key("b")];
    FindChild(data, [], Key("a.b"));
    FindChild(data, [], Key("a"));
    FindChild(data, [Key("a")], Key("b"));
    assert [] + [Key("a.b")] == p && [] + [Key("a")] == [Key("a")] && [Key("a")] + [Key("b")] == q;
    assert Find(data, p) == Some(x) && Find(data, q) == Some(y);
    assert Front(p) == [] && Front(q) == [Key("a")] && Front([Key("a")]) == [];
    assert Render([Key("a")]) == "a";
    assert Render(q) == "a" + "." + "b" == "a.b" == Render(p);
    FlattenedIff(data, visited);
  }
}
