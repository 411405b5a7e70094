/** `NodeChecker._validate_nodes`: a breadth-first walk over the rule tree that looks every checked
    node up in the flattened document. */
module NodeChecker {
  import opened PyValues
  import opened Json
  import opened Positions
  import opened RulePaths
  import Text
  import Traverser

  /** A rule node with an `expected` entry is checked and not descended into. */
  predicate IsCheck(node: Json) {
    node.Dict? && "expected" in node.m
  }

  /** The rule positions the walk reaches: all those not below a checked node. */
  predicate Reached(rules: Json, p: Position)
    decreases |p|
  {
    if p == [] then true
    else
      && Reached(rules, Front(p))
      && Find(rules, p).Some?
      && Find(rules, Front(p)).Some? && !IsCheck(Find(rules, Front(p)).value)
  }

  predicate IsCheckAt(rules: Json, p: Position) {
    Reached(rules, p) && Find(rules, p).Some? && IsCheck(Find(rules, p).value)
  }

  /** What is checked: exactly the outermost nodes with an `expected` entry. */
  lemma ChecksAreOutermost(rules: Json, p: Position)
    ensures IsCheckAt(rules, p) <==>
            && Find(rules, p).Some? && Find(rules, p).value.Dict? && "expected" in Find(rules, p).value.m
            && forall n: nat | n < |p| ::
                 && Find(rules, p[..n]).Some?
                 && !(Find(rules, p[..n]).value.Dict? && "expected" in Find(rules, p[..n]).value.m)
  {
    hide Find;
    ReachedIff(rules, p);
  }

  lemma {:induction false} ReachedIff(rules: Json, p: Position)
    ensures Reached(rules, p) && Find(rules, p).Some? <==>
            && Find(rules, p).Some?
            && forall n: nat | n < |p| :: Find(rules, p[..n]).Some? && !IsCheck(Find(rules, p[..n]).value)
    decreases |p|
  {
    hide Find, IsCheck;
    if p != [] {
      var f := Front(p);
      ReachedIff(rules, f);
      assert forall n: nat | n < |f| :: f[..n] == p[..n];
      assert p[..|f|] == f;
    }
  }

  lemma {:induction false} ReachedPrefix(rules: Json, p: Position, q: Position)
    requires Reached(rules, q) && p <= q
    ensures Reached(rules, p) && Find(rules, p).Some?
    ensures p != q ==> !IsCheck(Find(rules, p).value)
    decreases |q|
  {
    if p != q {
      assert p <= Front(q);
      ReachedPrefix(rules, p, Front(q));
    }
  }

  lemma ReachedChild(rules: Json, p: Position, s: Step)
    requires Reached(rules, p) && Find(rules, p).Some? && !IsCheck(Find(rules, p).value)
    requires Child(Find(rules, p).value, s).Some?
    ensures Reached(rules, p + [s]) && Find(rules, p + [s]) == Child(Find(rules, p).value, s)
  {
    assert Front(p + [s]) == p;
    FindChild(rules, p, s);
  }

  // ----- what the lookup table holds -----

  /** The table a check starts from, whatever is in it, and the rules to be checked against it. */
  datatype Setting = Setting(table: Table, rules: Json)

  /** No key of a rule that the walk reaches ends in a percent sign; keys may have dots and brackets,
      be empty, or spell the name of a variable. */
  ghost predicate PlainRules(rules: Json) {
    forall p: Position | p != [] && Reached(rules, p) :: PlainStep(Last(p))
  }

  /** The entry made for a rule whose path the table does not have. */
  ghost predicate IsPlaceholder(c: Setting, s: string) {
    exists p: Position :: p != [] && Reached(c.rules, p) && Wanted(c.table, p) !in c.table && s == Marked(c.table, p)
  }

  /** The table as the walk changes it: the original entries, except that placeholders hold None. */
  ghost predicate Notes(c: Setting, visited: Table) {
    && c.table.Keys <= visited.Keys
    && forall s | s in visited ::
         (s in c.table && visited[s] == c.table[s]) || (IsPlaceholder(c, s) && visited[s] == NONE)
  }

  ghost predicate Holds(c: Setting, visited: Table, p: Position) {
    Marked(c.table, p) in visited && visited[Marked(c.table, p)] == ValueAt(c.table, p)
  }

  ghost predicate Grows(c: Setting, old': Table, new': Table) {
    forall s | s in old' :: s in new' && (new'[s] == old'[s] || (IsPlaceholder(c, s) && new'[s] == NONE))
  }

  /** The table at the end of a walk, exactly. */
  ghost predicate IsFinal(c: Setting, visited: Table) {
    && (forall s :: s in visited <==> s in c.table || IsPlaceholder(c, s))
    && (forall s | s in visited :: visited[s] == if IsPlaceholder(c, s) then NONE else c.table[s])
  }

  lemma PlaceholderEnds(c: Setting, s: string)
    requires IsPlaceholder(c, s)
    ensures s != "" && Last(s) == '%'
  {
  }

  /** An original entry is overwritten only if its path ends in a percent sign. */
  lemma OriginalsKept(c: Setting, visited: Table, s: string)
    requires Notes(c, visited) && s in c.table && EndsPlain(s)
    ensures s in visited && visited[s] == c.table[s]
  {
    if IsPlaceholder(c, s) {
      PlaceholderEnds(c, s);
    }
  }

  lemma WantedEndsPlain(c: Setting, p: Position)
    requires PlainRules(c.rules) && Reached(c.rules, p)
    ensures EndsPlain(Wanted(c.table, p))
  {
    if p != [] {
      ExtendEndsPlain(Marked(c.table, Front(p)), Last(p));
    }
  }

  /** The wanted path is found among the placeholders made so far only if the original table has it. */
  lemma WantedIsOriginal(c: Setting, visited: Table, p: Position)
    requires PlainRules(c.rules) && Notes(c, visited) && Reached(c.rules, p)
    ensures Wanted(c.table, p) in visited <==> Wanted(c.table, p) in c.table
    ensures Wanted(c.table, p) in visited ==> visited[Wanted(c.table, p)] == c.table[Wanted(c.table, p)]
  {
    hide Wanted, IsPlaceholder, EndsPlain;
    var x := Wanted(c.table, p);
    WantedEndsPlain(c, p);
    if x in c.table {
      OriginalsKept(c, visited, x);
    } else if x in visited {
      NoPlaceholder(c, x);
    }
  }

  lemma NoPlaceholder(c: Setting, s: string)
    requires EndsPlain(s)
    ensures !IsPlaceholder(c, s)
  {
    if IsPlaceholder(c, s) {
      PlaceholderEnds(c, s);
    }
  }

  /** Queueing a child: the lookup succeeds exactly when the original table has the wanted path, and
      the entry made otherwise changes nothing that a rule is or will be looked up under. */
  lemma ChildLookup(c: Setting, visited: Table, p: Position)
    requires PlainRules(c.rules) && Notes(c, visited)
    requires p != [] && Reached(c.rules, p)
    ensures var x := Wanted(c.table, p);
            && (x in visited <==> x in c.table)
            && var next := if x in visited then visited else visited[x + "%" := NONE];
               Notes(c, next) && Holds(c, next, p) && Grows(c, visited, next)
  {
    hide Wanted, IsPlaceholder;
    WantedIsOriginal(c, visited, p);
    if Wanted(c.table, p) !in c.table {
      MakePlaceholder(c, p);
    }
  }

  lemma MakePlaceholder(c: Setting, p: Position)
    requires p != [] && Reached(c.rules, p) && Wanted(c.table, p) !in c.table
    ensures IsPlaceholder(c, Marked(c.table, p))
  {
  }

  /** A value once in the table stays what a rule will find there. */
  lemma HoldsGrows(c: Setting, old': Table, new': Table, p: Position)
    requires PlainRules(c.rules) && Reached(c.rules, p) && Holds(c, old', p) && Grows(c, old', new')
    ensures Holds(c, new', p)
  {
    hide Wanted, IsPlaceholder;
    WantedEndsPlain(c, p);
    NoPlaceholder(c, Wanted(c.table, p));
  }

  // ----- the walk -----

  /** Where the walk stands: entry `i` of the queue is the rule node at `at[i]`, and its value is
      already in the table. */
  ghost predicate Queued(c: Setting, visited: Table, p: Position, entry: (Json, string)) {
    && Reached(c.rules, p) && Find(c.rules, p) == Some(entry.0)
    && entry.1 == Marked(c.table, p)
    && (p != [] ==> Holds(c, visited, p))
  }

  ghost predicate QueueOf(c: Setting, visited: Table, at: seq<Position>, queue: seq<(Json, string)>) {
    && |at| == |queue|
    && forall i | 0 <= i < |at| :: Queued(c, visited, at[i], queue[i])
  }

  ghost predicate CoversRules(rules: Json, done: set<Position>, at: seq<Position>) {
    forall p: Position | Reached(rules, p) && Find(rules, p).Some? :: p in done || Behind(at, p)
  }

  /** The steps the walk takes below a node: none below a checked one. */
  ghost predicate RuleSteps(node: Json, steps: seq<Step>) {
    if IsCheck(node) then steps == [] else Traverser.StepsOf(node, steps)
  }

  lemma CoversRulesStep(rules: Json, done: set<Position>, at: seq<Position>, steps: seq<Step>)
    requires at != [] && CoversRules(rules, done, at) && Find(rules, at[0]).Some?
    requires RuleSteps(Find(rules, at[0]).value, steps)
    ensures CoversRules(rules, done + {at[0]}, at[1..] + Below(at[0], steps))
  {
    forall p: Position | Reached(rules, p) && Find(rules, p).Some?
      ensures p in done + {at[0]} || Behind(at[1..] + Below(at[0], steps), p)
    {
      if p !in done && p != at[0] {
        BehindRule(rules, at, steps, p);
      }
    }
  }

  lemma BehindRule(rules: Json, at: seq<Position>, steps: seq<Step>, p: Position)
    requires at != [] && Behind(at, p) && Reached(rules, p) && Find(rules, p).Some? && p != at[0]
    requires Find(rules, at[0]).Some? && RuleSteps(Find(rules, at[0]).value, steps)
    ensures Behind(at[1..] + Below(at[0], steps), p)
  {
    var i :| 0 <= i < |at| && at[i] <= p;
    if i > 0 {
      assert (at[1..] + Below(at[0], steps))[i - 1] == at[i];
    } else {
      ReachedPrefix(rules, at[0], p);
      Traverser.BehindSplit(rules, at, steps, p);
    }
  }

  /** What the children of the node at `p` are queued as. */
  ghost predicate Children(c: Setting, visited: Table, p: Position, steps: seq<Step>, kids: seq<(Json, string)>) {
    && |kids| == |steps|
    && forall i | 0 <= i < |steps| :: Queued(c, visited, p + [steps[i]], kids[i])
  }

  lemma QueuedGrows(c: Setting, old': Table, new': Table, p: Position, entry: (Json, string))
    requires PlainRules(c.rules) && Queued(c, old', p, entry) && Grows(c, old', new')
    ensures Queued(c, new', p, entry)
  {
    hide Holds, Grows, Reached, PlainRules;
    if p != [] {
      HoldsGrows(c, old', new', p);
    }
  }

  lemma QueueOfStep(c: Setting, old': Table, new': Table, at: seq<Position>,
                    queue: seq<(Json, string)>, steps: seq<Step>, kids: seq<(Json, string)>)
    requires PlainRules(c.rules) && at != [] && QueueOf(c, old', at, queue) && Grows(c, old', new')
    requires Children(c, new', at[0], steps, kids)
    ensures QueueOf(c, new', at[1..] + Below(at[0], steps), queue[1..] + kids)
  {
    hide Queued, Grows, PlainRules;
    var next, items := at[1..] + Below(at[0], steps), queue[1..] + kids;
    var n := |at| - 1;
    forall i | 0 <= i < |next|
      ensures Queued(c, new', next[i], items[i])
    {
      if i < n {
        assert next[i] == at[i + 1] && items[i] == queue[i + 1];
        QueuedGrows(c, old', new', at[i + 1], queue[i + 1]);
      }
    }
  }

  // ----- the checker -----

  /** The result of a rule block that raises nothing; a search block also records errors of its own. */
  datatype Verdict = Verdict(result: bool, reason: Json, severity: Json, suggest: Json, added: seq<CheckError>)

  datatype Actual = Missing | Present(value: Json)

  datatype CheckError = CheckError(path: string, reason: Json, severity: Json, expected: Json, actual: Actual)

  /** Evaluating a block: it may raise, after having recorded errors of its own. */
  datatype Ruling = Ruled(verdict: Verdict) | Raised(exn: Exn, added: seq<CheckError>)

  type Judge = (Json, string, Table) -> Ruling

  function GetOr(node: Json, key: string, default: Json): Json {
    if node.Dict? && key in node.m then node.m[key] else default
  }

  /** The errors recorded for one checked node. */
  function Report(node: Json, path: string, actual: Json, v: Verdict): seq<CheckError> {
    v.added +
    if v.result then []
    else [CheckError(path, GetOr(node, "reason", v.reason), GetOr(node, "severity", v.severity), v.suggest,
                     if actual == NONE then Missing else Present(actual))]
  }

  /** What one evaluation has to record: nothing but the block's own errors when it passes, and exactly one
      more when it fails.  That error names the node, what the rule asks for and what was found, and the
      node's own reason and severity go before those of the block. */
  ghost predicate OwnErrors(node: Json, path: string, found: Json, v: Verdict, errors: seq<CheckError>)
    requires node.Dict?
  {
    if v.result then errors == v.added
    else
      && |errors| == |v.added| + 1 && errors[..|v.added|] == v.added
      && var e := errors[|v.added|];
         && e.path == path && e.expected == v.suggest
         && (e.actual == Missing <==> found == Leaf(NoneV)) && (found != Leaf(NoneV) ==> e.actual == Present(found))
         && e.reason == (if "reason" in node.m then node.m["reason"] else v.reason)
         && e.severity == (if "severity" in node.m then node.m["severity"] else v.severity)
  }

  lemma ReportIsOwn(node: Json, path: string, found: Json, v: Verdict)
    requires node.Dict?
    ensures OwnErrors(node, path, found, v, Report(node, path, found, v))
  {
  }

  /** One checked node: its rule position, and the table and verdict at that moment. */
  datatype Checked = Checked(at: Position, visited: Table, verdict: Verdict)

  ghost function Reports(c: Setting, log: seq<Checked>): seq<CheckError> {
    if log == [] then []
    else
      var last := Last(log);
      Reports(c, Front(log)) +
      (if Find(c.rules, last.at).Some? then
         Report(Find(c.rules, last.at).value, Marked(c.table, last.at), ValueAt(c.table, last.at), last.verdict)
       else [])
  }

  /** The errors of a whole log: for each evaluation in turn those that it has to record. */
  ghost predicate Accounts(c: Setting, log: seq<Checked>, errors: seq<CheckError>)
    decreases |log|
  {
    if log == [] then errors == []
    else
      var last := Last(log);
      exists k: nat ::
        && k <= |errors| && Accounts(c, Front(log), errors[..k])
        && Find(c.rules, last.at).Some? && Find(c.rules, last.at).value.Dict?
        && OwnErrors(Find(c.rules, last.at).value, Marked(c.table, last.at), ValueAt(c.table, last.at), last.verdict,
                     errors[k..])
  }

  lemma {:induction false} ReportsAccount(judge: Judge, c: Setting, log: seq<Checked>)
    requires AllJudged(judge, c, log)
    ensures Accounts(c, log, Reports(c, log))
    decreases |log|
  {
    hide Report, OwnErrors, Marked, ValueAt;
    if log != [] {
      var last := Last(log);
      assert Judged(judge, c, log[|log| - 1]);
      ReportsAccount(judge, c, Front(log));
      var node := Find(c.rules, last.at).value;
      ReportIsOwn(node, Marked(c.table, last.at), ValueAt(c.table, last.at), last.verdict);
      var before := Reports(c, Front(log));
      var errors := Reports(c, log);
      assert errors[..|before|] == before;
      assert errors[|before|..] == Report(node, Marked(c.table, last.at), ValueAt(c.table, last.at), last.verdict);
    }
  }

  ghost predicate LogOf(rules: Json, done: set<Position>, log: seq<Checked>) {
    && (forall i, j | 0 <= i < j < |log| :: log[i].at != log[j].at)
    && (forall i | 0 <= i < |log| :: log[i].at in done && IsCheckAt(rules, log[i].at))
    && (forall p | p in done && IsCheckAt(rules, p) :: exists i :: 0 <= i < |log| && log[i].at == p)
  }

  class NodeChecker {
    /** Evaluating a block: its expansion, its comparison and the blocks nested in it. */
    const judge: Judge
    var visited: Table
    var errors: seq<CheckError>
    var maxNestingDepth: int

    constructor (judge: Judge, visited: Table)
      ensures this.judge == judge && this.visited == visited && errors == []
    {
      this.judge, this.visited, this.errors, this.maxNestingDepth := judge, visited, [], 10;
    }

    method ValidateExpect(node: Json, path: string) returns (r: Ruling)
      requires IsCheck(node)
      modifies this`errors, this`maxNestingDepth
      ensures path in visited ==> r == judge(node.m["expected"], path, visited)
      ensures r.Ruled? ==> path in visited && errors == old(errors) + Report(node, path, visited[path], r.verdict)
      ensures r.Raised? ==> errors == old(errors) + r.added
      ensures r.Ruled? ==>
                && path in visited && old(errors) <= errors
                && OwnErrors(node, path, visited[path], r.verdict, errors[|old(errors)|..])
    {
      maxNestingDepth := 10;
      var block := node.m["expected"];
      r := judge(block, path, visited);
      if r.Raised? {
        errors := errors + r.added;
        return;
      }
      var v := r.verdict;
      errors := errors + v.added;
      if path !in visited {
        return Raised(KeyError, v.added);
      }
      var actual := visited[path];
      if !v.result {
        errors := errors + [CheckError(path, GetOr(node, "reason", v.reason), GetOr(node, "severity", v.severity),
                                       v.suggest, if actual == NONE then Missing else Present(actual))];
      }
    }

    /** The lookup both child walks make for one child. */
    method Note(path: string) returns (newPath: string)
      modifies this`visited
      ensures path in old(visited) ==> newPath == path && visited == old(visited)
      ensures path !in old(visited) ==> newPath == path + "%" && visited == old(visited)[newPath := NONE]
    {
      newPath := path;
      if newPath !in visited {
        newPath := newPath + "%";
        visited := visited[newPath := NONE];
      }
    }

    method ValidateDict(node: Json, path: string, queue: Traverser.Deque, ghost c: Setting, ghost p: Position)
      returns (ghost steps: seq<Step>)
      requires PlainRules(c.rules) && Notes(c, visited)
      requires Reached(c.rules, p) && Find(c.rules, p) == Some(node) && node.Dict? && !IsCheck(node)
      requires path == Marked(c.table, p)
      modifies queue, this`visited
      ensures RuleSteps(node, steps)
      ensures Notes(c, visited) && Grows(c, old(visited), visited)
      ensures |queue.items| >= |old(queue.items)| && queue.items[..|old(queue.items)|] == old(queue.items)
      ensures Children(c, visited, p, steps, queue.items[|old(queue.items)|..])
    {
      hide PlainRules, Notes, Queued, Grows, Extend, Marked, Reached, IsCheck;
      var keys := node.m.Keys;
      steps := [];
      GrowsSelf(c, visited);
      while keys != {}
        invariant keys <= node.m.Keys
        invariant forall k :: k in node.m && k !in keys <==> Key(k) in steps
        invariant forall i | 0 <= i < |steps| :: steps[i].Key? && steps[i].k in node.m
        invariant Distinct(steps)
        invariant Notes(c, visited) && Grows(c, old(visited), visited)
        invariant |queue.items| == |old(queue.items)| + |steps|
        invariant queue.items[..|old(queue.items)|] == old(queue.items)
        invariant Children(c, visited, p, steps, queue.items[|old(queue.items)|..])
        decreases |keys|
      {
        var k :| k in keys;
        ghost var before := visited;
        ghost var kids := queue.items[|old(queue.items)|..];
        var newPath := if path == "" then k else path + "." + k;
        assert newPath == Extend(path, Key(k)) by { ExtendKey(path, k); }
        NewChild(c, visited, p, Key(k), node.m[k]);
        newPath := Note(newPath);
        queue.Append(node.m[k], newPath);
        ChildrenGrow(c, before, visited, p, steps, kids, Key(k), (node.m[k], newPath));
        GrowsTransitive(c, old(visited), before, visited);
        assert queue.items[|old(queue.items)|..] == kids + [(node.m[k], newPath)];
        keys := keys - {k};
        steps := steps + [Key(k)];
      }
      DictSteps(node, steps);
    }

    method ValidateList(node: Json, path: string, queue: Traverser.Deque, ghost c: Setting, ghost p: Position)
      returns (ghost steps: seq<Step>)
      requires PlainRules(c.rules) && Notes(c, visited)
      requires Reached(c.rules, p) && Find(c.rules, p) == Some(node) && node.List?
      requires path == Marked(c.table, p)
      modifies queue, this`visited
      ensures RuleSteps(node, steps)
      ensures Notes(c, visited) && Grows(c, old(visited), visited)
      ensures |queue.items| >= |old(queue.items)| && queue.items[..|old(queue.items)|] == old(queue.items)
      ensures Children(c, visited, p, steps, queue.items[|old(queue.items)|..])
    {
      hide PlainRules, Notes, Queued, Grows, Extend, Marked, Reached;
      steps := [];
      GrowsSelf(c, visited);
      for i := 0 to |node.xs|
        invariant |steps| == i && forall j | 0 <= j < i :: steps[j] == Index(j)
        invariant Notes(c, visited) && Grows(c, old(visited), visited)
        invariant |queue.items| == |old(queue.items)| + |steps|
        invariant queue.items[..|old(queue.items)|] == old(queue.items)
        invariant Children(c, visited, p, steps, queue.items[|old(queue.items)|..])
      {
        ghost var before := visited;
        ghost var kids := queue.items[|old(queue.items)|..];
        var newPath := if path == "" then "[" + Text.Decimal(i) + "]" else path + "[" + Text.Decimal(i) + "]";
        assert newPath == Extend(path, Index(i)) by { ExtendIndex(path, i); }
        NewChild(c, visited, p, Index(i), node.xs[i]);
        newPath := Note(newPath);
        queue.Append(node.xs[i], newPath);
        ChildrenGrow(c, before, visited, p, steps, kids, Index(i), (node.xs[i], newPath));
        GrowsTransitive(c, old(visited), before, visited);
        assert queue.items[|old(queue.items)|..] == kids + [(node.xs[i], newPath)];
        steps := steps + [Index(i)];
      }
      ListSteps(node, steps);
    }

    /** One turn of the loop: a checked node is evaluated, any other container's children are
        queued, and anything else is passed over. */
    method Visit(node: Json, path: string, queue: Traverser.Deque, ghost c: Setting, ghost p: Position)
      returns (r: Outcome<()>, ghost steps: seq<Step>, ghost log: seq<Checked>, ghost added: seq<CheckError>)
      requires PlainRules(c.rules) && Notes(c, visited)
      requires Reached(c.rules, p) && Find(c.rules, p) == Some(node) && path == Marked(c.table, p)
      requires p != [] ==> Holds(c, visited, p)
      modifies queue, this
      ensures Notes(c, visited) && Grows(c, old(visited), visited)
      ensures r.Ok? ==>
                && RuleSteps(node, steps)
                && |queue.items| >= |old(queue.items)| && queue.items[..|old(queue.items)|] == old(queue.items)
                && Children(c, visited, p, steps, queue.items[|old(queue.items)|..])
                && (if IsCheck(node) then |log| == 1 && log[0].at == p else log == [])
                && AllJudged(judge, c, log)
                && errors == old(errors) + Reports(c, log)
      ensures r.Raise? ==> IsCheck(node) && errors == old(errors) + added
      ensures r.Raise? && (p != [] || "" in c.table) ==> RaisesAt(judge, c, p, r.exn, added)
      ensures p == [] && "" !in c.table && IsCheck(node) ==> r.Raise?
    {
      hide PlainRules, Notes, Queued, Grows, Reached, Holds, Report, Marked, Reports, Judged;
      steps, log, added := [], [], [];
      GrowsSelf(c, visited);
      ChildrenNone(c, visited, p);
      ReportsEmpty(c);
      if node.Dict? && "expected" in node.m {
        RootLookup(c, visited);
        if p != [] {
          HoldsIn(c, visited, p);
        }
        var v := ValidateExpect(node, path);
        if v.Raised? {
          if p != [] || "" in c.table {
            RaisesHere(judge, c, visited, p, node, v.exn, v.added);
          }
          return Raise(v.exn), [], [], v.added;
        }
        JudgedHere(judge, c, visited, p, node, v.verdict);
        log := [Checked(p, visited, v.verdict)];
        ReportsOne(c, log[0]);
      } else if node.Dict? {
        steps := ValidateDict(node, path, queue, c, p);
      } else if node.List? {
        steps := ValidateList(node, path, queue, c, p);
      } else {
        Traverser.LeafHasNoSteps(node);
      }
      return Ok(()), steps, log, [];
    }

    /** Every checked rule position is evaluated exactly once, against what the original table has
        under its wanted path or None, and its errors are recorded; the walk adds the placeholders of
        the rules that were not found, and nothing else.  It stops early only when a block raises, or
        when the root itself is a check and the table has no entry for the empty path. */
    method ValidateNodes(rules: Json, ghost c: Setting)
      returns (r: Outcome<()>, ghost log: seq<Checked>, ghost added: seq<CheckError>)
      requires PlainRules(c.rules) && c.rules == rules && Notes(c, visited)
      modifies this
      ensures Notes(c, visited)
      ensures forall i, j | 0 <= i < j < |log| :: log[i].at != log[j].at && |log[i].at| <= |log[j].at|
      ensures forall i | 0 <= i < |log| :: Judged(judge, c, log[i])
      ensures r.Ok? ==> forall p | IsCheckAt(rules, p) :: exists i :: 0 <= i < |log| && log[i].at == p
      ensures r.Ok? ==> IsFinal(c, visited)
      ensures errors == old(errors) + Reports(c, log) + added && (r.Ok? ==> added == [])
      ensures Accounts(c, log, Reports(c, log))
      ensures r.Raise? && RootFound(c) ==>
                exists p: Position :: RaisesAt(judge, c, p, r.exn, added) && forall i | 0 <= i < |log| :: log[i].at != p
      ensures !RootFound(c) ==> r.Raise?
    {
      hide PlainRules, Notes, Queued, Grows, Reached, IsCheckAt, Judged, Holds, AllPositions, Marked, Reports, Walking,
           Accounts, Children, RuleSteps, QueueOf, IsFinal, Find, Wanted, ValueAt;
      var queue := new Traverser.Deque(rules, "");
      log, added := [], [];
      ghost var at: seq<Position> := [[]];
      ghost var done: set<Position> := {};
      WalkStarts(c, visited);
      while queue.items != []
        invariant fresh(queue)
        invariant Notes(c, visited)
        invariant Walking(judge, c, visited, done, at, queue.items, log)
        invariant added == [] && errors == old(errors) + Reports(c, log)
        decreases |AllPositions(rules) - done|
      {
        ghost var before := queue.items;
        ghost var start := visited;
        WalkHead(judge, c, visited, done, at, before, log);
        var entry := queue.PopLeft();
        ghost var steps, checked;
        r, steps, checked, added := Visit(entry.0, entry.1, queue, c, at[0]);
        if r.Raise? {
          ReportsAccount(judge, c, log);
          return r, log, added;
        }
        added := [];
        ghost var kids := queue.items[|before| - 1..];
        assert queue.items == before[1..] + kids;
        ReportsConcat(c, log, checked);
        WalkStep(judge, c, start, visited, done, at, before, steps, kids, log, checked);
        assert AllPositions(rules) - (done + {at[0]}) == AllPositions(rules) - done - {at[0]};
        done, at, log := done + {at[0]}, at[1..] + Below(at[0], steps), log + checked;
      }
      WalkEnds(judge, c, visited, done, at, log);
      ReportsAccount(judge, c, log);
      return Ok(()), log, [];
    }

    /** A whole check: the document is flattened, the built-in and reference variables override the
        table, and the rules are walked over it.  The keys of the document and of the variables are
        arbitrary. */
    method Check(results: Json, rules: Json, variables: Table)
      returns (r: Outcome<()>, ghost flat: Table, ghost c: Setting, ghost log: seq<Checked>,
               ghost added: seq<CheckError>)
      requires PlainRules(rules)
      modifies this
      ensures results.Leaf? ==> r == Raise(TypeError) && errors == old(errors)
      ensures !results.Leaf? ==> Traverser.OnlyPositions(results, flat) && Traverser.EveryPosition(results, flat)
      ensures !results.Leaf? ==> Traverser.DeepestStored(results, flat)
      ensures !results.Leaf? ==> c == Setting(flat + variables, rules) && Notes(c, visited)
      ensures forall i, j | 0 <= i < j < |log| :: log[i].at != log[j].at && |log[i].at| <= |log[j].at|
      ensures forall i | 0 <= i < |log| :: Judged(judge, c, log[i])
      ensures r.Ok? ==> forall p | IsCheckAt(rules, p) :: exists i :: 0 <= i < |log| && log[i].at == p
      ensures r.Ok? ==> IsFinal(c, visited) && added == []
      ensures !results.Leaf? ==> errors == old(errors) + Reports(c, log) + added && Accounts(c, log, Reports(c, log))
      ensures !results.Leaf? && r.Raise? && RootFound(c) ==>
                exists p: Position :: RaisesAt(judge, c, p, r.exn, added) && forall i | 0 <= i < |log| :: log[i].at != p
    {
      hide *;
      log, added := [], [];
      flat := map[];
      c := Setting(map[], rules);
      var table := Traverser.Traverse(results);
      if results.Leaf? {
        return Raise(TypeError), flat, c, log, added;
      }
      flat := table.value;
      visited := table.value + variables;
      c := Setting(visited, rules);
      NothingNoted(c);
      r, log, added := ValidateNodes(rules, c);
    }
  }

  lemma NothingNoted(c: Setting)
    ensures Notes(c, c.table)
  {
  }

  /** If the root itself is a check, the table has an entry for the empty path. */
  predicate RootFound(c: Setting) {
    IsCheck(c.rules) ==> "" in c.table
  }

  /** A log entry: the position is checked, and its verdict is the block's on the value there. */
  ghost predicate Judged(judge: Judge, c: Setting, e: Checked) {
    && IsCheckAt(c.rules, e.at)
    && Notes(c, e.visited) && Holds(c, e.visited, e.at)
    && judge(Find(c.rules, e.at).value.m["expected"], Marked(c.table, e.at), e.visited) == Ruled(e.verdict)
  }

  /** The block checked at `p` raises `x` on the value there, having recorded these errors. */
  ghost predicate RaisesAt(judge: Judge, c: Setting, p: Position, x: Exn, added: seq<CheckError>) {
    && IsCheckAt(c.rules, p)
    && exists visited ::
         && Notes(c, visited) && Holds(c, visited, p)
         && judge(Find(c.rules, p).value.m["expected"], Marked(c.table, p), visited) == Raised(x, added)
  }

  ghost predicate AllJudged(judge: Judge, c: Setting,
                            log: seq<Checked>) {
    forall i | 0 <= i < |log| :: Judged(judge, c, log[i])
  }

  ghost predicate Walking(judge: Judge, c: Setting,
                          visited: Table, done: set<Position>, at: seq<Position>,
                          queue: seq<(Json, string)>, log: seq<Checked>)
  {
    && QueueOf(c, visited, at, queue)
    && Frontier(done, at) && CoversRules(c.rules, done, at)
    && done <= AllPositions(c.rules)
    && LogOf(c.rules, done, log) && AllJudged(judge, c, log)
    && DoneHold(c, visited, done)
    && (done == {} ==> at == [[]])
    && (done != {} ==> [] in done && RootFound(c))
    && InOrder(done, at, log)
  }

  /** The walk is breadth first, and the checks nearer to the root come first in the log. */
  ghost predicate InOrder(done: set<Position>, at: seq<Position>, log: seq<Checked>) {
    ByDepth(done, at) && LogByDepth(log) && LoggedAreDone(done, log)
  }

  predicate LogByDepth(log: seq<Checked>) {
    forall i, j | 0 <= i < j < |log| :: |log[i].at| <= |log[j].at|
  }

  predicate LoggedAreDone(done: set<Position>, log: seq<Checked>) {
    forall i | 0 <= i < |log| :: log[i].at in done
  }

  lemma LogByDepthStep(done: set<Position>, p: Position, log: seq<Checked>, checked: seq<Checked>)
    requires LogByDepth(log) && LoggedAreDone(done, log) && forall d | d in done :: |d| <= |p|
    requires checked == [] || (|checked| == 1 && checked[0].at == p)
    ensures LogByDepth(log + checked) && LoggedAreDone(done + {p}, log + checked)
  {
    if checked == [] {
      assert log + checked == log;
    } else {
      assert log + checked == log + [checked[0]];
    }
  }

  lemma InOrderStep(done: set<Position>, at: seq<Position>, steps: seq<Step>, log: seq<Checked>, checked: seq<Checked>)
    requires at != [] && InOrder(done, at, log)
    requires checked == [] || (|checked| == 1 && checked[0].at == at[0])
    ensures InOrder(done + {at[0]}, at[1..] + Below(at[0], steps), log + checked)
  {
    hide ByDepth, LogByDepth, LoggedAreDone;
    ByDepthStep(done, at, steps);
    HeadIsDeepest(done, at);
    LogByDepthStep(done, at[0], log, checked);
  }

  lemma HeadIsDeepest(done: set<Position>, at: seq<Position>)
    requires at != [] && ByDepth(done, at)
    ensures forall d | d in done :: |d| <= |at[0]|
  {
  }

  ghost predicate DoneHold(c: Setting, visited: Table, done: set<Position>) {
    forall p | p in done :: Reached(c.rules, p) && (p != [] ==> Holds(c, visited, p))
  }

  lemma DoneHoldStep(c: Setting, old': Table, new': Table, done: set<Position>, p: Position)
    requires PlainRules(c.rules) && DoneHold(c, old', done) && Grows(c, old', new')
    requires Reached(c.rules, p) && (p != [] ==> Holds(c, old', p))
    ensures DoneHold(c, new', done + {p})
  {
    hide Holds, Grows, Reached, PlainRules;
    forall q | q in done + {p} && q != []
      ensures Holds(c, new', q)
    {
      HoldsGrows(c, old', new', q);
    }
  }

  lemma ExtendKey(path: string, k: string)
    ensures Extend(path, Key(k)) == if path == "" then k else path + "." + k
  {
  }

  lemma GrowsSelf(c: Setting, visited: Table)
    ensures Grows(c, visited, visited)
  {
  }

  lemma GrowsTransitive(c: Setting, first: Table, second: Table, third: Table)
    requires Grows(c, first, second) && Grows(c, second, third)
    ensures Grows(c, first, third)
  {
    hide IsPlaceholder;
  }

  lemma DictSteps(node: Json, steps: seq<Step>)
    requires node.Dict? && !IsCheck(node) && Distinct(steps)
    requires forall k :: k in node.m <==> Key(k) in steps
    requires forall i | 0 <= i < |steps| :: steps[i].Key? && steps[i].k in node.m
    ensures RuleSteps(node, steps)
  {
  }

  /** The child's table entry, in the terms of the code. */
  lemma NewChild(c: Setting, visited: Table, p: Position, s: Step, child: Json)
    requires PlainRules(c.rules) && Notes(c, visited)
    requires Reached(c.rules, p) && Find(c.rules, p).Some? && !IsCheck(Find(c.rules, p).value)
    requires Child(Find(c.rules, p).value, s) == Some(child)
    ensures var x := Extend(Marked(c.table, p), s);
            var path := if x in visited then x else x + "%";
            var next := if x in visited then visited else visited[x + "%" := NONE];
            Notes(c, next) && Grows(c, visited, next) && Queued(c, next, p + [s], (child, path))
  {
    hide Extend, Notes, Grows, PlainRules, Reached;
    ReachedChild(c.rules, p, s);
    assert Front(p + [s]) == p;
    assert Wanted(c.table, p + [s]) == Extend(Marked(c.table, p), s);
    ChildLookup(c, visited, p + [s]);
  }

  lemma ChildrenGrow(c: Setting, old': Table, new': Table, p: Position, steps: seq<Step>,
                     kids: seq<(Json, string)>, s: Step, entry: (Json, string))
    requires PlainRules(c.rules) && Children(c, old', p, steps, kids) && Grows(c, old', new') &&
             Queued(c, new', p + [s], entry)
    ensures Children(c, new', p, steps + [s], kids + [entry])
  {
    hide Queued, Grows, PlainRules;
    forall i | 0 <= i < |steps|
      ensures Queued(c, new', p + [steps[i]], kids[i])
    {
      QueuedGrows(c, old', new', p + [steps[i]], kids[i]);
    }
  }

  lemma ExtendIndex(path: string, i: nat)
    ensures Extend(path, Index(i)) ==
            if path == "" then "[" + Text.Decimal(i) + "]" else path + "[" + Text.Decimal(i) + "]"
  {
  }

  lemma ListSteps(node: Json, steps: seq<Step>)
    requires node.List? && |steps| == |node.xs| && forall j | 0 <= j < |steps| :: steps[j] == Index(j)
    ensures RuleSteps(node, steps)
  {
    forall s: Step | Child(node, s).Some?
      ensures s in steps
    {
      assert steps[s.i] == s;
    }
  }

  lemma WalkStarts(c: Setting, visited: Table)
    ensures forall judge: Judge ::
              Walking(judge, c, visited, {}, [[]], [(c.rules, "")], [])
    ensures Reports(c, []) == []
  {
    forall p: Position
      ensures Behind([[]], p)
    {
      assert [[]][0] <= p;
    }
  }

  lemma WalkHead(judge: Judge, c: Setting, visited: Table,
                 done: set<Position>, at: seq<Position>, queue: seq<(Json, string)>, log: seq<Checked>)
    requires Walking(judge, c, visited, done, at, queue, log) && queue != []
    ensures at != [] && Queued(c, visited, at[0], queue[0])
    ensures Reached(c.rules, at[0]) && Find(c.rules, at[0]) == Some(queue[0].0) && queue[0].1 == Marked(c.table, at[0])
    ensures at[0] in AllPositions(c.rules) - done
    ensures forall i | 0 <= i < |log| :: log[i].at != at[0] && Judged(judge, c, log[i])
    ensures forall i, j | 0 <= i < j < |log| :: log[i].at != log[j].at && |log[i].at| <= |log[j].at|
    ensures at[0] == [] ==> queue[0].0 == c.rules
    ensures at[0] != [] ==> Holds(c, visited, at[0]) && RootFound(c)
    ensures forall i | 0 <= i < |log| :: Find(c.rules, log[i].at).Some?
  {
    FrontierStep(done, at, []);
    AllPositionsComplete(c.rules, at[0]);
  }

  lemma ChildrenNone(c: Setting, visited: Table, p: Position)
    ensures Children(c, visited, p, [], [])
  {
  }

  lemma RootLookup(c: Setting, visited: Table)
    requires PlainRules(c.rules) && Notes(c, visited)
    ensures Marked(c.table, []) == "" && ("" in visited <==> "" in c.table)
    ensures "" in visited ==> Holds(c, visited, [])
  {
    WantedIsOriginal(c, visited, []);
  }

  lemma RaisesHere(judge: Judge, c: Setting, visited: Table, p: Position, node: Json, x: Exn, added: seq<CheckError>)
    requires Reached(c.rules, p) && Find(c.rules, p) == Some(node) && IsCheck(node)
    requires Notes(c, visited) && Holds(c, visited, p)
    requires judge(node.m["expected"], Marked(c.table, p), visited) == Raised(x, added)
    ensures RaisesAt(judge, c, p, x, added)
  {
    assert IsCheckAt(c.rules, p);
  }

  lemma HoldsIn(c: Setting, visited: Table, p: Position)
    requires Holds(c, visited, p)
    ensures Marked(c.table, p) in visited
  {
  }

  lemma ReportsEmpty(c: Setting)
    ensures Reports(c, []) == []
  {
  }

  lemma ReportsOne(c: Setting, e: Checked)
    requires Find(c.rules, e.at).Some?
    ensures Reports(c, [e]) ==
            Report(Find(c.rules, e.at).value, Marked(c.table, e.at), ValueAt(c.table, e.at), e.verdict)
  {
    hide Report, Marked;
    ReportsPush(c, [], e);
    assert [] + [e] == [e];
    var r := Report(Find(c.rules, e.at).value, Marked(c.table, e.at), ValueAt(c.table, e.at), e.verdict);
    assert [] + r == r;
  }

  lemma ReportsConcat(c: Setting, log: seq<Checked>, next: seq<Checked>)
    requires |next| <= 1 && forall i | 0 <= i < |next| :: Find(c.rules, next[i].at).Some?
    ensures Reports(c, log + next) == Reports(c, log) + Reports(c, next)
  {
    hide Report, Reports, Marked, ValueAt;
    if next == [] {
      ReportsEmpty(c);
      assert log + next == log;
    } else {
      var e := next[0];
      assert next == [e];
      ReportsPush(c, log, e);
      ReportsOne(c, e);
    }
  }

  lemma JudgedHere(judge: Judge, c: Setting, visited: Table,
                   p: Position, node: Json, v: Verdict)
    requires Reached(c.rules, p) && Find(c.rules, p) == Some(node) && IsCheck(node)
    requires Notes(c, visited) && Holds(c, visited, p)
    requires judge(node.m["expected"], Marked(c.table, p), visited) == Ruled(v)
    ensures Judged(judge, c, Checked(p, visited, v)) && visited[Marked(c.table, p)] == ValueAt(c.table, p)
  {
  }

  lemma ReportsPush(c: Setting, log: seq<Checked>, e: Checked)
    requires Find(c.rules, e.at).Some?
    ensures Reports(c, log + [e]) ==
            Reports(c, log) +
            Report(Find(c.rules, e.at).value, Marked(c.table, e.at), ValueAt(c.table, e.at), e.verdict)
  {
    assert Front(log + [e]) == log;
  }

  lemma LogStep(rules: Json, done: set<Position>, p: Position, log: seq<Checked>, checked: seq<Checked>)
    requires LogOf(rules, done, log) && p !in done && Reached(rules, p) && Find(rules, p).Some?
    requires if IsCheck(Find(rules, p).value) then |checked| == 1 && checked[0].at == p else checked == []
    ensures LogOf(rules, done + {p}, log + checked)
  {
    hide LogOf;
    LogPush(rules, done, p, log, checked);
  }

  lemma LogPush(rules: Json, done: set<Position>, p: Position, log: seq<Checked>, checked: seq<Checked>)
    requires LogOf(rules, done, log) && p !in done
    requires if IsCheckAt(rules, p) then |checked| == 1 && checked[0].at == p else checked == []
    ensures LogOf(rules, done + {p}, log + checked)
  {
    hide IsCheckAt;
    if checked == [] {
      assert log + checked == log;
    } else {
      var next := log + checked;
      assert next == log + [checked[0]];
      forall q | q in done + {p} && IsCheckAt(rules, q)
        ensures exists i :: 0 <= i < |next| && next[i].at == q
      {
        Logged(rules, done, p, log, checked[0], q);
      }
    }
  }

  lemma Logged(rules: Json, done: set<Position>, p: Position, log: seq<Checked>, e: Checked, q: Position)
    requires LogOf(rules, done, log) && e.at == p && q in done + {p} && IsCheckAt(rules, q)
    ensures exists i :: 0 <= i < |log + [e]| && (log + [e])[i].at == q
  {
    hide IsCheckAt;
    if q == p {
      assert (log + [e])[|log|].at == p;
    } else {
      var i :| 0 <= i < |log| && log[i].at == q;
      assert (log + [e])[i].at == q;
    }
  }

  lemma WalkStep(judge: Judge, c: Setting, old': Table,
                 new': Table, done: set<Position>, at: seq<Position>, queue: seq<(Json, string)>,
                 steps: seq<Step>, kids: seq<(Json, string)>, log: seq<Checked>, checked: seq<Checked>)
    requires PlainRules(c.rules) && Walking(judge, c, old', done, at, queue, log) && queue != [] && at != []
    requires Grows(c, old', new') && Children(c, new', at[0], steps, kids) && RuleSteps(queue[0].0, steps)
    requires AllJudged(judge, c, checked)
    requires if IsCheck(queue[0].0) then |checked| == 1 && checked[0].at == at[0] else checked == []
    requires at[0] == [] ==> RootFound(c)
    ensures Walking(judge, c, new', done + {at[0]}, at[1..] + Below(at[0], steps), queue[1..] + kids, log + checked)
  {
    hide *;
    WalkParts(judge, c, old', done, at, queue, log);
    WalkHead(judge, c, old', done, at, queue, log);
    QueueOfStep(c, old', new', at, queue, steps, kids);
    DoneHoldStep(c, old', new', done, at[0]);
    CoversRulesStep(c.rules, done, at, steps);
    StepsDistinct(queue[0].0, steps);
    FrontierStep(done, at, steps);
    InOrderStep(done, at, steps, log, checked);
    LogStep(c.rules, done, at[0], log, checked);
    AllJudgedStep(judge, c, log, checked);
    WalkWhole(judge, c, new', done + {at[0]}, at[1..] + Below(at[0], steps), queue[1..] + kids, log + checked);
  }

  /** What the invariant of the walk consists of. */
  lemma WalkParts(judge: Judge, c: Setting, visited: Table, done: set<Position>, at: seq<Position>,
                  queue: seq<(Json, string)>, log: seq<Checked>)
    requires Walking(judge, c, visited, done, at, queue, log)
    ensures QueueOf(c, visited, at, queue) && Frontier(done, at) && CoversRules(c.rules, done, at)
    ensures done <= AllPositions(c.rules) && LogOf(c.rules, done, log) && AllJudged(judge, c, log)
    ensures DoneHold(c, visited, done) && InOrder(done, at, log)
    ensures (done == {} ==> at == [[]]) && (done != {} ==> [] in done && RootFound(c))
  {
  }

  lemma WalkWhole(judge: Judge, c: Setting, visited: Table, done: set<Position>, at: seq<Position>,
                  queue: seq<(Json, string)>, log: seq<Checked>)
    requires QueueOf(c, visited, at, queue) && Frontier(done, at) && CoversRules(c.rules, done, at)
    requires done <= AllPositions(c.rules) && LogOf(c.rules, done, log) && AllJudged(judge, c, log)
    requires DoneHold(c, visited, done) && InOrder(done, at, log)
    requires done != {} && [] in done && RootFound(c)
    ensures Walking(judge, c, visited, done, at, queue, log)
  {
  }


  lemma AllJudgedStep(judge: Judge, c: Setting, log: seq<Checked>,
                      checked: seq<Checked>)
    requires AllJudged(judge, c, log) && AllJudged(judge, c, checked)
    ensures AllJudged(judge, c, log + checked)
  {
    hide Judged;
  }

  lemma StepsDistinct(node: Json, steps: seq<Step>)
    requires RuleSteps(node, steps)
    ensures Distinct(steps)
  {
  }

  lemma WalkEnds(judge: Judge, c: Setting, visited: Table,
                 done: set<Position>, at: seq<Position>, log: seq<Checked>)
    requires Walking(judge, c, visited, done, at, [], log) && Notes(c, visited)
    ensures IsFinal(c, visited)
    ensures forall i | 0 <= i < |log| :: Judged(judge, c, log[i])
    ensures forall i, j | 0 <= i < j < |log| :: log[i].at != log[j].at && |log[i].at| <= |log[j].at|
    ensures forall p | IsCheckAt(c.rules, p) :: exists i :: 0 <= i < |log| && log[i].at == p
    ensures RootFound(c)
  {
  }
}
