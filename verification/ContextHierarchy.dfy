/** `ConfigCollector._build_context_hierarchy`: a one-pass stack that should tell, for every line of a
    JSON file, which lines opened the blocks it lies in. */
module ContextHierarchy {
  import opened PyValues

  // ----- depths -----

  predicate Opens(c: char) {
    c == '{' || c == '['
  }

  predicate Closes(c: char) {
    c == '}' || c == ']'
  }

  /** How much the brackets of a line change the depth; brackets inside string literals count too. */
  function Net(line: string): int {
    if line == "" then 0
    else Net(Front(line)) + if Opens(Last(line)) then 1 else if Closes(Last(line)) then -1 else 0
  }

  /** The depth after the first `n` lines. */
  function Depth(lines: seq<string>, n: nat): int
    requires n <= |lines|
  {
    if n == 0 then 0 else Depth(lines, n - 1) + Net(lines[n - 1])
  }

  /** The depth in line `l` after its first `k` characters. */
  function DepthAt(lines: seq<string>, l: nat, k: nat): int
    requires l < |lines| && k <= |lines[l]|
  {
    Depth(lines, l) + Net(lines[l][..k])
  }

  /** The lines that change the depth, with the depth after them. */
  function Changes(lines: seq<string>): map<nat, int> {
    map i: nat | i < |lines| && Net(lines[i]) != 0 :: Depth(lines, i + 1)
  }

  // ----- which blocks are open -----

  /** The bracket at character `k` of line `l` opens a block that is still open after `n` lines: the depth
      in front of it has not been reached again, at any character since. */
  ghost predicate Unclosed(lines: seq<string>, l: nat, k: nat, n: nat)
    requires l < n <= |lines|
  {
    && k < |lines[l]| && Opens(lines[l][k])
    && (forall j: nat | k < j <= |lines[l]| :: DepthAt(lines, l, k) < DepthAt(lines, l, j))
    && (forall m: nat, j: nat | l < m < n && j <= |lines[m]| :: DepthAt(lines, l, k) < DepthAt(lines, m, j))
  }

  /** A line is open when some bracket it opened has not been closed. */
  ghost predicate IsOpen(lines: seq<string>, l: nat, n: nat)
    requires n <= |lines|
  {
    l < n && exists k: nat :: Unclosed(lines, l, k, n)
  }

  /** The lowest that the depth gets within a line, counted from its beginning. */
  function Dip(line: string): int {
    if line == "" then 0
    else if Net(line) < Dip(Front(line)) then Net(line)
    else Dip(Front(line))
  }

  function Low(lines: seq<string>, n: nat): int
    requires n < |lines|
  {
    Depth(lines, n) + Dip(lines[n])
  }

  lemma {:induction false} DipIsLowest(line: string, k: nat)
    requires k <= |line|
    ensures Dip(line) <= Net(line[..k])
    decreases |line|
  {
    if k == |line| {
      assert line[..k] == line;
    } else {
      assert line[..k] == Front(line)[..k];
      DipIsLowest(Front(line), k);
    }
  }

  /** The last place where the lowest depth of a line is reached. */
  lemma {:induction false} LastDip(line: string) returns (k: nat)
    ensures k <= |line| && Net(line[..k]) == Dip(line)
    ensures forall j: nat | k < j <= |line| :: Dip(line) < Net(line[..j])
    decreases |line|
  {
    if line == "" {
      k := 0;
    } else {
      assert line[..|line|] == line;
      k := LastDip(Front(line));
      assert forall j: nat | j < |line| :: Front(line)[..j] == line[..j];
      if Net(line) <= Dip(Front(line)) {
        k := |line|;
      }
    }
  }

  lemma NetStep(line: string, k: nat)
    requires k < |line|
    ensures Net(line[..k + 1]) == Net(line[..k]) + if Opens(line[k]) then 1 else if Closes(line[k]) then -1 else 0
  {
    assert Front(line[..k + 1]) == line[..k];
  }

  lemma DepthEnds(lines: seq<string>, l: nat)
    requires l < |lines|
    ensures DepthAt(lines, l, |lines[l]|) == Depth(lines, l + 1)
    ensures Low(lines, l) <= Depth(lines, l) && Low(lines, l) <= Depth(lines, l + 1)
  {
    assert lines[l][..|lines[l]|] == lines[l];
    DipIsLowest(lines[l], 0);
    DipIsLowest(lines[l], |lines[l]|);
  }

  /** A line is open when the depth rises again behind its lowest place, and no later line comes down to
      that depth: then the bracket behind the lowest place is not closed, and no other bracket of the line
      is unclosed for longer. */
  lemma OpenIff(lines: seq<string>, l: nat, n: nat)
    requires l < n <= |lines|
    ensures IsOpen(lines, l, n) <==>
            Low(lines, l) < Depth(lines, l + 1) && forall m: nat | l < m < n :: Low(lines, l) < Low(lines, m)
  {
    DepthEnds(lines, l);
    if IsOpen(lines, l, n) {
      OpenStaysAbove(lines, l, n);
    }
    if Low(lines, l) < Depth(lines, l + 1) && forall m: nat | l < m < n :: Low(lines, l) < Low(lines, m) {
      AboveIsOpen(lines, l, n);
    }
  }

  lemma OpenStaysAbove(lines: seq<string>, l: nat, n: nat)
    requires l < n <= |lines| && IsOpen(lines, l, n)
    ensures Low(lines, l) < Depth(lines, l + 1) && forall m: nat | l < m < n :: Low(lines, l) < Low(lines, m)
  {
    hide Net, Dip, Depth;
    var k: nat :| Unclosed(lines, l, k, n);
    DipIsLowest(lines[l], k);
    DepthEnds(lines, l);
    forall m: nat | l < m < n
      ensures Low(lines, l) < Low(lines, m)
    {
      var j := LastDip(lines[m]);
      assert DepthAt(lines, l, k) < DepthAt(lines, m, j);
    }
  }

  lemma AboveIsOpen(lines: seq<string>, l: nat, n: nat)
    requires l < n <= |lines| && Low(lines, l) < Depth(lines, l + 1)
    requires forall m: nat | l < m < n :: Low(lines, l) < Low(lines, m)
    ensures IsOpen(lines, l, n)
  {
    hide Net, Dip, Depth;
    var k := LastDip(lines[l]);
    DepthEnds(lines, l);
    assert k < |lines[l]|;
    NetStep(lines[l], k);
    forall m: nat, j: nat | l < m < n && j <= |lines[m]|
      ensures DepthAt(lines, l, k) < DepthAt(lines, m, j)
    {
      DipIsLowest(lines[m], j);
      assert Low(lines, l) < Low(lines, m);
    }
    assert Unclosed(lines, l, k, n);
  }

  // ----- the open lines -----

  ghost function OpenBelow(lines: seq<string>, n: nat, hi: nat): (r: seq<nat>)
    requires n <= |lines|
    ensures forall j | 0 <= j < |r| :: r[j] < hi && r[j] < n
  {
    if hi == 0 then []
    else OpenBelow(lines, n, hi - 1) + if IsOpen(lines, hi - 1, n) then [hi - 1] else []
  }

  /** The open lines in increasing order. */
  ghost function OpenLines(lines: seq<string>, n: nat): (r: seq<nat>)
    requires n <= |lines|
    ensures forall j | 0 <= j < |r| :: r[j] < n
  {
    OpenBelow(lines, n, n)
  }

  lemma {:induction false} OpenBelowIs(lines: seq<string>, n: nat, hi: nat)
    requires n <= |lines|
    ensures var o := OpenBelow(lines, n, hi);
            && (forall j | 0 <= j < |o| :: o[j] < hi && IsOpen(lines, o[j], n))
            && (forall l: nat | l < hi && IsOpen(lines, l, n) :: l in o)
            && (forall j, k | 0 <= j < k < |o| :: o[j] < o[k])
    decreases hi
  {
    hide IsOpen;
    if hi > 0 {
      OpenBelowIs(lines, n, hi - 1);
    }
  }

  /** An earlier open line stays open over a line exactly when its lowest depth is not reached in it. */
  lemma StaysOpen(lines: seq<string>, n: nat, l: nat)
    requires l < n < |lines|
    ensures IsOpen(lines, l, n + 1) <==> IsOpen(lines, l, n) && Low(lines, l) < Low(lines, n)
  {
    hide IsOpen, Low, Depth;
    OpenIff(lines, l, n);
    OpenIff(lines, l, n + 1);
  }

  /** A line is open at its own end when it leaves a bracket of its own unclosed. */
  lemma OwnOpen(lines: seq<string>, n: nat)
    requires n < |lines|
    ensures IsOpen(lines, n, n + 1) <==> Low(lines, n) < Depth(lines, n + 1)
  {
    hide IsOpen, Low, Depth;
    OpenIff(lines, n, n + 1);
  }

  /** The open lines below an open line have smaller lowest depths. */
  lemma OuterIsLower(lines: seq<string>, n: nat, hi: nat)
    requires hi < n <= |lines| && IsOpen(lines, hi, n)
    ensures forall j | 0 <= j < |OpenBelow(lines, n, hi)| ::
              Low(lines, OpenBelow(lines, n, hi)[j]) < Low(lines, hi)
  {
    hide IsOpen, Low, Depth;
    OpenBelowIs(lines, n, hi);
    forall j | 0 <= j < |OpenBelow(lines, n, hi)|
      ensures Low(lines, OpenBelow(lines, n, hi)[j]) < Low(lines, hi)
    {
      OpenIff(lines, OpenBelow(lines, n, hi)[j], n);
    }
  }

  /** A line closes a suffix of the open lines: those whose lowest depth it comes down to. */
  lemma {:induction false} LineKeeps(lines: seq<string>, n: nat, hi: nat) returns (m: nat)
    requires hi <= n < |lines|
    ensures var o := OpenBelow(lines, n, hi);
            && m <= |o|
            && OpenBelow(lines, n + 1, hi) == o[..m]
            && (forall j | 0 <= j < |o| :: j < m <==> Low(lines, o[j]) < Low(lines, n))
    decreases hi
  {
    hide IsOpen, Low;
    if hi == 0 {
      m := 0;
    } else {
      m := LineKeeps(lines, n, hi - 1);
      StaysOpen(lines, n, hi - 1);
      var o := OpenBelow(lines, n, hi - 1);
      if IsOpen(lines, hi - 1, n) {
        OuterIsLower(lines, n, hi - 1);
        assert OpenBelow(lines, n, hi) == o + [hi - 1];
        assert m < |o| ==> !(Low(lines, o[m]) < Low(lines, n));
        if Low(lines, hi - 1) < Low(lines, n) {
          assert m == |o| && o[..m] == o;
          m := m + 1;
        } else {
          assert (o + [hi - 1])[..m] == o[..m];
        }
      } else {
        assert OpenBelow(lines, n, hi) == o;
      }
    }
  }

  /** The open lines after one more line: those it does not close, and itself if it leaves a bracket of
      its own unclosed. */
  lemma OpenAfter(lines: seq<string>, n: nat) returns (m: nat)
    requires n < |lines|
    ensures var o := OpenLines(lines, n);
            && m <= |o|
            && OpenLines(lines, n + 1) == o[..m] + (if Low(lines, n) < Depth(lines, n + 1) then [n] else [])
            && (forall j | 0 <= j < |o| :: j < m <==> Low(lines, o[j]) < Low(lines, n))
  {
    hide IsOpen, Low, Depth;
    m := LineKeeps(lines, n, n);
    OwnOpen(lines, n);
  }

  /** When the depth is greater than it was after `a` lines, a line since then is open: the last one that
      comes down to the lowest depth since. */
  lemma {:induction false} RiseIsOpen(lines: seq<string>, a: nat, n: nat) returns (l: nat)
    requires a < n <= |lines| && Low(lines, a) < Depth(lines, n)
    ensures a <= l < n && IsOpen(lines, l, n)
    decreases n - a
  {
    hide IsOpen, Low, Depth;
    if m: nat :| a < m < n && Low(lines, m) <= Low(lines, a) {
      l := RiseIsOpen(lines, m, n);
    } else {
      l := a;
      OpenIff(lines, a, n);
      if a + 1 < n {
        DepthEnds(lines, a + 1);
      }
    }
  }

  /** The depth never exceeds the depth after the innermost open line, or 0 when no line is open. */
  lemma DepthAtMostInnermost(lines: seq<string>, n: nat)
    requires n <= |lines|
    ensures var o := OpenLines(lines, n);
            && (o == [] ==> Depth(lines, n) <= 0)
            && (o != [] ==> Depth(lines, n) <= Depth(lines, Last(o) + 1) && Low(lines, Last(o)) < Depth(lines, n))
  {
    hide IsOpen, Low;
    var o := OpenLines(lines, n);
    OpenBelowIs(lines, n, n);
    if o == [] {
      if Depth(lines, n) > 0 {
        DepthEnds(lines, 0);
        var l := RiseIsOpen(lines, 0, n);
      }
    } else {
      assert Last(o) == OpenBelow(lines, n, n)[|o| - 1];
      OpenIsBelow(lines, Last(o), n);
      if Depth(lines, n) > Depth(lines, Last(o) + 1) {
        DepthEnds(lines, Last(o) + 1);
        var l := RiseIsOpen(lines, Last(o) + 1, n);
      }
    }
  }

  lemma OpenIsBelow(lines: seq<string>, l: nat, n: nat)
    requires l < n <= |lines| && IsOpen(lines, l, n)
    ensures Low(lines, l) < Depth(lines, n)
  {
    hide IsOpen, Low, Depth;
    OpenIff(lines, l, n);
    DepthEnds(lines, n - 1);
  }

  // ----- the stack -----

  /** What a line does to the stack of active blocks. */
  function StackStep(changes: map<nat, int>, stack: seq<nat>, line: nat): seq<nat>
    requires forall j | 0 <= j < |stack| :: stack[j] in changes
  {
    if line !in changes then stack
    else if stack == [] || changes[line] > changes[Last(stack)] then stack + [line]
    else if changes[line] < changes[Last(stack)] then Front(stack)
    else stack
  }

  /** The stack after the first `n` lines. */
  function StackAfter(changes: map<nat, int>, n: nat): (r: seq<nat>)
    ensures forall j | 0 <= j < |r| :: r[j] in changes
  {
    if n == 0 then [] else StackStep(changes, StackAfter(changes, n - 1), n - 1)
  }

  ghost predicate Deepening(changes: map<nat, int>, stack: seq<nat>, n: nat)
    requires forall j | 0 <= j < |stack| :: stack[j] in changes
  {
    && (forall j | 0 <= j < |stack| :: stack[j] < n)
    && (forall j, k | 0 <= j < k < |stack| :: stack[j] < stack[k] && changes[stack[j]] < changes[stack[k]])
  }

  lemma StepDeepens(changes: map<nat, int>, stack: seq<nat>, line: nat)
    requires forall j | 0 <= j < |stack| :: stack[j] in changes
    requires Deepening(changes, stack, line)
    ensures Deepening(changes, StackStep(changes, stack, line), line + 1)
  {
  }

  /** Whatever the depth changes are, the stack holds earlier lines in increasing order, each deeper
      than the one below it. */
  lemma {:induction false} StackIncreases(changes: map<nat, int>, n: nat)
    ensures Deepening(changes, StackAfter(changes, n), n)
    decreases n
  {
    if n > 0 {
      hide Deepening, StackStep;
      StackIncreases(changes, n - 1);
      StepDeepens(changes, StackAfter(changes, n - 1), n - 1);
    }
  }

  /** A line leaves the stack only when the text comes back to a smaller depth than the line had reached:
      while every line since ends at least that deep, it stays. */
  lemma {:induction false} StaysWhileDeep(lines: seq<string>, l: nat, n: nat)
    requires l < n <= |lines| && l in StackAfter(Changes(lines), l + 1)
    requires forall m: nat | l < m <= n :: Depth(lines, m) >= Depth(lines, l + 1)
    ensures l in StackAfter(Changes(lines), n)
    decreases n
  {
    if l + 1 < n {
      hide Depth, Net;
      StaysWhileDeep(lines, l, n - 1);
      StackIncreases(Changes(lines), n - 1);
      StaysOnce(Changes(lines), StackAfter(Changes(lines), n - 1), n - 1, l);
    }
  }

  lemma StaysOnce(changes: map<nat, int>, stack: seq<nat>, line: nat, l: nat)
    requires forall j | 0 <= j < |stack| :: stack[j] in changes
    requires l in stack && (line in changes ==> changes[line] >= changes[l])
    ensures l in StackStep(changes, stack, line)
  {
    var j :| 0 <= j < |stack| && stack[j] == l;
    if line in changes && changes[line] < changes[Last(stack)] {
      assert Front(stack)[j] == l;
    } else {
      assert (stack + [line])[j] == l;
    }
  }

  /** The context of line `i` in the result: the stack after the latest line, up to `i`, that changed
      the depth and left the stack non-empty. */
  function ContextOf(changes: map<nat, int>, i: nat): seq<nat> {
    if i in changes && StackAfter(changes, i + 1) != [] then StackAfter(changes, i + 1)
    else if i == 0 then []
    else ContextOf(changes, i - 1)
  }

  /** The stack at each line that changes the depth, and nothing at the others. */
  function DirectContext(changes: map<nat, int>, i: nat): seq<nat> {
    if i in changes then StackAfter(changes, i + 1) else []
  }

  method BuildContextHierarchy(lineCount: nat, changes: map<nat, int>) returns (contexts: seq<seq<nat>>)
    ensures |contexts| == lineCount
    ensures forall i | 0 <= i < lineCount :: contexts[i] == ContextOf(changes, i)
  {
    contexts := seq(lineCount, _ => []);
    var active: seq<nat> := [];
    for line := 0 to lineCount
      invariant |contexts| == lineCount
      invariant active == StackAfter(changes, line)
      invariant forall i | 0 <= i < line :: contexts[i] == DirectContext(changes, i)
      invariant forall i | line <= i < lineCount :: contexts[i] == []
    {
      if line in changes {
        var depth := changes[line];
        if active == [] || depth > changes[Last(active)] {
          active := active + [line];
        } else if depth < changes[Last(active)] {
          active := Front(active);
        }
        contexts := contexts[line := active];
      }
    }
    contexts := FillContexts(changes, contexts);
  }

  /** A line without a context of its own gets the previous one. */
  method FillContexts(ghost changes: map<nat, int>, direct: seq<seq<nat>>) returns (contexts: seq<seq<nat>>)
    requires forall i | 0 <= i < |direct| :: direct[i] == DirectContext(changes, i)
    ensures |contexts| == |direct|
    ensures forall i | 0 <= i < |contexts| :: contexts[i] == ContextOf(changes, i)
  {
    contexts := direct;
    var previous: seq<nat> := [];
    for i := 0 to |contexts|
      invariant |contexts| == |direct|
      invariant previous == if i == 0 then [] else ContextOf(changes, i - 1)
      invariant forall k | 0 <= k < i :: contexts[k] == ContextOf(changes, k)
      invariant contexts[i..] == direct[i..]
    {
      hide StackAfter;
      assert contexts[i] == direct[i];
      if contexts[i] == [] {
        contexts := contexts[i := previous];
      } else {
        previous := contexts[i];
      }
    }
  }

  /** The loop that reads the file: the depth after each line that changes it. */
  method CollectDepths(lines: seq<string>) returns (changes: map<nat, int>)
    ensures changes == Changes(lines)
  {
    changes := map[];
    var current := 0;
    for lineNo := 0 to |lines|
      invariant current == Depth(lines, lineNo)
      invariant changes == map i: nat | i < lineNo && Net(lines[i]) != 0 :: Depth(lines, i + 1)
    {
      var line := lines[lineNo];
      var previous := current;
      for k := 0 to |line|
        invariant current == previous + Net(line[..k])
      {
        NetStep(line, k);
        if line[k] == '{' || line[k] == '[' {
          current := current + 1;
        } else if line[k] == '}' || line[k] == ']' {
          current := current - 1;
        }
      }
      assert line[..|line|] == line;
      if current != previous {
        changes := changes[lineNo := current];
      }
    }
  }

  // ----- when the stack is the list of open lines -----

  /** The line closes no block of an open line completely. */
  ghost predicate ClosesNone(lines: seq<string>, n: nat)
    requires n < |lines|
  {
    var o := OpenLines(lines, n);
    o == [] || Low(lines, Last(o)) < Low(lines, n)
  }

  /** The line closes all that exactly one open line has left unclosed. */
  ghost predicate ClosesOne(lines: seq<string>, n: nat)
    requires n < |lines|
  {
    var o := OpenLines(lines, n);
    o != [] && Low(lines, n) <= Low(lines, Last(o)) && (|o| > 1 ==> Low(lines, o[|o| - 2]) < Low(lines, n))
  }

  /** A line that the stack can follow.  If it leaves a bracket of its own unclosed, it closes no open line
      completely, and it ends deeper than the innermost of them did, or, where none is open, at another
      depth than it began.  Otherwise it leaves the depth as it was, or closes exactly one open line. */
  ghost predicate Proper(lines: seq<string>, n: nat)
    requires n < |lines|
  {
    var o := OpenLines(lines, n);
    if Low(lines, n) < Depth(lines, n + 1) then
      && ClosesNone(lines, n)
      && if o == [] then Net(lines[n]) != 0 else Depth(lines, n + 1) > Depth(lines, Last(o) + 1)
    else
      Net(lines[n]) == 0 || ClosesOne(lines, n)
  }

  /** From a stack that is the list of open lines, a line leads to another if and only if it is
      proper. */
  lemma StepIsExact(lines: seq<string>, n: nat)
    requires n < |lines| && StackAfter(Changes(lines), n) == OpenLines(lines, n)
    ensures StackAfter(Changes(lines), n + 1) == OpenLines(lines, n + 1) <==> Proper(lines, n)
  {
    hide OpenLines, Net, Dip;
    var changes, o := Changes(lines), OpenLines(lines, n);
    var next := StackAfter(changes, n + 1);
    assert next == StackStep(changes, o, n);
    DepthAtMostInnermost(lines, n);
    DepthEnds(lines, n);
    var m := OpenAfter(lines, n);
    KeptCount(lines, n, m);
    if Low(lines, n) < Depth(lines, n + 1) {
      OwnStep(lines, n, o, m);
    } else {
      assert OpenLines(lines, n + 1) == o[..m];
      OtherStep(lines, n, o, m);
    }
  }

  lemma KeptCount(lines: seq<string>, n: nat, m: nat)
    requires n < |lines| && m <= |OpenLines(lines, n)|
    requires forall j | 0 <= j < |OpenLines(lines, n)| ::
               j < m <==> Low(lines, OpenLines(lines, n)[j]) < Low(lines, n)
    ensures ClosesNone(lines, n) <==> m == |OpenLines(lines, n)|
    ensures ClosesOne(lines, n) <==> m == |OpenLines(lines, n)| - 1
  {
    hide OpenLines, Low;
    var o := OpenLines(lines, n);
    if |o| > 1 {
      assert |o| - 2 < m <==> Low(lines, o[|o| - 2]) < Low(lines, n);
    }
    if |o| > 0 {
      assert |o| - 1 < m <==> Low(lines, o[|o| - 1]) < Low(lines, n);
    }
  }

  /** A line with an unclosed bracket of its own: only a push makes it the last of the open lines. */
  lemma OwnStep(lines: seq<string>, n: nat, o: seq<nat>, m: nat)
    requires n < |lines| && o == OpenLines(lines, n) && m <= |o|
    requires forall j | 0 <= j < |o| :: o[j] in Changes(lines)
    requires o != [] ==> Depth(lines, n) <= Depth(lines, Last(o) + 1)
    ensures StackStep(Changes(lines), o, n) == o[..m] + [n] <==>
            m == |o| && if o == [] then Net(lines[n]) != 0 else Depth(lines, n + 1) > Depth(lines, Last(o) + 1)
  {
    hide OpenLines, Net;
    var next := StackStep(Changes(lines), o, n);
    assert Last(o[..m] + [n]) == n;
    assert o != [] ==> Last(o) == o[|o| - 1] && Last(o) < n;
    assert |o| > 1 ==> Last(Front(o)) == o[|o| - 2] && o[|o| - 2] < n;
    assert Depth(lines, n + 1) == Depth(lines, n) + Net(lines[n]);
    if next == o + [n] {
      assert |o[..m] + [n]| == m + 1;
      assert m == |o| ==> o[..m] == o;
    } else {
      assert next != [] ==> Last(next) != n;
    }
  }

  /** A line without one: the stack must shrink by what the line closes. */
  lemma OtherStep(lines: seq<string>, n: nat, o: seq<nat>, m: nat)
    requires n < |lines| && o == OpenLines(lines, n) && m <= |o|
    requires forall j | 0 <= j < |o| :: o[j] in Changes(lines) && (j < m <==> Low(lines, o[j]) < Low(lines, n))
    requires Low(lines, n) == Depth(lines, n + 1) <= Depth(lines, n)
    requires o != [] ==> Low(lines, Last(o)) < Depth(lines, n) <= Depth(lines, Last(o) + 1)
    ensures StackStep(Changes(lines), o, n) == o[..m] <==> Net(lines[n]) == 0 || m == |o| - 1
  {
    hide OpenLines, Net;
    assert Depth(lines, n + 1) == Depth(lines, n) + Net(lines[n]);
    assert o != [] ==> (|o| - 1 < m <==> Low(lines, o[|o| - 1]) < Low(lines, n));
    assert o[..|o|] == o;
  }

  lemma {:induction false} ProperIsFollowed(lines: seq<string>, n: nat)
    requires n <= |lines| && forall k: nat | k < n :: Proper(lines, k)
    ensures StackAfter(Changes(lines), n) == OpenLines(lines, n)
    decreases n
  {
    if n > 0 {
      ProperIsFollowed(lines, n - 1);
      StepIsExact(lines, n - 1);
    }
  }

  /** The stack is the increasing list of the open lines after every line if and only if every line is
      proper. */
  lemma StackIsOpenLinesIff(lines: seq<string>)
    ensures (forall n: nat | n <= |lines| :: StackAfter(Changes(lines), n) == OpenLines(lines, n)) <==>
            (forall n: nat | n < |lines| :: Proper(lines, n))
  {
    hide *;
    if forall n: nat | n < |lines| :: Proper(lines, n) {
      forall n: nat | n <= |lines| ensures StackAfter(Changes(lines), n) == OpenLines(lines, n) {
        ProperIsFollowed(lines, n);
      }
    }
    if forall n: nat | n <= |lines| :: StackAfter(Changes(lines), n) == OpenLines(lines, n) {
      forall n: nat | n < |lines| ensures Proper(lines, n) {
        StepIsExact(lines, n);
      }
    }
  }

  ghost predicate ProperBelow(lines: seq<string>, n: nat)
    requires n <= |lines|
  {
    forall k: nat | k < n :: Proper(lines, k)
  }

  /** Up to a line before which all are proper, the context is the list of the open lines exactly when some
      line is open, or no line has changed the depth yet: where the last block has been closed, the context
      stays what it was. */
  lemma {:induction false} ContextIsOpenLinesIff(lines: seq<string>, i: nat)
    requires i < |lines| && ProperBelow(lines, i + 1)
    ensures ContextOf(Changes(lines), i) == OpenLines(lines, i + 1) <==>
            OpenLines(lines, i + 1) != [] || forall k: nat | k <= i :: Net(lines[k]) == 0
    ensures ContextOf(Changes(lines), i) == [] <==> forall k: nat | k <= i :: Net(lines[k]) == 0
    decreases i
  {
    hide OpenLines, Proper, StackAfter, Depth, Net;
    var changes := Changes(lines);
    ProperIsFollowed(lines, i);
    ProperIsFollowed(lines, i + 1);
    NothingAtFirst(lines);
    if i > 0 {
      ContextIsOpenLinesIff(lines, i - 1);
    }
    if Net(lines[i]) == 0 {
      NoChange(changes, i);
    } else if StackAfter(changes, i + 1) == [] {
      EmptiedWasOpen(changes, i);
    }
  }

  lemma NoChange(changes: map<nat, int>, i: nat)
    requires i !in changes
    ensures StackAfter(changes, i + 1) == StackAfter(changes, i)
  {
  }

  /** A change that leaves the stack empty has popped something from it. */
  lemma EmptiedWasOpen(changes: map<nat, int>, i: nat)
    requires i in changes && StackAfter(changes, i + 1) == []
    ensures StackAfter(changes, i) != [] && i > 0
  {
  }

  lemma NothingAtFirst(lines: seq<string>)
    ensures OpenLines(lines, 0) == []
  {
  }

  // ----- one block a line -----

  /** Every line opens or closes at most one block net, and no bracket is closed that was not opened. */
  ghost predicate OneBlockNet(lines: seq<string>) {
    && (forall i | 0 <= i < |lines| :: -1 <= Net(lines[i]) <= 1)
    && (forall n: nat | n < |lines| :: Low(lines, n) >= 0)
  }

  /** A line that does not both close an earlier block and open one in its place: its lowest depth is that
      at its beginning or at its end. */
  predicate Pure(line: string) {
    Dip(line) == 0 || Dip(line) == Net(line)
  }

  /** The open lines of such a text: entry `j` opened its block at depth `j`, and no other. */
  ghost predicate Staircase(lines: seq<string>, n: nat)
    requires n <= |lines|
  {
    var o := OpenLines(lines, n);
    && |o| == Depth(lines, n)
    && (forall j | 0 <= j < |o| :: Low(lines, o[j]) == j && Depth(lines, o[j] + 1) == j + 1)
  }

  lemma PureIffProper(lines: seq<string>, n: nat)
    requires OneBlockNet(lines) && n < |lines| && Staircase(lines, n)
    ensures Pure(lines[n]) <==> Proper(lines, n)
  {
    hide OpenLines, Net, Dip;
    DepthEnds(lines, n);
    var o := OpenLines(lines, n);
    assert Depth(lines, n + 1) == Depth(lines, n) + Net(lines[n]);
    assert o != [] ==> Low(lines, o[|o| - 1]) == |o| - 1 && Depth(lines, o[|o| - 1] + 1) == |o|;
    assert |o| > 1 ==> Low(lines, o[|o| - 2]) == |o| - 2;
    assert Low(lines, n) >= 0;
  }

  lemma StaircaseStep(lines: seq<string>, n: nat)
    requires OneBlockNet(lines) && n < |lines| && Staircase(lines, n) && Pure(lines[n])
    ensures Staircase(lines, n + 1)
  {
    hide OpenLines, Net, Dip;
    DepthEnds(lines, n);
    var o := OpenLines(lines, n);
    assert Depth(lines, n + 1) == Depth(lines, n) + Net(lines[n]);
    assert Low(lines, n) >= 0;
    var m := OpenAfter(lines, n);
    if Net(lines[n]) < 0 {
      assert |o| - 1 < m <==> Low(lines, o[|o| - 1]) < Low(lines, n);
      assert |o| > 1 ==> (|o| - 2 < m <==> Low(lines, o[|o| - 2]) < Low(lines, n));
      assert m == |o| - 1;
    } else {
      assert o != [] ==> (|o| - 1 < m <==> Low(lines, o[|o| - 1]) < Low(lines, n));
      assert m == |o| && o[..m] == o;
    }
  }

  lemma {:induction false} PureIsStaircase(lines: seq<string>, n: nat)
    requires OneBlockNet(lines) && n <= |lines| && forall k: nat | k < n :: Pure(lines[k])
    ensures Staircase(lines, n) && ProperBelow(lines, n)
    decreases n
  {
    hide Pure, Proper, OpenLines;
    if n > 0 {
      PureIsStaircase(lines, n - 1);
      PureIffProper(lines, n - 1);
      StaircaseStep(lines, n - 1);
    } else {
      NothingAtFirst(lines);
    }
  }

  lemma {:induction false} FollowedIsPure(lines: seq<string>, n: nat)
    requires OneBlockNet(lines) && n <= |lines|
    requires forall k: nat | k <= n :: StackAfter(Changes(lines), k) == OpenLines(lines, k)
    ensures forall k: nat | k < n :: Pure(lines[k])
    decreases n
  {
    hide Pure, Proper, OpenLines, StackAfter, OneBlockNet;
    if n > 0 {
      FollowedIsPure(lines, n - 1);
      PureIsStaircase(lines, n - 1);
      StepIsExact(lines, n - 1);
      PureIffProper(lines, n - 1);
    }
  }

  /** In a text with at most one block opened or closed net on each line, the stack is the list of the open
      lines after every line if and only if no line closes an earlier block and opens one in its place. */
  lemma OneBlockIff(lines: seq<string>)
    requires OneBlockNet(lines)
    ensures (forall n: nat | n <= |lines| :: StackAfter(Changes(lines), n) == OpenLines(lines, n)) <==>
            (forall k: nat | k < |lines| :: Pure(lines[k]))
  {
    hide *;
    if forall k: nat | k < |lines| :: Pure(lines[k]) {
      forall n: nat | n <= |lines| ensures StackAfter(Changes(lines), n) == OpenLines(lines, n) {
        PureStack(lines, n);
      }
    }
    if forall n: nat | n <= |lines| :: StackAfter(Changes(lines), n) == OpenLines(lines, n) {
      FollowedIsPure(lines, |lines|);
    }
  }

  lemma PureStack(lines: seq<string>, n: nat)
    requires OneBlockNet(lines) && n <= |lines| && forall k: nat | k < n :: Pure(lines[k])
    ensures Staircase(lines, n) && ProperBelow(lines, n)
    ensures StackAfter(Changes(lines), n) == OpenLines(lines, n)
  {
    hide Pure, Proper, OpenLines, StackAfter, OneBlockNet, Staircase;
    PureIsStaircase(lines, n);
    ProperIsFollowed(lines, n);
  }

  /** The texts whose lines each open one block, or close one, or neither. */
  ghost predicate OneBlockALine(lines: seq<string>) {
    OneBlockNet(lines) && forall k: nat | k < |lines| :: Pure(lines[k])
  }

  /** In such a text the stack is the list of the open lines after every line, its entry `j` stands at depth
      `j + 1`, and the context of a line after which some block is open is that list. */
  lemma OneBlockContexts(lines: seq<string>, n: nat)
    requires OneBlockALine(lines) && n <= |lines|
    ensures var s := StackAfter(Changes(lines), n);
            && s == OpenLines(lines, n)
            && |s| == Depth(lines, n)
            && (forall j | 0 <= j < |s| :: s[j] in Changes(lines) && Changes(lines)[s[j]] == j + 1)
    ensures n > 0 && Depth(lines, n) > 0 ==> ContextOf(Changes(lines), n - 1) == OpenLines(lines, n)
  {
    hide Pure, Proper, OpenLines, OneBlockNet, Net, Depth, Low, StackAfter, ContextOf, ProperBelow;
    PureStack(lines, n);
    if n > 0 {
      ContextIsOpenLinesIff(lines, n - 1);
    }
  }

  // ----- a line that closes a block and opens another -----

  const CLOSE_AND_OPEN: seq<string> := ["[", "{", "},{", "}", "]"]

  lemma ShortLines()
    ensures Net("[") == 1 && Dip("[") == 0 && Net("{") == 1 && Dip("{") == 0
    ensures Net("}") == -1 && Dip("}") == -1 && Net("]") == -1 && Dip("]") == -1
    ensures Net("},{") == 0 && Dip("},{") == -1
  {
    assert Front("[") == "" && Front("{") == "" && Front("}") == "" && Front("]") == "";
    assert Front("},") == "}" && Front("},{") == "},";
  }

  lemma ShortDepths()
    ensures var lines := CLOSE_AND_OPEN;
            && Depth(lines, 0) == 0 && Depth(lines, 1) == 1 && Depth(lines, 2) == 2
            && Depth(lines, 3) == 2 && Depth(lines, 4) == 1 && Depth(lines, 5) == 0
            && Low(lines, 0) == 0 && Low(lines, 1) == 1 && Low(lines, 2) == 1
            && Low(lines, 3) == 1 && Low(lines, 4) == 0
  {
    hide Net, Dip;
    ShortLines();
    var lines := CLOSE_AND_OPEN;
    assert Depth(lines, 1) == Depth(lines, 0) + Net(lines[0]);
    assert Depth(lines, 2) == Depth(lines, 1) + Net(lines[1]);
    assert Depth(lines, 3) == Depth(lines, 2) + Net(lines[2]);
    assert Depth(lines, 4) == Depth(lines, 3) + Net(lines[3]);
    assert Depth(lines, 5) == Depth(lines, 4) + Net(lines[4]);
  }

  /** Bracket matching fails on a well-bracketed text with at most one block a line net: behind `},{` the
      open lines are those of the outer block and of the new one, and the context still names the closed
      one. */
  lemma ClosedBlockStays()
    ensures OneBlockNet(CLOSE_AND_OPEN) && Depth(CLOSE_AND_OPEN, 5) == 0
    ensures OpenLines(CLOSE_AND_OPEN, 3) == [0, 2]
    ensures ContextOf(Changes(CLOSE_AND_OPEN), 2) == [0, 1]
  {
    var lines := CLOSE_AND_OPEN;
    ShortIsOneBlock();
    ShortDepths();
    hide Net, Dip, Depth, Low, OpenLines, OneBlockNet;
    ShortOpenLines();
    var two := OpenLines(lines, 2);
    var m := OpenAfter(lines, 2);
    assert two[0] == 0 && two[1] == 1 && m == 1;
    assert OpenLines(lines, 3) == [0, 2];
    ShortStack();
  }

  lemma ShortIsOneBlock()
    ensures OneBlockNet(CLOSE_AND_OPEN)
  {
    ShortLines();
    ShortDepths();
    hide Net, Depth, Low;
    assert |CLOSE_AND_OPEN| == 5;
  }

  lemma ShortOpenLines()
    ensures OpenLines(CLOSE_AND_OPEN, 2) == [0, 1]
  {
    var lines := CLOSE_AND_OPEN;
    ShortDepths();
    hide Net, Dip, Depth, Low, OpenLines;
    NothingAtFirst(lines);
    var m := OpenAfter(lines, 0);
    assert OpenLines(lines, 1) == [0];
    var one := OpenLines(lines, 1);
    m := OpenAfter(lines, 1);
    assert one[0] == 0 && m == 1;
  }

  lemma ShortStack()
    ensures ContextOf(Changes(CLOSE_AND_OPEN), 2) == [0, 1]
  {
    ShortLines();
    ShortDepths();
    hide Net, Depth;
    var changes := Changes(CLOSE_AND_OPEN);
    assert StackAfter(changes, 1) == [0];
    assert StackAfter(changes, 2) == [0, 1];
    assert 2 !in changes;
  }

  // ----- from text to contexts -----

  /** The contexts of a text: where every line so far is proper and some block is open, the open lines. */
  method ContextsOfText(lines: seq<string>) returns (contexts: seq<seq<nat>>)
    ensures |contexts| == |lines|
    ensures forall i: nat | i < |lines| && ProperBelow(lines, i + 1) && OpenLines(lines, i + 1) != [] ::
              contexts[i] == OpenLines(lines, i + 1)
    ensures OneBlockALine(lines) ==>
              forall i: nat | i < |lines| && Depth(lines, i + 1) > 0 :: contexts[i] == OpenLines(lines, i + 1)
  {
    hide ProperBelow, OpenLines, OneBlockALine, ContextOf, Changes;
    var changes := CollectDepths(lines);
    contexts := BuildContextHierarchy(|lines|, changes);
    forall i: nat | i < |lines| && ProperBelow(lines, i + 1) && OpenLines(lines, i + 1) != []
      ensures contexts[i] == OpenLines(lines, i + 1)
    {
      ContextIsOpenLinesIff(lines, i);
    }
    if OneBlockALine(lines) {
      forall i: nat | i < |lines| && Depth(lines, i + 1) > 0
        ensures contexts[i] == OpenLines(lines, i + 1)
      {
        OneBlockContexts(lines, i + 1);
      }
    }
  }
}
