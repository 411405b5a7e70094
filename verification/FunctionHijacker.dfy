/** `FunctionHijacker`: functions stored as attributes are replaced, replaced again and put back. */
module FunctionHijacker {
  import opened PyValues
  import opened Attributes

  /** A function value: a plain one, or the wrapper that gives the original's arguments, by name, to a
      replacement. */
  datatype Func = Plain(id: nat) | KwargsWrapper(original: Func, replacement: Func)

  /** How many wrappers lie around the function that a wrapper takes its signature from. */
  function Layers(f: Func): nat {
    if f.Plain? then 0 else 1 + Layers(f.original)
  }

  datatype State = State(originals: map<Target, Func>, hijacked: map<Target, Target>, attrs: map<Target, Func>)

  function Start(initial: map<Target, Func>): State {
    State(map[], map[], initial)
  }

  ghost predicate Consistent(s: State) {
    s.originals.Keys == s.hijacked.Keys && forall t | t in s.hijacked :: s.hijacked[t] == t
  }

  datatype Step = Hijack(target: Target, replacement: Func) | Restore(target: Target) | RestoreAll

  /** One step; hijacking an attribute that does not exist raises before anything has changed. */
  ghost function Apply(s: State, step: Step): (r: State)
    requires Consistent(s)
    ensures Consistent(r)
  {
    match step
    case Hijack(t, f) =>
      if t in s.originals then s.(attrs := s.attrs[t := KwargsWrapper(s.originals[t], f)])
      else if t !in s.attrs then s
      else State(s.originals[t := s.attrs[t]], s.hijacked[t := t], s.attrs[t := KwargsWrapper(s.attrs[t], f)])
    case Restore(t) =>
      if t in s.originals then State(s.originals - {t}, s.hijacked - {t}, s.attrs[t := s.originals[t]]) else s
    case RestoreAll =>
      State(map[], map[], s.attrs + s.originals)
  }

  ghost function Run(s: State, steps: seq<Step>): (r: State)
    requires Consistent(s)
    ensures Consistent(r)
    decreases |steps|
  {
    if steps == [] then s else Apply(Run(s, Front(steps)), Last(steps))
  }

  /** The replacement a target should have: the latest one since it was last restored, if any. */
  function Latest(steps: seq<Step>, t: Target): Option<Func>
    decreases |steps|
  {
    if steps == [] then None
    else
      match Last(steps)
      case Hijack(u, f) => if u == t then Some(f) else Latest(Front(steps), t)
      case Restore(u) => if u == t then None else Latest(Front(steps), t)
      case RestoreAll => None
  }

  /** A step that decides anew what replaces a target. */
  predicate Decides(step: Step, t: Target) {
    step == RestoreAll || (!step.RestoreAll? && step.target == t)
  }

  /** A replacement is the latest if and only if some step hijacks the target with it and no later step
      hijacks or restores the target. */
  lemma {:induction false} LatestIff(steps: seq<Step>, t: Target, f: Func)
    ensures Latest(steps, t) == Some(f) <==>
            exists i :: && 0 <= i < |steps| && steps[i] == Hijack(t, f)
                        && forall j | i < j < |steps| :: !Decides(steps[j], t)
    decreases |steps|
  {
    if steps != [] {
      var n := |steps| - 1;
      LatestIff(Front(steps), t, f);
      assert steps[n] == Last(steps) && forall i | 0 <= i < n :: Front(steps)[i] == steps[i];
      if Latest(Front(steps), t) == Some(f) && !Decides(Last(steps), t) {
        var i :| && 0 <= i < n && Front(steps)[i] == Hijack(t, f)
                 && forall j | i < j < n :: !Decides(Front(steps)[j], t);
        assert steps[i] == Hijack(t, f) && forall j | i < j < |steps| :: !Decides(steps[j], t);
      }
    }
  }

  /** What a run of steps leaves behind, written from the steps alone: an attribute with a replacement
      in force is one wrapper over the function that was there from the start, and every other
      attribute is what it was. */
  function Intended(initial: map<Target, Func>, steps: seq<Step>): State {
    State(map t | t in initial && Latest(steps, t).Some? :: initial[t],
          map t | t in initial && Latest(steps, t).Some? :: t,
          map t | t in initial ::
            match Latest(steps, t) case Some(f) => KwargsWrapper(initial[t], f) case None => initial[t])
  }

  /** The replacement in force for a target after one more step. */
  lemma LatestStep(steps: seq<Step>, t: Target)
    requires steps != []
    ensures match Last(steps)
            case Hijack(u, f) => Latest(steps, t) == if u == t then Some(f) else Latest(Front(steps), t)
            case Restore(u) => Latest(steps, t) == if u == t then None else Latest(Front(steps), t)
            case RestoreAll => Latest(steps, t) == None
  {
  }

  lemma HijackIntended(initial: map<Target, Func>, steps: seq<Step>)
    requires steps != [] && Last(steps).Hijack? && Consistent(Intended(initial, Front(steps)))
    ensures Apply(Intended(initial, Front(steps)), Last(steps)) == Intended(initial, steps)
  {
    hide Latest;
    var u, f := Last(steps).target, Last(steps).replacement;
    var next, r := Intended(initial, steps), Apply(Intended(initial, Front(steps)), Last(steps));
    forall t ensures Latest(steps, t) == if u == t then Some(f) else Latest(Front(steps), t) {
      LatestStep(steps, t);
    }
    assert r.attrs == next.attrs;
    assert r.originals == next.originals;
    assert r.hijacked == next.hijacked;
  }

  lemma RestoreIntended(initial: map<Target, Func>, steps: seq<Step>)
    requires steps != [] && !Last(steps).Hijack? && Consistent(Intended(initial, Front(steps)))
    ensures Apply(Intended(initial, Front(steps)), Last(steps)) == Intended(initial, steps)
  {
    hide Latest;
    var next, r := Intended(initial, steps), Apply(Intended(initial, Front(steps)), Last(steps));
    var all := Last(steps).RestoreAll?;
    forall t ensures Latest(steps, t) == if all || Last(steps).target == t then None else Latest(Front(steps), t) {
      LatestStep(steps, t);
    }
    assert r.attrs == next.attrs;
    assert r.originals == next.originals;
    assert r.hijacked == next.hijacked;
  }

  /** After every run of hijacks, repeated hijacks and restores of any targets, the attributes and both
      tables are exactly what the steps intend. */
  lemma {:induction false} RunIsIntended(initial: map<Target, Func>, steps: seq<Step>)
    ensures Run(Start(initial), steps) == Intended(initial, steps)
    decreases |steps|
  {
    if steps == [] {
      assert Intended(initial, steps) == Start(initial);
    } else {
      RunIsIntended(initial, Front(steps));
      if Last(steps).Hijack? {
        HijackIntended(initial, steps);
      } else {
        RestoreIntended(initial, steps);
      }
    }
  }

  /** A hijacked attribute never has a wrapper around a wrapper: its layers are the original's and one
      more, whatever was hijacked before. */
  lemma OneLayer(initial: map<Target, Func>, steps: seq<Step>, t: Target)
    requires t in initial
    ensures var s := Run(Start(initial), steps);
            && t in s.attrs
            && Layers(s.attrs[t]) == Layers(initial[t]) + (if t in s.hijacked then 1 else 0)
  {
    RunIsIntended(initial, steps);
  }

  /** Steps on other targets leave an attribute alone. */
  lemma {:induction false} OthersUntouched(initial: map<Target, Func>, steps: seq<Step>, more: seq<Step>, t: Target)
    requires t in initial
    requires forall i | 0 <= i < |more| :: !more[i].RestoreAll? && more[i].target != t
    ensures t in Run(Start(initial), steps + more).attrs && t in Run(Start(initial), steps).attrs
    ensures Run(Start(initial), steps + more).attrs[t] == Run(Start(initial), steps).attrs[t]
    decreases |more|
  {
    RunIsIntended(initial, steps);
    RunIsIntended(initial, steps + more);
    LatestUntouched(steps, more, t);
  }

  lemma {:induction false} LatestUntouched(steps: seq<Step>, more: seq<Step>, t: Target)
    requires forall i | 0 <= i < |more| :: !more[i].RestoreAll? && more[i].target != t
    ensures Latest(steps + more, t) == Latest(steps, t)
    decreases |more|
  {
    if more == [] {
      assert steps + more == steps;
    } else {
      assert Front(steps + more) == steps + Front(more);
      assert Last(steps + more) == more[|more| - 1];
      LatestUntouched(steps, Front(more), t);
    }
  }

  /** From every reachable state, restoring everything gives back the initial attributes and empty
      tables. */
  lemma RestoreAllIsStart(initial: map<Target, Func>, steps: seq<Step>)
    ensures Run(Start(initial), steps + [RestoreAll]) == Start(initial)
  {
    RunIsIntended(initial, steps + [RestoreAll]);
    assert forall t :: Latest(steps + [RestoreAll], t) == None;
    assert Intended(initial, steps + [RestoreAll]) == Start(initial);
  }

  // ----- the hijacker itself -----

  /** A state in which some of the hijacked targets of `s` have been restored. */
  ghost function Restored(s: State, targets: set<Target>): (r: State)
    requires Consistent(s)
    ensures Consistent(r) && r.hijacked.Keys == s.hijacked.Keys - targets
  {
    State(s.originals - targets, s.hijacked - targets,
          PutBack(s.attrs, s.originals, targets))
  }

  lemma RestoredMore(s: State, targets: set<Target>, t: Target)
    requires Consistent(s) && t in s.hijacked && t !in targets
    ensures Apply(Restored(s, targets), Restore(t)) == Restored(s, targets + {t})
  {
    PutBackMore(s.attrs, s.originals, targets, t);
    DropMore(s.originals, targets, t);
    DropMore(s.hijacked, targets, t);
  }

  lemma RestoredEnds(s: State)
    requires Consistent(s)
    ensures Restored(s, {}) == s
    ensures Restored(s, s.hijacked.Keys) == Apply(s, RestoreAll)
  {
    assert s.originals - {} == s.originals && s.hijacked - {} == s.hijacked;
    var end := Restored(s, s.hijacked.Keys);
    assert end.originals == map[] && end.hijacked == map[];
    PutBackEnds(s.attrs, s.originals);
  }

  class FunctionHijacker {
    var originals: map<Target, Func>
    var hijacked: map<Target, Target>

    ghost function Snapshot(p: Program<Func>): State
      reads this, p
    {
      State(originals, hijacked, p.attrs)
    }

    constructor ()
      ensures forall p: Program<Func> :: Snapshot(p) == Start(p.attrs)
    {
      originals, hijacked := map[], map[];
    }

    method HijackFunction(p: Program<Func>, t: Target, replacement: Func) returns (raised: bool)
      requires Consistent(Snapshot(p))
      modifies this, p
      ensures Snapshot(p) == Apply(old(Snapshot(p)), Hijack(t, replacement))
      ensures raised <==> t !in old(originals) && t !in old(p.attrs)
    {
      if t !in originals {
        if t !in p.attrs {
          return true;
        }
        var original := p.attrs[t];
        originals := originals[t := original];
        hijacked := hijacked[t := t];
        p.attrs := p.attrs[t := KwargsWrapper(original, replacement)];
      } else {
        p.attrs := p.attrs[t := KwargsWrapper(originals[t], replacement)];
      }
      raised := false;
    }

    method RestoreFunction(p: Program<Func>, t: Target)
      requires Consistent(Snapshot(p))
      modifies this, p
      ensures Snapshot(p) == Apply(old(Snapshot(p)), Restore(t))
    {
      if t in originals {
        p.attrs := p.attrs[t := originals[t]];
        originals := originals - {t};
        hijacked := hijacked - {t};
      }
    }

    /** Restores the targets of a copy of the keys, one at a time and in any order. */
    method RestoreAll(p: Program<Func>)
      requires Consistent(Snapshot(p))
      modifies this, p
      ensures Snapshot(p) == Apply(old(Snapshot(p)), Step.RestoreAll)
    {
      hide Restored, Apply;
      var pending := hijacked.Keys;
      ghost var done: set<Target> := {};
      RestoredEnds(Snapshot(p));
      while pending != {}
        invariant pending !! done && pending + done == old(hijacked.Keys)
        invariant Snapshot(p) == Restored(old(Snapshot(p)), done)
        decreases |pending|
      {
        var t :| t in pending;
        RestoredMore(old(Snapshot(p)), done, t);
        RestoreFunction(p, hijacked[t]);
        pending := pending - {t};
        done := done + {t};
      }
    }

    function GetOriginalFunction(t: Target): Option<Func>
      reads this
    {
      if t in originals then Some(originals[t]) else None
    }
  }

  /** After any run, asking for the original gives the function that was there from the start exactly
      while a replacement is in force. */
  lemma OriginalIsKnown(h: FunctionHijacker, p: Program<Func>, initial: map<Target, Func>, steps: seq<Step>, t: Target)
    requires h.Snapshot(p) == Run(Start(initial), steps)
    ensures h.GetOriginalFunction(t) ==
            if t in initial && Latest(steps, t).Some? then Some(initial[t]) else None
  {
    RunIsIntended(initial, steps);
    assert h.originals == Intended(initial, steps).originals;
  }
}
