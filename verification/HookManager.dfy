/** `HookManager`: functions stored as attributes are wrapped so that hooks run around them, and put
    back. */
module HookManager {
  import opened PyValues
  import opened Attributes

  /** A function value: one that was there from the start, or the manager's wrapper around one. */
  datatype Func = Native(id: nat) | Wrapped(target: Target, original: Func)

  type Hook = nat

  datatype Kind = Before | After | Error

  type HookTable = map<Target, seq<Hook>>

  /** The manager's three hook tables. */
  datatype Hooks = Hooks(before: HookTable, after: HookTable, error: HookTable) {
    function Of(kind: Kind): HookTable {
      match kind
      case Before => before
      case After => after
      case Error => error
    }

    /** Registering one more hook. */
    function Add(kind: Kind, t: Target, h: Hook): Hooks {
      match kind
      case Before => this.(before := Append(before, t, h))
      case After => this.(after := Append(after, t, h))
      case Error => this.(error := Append(error, t, h))
    }

    function Drop(targets: set<Target>): Hooks {
      Hooks(before - targets, after - targets, error - targets)
    }
  }

  function HooksIn(table: HookTable, t: Target): seq<Hook> {
    if t in table then table[t] else []
  }

  function Append(table: HookTable, t: Target, h: Hook): HookTable {
    table[t := HooksIn(table, t) + [h]]
  }

  const NO_HOOKS := Hooks(map[], map[], map[])

  /** The manager's tables and the attributes of the program. */
  datatype State = State(hooks: Hooks, originals: map<Target, Func>, hooked: map<Target, Target>,
                         attrs: map<Target, Func>)

  function Start(initial: map<Target, Func>): State {
    State(NO_HOOKS, map[], map[], initial)
  }

  datatype Step = AddHook(kind: Kind, target: Target, hook: Hook) | Restore(target: Target) | RestoreAll

  /** The two tables of hooked targets go together, and a target is filed under its own key. */
  ghost predicate Consistent(s: State) {
    s.originals.Keys == s.hooked.Keys && forall t | t in s.hooked :: s.hooked[t] == t
  }

  /** One step; reading an attribute that does not exist raises before anything has changed. */
  ghost function Apply(s: State, step: Step): (r: State)
    requires Consistent(s)
    ensures Consistent(r)
  {
    match step
    case AddHook(kind, t, h) =>
      if t in s.hooked then s.(hooks := s.hooks.Add(kind, t, h))
      else if t !in s.attrs then s
      else State(s.hooks.Add(kind, t, h), s.originals[t := s.attrs[t]], s.hooked[t := t],
                 s.attrs[t := Wrapped(t, s.attrs[t])])
    case Restore(t) =>
      if t in s.hooked then
        State(s.hooks.Drop({t}), s.originals - {t}, s.hooked - {t}, s.attrs[s.hooked[t] := s.originals[t]])
      else s
    case RestoreAll =>
      State(s.hooks.Drop(s.hooked.Keys), map[], map[], s.attrs + s.originals)
  }

  ghost function Run(s: State, steps: seq<Step>): (r: State)
    requires Consistent(s)
    ensures Consistent(r)
    decreases |steps|
  {
    if steps == [] then s else Apply(Run(s, Front(steps)), Last(steps))
  }

  ghost predicate OnlyHookedHaveHooks(s: State) {
    forall kind :: s.hooks.Of(kind).Keys <= s.hooked.Keys
  }

  ghost predicate Wrapping(initial: map<Target, Func>, s: State) {
    && s.attrs.Keys == initial.Keys
    && s.hooked.Keys <= initial.Keys
    && (forall t | t in initial :: s.attrs[t] == if t in s.hooked then Wrapped(t, initial[t]) else initial[t])
    && (forall t | t in s.originals :: t in initial && s.originals[t] == initial[t])
  }

  /** What every reachable state looks like: a hooked attribute is the wrapper around the function
      that was there from the start, any other attribute is as it was, and only hooked targets have
      hooks. */
  ghost predicate Invariant(initial: map<Target, Func>, s: State) {
    Consistent(s) && OnlyHookedHaveHooks(s) && Wrapping(initial, s)
  }

  /** What a step does to one hook list. */
  function Listed(hooks: seq<Hook>, kind: Kind, t: Target, step: Step): seq<Hook> {
    match step
    case AddHook(k, u, h) => if k == kind && u == t then hooks + [h] else hooks
    case Restore(u) => if u == t then [] else hooks
    case RestoreAll => []
  }

  lemma AddedTo(hooks: Hooks, k: Kind, u: Target, h: Hook, kind: Kind, t: Target)
    ensures HooksIn(hooks.Add(k, u, h).Of(kind), t) == Listed(HooksIn(hooks.Of(kind), t), kind, t, AddHook(k, u, h))
    ensures hooks.Add(k, u, h).Of(kind).Keys <= hooks.Of(kind).Keys + {u}
  {
  }

  lemma DroppedFrom(hooks: Hooks, targets: set<Target>, kind: Kind, t: Target)
    ensures HooksIn(hooks.Drop(targets).Of(kind), t) == if t in targets then [] else HooksIn(hooks.Of(kind), t)
    ensures hooks.Drop(targets).Of(kind).Keys == hooks.Of(kind).Keys - targets
  {
  }

  lemma StepKeepsHooks(s: State, step: Step)
    requires Consistent(s) && OnlyHookedHaveHooks(s)
    ensures OnlyHookedHaveHooks(Apply(s, step))
  {
    var next := Apply(s, step);
    forall kind
      ensures next.hooks.Of(kind).Keys <= next.hooked.Keys
    {
      assert s.hooks.Of(kind).Keys <= s.hooked.Keys;
      match step
      case AddHook(k, t, h) => AddedTo(s.hooks, k, t, h, kind, t);
      case Restore(t) => DroppedFrom(s.hooks, {t}, kind, t);
      case RestoreAll => DroppedFrom(s.hooks, s.hooked.Keys, kind, Target(0, ""));
    }
  }

  lemma StepKeepsWrapping(initial: map<Target, Func>, s: State, step: Step)
    requires Consistent(s) && Wrapping(initial, s)
    ensures Wrapping(initial, Apply(s, step))
  {
  }

  lemma StepKeepsInvariant(initial: map<Target, Func>, s: State, step: Step)
    requires Invariant(initial, s)
    ensures Invariant(initial, Apply(s, step))
  {
    StepKeepsHooks(s, step);
    StepKeepsWrapping(initial, s, step);
  }

  lemma {:induction false} RunKeepsInvariant(initial: map<Target, Func>, steps: seq<Step>)
    ensures Invariant(initial, Run(Start(initial), steps))
    decreases |steps|
  {
    if steps != [] {
      RunKeepsInvariant(initial, Front(steps));
      StepKeepsInvariant(initial, Run(Start(initial), Front(steps)), Last(steps));
    }
  }

  /** Whatever has been hooked, hooked again and restored, restoring everything gives back exactly
      the state in which nothing had ever been hooked. */
  lemma RestoreAllIsStart(initial: map<Target, Func>, steps: seq<Step>)
    ensures Run(Start(initial), steps + [RestoreAll]) == Start(initial)
  {
    assert Front(steps + [RestoreAll]) == steps;
    RunKeepsInvariant(initial, steps);
    var s := Run(Start(initial), steps);
    assert s.attrs + s.originals == initial;
    assert forall kind :: s.hooks.Of(kind).Keys <= s.hooked.Keys;
    assert s.hooks.Of(Before) == s.hooks.before && s.hooks.Of(After) == s.hooks.after &&
           s.hooks.Of(Error) == s.hooks.error;
    assert s.hooks.Drop(s.hooked.Keys) == NO_HOOKS;
  }

  /** The hooks a target should have: those added since it was last restored, in that order. */
  function Expected(steps: seq<Step>, kind: Kind, t: Target): seq<Hook>
    decreases |steps|
  {
    if steps == [] then [] else Listed(Expected(Front(steps), kind, t), kind, t, Last(steps))
  }

  /** A step that takes the hooks of a target away. */
  predicate Clears(step: Step, t: Target) {
    step == Restore(t) || step == RestoreAll
  }

  /** The places of the steps that add these hooks, in the order of the steps: all those, and only those, that
      add a hook of this kind to the target and behind which nothing restores it. */
  ghost predicate AddedBy(steps: seq<Step>, kind: Kind, t: Target, hooks: seq<Hook>, places: seq<nat>) {
    && |places| == |hooks|
    && (forall k | 0 <= k < |hooks| :: places[k] < |steps| && steps[places[k]] == AddHook(kind, t, hooks[k]))
    && (forall j, k | 0 <= j < k < |places| :: places[j] < places[k])
    && (forall i: nat :: i in places <==> InForce(steps, i, kind, t))
  }

  /** The step adds a hook of this kind to the target, and nothing behind it restores the target. */
  ghost predicate InForce(steps: seq<Step>, i: nat, kind: Kind, t: Target) {
    && i < |steps| && steps[i].AddHook? && steps[i].kind == kind && steps[i].target == t
    && forall j | i < j < |steps| :: !Clears(steps[j], t)
  }

  predicate Adds(step: Step, kind: Kind, t: Target) {
    step.AddHook? && step.kind == kind && step.target == t
  }

  lemma InForceStep(steps: seq<Step>, step: Step, i: nat, kind: Kind, t: Target)
    ensures InForce(steps + [step], i, kind, t) <==>
            (InForce(steps, i, kind, t) && !Clears(step, t)) || (i == |steps| && Adds(step, kind, t))
  {
    var next := steps + [step];
    assert next[|steps|] == step && forall k | 0 <= k < |steps| :: next[k] == steps[k];
  }

  /** The expected hooks are exactly these. */
  lemma {:induction false} ExpectedInOrder(steps: seq<Step>, kind: Kind, t: Target) returns (places: seq<nat>)
    ensures AddedBy(steps, kind, t, Expected(steps, kind, t), places)
    decreases |steps|
  {
    places := [];
    if steps != [] {
      hide AddedBy, Expected;
      var before, step := Front(steps), Last(steps);
      places := ExpectedInOrder(before, kind, t);
      ExpectedStep(steps, kind, t);
      AddedByStep(before, step, kind, t, Expected(before, kind, t), places);
      assert steps == before + [step];
      if Clears(step, t) {
        places := [];
      } else if Adds(step, kind, t) {
        places := places + [|before|];
      }
    }
  }

  lemma ExpectedStep(steps: seq<Step>, kind: Kind, t: Target)
    requires steps != []
    ensures Expected(steps, kind, t) == Listed(Expected(Front(steps), kind, t), kind, t, Last(steps))
  {
  }

  lemma AddedByStep(steps: seq<Step>, step: Step, kind: Kind, t: Target, hooks: seq<Hook>, places: seq<nat>)
    requires AddedBy(steps, kind, t, hooks, places)
    ensures Clears(step, t) ==> AddedBy(steps + [step], kind, t, [], [])
    ensures Adds(step, kind, t) ==> AddedBy(steps + [step], kind, t, hooks + [step.hook], places + [|steps|])
    ensures !Clears(step, t) && !Adds(step, kind, t) ==> AddedBy(steps + [step], kind, t, hooks, places)
  {
    hide InForce;
    forall i: nat
      ensures InForce(steps + [step], i, kind, t) <==>
              (InForce(steps, i, kind, t) && !Clears(step, t)) || (i == |steps| && Adds(step, kind, t))
    {
      InForceStep(steps, step, i, kind, t);
    }
    if Adds(step, kind, t) {
      PlacesPush(steps, step, kind, t, hooks, places);
    }
  }

  lemma PlacesPush(steps: seq<Step>, step: Step, kind: Kind, t: Target, hooks: seq<Hook>, places: seq<nat>)
    requires AddedBy(steps, kind, t, hooks, places) && Adds(step, kind, t)
    requires forall i: nat :: InForce(steps + [step], i, kind, t) <==> InForce(steps, i, kind, t) || i == |steps|
    ensures AddedBy(steps + [step], kind, t, hooks + [step.hook], places + [|steps|])
  {
    hide InForce;
    var next, more, all := steps + [step], hooks + [step.hook], places + [|steps|];
    forall k | 0 <= k < |more|
      ensures all[k] < |next| && next[all[k]] == AddHook(kind, t, more[k])
    {
      if k < |hooks| {
        assert next[all[k]] == steps[places[k]];
      }
    }
    assert forall i: nat :: i in all <==> i in places || i == |steps|;
  }

  /** Every step changes the hooks of an existing attribute as it should, and hooks or unhooks it. */
  lemma HooksStep(initial: map<Target, Func>, s: State, step: Step, kind: Kind, t: Target)
    requires Invariant(initial, s) && t in initial
    ensures var next := Apply(s, step);
            HooksIn(next.hooks.Of(kind), t) == Listed(HooksIn(s.hooks.Of(kind), t), kind, t, step)
  {
    assert s.hooks.Of(kind).Keys <= s.hooked.Keys;
    match step
    case AddHook(k, u, h) => AddedTo(s.hooks, k, u, h, kind, t);
    case Restore(u) => DroppedFrom(s.hooks, {u}, kind, t);
    case RestoreAll => DroppedFrom(s.hooks, s.hooked.Keys, kind, t);
  }

  /** Whether a target is hooked: some hook was added since it was last restored. */
  predicate HookedBy(steps: seq<Step>, t: Target)
    decreases |steps|
  {
    steps != [] &&
    match Last(steps)
    case AddHook(_, u, _) => u == t || HookedBy(Front(steps), t)
    case Restore(u) => u != t && HookedBy(Front(steps), t)
    case RestoreAll => false
  }

  lemma {:induction false} HookedHasHooks(steps: seq<Step>, t: Target)
    ensures HookedBy(steps, t) <==>
            Expected(steps, Before, t) != [] || Expected(steps, After, t) != [] || Expected(steps, Error, t) != []
    decreases |steps|
  {
    if steps != [] {
      HookedHasHooks(Front(steps), t);
    }
  }

  lemma {:induction false} HookedIsExpected(initial: map<Target, Func>, steps: seq<Step>, t: Target)
    requires t in initial
    ensures t in Run(Start(initial), steps).hooked <==> HookedBy(steps, t)
    decreases |steps|
  {
    if steps != [] {
      HookedIsExpected(initial, Front(steps), t);
      RunKeepsInvariant(initial, Front(steps));
      var s := Run(Start(initial), Front(steps));
      assert Run(Start(initial), steps) == Apply(s, Last(steps));
      assert s.attrs.Keys == initial.Keys;
    }
  }

  lemma {:induction false} HooksAreListed(initial: map<Target, Func>, steps: seq<Step>, kind: Kind, t: Target)
    requires t in initial
    ensures HooksIn(Run(Start(initial), steps).hooks.Of(kind), t) == Expected(steps, kind, t)
    decreases |steps|
  {
    if steps != [] {
      HooksAreListed(initial, Front(steps), kind, t);
      RunKeepsInvariant(initial, Front(steps));
      var s := Run(Start(initial), Front(steps));
      HooksStep(initial, s, Last(steps), kind, t);
    }
  }

  /** After any run an existing attribute has exactly the hooks added since it was last restored, in
      order of registration, and it is hooked if and only if it has some. */
  lemma HooksAreExpected(initial: map<Target, Func>, steps: seq<Step>, t: Target)
    requires t in initial
    ensures var s := Run(Start(initial), steps);
            && HooksIn(s.hooks.before, t) == Expected(steps, Before, t)
            && HooksIn(s.hooks.after, t) == Expected(steps, After, t)
            && HooksIn(s.hooks.error, t) == Expected(steps, Error, t)
            && (t in s.hooked <==>
                Expected(steps, Before, t) != [] || Expected(steps, After, t) != [] || Expected(steps, Error, t) != [])
  {
    hide Run, Expected, HookedBy, HooksIn;
    HooksAreListed(initial, steps, Before, t);
    HooksAreListed(initial, steps, After, t);
    HooksAreListed(initial, steps, Error, t);
    HookedIsExpected(initial, steps, t);
    HookedHasHooks(steps, t);
  }

  // ----- calling a hooked function -----

  type Args = int
  type Kwargs = int
  type Result = int

  /** What the functions and hooks themselves do.  Hooks get the normalised arguments, which they may
      change for the hooks after them, and may raise; they do not touch the manager. */
  datatype World = World(
    native: (nat, Args) -> Outcome<Result>,
    normalize: (Func, Args) -> Kwargs,
    before: (Hook, Func, Kwargs) -> (Kwargs, Outcome<()>),
    after: (Hook, Func, Kwargs, Result) -> (Kwargs, Outcome<Result>),
    error: (Hook, Func, Kwargs, Exn) -> (Kwargs, Outcome<()>))

  datatype Event = Ran(kind: Kind, hook: Hook) | Called(id: nat, args: Args)

  /** The events of a computation in order, and how it ended. */
  datatype Trace<+T> = Trace(events: seq<Event>, outcome: Outcome<T>)

  function RunBefore(w: World, hooks: seq<Hook>, f: Func, k: Kwargs): (Kwargs, Trace<()>)
    decreases |hooks|
  {
    if hooks == [] then (k, Trace([], Ok(())))
    else
      var (k', t) := RunBefore(w, Front(hooks), f, k);
      if t.outcome.Raise? then (k', t)
      else
        var (k'', o) := w.before(Last(hooks), f, k');
        (k'', Trace(t.events + [Ran(Before, Last(hooks))], o))
  }

  function RunError(w: World, hooks: seq<Hook>, f: Func, k: Kwargs, x: Exn): (Kwargs, Trace<()>)
    decreases |hooks|
  {
    if hooks == [] then (k, Trace([], Ok(())))
    else
      var (k', t) := RunError(w, Front(hooks), f, k, x);
      if t.outcome.Raise? then (k', t)
      else
        var (k'', o) := w.error(Last(hooks), f, k', x);
        (k'', Trace(t.events + [Ran(Error, Last(hooks))], o))
  }

  function RunAfter(w: World, hooks: seq<Hook>, f: Func, k: Kwargs, v: Result): (Kwargs, Trace<Result>)
    decreases |hooks|
  {
    if hooks == [] then (k, Trace([], Ok(v)))
    else
      var (k', t) := RunAfter(w, Front(hooks), f, k, v);
      if t.outcome.Raise? then (k', t)
      else
        var (k'', o) := w.after(Last(hooks), f, k', t.outcome.value);
        (k'', Trace(t.events + [Ran(After, Last(hooks))], o))
  }

  /** What a wrapper around `f` does with these hooks, when calling `f` itself does `c`. */
  function HookedCall(w: World, before: seq<Hook>, after: seq<Hook>, error: seq<Hook>, f: Func, args: Args,
                      c: Trace<Result>): Trace<Result> {
    var (k, b) := RunBefore(w, before, f, w.normalize(f, args));
    if b.outcome.Raise? then Trace(b.events, Raise(b.outcome.exn))
    else if c.outcome.Raise? then
      var (_, e) := RunError(w, error, f, k, c.outcome.exn);
      Trace(b.events + c.events + e.events, if e.outcome.Raise? then Raise(e.outcome.exn) else c.outcome)
    else
      var (_, a) := RunAfter(w, after, f, k, c.outcome.value);
      Trace(b.events + c.events + a.events, a.outcome)
  }

  /** Calling a function value: a wrapper looks its target's hooks up at the time of the call. */
  function Call(w: World, hooks: Hooks, f: Func, args: Args): Trace<Result>
  {
    match f
    case Native(id) => Trace([Called(id, args)], w.native(id, args))
    case Wrapped(t, original) =>
      HookedCall(w, HooksIn(hooks.before, t), HooksIn(hooks.after, t), HooksIn(hooks.error, t), original, args,
                 Call(w, hooks, original, args))
  }

  lemma NoHooksNothingDone(w: World, f: Func, args: Args, c: Trace<Result>)
    ensures HookedCall(w, [], [], [], f, args, c) == c
  {
    assert [] + c.events + [] == c.events;
  }

  lemma NothingListed(s: State, kind: Kind, t: Target)
    requires OnlyHookedHaveHooks(s) && t !in s.hooked
    ensures HooksIn(s.hooks.Of(kind), t) == []
  {
    assert s.hooks.Of(kind).Keys <= s.hooked.Keys;
  }

  /** A wrapper kept past a restore, and not hooked again, behaves as the original. */
  lemma StaleWrapperIsTransparent(w: World, initial: map<Target, Func>, steps: seq<Step>, t: Target, f: Func,
                                  args: Args)
    requires t in initial && t !in Run(Start(initial), steps).hooked
    ensures var s := Run(Start(initial), steps);
            Call(w, s.hooks, Wrapped(t, f), args) == Call(w, s.hooks, f, args)
  {
    hide Run;
    RunKeepsInvariant(initial, steps);
    var s := Run(Start(initial), steps);
    NothingListed(s, Before, t);
    NothingListed(s, After, t);
    NothingListed(s, Error, t);
    NoHooksTransparent(w, s.hooks, t, f, args);
  }

  lemma NoHooksTransparent(w: World, hooks: Hooks, t: Target, f: Func, args: Args)
    requires HooksIn(hooks.before, t) == [] && HooksIn(hooks.after, t) == [] && HooksIn(hooks.error, t) == []
    ensures Call(w, hooks, Wrapped(t, f), args) == Call(w, hooks, f, args)
  {
    NoHooksNothingDone(w, f, args, Call(w, hooks, f, args));
  }

  /** A call of an attribute after any run, whatever the hooks do: it is the call of the function that
      was there from the start, wrapped in exactly the hooks added since the last restore, or in none. */
  lemma CallUsesExpected(w: World, initial: map<Target, Func>, steps: seq<Step>, t: Target, args: Args)
    requires t in initial
    ensures var s := Run(Start(initial), steps);
            && t in s.attrs
            && Call(w, s.hooks, s.attrs[t], args) ==
               HookedCall(w, Expected(steps, Before, t), Expected(steps, After, t), Expected(steps, Error, t),
                          initial[t], args, Call(w, s.hooks, initial[t], args))
  {
    hide Run, Expected, HookedCall;
    RunKeepsInvariant(initial, steps);
    HooksAreExpected(initial, steps, t);
    var s := Run(Start(initial), steps);
    if t !in s.hooked {
      NoHooksNothingDone(w, initial[t], args, Call(w, s.hooks, initial[t], args));
    }
  }

  /** None of these hooks raises; they may change the arguments for those that run after them. */
  ghost predicate Quiet(w: World, before: seq<Hook>, after: seq<Hook>, error: seq<Hook>) {
    && (forall h, f, k | h in before :: w.before(h, f, k).1 == Ok(()))
    && (forall h, f, k, x | h in error :: w.error(h, f, k, x).1 == Ok(()))
    && (forall h, f, k, v | h in after :: w.after(h, f, k, v).1.Ok?)
  }

  /** The arguments as the before-hooks leave them, one after another. */
  function Passed(w: World, hooks: seq<Hook>, f: Func, k: Kwargs): Kwargs
    decreases |hooks|
  {
    if hooks == [] then k else w.before(Last(hooks), f, Passed(w, Front(hooks), f, k)).0
  }

  /** The arguments and the result as the after-hooks leave them, one after another. */
  function Fold(w: World, hooks: seq<Hook>, f: Func, k: Kwargs, v: Result): (Kwargs, Result)
    decreases |hooks|
  {
    if hooks == [] then (k, v)
    else
      var (k', v') := Fold(w, Front(hooks), f, k, v);
      var (k'', r) := w.after(Last(hooks), f, k', v');
      (k'', if r.Ok? then r.value else v')
  }

  function Events(kind: Kind, hooks: seq<Hook>): seq<Event>
    decreases |hooks|
  {
    if hooks == [] then [] else Events(kind, Front(hooks)) + [Ran(kind, Last(hooks))]
  }

  lemma {:induction false} QuietBefore(w: World, hooks: seq<Hook>, f: Func, k: Kwargs)
    requires forall h, f, k | h in hooks :: w.before(h, f, k).1 == Ok(())
    ensures RunBefore(w, hooks, f, k) == (Passed(w, hooks, f, k), Trace(Events(Before, hooks), Ok(())))
    decreases |hooks|
  {
    if hooks != [] {
      QuietBefore(w, Front(hooks), f, k);
    }
  }

  lemma {:induction false} QuietError(w: World, hooks: seq<Hook>, f: Func, k: Kwargs, x: Exn)
    requires forall h, f, k, x | h in hooks :: w.error(h, f, k, x).1 == Ok(())
    ensures RunError(w, hooks, f, k, x).1 == Trace(Events(Error, hooks), Ok(()))
    decreases |hooks|
  {
    if hooks != [] {
      QuietError(w, Front(hooks), f, k, x);
    }
  }

  lemma {:induction false} QuietAfter(w: World, hooks: seq<Hook>, f: Func, k: Kwargs, v: Result)
    requires forall h, f, k, v | h in hooks :: w.after(h, f, k, v).1.Ok?
    ensures var (k', v') := Fold(w, hooks, f, k, v);
            RunAfter(w, hooks, f, k, v) == (k', Trace(Events(After, hooks), Ok(v')))
    decreases |hooks|
  {
    if hooks != [] {
      QuietAfter(w, Front(hooks), f, k, v);
    }
  }

  /** What a call with these hooks does when none of them raises. */
  function QuietCall(w: World, before: seq<Hook>, after: seq<Hook>, error: seq<Hook>, id: nat, args: Args):
      Trace<Result>
  {
    var f := Native(id);
    var first := Events(Before, before) + [Called(id, args)];
    var k := Passed(w, before, f, w.normalize(f, args));
    var o := w.native(id, args);
    if o.Ok? then Trace(first + Events(After, after), Ok(Fold(w, after, f, k, o.value).1))
    else Trace(first + Events(Error, error), o)
  }

  /** With hooks that do not raise: the before-hooks run in the order in which they were added, then
      the original with the caller's own arguments whatever the hooks did to theirs, and then either all
      after-hooks, each fed the result of the one before it, or all error-hooks, with the original's
      exception raised again. */
  lemma CallAfterRun(w: World, initial: map<Target, Func>, steps: seq<Step>, t: Target, id: nat, args: Args)
    requires t in initial && initial[t] == Native(id)
    requires Quiet(w, Expected(steps, Before, t), Expected(steps, After, t), Expected(steps, Error, t))
    ensures var s := Run(Start(initial), steps);
            && t in s.attrs
            && Call(w, s.hooks, s.attrs[t], args) ==
               QuietCall(w, Expected(steps, Before, t), Expected(steps, After, t), Expected(steps, Error, t), id, args)
  {
    hide Run, Expected, HookedCall, QuietCall, Quiet;
    CallUsesExpected(w, initial, steps, t, args);
    HookedQuietCall(w, Expected(steps, Before, t), Expected(steps, After, t), Expected(steps, Error, t), id, args);
  }

  lemma HookedQuietCall(w: World, before: seq<Hook>, after: seq<Hook>, error: seq<Hook>, id: nat, args: Args)
    requires Quiet(w, before, after, error)
    ensures HookedCall(w, before, after, error, Native(id), args, Trace([Called(id, args)], w.native(id, args))) ==
            QuietCall(w, before, after, error, id, args)
  {
    hide RunBefore, RunAfter, RunError, Events, Fold, Passed;
    var f := Native(id);
    QuietBefore(w, before, f, w.normalize(f, args));
    var k := Passed(w, before, f, w.normalize(f, args));
    var o := w.native(id, args);
    if o.Ok? {
      QuietAfter(w, after, f, k, o.value);
    } else {
      QuietError(w, error, f, k, o.exn);
    }
  }

  // ----- hooks that raise -----

  /** The arguments as the error-hooks leave them, one after another. */
  function PassedError(w: World, hooks: seq<Hook>, f: Func, k: Kwargs, x: Exn): Kwargs
    decreases |hooks|
  {
    if hooks == [] then k else w.error(Last(hooks), f, PassedError(w, Front(hooks), f, k, x), x).0
  }

  /** The hooks before place `i` do not raise, and the one there raises `x`, each on the arguments that reach
      it. */
  ghost predicate FirstRaises(w: World, hooks: seq<Hook>, f: Func, k: Kwargs, i: nat, x: Exn) {
    && i < |hooks|
    && (forall j | 0 <= j < i :: w.before(hooks[j], f, Passed(w, hooks[..j], f, k)).1 == Ok(()))
    && w.before(hooks[i], f, Passed(w, hooks[..i], f, k)).1 == Raise(x)
  }

  ghost predicate FirstErrorRaises(w: World, hooks: seq<Hook>, f: Func, k: Kwargs, y: Exn, i: nat, x: Exn) {
    && i < |hooks|
    && (forall j | 0 <= j < i :: w.error(hooks[j], f, PassedError(w, hooks[..j], f, k, y), y).1 == Ok(()))
    && w.error(hooks[i], f, PassedError(w, hooks[..i], f, k, y), y).1 == Raise(x)
  }

  ghost predicate FirstAfterRaises(w: World, hooks: seq<Hook>, f: Func, k: Kwargs, v: Result, i: nat, x: Exn) {
    && i < |hooks|
    && (forall j | 0 <= j < i ::
          var (k', v') := Fold(w, hooks[..j], f, k, v); w.after(hooks[j], f, k', v').1.Ok?)
    && var (k', v') := Fold(w, hooks[..i], f, k, v); w.after(hooks[i], f, k', v').1 == Raise(x)
  }

  lemma {:induction false} BeforeUpTo(w: World, hooks: seq<Hook>, f: Func, k: Kwargs, i: nat)
    requires i <= |hooks| && forall j | 0 <= j < i :: w.before(hooks[j], f, Passed(w, hooks[..j], f, k)).1 == Ok(())
    ensures RunBefore(w, hooks[..i], f, k) == (Passed(w, hooks[..i], f, k), Trace(Events(Before, hooks[..i]), Ok(())))
  {
    if i > 0 {
      assert Front(hooks[..i]) == hooks[..i - 1];
      BeforeUpTo(w, hooks, f, k, i - 1);
    }
  }

  lemma {:induction false} ErrorUpTo(w: World, hooks: seq<Hook>, f: Func, k: Kwargs, y: Exn, i: nat)
    requires i <= |hooks|
    requires forall j | 0 <= j < i :: w.error(hooks[j], f, PassedError(w, hooks[..j], f, k, y), y).1 == Ok(())
    ensures RunError(w, hooks[..i], f, k, y) ==
            (PassedError(w, hooks[..i], f, k, y), Trace(Events(Error, hooks[..i]), Ok(())))
  {
    if i > 0 {
      assert Front(hooks[..i]) == hooks[..i - 1];
      ErrorUpTo(w, hooks, f, k, y, i - 1);
    }
  }

  lemma {:induction false} AfterUpTo(w: World, hooks: seq<Hook>, f: Func, k: Kwargs, v: Result, i: nat)
    requires i <= |hooks|
    requires forall j | 0 <= j < i ::
               var (k', v') := Fold(w, hooks[..j], f, k, v); w.after(hooks[j], f, k', v').1.Ok?
    ensures var (k', v') := Fold(w, hooks[..i], f, k, v);
            RunAfter(w, hooks[..i], f, k, v) == (k', Trace(Events(After, hooks[..i]), Ok(v')))
  {
    if i > 0 {
      assert Front(hooks[..i]) == hooks[..i - 1];
      AfterUpTo(w, hooks, f, k, v, i - 1);
    }
  }

  /** No hook runs after one that has raised. */
  lemma {:induction false} BeforeEnds(w: World, hooks: seq<Hook>, f: Func, k: Kwargs, i: nat, x: Exn)
    requires FirstRaises(w, hooks, f, k, i, x)
    ensures RunBefore(w, hooks, f, k).1 == Trace(Events(Before, hooks[..i + 1]), Raise(x))
    decreases |hooks|
  {
    if i == |hooks| - 1 {
      BeforeUpTo(w, hooks, f, k, i);
      assert Front(hooks) == hooks[..i] && hooks[..i + 1] == hooks;
    } else {
      var fewer := Front(hooks);
      assert forall j | 0 <= j <= i :: fewer[..j] == hooks[..j];
      BeforeEnds(w, fewer, f, k, i, x);
      assert fewer[..i + 1] == hooks[..i + 1];
    }
  }

  lemma {:induction false} ErrorEnds(w: World, hooks: seq<Hook>, f: Func, k: Kwargs, y: Exn, i: nat, x: Exn)
    requires FirstErrorRaises(w, hooks, f, k, y, i, x)
    ensures RunError(w, hooks, f, k, y).1 == Trace(Events(Error, hooks[..i + 1]), Raise(x))
    decreases |hooks|
  {
    if i == |hooks| - 1 {
      ErrorUpTo(w, hooks, f, k, y, i);
      assert Front(hooks) == hooks[..i] && hooks[..i + 1] == hooks;
    } else {
      var fewer := Front(hooks);
      assert forall j | 0 <= j <= i :: fewer[..j] == hooks[..j];
      ErrorEnds(w, fewer, f, k, y, i, x);
      assert fewer[..i + 1] == hooks[..i + 1];
    }
  }

  lemma {:induction false} AfterEnds(w: World, hooks: seq<Hook>, f: Func, k: Kwargs, v: Result, i: nat, x: Exn)
    requires FirstAfterRaises(w, hooks, f, k, v, i, x)
    ensures RunAfter(w, hooks, f, k, v).1 == Trace(Events(After, hooks[..i + 1]), Raise(x))
    decreases |hooks|
  {
    if i == |hooks| - 1 {
      AfterUpTo(w, hooks, f, k, v, i);
      assert Front(hooks) == hooks[..i] && hooks[..i + 1] == hooks;
    } else {
      var fewer := Front(hooks);
      assert forall j | 0 <= j <= i :: fewer[..j] == hooks[..j];
      AfterEnds(w, fewer, f, k, v, i, x);
      assert fewer[..i + 1] == hooks[..i + 1];
    }
  }

  /** A before-hook that raises: the hooks after it and the original are not run, and its exception goes
      out. */
  lemma RaisingBeforeHook(w: World, initial: map<Target, Func>, steps: seq<Step>, t: Target, args: Args, i: nat,
                          x: Exn)
    requires t in initial
    requires FirstRaises(w, Expected(steps, Before, t), initial[t], w.normalize(initial[t], args), i, x)
    ensures var s := Run(Start(initial), steps);
            && t in s.attrs
            && Call(w, s.hooks, s.attrs[t], args) ==
               Trace(Events(Before, Expected(steps, Before, t)[..i + 1]), Raise(x))
  {
    hide Run, Expected, RunBefore;
    CallUsesExpected(w, initial, steps, t, args);
    BeforeEnds(w, Expected(steps, Before, t), initial[t], w.normalize(initial[t], args), i, x);
  }

  /** A hook that raises behind an original that has been run: an after-hook's exception goes out although the
      original has returned, an error-hook's exception goes out instead of the original's, and in both cases
      the hooks after it are not run. */
  lemma RaisingLaterHook(w: World, initial: map<Target, Func>, steps: seq<Step>, t: Target, id: nat, args: Args, i: nat,
                         x: Exn)
    requires t in initial && initial[t] == Native(id)
    requires forall h, f, k | h in Expected(steps, Before, t) :: w.before(h, f, k).1 == Ok(())
    ensures var s := Run(Start(initial), steps);
            var first := Events(Before, Expected(steps, Before, t)) + [Called(id, args)];
            var k := Passed(w, Expected(steps, Before, t), initial[t], w.normalize(initial[t], args));
            var o := w.native(id, args);
            && t in s.attrs
            && (o.Ok? && FirstAfterRaises(w, Expected(steps, After, t), initial[t], k, o.value, i, x) ==>
                  Call(w, s.hooks, s.attrs[t], args) ==
                  Trace(first + Events(After, Expected(steps, After, t)[..i + 1]), Raise(x)))
            && (o.Raise? && FirstErrorRaises(w, Expected(steps, Error, t), initial[t], k, o.exn, i, x) ==>
                  Call(w, s.hooks, s.attrs[t], args) ==
                  Trace(first + Events(Error, Expected(steps, Error, t)[..i + 1]), Raise(x)))
  {
    hide Run, Expected, RunBefore, RunAfter, RunError, Events, Fold, Passed, PassedError;
    CallUsesExpected(w, initial, steps, t, args);
    var f := initial[t];
    QuietBefore(w, Expected(steps, Before, t), f, w.normalize(f, args));
    var k := Passed(w, Expected(steps, Before, t), f, w.normalize(f, args));
    var o := w.native(id, args);
    if o.Ok? && FirstAfterRaises(w, Expected(steps, After, t), f, k, o.value, i, x) {
      AfterEnds(w, Expected(steps, After, t), f, k, o.value, i, x);
    }
    if o.Raise? && FirstErrorRaises(w, Expected(steps, Error, t), f, k, o.exn, i, x) {
      ErrorEnds(w, Expected(steps, Error, t), f, k, o.exn, i, x);
    }
  }

  // ----- the manager itself -----

  /** A state in which some of the hooked targets of `s` have been restored. */
  ghost function Restored(s: State, targets: set<Target>): (r: State)
    requires Consistent(s)
    ensures Consistent(r) && r.hooked.Keys == s.hooked.Keys - targets
  {
    State(s.hooks.Drop(targets), s.originals - targets, s.hooked - targets,
          PutBack(s.attrs, s.originals, targets))
  }

  lemma RestoredNone(s: State)
    requires Consistent(s)
    ensures Restored(s, {}) == s
  {
    assert s.hooks.Drop({}) == s.hooks;
    assert s.originals - {} == s.originals && s.hooked - {} == s.hooked;
    PutBackEnds(s.attrs, s.originals);
  }

  lemma DropTwice(hooks: Hooks, a: set<Target>, b: set<Target>)
    ensures hooks.Drop(a).Drop(b) == hooks.Drop(a + b)
  {
    assert hooks.before - a - b == hooks.before - (a + b);
    assert hooks.after - a - b == hooks.after - (a + b);
    assert hooks.error - a - b == hooks.error - (a + b);
  }

  lemma RestoredMore(s: State, targets: set<Target>, t: Target)
    requires Consistent(s) && t in s.hooked && t !in targets
    ensures Apply(Restored(s, targets), Restore(t)) == Restored(s, targets + {t})
  {
    DropTwice(s.hooks, targets, {t});
    PutBackMore(s.attrs, s.originals, targets, t);
    DropMore(s.originals, targets, t);
    DropMore(s.hooked, targets, t);
  }

  lemma RestoredAll(s: State)
    requires Consistent(s)
    ensures Restored(s, s.hooked.Keys) == Apply(s, RestoreAll)
  {
    var end := Restored(s, s.hooked.Keys);
    assert end.originals == map[] && end.hooked == map[];
    PutBackEnds(s.attrs, s.originals);
  }

  class HookManager {
    var before: HookTable
    var after: HookTable
    var error: HookTable
    var originals: map<Target, Func>
    var hooked: map<Target, Target>

    ghost function Snapshot(p: Program<Func>): State
      reads this, p
    {
      State(Hooks(before, after, error), originals, hooked, p.attrs)
    }

    constructor ()
      ensures forall p: Program<Func> :: Snapshot(p) == Start(p.attrs)
    {
      before, after, error, originals, hooked := map[], map[], map[], map[], map[];
    }

    /** Puts the wrapper in place; the missing attribute is found out before anything is stored. */
    method WrapTarget(p: Program<Func>, t: Target) returns (raised: bool)
      modifies this`originals, this`hooked, p
      ensures raised <==> t !in old(p.attrs)
      ensures raised ==> Snapshot(p) == old(Snapshot(p))
      ensures !raised ==>
                && originals == old(originals)[t := old(p.attrs)[t]]
                && hooked == old(hooked)[t := t]
                && p.attrs == old(p.attrs)[t := Wrapped(t, old(p.attrs)[t])]
    {
      if t !in p.attrs {
        return true;
      }
      var original := p.attrs[t];
      originals := originals[t := original];
      hooked := hooked[t := t];
      p.attrs := p.attrs[t := Wrapped(t, original)];
      raised := false;
    }

    method AddBeforeHook(p: Program<Func>, t: Target, h: Hook) returns (raised: bool)
      requires Consistent(Snapshot(p))
      modifies this, p
      ensures Snapshot(p) == Apply(old(Snapshot(p)), AddHook(Before, t, h))
      ensures raised <==> t !in old(hooked) && t !in old(p.attrs)
    {
      raised := false;
      if t !in hooked {
        raised := WrapTarget(p, t);
      }
      if !raised {
        before := Append(before, t, h);
      }
    }

    method AddAfterHook(p: Program<Func>, t: Target, h: Hook) returns (raised: bool)
      requires Consistent(Snapshot(p))
      modifies this, p
      ensures Snapshot(p) == Apply(old(Snapshot(p)), AddHook(After, t, h))
      ensures raised <==> t !in old(hooked) && t !in old(p.attrs)
    {
      raised := false;
      if t !in hooked {
        raised := WrapTarget(p, t);
      }
      if !raised {
        after := Append(after, t, h);
      }
    }

    method AddErrorHook(p: Program<Func>, t: Target, h: Hook) returns (raised: bool)
      requires Consistent(Snapshot(p))
      modifies this, p
      ensures Snapshot(p) == Apply(old(Snapshot(p)), AddHook(Error, t, h))
      ensures raised <==> t !in old(hooked) && t !in old(p.attrs)
    {
      raised := false;
      if t !in hooked {
        raised := WrapTarget(p, t);
      }
      if !raised {
        error := Append(error, t, h);
      }
    }

    method RestoreTarget(p: Program<Func>, t: Target)
      requires Consistent(Snapshot(p))
      modifies this, p
      ensures Snapshot(p) == Apply(old(Snapshot(p)), Restore(t))
    {
      if t in hooked {
        p.attrs := p.attrs[hooked[t] := originals[t]];
        before := before - {t};
        after := after - {t};
        error := error - {t};
        hooked := hooked - {t};
        originals := originals - {t};
      }
    }

    /** Restores the targets of a copy of the keys, one at a time and in any order. */
    method RestoreAll(p: Program<Func>)
      requires Consistent(Snapshot(p))
      modifies this, p
      ensures Snapshot(p) == Apply(old(Snapshot(p)), Step.RestoreAll)
    {
      hide Restored, Apply;
      var pending := hooked.Keys;
      ghost var done: set<Target> := {};
      RestoredNone(Snapshot(p));
      while pending != {}
        invariant pending !! done && pending + done == old(hooked.Keys)
        invariant Snapshot(p) == Restored(old(Snapshot(p)), done)
        decreases |pending|
      {
        var t :| t in pending;
        RestoredMore(old(Snapshot(p)), done, t);
        RestoreTarget(p, hooked[t]);
        pending := pending - {t};
        done := done + {t};
      }
      RestoredAll(old(Snapshot(p)));
    }

    /** The body of a wrapper: the three hook loops around the call of the original. */
    method Invoke(w: World, f: Func, args: Args) returns (trace: Trace<Result>)
      ensures trace == Call(w, Hooks(before, after, error), f, args)
      decreases f
    {
      if f.Native? {
        return Trace([Called(f.id, args)], w.native(f.id, args));
      }
      var t := f.target;
      var k := w.normalize(f.original, args);
      var b;
      k, b := LoopBefore(w, HooksIn(before, t), f.original, k);
      if b.outcome.Raise? {
        return Trace(b.events, Raise(b.outcome.exn));
      }
      var c := Invoke(w, f.original, args);
      if c.outcome.Raise? {
        var e := LoopError(w, HooksIn(error, t), f.original, k, c.outcome.exn);
        return Trace(b.events + c.events + e.events, if e.outcome.Raise? then Raise(e.outcome.exn) else c.outcome);
      }
      var a := LoopAfter(w, HooksIn(after, t), f.original, k, c.outcome.value);
      trace := Trace(b.events + c.events + a.events, a.outcome);
    }
  }

  lemma {:induction false} RaisedBefore(w: World, hooks: seq<Hook>, n: nat, f: Func, k: Kwargs)
    requires n <= |hooks| && RunBefore(w, hooks[..n], f, k).1.outcome.Raise?
    ensures RunBefore(w, hooks, f, k) == RunBefore(w, hooks[..n], f, k)
    decreases |hooks|
  {
    if n < |hooks| {
      assert Front(hooks)[..n] == hooks[..n];
      RaisedBefore(w, Front(hooks), n, f, k);
    } else {
      assert hooks[..n] == hooks;
    }
  }

  lemma {:induction false} RaisedError(w: World, hooks: seq<Hook>, n: nat, f: Func, k: Kwargs, x: Exn)
    requires n <= |hooks| && RunError(w, hooks[..n], f, k, x).1.outcome.Raise?
    ensures RunError(w, hooks, f, k, x) == RunError(w, hooks[..n], f, k, x)
    decreases |hooks|
  {
    if n < |hooks| {
      assert Front(hooks)[..n] == hooks[..n];
      RaisedError(w, Front(hooks), n, f, k, x);
    } else {
      assert hooks[..n] == hooks;
    }
  }

  lemma {:induction false} RaisedAfter(w: World, hooks: seq<Hook>, n: nat, f: Func, k: Kwargs, v: Result)
    requires n <= |hooks| && RunAfter(w, hooks[..n], f, k, v).1.outcome.Raise?
    ensures RunAfter(w, hooks, f, k, v) == RunAfter(w, hooks[..n], f, k, v)
    decreases |hooks|
  {
    if n < |hooks| {
      assert Front(hooks)[..n] == hooks[..n];
      RaisedAfter(w, Front(hooks), n, f, k, v);
    } else {
      assert hooks[..n] == hooks;
    }
  }

  /** The loop over the before-hooks; a raising hook leaves it, and the call, at once. */
  method LoopBefore(w: World, hooks: seq<Hook>, f: Func, k0: Kwargs) returns (k: Kwargs, trace: Trace<()>)
    ensures (k, trace) == RunBefore(w, hooks, f, k0)
  {
    k, trace := k0, Trace([], Ok(()));
    for i := 0 to |hooks|
      invariant (k, trace) == RunBefore(w, hooks[..i], f, k0) && trace.outcome.Ok?
    {
      var (k', o) := w.before(hooks[i], f, k);
      k, trace := k', Trace(trace.events + [Ran(Before, hooks[i])], o);
      assert Front(hooks[..i + 1]) == hooks[..i];
      if o.Raise? {
        RaisedBefore(w, hooks, i + 1, f, k0);
        return;
      }
    }
    assert hooks[..|hooks|] == hooks;
  }

  method LoopError(w: World, hooks: seq<Hook>, f: Func, k0: Kwargs, x: Exn) returns (trace: Trace<()>)
    ensures trace == RunError(w, hooks, f, k0, x).1
  {
    var k := k0;
    trace := Trace([], Ok(()));
    for i := 0 to |hooks|
      invariant (k, trace) == RunError(w, hooks[..i], f, k0, x) && trace.outcome.Ok?
    {
      var (k', o) := w.error(hooks[i], f, k, x);
      k, trace := k', Trace(trace.events + [Ran(Error, hooks[i])], o);
      assert Front(hooks[..i + 1]) == hooks[..i];
      if o.Raise? {
        RaisedError(w, hooks, i + 1, f, k0, x);
        return;
      }
    }
    assert hooks[..|hooks|] == hooks;
  }

  /** The loop over the after-hooks, each given the result of the one before it. */
  method LoopAfter(w: World, hooks: seq<Hook>, f: Func, k0: Kwargs, v: Result) returns (trace: Trace<Result>)
    ensures trace == RunAfter(w, hooks, f, k0, v).1
  {
    var k := k0;
    trace := Trace([], Ok(v));
    for i := 0 to |hooks|
      invariant (k, trace) == RunAfter(w, hooks[..i], f, k0, v) && trace.outcome.Ok?
    {
      var (k', o) := w.after(hooks[i], f, k, trace.outcome.value);
      k, trace := k', Trace(trace.events + [Ran(After, hooks[i])], o);
      assert Front(hooks[..i + 1]) == hooks[..i];
      if o.Raise? {
        RaisedAfter(w, hooks, i + 1, f, k0, v);
        return;
      }
    }
    assert hooks[..|hooks|] == hooks;
  }
}
