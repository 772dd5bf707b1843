/**
 * The watchdog's atomic steps make whole calls: no caller sticks inside one, and a call that no
 * other interrupts does what the sequential object does (PttWatchdog.cpp:12-56).
 */
module WatchdogProgress {
  import opened Bytes
  import opened Uint32
  import opened WatchdogSteps
  import Seq = PttWatchdog

  // ---------------------------------------------------------------- nobody sticks

  /** Heartbeats seen exist, and nobody looks at the time before there was one. */
  predicate Sane(s: State) {
    (s.armed ==> s.beats != []) && (forall t :: t in s.seen ==> s.seen[t] < |s.beats|)
    && forall t :: t in s.places ==> s.beats != [] || s.places[t].ToRun?
  }

  lemma StepSane(s: State, a: Action)
    requires Sane(s) && Step(s, a).Some?
    ensures Sane(Step(s, a).value)
  {
    hide OldEnough, Pending;
  }

  lemma {:induction false} ReachedSane(timeout: nat, actions: seq<Action>, s: State)
    requires Reached(timeout, actions, s)
    ensures Sane(s)
    decreases |actions|
  {
    if actions != [] {
      hide Step, Sane;
      var n := |actions| - 1;
      var before := After(Init(timeout), actions[..n]).value;
      ReachedSane(timeout, actions[..n], before);
      StepSane(before, actions[n]);
    }
  }

  /** A caller's next operation, each load reading the newest value. */
  function Next(s: State, task: nat): Action
    requires task in s.places
  {
    match s.places[task]
    case ToArm => StoreArmed(task)
    case ToClear => StoreCleared(task)
    case ToLoadTriggered(_) => LoadTriggered(task, s.triggered)
    case ToLoadLast(_) => LoadLast(task, if s.beats == [] then 0 else |s.beats| - 1)
    case ToSwap(_, _, _) => SwapByTick(task)
    case ToRun => RunSafe(task)
  }

  /** In every reachable state every caller inside a call can go on; in particular no tick looks at a time that was never stored. */
  lemma NobodySticks(timeout: nat, actions: seq<Action>, s: State, task: nat)
    requires Reached(timeout, actions, s) && task in s.places
    ensures exists a: Action :: a.task == task && Step(s, a).Some?
  {
    ReachedSane(timeout, actions, s);
    hide Reached, OldEnough, Pending;
    assert Step(s, Next(s, task)).Some?;
  }

  // ---------------------------------------------------------------- whole calls

  /** What the sequential object would hold. */
  function Sequential(s: State): Seq.Watchdog {
    Seq.Watchdog(s.timeout, if s.beats == [] then 0 else Wrap(s.beats[|s.beats| - 1]), s.armed, s.triggered)
  }

  /** The call, run by this task without interruption, has the sequential effect and runs safe_fn as often. */
  predicate RanAs(s: State, t: State, c: Seq.Call) {
    Sequential(t) == Seq.Apply(Sequential(s), c) && t.places == s.places
    && t.runs == s.runs + match c
      case DoBeat(_) => 0
      case DoTick(now) => if Seq.Fires(Sequential(s), now) then 1 else 0
      case DoForce => if s.triggered then 0 else 1
  }

  lemma SwapAndRun(s: State, swap: Action)
    requires (swap.SwapByForce? && swap.task !in s.places) || (swap.SwapByTick? && swap.task in s.places && s.places[swap.task].ToSwap?)
    requires !s.triggered
    ensures var r := After(s, [swap] + [RunSafe(swap.task)]);
      r.Some? && r.value.places == s.places - {swap.task} && r.value.triggered && r.value.runs == s.runs + 1
      && r.value.armed == s.armed && r.value.beats == s.beats && r.value.timeout == s.timeout
  {
    hide Pending;
    AfterOne(s, swap);
    var s1 := After(s, [swap]).value;
    assert s1.places - {swap.task} == s.places - {swap.task};
    AfterThen(s, [swap], RunSafe(swap.task));
  }

  lemma ForceAlone(s: State, task: nat) returns (more: seq<Action>)
    requires task !in s.places
    ensures After(s, more).Some? && RanAs(s, After(s, more).value, Seq.DoForce)
  {
    assert s.places - {task} == s.places;
    if s.triggered {
      more := [SwapByForce(task)];
      AfterOne(s, SwapByForce(task));
    } else {
      hide Pending, After, Step;
      more := [SwapByForce(task)] + [RunSafe(task)];
      SwapAndRun(s, SwapByForce(task));
    }
  }

  lemma BeatAlone(s: State, task: nat, now: nat) returns (more: seq<Action>)
    requires task !in s.places
    ensures After(s, more).Some? && RanAs(s, After(s, more).value, Seq.DoBeat(now))
  {
    hide Pending, After, Step;
    more := BeatActions(task, now);
    WholeBeat(s, task, now);
  }

  lemma SameTest(s: State, now: nat)
    requires s.beats != []
    ensures OldEnough(s.timeout, now, s.beats[|s.beats| - 1]) <==> Sub32(Wrap(now), Sequential(s).last) >= s.timeout
  {}

  lemma TickCall(s: State, task: nat, now: nat) returns (more: seq<Action>)
    requires Sane(s) && task !in s.places
    ensures After(s, more).Some? && RanAs(s, After(s, more).value, Seq.DoTick(now))
  {
    if !s.armed {
      more := [LoadArmed(task, now)];
      AfterOne(s, LoadArmed(task, now));
    } else if s.triggered {
      more := [LoadArmed(task, now)] + [LoadTriggered(task, true)];
      AfterOne(s, LoadArmed(task, now));
      AfterThen(s, [LoadArmed(task, now)], LoadTriggered(task, true));
      assert s.places[task := ToLoadTriggered(now)] - {task} == s.places;
    } else {
      more := TickArmed(s, task, now);
    }
  }

  lemma TickArmed(s: State, task: nat, now: nat) returns (more: seq<Action>)
    requires Sane(s) && task !in s.places && s.armed && !s.triggered
    ensures After(s, more).Some? && RanAs(s, After(s, more).value, Seq.DoTick(now))
  {
    SameTest(s, now);
    hide Pending, After, Step, OldEnough, Wrap, Sub32;
    more := TickActions(task, now, |s.beats| - 1);
    TickAlone(s, task, now);
    var mid := After(s, more).value;
    if OldEnough(s.timeout, now, s.beats[|s.beats| - 1]) {
      SwapAndRun(mid, SwapByTick(task));
      AfterConcat(s, more, [SwapByTick(task)] + [RunSafe(task)]);
      more := more + ([SwapByTick(task)] + [RunSafe(task)]);
      assert mid.places - {task} == s.places;
    }
  }

  /** Every call, run alone from any reachable state by a task that is in none, does what the object does. */
  lemma AloneIsSequential(timeout: nat, actions: seq<Action>, s: State, task: nat, c: Seq.Call) returns (more: seq<Action>)
    requires Reached(timeout, actions, s) && task !in s.places
    ensures After(s, more).Some? && RanAs(s, After(s, more).value, c)
  {
    ReachedSane(timeout, actions, s);
    hide Reached, After, RanAs, Sane;
    match c
    case DoBeat(now) => more := BeatAlone(s, task, now);
    case DoTick(now) => more := TickCall(s, task, now);
    case DoForce => more := ForceAlone(s, task);
  }
}
