/**
 * The atomic operations of firmware/components/safety_watchdog/PttWatchdog.cpp:12-56, interleaved
 * in every way by any number of heartbeat, tick and force_safe callers.
 *
 * Times are unbounded and wrap where the code stores or subtracts them. The flag load may see
 * either value; the time load may be stale but never goes back behind what the same task has
 * seen or stored; the compare-and-swap sees the current flag. `clears`, `wins`, `runs`, the
 * counts at the last clear and the indices kept in places and wins are history.
 */
module WatchdogSteps {
  import opened Bytes
  import opened Sets
  import opened Uint32

  /** Where a task stands inside a call; a task not in the map is in none. */
  datatype Place =
    | ToArm                                           // heartbeat: time stored
    | ToClear                                         // heartbeat: armed stored
    | ToLoadTriggered(now: nat)                       // tick: armed was true
    | ToLoadLast(now: nat)                            // tick: triggered was false
    | ToSwap(now: nat, beat: nat, loadedAt: nat)      // tick: heartbeat number `beat` was old enough
    | ToRun                                           // swap won, safe_fn not yet run

  /** A won swap: `loadedAt` and `swapAt` count the heartbeats stored by the time of load and swap. */
  datatype Win = ByTick(now: nat, beat: nat, loadedAt: nat, swapAt: nat) | ByForce

  datatype State = State(timeout: nat, armed: bool, triggered: bool, places: map<nat, Place>,
                         beats: seq<nat>, seen: map<nat, nat>, clears: nat, wins: seq<Win>, runs: nat,
                         winsAtClear: nat, runsAtClear: nat, pendingAtClear: nat)

  datatype Action =
    | StoreTime(task: nat, now: nat)
    | StoreArmed(task: nat)
    | StoreCleared(task: nat)
    | LoadArmed(task: nat, now: nat)
    | LoadTriggered(task: nat, seen: bool)
    | LoadLast(task: nat, beat: nat)
    | SwapByTick(task: nat)
    | SwapByForce(task: nat)
    | RunSafe(task: nat)

  function Init(timeout: nat): State {
    State(timeout, false, false, map[], [], map[], 0, [], 0, 0, 0, 0)
  }

  function Leave(s: State, task: nat): State {
    s.(places := s.places - {task})
  }

  function Enter(s: State, task: nat, p: Place): State {
    s.(places := s.places[task := p])
  }

  /** Those that have won a swap and not yet run safe_fn. */
  function Pending(places: map<nat, Place>): set<nat> {
    set t | t in places && places[t].ToRun?
  }

  /** `(now_ms - last) < timeout_ms_` is false. */
  predicate OldEnough(timeout: nat, now: nat, last: nat) {
    Sub32(Wrap(now), Wrap(last)) >= timeout
  }

  function Cleared(s: State): State {
    s.(triggered := false, clears := s.clears + 1, winsAtClear := |s.wins|, runsAtClear := s.runs,
       pendingAtClear := |Pending(s.places)|)
  }

  function Won(s: State, task: nat, w: Win): State {
    Enter(s.(triggered := true, wins := s.wins + [w]), task, ToRun)
  }

  /** One atomic operation; None when it is not its caller's next one. */
  function Step(s: State, a: Action): Option<State> {
    var at := if a.task in s.places then Some(s.places[a.task]) else None;
    match a
    case StoreTime(task, now) =>
      if at == None then Some(Enter(s.(beats := s.beats + [now], seen := s.seen[task := |s.beats|]), task, ToArm)) else None
    case StoreArmed(task) =>
      if at == Some(ToArm) then Some(Enter(s.(armed := true), task, ToClear)) else None
    case StoreCleared(task) =>
      if at == Some(ToClear) then Some(Leave(Cleared(s), task)) else None
    case LoadArmed(task, now) =>
      if at == None then Some(if s.armed then Enter(s, task, ToLoadTriggered(now)) else s) else None
    case LoadTriggered(task, seen) =>
      if at.Some? && at.value.ToLoadTriggered? then Some(if seen then Leave(s, task) else Enter(s, task, ToLoadLast(at.value.now))) else None
    case LoadLast(task, beat) =>
      if at.Some? && at.value.ToLoadLast? && beat < |s.beats| && (task in s.seen ==> s.seen[task] <= beat) then
        var s' := s.(seen := s.seen[task := beat]);
        Some(if OldEnough(s.timeout, at.value.now, s.beats[beat])
             then Enter(s', task, ToSwap(at.value.now, beat, |s.beats|)) else Leave(s', task))
      else None
    case SwapByTick(task) =>
      if at.Some? && at.value.ToSwap? then
        Some(if s.triggered then Leave(s, task)
             else Won(s, task, ByTick(at.value.now, at.value.beat, at.value.loadedAt, |s.beats|)))
      else None
    case SwapByForce(task) =>
      if at == None then Some(if s.triggered then s else Won(s, task, ByForce)) else None
    case RunSafe(task) =>
      if at == Some(ToRun) then Some(Leave(s.(runs := s.runs + 1), task)) else None
  }

  /** The state after these operations in this order; None when some task could not do its own. */
  function After(s: State, actions: seq<Action>): Option<State> {
    if actions == [] then Some(s)
    else
      var before := After(s, actions[..|actions| - 1]);
      if before.None? then None else Step(before.value, actions[|actions| - 1])
  }

  predicate Reached(timeout: nat, actions: seq<Action>, s: State) {
    After(Init(timeout), actions) == Some(s)
  }

  lemma {:induction false} AfterConcat(s: State, a: seq<Action>, b: seq<Action>)
    ensures After(s, a + b) == if After(s, a).None? then None else After(After(s, a).value, b)
    decreases |b|
  {
    hide Step;
    if b == [] {
      assert a + b == a;
    } else {
      var n := |b| - 1;
      assert (a + b)[..|a| + n] == a + b[..n];
      AfterConcat(s, a, b[..n]);
    }
  }

  lemma AfterOne(s: State, a: Action)
    ensures After(s, [a]) == Step(s, a)
  {
    hide Step;
    assert [a][..0] == [];
  }

  lemma AfterThen(s: State, actions: seq<Action>, a: Action)
    ensures After(s, actions + [a]) == if After(s, actions).None? then None else Step(After(s, actions).value, a)
  {
    hide Step;
    assert (actions + [a])[..|actions|] == actions;
  }

  // ---------------------------------------------------------------- counting wins and runs

  function Waiting(places: map<nat, Place>, task: nat): nat {
    if task in places && places[task].ToRun? then 1 else 0
  }

  lemma PendingAfterLeave(places: map<nat, Place>, task: nat)
    ensures |Pending(places - {task})| == |Pending(places)| - Waiting(places, task)
  {
    assert Pending(places - {task}) == Pending(places) - {task};
  }

  lemma PendingAfterEnter(places: map<nat, Place>, task: nat, p: Place)
    ensures |Pending(places[task := p])| == |Pending(places)| - Waiting(places, task) + if p.ToRun? then 1 else 0
  {
    assert Pending(places[task := p]) == if p.ToRun? then Pending(places) + {task} else Pending(places) - {task};
  }

  /** What a step other than StoreCleared keeps. */
  predicate SameEpisode(s: State, s': State) {
    s'.winsAtClear == s.winsAtClear && s'.runsAtClear == s.runsAtClear && s'.pendingAtClear == s.pendingAtClear
    && s'.clears == s.clears && (s.triggered ==> s'.triggered)
  }

  predicate NewEpisode(s: State, s': State) {
    s'.winsAtClear == |s.wins| && s'.runsAtClear == s.runs && s'.pendingAtClear == |Pending(s.places)|
    && s'.clears == s.clears + 1 && !s'.triggered
  }

  /** Runs and waiting winners together are the wins; a step adds at most one, and only on a clear flag. */
  lemma StepCounts(s: State, a: Action)
    requires Step(s, a).Some?
    ensures var s' := Step(s, a).value;
      && s'.runs + |Pending(s'.places)| - |s'.wins| == s.runs + |Pending(s.places)| - |s.wins|
      && |s'.wins| - |s.wins| == (if s'.triggered && !s.triggered then 1 else 0)
      && s.runs <= s'.runs
      && if a.StoreCleared? then NewEpisode(s, s') else SameEpisode(s, s')
  {
    hide OldEnough;
    var s' := Step(s, a).value;
    PendingAfterLeave(s.places, a.task);
    if a.task in s'.places {
      PendingAfterEnter(s.places, a.task, s'.places[a.task]);
    }
    hide Pending;
  }

  predicate CountsOk(s: State) {
    && s.winsAtClear <= |s.wins| <= s.winsAtClear + (if s.triggered then 1 else 0)
    && s.runsAtClear <= s.runs
    && s.runs + |Pending(s.places)| == |s.wins|
    && s.runsAtClear + s.pendingAtClear == s.winsAtClear
    && |s.wins| <= s.clears + (if s.triggered then 1 else 0)
  }

  lemma StepKeepsCounts(s: State, a: Action)
    requires CountsOk(s) && Step(s, a).Some?
    ensures CountsOk(Step(s, a).value)
  {
    StepCounts(s, a);
    hide Step, Pending;
  }

  // ---------------------------------------------------------------- what a tick has read

  predicate ReadOk(s: State, now: nat, beat: nat, loadedAt: nat) {
    beat < loadedAt <= |s.beats| && OldEnough(s.timeout, now, s.beats[beat])
  }

  predicate PlaceOk(s: State, p: Place) {
    p.ToSwap? ==> ReadOk(s, p.now, p.beat, p.loadedAt)
  }

  predicate WinOk(s: State, w: Win) {
    w.ByTick? ==> ReadOk(s, w.now, w.beat, w.loadedAt) && w.loadedAt <= w.swapAt <= |s.beats|
  }

  predicate PlacesOk(s: State) {
    (forall t :: t in s.places ==> PlaceOk(s, s.places[t])) && (forall i :: 0 <= i < |s.wins| ==> WinOk(s, s.wins[i]))
  }

  /** What other fields of a step's two states have in common. */
  lemma StepFrame(s: State, a: Action)
    requires Step(s, a).Some?
    ensures var s' := Step(s, a).value;
      && s'.timeout == s.timeout && s.beats <= s'.beats && |s'.beats| <= |s.beats| + 1
      && (forall t :: t in s'.places && t != a.task ==> t in s.places && s'.places[t] == s.places[t])
      && (s'.wins == s.wins || (s'.beats == s.beats && |s'.wins| == |s.wins| + 1 && s'.wins[..|s.wins|] == s.wins))
  {
    hide OldEnough, Pending;
  }

  lemma StepOwn(s: State, a: Action)
    requires PlacesOk(s) && Step(s, a).Some?
    ensures var s' := Step(s, a).value;
      && (a.task in s'.places ==> PlaceOk(s', s'.places[a.task]))
      && (|s'.wins| == |s.wins| + 1 ==> WinOk(s', s'.wins[|s.wins|]))
  {
    hide OldEnough, Pending;
    assert a.task in s.places ==> PlaceOk(s, s.places[a.task]);
  }

  lemma StillRead(s: State, s': State, now: nat, beat: nat, loadedAt: nat)
    requires ReadOk(s, now, beat, loadedAt) && s'.timeout == s.timeout && s.beats <= s'.beats
    ensures ReadOk(s', now, beat, loadedAt)
  {
    hide OldEnough;
  }

  lemma StepPlaces(s: State, a: Action)
    requires PlacesOk(s) && Step(s, a).Some?
    ensures PlacesOk(Step(s, a).value)
  {
    var s' := Step(s, a).value;
    StepFrame(s, a);
    StepOwn(s, a);
    hide Step, ReadOk;
    forall t | t in s'.places ensures PlaceOk(s', s'.places[t]) {
      if t != a.task && s'.places[t].ToSwap? {
        assert PlaceOk(s, s.places[t]);
        StillRead(s, s', s.places[t].now, s.places[t].beat, s.places[t].loadedAt);
      }
    }
    forall i | 0 <= i < |s'.wins| ensures WinOk(s', s'.wins[i]) {
      if i < |s.wins| && s.wins[i].ByTick? {
        assert s'.wins[i] == s'.wins[..|s.wins|][i] == s.wins[i];
        assert WinOk(s, s.wins[i]);
        StillRead(s, s', s.wins[i].now, s.wins[i].beat, s.wins[i].loadedAt);
      }
    }
  }

  lemma {:induction false} ReachedOk(timeout: nat, actions: seq<Action>, s: State)
    requires Reached(timeout, actions, s)
    ensures CountsOk(s) && PlacesOk(s) && s.timeout == timeout
    decreases |actions|
  {
    if actions == [] {
      assert Pending(map[]) == {};
    } else {
      hide Step, CountsOk, PlacesOk;
      var n := |actions| - 1;
      var before := After(Init(timeout), actions[..n]).value;
      ReachedOk(timeout, actions[..n], before);
      StepKeepsCounts(before, actions[n]);
      StepPlaces(before, actions[n]);
      StepFrame(before, actions[n]);
    }
  }

  // ---------------------------------------------------------------- how often safe_fn runs

  /**
   * Under every interleaving at most one swap is won between two clears of the flag; safe_fn
   * runs once per won swap, so at most once more than there were clears.
   */
  lemma OneWinPerEpisode(timeout: nat, actions: seq<Action>, s: State)
    requires Reached(timeout, actions, s)
    ensures |s.wins| - s.winsAtClear <= 1
    ensures s.runs <= |s.wins| <= s.clears + 1
  {
    hide Step, After;
    ReachedOk(timeout, actions, s);
  }

  /** The runs since the last clear: swaps won since, and winners waiting at the clear, less those waiting now. */
  lemma RunsPerEpisode(timeout: nat, actions: seq<Action>, s: State)
    requires Reached(timeout, actions, s)
    ensures s.runs - s.runsAtClear == |s.wins| - s.winsAtClear + s.pendingAtClear - |Pending(s.places)|
  {
    hide Step, After;
    ReachedOk(timeout, actions, s);
  }

  predicate NoClear(actions: seq<Action>) {
    forall i :: 0 <= i < |actions| ==> !actions[i].StoreCleared?
  }

  /** Until the next clear: one win at most, so at most one run beyond those already waiting. */
  lemma {:induction false} EpisodeCounts(s: State, more: seq<Action>)
    requires NoClear(more) && After(s, more).Some?
    ensures var t := After(s, more).value;
      t.runs + |Pending(t.places)| == s.runs + |Pending(s.places)| + (if t.triggered && !s.triggered then 1 else 0)
      && (s.triggered ==> t.triggered)
    decreases |more|
  {
    hide Step, Pending;
    if more != [] {
      var n := |more| - 1;
      EpisodeCounts(s, more[..n]);
      StepCounts(After(s, more[..n]).value, more[n]);
    }
  }

  /** `more` continues s without a clear and runs safe_fn m times. */
  predicate RunsTimes(s: State, more: seq<Action>, m: nat) {
    NoClear(more) && After(s, more).Some? && After(s, more).value.runs == s.runs + m
  }

  /** Any number of the waiting winners can run next. */
  lemma {:induction false} WinnersRun(s: State, m: nat) returns (more: seq<Action>)
    requires m <= |Pending(s.places)|
    ensures RunsTimes(s, more, m)
    decreases m
  {
    if m == 0 {
      more := [];
    } else {
      var task :| task in Pending(s.places);
      var s' := Leave(s.(runs := s.runs + 1), task);
      assert Step(s, RunSafe(task)) == Some(s');
      PendingAfterLeave(s.places, task);
      hide Step, Pending;
      var rest := WinnersRun(s', m - 1);
      more := [RunSafe(task)] + rest;
      AfterOne(s, RunSafe(task));
      AfterConcat(s, [RunSafe(task)], rest);
    }
  }

  /** On a clear flag force_safe by any idle task wins at once. */
  lemma ForceWins(s: State, task: nat)
    requires task !in s.places && !s.triggered
    ensures After(s, [SwapByForce(task)]) == Some(Won(s, task, ByForce))
    ensures |Pending(Won(s, task, ByForce).places)| == |Pending(s.places)| + 1
  {
    AfterOne(s, SwapByForce(task));
    PendingAfterEnter(s.places, task, ToRun);
  }

  /**
   * From any state with the flag clear, exactly the numbers up to one more than the winners then
   * waiting can be the number of runs before the next clear.
   */
  lemma RunsInEpisode(s: State, m: nat)
    requires !s.triggered
    ensures (exists more :: RunsTimes(s, more, m)) <==> m <= |Pending(s.places)| + 1
  {
    hide Step, Pending, After;
    if m <= |Pending(s.places)| + 1 {
      var task := NewMember(s.places.Keys);
      ForceWins(s, task);
      var rest := WinnersRun(Won(s, task, ByForce), m);
      AfterConcat(s, [SwapByForce(task)], rest);
      assert RunsTimes(s, [SwapByForce(task)] + rest, m);
    }
    if exists more :: RunsTimes(s, more, m) {
      var more :| RunsTimes(s, more, m);
      EpisodeCounts(s, more);
    }
  }

  /** However the callers go on, safe_fn runs at most once before the next clear. */
  ghost predicate AtMostOnce(s: State) {
    forall more :: NoClear(more) && After(s, more).Some? ==> After(s, more).value.runs <= s.runs + 1
  }

  /** The last operation cleared the flag. */
  predicate JustCleared(timeout: nat, actions: seq<Action>, s: State) {
    Reached(timeout, actions, s) && actions != [] && actions[|actions| - 1].StoreCleared?
  }

  /**
   * "At most once between two clears" holds of the episode a clear begins if and only if nobody
   * who had won a swap before was still waiting to call safe_fn.
   */
  lemma AtMostOnceExactly(timeout: nat, actions: seq<Action>, s: State)
    requires JustCleared(timeout, actions, s)
    ensures AtMostOnce(s) <==> Pending(s.places) == {}
  {
    assert !s.triggered by {
      StepCounts(After(Init(timeout), actions[..|actions| - 1]).value, actions[|actions| - 1]);
    }
    hide Step, Pending, After;
    OnceIffNoneWaiting(s);
  }

  lemma OnceIffNoneWaiting(s: State)
    requires !s.triggered
    ensures AtMostOnce(s) <==> Pending(s.places) == {}
  {
    hide Step, Pending, After;
    if Pending(s.places) == {} {
      forall more | NoClear(more) && After(s, more).Some? ensures After(s, more).value.runs <= s.runs + 1 {
        EpisodeCounts(s, more);
      }
    } else {
      SubsetSize({}, Pending(s.places));
      RunsInEpisode(s, 2);
      var more :| RunsTimes(s, more, 2);
    }
  }

  /** A whole heartbeat by one task, nothing else happening. */
  function BeatActions(task: nat, now: nat): seq<Action> {
    [StoreTime(task, now)] + [StoreArmed(task)] + [StoreCleared(task)]
  }

  lemma WholeBeat(s: State, task: nat, now: nat)
    requires task !in s.places
    ensures var r := After(s, BeatActions(task, now));
      r.Some? && r.value.beats == s.beats + [now] && r.value.places == s.places && !r.value.triggered && r.value.armed
      && r.value.wins == s.wins && r.value.timeout == s.timeout && r.value.clears == s.clears + 1 && r.value.runs == s.runs
      && (forall t :: t in r.value.seen && t != task ==> t in s.seen && r.value.seen[t] == s.seen[t])
  {
    hide Pending;
    var s1 := Enter(s.(beats := s.beats + [now], seen := s.seen[task := |s.beats|]), task, ToArm);
    var s2 := Enter(s1.(armed := true), task, ToClear);
    assert Step(s, StoreTime(task, now)) == Some(s1) && Step(s1, StoreArmed(task)) == Some(s2);
    assert Step(s2, StoreCleared(task)) == Some(Leave(Cleared(s2), task));
    assert s2.places - {task} == s.places;
    hide Step, After;
    AfterOne(s, StoreTime(task, now));
    AfterThen(s, [StoreTime(task, now)], StoreArmed(task));
    AfterThen(s, [StoreTime(task, now)] + [StoreArmed(task)], StoreCleared(task));
  }

  /** The condition can fail: a run in which a clear leaves a winner waiting, and safe_fn then runs twice before the next. */
  lemma TwoRunsInOneEpisode(timeout: nat)
    ensures exists actions, s, more :: JustCleared(timeout, actions, s) && RunsTimes(s, more, 2)
  {
    var s0 := Init(timeout);
    ForceWins(s0, 1);
    var s1 := Won(s0, 1, ByForce);
    assert 1 in Pending(s1.places) && 0 !in s1.places;
    hide Step, Pending, After;
    WholeBeat(s1, 0, 5);
    AfterConcat(s0, [SwapByForce(1)], BeatActions(0, 5));
    var actions := [SwapByForce(1)] + BeatActions(0, 5);
    var s := After(s1, BeatActions(0, 5)).value;
    SubsetSize({}, Pending(s.places));
    RunsInEpisode(s, 2);
    var more :| RunsTimes(s, more, 2);
    assert actions[|actions| - 1] == StoreCleared(0);
    assert JustCleared(timeout, actions, s);
  }

  // ---------------------------------------------------------------- when a tick fires

  /** The guard in true time: the heartbeat is old, or it is newer than the tick's own clock reading. */
  lemma OldEnoughMeans(timeout: nat, now: nat, last: nat)
    requires timeout <= U32 && now < last + U32 && last <= now + (U32 - timeout)
    ensures OldEnough(timeout, now, last) <==> now >= last + timeout || last > now
  {
    if last <= now {
      WrappedDifference(now, last);
    } else {
      WrappedDifference(now + U32, last);
      assert Wrap(now + U32) == Wrap(now);
    }
  }

  /** Heartbeat times do not run backwards. */
  predicate InOrder(beats: seq<nat>) {
    forall i, j :: 0 <= i <= j < |beats| ==> beats[i] <= beats[j]
  }

  /** A heartbeat at `last` is fresh for a tick at `now`. */
  predicate Fresh(timeout: nat, now: nat, last: nat) {
    now < last + timeout
  }

  predicate FreshAmong(timeout: nat, now: nat, beats: seq<nat>, from: nat, to: nat) {
    exists k :: from <= k < to <= |beats| && Fresh(timeout, now, beats[k])
  }

  /** Every firing caused by a tick read a stored heartbeat whose age modulo 2^32 was at least the timeout. */
  lemma TickWinsWereStale(timeout: nat, actions: seq<Action>, s: State, i: nat)
    requires Reached(timeout, actions, s) && i < |s.wins| && s.wins[i].ByTick?
    ensures var w := s.wins[i];
      w.beat < w.loadedAt <= w.swapAt <= |s.beats| && OldEnough(timeout, w.now, s.beats[w.beat])
  {
    hide Step, OldEnough, After;
    ReachedOk(timeout, actions, s);
    assert WinOk(s, s.wins[i]);
  }

  /** A heartbeat stored between numbers `from` and w.swapAt is fresh, or the one read is newer than the tick's clock reading. */
  predicate Overtaken(timeout: nat, beats: seq<nat>, w: Win, from: nat)
    requires w.ByTick? && w.beat < |beats|
  {
    FreshAmong(timeout, w.now, beats, from, w.swapAt) || beats[w.beat] > w.now
  }

  /**
   * When a tick wins its swap, the newest heartbeat is fresh if and only if a fresh one was stored
   * beyond the one the tick had read, or that one is itself newer than the tick's clock reading.
   * When the load was current, "beyond the one read" is "after the load".
   */
  lemma FiresOnFreshExactly(timeout: nat, actions: seq<Action>, s: State, i: nat)
    requires Reached(timeout, actions, s) && i < |s.wins| && s.wins[i].ByTick?
    requires InOrder(s.beats) && timeout <= U32
    ensures var w := s.wins[i];
      && w.beat < w.loadedAt <= w.swapAt <= |s.beats|
      && (Fresh(timeout, w.now, s.beats[w.swapAt - 1]) <==> Overtaken(timeout, s.beats, w, w.beat + 1))
      && (w.beat == w.loadedAt - 1 ==>
            (Fresh(timeout, w.now, s.beats[w.swapAt - 1]) <==> Overtaken(timeout, s.beats, w, w.loadedAt)))
  {
    TickWinsWereStale(timeout, actions, s, i);
    hide Reached;
    var w := s.wins[i];
    var b := s.beats[w.beat];
    if b <= w.now && Fresh(timeout, w.now, b) {
      WrappedDifference(w.now, b);
    }
    assert b <= w.now ==> !Fresh(timeout, w.now, b);
    hide OldEnough;
    if Fresh(timeout, w.now, s.beats[w.swapAt - 1]) && b <= w.now {
      assert w.swapAt - 1 != w.beat;
    }
  }

  /** No heartbeat stops a tick that has passed its test: it still wins, with that heartbeat the newest one. */
  lemma HeartbeatComesTooLate(s: State, task: nat, other: nat, at: nat)
    requires task in s.places && s.places[task].ToSwap? && other !in s.places
    ensures var p := s.places[task];
      var r := After(s, BeatActions(other, at) + [SwapByTick(task)]);
      r.Some? && r.value.wins == s.wins + [ByTick(p.now, p.beat, p.loadedAt, |s.beats| + 1)]
      && r.value.beats == s.beats + [at] && r.value.clears == s.clears + 1
  {
    hide After, Pending;
    WholeBeat(s, other, at);
    AfterThen(s, BeatActions(other, at), SwapByTick(task));
  }

  /** A tick alone, with a current time load, up to its swap. */
  function TickActions(task: nat, now: nat, beat: nat): seq<Action> {
    [LoadArmed(task, now)] + [LoadTriggered(task, false)] + [LoadLast(task, beat)]
  }

  /** A tick run alone on an armed, clear watchdog reaches its swap exactly when the newest heartbeat passes the test. */
  lemma TickAlone(s: State, task: nat, now: nat)
    requires task !in s.places && s.armed && s.beats != [] && (task in s.seen ==> s.seen[task] < |s.beats|)
    ensures var r := After(s, TickActions(task, now, |s.beats| - 1));
      r.Some? && r.value.places == (if OldEnough(s.timeout, now, s.beats[|s.beats| - 1])
        then s.places[task := ToSwap(now, |s.beats| - 1, |s.beats|)] else s.places)
      && r.value.beats == s.beats && r.value.wins == s.wins && r.value.triggered == s.triggered && r.value.clears == s.clears
      && r.value.armed == s.armed && r.value.timeout == s.timeout && r.value.runs == s.runs
  {
    hide OldEnough, Pending;
    var n := |s.beats| - 1;
    var s1 := Enter(s, task, ToLoadTriggered(now));
    var s2 := Enter(s1, task, ToLoadLast(now));
    assert Step(s, LoadArmed(task, now)) == Some(s1) && Step(s1, LoadTriggered(task, false)) == Some(s2);
    var seen := s2.(seen := s2.seen[task := n]);
    var s3 := if OldEnough(s.timeout, now, s.beats[n]) then Enter(seen, task, ToSwap(now, n, |s.beats|)) else Leave(seen, task);
    assert Step(s2, LoadLast(task, n)) == Some(s3);
    assert s2.places - {task} == s.places;
    assert s2.places[task := ToSwap(now, n, |s.beats|)] == s.places[task := ToSwap(now, n, |s.beats|)];
    hide Step, After;
    AfterOne(s, LoadArmed(task, now));
    AfterThen(s, [LoadArmed(task, now)], LoadTriggered(task, false));
    AfterThen(s, [LoadArmed(task, now)] + [LoadTriggered(task, false)], LoadLast(task, n));
  }

  /** A heartbeat at 0 and then a tick at the timeout, about to swap. */
  lemma TickAboutToSwap(timeout: nat) returns (r: seq<Action>, s: State)
    requires timeout < U32
    ensures Reached(timeout, r, s) && 0 !in s.places && 1 in s.places && s.places[1] == ToSwap(timeout, 0, 1)
    ensures s.beats == [0] && s.wins == [] && s.clears == 1
  {
    OldEnoughMeans(timeout, timeout, 0);
    hide Step, After, Pending, OldEnough;
    WholeBeat(Init(timeout), 0, 0);
    var s1 := After(Init(timeout), BeatActions(0, 0)).value;
    TickAlone(s1, 1, timeout);
    AfterConcat(Init(timeout), BeatActions(0, 0), TickActions(1, timeout, 0));
    r := BeatActions(0, 0) + TickActions(1, timeout, 0);
    s := After(s1, TickActions(1, timeout, 0)).value;
  }

  /**
   * For every timeout there is a run in which a tick with current loads fires right after a
   * heartbeat at the very instant of the tick has completed.
   */
  lemma FreshHeartbeatStillFires(timeout: nat)
    requires timeout < U32
    ensures exists actions, s :: Reached(timeout, actions, s) && s.beats == [0, timeout] && s.clears == 2 && s.wins == [ByTick(timeout, 0, 1, 2)]
  {
    hide Step, After, Pending, OldEnough;
    var r, s := TickAboutToSwap(timeout);
    var last := BeatActions(0, timeout) + [SwapByTick(1)];
    HeartbeatComesTooLate(s, 1, 0, timeout);
    AfterConcat(Init(timeout), r, last);
    assert Reached(timeout, r + last, After(s, last).value);
    assert [0] + [timeout] == [0, timeout];
  }

  /**
   * Nor need the heartbeat come late: a tick whose clock was read just before the newest heartbeat
   * fires although every load is current, the age having wrapped below zero.
   */
  lemma EarlierClockFires(s: State, task: nat, now: nat)
    requires task !in s.places && s.armed && !s.triggered && (task in s.seen ==> s.seen[task] < |s.beats|)
    requires s.beats != [] && s.timeout <= U32
    requires now < s.beats[|s.beats| - 1] <= now + (U32 - s.timeout)
    ensures var r := After(s, TickActions(task, now, |s.beats| - 1) + [SwapByTick(task)]);
      r.Some? && r.value.wins == s.wins + [ByTick(now, |s.beats| - 1, |s.beats|, |s.beats|)]
  {
    OldEnoughMeans(s.timeout, now, s.beats[|s.beats| - 1]);
    hide After, Pending, OldEnough;
    TickAlone(s, task, now);
    AfterThen(s, TickActions(task, now, |s.beats| - 1), SwapByTick(task));
  }
}
