/**
 * The push-to-talk watchdog, firmware/components/safety_watchdog/PttWatchdog.cpp, called by one
 * task at a time. Its atomic operations interleaved by any number of tasks are WatchdogSteps.
 */
module PttWatchdog {
  import opened Uint32

  datatype Watchdog = Watchdog(timeout: nat, last: nat, armed: bool, triggered: bool)

  function Heartbeat(w: Watchdog, now: nat): Watchdog {
    w.(last := Wrap(now), armed := true, triggered := false)
  }

  predicate Fires(w: Watchdog, now: nat) {
    w.armed && !w.triggered && Sub32(Wrap(now), w.last) >= w.timeout
  }

  function TickOnce(w: Watchdog, now: nat): Watchdog {
    if Fires(w, now) then w.(triggered := true) else w
  }

  /** The instants at which safe_fn runs while ticking at the given times. */
  function FiringTimes(w: Watchdog, times: seq<nat>): seq<nat>
    decreases |times|
  {
    if times == [] then []
    else (if Fires(w, times[0]) then [times[0]] else []) + FiringTimes(TickOnce(w, times[0]), times[1..])
  }

  predicate Every(start: nat, period: nat, times: seq<nat>)
    decreases |times|
  {
    times == [] || (start <= times[0] <= start + period && Every(times[0], period, times[1..]))
  }

  lemma {:induction false} TriggeredStaysQuiet(w: Watchdog, times: seq<nat>)
    requires w.triggered
    ensures FiringTimes(w, times) == []
    decreases |times|
  {
    if times != [] {
      TriggeredStaysQuiet(w, times[1..]);
    }
  }

  /**
   * After the last heartbeat at h, ticks at most `period` apart fire exactly once, at a tick no
   * earlier than the timeout and less than one period late.
   */
  lemma {:induction false} FiresInTime(w: Watchdog, h: nat, from: nat, period: nat, times: seq<nat>)
    requires w.armed && !w.triggered && w.last == Wrap(h) && w.timeout + period < U32
    requires h <= from < h + w.timeout && Every(from, period, times)
    requires times != [] && times[|times| - 1] >= h + w.timeout
    ensures exists t :: FiringTimes(w, times) == [t] && h + w.timeout <= t < h + w.timeout + period
    decreases |times|
  {
    var t := times[0];
    WrappedDifference(t, h);
    hide Wrap, Sub32;
    if Fires(w, t) {
      TriggeredStaysQuiet(TickOnce(w, t), times[1..]);
      assert FiringTimes(w, times) == [t];
    } else {
      assert times[1..] != [] && times[1..][|times| - 2] == times[|times| - 1];
      FiresInTime(w, h, t, period, times[1..]);
      assert FiringTimes(w, times) == FiringTimes(w, times[1..]);
    }
  }

  /** Whatever went before, a heartbeat arms the watchdog: the ticks after the last one fire exactly once, in time. */
  lemma FiresAfterHeartbeat(w: Watchdog, h: nat, from: nat, period: nat, times: seq<nat>)
    requires 0 < w.timeout && w.timeout + period < U32
    requires h <= from < h + w.timeout && Every(from, period, times)
    requires times != [] && times[|times| - 1] >= h + w.timeout
    ensures exists t :: FiringTimes(Heartbeat(w, h), times) == [t] && h + w.timeout <= t < h + w.timeout + period
  {
    FiresInTime(Heartbeat(w, h), h, from, period, times);
  }

  // ---------------------------------------------------------------- every sequence of calls

  datatype Call = DoBeat(now: nat) | DoTick(now: nat) | DoForce

  function Apply(w: Watchdog, c: Call): Watchdog {
    match c
    case DoBeat(now) => Heartbeat(w, now)
    case DoTick(now) => TickOnce(w, now)
    case DoForce => w.(triggered := true)
  }

  /** A new watchdog after these calls. */
  function After(timeout: nat, calls: seq<Call>): Watchdog {
    if calls == [] then Watchdog(timeout, 0, false, false)
    else Apply(After(timeout, calls[..|calls| - 1]), calls[|calls| - 1])
  }

  /** Call i runs safe_fn. */
  predicate Runs(timeout: nat, calls: seq<Call>, i: nat)
    requires i < |calls|
  {
    var w := After(timeout, calls[..i]);
    match calls[i]
    case DoBeat(_) => false
    case DoTick(now) => Fires(w, now)
    case DoForce => !w.triggered
  }

  /** j is the last heartbeat before call i. */
  predicate LastBeat(calls: seq<Call>, j: int, i: nat) {
    0 <= j < i <= |calls| && calls[j].DoBeat? && forall k :: j < k < i ==> !calls[k].DoBeat?
  }

  /** safe_fn has run since the last heartbeat before call i, or at all if there was none. */
  predicate RunSince(timeout: nat, calls: seq<Call>, i: nat)
    requires i <= |calls|
  {
    exists j :: 0 <= j < i && Runs(timeout, calls, j) && forall k :: j < k < i ==> !calls[k].DoBeat?
  }

  /** The fields, told from the history. */
  ghost predicate Told(timeout: nat, calls: seq<Call>, i: nat)
    requires i <= |calls|
  {
    var w := After(timeout, calls[..i]);
    w.timeout == timeout && (w.triggered <==> RunSince(timeout, calls, i))
    && (w.armed <==> exists j :: LastBeat(calls, j, i)) && forall j :: LastBeat(calls, j, i) ==> w.last == Wrap(calls[j].now)
  }

  lemma NextCall(timeout: nat, calls: seq<Call>, i: nat)
    requires i < |calls|
    ensures After(timeout, calls[..i + 1]) == Apply(After(timeout, calls[..i]), calls[i])
  {
    assert calls[..i + 1][..i] == calls[..i];
  }

  lemma RunSinceNext(timeout: nat, calls: seq<Call>, i: nat)
    requires i < |calls|
    ensures RunSince(timeout, calls, i + 1) <==> !calls[i].DoBeat? && (RunSince(timeout, calls, i) || Runs(timeout, calls, i))
  {
    hide After, Apply, Fires;
    if RunSince(timeout, calls, i + 1) {
      var j :| 0 <= j < i + 1 && Runs(timeout, calls, j) && forall k :: j < k < i + 1 ==> !calls[k].DoBeat?;
      assert j < i ==> RunSince(timeout, calls, i);
    }
    if !calls[i].DoBeat? && RunSince(timeout, calls, i) {
      var j :| 0 <= j < i && Runs(timeout, calls, j) && forall k :: j < k < i ==> !calls[k].DoBeat?;
      assert forall k :: j < k < i + 1 ==> !calls[k].DoBeat?;
    }
  }

  lemma LastBeatNext(calls: seq<Call>, i: nat, j: int)
    requires i < |calls|
    ensures LastBeat(calls, j, i + 1) <==> if calls[i].DoBeat? then j == i else LastBeat(calls, j, i)
  {}

  lemma {:induction false} FieldsTold(timeout: nat, calls: seq<Call>, i: nat)
    requires i <= |calls|
    ensures Told(timeout, calls, i)
    decreases i
  {
    if i == 0 {
      assert calls[..0] == [];
    } else {
      FieldsTold(timeout, calls, i - 1);
      NextCall(timeout, calls, i - 1);
      RunSinceNext(timeout, calls, i - 1);
      forall j ensures LastBeat(calls, j, i) <==> if calls[i - 1].DoBeat? then j == i - 1 else LastBeat(calls, j, i - 1) {
        LastBeatNext(calls, i - 1, j);
      }
      hide After, RunSince, LastBeat, Wrap, Sub32;
      if calls[i - 1].DoBeat? {
        assert LastBeat(calls, i - 1, i);
      } else if After(timeout, calls[..i - 1]).armed {
        var j :| LastBeat(calls, j, i - 1);
        assert LastBeat(calls, j, i);
      }
    }
  }

  /**
   * Over every sequence of calls: safe_fn never runs twice without a heartbeat between; if it has
   * not run since the last one, force_safe runs it, and a tick does exactly when there was a
   * heartbeat and the last one is at least the timeout old, in uint32 arithmetic.
   */
  lemma RunsExactly(timeout: nat, calls: seq<Call>, i: nat)
    requires i < |calls|
    ensures Runs(timeout, calls, i) <==>
      !RunSince(timeout, calls, i) &&
      match calls[i]
      case DoBeat(_) => false
      case DoForce => true
      case DoTick(now) => exists j :: LastBeat(calls, j, i) && (now - calls[j].now) % 0x1_0000_0000 >= timeout
  {
    FieldsTold(timeout, calls, i);
    hide After, RunSince, LastBeat;
    if calls[i].DoTick? {
      forall j | LastBeat(calls, j, i)
        ensures Sub32(Wrap(calls[i].now), Wrap(calls[j].now)) == (calls[i].now - calls[j].now) % 0x1_0000_0000
      {
        AgeModulo(calls[i].now, calls[j].now);
      }
      hide Wrap, Sub32;
    }
  }

  lemma AgeModulo(a: nat, b: nat)
    ensures Sub32(Wrap(a), Wrap(b)) == (a - b) % 0x1_0000_0000
  {}

  class PttWatchdogObject {
    const timeoutMs: nat
    var lastHeartbeatMs: nat
    var armed: bool
    var triggered: bool
    var safeRuns: nat

    ghost function State(): Watchdog
      reads this
    {
      Watchdog(timeoutMs, lastHeartbeatMs, armed, triggered)
    }

    constructor (timeoutMs: nat)
      ensures State() == Watchdog(timeoutMs, 0, false, false) && safeRuns == 0
    {
      this.timeoutMs := timeoutMs;
      lastHeartbeatMs, armed, triggered, safeRuns := 0, false, false, 0;
    }

    method Beat(now: nat)
      modifies this
      ensures State() == Heartbeat(old(State()), now) && safeRuns == old(safeRuns)
    {
      lastHeartbeatMs := Wrap(now);
      armed := true;
      triggered := false;
    }

    method Tick(now: nat) returns (fired: bool)
      modifies this
      ensures State() == TickOnce(old(State()), now) && fired == Fires(old(State()), now)
      ensures safeRuns == old(safeRuns) + if fired then 1 else 0
    {
      if !armed {
        return false;
      }
      if triggered {
        return false;
      }
      var last := lastHeartbeatMs;
      if Sub32(Wrap(now), last) < timeoutMs {
        return false;
      }
      triggered := true;
      safeRuns := safeRuns + 1;
      return true;
    }

    method ForceSafe()
      modifies this
      ensures State() == old(State()).(triggered := true)
      ensures safeRuns == old(safeRuns) + if old(triggered) then 0 else 1
    {
      if triggered {
        return;
      }
      triggered := true;
      safeRuns := safeRuns + 1;
    }
  }
}
