/**
 * The rings of SpscRing get everything through: what each loop test decides, that neither thread
 * can stick inside a call, and what a whole push or visit achieves (AprsTaskContext.cpp:30-101,
 * main.cpp:199-230).
 */
module SpscProgress {
  import opened Bytes
  import opened Uint32
  import opened RingIndex
  import opened SpscRing

  // ---------------------------------------------------------------- the loop test

  /** The consumer leaves the loop exactly when it has taken everything it has seen published. */
  lemma EnterExactly(cfg: Config, actions: seq<Action>, s: State)
    requires cfg.Valid() && Run(cfg, actions, s) && |s.slots| == cfg.depth && s.c.AtLoop?
    ensures Step(cfg, s, Enter).Some?
    ensures Step(cfg, s, Enter).value.c.Away? <==> |s.consumed| == s.seenHead
    ensures !Step(cfg, s, Enter).value.c.Away? <==> Step(cfg, s, Enter).value.c == Reading(s.c.t, s.c.h, [])
  {
    hide Wrap, Sub32, Inc32;
    RunInv(cfg, actions, s);
    EnterTakes(cfg, s);
  }

  lemma EnterTakes(cfg: Config, s: State)
    requires cfg.Valid() && Inv(cfg, s) && s.c.AtLoop?
    ensures s.c.t == s.c.h <==> |s.consumed| == s.seenHead
    ensures Step(cfg, s, Enter) == Some(s.(c := if |s.consumed| == s.seenHead then Away else Reading(s.c.t, s.c.h, [])))
  {
    hide Wrap, Sub32, Inc32;
    WrappedDifference(s.seenHead, |s.consumed|);
    WrappedDifference(|s.consumed|, |s.consumed|);
  }

  /** Between visits a drained ring has been emptied of all that the last visit saw. */
  predicate Drained(cfg: Config, s: State) {
    cfg.drain && (s.c.Away? || s.c.HasTail?) ==> |s.consumed| == s.seenHead
  }

  lemma StepDrained(cfg: Config, s: State, a: Action)
    requires cfg.Valid() && Inv(cfg, s) && Drained(cfg, s) && Step(cfg, s, a).Some?
    ensures Drained(cfg, Step(cfg, s, a).value)
  {
    hide Wrap, Sub32, Inc32, Inv;
    if a.Enter? {
      EnterTakes(cfg, s);
    }
  }

  lemma {:induction false} RunDrained(cfg: Config, actions: seq<Action>, s: State)
    requires cfg.Valid() && Run(cfg, actions, s)
    ensures Drained(cfg, s)
    decreases |actions|
  {
    hide Step, Inv, Drained;
    if actions == [] {
      assert Drained(cfg, s) by { StartsDrained(cfg, s); }
    } else {
      var n := |actions| - 1;
      var before: State :| Run(cfg, actions[..n], before) && |before.slots| == cfg.depth && Step(cfg, before, actions[n]) == Some(s);
      RunDrained(cfg, actions[..n], before);
      RunInv(cfg, actions[..n], before);
      StepDrained(cfg, before, actions[n]);
    }
  }

  lemma StartsDrained(cfg: Config, s: State)
    requires IsInit(cfg, s)
    ensures Drained(cfg, s)
  {}

  /** In every reachable state: a draining consumer that is away has taken everything it saw published. */
  lemma AwayMeansDrained(cfg: Config, actions: seq<Action>, s: State)
    requires cfg.Valid() && Run(cfg, actions, s) && cfg.drain && s.c.Away?
    ensures s.seenHead <= |s.pushed| && s.consumed == s.pushed[..s.seenHead]
  {
    RunDrained(cfg, actions, s);
    RunInv(cfg, actions, s);
  }

  // ---------------------------------------------------------------- nobody sticks

  predicate ByConsumer(a: Action) {
    a.StartPop? || a.LoadHead? || a.Enter? || a.ReadByte? || a.EndRead? || a.Retire?
  }

  /** The producer's next operation, each load reading the newest value. */
  function NextPush(s: State): Action
    requires !s.p.Resting?
  {
    match s.p
    case HasHead(_, _) => LoadTail(|s.consumed|)
    case Copying(item, _, k) => if k < |item| then CopyByte else SetLen
    case Written(_, _) => Publish
  }

  /** The consumer's. */
  function NextPop(cfg: Config, s: State): Action
    requires cfg.Valid() && |s.slots| == cfg.depth
  {
    match s.c
    case Away => StartPop
    case HasTail(_) => LoadHead(|s.pushed|)
    case AtLoop(_, _) => Enter
    case Reading(t, _, out) => if |out| < s.slots[t % cfg.depth].len then ReadByte else EndRead
    case Read(_, _, _) => Retire
  }

  lemma PushEnabled(cfg: Config, s: State)
    requires cfg.Valid() && Inv(cfg, s) && !s.p.Resting?
    ensures Step(cfg, s, NextPush(s)).Some? && !ByConsumer(NextPush(s))
  {
    hide Wrap, Sub32, Inc32;
    WrappedSlot(cfg.depth, |s.pushed|);
  }

  lemma PopEnabled(cfg: Config, s: State)
    requires cfg.Valid() && Inv(cfg, s)
    ensures Step(cfg, s, NextPop(cfg, s)).Some? && ByConsumer(NextPop(cfg, s))
  {
    hide Wrap, Sub32, Inc32;
    WrappedSlot(cfg.depth, |s.consumed|);
    if s.c.Reading? {
      assert HoldsItem(cfg, s, |s.consumed|, s.pushed[|s.consumed|]);
    }
  }

  /** In every reachable state each thread that is inside a call can go on. */
  lemma NeverStuck(cfg: Config, actions: seq<Action>, s: State)
    requires cfg.Valid() && Run(cfg, actions, s) && |s.slots| == cfg.depth
    ensures !s.p.Resting? ==> exists a :: !ByConsumer(a) && Step(cfg, s, a).Some?
    ensures !s.c.Away? ==> exists a :: ByConsumer(a) && Step(cfg, s, a).Some?
  {
    RunInv(cfg, actions, s);
    hide Step, Inv;
    PopEnabled(cfg, s);
    if !s.p.Resting? {
      PushEnabled(cfg, s);
    }
  }

  /** An upper bound on the consumer's own steps to the end of the visit. */
  function Work(cfg: Config, s: State): int {
    var each := cfg.maxLen + 4;
    match s.c
    case Away => 0
    case HasTail(_) => 0
    case AtLoop(_, _) => (s.seenHead - |s.consumed|) * each + 1
    case Reading(_, _, out) => (s.seenHead - |s.consumed|) * each - |out|
    case Read(_, _, _) => (s.seenHead - |s.consumed|) * each - cfg.maxLen - 2
  }

  lemma Times(n: int, each: int)
    ensures n * each == (n - 1) * each + each
    ensures n >= 0 && each >= 0 ==> n * each >= 0
  {}

  /** Every step of the consumer inside a visit brings the end nearer, and no step of the producer puts it off. */
  lemma EveryStepCounts(cfg: Config, s: State, a: Action)
    requires cfg.Valid() && Inv(cfg, s) && Step(cfg, s, a).Some? && !s.c.HasTail? && !a.StartPop?
    ensures var s' := Step(cfg, s, a).value;
      !s'.c.HasTail? && Work(cfg, s') <= Work(cfg, s) - (if ByConsumer(a) then 1 else 0) && Work(cfg, s') >= 0
  {
    hide Wrap, Sub32, Inc32;
    var n := s.seenHead - |s.consumed|;
    Times(n, cfg.maxLen + 4);
    Times(n - 1, cfg.maxLen + 4);
    if s.c.AtLoop? {
      EnterTakes(cfg, s);
    }
    if s.c.Reading? || s.c.Read? {
      WrappedSlot(cfg.depth, |s.consumed|);
      assert HoldsItem(cfg, s, |s.consumed|, s.pushed[|s.consumed|]);
    }
  }

  function OwnSteps(actions: seq<Action>): nat {
    if actions == [] then 0 else OwnSteps(actions[..|actions| - 1]) + if ByConsumer(actions[|actions| - 1]) then 1 else 0
  }

  lemma {:induction false} WorkBounds(cfg: Config, s: State, more: seq<Action>)
    requires cfg.Valid() && |s.slots| == cfg.depth && Inv(cfg, s) && !s.c.HasTail? && After(cfg, s, more).Some?
    requires forall i :: 0 <= i < |more| ==> !more[i].StartPop?
    ensures var t := After(cfg, s, more).value;
      Inv(cfg, t) && !t.c.HasTail? && OwnSteps(more) + Work(cfg, t) <= Work(cfg, s)
    decreases |more|
  {
    hide Step, Inv, Work;
    if more != [] {
      var n := |more| - 1;
      WorkBounds(cfg, s, more[..n]);
      EveryStepCounts(cfg, After(cfg, s, more[..n]).value, more[n]);
      StepInv(cfg, After(cfg, s, more[..n]).value, more[n]);
    }
  }

  /** So every visit comes to its end, after at most that many steps of the consumer, whatever the producer does. */
  lemma VisitEnds(cfg: Config, actions: seq<Action>, s: State, more: seq<Action>)
    requires cfg.Valid() && Run(cfg, actions, s) && |s.slots| == cfg.depth && s.c.AtLoop? && After(cfg, s, more).Some?
    requires forall i :: 0 <= i < |more| ==> !more[i].StartPop?
    ensures OwnSteps(more) <= cfg.depth * (cfg.maxLen + 4) + 1
  {
    RunInv(cfg, actions, s);
    WorkBounds(cfg, s, more);
    WorkAtMost(cfg, s);
    hide Step, Inv, Work;
    WorkIsLeft(cfg, After(cfg, s, more).value);
  }

  lemma WorkAtMost(cfg: Config, s: State)
    requires cfg.Valid() && Inv(cfg, s) && s.c.AtLoop?
    ensures Work(cfg, s) <= cfg.depth * (cfg.maxLen + 4) + 1
  {
    TimesUpTo(s.seenHead - |s.consumed|, cfg.depth, cfg.maxLen + 4);
  }

  lemma TimesUpTo(a: nat, b: nat, m: nat)
    requires a <= b
    ensures a * m <= b * m
  {}

  lemma WorkIsLeft(cfg: Config, s: State)
    requires cfg.Valid() && Inv(cfg, s)
    ensures Work(cfg, s) >= 0
  {
    hide Wrap, Sub32, Inc32;
    var n := s.seenHead - |s.consumed|;
    Times(n, cfg.maxLen + 4);
    Times(n - 1, cfg.maxLen + 4);
    if s.c.Reading? {
      WrappedSlot(cfg.depth, |s.consumed|);
      assert HoldsItem(cfg, s, |s.consumed|, s.pushed[|s.consumed|]);
    }
  }

  // ---------------------------------------------------------------- whole calls

  lemma {:induction false} AfterCons(cfg: Config, s: State, a: Action, rest: seq<Action>)
    requires cfg.Valid() && |s.slots| == cfg.depth && Step(cfg, s, a).Some? && |Step(cfg, s, a).value.slots| == cfg.depth
    ensures After(cfg, s, [a] + rest) == After(cfg, Step(cfg, s, a).value, rest)
    decreases |rest|
  {
    hide Step;
    var all := [a] + rest;
    if rest == [] {
      assert all[..0] == [] && all == [a];
    } else {
      assert all[..|rest|] == [a] + rest[..|rest| - 1];
      AfterCons(cfg, s, a, rest[..|rest| - 1]);
    }
  }

  predicate AllByConsumer(actions: seq<Action>) {
    forall i :: 0 <= i < |actions| ==> ByConsumer(actions[i])
  }

  predicate NoneByConsumer(actions: seq<Action>) {
    forall i :: 0 <= i < |actions| ==> !ByConsumer(actions[i])
  }

  /** How many entries will have been taken at the end of the visit the consumer is in. */
  function Goal(cfg: Config, s: State): nat {
    if cfg.drain then s.seenHead
    else if s.c.AtLoop? && |s.consumed| == s.seenHead then |s.consumed| else |s.consumed| + 1
  }

  predicate InVisit(s: State) {
    s.c.AtLoop? || s.c.Reading? || s.c.Read?
  }

  /** The consumer's own step leaves the producer's side alone and its goal where it was. */
  lemma PopStep(cfg: Config, s: State)
    requires cfg.Valid() && Inv(cfg, s) && InVisit(s)
    ensures Step(cfg, s, NextPop(cfg, s)).Some?
    ensures var s' := Step(cfg, s, NextPop(cfg, s)).value;
      && s'.pushed == s.pushed && s'.p == s.p && s'.seenHead == s.seenHead && (InVisit(s') || s'.c.Away?)
      && (if s'.c.Away? then |s'.consumed| == Goal(cfg, s) else Goal(cfg, s') == Goal(cfg, s))
  {
    hide Wrap, Sub32, Inc32;
    PopEnabled(cfg, s);
    if s.c.AtLoop? {
      EnterTakes(cfg, s);
    }
  }

  lemma {:induction false} FinishVisit(cfg: Config, s: State) returns (more: seq<Action>)
    requires cfg.Valid() && |s.slots| == cfg.depth && Inv(cfg, s) && InVisit(s)
    ensures AllByConsumer(more) && After(cfg, s, more).Some?
    ensures var t := After(cfg, s, more).value;
      Inv(cfg, t) && t.c.Away? && t.pushed == s.pushed && t.p == s.p && |t.consumed| == Goal(cfg, s)
    decreases Work(cfg, s)
  {
    hide Step, Inv, Work, NextPop, Goal;
    var a := NextPop(cfg, s);
    PopEnabled(cfg, s);
    PopStep(cfg, s);
    NoStart(cfg, s);
    EveryStepCounts(cfg, s, a);
    StepInv(cfg, s, a);
    SameDepth(cfg, s, a);
    var s' := Step(cfg, s, a).value;
    var rest: seq<Action> := [];
    if !s'.c.Away? {
      rest := FinishVisit(cfg, s');
    }
    more := [a] + rest;
    AfterCons(cfg, s, a, rest);
  }

  lemma NoStart(cfg: Config, s: State)
    requires cfg.Valid() && |s.slots| == cfg.depth && InVisit(s)
    ensures !NextPop(cfg, s).StartPop?
  {}

  /** From any reachable state a visit takes, on its own, everything published (`tick`) or the oldest entry if any (`pop`). */
  lemma VisitTakesAll(cfg: Config, actions: seq<Action>, s: State) returns (more: seq<Action>)
    requires cfg.Valid() && Run(cfg, actions, s) && |s.slots| == cfg.depth && s.c.Away?
    ensures AllByConsumer(more) && After(cfg, s, more).Some?
    ensures var t := After(cfg, s, more).value;
      t.c.Away? && t.pushed == s.pushed && t.consumed <= s.pushed && |s.consumed| <= |s.pushed|
      && |t.consumed| == if cfg.drain || s.consumed == s.pushed then |s.pushed| else |s.consumed| + 1
  {
    RunInv(cfg, actions, s);
    var s1 := s.(c := HasTail(s.tail));
    var s2 := s1.(c := AtLoop(s.tail, Wrap(|s.pushed|)), seenHead := |s.pushed|);
    assert Step(cfg, s, StartPop) == Some(s1);
    assert Step(cfg, s1, LoadHead(|s.pushed|)) == Some(s2);
    StepInv(cfg, s, StartPop);
    StepInv(cfg, s1, LoadHead(|s.pushed|));
    var rest := FinishVisit(cfg, s2);
    hide Step;
    AfterCons(cfg, s1, LoadHead(|s.pushed|), rest);
    AfterCons(cfg, s, StartPop, [LoadHead(|s.pushed|)] + rest);
    more := [StartPop] + ([LoadHead(|s.pushed|)] + rest);
  }

  predicate Pushing(s: State) {
    s.p.Copying? || s.p.Written?
  }

  function StepsToPush(s: State): int {
    if s.p.Copying? then |s.p.item| - s.p.k + 2 else 1
  }

  lemma PushStep(cfg: Config, s: State)
    requires cfg.Valid() && Inv(cfg, s) && Pushing(s)
    ensures Step(cfg, s, NextPush(s)).Some?
    ensures var s' := Step(cfg, s, NextPush(s)).value;
      && s'.consumed == s.consumed && s'.c == s.c && 0 <= StepsToPush(s)
      && (if s.p.Written? then s'.p.Resting? && s'.pushed == s.pushed + [s.p.item]
          else Pushing(s') && s'.pushed == s.pushed && s'.p.item == s.p.item && StepsToPush(s') < StepsToPush(s))
  {
    hide Wrap, Sub32, Inc32;
    PushEnabled(cfg, s);
  }

  lemma {:induction false} FinishPush(cfg: Config, s: State) returns (more: seq<Action>)
    requires cfg.Valid() && |s.slots| == cfg.depth && Inv(cfg, s) && Pushing(s)
    ensures NoneByConsumer(more) && After(cfg, s, more).Some?
    ensures var t := After(cfg, s, more).value;
      t.p.Resting? && t.pushed == s.pushed + [s.p.item] && t.consumed == s.consumed && t.c == s.c
    decreases StepsToPush(s)
  {
    hide Step, Inv, NextPush, StepsToPush;
    var a := NextPush(s);
    PushEnabled(cfg, s);
    PushStep(cfg, s);
    StepInv(cfg, s, a);
    SameDepth(cfg, s, a);
    var s' := Step(cfg, s, a).value;
    var rest: seq<Action> := [];
    if !s.p.Written? {
      rest := FinishPush(cfg, s');
    }
    more := [a] + rest;
    AfterCons(cfg, s, a, rest);
  }

  /** From any reachable state with room, a push of any legal entry goes through on its own, the entry whole. */
  lemma PushGoesThrough(cfg: Config, actions: seq<Action>, s: State, item: seq<Byte>) returns (more: seq<Action>)
    requires cfg.Valid() && Run(cfg, actions, s) && |s.slots| == cfg.depth && s.p.Resting? && 0 < |item| <= cfg.maxLen
    requires |s.pushed| - |s.consumed| < cfg.depth
    ensures NoneByConsumer(more) && After(cfg, s, more).Some?
    ensures var t := After(cfg, s, more).value;
      t.p.Resting? && t.pushed == s.pushed + [item] && t.consumed == s.consumed && t.c == s.c
  {
    hide Wrap, Sub32, Inc32;
    RunInv(cfg, actions, s);
    var n := |s.consumed|;
    WrappedDifference(|s.pushed|, n);
    var s1 := s.(p := HasHead(item, s.head));
    var s2 := s1.(p := Copying(item, s.head, 0), seenTail := n);
    assert Step(cfg, s, StartPush(item)) == Some(s1);
    assert Step(cfg, s1, LoadTail(n)) == Some(s2);
    StepInv(cfg, s, StartPush(item));
    StepInv(cfg, s1, LoadTail(n));
    var rest := FinishPush(cfg, s2);
    hide Step;
    AfterCons(cfg, s1, LoadTail(n), rest);
    AfterCons(cfg, s, StartPush(item), [LoadTail(n)] + rest);
    more := [StartPush(item)] + ([LoadTail(n)] + rest);
  }
}
