/**
 * The single-producer single-consumer rings, one atomic or memory step at a time:
 * AprsTaskContext.cpp:30-101 (request ring and KISS ring, drained by `tick`) and
 * main.cpp:199-230 (`Ax25RxQueue`, emptied by `pop`).
 *
 * The indices are the source's free-running uint32 counters. A load of the other side's
 * counter may return any value it has had since the last one seen (an acquire load can be
 * stale, but never goes backwards). Copying an entry is one step per byte, so a reader could
 * in principle see it half written. `pushed`, `consumed`, `seenHead` and `seenTail` are
 * history: no step is enabled or disabled by them.
 */
module SpscRing {
  import opened Bytes
  import opened RingIndex
  import opened Uint32

  /** Depth and entry size of a ring, and whether one visit empties it (`tick`) or takes one entry (`pop`). */
  datatype Config = Config(depth: nat, maxLen: nat, drain: bool) {
    predicate Valid() {
      GoodDepth(depth)
    }
  }

  const REQUEST_RING := Config(8, 80, true)
  const KISS_RING := Config(4, 330, true)
  const RX_QUEUE := Config(8, 330, false)

  datatype Slot = Slot(data: seq<Byte>, len: nat)

  datatype Producer =
    | Resting
    | HasHead(item: seq<Byte>, h: nat)
    | Copying(item: seq<Byte>, h: nat, k: nat)
    | Written(item: seq<Byte>, h: nat)

  datatype Consumer =
    | Away
    | HasTail(t: nat)
    | AtLoop(t: nat, h: nat)
    | Reading(t: nat, h: nat, out: seq<Byte>)
    | Read(t: nat, h: nat, out: seq<Byte>)

  datatype State = State(slots: seq<Slot>, head: nat, tail: nat, p: Producer, c: Consumer,
                         pushed: seq<seq<Byte>>, consumed: seq<seq<Byte>>, seenTail: nat, seenHead: nat)

  datatype Action =
    | StartPush(item: seq<Byte>)  // the argument checks and `head_.load`
    | LoadTail(seen: nat)         // `tail_.load` by the producer, and the full test
    | CopyByte                    // one byte of the memcpy into the slot
    | SetLen                      // `e.len = len`
    | Publish                     // `head_.store(h + 1)`
    | StartPop                    // `tail_.load` by the consumer
    | LoadHead(seen: nat)         // `head_.load` by the consumer
    | Enter                       // the loop test `t != h`
    | ReadByte                    // one byte read from the slot
    | EndRead
    | Retire                      // `tail_.store(t + 1)`

  predicate IsInit(cfg: Config, s: State) {
    |s.slots| == cfg.depth && (forall i :: 0 <= i < cfg.depth ==> |s.slots[i].data| == cfg.maxLen)
    && s.head == 0 && s.tail == 0 && s.p == Resting && s.c == Away
    && s.pushed == [] && s.consumed == [] && s.seenTail == 0 && s.seenHead == 0
  }

  /** One step; None when the action is not the thread's next one. */
  function Step(cfg: Config, s: State, a: Action): Option<State>
    requires cfg.Valid() && |s.slots| == cfg.depth
  {
    match a
    case StartPush(item) =>
      if s.p.Resting? && 0 < |item| <= cfg.maxLen then Some(s.(p := HasHead(item, s.head))) else None
    case LoadTail(seen) =>
      if s.p.HasHead? && s.seenTail <= seen <= |s.consumed| then
        if Sub32(s.p.h, Wrap(seen)) >= cfg.depth then Some(s.(p := Resting, seenTail := seen))
        else Some(s.(p := Copying(s.p.item, s.p.h, 0), seenTail := seen))
      else None
    case CopyByte =>
      if s.p.Copying? then
        var i, k := s.p.h % cfg.depth, s.p.k;
        if k < |s.p.item| && k < |s.slots[i].data| then
          Some(s.(slots := s.slots[i := s.slots[i].(data := s.slots[i].data[k := s.p.item[k]])], p := Copying(s.p.item, s.p.h, k + 1)))
        else None
      else None
    case SetLen =>
      if s.p.Copying? && s.p.k == |s.p.item| then
        var i := s.p.h % cfg.depth;
        Some(s.(slots := s.slots[i := s.slots[i].(len := |s.p.item|)], p := Written(s.p.item, s.p.h)))
      else None
    case Publish =>
      if s.p.Written? then Some(s.(head := Inc32(s.p.h), p := Resting, pushed := s.pushed + [s.p.item])) else None
    case StartPop =>
      if s.c.Away? then Some(s.(c := HasTail(s.tail))) else None
    case LoadHead(seen) =>
      if s.c.HasTail? && s.seenHead <= seen <= |s.pushed| then Some(s.(c := AtLoop(s.c.t, Wrap(seen)), seenHead := seen)) else None
    case Enter =>
      if s.c.AtLoop? then Some(s.(c := if s.c.t == s.c.h then Away else Reading(s.c.t, s.c.h, []))) else None
    case ReadByte =>
      if s.c.Reading? then
        var slot, k := s.slots[s.c.t % cfg.depth], |s.c.out|;
        if k < slot.len && k < |slot.data| then Some(s.(c := Reading(s.c.t, s.c.h, s.c.out + [slot.data[k]]))) else None
      else None
    case EndRead =>
      if s.c.Reading? && |s.c.out| == s.slots[s.c.t % cfg.depth].len then Some(s.(c := Read(s.c.t, s.c.h, s.c.out))) else None
    case Retire =>
      if s.c.Read? then
        var t := Inc32(s.c.t);
        Some(s.(tail := t, c := if cfg.drain then AtLoop(t, s.c.h) else Away, consumed := s.consumed + [s.c.out]))
      else None
  }

  // ---------------------------------------------------------------- the invariant

  /** Slot n modulo the depth holds `item`. */
  predicate HoldsItem(cfg: Config, s: State, n: nat, item: seq<Byte>)
    requires cfg.Valid() && |s.slots| == cfg.depth
  {
    var slot := s.slots[n % cfg.depth];
    slot.len == |item| && item <= slot.data
  }

  predicate ProducerOk(cfg: Config, s: State)
    requires cfg.Valid() && |s.slots| == cfg.depth
  {
    var n := |s.pushed|;
    match s.p
    case Resting => true
    case HasHead(item, h) => h == Wrap(n) && 0 < |item| <= cfg.maxLen
    case Copying(item, h, k) =>
      h == Wrap(n) && 0 < |item| <= cfg.maxLen && n - s.seenTail < cfg.depth
      && k <= |item| && k <= |s.slots[n % cfg.depth].data| && item[..k] == s.slots[n % cfg.depth].data[..k]
    case Written(item, h) =>
      h == Wrap(n) && 0 < |item| <= cfg.maxLen && n - s.seenTail < cfg.depth && HoldsItem(cfg, s, n, item)
  }

  predicate ConsumerOk(cfg: Config, s: State)
    requires cfg.Valid() && |s.slots| == cfg.depth
  {
    var n := |s.consumed|;
    match s.c
    case Away => true
    case HasTail(t) => t == Wrap(n)
    case AtLoop(t, h) => t == Wrap(n) && h == Wrap(s.seenHead)
    case Reading(t, h, out) => t == Wrap(n) && h == Wrap(s.seenHead) && n < s.seenHead && n < |s.pushed| && out <= s.pushed[n]
    case Read(t, h, out) => t == Wrap(n) && h == Wrap(s.seenHead) && n < s.seenHead && n < |s.pushed| && out == s.pushed[n]
  }

  predicate Inv(cfg: Config, s: State)
    requires cfg.Valid()
  {
    |s.slots| == cfg.depth
    && (forall i :: 0 <= i < cfg.depth ==> |s.slots[i].data| == cfg.maxLen)
    && s.head == Wrap(|s.pushed|) && s.tail == Wrap(|s.consumed|)
    && s.seenTail <= |s.consumed| <= s.seenHead <= |s.pushed| <= s.seenTail + cfg.depth
    && s.consumed == s.pushed[..|s.consumed|]
    && (forall n :: |s.consumed| <= n < |s.pushed| ==> HoldsItem(cfg, s, n, s.pushed[n]))
    && ProducerOk(cfg, s) && ConsumerOk(cfg, s)
  }

  lemma InitInv(cfg: Config, s: State)
    requires cfg.Valid() && IsInit(cfg, s)
    ensures Inv(cfg, s)
  {}

  // ---------------------------------------------------------------- every step keeps the invariant

  /** A slot the producer touches is none of those pending. */
  lemma WriteKeepsPending(cfg: Config, s: State, s': State)
    requires cfg.Valid() && Inv(cfg, s) && |s'.slots| == cfg.depth
    requires |s.pushed| - s.seenTail < cfg.depth
    requires forall i :: 0 <= i < cfg.depth && i != |s.pushed| % cfg.depth ==> s'.slots[i] == s.slots[i]
    ensures forall n :: |s.consumed| <= n < |s.pushed| ==>
      n % cfg.depth != |s.pushed| % cfg.depth && HoldsItem(cfg, s', n, s.pushed[n])
  {
    forall n | |s.consumed| <= n < |s.pushed|
      ensures n % cfg.depth != |s.pushed| % cfg.depth && HoldsItem(cfg, s', n, s.pushed[n])
    {
      DistinctSlots(cfg.depth, n, |s.pushed|);
      assert HoldsItem(cfg, s, n, s.pushed[n]);
    }
  }

  lemma SamePending(cfg: Config, s: State, s': State)
    requires cfg.Valid() && Inv(cfg, s) && s'.slots == s.slots && s'.pushed == s.pushed && |s.consumed| <= |s'.consumed|
    ensures forall n :: |s'.consumed| <= n < |s.pushed| ==> HoldsItem(cfg, s', n, s.pushed[n])
  {
    forall n | |s'.consumed| <= n < |s.pushed| ensures HoldsItem(cfg, s', n, s.pushed[n]) {
      assert HoldsItem(cfg, s, n, s.pushed[n]);
    }
  }

  lemma ProducerStep(cfg: Config, s: State, a: Action)
    requires cfg.Valid() && Inv(cfg, s) && Step(cfg, s, a).Some?
    requires a.StartPush? || a.LoadTail? || a.CopyByte? || a.SetLen?
    ensures Inv(cfg, Step(cfg, s, a).value)
  {
    hide Wrap, Sub32, Inc32;
    var s' := Step(cfg, s, a).value;
    WrappedSlot(cfg.depth, |s.pushed|);
    match a
    case StartPush(item) =>
      SamePending(cfg, s, s');
    case LoadTail(seen) =>
      WrappedDifference(|s.pushed|, seen);
      SamePending(cfg, s, s');
    case CopyByte =>
      WriteKeepsPending(cfg, s, s');
    case SetLen =>
      WriteKeepsPending(cfg, s, s');
  }

  lemma PublishStep(cfg: Config, s: State)
    requires cfg.Valid() && Inv(cfg, s) && Step(cfg, s, Publish).Some?
    ensures Inv(cfg, Step(cfg, s, Publish).value)
  {
    hide Wrap, Sub32, Inc32;
    WrappedIncrement(|s.pushed|);
    var s' := Step(cfg, s, Publish).value;
    forall n | |s'.consumed| <= n < |s'.pushed| ensures HoldsItem(cfg, s', n, s'.pushed[n]) {
      if n < |s.pushed| {
        assert HoldsItem(cfg, s, n, s.pushed[n]);
      }
    }
  }

  lemma ConsumerStep(cfg: Config, s: State, a: Action)
    requires cfg.Valid() && Inv(cfg, s) && Step(cfg, s, a).Some?
    requires a.StartPop? || a.LoadHead? || a.Enter? || a.ReadByte? || a.EndRead?
    ensures Inv(cfg, Step(cfg, s, a).value)
  {
    hide Wrap, Sub32, Inc32;
    var s' := Step(cfg, s, a).value;
    var n := |s.consumed|;
    WrappedSlot(cfg.depth, n);
    SamePending(cfg, s, s');
    if s.c.AtLoop? {
      WrappedDifference(s.seenHead, n);
      WrappedDifference(n, n);
    }
    if s.c.Reading? {
      assert HoldsItem(cfg, s, n, s.pushed[n]);
    }
  }

  lemma RetireStep(cfg: Config, s: State)
    requires cfg.Valid() && Inv(cfg, s) && Step(cfg, s, Retire).Some?
    ensures Inv(cfg, Step(cfg, s, Retire).value)
  {
    hide Wrap, Sub32, Inc32;
    WrappedIncrement(|s.consumed|);
    var s' := Step(cfg, s, Retire).value;
    SamePending(cfg, s, s');
    assert s.pushed[..|s.consumed| + 1] == s.pushed[..|s.consumed|] + [s.pushed[|s.consumed|]];
  }

  lemma StepInv(cfg: Config, s: State, a: Action)
    requires cfg.Valid() && Inv(cfg, s) && Step(cfg, s, a).Some?
    ensures Inv(cfg, Step(cfg, s, a).value)
  {
    hide Step, Inv;
    match a
    case Publish => PublishStep(cfg, s);
    case Retire => RetireStep(cfg, s);
    case StartPush(_) => ProducerStep(cfg, s, a);
    case LoadTail(_) => ProducerStep(cfg, s, a);
    case CopyByte => ProducerStep(cfg, s, a);
    case SetLen => ProducerStep(cfg, s, a);
    case StartPop => ConsumerStep(cfg, s, a);
    case LoadHead(_) => ConsumerStep(cfg, s, a);
    case Enter => ConsumerStep(cfg, s, a);
    case ReadByte => ConsumerStep(cfg, s, a);
    case EndRead => ConsumerStep(cfg, s, a);
  }

  // ---------------------------------------------------------------- whole runs

  /** s follows from an initial state by the actions, in that order, whichever thread each belongs to. */
  ghost predicate Run(cfg: Config, actions: seq<Action>, s: State)
    requires cfg.Valid()
    decreases |actions|
  {
    if actions == [] then IsInit(cfg, s)
    else
      var n := |actions| - 1;
      exists before: State :: Run(cfg, actions[..n], before) && |before.slots| == cfg.depth
        && Step(cfg, before, actions[n]) == Some(s)
  }

  lemma {:induction false} RunInv(cfg: Config, actions: seq<Action>, s: State)
    requires cfg.Valid() && Run(cfg, actions, s)
    ensures Inv(cfg, s)
    decreases |actions|
  {
    hide Step, Inv;
    if actions == [] {
      InitInv(cfg, s);
    } else {
      var n := |actions| - 1;
      var before: State :| Run(cfg, actions[..n], before) && |before.slots| == cfg.depth && Step(cfg, before, actions[n]) == Some(s);
      RunInv(cfg, actions[..n], before);
      StepInv(cfg, before, actions[n]);
    }
  }

  /**
   * Under every interleaving: what the consumer got is exactly what was pushed first, in order
   * and whole; no more than `depth` entries are pending, and they are in their slots.
   */
  lemma FifoUnderEveryInterleaving(cfg: Config, actions: seq<Action>, s: State)
    requires cfg.Valid() && Run(cfg, actions, s)
    ensures |s.slots| == cfg.depth
    ensures s.consumed <= s.pushed && |s.pushed| - |s.consumed| <= cfg.depth
    ensures Sub32(s.head, s.tail) == |s.pushed| - |s.consumed|
    ensures forall n :: |s.consumed| <= n < |s.pushed| ==> HoldsItem(cfg, s, n, s.pushed[n])
  {
    RunInv(cfg, actions, s);
    WrappedDifference(|s.pushed|, |s.consumed|);
  }

  /** While an entry is being read, a concurrent push is writing some other slot. */
  lemma ReadEntryNeverOverwritten(cfg: Config, actions: seq<Action>, s: State)
    requires cfg.Valid() && Run(cfg, actions, s) && s.c.Reading? && (s.p.Copying? || s.p.Written?)
    ensures s.c.t % cfg.depth != s.p.h % cfg.depth
    ensures |s.consumed| < |s.pushed| && s.c.out <= s.pushed[|s.consumed|]
  {
    RunInv(cfg, actions, s);
    WrappedSlot(cfg.depth, |s.consumed|);
    WrappedSlot(cfg.depth, |s.pushed|);
    DistinctSlots(cfg.depth, |s.consumed|, |s.pushed|);
  }

  /** A push is turned away exactly when, for the tail it read, a full ring was pending. */
  lemma RefusedOnlyWhenFull(cfg: Config, actions: seq<Action>, s: State, seen: nat)
    requires cfg.Valid() && Run(cfg, actions, s) && |s.slots| == cfg.depth && Step(cfg, s, LoadTail(seen)).Some?
    ensures Step(cfg, s, LoadTail(seen)).value.p.Resting? <==> |s.pushed| - seen == cfg.depth
  {
    hide Wrap, Sub32, Inc32;
    RunInv(cfg, actions, s);
    WrappedDifference(|s.pushed|, seen);
  }

  /** How many entries the current visit may still take. */
  function LeftInVisit(cfg: Config, s: State): nat {
    match s.c
    case AtLoop(t, h) => Sub32(h, t)
    case Reading(t, h, _) => if cfg.drain then Sub32(h, t) else 1
    case Read(t, h, _) => if cfg.drain then Sub32(h, t) else 1
    case _ => 0
  }

  /** A drain loop takes at most `depth` entries: it starts with at most that many to go and each takes one off. */
  lemma DrainBounded(cfg: Config, actions: seq<Action>, s: State)
    requires cfg.Valid() && Run(cfg, actions, s) && |s.slots| == cfg.depth
    ensures LeftInVisit(cfg, s) <= cfg.depth
    ensures s.c.Read? && Step(cfg, s, Retire).Some? ==>
      LeftInVisit(cfg, Step(cfg, s, Retire).value) + 1 == LeftInVisit(cfg, s)
  {
    hide Wrap, Sub32, Inc32;
    RunInv(cfg, actions, s);
    var n := |s.consumed|;
    WrappedDifference(s.seenHead, n);
    WrappedIncrement(n);
    if s.c.Read? {
      WrappedDifference(s.seenHead, n + 1);
    }
  }

  /** No other step of a visit raises that number, and no new visit begins without StartPop. */
  lemma VisitStep(cfg: Config, s: State, a: Action)
    requires cfg.Valid() && Inv(cfg, s) && Step(cfg, s, a).Some? && !a.StartPop? && !s.c.HasTail?
    ensures var s' := Step(cfg, s, a).value;
      !s'.c.HasTail? && LeftInVisit(cfg, s') + (if a.Retire? then 1 else 0) <= LeftInVisit(cfg, s)
  {
    hide Wrap, Sub32, Inc32;
    var n := |s.consumed|;
    WrappedDifference(s.seenHead, n);
    WrappedIncrement(n);
    if s.c.Read? {
      WrappedDifference(s.seenHead, n + 1);
    }
    if s.c.AtLoop? && s.c.t != s.c.h {
      assert s.seenHead != n;
    }
  }

  function After(cfg: Config, s: State, actions: seq<Action>): (r: Option<State>)
    requires cfg.Valid() && |s.slots| == cfg.depth
    ensures r.Some? ==> |r.value.slots| == cfg.depth
  {
    if actions == [] then Some(s)
    else
      var before := After(cfg, s, actions[..|actions| - 1]);
      if before.None? then None else SameDepth(cfg, before.value, actions[|actions| - 1]); Step(cfg, before.value, actions[|actions| - 1])
  }

  lemma SameDepth(cfg: Config, s: State, a: Action)
    requires cfg.Valid() && |s.slots| == cfg.depth
    ensures Step(cfg, s, a).Some? ==> |Step(cfg, s, a).value.slots| == cfg.depth
  {}

  function Retires(actions: seq<Action>): nat {
    if actions == [] then 0 else Retires(actions[..|actions| - 1]) + if actions[|actions| - 1].Retire? then 1 else 0
  }

  lemma {:induction false} VisitCounts(cfg: Config, s: State, more: seq<Action>)
    requires cfg.Valid() && |s.slots| == cfg.depth && Inv(cfg, s) && !s.c.HasTail? && After(cfg, s, more).Some?
    requires forall i :: 0 <= i < |more| ==> !more[i].StartPop?
    ensures var t := After(cfg, s, more).value;
      Inv(cfg, t) && !t.c.HasTail? && Retires(more) + LeftInVisit(cfg, t) <= LeftInVisit(cfg, s)
    decreases |more|
  {
    hide Step, Inv, LeftInVisit;
    if more != [] {
      var n := |more| - 1;
      VisitCounts(cfg, s, more[..n]);
      VisitStep(cfg, After(cfg, s, more[..n]).value, more[n]);
      StepInv(cfg, After(cfg, s, more[..n]).value, more[n]);
    }
  }

  /** However long it goes on and whatever the producer does meanwhile, one visit takes at most `depth` entries. */
  lemma VisitBounded(cfg: Config, actions: seq<Action>, s: State, more: seq<Action>)
    requires cfg.Valid() && Run(cfg, actions, s) && |s.slots| == cfg.depth && !s.c.HasTail? && After(cfg, s, more).Some?
    requires forall i :: 0 <= i < |more| ==> !more[i].StartPop?
    ensures Retires(more) <= cfg.depth
  {
    hide Step, Inv;
    RunInv(cfg, actions, s);
    DrainBounded(cfg, actions, s);
    VisitCounts(cfg, s, more);
  }

  /** The rings of the firmware are such rings. */
  lemma FirmwareRings()
    ensures REQUEST_RING.Valid() && KISS_RING.Valid() && RX_QUEUE.Valid()
  {}
}
