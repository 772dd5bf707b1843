/** How long a message can stay in progress, and what its identifier identifies. */
module TxDeadline {
  import opened Bytes
  import opened Uint32
  import opened TxScheduler
  import opened TxTrace
  import opened TxRuns
  import opened TxCounts

  // ---------------------------------------------------------------- deadline

  /** Ticks never more than `period` apart, up to and including the present, and a radio that always works. */
  predicate Punctual(start: nat, period: nat, ops: seq<Timed>)
    requires Ordered(start, ops)
  {
    ops == [] ||
    (var n := |ops| - 1;
     Punctual(start, period, ops[..n]) && ops[n].at <= Run(start, ops[..n]).lastTick + period
     && (ops[n].op.DoTick? ==> forall k :: 0 <= k < MAX_QUEUE ==> ops[n].op.radio[k]))
  }

  predicate OnTime(slot: Option<Message>, lastTick: nat, period: nat) {
    Active(slot) ==>
      var m := slot.value;
      && MessageSane(m)
      && (m.state == QUEUED ==> lastTick <= m.born)
      && (m.state == PENDING ==>
           m.sentAt <= lastTick < m.sentAt + RETRY_INTERVAL
           && m.sentAt <= m.born + period + (m.retryCount - 1) * (RETRY_INTERVAL + period))
  }

  predicate MessageSane(m: Message) {
    m.lastTx == Wrap(m.sentAt) && (m.state == QUEUED ==> m.retryCount == 0) && (m.state == PENDING ==> 1 <= m.retryCount < MAX_RETRIES)
  }

  predicate AllOnTime(s: Sched, period: nat) {
    forall i :: 0 <= i < |s.slots| ==> OnTime(s.slots[i], s.lastTick, period)
  }

  /** What a tick makes of one slot. */
  function Ticked(slot: Option<Message>, now: nat, ok: bool): Option<Message> {
    if Active(slot) && Ready(slot.value, now) && ok then
      var m := slot.value;
      Some(m.(retryCount := m.retryCount + 1, lastTx := Wrap(now), sentAt := now,
              state := if m.retryCount + 1 >= MAX_RETRIES then TIMED_OUT else PENDING))
    else slot
  }

  lemma {:induction false} TickSlotsAt(s: Sched, n: nat, now: nat, radio: seq<bool>, i: nat)
    requires n <= |s.slots| <= |radio| && i < |s.slots|
    ensures TickSlots(s, n, now, radio).slots[i] == if i < n then Ticked(s.slots[i], now, radio[i]) else s.slots[i]
  {
    hide Ready, Wrap;
    if n > 0 {
      TickSlotsAt(s, n - 1, now, radio, i);
    }
  }

  lemma TickedOnTime(slot: Option<Message>, lastTick: nat, now: nat, period: nat)
    requires OnTime(slot, lastTick, period) && lastTick <= now <= lastTick + period && RETRY_INTERVAL + period < U32
    ensures OnTime(Ticked(slot, now, true), now, period)
  {
    if Active(slot) {
      var m := slot.value;
      if m.state == PENDING {
        WrappedDifference(now, m.sentAt);
        OneInterval(m.retryCount, RETRY_INTERVAL + period);
      }
    }
    hide Wrap, Sub32;
  }

  lemma OneInterval(k: int, d: int)
    ensures k * d == (k - 1) * d + d
  {}

  lemma TickOnTime(s: Sched, now: nat, radio: seq<bool>, period: nat)
    requires AllOnTime(s, period) && |s.slots| <= |radio| && forall k :: 0 <= k < |s.slots| ==> radio[k]
    requires s.lastTick <= now <= s.lastTick + period && RETRY_INTERVAL + period < U32
    ensures AllOnTime(Tick(s, now, radio), period)
  {
    hide OnTime, Ticked, TickSlots;
    var s' := Tick(s, now, radio);
    forall i | 0 <= i < |s'.slots| ensures OnTime(s'.slots[i], now, period) {
      TickSlotsAt(s, |s.slots|, now, radio, i);
      TickedOnTime(s.slots[i], s.lastTick, now, period);
    }
  }

  lemma EnqueueOnTime(s: Sched, clientId: nat, dest: string, ssid: nat, text: string, now: nat, period: nat)
    requires AllOnTime(s, period) && s.lastTick <= now
    ensures AllOnTime(Enqueue(s, clientId, dest, ssid, text, now).0, period)
  {
    WrappedIncrement(0);
    hide Decimal, Wrap, FreeSlot;
    var (s', r) := Enqueue(s, clientId, dest, ssid, text, now);
    forall i | 0 <= i < |s'.slots| ensures OnTime(s'.slots[i], s'.lastTick, period) {
      assert OnTime(s.slots[i], s.lastTick, period);
    }
  }

  lemma CompleteOnTime(s: Sched, i: nat, result: MsgState, period: nat)
    requires AllOnTime(s, period) && i < |s.slots| && s.slots[i].Some? && (result == ACKED || result == CANCELLED)
    ensures AllOnTime(Complete(s, i, result), period)
  {
    var s' := Complete(s, i, result);
    forall k | 0 <= k < |s'.slots| ensures OnTime(s'.slots[k], s'.lastTick, period) {
      assert OnTime(s.slots[k], s.lastTick, period);
    }
  }

  lemma {:induction false} RunOnTime(start: nat, period: nat, ops: seq<Timed>)
    requires Ordered(start, ops) && Punctual(start, period, ops) && RETRY_INTERVAL + period < U32
    ensures AllOnTime(Run(start, ops), period) && start <= Run(start, ops).lastTick <= Clock(start, ops)
    ensures Clock(start, ops) <= Run(start, ops).lastTick + period
  {
    if ops != [] {
      hide AllOnTime, Enqueue, Complete, TickSlots;
      var n := |ops| - 1;
      RunOnTime(start, period, ops[..n]);
      var s, now := Run(start, ops[..n]), ops[n].at;
      EnqueueKeepsTick(s, ops[n].op, now);
      match ops[n].op
      case DoEnqueue(clientId, dest, ssid, text) =>
        EnqueueOnTime(s, clientId, dest, ssid, text, now, period);
      case DoTick(radio) =>
        TickOnTime(s, now, radio, period);
      case DoAck(id) =>
        if AckSlot(s, id) < |s.slots| {
          CompleteOnTime(s, AckSlot(s, id), ACKED, period);
        }
      case DoCancel(clientId) =>
        var i := ClientSlot(s, clientId);
        if i < |s.slots| && Active(s.slots[i]) {
          CompleteOnTime(s, i, CANCELLED, period);
        }
    }
  }

  lemma EnqueueKeepsTick(s: Sched, op: Op, now: nat)
    requires op.DoTick? ==> |s.slots| <= |op.radio|
    ensures Step(s, now, op).lastTick == if op.DoTick? then now else s.lastTick
  {
    hide Decimal, Wrap, FreeSlot;
  }

  /** The bound: one tick period to the first transmission, four retry intervals each late by at most one period. */
  function Deadline(period: nat): nat {
    4 * (RETRY_INTERVAL + period) + period
  }

  /**
   * With a working radio and ticks at most `period` apart, no message is still in progress
   * Deadline(period) after it was accepted, at whatever instant one looks before the next tick is due.
   */
  lemma TerminalByDeadline(start: nat, period: nat, ops: seq<Timed>, i: nat, now: nat)
    requires Ordered(start, ops) && Punctual(start, period, ops) && RETRY_INTERVAL + period < U32
    requires i < MAX_QUEUE && Active(Run(start, ops).slots[i])
    requires Clock(start, ops) <= now <= Run(start, ops).lastTick + period
    ensures now < Run(start, ops).slots[i].value.born + Deadline(period)
  {
    RunOnTime(start, period, ops);
    var s := Run(start, ops);
    BeforeDeadline(s.slots[i], s.lastTick, period, now);
    hide Run, Punctual, Ordered;
  }

  lemma BeforeDeadline(slot: Option<Message>, lastTick: nat, period: nat, now: nat)
    requires OnTime(slot, lastTick, period) && Active(slot) && now <= lastTick + period
    ensures now < slot.value.born + Deadline(period)
  {
    if slot.value.state == PENDING {
      Intervals(slot.value.retryCount, RETRY_INTERVAL + period);
    }
  }

  lemma Intervals(k: nat, d: nat)
    requires 1 <= k <= 4
    ensures (k - 1) * d + d <= 4 * d
  {}

  // ---------------------------------------------------------------- identifiers

  lemma {:induction false} DecimalInjective(a: nat, b: nat)
    ensures Decimal(a) == Decimal(b) ==> a == b
    decreases a
  {
    if Decimal(a) == Decimal(b) {
      DigitInjective(a, b);
      DecimalLength(a);
      DecimalLength(b);
      var x, y := Decimal(a), Decimal(b);
      assert x[|x| - 1] == '0' + (a % 10) as char && y[|y| - 1] == '0' + (b % 10) as char;
      if a >= 10 && b >= 10 {
        assert Decimal(a / 10) == x[..|x| - 1] && Decimal(b / 10) == y[..|y| - 1];
        DecimalInjective(a / 10, b / 10);
      }
    }
  }

  lemma DigitInjective(a: nat, b: nat)
    ensures '0' + (a % 10) as char == '0' + (b % 10) as char ==> a % 10 == b % 10
  {}

  lemma {:induction false} DecimalLength(a: nat)
    ensures |Decimal(a)| >= 1 && (|Decimal(a)| == 1 <==> a < 10)
    ensures a <= 99999 ==> |Decimal(a)| <= 5
  {
    if a >= 10 {
      assert |Decimal(a)| == |Decimal(a / 10)| + 1;
      LengthStep(a, 5);
    }
  }

  lemma {:induction false} LengthStep(a: nat, n: nat)
    requires n >= 1
    ensures n == 5 && a <= 99999 ==> |Decimal(a)| <= 5
    ensures n == 4 && a <= 9999 ==> |Decimal(a)| <= 4
    ensures n == 3 && a <= 999 ==> |Decimal(a)| <= 3
    ensures n == 2 && a <= 99 ==> |Decimal(a)| <= 2
    ensures n == 1 && a <= 9 ==> |Decimal(a)| <= 1
    decreases n
  {
    if n > 1 {
      LengthStep(a / 10, n - 1);
    }
  }

  /** The id of a message in a slot is its order number modulo 99 999, plus one, in decimal. */
  lemma IdOf(start: nat, ops: seq<Timed>, i: nat)
    requires Ordered(start, ops) && i < MAX_QUEUE && Run(start, ops).slots[i].Some?
    ensures var m := Run(start, ops).slots[i].value;
      m.msgId == Decimal(m.ordinal % ID_RANGE + 1) && |m.msgId| <= 5
  {
    RunInv(start, ops);
    var s := Run(start, ops);
    SlotOkAt(s, Clock(start, ops), i);
    hide Run, Ordered, Decimal, Coherent, LifeOf;
    DecimalLength(s.slots[i].value.ordinal % ID_RANGE + 1);
  }

  /**
   * Two messages, seen in a slot at any two instants of a run, carry the same id exactly when
   * their order numbers agree modulo 99 999: a late ack of one hits the other exactly then.
   */
  lemma SameIdExactly(start: nat, ops: seq<Timed>, more: seq<Timed>, i: nat, j: nat)
    requires Ordered(start, ops) && Ordered(start, ops + more) && i < MAX_QUEUE && j < MAX_QUEUE
    requires Run(start, ops).slots[i].Some? && Run(start, ops + more).slots[j].Some?
    ensures var a, b := Run(start, ops).slots[i].value, Run(start, ops + more).slots[j].value;
      a.msgId == b.msgId <==> a.ordinal % ID_RANGE == b.ordinal % ID_RANGE
  {
    IdOf(start, ops, i);
    IdOf(start, ops + more, j);
    hide Run, Ordered, Decimal;
    var a, b := Run(start, ops).slots[i].value, Run(start, ops + more).slots[j].value;
    DecimalInjective(a.ordinal % ID_RANGE + 1, b.ordinal % ID_RANGE + 1);
  }

  /** An ack for a message, however late it comes, is accepted exactly when an active message's order number agrees modulo 99 999. */
  lemma LateAckExactly(start: nat, ops: seq<Timed>, more: seq<Timed>, i: nat)
    requires Ordered(start, ops) && Ordered(start, ops + more) && i < MAX_QUEUE && Run(start, ops).slots[i].Some?
    ensures var a, s := Run(start, ops).slots[i].value, Run(start, ops + more);
      Ack(s, a.msgId).1 <==> exists j :: 0 <= j < MAX_QUEUE && Active(s.slots[j]) && s.slots[j].value.ordinal % ID_RANGE == a.ordinal % ID_RANGE
  {
    var a, s := Run(start, ops).slots[i].value, Run(start, ops + more);
    AckMatchesAnyActive(s, a.msgId);
    hide Run, Ordered, Decimal, Ack;
    forall j | 0 <= j < MAX_QUEUE && Active(s.slots[j])
      ensures s.slots[j].value.msgId == a.msgId <==> s.slots[j].value.ordinal % ID_RANGE == a.ordinal % ID_RANGE
    {
      SameIdExactly(start, ops, more, i, j);
    }
  }
}
