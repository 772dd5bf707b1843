/** What every run of the scheduler keeps: the trace of each message, counts, identifiers. */
module TxTrace {
  import opened Bytes
  import opened Uint32
  import opened TxScheduler

  // ---------------------------------------------------------------- the life of one message

  /** Where a message stands after a trace: sent n times, the last at `last`; over; or the trace is not a legal one. */
  datatype Life = Alive(sent: nat, last: nat) | Over | Broken

  function LifeStep(l: Life, o: nat, e: Event): Life {
    if e.ordinal != o then l
    else match l
      case Broken => Broken
      case Over => Broken
      case Alive(n, last) =>
        match e
        case Attempt(_, _, at, ok) =>
          if n >= MAX_RETRIES || (n > 0 && at < last + RETRY_INTERVAL) then Broken
          else if ok then Alive(n + 1, at) else l
        case Done(_, _, result) =>
          if result == (if n == MAX_RETRIES then TIMED_OUT else ACKED) || (result == CANCELLED && n < MAX_RETRIES) then Over
          else Broken
  }

  /**
   * Message o's part of the trace, read as: attempts, successful ones at least 20 s after the
   * one before; at the fifth success a TIMEOUT at once; otherwise at most one ACKED or
   * CANCELLED; and nothing after a terminal report.
   */
  function LifeOf(log: seq<Event>, o: nat): Life {
    if log == [] then Alive(0, 0) else LifeStep(LifeOf(log[..|log| - 1], o), o, log[|log| - 1])
  }

  lemma LifeSnoc(log: seq<Event>, e: Event, o: nat)
    ensures LifeOf(log + [e], o) == LifeStep(LifeOf(log, o), o, e)
  {
    assert (log + [e])[..|log|] == log;
  }

  // ---------------------------------------------------------------- the invariant

  predicate MessageOk(m: Message, accepted: nat, clock: nat) {
    && m.ordinal < accepted && m.sentAt <= clock && m.born <= clock
    && m.msgId == Decimal(m.ordinal % ID_RANGE + 1)
    && (m.retryCount == 0 ==> m.sentAt == 0 && m.lastTx == 0)
    && m.lastTx == Wrap(m.sentAt)
    && match m.state
       case QUEUED => m.retryCount == 0
       case PENDING => 1 <= m.retryCount < MAX_RETRIES
       case TIMED_OUT => m.retryCount == MAX_RETRIES
       case _ => m.retryCount < MAX_RETRIES
  }

  function ExpectedLife(m: Message): Life {
    if m.Terminal() then Over else Alive(m.retryCount, m.sentAt)
  }

  predicate SlotOk(slot: Option<Message>, log: seq<Event>, accepted: nat, clock: nat) {
    slot.Some? ==> MessageOk(slot.value, accepted, clock) && LifeOf(log, slot.value.ordinal) == ExpectedLife(slot.value)
  }

  predicate InSlots(slots: seq<Option<Message>>, o: nat) {
    exists i :: 0 <= i < |slots| && slots[i].Some? && slots[i].value.ordinal == o
  }

  predicate Distinct(slots: seq<Option<Message>>) {
    forall i, j :: 0 <= i < j < |slots| && slots[i].Some? && slots[j].Some? ==> slots[i].value.ordinal != slots[j].value.ordinal
  }

  /** Messages no longer in a slot are over; messages not yet accepted have no events. */
  ghost predicate OthersOk(s: Sched) {
    && (forall o: nat :: o < s.accepted && !InSlots(s.slots, o) ==> LifeOf(s.log, o) == Over)
    && (forall o: nat :: o >= s.accepted ==> LifeOf(s.log, o) == Alive(0, 0))
  }

  ghost predicate Coherent(s: Sched, clock: nat) {
    && |s.slots| == MAX_QUEUE
    && s.counter == (if s.accepted == 0 then 0 else (s.accepted - 1) % ID_RANGE + 1)
    && (forall i :: 0 <= i < |s.slots| ==> SlotOk(s.slots[i], s.log, s.accepted, clock))
    && Distinct(s.slots)
    && OthersOk(s)
  }

  lemma InitInv(clock: nat)
    ensures Coherent(Start(clock), clock)
  {}

  lemma ClockAdvances(s: Sched, clock: nat, clock': nat)
    requires Coherent(s, clock) && clock <= clock'
    ensures Coherent(s, clock')
  {
    forall i | 0 <= i < |s.slots| ensures SlotOk(s.slots[i], s.log, s.accepted, clock') {
      assert SlotOk(s.slots[i], s.log, s.accepted, clock);
    }
  }

  /** Events of the message in slot i that leave that message as it should be keep everything else. */
  lemma SlotChange(s: Sched, clock: nat, i: nat, m': Message, log': seq<Event>)
    requires Coherent(s, clock) && i < |s.slots| && s.slots[i].Some? && m'.ordinal == s.slots[i].value.ordinal
    requires MessageOk(m', s.accepted, clock) && LifeOf(log', m'.ordinal) == ExpectedLife(m')
    requires forall o: nat :: o != m'.ordinal ==> LifeOf(log', o) == LifeOf(s.log, o)
    ensures Coherent(s.(slots := s.slots[i := Some(m')], log := log'), clock)
  {
    hide Decimal, Wrap, LifeOf;
    var s' := s.(slots := s.slots[i := Some(m')], log := log');
    forall k | 0 <= k < |s'.slots| ensures SlotOk(s'.slots[k], s'.log, s'.accepted, clock) {
      assert SlotOk(s.slots[k], s.log, s.accepted, clock);
    }
    forall o: nat | InSlots(s.slots, o) ensures InSlots(s'.slots, o) {
      var k :| 0 <= k < |s.slots| && s.slots[k].Some? && s.slots[k].value.ordinal == o;
      assert s'.slots[k].Some? && s'.slots[k].value.ordinal == o;
    }
    assert InSlots(s.slots, m'.ordinal);
    assert SlotOk(s.slots[i], s.log, s.accepted, clock);
  }

  lemma SlotEvent(s: Sched, clock: nat, i: nat, m': Message, e: Event)
    requires Coherent(s, clock) && i < |s.slots| && s.slots[i].Some?
    requires m'.ordinal == s.slots[i].value.ordinal == e.ordinal
    requires MessageOk(m', s.accepted, clock)
    requires LifeStep(LifeOf(s.log, m'.ordinal), m'.ordinal, e) == ExpectedLife(m')
    ensures Coherent(s.(slots := s.slots[i := Some(m')], log := s.log + [e]), clock)
  {
    hide Decimal, Wrap, LifeOf, Coherent, MessageOk, ExpectedLife;
    forall o: nat ensures LifeOf(s.log + [e], o) == LifeStep(LifeOf(s.log, o), o, e) {
      LifeSnoc(s.log, e, o);
    }
    SlotChange(s, clock, i, m', s.log + [e]);
  }

  lemma CompleteInv(s: Sched, clock: nat, i: nat, result: MsgState)
    requires Coherent(s, clock) && i < |s.slots| && Active(s.slots[i]) && (result == ACKED || result == CANCELLED)
    ensures Coherent(Complete(s, i, result), clock)
  {
    var m := s.slots[i].value;
    assert SlotOk(s.slots[i], s.log, s.accepted, clock);
    SlotEvent(s, clock, i, m.(state := result), Done(m.ordinal, m.Content(), result));
  }

  lemma SlotOkAt(s: Sched, clock: nat, i: nat)
    requires Coherent(s, clock) && i < |s.slots|
    ensures |s.slots| == MAX_QUEUE && SlotOk(s.slots[i], s.log, s.accepted, clock)
  {}

  lemma TransmitInv(s: Sched, i: nat, now: nat, ok: bool)
    requires Coherent(s, now) && i < |s.slots| && Active(s.slots[i]) && Ready(s.slots[i].value, now)
    ensures Coherent(Transmit(s, i, now, ok), now)
  {
    hide Decimal, Wrap, Sub32, LifeOf, Coherent;
    var m := s.slots[i].value;
    SlotOkAt(s, now, i);
    WrappedAge(now, m.sentAt);
    var attempt := Attempt(m.ordinal, m.Content(), now, ok);
    LifeSnoc(s.log, attempt, m.ordinal);
    if !ok {
      SlotEvent(s, now, i, m, attempt);
      assert s.slots[i := Some(m)] == s.slots;
    } else {
      var sent := m.(retryCount := m.retryCount + 1, lastTx := Wrap(now), state := PENDING, sentAt := now);
      if sent.retryCount < MAX_RETRIES {
        SlotEvent(s, now, i, sent, attempt);
      } else {
        var timedOut := sent.(state := TIMED_OUT);
        var log' := s.log + [attempt] + [Done(m.ordinal, m.Content(), TIMED_OUT)];
        forall o: nat ensures LifeOf(log', o) == LifeStep(LifeStep(LifeOf(s.log, o), o, attempt), o, Done(m.ordinal, m.Content(), TIMED_OUT)) {
          LifeSnoc(s.log, attempt, o);
          LifeSnoc(s.log + [attempt], Done(m.ordinal, m.Content(), TIMED_OUT), o);
        }
        SlotChange(s, now, i, timedOut, log');
        assert s.slots[i := Some(sent)][i := Some(timedOut)] == s.slots[i := Some(timedOut)];
      }
    }
  }

  lemma {:induction false} TickSlotsInv(s: Sched, n: nat, now: nat, radio: seq<bool>)
    requires Coherent(s, now) && n <= |s.slots| <= |radio|
    ensures Coherent(TickSlots(s, n, now, radio), now)
  {
    hide Coherent, Transmit, Ready;
    if n > 0 {
      TickSlotsInv(s, n - 1, now, radio);
      var before := TickSlots(s, n - 1, now, radio);
      if Active(before.slots[n - 1]) && Ready(before.slots[n - 1].value, now) {
        TransmitInv(before, n - 1, now, radio[n - 1]);
      }
    }
  }

  lemma EnqueueInv(s: Sched, clientId: nat, dest: string, ssid: nat, text: string, now: nat)
    requires Coherent(s, now)
    ensures Coherent(Enqueue(s, clientId, dest, ssid, text, now).0, now)
  {
    hide Decimal, Wrap, LifeOf;
    var (s', r) := Enqueue(s, clientId, dest, ssid, text, now);
    if r == OK {
      var i := FreeSlot(s.slots);
      CounterStep(s.accepted);
      WrappedIncrement(0);
      forall k | 0 <= k < |s'.slots| ensures SlotOk(s'.slots[k], s'.log, s'.accepted, now) {
        if k != i {
          assert SlotOk(s.slots[k], s.log, s.accepted, now);
        }
      }
      assert Distinct(s'.slots) by {
        forall k | 0 <= k < |s.slots| && s.slots[k].Some? ensures s.slots[k].value.ordinal < s.accepted {
          assert SlotOk(s.slots[k], s.log, s.accepted, now);
        }
      }
      assert s'.slots[i].Some? && s'.slots[i].value.ordinal == s.accepted;
      assert InSlots(s'.slots, s.accepted);
      forall o: nat | InSlots(s.slots, o)
        ensures InSlots(s'.slots, o) || (s.slots[i].Some? && s.slots[i].value.ordinal == o)
      {
        var k :| 0 <= k < |s.slots| && s.slots[k].Some? && s.slots[k].value.ordinal == o;
        if k != i {
          assert s'.slots[k].Some? && s'.slots[k].value.ordinal == o;
        }
      }
      assert SlotOk(s.slots[i], s.log, s.accepted, now);
    }
  }

  lemma CounterStep(accepted: nat)
    ensures NextCounter(if accepted == 0 then 0 else (accepted - 1) % ID_RANGE + 1) == accepted % ID_RANGE + 1
  {}
}
