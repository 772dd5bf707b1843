/**
 * The scheduler object: firmware/components/aprs_fsm/TxScheduler.cpp:22-179. The radio's
 * answers are given to `Tick` (one per slot), and `events` records the calls of the two
 * callbacks. `accepted` and `lastTick` are history.
 */
module TxQueue {
  import opened Bytes
  import opened Uint32
  import opened TxScheduler
  import opened TxCounts

  class Queue {
    const slots: array<Option<Message>>
    var msgIdCounter: nat
    var events: seq<Event>
    var accepted: nat
    ghost var lastTick: nat

    ghost predicate Valid()
      reads this
    {
      slots.Length == MAX_QUEUE
    }

    ghost function State(): Sched
      reads this, slots
    {
      Sched(slots[..], msgIdCounter, accepted, lastTick, events)
    }

    constructor (ghost now: nat)
      ensures Valid() && State() == Start(now) && fresh(slots)
    {
      slots := new Option<Message>[MAX_QUEUE](_ => None);
      msgIdCounter, events, accepted, lastTick := 0, [], 0, now;
    }

    method FindFreeSlot() returns (idx: int)
      requires Valid()
      ensures idx == var i := FreeSlot(slots[..]); if i < MAX_QUEUE then i else -1
    {
      hide FirstIndex;
      for i := 0 to MAX_QUEUE
        invariant forall k :: 0 <= k < i ==> slots[k].Some?
      {
        if slots[i].None? {
          FreeEmpty(slots[..], i);
          return i;
        }
      }
      for i := 0 to MAX_QUEUE
        invariant forall k :: 0 <= k < MAX_QUEUE ==> slots[k].Some?
        invariant forall k :: 0 <= k < i ==> Active(slots[k])
      {
        if slots[i].Some? && slots[i].value.Terminal() {
          FreeTerminal(slots[..], i);
          return i;
        }
      }
      assert forall k :: 0 <= k < |slots[..]| ==> Active(slots[..][k]);
      return -1;
    }

    method Enqueue(clientId: nat, dest: string, ssid: nat, text: string, now: nat) returns (r: EnqueueResult)
      requires Valid()
      modifies this, slots
      ensures Valid() && (State(), r) == TxScheduler.Enqueue(old(State()), clientId, dest, ssid, text, now)
    {
      hide FreeSlot, Decimal, Wrap;
      if dest == "" || text == "" {
        return BAD_PARAM;
      }
      if |dest| > MAX_CALLSIGN || |text| > MAX_TEXT {
        return BAD_PARAM;
      }
      var idx := FindFreeSlot();
      if idx < 0 {
        return QUEUE_FULL;
      }
      msgIdCounter := NextCounter(msgIdCounter);
      slots[idx] := Some(Message(clientId, dest, ssid, text, Decimal(msgIdCounter), QUEUED, 0, 0, Wrap(now), accepted, now, 0));
      accepted := accepted + 1;
      return OK;
    }

    method Complete(idx: nat, result: MsgState)
      requires Valid() && idx < MAX_QUEUE && slots[idx].Some?
      modifies this`events, slots
      ensures State() == TxScheduler.Complete(old(State()), idx, result)
    {
      var m := slots[idx].value.(state := result);
      slots[idx] := Some(m);
      events := events + [Done(m.ordinal, m.Content(), m.state)];
    }

    method TransmitNow(idx: nat, now: nat, radioOk: bool) returns (sent: bool)
      requires Valid() && idx < MAX_QUEUE && slots[idx].Some?
      modifies this`events, slots
      ensures State() == Transmit(old(State()), idx, now, radioOk) && sent == radioOk
    {
      hide Wrap;
      var m := slots[idx].value;
      events := events + [Attempt(m.ordinal, m.Content(), now, radioOk)];
      if radioOk {
        m := m.(retryCount := m.retryCount + 1, lastTx := Wrap(now), state := PENDING, sentAt := now);
        slots[idx] := Some(m);
        if m.retryCount >= MAX_RETRIES {
          Complete(idx, TIMED_OUT);
        }
        return true;
      }
      return false;
    }

    method Tick(now: nat, radio: seq<bool>) returns (txCount: nat)
      requires Valid() && |radio| == MAX_QUEUE
      modifies this, slots
      ensures Valid() && State() == TxScheduler.Tick(old(State()), now, radio)
      ensures txCount == AllSuccesses(events) - AllSuccesses(old(events))
    {
      ghost var before := State();
      txCount := 0;
      hide Transmit, Ready, AllSuccesses, Attempted;
      for i := 0 to MAX_QUEUE
        invariant State() == TickSlots(before, i, now, radio)
        invariant txCount == AllSuccesses(events) - AllSuccesses(before.log)
      {
        var slot := slots[i];
        if slot.Some? && !slot.value.Terminal() && Ready(slot.value, now) {
          TransmitLogs(State(), i, now, radio[i]);
          AttemptCounts(events, Transmit(State(), i, now, radio[i]).log, slot.value, now, radio[i]);
          var sent := TransmitNow(i, now, radio[i]);
          if sent {
            txCount := txCount + 1;
          }
        }
      }
      lastTick := now;
    }

    method OnAckReceived(id: string) returns (found: bool)
      requires Valid()
      modifies this`events, slots
      ensures (State(), found) == Ack(old(State()), id)
    {
      hide FirstIndex;
      for i := 0 to MAX_QUEUE
        invariant State() == old(State())
        invariant forall k :: 0 <= k < i ==> !(Active(slots[k]) && slots[k].value.msgId == id)
      {
        if slots[i].Some? && !slots[i].value.Terminal() && slots[i].value.msgId == id {
          AckSlotIs(State(), id, i);
          Complete(i, ACKED);
          return true;
        }
      }
      NoAckSlot(State(), id);
      return false;
    }

    method Cancel(clientId: nat) returns (found: bool)
      requires Valid()
      modifies this`events, slots
      ensures (State(), found) == TxScheduler.Cancel(old(State()), clientId)
    {
      hide FirstIndex;
      var idx := 0;
      while idx < MAX_QUEUE && !(slots[idx].Some? && slots[idx].value.clientId == clientId)
        invariant 0 <= idx <= MAX_QUEUE
        invariant forall k :: 0 <= k < idx ==> !(slots[k].Some? && slots[k].value.clientId == clientId)
      {
        idx := idx + 1;
      }
      ClientSlotAt(State(), clientId, idx);
      if idx == MAX_QUEUE || slots[idx].value.Terminal() {
        return false;
      }
      Complete(idx, CANCELLED);
      return true;
    }

    method CountActive() returns (n: nat)
      requires Valid()
      ensures n == ActiveCount(slots[..])
    {
      n := 0;
      for i := 0 to MAX_QUEUE
        invariant n == ActiveCount(slots[..i])
      {
        assert slots[..i + 1][..i] == slots[..i];
        if slots[i].Some? && !slots[i].value.Terminal() {
          n := n + 1;
        }
      }
      assert slots[..MAX_QUEUE] == slots[..];
    }
  }

  lemma FreeEmpty(slots: seq<Option<Message>>, i: nat)
    requires i < |slots| && slots[i].None? && forall k :: 0 <= k < i ==> slots[k].Some?
    ensures FreeSlot(slots) == i
  {
    FreeSlotIs(slots, i);
  }

  lemma FreeTerminal(slots: seq<Option<Message>>, i: nat)
    requires i < |slots| && Finished(slots[i])
    requires forall k :: 0 <= k < |slots| ==> slots[k].Some?
    requires forall k :: 0 <= k < i ==> Active(slots[k])
    ensures FreeSlot(slots) == i
  {
    hide FirstIndex;
    var e, f := FirstIndex(slots, Unused, 0), FirstIndex(slots, Finished, 0);
    assert e == |slots|;
    assert f == i;
  }

  lemma AckSlotIs(s: Sched, id: string, i: nat)
    requires i < |s.slots| && Active(s.slots[i]) && s.slots[i].value.msgId == id
    requires forall k :: 0 <= k < i ==> !(Active(s.slots[k]) && s.slots[k].value.msgId == id)
    ensures AckSlot(s, id) == i
  {
    hide FirstIndex;
  }

  lemma NoAckSlot(s: Sched, id: string)
    requires forall k :: 0 <= k < |s.slots| ==> !(Active(s.slots[k]) && s.slots[k].value.msgId == id)
    ensures AckSlot(s, id) == |s.slots|
  {
    hide FirstIndex;
  }

  lemma ClientSlotAt(s: Sched, clientId: nat, i: nat)
    requires i <= |s.slots| && (i < |s.slots| ==> s.slots[i].Some? && s.slots[i].value.clientId == clientId)
    requires forall k :: 0 <= k < i ==> !(s.slots[k].Some? && s.slots[k].value.clientId == clientId)
    ensures ClientSlot(s, clientId) == i
  {
    hide FirstIndex;
  }

  /** The log with an attempt added, and perhaps a time-out. */
  predicate Attempted(log: seq<Event>, log': seq<Event>, m: Message, now: nat, ok: bool) {
    var tried := log + [Attempt(m.ordinal, m.Content(), now, ok)];
    log' == tried || log' == tried + [Done(m.ordinal, m.Content(), TIMED_OUT)]
  }

  lemma TransmitLogs(s: Sched, i: nat, now: nat, ok: bool)
    requires i < |s.slots| && s.slots[i].Some?
    ensures Attempted(s.log, Transmit(s, i, now, ok).log, s.slots[i].value, now, ok)
  {
    hide Wrap;
  }

  lemma AttemptCounts(log: seq<Event>, log': seq<Event>, m: Message, now: nat, ok: bool)
    requires Attempted(log, log', m, now, ok)
    ensures AllSuccesses(log') == AllSuccesses(log) + if ok then 1 else 0
  {
    var a, d := Attempt(m.ordinal, m.Content(), now, ok), Done(m.ordinal, m.Content(), TIMED_OUT);
    CountSnoc(log, a);
    CountSnoc(log + [a], d);
    hide AllSuccesses;
  }
}
