/**
 * What the scheduler sends and reports over whole runs: the fields of every record, of everything
 * handed to the radio and of every notification are those of the request that was accepted, and
 * every final report has its cause (TxScheduler.cpp:22-179, AprsTaskContext.cpp:65-106).
 */
module TxContent {
  import opened Bytes
  import opened Uint32
  import opened TxScheduler
  import opened TxTrace
  import opened TxRuns
  import opened TxCounts

  // ---------------------------------------------------------------- what is accepted

  /** A request the scheduler takes: legal lengths, and a slot that is free or finished. */
  predicate Takes(s: Sched, t: Timed) {
    t.op.DoEnqueue? && 1 <= |t.op.dest| <= 6 && 1 <= |t.op.text| <= 67
    && exists i :: 0 <= i < |s.slots| && !Active(s.slots[i])
  }

  /** The requests taken in a run; the k-th is message k. */
  function Taken(start: nat, ops: seq<Timed>): (taken: seq<Timed>)
    requires Ordered(start, ops)
    ensures forall k :: 0 <= k < |taken| ==> taken[k] in ops && taken[k].op.DoEnqueue?
  {
    if ops == [] then []
    else
      var n := |ops| - 1;
      Taken(start, ops[..n]) + if Takes(Run(start, ops[..n]), ops[n]) then [ops[n]] else []
  }

  predicate RecordTrue(slot: Option<Message>, taken: seq<Timed>) {
    slot.Some? ==>
      var m := slot.value;
      m.ordinal < |taken| && taken[m.ordinal] == Timed(m.born, DoEnqueue(m.clientId, m.dest, m.ssid, m.text))
      && m.queuedAt == Wrap(m.born) && m.msgId == Decimal(m.ordinal % 99999 + 1)
  }

  predicate EventTrue(e: Event, taken: seq<Timed>) {
    e.ordinal < |taken| && taken[e.ordinal].op.DoEnqueue?
    && var request := taken[e.ordinal].op;
      e.what == Packet(request.clientId, request.dest, request.ssid, request.text, Decimal(e.ordinal % 99999 + 1))
  }

  predicate RecordsTrue(slots: seq<Option<Message>>, taken: seq<Timed>) {
    forall i :: 0 <= i < |slots| ==> RecordTrue(slots[i], taken)
  }

  predicate EventsTrue(log: seq<Event>, taken: seq<Timed>) {
    forall k :: 0 <= k < |log| ==> EventTrue(log[k], taken)
  }

  predicate AllTrue(s: Sched, taken: seq<Timed>) {
    s.accepted == |taken| && RecordsTrue(s.slots, taken) && EventsTrue(s.log, taken)
  }

  // ---------------------------------------------------------------- every step keeps it

  lemma MoreTaken(s: Sched, taken: seq<Timed>, t: Timed)
    requires AllTrue(s, taken)
    ensures RecordsTrue(s.slots, taken + [t]) && EventsTrue(s.log, taken + [t])
  {
    forall i | 0 <= i < |s.slots| ensures RecordTrue(s.slots[i], taken + [t]) {
      assert RecordTrue(s.slots[i], taken);
    }
    forall k | 0 <= k < |s.log| ensures EventTrue(s.log[k], taken + [t]) {
      assert EventTrue(s.log[k], taken);
    }
  }

  lemma SameContent(s: Sched, taken: seq<Timed>, i: nat, m: Message, events: seq<Event>)
    requires AllTrue(s, taken) && i < |s.slots| && s.slots[i].Some?
    requires var was := s.slots[i].value;
      m.ordinal == was.ordinal && m.Content() == was.Content() && m.born == was.born && m.queuedAt == was.queuedAt
    requires forall k :: 0 <= k < |events| ==> events[k].ordinal == m.ordinal && events[k].what == m.Content()
    ensures AllTrue(s.(slots := s.slots[i := Some(m)], log := s.log + events), taken)
  {
    hide Decimal, Wrap;
    assert RecordTrue(s.slots[i], taken);
    forall k | 0 <= k < |events| ensures EventTrue(events[k], taken) {}
  }

  lemma CompleteTrue(s: Sched, taken: seq<Timed>, i: nat, result: MsgState)
    requires AllTrue(s, taken) && i < |s.slots| && s.slots[i].Some?
    ensures AllTrue(Complete(s, i, result), taken)
  {
    var m := s.slots[i].value;
    SameContent(s, taken, i, m.(state := result), [Done(m.ordinal, m.Content(), result)]);
  }

  lemma TransmitTrue(s: Sched, taken: seq<Timed>, i: nat, now: nat, ok: bool)
    requires AllTrue(s, taken) && i < |s.slots| && s.slots[i].Some?
    ensures AllTrue(Transmit(s, i, now, ok), taken)
  {
    hide AllTrue;
    var m := s.slots[i].value;
    var attempt := [Attempt(m.ordinal, m.Content(), now, ok)];
    if !ok {
      SameContent(s, taken, i, m, attempt);
      assert s.slots[i := Some(m)] == s.slots;
    } else {
      var sent := m.(retryCount := m.retryCount + 1, lastTx := Wrap(now), state := PENDING, sentAt := now);
      SameContent(s, taken, i, sent, attempt);
      if sent.retryCount >= MAX_RETRIES {
        CompleteTrue(s.(slots := s.slots[i := Some(sent)], log := s.log + attempt), taken, i, TIMED_OUT);
      }
    }
  }

  lemma {:induction false} TickSlotsTrue(s: Sched, taken: seq<Timed>, n: nat, now: nat, radio: seq<bool>)
    requires AllTrue(s, taken) && n <= |s.slots| <= |radio|
    ensures AllTrue(TickSlots(s, n, now, radio), taken)
  {
    hide AllTrue, Transmit, Ready;
    if n > 0 {
      TickSlotsTrue(s, taken, n - 1, now, radio);
      var before := TickSlots(s, n - 1, now, radio);
      if Active(before.slots[n - 1]) {
        TransmitTrue(before, taken, n - 1, now, radio[n - 1]);
      }
    }
  }

  /** One enqueue, told field by field. */
  lemma Enqueued(s: Sched, clientId: nat, dest: string, ssid: nat, text: string, now: nat)
    ensures var (s', r) := Enqueue(s, clientId, dest, ssid, text, now);
      var legal := 1 <= |dest| <= 6 && 1 <= |text| <= 67;
      var full := forall k :: 0 <= k < |s.slots| ==> Active(s.slots[k]);
      && (r == BAD_PARAM <==> !legal) && (r == QUEUE_FULL <==> legal && full) && (r != OK ==> s' == s)
      && (r == OK ==> s'.log == s.log && s'.accepted == s.accepted + 1 && exists i :: (0 <= i < |s.slots| && !Active(s.slots[i])
            && s'.slots[i].Some? && s'.slots == s.slots[i := s'.slots[i]]
            && IsNew(s'.slots[i].value, s.accepted, clientId, dest, ssid, text, now)))
  {
    hide Decimal, Wrap, FirstIndex;
    var (s', r) := Enqueue(s, clientId, dest, ssid, text, now);
    if r == OK {
      var i := FreeSlot(s.slots);
      assert s'.slots[i].Some? && s'.slots == s.slots[i := s'.slots[i]];
      assert IsNew(s'.slots[i].value, s.accepted, clientId, dest, ssid, text, now);
    }
  }

  predicate IsNew(m: Message, ordinal: nat, clientId: nat, dest: string, ssid: nat, text: string, now: nat) {
    m.clientId == clientId && m.dest == dest && m.ssid == ssid && m.text == text
    && m.ordinal == ordinal && m.born == now && m.queuedAt == Wrap(now) && m.state == QUEUED && m.retryCount == 0
  }

  lemma EnqueueTrue(s: Sched, taken: seq<Timed>, t: Timed)
    requires AllTrue(s, taken) && Coherent(s, t.at) && t.op.DoEnqueue?
    ensures AllTrue(Step(s, t.at, t.op), taken + if Takes(s, t) then [t] else [])
  {
    var op := t.op;
    Enqueued(s, op.clientId, op.dest, op.ssid, op.text, t.at);
    EnqueueInv(s, op.clientId, op.dest, op.ssid, op.text, t.at);
    var (s', r) := Enqueue(s, op.clientId, op.dest, op.ssid, op.text, t.at);
    hide Enqueue, Decimal, Wrap, LifeOf;
    assert taken + [] == taken;
    assert r == OK <==> Takes(s, t);
    if r == OK {
      MoreTaken(s, taken, t);
      var i :| 0 <= i < |s.slots| && !Active(s.slots[i])
            && s'.slots[i].Some? && s'.slots == s.slots[i := s'.slots[i]]
            && IsNew(s'.slots[i].value, s.accepted, op.clientId, op.dest, op.ssid, op.text, t.at);
      assert SlotOk(s'.slots[i], s'.log, s'.accepted, t.at);
      assert RecordTrue(s'.slots[i], taken + [t]);
    }
  }

  lemma StepTrue(s: Sched, taken: seq<Timed>, clock: nat, t: Timed)
    requires AllTrue(s, taken) && Coherent(s, clock) && clock <= t.at && (t.op.DoTick? ==> |t.op.radio| == MAX_QUEUE)
    ensures |s.slots| == MAX_QUEUE
    ensures AllTrue(Step(s, t.at, t.op), taken + if Takes(s, t) then [t] else [])
  {
    ClockAdvances(s, clock, t.at);
    assert |s.slots| == MAX_QUEUE && taken + [] == taken;
    match t.op
    case DoEnqueue(_, _, _, _) =>
      hide AllTrue, Step, Takes, Coherent;
      EnqueueTrue(s, taken, t);
    case DoTick(radio) =>
      hide Coherent;
      TickSlotsTrue(s, taken, |s.slots|, t.at, radio);
    case DoAck(id) =>
      hide AllTrue, Coherent, Complete;
      if AckSlot(s, id) < |s.slots| {
        CompleteTrue(s, taken, AckSlot(s, id), ACKED);
      }
    case DoCancel(clientId) =>
      hide AllTrue, Coherent, Complete;
      var i := ClientSlot(s, clientId);
      if i < |s.slots| && Active(s.slots[i]) {
        CompleteTrue(s, taken, i, CANCELLED);
      }
  }

  /**
   * In every reachable state: message k is the k-th request taken, its record carries that
   * request's fields, and so does everything handed to the radio and every notification.
   */
  lemma {:induction false} CarriesTheRequest(start: nat, ops: seq<Timed>)
    requires Ordered(start, ops)
    ensures AllTrue(Run(start, ops), Taken(start, ops))
  {
    hide AllTrue, Step, Takes, Coherent;
    if ops == [] {
      NothingTaken(start);
    } else {
      var n := |ops| - 1;
      CarriesTheRequest(start, ops[..n]);
      RunInv(start, ops[..n]);
      StepTrue(Run(start, ops[..n]), Taken(start, ops[..n]), Clock(start, ops[..n]), ops[n]);
    }
  }

  lemma NothingTaken(start: nat)
    ensures AllTrue(Start(start), [])
  {}

  /** Whatever goes on the air was asked for: same destination, ssid and text, under the id of its order number. */
  lemma SentAsAsked(start: nat, ops: seq<Timed>, k: nat) returns (t: Timed)
    requires Ordered(start, ops) && k < |Run(start, ops).log|
    ensures var e := Run(start, ops).log[k];
      t in ops && t.op.DoEnqueue?
        && e.what == Packet(t.op.clientId, t.op.dest, t.op.ssid, t.op.text, Decimal(e.ordinal % 99999 + 1))
  {
    CarriesTheRequest(start, ops);
    hide Run, Decimal, Ordered;
    var e, taken := Run(start, ops).log[k], Taken(start, ops);
    assert EventTrue(e, taken);
    t := taken[e.ordinal];
  }

  // ---------------------------------------------------------------- final reports and their causes

  /** The slots but i are as they were, and i has only changed its state. */
  predicate OnlyState(s: Sched, s': Sched, i: int, result: MsgState) {
    0 <= i < |s.slots| && s.slots[i].Some? && s'.slots == s.slots[i := Some(s.slots[i].value.(state := result))]
    && s'.log == s.log + [Done(s.slots[i].value.ordinal, s.slots[i].value.Content(), result)]
    && s'.counter == s.counter && s'.accepted == s.accepted && s'.lastTick == s.lastTick
  }

  /** An ack makes the first active message with this id ACKED, reports just that, and touches nothing else. */
  lemma AckCompletes(s: Sched, id: string)
    ensures var (s', found) := Ack(s, id);
      && (!found ==> s' == s && forall k :: 0 <= k < |s.slots| && Active(s.slots[k]) ==> s.slots[k].value.msgId != id)
      && (found ==> exists i :: (OnlyState(s, s', i, ACKED) && Active(s.slots[i]) && s.slots[i].value.msgId == id
            && forall k :: 0 <= k < i && Active(s.slots[k]) ==> s.slots[k].value.msgId != id))
  {
    hide FirstIndex;
    var i := AckSlot(s, id);
    if i < |s.slots| {
      assert OnlyState(s, Ack(s, id).0, i, ACKED);
    }
  }

  /** A cancel that succeeds makes the client's first record CANCELLED, reports just that, and touches nothing else. */
  lemma CancelCompletes(s: Sched, clientId: nat)
    ensures var (s', found) := Cancel(s, clientId);
      && (!found ==> s' == s)
      && (found ==> exists i :: (OnlyState(s, s', i, CANCELLED) && Active(s.slots[i]) && s.slots[i].value.clientId == clientId
            && forall k :: 0 <= k < i && s.slots[k].Some? ==> s.slots[k].value.clientId != clientId))
  {
    hide FirstIndex;
    var i := ClientSlot(s, clientId);
    if i < |s.slots| && Active(s.slots[i]) {
      assert OnlyState(s, Cancel(s, clientId).0, i, CANCELLED);
    }
  }

  /** Why a final report is made. */
  predicate Cause(op: Op, e: Event) {
    e.Done? ==> match op
      case DoEnqueue(_, _, _, _) => false
      case DoTick(_) => e.result == TIMED_OUT
      case DoAck(id) => e.result == ACKED && e.what.msgId == id
      case DoCancel(clientId) => e.result == CANCELLED && e.what.clientId == clientId
  }

  predicate Caused(log: seq<Event>, log': seq<Event>, op: Op) {
    log <= log' && forall k :: |log| <= k < |log'| ==> Cause(op, log'[k]) && (log'[k].Attempt? ==> op.DoTick?)
  }

  lemma {:induction false} TickCaused(s: Sched, n: nat, now: nat, radio: seq<bool>)
    requires n <= |s.slots| <= |radio|
    ensures Caused(s.log, TickSlots(s, n, now, radio).log, DoTick(radio))
  {
    hide Ready;
    if n > 0 {
      TickCaused(s, n - 1, now, radio);
    }
  }

  /**
   * A message is reported ACKED only by an ack carrying its id, CANCELLED only by a cancel of its
   * client, TIMED_OUT only by a tick; and only ticks transmit.
   */
  lemma EveryReportHasItsCause(start: nat, ops: seq<Timed>, t: Timed)
    requires Ordered(start, ops) && Ordered(start, ops + [t])
    ensures Caused(Run(start, ops).log, Run(start, ops + [t]).log, t.op)
  {
    RunSnoc(start, ops, t);
    var s := Run(start, ops);
    assert t == (ops + [t])[|ops|];
    hide Run, Ordered, FirstIndex;
    match t.op
    case DoEnqueue(clientId, dest, ssid, text) =>
      hide FreeSlot, Decimal, Wrap;
    case DoTick(radio) =>
      TickCaused(s, |s.slots|, t.at, radio);
    case DoAck(id) =>
      AckCompletes(s, id);
    case DoCancel(clientId) =>
      CancelCompletes(s, clientId);
  }
}
