/** Conservation, deadline and identifiers of the scheduler over whole runs. */
module TxCounts {
  import opened Bytes
  import opened Uint32
  import opened TxScheduler
  import opened TxTrace
  import opened TxRuns

  // ---------------------------------------------------------------- conservation

  function ActiveWeight(slot: Option<Message>): nat {
    if Active(slot) then 1 else 0
  }

  /** The transmissions a message may still make. */
  function Budget(slot: Option<Message>): int {
    if Active(slot) then MAX_RETRIES - slot.value.retryCount else 0
  }

  /** `active_count()`. */
  function ActiveCount(slots: seq<Option<Message>>): nat {
    if slots == [] then 0 else ActiveCount(slots[..|slots| - 1]) + ActiveWeight(slots[|slots| - 1])
  }

  function TotalBudget(slots: seq<Option<Message>>): int {
    if slots == [] then 0 else TotalBudget(slots[..|slots| - 1]) + Budget(slots[|slots| - 1])
  }

  lemma {:induction false} ReplaceSlot(slots: seq<Option<Message>>, i: nat, slot: Option<Message>)
    requires i < |slots|
    ensures ActiveCount(slots[i := slot]) == ActiveCount(slots) - ActiveWeight(slots[i]) + ActiveWeight(slot)
    ensures TotalBudget(slots[i := slot]) == TotalBudget(slots) - Budget(slots[i]) + Budget(slot)
  {
    var n := |slots| - 1;
    if i < n {
      ReplaceSlot(slots[..n], i, slot);
      assert slots[i := slot][..n] == slots[..n][i := slot];
    } else {
      assert slots[i := slot][..n] == slots[..n];
    }
  }

  /** Terminal reports, and successful transmissions, of all messages. */
  function Terminals(log: seq<Event>): nat {
    if log == [] then 0 else Terminals(log[..|log| - 1]) + if log[|log| - 1].Done? then 1 else 0
  }

  function AllSuccesses(log: seq<Event>): nat {
    if log == [] then 0
    else AllSuccesses(log[..|log| - 1]) + if log[|log| - 1].Attempt? && log[|log| - 1].ok then 1 else 0
  }

  lemma CountSnoc(log: seq<Event>, e: Event)
    ensures Terminals(log + [e]) == Terminals(log) + if e.Done? then 1 else 0
    ensures AllSuccesses(log + [e]) == AllSuccesses(log) + if e.Attempt? && e.ok then 1 else 0
  {
    assert (log + [e])[..|log|] == log;
  }

  predicate Conserved(s: Sched) {
    s.accepted == ActiveCount(s.slots) + Terminals(s.log)
    && AllSuccesses(s.log) + TotalBudget(s.slots) <= MAX_RETRIES * s.accepted
  }

  lemma CompleteConserves(s: Sched, i: nat, result: MsgState)
    requires Conserved(s) && i < |s.slots| && Active(s.slots[i]) && s.slots[i].value.retryCount <= MAX_RETRIES
    requires result == ACKED || result == CANCELLED || result == TIMED_OUT
    ensures Conserved(Complete(s, i, result))
  {
    var m := s.slots[i].value;
    ReplaceSlot(s.slots, i, Some(m.(state := result)));
    CountSnoc(s.log, Done(m.ordinal, m.Content(), result));
  }

  lemma TransmitConserves(s: Sched, i: nat, now: nat, ok: bool)
    requires Conserved(s) && i < |s.slots| && Active(s.slots[i]) && s.slots[i].value.retryCount < MAX_RETRIES
    ensures Conserved(Transmit(s, i, now, ok))
  {
    hide Conserved, ActiveCount, TotalBudget, Terminals, AllSuccesses, Wrap;
    var m := s.slots[i].value;
    var attempt := Attempt(m.ordinal, m.Content(), now, ok);
    CountSnoc(s.log, attempt);
    var tried := s.(log := s.log + [attempt]);
    if !ok {
      assert Conserved(tried) by { ConservedMeans(s); ConservedMeans(tried); }
    } else {
      var sent := m.(retryCount := m.retryCount + 1, lastTx := Wrap(now), state := PENDING, sentAt := now);
      ReplaceSlot(s.slots, i, Some(sent));
      var s' := tried.(slots := s.slots[i := Some(sent)]);
      assert Conserved(s') by { ConservedMeans(s); ConservedMeans(s'); }
      if sent.retryCount >= MAX_RETRIES {
        CompleteConserves(s', i, TIMED_OUT);
      }
    }
  }

  lemma ConservedMeans(s: Sched)
    ensures Conserved(s) <==> (s.accepted == ActiveCount(s.slots) + Terminals(s.log)
      && AllSuccesses(s.log) + TotalBudget(s.slots) <= MAX_RETRIES * s.accepted)
  {}

  lemma {:induction false} TickConserves(s: Sched, n: nat, now: nat, radio: seq<bool>)
    requires Conserved(s) && Coherent(s, now) && n <= |s.slots| <= |radio|
    ensures Conserved(TickSlots(s, n, now, radio))
  {
    hide Conserved, Coherent, Transmit, Ready;
    if n > 0 {
      TickConserves(s, n - 1, now, radio);
      var before := TickSlots(s, n - 1, now, radio);
      TickSlotsInv(s, n - 1, now, radio);
      if Active(before.slots[n - 1]) && Ready(before.slots[n - 1].value, now) {
        SlotOkAt(before, now, n - 1);
        TransmitConserves(before, n - 1, now, radio[n - 1]);
      }
    }
  }

  lemma EnqueueConserves(s: Sched, clientId: nat, dest: string, ssid: nat, text: string, now: nat)
    requires Conserved(s)
    ensures Conserved(Enqueue(s, clientId, dest, ssid, text, now).0)
  {
    hide Decimal, Wrap;
    var (s', r) := Enqueue(s, clientId, dest, ssid, text, now);
    if r == OK {
      var i := FreeSlot(s.slots);
      ReplaceSlot(s.slots, i, s'.slots[i]);
    }
  }

  lemma StepConserves(s: Sched, clock: nat, now: nat, op: Op)
    requires Conserved(s) && Coherent(s, clock) && clock <= now && (op.DoTick? ==> |op.radio| == MAX_QUEUE)
    ensures Conserved(Step(s, now, op))
  {
    ClockAdvances(s, clock, now);
    assert |s.slots| == MAX_QUEUE;
    hide Coherent, Complete, Enqueue;
    match op
    case DoEnqueue(clientId, dest, ssid, text) =>
      EnqueueConserves(s, clientId, dest, ssid, text, now);
    case DoTick(radio) =>
      TickConserves(s, |s.slots|, now, radio);
    case DoAck(id) =>
      var i := AckSlot(s, id);
      if i < |s.slots| {
        SlotOkAt(s, now, i);
        CompleteConserves(s, i, ACKED);
      }
    case DoCancel(clientId) =>
      var i := ClientSlot(s, clientId);
      if i < |s.slots| && Active(s.slots[i]) {
        SlotOkAt(s, now, i);
        CompleteConserves(s, i, CANCELLED);
      }
  }

  lemma {:induction false} NoneActive(slots: seq<Option<Message>>)
    requires forall i :: 0 <= i < |slots| ==> slots[i].None?
    ensures ActiveCount(slots) == 0 && TotalBudget(slots) == 0
  {
    if slots != [] {
      NoneActive(slots[..|slots| - 1]);
    }
  }

  lemma {:induction false} RunConserves(start: nat, ops: seq<Timed>)
    requires Ordered(start, ops)
    ensures Conserved(Run(start, ops))
  {
    if ops == [] {
      NoneActive(Start(start).slots);
    } else {
      hide Conserved, Step, Coherent;
      var n := |ops| - 1;
      RunConserves(start, ops[..n]);
      RunInv(start, ops[..n]);
      StepConserves(Run(start, ops[..n]), Clock(start, ops[..n]), ops[n].at, ops[n].op);
    }
  }

  lemma {:induction false} BudgetNonNegative(slots: seq<Option<Message>>)
    requires forall i :: 0 <= i < |slots| && Active(slots[i]) ==> slots[i].value.retryCount <= MAX_RETRIES
    ensures TotalBudget(slots) >= 0
  {
    if slots != [] {
      BudgetNonNegative(slots[..|slots| - 1]);
    }
  }

  /** Nothing is lost or reported twice: accepted = active + reported; and at most five transmissions each. */
  lemma MessagesConserved(start: nat, ops: seq<Timed>)
    requires Ordered(start, ops)
    ensures var s := Run(start, ops);
      s.accepted == ActiveCount(s.slots) + Terminals(s.log) && AllSuccesses(s.log) <= MAX_RETRIES * s.accepted
  {
    hide Run, Decimal, LifeOf;
    RunConserves(start, ops);
    RunInv(start, ops);
    var s := Run(start, ops);
    forall i | 0 <= i < |s.slots| && Active(s.slots[i]) ensures s.slots[i].value.retryCount <= MAX_RETRIES {
      SlotOkAt(s, Clock(start, ops), i);
    }
    BudgetNonNegative(s.slots);
  }

  // ---------------------------------------------------------------- no message overwritten

  /** Accepting a message disturbs no message still in progress; a full queue is refused, and only a full one. */
  lemma EnqueueKeepsActive(s: Sched, clientId: nat, dest: string, ssid: nat, text: string, now: nat)
    ensures var (s', r) := Enqueue(s, clientId, dest, ssid, text, now);
      && (forall k :: 0 <= k < |s.slots| && Active(s.slots[k]) ==> s'.slots[k] == s.slots[k])
      && (r == QUEUE_FULL <==> GoodParams(dest, text) && forall k :: 0 <= k < |s.slots| ==> Active(s.slots[k]))
      && (r == OK ==> exists i :: (0 <= i < |s.slots| && !Active(s.slots[i]) && Active(s'.slots[i])
            && s'.slots == s.slots[i := s'.slots[i]] && s'.slots[i].value.ordinal == s.accepted))
  {
    hide Decimal, Wrap, FirstIndex;
    var (s', r) := Enqueue(s, clientId, dest, ssid, text, now);
    if r == OK {
      var i := FreeSlot(s.slots);
      assert Active(s'.slots[i]) && s'.slots == s.slots[i := s'.slots[i]];
    }
  }

  // ---------------------------------------------------------------- acks and cancellation

  /** An ack completes a message still queued just as well as one already sent. */
  lemma AckMatchesAnyActive(s: Sched, id: string)
    ensures Ack(s, id).1 <==> exists i :: 0 <= i < |s.slots| && Active(s.slots[i]) && s.slots[i].value.msgId == id
  {}

  predicate HasActive(s: Sched, clientId: nat) {
    exists i :: 0 <= i < |s.slots| && Active(s.slots[i]) && s.slots[i].value.clientId == clientId
  }

  /**
   * With a message of that client in progress, `cancel` finds it exactly when no terminal record
   * with the same client id sits in an earlier slot.
   */
  lemma CancelExactly(s: Sched, clientId: nat)
    requires HasActive(s, clientId)
    ensures Cancel(s, clientId).1 <==>
      !exists k :: 0 <= k < |s.slots| && s.slots[k].Some? && s.slots[k].value.Terminal() && s.slots[k].value.clientId == clientId
        && forall j :: 0 <= j < k && s.slots[j].Some? ==> s.slots[j].value.clientId != clientId
  {
    var i := ClientSlot(s, clientId);
    assert i < |s.slots| && s.slots[i].Some? && s.slots[i].value.clientId == clientId;
  }

  function Ask(text: string): Timed {
    Timed(0, DoEnqueue(7, "X", 0, text))
  }

  const WITHDRAW := Timed(0, DoCancel(7))

  lemma OneAccepted()
    ensures Ordered(0, [Ask("a")])
    ensures var s := Run(0, [Ask("a")]); Active(s.slots[0]) && s.slots[0].value.clientId == 7 && s.slots[1].None?
  {
    OrderedAtZero([]);
    OrderedAtZero([Ask("a")]);
    assert [Ask("a")] == [] + [Ask("a")];
    hide Ordered, Run, Enqueue, FreeSlot;
    RunSnoc(0, [], Ask("a"));
    FreeSlotIs(Start(0).slots, 0);
    AcceptedInto(Start(0), Ask("a").op, 0);
  }

  lemma OneCancelled()
    ensures Ordered(0, [Ask("a"), WITHDRAW])
    ensures var s := Run(0, [Ask("a"), WITHDRAW]); Finished(s.slots[0]) && s.slots[0].value.clientId == 7 && s.slots[1].None?
  {
    OneAccepted();
    OrderedAtZero([Ask("a"), WITHDRAW]);
    assert [Ask("a"), WITHDRAW] == [Ask("a")] + [WITHDRAW];
    hide Ordered, Run, Cancel, ClientSlot;
    RunSnoc(0, [Ask("a")], WITHDRAW);
    ClientSlotIs(Run(0, [Ask("a")]), 0);
    CancelledIn(Run(0, [Ask("a")]), 0);
  }

  /** A reachable state in which `cancel` fails although the client's message is in progress. */
  lemma CancelShadowed()
    ensures var ops := [Ask("a"), WITHDRAW, Ask("b")];
      Ordered(0, ops) && HasActive(Run(0, ops), 7) && !Cancel(Run(0, ops), 7).1
  {
    OneCancelled();
    var before, ops := [Ask("a"), WITHDRAW], [Ask("a"), WITHDRAW, Ask("b")];
    OrderedAtZero(ops);
    assert ops == before + [Ask("b")];
    hide Ordered, Run, Enqueue, FreeSlot, ClientSlot;
    RunSnoc(0, before, Ask("b"));
    FreeSlotIs(Run(0, before).slots, 1);
    AcceptedInto(Run(0, before), Ask("b").op, 1);
    ClientSlotIs(Run(0, ops), 0);
    assert Run(0, ops).slots[1].value.clientId == 7;
  }

  lemma OrderedAtZero(ops: seq<Timed>)
    requires forall t :: t in ops ==> t.at == 0 && !t.op.DoTick?
    ensures Ordered(0, ops)
  {}

  lemma FreeSlotIs(slots: seq<Option<Message>>, i: nat)
    requires i < |slots| && slots[i].None? && forall k :: 0 <= k < i ==> slots[k].Some?
    ensures FreeSlot(slots) == i
  {
    hide FirstIndex;
    var j := FirstIndex(slots, Unused, 0);
    assert j <= i by {
      assert Unused(slots[i]);
    }
  }

  lemma ClientSlotIs(s: Sched, i: nat)
    requires i < |s.slots| && s.slots[i].Some?
    requires forall k :: 0 <= k < i && s.slots[k].Some? ==> s.slots[k].value.clientId != s.slots[i].value.clientId
    ensures ClientSlot(s, s.slots[i].value.clientId) == i
  {
    hide FirstIndex;
  }

  lemma AcceptedInto(s: Sched, op: Op, i: nat)
    requires op.DoEnqueue? && GoodParams(op.dest, op.text) && FreeSlot(s.slots) == i < |s.slots|
    ensures var s' := Step(s, 0, op);
      s'.slots == s.slots[i := s'.slots[i]] && Active(s'.slots[i]) && s'.slots[i].value.clientId == op.clientId
  {
    hide Decimal, Wrap, FreeSlot;
  }

  lemma CancelledIn(s: Sched, i: nat)
    requires i < |s.slots| && Active(s.slots[i]) && ClientSlot(s, s.slots[i].value.clientId) == i
    ensures var s' := Cancel(s, s.slots[i].value.clientId).0;
      s'.slots == s.slots[i := s'.slots[i]] && Finished(s'.slots[i]) && s'.slots[i].value.clientId == s.slots[i].value.clientId
  {
    hide ClientSlot;
  }

  lemma RunSnoc(start: nat, ops: seq<Timed>, t: Timed)
    requires Ordered(start, ops + [t]) && Ordered(start, ops)
    ensures Run(start, ops + [t]) == Step(Run(start, ops), t.at, t.op)
    ensures Run(start, []) == Start(start)
  {
    assert (ops + [t])[..|ops|] == ops;
  }
}
