/** The scheduler over whole runs: traces in plain terms, conservation, deadline, identifiers. */
module TxRuns {
  import opened TxScheduler
  import opened TxTrace

  datatype Op =
    | DoEnqueue(clientId: nat, dest: string, ssid: nat, text: string)
    | DoTick(radio: seq<bool>)
    | DoAck(id: string)
    | DoCancel(clientId: nat)

  datatype Timed = Timed(at: nat, op: Op)

  function Step(s: Sched, now: nat, op: Op): Sched
    requires op.DoTick? ==> |s.slots| <= |op.radio|
  {
    match op
    case DoEnqueue(clientId, dest, ssid, text) => Enqueue(s, clientId, dest, ssid, text, now).0
    case DoTick(radio) => Tick(s, now, radio)
    case DoAck(id) => Ack(s, id).0
    case DoCancel(clientId) => Cancel(s, clientId).0
  }

  /** Operations in order of time, from `start` on; each tick comes with the radio's answers for all slots. */
  predicate Ordered(start: nat, ops: seq<Timed>) {
    (forall i :: 0 <= i < |ops| ==> start <= ops[i].at && (ops[i].op.DoTick? ==> |ops[i].op.radio| == MAX_QUEUE))
    && forall i, j :: 0 <= i < j < |ops| ==> ops[i].at <= ops[j].at
  }

  function Clock(start: nat, ops: seq<Timed>): nat {
    if ops == [] then start else ops[|ops| - 1].at
  }

  function Run(start: nat, ops: seq<Timed>): (s: Sched)
    requires Ordered(start, ops)
    ensures |s.slots| == MAX_QUEUE
  {
    if ops == [] then Start(start)
    else
      var n := |ops| - 1;
      Step(Run(start, ops[..n]), ops[n].at, ops[n].op)
  }

  lemma StepInv(s: Sched, clock: nat, now: nat, op: Op)
    requires Coherent(s, clock) && clock <= now && (op.DoTick? ==> |op.radio| == MAX_QUEUE)
    ensures Coherent(Step(s, now, op), now)
  {
    ClockAdvances(s, clock, now);
    assert |s.slots| == MAX_QUEUE;
    match op
    case DoEnqueue(clientId, dest, ssid, text) =>
      hide Coherent, Enqueue;
      EnqueueInv(s, clientId, dest, ssid, text, now);
    case DoTick(radio) =>
      TickSlotsInv(s, |s.slots|, now, radio);
      LastTickFree(TickSlots(s, |s.slots|, now, radio), now);
    case DoAck(id) =>
      hide Coherent, Complete;
      if AckSlot(s, id) < |s.slots| {
        CompleteInv(s, now, AckSlot(s, id), ACKED);
      }
    case DoCancel(clientId) =>
      hide Coherent, Complete;
      var i := ClientSlot(s, clientId);
      if i < |s.slots| && Active(s.slots[i]) {
        CompleteInv(s, now, i, CANCELLED);
      }
  }

  lemma LastTickFree(s: Sched, now: nat)
    requires Coherent(s, now)
    ensures Coherent(s.(lastTick := now), now)
  {}

  lemma {:induction false} RunInv(start: nat, ops: seq<Timed>)
    requires Ordered(start, ops)
    ensures Coherent(Run(start, ops), Clock(start, ops))
  {
    if ops == [] {
      TxTrace.InitInv(start);
    } else {
      hide Coherent, Step;
      var n := |ops| - 1;
      RunInv(start, ops[..n]);
      StepInv(Run(start, ops[..n]), Clock(start, ops[..n]), ops[n].at, ops[n].op);
    }
  }

  // ---------------------------------------------------------------- traces

  /** In every reachable state every message has a legal trace, and a message in a slot the one its record tells. */
  lemma EveryTraceLegal(start: nat, ops: seq<Timed>, o: nat)
    requires Ordered(start, ops)
    ensures var s := Run(start, ops);
      && LifeOf(s.log, o) != Broken
      && (LifeOf(s.log, o).Alive? ==> LifeOf(s.log, o).sent < MAX_RETRIES)
      && (o < s.accepted ==> (LifeOf(s.log, o).Alive? <==> exists i :: 0 <= i < MAX_QUEUE && Active(s.slots[i]) && s.slots[i].value.ordinal == o))
      && (o >= s.accepted ==> LifeOf(s.log, o) == Alive(0, 0))
  {
    hide Run, LifeOf, Decimal;
    RunInv(start, ops);
    var s := Run(start, ops);
    if o < s.accepted && InSlots(s.slots, o) {
      var k :| 0 <= k < |s.slots| && s.slots[k].Some? && s.slots[k].value.ordinal == o;
      assert SlotOk(s.slots[k], s.log, s.accepted, Clock(start, ops));
    }
    forall i | 0 <= i < MAX_QUEUE && Active(s.slots[i]) && s.slots[i].value.ordinal == o ensures LifeOf(s.log, o).Alive? {
      assert SlotOk(s.slots[i], s.log, s.accepted, Clock(start, ops));
    }
  }

  predicate Success(e: Event, o: nat) {
    e.Attempt? && e.ordinal == o && e.ok
  }

  function Successes(log: seq<Event>, o: nat): nat {
    if log == [] then 0 else Successes(log[..|log| - 1], o) + if Success(log[|log| - 1], o) then 1 else 0
  }

  /** While a message is in progress: its successes counted, the last one's time, and no final report. */
  lemma {:induction false} WhileAlive(log: seq<Event>, o: nat)
    requires LifeOf(log, o).Alive?
    ensures LifeOf(log, o).sent == Successes(log, o) <= 5
    ensures forall i :: 0 <= i < |log| && log[i].Done? ==> log[i].ordinal != o
    ensures forall i :: 0 <= i < |log| && Success(log[i], o) ==> Successes(log, o) > 0 && log[i].at <= LifeOf(log, o).last
  {
    if log != [] {
      var n := |log| - 1;
      LifeUnfold(log, o);
      hide LifeOf;
      WhileAlive(log[..n], o);
      forall i | 0 <= i < n ensures log[i] == log[..n][i] {}
    }
  }

  /** The first n events of a legal trace are one. */
  lemma {:induction false} LegalBefore(log: seq<Event>, o: nat, n: nat)
    requires LifeOf(log, o) != Broken && n <= |log|
    ensures LifeOf(log[..n], o) != Broken
    ensures LifeOf(log[..n], o) == Over ==> LifeOf(log, o) == Over
    decreases |log|
  {
    if n < |log| {
      LifeUnfold(log, o);
      hide LifeOf;
      LegalBefore(log[..|log| - 1], o, n);
      assert log[..|log| - 1][..n] == log[..n];
    } else {
      assert log[..n] == log;
    }
  }

  /** The message's event at j of a legal trace found it in progress, and is allowed there. */
  lemma LegalEvent(log: seq<Event>, o: nat, j: nat)
    requires LifeOf(log, o) != Broken && j < |log| && log[j].ordinal == o
    ensures var before := log[..j];
      LifeOf(before, o).Alive? && LifeStep(LifeOf(before, o), o, log[j]) != Broken
      && LifeOf(log[..j + 1], o) == LifeStep(LifeOf(before, o), o, log[j])
  {
    assert log[..j + 1][..j] == log[..j];
    LegalBefore(log, o, j + 1);
    LifeUnfold(log[..j + 1], o);
    hide LifeOf;
  }

  lemma {:induction false} AtMostFive(log: seq<Event>, o: nat)
    requires LifeOf(log, o) != Broken
    ensures Successes(log, o) <= 5
  {
    if LifeOf(log, o).Alive? {
      WhileAlive(log, o);
    } else if log != [] {
      var n := |log| - 1;
      LifeUnfold(log, o);
      hide LifeOf;
      AtMostFive(log[..n], o);
      if log[n].ordinal == o {
        LegalEvent(log, o, n);
      }
    }
  }

  /** What a legal trace means, event by event. */
  lemma LegalTrace(log: seq<Event>, o: nat)
    requires LifeOf(log, o) != Broken
    ensures Successes(log, o) <= 5
    ensures LifeOf(log, o).Alive? ==> LifeOf(log, o).sent == Successes(log, o)
    ensures LifeOf(log, o).Alive? ==> forall i :: 0 <= i < |log| && log[i].Done? ==> log[i].ordinal != o
    ensures LifeOf(log, o).Alive? ==> forall i :: 0 <= i < |log| && Success(log[i], o) ==> Successes(log, o) > 0 && log[i].at <= LifeOf(log, o).last
    ensures forall i, j :: 0 <= i < j < |log| && log[i].ordinal == o && log[j].ordinal == o ==> !log[i].Done?
    ensures forall i, j :: (0 <= i < j < |log| && Success(log[i], o) && log[j].Attempt? && log[j].ordinal == o
      ==> log[j].at >= log[i].at + 20000)
    ensures forall i :: (0 <= i < |log| && log[i].Done? && log[i].ordinal == o ==>
      (log[i].result == TIMED_OUT <==> Successes(log[..i], o) == 5))
  {
    hide LifeOf, Successes;
    AtMostFive(log, o);
    if LifeOf(log, o).Alive? {
      WhileAlive(log, o);
    }
    forall j | 0 <= j < |log| && log[j].ordinal == o
      ensures forall i :: 0 <= i < j && log[i].ordinal == o ==> !log[i].Done?
      ensures log[j].Attempt? ==> forall i :: 0 <= i < j && Success(log[i], o) ==> log[j].at >= log[i].at + 20000
      ensures log[j].Done? ==> (log[j].result == TIMED_OUT <==> Successes(log[..j], o) == 5)
    {
      LegalEvent(log, o, j);
      WhileAlive(log[..j], o);
      forall i | 0 <= i < j ensures log[i] == log[..j][i] {}
    }
  }

  lemma LifeUnfold(log: seq<Event>, o: nat)
    requires log != []
    ensures LifeOf(log, o) == LifeStep(LifeOf(log[..|log| - 1], o), o, log[|log| - 1])
  {}
}
