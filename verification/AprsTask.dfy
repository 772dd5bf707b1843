/**
 * firmware/components/aprs_fsm/AprsTaskContext.cpp: two rings in front of the scheduler. Each
 * method is run to completion here; the interleavings of producer and consumer are the
 * subject of SpscRing. `rawSent` records the calls of the raw transmit function.
 */
module AprsTask {
  import opened Bytes
  import opened Uint32
  import opened TxScheduler
  import opened TxRuns
  import RingIndex
  import TxCounts
  import TxContent
  import TxQueue

  const KISS_MAX_AX25 := 330

  datatype TxRequest = TxRequest(dest: string, ssid: nat, text: string)

  /** The slot of the k-th pending entry when `taken` have been taken. */
  function SlotOf(taken: nat, k: nat, depth: nat): (i: nat)
    requires depth > 0
    ensures i < depth
  {
    (taken + k) % depth
  }

  /** A ring with free-running uint32 indices: `ring_`/`head_`/`tail_`, and main.cpp:199-238. */
  class Ring<T(0)> {
    const depth: nat
    const slots: array<T>
    var head: nat
    var tail: nat
    ghost var taken: nat
    ghost var contents: seq<T>

    ghost predicate Valid()
      reads this, slots
    {
      RingIndex.GoodDepth(depth) && slots.Length == depth && |contents| <= depth
      && head == Wrap(taken + |contents|) && tail == Wrap(taken)
      && forall i :: 0 <= i < |contents| ==> slots[SlotOf(taken, i, depth)] == contents[i]
    }

    constructor (depth: nat)
      requires RingIndex.GoodDepth(depth)
      ensures Valid() && contents == [] && this.depth == depth && fresh(slots)
    {
      this.depth := depth;
      slots := new T[depth];
      head, tail, taken, contents := 0, 0, 0, [];
    }

    /** Refuses exactly when the ring is full. */
    method Push(item: T) returns (ok: bool)
      requires Valid()
      modifies this, slots
      ensures Valid() && ok == (|old(contents)| < depth)
      ensures contents == if ok then old(contents) + [item] else old(contents)
    {
      hide Wrap, Sub32, Inc32;
      var h, t := head, tail;
      var n := taken + |contents|;
      WrappedDifference(n, taken);
      if Sub32(h, t) >= depth {
        return false;
      }
      RingIndex.WrappedSlot(depth, n);
      WrappedIncrement(n);
      forall i | 0 <= i < |contents| ensures SlotOf(taken, i, depth) != n % depth {
        RingIndex.DistinctSlots(depth, taken + i, n);
      }
      slots[h % depth] := item;
      head := Inc32(h);
      contents := contents + [item];
      return true;
    }

    /** Takes the oldest entry. */
    method Pop() returns (item: Option<T>)
      requires Valid()
      modifies this
      ensures Valid()
      ensures old(contents) == [] ==> item == None && contents == []
      ensures old(contents) != [] ==> item == Some(old(contents)[0]) && contents == old(contents)[1..]
    {
      hide Wrap, Sub32, Inc32;
      var t := tail;
      WrappedDifference(taken + |contents|, taken);
      WrappedDifference(taken, taken);
      if t == head {
        return None;
      }
      RingIndex.WrappedSlot(depth, taken);
      WrappedIncrement(taken);
      assert slots[SlotOf(taken, 0, depth)] == contents[0];
      item := Some(slots[t % depth]);
      tail := Inc32(t);
      forall i | 0 <= i < |contents| - 1 ensures slots[SlotOf(taken + 1, i, depth)] == contents[1..][i] {
        assert slots[SlotOf(taken, i + 1, depth)] == contents[i + 1];
      }
      taken, contents := taken + 1, contents[1..];
    }
  }

  /** The requests handed to the scheduler one after another, client ids counting up modulo 256. */
  function Drain(s: Sched, reqs: seq<TxRequest>, clientId: nat, now: nat): (s': Sched)
    ensures |s'.slots| == |s.slots|
    decreases |reqs|
  {
    if reqs == [] then s
    else Drain(Enqueue(s, clientId, reqs[0].dest, reqs[0].ssid, reqs[0].text, now).0, reqs[1..], (clientId + 1) % 256, now)
  }

  /** The same drain as operations of the scheduler. */
  function DrainOps(reqs: seq<TxRequest>, clientId: nat, now: nat): (ops: seq<Timed>)
    ensures |ops| == |reqs|
    ensures forall i :: 0 <= i < |ops| ==> ops[i].at == now && ops[i].op.DoEnqueue?
    decreases |reqs|
  {
    if reqs == [] then []
    else [Timed(now, DoEnqueue(clientId, reqs[0].dest, reqs[0].ssid, reqs[0].text))] + DrainOps(reqs[1..], (clientId + 1) % 256, now)
  }

  lemma OrderedSnoc(start: nat, ops: seq<Timed>, t: Timed)
    requires Ordered(start, ops) && Clock(start, ops) <= t.at && (t.op.DoTick? ==> |t.op.radio| == MAX_QUEUE)
    ensures Ordered(start, ops + [t]) && Clock(start, ops + [t]) == t.at
  {
    forall i | 0 <= i < |ops| ensures start <= ops[i].at <= t.at {}
  }

  lemma {:induction false} DrainIsRun(start: nat, ops: seq<Timed>, reqs: seq<TxRequest>, clientId: nat, now: nat)
    requires Ordered(start, ops) && Clock(start, ops) <= now
    ensures var ops' := ops + DrainOps(reqs, clientId, now);
      Ordered(start, ops') && Clock(start, ops') <= now && Run(start, ops') == Drain(Run(start, ops), reqs, clientId, now)
    decreases |reqs|
  {
    hide Enqueue, Ordered, Run, Clock;
    if reqs == [] {
      assert ops + [] == ops;
    } else {
      var first := Timed(now, DoEnqueue(clientId, reqs[0].dest, reqs[0].ssid, reqs[0].text));
      OrderedSnoc(start, ops, first);
      TxCounts.RunSnoc(start, ops, first);
      DrainIsRun(start, ops + [first], reqs[1..], (clientId + 1) % 256, now);
      assert ops + DrainOps(reqs, clientId, now) == (ops + [first]) + DrainOps(reqs[1..], (clientId + 1) % 256, now);
    }
  }

  /** So whatever holds of every run of the scheduler holds of it behind the ring: a tick is a run of enqueues and one tick. */
  lemma ContextTickIsRun(start: nat, ops: seq<Timed>, reqs: seq<TxRequest>, clientId: nat, now: nat, radio: seq<bool>)
    requires Ordered(start, ops) && Clock(start, ops) <= now && |radio| == MAX_QUEUE
    ensures var ops' := ops + DrainOps(reqs, clientId, now) + [Timed(now, DoTick(radio))];
      Ordered(start, ops') && Run(start, ops') == Tick(Drain(Run(start, ops), reqs, clientId, now), now, radio)
  {
    hide Drain, Tick, Enqueue, Ordered, Run, Clock;
    DrainIsRun(start, ops, reqs, clientId, now);
    var ops1 := ops + DrainOps(reqs, clientId, now);
    OrderedSnoc(start, ops1, Timed(now, DoTick(radio)));
    TxCounts.RunSnoc(start, ops1, Timed(now, DoTick(radio)));
  }

  lemma {:induction false} DrainOpsAre(reqs: seq<TxRequest>, clientId: nat, now: nat, i: nat)
    requires i < |reqs| && clientId < 256
    ensures DrainOps(reqs, clientId, now)[i] == Timed(now, DoEnqueue((clientId + i) % 256, reqs[i].dest, reqs[i].ssid, reqs[i].text))
    decreases i
  {
    if i > 0 {
      DrainOpsAre(reqs[1..], (clientId + 1) % 256, now, i - 1);
      NextId(clientId, i);
    }
  }

  /** Handing these requests over ends in that state, with that client id next. */
  predicate LeadsTo(s: Sched, rest: seq<TxRequest>, clientId: nat, now: nat, goal: Sched, last: nat) {
    Drain(s, rest, clientId, now) == goal && (clientId + |rest|) % 256 == last
  }

  lemma LeadsStart(s: Sched, rest: seq<TxRequest>, clientId: nat, now: nat)
    ensures LeadsTo(s, rest, clientId, now, Drain(s, rest, clientId, now), (clientId + |rest|) % 256)
  {}

  lemma LeadsStep(s: Sched, rest: seq<TxRequest>, clientId: nat, now: nat, goal: Sched, last: nat)
    requires LeadsTo(s, rest, clientId, now, goal, last) && rest != []
    ensures var s' := Enqueue(s, clientId, rest[0].dest, rest[0].ssid, rest[0].text, now).0;
      LeadsTo(s', rest[1..], (clientId + 1) % 256, now, goal, last)
  {
    hide Enqueue;
    NextId(clientId, |rest|);
  }

  lemma LeadsEnd(s: Sched, clientId: nat, now: nat, goal: Sched, last: nat)
    requires LeadsTo(s, [], clientId, now, goal, last) && clientId < 256
    ensures s == goal && clientId == last
  {}

  lemma NextId(clientId: nat, i: nat)
    requires i > 0
    ensures ((clientId + 1) % 256 + (i - 1)) % 256 == (clientId + i) % 256
  {}

  lemma {:induction false} DrainKeepsLog(s: Sched, reqs: seq<TxRequest>, clientId: nat, now: nat)
    ensures Drain(s, reqs, clientId, now).log == s.log
    decreases |reqs|
  {
    if reqs != [] {
      TxContent.Enqueued(s, clientId, reqs[0].dest, reqs[0].ssid, reqs[0].text, now);
      hide Enqueue;
      DrainKeepsLog(Enqueue(s, clientId, reqs[0].dest, reqs[0].ssid, reqs[0].text, now).0, reqs[1..], (clientId + 1) % 256, now);
    }
  }

  // ---------------------------------------------------------------- whole runs of the context

  /** A tick with the requests then pending, or an ack. */
  datatype Turn = DoTurn(reqs: seq<TxRequest>, now: nat, radio: seq<bool>) | AckTurn(id: string, now: nat)

  function Handed(turns: seq<Turn>): nat {
    if turns == [] then 0
    else Handed(turns[..|turns| - 1]) + if turns[|turns| - 1].DoTurn? then |turns[|turns| - 1].reqs| else 0
  }

  /** What the scheduler is asked to do. */
  function ContextOps(turns: seq<Turn>): seq<Timed> {
    if turns == [] then []
    else
      var before := turns[..|turns| - 1];
      ContextOps(before) +
      match turns[|turns| - 1]
      case DoTurn(reqs, now, radio) => DrainOps(reqs, Handed(before) % 256, now) + [Timed(now, DoTick(radio))]
      case AckTurn(id, now) => [Timed(now, DoAck(id))]
  }

  predicate AsksFor(req: TxRequest, what: Packet) {
    what.dest == req.dest && what.ssid == req.ssid && what.text == req.text
  }

  /** The j-th request of turn i asks for this, and is given the client id in it. */
  predicate Asked(turns: seq<Turn>, i: int, j: int, what: Packet) {
    0 <= i < |turns| && turns[i].DoTurn? && 0 <= j < |turns[i].reqs|
    && AsksFor(turns[i].reqs[j], what) && what.clientId == (Handed(turns[..i]) + j) % 256
  }

  lemma SameTurns(turns: seq<Turn>, n: nat, i: nat, j: nat, what: Packet)
    requires n <= |turns| && Asked(turns[..n], i, j, what)
    ensures Asked(turns, i, j, what)
  {
    assert turns[..n][..i] == turns[..i];
  }

  lemma IsAsked(turns: seq<Turn>, j: nat, handed: nat, what: Packet)
    requires turns != [] && turns[|turns| - 1].DoTurn? && handed == Handed(turns[..|turns| - 1])
    requires j < |turns[|turns| - 1].reqs| && AsksFor(turns[|turns| - 1].reqs[j], what) && what.clientId == (handed % 256 + j) % 256
    ensures Asked(turns, |turns| - 1, j, what)
  {}

  lemma {:induction false} OpsAreAsked(turns: seq<Turn>, t: Timed, msgId: string) returns (i: nat, j: nat)
    requires t in ContextOps(turns) && t.op.DoEnqueue?
    ensures Asked(turns, i, j, Packet(t.op.clientId, t.op.dest, t.op.ssid, t.op.text, msgId))
  {
    var n := |turns| - 1;
    var before := turns[..n];
    hide DrainOps, Asked;
    if t in ContextOps(before) {
      i, j := OpsAreAsked(before, t, msgId);
      SameTurns(turns, n, i, j, Packet(t.op.clientId, t.op.dest, t.op.ssid, t.op.text, msgId));
    } else {
      var reqs, now := turns[n].reqs, turns[n].now;
      j :| 0 <= j < |reqs| && DrainOps(reqs, Handed(before) % 256, now)[j] == t;
      DrainOpsAre(reqs, Handed(before) % 256, now, j);
      i := n;
      IsAsked(turns, j, Handed(before), Packet(t.op.clientId, t.op.dest, t.op.ssid, t.op.text, msgId));
    }
  }

  /** Everything a context ever hands to the radio was pushed as a request, with that destination, ssid and text. */
  lemma SendsWhatWasPushed(start: nat, turns: seq<Turn>, k: nat)
    requires Ordered(start, ContextOps(turns)) && k < |Run(start, ContextOps(turns)).log|
    ensures exists i, j :: Asked(turns, i, j, Run(start, ContextOps(turns)).log[k].what)
  {
    var ops := ContextOps(turns);
    var t := TxContent.SentAsAsked(start, ops, k);
    hide *;
    var e := Run(start, ops).log[k];
    var i, j := OpsAreAsked(turns, t, Decimal(e.ordinal % 99999 + 1));
  }

  // ---------------------------------------------------------------- the object

  /** What goes out by way of the context, in order. */
  datatype Outgoing = Scheduled(event: Event) | Raw(frame: seq<Byte>)

  function AsScheduled(events: seq<Event>): (out: seq<Outgoing>)
    ensures |out| == |events|
  {
    seq(|events|, i requires 0 <= i < |events| => Scheduled(events[i]))
  }

  function AsRaw(frames: seq<seq<Byte>>): (out: seq<Outgoing>)
    ensures |out| == |frames|
  {
    seq(|frames|, i requires 0 <= i < |frames| => Raw(frames[i]))
  }

  lemma AsRawSnoc(before: seq<Outgoing>, frames: seq<seq<Byte>>, f: seq<Byte>)
    ensures before + AsRaw(frames + [f]) == before + AsRaw(frames) + [Raw(f)]
  {}

  lemma NoRaw(before: seq<Outgoing>)
    ensures before + AsRaw([]) == before
  {}

  class AprsTaskContext {
    const scheduler: TxQueue.Queue
    const ring: Ring<TxRequest>
    const kissRing: Ring<seq<Byte>>
    var nextClientId: nat
    var rawSent: seq<seq<Byte>>
    ghost var trace: seq<Outgoing>

    ghost predicate Valid()
      reads this, scheduler, ring, ring.slots, kissRing, kissRing.slots
    {
      scheduler.Valid() && ring.Valid() && kissRing.Valid() && ring.depth == 8 && kissRing.depth == 4
      && nextClientId < 256 && Apart()
    }

    /** The parts share no storage. */
    ghost predicate Apart()
      reads this
    {
      var parts: seq<object> := [this, scheduler, scheduler.slots, ring, ring.slots, kissRing, kissRing.slots];
      forall i, j :: 0 <= i < j < |parts| ==> parts[i] != parts[j]
    }

    constructor (ghost now: nat)
      ensures Valid() && scheduler.State() == Start(now) && ring.contents == [] && kissRing.contents == [] && rawSent == []
      ensures nextClientId == 0 && trace == []
      ensures fresh(scheduler) && fresh(scheduler.slots) && fresh(ring) && fresh(ring.slots) && fresh(kissRing) && fresh(kissRing.slots)
    {
      scheduler := new TxQueue.Queue(now);
      ring := new Ring<TxRequest>(8);
      kissRing := new Ring<seq<Byte>>(4);
      nextClientId, rawSent, trace := 0, [], [];
    }

    method PushTxRequest(req: TxRequest) returns (ok: bool)
      requires Valid()
      modifies ring, ring.slots
      ensures Valid() && ok == (|old(ring.contents)| < 8)
      ensures ring.contents == if ok then old(ring.contents) + [req] else old(ring.contents)
    {
      ok := ring.Push(req);
    }

    /** Empty and oversize frames are refused before the ring is looked at. */
    method PushKissAx25(frame: seq<Byte>) returns (ok: bool)
      requires Valid()
      modifies kissRing, kissRing.slots
      ensures Valid() && ok == (0 < |frame| <= KISS_MAX_AX25 && |old(kissRing.contents)| < 4)
      ensures kissRing.contents == if ok then old(kissRing.contents) + [frame] else old(kissRing.contents)
    {
      if |frame| == 0 || |frame| > KISS_MAX_AX25 {
        return false;
      }
      ok := kissRing.Push(frame);
    }

    /** One turn of the request loop; a refused request is dropped. */
    method HandOver(req: TxRequest, now: nat)
      requires Valid()
      modifies this`nextClientId, scheduler, scheduler.slots
      ensures Valid() && nextClientId == (old(nextClientId) + 1) % 256
      ensures scheduler.State() == Enqueue(old(scheduler.State()), old(nextClientId), req.dest, req.ssid, req.text, now).0
    {
      hide Enqueue;
      var r := scheduler.Enqueue(nextClientId, req.dest, req.ssid, req.text, now);
      nextClientId := (nextClientId + 1) % 256;
    }

    /** The request loop of `tick`. */
    method DrainRequests(now: nat)
      requires Valid()
      modifies this`nextClientId, scheduler, scheduler.slots, ring
      ensures Valid() && ring.contents == [] && kissRing.contents == old(kissRing.contents)
      ensures scheduler.State() == Drain(old(scheduler.State()), old(ring.contents), old(nextClientId), now)
      ensures nextClientId == (old(nextClientId) + |old(ring.contents)|) % 256
    {
      ghost var goal := Drain(scheduler.State(), ring.contents, nextClientId, now);
      ghost var last := (nextClientId + |ring.contents|) % 256;
      ghost var rest := ring.contents;
      hide Enqueue, Drain, LeadsTo;
      assert LeadsTo(scheduler.State(), rest, nextClientId, now, goal, last) by { LeadsStart(scheduler.State(), rest, nextClientId, now); }
      var next := ring.Pop();
      while next.Some?
        invariant Valid() && kissRing.contents == old(kissRing.contents)
        invariant rest == (if next.Some? then [next.value] else []) + ring.contents && (next.None? ==> rest == [])
        invariant LeadsTo(scheduler.State(), rest, nextClientId, now, goal, last)
        decreases |ring.contents|, next.Some?
      {
        LeadsStep(scheduler.State(), rest, nextClientId, now, goal, last);
        assert rest[0] == next.value && rest[1..] == ring.contents;
        HandOver(next.value, now);
        rest := ring.contents;
        next := ring.Pop();
      }
      LeadsEnd(scheduler.State(), nextClientId, now, goal, last);
    }

    /** The raw-frame loop of `tick`. */
    method DrainKiss()
      requires Valid()
      modifies this`rawSent, this`trace, kissRing
      ensures Valid() && kissRing.contents == [] && rawSent == old(rawSent) + old(kissRing.contents)
      ensures trace == old(trace) + AsRaw(old(kissRing.contents))
    {
      ghost var all := kissRing.contents;
      ghost var sent: seq<seq<Byte>> := [];
      hide AsRaw;
      NoRaw(trace);
      var raw := kissRing.Pop();
      while raw.Some?
        invariant Valid() && (raw.None? ==> kissRing.contents == [])
        invariant all == sent + (if raw.Some? then [raw.value] else []) + kissRing.contents
        invariant rawSent == old(rawSent) + sent && trace == old(trace) + AsRaw(sent)
        decreases |kissRing.contents|, raw.Some?
      {
        rawSent := rawSent + [raw.value];
        AsRawSnoc(old(trace), sent, raw.value);
        trace := trace + [Raw(raw.value)];
        sent := sent + [raw.value];
        raw := kissRing.Pop();
      }
    }

    /** Requests to the scheduler, one scheduler tick, then every pending raw frame, oldest first. */
    method TickAll(now: nat, radio: seq<bool>)
      requires Valid() && |radio| == MAX_QUEUE
      modifies this, scheduler, scheduler.slots, ring, kissRing
      ensures Valid() && ring.contents == [] && kissRing.contents == []
      ensures scheduler.State() == Tick(Drain(old(scheduler.State()), old(ring.contents), old(nextClientId), now), now, radio)
      ensures rawSent == old(rawSent) + old(kissRing.contents)
      ensures nextClientId == (old(nextClientId) + |old(ring.contents)|) % 256
      ensures |old(scheduler.events)| <= |scheduler.events|
      ensures trace == old(trace) + AsScheduled(scheduler.events[|old(scheduler.events)|..]) + AsRaw(old(kissRing.contents))
    {
      ghost var drained := Drain(scheduler.State(), ring.contents, nextClientId, now);
      DrainKeepsLog(scheduler.State(), ring.contents, nextClientId, now);
      TxContent.TickCaused(drained, |drained.slots|, now, radio);
      hide Enqueue, Drain, TickSlots;
      ghost var before := |scheduler.events|;
      DrainRequests(now);
      var n := scheduler.Tick(now, radio);
      trace := trace + AsScheduled(scheduler.events[before..]);
      DrainKiss();
    }

    method NotifyAck(id: string) returns (found: bool)
      requires Valid()
      modifies scheduler`events, scheduler.slots
      ensures Valid() && (scheduler.State(), found) == Ack(old(scheduler.State()), id)
    {
      found := scheduler.OnAckReceived(id);
    }
  }
}
