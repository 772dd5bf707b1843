/**
 * The outbound message scheduler: firmware/components/aprs_fsm/TxScheduler.cpp, with the
 * notifications AprsTaskContext.cpp:9-28 wires to its callbacks.
 *
 * Times passed to operations are unbounded; the scheduler sees and stores them modulo 2^32.
 * `ordinal`, `born` and `sentAt` of a message, `accepted`, `lastTick` and `log` of the state
 * are history: no branch reads them.
 */
module TxScheduler {
  import opened Bytes
  import opened Uint32

  const MAX_QUEUE := 8
  const MAX_RETRIES := 5
  const RETRY_INTERVAL := 20000
  const MAX_CALLSIGN := 6
  const MAX_TEXT := 67
  const ID_RANGE := 99999

  datatype MsgState = QUEUED | PENDING | ACKED | TIMED_OUT | CANCELLED

  /** What the radio and the notifications get to see of a message. */
  datatype Packet = Packet(clientId: nat, dest: string, ssid: nat, text: string, msgId: string)

  datatype Message = Message(clientId: nat, dest: string, ssid: nat, text: string, msgId: string,
                             state: MsgState, retryCount: nat, lastTx: nat, queuedAt: nat,
                             ordinal: nat, born: nat, sentAt: nat)
  {
    predicate Terminal() {
      state == ACKED || state == TIMED_OUT || state == CANCELLED
    }

    function Content(): Packet {
      Packet(clientId, dest, ssid, text, msgId)
    }
  }

  /** A transmission attempt and its outcome, or the one terminal notification. */
  datatype Event = Attempt(ordinal: nat, what: Packet, at: nat, ok: bool) | Done(ordinal: nat, what: Packet, result: MsgState)

  datatype EnqueueResult = OK | QUEUE_FULL | BAD_PARAM

  /** A slot is None until first used; after that it keeps its last record. */
  datatype Sched = Sched(slots: seq<Option<Message>>, counter: nat, accepted: nat, lastTick: nat, log: seq<Event>)

  /** A new scheduler, the clock standing at `start`. */
  function Start(start: nat): Sched {
    Sched([None, None, None, None, None, None, None, None], 0, 0, start, [])
  }

  predicate Active(slot: Option<Message>) {
    slot.Some? && !slot.value.Terminal()
  }

  // ---------------------------------------------------------------- operations

  /** The decimal digits of n, as "%u" prints it. */
  function Decimal(n: nat): (s: string)
    ensures s != []
    decreases n
  {
    var digit := ['0' + (n % 10) as char];
    if n < 10 then digit else Decimal(n / 10) + digit
  }

  function FirstIndex(slots: seq<Option<Message>>, pred: Option<Message> -> bool, from: nat): (i: nat)
    requires from <= |slots|
    ensures from <= i <= |slots|
    ensures i < |slots| ==> pred(slots[i])
    ensures forall k :: from <= k < i ==> !pred(slots[k])
    decreases |slots| - from
  {
    if from == |slots| || pred(slots[from]) then from else FirstIndex(slots, pred, from + 1)
  }

  predicate Unused(slot: Option<Message>) {
    slot.None?
  }

  predicate Finished(slot: Option<Message>) {
    slot.Some? && slot.value.Terminal()
  }

  /** `find_free_slot`; the number of slots when there is none. */
  function FreeSlot(slots: seq<Option<Message>>): (i: nat)
    ensures i <= |slots| && (i < |slots| ==> !Active(slots[i]))
    ensures i == |slots| ==> forall k :: 0 <= k < |slots| ==> Active(slots[k])
  {
    var empty := FirstIndex(slots, Unused, 0);
    if empty < |slots| then empty else FirstIndex(slots, Finished, 0)
  }

  predicate GoodParams(dest: string, text: string) {
    0 < |dest| <= MAX_CALLSIGN && 0 < |text| <= MAX_TEXT
  }

  function NextCounter(counter: nat): nat {
    counter % ID_RANGE + 1
  }

  function Enqueue(s: Sched, clientId: nat, dest: string, ssid: nat, text: string, now: nat): (Sched, EnqueueResult) {
    var i := FreeSlot(s.slots);
    if !GoodParams(dest, text) then (s, BAD_PARAM)
    else if i == |s.slots| then (s, QUEUE_FULL)
    else
      var counter := NextCounter(s.counter);
      var msg := Message(clientId, dest, ssid, text, Decimal(counter), QUEUED, 0, 0, Wrap(now), s.accepted, now, 0);
      (s.(slots := s.slots[i := Some(msg)], counter := counter, accepted := s.accepted + 1), OK)
  }

  /** `complete_`: the record stays, its state becomes terminal and is reported. */
  function Complete(s: Sched, i: nat, result: MsgState): Sched
    requires i < |s.slots| && s.slots[i].Some?
  {
    var m := s.slots[i].value;
    s.(slots := s.slots[i := Some(m.(state := result))], log := s.log + [Done(m.ordinal, m.Content(), result)])
  }

  predicate Ready(m: Message, now: nat) {
    m.state == QUEUED || (m.state == PENDING && Sub32(Wrap(now), m.lastTx) >= RETRY_INTERVAL)
  }

  /** `transmit_now_`, the radio answering `ok`. */
  function Transmit(s: Sched, i: nat, now: nat, ok: bool): Sched
    requires i < |s.slots| && s.slots[i].Some?
  {
    var m := s.slots[i].value;
    var tried := s.(log := s.log + [Attempt(m.ordinal, m.Content(), now, ok)]);
    if !ok then tried
    else
      var sent := m.(retryCount := m.retryCount + 1, lastTx := Wrap(now), state := PENDING, sentAt := now);
      var s' := tried.(slots := s.slots[i := Some(sent)]);
      if sent.retryCount >= MAX_RETRIES then Complete(s', i, TIMED_OUT) else s'
  }

  function TickSlot(s: Sched, i: nat, now: nat, ok: bool): Sched
    requires i < |s.slots|
  {
    if Active(s.slots[i]) && Ready(s.slots[i].value, now) then Transmit(s, i, now, ok) else s
  }

  /** The slots below n visited; radio[i] is the radio's answer should slot i transmit. */
  function TickSlots(s: Sched, n: nat, now: nat, radio: seq<bool>): (s': Sched)
    requires n <= |s.slots| <= |radio|
    ensures |s'.slots| == |s.slots|
  {
    if n == 0 then s else TickSlot(TickSlots(s, n - 1, now, radio), n - 1, now, radio[n - 1])
  }

  function Tick(s: Sched, now: nat, radio: seq<bool>): Sched
    requires |s.slots| <= |radio|
  {
    TickSlots(s, |s.slots|, now, radio).(lastTick := now)
  }

  function AckSlot(s: Sched, id: string): nat {
    FirstIndex(s.slots, (slot: Option<Message>) => Active(slot) && slot.value.msgId == id, 0)
  }

  function Ack(s: Sched, id: string): (Sched, bool) {
    var i := AckSlot(s, id);
    if i < |s.slots| then (Complete(s, i, ACKED), true) else (s, false)
  }

  function ClientSlot(s: Sched, clientId: nat): nat {
    FirstIndex(s.slots, (slot: Option<Message>) => slot.Some? && slot.value.clientId == clientId, 0)
  }

  /** Only the first record carrying the client id is looked at, terminal or not. */
  function Cancel(s: Sched, clientId: nat): (Sched, bool) {
    var i := ClientSlot(s, clientId);
    if i < |s.slots| && Active(s.slots[i]) then (Complete(s, i, CANCELLED), true) else (s, false)
  }
}
