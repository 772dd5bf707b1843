/**
 * KISS frames end to end over BLE: what the bridge's table keeps while a frame's chunks arrive
 * among other traffic, and the downlink and uplink round trips.
 */
module KissDelivery {
  import opened Bytes
  import opened Kiss
  import opened KissBridge
  import opened KissReassembly
  import opened Sets
  import C = Chunking

  // ---------------------------------------------------------------- the table

  /** At most four entries, for different messages. */
  predicate Tidy(pending: seq<Pending>) {
    |pending| <= 4 && forall i, j :: 0 <= i < j < |pending| ==> pending[i].id != pending[j].id
  }

  lemma LookupIs(pending: seq<Pending>, p: nat)
    requires Tidy(pending) && p < |pending|
    ensures Lookup(pending, pending[p].id) == p
  {
    hide Lookup;
  }

  function Without(pending: seq<Pending>, q: nat): seq<Pending>
    requires q < |pending|
  {
    pending[..q] + pending[q + 1..]
  }

  lemma TidyWithEntry(pending: seq<Pending>, id: Octet)
    requires Tidy(pending)
    ensures Tidy(WithEntry(pending, id))
  {
    hide Lookup;
  }

  lemma TidyWithout(pending: seq<Pending>, q: nat)
    requires Tidy(pending) && q < |pending|
    ensures Tidy(Without(pending, q))
  {}

  /** Four entries at most, one per message, whatever arrives. */
  lemma NotifyTidy(b: Bridge, data: seq<Octet>)
    requires Tidy(b.pending)
    ensures Tidy(Notify(b, data).pending)
  {
    hide Lookup, Reassembled, WithEntry, HasIndex;
    if |data| >= 3 {
      TidyWithEntry(b.pending, data[0]);
      var pending := WithEntry(b.pending, data[0]);
      var p := Lookup(pending, data[0]);
      TidyWithout(pending, p);
    }
  }

  /** The entry at p is the message's, and everything younger belongs to `others`. */
  predicate EntryAt(pending: seq<Pending>, p: nat, entry: Pending, others: set<Octet>) {
    p < |pending| && pending[p] == entry && forall k :: p < k < |pending| ==> pending[k].id in others
  }

  predicate HasEntry(pending: seq<Pending>, entry: Pending, others: set<Octet>) {
    EntryAt(pending, Lookup(pending, entry.id), entry, others)
  }

  lemma EntryFound(pending: seq<Pending>, p: nat, entry: Pending, others: set<Octet>)
    requires Tidy(pending) && EntryAt(pending, p, entry, others)
    ensures HasEntry(pending, entry, others)
  {
    LookupIs(pending, p);
  }

  predicate Absent(pending: seq<Pending>, id: Octet) {
    forall k :: 0 <= k < |pending| ==> pending[k].id != id
  }

  /** Another message's new entry never pushes this one out while fewer than four others are about. */
  lemma OtherEntryKeeps(pending: seq<Pending>, entry: Pending, others: set<Octet>, o: Octet)
    requires Tidy(pending) && HasEntry(pending, entry, others) && o != entry.id && |others + {o}| < MAX_PENDING
    ensures HasEntry(WithEntry(pending, o), entry, others + {o})
  {
    hide Lookup;
    var p := Lookup(pending, entry.id);
    if Lookup(pending, o) == |pending| {
      TidyWithEntry(pending, o);
      if |pending| >= MAX_PENDING {
        if p == 0 {
          assert pending[1].id in others && pending[2].id in others && pending[3].id in others;
          var four := {pending[1].id, pending[2].id, pending[3].id, o};
          assert o !in {pending[1].id, pending[2].id, pending[3].id};
          assert |four| == 4;
          SubsetSize(four, others + {o});
          assert false;
        } else {
          EntryFound(WithEntry(pending, o), p - 1, entry, others + {o});
        }
      } else {
        EntryFound(WithEntry(pending, o), p, entry, others + {o});
      }
    } else {
      EntryFound(pending, p, entry, others + {o});
    }
  }

  lemma OtherEntryAbsent(pending: seq<Pending>, id: Octet, o: Octet)
    requires Absent(pending, id) && o != id
    ensures Absent(WithEntry(pending, o), id)
  {
    hide Lookup;
  }

  lemma RemovalKeeps(pending: seq<Pending>, q: nat, entry: Pending, others: set<Octet>)
    requires Tidy(pending) && HasEntry(pending, entry, others) && q < |pending| && pending[q].id != entry.id
    ensures HasEntry(Without(pending, q), entry, others)
  {
    hide Lookup;
    var p := Lookup(pending, entry.id);
    TidyWithout(pending, q);
    EntryFound(Without(pending, q), if q < p then p - 1 else p, entry, others);
  }

  lemma UpdateKeeps(pending: seq<Pending>, q: nat, entry: Pending, others: set<Octet>, chunks: seq<Wire>)
    requires Tidy(pending) && HasEntry(pending, entry, others) && q < |pending| && pending[q].id != entry.id
    ensures HasEntry(pending[q := pending[q].(chunks := chunks)], entry, others)
  {
    hide Lookup;
    var p := Lookup(pending, entry.id);
    EntryFound(pending[q := pending[q].(chunks := chunks)], p, entry, others);
  }

  /** A chunk of another message keeps the entry while fewer than four others are about. */
  lemma EntrySurvives(b: Bridge, entry: Pending, others: set<Octet>, data: seq<Octet>)
    requires Tidy(b.pending) && HasEntry(b.pending, entry, others)
    requires |data| >= 3 && data[0] != entry.id && |others + {data[0]}| < MAX_PENDING
    ensures HasEntry(Notify(b, data).pending, entry, others + {data[0]})
  {
    hide Lookup, Reassembled, HasIndex, WithEntry, HasEntry;
    var o := data[0];
    var pending := WithEntry(b.pending, o);
    var q := Lookup(pending, o);
    TidyWithEntry(b.pending, o);
    OtherEntryKeeps(b.pending, entry, others, o);
    RemovalKeeps(pending, q, entry, others + {o});
    UpdateKeeps(pending, q, entry, others + {o}, pending[q].chunks + [data]);
    MoreOthers(b.pending, entry, others, o);
  }

  lemma MoreOthers(pending: seq<Pending>, entry: Pending, others: set<Octet>, o: Octet)
    requires HasEntry(pending, entry, others)
    ensures HasEntry(pending, entry, others + {o})
  {}

  lemma StaysAbsent(b: Bridge, id: Octet, data: seq<Octet>)
    requires Absent(b.pending, id) && |data| >= 3 && data[0] != id
    ensures Absent(Notify(b, data).pending, id)
  {
    OtherEntryAbsent(b.pending, id, data[0]);
    var pending := WithEntry(b.pending, data[0]);
    AcceptAbsent(b.(pending := pending), Lookup(pending, data[0]), data, id);
    hide Lookup, WithEntry, Accept, Absent;
  }

  lemma AcceptAbsent(b: Bridge, p: nat, c: Wire, id: Octet)
    requires p < |b.pending| && Absent(b.pending, id)
    ensures Absent(Accept(b, p, c).pending, id)
  {
    hide Reassembled, HasIndex;
  }

  // ---------------------------------------------------------------- one frame among other traffic

  /** The list holds exactly the chunks numbered in got. */
  predicate HoldsExactly(chunks: seq<Wire>, m: Mix, got: set<nat>)
    requires m.Valid()
  {
    Holds(chunks, m) && |chunks| == |got|
    && forall i :: (0 <= i < 256 ==> (i in got <==> HasIndex(chunks, i)))
  }

  /** The chunks in got are there, held ones included, and the frame is not complete. */
  predicate Gathering(b: Bridge, m: Mix, got: set<nat>, others: set<Octet>) {
    m.Valid() && Tidy(b.pending) && (forall i :: i in got ==> i < m.Count()) && !Covers(got, m.Count()) && m.held.Keys <= got
    && if got == {} then Absent(b.pending, m.msgId)
       else
         var p := Lookup(b.pending, m.msgId);
         p < |b.pending| && HoldsExactly(b.pending[p].chunks, m, got) && HasEntry(b.pending, b.pending[p], others)
  }

  predicate Done(b: Bridge, b': Bridge, payload: seq<Octet>, msgId: Octet) {
    Tidy(b'.pending) && Absent(b'.pending, msgId) && b'.delivered == b.delivered + [payload]
  }

  /** What one more chunk does. */
  predicate Progress(b: Bridge, b': Bridge, m: Mix, got: set<nat>, others: set<Octet>)
    requires m.Valid()
  {
    if Covers(got, m.Count()) then Done(b, b', m.Payload(), m.msgId)
    else b'.delivered == b.delivered && Gathering(b', m, got, others)
  }

  /** Adding chunk i to an entry that lacks it. */
  lemma OneChunkMore(chunks: seq<Wire>, m: Mix, got: set<nat>, i: nat)
    requires m.Valid() && i < m.Count() && HoldsExactly(chunks, m, got) && i !in got && m.held.Keys <= got
    ensures HoldsExactly(chunks + [m.Own(i)], m, got + {i})
  {
    OwnChunk(m, i);
    assert m.Part(i) == m.Own(i)[3..];
    hide m.Part, m.Own, m.Count, m.Valid;
    var longer := chunks + [m.Own(i)];
    assert !HasIndex(chunks, i);
    forall j | 0 <= j < 256 ensures j in got + {i} <==> HasIndex(longer, j) {
      if HasIndex(chunks, j) {
        var k :| 0 <= k < |chunks| && chunks[k][1] == j;
        assert longer[k][1] == j;
      }
      assert longer[|chunks|][1] == i;
    }
  }

  lemma IndexKnown(chunks: seq<Wire>, m: Mix, got: set<nat>, i: nat)
    requires m.Valid() && i < m.Count() && HoldsExactly(chunks, m, got)
    ensures i in got <==> HasIndex(chunks, i)
  {
    hide Holds;
  }

  lemma HeldSize(chunks: seq<Wire>, m: Mix, got: set<nat>)
    requires m.Valid() && HoldsExactly(chunks, m, got)
    ensures |chunks| == |got| && Holds(chunks, m)
  {}

  lemma OthersAbsent(pending: seq<Pending>, p: nat)
    requires Tidy(pending) && p < |pending|
    ensures Absent(Without(pending, p), pending[p].id)
  {}

  lemma KeptEntry(b: Bridge, p: nat, m: Mix, got: set<nat>, others: set<Octet>, chunks: seq<Wire>)
    requires m.Valid() && got != {} && (forall k :: k in got ==> k < m.Count()) && !Covers(got, m.Count()) && m.held.Keys <= got
    requires Tidy(b.pending) && p < |b.pending| && b.pending[p].id == m.msgId
    requires EntryAt(b.pending, p, b.pending[p], others) && HoldsExactly(chunks, m, got)
    ensures Gathering(b.(pending := b.pending[p := Pending(m.msgId, chunks)]), m, got, others)
  {
    hide Covers, HoldsExactly, Lookup, m.Valid, m.Count;
    var entry := Pending(m.msgId, chunks);
    var pending := b.pending[p := entry];
    EntryFound(pending, p, entry, others);
    LookupIs(pending, p);
  }

  /** The last missing chunk completes the frame; any other new one is kept. */
  lemma AcceptStep(b: Bridge, p: nat, m: Mix, got: set<nat>, others: set<Octet>, i: nat)
    requires m.Valid() && i < m.Count()
    requires (forall k :: k in got ==> k < m.Count()) && !Covers(got, m.Count()) && m.held.Keys <= got
    requires Tidy(b.pending) && p < |b.pending| && b.pending[p].id == m.msgId
    requires EntryAt(b.pending, p, b.pending[p], others) && HoldsExactly(b.pending[p].chunks, m, got)
    ensures Progress(b, Accept(b, p, m.Own(i)), m, got + {i}, others)
  {
    OwnChunk(m, i);
    hide m.Own, m.Part, m.Valid, m.Count, m.Payload, Reassembled, Covers, HoldsExactly, Lookup, HasIndex, Holds, Gathering, Tidy, EntryAt;
    var c := m.Own(i);
    var entry := b.pending[p];
    IndexKnown(entry.chunks, m, got, i);
    if i in got {
      assert got + {i} == got;
      assert b.pending[p := Pending(m.msgId, entry.chunks)] == b.pending;
      KeptEntry(b, p, m, got, others, entry.chunks);
    } else {
      OneChunkMore(entry.chunks, m, got, i);
      CoversBySize(got + {i}, m.Count());
      HeldSize(entry.chunks + [c], m, got + {i});
      if Covers(got + {i}, m.Count()) {
        ReassembledMix(entry.chunks + [c], m);
        TidyWithout(b.pending, p);
        OthersAbsent(b.pending, p);
      } else {
        KeptEntry(b, p, m, got + {i}, others, entry.chunks + [c]);
      }
    }
  }

  lemma SingleChunk(m: Mix)
    requires m.Valid() && m.Count() == 1
    ensures m.Own(0)[3..] == m.frame && Whole(m.frame, m.msgId, m.max).Valid()
  {
    OwnChunk(m, 0);
    C.SliceBounds(|m.frame|, m.max, 0);
    assert m.frame[0..|m.frame|] == m.frame;
  }

  lemma OnlyChunk(m: Mix, got: set<nat>)
    requires m.Valid() && m.Count() == 1 && m.held.Keys <= got && (forall i :: i in got ==> i < 1) && !Covers(got, 1)
    ensures got == {} && m == Whole(m.frame, m.msgId, m.max)
    ensures forall i: nat :: i < 1 ==> Covers({} + {i}, 1)
  {
    CoversBySize(got, 1);
    assert m.held.Keys == {};
    assert m.held == map[];
  }

  lemma NoChunksYet(m: Mix)
    requires m.Valid()
    ensures HoldsExactly([], m, {})
  {}

  lemma NewEntry(pending: seq<Pending>, id: Octet)
    requires Absent(pending, id)
    ensures var r := WithEntry(pending, id);
      Lookup(r, id) == |r| - 1 && r[|r| - 1] == Pending(id, [])
  {
    hide Lookup;
    assert Lookup(pending, id) == |pending|;
    LookupNew(if |pending| >= MAX_PENDING then pending[1..] else pending, id);
  }

  lemma OursStep(b: Bridge, m: Mix, got: set<nat>, others: set<Octet>, i: nat)
    requires Gathering(b, m, got, others) && i < m.Count()
    ensures Progress(b, Notify(b, m.Own(i)), m, got + {i}, others)
  {
    OwnChunk(m, i);
    if m.Count() == 1 {
      OnlyChunk(m, got);
      SingleChunk(m);
      WholePayload(m.frame, m.msgId, m.max);
    } else {
      var pending := WithEntry(b.pending, m.msgId);
      var p := Lookup(pending, m.msgId);
      TidyWithEntry(b.pending, m.msgId);
      if got == {} {
        NoChunksYet(m);
        NewEntry(b.pending, m.msgId);
      }
      hide m.Own, m.Valid, m.Count, Accept, HoldsExactly, Lookup, Covers, Progress;
      AcceptStep(b.(pending := pending), p, m, got, others, i);
      ProgressFrom(b, b.(pending := pending), Accept(b.(pending := pending), p, m.Own(i)), m, got + {i}, others);
    }
  }

  lemma ProgressFrom(b: Bridge, mid: Bridge, b': Bridge, m: Mix, got: set<nat>, others: set<Octet>)
    requires m.Valid() && mid.delivered == b.delivered && Progress(mid, b', m, got, others)
    ensures Progress(b, b', m, got, others)
  {}

  lemma OtherStep(b: Bridge, m: Mix, got: set<nat>, others: set<Octet>, data: seq<Octet>)
    requires Gathering(b, m, got, others)
    requires |data| >= 3 && data[0] != m.msgId && |others + {data[0]}| < MAX_PENDING
    ensures Gathering(Notify(b, data), m, got, others + {data[0]})
  {
    hide HoldsExactly, Lookup, Covers, m.Valid, m.Count, Notify, HasEntry;
    NotifyTidy(b, data);
    if got == {} {
      StaysAbsent(b, m.msgId, data);
    } else {
      var entry := b.pending[Lookup(b.pending, m.msgId)];
      EntrySurvives(b, entry, others, data);
      EntryLooksUp(Notify(b, data).pending, entry, others + {data[0]});
    }
  }

  lemma EntryLooksUp(pending: seq<Pending>, entry: Pending, others: set<Octet>)
    requires HasEntry(pending, entry, others)
    ensures var p := Lookup(pending, entry.id); p < |pending| && pending[p] == entry
  {}

  // ---------------------------------------------------------------- whole runs

  /** What reaches the bridge: a chunk of the frame in question, or anything else. */
  datatype Event = Ours(i: nat) | Other(data: seq<Octet>)

  function Apply(b: Bridge, frame: seq<Octet>, msgId: Octet, max: nat, e: Event): Bridge
    requires Sendable(frame, max) && (e.Ours? ==> e.i < C.NumChunks(|frame|, max))
  {
    match e
    case Ours(i) => Notify(b, WireChunk(frame, msgId, max, i))
    case Other(data) => Notify(b, data)
  }

  /** Ours are chunks of the frame; the others carry other message ids. */
  predicate Traffic(events: seq<Event>, msgId: Octet, n: nat) {
    forall k :: 0 <= k < |events| ==>
      match events[k]
      case Ours(i) => i < n
      case Other(data) => |data| >= 3 ==> data[0] != msgId
  }

  function Play(b: Bridge, frame: seq<Octet>, msgId: Octet, max: nat, events: seq<Event>): Bridge
    requires Sendable(frame, max) && Traffic(events, msgId, C.NumChunks(|frame|, max))
  {
    if events == [] then b
    else Apply(Play(b, frame, msgId, max, events[..|events| - 1]), frame, msgId, max, events[|events| - 1])
  }

  function GotOf(e: Event): set<nat> {
    match e
    case Ours(i) => {i}
    case Other(_) => {}
  }

  function IdsOf(e: Event): set<Octet> {
    match e
    case Ours(_) => {}
    case Other(data) => if |data| >= 3 then {data[0]} else {}
  }

  /** A chunk without a whole header or with total 0, or one already there, changes nothing. */
  lemma IgnoredChunks(b: Bridge, data: seq<Octet>)
    requires |data| < 3 || data[2] == 0 || (!(data[2] == 1 && data[1] == 0)
      && Lookup(b.pending, data[0]) < |b.pending| && HasIndex(b.pending[Lookup(b.pending, data[0])].chunks, data[1]))
    ensures Notify(b, data) == b
  {
    hide Lookup, Reassembled, HasIndex;
  }

  /** The chunk numbers of the frame that have come. */
  function Got(events: seq<Event>): set<nat> {
    if events == [] then {} else Got(events[..|events| - 1]) + GotOf(events[|events| - 1])
  }

  /** The other message ids that have been seen. */
  function OtherIds(events: seq<Event>): set<Octet> {
    if events == [] then {} else OtherIds(events[..|events| - 1]) + IdsOf(events[|events| - 1])
  }

  lemma TooShort(b: Bridge, data: seq<Octet>)
    requires |data| < 3
    ensures Notify(b, data) == b
  {}

  /** An event that does not complete the frame. */
  lemma EventStep(b: Bridge, m: Mix, got: set<nat>, others: set<Octet>, e: Event)
    requires Gathering(b, m, got, others) && Traffic([e], m.msgId, m.Count())
    requires |others + IdsOf(e)| < MAX_PENDING && !Covers(got + GotOf(e), m.Count())
    ensures (e.Ours? ==> e.i < m.Count()) && Gathering(Apply(b, m.frame, m.msgId, m.max, e), m, got + GotOf(e), others + IdsOf(e))
  {
    assert Traffic([e], m.msgId, m.Count()) && [e][0] == e;
    match e
    case Ours(i) =>
      assert others + {} == others;
      OursStep(b, m, got, others, i);
      hide Gathering, Notify;
    case Other(data) =>
      assert got + {} == got;
      if |data| >= 3 {
        OtherStep(b, m, got, others, data);
      } else {
        assert others + {} == others;
        TooShort(b, data);
      }
      hide Gathering, Notify;
  }

  lemma JoinSets<T>(a: set<T>, b: set<T>, c: set<T>)
    ensures a + (b + c) == a + b + c && a + {} == a && a + b <= a + (b + c)
  {}

  lemma LastOfTraffic(events: seq<Event>, msgId: Octet, n: nat)
    requires Traffic(events, msgId, n) && events != []
    ensures Traffic(events[..|events| - 1], msgId, n) && Traffic([events[|events| - 1]], msgId, n)
  {}

  lemma {:induction false} WhileIncomplete(b: Bridge, m: Mix, others: set<Octet>, got: set<nat>, events: seq<Event>)
    requires Gathering(b, m, got, others) && Traffic(events, m.msgId, m.Count())
    requires |others + OtherIds(events)| < MAX_PENDING && !Covers(got + Got(events), m.Count())
    ensures Gathering(Play(b, m.frame, m.msgId, m.max, events), m, got + Got(events), others + OtherIds(events))
    decreases |events|
  {
    assert m.Valid();
    hide Gathering, Apply, Traffic, IdsOf, GotOf;
    JoinSets(got, {}, {});
    JoinSets(others, {}, {});
    if events != [] {
      LastOfTraffic(events, m.msgId, m.Count());
      var before, e := events[..|events| - 1], events[|events| - 1];
      JoinSets(others, OtherIds(before), IdsOf(e));
      JoinSets(got, Got(before), GotOf(e));
      SubsetSize(others + OtherIds(before), others + OtherIds(events));
      WhileIncomplete(b, m, others, got, before);
      EventStep(Play(b, m.frame, m.msgId, m.max, before), m, got + Got(before), others + OtherIds(before), e);
    }
  }

  lemma NothingYet(b: Bridge, frame: seq<Octet>, msgId: Octet, max: nat, others: set<Octet>)
    requires Sendable(frame, max) && Tidy(b.pending) && Absent(b.pending, msgId)
    ensures Gathering(b, Whole(frame, msgId, max), {}, others)
  {
    var none: set<nat> := {};
    assert 0 !in none;
    assert !Covers(none, C.NumChunks(|frame|, max));
  }

  /**
   * Whatever was held for the message id before, and among anything that carries few enough other
   * ids: when its last missing chunk comes, in whatever order and with whatever duplicates, the
   * frame's payload is delivered with the held parts in place of its own, and nothing of this id
   * is delivered before that.
   */
  lemma DeliveredMixed(b: Bridge, m: Mix, others: set<Octet>, got: set<nat>, events: seq<Event>, i: nat)
    requires Gathering(b, m, got, others) && Traffic(events, m.msgId, m.Count()) && i < m.Count()
    requires |others + OtherIds(events)| < MAX_PENDING && !Covers(got + Got(events), m.Count())
    ensures var before := Play(b, m.frame, m.msgId, m.max, events);
      Progress(before, Apply(before, m.frame, m.msgId, m.max, Ours(i)), m, got + Got(events) + {i}, others + OtherIds(events))
  {
    WhileIncomplete(b, m, others, got, events);
    OursStep(Play(b, m.frame, m.msgId, m.max, events), m, got + Got(events), others + OtherIds(events), i);
    hide Gathering, Notify, Progress;
  }

  /**
   * With nothing held before: the frame's chunks may come in any order, with duplicates, among
   * anything else that carries at most three other message ids; the frame is delivered, intact,
   * exactly when its last missing chunk comes.
   */
  lemma DeliveredWhenComplete(b: Bridge, frame: seq<Octet>, msgId: Octet, max: nat, events: seq<Event>, i: nat)
    requires Sendable(frame, max) && i < C.NumChunks(|frame|, max) && Traffic(events, msgId, C.NumChunks(|frame|, max))
    requires Tidy(b.pending) && Absent(b.pending, msgId) && |OtherIds(events)| < MAX_PENDING
    requires !Covers(Got(events), C.NumChunks(|frame|, max))
    ensures var before := Play(b, frame, msgId, max, events);
      var after := Apply(before, frame, msgId, max, Ours(i));
      if Covers(Got(events) + {i}, C.NumChunks(|frame|, max)) then Done(before, after, frame, msgId)
      else after.delivered == before.delivered
  {
    NothingYet(b, frame, msgId, max, {});
    WholePayload(frame, msgId, max);
    assert {} + OtherIds(events) == OtherIds(events) && {} + Got(events) == Got(events);
    DeliveredMixed(b, Whole(frame, msgId, max), {}, {}, events, i);
    hide Gathering, Play, Apply, Done;
  }

  /** Three is the most: with the table full, a chunk of one more message drops the oldest, chunks and all. */
  lemma OneMoreMessageEvicts(b: Bridge, data: seq<Octet>)
    requires Tidy(b.pending) && |b.pending| == MAX_PENDING && |data| >= 3 && Absent(b.pending, data[0])
    requires data[2] > 1 || (data[2] == 1 && data[1] > 0)
    ensures Notify(b, data).delivered == b.delivered
    ensures Absent(Notify(b, data).pending, b.pending[0].id)
  {
    NewEntry(b.pending, data[0]);
    if data[2] == 1 {
      IndexTooLarge([data], 0);
    }
    assert [] + [data] == [data];
    hide Lookup, Reassembled, HasIndex;
    assert !HasIndex([], data[1]) by { NoIndex(data[1]); }
  }

  lemma NoIndex(i: Octet)
    ensures !HasIndex([], i)
  {}

  // ---------------------------------------------------------------- the downlink

  /** The frame of a payload that fits can always be chunked. */
  lemma FramedChunks(data: seq<Octet>)
    requires |data| + Specials(data) <= MAX_FRAME
    ensures Sendable(Framed(data), KISS_CHUNK_PAYLOAD)
  {
    hide Specials, Framed;
    EncodeDecode(data);
  }

  /**
   * Firmware to desktop: a payload whose escaped form fits 330 bytes is framed, cut into 17-byte
   * chunks, reassembled by the bridge from any such traffic, and decodes to itself.
   */
  lemma Downlink(b: Bridge, data: seq<Octet>, msgId: Octet, events: seq<Event>, i: nat)
    requires |data| + Specials(data) <= MAX_FRAME && Sendable(Framed(data), KISS_CHUNK_PAYLOAD)
    requires i < C.NumChunks(|Framed(data)|, KISS_CHUNK_PAYLOAD)
    requires Traffic(events, msgId, C.NumChunks(|Framed(data)|, KISS_CHUNK_PAYLOAD))
    requires Tidy(b.pending) && Absent(b.pending, msgId) && |OtherIds(events)| < MAX_PENDING
    requires !Covers(Got(events), C.NumChunks(|Framed(data)|, KISS_CHUNK_PAYLOAD))
    requires Covers(Got(events) + {i}, C.NumChunks(|Framed(data)|, KISS_CHUNK_PAYLOAD))
    ensures var before := Play(b, Framed(data), msgId, KISS_CHUNK_PAYLOAD, events);
      var after := Apply(before, Framed(data), msgId, KISS_CHUNK_PAYLOAD, Ours(i));
      |after.delivered| == |before.delivered| + 1 && after.delivered[..|before.delivered|] == before.delivered
      && Decoded(after.delivered[|before.delivered|]) == Data(data)
  {
    hide Specials, Framed, Decoded, Apply, Play, Covers, C.NumChunks, Sendable, Tidy, Absent;
    EncodeDecode(data);
    DeliveredWhenComplete(b, Framed(data), msgId, KISS_CHUNK_PAYLOAD, events, i);
  }

  // ---------------------------------------------------------------- the uplink

  /** Every MTU from 9 to 255 suits every payload that fits. */
  lemma UplinkFits(data: seq<Octet>, mtu: nat)
    requires |data| + Specials(data) <= MAX_FRAME && 9 <= mtu <= 255
    ensures C.Feedable(Framed(data), mtu - 3)
  {
    hide Specials, Framed, Decoded, C.Feedable;
    EncodeDecode(data);
    FeedableWhen(Framed(data), mtu - 3);
  }

  lemma FeedableWhen(frame: seq<Octet>, max: nat)
    requires 0 < |frame| <= 333 && 6 <= max <= 252
    ensures C.Feedable(frame, max)
  {
    SixBytesEach(|frame|, max);
    hide C.NumChunks;
  }

  lemma SixBytesEach(len: nat, max: nat)
    requires 0 < len <= 333 && max >= 6
    ensures 0 < C.NumChunks(len, max) <= C.MAX_CHUNKS
  {
    var n := C.NumChunks(len, max);
    C.NoChunks(len, max);
    C.SliceBounds(len, max, n - 1);
    hide C.NumChunks;
    SixTimes(max, n - 1);
  }

  lemma SixTimes(max: nat, k: nat)
    requires max >= 6
    ensures 6 * k <= k * max
  {}

  /** The bridge's chunks are the ones BleChunker's own `split` would make. */
  lemma SameChunks(frame: seq<Octet>, msgId: Octet, max: nat, i: nat)
    requires C.Splittable(|frame|, max) && i < C.NumChunks(|frame|, max)
    ensures WireChunk(frame, msgId, max, i) == C.ChunkOf(frame, msgId, max, i)
  {}

  /**
   * Desktop to firmware: at every MTU at which the firmware accepts the chunks, feeding them to its
   * reassembler in any order inside the timeout completes a frame that decodes to the payload.
   */
  lemma Uplink(c: C.Chunker, timeout: nat, data: seq<Octet>, msgId: Octet, mtu: nat, feeds: C.Schedule)
    requires |data| + Specials(data) <= MAX_FRAME && mtu > 3 && C.Feedable(Framed(data), mtu - 3)
    requires |c.slots| > 0 && C.NoSlot(c.slots, msgId)
    requires C.Orderly(feeds, C.NumChunks(|Framed(data)|, mtu - 3), timeout)
    requires Covers(C.Got(feeds), C.NumChunks(|Framed(data)|, mtu - 3))
    ensures C.Splittable(|Framed(data)|, mtu - 3)
    ensures var c' := C.FeedAll(c, timeout, Framed(data), msgId, mtu - 3, feeds);
      |c'.delivered| == |c.delivered| + 1
      && C.AllReceived(c'.delivered[|c.delivered|].parts, c'.delivered[|c.delivered|].total)
      && Decoded(C.Assembled(c'.delivered[|c.delivered|].parts, c'.delivered[|c.delivered|].total)) == Data(data)
  {
    hide Specials, Framed, Decoded, C.FeedAll, Covers, C.NumChunks, C.NoSlot, C.Orderly, C.Assembled;
    EncodeDecode(data);
    C.Reassembles(c, timeout, Framed(data), msgId, mtu - 3, feeds);
  }
}
