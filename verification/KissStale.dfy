/**
 * The bridge has no timeout (app/desktop_test/kiss_bridge.py:416-469): chunks of a frame that never
 * became complete stay in the table until their message id is used again. What a later frame under
 * that id then arrives as, for every table the bridge can be in.
 */
module KissStale {
  import opened Bytes
  import opened KissBridge
  import opened KissDelivery
  import opened KissReassembly
  import opened Sets
  import C = Chunking

  // ---------------------------------------------------------------- the table's entries

  predicate SoundEntry(entry: Pending) {
    entry.chunks != [] && DistinctIndices(entry.chunks)
  }

  /** Every entry has a chunk, and none two of the same index. */
  predicate Sound(pending: seq<Pending>) {
    forall k :: 0 <= k < |pending| ==> SoundEntry(pending[k])
  }

  /** The table between the two halves of a notification: entry p may still be empty. */
  predicate NearlySound(pending: seq<Pending>, p: nat) {
    p < |pending| && DistinctIndices(pending[p].chunks) && forall k :: 0 <= k < |pending| && k != p ==> SoundEntry(pending[k])
  }

  lemma WithEntrySound(pending: seq<Pending>, id: Octet)
    requires Sound(pending)
    ensures NearlySound(WithEntry(pending, id), Lookup(WithEntry(pending, id), id))
  {
    if Lookup(pending, id) == |pending| {
      NewEntry(pending, id);
    }
    hide Lookup;
  }

  lemma AppendDistinct(chunks: seq<Wire>, c: Wire)
    requires DistinctIndices(chunks) && !HasIndex(chunks, c[1])
    ensures DistinctIndices(chunks + [c])
  {}

  lemma AcceptSound(b: Bridge, p: nat, c: Wire)
    requires NearlySound(b.pending, p)
    ensures Sound(Accept(b, p, c).pending)
  {
    hide Reassembled, DistinctIndices;
    if !HasIndex(b.pending[p].chunks, c[1]) {
      AppendDistinct(b.pending[p].chunks, c);
    }
  }

  /** Soundness is kept, whatever arrives, and holds of the empty table. */
  lemma NotifySound(b: Bridge, data: seq<Octet>)
    requires Sound(b.pending)
    ensures Sound(Notify(b, data).pending) && Sound([])
  {
    if |data| >= 3 {
      var pending := WithEntry(b.pending, data[0]);
      WithEntrySound(b.pending, data[0]);
      hide Lookup, WithEntry, Accept, SoundEntry;
      AcceptSound(b.(pending := pending), Lookup(pending, data[0]), data);
    }
  }

  /** A list that a frame of n chunks can complete. */
  predicate Fits(chunks: seq<Wire>, n: nat) {
    chunks != [] && chunks[0][2] == n && |chunks| < n && forall k :: 0 <= k < |chunks| ==> chunks[k][1] < n
  }

  /** The payloads of a list of chunks by index. */
  function HeldBy(chunks: seq<Wire>): map<nat, seq<Octet>> {
    if chunks == [] then map[]
    else
      var c := chunks[|chunks| - 1];
      HeldBy(chunks[..|chunks| - 1])[(c[1] as nat) := c[3..]]
  }

  lemma HasIndexSnoc(chunks: seq<Wire>, i: nat)
    requires chunks != [] && i < 256
    ensures HasIndex(chunks, i) <==> HasIndex(chunks[..|chunks| - 1], i) || chunks[|chunks| - 1][1] == i
  {
    var l := |chunks| - 1;
    if HasIndex(chunks[..l], i) {
      var k :| 0 <= k < l && chunks[..l][k][1] == i;
      assert chunks[k][1] == i;
    }
    if HasIndex(chunks, i) && chunks[l][1] != i {
      var k :| 0 <= k < |chunks| && chunks[k][1] == i;
      assert chunks[..l][k][1] == i;
    }
  }

  lemma {:induction false} HeldByIndex(chunks: seq<Wire>, i: nat)
    requires i < 256
    ensures i in HeldBy(chunks) <==> HasIndex(chunks, i)
    decreases |chunks|
  {
    hide HasIndex;
    if chunks != [] {
      HeldByIndex(chunks[..|chunks| - 1], i);
      HasIndexSnoc(chunks, i);
    } else {
      NoIndex(i);
    }
  }

  lemma {:induction false} HeldByBelow(chunks: seq<Wire>, n: nat, i: nat)
    requires i in HeldBy(chunks) && forall k :: 0 <= k < |chunks| ==> chunks[k][1] < n
    ensures i < n
    decreases |chunks|
  {
    var l := |chunks| - 1;
    if i in HeldBy(chunks[..l]) {
      HeldByBelow(chunks[..l], n, i);
    }
  }

  lemma {:induction false} HeldBySize(chunks: seq<Wire>)
    requires DistinctIndices(chunks)
    ensures |HeldBy(chunks).Keys| == |chunks|
    decreases |chunks|
  {
    if chunks != [] {
      var l := |chunks| - 1;
      var before, c := chunks[..l], chunks[l];
      HeldBySize(before);
      assert !HasIndex(before, c[1]);
      HeldByIndex(before, c[1]);
      assert HeldBy(chunks).Keys == HeldBy(before).Keys + {c[1] as nat};
    }
  }

  lemma {:induction false} HeldByValue(chunks: seq<Wire>, k: nat)
    requires DistinctIndices(chunks) && k < |chunks|
    ensures (chunks[k][1] as nat) in HeldBy(chunks) && HeldBy(chunks)[chunks[k][1]] == chunks[k][3..]
    decreases |chunks|
  {
    var l := |chunks| - 1;
    if k < l {
      HeldByValue(chunks[..l], k);
      assert chunks[k][1] != chunks[l][1];
    }
  }

  /** The frame with what is in the list in place of its own chunks. */
  function MixOf(chunks: seq<Wire>, frame: seq<Octet>, msgId: Octet, max: nat): Mix {
    Mix(HeldBy(chunks), frame, msgId, max)
  }

  lemma MixOfHolds(chunks: seq<Wire>, frame: seq<Octet>, msgId: Octet, max: nat)
    requires Sendable(frame, max) && DistinctIndices(chunks) && Fits(chunks, C.NumChunks(|frame|, max))
    ensures var m := MixOf(chunks, frame, msgId, max);
      m.Valid() && HoldsExactly(chunks, m, m.held.Keys) && !Covers(m.held.Keys, m.Count()) && m.held.Keys != {}
  {
    var n := C.NumChunks(|frame|, max);
    hide C.NumChunks, HasIndex, DistinctIndices, HeldBy, WireChunk;
    HeldBySize(chunks);
    forall i | i in HeldBy(chunks) ensures i < n {
      HeldByBelow(chunks, n, i);
    }
    forall i: nat | i < 256 ensures i in HeldBy(chunks) <==> HasIndex(chunks, i) {
      HeldByIndex(chunks, i);
    }
    forall k | 0 <= k < |chunks|
      ensures (chunks[k][1] as nat) in HeldBy(chunks) && HeldBy(chunks)[chunks[k][1]] == chunks[k][3..]
    {
      HeldByValue(chunks, k);
    }
    CoversBySize(HeldBy(chunks).Keys, n);
  }

  // ---------------------------------------------------------------- what is delivered under this id

  function New(b: Bridge, b': Bridge): seq<seq<Octet>>
    requires b.delivered <= b'.delivered
  {
    b'.delivered[|b.delivered|..]
  }

  /** What the frame's own chunks cause to be delivered. */
  function OwnDeliveries(b: Bridge, frame: seq<Octet>, msgId: Octet, max: nat, events: seq<Event>): seq<seq<Octet>>
    requires Sendable(frame, max) && Traffic(events, msgId, C.NumChunks(|frame|, max))
  {
    if events == [] then []
    else
      var before := Play(b, frame, msgId, max, events[..|events| - 1]);
      var e := events[|events| - 1];
      OwnDeliveries(b, frame, msgId, max, events[..|events| - 1])
        + if e.Ours? then New(before, Apply(before, frame, msgId, max, e)) else []
  }

  /** No chunk of the frame comes twice. */
  predicate EachOnce(events: seq<Event>) {
    forall a, b :: 0 <= a < b < |events| && events[a].Ours? && events[b].Ours? ==> events[a].i != events[b].i
  }

  lemma {:induction false} GotMeans(events: seq<Event>, i: nat)
    requires forall a :: 0 <= a < |events| ==> events[a] != Ours(i)
    ensures i !in Got(events)
    decreases |events|
  {
    if events != [] {
      GotMeans(events[..|events| - 1], i);
    }
  }

  lemma NotYet(events: seq<Event>)
    requires EachOnce(events) && events != [] && events[|events| - 1].Ours?
    ensures events[|events| - 1].i !in Got(events[..|events| - 1])
  {
    var n := |events| - 1;
    GotMeans(events[..n], events[n].i);
  }

  /** The rest of a frame of which a chunk has been used up: it cannot become complete. */
  ghost predicate Leftover(b: Bridge, w: Mix, came: set<nat>, others: set<Octet>) {
    exists got: set<nat> :: LeftoverWith(b, w, came, others, got)
  }

  predicate LeftoverWith(b: Bridge, w: Mix, came: set<nat>, others: set<Octet>, got: set<nat>) {
    Gathering(b, w, got, others) && got < came
  }

  lemma LeftoverStep(b: Bridge, w: Mix, came: set<nat>, others: set<Octet>, e: Event)
    requires w.Valid() && w.held == map[] && Leftover(b, w, came, others) && Traffic([e], w.msgId, w.Count())
    requires (e.Ours? ==> e.i !in came) && |others + IdsOf(e)| < MAX_PENDING && forall i :: i in came ==> i < w.Count()
    ensures [e][0] == e && (e.Ours? ==> e.i < w.Count())
    ensures var b' := Apply(b, w.frame, w.msgId, w.max, e);
      Leftover(b', w, came + GotOf(e), others + IdsOf(e)) && (e.Ours? ==> b'.delivered == b.delivered)
  {
    var got: set<nat> :| LeftoverWith(b, w, came, others, got);
    var j :| j in came && j !in got;
    assert [e][0] == e;
    assert j !in got + GotOf(e) && got + GotOf(e) < came + GotOf(e);
    EventStep(b, w, got, others, e);
    if e.Ours? {
      OursStep(b, w, got, others, e.i);
    }
    hide Gathering, Apply, Notify, w.Valid, w.Count;
    assert LeftoverWith(Apply(b, w.frame, w.msgId, w.max, e), w, came + GotOf(e), others + IdsOf(e), got + GotOf(e));
  }

  lemma LeftoverStarts(b: Bridge, w: Mix, came: set<nat>, others: set<Octet>)
    requires w.Valid() && w == Whole(w.frame, w.msgId, w.max) && Tidy(b.pending) && Absent(b.pending, w.msgId) && came != {}
    ensures Leftover(b, w, came, others)
  {
    NothingYet(b, w.frame, w.msgId, w.max, others);
    assert LeftoverWith(b, w, came, others, {});
  }

  // ---------------------------------------------------------------- a list that fits

  /** Gathering until the payload is delivered, a leftover after that. */
  ghost predicate Mixing(b: Bridge, m: Mix, own: seq<seq<Octet>>, came: set<nat>, others: set<Octet>) {
    m.Valid()
    && if own == [] then Gathering(b, m, m.held.Keys + came, others)
       else own == [m.Payload()] && Leftover(b, Whole(m.frame, m.msgId, m.max), came, others)
  }

  lemma MixingOurs(b: Bridge, m: Mix, came: set<nat>, others: set<Octet>, i: nat)
    requires Gathering(b, m, m.held.Keys + came, others) && i < m.Count()
    ensures var b' := Notify(b, m.Own(i));
      Mixing(b', m, New(b, b'), came + {i}, others)
  {
    var b' := Notify(b, m.Own(i));
    OursStep(b, m, m.held.Keys + came, others, i);
    JoinSets(m.held.Keys, came, {i});
    SingleIsWhole(m);
    hide Gathering, Notify, m.Payload, m.Own, m.Count;
    if Covers(m.held.Keys + came + {i}, m.Count()) {
      LeftoverStarts(b', Whole(m.frame, m.msgId, m.max), came + {i}, others);
      OneNew(b, b', m.Payload());
    }
  }

  lemma SingleIsWhole(m: Mix)
    requires m.Valid()
    ensures Whole(m.frame, m.msgId, m.max).Valid() && Whole(m.frame, m.msgId, m.max).Count() == m.Count()
  {}

  lemma MixingOther(b: Bridge, m: Mix, came: set<nat>, others: set<Octet>, e: Event)
    requires Gathering(b, m, m.held.Keys + came, others) && e.Other? && Traffic([e], m.msgId, m.Count())
    requires |others + IdsOf(e)| < MAX_PENDING
    ensures Mixing(Apply(b, m.frame, m.msgId, m.max, e), m, [], came + GotOf(e), others + IdsOf(e))
  {
    OtherDoesNotCover(m, m.held.Keys + came, b, others);
    assert came + {} == came;
    EventStep(b, m, m.held.Keys + came, others, e);
    hide Gathering, Apply;
  }

  lemma MixingStep(b: Bridge, m: Mix, own: seq<seq<Octet>>, came: set<nat>, others: set<Octet>, e: Event)
    requires Mixing(b, m, own, came, others) && Traffic([e], m.msgId, m.Count())
    requires (e.Ours? ==> e.i !in came) && |others + IdsOf(e)| < MAX_PENDING && forall i :: i in came ==> i < m.Count()
    ensures [e][0] == e && (e.Ours? ==> e.i < m.Count())
    ensures var b' := Apply(b, m.frame, m.msgId, m.max, e);
      Mixing(b', m, own + (if e.Ours? then New(b, b') else []), came + GotOf(e), others + IdsOf(e))
  {
    assert [e][0] == e;
    if own == [] {
      assert m.Valid();
      hide Mixing;
      MixingFirst(b, m, came, others, e);
    } else {
      MixingLater(b, m, own, came, others, e);
    }
  }

  lemma MixingFirst(b: Bridge, m: Mix, came: set<nat>, others: set<Octet>, e: Event)
    requires Gathering(b, m, m.held.Keys + came, others) && Traffic([e], m.msgId, m.Count())
    requires |others + IdsOf(e)| < MAX_PENDING
    ensures e.Ours? ==> e.i < m.Count()
    ensures var b' := Apply(b, m.frame, m.msgId, m.max, e);
      Mixing(b', m, [] + (if e.Ours? then New(b, b') else []), came + GotOf(e), others + IdsOf(e))
  {
    assert [e][0] == e;
    match e
    case Ours(i) =>
      MixingOurs(b, m, came, others, i);
      EmptyJoins(New(b, Notify(b, m.Own(i))), others);
      hide Mixing, Notify, New, m.Payload;
    case Other(_) =>
      MixingOther(b, m, came, others, e);
      hide Mixing, Apply;
  }

  lemma EmptyJoins(x: seq<seq<Octet>>, others: set<Octet>)
    ensures [] + x == x && others + {} == others
  {}

  lemma MixingLater(b: Bridge, m: Mix, own: seq<seq<Octet>>, came: set<nat>, others: set<Octet>, e: Event)
    requires Mixing(b, m, own, came, others) && own != [] && Traffic([e], m.msgId, m.Count())
    requires (e.Ours? ==> e.i !in came) && |others + IdsOf(e)| < MAX_PENDING && forall i :: i in came ==> i < m.Count()
    ensures e.Ours? ==> e.i < m.Count()
    ensures var b' := Apply(b, m.frame, m.msgId, m.max, e);
      Mixing(b', m, own + (if e.Ours? then New(b, b') else []), came + GotOf(e), others + IdsOf(e))
  {
    SingleIsWhole(m);
    LeftoverStep(b, Whole(m.frame, m.msgId, m.max), came, others, e);
    NothingNew(b, Apply(b, m.frame, m.msgId, m.max, e), own);
    hide Leftover, Apply, New, m.Payload;
  }

  lemma NothingNew(b: Bridge, b': Bridge, own: seq<seq<Octet>>)
    requires b.delivered <= b'.delivered
    ensures own + [] == own && (b'.delivered == b.delivered ==> own + New(b, b') == own)
  {}

  lemma OneNew(b: Bridge, b': Bridge, x: seq<Octet>)
    requires b'.delivered == b.delivered + [x]
    ensures New(b, b') == [x]
  {}

  lemma OtherDoesNotCover(m: Mix, got: set<nat>, b: Bridge, others: set<Octet>)
    requires Gathering(b, m, got, others)
    ensures got + {} == got && !Covers(got, m.Count())
  {}

  /** One more event, for everything that is defined by recursion over a run. */
  lemma RunStep(b: Bridge, m: Mix, others: set<Octet>, events: seq<Event>)
    requires m.Valid() && Traffic(events, m.msgId, m.Count()) && EachOnce(events) && events != []
    ensures var before, e := events[..|events| - 1], events[|events| - 1];
      && Traffic(before, m.msgId, m.Count()) && EachOnce(before) && Traffic([e], m.msgId, m.Count()) && (e.Ours? ==> e.i < m.Count())
      && Play(b, m.frame, m.msgId, m.max, events) == Apply(Play(b, m.frame, m.msgId, m.max, before), m.frame, m.msgId, m.max, e)
      && OwnDeliveries(b, m.frame, m.msgId, m.max, events) == OwnDeliveries(b, m.frame, m.msgId, m.max, before)
           + (if e.Ours? then New(Play(b, m.frame, m.msgId, m.max, before), Play(b, m.frame, m.msgId, m.max, events)) else [])
      && Got(events) == Got(before) + GotOf(e)
      && others + OtherIds(events) == others + OtherIds(before) + IdsOf(e)
      && |others + OtherIds(before)| <= |others + OtherIds(events)|
      && (e.Ours? ==> e.i !in Got(before))
  {
    LastOfTraffic(events, m.msgId, m.Count());
    var before, e := events[..|events| - 1], events[|events| - 1];
    JoinSets(others, OtherIds(before), IdsOf(e));
    SubsetSize(others + OtherIds(before), others + OtherIds(events));
    if e.Ours? {
      NotYet(events);
      assert [e][0] == e;
    }
    hide Apply, IdsOf, GotOf, New;
  }

  lemma {:induction false} MixingRun(b: Bridge, m: Mix, others: set<Octet>, events: seq<Event>)
    requires Gathering(b, m, m.held.Keys, others) && Traffic(events, m.msgId, m.Count()) && EachOnce(events)
    requires |others + OtherIds(events)| < MAX_PENDING
    ensures forall i :: i in Got(events) ==> i < m.Count()
    ensures Mixing(Play(b, m.frame, m.msgId, m.max, events), m, OwnDeliveries(b, m.frame, m.msgId, m.max, events),
                   Got(events), others + OtherIds(events))
    decreases |events|
  {
    assert m.Valid();
    if events == [] {
      JoinSets(others, {}, {});
      MixingStarts(b, m, others);
    } else {
      hide Gathering, Apply, Mixing, Play, OwnDeliveries, Got, OtherIds, Traffic, EachOnce, IdsOf, New;
      RunStep(b, m, others, events);
      var before, e := events[..|events| - 1], events[|events| - 1];
      MixingRun(b, m, others, before);
      MixingStep(Play(b, m.frame, m.msgId, m.max, before), m, OwnDeliveries(b, m.frame, m.msgId, m.max, before),
                 Got(before), others + OtherIds(before), e);
    }
  }

  lemma MixingStarts(b: Bridge, m: Mix, others: set<Octet>)
    requires Gathering(b, m, m.held.Keys, others)
    ensures Mixing(b, m, [], {}, others)
  {
    assert m.held.Keys + {} == m.held.Keys;
  }

  lemma MixingEnds(b: Bridge, m: Mix, own: seq<seq<Octet>>, came: set<nat>, others: set<Octet>)
    requires Mixing(b, m, own, came, others) && Covers(came, m.Count())
    ensures own == [m.Payload()]
  {
    assert Covers(m.held.Keys + came, m.Count());
  }

  // ---------------------------------------------------------------- a list that does not fit

  /** The message's entry holds chunks that the frame cannot complete. */
  predicate Poisoned(b: Bridge, msgId: Octet, n: nat, others: set<Octet>) {
    Tidy(b.pending)
    && var p := Lookup(b.pending, msgId);
       p < |b.pending| && HasEntry(b.pending, b.pending[p], others)
       && b.pending[p].chunks != [] && DistinctIndices(b.pending[p].chunks) && !Fits(b.pending[p].chunks, n)
  }

  lemma StillUnfit(chunks: seq<Wire>, c: Wire, n: nat)
    requires chunks != [] && !Fits(chunks, n) && c[1] < n
    ensures !Fits(chunks + [c], n)
    ensures |chunks| < n ==> Alien(chunks + [c], n)
  {
    assert forall k :: 0 <= k < |chunks| ==> (chunks + [c])[k] == chunks[k];
  }

  /** The first chunk is of another total, or some index is past the end. */
  predicate Alien(chunks: seq<Wire>, n: nat) {
    chunks != [] && (chunks[0][2] != n || exists k :: 0 <= k < |chunks| && chunks[k][1] >= n)
  }

  lemma AlienFails(chunks: seq<Wire>, n: nat)
    requires Alien(chunks, n) && DistinctIndices(chunks) && |chunks| == n
    ensures Reassembled(chunks) == None
  {
    if chunks[0][2] == n {
      var k :| 0 <= k < |chunks| && chunks[k][1] >= n;
      IndexTooLarge(chunks, k);
    }
  }

  /** One of the frame's chunks only adds to the list, or has it thrown away. */
  lemma PoisonedOurs(b: Bridge, w: Mix, others: set<Octet>, i: nat)
    requires w.Valid() && w.Count() > 1 && i < w.Count() && Poisoned(b, w.msgId, w.Count(), others)
    ensures var b' := Notify(b, w.Own(i));
      b'.delivered == b.delivered && (Poisoned(b', w.msgId, w.Count(), others) || (Tidy(b'.pending) && Absent(b'.pending, w.msgId)))
  {
    OwnChunk(w, i);
    var c, n := w.Own(i), w.Count();
    var p := Lookup(b.pending, w.msgId);
    var chunks := b.pending[p].chunks;
    hide w.Own, w.Count, w.Valid, Reassembled, HasIndex, DistinctIndices, Lookup, Fits, Alien;
    if !HasIndex(chunks, c[1]) {
      StillUnfit(chunks, c, n);
      AppendDistinct(chunks, c);
      if |chunks| + 1 == n {
        AlienFails(chunks + [c], n);
        TidyWithout(b.pending, p);
        OthersAbsent(b.pending, p);
      } else {
        var entry := b.pending[p].(chunks := chunks + [c]);
        EntryFound(b.pending[p := entry], p, entry, others);
        LookupIs(b.pending[p := entry], p);
      }
    }
  }

  lemma PoisonedOther(b: Bridge, msgId: Octet, n: nat, others: set<Octet>, data: seq<Octet>)
    requires Poisoned(b, msgId, n, others) && |data| >= 3 && data[0] != msgId && |others + {data[0]}| < MAX_PENDING
    ensures Poisoned(Notify(b, data), msgId, n, others + {data[0]})
  {
    hide Lookup, Notify, HasEntry, DistinctIndices, Fits;
    NotifyTidy(b, data);
    var entry := b.pending[Lookup(b.pending, msgId)];
    EntrySurvives(b, entry, others, data);
    EntryLooksUp(Notify(b, data).pending, entry, others + {data[0]});
  }

  ghost predicate Spoilt(b: Bridge, w: Mix, came: set<nat>, others: set<Octet>) {
    w.Valid() && (Poisoned(b, w.msgId, w.Count(), others) || Leftover(b, w, came, others))
  }

  lemma SpoiltStep(b: Bridge, w: Mix, came: set<nat>, others: set<Octet>, e: Event)
    requires w.Valid() && w.Count() > 1 && w == Whole(w.frame, w.msgId, w.max) && Spoilt(b, w, came, others)
    requires Traffic([e], w.msgId, w.Count()) && |others + IdsOf(e)| < MAX_PENDING
    requires (e.Ours? ==> e.i !in came) && forall i :: i in came ==> i < w.Count()
    ensures [e][0] == e && (e.Ours? ==> e.i < w.Count())
    ensures var b' := Apply(b, w.frame, w.msgId, w.max, e);
      Spoilt(b', w, came + GotOf(e), others + IdsOf(e)) && (e.Ours? ==> b'.delivered == b.delivered)
  {
    assert [e][0] == e;
    if Leftover(b, w, came, others) {
      LeftoverStep(b, w, came, others, e);
    } else {
      assert others + {} == others;
      match e
      case Ours(i) =>
        PoisonedOurs(b, w, others, i);
        hide Notify, Poisoned, Leftover;
        var b' := Notify(b, w.Own(i));
        if !Poisoned(b', w.msgId, w.Count(), others) {
          LeftoverStarts(b', w, came + {i}, others);
        }
      case Other(data) =>
        if |data| >= 3 {
          PoisonedOther(b, w.msgId, w.Count(), others, data);
        } else {
          TooShort(b, data);
        }
    }
  }

  lemma {:induction false} SpoiltRun(b: Bridge, w: Mix, others: set<Octet>, events: seq<Event>)
    requires w.Valid() && w.Count() > 1 && w == Whole(w.frame, w.msgId, w.max) && Poisoned(b, w.msgId, w.Count(), others)
    requires Traffic(events, w.msgId, w.Count()) && EachOnce(events) && |others + OtherIds(events)| < MAX_PENDING
    ensures forall i :: i in Got(events) ==> i < w.Count()
    ensures Spoilt(Play(b, w.frame, w.msgId, w.max, events), w, Got(events), others + OtherIds(events))
    ensures OwnDeliveries(b, w.frame, w.msgId, w.max, events) == []
    decreases |events|
  {
    if events == [] {
      JoinSets(others, {}, {});
    } else {
      hide Poisoned, Leftover, Apply, Spoilt, Play, OwnDeliveries, Got, OtherIds, Traffic, EachOnce, IdsOf, w.Valid, w.Count;
      RunStep(b, w, others, events);
      var before, e := events[..|events| - 1], events[|events| - 1];
      SpoiltRun(b, w, others, before);
      SpoiltStep(Play(b, w.frame, w.msgId, w.max, before), w, Got(before), others + OtherIds(before), e);
    }
  }

  // ---------------------------------------------------------------- every case

  /** The ids of the entries younger than the message's own. */
  function Younger(pending: seq<Pending>, msgId: Octet): set<Octet> {
    set k | Lookup(pending, msgId) < k < |pending| :: pending[k].id
  }

  lemma YoungerAre(pending: seq<Pending>, msgId: Octet)
    requires Lookup(pending, msgId) < |pending|
    ensures HasEntry(pending, pending[Lookup(pending, msgId)], Younger(pending, msgId))
  {
    hide Lookup;
  }

  /** What a frame of two or more chunks arrives as. */
  function ArrivesAs(b: Bridge, frame: seq<Octet>, msgId: Octet, max: nat): seq<seq<Octet>>
    requires Sendable(frame, max) && Sound(b.pending)
  {
    var p := Lookup(b.pending, msgId);
    if p == |b.pending| then [frame]
    else if b.pending[p].chunks != [] && Fits(b.pending[p].chunks, C.NumChunks(|frame|, max)) then
      MixOfHolds(b.pending[p].chunks, frame, msgId, max);
      [MixOf(b.pending[p].chunks, frame, msgId, max).Payload()]
    else []
  }

  /** Every chunk of the frame comes once, in any order and among traffic of few enough other ids. */
  predicate ComesOnce(b: Bridge, frame: seq<Octet>, msgId: Octet, max: nat, events: seq<Event>)
    requires Sendable(frame, max)
  {
    var n := C.NumChunks(|frame|, max);
    n > 1 && Traffic(events, msgId, n) && EachOnce(events) && Covers(Got(events), n)
    && |Younger(b.pending, msgId) + OtherIds(events)| < MAX_PENDING
  }

  lemma FittingArrives(b: Bridge, m: Mix, others: set<Octet>, events: seq<Event>)
    requires Gathering(b, m, m.held.Keys, others) && Traffic(events, m.msgId, m.Count()) && EachOnce(events)
    requires Covers(Got(events), m.Count()) && |others + OtherIds(events)| < MAX_PENDING
    ensures OwnDeliveries(b, m.frame, m.msgId, m.max, events) == [m.Payload()]
  {
    assert m.Valid();
    hide Gathering, OwnDeliveries, Play, Traffic, EachOnce, Got, OtherIds, Mixing;
    MixingRun(b, m, others, events);
    MixingEnds(Play(b, m.frame, m.msgId, m.max, events), m, OwnDeliveries(b, m.frame, m.msgId, m.max, events), Got(events), others + OtherIds(events));
  }

  lemma EntryGathers(b: Bridge, frame: seq<Octet>, msgId: Octet, max: nat)
    requires Sendable(frame, max) && Tidy(b.pending) && Sound(b.pending) && Lookup(b.pending, msgId) < |b.pending|
    requires Fits(b.pending[Lookup(b.pending, msgId)].chunks, C.NumChunks(|frame|, max))
    ensures var m := MixOf(b.pending[Lookup(b.pending, msgId)].chunks, frame, msgId, max);
      Gathering(b, m, m.held.Keys, Younger(b.pending, msgId))
  {
    var p := Lookup(b.pending, msgId);
    assert SoundEntry(b.pending[p]);
    YoungerAre(b.pending, msgId);
    MixOfHolds(b.pending[p].chunks, frame, msgId, max);
    hide Lookup, HasEntry, HoldsExactly, Fits, HeldBy, Younger;
  }

  /**
   * What is delivered for the frame: the frame itself if nothing was held under its id; the frame
   * with the held chunks in place of its own if those have its total and are all below it; and
   * otherwise nothing.
   */
  lemma ArrivesExactly(b: Bridge, frame: seq<Octet>, msgId: Octet, max: nat, events: seq<Event>)
    requires Sendable(frame, max) && Tidy(b.pending) && Sound(b.pending) && ComesOnce(b, frame, msgId, max, events)
    ensures OwnDeliveries(b, frame, msgId, max, events) == ArrivesAs(b, frame, msgId, max)
  {
    var w := Whole(frame, msgId, max);
    var p := Lookup(b.pending, msgId);
    var others := Younger(b.pending, msgId);
    WholePayload(frame, msgId, max);
    if p == |b.pending| {
      NothingYet(b, frame, msgId, max, others);
      hide OwnDeliveries, Traffic, EachOnce, Younger, Got, OtherIds, Gathering;
      FittingArrives(b, w, others, events);
    } else {
      assert SoundEntry(b.pending[p]);
      var chunks := b.pending[p].chunks;
      if Fits(chunks, w.Count()) {
        EntryGathers(b, frame, msgId, max);
        hide OwnDeliveries, Traffic, EachOnce, Younger, Got, OtherIds, Gathering, HeldBy;
        FittingArrives(b, MixOf(chunks, frame, msgId, max), others, events);
      } else {
        YoungerAre(b.pending, msgId);
        hide OwnDeliveries, Traffic, EachOnce, Younger, Got, OtherIds, HasEntry, Leftover;
        SpoiltRun(b, w, others, events);
      }
    }
  }

  /** A frame of one chunk is handed over whatever the table holds. */
  lemma SingleChunkArrives(b: Bridge, frame: seq<Octet>, msgId: Octet, max: nat)
    requires Sendable(frame, max) && C.NumChunks(|frame|, max) == 1
    ensures Notify(b, WireChunk(frame, msgId, max, 0)) == b.(delivered := b.delivered + [frame])
  {
    var w := Whole(frame, msgId, max);
    OwnChunk(w, 0);
    SingleChunk(w);
    hide WireChunk, C.NumChunks;
  }

  // ---------------------------------------------------------------- leftovers of one earlier frame

  /** The list holds some chunks of this frame, not all. */
  predicate PartOf(chunks: seq<Wire>, f: seq<Octet>, msgId: Octet, max: nat)
    requires Sendable(f, max)
  {
    var w := Whole(f, msgId, max);
    w.Valid() && chunks != [] && |chunks| < w.Count() && Holds(chunks, w)
  }

  /** That is what an incomplete frame leaves behind. */
  lemma IncompleteLeaves(b: Bridge, f: seq<Octet>, msgId: Octet, max: nat, events: seq<Event>)
    requires Sendable(f, max) && Tidy(b.pending) && Absent(b.pending, msgId) && Traffic(events, msgId, C.NumChunks(|f|, max))
    requires |OtherIds(events)| < MAX_PENDING && Got(events) != {} && !Covers(Got(events), C.NumChunks(|f|, max))
    ensures var b' := Play(b, f, msgId, max, events);
      var p := Lookup(b'.pending, msgId);
      Tidy(b'.pending) && p < |b'.pending| && PartOf(b'.pending[p].chunks, f, msgId, max)
  {
    var w := Whole(f, msgId, max);
    WholePayload(f, msgId, max);
    NothingYet(b, f, msgId, max, {});
    assert {} + OtherIds(events) == OtherIds(events) && {} + Got(events) == Got(events);
    WhileIncomplete(b, w, {}, {}, events);
    hide Play, Lookup, HasEntry, Traffic, OtherIds;
    var b' := Play(b, f, msgId, max, events);
    CoversBySize(Got(events), w.Count());
    HeldSize(b'.pending[Lookup(b'.pending, msgId)].chunks, w, Got(events));
  }

  /** The held chunks of f say the same as the frame's own. */
  predicate SameSlices(chunks: seq<Wire>, f: seq<Octet>, frame: seq<Octet>, msgId: Octet, max: nat)
    requires Sendable(f, max) && Sendable(frame, max) && C.NumChunks(|f|, max) == C.NumChunks(|frame|, max) && PartOf(chunks, f, msgId, max)
  {
    forall k :: 0 <= k < |chunks| ==>
      Whole(f, msgId, max).Own(chunks[k][1])[3..] == Whole(frame, msgId, max).Own(chunks[k][1])[3..]
  }

  lemma ChunkLength(w: Mix, i: nat)
    requires w.Valid() && w.held == map[] && i + 1 < w.Count()
    ensures |w.Own(i)[3..]| == w.max
  {
    PartLength(w, i);
  }

  lemma StaleMix(chunks: seq<Wire>, f: seq<Octet>, frame: seq<Octet>, msgId: Octet, max: nat)
    requires Sendable(f, max) && Sendable(frame, max) && PartOf(chunks, f, msgId, max)
    requires C.NumChunks(|f|, max) == C.NumChunks(|frame|, max)
    ensures Fits(chunks, C.NumChunks(|frame|, max)) && MixOf(chunks, frame, msgId, max).Valid()
    ensures FullParts(MixOf(chunks, frame, msgId, max))
    ensures MixOf(chunks, frame, msgId, max).Agrees() <==> SameSlices(chunks, f, frame, msgId, max)
  {
    hide C.NumChunks, WireChunk, HeldBy, HasIndex;
    MixOfHolds(chunks, frame, msgId, max);
    var m, w := MixOf(chunks, frame, msgId, max), Whole(f, msgId, max);
    forall k | 0 <= k < |chunks|
      ensures (chunks[k][1] as nat) in m.held && m.held[chunks[k][1]] == w.Own(chunks[k][1])[3..]
    {
      HeldByValue(chunks, k);
    }
    forall i | i in m.held
      ensures exists k :: 0 <= k < |chunks| && chunks[k][1] == i
      ensures i + 1 < m.Count() ==> |m.held[i]| == max
    {
      HeldByIndex(chunks, i);
      var k := IndexAt(chunks, i);
      if i + 1 < m.Count() {
        ChunkLength(w, i);
      }
    }
  }

  lemma IndexAt(chunks: seq<Wire>, i: nat) returns (k: nat)
    requires i < 256 && HasIndex(chunks, i)
    ensures k < |chunks| && chunks[k][1] == i
  {
    k :| 0 <= k < |chunks| && chunks[k][1] == i;
  }

  /**
   * Some chunks of an earlier frame f were left under the id. A frame of the same total arrives
   * once, with f's slices where those were held and its own elsewhere: intact if and only if the
   * two frames agree on them. A frame of another total does not arrive at all.
   */
  lemma StaleFrameMixes(b: Bridge, f: seq<Octet>, frame: seq<Octet>, msgId: Octet, max: nat, events: seq<Event>)
    requires Sendable(f, max) && Sendable(frame, max) && Tidy(b.pending) && Sound(b.pending)
    requires ComesOnce(b, frame, msgId, max, events)
    requires var p := Lookup(b.pending, msgId); p < |b.pending| && PartOf(b.pending[p].chunks, f, msgId, max)
    ensures var chunks := b.pending[Lookup(b.pending, msgId)].chunks;
      var own := OwnDeliveries(b, frame, msgId, max, events);
      && (C.NumChunks(|f|, max) != C.NumChunks(|frame|, max) ==> own == [])
      && (C.NumChunks(|f|, max) == C.NumChunks(|frame|, max) ==>
            (MixOf(chunks, frame, msgId, max).Valid() && own == [MixOf(chunks, frame, msgId, max).Payload()]
             && (own == [frame] <==> SameSlices(chunks, f, frame, msgId, max))))
  {
    ArrivesExactly(b, frame, msgId, max, events);
    var chunks := b.pending[Lookup(b.pending, msgId)].chunks;
    hide C.NumChunks, OwnDeliveries, ComesOnce, Lookup, WireChunk, HeldBy, SameSlices;
    if C.NumChunks(|f|, max) == C.NumChunks(|frame|, max) {
      StaleMix(chunks, f, frame, msgId, max);
      IntactExactly(MixOf(chunks, frame, msgId, max));
    }
  }
}
