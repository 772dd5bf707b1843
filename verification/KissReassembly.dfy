/**
 * What `_reassemble_kiss_frame` (app/desktop_test/kiss_bridge.py:265-291) makes of a list of
 * chunks some of which may be left over from earlier frames.
 */
module KissReassembly {
  import opened Bytes
  import opened KissBridge
  import C = Chunking

  // ---------------------------------------------------------------- sorting

  predicate Increasing(s: seq<Wire>) {
    forall i, j :: 0 <= i < j < |s| ==> s[i][1] < s[j][1]
  }

  lemma {:induction false} InsertIncreasing(s: seq<Wire>, c: Wire)
    requires Increasing(s) && forall k :: 0 <= k < |s| ==> s[k][1] != c[1]
    ensures var t := Insert(s, c);
      |t| == |s| + 1 && Increasing(t) && forall k :: 0 <= k < |t| ==> t[k] == c || t[k] in s
    decreases |s|
  {
    if s != [] && s[|s| - 1][1] > c[1] {
      var n := |s| - 1;
      InsertIncreasing(s[..n], c);
      var t := Insert(s[..n], c);
      forall k | 0 <= k < |t| ensures t[k][1] < s[n][1] && (t[k] == c || t[k] in s) {
        assert t[k] == c || t[k] in s[..n];
      }
    }
  }

  predicate DistinctIndices(chunks: seq<Wire>) {
    forall i, j :: 0 <= i < j < |chunks| ==> chunks[i][1] != chunks[j][1]
  }

  lemma {:induction false} SortedIncreasing(chunks: seq<Wire>)
    requires DistinctIndices(chunks)
    ensures var t := Sorted(chunks);
      |t| == |chunks| && Increasing(t) && forall k :: 0 <= k < |t| ==> t[k] in chunks
    decreases |chunks|
  {
    if chunks != [] {
      var n := |chunks| - 1;
      SortedIncreasing(chunks[..n]);
      var s := Sorted(chunks[..n]);
      forall k | 0 <= k < |s| ensures s[k][1] != chunks[n][1] && s[k] in chunks {
        assert s[k] in chunks[..n];
      }
      InsertIncreasing(s, chunks[n]);
    }
  }

  /** Sorting loses nothing. */
  lemma {:induction false} InsertKeeps(s: seq<Wire>, c: Wire, x: Wire)
    requires x in s || x == c
    ensures x in Insert(s, c)
    decreases |s|
  {
    if !(s == [] || s[|s| - 1][1] <= c[1]) {
      if x in s[..|s| - 1] || x == c {
        InsertKeeps(s[..|s| - 1], c, x);
      }
    }
  }

  lemma {:induction false} SortedKeeps(chunks: seq<Wire>, x: Wire)
    requires x in chunks
    ensures x in Sorted(chunks)
    decreases |chunks|
  {
    var n := |chunks| - 1;
    if x in chunks[..n] {
      SortedKeeps(chunks[..n], x);
    }
    InsertKeeps(Sorted(chunks[..n]), chunks[n], x);
  }

  lemma {:induction false} AtLeast(s: seq<Wire>, k: nat)
    requires Increasing(s) && k < |s|
    ensures k <= s[k][1]
  {
    if k > 0 {
      AtLeast(s, k - 1);
    }
  }

  lemma {:induction false} AtMost(s: seq<Wire>, k: nat)
    requires Increasing(s) && k < |s| && forall j :: 0 <= j < |s| ==> s[j][1] < |s|
    ensures s[k][1] <= k
    decreases |s| - k
  {
    if k + 1 < |s| {
      AtMost(s, k + 1);
    }
  }

  /** n increasing indices below n are 0..n-1. */
  lemma IncreasingIsInOrder(s: seq<Wire>, k: nat)
    requires Increasing(s) && k < |s| && forall j :: 0 <= j < |s| ==> s[j][1] < |s|
    ensures s[k][1] == k
  {
    AtLeast(s, k);
    AtMost(s, k);
  }

  /** A chunk whose index is past the end spoils the whole list. */
  lemma IndexTooLarge(chunks: seq<Wire>, k: nat)
    requires k < |chunks| && chunks[k][1] >= |chunks| && DistinctIndices(chunks)
    ensures Reassembled(chunks) == None
  {
    SortedIncreasing(chunks);
    SortedKeeps(chunks, chunks[k]);
    hide Sorted, Payloads;
    var j :| 0 <= j < |Sorted(chunks)| && Sorted(chunks)[j] == chunks[k];
    assert Sorted(chunks)[j][1] != j;
  }

  // ---------------------------------------------------------------- mixtures

  predicate Sendable(frame: seq<Octet>, max: nat) {
    max > 0 && 0 < C.NumChunks(|frame|, max) <= 255
  }

  /** A frame of which some chunks have been displaced by payloads that were there before. */
  datatype Mix = Mix(held: map<nat, seq<Octet>>, frame: seq<Octet>, msgId: Octet, max: nat) {
    predicate Valid() {
      Sendable(frame, max) && forall i :: i in held ==> i < C.NumChunks(|frame|, max)
    }

    function Count(): (n: nat)
      requires Valid()
      ensures 0 < n <= 255
    {
      C.NumChunks(|frame|, max)
    }

    /** The frame's own chunk i. */
    function Own(i: nat): Wire
      requires Valid() && i < Count()
    {
      WireChunk(frame, msgId, max, i)
    }

    function Part(i: nat): seq<Octet>
      requires Valid() && i < Count()
    {
      if i in held then held[i] else Own(i)[3..]
    }

    /** The first n parts, joined. */
    function Joined(n: nat): seq<Octet>
      requires Valid() && n <= Count()
      decreases n
    {
      if n == 0 then [] else Joined(n - 1) + Part(n - 1)
    }

    /** What is delivered in the frame's place. */
    function Payload(): seq<Octet>
      requires Valid()
    {
      Joined(Count())
    }

    /** Every displaced chunk carried the same bytes. */
    predicate Agrees()
      requires Valid()
    {
      forall i :: i in held ==> held[i] == Own(i)[3..]
    }
  }

  function Whole(frame: seq<Octet>, msgId: Octet, max: nat): Mix {
    Mix(map[], frame, msgId, max)
  }

  lemma OwnChunk(m: Mix, i: nat)
    requires m.Valid() && i < m.Count()
    ensures m.Own(i)[0] == m.msgId && m.Own(i)[1] == i && m.Own(i)[2] == m.Count()
    ensures i * m.max <= C.Min(i * m.max + m.max, |m.frame|)
    ensures m.Own(i)[3..] == m.frame[i * m.max..C.Min(i * m.max + m.max, |m.frame|)]
  {
    WireChunkIs(m.frame, m.msgId, m.max, i);
    hide C.NumChunks, WireChunk;
  }

  /** A list of the mixture's chunks, each at most once, the first of them carrying the frame's total. */
  predicate Holds(chunks: seq<Wire>, m: Mix)
    requires m.Valid()
  {
    DistinctIndices(chunks) && (chunks != [] ==> chunks[0][2] == m.Count())
    && forall k :: 0 <= k < |chunks| ==> chunks[k][1] < m.Count() && chunks[k][3..] == m.Part(chunks[k][1])
  }

  lemma {:induction false} JoinedIs(s: seq<Wire>, m: Mix)
    requires m.Valid() && |s| <= m.Count() && forall k :: 0 <= k < |s| ==> s[k][3..] == m.Part(k)
    ensures Payloads(s) == m.Joined(|s|)
    decreases |s|
  {
    if s != [] {
      var n := |s| - 1;
      assert s[..n] + [s[n]] == s;
      JoinedIs(s[..n], m);
    }
  }

  /** All chunks of a mixture, in whatever order they came, reassemble to it. */
  lemma ReassembledMix(chunks: seq<Wire>, m: Mix)
    requires m.Valid() && Holds(chunks, m) && |chunks| == m.Count()
    ensures Reassembled(chunks) == Some(m.Payload())
  {
    SortedIncreasing(chunks);
    hide Sorted, Payloads, m.Part, m.Joined;
    var s := Sorted(chunks);
    forall j | 0 <= j < |s| ensures s[j][1] < |s| && s[j][3..] == m.Part(s[j][1]) {
      assert s[j] in chunks;
    }
    forall k | 0 <= k < |s| ensures s[k][1] == k && s[k][3..] == m.Part(k) {
      IncreasingIsInOrder(s, k);
    }
    JoinedIs(s, m);
  }

  // ---------------------------------------------------------------- when a mixture is the frame

  function Prefix(m: Mix, n: nat): seq<Octet> {
    m.frame[..C.Min(n * m.max, |m.frame|)]
  }

  lemma PrefixGrows(m: Mix, n: nat)
    requires m.Valid() && n < m.Count()
    ensures Prefix(m, n + 1) == Prefix(m, n) + m.Own(n)[3..]
    ensures |Prefix(m, n)| == n * m.max && Prefix(m, 0) == []
  {
    OwnChunk(m, n);
    C.SliceBounds(|m.frame|, m.max, n);
    C.Monotone(n, n, m.max);
    C.JoinPrefix(m.frame, n * m.max, C.Min(n * m.max + m.max, |m.frame|));
  }

  lemma WholePrefix(m: Mix)
    requires m.Valid()
    ensures Prefix(m, m.Count()) == m.frame
  {
    C.SliceBounds(|m.frame|, m.max, m.Count() - 1);
    assert m.frame[..|m.frame|] == m.frame;
  }

  lemma SplitAt(a: seq<Octet>, b: seq<Octet>, c: seq<Octet>, d: seq<Octet>)
    requires |a| == |c| && a + b == c + d
    ensures a == c && b == d
  {
    assert a == (a + b)[..|a|] && c == (c + d)[..|c|];
    assert b == (a + b)[|a|..] && d == (c + d)[|c|..];
  }

  lemma {:induction false} AgreeingJoin(m: Mix, n: nat)
    requires m.Valid() && n <= m.Count() && m.Agrees()
    ensures m.Joined(n) == Prefix(m, n)
    decreases n
  {
    if n > 0 {
      AgreeingJoin(m, n - 1);
      PrefixGrows(m, n - 1);
    } else {
      PrefixGrows(m, 0);
    }
  }

  /** Every held payload but the last chunk's fills a chunk, as in any frame of the same total. */
  predicate FullParts(m: Mix)
    requires m.Valid()
  {
    forall i :: i in m.held && i + 1 < m.Count() ==> |m.held[i]| == m.max
  }

  lemma PartLength(m: Mix, i: nat)
    requires m.Valid() && FullParts(m) && i + 1 < m.Count()
    ensures |m.Part(i)| == m.max
  {
    OwnChunk(m, i);
    C.SliceBounds(|m.frame|, m.max, i);
    C.Monotone(i, i, m.max);
  }

  lemma OneMore(k: nat, max: nat)
    ensures (k + 1) * max == k * max + max && 0 * max == 0
  {}

  lemma {:induction false} JoinedLength(m: Mix, n: nat)
    requires m.Valid() && FullParts(m) && n < m.Count()
    ensures |m.Joined(n)| == n * m.max
    decreases n
  {
    OneMore(0, m.max);
    if n > 0 {
      JoinedLength(m, n - 1);
      PartLength(m, n - 1);
      hide FullParts, m.Part, m.Valid, m.Count;
      OneMore(n - 1, m.max);
    }
  }

  lemma JoinedGrows(m: Mix, n: nat)
    requires m.Valid() && n < m.Count()
    ensures m.Joined(n + 1) == m.Joined(n) + m.Part(n)
  {}

  lemma EqualLast(m: Mix, n: nat)
    requires m.Valid() && FullParts(m) && n < m.Count() && m.Joined(n + 1) == Prefix(m, n + 1)
    ensures m.Joined(n) == Prefix(m, n) && m.Part(n) == m.Own(n)[3..]
  {
    JoinedLength(m, n);
    JoinedGrows(m, n);
    PrefixGrows(m, n);
    hide *;
    SplitAt(m.Joined(n), m.Part(n), Prefix(m, n), m.Own(n)[3..]);
  }

  lemma {:induction false} EqualParts(m: Mix, n: nat, i: nat)
    requires m.Valid() && FullParts(m) && i < n <= m.Count() && m.Joined(n) == Prefix(m, n)
    ensures m.Part(i) == m.Own(i)[3..]
    decreases n
  {
    hide *;
    EqualLast(m, n - 1);
    if i < n - 1 {
      EqualParts(m, n - 1, i);
    }
  }

  /** The frame arrives intact exactly when what was held agrees with it. */
  lemma IntactExactly(m: Mix)
    requires m.Valid() && FullParts(m)
    ensures m.Payload() == m.frame <==> m.Agrees()
  {
    WholePrefix(m);
    if m.Agrees() {
      AgreeingJoin(m, m.Count());
    }
    if m.Payload() == m.frame {
      forall i | i in m.held ensures m.held[i] == m.Own(i)[3..] {
        EqualParts(m, m.Count(), i);
      }
    }
  }

  lemma WholePayload(frame: seq<Octet>, msgId: Octet, max: nat)
    requires Sendable(frame, max)
    ensures Whole(frame, msgId, max).Valid() && Whole(frame, msgId, max).Payload() == frame
  {
    IntactExactly(Whole(frame, msgId, max));
  }

  /** All of a frame's chunks, in whatever order they came, reassemble to the frame. */
  lemma ReassembledFrame(chunks: seq<Wire>, frame: seq<Octet>, msgId: Octet, max: nat)
    requires Sendable(frame, max) && |chunks| == C.NumChunks(|frame|, max)
    requires Holds(chunks, Whole(frame, msgId, max))
    ensures Reassembled(chunks) == Some(frame)
  {
    WholePayload(frame, msgId, max);
    ReassembledMix(chunks, Whole(frame, msgId, max));
  }
}
