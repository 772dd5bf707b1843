/**
 * The AX.25 UI-frame codec: firmware/components/ax25/Ax25.cpp. The six characters of a
 * callsign are the first six bytes of its C array; the seventh is only ever a terminator.
 */
module Ax25 {
  import opened Bytes
  import Crc

  const MAX_ADDRESSES := 10
  const MAX_INFO := 256
  const MAX_ENCODED := 330
  const SPACE: Byte := 0x20

  datatype Address = Address(callsign: seq<Byte>, ssid: Byte, repeated: bool) {
    predicate Valid() {
      |callsign| == 6
    }
  }

  datatype Frame = Frame(addr: seq<Address>, control: Byte, pid: Byte, info: seq<Byte>) {
    predicate Valid() {
      AllValid(addr)
    }

    /** What `encode` accepts. */
    predicate Encodable() {
      2 <= |addr| <= MAX_ADDRESSES && |info| <= MAX_INFO
    }
  }

  /** The C string: the characters before the first NUL. */
  function UpToNul(s: seq<Byte>): seq<Byte> {
    if s == [] || s[0] == 0 then [] else [s[0]] + UpToNul(s[1..])
  }

  /** `toupper` in the C locale. */
  function ToUpper(c: Byte): Byte {
    if 0x61 <= c <= 0x7A then c - 0x20 else c
  }

  function EncodeChar(c: Byte): Byte {
    (if c != 0 then ToUpper(c) else SPACE) << 1
  }

  function DecodeChar(b: Byte): Byte {
    b >> 1
  }

  function EncodeSsid(ssid: Byte, mark: bool, isLast: bool): Byte {
    (if mark then 0x80 else 0x00) | 0x60 | ((ssid & 0x0F) << 1) | (if isLast then 0x01 else 0x00)
  }

  function DecodeSsid(b: Byte): Byte {
    (b >> 1) & 0x0F
  }

  predicate MarkBit(b: Byte) {
    b & 0x80 != 0
  }

  predicate ExtensionBit(b: Byte) {
    b & 0x01 != 0
  }

  function Chars(callsign: seq<Byte>): (s: seq<Byte>)
    ensures |s| == |callsign|
  {
    seq(|callsign|, i requires 0 <= i < |callsign| => EncodeChar(callsign[i]))
  }

  function AddressBytes(a: Address, isDestination: bool, isLast: bool): (s: seq<Byte>)
    requires a.Valid()
    ensures |s| == 7
  {
    Chars(a.callsign) + [EncodeSsid(a.ssid, isDestination || a.repeated, isLast)]
  }

  predicate AllValid(addr: seq<Address>) {
    forall k :: 0 <= k < |addr| ==> addr[k].Valid()
  }

  /** The first n entries of the address field. */
  function AddressField(addr: seq<Address>, n: nat): (s: seq<Byte>)
    requires n <= |addr| && AllValid(addr)
    ensures |s| == 7 * n
  {
    if n == 0 then [] else AddressField(addr, n - 1) + AddressBytes(addr[n - 1], n - 1 == 0, n == |addr|)
  }

  /** Everything before the check sequence. */
  function Payload(f: Frame): (s: seq<Byte>)
    requires f.Valid()
    ensures |s| == 7 * |f.addr| + 2 + |f.info|
  {
    AddressField(f.addr, |f.addr|) + [f.control, f.pid] + f.info
  }

  function Encoded(f: Frame): (s: seq<Byte>)
    requires f.Valid()
    ensures |s| == 7 * |f.addr| + 4 + |f.info|
    ensures f.Encodable() ==> 18 <= |s| <= MAX_ENCODED
  {
    Payload(f) + Crc.FcsBytes(Payload(f))
  }

  // ---------------------------------------------------------------- encode

  /** The buffer holds `written` at the front and its old contents after it. */
  ghost predicate Holds(out: array<Byte>, written: seq<Byte>, before: seq<Byte>)
    reads out
  {
    |written| <= out.Length == |before|
    && (forall k :: 0 <= k < |written| ==> out[k] == written[k])
    && (forall k :: |written| <= k < out.Length ==> out[k] == before[k])
  }

  lemma HoldsMeans(out: array<Byte>, written: seq<Byte>, before: seq<Byte>)
    requires Holds(out, written, before)
    ensures out[..] == written + before[|written|..] && out[..|written|] == written
  {}

  /** `memcpy(out + pos, s, |s|)`, after what is already written. */
  method Append(out: array<Byte>, pos: nat, s: seq<Byte>, ghost written: seq<Byte>, ghost before: seq<Byte>)
    requires |written| == pos && pos + |s| <= out.Length && Holds(out, written, before)
    modifies out
    ensures Holds(out, written + s, before)
  {
    for i := 0 to |s|
      invariant Holds(out, written + s[..i], before)
    {
      out[pos + i] := s[i];
    }
    assert s[..|s|] == s;
  }

  method EncodeAddress(out: array<Byte>, pos: nat, a: Address, isDestination: bool, isLast: bool, ghost written: seq<Byte>, ghost before: seq<Byte>)
    requires a.Valid()
    requires |written| == pos && pos + 7 <= out.Length && Holds(out, written, before)
    modifies out
    ensures Holds(out, written + AddressBytes(a, isDestination, isLast), before)
  {
    ghost var chars := Chars(a.callsign);
    hide EncodeChar, EncodeSsid;
    for i := 0 to 6
      invariant Holds(out, written + chars[..i], before)
    {
      out[pos + i] := EncodeChar(a.callsign[i]);
    }
    assert chars[..6] == chars;
    out[pos + 6] := EncodeSsid(a.ssid, isDestination || a.repeated, isLast);
  }

  lemma FieldGrows(addr: seq<Address>, i: nat)
    requires i < |addr| && AllValid(addr)
    ensures addr[i].Valid() && |AddressField(addr, i)| == 7 * i
    ensures AddressField(addr, i + 1) == AddressField(addr, i) + AddressBytes(addr[i], i == 0, i == |addr| - 1)
  {}

  lemma FieldEmpty(addr: seq<Address>)
    requires AllValid(addr)
    ensures AddressField(addr, 0) == []
  {}

  method EncodeAddresses(addr: seq<Address>, out: array<Byte>) returns (pos: nat)
    requires AllValid(addr) && 7 * |addr| <= out.Length
    modifies out
    ensures pos == 7 * |addr| && Holds(out, AddressField(addr, |addr|), old(out[..]))
  {
    ghost var before := out[..];
    FieldEmpty(addr);
    assert Holds(out, AddressField(addr, 0), before);
    hide AddressBytes, AddressField, Holds, AllValid;
    pos := 0;
    for i := 0 to |addr|
      invariant pos == 7 * i && Holds(out, AddressField(addr, i), before)
    {
      FieldGrows(addr, i);
      EncodeAddress(out, pos, addr[i], i == 0, i == |addr| - 1, AddressField(addr, i), before);
      pos := pos + 7;
    }
  }

  /** Writes the encoding at the front of the buffer, or refuses and leaves the buffer alone. */
  method Encode(frame: Frame, out: array<Byte>, outMax: nat) returns (written: nat)
    requires frame.Valid() && outMax <= out.Length
    modifies out
    ensures frame.Encodable() && |Encoded(frame)| <= outMax ==>
      written == |Encoded(frame)| && out[..] == Encoded(frame) + old(out[written..])
    ensures !(frame.Encodable() && |Encoded(frame)| <= outMax) ==> written == 0 && out[..] == old(out[..])
  {
    if |frame.addr| < 2 || |frame.addr| > MAX_ADDRESSES {
      return 0;
    }
    if |frame.info| > MAX_INFO {
      return 0;
    }
    var needed := |frame.addr| * 7 + 2 + |frame.info| + 2;
    if needed > outMax {
      return 0;
    }
    hide AddressField, Crc.FcsBytes, Crc.Fcs, Holds;
    ghost var before := out[..];
    ghost var field, payload := AddressField(frame.addr, |frame.addr|), Payload(frame);
    var pos := EncodeAddresses(frame.addr, out);
    Append(out, pos, [frame.control, frame.pid], field, before);
    pos := pos + 2;
    Append(out, pos, frame.info, field + [frame.control, frame.pid], before);
    pos := pos + |frame.info|;
    HoldsMeans(out, payload, before);
    var checksum := Crc.ComputeFcs(out[..pos]);
    FcsBytesAre(payload);
    Append(out, pos, [Crc.LowByteOf(checksum), Crc.HighByteOf(checksum)], payload, before);
    written := pos + 2;
    HoldsMeans(out, payload + Crc.FcsBytes(payload), before);
  }

  lemma EncodedIsDeliverable(f: Frame)
    requires f.Valid() && f.Encodable()
    ensures 18 <= |Encoded(f)| <= MAX_ENCODED && Crc.FcsValid(Encoded(f))
  {
    hide Crc.FcsValid, Payload;
    Crc.AppendedFcsIsValid(Payload(f));
  }

  lemma FcsBytesAre(data: seq<Byte>)
    ensures Crc.FcsBytes(data) == [Crc.LowByteOf(Crc.Fcs(data)), Crc.HighByteOf(Crc.Fcs(data))]
  {}

  // ---------------------------------------------------------------- decode

  /** The length of s without its trailing spaces. */
  function TrimmedLength(s: seq<Byte>): (n: nat)
    ensures n <= |s|
    ensures forall i :: n <= i < |s| ==> s[i] == SPACE
    ensures n > 0 ==> s[n - 1] != SPACE
  {
    if s == [] then 0 else if s[|s| - 1] != SPACE then |s| else TrimmedLength(s[..|s| - 1])
  }

  lemma {:induction false} TrimmedUnique(s: seq<Byte>, n: nat)
    requires n <= |s|
    requires forall i :: n <= i < |s| ==> s[i] == SPACE
    requires n > 0 ==> s[n - 1] != SPACE
    ensures TrimmedLength(s) == n
  {
    if s != [] && s[|s| - 1] == SPACE {
      TrimmedUnique(s[..|s| - 1], n);
    }
  }

  /** A NUL is put after the last character that is not a space. */
  function Terminated(s: seq<Byte>): (t: seq<Byte>)
    ensures |t| == |s|
  {
    if TrimmedLength(s) < |s| then s[TrimmedLength(s) := 0] else s
  }

  function DecodedChars(s: seq<Byte>): (t: seq<Byte>)
    ensures |t| == |s|
  {
    seq(|s|, i requires 0 <= i < |s| => DecodeChar(s[i]))
  }

  function DecodedAddress(b: seq<Byte>): (a: Address)
    requires |b| == 7
    ensures a.Valid()
  {
    Address(Terminated(DecodedChars(b[..6])), DecodeSsid(b[6]), MarkBit(b[6]))
  }

  /** The address entries from pos on, where they end, and whether the last one was marked as last. */
  function Parsed(p: seq<Byte>, pos: nat, count: nat): (r: (seq<Address>, nat, bool))
    requires pos <= |p|
    ensures pos <= r.1 <= |p|
    ensures AllValid(r.0)
    decreases |p| - pos
  {
    if pos + 7 <= |p| && count < MAX_ADDRESSES then
      var a := DecodedAddress(p[pos..pos + 7]);
      if ExtensionBit(p[pos + 6]) then ([a], pos + 7, true)
      else var rest := Parsed(p, pos + 7, count + 1); ([a] + rest.0, rest.1, rest.2)
    else ([], pos, false)
  }

  function Decoded(data: seq<Byte>): (r: Option<Frame>)
    ensures r.Some? ==> |data| >= 18 && Crc.FcsValid(data) && r.value.Valid() && r.value.Encodable()
  {
    if |data| < 18 || !Crc.FcsValid(data) then None
    else
      var p := data[..|data| - 2];
      ParsedCount(p, 0, 0);
      Body(p, Parsed(p, 0, 0))
  }

  lemma {:induction false} ParsedCount(p: seq<Byte>, pos: nat, count: nat)
    requires pos <= |p| && count <= MAX_ADDRESSES
    ensures count + |Parsed(p, pos, count).0| <= MAX_ADDRESSES
    decreases |p| - pos
  {
    hide DecodedAddress, ExtensionBit;
    if pos + 7 <= |p| && count < MAX_ADDRESSES && !ExtensionBit(p[pos + 6]) {
      ParsedCount(p, pos + 7, count + 1);
    }
  }

  method DecodeAddress(b: seq<Byte>) returns (a: Address, isLast: bool)
    requires |b| == 7
    ensures a == DecodedAddress(b) && isLast == ExtensionBit(b[6])
  {
    hide DecodeChar, DecodeSsid, MarkBit, ExtensionBit;
    ghost var chars := DecodedChars(b[..6]);
    var callsign: seq<Byte> := [];
    var lastNonSpace := -1;
    for i := 0 to 6
      invariant callsign == chars[..i] && -1 <= lastNonSpace < i
      invariant forall k :: lastNonSpace < k < i ==> chars[k] == SPACE
      invariant lastNonSpace >= 0 ==> chars[lastNonSpace] != SPACE
    {
      var c := DecodeChar(b[i]);
      assert chars[i] == c && chars[..i + 1] == chars[..i] + [c];
      callsign := callsign + [c];
      if c != SPACE {
        lastNonSpace := i;
      }
    }
    assert callsign == chars;
    TrimmedUnique(chars, lastNonSpace + 1);
    if lastNonSpace + 1 < 6 {
      callsign := callsign[lastNonSpace + 1 := 0];
    }
    assert callsign == Terminated(chars);
    hide Terminated, DecodedChars;
    a := Address(callsign, DecodeSsid(b[6]), MarkBit(b[6]));
    isLast := ExtensionBit(b[6]);
  }

  /** The addresses read so far and the position, before the rest of the field is parsed. */
  predicate ParsedSoFar(p: seq<Byte>, addr: seq<Address>, pos: nat, lastAddr: bool) {
    pos <= |p| && |addr| <= MAX_ADDRESSES
    && if lastAddr then Parsed(p, 0, 0) == (addr, pos, true)
       else var rest := Parsed(p, pos, |addr|); Parsed(p, 0, 0) == (addr + rest.0, rest.1, rest.2)
  }

  lemma ParsedUnfold(p: seq<Byte>, pos: nat, count: nat)
    requires pos <= |p| && count <= MAX_ADDRESSES
    ensures Parsed(p, pos, count) ==
      if pos + 7 <= |p| && count < MAX_ADDRESSES then
        var a := DecodedAddress(p[pos..pos + 7]);
        if ExtensionBit(p[pos + 6]) then ([a], pos + 7, true)
        else var rest := Parsed(p, pos + 7, count + 1); ([a] + rest.0, rest.1, rest.2)
      else ([], pos, false)
  {
    hide DecodedAddress, ExtensionBit;
  }

  lemma Join(a: seq<Address>, b: seq<Address>, c: seq<Address>)
    ensures a + (b + c) == (a + b) + c && a + [] == a
  {}

  lemma ParsedEnd(p: seq<Byte>, addr: seq<Address>, pos: nat)
    requires ParsedSoFar(p, addr, pos, false) && !(pos + 7 <= |p| && |addr| < MAX_ADDRESSES)
    ensures Parsed(p, 0, 0) == (addr, pos, false)
  {
    hide DecodedAddress, ExtensionBit, Parsed, AllValid;
    ParsedUnfold(p, pos, |addr|);
    Join(addr, [], []);
  }

  lemma ParsedStep(p: seq<Byte>, addr: seq<Address>, pos: nat)
    requires ParsedSoFar(p, addr, pos, false) && pos + 7 <= |p| && |addr| < MAX_ADDRESSES
    ensures ParsedSoFar(p, addr + [DecodedAddress(p[pos..pos + 7])], pos + 7, ExtensionBit(p[pos + 6]))
  {
    hide DecodedAddress, ExtensionBit, Parsed, AllValid;
    ParsedUnfold(p, pos, |addr|);
    if !ExtensionBit(p[pos + 6]) {
      Join(addr, [DecodedAddress(p[pos..pos + 7])], Parsed(p, pos + 7, |addr| + 1).0);
    }
  }

  lemma ParsedStart(p: seq<Byte>)
    ensures ParsedSoFar(p, [], 0, false)
  {
    var rest := Parsed(p, 0, 0);
    assert [] + rest.0 == rest.0;
  }

  /** The address loop of `decode`, over the payload. */
  method ParseAddresses(p: seq<Byte>) returns (addr: seq<Address>, pos: nat, lastAddr: bool)
    ensures (addr, pos, lastAddr) == Parsed(p, 0, 0)
  {
    ParsedStart(p);
    hide DecodedAddress, ExtensionBit, Parsed;
    addr, pos, lastAddr := [], 0, false;
    while !lastAddr && pos + 7 <= |p| && |addr| < MAX_ADDRESSES
      invariant ParsedSoFar(p, addr, pos, lastAddr)
    {
      ParsedStep(p, addr, pos);
      var a;
      a, lastAddr := DecodeAddress(p[pos..pos + 7]);
      addr := addr + [a];
      pos := pos + 7;
    }
    if !lastAddr {
      ParsedEnd(p, addr, pos);
    }
  }

  method Decode(data: seq<Byte>) returns (r: Option<Frame>)
    ensures r == Decoded(data)
  {
    hide Crc.FcsValid, Parsed;
    if |data| < 18 {
      return None;
    }
    var payloadLen := |data| - 2;
    var p := data[..payloadLen];
    DecodedIs(data, p);
    hide Decoded;
    var stored := Crc.StoredFcs(data);
    var fcs := Crc.ComputeFcs(p);
    assert fcs == stored <==> Crc.FcsValid(data) by { Crc.FcsValidIs(data); }
    if fcs != stored {
      return None;
    }
    var addr, pos, lastAddr := ParseAddresses(p);
    if |addr| < 2 || !lastAddr {
      return None;
    }
    if pos + 2 > payloadLen {
      return None;
    }
    var control, pid := p[pos], p[pos + 1];
    pos := pos + 2;
    if payloadLen - pos > MAX_INFO {
      return None;
    }
    return Some(Frame(addr, control, pid, p[pos..]));
  }

  lemma DecodedIs(frame: seq<Byte>, p: seq<Byte>)
    requires |frame| >= 18 && p == frame[..|frame| - 2]
    ensures Decoded(frame) == if !Crc.FcsValid(frame) then None else Body(p, Parsed(p, 0, 0))
  {
    hide Crc.FcsValid, Parsed;
  }

  /** Everything after the address field. */
  function Body(p: seq<Byte>, parsed: (seq<Address>, nat, bool)): Option<Frame> {
    var (addr, pos, last) := parsed;
    if |addr| < 2 || !last || pos + 2 > |p| || |p| - (pos + 2) > MAX_INFO then None
    else Some(Frame(addr, p[pos], p[pos + 1], p[pos + 2..]))
  }

  // ---------------------------------------------------------------- round trip

  /** What becomes of a callsign on its way through `encode` and `decode`. */
  function CanonicalCall(callsign: seq<Byte>): (t: seq<Byte>)
    ensures |t| == |callsign|
  {
    Terminated(DecodedChars(Chars(callsign)))
  }

  /** The address a receiver reads: SSID modulo 16, and a destination always reads as repeated. */
  function Canonical(a: Address, isDestination: bool): (c: Address)
    requires a.Valid()
    ensures c.Valid()
  {
    Address(CanonicalCall(a.callsign), a.ssid & 0x0F, isDestination || a.repeated)
  }

  function CanonicalAddresses(addr: seq<Address>): (c: seq<Address>)
    requires AllValid(addr)
    ensures |c| == |addr|
  {
    seq(|addr|, i requires 0 <= i < |addr| => assert addr[i].Valid(); Canonical(addr[i], i == 0))
  }

  function CanonicalFrame(f: Frame): Frame
    requires f.Valid()
  {
    Frame(CanonicalAddresses(f.addr), f.control, f.pid, f.info)
  }

  lemma SsidRoundTrip(ssid: Byte, mark: bool, isLast: bool)
    ensures DecodeSsid(EncodeSsid(ssid, mark, isLast)) == ssid & 0x0F
    ensures MarkBit(EncodeSsid(ssid, mark, isLast)) == mark
    ensures ExtensionBit(EncodeSsid(ssid, mark, isLast)) == isLast
  {}

  lemma AddressRoundTrip(a: Address, isDestination: bool, isLast: bool)
    requires a.Valid()
    ensures DecodedAddress(AddressBytes(a, isDestination, isLast)) == Canonical(a, isDestination)
    ensures ExtensionBit(AddressBytes(a, isDestination, isLast)[6]) == isLast
  {
    SsidRoundTrip(a.ssid, isDestination || a.repeated, isLast);
    hide EncodeSsid, DecodeSsid, MarkBit, ExtensionBit, EncodeChar, DecodeChar, Terminated, DecodedChars;
    assert AddressBytes(a, isDestination, isLast)[..6] == Chars(a.callsign);
  }

  lemma {:induction false} FieldEntry(addr: seq<Address>, n: nat, i: nat)
    requires i < n <= |addr| && AllValid(addr)
    ensures AddressField(addr, n)[7 * i..7 * i + 7] == AddressBytes(addr[i], i == 0, i + 1 == |addr|)
    decreases n
  {
    hide AddressBytes;
    if i < n - 1 {
      FieldEntry(addr, n - 1, i);
    }
  }

  lemma EvenChar(c: Byte)
    ensures !ExtensionBit(EncodeChar(c))
  {}

  /** In the whole address field the extension bit is set in one place only, the last octet: AX.25 v2.2, section 3.12. */
  lemma ExtensionBitEndsField(f: Frame, j: nat)
    requires f.Valid() && j < 7 * |f.addr|
    ensures ExtensionBit(Encoded(f)[j]) <==> j == 7 * |f.addr| - 1
  {
    var i, k := j / 7, j % 7;
    FieldEntry(f.addr, |f.addr|, i);
    SsidRoundTrip(f.addr[i].ssid, i == 0 || f.addr[i].repeated, i + 1 == |f.addr|);
    hide ExtensionBit, EncodeSsid, EncodeChar, AddressField;
    var entry := AddressField(f.addr, |f.addr|)[7 * i..7 * i + 7];
    assert Encoded(f)[j] == AddressField(f.addr, |f.addr|)[j] == entry[k];
    if k < 6 {
      EvenChar(f.addr[i].callsign[k]);
    }
  }

  lemma {:induction false} ParseField(addr: seq<Address>, i: nat, p: seq<Byte>)
    requires i < |addr| <= MAX_ADDRESSES && AllValid(addr) && AddressField(addr, |addr|) <= p
    ensures Parsed(p, 7 * i, i) == (CanonicalAddresses(addr)[i..], 7 * |addr|, true)
    decreases |addr| - i
  {
    hide AddressBytes, AddressField, DecodedAddress, Canonical, ExtensionBit;
    FieldEntry(addr, |addr|, i);
    var field := AddressField(addr, |addr|);
    var entry := field[7 * i..7 * i + 7];
    assert p[7 * i..7 * i + 7] == entry && p[7 * i + 6] == entry[6];
    AddressRoundTrip(addr[i], i == 0, i + 1 == |addr|);
    var rest := CanonicalAddresses(addr)[i..];
    assert rest == [Canonical(addr[i], i == 0)] + CanonicalAddresses(addr)[i + 1..];
    if i + 1 < |addr| {
      ParseField(addr, i + 1, p);
      assert 7 * i + 7 == 7 * (i + 1);
    } else {
      assert rest == [Canonical(addr[i], i == 0)];
    }
  }

  /** Every frame that encodes decodes again, to itself up to the canonical form of its addresses. */
  lemma EncodeDecode(f: Frame)
    requires f.Valid() && f.Encodable()
    ensures Decoded(Encoded(f)) == Some(CanonicalFrame(f))
  {
    hide AddressField, CanonicalAddresses, Crc.FcsValid, Parsed;
    var data, p := Encoded(f), Payload(f);
    Crc.AppendedFcsIsValid(p);
    assert data[..|data| - 2] == p;
    ParseField(f.addr, 0, p);
    assert CanonicalAddresses(f.addr)[0..] == CanonicalAddresses(f.addr);
    assert p[7 * |f.addr| + 2..] == f.info;
  }

  /** A string filled up with NULs. */
  predicate ZeroPadded(callsign: seq<Byte>) {
    forall i, j :: 0 <= i < j < |callsign| && callsign[i] == 0 ==> callsign[j] == 0
  }

  /** Seven-bit characters, the last of them not a space. */
  predicate Sendable(name: seq<Byte>) {
    (forall i :: 0 <= i < |name| ==> name[i] < 0x80) && (name != [] ==> name[|name| - 1] != SPACE)
  }

  function Upper(name: seq<Byte>): (t: seq<Byte>)
    ensures |t| == |name|
  {
    seq(|name|, i requires 0 <= i < |name| => ToUpper(name[i]))
  }

  lemma {:induction false} UpToNulIs(s: seq<Byte>, n: nat)
    requires n <= |s| && (forall i :: 0 <= i < n ==> s[i] != 0) && (n < |s| ==> s[n] == 0)
    ensures UpToNul(s) == s[..n]
  {
    if n > 0 {
      UpToNulIs(s[1..], n - 1);
      assert s[..n] == [s[0]] + s[1..][..n - 1];
    }
  }

  lemma {:induction false} UpToNulProps(s: seq<Byte>)
    ensures var n := |UpToNul(s)|; n <= |s| && UpToNul(s) == s[..n] && (forall i :: 0 <= i < n ==> s[i] != 0) && (n < |s| ==> s[n] == 0)
  {
    if s != [] && s[0] != 0 {
      UpToNulProps(s[1..]);
      var n := |UpToNul(s)|;
      assert s[..n] == [s[0]] + s[1..][..n - 1];
    }
  }

  lemma CharRoundTrip(c: Byte)
    ensures DecodeChar(EncodeChar(c)) == if c == 0 then SPACE else ToUpper(c) & 0x7F
  {}

  lemma CharFacts(c: Byte)
    ensures ToUpper(c) & 0x7F == ToUpper(c) <==> c < 0x80
    ensures ToUpper(c) == SPACE <==> c == SPACE
    ensures ToUpper(c) == 0 <==> c == 0
  {}

  lemma ArrivingChars(callsign: seq<Byte>)
    requires ZeroPadded(callsign)
    ensures Arriving(UpToNul(callsign), DecodedChars(Chars(callsign)))
  {
    UpToNulProps(callsign);
    hide UpToNul;
    forall i | 0 <= i < |callsign| ensures DecodedChars(Chars(callsign))[i] == if callsign[i] == 0 then SPACE else ToUpper(callsign[i]) & 0x7F {
      CharRoundTrip(callsign[i]);
      hide EncodeChar, DecodeChar, ToUpper;
    }
    forall c: Byte
      ensures ToUpper(c) & 0x7F == ToUpper(c) <==> c < 0x80
      ensures ToUpper(c) == SPACE <==> c == SPACE
      ensures ToUpper(c) == 0 <==> c == 0
    {
      CharFacts(c);
    }
    hide ToUpper, EncodeChar, DecodeChar;
  }

  /** A zero-padded callsign arrives as its upper-case form exactly when it is sendable. */
  lemma CallsignArrives(callsign: seq<Byte>)
    requires ZeroPadded(callsign)
    ensures UpToNul(CanonicalCall(callsign)) == Upper(UpToNul(callsign)) <==> Sendable(UpToNul(callsign))
  {
    ArrivingChars(callsign);
    hide DecodedChars, Chars, Upper, UpToNul, TrimmedLength, ZeroPadded;
    var name := UpToNul(callsign);
    if Sendable(name) {
      SendableArrives(name, DecodedChars(Chars(callsign)));
    }
    if UpToNul(CanonicalCall(callsign)) == Upper(name) {
      ArrivedWasSendable(name, DecodedChars(Chars(callsign)));
    }
  }

  predicate Arriving(name: seq<Byte>, chars: seq<Byte>) {
    && |name| <= |chars|
    && (forall i :: 0 <= i < |name| ==> (chars[i] == Upper(name)[i] <==> name[i] < 0x80))
    && (forall i :: 0 <= i < |name| ==> (Upper(name)[i] == SPACE <==> name[i] == SPACE) && Upper(name)[i] != 0)
    && (forall i :: |name| <= i < |chars| ==> chars[i] == SPACE)
  }

  lemma SendableArrives(name: seq<Byte>, chars: seq<Byte>)
    requires Arriving(name, chars) && Sendable(name)
    ensures UpToNul(Terminated(chars)) == Upper(name)
  {
    hide Upper, UpToNul;
    var n := |name|;
    TrimmedUnique(chars, n);
    hide TrimmedLength;
    UpToNulIs(Terminated(chars), n);
    assert Terminated(chars)[..n] == Upper(name);
  }

  lemma ArrivedWasSendable(name: seq<Byte>, chars: seq<Byte>)
    requires Arriving(name, chars) && UpToNul(Terminated(chars)) == Upper(name)
    ensures Sendable(name)
  {
    hide Upper, UpToNul, TrimmedLength;
    var t := Terminated(chars);
    UpToNulProps(t);
    var n := |name|;
    assert t[..n] == Upper(name);
    var k := TrimmedLength(chars);
    assert k == n by {
      if k < |chars| {
        assert t[k] == 0;
      }
    }
    forall i | 0 <= i < n ensures name[i] < 0x80 && (i == n - 1 ==> name[i] != SPACE) {
      assert t[i] == Upper(name)[i];
    }
  }

  // ---------------------------------------------------------------- errors on the way

  /** A decodable frame hit by a burst of at most sixteen transmitted bits does not decode. */
  lemma BurstMakesDecodeFail(f: seq<Byte>, g: seq<Byte>, start: int)
    requires Decoded(f).Some? && |g| == |f| && g != f
    requires forall j :: 0 <= j < 8 * |f| && Bits(f)[j] != Bits(g)[j] ==> start <= j < start + 16
    ensures Decoded(g) == None
  {
    hide Crc.FcsValid, Bits, Parsed;
    Crc.BurstDetected(f, g, start);
  }

  /** Nor does one with an odd number of flipped bits. */
  lemma OddErrorsMakeDecodeFail(f: seq<Byte>, g: seq<Byte>)
    requires Decoded(f).Some? && |g| == |f| && Crc.OddWeight(Crc.XorBits(Bits(f), Bits(g)))
    ensures Decoded(g) == None
  {
    hide Crc.FcsValid, Bits, Parsed;
    Crc.OddErrorsDetected(f, g);
  }
}
