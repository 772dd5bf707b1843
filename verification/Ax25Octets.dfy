/**
 * The AX.25 frame octet by octet (firmware/components/ax25/Ax25.cpp:34-148): what `encode` puts on
 * the air and exactly which received frames `decode` accepts, as what; AX.25 v2.2, section 3.12.
 */
module Ax25Octets {
  import opened Bytes
  import opened Ax25
  import Crc

  // ---------------------------------------------------------------- what is sent

  /** A callsign character as it is shifted into its octet: NUL padding becomes a space, a..z becomes A..Z. */
  function OnAir(c: Byte): Byte {
    if c == 0x00 then 0x20 else if 0x61 <= c && c <= 0x7A then c - 0x20 else c
  }

  lemma CharOctet(c: Byte)
    ensures EncodeChar(c) == 2 * OnAir(c)
  {}

  lemma SsidOctet(ssid: Byte, mark: bool, isLast: bool)
    ensures var o := EncodeSsid(ssid, mark, isLast);
      && o & 0x60 == 0x60 && o & 0x1E == 2 * (ssid & 0x0F)
      && (o & 0x80 != 0 <==> mark) && (o & 0x01 != 0 <==> isLast)
  {}

  lemma FieldOctet(f: Frame, i: nat, k: nat)
    requires f.Valid() && i < |f.addr| && k < 7
    ensures 7 * i + k < 7 * |f.addr| <= |Encoded(f)|
    ensures Encoded(f)[7 * i + k] == AddressBytes(f.addr[i], i == 0, i + 1 == |f.addr|)[k]
  {
    hide AddressBytes, AddressField, Crc.FcsBytes;
    FieldEntry(f.addr, |f.addr|, i);
    var field := AddressField(f.addr, |f.addr|);
    assert field[7 * i..7 * i + 7][k] == field[7 * i + k];
  }

  /** The first six octets of every entry are the characters, upper-cased, space-padded and shifted. */
  lemma CallsignOctets(f: Frame, i: nat, k: nat)
    requires f.Valid() && i < |f.addr| && k < 6
    ensures 7 * i + k < |Encoded(f)| && Encoded(f)[7 * i + k] == 2 * OnAir(f.addr[i].callsign[k])
  {
    FieldOctet(f, i, k);
    CharOctet(f.addr[i].callsign[k]);
    hide Encoded, EncodeChar, EncodeSsid, OnAir;
  }

  /**
   * The seventh: both reserved bits set, the SSID's low four bits above the extension bit, the top
   * bit set for the destination and for what has been repeated, the lowest in the last entry only.
   */
  lemma SsidOctets(f: Frame, i: nat)
    requires f.Valid() && i < |f.addr|
    ensures 7 * i + 6 < |Encoded(f)|
    ensures var o := Encoded(f)[7 * i + 6];
      && o & 0x60 == 0x60 && o & 0x1E == 2 * (f.addr[i].ssid & 0x0F)
      && (o & 0x80 != 0 <==> i == 0 || f.addr[i].repeated) && (o & 0x01 != 0 <==> i + 1 == |f.addr|)
  {
    FieldOctet(f, i, 6);
    SsidOctet(f.addr[i].ssid, i == 0 || f.addr[i].repeated, i + 1 == |f.addr|);
    hide Encoded, EncodeSsid;
  }

  /** Behind the addresses: control, PID, information, and the check sequence of all that, low octet first. */
  lemma OtherOctets(f: Frame)
    requires f.Valid()
    ensures var e, n := Encoded(f), 7 * |f.addr|;
      && |e| == n + 2 + |f.info| + 2
      && e[n] == f.control && e[n + 1] == f.pid && e[n + 2..|e| - 2] == f.info
      && (e[|e| - 2] as bv16) | ((e[|e| - 1] as bv16) << 8) == Crc.Fcs(e[..|e| - 2])
  {
    var e, p := Encoded(f), Payload(f);
    assert e[..|e| - 2] == p;
    assert e[|e| - 2] == Crc.LowByteOf(Crc.Fcs(p)) && e[|e| - 1] == Crc.HighByteOf(Crc.Fcs(p)) by { FcsBytesAre(p); }
    BothBytes(Crc.Fcs(p));
    hide Crc.Fcs, Crc.LowByteOf, Crc.HighByteOf, AddressField;
  }

  lemma BothBytes(w: bv16)
    ensures (Crc.LowByteOf(w) as bv16) | ((Crc.HighByteOf(w) as bv16) << 8) == w
  {}

  // ---------------------------------------------------------------- what is received

  /** The extension bit of an octet is set. */
  predicate Marked(b: Byte) {
    b & 0x01 == 0x01
  }

  /** The address field of p is its first n entries: the n-th is the first to be marked as last. */
  predicate FieldEnds(p: seq<Byte>, n: nat) {
    1 <= n <= 10 && 7 * n <= |p| && Marked(p[7 * n - 1]) && forall i :: 0 <= i < n - 1 ==> !Marked(p[7 * i + 6])
  }

  /** Entry i of the field is read as this address. */
  predicate Reads(p: seq<Byte>, i: nat, a: Address) {
    7 * i + 7 <= |p| && a == DecodedAddress(p[7 * i..7 * i + 7])
  }

  predicate ReadsFrom(p: seq<Byte>, i: nat, addr: seq<Address>) {
    forall k :: 0 <= k < |addr| ==> Reads(p, i + k, addr[k])
  }

  lemma OneMark(b: Byte)
    ensures ExtensionBit(b) <==> Marked(b)
  {}

  lemma ReadsCons(p: seq<Byte>, i: nat, a: Address, rest: seq<Address>)
    requires Reads(p, i, a) && ReadsFrom(p, i + 1, rest)
    ensures ReadsFrom(p, i, [a] + rest)
  {
    hide Reads;
    forall k | 0 <= k < |rest| + 1 ensures Reads(p, i + k, ([a] + rest)[k]) {
      if k > 0 {
        assert Reads(p, i + 1 + (k - 1), rest[k - 1]);
      }
    }
  }

  lemma ReadsOne(p: seq<Byte>, i: nat, a: Address)
    requires Reads(p, i, a)
    ensures ReadsFrom(p, i, [a])
  {}

  lemma FieldMarks(p: seq<Byte>, i: nat, n: nat)
    requires FieldEnds(p, n) && i < n
    ensures i < 10 && 7 * i + 7 <= |p| && (Marked(p[7 * i + 6]) <==> i + 1 == n)
  {
    hide Marked;
    assert 7 * (n - 1) + 6 == 7 * n - 1;
  }

  /** One round of the address loop. */
  lemma Round(p: seq<Byte>, i: nat)
    requires i < 10 && 7 * i + 7 <= |p|
    ensures var a := DecodedAddress(p[7 * i..7 * i + 7]);
      Reads(p, i, a) && Parsed(p, 7 * i, i) ==
        if Marked(p[7 * i + 6]) then ([a], 7 * (i + 1), true)
        else var rest := Parsed(p, 7 * (i + 1), i + 1); ([a] + rest.0, rest.1, rest.2)
  {
    ParsedUnfold(p, 7 * i, i);
    OneMark(p[7 * i + 6]);
    hide DecodedAddress, ExtensionBit, Parsed, Marked;
    assert 7 * i + 7 == 7 * (i + 1);
  }

  lemma NoRound(p: seq<Byte>, i: nat)
    requires i <= 10 && 7 * i <= |p| && !(i < 10 && 7 * i + 7 <= |p|)
    ensures Parsed(p, 7 * i, i) == ([], 7 * i, false)
  {}

  lemma {:induction false} ParsedFrom(p: seq<Byte>, i: nat, n: nat)
    requires FieldEnds(p, n) && i < n
    ensures var r := Parsed(p, 7 * i, i); r.1 == 7 * n && r.2 && |r.0| == n - i && ReadsFrom(p, i, r.0)
    decreases n - i
  {
    FieldMarks(p, i, n);
    hide Parsed, DecodedAddress, Reads, ReadsFrom, Marked;
    Round(p, i);
    var a := DecodedAddress(p[7 * i..7 * i + 7]);
    if i + 1 < n {
      ParsedFrom(p, i + 1, n);
      ReadsCons(p, i, a, Parsed(p, 7 * (i + 1), i + 1).0);
    } else {
      ReadsOne(p, i, a);
    }
  }

  predicate NoneMarked(p: seq<Byte>, i: nat) {
    7 * i <= |p| && forall j :: 0 <= j < i ==> !Marked(p[7 * j + 6])
  }

  /** Conversely, a field that parses ends at its first mark. */
  lemma {:induction false} ParsedEnds(p: seq<Byte>, i: nat)
    requires i <= 10 && NoneMarked(p, i) && Parsed(p, 7 * i, i).2
    ensures FieldEnds(p, i + |Parsed(p, 7 * i, i).0|)
    decreases 10 - i
  {
    hide Parsed, DecodedAddress, Marked;
    if 7 * i + 7 <= |p| && i < 10 {
      Round(p, i);
      if Marked(p[7 * i + 6]) {
        assert 7 * (i + 1) - 1 == 7 * i + 6;
      } else {
        ParsedEnds(p, i + 1);
      }
    } else {
      NoRound(p, i);
    }
  }

  /** A frame `decode` accepts, with n addresses. */
  predicate Acceptable(data: seq<Byte>, n: nat) {
    |data| >= 18 && Crc.FcsValid(data) && FieldEnds(data[..|data| - 2], n) && n >= 2
    && 7 * n + 4 <= |data| <= 7 * n + 4 + 256
  }

  /** What it is decoded to. */
  predicate ReadAs(data: seq<Byte>, n: nat, f: Frame)
    requires Acceptable(data, n)
  {
    |f.addr| == n && ReadsFrom(data, 0, f.addr)
    && f.control == data[7 * n] && f.pid == data[7 * n + 1] && f.info == data[7 * n + 2..|data| - 2]
  }

  lemma ReadsLonger(data: seq<Byte>, addr: seq<Address>)
    requires |data| >= 2 && ReadsFrom(data[..|data| - 2], 0, addr)
    ensures ReadsFrom(data, 0, addr)
  {
    hide DecodedAddress;
    var p := data[..|data| - 2];
    forall k | 0 <= k < |addr| ensures Reads(data, k, addr[k]) {
      assert Reads(p, 0 + k, addr[k]);
      assert p[7 * k..7 * k + 7] == data[7 * k..7 * k + 7];
    }
  }

  lemma AcceptableDecodes(data: seq<Byte>, n: nat)
    requires Acceptable(data, n)
    ensures Decoded(data).Some? && ReadAs(data, n, Decoded(data).value)
  {
    var p := data[..|data| - 2];
    DecodedIs(data, p);
    ParsedFrom(p, 0, n);
    assert Parsed(p, 7 * 0, 0) == Parsed(p, 0, 0);
    hide Crc.FcsValid, Parsed, Decoded, Reads, ReadsFrom, Marked;
    ReadsLonger(data, Parsed(p, 0, 0).0);
    assert p[7 * n + 2..] == data[7 * n + 2..|data| - 2];
  }

  lemma DecodedAcceptable(data: seq<Byte>) returns (n: nat)
    requires Decoded(data).Some?
    ensures Acceptable(data, n)
  {
    var p := data[..|data| - 2];
    DecodedIs(data, p);
    ParsedEnds(p, 0);
    assert Parsed(p, 7 * 0, 0) == Parsed(p, 0, 0);
    n := |Parsed(p, 0, 0).0|;
    ParsedFrom(p, 0, n);
    hide Crc.FcsValid, Parsed, Reads, ReadsFrom, Marked;
  }

  /**
   * `decode` accepts exactly the frames of at least 18 octets with a good check sequence whose
   * address field ends after two to ten entries, with room for control and PID behind it and at
   * most 256 octets of information.
   */
  lemma DecodesExactly(data: seq<Byte>)
    ensures Decoded(data).Some? <==> exists n: nat :: Acceptable(data, n)
    ensures forall n: nat :: Acceptable(data, n) ==> ReadAs(data, n, Decoded(data).value)
  {
    hide Acceptable, ReadAs, Decoded;
    if Decoded(data).Some? {
      var n := DecodedAcceptable(data);
    }
    forall n: nat | Acceptable(data, n) ensures Decoded(data).Some? && ReadAs(data, n, Decoded(data).value) {
      AcceptableDecodes(data, n);
    }
  }

  /** An entry's address: characters shifted down and cut at the trailing spaces, SSID and mark from the seventh octet. */
  lemma AddressRead(b: seq<Byte>, m: nat)
    requires |b| == 7
    requires m <= 6 && (forall k :: m <= k < 6 ==> b[k] >> 1 == 0x20) && (m > 0 ==> b[m - 1] >> 1 != 0x20)
    ensures var a := DecodedAddress(b);
      && |a.callsign| == 6 && (forall k :: 0 <= k < 6 && k != m ==> a.callsign[k] == b[k] >> 1)
      && (m < 6 ==> a.callsign[m] == 0x00)
      && 2 * a.ssid == b[6] & 0x1E && (a.repeated <==> b[6] & 0x80 != 0)
  {
    SsidRead(b[6]);
    var chars := DecodedChars(b[..6]);
    assert forall k :: 0 <= k < 6 ==> chars[k] == b[k] >> 1;
    TrimmedUnique(chars, m);
    hide DecodeSsid, TrimmedLength;
  }

  lemma SsidRead(b: Byte)
    ensures 2 * DecodeSsid(b) == b & 0x1E
  {}

  /** `encode` accepts a frame with any addresses exactly when `decode` would accept the encoding; with none it refuses. */
  lemma EncodableExactly(f: Frame)
    requires f.Valid()
    ensures f.addr != [] ==> (f.Encodable() <==> Decoded(Encoded(f)).Some?)
    ensures f.addr == [] ==> !f.Encodable()
  {
    if f.addr != [] {
      if f.Encodable() {
        EncodeDecode(f);
      }
      DecodesExactly(Encoded(f));
      hide Decoded, Acceptable, Encoded;
      if Decoded(Encoded(f)).Some? {
        var n: nat :| Acceptable(Encoded(f), n);
        SameCount(f, n);
      }
    }
  }

  lemma SameCount(f: Frame, n: nat)
    requires f.Valid() && f.addr != [] && Acceptable(Encoded(f), n)
    ensures f.Encodable()
  {
    var e, p, m := Encoded(f), Encoded(f)[..|Encoded(f)| - 2], |f.addr|;
    assert p[7 * n - 1] == e[7 * n - 1];
    OneMark(e[7 * n - 1]);
    var last := 7 * (m - 1) + 6;
    ExtensionBitEndsField(f, last);
    OneMark(e[last]);
    if n <= m {
      ExtensionBitEndsField(f, 7 * n - 1);
    }
    assert last < |p| ==> p[last] == e[last];
    assert n <= m;
  }
}
