/**
 * firmware/components/payload_codec/PayloadValidator.cpp:20-217. A `const char *` into the local
 * JSON buffer is an index into `json`, which ends in a NUL; a null pointer is None. `strncmp`,
 * `isdigit` and `isalnum` are taken in the C locale.
 */
module PayloadValidator {
  import opened Bytes
  import opened JsonText

  const MAX_JSON_LEN := 512

  const CALLSIGN: Text := [99, 97, 108, 108, 115, 105, 103, 110]
  const DEST: Text := [100, 101, 115, 116]
  const TEXT: Text := [116, 101, 120, 116]
  const SSID: Text := [115, 115, 105, 100]

  predicate CallsignChar(b: Octet) {
    48 <= b <= 57 || 65 <= b <= 90 || 97 <= b <= 122 || b == MINUS
  }

  predicate ValidCallsign(s: Text) {
    1 <= |s| <= 6 && forall i :: 0 <= i < |s| ==> CallsignChar(s[i])
  }

  predicate ValidText(s: Text) {
    1 <= |s| <= 67
  }

  datatype ConfigFields = ConfigFields(callsign: Text, ssid: nat)

  datatype TxRequestFields = TxRequestFields(dest: Text, ssid: nat, text: Text)

  // ---------------------------------------------------------------- what the code computes

  /** What fits a buffer of this size beside the NUL. */
  function Truncated(s: Text, size: nat): Text
    requires size > 0
  {
    if |s| < size then s else s[..size - 1]
  }

  /** A required string field, read into a buffer of the given size. */
  function StringField(json: Text, key: Text, size: nat): Option<Text>
    requires size > 0
  {
    match FindValue(json, key)
    case None => None
    case Some(v) =>
      match StringAt(v)
      case None => None
      case Some(s) => Some(Truncated(s, size))
  }

  /** The optional ssid: 0 when absent, None when present and not acceptable. */
  function SsidField(json: Text): Option<nat> {
    match FindValue(json, SSID)
    case None => Some(0)
    case Some(v) =>
      match IntAt(v)
      case None => None
      case Some(n) => if 0 <= n <= 15 then Some(n) else None
  }

  function Config(data: Text): Option<ConfigFields> {
    var json := data + [0];
    if data == [] || |data| >= MAX_JSON_LEN then None
    else
      var callsign, ssid := StringField(json, CALLSIGN, 8), SsidField(json);
      if callsign.Some? && ValidCallsign(callsign.value) && ssid.Some? then Some(ConfigFields(callsign.value, ssid.value))
      else None
  }

  function TxRequest(data: Text): Option<TxRequestFields> {
    var json := data + [0];
    if data == [] || |data| >= MAX_JSON_LEN then None
    else
      var dest, text, ssid := StringField(json, DEST, 8), StringField(json, TEXT, 69), SsidField(json);
      if dest.Some? && ValidCallsign(dest.value) && text.Some? && ValidText(text.value) && ssid.Some?
      then Some(TxRequestFields(dest.value, ssid.value, text.value))
      else None
  }

  // ---------------------------------------------------------------- the scanners

  predicate Terminated(json: Text) {
    json != [] && json[|json| - 1] == 0
  }

  lemma SuffixStep(json: Text, p: nat)
    requires p < |json|
    ensures json[p..] != [] && json[p..][0] == json[p] && json[p..][1..] == json[p + 1..]
    ensures p + 1 < |json| ==> json[p + 1..][0] == json[p + 1] && json[p..][2..] == json[p + 2..]
  {}

  method SkipString(json: Text, start: nat) returns (r: Option<nat>)
    requires Terminated(json) && start < |json|
    ensures match AfterString(json[start..])
      case None => r == None
      case Some(rest) => r.Some? && r.value < |json| && rest == json[r.value..]
  {
    if json[start] != QUOTE {
      return None;
    }
    var p := start + 1;
    SuffixStep(json, start);
    while json[p] != 0
      invariant p < |json| && StringEnd(json[start + 1..]) == StringEnd(json[p..])
      decreases |json| - p
    {
      SuffixStep(json, p);
      if json[p] == BACKSLASH {
        p := p + 1;
        if json[p] == 0 {
          return None;
        }
        p := p + 1;
      } else if json[p] == QUOTE {
        return Some(p + 1);
      } else {
        p := p + 1;
      }
    }
    return None;
  }

  /** The buffer holds what fits of the characters read so far, the NUL still to come. */
  predicate Holds(buf: Text, n: nat, full: Text) {
    n < |buf| && buf[..n] == Truncated(full, |buf|) && NoNul(full)
  }

  /** `if (n < max_out - 1) out[n++] = *p`. */
  method Put(out: array<Octet>, n: nat, b: Octet, ghost full: Text) returns (n': nat)
    requires Holds(out[..], n, full) && b != 0
    modifies out
    ensures Holds(out[..], n', full + [b])
  {
    n' := n;
    ghost var was := out[..];
    if n < out.Length - 1 {
      out[n] := b;
      n' := n + 1;
      assert out[..][..n'] == was[..n] + [b];
    } else {
      assert (full + [b])[..out.Length - 1] == full[..out.Length - 1];
    }
  }

  method Finish(out: array<Octet>, n: nat, ghost full: Text)
    requires Holds(out[..], n, full)
    modifies out
    ensures HoldsString(out[..], Truncated(full, out.Length))
  {
    ghost var was := out[..];
    out[n] := 0;
    assert out[..][..n] == was[..n];
  }

  method ExtractString(json: Text, start: nat, out: array<Octet>) returns (ok: bool)
    requires Terminated(json) && start < |json| && out.Length > 0
    modifies out
    ensures ok <==> StringAt(json[start..]).Some?
    ensures ok ==> HoldsString(out[..], Truncated(StringAt(json[start..]).value, out.Length))
  {
    if json[start] != QUOTE {
      return false;
    }
    var p, n := start + 1, 0;
    SuffixStep(json, start);
    ghost var full: Text := [];
    assert Holds(out[..], n, full);
    assert [] + StringContent(json[p..]) == StringContent(json[p..]);
    hide StringContent, StringEnd, Holds, HoldsString, Truncated;
    while json[p] != 0
      invariant p < |json| && Holds(out[..], n, full)
      invariant StringEnd(json[start + 1..]) == StringEnd(json[p..])
      invariant StringContent(json[start + 1..]) == full + StringContent(json[p..])
      decreases |json| - p
    {
      SuffixStep(json, p);
      StringStep(json[p..]);
      if json[p] == BACKSLASH {
        p := p + 1;
        if json[p] == 0 {
          return false;
        }
      } else if json[p] == QUOTE {
        assert full + [] == full;
        Finish(out, n, full);
        return true;
      }
      Reassociate(full, [json[p]], StringContent(json[p + 1..]));
      n := Put(out, n, json[p], full);
      full := full + [json[p]];
      p := p + 1;
    }
    NoEnd(json[p..]);
    return false;
  }

  lemma StringStep(s: Text)
    requires s != [] && s[0] != 0
    ensures s[0] == QUOTE ==> StringEnd(s).Some? && StringContent(s) == []
    ensures s[0] == BACKSLASH && Ended(s[1..]) ==> StringEnd(s).None?
    ensures s[0] == BACKSLASH && !Ended(s[1..]) ==>
      StringEnd(s) == StringEnd(s[2..]) && StringContent(s) == [s[1]] + StringContent(s[2..])
    ensures s[0] != QUOTE && s[0] != BACKSLASH ==>
      StringEnd(s) == StringEnd(s[1..]) && StringContent(s) == [s[0]] + StringContent(s[1..])
  {}

  lemma NoEnd(s: Text)
    requires Ended(s)
    ensures StringEnd(s).None?
  {}

  /** A buffer holds a C string. */
  predicate HoldsString(buf: Text, s: Text) {
    |s| < |buf| && buf[..|s|] == s && buf[|s|] == 0 && NoNul(s)
  }

  method StrLen(buf: array<Octet>, ghost s: Text) returns (n: nat)
    requires HoldsString(buf[..], s)
    ensures n == |s| < buf.Length && buf[..n] == s
  {
    assert forall k :: 0 <= k <= |s| ==> buf[k] == buf[..][k];
    assert forall k :: 0 <= k < |s| ==> buf[..][..|s|][k] == s[k];
    n := 0;
    while buf[n] != 0
      invariant n <= |s| < buf.Length
      decreases |s| - n
    {
      n := n + 1;
    }
  }

  method ExtractInt(json: Text, start: nat) returns (r: Option<int>)
    requires Terminated(json) && start < |json|
    ensures r == IntAt(json[start..])
  {
    var p, neg := start, false;
    SuffixStep(json, start);
    if json[p] == MINUS {
      neg := true;
      p := p + 1;
      SuffixStep(json, p);
    }
    if !Digit(json[p]) {
      return None;
    }
    var val: int := 0;
    ghost var first := p;
    while Digit(json[p])
      invariant p < |json| && val >= 0 && Digits(0, json[first..]) == Digits(val, json[p..])
      decreases |json| - p
    {
      SuffixStep(json, p);
      val := val * 10 + (json[p] - 48);
      p := p + 1;
    }
    SuffixStep(json, p);
    return Some(if neg then -val else val);
  }

  method SkipBlanksAt(json: Text, start: nat) returns (p: nat)
    requires Terminated(json) && start < |json|
    ensures start <= p < |json| && json[p..] == SkipBlanks(json[start..])
  {
    p := start;
    while Blank(json[p])
      invariant start <= p < |json| && SkipBlanks(json[start..]) == SkipBlanks(json[p..])
      decreases |json| - p
    {
      SuffixStep(json, p);
      p := p + 1;
    }
    SuffixStep(json, p);
  }

  lemma KeyInside(json: Text, p: nat, key: Text)
    requires Terminated(json) && p < |json| && Starts(json[p + 1..], key + [QUOTE])
    ensures p + |key| + 2 < |json| && json[p..][|key| + 2..] == json[p + |key| + 2..]
  {
    var k := p + 1 + |key|;
    assert json[p + 1..][..|key| + 1][|key|] == (key + [QUOTE])[|key|];
    assert json[k] == QUOTE;
  }

  method FindValueAt(json: Text, key: Text) returns (r: Option<nat>)
    requires Terminated(json)
    ensures match FindValue(json, key)
      case None => r == None
      case Some(v) => r.Some? && r.value < |json| && v == json[r.value..]
  {
    hide FindValue, Starts, SkipBlanks, AfterString;
    var p := 0;
    assert json[0..] == json;
    while json[p] != 0
      invariant p < |json| && FindValue(json, key) == FindValue(json[p..], key)
      decreases |json| - p
    {
      ghost var q := p;
      while json[p] != 0 && json[p] != QUOTE
        invariant q <= p < |json| && FindValue(json, key) == FindValue(json[p..], key)
        decreases |json| - p
      {
        SuffixStep(json, p);
        FindStep(json[p..], key);
        p := p + 1;
      }
      if json[p] == 0 {
        break;
      }
      SuffixStep(json, p);
      FindStep(json[p..], key);
      if Starts(json[p + 1..], key + [QUOTE]) {
        KeyInside(json, p, key);
        p := SkipBlanksAt(json, p + |key| + 2);
        if json[p] != COLON {
          continue;
        }
        SuffixStep(json, p);
        p := SkipBlanksAt(json, p + 1);
        return Some(p);
      }
      var next := SkipString(json, p);
      if next.None? {
        return None;
      }
      Shorter(json, p, next.value);
      p := next.value;
    }
    EndedFind(json[p..], key);
    return None;
  }

  lemma Shorter(json: Text, p: nat, next: nat)
    requires p < |json| && next < |json| && AfterString(json[p..]) == Some(json[next..])
    ensures p < next
  {}

  lemma FindStep(s: Text, key: Text)
    requires s != [] && s[0] != 0
    ensures s[0] != QUOTE ==> FindValue(s, key) == FindValue(s[1..], key)
    ensures s[0] == QUOTE && Starts(s[1..], key + [QUOTE]) ==>
      |s| >= |key| + 2 &&
      var r := SkipBlanks(s[|key| + 2..]);
      FindValue(s, key) == (if r != [] && r[0] == COLON then Some(SkipBlanks(r[1..])) else FindValue(r, key))
    ensures s[0] == QUOTE && !Starts(s[1..], key + [QUOTE]) ==>
      FindValue(s, key) == match AfterString(s) case None => None case Some(rest) => FindValue(rest, key)
  {
    hide AfterString, SkipBlanks;
  }

  method IsValidCallsign(buf: array<Octet>, ghost s: Text) returns (ok: bool)
    requires HoldsString(buf[..], s)
    ensures ok == ValidCallsign(s)
  {
    var len := StrLen(buf, s);
    if len < 1 || len > 6 {
      return false;
    }
    assert forall k :: 0 <= k < len ==> buf[k] == s[k];
    for i := 0 to len
      invariant forall k :: 0 <= k < i ==> CallsignChar(s[k])
    {
      if !CallsignChar(buf[i]) {
        return false;
      }
    }
    return true;
  }

  // ---------------------------------------------------------------- the validators

  /** The field's value in the buffer, or false: the steps the validators share. */
  method ReadStringField(json: Text, key: Text, buf: array<Octet>) returns (ok: bool)
    requires Terminated(json) && buf.Length > 0
    modifies buf
    ensures ok <==> StringField(json, key, buf.Length).Some?
    ensures ok ==> HoldsString(buf[..], StringField(json, key, buf.Length).value)
  {
    hide FindValue, StringContent, StringEnd;
    var v := FindValueAt(json, key);
    if v.None? || json[v.value] != QUOTE {
      return false;
    }
    ok := ExtractString(json, v.value, buf);
  }

  method ReadSsid(json: Text) returns (r: Option<nat>)
    requires Terminated(json)
    ensures r == SsidField(json)
  {
    hide FindValue, Digits;
    var v := FindValueAt(json, SSID);
    if v.None? {
      return Some(0);
    }
    var n := ExtractInt(json, v.value);
    if n.None? || n.value < 0 || n.value > 15 {
      return None;
    }
    return Some(n.value);
  }

  method ValidateConfigPayload(data: Text) returns (r: Option<ConfigFields>)
    ensures r == Config(data)
  {
    hide StringField, SsidField, ValidCallsign;
    if |data| == 0 || |data| >= MAX_JSON_LEN {
      return None;
    }
    var json := data + [0];
    var callsign := new Octet[8];
    var found := ReadStringField(json, CALLSIGN, callsign);
    if !found {
      return None;
    }
    ghost var c := StringField(json, CALLSIGN, 8).value;
    var valid := IsValidCallsign(callsign, c);
    if !valid {
      return None;
    }
    var len := StrLen(callsign, c);
    var ssid := ReadSsid(json);
    if ssid.None? {
      return None;
    }
    return Some(ConfigFields(callsign[..len], ssid.value));
  }

  method ValidateTxRequestPayload(data: Text) returns (r: Option<TxRequestFields>)
    ensures r == TxRequest(data)
  {
    hide StringField, SsidField, ValidCallsign;
    if |data| == 0 || |data| >= MAX_JSON_LEN {
      return None;
    }
    var json := data + [0];
    var dest := new Octet[8];
    var found := ReadStringField(json, DEST, dest);
    if !found {
      return None;
    }
    ghost var d := StringField(json, DEST, 8).value;
    var valid := IsValidCallsign(dest, d);
    if !valid {
      return None;
    }
    var text := new Octet[69];
    found := ReadStringField(json, TEXT, text);
    if !found {
      return None;
    }
    ghost var t := StringField(json, TEXT, 69).value;
    var textLen := StrLen(text, t);
    if textLen < 1 || textLen > 67 {
      return None;
    }
    var ssid := ReadSsid(json);
    if ssid.None? {
      return None;
    }
    var destLen := StrLen(dest, d);
    return Some(TxRequestFields(dest[..destLen], ssid.value, text[..textLen]));
  }

  // ---------------------------------------------------------------- what they accept

  /** A flat object: what comes before the first key, then the members with their separators. */
  function Printed(start: Text, ms: seq<Member>): Text {
    start + PrintMembers(ms)
  }

  predicate SsidOk(v: Option<Value>)
    requires v.Some? ==> ValueOk(v.value)
  {
    v.None? || (IntegerPart(v.value).Some? && 0 <= IntegerPart(v.value).value <= 15)
  }

  function SsidValue(v: Option<Value>): nat
    requires v.Some? ==> ValueOk(v.value)
    requires SsidOk(v)
  {
    if v.None? then 0 else IntegerPart(v.value).value
  }

  predicate CallsignOk(v: Option<Value>) {
    v.Some? && v.value.Str? && ValidCallsign(v.value.content)
  }

  predicate TextOk(v: Option<Value>) {
    v.Some? && v.value.Str? && ValidText(v.value.content)
  }

  lemma {:induction false} FieldOk(ms: seq<Member>, key: Text)
    requires MembersOk(ms)
    ensures Field(ms, key).Some? ==> ValueOk(Field(ms, key).value)
  {
    if ms != [] && ms[0].key != key {
      FieldOk(ms[1..], key);
    }
  }

  lemma ObjectText(start: Text, ms: seq<Member>, key: Text)
    requires Bare(start)
    ensures FindValue(Printed(start, ms) + [0], key) == FindValue(PrintMembers(ms) + [0], key)
  {
    Reassociate(start, PrintMembers(ms), [0]);
    SkipBare(start, PrintMembers(ms) + [0], key);
  }

  /** A string field of an object, as read into a buffer. */
  lemma StringFieldRead(start: Text, ms: seq<Member>, key: Text, size: nat)
    requires Bare(start) && MembersOk(ms) && Plain(key) && size > 0
    ensures var v := Field(ms, key);
      StringField(Printed(start, ms) + [0], key, size)
      == if v.Some? && v.value.Str? then Some(Truncated(v.value.content, size)) else None
  {
    hide FindValue, StringAt, PrintValue, PrintMembers, Printed;
    ObjectText(start, ms, key);
    FindField(ms, [0], key);
    var v := Field(ms, key);
    if v.Some? {
      var found := FindValue(PrintMembers(ms) + [0], key);
      var sep: Text :| ReadsAs(found, v.value, sep);
      ReadString(v.value, sep);
    }
  }

  lemma SsidFieldRead(start: Text, ms: seq<Member>)
    requires Bare(start) && MembersOk(ms)
    ensures Field(ms, SSID).Some? ==> ValueOk(Field(ms, SSID).value)
    ensures var v := Field(ms, SSID);
      SsidField(Printed(start, ms) + [0]) == if SsidOk(v) then Some(SsidValue(v)) else None
  {
    hide FindValue, IntAt, PrintValue, PrintMembers, Printed, IntegerPart;
    FieldOk(ms, SSID);
    ObjectText(start, ms, SSID);
    FindField(ms, [0], SSID);
    var v := Field(ms, SSID);
    if v.Some? {
      var found := FindValue(PrintMembers(ms) + [0], SSID);
      var sep: Text :| ReadsAs(found, v.value, sep);
      ReadInt(v.value, sep);
    }
  }

  /** Eight bytes hold every valid callsign whole, and make an overlong one seven characters, which is invalid. */
  lemma CallsignBuffer(s: Text)
    ensures ValidCallsign(Truncated(s, 8)) <==> ValidCallsign(s)
    ensures ValidCallsign(s) ==> Truncated(s, 8) == s
  {}

  lemma TextBuffer(s: Text)
    ensures ValidText(Truncated(s, 69)) <==> ValidText(s)
    ensures ValidText(s) ==> Truncated(s, 69) == s
  {}

  /**
   * On every well-formed flat object under 512 bytes, whatever the order and spacing of its
   * members and whatever its strings contain, the validator accepts exactly when the fields meet
   * the rules on their full unescaped values, and returns exactly those values.
   */
  lemma TxRequestAccepts(start: Text, ms: seq<Member>)
    requires Bare(start) && MembersOk(ms) && 0 < |Printed(start, ms)| < MAX_JSON_LEN
    ensures Field(ms, SSID).Some? ==> ValueOk(Field(ms, SSID).value)
    ensures var dest, text, ssid := Field(ms, DEST), Field(ms, TEXT), Field(ms, SSID);
      TxRequest(Printed(start, ms)) ==
        if CallsignOk(dest) && TextOk(text) && SsidOk(ssid)
        then Some(TxRequestFields(dest.value.content, SsidValue(ssid), text.value.content)) else None
  {
    hide StringField, SsidField, Printed, Field, ValidCallsign, ValidText, Truncated, SsidOk, SsidValue;
    StringFieldRead(start, ms, DEST, 8);
    StringFieldRead(start, ms, TEXT, 69);
    SsidFieldRead(start, ms);
    var dest, text := Field(ms, DEST), Field(ms, TEXT);
    if dest.Some? && dest.value.Str? {
      CallsignBuffer(dest.value.content);
    }
    if text.Some? && text.value.Str? {
      TextBuffer(text.value.content);
    }
  }

  lemma ConfigAccepts(start: Text, ms: seq<Member>)
    requires Bare(start) && MembersOk(ms) && 0 < |Printed(start, ms)| < MAX_JSON_LEN
    ensures Field(ms, SSID).Some? ==> ValueOk(Field(ms, SSID).value)
    ensures var callsign, ssid := Field(ms, CALLSIGN), Field(ms, SSID);
      Config(Printed(start, ms)) ==
        if CallsignOk(callsign) && SsidOk(ssid)
        then Some(ConfigFields(callsign.value.content, SsidValue(ssid))) else None
  {
    hide StringField, SsidField, Printed, Field, ValidCallsign, Truncated, SsidOk, SsidValue;
    StringFieldRead(start, ms, CALLSIGN, 8);
    SsidFieldRead(start, ms);
    var callsign := Field(ms, CALLSIGN);
    if callsign.Some? && callsign.value.Str? {
      CallsignBuffer(callsign.value.content);
    }
  }

  /** On any bytes whatever, well-formed or not: nothing accepted was ever cut short by a buffer. */
  lemma NeverCutShort(data: Text)
    requires TxRequest(data).Some?
    ensures var f := TxRequest(data).value;
      && FindValue(data + [0], DEST).Some? && StringAt(FindValue(data + [0], DEST).value) == Some(f.dest)
      && FindValue(data + [0], TEXT).Some? && StringAt(FindValue(data + [0], TEXT).value) == Some(f.text)
      && ValidCallsign(f.dest) && ValidText(f.text) && f.ssid <= 15
  {
    hide FindValue, StringAt, ValidCallsign, ValidText, Truncated, IntAt;
    CallsignBuffer(StringAt(FindValue(data + [0], DEST).value).value);
    TextBuffer(StringAt(FindValue(data + [0], TEXT).value).value);
  }

  /** The rule says integer, but a fraction or exponent after the digits is not looked at. */
  lemma FractionIgnored(start: Text, ms: seq<Member>, neg: bool, digits: Text, tail: Text)
    requires Bare(start) && MembersOk(ms) && 0 < |Printed(start, ms)| < MAX_JSON_LEN
    requires Field(ms, SSID) == Some(Num(neg, digits, tail)) && !neg && AllDigits(digits) && Numeral(digits) <= 15
    requires CallsignOk(Field(ms, DEST)) && TextOk(Field(ms, TEXT))
    ensures TxRequest(Printed(start, ms)).Some? && TxRequest(Printed(start, ms)).value.ssid == Numeral(digits)
  {
    hide TxRequest, Printed, Field, ValidCallsign, ValidText, Numeral;
    TxRequestAccepts(start, ms);
  }

  predicate LineBreak(b: Octet) {
    b == 10 || b == 13
  }

  /** JSON white space with a line break in it. */
  predicate BreakingSpace(ws: Text) {
    (forall i :: 0 <= i < |ws| ==> Blank(ws[i]) || LineBreak(ws[i])) && exists i :: 0 <= i < |ws| && LineBreak(ws[i])
  }

  lemma {:induction false} BreakLeft(ws: Text, rest: Text)
    requires BreakingSpace(ws)
    ensures var r := SkipBlanks(ws + rest); r != [] && LineBreak(r[0])
    ensures var r := SkipBlanks(ws); r != [] && LineBreak(r[0])
    decreases |ws|
  {
    if Blank(ws[0]) {
      var i :| 0 <= i < |ws| && LineBreak(ws[i]);
      assert ws[1..][i - 1] == ws[i];
      assert (ws + rest)[1..] == ws[1..] + rest;
      BreakLeft(ws[1..], rest);
    }
  }

  /** JSON allows a line break before the colon; the scanner then takes the key for a value. */
  lemma LineBreakHidesKey(key: Text, ws: Text, rest: Text)
    requires Plain(key) && BreakingSpace(ws)
    ensures FindValue(Quoted(key) + (ws + rest), key) == FindValue(rest, key)
  {
    NoNulPlain(key);
    BreakLeft(ws, rest);
    hide FindValue, Quoted, SkipBlanks;
    PassString(key, ws, rest, key);
  }

  lemma NoNulPlain(key: Text)
    requires Plain(key)
    ensures NoNul(key)
  {}

  /** After the colon it is allowed too; the scanner then finds a value that is neither a string nor a number. */
  lemma LineBreakHidesValue(key: Text, before: Text, ws: Text, rest: Text)
    requires Plain(key) && Blanks(before) && BreakingSpace(ws)
    ensures var found := FindValue(Quoted(key) + (before + ([COLON] + (ws + rest))), key);
      found.Some? && StringAt(found.value) == None && IntAt(found.value) == None
  {
    var mid := before + ([COLON] + (ws + rest));
    NoNulPlain(key);
    QuotedRead(key, mid);
    KeyMatch(key, key, mid);
    MatchedRest(key, mid);
    SkipBlanksOver(before, [COLON] + (ws + rest));
    BreakLeft(ws, rest);
    hide Quoted, Starts, SkipBlanks, Escape, StringEnd, StringContent, Digits;
    assert ([COLON] + (ws + rest))[1..] == ws + rest;
  }
}
