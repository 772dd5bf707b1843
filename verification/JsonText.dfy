/**
 * The flat-JSON scanner of firmware/components/payload_codec/PayloadValidator.cpp:20-119 as
 * functions of the text still to be read, and the printer they invert. Text is C text: a NUL
 * byte, or the end of the sequence, ends it.
 */
module JsonText {
  import opened Bytes

  type Text = seq<Octet>

  const QUOTE: Octet := 34
  const BACKSLASH: Octet := 92
  const COLON: Octet := 58
  const MINUS: Octet := 45
  const SPACE: Octet := 32
  const TAB: Octet := 9

  predicate Ended(s: Text) {
    s == [] || s[0] == 0
  }

  predicate Digit(b: Octet) {
    48 <= b <= 57
  }

  predicate Blank(b: Octet) {
    b == SPACE || b == TAB
  }

  // ---------------------------------------------------------------- scanning

  /** From just after an opening quote: the text after the closing one. */
  function StringEnd(s: Text): (r: Option<Text>)
    ensures r.Some? ==> |r.value| < |s|
  {
    if Ended(s) then None
    else if s[0] == BACKSLASH then (if Ended(s[1..]) then None else StringEnd(s[2..]))
    else if s[0] == QUOTE then Some(s[1..])
    else StringEnd(s[1..])
  }

  /** The unescaped content: a backslash stands for the character after it. */
  function StringContent(s: Text): Text {
    if Ended(s) || s[0] == QUOTE then []
    else if s[0] == BACKSLASH then (if Ended(s[1..]) then [] else [s[1]] + StringContent(s[2..]))
    else [s[0]] + StringContent(s[1..])
  }

  /** `skip_string`. */
  function AfterString(s: Text): (r: Option<Text>)
    ensures r.Some? ==> |r.value| < |s|
  {
    if Ended(s) || s[0] != QUOTE then None else StringEnd(s[1..])
  }

  /** What `extract_string` reads, before any truncation. */
  function StringAt(s: Text): Option<Text> {
    if AfterString(s).None? then None else Some(StringContent(s[1..]))
  }

  function Digits(acc: nat, s: Text): nat
    decreases |s|
  {
    if s == [] || !Digit(s[0]) then acc else Digits(acc * 10 + (s[0] - 48), s[1..])
  }

  /** `extract_int`. */
  function IntAt(s: Text): Option<int> {
    var neg := s != [] && s[0] == MINUS;
    var rest := if neg then s[1..] else s;
    if rest == [] || !Digit(rest[0]) then None
    else
      var n: int := Digits(0, rest);
      Some(if neg then -n else n)
  }

  function SkipBlanks(s: Text): (r: Text)
    ensures |r| <= |s|
  {
    if s != [] && Blank(s[0]) then SkipBlanks(s[1..]) else s
  }

  predicate Starts(s: Text, prefix: Text) {
    |prefix| <= |s| && s[..|prefix|] == prefix
  }

  /** `find_value`: the text at the value of the first key with this name. */
  function FindValue(s: Text, key: Text): Option<Text>
    decreases |s|
  {
    if Ended(s) then None
    else if s[0] != QUOTE then FindValue(s[1..], key)
    else if Starts(s[1..], key + [QUOTE]) then
      var r := SkipBlanks(s[|key| + 2..]);
      if r != [] && r[0] == COLON then Some(SkipBlanks(r[1..])) else FindValue(r, key)
    else
      match AfterString(s)
      case None => None
      case Some(rest) => FindValue(rest, key)
  }

  // ---------------------------------------------------------------- printing

  /** The characters of a string, quote and backslash escaped. */
  function Escape(c: Text): Text {
    if c == [] then []
    else (if c[0] == QUOTE || c[0] == BACKSLASH then [BACKSLASH, c[0]] else [c[0]]) + Escape(c[1..])
  }

  function Quoted(c: Text): Text {
    [QUOTE] + Escape(c) + [QUOTE]
  }

  /** Num is an optional minus, digits, and a fraction or exponent; Word is true, false or null. */
  datatype Value = Str(content: Text) | Num(neg: bool, digits: Text, tail: Text) | Word(word: Text)

  /** `before` and `after` are the blanks around the colon; `sep` runs up to the next key. */
  datatype Member = Member(key: Text, before: Text, after: Text, value: Value, sep: Text)

  function PrintValue(v: Value): Text {
    match v
    case Str(content) => Quoted(content)
    case Num(neg, digits, tail) => (if neg then [MINUS] else []) + digits + tail
    case Word(word) => word
  }

  function PrintMember(m: Member): Text {
    Quoted(m.key) + (m.before + ([COLON] + (m.after + (PrintValue(m.value) + m.sep))))
  }

  function PrintMembers(ms: seq<Member>): Text {
    if ms == [] then [] else PrintMember(ms[0]) + PrintMembers(ms[1..])
  }

  /** No quote and no NUL, as anything outside a string. */
  predicate Bare(s: Text) {
    forall i :: 0 <= i < |s| ==> s[i] != QUOTE && s[i] != 0
  }

  predicate NoNul(s: Text) {
    forall i :: 0 <= i < |s| ==> s[i] != 0
  }

  predicate Blanks(s: Text) {
    forall i :: 0 <= i < |s| ==> Blank(s[i])
  }

  predicate AllDigits(s: Text) {
    forall i :: 0 <= i < |s| ==> Digit(s[i])
  }

  predicate ValueOk(v: Value) {
    match v
    case Str(content) => NoNul(content)
    case Num(_, digits, tail) => digits != [] && AllDigits(digits) && Bare(tail) && (tail != [] ==> !Digit(tail[0]))
    case Word(word) => word != [] && Bare(word) && !Digit(word[0]) && word[0] != MINUS && !Blank(word[0])
  }

  /** White space, then a comma or a closing brace: no digit first, and no colon after the blanks. */
  predicate Separator(sep: Text) {
    sep != [] && Bare(sep) && !Digit(sep[0]) && SkipBlanks(sep) != [] && SkipBlanks(sep)[0] != COLON
  }

  predicate MemberOk(m: Member) {
    NoNul(m.key) && Blanks(m.before) && Blanks(m.after) && ValueOk(m.value) && Separator(m.sep)
  }

  predicate MembersOk(ms: seq<Member>) {
    forall i :: 0 <= i < |ms| ==> MemberOk(ms[i])
  }

  /** The value of the first member with this key. */
  function Field(ms: seq<Member>, key: Text): Option<Value> {
    if ms == [] then None else if ms[0].key == key then Some(ms[0].value) else Field(ms[1..], key)
  }

  /** A key name the scanner looks for: no character that would be escaped. */
  predicate Plain(key: Text) {
    forall i :: 0 <= i < |key| ==> key[i] != QUOTE && key[i] != BACKSLASH && key[i] != 0
  }

  // ---------------------------------------------------------------- scanning inverts printing

  lemma {:induction false} StringEndsAndContent(c: Text, rest: Text)
    requires NoNul(c)
    ensures StringEnd(Escape(c) + [QUOTE] + rest) == Some(rest)
    ensures StringContent(Escape(c) + [QUOTE] + rest) == c
  {
    var s := Escape(c) + [QUOTE] + rest;
    if c == [] {
      assert s == [QUOTE] + rest;
    } else {
      StringEndsAndContent(c[1..], rest);
      var t := Escape(c[1..]) + [QUOTE] + rest;
      if c[0] == QUOTE || c[0] == BACKSLASH {
        assert s == [BACKSLASH, c[0]] + t;
        assert s[2..] == t && s[1..][0] == c[0];
      } else {
        assert s == [c[0]] + t;
        assert s[1..] == t;
      }
      assert c == [c[0]] + c[1..];
    }
  }

  lemma QuotedRead(c: Text, rest: Text)
    requires NoNul(c)
    ensures var s := Quoted(c) + rest;
      s[0] == QUOTE && s[1..] == Escape(c) + [QUOTE] + rest
      && AfterString(s) == Some(rest) && StringAt(s) == Some(c)
  {
    hide StringEnd, StringContent, Escape;
    StringEndsAndContent(c, rest);
    var s := Quoted(c) + rest;
    assert s == [QUOTE] + (Escape(c) + [QUOTE] + rest);
    assert s[1..] == Escape(c) + [QUOTE] + rest;
  }

  /** A printed string starts with the key and a quote only when it is the key. */
  lemma {:induction false} KeyMatch(c: Text, key: Text, rest: Text)
    requires Plain(key)
    ensures Starts(Escape(c) + [QUOTE] + rest, key + [QUOTE]) <==> c == key
  {
    var s, k := Escape(c) + [QUOTE] + rest, key + [QUOTE];
    StartsHead(s, k);
    if c == [] || key == [] {
      if c == [] && key == [] {
        assert s[..1] == [QUOTE];
      }
    } else {
      KeyMatch(c[1..], key[1..], rest);
      var s', k' := Escape(c[1..]) + [QUOTE] + rest, key[1..] + [QUOTE];
      if c[0] != QUOTE && c[0] != BACKSLASH {
        assert s == [c[0]] + s' && k == [key[0]] + k';
        StartsCons(c[0], s', key[0], k');
        assert c == [c[0]] + c[1..] && key == [key[0]] + key[1..];
      }
    }
  }

  lemma StartsHead(s: Text, k: Text)
    requires k != []
    ensures Starts(s, k) ==> s != [] && s[0] == k[0]
  {
    if Starts(s, k) {
      assert s[..|k|][0] == k[0];
    }
  }

  lemma StartsCons(a: Octet, s: Text, b: Octet, k: Text)
    ensures Starts([a] + s, [b] + k) <==> a == b && Starts(s, k)
  {
    var s', k' := [a] + s, [b] + k;
    if Starts(s', k') {
      assert s'[..|k'|][0] == k'[0];
      assert s[..|k|] == s'[..|k'|][1..];
    }
    if a == b && Starts(s, k) {
      assert s'[..|k'|] == [a] + s[..|k|];
    }
  }

  lemma {:induction false} SkipBare(s: Text, rest: Text, key: Text)
    requires Bare(s)
    ensures FindValue(s + rest, key) == FindValue(rest, key)
  {
    if s == [] {
      assert s + rest == rest;
    } else {
      assert (s + rest)[1..] == s[1..] + rest;
      SkipBare(s[1..], rest, key);
    }
  }

  lemma {:induction false} SkipBlanksOver(s: Text, rest: Text)
    requires Blanks(s) && (rest != [] ==> !Blank(rest[0]))
    ensures SkipBlanks(s + rest) == rest
  {
    if s == [] {
      assert s + rest == rest;
    } else {
      assert (s + rest)[1..] == s[1..] + rest;
      SkipBlanksOver(s[1..], rest);
    }
  }

  /** What is left of a separator after its blanks. */
  lemma {:induction false} SeparatorRest(sep: Text, rest: Text)
    requires SkipBlanks(sep) != [] && Bare(sep)
    ensures SkipBlanks(sep + rest) == SkipBlanks(sep) + rest && Bare(SkipBlanks(sep))
  {
    if Blank(sep[0]) {
      assert (sep + rest)[1..] == sep[1..] + rest;
      SeparatorRest(sep[1..], rest);
    }
  }

  /** A string value is passed over, even when it is the very name that is looked for. */
  lemma PassString(c: Text, sep: Text, rest: Text, key: Text)
    requires NoNul(c) && Plain(key) && Separator(sep)
    ensures FindValue(Quoted(c) + (sep + rest), key) == FindValue(rest, key)
  {
    hide StringEnd, Escape, SkipBlanks, AfterString, StringAt, Starts, Quoted;
    var s := Quoted(c) + (sep + rest);
    QuotedRead(c, sep + rest);
    KeyMatch(c, key, sep + rest);
    SkipBare(sep, rest, key);
    if c == key {
      MatchedRest(key, sep + rest);
      SeparatorRest(sep, rest);
      SkipBare(SkipBlanks(sep), rest, key);
    }
  }

  lemma {:induction false} PlainEscape(key: Text)
    requires Plain(key)
    ensures Escape(key) == key
  {
    if key != [] {
      PlainEscape(key[1..]);
      assert key == [key[0]] + key[1..];
    }
  }

  lemma MatchedRest(key: Text, rest: Text)
    requires Plain(key)
    ensures |Quoted(key) + rest| >= |key| + 2 && (Quoted(key) + rest)[|key| + 2..] == rest
  {
    PlainEscape(key);
  }

  /** The text from a member's value on. */
  function ValueText(m: Member, rest: Text): Text {
    PrintValue(m.value) + (m.sep + rest)
  }

  lemma ValueStart(m: Member, rest: Text)
    requires MemberOk(m)
    ensures ValueText(m, rest) != [] && !Blank(ValueText(m, rest)[0])
  {
    hide Escape, SkipBlanks;
  }

  /** A member with another key is passed over. */
  lemma PassMember(m: Member, rest: Text, key: Text)
    requires MemberOk(m) && Plain(key) && m.key != key
    ensures FindValue(PrintMember(m) + rest, key) == FindValue(rest, key)
  {
    hide StringEnd, Escape, SkipBlanks, AfterString, StringAt, Starts, Separator, Quoted, FindValue;
    var tail := ValueText(m, rest);
    var mid := m.before + ([COLON] + (m.after + tail));
    MemberText(m, rest);
    QuotedRead(m.key, mid);
    KeyMatch(m.key, key, mid);
    NotOurs(Quoted(m.key) + mid, key, mid);
    assert mid == (m.before + [COLON] + m.after) + tail;
    SkipBare(m.before + [COLON] + m.after, tail, key);
    SeparatorBare(m.sep);
    if m.value.Str? {
      PassString(m.value.content, m.sep, rest, key);
    } else {
      BareValue(m.value);
      SkipBare(PrintValue(m.value), m.sep + rest, key);
      SkipBare(m.sep, rest, key);
    }
  }

  lemma NotOurs(s: Text, key: Text, rest: Text)
    requires s != [] && s[0] == QUOTE && !Starts(s[1..], key + [QUOTE]) && AfterString(s) == Some(rest)
    ensures FindValue(s, key) == FindValue(rest, key)
  {
    hide AfterString, Starts;
  }

  lemma SeparatorBare(sep: Text)
    requires Separator(sep)
    ensures Bare(sep)
  {}

  lemma BareValue(v: Value)
    requires ValueOk(v) && !v.Str?
    ensures Bare(PrintValue(v))
  {}

  lemma MemberText(m: Member, rest: Text)
    ensures PrintMember(m) + rest == Quoted(m.key) + (m.before + ([COLON] + (m.after + ValueText(m, rest))))
  {
    hide Quoted, PrintValue;
    Reassociate(Quoted(m.key), m.before + ([COLON] + (m.after + (PrintValue(m.value) + m.sep))), rest);
    Reassociate(m.before, [COLON] + (m.after + (PrintValue(m.value) + m.sep)), rest);
    Reassociate([COLON], m.after + (PrintValue(m.value) + m.sep), rest);
    Reassociate(m.after, PrintValue(m.value) + m.sep, rest);
    Reassociate(PrintValue(m.value), m.sep, rest);
  }

  lemma Reassociate(a: Text, b: Text, c: Text)
    ensures (a + b) + c == a + (b + c)
  {}

  /** The member with this key is found, at its value. */
  lemma FindMember(m: Member, rest: Text, key: Text)
    requires MemberOk(m) && Plain(key) && m.key == key
    ensures FindValue(PrintMember(m) + rest, key) == Some(ValueText(m, rest))
  {
    hide StringEnd, Escape, SkipBlanks, AfterString, StringAt, Starts, Separator, Quoted, ValueText;
    var tail := ValueText(m, rest);
    var mid := m.before + ([COLON] + (m.after + tail));
    MemberText(m, rest);
    QuotedRead(m.key, mid);
    KeyMatch(m.key, key, mid);
    MatchedRest(key, mid);
    ValueStart(m, rest);
    SkipBlanksOver(m.before, [COLON] + (m.after + tail));
    SkipBlanksOver(m.after, tail);
    assert ([COLON] + (m.after + tail))[1..] == m.after + tail;
  }

  /** The value is there, followed by something that is not a digit. */
  ghost predicate FoundAt(found: Option<Text>, v: Value) {
    exists sep: Text :: ReadsAs(found, v, sep)
  }

  predicate ReadsAs(found: Option<Text>, v: Value, sep: Text) {
    found == Some(PrintValue(v) + sep) && ValueOk(v) && sep != [] && !Digit(sep[0])
  }

  /** Whatever the order of the members, the scanner finds a value exactly when the object has one. */
  lemma {:induction false} FindField(ms: seq<Member>, rest: Text, key: Text)
    requires MembersOk(ms) && Plain(key) && Ended(rest)
    ensures match Field(ms, key)
      case None => FindValue(PrintMembers(ms) + rest, key) == None
      case Some(v) => FoundAt(FindValue(PrintMembers(ms) + rest, key), v)
    decreases |ms|
  {
    hide PrintMember, FindValue, MemberOk, FoundAt;
    if ms == [] {
      assert PrintMembers(ms) + rest == rest;
      EndedFind(rest, key);
    } else {
      var tail := PrintMembers(ms[1..]) + rest;
      Reassociate(PrintMember(ms[0]), PrintMembers(ms[1..]), rest);
      if ms[0].key == key {
        FindMember(ms[0], tail, key);
        FoundSeparator(ms[0], tail);
      } else {
        PassMember(ms[0], tail, key);
        FindField(ms[1..], rest, key);
      }
    }
  }

  lemma EndedFind(s: Text, key: Text)
    requires Ended(s)
    ensures FindValue(s, key) == None
  {}

  lemma FoundSeparator(m: Member, rest: Text)
    requires MemberOk(m)
    ensures FoundAt(Some(ValueText(m, rest)), m.value)
  {
    assert ReadsAs(Some(ValueText(m, rest)), m.value, m.sep + rest) by {
      hide PrintValue, ValueOk, SkipBlanks;
    }
  }

  /** The number the digits stand for. */
  function Numeral(ds: Text): nat
    requires AllDigits(ds)
  {
    if ds == [] then 0 else Numeral(ds[..|ds| - 1]) * 10 + (ds[|ds| - 1] - 48)
  }

  lemma {:induction false} DigitsRead(done: Text, ds: Text, rest: Text)
    requires AllDigits(done) && AllDigits(ds) && rest != [] && !Digit(rest[0])
    ensures Digits(Numeral(done), ds + rest) == Numeral(done + ds)
    decreases |ds|
  {
    if ds == [] {
      assert ds + rest == rest && done + ds == done;
    } else {
      var s := ds + rest;
      assert s[1..] == ds[1..] + rest;
      var done' := done + [ds[0]];
      assert done'[..|done|] == done;
      DigitsRead(done', ds[1..], rest);
      assert done' + ds[1..] == done + ds;
    }
  }

  /** The integer a value is read as: only numbers are read, and only up to a fraction or exponent. */
  function IntegerPart(v: Value): Option<int>
    requires ValueOk(v)
  {
    match v
    case Num(neg, digits, _) =>
      var n: int := Numeral(digits);
      Some(if neg then -n else n)
    case _ => None
  }

  lemma ReadInt(v: Value, sep: Text)
    requires ValueOk(v) && sep != [] && !Digit(sep[0])
    ensures IntAt(PrintValue(v) + sep) == IntegerPart(v)
  {
    hide Escape, Numeral, Digits;
    if v.Num? {
      var after := v.tail + sep;
      NumberText(v.neg, v.digits, v.tail, sep);
      assert after != [] && !Digit(after[0]);
      ReadNumber(v.neg, v.digits, after);
    }
  }

  lemma NumberText(neg: bool, digits: Text, tail: Text, sep: Text)
    ensures PrintValue(Num(neg, digits, tail)) + sep == if neg then [MINUS] + (digits + (tail + sep)) else digits + (tail + sep)
  {
    assert [] + digits == digits;
    if neg {
      Reassociate([MINUS] + digits, tail, sep);
      Reassociate([MINUS], digits, tail + sep);
    } else {
      Reassociate(digits, tail, sep);
    }
  }

  lemma ReadNumber(neg: bool, digits: Text, after: Text)
    requires digits != [] && AllDigits(digits) && after != [] && !Digit(after[0])
    ensures IntAt(if neg then [MINUS] + (digits + after) else digits + after)
      == (var n: int := Numeral(digits); Some(if neg then -n else n))
  {
    hide Numeral, Digits;
    NumeralNothing();
    DigitsRead([], digits, after);
    assert [] + digits == digits;
    assert ([MINUS] + (digits + after))[1..] == digits + after;
  }

  lemma NumeralNothing()
    ensures Numeral([]) == 0
  {}

  lemma ReadString(v: Value, sep: Text)
    requires ValueOk(v) && sep != []
    ensures v.Str? ==> StringAt(PrintValue(v) + sep) == Some(v.content)
    ensures !v.Str? ==> StringAt(PrintValue(v) + sep) == None && PrintValue(v) != [] && PrintValue(v)[0] != QUOTE
  {
    hide Escape, StringEnd, StringContent;
    if v.Str? {
      QuotedRead(v.content, sep);
    }
  }
}
