/**
 * The field rules of docs/aprs_mvp_docs/payload_contracts.md:29-62 in plain characters, and the
 * validators of PayloadValidator.cpp:123-217 held against them.
 */
module PayloadRules {
  import opened Bytes
  import opened JsonText
  import opened PayloadValidator
  import TxScheduler

  /** The bytes of an ASCII text. */
  function TextOf(s: string): (t: Text)
    requires forall i :: 0 <= i < |s| ==> s[i] < 128 as char
    ensures |t| == |s| && forall i :: 0 <= i < |s| ==> t[i] == s[i] as int
  {
    seq(|s|, i requires 0 <= i < |s| => s[i] as int)
  }

  predicate LetterDigitOrDash(c: char) {
    'A' <= c <= 'Z' || 'a' <= c <= 'z' || '0' <= c <= '9' || c == '-'
  }

  /** "1-6 chars from [A-Za-z0-9-]". */
  predicate CallsignRule(s: Text) {
    1 <= |s| <= 6 && forall i :: 0 <= i < |s| ==> LetterDigitOrDash(s[i] as char)
  }

  lemma CallsignRuleIs(s: Text)
    ensures ValidCallsign(s) <==> CallsignRule(s)
  {
    forall b: Octet ensures CallsignChar(b) <==> LetterDigitOrDash(b as char) {}
  }

  lemma KeyNames()
    ensures CALLSIGN == TextOf("callsign") && DEST == TextOf("dest") && TEXT == TextOf("text") && SSID == TextOf("ssid")
    ensures QUOTE == '"' as int && BACKSLASH == '\\' as int && COLON == ':' as int && MINUS == '-' as int
    ensures SPACE == ' ' as int && TAB == '\t' as int
  {}

  /** An ssid that is absent, or a number whose digits before any fraction read 0 to 15. */
  predicate SsidRule(v: Option<Value>) {
    v.Some? ==> v.value.Num? && AllDigits(v.value.digits) && Numeral(v.value.digits) <= if v.value.neg then 0 else 15
  }

  lemma SsidRuleIs(v: Option<Value>)
    requires v.Some? ==> ValueOk(v.value)
    ensures SsidOk(v) <==> SsidRule(v)
  {
    hide Numeral;
  }

  /** The TX-request validator accepts exactly the objects that meet the rules. */
  lemma TxRequestRules(start: Text, ms: seq<Member>)
    requires Bare(start) && MembersOk(ms) && 0 < |Printed(start, ms)| < 512
    ensures var dest, text, ssid := Field(ms, TextOf("dest")), Field(ms, TextOf("text")), Field(ms, TextOf("ssid"));
      TxRequest(Printed(start, ms)).Some? <==>
        (dest.Some? && dest.value.Str? && CallsignRule(dest.value.content)
         && text.Some? && text.value.Str? && 1 <= |text.value.content| <= 67 && SsidRule(ssid))
  {
    KeyNames();
    var dest, ssid := Field(ms, DEST), Field(ms, SSID);
    TxRequestAccepts(start, ms);
    SsidRuleIs(ssid);
    if dest.Some? && dest.value.Str? {
      CallsignRuleIs(dest.value.content);
    }
    hide TxRequest, Printed, Field, ValidCallsign, CallsignRule, SsidOk, SsidValue, SsidRule, TextOf;
  }

  /** And so does the config validator. */
  lemma ConfigRules(start: Text, ms: seq<Member>)
    requires Bare(start) && MembersOk(ms) && 0 < |Printed(start, ms)| < 512
    ensures var callsign, ssid := Field(ms, TextOf("callsign")), Field(ms, TextOf("ssid"));
      Config(Printed(start, ms)).Some? <==>
        callsign.Some? && callsign.value.Str? && CallsignRule(callsign.value.content) && SsidRule(ssid)
  {
    KeyNames();
    var callsign, ssid := Field(ms, CALLSIGN), Field(ms, SSID);
    ConfigAccepts(start, ms);
    SsidRuleIs(ssid);
    if callsign.Some? && callsign.value.Str? {
      CallsignRuleIs(callsign.value.content);
    }
    hide Config, Printed, Field, ValidCallsign, CallsignRule, SsidOk, SsidValue, SsidRule, TextOf;
  }

  /** Anything empty or of 512 bytes and more is refused unread. */
  lemma LengthRefused(data: Text)
    requires data == [] || |data| >= 512
    ensures TxRequest(data) == None && Config(data) == None
  {
    hide StringField, SsidField;
  }

  lemma {:induction false} DecimalDigits(n: nat, i: nat)
    requires i < |TxScheduler.Decimal(n)|
    ensures '0' <= TxScheduler.Decimal(n)[i] <= '9'
  {
    if n >= 10 && i < |TxScheduler.Decimal(n)| - 1 {
      DecimalDigits(n / 10, i);
    }
  }

  /** The digits of n as bytes. */
  function DigitBytes(n: nat): (t: Text)
    ensures |t| == |TxScheduler.Decimal(n)| && AllDigits(t)
  {
    var s := TxScheduler.Decimal(n);
    forall i | 0 <= i < |s| ensures '0' <= s[i] <= '9' { DecimalDigits(n, i); }
    TextOf(s)
  }

  /** A number is read as the one that is printed with these digits. */
  lemma {:induction false} NumeralReadsDecimal(n: nat)
    ensures Numeral(DigitBytes(n)) == n
  {
    var t := DigitBytes(n);
    if n >= 10 {
      NumeralReadsDecimal(n / 10);
      assert t[..|t| - 1] == DigitBytes(n / 10);
    } else {
      assert t[..0] == [];
    }
  }
}
