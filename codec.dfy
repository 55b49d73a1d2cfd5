/** A stand-in for `encoding/json` on the two shapes the store uses: one record
    `{"id":"…","email":"…","age":…}` and an array of records `[…,…]`. The
    printer writes the text json.Marshal writes for such values, with Go's
    escapes for quotes, backslashes, control characters, `<`, `>`, `&` and the
    line and paragraph separators. The parser decodes every JSON escape and,
    like Go's decoder, refuses raw control characters in a string and leading
    zeros in a number; it reads only that compact layout with the fields in
    order, and reports every other text as malformed. */
module Codec {
  import opened Records

  // ---------------------------------------------------------------------
  // Decimal integers

  predicate IsDigit(c: char) { '0' <= c <= '9' }

  predicate AllDigits(s: string) {
    forall i :: 0 <= i < |s| ==> IsDigit(s[i])
  }

  function DigitChar(d: nat): char
    requires d < 10
  {
    (48 + d) as char
  }

  /** The decimal text of `n`, without leading zeros. */
  function NatText(n: nat): (s: string)
    ensures |s| > 0 && AllDigits(s)
    ensures n < 10 ==> |s| == 1
    ensures n > 0 ==> s[0] != '0'
    decreases n
  {
    if n < 10 then [DigitChar(n)] else NatText(n / 10) + [DigitChar(n % 10)]
  }

  /** The value of a run of decimal digits. */
  function DigitsValue(s: string): nat
    requires AllDigits(s)
    decreases |s|
  {
    if |s| == 0 then 0 else DigitsValue(s[..|s| - 1]) * 10 + (s[|s| - 1] as int - 48)
  }

  /** The length of the run of digits that `s` starts with. */
  function DigitRun(s: string): (k: nat)
    ensures k <= |s| && AllDigits(s[..k])
    ensures k < |s| ==> !IsDigit(s[k])
    decreases |s|
  {
    if |s| > 0 && IsDigit(s[0]) then
      assert s[1..][..DigitRun(s[1..])] == s[1..1 + DigitRun(s[1..])];
      1 + DigitRun(s[1..])
    else 0
  }

  /** Reads a run of digits. As in JSON, a number of more than one digit
      may not start with '0'. */
  function ParseNat(s: string): (r: Option<(nat, string)>)
    ensures r.Some? ==> |r.value.1| < |s|
  {
    var k := DigitRun(s);
    if k == 0 || (k > 1 && s[0] == '0') then None else Some((DigitsValue(s[..k]), s[k..]))
  }

  /** The decimal text of an integer, with a leading '-' when negative. */
  function IntText(x: int): string {
    if x < 0 then "-" + NatText(-x) else NatText(x)
  }

  function ParseInt(s: string): (r: Option<(int, string)>)
    ensures r.Some? ==> |r.value.1| < |s|
  {
    if |s| > 0 && s[0] == '-' then
      match ParseNat(s[1..])
      case None => None
      case Some((v, rest)) => Some((-(v as int), rest))
    else
      match ParseNat(s)
      case None => None
      case Some((v, rest)) => Some((v, rest))
  }

  lemma {:induction false} NatTextValue(n: nat)
    ensures DigitsValue(NatText(n)) == n
    decreases n
  {
    if n >= 10 {
      var s := NatText(n);
      assert s[..|s| - 1] == NatText(n / 10);
      NatTextValue(n / 10);
    }
  }

  lemma {:induction false} DigitRunOf(t: string, rest: string)
    requires AllDigits(t)
    requires |rest| == 0 || !IsDigit(rest[0])
    ensures DigitRun(t + rest) == |t|
    decreases |t|
  {
    if |t| > 0 {
      assert (t + rest)[1..] == t[1..] + rest;
      DigitRunOf(t[1..], rest);
    }
  }

  lemma NatTextRoundTrip(n: nat, rest: string)
    requires |rest| == 0 || !IsDigit(rest[0])
    ensures ParseNat(NatText(n) + rest) == Some((n, rest))
  {
    var t := NatText(n);
    DigitRunOf(t, rest);
    assert (t + rest)[..|t|] == t;
    assert (t + rest)[|t|..] == rest;
    NatTextValue(n);
  }

  /** Reading back the text of an integer gives that integer and leaves the
      text after it, provided that text does not continue the digits. */
  lemma IntTextRoundTrip(x: int, rest: string)
    requires |rest| == 0 || !IsDigit(rest[0])
    ensures ParseInt(IntText(x) + rest) == Some((x, rest))
  {
    if x < 0 {
      NegativeTextRoundTrip(-x, rest);
    } else {
      var t := NatText(x) + rest;
      assert t[0] == NatText(x)[0];
      NatTextRoundTrip(x, rest);
      ParseIntNonNegative(t, x, rest);
    }
  }

  lemma NegativeTextRoundTrip(v: nat, rest: string)
    requires |rest| == 0 || !IsDigit(rest[0])
    ensures ParseInt("-" + NatText(v) + rest) == Some((-(v as int), rest))
  {
    var t := NatText(v) + rest;
    assert "-" + NatText(v) + rest == ['-'] + t;
    NatTextRoundTrip(v, rest);
    ParseIntNegative(t, v, rest);
  }

  lemma ParseIntNegative(t: string, v: nat, rest: string)
    requires ParseNat(t) == Some((v, rest))
    ensures ParseInt(['-'] + t) == Some((-(v as int), rest))
  {
    assert (['-'] + t)[1..] == t;
  }

  lemma ParseIntNonNegative(t: string, v: nat, rest: string)
    requires |t| > 0 && IsDigit(t[0])
    requires ParseNat(t) == Some((v, rest))
    ensures ParseInt(t) == Some((v as int, rest))
  {
  }

  // ---------------------------------------------------------------------
  // Strings

  /** The lower-case hexadecimal digit for `d`. */
  function HexDigit(d: nat): char
    requires d < 16
  {
    if d < 10 then (48 + d) as char else (87 + d) as char
  }

  /** The value of a hexadecimal digit of either case. */
  function HexValue(c: char): Option<nat> {
    if '0' <= c <= '9' then Some(c as int - 48)
    else if 'a' <= c <= 'f' then Some(c as int - 87)
    else if 'A' <= c <= 'F' then Some(c as int - 55)
    else None
  }

  /** The code unit of a `\uXXXX` escape at the start of `s`. */
  function Unicode4(s: string): (r: Option<nat>)
    ensures r.Some? ==> |s| >= 6 && r.value < 0x10000
    ensures r.Some? ==> forall i :: 0 <= i < 6 ==> s[i] >= ' '
  {
    if |s| < 6 || s[0] != '\\' || s[1] != 'u' then None
    else
      var a :- HexValue(s[2]);
      var b :- HexValue(s[3]);
      var c :- HexValue(s[4]);
      var d :- HexValue(s[5]);
      if a < 16 && b < 16 && c < 16 && d < 16 then Some(a * 4096 + b * 256 + c * 16 + d) else None
  }

  /** How json.Marshal writes one character inside a string literal: the
      quote and the backslash are preceded by a backslash; newline, carriage
      return and tab get their short escapes; the other control characters
      and the HTML-sensitive `<`, `>` and `&` become `\u00XX`; the line and
      paragraph separators become `\u2028` and `\u2029`. */
  function EscapeChar(c: char): (e: string)
    ensures |e| > 0 && e[0] != '"'
  {
    if c == '"' || c == '\\' then ['\\', c]
    else if c == '\n' then ['\\', 'n']
    else if c == '\r' then ['\\', 'r']
    else if c == '\t' then ['\\', 't']
    else if c < ' ' || c == '<' || c == '>' || c == '&' then
      ['\\', 'u', '0', '0', HexDigit(c as int / 16), HexDigit(c as int % 16)]
    else if c == 0x2028 as char || c == 0x2029 as char then
      ['\\', 'u', '2', '0', '2', HexDigit(c as int % 16)]
    else [c]
  }

  /** The body of the JSON string literal json.Marshal writes for `s`. */
  function Escape(s: string): string
    decreases |s|
  {
    if |s| == 0 then "" else EscapeChar(s[0]) + Escape(s[1..])
  }

  /** Reads one character of a string literal's body: a raw character, which
      must not be a control character, or an escape. A `\u` escape of a high
      surrogate followed by one of a low surrogate is one character; any other
      surrogate reads as U+FFFD. Gives the character and the length of text it
      took. */
  function ReadChar(s: string): (r: Option<(char, nat)>)
    requires |s| > 0
    ensures r.Some? ==> 1 <= r.value.1 <= |s|
  {
    if s[0] < ' ' then None
    else if s[0] != '\\' then Some((s[0], 1))
    else if |s| < 2 then None
    else if s[1] == '"' || s[1] == '\\' || s[1] == '/' then Some((s[1], 2))
    else if s[1] == 'b' then Some((8 as char, 2))
    else if s[1] == 'f' then Some((12 as char, 2))
    else if s[1] == 'n' then Some(('\n', 2))
    else if s[1] == 'r' then Some(('\r', 2))
    else if s[1] == 't' then Some(('\t', 2))
    else if s[1] != 'u' then None
    else
      var v :- Unicode4(s);
      if v < 0xD800 || 0xE000 <= v then Some((v as char, 6))
      else match Unicode4(s[6..])
        case Some(w) =>
          if v < 0xDC00 && 0xDC00 <= w < 0xE000 then
            Some(((0x10000 + (v - 0xD800) * 0x400 + (w - 0xDC00)) as char, 12))
          else Some((0xFFFD as char, 6))
        case None => Some((0xFFFD as char, 6))
  }

  /** Reads a string literal's body up to its closing quote; gives the
      decoded text and what follows the quote. */
  function ParseString(s: string): (r: Option<(string, string)>)
    ensures r.Some? ==> |r.value.1| < |s|
    decreases |s|
  {
    if |s| == 0 then None
    else if s[0] == '"' then Some(("", s[1..]))
    else
      var p :- ReadChar(s);
      var q :- ParseString(s[p.1..]);
      Some(([p.0] + q.0, q.1))
  }

  lemma HexDigitValue(d: nat)
    requires d < 16
    ensures HexValue(HexDigit(d)) == Some(d)
  {
  }

  /** Each character's escape reads back as that character, taking exactly
      the escape's text. */
  lemma EscapeCharRead(c: char, t: string)
    ensures ReadChar(EscapeChar(c) + t) == Some((c, |EscapeChar(c)|))
  {
    var e := EscapeChar(c);
    var s := e + t;
    if c == '"' || c == '\\' || c == '\n' || c == '\r' || c == '\t' {
      assert s[0] == '\\' && s[1] == e[1];
    } else if c < ' ' || c == '<' || c == '>' || c == '&' {
      var hi, lo := c as int / 16, c as int % 16;
      assert s[..6] == e;
      HexDigitValue(hi);
      HexDigitValue(lo);
      assert Unicode4(s) == Some(hi * 16 + lo);
    } else if c == 0x2028 as char || c == 0x2029 as char {
      var lo := c as int % 16;
      assert s[..6] == e;
      HexDigitValue(lo);
      assert Unicode4(s) == Some(0x2020 + lo);
    } else {
      assert s[0] == c;
    }
  }

  /** Reading an escaped character and then the rest of a literal. */
  lemma ParseStringStep(c: char, t: string)
    ensures ParseString(EscapeChar(c) + t) ==
      match ParseString(t)
      case None => None
      case Some((u, rest)) => Some(([c] + u, rest))
  {
    var e := EscapeChar(c);
    EscapeCharRead(c, t);
    assert (e + t)[0] == e[0] && (e + t)[|e|..] == t;
  }

  lemma {:induction false} EscapeRoundTrip(s: string, rest: string)
    ensures ParseString(Escape(s) + ("\"" + rest)) == Some((s, rest))
    decreases |s|
  {
    if |s| == 0 {
      assert Escape(s) + ("\"" + rest) == "\"" + rest;
    } else {
      var tail := Escape(s[1..]) + ("\"" + rest);
      assert Escape(s) + ("\"" + rest) == EscapeChar(s[0]) + tail;
      ParseStringStep(s[0], tail);
      EscapeRoundTrip(s[1..], rest);
      assert [s[0]] + s[1..] == s;
    }
  }

  /** A number of two or more digits starting with '0' is refused, as the
      JSON grammar refuses it. */
  lemma LeadingZeroRejected(s: string)
    requires |s| > 1 && s[0] == '0' && IsDigit(s[1])
    ensures ParseNat(s).None? && ParseInt(s).None?
  {
    assert DigitRun(s) == 1 + DigitRun(s[1..]);
    assert DigitRun(s[1..]) > 0;
  }

  /** A raw control character inside a string literal is refused: whatever
      plain characters come before it, the literal does not parse. */
  lemma {:induction false} RawControlRejected(u: string, c: char, t: string)
    requires forall i :: 0 <= i < |u| ==> ' ' <= u[i] && u[i] != '"' && u[i] != '\\'
    requires c < ' '
    ensures ParseString(u + ([c] + t)).None?
    decreases |u|
  {
    var s := u + ([c] + t);
    if |u| == 0 {
      assert s[0] == c;
    } else {
      assert s[0] == u[0] && s[1..] == u[1..] + ([c] + t);
      RawControlRejected(u[1..], c, t);
    }
  }

  /** No character that ReadChar takes is a raw control character. */
  lemma ReadCharNoControl(s: string)
    requires |s| > 0 && ReadChar(s).Some?
    ensures forall i :: 0 <= i < ReadChar(s).value.1 ==> s[i] >= ' '
  {
    if s[0] == '\\' && s[1] == 'u' {
      var v := Unicode4(s).value;
      if 0xD800 <= v < 0xE000 && Unicode4(s[6..]).Some? && ReadChar(s).value.1 == 12 {
        assert forall i :: 6 <= i < 12 ==> s[i] == s[6..][i - 6];
      }
    }
  }

  /** Whatever a string literal parses to, the text it took holds no raw
      control character: one anywhere before the closing quote, after plain
      characters or after escapes, makes the literal fail to parse. */
  lemma {:induction false} ParsedHasNoRawControl(s: string)
    requires ParseString(s).Some?
    ensures forall i :: 0 <= i < |s| - |ParseString(s).value.1| ==> s[i] >= ' '
    decreases |s|
  {
    if s[0] != '"' {
      var n := ReadChar(s).value.1;
      ReadCharNoControl(s);
      ParsedHasNoRawControl(s[n..]);
      assert ParseString(s).value.1 == ParseString(s[n..]).value.1;
      forall i | n <= i < |s| - |ParseString(s).value.1|
        ensures s[i] >= ' '
      {
        assert s[i] == s[n..][i - n];
      }
    }
  }

  // ---------------------------------------------------------------------
  // Records and arrays of records

  const RecordOpen := "{\"id\":\""
  const EmailKey := ",\"email\":\""
  const AgeKey := ",\"age\":"
  const RecordClose := "}"

  /** The remainder of `s` after the prefix `p`, if `s` starts with `p`. */
  function Expect(s: string, p: string): (r: Option<string>)
    ensures r.Some? ==> |r.value| == |s| - |p|
  {
    if |p| <= |s| && s[..|p|] == p then Some(s[|p|..]) else None
  }

  lemma ExpectPrefix(p: string, t: string)
    ensures Expect(p + t, p) == Some(t)
  {
    assert (p + t)[..|p|] == p;
    assert (p + t)[|p|..] == t;
  }

  /** The text json.Marshal writes for record `r`, followed by `rest`. */
  function RecordThen(r: Record, rest: string): string {
    RecordOpen + (Escape(r.id) + ("\"" + (EmailKey + (Escape(r.email) + ("\""
      + (AgeKey + (IntText(r.age) + (RecordClose + rest))))))))
  }

  /** json.Marshal of one record. */
  function MarshalRecord(r: Record): string {
    RecordThen(r, "")
  }

  /** Reads one record; gives it and the text after its closing brace. An age
      outside the 8-bit range is rejected, as the Go decoder rejects it. */
  function ParseRecord(s: string): (r: Option<(Record, string)>)
    ensures r.Some? ==> |r.value.1| < |s|
  {
    var s1 :- Expect(s, RecordOpen);
    var p2 :- ParseString(s1);
    var s3 :- Expect(p2.1, EmailKey);
    var p4 :- ParseString(s3);
    var s5 :- Expect(p4.1, AgeKey);
    var p6 :- ParseInt(s5);
    var s7 :- Expect(p6.1, RecordClose);
    if -128 <= p6.0 < 128 then Some((Record(p2.0, p4.0, p6.0), s7)) else None
  }

  lemma RecordRoundTrip(r: Record, rest: string)
    ensures ParseRecord(RecordThen(r, rest)) == Some((r, rest))
  {
    var s7 := RecordClose + rest;
    var s5 := IntText(r.age) + s7;
    var s3 := Escape(r.email) + ("\"" + (AgeKey + s5));
    var s1 := Escape(r.id) + ("\"" + (EmailKey + s3));
    ExpectPrefix(RecordOpen, s1);
    EscapeRoundTrip(r.id, EmailKey + s3);
    ExpectPrefix(EmailKey, s3);
    EscapeRoundTrip(r.email, AgeKey + s5);
    ExpectPrefix(AgeKey, s5);
    IntTextRoundTrip(r.age, s7);
    ExpectPrefix(RecordClose, rest);
  }

  /** The text json.Marshal writes for the elements of `m`, separated by
      commas, followed by `rest`. */
  function ItemsThen(m: seq<Record>, rest: string): string
    decreases |m|
  {
    if |m| == 0 then rest
    else if |m| == 1 then RecordThen(m[0], rest)
    else RecordThen(m[0], "," + ItemsThen(m[1..], rest))
  }

  /** json.Marshal of a slice of records. */
  function Marshal(m: seq<Record>): string {
    "[" + ItemsThen(m, "]")
  }

  /** Reads the records of a non-empty array up to and including its closing
      bracket; gives them and the text after the bracket. */
  function ParseItems(s: string): (r: Option<(seq<Record>, string)>)
    ensures r.Some? ==> |r.value.1| < |s|
    decreases |s|
  {
    var p :- ParseRecord(s);
    var rest := p.1;
    if |rest| > 0 && rest[0] == ',' then
      var q :- ParseItems(rest[1..]);
      Some(([p.0] + q.0, q.1))
    else if |rest| > 0 && rest[0] == ']' then Some(([p.0], rest[1..]))
    else None
  }

  lemma {:induction false} ItemsRoundTrip(m: seq<Record>, rest: string)
    requires |m| > 0
    ensures ParseItems(ItemsThen(m, "]" + rest)) == Some((m, rest))
    decreases |m|
  {
    if |m| == 1 {
      RecordRoundTrip(m[0], "]" + rest);
      assert ("]" + rest)[1..] == rest;
      assert [m[0]] == m;
    } else {
      var tail := ItemsThen(m[1..], "]" + rest);
      RecordRoundTrip(m[0], "," + tail);
      assert ("," + tail)[1..] == tail;
      ItemsRoundTrip(m[1..], rest);
      assert [m[0]] + m[1..] == m;
    }
  }

  /** json.Unmarshal into a slice of records. */
  function Unmarshal(s: string): (r: Result<seq<Record>>)
    ensures r.Err? ==> r.error == MalformedJson
  {
    if s == "[]" then Ok([])
    else if |s| > 0 && s[0] == '[' then
      match ParseItems(s[1..])
      case Some((m, rest)) => if rest == "" then Ok(m) else Err(MalformedJson)
      case None => Err(MalformedJson)
    else Err(MalformedJson)
  }

  /** json.Unmarshal into a single record. */
  function UnmarshalRecord(s: string): (r: Result<Record>)
    ensures r.Err? ==> r.error == MalformedJson
  {
    match ParseRecord(s)
    case Some((rec, rest)) => if rest == "" then Ok(rec) else Err(MalformedJson)
    case None => Err(MalformedJson)
  }

  /** Decoding what was written gives back the collection that was written:
      persisting and then loading is the identity on collections. */
  lemma UnmarshalMarshal(m: seq<Record>)
    ensures Unmarshal(Marshal(m)) == Ok(m)
  {
    if |m| > 0 {
      var s := Marshal(m);
      assert "]" + "" == "]";
      assert s[1..] == ItemsThen(m, "]");
      ItemsRoundTrip(m, "");
      assert s[1] == '{';
    }
  }

  /** The same for a single record (the `item` flag and find's output). */
  lemma UnmarshalMarshalRecord(r: Record)
    ensures UnmarshalRecord(MarshalRecord(r)) == Ok(r)
  {
    RecordRoundTrip(r, "");
  }

  /** Different collections are written as different texts. */
  lemma MarshalInjective(m1: seq<Record>, m2: seq<Record>)
    requires Marshal(m1) == Marshal(m2)
    ensures m1 == m2
  {
    UnmarshalMarshal(m1);
    UnmarshalMarshal(m2);
  }
}
