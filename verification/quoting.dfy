/**
 Strings on the wire: `kt_quote` and `kt_quote_blob` write one, `p_string` reads
 one back. A string here is a run of bytes, one `char` to a byte.
 */
module Quoting {

  type Byte = c: char | c as int < 0x100

  /** A C string ends at its first NUL. */
  function CText(s: string): string {
    if s == "" || s[0] == '\0' then "" else [s[0]] + CText(s[1..])
  }

  predicate NulFree(s: string) {
    '\0' !in s
  }

  function HexDigit(n: nat): char
    requires n < 16
  {
    if n < 10 then ('0' as int + n) as char else ('a' as int + n - 10) as char
  }

  function HexEscape(c: Byte): string {
    ['\\', 'x', HexDigit(c as int / 16), HexDigit(c as int % 16)]
  }

  const ESC: char := 0x1b as char

  /** How one character of text is written between the quotes. */
  function EscapeText(c: char): string {
    if c == '"' then "\\\""
    else if c == '\\' then "\\\\"
    else if c == '\n' then "\\n"
    else if c == '\t' then "\\t"
    else if c == '\r' then "\\r"
    else if c == ESC then "\\e"
    else if c as int < 0x20 || c as int == 0x7f then HexEscape(c)
    else [c]
  }

  /** How one byte of a blob is: nothing outside printable ASCII stands for itself. */
  function EscapeByte(c: Byte): string {
    if c == '"' then "\\\""
    else if c == '\\' then "\\\\"
    else if 0x20 <= c as int < 0x7f then [c]
    else HexEscape(c)
  }

  function EscapedText(s: string): string {
    if s == "" then "" else EscapeText(s[0]) + EscapedText(s[1..])
  }

  function EscapedBytes(s: seq<Byte>): string {
    if s == [] then "" else EscapeByte(s[0]) + EscapedBytes(s[1..])
  }

  function Quote(s: string): string {
    "\"" + EscapedText(CText(s)) + "\""
  }

  function QuoteBlob(data: seq<Byte>): string {
    "\"" + EscapedBytes(data) + "\""
  }

  lemma {:induction false} TextStep(b: string, s: string, i: nat)
    requires i < |s| && s[i] != '\0'
    ensures b + EscapedText(CText(s[i..])) == (b + EscapeText(s[i])) + EscapedText(CText(s[i + 1..]))
  {
    assert s[i..][1..] == s[i + 1..];
    assert CText(s[i..])[1..] == CText(s[i + 1..]);
  }

  lemma {:induction false} BytesStep(b: string, s: seq<Byte>, i: nat)
    requires i < |s|
    ensures b + EscapedBytes(s[i..]) == (b + EscapeByte(s[i])) + EscapedBytes(s[i + 1..])
  {
    assert s[i..][1..] == s[i + 1..];
  }

  method KtQuote(s: string) returns (b: string)
    ensures b == Quote(s)
  {
    b := "\"";
    var i := 0;
    assert s[0..] == s;
    while i < |s| && s[i] != '\0'
      invariant i <= |s|
      invariant b + EscapedText(CText(s[i..])) == "\"" + EscapedText(CText(s))
    {
      var c := s[i];
      TextStep(b, s, i);
      if c == '"' {
        b := b + "\\\"";
      } else if c == '\\' {
        b := b + "\\\\";
      } else if c == '\n' {
        b := b + "\\n";
      } else if c == '\t' {
        b := b + "\\t";
      } else if c == '\r' {
        b := b + "\\r";
      } else if c == ESC {
        b := b + "\\e";
      } else if c as int < 0x20 || c as int == 0x7f {
        b := b + HexEscape(c);
      } else {
        b := b + [c];
      }
      i := i + 1;
    }
    assert EscapedText(CText(s[i..])) == "";
    b := b + "\"";
  }

  method KtQuoteBlob(data: seq<Byte>) returns (b: string)
    ensures b == QuoteBlob(data)
  {
    b := "\"";
    assert data[0..] == data;
    for i := 0 to |data|
      invariant b + EscapedBytes(data[i..]) == "\"" + EscapedBytes(data)
    {
      var c := data[i];
      BytesStep(b, data, i);
      if c == '"' {
        b := b + "\\\"";
      } else if c == '\\' {
        b := b + "\\\\";
      } else if 0x20 <= c as int < 0x7f {
        b := b + [c];
      } else {
        b := b + HexEscape(c);
      }
    }
    b := b + "\"";
  }

  // ----- reading one back -----

  function HexValue(c: char): int {
    if '0' <= c <= '9' then c as int - '0' as int
    else if 'a' <= c <= 'f' then c as int - 'a' as int + 10
    else if 'A' <= c <= 'F' then c as int - 'A' as int + 10
    else -1
  }

  function Unescape(e: char): char {
    if e == 'n' then '\n'
    else if e == 't' then '\t'
    else if e == 'r' then '\r'
    else if e == 'e' then ESC
    else e
  }

  datatype Unquoted = Unquoted(value: string, rest: string)

  function Rest(s: string): string {
    if s == "" then "" else s[1..]
  }

  /** What `\x` puts: two hex digits name a byte, and anything else names nothing
      although both characters are consumed all the same. */
  function HexByte(s: string): string {
    if |s| < 2 || HexValue(s[0]) < 0 || HexValue(s[1]) < 0 then ""
    else [(HexValue(s[0]) * 16 + HexValue(s[1])) as char]
  }

  /** What follows an opening quote, as the characters it stands for and what is
      left past the closing quote. Text that ends first ends the string. */
  function ReadString(s: string): (r: Unquoted)
    ensures |r.rest| <= |s|
  {
    if s == "" then Unquoted("", "")
    else if s[0] == '"' then Unquoted("", s[1..])
    else if s[0] == '\\' && |s| > 1 then
      if s[1] == 'x' then
        var r := ReadString(Rest(Rest(s[2..])));
        Unquoted(HexByte(s[2..]) + r.value, r.rest)
      else
        var r := ReadString(s[2..]);
        Unquoted([Unescape(s[1])] + r.value, r.rest)
    else
      var r := ReadString(s[1..]);
      Unquoted([s[0]] + r.value, r.rest)
  }

  lemma {:induction false} DigitBack(n: nat)
    requires n < 16
    ensures HexValue(HexDigit(n)) == n
  {}

  lemma {:induction false} HexRoundTrip(c: Byte, t: string)
    ensures ReadString(HexEscape(c) + t) == Unquoted([c] + ReadString(t).value, ReadString(t).rest)
  {
    hide HexDigit, HexValue;
    var s := HexEscape(c) + t;
    var hi, lo := c as int / 16, c as int % 16;
    DigitBack(hi);
    DigitBack(lo);
    assert s[2..] == [HexDigit(hi), HexDigit(lo)] + t;
    assert Rest(Rest(s[2..])) == t;
  }

  lemma {:induction false} PlainRoundTrip(c: char, t: string)
    requires c != '"' && c != '\\'
    ensures ReadString([c] + t) == Unquoted([c] + ReadString(t).value, ReadString(t).rest)
  {
    assert ([c] + t)[1..] == t;
  }

  lemma {:induction false} PairRoundTrip(e: char, t: string)
    requires e != 'x'
    ensures ReadString(['\\', e] + t) == Unquoted([Unescape(e)] + ReadString(t).value, ReadString(t).rest)
  {
    assert (['\\', e] + t)[2..] == t;
  }

  lemma {:induction false} TextCharRoundTrip(c: char, t: string)
    requires c != '\0'
    ensures ReadString(EscapeText(c) + t) == Unquoted([c] + ReadString(t).value, ReadString(t).rest)
  {
    hide ReadString, EscapeText, HexEscape, Unescape;
    TextEscape(c);
    var e := EscapeText(c);
    if e == [c] {
      PlainRoundTrip(c, t);
    } else if |e| == 2 {
      PairRoundTrip(e[1], t);
    } else {
      HexRoundTrip(c, t);
    }
  }

  /** A character is written as itself, as a pair that names it, or in hex. */
  lemma {:induction false} TextEscape(c: char)
    requires c != '\0'
    ensures var e := EscapeText(c);
            || (e == [c] && c != '"' && c != '\\')
            || (e == ['\\', e[1]] && e[1] != 'x' && Unescape(e[1]) == c)
            || (c as int < 256 && |e| == 4 && e == HexEscape(c))
  {}

  lemma {:induction false} ByteRoundTrip(c: Byte, t: string)
    ensures ReadString(EscapeByte(c) + t) == Unquoted([c] + ReadString(t).value, ReadString(t).rest)
  {
    var e := EscapeByte(c);
    if |e| == 1 {
      PlainRoundTrip(c, t);
    } else if |e| == 2 {
      PairRoundTrip(e[1], t);
      assert e == ['\\', e[1]];
    } else {
      HexRoundTrip(c, t);
    }
  }

  lemma {:induction false} Closing(e: string, more: string, t: string)
    ensures e + more + "\"" + t == e + (more + "\"" + t)
  {}

  lemma {:induction false} TextRoundTrip(s: string, t: string)
    requires NulFree(s)
    ensures ReadString(EscapedText(s) + "\"" + t) == Unquoted(s, t)
  {
    if s == "" {
      assert EscapedText(s) + "\"" + t == "\"" + t;
    } else {
      hide ReadString, EscapeText;
      TextRoundTrip(s[1..], t);
      TextCharRoundTrip(s[0], EscapedText(s[1..]) + "\"" + t);
      Closing(EscapeText(s[0]), EscapedText(s[1..]), t);
    }
  }

  /** A blob is read back whole, whatever its bytes, and reading stops exactly at
      its closing quote. */
  lemma {:induction false} BlobRoundTrip(data: seq<Byte>, t: string)
    ensures ReadString(EscapedBytes(data) + "\"" + t) == Unquoted(data, t)
  {
    if data == [] {
      assert EscapedBytes(data) + "\"" + t == "\"" + t;
    } else {
      hide ReadString, EscapeByte;
      BlobRoundTrip(data[1..], t);
      ByteRoundTrip(data[0], EscapedBytes(data[1..]) + "\"" + t);
      Closing(EscapeByte(data[0]), EscapedBytes(data[1..]), t);
    }
  }

  /** Quoted text holds no control character, and a quoted blob nothing but printable ASCII. */
  lemma {:induction false} QuotedIsPrintable(s: string, data: seq<Byte>)
    ensures forall c :: c in Quote(s) ==> c as int >= 0x20 && c as int != 0x7f
    ensures forall c :: c in QuoteBlob(data) ==> 0x20 <= c as int < 0x7f
  {
    EscapedIsPrintable(CText(s));
    BytesArePrintable(data);
    hide EscapedText, EscapedBytes, CText;
  }

  lemma {:induction false} EscapedIsPrintable(s: string)
    ensures forall c :: c in EscapedText(s) ==> c as int >= 0x20 && c as int != 0x7f
  {
    if s != "" {
      EscapedIsPrintable(s[1..]);
    }
  }

  lemma {:induction false} BytesArePrintable(data: seq<Byte>)
    ensures forall c :: c in EscapedBytes(data) ==> 0x20 <= c as int < 0x7f
  {
    if data != [] {
      BytesArePrintable(data[1..]);
    }
  }

  /** Whether a character stands for itself between quotes. */
  predicate IsPlain(c: char) {
    c as int >= 0x20 && c as int != 0x7f && c != '"' && c != '\\'
  }

  /** Text of plain characters is quoted as it is, and so is a blob of those in ASCII. */
  lemma {:induction false} PlainStaysPlain(s: string, data: seq<Byte>)
    requires forall c :: c in s ==> IsPlain(c)
    requires forall c :: c in data ==> IsPlain(c) && c as int < 0x7f
    ensures Quote(s) == "\"" + s + "\"" && QuoteBlob(data) == "\"" + data + "\""
  {
    PlainText(s);
    PlainBytes(data);
  }

  lemma {:induction false} PlainText(s: string)
    requires forall c :: c in s ==> IsPlain(c)
    ensures CText(s) == s && EscapedText(s) == s
  {
    if s != "" {
      assert s[0] in s;
      PlainText(s[1..]);
    }
  }

  lemma {:induction false} PlainBytes(data: seq<Byte>)
    requires forall c :: c in data ==> IsPlain(c) && c as int < 0x7f
    ensures EscapedBytes(data) == data
  {
    if data != [] {
      assert data[0] in data;
      PlainBytes(data[1..]);
    }
  }

  lemma {:induction false} CTextFacts(s: string)
    ensures NulFree(CText(s)) && (CText(s) == s <==> NulFree(s))
    ensures |CText(s)| <= |s| && (|CText(s)| == |s| ==> CText(s) == s)
  {
    if s != "" {
      CTextFacts(s[1..]);
    }
  }

  lemma {:induction false} Opened(e: string, t: string)
    ensures ("\"" + e + "\"" + t)[1..] == e + "\"" + t
  {}

  /** Quoted text reads back as itself exactly when it holds no NUL, and in every
      case reading stops at the closing quote. */
  lemma {:induction false} QuoteRoundTrip(s: string, t: string)
    ensures Quote(s) != "" && Quote(s)[0] == '"'
    ensures ReadString((Quote(s) + t)[1..]) == Unquoted(CText(s), t)
    ensures ReadString((Quote(s) + t)[1..]).value == s <==> NulFree(s)
  {
    CTextFacts(s);
    TextRoundTrip(CText(s), t);
    Opened(EscapedText(CText(s)), t);
  }

  /** The blob form loses nothing: every run of bytes comes back. */
  lemma {:induction false} QuoteBlobRoundTrip(data: seq<Byte>, t: string)
    ensures QuoteBlob(data) != "" && QuoteBlob(data)[0] == '"'
    ensures ReadString((QuoteBlob(data) + t)[1..]) == Unquoted(data, t)
  {
    BlobRoundTrip(data, t);
    Opened(EscapedBytes(data), t);
  }
}
