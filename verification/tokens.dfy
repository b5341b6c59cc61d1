/**
 Bare tokens: which characters make one up, and whether one is a number or a
 symbol (`is_word_start` through `number_value`, and `kt_is_word`).
 */
module Tokens {
  import opened Text

  predicate IsInline(c: char) {
    c == ' ' || c == '\t' || c == '\r' || c == '\n'
  }

  predicate IsAlpha(c: char) {
    'a' <= c <= 'z' || 'A' <= c <= 'Z'
  }

  predicate IsWordStart(c: char) {
    c == '_' || c == '.' || IsAlpha(c)
  }

  predicate IsWordRune(c: char) {
    IsWordStart(c) || c == '-' || IsDigit(c)
  }

  predicate IsTokenRune(c: char) {
    IsWordRune(c) || c == '+'
  }

  predicate AllWordRunes(w: string) {
    forall k :: 0 <= k < |w| ==> IsWordRune(w[k])
  }

  predicate AllTokenRunes(w: string) {
    forall k :: 0 <= k < |w| ==> IsTokenRune(w[k])
  }

  // ----- numbers -----

  datatype Numeral = NotANumber | Whole(i: Int64) | Fractional

  datatype Tail = Malformed | Tail(rest: string)

  predicate IsSign(c: char) {
    c == '+' || c == '-'
  }

  function SkipSign(t: string): string {
    if t != "" && IsSign(t[0]) then t[1..] else t
  }

  function SkipDigits(t: string): Tail {
    if Span(IsDigit, t) == 0 then Malformed else Tail(t[Span(IsDigit, t)..])
  }

  function SkipFraction(t: string): Tail {
    if t != "" && t[0] == '.' then SkipDigits(t[1..]) else Tail(t)
  }

  function SkipExponent(t: string): Tail {
    if t != "" && (t[0] == 'e' || t[0] == 'E') then SkipDigits(SkipSign(t[1..])) else Tail(t)
  }

  /** The value a sign and digits spell, where 64 bits hold it. */
  function Integer(t: string): Numeral {
    var d := SkipSign(t);
    var v: int := Value(d[..Span(IsDigit, d)]);
    var signed: int := if t != "" && t[0] == '-' then -v else v;
    if -0x8000_0000_0000_0000 <= signed < 0x8000_0000_0000_0000 then Whole(signed) else Fractional
  }

  /** A token read as `[+-]? digits ("." digits)? ([eE] [+-]? digits)?`. An integer
      too wide for 64 bits is a float. */
  function NumeralOf(t: string): Numeral {
    var whole := SkipDigits(SkipSign(t));
    if whole.Malformed? then NotANumber else
    var fraction := SkipFraction(whole.rest);
    if fraction.Malformed? then NotANumber else
    var exponent := SkipExponent(fraction.rest);
    if exponent.Malformed? || exponent.rest != "" then NotANumber
    else if whole.rest == "" then Integer(t)
    else Fractional
  }

  /** Advances past a run of digits. */
  method DigitRun(t: string, start: nat) returns (i: nat)
    requires start <= |t|
    ensures start <= i <= |t|
    ensures SkipDigits(t[start..]) == if i == start then Malformed else Tail(t[i..])
  {
    i := start;
    while i < |t| && IsDigit(t[i])
      invariant start <= i <= |t|
      invariant forall k :: start <= k < i ==> IsDigit(t[k])
    {
      i := i + 1;
    }
    SpanExact(IsDigit, t[start..i], t[i..]);
    assert t[start..] == t[start..i] + t[i..];
  }

  method FractionEnd(t: string, at: nat) returns (ok: bool, dot: bool, i: nat)
    requires at <= |t|
    ensures at <= i <= |t| && (dot <==> at < |t| && t[at] == '.')
    ensures SkipFraction(t[at..]) == if ok then Tail(t[i..]) else Malformed
    ensures ok ==> (dot <==> i != at)
  {
    i, dot, ok := at, false, true;
    if i < |t| && t[i] == '.' {
      assert t[at..][1..] == t[at + 1..];
      dot := true;
      i := DigitRun(t, at + 1);
      ok := i != at + 1;
    }
  }

  method ExponentEnd(t: string, at: nat) returns (ok: bool, exp: bool, i: nat)
    requires at <= |t|
    ensures at <= i <= |t| && (exp <==> at < |t| && (t[at] == 'e' || t[at] == 'E'))
    ensures SkipExponent(t[at..]) == if ok then Tail(t[i..]) else Malformed
    ensures ok ==> (exp <==> i != at)
  {
    i, exp, ok := at, false, true;
    if i < |t| && (t[i] == 'e' || t[i] == 'E') {
      assert t[at..][1..] == t[at + 1..];
      exp := true;
      var start := at + 1;
      if start < |t| && IsSign(t[start]) {
        assert t[start..][1..] == t[start + 1..];
        start := start + 1;
      }
      i := DigitRun(t, start);
      ok := i != start;
    }
  }

  method NumberValue(t: string) returns (r: Numeral)
    ensures r == NumeralOf(t)
  {
    var start := if t != "" && IsSign(t[0]) then 1 else 0;
    assert t[start..] == SkipSign(t);
    var i := DigitRun(t, start);
    if i == start {
      return NotANumber;
    }
    var ok, dot, exp;
    ok, dot, i := FractionEnd(t, i);
    if !ok {
      return NotANumber;
    }
    ok, exp, i := ExponentEnd(t, i);
    if !ok || i != |t| {
      return NotANumber;
    }
    if !dot && !exp {
      return Integer(t);
    }
    r := Fractional;
  }

  function IntText(i: int): string {
    if i < 0 then "-" + Decimal(-i) else Decimal(i)
  }

  lemma {:induction false} IntTextDigits(i: int)
    ensures var d := Decimal(if i < 0 then -i else i);
            && SkipSign(IntText(i)) == d && Span(IsDigit, d) == |d| > 0 && d[..|d|] == d && d[|d|..] == ""
            && (IntText(i)[0] == '-' <==> i < 0)
    ensures AllTokenRunes(IntText(i)) && IntText(i) != ""
    ensures IsDigit(IntText(i)[0]) || IntText(i)[0] == '-'
  {
    var d := Decimal(if i < 0 then -i else i);
    SpanExact(IsDigit, d, "");
    assert d + "" == d;
    assert SkipSign(IntText(i)) == d;
  }

  /** Every 64-bit integer is read back from its decimal spelling. */
  lemma {:induction false} IntRoundTrip(i: Int64)
    ensures NumeralOf(IntText(i)) == Whole(i)
    ensures AllTokenRunes(IntText(i)) && IntText(i) != ""
    ensures IsDigit(IntText(i)[0]) || IntText(i)[0] == '-'
  {
    hide Decimal, IntText, Value, AllTokenRunes, SkipSign;
    var n: int := if i < 0 then -(i as int) else i;
    IntTextDigits(i);
    DecimalValue(n);
  }

  /** Text read up to where `rest` is left is all of what tokens are made of. */
  predicate Reads(t: string, rest: string) {
    |rest| <= |t| && rest == t[|t| - |rest|..] && AllTokenRunes(t[..|t| - |rest|])
  }

  lemma {:induction false} ReadsOn(t: string, u: string, rest: string)
    requires Reads(t, u) && Reads(u, rest)
    ensures Reads(t, rest)
  {
    var m, n := |t| - |u|, |t| - |rest|;
    assert rest == t[n..];
    forall k | 0 <= k < n ensures IsTokenRune(t[..n][k]) {
      if k < m {
        assert t[..m][k] == t[k];
      } else {
        assert u[..n - m][k - m] == t[k];
      }
    }
  }

  lemma {:induction false} SignReads(t: string)
    ensures Reads(t, SkipSign(t))
  {}

  lemma {:induction false} DigitsRead(t: string)
    ensures SkipDigits(t).Tail? ==> Reads(t, SkipDigits(t).rest) && t != "" && IsDigit(t[0])
  {
    var n := Span(IsDigit, t);
    assert forall k :: 0 <= k < n ==> IsDigit(t[..n][k]);
  }

  lemma {:induction false} OneReads(t: string)
    requires t != "" && IsTokenRune(t[0])
    ensures Reads(t, t[1..])
  {}

  lemma {:induction false} FractionReads(t: string)
    ensures SkipFraction(t).Tail? ==> Reads(t, SkipFraction(t).rest)
  {
    if t != "" && t[0] == '.' {
      DigitsRead(t[1..]);
      OneReads(t);
      hide SkipDigits, Reads;
      if SkipFraction(t).Tail? {
        ReadsOn(t, t[1..], SkipFraction(t).rest);
      }
    }
  }

  lemma {:induction false} ExponentReads(t: string)
    ensures SkipExponent(t).Tail? ==> Reads(t, SkipExponent(t).rest)
  {
    if t != "" && (t[0] == 'e' || t[0] == 'E') {
      SignReads(t[1..]);
      DigitsRead(SkipSign(t[1..]));
      OneReads(t);
      hide SkipDigits, SkipSign, Reads;
      if SkipExponent(t).Tail? {
        ReadsOn(t[1..], SkipSign(t[1..]), SkipExponent(t).rest);
        ReadsOn(t, t[1..], SkipExponent(t).rest);
      }
    }
  }

  lemma {:induction false} ReadsAll(t: string)
    ensures Reads(t, "") ==> AllTokenRunes(t)
  {
    assert t[..|t|] == t;
  }

  lemma {:induction false} SignThenDigit(t: string)
    requires SkipSign(t) != "" && IsDigit(SkipSign(t)[0])
    ensures t != "" && (IsDigit(t[0]) || IsSign(t[0]))
  {}

  /** Whatever is read as a number is one token, and does not start like a name. */
  lemma {:induction false} NumberRunes(t: string)
    requires !NumeralOf(t).NotANumber?
    ensures t != "" && AllTokenRunes(t) && (IsDigit(t[0]) || IsSign(t[0]))
  {
    hide SkipDigits, SkipFraction, SkipExponent, SkipSign, Integer, Reads, AllTokenRunes;
    SignReads(t);
    DigitsRead(SkipSign(t));
    SignThenDigit(t);
    var whole := SkipDigits(SkipSign(t)).rest;
    FractionReads(whole);
    var fraction := SkipFraction(whole).rest;
    ExponentReads(fraction);
    ReadsOn(t, SkipSign(t), whole);
    ReadsOn(t, whole, fraction);
    ReadsOn(t, fraction, SkipExponent(fraction).rest);
    ReadsAll(t);
  }

  /** Whether a string can be written as a bare word and read back as the same one. */
  predicate IsWord(w: string) {
    && w != "" && !IsSign(w[0])
    && AllTokenRunes(w)
    && NumeralOf(w).NotANumber?
  }

  method KtIsWord(w: string) returns (r: bool)
    ensures r == IsWord(w)
  {
    if w == "" || w[0] == '+' || w[0] == '-' {
      return false;
    }
    for k := 0 to |w|
      invariant forall j :: 0 <= j < k ==> IsTokenRune(w[j])
    {
      if !IsTokenRune(w[k]) {
        return false;
      }
    }
    var probe := NumberValue(w);
    r := probe.NotANumber?;
  }
}
