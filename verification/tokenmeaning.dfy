/**
 Which tokens are numbers, and what an escape stands for, said of the text: the grammar
 of each written out, as nothing a printer writes would show.
 */
module TokenMeaning {
  import opened Text
  import opened Tokens
  import opened Quoting

  // ----- numbers -----

  predicate IsSignText(s: string) {
    s == "" || s == "+" || s == "-"
  }

  predicate IsDigits(s: string) {
    s != "" && AllDigits(s)
  }

  predicate IsFraction(s: string) {
    s == "" || (s[0] == '.' && IsDigits(s[1..]))
  }

  predicate IsExponent(s: string) {
    s == "" || (s[0] in ['e', 'E'] && exists n :: 1 <= n <= |s| && n <= 2 && IsSignText(s[1..n]) && IsDigits(s[n..]))
  }

  /** A sign, digits, a fraction and an exponent, all but the digits as may be. */
  predicate IsNumber(t: string, sign: string, digits: string, fraction: string, exponent: string) {
    && t == sign + digits + fraction + exponent
    && IsSignText(sign) && IsDigits(digits) && IsFraction(fraction) && IsExponent(exponent)
  }

  lemma {:induction false} DigitsThen(d: string, t: string)
    requires IsDigits(d) && (t == "" || !IsDigit(t[0]))
    ensures SkipDigits(d + t) == Tail(t)
  {
    SpanExact(IsDigit, d, t);
  }

  lemma {:induction false} SignThen(sign: string, t: string)
    requires IsSignText(sign) && t != "" && IsDigit(t[0])
    ensures SkipSign(sign + t) == t
  {
    if sign == "" {
      assert sign + t == t;
    } else {
      assert (sign + t)[0] == sign[0] && (sign + t)[1..] == t;
    }
  }

  lemma {:induction false} FractionThen(f: string, t: string)
    requires IsFraction(f) && (t == "" || (!IsDigit(t[0]) && t[0] != '.'))
    ensures SkipFraction(f + t) == Tail(t)
  {
    if f == "" {
      assert f + t == t;
    } else {
      assert (f + t)[0] == '.' && (f + t)[1..] == f[1..] + t;
      DigitsThen(f[1..], t);
    }
  }

  lemma {:induction false} ExponentThen(e: string)
    requires IsExponent(e)
    ensures SkipExponent(e) == Tail("")
  {
    if e != "" {
      var n :| 1 <= n <= |e| && n <= 2 && IsSignText(e[1..n]) && IsDigits(e[n..]);
      assert e[1..] == e[1..n] + e[n..] && e[n..] + "" == e[n..];
      SignThen(e[1..n], e[n..]);
      DigitsThen(e[n..], "");
    }
  }

  /** Text of that shape is a number: an integer where it is no more than sign and digits
      and 64 bits hold it, and a float anywhere else. */
  lemma {:induction false} NumbersAre(t: string, sign: string, digits: string, fraction: string, exponent: string)
    requires IsNumber(t, sign, digits, fraction, exponent)
    ensures var n: int := Value(digits);
            var v := if sign == "-" then -n else n;
            NumeralOf(t) ==
              if fraction == "" && exponent == "" && -0x8000_0000_0000_0000 <= v < 0x8000_0000_0000_0000 then Whole(v)
              else Fractional
  {
    hide Value;
    var rest := fraction + exponent;
    assert t == sign + (digits + rest) && (digits + rest)[0] == digits[0];
    SignThen(sign, digits + rest);
    RestStarts(fraction, exponent);
    DigitsThen(digits, rest);
    FractionThen(fraction, exponent);
    ExponentThen(exponent);
    if rest == "" {
      assert digits + rest == digits;
      SpanExact(IsDigit, digits, "");
      assert t != "" && (t[0] == '-' <==> sign == "-") by {
        assert sign != "" ==> t[0] == sign[0];
        assert sign == "" ==> t[0] == digits[0];
      }
    }
  }

  lemma {:induction false} RestStarts(fraction: string, exponent: string)
    requires IsFraction(fraction) && IsExponent(exponent)
    ensures exponent == "" || (!IsDigit(exponent[0]) && exponent[0] != '.')
    ensures var rest := fraction + exponent; rest == "" || !IsDigit(rest[0])
    ensures fraction + exponent == "" <==> fraction == "" && exponent == ""
  {
    assert fraction != "" ==> (fraction + exponent)[0] == fraction[0];
    assert fraction == "" ==> fraction + exponent == exponent;
  }

  lemma {:induction false} DigitsTaken(t: string)
    requires SkipDigits(t).Tail?
    ensures var rest := SkipDigits(t).rest;
            |rest| < |t| && t == t[..|t| - |rest|] + rest && IsDigits(t[..|t| - |rest|])
  {
    var n := Span(IsDigit, t);
    assert forall k :: 0 <= k < n ==> IsDigit(t[..n][k]);
  }

  /** And only text of that shape is one. */
  lemma {:induction false} OnlyNumbersAre(t: string)
    returns (sign: string, digits: string, fraction: string, exponent: string)
    requires !NumeralOf(t).NotANumber?
    ensures IsNumber(t, sign, digits, fraction, exponent)
  {
    var u := SkipSign(t);
    sign := t[..|t| - |u|];
    SignTaken(t);
    var v := SkipDigits(u).rest;
    DigitsTaken(u);
    digits := u[..|u| - |v|];
    var w := SkipFraction(v).rest;
    fraction := FractionTaken(v);
    exponent := w;
    ExponentTaken(w);
    hide SkipSign, SkipDigits, SkipFraction, SkipExponent, IsFraction, IsExponent, IsDigits;
    Regroup(sign, digits, v);
    Regroup(sign + digits, fraction, exponent);
  }

  lemma {:induction false} SignTaken(t: string)
    ensures var u := SkipSign(t); |u| <= |t| && IsSignText(t[..|t| - |u|]) && t == t[..|t| - |u|] + u
  {
    if t != "" && IsSign(t[0]) {
      assert t[..1] == [t[0]];
    }
  }

  lemma {:induction false} FractionTaken(v: string) returns (fraction: string)
    requires SkipFraction(v).Tail?
    ensures IsFraction(fraction) && v == fraction + SkipFraction(v).rest
  {
    if v != "" && v[0] == '.' {
      var u := v[1..];
      DigitsTaken(u);
      hide SkipDigits, IsDigits;
      var d := u[..|u| - |SkipDigits(u).rest|];
      fraction := ['.'] + d;
      assert fraction[1..] == d && v == ['.'] + u;
      Regroup(['.'], d, SkipDigits(u).rest);
    } else {
      fraction := "";
    }
  }

  lemma {:induction false} ExponentTaken(w: string)
    requires SkipExponent(w) == Tail("")
    ensures IsExponent(w)
  {
    if w != "" {
      var u := SkipSign(w[1..]);
      SignTaken(w[1..]);
      DigitsTaken(u);
      var n := |w| - |u|;
      assert u[..|u|] == u && w[n..] == u && w[1..n] == w[1..][..|w[1..]| - |u|];
    }
  }

  // ----- escapes -----

  /** The byte two hex digits name, in either case. */
  function HexDigits(): string {
    "0123456789abcdef"
  }

  function HexCapitals(): string {
    "0123456789ABCDEF"
  }

  lemma {:induction false} HexIs(c: char, k: nat)
    requires k < 16 && (c == HexDigits()[k] || c == HexCapitals()[k])
    ensures HexValue(c) == k
  {}

  lemma {:induction false} HexOnly(c: char)
    requires HexValue(c) >= 0
    ensures HexValue(c) < 16 && (c == HexDigits()[HexValue(c)] || c == HexCapitals()[HexValue(c)])
  {}

  /** A byte in hex is that byte, whichever case its digits have. */
  lemma {:induction false} HexEscapes(h: char, l: char, i: nat, j: nat, t: string)
    requires i < 16 && j < 16
    requires (h == HexDigits()[i] || h == HexCapitals()[i]) && (l == HexDigits()[j] || l == HexCapitals()[j])
    ensures var r := ReadString(t);
            ReadString("\\x" + [h, l] + t) == Unquoted([(16 * i + j) as char] + r.value, r.rest)
  {
    hide HexDigits, HexCapitals, HexValue;
    HexIs(h, i);
    HexIs(l, j);
    var s := "\\x" + [h, l] + t;
    assert s[2..] == [h, l] + t && Rest(Rest(s[2..])) == t;
  }

  /** Anything else after `\\x` names nothing, and is passed over all the same. */
  lemma {:induction false} NotHex(h: char, l: char, t: string)
    requires HexValue(h) < 0 || HexValue(l) < 0
    ensures ReadString("\\x" + [h, l] + t) == ReadString(t)
  {
    hide HexValue;
    var s := "\\x" + [h, l] + t;
    assert s[2..] == [h, l] + t && Rest(Rest(s[2..])) == t;
    assert "" + ReadString(t).value == ReadString(t).value;
  }

  /** Four letters stand for what they name, and every other character for itself. */
  lemma {:induction false} Escapes(e: char, t: string)
    requires e != 'x'
    ensures var r, c := ReadString(t), if e == 'n' then '\n' else if e == 't' then '\t'
                                       else if e == 'r' then '\r' else if e == 'e' then 0x1b as char else e;
            ReadString("\\" + [e] + t) == Unquoted([c] + r.value, r.rest)
  {
    var s := "\\" + [e] + t;
    assert s[2..] == t;
  }

  /** Text that is never closed is all of the string, a lone backslash at its end included. */
  lemma {:induction false} NeverClosed(s: string)
    requires '"' !in s && '\\' !in s
    ensures ReadString(s) == Unquoted(s, "") && ReadString(s + "\\") == Unquoted(s + "\\", "")
  {
    if s == "" {
      assert "" + "\\" == "\\" && "\\"[1..] == "";
    } else {
      assert s[0] in s && forall c :: c in s[1..] ==> c in s;
      NeverClosed(s[1..]);
      PlainRoundTrip(s[0], s[1..]);
      PlainRoundTrip(s[0], s[1..] + "\\");
      hide ReadString;
      assert s == [s[0]] + s[1..];
      Regroup([s[0]], s[1..], "\\");
    }
  }
}
