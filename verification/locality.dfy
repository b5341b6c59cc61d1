/**
 A block is its own span: whatever text is read, what a rule makes of the part up to
 a closing brace it stops at or before does not depend on anything past that brace.

 This is about every text, printed or not, malformed escapes and all.
 */
module Locality {
  import opened Text
  import opened Tokens
  import opened Quoting
  import opened Syntax
  import opened Parser

  /** Two texts that are the same up to and including a closing brace. */
  predicate Shares(s: string, t: string, m: nat) {
    0 < m <= |s| && m <= |t| && s[..m] == t[..m] && s[m - 1] == '}'
  }

  /** What is left of two such texts past their first k characters, the brace among it. */
  predicate Tails(s: string, t: string, m: nat, k: int, x: string, y: string) {
    Shares(s, t, m) && 0 <= k < m && x == s[k..] && y == t[k..]
  }

  /** A rule that stops within what two texts share makes the same of both. */
  predicate Same<T(==)>(p: Parse<T>, q: Parse<T>, s: string, t: string, m: nat) {
    |p.rest| <= |s|
    && (|s| - |p.rest| < m ==>
          q.value == p.value && q.bad == p.bad && Tails(s, t, m, |s| - |p.rest|, p.rest, q.rest))
  }

  lemma {:induction false} Onward(s: string, t: string, m: nat, k: nat)
    requires Shares(s, t, m) && k < m
    ensures Tails(s, t, m, k, s[k..], t[k..])
    ensures Shares(s[k..], t[k..], m - k) && s[..k] == t[..k] && s[k] == t[k]
  {
    assert s[..m][k..] == s[k..][..m - k] && t[..m][k..] == t[k..][..m - k];
    assert s[..k] == s[..m][..k] && t[..k] == t[..m][..k];
    assert s[k] == s[..m][k] && t[k] == t[..m][k];
  }

  /** What two tails have to do with each other. */
  lemma {:induction false} Left(s: string, t: string, m: nat, k: int, x: string, y: string)
    requires Tails(s, t, m, k, x, y)
    ensures 0 <= k < m && Shares(x, y, m - k) && |x| == |s| - k && m <= |s|
    ensures x != "" && y != "" && x[0] == y[0] && (k == m - 1 ==> x[0] == '}')
    ensures x[0] != '}' ==> k + 1 < m && Tails(s, t, m, k + 1, x[1..], y[1..])
  {
    Onward(s, t, m, k);
    assert x[0] == s[k];
  }

  /** Tails of tails. */
  lemma {:induction false} Further(s: string, t: string, m: nat, k: nat, x: string, y: string, j: nat, x': string,
      y': string)
    requires Tails(s, t, m, k, x, y) && k < m && Tails(x, y, m - k, j, x', y')
    ensures Tails(s, t, m, k + j, x', y')
  {}

  lemma {:induction false} Begin(s: string, t: string, m: nat)
    requires Shares(s, t, m)
    ensures Tails(s, t, m, 0, s, t)
  {}

  lemma {:induction false} SpanLocal(p: char -> bool, s: string, t: string, m: nat)
    requires Shares(s, t, m) && !p('}')
    ensures Span(p, s) < m && Span(p, t) == Span(p, s)
  {
    SpanWithin(p, s, t, m, Span(p, s));
  }

  /** A run that ends within what is shared ends at the same place in both. */
  lemma {:induction false} SpanWithin(p: char -> bool, s: string, t: string, m: nat, n: nat)
    requires Shares(s, t, m) && n == Span(p, s)
    requires n < m || !p('}')
    ensures n < m && Span(p, t) == n
  {
    assert forall k :: 0 <= k < n ==> p(s[k]);
    Onward(s, t, m, n);
    assert t == t[..n] + t[n..];
    assert forall j :: 0 <= j < n ==> t[..n][j] == s[j];
    SpanExact(p, t[..n], t[n..]);
  }

  lemma {:induction false} BlankLocal(s: string, t: string, m: nat)
    requires Shares(s, t, m)
    ensures Tails(s, t, m, |s| - |SkipInline(s)|, SkipInline(s), SkipInline(t))
  {
    hide Shares, Tails;
    Begin(s, t, m);
    Left(s, t, m, 0, s, t);
    if IsInline(s[0]) {
      Left(s, t, m, 1, s[1..], t[1..]);
      BlankLocal(s[1..], t[1..], m - 1);
      hide SkipInline;
      Further(s, t, m, 1, s[1..], t[1..], |s| - 1 - |SkipInline(s[1..])|, SkipInline(s[1..]), SkipInline(t[1..]));
    }
  }

  lemma {:induction false} SeparatorsLocal(s: string, t: string, m: nat)
    requires Shares(s, t, m)
    ensures Tails(s, t, m, |s| - |SkipSeparators(s)|, SkipSeparators(s), SkipSeparators(t))
    decreases |s|
  {
    hide SkipInline, Shares, Tails;
    BlankLocal(s, t, m);
    var x, y := SkipInline(s), SkipInline(t);
    var k := |s| - |x|;
    Left(s, t, m, k, x, y);
    if x[0] == ';' {
      Left(s, t, m, k + 1, x[1..], y[1..]);
      SeparatorsLocal(x[1..], y[1..], m - k - 1);
      var x', y' := SkipSeparators(x[1..]), SkipSeparators(y[1..]);
      Further(s, t, m, k + 1, x[1..], y[1..], |x| - 1 - |x'|, x', y');
    }
  }

  lemma {:induction false} WordLocal(s: string, t: string, m: nat)
    requires Shares(s, t, m)
    ensures WordOf(t) == WordOf(s)
    ensures Tails(s, t, m, |s| - |AfterWord(s)|, AfterWord(s), AfterWord(t))
  {
    SpanLocal(IsWordRune, s, t, m);
    Onward(s, t, m, Span(IsWordRune, s));
  }

  lemma {:induction false} SymbolLocal(s: string, t: string, m: nat)
    requires Shares(s, t, m)
    ensures Same(ParseSymbol(s), ParseSymbol(t), s, t, m)
  {
    hide ParseSymbol, Shares, Tails, Span;
    NotEmpty(s, t, m);
    var n := Span(InSymbol, s);
    SymbolLong(s);
    if n < m {
      SpanWithin(InSymbol, s, t, m, n);
      Onward(s, t, m, n);
      SplitAt(s, n);
      SplitAt(t, n);
      SymbolExact(s[..n], s[n..]);
      SymbolExact(t[..n], t[n..]);
      if s[n] == ')' {
        OneMore(s, t, m, n);
      }
    }
  }

  lemma {:induction false} OneMore(s: string, t: string, m: nat, n: nat)
    requires Shares(s, t, m) && n < m
    ensures n + 1 < m ==> Tails(s, t, m, n + 1, s[n + 1..], t[n + 1..])
  {
    if n + 1 < m {
      Onward(s, t, m, n + 1);
    }
  }

  lemma {:induction false} SplitAt(s: string, n: nat)
    requires n <= |s|
    ensures s[..n] + s[n..] == s && (n < |s| ==> s[n..][1..] == s[n + 1..])
  {}

  lemma {:induction false} SymbolLong(s: string)
    ensures |ParseSymbol(s).rest| <= |s| - Span(InSymbol, s)
  {}

  predicate SameText(p: Unquoted, q: Unquoted, s: string, t: string, m: nat) {
    |p.rest| <= |s| && (|s| - |p.rest| < m ==> q.value == p.value && Tails(s, t, m, |s| - |p.rest|, p.rest, q.rest))
  }

  lemma {:induction false} StringLocal(s: string, t: string, m: nat)
    requires Shares(s, t, m)
    ensures SameText(ReadString(s), ReadString(t), s, t, m)
    decreases |s|
  {
    hide HexByte, Unescape;
    Onward(s, t, m, 0);
    if s[0] == '"' {
    } else if s[0] == '\\' && |s| > 1 {
      Onward(s, t, m, 1);
      if s[1] == 'x' {
        HexLocal(s, t, m);
      } else if m > 2 {
        Onward(s, t, m, 2);
        StringLocal(s[2..], t[2..], m - 2);
        StringFrom(ReadString(s[2..]), ReadString(t[2..]), s, t, m, 2);
      }
    } else if m > 1 {
      Onward(s, t, m, 1);
      StringLocal(s[1..], t[1..], m - 1);
      StringFrom(ReadString(s[1..]), ReadString(t[1..]), s, t, m, 1);
    }
  }

  lemma {:induction false} HexLocal(s: string, t: string, m: nat)
    requires Shares(s, t, m) && m > 1 && s[0] == '\\' && s[1] == 'x'
    ensures SameText(ReadString(s), ReadString(t), s, t, m)
    decreases |s|, 0
  {
    hide HexByte, ReadString, Rest;
    HexStep(s);
    Onward(s, t, m, 0);
    Onward(s, t, m, 1);
    if m > 4 {
      HexStep(t);
      Onward(s, t, m, 2);
      Onward(s, t, m, 3);
      Onward(s, t, m, 4);
      HexSame(s, t);
      StringLocal(s[4..], t[4..], m - 4);
      StringFrom(ReadString(s[4..]), ReadString(t[4..]), s, t, m, 4);
    }
  }

  lemma {:induction false} HexStep(s: string)
    requires |s| > 1 && s[0] == '\\' && s[1] == 'x'
    ensures |s| > 4 ==>
              var r := ReadString(s[4..]);
              ReadString(s) == Unquoted(HexByte(s[2..]) + r.value, r.rest)
    ensures |ReadString(s).rest| <= if |s| > 4 then |s| - 4 else 0
  {
    hide HexByte;
    assert |s| > 4 ==> Rest(Rest(s[2..])) == s[4..];
    assert |s| <= 4 ==> Rest(Rest(s[2..])) == "";
  }

  lemma {:induction false} HexSame(s: string, t: string)
    requires |s| > 4 && |t| > 4 && s[2] == t[2] && s[3] == t[3]
    ensures HexByte(s[2..]) == HexByte(t[2..])
  {}

  lemma {:induction false} StringFrom(p: Unquoted, q: Unquoted, s: string, t: string, m: nat, j: nat)
    requires Shares(s, t, m) && j < m && SameText(p, q, s[j..], t[j..], m - j)
    ensures SameText(p, q, s, t, m)
  {
    if |s| - |p.rest| < m {
      Further(s, t, m, j, s[j..], t[j..], |s| - j - |p.rest|, p.rest, q.rest);
    }
  }

  lemma {:induction false} TooFar<T>(p: Parse<T>, q: Parse<T>, s: string, t: string, m: nat)
    requires |p.rest| <= |s| && |s| - |p.rest| >= m
    ensures Same(p, q, s, t, m)
  {}

  lemma {:induction false} Stopped<T>(p: Parse<T>, q: Parse<T>, s: string, t: string, m: nat, k: int)
    requires q.value == p.value && q.bad == p.bad && Tails(s, t, m, k, p.rest, q.rest)
    ensures Same(p, q, s, t, m)
  {}

  /** One rule after another: where the second, from where the first left off, stops in
      time, so did the first, and all of it is the same. */
  lemma {:induction false} Chained<T>(s: string, t: string, m: nat, k: int, x: string, y: string, p: Parse<T>,
      q: Parse<T>)
    requires Tails(s, t, m, k, x, y) && k <= m && Same(p, q, x, y, m - k) && |s| - |p.rest| < m
    ensures q.value == p.value && q.bad == p.bad && Tails(s, t, m, |s| - |p.rest|, p.rest, q.rest)
    ensures Shares(p.rest, q.rest, m - (|s| - |p.rest|))
  {
    hide Tails, Shares;
    Left(s, t, m, k, x, y);
    var j := |x| - |p.rest|;
    Further(s, t, m, k, x, y, j, p.rest, q.rest);
    Left(s, t, m, k + j, p.rest, q.rest);
  }

  lemma {:induction false} ValueLocal(s: string, t: string, m: nat)
    requires Shares(s, t, m)
    ensures Same(ParseValue(s), ParseValue(t), s, t, m)
    decreases |s|, 0
  {
    hide ParseSymbol, ParseScript, ReadString, TokenValue, Shares, Tails, Same, SameText, ParseValue;
    Begin(s, t, m);
    Left(s, t, m, 0, s, t);
    if s[0] == '}' {
      BraceIsNoValue(s, t, m);
    } else {
      Left(s, t, m, 1, s[1..], t[1..]);
      if s[0] == '(' {
        SymbolLocal(s[1..], t[1..], m - 1);
        SymbolValueLocal(s, t, m);
      } else if s[0] == '{' {
        ScriptLocal(s[1..], t[1..], m - 1, true);
        BlockValueLocal(s, t, m);
      } else if s[0] == '"' {
        StringLocal(s[1..], t[1..], m - 1);
        StringValueLocal(s, t, m);
      } else {
        TokenLocal(s, t, m);
      }
    }
  }

  lemma {:induction false} BraceIsNoValue(s: string, t: string, m: nat)
    requires Shares(s, t, m) && s[0] == t[0] == '}'
    ensures Same(ParseValue(s), ParseValue(t), s, t, m)
  {
    Begin(s, t, m);
  }

  lemma {:induction false} TokenLocal(s: string, t: string, m: nat)
    requires Shares(s, t, m) && s[0] == t[0] && s[0] !in ['(', '{', '"']
    ensures Same(ParseValue(s), ParseValue(t), s, t, m)
  {
    hide ParseValue, TokenValue, Tails, Shares, Span;
    NotEmpty(s, t, m);
    SpanLocal(IsTokenRune, s, t, m);
    Onward(s, t, m, Span(IsTokenRune, s));
    Begin(s, t, m);
    TokenOrNothing(s);
    TokenOrNothing(t);
  }

  lemma {:induction false} NotEmpty(s: string, t: string, m: nat)
    requires Shares(s, t, m)
    ensures s != "" && t != "" && m <= |s|
  {}

  lemma {:induction false} TokenOrNothing(s: string)
    requires s != "" && s[0] !in ['(', '{', '"']
    ensures ParseValue(s) ==
              if IsTokenRune(s[0]) then
                var n := Span(IsTokenRune, s);
                Parse(TokenValue(s[..n]), s[n..], TokenValue(s[..n]).None?)
              else Parse(None, s, true)
  {
    hide TokenValue, ParseScript, ParseSymbol, ReadString;
  }

  lemma {:induction false} SymbolValueLocal(s: string, t: string, m: nat)
    requires s != "" && t != "" && Tails(s, t, m, 1, s[1..], t[1..]) && s[0] == t[0] == '(' && m > 1
    requires Same(ParseSymbol(s[1..]), ParseSymbol(t[1..]), s[1..], t[1..], m - 1)
    ensures Same(ParseValue(s), ParseValue(t), s, t, m)
  {
    hide ParseSymbol, Shares, Tails;
    if |s| - |ParseSymbol(s[1..]).rest| < m {
      Chained(s, t, m, 1, s[1..], t[1..], ParseSymbol(s[1..]), ParseSymbol(t[1..]));
    }
  }

  lemma {:induction false} StringValueLocal(s: string, t: string, m: nat)
    requires s != "" && t != "" && Tails(s, t, m, 1, s[1..], t[1..]) && s[0] == t[0] == '"' && m > 1
    requires SameText(ReadString(s[1..]), ReadString(t[1..]), s[1..], t[1..], m - 1)
    ensures Same(ParseValue(s), ParseValue(t), s, t, m)
  {
    hide ReadString, Shares, Tails;
    var p, q := ReadString(s[1..]), ReadString(t[1..]);
    if |s| - |p.rest| < m {
      Further(s, t, m, 1, s[1..], t[1..], |s| - 1 - |p.rest|, p.rest, q.rest);
    }
  }

  lemma {:induction false} BlockValueLocal(s: string, t: string, m: nat)
    requires s != "" && t != "" && Tails(s, t, m, 1, s[1..], t[1..]) && s[0] == t[0] == '{' && m > 1
    requires Same(ParseScript(s[1..], true), ParseScript(t[1..], true), s[1..], t[1..], m - 1)
    ensures Same(ParseValue(s), ParseValue(t), s, t, m)
  {
    hide ParseScript, Shares, Tails, Same;
    var p, q := ParseScript(s[1..], true), ParseScript(t[1..], true);
    var v, w := ParseValue(s), ParseValue(t);
    if |s| - |v.rest| >= m {
      TooFar(v, w, s, t, m);
    } else {
      Chained(s, t, m, 1, s[1..], t[1..], p, q);
      Left(s, t, m, |s| - |p.rest|, p.rest, q.rest);
      if p.rest[0] == '}' {
        PastBrace(s, t, m, |s| - |p.rest|, p.rest, q.rest);
        Stopped(v, w, s, t, m, |s| - |v.rest|);
      } else {
        Stopped(v, w, s, t, m, |s| - |v.rest|);
      }
    }
  }

  lemma {:induction false} PastBrace(s: string, t: string, m: nat, k: int, x: string, y: string)
    requires Tails(s, t, m, k, x, y) && k + 1 < m
    ensures x != "" && y != "" && Tails(s, t, m, k + 1, x[1..], y[1..])
  {
    Onward(s, t, m, k + 1);
  }

  lemma {:induction false} ArgLocal(s: string, t: string, m: nat)
    requires Shares(s, t, m) && StartsArg(s[0])
    ensures t != "" && s[0] == t[0] && Same(ParseArg(s), ParseArg(t), s, t, m)
    decreases |s|, 1
  {
    hide ParseArg, ParseValue, SkipInline, WordOf, AfterWord, Same, Shares, Tails;
    Begin(s, t, m);
    Left(s, t, m, 0, s, t);
    ArgCases(s);
    ArgCases(t);
    var p, q := ParseArg(s), ParseArg(t);
    if |s| - |p.rest| >= m {
      TooFar(p, q, s, t, m);
    } else if s[0] == '!' || s[0] == '?' {
      Left(s, t, m, 1, s[1..], t[1..]);
      MarkedLocal(s, t, m);
    } else if IsWordStart(s[0]) {
      NamedLocal(s, t, m);
    } else {
      ValueLocal(s, t, m);
      var v, w := ParseValue(s), ParseValue(t);
      Chained(s, t, m, 0, s, t, v, w);
      Stopped(p, q, s, t, m, |s| - |v.rest|);
    }
  }

  lemma {:induction false} ArgCases(s: string)
    requires s != "" && StartsArg(s[0])
    ensures s[0] != '!' && s[0] != '?' && !IsWordStart(s[0]) ==>
              var p := ParseValue(s);
              ParseArg(s) == Parse(Arg("", Unflagged, p.value), p.rest, p.bad)
    ensures IsWordStart(s[0]) ==>
              var t := SkipInline(AfterWord(s));
              ParseArg(s) ==
                if t != "" && t[0] == '=' then
                  var p := ParseValue(t[1..]);
                  Parse(Arg(WordOf(s), Unflagged, p.value), p.rest, p.bad)
                else Parse(Arg(WordOf(s), Asserted, None), t, false)
  {
    hide ParseValue, SkipInline, WordOf, AfterWord;
  }

  lemma {:induction false} MarkedLocal(s: string, t: string, m: nat)
    requires s != "" && t != "" && Tails(s, t, m, 1, s[1..], t[1..]) && s[0] == t[0] && (s[0] == '!' || s[0] == '?')
    ensures Same(ParseArg(s), ParseArg(t), s, t, m)
  {
    hide SkipInline, WordOf, AfterWord, Same, Shares, Tails;
    Left(s, t, m, 1, s[1..], t[1..]);
    WordLocal(s[1..], t[1..], m - 1);
    var x, y := AfterWord(s[1..]), AfterWord(t[1..]);
    Further(s, t, m, 1, s[1..], t[1..], |s| - 1 - |x|, x, y);
    Stopped(ParseArg(s), ParseArg(t), s, t, m, |s| - |x|);
  }

  lemma {:induction false} NamedLocal(s: string, t: string, m: nat)
    requires Shares(s, t, m) && s != "" && t != "" && s[0] == t[0] && IsWordStart(s[0]) && |s| - |ParseArg(s).rest| < m
    ensures Same(ParseArg(s), ParseArg(t), s, t, m)
    decreases |s|, 0, 1
  {
    hide ParseArg, ParseValue, SkipInline, WordOf, AfterWord, Same, Shares, Tails;
    ArgCases(s);
    ArgCases(t);
    var p, q := ParseArg(s), ParseArg(t);
    WordLocal(s, t, m);
    var x, y := AfterWord(s), AfterWord(t);
    Left(s, t, m, |s| - |x|, x, y);
    BlankLocal(x, y, m - (|s| - |x|));
    var x', y' := SkipInline(x), SkipInline(y);
    Further(s, t, m, |s| - |x|, x, y, |x| - |x'|, x', y');
    var k := |s| - |x'|;
    Left(s, t, m, k, x', y');
    if x'[0] == '=' {
      Left(s, t, m, k + 1, x'[1..], y'[1..]);
      AssignedLocal(s, t, m, x'[1..], y'[1..]);
    } else {
      Stopped(p, q, s, t, m, k);
    }
  }

  lemma {:induction false} AssignedLocal(s: string, t: string, m: nat, x: string, y: string)
    requires s != "" && t != "" && StartsArg(s[0]) && StartsArg(t[0]) && |x| < |s|
    requires var v := ParseValue(x); ParseArg(s) == Parse(Arg(WordOf(s), Unflagged, v.value), v.rest, v.bad)
    requires var w := ParseValue(y); ParseArg(t) == Parse(Arg(WordOf(s), Unflagged, w.value), w.rest, w.bad)
    requires Tails(s, t, m, |s| - |x|, x, y) && |s| - |ParseArg(s).rest| < m
    ensures Same(ParseArg(s), ParseArg(t), s, t, m)
    decreases |s|, 0, 0
  {
    hide ParseArg, ParseValue, WordOf, Same, Shares, Tails, StartsArg;
    var k := |s| - |x|;
    Left(s, t, m, k, x, y);
    ValueLocal(x, y, m - k);
    var v, w := ParseValue(x), ParseValue(y);
    Chained(s, t, m, k, x, y, v, w);
    Stopped(ParseArg(s), ParseArg(t), s, t, m, |s| - |v.rest|);
  }

  lemma {:induction false} HeadCases(s: string)
    ensures var w, t := WordOf(s), AfterWord(s);
            ParseHead(s) ==
              if |t| > 1 && t[0] == '=' && IsWordStart(t[1]) then Parse((w, WordOf(t[1..])), AfterWord(t[1..]), false)
              else Parse(("", w), t, false)
  {
    hide WordOf, AfterWord;
  }

  lemma {:induction false} HeadLocal(s: string, t: string, m: nat)
    requires Shares(s, t, m)
    ensures Same(ParseHead(s), ParseHead(t), s, t, m)
    ensures |s| - |ParseHead(s).rest| < m
  {
    hide WordOf, AfterWord, ParseHead, Same, Shares, Tails;
    WordLocal(s, t, m);
    var x, y := AfterWord(s), AfterWord(t);
    var k := |s| - |x|;
    Left(s, t, m, k, x, y);
    HeadCases(s);
    HeadCases(t);
    var p, q := ParseHead(s), ParseHead(t);
    if x[0] == '=' {
      Left(s, t, m, k + 1, x[1..], y[1..]);
      assert x[1] == x[1..][0] && y[1] == y[1..][0];
    }
    if x[0] == '=' && IsWordStart(x[1..][0]) {
      KeyedLocal(s, t, m, x[1..], y[1..]);
    } else {
      Stopped(p, q, s, t, m, k);
    }
  }

  lemma {:induction false} KeyedLocal(s: string, t: string, m: nat, x: string, y: string)
    requires ParseHead(s) == Parse((WordOf(s), WordOf(x)), AfterWord(x), false)
    requires ParseHead(t) == Parse((WordOf(s), WordOf(y)), AfterWord(y), false)
    requires Tails(s, t, m, |s| - |x|, x, y)
    ensures Same(ParseHead(s), ParseHead(t), s, t, m)
    ensures |s| - |ParseHead(s).rest| < m
  {
    hide WordOf, AfterWord, ParseHead, Same, Shares, Tails;
    var k := |s| - |x|;
    Left(s, t, m, k, x, y);
    WordLocal(x, y, m - k);
    var x', y' := AfterWord(x), AfterWord(y);
    Further(s, t, m, k, x, y, |x| - |x'|, x', y');
    Left(s, t, m, |s| - |x'|, x', y');
    Stopped(ParseHead(s), ParseHead(t), s, t, m, |s| - |x'|);
  }

  lemma {:induction false} ArgsStep(s: string, inBlock: bool)
    ensures var t := SkipInline(s);
            ParseArgs(s, inBlock) ==
              if EndsStatement(t, inBlock) then Parse([], t, false)
              else if !StartsArg(t[0]) then Parse([], t, true)
              else
                var a := ParseArg(t);
                var more := ParseArgs(a.rest, inBlock);
                Parse([a.value] + more.value, more.rest, a.bad || more.bad)
  {
    hide ParseArg, SkipInline;
  }

  lemma {:induction false} ArgsLocal(s: string, t: string, m: nat, inBlock: bool)
    requires Shares(s, t, m)
    ensures Same(ParseArgs(s, inBlock), ParseArgs(t, inBlock), s, t, m)
    decreases |s|, 2
  {
    hide ParseArg, SkipInline, ParseArgs, Same, Shares, StartsArg, Tails;
    ArgsStep(s, inBlock);
    ArgsStep(t, inBlock);
    BlankLocal(s, t, m);
    var x, y := SkipInline(s), SkipInline(t);
    var k := |s| - |x|;
    Left(s, t, m, k, x, y);
    var p, q := ParseArgs(s, inBlock), ParseArgs(t, inBlock);
    if |s| - |p.rest| >= m {
      TooFar(p, q, s, t, m);
    } else if EndsStatement(x, inBlock) || !StartsArg(x[0]) {
      Stopped(p, q, s, t, m, k);
    } else {
      ArgLocal(x, y, m - k);
      var a, b := ParseArg(x), ParseArg(y);
      Chained(s, t, m, k, x, y, a, b);
      var j := |s| - |a.rest|;
      Left(s, t, m, j, a.rest, b.rest);
      ArgsLocal(a.rest, b.rest, m - j, inBlock);
      var c, d := ParseArgs(a.rest, inBlock), ParseArgs(b.rest, inBlock);
      Chained(s, t, m, j, a.rest, b.rest, c, d);
      Stopped(p, q, s, t, m, |s| - |c.rest|);
    }
  }

  lemma {:induction false} StmtLocal(s: string, t: string, m: nat, inBlock: bool)
    requires Shares(s, t, m)
    ensures Same(ParseStmt(s, inBlock), ParseStmt(t, inBlock), s, t, m)
    decreases |s|, 3
  {
    hide ParseHead, ParseArgs, SkipInline, Same, Shares, Tails;
    BlankLocal(s, t, m);
    var x, y := SkipInline(s), SkipInline(t);
    var k := |s| - |x|;
    Left(s, t, m, k, x, y);
    var p, q := ParseStmt(s, inBlock), ParseStmt(t, inBlock);
    if !IsWordRune(x[0]) {
      Stopped(p, q, s, t, m, k);
    } else if |s| - |p.rest| >= m {
      TooFar(p, q, s, t, m);
    } else {
      HeadLocal(x, y, m - k);
      var h, g := ParseHead(x), ParseHead(y);
      Chained(s, t, m, k, x, y, h, g);
      var j := |s| - |h.rest|;
      Left(s, t, m, j, h.rest, g.rest);
      ArgsLocal(h.rest, g.rest, m - j, inBlock);
      var a, b := ParseArgs(h.rest, inBlock), ParseArgs(g.rest, inBlock);
      Chained(s, t, m, j, h.rest, g.rest, a, b);
      Stopped(p, q, s, t, m, |s| - |a.rest|);
    }
  }

  lemma {:induction false} ScriptStep(s: string, inBlock: bool)
    ensures var t := SkipSeparators(s);
            ParseScript(s, inBlock) ==
              if t == "" || (inBlock && t[0] == '}') then Parse([], t, false)
              else
                var st := ParseStmt(t, inBlock);
                if st.value.None? then Parse([], st.rest, true)
                else
                  var more := ParseScript(st.rest, inBlock);
                  Parse([st.value.value] + more.value, more.rest, st.bad || more.bad)
  {
    hide ParseStmt, SkipSeparators;
  }

  lemma {:induction false} ScriptLocal(s: string, t: string, m: nat, inBlock: bool)
    requires Shares(s, t, m)
    ensures Same(ParseScript(s, inBlock), ParseScript(t, inBlock), s, t, m)
    decreases |s|, 4
  {
    hide ParseStmt, SkipSeparators, ParseScript, Same, Shares, Tails;
    ScriptStep(s, inBlock);
    ScriptStep(t, inBlock);
    SeparatorsLocal(s, t, m);
    var x, y := SkipSeparators(s), SkipSeparators(t);
    var k := |s| - |x|;
    Left(s, t, m, k, x, y);
    var p, q := ParseScript(s, inBlock), ParseScript(t, inBlock);
    if |s| - |p.rest| >= m {
      TooFar(p, q, s, t, m);
    } else if inBlock && x[0] == '}' {
      Stopped(p, q, s, t, m, k);
    } else {
      StmtLocal(x, y, m - k, inBlock);
      var a, b := ParseStmt(x, inBlock), ParseStmt(y, inBlock);
      Chained(s, t, m, k, x, y, a, b);
      var j := |s| - |a.rest|;
      Left(s, t, m, j, a.rest, b.rest);
      if a.value.None? {
        Stopped(p, q, s, t, m, j);
      } else {
        ScriptLocal(a.rest, b.rest, m - j, inBlock);
        var c, d := ParseScript(a.rest, inBlock), ParseScript(b.rest, inBlock);
        Chained(s, t, m, j, a.rest, b.rest, c, d);
        Stopped(p, q, s, t, m, |s| - |c.rest|);
      }
    }
  }

  /** A block that closes is read the same wherever it stands: neither what it holds nor
      where it ends depends on what comes after its own closing brace. */
  lemma {:induction false} BlockIsItsOwnSpan(inside: string, after: string, other: string)
    requires ParseScript(inside + "}" + after, true).rest == "}" + after
    ensures var p := ParseScript(inside + "}" + after, true);
            ParseValue("{" + (inside + "}" + other)) == Parse(Some(Block(p.value)), other, p.bad)
  {
    hide ParseScript;
    var s, t, m := inside + "}" + after, inside + "}" + other, |inside| + 1;
    assert s[..m] == inside + "}" == t[..m];
    ScriptLocal(s, t, m, true);
    var p, q := ParseScript(s, true), ParseScript(t, true);
    assert t[|inside|..] == "}" + other;
    assert q == Parse(p.value, "}" + other, p.bad);
    var v := "{" + t;
    assert v[0] == '{' && v[1..] == t;
    assert ("}" + other)[1..] == other;
  }
}
