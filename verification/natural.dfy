/**
 Natural collation: a run of ASCII digits is one number, everything else a
 folded rune (`compare_digit_runs`, `compare_natural`).

 The source walks two cursors. Here that walk is shown to be lexicographic
 comparison of token sequences, which is where its laws come from.
 */
module Natural {
  import opened Lexicographic
  import opened Utf8
  import opened Text

  predicate DigitCode(c: int) {
    '0' as int <= c <= '9' as int
  }

  // ----- runs of digits, as numbers of any length -----

  /** Numeric value first; the same number is separated by how many digits spell it. */
  function CompareDigits(a: string, b: string): int
    requires AllDigits(a) && AllDigits(b)
  {
    if Value(a) != Value(b) then Sign(Value(a) - Value(b)) else Sign(|a| - |b|)
  }

  /** A longer run whose first digit is not zero is the larger number. */
  lemma {:induction false} LongerIsLarger(a: string, b: string)
    requires AllDigits(a) && AllDigits(b)
    requires |a| > |b| && a[0] != '0'
    ensures Value(a) > Value(b)
  {
    if |a| == 1 {
      assert Value(a[..0]) == 0;
    } else if b != "" {
      LongerIsLarger(a[..|a| - 1], b[..|b| - 1]);
    } else {
      LongerIsLarger(a[..|a| - 1], b);
    }
  }

  /** Among runs of one length the first differing digit decides. */
  lemma {:induction false} FirstDigitDecides(a: string, b: string, k: nat)
    requires AllDigits(a) && AllDigits(b)
    requires |a| == |b| && k < |a| && a[..k] == b[..k] && a[k] < b[k]
    ensures Value(a) < Value(b)
  {
    var n := |a| - 1;
    if k == n {
      assert a[..n] == b[..n];
    } else {
      assert a[..n][..k] == a[..k] && b[..n][..k] == b[..k];
      FirstDigitDecides(a[..n], b[..n], k);
    }
  }

  lemma {:induction false} LeadingZeros(s: string, k: nat)
    requires AllDigits(s) && k <= |s|
    requires forall j :: 0 <= j < k ==> s[j] == '0'
    ensures Value(s[k..]) == Value(s)
  {
    if k == |s| {
      assert s[k..] == "";
      if s != "" {
        LeadingZeros(s[..|s| - 1], k - 1);
        assert s[..|s| - 1][k - 1..] == "";
      }
    } else {
      assert s[k..][..|s[k..]| - 1] == s[..|s| - 1][k..];
      LeadingZeros(s[..|s| - 1], k);
    }
  }

  method CompareDigitRuns(a: string, b: string) returns (r: int)
    requires AllDigits(a) && AllDigits(b)
    ensures r == CompareDigits(a, b)
  {
    var ai, bi := 0, 0;
    while ai + 1 < |a| && a[ai] == '0'
      invariant ai <= |a| && (ai == |a| ==> a == "")
      invariant forall j :: 0 <= j < ai ==> a[j] == '0'
    {
      ai := ai + 1;
    }
    while bi + 1 < |b| && b[bi] == '0'
      invariant bi <= |b| && (bi == |b| ==> b == "")
      invariant forall j :: 0 <= j < bi ==> b[j] == '0'
    {
      bi := bi + 1;
    }
    var an, bn := |a| - ai, |b| - bi;
    ghost var sa, sb := a[ai..], b[bi..];
    LeadingZeros(a, ai);
    LeadingZeros(b, bi);
    if an != bn {
      if an < bn && a != "" {
        LongerIsLarger(sb, sa);
      } else if bn < an && b != "" {
        LongerIsLarger(sa, sb);
      }
      return if an < bn then -1 else 1;
    }
    hide Value;
    var k := 0;
    while k < an
      invariant k <= an
      invariant forall j :: 0 <= j < k ==> sa[j] == sb[j]
    {
      assert sa[k] == a[ai + k] && sb[k] == b[bi + k];
      if a[ai + k] != b[bi + k] {
        assert sa[..k] == sb[..k];
        if a[ai + k] < b[bi + k] {
          FirstDigitDecides(sa, sb, k);
        } else {
          FirstDigitDecides(sb, sa, k);
        }
        return if a[ai + k] < b[bi + k] then -1 else 1;
      }
      k := k + 1;
    }
    assert sa == sb;
    r := Sign(|a| - |b|);
  }

  // ----- tokens -----

  datatype Token = Run(digits: string) | Rune(cp: int)

  /** A string as natural collation reads it: maximal runs of digits, and folded runes. */
  function Tokens(s: string): seq<Token> {
    if s == "" then []
    else if IsDigit(s[0]) then [Run(s[..Span(IsDigit, s)])] + Tokens(s[Span(IsDigit, s)..])
    else [Rune(Fold(Decode(s).cp))] + Tokens(s[Decode(s).width..])
  }

  ghost predicate ValidToken(t: Token) {
    match t
    case Run(d) => d != "" && AllDigits(d)
    case Rune(c) => !DigitCode(c)
  }

  /** A run stands where its digits stand among the runes. */
  function CompareToken(x: Token, y: Token): int {
    match (x, y)
    case (Run(d), Run(e)) =>
      if AllDigits(d) && AllDigits(e) then CompareDigits(d, e) else 0
    case (Rune(c), Rune(e)) => Sign(c - e)
    case (Run(_), Rune(e)) => Sign('0' as int - e)
    case (Rune(c), Run(_)) => Sign(c - '0' as int)
  }

  /** The natural order, said without cursors. */
  function NaturalOrder(a: string, b: string): int {
    Lex(CompareToken, Tokens(a), Tokens(b))
  }

  /** Every rune that decodes to a digit is written as that one byte. Overlong
      forms such as C0 B1 are what break it; well-formed text never does. */
  predicate PlainDigits(s: string) {
    s == "" || ((DigitCode(Decode(s).cp) ==> IsDigit(s[0])) && PlainDigits(s[Decode(s).width..]))
  }

  // ----- the walk of the source, on any bytes at all -----

  function NaturalWalk(a: string, b: string): int
    decreases |a|
  {
    if a == "" || b == "" then Sign(|a| - |b|)
    else if IsDigit(a[0]) && IsDigit(b[0]) then
      var (n, m) := (Span(IsDigit, a), Span(IsDigit, b));
      var c := CompareDigits(a[..n], b[..m]);
      if c != 0 then c else NaturalWalk(a[n..], b[m..])
    else
      var (x, y) := (Decode(a), Decode(b));
      if Fold(x.cp) != Fold(y.cp) then Sign(Fold(x.cp) - Fold(y.cp))
      else NaturalWalk(a[x.width..], b[y.width..])
  }

  lemma {:induction false} SpanFrom(s: string, i: nat, k: nat)
    requires i <= k <= |s| && AllDigits(s[i..k])
    requires k == |s| || !IsDigit(s[k])
    ensures Span(IsDigit, s[i..]) == k - i
  {
    var n := Span(IsDigit, s[i..]);
    assert forall j :: 0 <= j < n ==> s[i..][..n][j] == s[i + j];
    assert forall j :: i <= j < k ==> s[i..k][j - i] == s[j];
  }

  method DigitsEnd(s: string, i: nat) returns (k: nat)
    requires i <= |s|
    ensures i <= k <= |s| && k - i == Span(IsDigit, s[i..])
  {
    k := i;
    while k < |s| && IsDigit(s[k])
      invariant i <= k <= |s|
      invariant AllDigits(s[i..k])
    {
      assert s[i..k + 1] == s[i..k] + [s[k]];
      k := k + 1;
    }
    SpanFrom(s, i, k);
  }

  lemma {:induction false} WalkDigits(a: string, i: nat, i': nat, b: string, j: nat, j': nat)
    requires i < i' <= |a| && i' - i == Span(IsDigit, a[i..]) && IsDigit(a[i])
    requires j < j' <= |b| && j' - j == Span(IsDigit, b[j..]) && IsDigit(b[j])
    ensures AllDigits(a[i..i']) && AllDigits(b[j..j'])
    ensures NaturalWalk(a[i..], b[j..])
         == var c := CompareDigits(a[i..i'], b[j..j']);
            if c != 0 then c else NaturalWalk(a[i'..], b[j'..])
  {
    assert a[i..][..i' - i] == a[i..i'] && b[j..][..j' - j] == b[j..j'];
    assert a[i..][i' - i..] == a[i'..] && b[j..][j' - j..] == b[j'..];
  }

  lemma {:induction false} WalkRune(a: string, i: nat, i': nat, b: string, j: nat, j': nat)
    requires i < i' <= |a| && i' - i == Decode(a[i..]).width
    requires j < j' <= |b| && j' - j == Decode(b[j..]).width
    requires !(IsDigit(a[i]) && IsDigit(b[j]))
    ensures NaturalWalk(a[i..], b[j..])
         == var (x, y) := (Fold(Decode(a[i..]).cp), Fold(Decode(b[j..]).cp));
            if x != y then Sign(x - y) else NaturalWalk(a[i'..], b[j'..])
  {
    assert a[i..][i' - i..] == a[i'..] && b[j..][j' - j..] == b[j'..];
  }

  method CompareNatural(a: string, b: string) returns (r: int)
    ensures r == NaturalWalk(a, b)
  {
    var i, j := 0, 0;
    assert a[0..] == a && b[0..] == b;
    while i < |a| && j < |b|
      invariant i <= |a| && j <= |b|
      invariant NaturalWalk(a[i..], b[j..]) == NaturalWalk(a, b)
    {
      if IsDigit(a[i]) && IsDigit(b[j]) {
        var si, sj := i, j;
        i := DigitsEnd(a, i);
        j := DigitsEnd(b, j);
        WalkDigits(a, si, i, b, sj, j);
        var c := CompareDigitRuns(a[si..i], b[sj..j]);
        if c != 0 {
          return c;
        }
        continue;
      }
      var x, i' := Utf8Next(a, i);
      var y, j' := Utf8Next(b, j);
      WalkRune(a, i, i', b, j, j');
      x, y := Fold(x), Fold(y);
      if x != y {
        return if x < y then -1 else 1;
      }
      i, j := i', j';
    }
    r := Sign((|a| - i) - (|b| - j));
  }

  // ----- the walk is lexicographic order on tokens -----

  lemma {:induction false} TokensEmpty(s: string)
    ensures Tokens(s) == [] <==> s == ""
  {}

  lemma {:induction false} TokenStep(x: Token, xs: seq<Token>, y: Token, ys: seq<Token>)
    ensures Lex(CompareToken, [x] + xs, [y] + ys)
         == if CompareToken(x, y) != 0 then CompareToken(x, y) else Lex(CompareToken, xs, ys)
  {
    assert ([x] + xs)[1..] == xs && ([y] + ys)[1..] == ys;
  }

  lemma {:induction false} DecodeDigit(s: string)
    requires s != "" && IsDigit(s[0])
    ensures Decode(s) == Decoded(s[0] as int, 1)
  {}

  /** What is left of a plain string after its first run of digits is plain. */
  lemma {:induction false} PlainAfterSpan(s: string, n: nat)
    requires PlainDigits(s) && n <= |s| && AllDigits(s[..n])
    ensures PlainDigits(s[n..])
  {
    if n > 0 {
      assert s[..n][0] == s[0];
      DecodeDigit(s);
      assert s[1..][..n - 1] == s[..n][1..];
      PlainAfterSpan(s[1..], n - 1);
      assert s[1..][n - 1..] == s[n..];
    } else {
      assert s[0..] == s;
    }
  }

  lemma {:induction false} WalkIsOrder(a: string, b: string)
    requires PlainDigits(a) && PlainDigits(b)
    ensures NaturalWalk(a, b) == NaturalOrder(a, b)
    decreases |a|
  {
    if a == "" || b == "" {
      TokensEmpty(a);
      TokensEmpty(b);
    } else if IsDigit(a[0]) && IsDigit(b[0]) {
      var n, m := Span(IsDigit, a), Span(IsDigit, b);
      PlainAfterSpan(a, n);
      PlainAfterSpan(b, m);
      WalkIsOrder(a[n..], b[m..]);
      TokenStep(Run(a[..n]), Tokens(a[n..]), Run(b[..m]), Tokens(b[m..]));
    } else if IsDigit(a[0]) {
      RuneHead(a, b);
    } else if IsDigit(b[0]) {
      RuneHead(b, a);
    } else {
      var (x, y) := (Decode(a), Decode(b));
      WalkIsOrder(a[x.width..], b[y.width..]);
      TokenStep(Rune(Fold(x.cp)), Tokens(a[x.width..]), Rune(Fold(y.cp)), Tokens(b[y.width..]));
    }
  }

  /** A run against a rune is settled by the run's first digit alone. */
  lemma {:induction false} RuneHead(a: string, b: string)
    requires a != "" && b != "" && PlainDigits(b)
    requires IsDigit(a[0]) && !IsDigit(b[0])
    ensures NaturalWalk(a, b) == NaturalOrder(a, b) == Sign(a[0] as int - Fold(Decode(b).cp)) != 0
    ensures NaturalWalk(b, a) == NaturalOrder(b, a) == -NaturalOrder(a, b)
  {
    DecodeDigit(a);
    var x, y := Run(a[..Span(IsDigit, a)]), Rune(Fold(Decode(b).cp));
    TokenStep(x, Tokens(a[Span(IsDigit, a)..]), y, Tokens(b[Decode(b).width..]));
    TokenStep(y, Tokens(b[Decode(b).width..]), x, Tokens(a[Span(IsDigit, a)..]));
  }

  // ----- and so it is a total preorder -----

  lemma {:induction false} SameDigits(a: string, b: string)
    requires AllDigits(a) && AllDigits(b) && |a| == |b| && Value(a) == Value(b)
    ensures a == b
  {
    if a != "" {
      SameDigits(a[..|a| - 1], b[..|b| - 1]);
      assert a == a[..|a| - 1] + [a[|a| - 1]] && b == b[..|b| - 1] + [b[|b| - 1]];
    }
  }

  /** Digit runs tie only when they are the same digits. */
  lemma {:induction false} DigitsZero(a: string, b: string)
    requires AllDigits(a) && AllDigits(b)
    ensures CompareDigits(a, b) == 0 <==> a == b
  {
    if |a| == |b| && Value(a) == Value(b) {
      SameDigits(a, b);
    }
  }

  lemma {:induction false} TokenPreorder()
    ensures Preorder(CompareToken, ValidToken)
    ensures forall x, y :: ValidToken(x) && ValidToken(y) ==> (CompareToken(x, y) == 0 <==> x == y)
  {
    forall x, y ensures ValidToken(x) && ValidToken(y) ==> Mirrored(CompareToken, x, y) {}
    forall x, y, z ensures ValidToken(x) && ValidToken(y) && ValidToken(z) ==> Transitive(CompareToken, x, y, z) {}
    forall x, y | ValidToken(x) && ValidToken(y)
      ensures CompareToken(x, y) == 0 <==> x == y
    {
      if x.Run? && y.Run? {
        DigitsZero(x.digits, y.digits);
      }
    }
  }

  lemma {:induction false} TokensValid(s: string)
    requires PlainDigits(s)
    ensures All(ValidToken, Tokens(s))
    decreases |s|
  {
    if s != "" {
      if IsDigit(s[0]) {
        PlainAfterSpan(s, Span(IsDigit, s));
        TokensValid(s[Span(IsDigit, s)..]);
      } else {
        TokensValid(s[Decode(s).width..]);
      }
    }
  }

  /** Natural collation is a total preorder on text whose digits are plain. */
  lemma {:induction false} NaturalPreorder(a: string, b: string, c: string)
    requires PlainDigits(a) && PlainDigits(b) && PlainDigits(c)
    ensures -1 <= NaturalWalk(a, b) <= 1
    ensures NaturalWalk(a, b) == -NaturalWalk(b, a)
    ensures NaturalWalk(a, b) <= 0 && NaturalWalk(b, c) <= 0 ==> NaturalWalk(a, c) <= 0
  {
    TokenPreorder();
    TokensValid(a);
    TokensValid(b);
    TokensValid(c);
    WalkIsOrder(a, b);
    WalkIsOrder(b, a);
    WalkIsOrder(b, c);
    WalkIsOrder(a, c);
    LexMirrored(CompareToken, ValidToken, Tokens(a), Tokens(b));
    if NaturalWalk(a, b) <= 0 && NaturalWalk(b, c) <= 0 {
      LexTransitive(CompareToken, ValidToken, Tokens(a), Tokens(b), Tokens(c));
    }
  }

  lemma {:induction false} WellFormedIsPlain(s: string)
    requires WellFormed(s)
    ensures PlainDigits(s)
    decreases |s|
  {
    if s != "" {
      DecodeWellFormed(s);
      WellFormedIsPlain(s[CharWidth(s)..]);
    }
  }

  // ----- natural answers 0 exactly when fold does -----

  /** The codes of a run, as the runes they are. */
  function Codes(s: string): seq<int> {
    seq(|s|, i requires 0 <= i < |s| => s[i] as int)
  }

  lemma {:induction false} CodesStep(s: string)
    requires s != ""
    ensures Codes(s) == [s[0] as int] + Codes(s[1..])
  {}

  lemma {:induction false} RunesOfRun(s: string, n: nat)
    requires n <= |s| && AllDigits(s[..n])
    ensures Runes(s, true) == Codes(s[..n]) + Runes(s[n..], true)
  {
    if n == 0 {
      assert s[0..] == s && Codes(s[..0]) == [];
    } else {
      assert s[..n][0] == s[0] && s[1..][..n - 1] == s[..n][1..] && s[1..][n - 1..] == s[n..];
      DecodeDigit(s);
      RunesOfRun(s[1..], n - 1);
      calc {
        Runes(s, true);
        [s[0] as int] + Runes(s[1..], true);
        [s[0] as int] + (Codes(s[1..][..n - 1]) + Runes(s[n..], true));
        ([s[0] as int] + Codes(s[1..][..n - 1])) + Runes(s[n..], true);
        { CodesStep(s[..n]); }
        Codes(s[..n]) + Runes(s[n..], true);
      }
    }
  }

  /** The rune that follows a maximal run is not a digit. */
  lemma {:induction false} RuneAfterRun(s: string, n: nat)
    requires n <= |s| && PlainDigits(s[n..]) && (n == |s| || !IsDigit(s[n]))
    ensures var rest := Runes(s[n..], true); rest == [] || !DigitCode(rest[0])
  {
    if n < |s| {
      assert s[n..][0] == s[n];
    }
  }

  lemma {:induction false} CodesInjective(a: string, b: string)
    requires Codes(a) == Codes(b)
    ensures a == b
  {
    assert |a| == |Codes(a)| && |b| == |Codes(b)|;
    forall k | 0 <= k < |a| ensures a[k] == b[k] {
      assert Codes(a)[k] == a[k] as int && Codes(b)[k] == b[k] as int;
    }
  }

  lemma {:induction false} SameRunesSameTokens(a: string, b: string)
    requires PlainDigits(a) && PlainDigits(b)
    requires Runes(a, true) == Runes(b, true)
    ensures Tokens(a) == Tokens(b)
    decreases |a|
  {
    if a == "" || b == "" {
      RunesEmpty(a, true);
      RunesEmpty(b, true);
    } else {
      assert Runes(a, true)[0] == Fold(Decode(a).cp) && Runes(b, true)[0] == Fold(Decode(b).cp);
      if IsDigit(a[0]) {
        DecodeDigit(a);
        assert IsDigit(b[0]);
        var n, m := Span(IsDigit, a), Span(IsDigit, b);
        PlainAfterSpan(a, n);
        PlainAfterSpan(b, m);
        RunesOfRun(a, n);
        RunesOfRun(b, m);
        RuneAfterRun(a, n);
        RuneAfterRun(b, m);
        RunsAgree(a[..n], Runes(a[n..], true), b[..m], Runes(b[m..], true));
        CodesInjective(a[..n], b[..m]);
        SameRunesSameTokens(a[n..], b[m..]);
      } else {
        assert Runes(a, true)[1..] == Runes(a[Decode(a).width..], true);
        assert Runes(b, true)[1..] == Runes(b[Decode(b).width..], true);
        SameRunesSameTokens(a[Decode(a).width..], b[Decode(b).width..]);
      }
    }
  }

  lemma {:induction false} RunsAgree(d: string, xs: seq<int>, e: string, ys: seq<int>)
    requires AllDigits(d) && AllDigits(e) && Codes(d) + xs == Codes(e) + ys
    requires xs == [] || !DigitCode(xs[0])
    requires ys == [] || !DigitCode(ys[0])
    ensures Codes(d) == Codes(e) && xs == ys
  {
    var s := Codes(d) + xs;
    assert forall j :: 0 <= j < |d| ==> s[j] == Codes(d)[j] == d[j] as int;
    assert forall j :: 0 <= j < |e| ==> s[j] == Codes(e)[j] == e[j] as int;
    assert xs != [] ==> s[|d|] == xs[0];
    assert ys != [] ==> s[|e|] == ys[0];
    assert s[..|d|] == Codes(d) && s[|d|..] == xs && s[..|e|] == Codes(e) && s[|e|..] == ys;
  }

  function Flatten(ts: seq<Token>): seq<int> {
    if ts == [] then []
    else (match ts[0] case Run(d) => Codes(d) case Rune(c) => [c]) + Flatten(ts[1..])
  }

  lemma {:induction false} RunesFromTokens(s: string)
    ensures Runes(s, true) == Flatten(Tokens(s))
    decreases |s|
  {
    if s != "" {
      if IsDigit(s[0]) {
        var n := Span(IsDigit, s);
        RunesOfRun(s, n);
        RunesFromTokens(s[n..]);
        assert Tokens(s)[1..] == Tokens(s[n..]);
      } else {
        var w := Decode(s).width;
        RunesFromTokens(s[w..]);
        assert Tokens(s)[1..] == Tokens(s[w..]);
      }
    }
  }

  /** Two strings tie under natural exactly when they tie under fold. */
  lemma {:induction false} NaturalZeroIsFoldZero(a: string, b: string)
    requires PlainDigits(a) && PlainDigits(b)
    ensures NaturalWalk(a, b) == 0 <==> CompareRunesOf(a, b, true) == 0
  {
    TokenPreorder();
    TokensValid(a);
    TokensValid(b);
    WalkIsOrder(a, b);
    LexZero(CompareToken, ValidToken, Tokens(a), Tokens(b));
    RunesZero(a, b, true);
    RunesFromTokens(a);
    RunesFromTokens(b);
    if Runes(a, true) == Runes(b, true) {
      SameRunesSameTokens(a, b);
    }
  }

  // ----- what overlong digits break, and what survives them -----

  /** Turning the question round turns the answer round, whatever the bytes are. */
  lemma {:induction false} WalkMirrored(a: string, b: string)
    ensures -1 <= NaturalWalk(a, b) <= 1
    ensures NaturalWalk(a, b) == -NaturalWalk(b, a)
    decreases |a|
  {
    if a != "" && b != "" {
      if IsDigit(a[0]) && IsDigit(b[0]) {
        WalkMirrored(a[Span(IsDigit, a)..], b[Span(IsDigit, b)..]);
      } else {
        WalkMirrored(a[Decode(a).width..], b[Decode(b).width..]);
      }
    }
  }

  /** C0 B2 decodes to the digit 2 without being one, and then "10" is before it,
      it is before "3", and "3" is before "10". */
  lemma {:induction false} OverlongDigitBreaksTransitivity()
    ensures var two: string := [0xC0 as char, 0xB2 as char];
            && !PlainDigits(two)
            && NaturalWalk("10", two) == -1
            && NaturalWalk(two, "3") == -1
            && NaturalWalk("10", "3") == 1
  {
    var two: string := [0xC0 as char, 0xB2 as char];
    assert Decode(two) == Decoded('2' as int, 2) by {
      assert Follow(two, 1, 1, 0) == Follow(two, 2, 1, '2' as int);
    }
    DecodeDigit("10");
    DecodeDigit("3");
    assert Span(IsDigit, "10") == 2 by { assert "10"[1..] == "0" && "0"[1..] == ""; }
    assert Span(IsDigit, "3") == 1;
    assert "10"[..2] == "10" && "3"[..1] == "3";
    assert Value("10") == 10 by { assert "10"[..1] == "1"; }
    assert Value("3") == 3;
    assert NaturalWalk("10", "3") == 1;
  }
}
