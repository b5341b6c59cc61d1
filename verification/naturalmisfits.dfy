/**
 Natural collation on any bytes at all: exactly which strings find no place in the
 order of those whose digits are plain.

 A digit written overlong is met rune against rune, while the digits of a plain string
 are met as one run. Whether that ever shows depends on where the digit stands.
 */
module NaturalMisfits {
  import opened Lexicographic
  import opened Utf8
  import opened Text
  import opened Natural

  /** A rune that decodes to a digit without being one opens the string. */
  predicate OpensFalsely(s: string) {
    s != "" && !IsDigit(s[0]) && DigitCode(Decode(s).cp)
  }

  /** A scan for the first such digit that can be told from a plain one. After a run of
      digits it cannot: no plain string has more digits there. Elsewhere any but a 0 can,
      and a 0 can where something follows it that a digit might stand before. */
  predicate Breaks(s: string)
    decreases |s|
  {
    s != ""
    && (if IsDigit(s[0]) then !OpensFalsely(s[Span(IsDigit, s)..]) && Breaks(s[Span(IsDigit, s)..])
        else if !OpensFalsely(s) then Breaks(s[Decode(s).width..])
        else if Decode(s).cp != '0' as int then true
        else
          var rest := s[Decode(s).width..];
          (rest != "" && Fold(Decode(rest).cp) >= '0' as int) || Breaks(rest))
  }

  // ----- a rune, spelled so that nothing after it changes how it is read -----

  const TOP := 0x1F_FFFF

  function Spelled(c: int): string
    requires 0 <= c <= TOP
  {
    [(0xF0 + c / 0x4_0000) as char, (0x80 + c / 0x1000 % 64) as char, (0x80 + c / 64 % 64) as char,
        (0x80 + c % 64) as char]
  }

  lemma {:induction false} SpelledRead(c: int, t: string)
    requires 0 <= c <= TOP
    ensures var s := Spelled(c) + t;
            s != "" && !IsDigit(s[0]) && Decode(s) == Decoded(c, 4) && s[4..] == t
  {
    var s := Spelled(c) + t;
    var a, b, d, e := c / 0x4_0000, c / 0x1000 % 64, c / 64 % 64, c % 64;
    assert Lead(s[0] as int) == (a, 3) by {
      assert a <= 7;
    }
    assert s[1] as int == 0x80 + b && s[2] as int == 0x80 + d && s[3] as int == 0x80 + e;
    assert Follow(s, 1, 3, a) == Follow(s, 2, 3, a * 64 + b);
    assert Follow(s, 2, 3, a * 64 + b) == Follow(s, 3, 3, (a * 64 + b) * 64 + d);
    assert Follow(s, 3, 3, (a * 64 + b) * 64 + d) == Follow(s, 4, 3, ((a * 64 + b) * 64 + d) * 64 + e);
    Digits64(c);
  }

  lemma {:induction false} Digits64(c: int)
    requires 0 <= c <= TOP
    ensures ((c / 0x4_0000 * 64 + c / 0x1000 % 64) * 64 + c / 64 % 64) * 64 + c % 64 == c
  {
    assert c / 64 / 64 == c / 0x1000 && c / 0x1000 / 64 == c / 0x4_0000;
  }

  /** No byte sequence decodes past the top. */
  lemma {:induction false} DecodeBounded(s: string)
    requires s != ""
    ensures 0 <= Decode(s).cp <= TOP
  {
    var (cp, extra) := Lead(s[0] as int);
    if extra < |s| {
      FollowBounded(s, 1, extra, cp);
    }
  }

  /** The most a codepoint can hold with so many bytes of it still to come. */
  function Room(n: nat): int {
    if n == 0 then TOP else if n == 1 then 0x7FFF else if n == 2 then 0x1FF else 7
  }

  lemma {:induction false} FollowBounded(s: string, k: nat, extra: nat, cp: int)
    requires 1 <= k <= extra + 1 <= |s| && extra <= 3
    requires 0 <= cp <= Room(extra + 1 - k)
    ensures 0 <= Follow(s, k, extra, cp).cp <= TOP
    decreases extra + 1 - k
  {
    if k <= extra && Continuation(s[k]) {
      FollowBounded(s, k + 1, extra, cp * 64 + (s[k] as int - 0x80));
    }
  }

  lemma {:induction false} FoldBounded(s: string)
    requires s != ""
    ensures 0 <= Fold(Decode(s).cp) <= TOP && (DigitCode(Fold(Decode(s).cp)) <==> DigitCode(Decode(s).cp))
  {
    DecodeBounded(s);
  }

  /** Plain strings that begin with a rune, or with a run and then no more digits. */
  lemma {:induction false} SpelledPlain(c: int, t: string)
    requires 0 <= c <= TOP && !DigitCode(c) && PlainDigits(t)
    ensures PlainDigits(Spelled(c) + t)
  {
    SpelledRead(c, t);
  }

  lemma {:induction false} RunPlain(d: string, t: string)
    requires AllDigits(d) && PlainDigits(t)
    ensures PlainDigits(d + t)
  {
    if d == "" {
      assert d + t == t;
    } else {
      DecodeDigit(d + t);
      assert (d + t)[1..] == d[1..] + t;
      RunPlain(d[1..], t);
    }
  }

  predicate OpensWithDigit(s: string) {
    s != "" && IsDigit(s[0])
  }

  // ----- the walk, one token at a time -----

  lemma {:induction false} WalkRuns(d: string, a: string, e: string, b: string)
    requires d != "" && e != "" && AllDigits(d) && AllDigits(e) && !OpensWithDigit(a) && !OpensWithDigit(b)
    ensures NaturalWalk(d + a, e + b) == if CompareDigits(d, e) != 0 then CompareDigits(d, e) else NaturalWalk(a, b)
  {
    SpanExact(IsDigit, d, a);
    SpanExact(IsDigit, e, b);
  }

  lemma {:induction false} WalkSpelled(c: int, a: string, s: string)
    requires 0 <= c <= TOP && s != ""
    ensures var x, y := Fold(c), Fold(Decode(s).cp);
            NaturalWalk(Spelled(c) + a, s) == if x != y then Sign(x - y) else NaturalWalk(a, s[Decode(s).width..])
    ensures var x, y := Fold(c), Fold(Decode(s).cp);
            NaturalWalk(s, Spelled(c) + a) == if x != y then Sign(y - x) else NaturalWalk(s[Decode(s).width..], a)
  {
    SpelledRead(c, a);
  }

  /** A plain string as late as any string is. */
  function Last(n: nat): string {
    if n == 0 then "" else Spelled(TOP) + Last(n - 1)
  }

  lemma {:induction false} LastIsLate(s: string, n: nat)
    requires |s| <= n
    ensures NaturalWalk(s, Last(n)) <= 0 && PlainDigits(Last(n)) && !OpensWithDigit(Last(n))
    decreases n
  {
    hide NaturalWalk, PlainDigits, Spelled, Decode;
    EmptyIsEarly(Last(n));
    if n == 0 {
      EmptyIsPlain();
    } else {
      var more := Last(n - 1);
      LastIsLate(if s == "" then "" else s[Decode(s).width..], n - 1);
      SpelledRead(TOP, more);
      SpelledPlain(TOP, more);
      if s != "" {
        FoldBounded(s);
        WalkSpelled(TOP, more, s);
      }
    }
  }

  lemma {:induction false} EmptyIsEarly(t: string)
    ensures NaturalWalk("", t) <= 0
  {}

  lemma {:induction false} EmptyIsPlain()
    ensures PlainDigits("")
  {}

  // ----- where the scan finds a digit, the order is broken -----

  ghost predicate Around(a: string, s: string, c: string) {
    && PlainDigits(a) && PlainDigits(c)
    && NaturalWalk(a, s) <= 0 && NaturalWalk(s, c) <= 0 && NaturalWalk(a, c) > 0
  }

  lemma {:induction false} Witness(s: string) returns (a: string, c: string)
    requires Breaks(s)
    ensures Around(a, s, c)
    ensures !OpensWithDigit(s) && !OpensFalsely(s) ==> !OpensWithDigit(a) && !OpensWithDigit(c)
    decreases |s|
  {
    if IsDigit(s[0]) {
      a, c := WitnessAfterRun(s);
    } else if !OpensFalsely(s) {
      a, c := WitnessAfterRune(s);
    } else if Decode(s).cp != '0' as int {
      a, c := WitnessAtDigit(s);
    } else {
      var rest := s[Decode(s).width..];
      if rest != "" && Fold(Decode(rest).cp) >= '0' as int {
        a, c := WitnessAtZero(s);
      } else {
        a, c := WitnessAfterZero(s);
      }
    }
  }

  lemma {:induction false} WitnessAfterRun(s: string) returns (a: string, c: string)
    requires Breaks(s) && IsDigit(s[0])
    ensures Around(a, s, c)
    decreases |s|, 0
  {
    var n := Span(IsDigit, s);
    var d, rest := s[..n], s[n..];
    var a', c' := Witness(rest);
    a, c := d + a', d + c';
    assert s == d + rest;
    DigitsZero(d, d);
    WalkRuns(d, a', d, rest);
    WalkRuns(d, rest, d, c');
    WalkRuns(d, a', d, c');
    RunPlain(d, a');
    RunPlain(d, c');
  }

  lemma {:induction false} WitnessAfterRune(s: string) returns (a: string, c: string)
    requires Breaks(s) && !IsDigit(s[0]) && !OpensFalsely(s)
    ensures Around(a, s, c) && !OpensWithDigit(a) && !OpensWithDigit(c)
    decreases |s|, 0
  {
    var rest := s[Decode(s).width..];
    var a', c' := Witness(rest);
    var x := Fold(Decode(s).cp);
    FoldBounded(s);
    assert Fold(x) == x;
    a, c := Spelled(x) + a', Spelled(x) + c';
    WalkSpelled(x, a', s);
    WalkSpelled(x, c', s);
    SpelledRead(x, a');
    SpelledRead(x, c');
    WalkSpelled(x, a', c);
    SpelledPlain(x, a');
    SpelledPlain(x, c');
  }

  /** Against a falsely spelled digit, a run of them is met digit by digit. */
  lemma {:induction false} WalkFalse(d: string, a: string, s: string)
    requires d != "" && AllDigits(d) && OpensFalsely(s)
    ensures var y := Decode(s).cp;
            && NaturalWalk(d + a, s) == (
                  if d[0] as int != y then Sign(d[0] as int - y) else NaturalWalk(d[1..] + a, s[Decode(s).width..]))
            && NaturalWalk(s, d + a) == (
                  if d[0] as int != y then Sign(y - d[0] as int) else NaturalWalk(s[Decode(s).width..], d[1..] + a))
  {
    DecodeDigit(d + a);
    assert (d + a)[1..] == d[1..] + a;
  }

  lemma {:induction false} WitnessAtDigit(s: string) returns (a: string, c: string)
    requires OpensFalsely(s) && Decode(s).cp != '0' as int
    ensures Around(a, s, c)
  {
    var y := Decode(s).cp;
    var d := [y as char];
    var rest := s[Decode(s).width..];
    var late := Last(|rest|);
    LastIsLate(rest, |rest|);
    a, c := "010" + "", d + late;
    WalkFalse("010", "", s);
    WalkFalse(d, late, s);
    assert d[1..] + late == late;
    TenIsTen(d);
    WalkRuns("010", "", d, late);
    RunPlain("010", "");
    RunPlain(d, late);
  }

  lemma {:induction false} TenIsTen(d: string)
    requires AllDigits(d) && |d| == 1
    ensures AllDigits("010") && CompareDigits("010", d) == 1
  {
    assert "010"[..2] == "01" && "01"[..1] == "0" && "0"[..0] == "";
    assert Value("0") == 0 && Value("01") == 1 && Value("010") == 10;
    assert d[..0] == "";
  }

  lemma {:induction false} WitnessAtZero(s: string) returns (a: string, c: string)
    requires OpensFalsely(s) && Decode(s).cp == '0' as int
    requires var rest := s[Decode(s).width..]; rest != "" && Fold(Decode(rest).cp) >= '0' as int
    ensures Around(a, s, c)
  {
    var rest := s[Decode(s).width..];
    var late := Last(|rest|);
    LastIsLate(rest, |rest|);
    a, c := "00" + "", "0" + late;
    WalkFalse("00", "", s);
    WalkFalse("0", late, s);
    assert "0"[1..] + late == late && "00"[1..] + "" == "0";
    ZeroIsEarly(rest);
    ZerosCompare();
    WalkRuns("00", "", "0", late);
    RunPlain("00", "");
    RunPlain("0", late);
  }

  lemma {:induction false} ZerosCompare()
    ensures AllDigits("00") && AllDigits("0") && CompareDigits("00", "0") == 1
  {
    assert "00"[..1] == "0" && "0"[..0] == "";
    assert Value("0") == 0 && Value("00") == 0;
  }

  /** A lone 0 stands before whatever opens with a digit or with anything later. */
  lemma {:induction false} ZeroIsEarly(s: string)
    requires s != "" && Fold(Decode(s).cp) >= '0' as int
    ensures NaturalWalk("0", s) <= 0
  {
    assert "0" + "" == "0" && "0"[..0] == "";
    DecodeDigit("0");
    if IsDigit(s[0]) {
      var n := Span(IsDigit, s);
      assert s == s[..n] + s[n..] && Value("0") == 0;
      WalkRuns("0", "", s[..n], s[n..]);
    } else {
      assert "0"[1..] == "";
    }
  }

  lemma {:induction false} WitnessAfterZero(s: string) returns (a: string, c: string)
    requires OpensFalsely(s) && Decode(s).cp == '0' as int && Breaks(s[Decode(s).width..])
    requires var rest := s[Decode(s).width..]; rest == "" || Fold(Decode(rest).cp) < '0' as int
    ensures Around(a, s, c)
    decreases |s|, 0
  {
    var rest := s[Decode(s).width..];
    if IsDigit(rest[0]) {
      DecodeDigit(rest);
    }
    FoldBounded(rest);
    var a', c' := Witness(rest);
    a, c := "0" + a', "0" + c';
    WalkFalse("0", a', s);
    WalkFalse("0", c', s);
    assert "0"[1..] + a' == a' && "0"[1..] + c' == c';
    DigitsZero("0", "0");
    WalkRuns("0", a', "0", c');
    RunPlain("0", a');
    RunPlain("0", c');
  }

  // ----- where it finds none, the string fits everywhere -----

  /** Between two plain strings that do not come round, whatever the scan lets through,
      and after a run of digits whatever comes. */
  lemma {:induction false} Fits(a: string, s: string, c: string)
    requires PlainDigits(a) && PlainDigits(c)
    requires !Breaks(s) || (OpensFalsely(s) && !OpensWithDigit(a) && !OpensWithDigit(c))
    requires NaturalWalk(a, s) <= 0 && NaturalWalk(s, c) <= 0
    ensures NaturalWalk(a, c) <= 0
    decreases |s|
  {
    if a != "" && s != "" && c != "" {
      FoldBounded(a);
      FoldBounded(c);
      FoldBounded(s);
      if IsDigit(s[0]) {
        FitsRun(a, s, c);
      } else if !OpensFalsely(s) {
        FitsRune(a, s, c);
      } else {
        FitsFalse(a, s, c);
      }
    }
  }

  /** A plain string's opening, as a run or as a rune no digit is. */
  lemma {:induction false} PlainOpens(a: string)
    requires a != "" && PlainDigits(a)
    ensures if IsDigit(a[0]) then
              var n := Span(IsDigit, a);
              n > 0 && a == a[..n] + a[n..] && AllDigits(a[..n]) && a[..n] != "" && a[..n][0] == a[0]
              && !OpensWithDigit(a[n..]) && PlainDigits(a[n..]) && Decode(a) == Decoded(a[0] as int, 1)
            else
              !DigitCode(Fold(Decode(a).cp)) && PlainDigits(a[Decode(a).width..])
  {
    if IsDigit(a[0]) {
      PlainAfterSpan(a, Span(IsDigit, a));
      DecodeDigit(a);
    }
  }

  lemma {:induction false} FitsRun(a: string, s: string, c: string)
    requires a != "" && s != "" && c != "" && PlainDigits(a) && PlainDigits(c) && IsDigit(s[0]) && !Breaks(s)
    requires NaturalWalk(a, s) <= 0 && NaturalWalk(s, c) <= 0
    ensures NaturalWalk(a, c) <= 0
    decreases |s|, 0
  {
    PlainOpens(a);
    PlainOpens(c);
    DecodeDigit(s);
    var n := Span(IsDigit, s);
    var e, rest := s[..n], s[n..];
    if IsDigit(a[0]) && IsDigit(c[0]) {
      var i, j := Span(IsDigit, a), Span(IsDigit, c);
      DigitsZero(a[..i], e);
      DigitsZero(e, c[..j]);
      if a[..i] == e == c[..j] {
        Fits(a[i..], rest, c[j..]);
      }
    }
  }

  lemma {:induction false} FitsRune(a: string, s: string, c: string)
    requires a != "" && s != "" && c != "" && PlainDigits(a) && PlainDigits(c)
    requires !IsDigit(s[0]) && !OpensFalsely(s) && !Breaks(s)
    requires NaturalWalk(a, s) <= 0 && NaturalWalk(s, c) <= 0
    ensures NaturalWalk(a, c) <= 0
    decreases |s|, 0
  {
    PlainOpens(a);
    PlainOpens(c);
    FoldBounded(s);
    if !IsDigit(a[0]) && !IsDigit(c[0]) && Fold(Decode(a).cp) == Fold(Decode(s).cp) == Fold(Decode(c).cp) {
      Fits(a[Decode(a).width..], s[Decode(s).width..], c[Decode(c).width..]);
    }
  }

  lemma {:induction false} FitsFalse(a: string, s: string, c: string)
    requires a != "" && s != "" && c != "" && PlainDigits(a) && PlainDigits(c) && OpensFalsely(s)
    requires !Breaks(s) || (!OpensWithDigit(a) && !OpensWithDigit(c))
    requires NaturalWalk(a, s) <= 0 && NaturalWalk(s, c) <= 0
    ensures NaturalWalk(a, c) <= 0
    decreases |s|, 1
  {
    PlainOpens(a);
    PlainOpens(c);
    FoldBounded(s);
    if IsDigit(a[0]) && IsDigit(c[0]) {
      FitsZero(a, s, c);
    }
  }

  lemma {:induction false} FitsZero(a: string, s: string, c: string)
    requires PlainDigits(a) && PlainDigits(c) && OpensFalsely(s) && !Breaks(s)
    requires OpensWithDigit(a) && OpensWithDigit(c)
    requires NaturalWalk(a, s) <= 0 && NaturalWalk(s, c) <= 0
    ensures NaturalWalk(a, c) <= 0
    decreases |s|, 0
  {
    PlainOpens(a);
    PlainOpens(c);
    var rest := s[Decode(s).width..];
    var i, j := Span(IsDigit, a), Span(IsDigit, c);
    var d, g := a[..i], c[..j];
    WalkFalse(d, a[i..], s);
    WalkFalse(g, c[j..], s);
    if i > 1 {
      DigitIsLate(d[1..] + a[i..], rest);
    }
    assert d == "0";
    assert d[1..] + a[i..] == a[i..];
    ZeroIsLeast(g);
    if g == "0" {
      assert g[1..] + c[j..] == c[j..];
      Fits(a[i..], rest, c[j..]);
    }
  }

  /** A digit stands after the end, and after any rune before the digits. */
  lemma {:induction false} DigitIsLate(a: string, s: string)
    requires OpensWithDigit(a) && (s == "" || Fold(Decode(s).cp) < '0' as int)
    ensures NaturalWalk(a, s) > 0
  {
    DecodeDigit(a);
    if s != "" && IsDigit(s[0]) {
      DecodeDigit(s);
    }
  }

  lemma {:induction false} ZeroIsLeast(g: string)
    requires AllDigits(g) && g != ""
    ensures AllDigits("0") && CompareDigits("0", g) == if g == "0" then 0 else -1
  {
    assert "0"[..0] == "" && Value("0") == 0;
    DigitsZero("0", g);
  }

  /** A string breaks the order of plain ones exactly when the scan says so. */
  lemma {:induction false} BreaksExactly(s: string)
    ensures Breaks(s) <==> exists a, c :: Around(a, s, c)
  {
    if Breaks(s) {
      var a, c := Witness(s);
    } else {
      forall a, c ensures !Around(a, s, c) {
        if PlainDigits(a) && PlainDigits(c) && NaturalWalk(a, s) <= 0 && NaturalWalk(s, c) <= 0 {
          Fits(a, s, c);
        }
      }
    }
  }
}
