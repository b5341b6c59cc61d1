/**
 Comparing text rune by rune (`utf8_next`, `compare_runes`).

 A string here is a run of bytes, one `char` to a byte. Nothing in the decoder
 depends on the bytes being well-formed, so nothing here requires it unless it
 says so.
 */
module Utf8 {
  import opened Lexicographic

  datatype Decoded = Decoded(cp: int, width: nat)

  predicate Continuation(c: char) {
    0x80 <= c as int < 0xC0
  }

  /** What a first byte promises: the bits it carries and how many bytes follow. */
  function Lead(c: int): (int, nat) {
    if c >= 0xF0 then (c % 8, 3)
    else if c >= 0xE0 then (c % 16, 2)
    else if c >= 0xC0 then (c % 32, 1)
    else (c, 0)
  }

  function Follow(s: string, k: nat, extra: nat, cp: int): (d: Decoded)
    requires 1 <= k <= extra + 1 <= |s|
    ensures 1 <= d.width <= extra + 1
    decreases extra + 1 - k
  {
    if k > extra then Decoded(cp, k)
    else if !Continuation(s[k]) then Decoded(s[0] as int, 1)
    else Follow(s, k + 1, extra, cp * 64 + (s[k] as int - 0x80))
  }

  /** The codepoint at the front of `s`. A truncated one keeps only its lead's bits. */
  function Decode(s: string): (d: Decoded)
    requires s != ""
    ensures 1 <= d.width <= |s|
  {
    var (cp, extra) := Lead(s[0] as int);
    if extra >= |s| then Decoded(cp, 1) else Follow(s, 1, extra, cp)
  }

  function Fold(c: int): int {
    if 'A' as int <= c <= 'Z' as int then c + 32 else c
  }

  /** Every rune of `s`, folded when `fold` asks for it. */
  function Runes(s: string, fold: bool): seq<int> {
    if s == "" then []
    else
      var d := Decode(s);
      [if fold then Fold(d.cp) else d.cp] + Runes(s[d.width..], fold)
  }

  function CompareRunesOf(a: string, b: string, fold: bool): int {
    Lex(CompareInt, Runes(a, fold), Runes(b, fold))
  }

  method Utf8Next(s: string, i: nat) returns (cp: int, next: nat)
    requires i < |s|
    ensures i < next <= |s|
    ensures Decoded(cp, next - i) == Decode(s[i..])
  {
    var c := s[i] as int;
    var extra: nat := 0;
    cp := c;
    if c >= 0xF0 {
      cp, extra := c % 8, 3;
    } else if c >= 0xE0 {
      cp, extra := c % 16, 2;
    } else if c >= 0xC0 {
      cp, extra := c % 32, 1;
    }
    if i + extra >= |s| {
      extra := 0;
    }
    ghost var rest := s[i..];
    var k := 0;
    while k < extra
      invariant 0 <= k <= extra < |rest|
      invariant Follow(rest, k + 1, extra, cp) == Decode(rest)
    {
      var n := s[i + 1 + k];
      assert n == rest[k + 1];
      if !Continuation(n) {
        extra, cp := 0, c;
        break;
      }
      cp := cp * 64 + (n as int - 0x80);
      k := k + 1;
    }
    next := i + 1 + extra;
  }

  /** The first rune of each decides, unless they are the same. */
  lemma {:induction false} FirstRunesDecide(a: string, b: string, fold: bool)
    requires a != "" && b != ""
    ensures var c, d := Decode(a), Decode(b);
            var x, y := if fold then Fold(c.cp) else c.cp, if fold then Fold(d.cp) else d.cp;
            CompareRunesOf(a, b, fold) ==
              if x != y then if x < y then -1 else 1 else CompareRunesOf(a[c.width..], b[d.width..], fold)
  {
    hide Decode;
    var c, d := Decode(a), Decode(b);
    assert Runes(a, fold)[1..] == Runes(a[c.width..], fold) && Runes(b, fold)[1..] == Runes(b[d.width..], fold);
  }

  lemma {:induction false} RunesEnd(a: string, b: string, fold: bool)
    requires a == "" || b == ""
    ensures CompareRunesOf(a, b, fold) == Sign(|a| - |b|)
  {
    hide Decode;
    RunesEmpty(a, fold);
    RunesEmpty(b, fold);
  }

  method CompareRunes(a: string, b: string, fold: bool) returns (r: int)
    ensures r == CompareRunesOf(a, b, fold)
  {
    hide CompareRunesOf, Decode;
    var i, j := 0, 0;
    assert a[0..] == a && b[0..] == b;
    while i < |a| && j < |b|
      invariant i <= |a| && j <= |b|
      invariant CompareRunesOf(a[i..], b[j..], fold) == CompareRunesOf(a, b, fold)
    {
      var x, i' := Utf8Next(a, i);
      var y, j' := Utf8Next(b, j);
      assert a[i..][i' - i..] == a[i'..] && b[j..][j' - j..] == b[j'..];
      FirstRunesDecide(a[i..], b[j..], fold);
      if fold {
        x, y := Fold(x), Fold(y);
      }
      if x != y {
        return if x < y then -1 else 1;
      }
      i, j := i', j';
    }
    RunesEnd(a[i..], b[j..], fold);
    r := Sign((|a| - i) - (|b| - j));
  }

  lemma {:induction false} RunesEmpty(s: string, fold: bool)
    ensures Runes(s, fold) == [] <==> s == ""
  {}

  // ----- the laws, on arbitrary bytes -----

  lemma {:induction false} RunesPreorder(a: string, b: string, c: string, fold: bool)
    ensures -1 <= CompareRunesOf(a, b, fold) <= 1
    ensures CompareRunesOf(a, b, fold) == -CompareRunesOf(b, a, fold)
    ensures CompareRunesOf(a, b, fold) <= 0 && CompareRunesOf(b, c, fold) <= 0 ==> CompareRunesOf(a, c, fold) <= 0
  {
    IntPreorder();
    LexMirrored(CompareInt, AnyInt, Runes(a, fold), Runes(b, fold));
    if CompareRunesOf(a, b, fold) <= 0 && CompareRunesOf(b, c, fold) <= 0 {
      LexTransitive(CompareInt, AnyInt, Runes(a, fold), Runes(b, fold), Runes(c, fold));
    }
  }

  lemma {:induction false} RunesZero(a: string, b: string, fold: bool)
    ensures CompareRunesOf(a, b, fold) == 0 <==> Runes(a, fold) == Runes(b, fold)
  {
    LexZero(CompareInt, AnyInt, Runes(a, fold), Runes(b, fold));
  }

  // ----- well-formed text -----

  predicate Between(c: char, lo: int, hi: int) {
    lo <= c as int <= hi
  }

  /** How many bytes the character at the front of `s` occupies under the table
      in section 4 of RFC 3629, and 0 where the table has no row for it. */
  function CharWidth(s: string): nat {
    if s == "" then 0
    else if Between(s[0], 0x00, 0x7F) then 1
    else if |s| >= 2 && Between(s[0], 0xC2, 0xDF) && Continuation(s[1]) then 2
    else if |s| >= 3 && Continuation(s[1]) && Continuation(s[2])
            && (|| (s[0] as int == 0xE0 && Between(s[1], 0xA0, 0xBF))
                || Between(s[0], 0xE1, 0xEC)
                || (s[0] as int == 0xED && Between(s[1], 0x80, 0x9F))
                || Between(s[0], 0xEE, 0xEF)) then 3
    else if |s| >= 4 && Continuation(s[1]) && Continuation(s[2]) && Continuation(s[3])
            && (|| (s[0] as int == 0xF0 && Between(s[1], 0x90, 0xBF))
                || Between(s[0], 0xF1, 0xF3)
                || (s[0] as int == 0xF4 && Between(s[1], 0x80, 0x8F))) then 4
    else 0
  }

  predicate WellFormed(s: string) {
    s == "" || (0 < CharWidth(s) <= |s| && WellFormed(s[CharWidth(s)..]))
  }

  /** The scalar value section 3 of RFC 3629 gives the character at the front. */
  function Scalar(s: string): int
    requires 0 < CharWidth(s)
  {
    var w := CharWidth(s);
    if w == 1 then s[0] as int
    else if w == 2 then (s[0] as int - 0xC0) * 64 + (s[1] as int - 0x80)
    else if w == 3 then (s[0] as int - 0xE0) * 4096 + (s[1] as int - 0x80) * 64 + (s[2] as int - 0x80)
    else (s[0] as int - 0xF0) * 262144 + (s[1] as int - 0x80) * 4096 + (s[2] as int - 0x80) * 64 + (s[3] as int - 0x80)
  }

  /** A Unicode scalar value: a codepoint that is no surrogate. */
  predicate IsScalar(v: int) {
    0 <= v < 0x11_0000 && !(0xD800 <= v < 0xE000)
  }

  function ByteOf(b: int): char
    requires 0 <= b < 0x100
  {
    b as char
  }

  /** A byte that continues a character, with six bits of it. */
  function Six(b: int): char
    requires 0 <= b < 64
  {
    ByteOf(0x80 + b)
  }

  /** The bytes section 3 of RFC 3629 writes a scalar value in. */
  function Encoding(v: int): string
    requires IsScalar(v)
  {
    var high := v / 64;
    if v < 0x80 then [ByteOf(v)]
    else if v < 0x800 then [ByteOf(0xC0 + high), Six(v % 64)]
    else if v < 0x1_0000 then [ByteOf(0xE0 + high / 64), Six(high % 64), Six(v % 64)]
    else [ByteOf(0xF0 + high / 64 / 64), Six(high / 64 % 64), Six(high % 64), Six(v % 64)]
  }

  /** Every scalar value is what its encoding stands for, whatever comes after it. */
  lemma {:induction false} EncodingIsScalar(v: int, t: string)
    requires IsScalar(v)
    ensures CharWidth(Encoding(v) + t) == |Encoding(v)| && Scalar(Encoding(v) + t) == v
  {
    var high := v / 64;
    if v >= 0x1_0000 {
      FourBytes(high / 64 / 64, high / 64 % 64, high % 64, v % 64, t);
    } else if v >= 0x800 {
      ThreeBytes(high / 64, high % 64, v % 64, t);
    } else if v >= 0x80 {
      TwoBytes(high, v % 64, t);
    }
    hide CharWidth;
    if v < 0x80 {
      OneByte(v, t);
    }
  }

  lemma {:induction false} OneByte(a: int, t: string)
    requires 0 <= a < 0x80
    ensures CharWidth([ByteOf(a)] + t) == 1 && Scalar([ByteOf(a)] + t) == a
  {}

  lemma {:induction false} TwoBytes(a: int, b: int, t: string)
    requires 2 <= a < 32 && 0 <= b < 64
    ensures var s := [ByteOf(0xC0 + a), Six(b)] + t; CharWidth(s) == 2 && Scalar(s) == a * 64 + b
  {}

  lemma {:induction false} ThreeBytes(a: int, b: int, c: int, t: string)
    requires 0 <= a < 16 && 0 <= b < 64 && 0 <= c < 64
    requires (a == 0 ==> b >= 32) && (a == 0xD ==> b < 32)
    ensures var s := [ByteOf(0xE0 + a), Six(b), Six(c)] + t;
            CharWidth(s) == 3 && Scalar(s) == (a * 64 + b) * 64 + c
  {
    var s := [ByteOf(0xE0 + a), Six(b), Six(c)] + t;
    assert s[0] as int == 0xE0 + a && s[1] as int == 0x80 + b && s[2] as int == 0x80 + c;
  }

  lemma {:induction false} FourBytes(a: int, b: int, c: int, d: int, t: string)
    requires 0 <= a < 5 && 0 <= b < 64 && 0 <= c < 64 && 0 <= d < 64
    requires (a == 0 ==> b >= 16) && (a == 4 ==> b < 16)
    ensures var s := [ByteOf(0xF0 + a), Six(b), Six(c), Six(d)] + t;
            CharWidth(s) == 4 && Scalar(s) == ((a * 64 + b) * 64 + c) * 64 + d
  {
    var s := [ByteOf(0xF0 + a), Six(b), Six(c), Six(d)] + t;
    assert s[0] as int == 0xF0 + a && s[1] as int == 0x80 + b && s[2] as int == 0x80 + c && s[3] as int == 0x80 + d;
  }

  /** And nothing else is well formed: each character is the encoding of a scalar value. */
  lemma {:induction false} ScalarIsEncoding(s: string)
    requires 0 < CharWidth(s)
    ensures CharWidth(s) <= |s| && IsScalar(Scalar(s)) && Encoding(Scalar(s)) == s[..CharWidth(s)]
  {
    if CharWidth(s) == 3 {
      ThreeRead(s);
    } else if CharWidth(s) == 4 {
      FourRead(s);
    } else if CharWidth(s) == 2 {
      TwoRead(s);
    }
  }

  lemma {:induction false} TwoRead(s: string)
    requires CharWidth(s) == 2
    ensures IsScalar(Scalar(s)) && Encoding(Scalar(s)) == s[..2]
  {
    var a, b := s[0] as int - 0xC0, s[1] as int - 0x80;
    Parts(a, b);
    assert Scalar(s) == a * 64 + b && s[..2] == [ByteOf(0xC0 + a), Six(b)];
    hide CharWidth, Scalar;
  }

  lemma {:induction false} ThreeRead(s: string)
    requires CharWidth(s) == 3
    ensures IsScalar(Scalar(s)) && Encoding(Scalar(s)) == s[..3]
  {
    var a, b, c := s[0] as int - 0xE0, s[1] as int - 0x80, s[2] as int - 0x80;
    Parts(a, b);
    Parts(a * 64 + b, c);
    assert 0 <= a < 16 && 0 <= b < 64 && 0 <= c < 64 && (a == 0 ==> b >= 32) && (a == 0xD ==> b < 32);
    assert Scalar(s) == (a * 64 + b) * 64 + c && s[..3] == [ByteOf(0xE0 + a), Six(b), Six(c)];
    hide CharWidth, Scalar;
  }

  lemma {:induction false} FourRead(s: string)
    requires CharWidth(s) == 4
    ensures IsScalar(Scalar(s)) && Encoding(Scalar(s)) == s[..4]
  {
    var a, b, c, d := s[0] as int - 0xF0, s[1] as int - 0x80, s[2] as int - 0x80, s[3] as int - 0x80;
    Parts(a, b);
    Parts(a * 64 + b, c);
    Parts((a * 64 + b) * 64 + c, d);
    assert 0 <= a < 5 && 0 <= b < 64 && 0 <= c < 64 && 0 <= d < 64 && (a == 0 ==> b >= 16) && (a == 4 ==> b < 16);
    assert Scalar(s) == ((a * 64 + b) * 64 + c) * 64 + d;
    assert s[..4] == [ByteOf(0xF0 + a), Six(b), Six(c), Six(d)];
    hide CharWidth, Scalar;
  }

  lemma {:induction false} Parts(a: int, b: int)
    requires 0 <= a && 0 <= b < 64
    ensures (a * 64 + b) / 64 == a && (a * 64 + b) % 64 == b
  {}

  /** On well-formed text the decoder reads exactly the scalar value. */
  lemma {:induction false} DecodeWellFormed(s: string)
    requires 0 < CharWidth(s)
    ensures Decode(s) == Decoded(Scalar(s), CharWidth(s))
  {
    var (cp, extra) := Lead(s[0] as int);
    assert extra + 1 == CharWidth(s);
    if extra >= 1 {
      assert Follow(s, 1, extra, cp) == Follow(s, 2, extra, cp * 64 + (s[1] as int - 0x80));
      if extra >= 2 {
        var cp2 := cp * 64 + (s[1] as int - 0x80);
        assert Follow(s, 2, extra, cp2) == Follow(s, 3, extra, cp2 * 64 + (s[2] as int - 0x80));
      }
    }
  }

  function CompareByte(x: char, y: char): int {
    Sign(x as int - y as int)
  }

  /** `memcmp` and then the lengths: the order the bytes rank has. */
  function CompareBytes(a: string, b: string): int {
    Lex(CompareByte, a, b)
  }

  method CompareBlobs(a: string, b: string) returns (r: int)
    ensures r == CompareBytes(a, b)
  {
    var n := if |a| < |b| then |a| else |b|;
    var k := 0;
    assert a[0..] == a && b[0..] == b;
    while k < n
      invariant k <= n
      invariant CompareBytes(a[k..], b[k..]) == CompareBytes(a, b)
    {
      if a[k] != b[k] {
        return if a[k] < b[k] then -1 else 1;
      }
      assert a[k..][1..] == a[k + 1..] && b[k..][1..] == b[k + 1..];
      k := k + 1;
    }
    r := Sign(|a| - |b|);
  }

  /** Where two well-formed characters first differ, and that the bytes there fall
      the way the scalar values do. */
  lemma {:induction false} FirstDifference(a: string, b: string) returns (k: nat)
    requires 0 < CharWidth(a) && 0 < CharWidth(b)
    requires Scalar(a) < Scalar(b)
    ensures k < CharWidth(a) <= |a| && k < CharWidth(b) <= |b|
    ensures a[..k] == b[..k] && a[k] < b[k]
  {
    k := if a[0] != b[0] then 0 else if a[1] != b[1] then 1 else if a[2] != b[2] then 2 else 3;
  }

  lemma {:induction false} SameScalar(a: string, b: string)
    requires 0 < CharWidth(a) && 0 < CharWidth(b)
    requires Scalar(a) == Scalar(b)
    ensures CharWidth(a) == CharWidth(b) && a[..CharWidth(a)] == b[..CharWidth(b)]
  {
    assert CharWidth(a) == CharWidth(b) && a[0] == b[0];
  }

  lemma {:induction false} ByteDecides(a: string, b: string, k: nat)
    requires k < |a| && k < |b| && a[..k] == b[..k] && a[k] != b[k]
    ensures CompareBytes(a, b) == CompareByte(a[k], b[k])
  {
    LexSkip(CompareByte, a[..k], a[k..], b[k..]);
    assert a == a[..k] + a[k..] && b == b[..k] + b[k..];
  }

  lemma {:induction false} DifferingScalars(a: string, b: string)
    requires 0 < CharWidth(a) && 0 < CharWidth(b)
    requires Scalar(a) < Scalar(b)
    ensures CompareBytes(a, b) == -1 && CompareBytes(b, a) == 1
  {
    var k := FirstDifference(a, b);
    ByteDecides(a, b, k);
    ByteDecides(b, a, k);
  }

  /** Equal first characters are stepped over by both orders alike. */
  lemma {:induction false} SharedScalar(a: string, b: string)
    requires 0 < CharWidth(a) <= |a| && 0 < CharWidth(b) <= |b|
    requires Scalar(a) == Scalar(b)
    ensures CharWidth(a) == CharWidth(b)
    ensures CompareBytes(a, b) == CompareBytes(a[CharWidth(a)..], b[CharWidth(b)..])
  {
    SameScalar(a, b);
    var w := CharWidth(a);
    LexSkip(CompareByte, a[..w], a[w..], b[w..]);
    assert a == a[..w] + a[w..] && b == b[..w] + b[w..];
  }

  lemma {:induction false} RunesStep(s: string)
    requires 0 < CharWidth(s) <= |s|
    ensures Runes(s, false) == [Scalar(s)] + Runes(s[CharWidth(s)..], false)
  {
    DecodeWellFormed(s);
  }

  lemma {:induction false} LexStep(x: int, xs: seq<int>, y: int, ys: seq<int>)
    ensures Lex(CompareInt, [x] + xs, [y] + ys) == if x != y then Sign(x - y) else Lex(CompareInt, xs, ys)
  {
    assert ([x] + xs)[1..] == xs && ([y] + ys)[1..] == ys;
  }

  /** Codepoint order and byte order are one order on well-formed text, so the
      string rank and the bytes rank order the same text identically. */
  lemma {:induction false} RuneOrderIsByteOrder(a: string, b: string)
    requires WellFormed(a) && WellFormed(b)
    ensures CompareRunesOf(a, b, false) == CompareBytes(a, b)
    decreases |a|
  {
    if a == "" || b == "" {
      RunesEmpty(a, false);
      RunesEmpty(b, false);
    } else {
      var a', b' := a[CharWidth(a)..], b[CharWidth(b)..];
      RunesStep(a);
      RunesStep(b);
      LexStep(Scalar(a), Runes(a', false), Scalar(b), Runes(b', false));
      if Scalar(a) == Scalar(b) {
        SharedScalar(a, b);
        RuneOrderIsByteOrder(a', b');
      } else if Scalar(a) < Scalar(b) {
        DifferingScalars(a, b);
      } else {
        DifferingScalars(b, a);
      }
    }
  }
}
