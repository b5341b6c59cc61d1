/**
 Which of two values comes first, said of the values: by kind, then by number, rune or
 collation, and for records by the first level that tells them apart.

 The laws of an order hold of its reverse too. What is here does not.
 */
module OrderMeaning {
  import opened Lexicographic
  import opened Text
  import opened Quoting
  import opened Utf8
  import opened Natural
  import opened Order

  // ----- kinds -----

  /** A kind of value, each before the next. */
  datatype Kind = Nothing | OfNil | OfFalse | OfTrue | OfNumber | OfWord | OfText | OfBlock

  predicate Reads(v: Sortable, word: string) {
    v.Word? && CText(v.w) == word
  }

  predicate IsA(v: Sortable, k: Kind) {
    match k
    case Nothing => v.Missing? || Reads(v, "undefined")
    case OfNil => Reads(v, "nil")
    case OfFalse => Reads(v, "false")
    case OfTrue => Reads(v, "true")
    case OfNumber => v.Int? || v.Float?
    case OfWord => v.Word? && CText(v.w) !in ["undefined", "nil", "false", "true"]
    case OfText => v.Str?
    case OfBlock => v.Block?
  }

  /** The kinds in order. */
  function Kinds(): seq<Kind> {
    [Nothing, OfNil, OfFalse, OfTrue, OfNumber, OfWord, OfText, OfBlock]
  }

  /** A value of an earlier kind comes before one of a later kind, in every collation, and
      values of a kind that holds one value only tie. */
  lemma {:induction false} KindsInOrder(a: Sortable, b: Sortable, i: nat, j: nat, collation: string)
    requires i <= j < 8 && IsA(a, Kinds()[i]) && IsA(b, Kinds()[j])
    ensures i < j ==> CompareValues(a, b, collation) == -1 && CompareValues(b, a, collation) == 1
    ensures i == j && (i < 4 || i == 7) ==> CompareValues(a, b, collation) == 0
  {
    hide CText, CompareText, CompareRunesOf, CompareNumbers;
  }

  /** Every value is of one kind. */
  lemma {:induction false} OfOneKind(v: Sortable)
    ensures exists i: nat :: i < 8 && IsA(v, Kinds()[i])
    ensures forall i: nat, j: nat :: i < 8 && j < 8 && IsA(v, Kinds()[i]) && IsA(v, Kinds()[j]) ==> i == j
  {
    hide CText;
    var i := match v
      case Missing => 0
      case Int(_) => 4
      case Float(_) => 4
      case Str(_) => 6
      case Block => 7
      case Word(w) =>
        if CText(w) == "undefined" then 0 else if CText(w) == "nil" then 1
        else if CText(w) == "false" then 2 else if CText(w) == "true" then 3 else 5;
    assert IsA(v, Kinds()[i]);
  }

  // ----- first differences -----

  lemma {:induction false} LexDecides<T>(cmp: (T, T) -> int, a: seq<T>, b: seq<T>, k: nat)
    requires k <= |a| && k <= |b| && forall i :: 0 <= i < k ==> cmp(a[i], b[i]) == 0
    requires k == |a| || k == |b| || cmp(a[k], b[k]) != 0
    ensures Lex(cmp, a, b) ==
              if k == |a| && k == |b| then 0 else if k == |a| then -1 else if k == |b| then 1 else cmp(a[k], b[k])
  {
    if k > 0 {
      LexDecides(cmp, a[1..], b[1..], k - 1);
    }
  }

  /** Where two sequences first differ, or where one of them ends. */
  function Apart<T(==)>(a: seq<T>, b: seq<T>): (k: nat)
    ensures k <= |a| && k <= |b| && a[..k] == b[..k]
    ensures k == |a| || k == |b| || a[k] != b[k]
  {
    if a == [] || b == [] || a[0] != b[0] then 0 else 1 + Apart(a[1..], b[1..])
  }

  /** The smaller number at the first difference, or the one that ends there. */
  predicate First(a: seq<int>, b: seq<int>) {
    var k := Apart(a, b);
    k < |b| && (k == |a| || a[k] < b[k])
  }

  lemma {:induction false} RunesFirst(a: string, b: string, fold: bool)
    ensures CompareRunesOf(a, b, fold) ==
              if First(Runes(a, fold), Runes(b, fold)) then -1
              else if First(Runes(b, fold), Runes(a, fold)) then 1
              else 0
  {
    hide Runes;
    var x, y := Runes(a, fold), Runes(b, fold);
    var k := Apart(x, y);
    forall i | 0 <= i < k ensures CompareInt(x[i], y[i]) == 0 {
      assert x[..k][i] == y[..k][i];
    }
    LexDecides(CompareInt, x, y, k);
    ApartMirrored(x, y);
  }

  lemma {:induction false} ApartMirrored<T>(a: seq<T>, b: seq<T>)
    ensures Apart(a, b) == Apart(b, a)
  {
    if a != [] && b != [] && a[0] == b[0] {
      ApartMirrored(a[1..], b[1..]);
    }
  }

  // ----- text -----

  /** The scalar values of well-formed text, as section 3 of RFC 3629 gives them. */
  function Scalars(s: string): seq<int>
    requires WellFormed(s)
  {
    if s == "" then [] else [Scalar(s)] + Scalars(s[CharWidth(s)..])
  }

  /** Text with its ASCII capitals made small. */
  function Lower(s: string): (r: string)
    ensures |r| == |s|
  {
    seq(|s|, i requires 0 <= i < |s| => if 'A' <= s[i] <= 'Z' then (s[i] as int + 32) as char else s[i])
  }

  lemma {:induction false} RunesAreScalars(s: string)
    requires WellFormed(s)
    ensures Runes(s, false) == Scalars(s)
    decreases |s|
  {
    if s != "" {
      RunesStep(s);
      RunesAreScalars(s[CharWidth(s)..]);
    }
  }

  lemma {:induction false} LowerHead(s: string)
    requires 0 < CharWidth(s)
    ensures CharWidth(Lower(s)) == CharWidth(s) && Scalar(Lower(s)) == Fold(Scalar(s))
  {
    assert forall i :: 0 <= i < |s| && s[i] as int >= 0x80 ==> Lower(s)[i] == s[i];
  }

  lemma {:induction false} LowerTail(s: string, w: nat)
    requires w <= |s|
    ensures Lower(s)[w..] == Lower(s[w..])
  {}

  lemma {:induction false} FoldIsLower(s: string)
    requires WellFormed(s)
    ensures WellFormed(Lower(s)) && Runes(s, true) == Runes(Lower(s), false)
    decreases |s|
  {
    if s != "" {
      var w := CharWidth(s);
      LowerHead(s);
      LowerTail(s, w);
      DecodeWellFormed(s);
      RunesStep(Lower(s));
      FoldIsLower(s[w..]);
      hide CharWidth, Scalar, Decode, Lower, Fold;
    }
  }

  /** Well-formed words, and text in any collation but two, come in the order of their
      scalar values; under `fold`, of what they are with ASCII capitals made small. */
  lemma {:induction false} TextInOrder(a: string, b: string, collation: string)
    requires WellFormed(a) && WellFormed(b)
    ensures collation != "fold" && collation != "natural" ==>
              (CompareValues(Str(a), Str(b), collation) == -1 <==> First(Scalars(a), Scalars(b)))
    ensures WellFormed(Lower(a)) && WellFormed(Lower(b))
    ensures CompareValues(Str(a), Str(b), "fold") == -1 <==> First(Scalars(Lower(a)), Scalars(Lower(b)))
    ensures IsA(Word(a), OfWord) && IsA(Word(b), OfWord) ==>
              (CompareValues(Word(a), Word(b), collation) == -1 <==> First(Scalars(a), Scalars(b)))
  {
    hide CText, Runes, First, WellFormed, Scalars;
    FoldIsLower(a);
    FoldIsLower(b);
    RunesAreScalars(a);
    RunesAreScalars(b);
    RunesAreScalars(Lower(a));
    RunesAreScalars(Lower(b));
    RunesFirst(a, b, false);
    RunesFirst(a, b, true);
  }

  // ----- natural text -----

  predicate TokenFirst(x: Token, y: Token) {
    match (x, y)
    case (Run(d), Run(e)) =>
      AllDigits(d) && AllDigits(e) && (Value(d) < Value(e) || (Value(d) == Value(e) && |d| < |e|))
    case (Rune(c), Rune(e)) => c < e
    case (Run(_), Rune(e)) => '0' as int < e
    case (Rune(c), Run(_)) => c < '0' as int
  }

  /** Natural text comes in the order of its first tokens that differ. */
  lemma {:induction false} NaturalInOrder(a: string, b: string)
    requires PlainDigits(a) && PlainDigits(b)
    ensures var x, y := Tokens(a), Tokens(b);
            var k := Apart(x, y);
            NaturalWalk(a, b) == -1 <==> k < |y| && (k == |x| || TokenFirst(x[k], y[k]))
  {
    hide Tokens, NaturalWalk, CompareToken, TokenFirst;
    WalkIsOrder(a, b);
    TokenPreorder();
    TokensValid(a);
    TokensValid(b);
    var x, y := Tokens(a), Tokens(b);
    var k := Apart(x, y);
    forall i | 0 <= i < k ensures CompareToken(x[i], y[i]) == 0 {
      assert x[..k][i] == y[..k][i] && x[i] in x;
    }
    if k < |x| && k < |y| {
      assert x[k] in x && y[k] in y;
      TokensApart(x[k], y[k]);
    }
    LexDecides(CompareToken, x, y, k);
  }

  lemma {:induction false} TokensApart(x: Token, y: Token)
    requires ValidToken(x) && ValidToken(y)
    ensures CompareToken(x, y) == -1 <==> TokenFirst(x, y)
  {}

  /** What two texts begin with alike is passed over, where it does not end in a digit. */
  lemma {:induction false} SharedStart(p: string, a: string, b: string)
    requires WellFormed(p) && (p == "" || !IsDigit(p[|p| - 1]))
    ensures NaturalWalk(p + a, p + b) == NaturalWalk(a, b)
    decreases |p|
  {
    if p == "" {
      assert p + a == a && p + b == b;
    } else if IsDigit(p[0]) {
      var n := Span(IsDigit, p);
      assert p[..n] + p[n..] == p;
      DigitsWellFormed(p, n);
      SharedStart(p[n..], a, b);
      Regroup(p[..n], p[n..], a);
      Regroup(p[..n], p[n..], b);
      SpanExact(IsDigit, p[..n], p[n..] + a);
      SpanExact(IsDigit, p[..n], p[n..] + b);
      DigitsZero(p[..n], p[..n]);
    } else {
      var w := CharWidth(p);
      HeadOfMore(p, a);
      HeadOfMore(p, b);
      SharedStart(p[w..], a, b);
    }
  }

  lemma {:induction false} HeadOfMore(p: string, a: string)
    requires 0 < CharWidth(p) <= |p|
    ensures Decode(p + a) == Decoded(Scalar(p), CharWidth(p)) && (p + a)[CharWidth(p)..] == p[CharWidth(p)..] + a
    ensures (p + a)[0] == p[0]
  {
    DecodeWellFormed(p + a);
  }

  lemma {:induction false} DigitsWellFormed(s: string, n: nat)
    requires WellFormed(s) && n <= |s| && forall k :: 0 <= k < n ==> IsDigit(s[k])
    ensures WellFormed(s[n..])
  {
    if n > 0 {
      DigitsWellFormed(s[1..], n - 1);
    }
  }

  /** `file9` comes before `file10`: after the same text, the smaller number is first,
      however it is padded and whatever follows. */
  lemma {:induction false} NumberedNames(p: string, d: string, x: string, e: string, y: string)
    requires WellFormed(p) && (p == "" || !IsDigit(p[|p| - 1]))
    requires d != "" && e != "" && AllDigits(d) && AllDigits(e)
    requires (x == "" || !IsDigit(x[0])) && (y == "" || !IsDigit(y[0])) && Value(d) < Value(e)
    ensures CompareValues(Str(p + (d + x)), Str(p + (e + y)), "natural") == -1
  {
    SharedStart(p, d + x, e + y);
    SpanExact(IsDigit, d, x);
    SpanExact(IsDigit, e, y);
    assert (d + x)[0] == d[0] && (e + y)[0] == e[0];
  }

  // ----- records -----

  /** A record comes first where the first level that tells it apart says so, the other
      way round where that level descends. */
  lemma {:induction false} LevelsInOrder(a: seq<Sortable>, b: seq<Sortable>, levels: seq<Level>, i: nat)
    requires |a| == |b| == |levels| && i <= |levels|
    requires forall j :: 0 <= j < i ==> CompareValues(a[j], b[j], levels[j].collation) == 0
    requires i == |levels| || CompareValues(a[i], b[i], levels[i].collation) != 0
    ensures i == |levels| ==> CompareRecords(a, b, levels) == 0
    ensures i < |levels| ==>
              (CompareRecords(a, b, levels) < 0 <==>
               (CompareValues(a[i], b[i], levels[i].collation) < 0) != levels[i].descending)
    ensures i < |levels| ==> CompareRecords(a, b, levels) != 0
  {
    hide CompareValues;
    if i > 0 {
      LevelsInOrder(a[1..], b[1..], levels[1..], i - 1);
    }
  }
}
