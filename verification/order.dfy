/**
 The order of two values, and of two records under a sort's levels (`rank_of`,
 `compare_numbers`, `kt_compare_value`, `kt_compare_levels`).

 Every client computes this order without conferring, so it has to be a total
 preorder and an integer has to compare with a float exactly.
 */
module Order {
  import opened Lexicographic
  import opened Utf8
  import opened Natural
  import opened NaturalMisfits
  import opened Text
  import opened Quoting

  /** A double: the real it denotes, or one of the values that denote none. */
  datatype Double = NaN | NegInf | Finite(r: real) | PosInf

  /** A sort key as the comparison reads it. `Missing` is a value that is not
      there at all, and `Block` is the one kind with no order of its own. */
  datatype Sortable =
    | Missing
    | Int(i: Int64)
    | Float(d: Double)
    | Str(s: string)
    | Word(w: string)
    | Block

  datatype Rank = Undefined | Nil | False | True | Number | Symbol | Textual | Bytes | Unordered

  function RankOf(v: Sortable): Rank {
    match v
    case Missing => Undefined
    case Int(_) => Number
    case Float(_) => Number
    case Str(_) => Textual
    case Word(w) =>
      if CText(w) == "undefined" then Undefined
      else if CText(w) == "nil" then Nil
      else if CText(w) == "false" then False
      else if CText(w) == "true" then True
      else Symbol
    case Block => Unordered
  }

  function Ordinal(r: Rank): int {
    match r
    case Undefined => 0
    case Nil => 1
    case False => 2
    case True => 3
    case Number => 4
    case Symbol => 5
    case Textual => 6
    case Bytes => 7
    case Unordered => 8
  }

  // ----- numbers -----

  /** The cast of a double to a 64-bit integer drops the fraction, toward zero. */
  function Truncate(r: real): int {
    if r >= 0.0 then r.Floor else -((-r).Floor)
  }

  function SignReal(x: real): int {
    if x < 0.0 then -1 else if x > 0.0 then 1 else 0
  }

  function CompareFloatToInt(f: Double, i: Int64): int {
    match f
    case NaN => 0
    case PosInf => 1
    case NegInf => -1
    case Finite(r) =>
      if r >= 9223372036854775808.0 then 1
      else if r < -9223372036854775808.0 then -1
      else
        var w := Truncate(r);
        if w != i then (if w < i then -1 else 1) else SignReal(r - w as real)
  }

  predicate Below(a: Double, b: Double) {
    match (a, b)
    case (Finite(x), Finite(y)) => x < y
    case (NegInf, Finite(_)) => true
    case (NegInf, PosInf) => true
    case (Finite(_), PosInf) => true
    case _ => false
  }

  function CompareNumbers(a: Sortable, b: Sortable): int
    requires RankOf(a) == Number && RankOf(b) == Number
  {
    if a.Int? && b.Int? then (if a.i < b.i then -1 else if a.i > b.i then 1 else 0)
    else if a.Int? then -CompareFloatToInt(b.d, a.i)
    else if b.Int? then CompareFloatToInt(a.d, b.i)
    else if Below(a.d, b.d) then -1
    else if Below(b.d, a.d) then 1
    else 0
  }

  /** The point of the extended real line a number stands for. */
  function Point(a: Sortable): Double
    requires RankOf(a) == Number
  {
    match a
    case Int(i) => Finite(i as real)
    case Float(d) => d
    case _ => NaN
  }

  /** The sign of the exact difference, infinities included. */
  function ExactSign(x: Double, y: Double): int {
    if Below(x, y) then -1 else if Below(y, x) then 1 else 0
  }

  /** No integer loses a digit and no float loses its fraction: the comparison is
      the sign of the exact mathematical difference. */
  lemma {:induction false} NumbersAreExact(a: Sortable, b: Sortable)
    requires RankOf(a) == Number && RankOf(b) == Number
    requires !Point(a).NaN? && !Point(b).NaN?
    ensures CompareNumbers(a, b) == ExactSign(Point(a), Point(b))
    ensures Point(a).Finite? && Point(b).Finite? ==> CompareNumbers(a, b) == SignReal(Point(a).r - Point(b).r)
  {
    if a.Float? && b.Int? && a.d.Finite? {
      TruncationDecides(a.d.r, b.i);
    } else if a.Int? && b.Float? && b.d.Finite? {
      TruncationDecides(b.d.r, a.i);
    }
  }

  lemma {:induction false} TruncationDecides(r: real, i: Int64)
    ensures CompareFloatToInt(Finite(r), i) == SignReal(r - i as real)
  {
    var w := Truncate(r);
    if r >= 0.0 {
      assert w as real <= r < w as real + 1.0;
    } else {
      assert (-w) as real <= -r < (-w) as real + 1.0;
      assert w as real - 1.0 < r <= w as real;
    }
    if w < i {
      assert w + 1 <= i && (w + 1) as real <= i as real;
    } else if i < w {
      assert i + 1 <= w && (i + 1) as real <= w as real;
    }
  }

  // ----- values -----

  /** The default collation is exact, and so is any name the comparison does not know. */
  function CompareText(a: string, b: string, collation: string): int {
    if collation == "fold" then CompareRunesOf(a, b, true)
    else if collation == "natural" then NaturalWalk(a, b)
    else CompareRunesOf(a, b, false)
  }

  function CompareValues(a: Sortable, b: Sortable, collation: string): int {
    if RankOf(a) != RankOf(b) then CompareInt(Ordinal(RankOf(a)), Ordinal(RankOf(b)))
    else match RankOf(a)
      case Number => CompareNumbers(a, b)
      case Symbol => CompareRunesOf(a.w, b.w, false)
      case Textual => CompareText(a.s, b.s, collation)
      case _ => 0
  }

  method CompareValue(a: Sortable, b: Sortable, collation: string) returns (r: int)
    ensures r == CompareValues(a, b, collation)
  {
    var ra, rb := RankOf(a), RankOf(b);
    if ra != rb {
      return if Ordinal(ra) < Ordinal(rb) then -1 else 1;
    }
    match ra {
      case Number =>
        r := CompareNumbers(a, b);
      case Symbol =>
        r := CompareRunes(a.w, b.w, false);
      case Textual =>
        if collation == "fold" {
          r := CompareRunes(a.s, b.s, true);
        } else if collation == "natural" {
          r := CompareNatural(a.s, b.s);
        } else {
          r := CompareRunes(a.s, b.s, false);
        }
      case _ =>
        r := 0;
    }
  }

  /** What the order asks of a value: a float that is a number and, where digits
      are read as numbers, text whose digits are plain. */
  predicate Orderable(v: Sortable, collation: string) {
    && (v.Float? ==> !v.d.NaN?)
    && (v.Str? && collation == "natural" ==> PlainDigits(v.s))
  }

  lemma {:induction false} TextPreorder(a: string, b: string, c: string, collation: string)
    requires collation == "natural" ==> PlainDigits(a) && PlainDigits(b) && PlainDigits(c)
    ensures -1 <= CompareText(a, b, collation) <= 1
    ensures CompareText(a, b, collation) == -CompareText(b, a, collation)
    ensures CompareText(a, b, collation) <= 0 && CompareText(b, c, collation) <= 0 ==> CompareText(a, c, collation) <= 0
  {
    if collation == "natural" {
      NaturalPreorder(a, b, c);
    } else {
      RunesPreorder(a, b, c, collation == "fold");
    }
  }

  /** The order on all values is a total preorder, ranks first and then contents. */
  lemma {:induction false} ValuePreorder(a: Sortable, b: Sortable, c: Sortable, collation: string)
    requires Orderable(a, collation) && Orderable(b, collation) && Orderable(c, collation)
    ensures -1 <= CompareValues(a, b, collation) <= 1
    ensures CompareValues(a, b, collation) == -CompareValues(b, a, collation)
    ensures CompareValues(a, b, collation) <= 0 && CompareValues(b, c, collation) <= 0 ==>
              CompareValues(a, c, collation) <= 0
  {
    if RankOf(a) == RankOf(b) == Textual {
      TextPreorder(a.s, b.s, if RankOf(c) == Textual then c.s else "", collation);
    }
    if RankOf(a) == RankOf(b) == Symbol {
      RunesPreorder(a.w, b.w, if RankOf(c) == Symbol then c.w else "", false);
    }
    if RankOf(a) == RankOf(b) == Number {
      NumbersAreExact(a, b);
      NumbersAreExact(b, a);
      if RankOf(c) == Number {
        NumbersAreExact(b, c);
        NumbersAreExact(a, c);
      }
    }
  }

  /** NaN ties with every number, so it fits the order nowhere; and read naturally, a
      text fits nowhere where a digit written overlong can be told from a plain one.
      Every other value fits everywhere. */
  lemma {:induction false} OnlyMisfits(v: Sortable, collation: string)
    ensures (v.Float? && v.d.NaN?) || (v.Str? && collation == "natural" && Breaks(v.s))
        <==> exists a, c :: Orderable(a, collation) && Orderable(c, collation) && Misfit(a, v, c, collation)
  {
    if v.Float? && v.d.NaN? {
      assert Misfit(Int(2), v, Int(1), collation);
    } else if v.Str? && collation == "natural" {
      TextMisfits(v.s);
    } else {
      forall a, c | Orderable(a, collation) && Orderable(c, collation)
        ensures !Misfit(a, v, c, collation)
      {
        ValuePreorder(a, v, c, collation);
      }
    }
  }

  lemma {:induction false} TextMisfits(s: string)
    ensures Breaks(s)
        <==> exists a, c :: Orderable(a, "natural") && Orderable(c, "natural") && Misfit(a, Str(s), c, "natural")
  {
    hide NaturalWalk, PlainDigits, Breaks;
    BreaksExactly(s);
    if Breaks(s) {
      var a, c :| Around(a, s, c);
      assert Orderable(Str(a), "natural") && Orderable(Str(c), "natural") && Misfit(Str(a), Str(s), Str(c), "natural");
    } else {
      forall a, c | Orderable(a, "natural") && Orderable(c, "natural") ensures !Misfit(a, Str(s), c, "natural") {
        if RankOf(a) == Textual && RankOf(c) == Textual {
          assert !Around(a.s, s, c.s);
        }
      }
    }
  }

  predicate Misfit(a: Sortable, v: Sortable, c: Sortable, collation: string) {
    CompareValues(a, v, collation) <= 0 && CompareValues(v, c, collation) <= 0 && CompareValues(a, c, collation) > 0
  }

  // ----- levels -----

  datatype Level = Level(descending: bool, collation: string)

  function AtLevel(a: Sortable, b: Sortable, l: Level): int {
    var c := CompareValues(a, b, l.collation);
    if l.descending then -c else c
  }

  /** Each level settles only what the ones above it left equal. */
  function CompareRecords(a: seq<Sortable>, b: seq<Sortable>, levels: seq<Level>): int
    requires |a| == |b| == |levels|
  {
    if levels == [] then 0
    else if AtLevel(a[0], b[0], levels[0]) != 0 then AtLevel(a[0], b[0], levels[0])
    else CompareRecords(a[1..], b[1..], levels[1..])
  }

  method CompareLevels(a: seq<Sortable>, b: seq<Sortable>, levels: seq<Level>) returns (r: int)
    requires |a| == |b| == |levels|
    ensures r == CompareRecords(a, b, levels)
  {
    for i := 0 to |levels|
      invariant CompareRecords(a[i..], b[i..], levels[i..]) == CompareRecords(a, b, levels)
    {
      var c := CompareValue(a[i], b[i], levels[i].collation);
      if c != 0 {
        return if levels[i].descending then -c else c;
      }
      assert a[i..][1..] == a[i + 1..] && b[i..][1..] == b[i + 1..] && levels[i..][1..] == levels[i + 1..];
    }
    r := 0;
  }

  predicate AllOrderable(a: seq<Sortable>, levels: seq<Level>)
    requires |a| == |levels|
  {
    forall k :: 0 <= k < |a| ==> Orderable(a[k], levels[k].collation)
  }

  lemma {:induction false} LevelPreorder(a: Sortable, b: Sortable, c: Sortable, l: Level)
    requires Orderable(a, l.collation) && Orderable(b, l.collation) && Orderable(c, l.collation)
    ensures -1 <= AtLevel(a, b, l) <= 1
    ensures AtLevel(a, b, l) == -AtLevel(b, a, l)
    ensures AtLevel(a, b, l) <= 0 && AtLevel(b, c, l) <= 0 ==> AtLevel(a, c, l) <= 0
    ensures AtLevel(a, b, l) <= 0 && AtLevel(b, c, l) <= 0 && AtLevel(a, c, l) == 0
        ==> AtLevel(a, b, l) == 0 && AtLevel(b, c, l) == 0
  {
    ValuePreorder(a, b, c, l.collation);
    ValuePreorder(b, c, a, l.collation);
    ValuePreorder(c, a, b, l.collation);
    ValuePreorder(c, b, a, l.collation);
    ValuePreorder(b, a, c, l.collation);
    ValuePreorder(a, c, b, l.collation);
  }

  /** Ordering records by any run of levels is a total preorder. */
  lemma {:induction false} RecordPreorder(a: seq<Sortable>, b: seq<Sortable>, c: seq<Sortable>, levels: seq<Level>)
    requires |a| == |b| == |c| == |levels|
    requires AllOrderable(a, levels) && AllOrderable(b, levels) && AllOrderable(c, levels)
    ensures -1 <= CompareRecords(a, b, levels) <= 1
    ensures CompareRecords(a, b, levels) == -CompareRecords(b, a, levels)
    ensures CompareRecords(a, b, levels) <= 0 && CompareRecords(b, c, levels) <= 0 ==> CompareRecords(a, c, levels) <= 0
    decreases |levels|
  {
    if levels != [] {
      LevelPreorder(a[0], b[0], c[0], levels[0]);
      RecordPreorder(a[1..], b[1..], c[1..], levels[1..]);
    }
  }

  function TurnOver(levels: seq<Level>): (r: seq<Level>)
    ensures |r| == |levels|
  {
    seq(|levels|, k requires 0 <= k < |levels| => levels[k].(descending := !levels[k].descending))
  }

  /** Turning every level over gives the exact mirror of the sequence. */
  lemma {:induction false} TurnedOverIsMirror(a: seq<Sortable>, b: seq<Sortable>, levels: seq<Level>)
    requires |a| == |b| == |levels|
    ensures CompareRecords(a, b, TurnOver(levels)) == -CompareRecords(a, b, levels)
    decreases |levels|
  {
    if levels != [] {
      assert TurnOver(levels)[1..] == TurnOver(levels[1..]);
      TurnedOverIsMirror(a[1..], b[1..], levels[1..]);
    }
  }

  /** Only some of the levels turned over. */
  function TurnSome(levels: seq<Level>, turned: seq<bool>): seq<Level>
    requires |levels| == |turned|
  {
    seq(|levels|, i requires 0 <= i < |levels| =>
          if turned[i] then levels[i].(descending := !levels[i].descending) else levels[i])
  }

  /** The first level that tells two records apart; past the end where none does. */
  function Deciding(a: seq<Sortable>, b: seq<Sortable>, levels: seq<Level>): (i: nat)
    requires |a| == |b| == |levels|
    ensures i <= |levels|
  {
    if levels == [] || AtLevel(a[0], b[0], levels[0]) != 0 then 0 else 1 + Deciding(a[1..], b[1..], levels[1..])
  }

  /** With some levels turned over a pair is mirrored exactly when nothing tells it apart,
      or the first level that does is one of them. */
  lemma {:induction false} TurnedSomeMirrors(a: seq<Sortable>, b: seq<Sortable>, levels: seq<Level>, turned: seq<bool>)
    requires |a| == |b| == |levels| == |turned|
    ensures var i := Deciding(a, b, levels);
            CompareRecords(a, b, TurnSome(levels, turned)) == -CompareRecords(a, b, levels)
            <==> (i == |levels| || turned[i])
    ensures Deciding(a, b, levels) == |levels| <==> CompareRecords(a, b, levels) == 0
    decreases |levels|
  {
    hide CompareValues;
    if levels != [] {
      assert TurnSome(levels, turned)[1..] == TurnSome(levels[1..], turned[1..]);
      TurnedSomeMirrors(a[1..], b[1..], levels[1..], turned[1..]);
    }
  }
}
