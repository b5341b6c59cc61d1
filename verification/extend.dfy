/**
 Leaning on places: under `extend` a result omits what its place already carried.

 A reader merges what arrives by identity and by name, the first answer about a
 field standing, and it sees an identity, a name and a value as each was written: a
 text that holds a NUL ends there. What such a reader ends up holding is the same in
 both modes, and the counts on a result that leans say exactly how much of the record
 that is.
 */
module Extend {
  import opened Text
  import opened Tokens
  import opened Quoting
  import opened Syntax
  import opened Query
  import opened Sink

  // ----- the reader -----

  type Members = map<string, Option<Value>>

  type Holding = map<Value, Members>

  /** A value as it crosses. */
  function Seen(v: Value): Value {
    match v
    case Str(s) => Str(CText(s))
    case Word(w) => Word(CText(w))
    case _ => v
  }

  function Worth(f: Field): Option<Value> {
    if f.value.None? then None else Some(Seen(f.value.value))
  }

  function MergeFields(m: Members, fields: seq<Field>): Members
    decreases |fields|
  {
    if fields == [] then m
    else MergeFields(if NameOf(fields[0]) in m then m else m[NameOf(fields[0]) := Worth(fields[0])], fields[1..])
  }

  function MembersOf(h: Holding, id: Value): Members {
    if Seen(id) in h then h[Seen(id)] else map[]
  }

  function Merge(h: Holding, l: Line): Holding {
    if l.id.None? then h else h[Seen(l.id.value) := MergeFields(MembersOf(h, l.id.value), l.fields)]
  }

  function Reading(h: Holding, ls: seq<Line>): Holding
    decreases |ls|
  {
    if ls == [] then h else Reading(Merge(h, ls[0]), ls[1..])
  }

  lemma {:induction false} ReadingConcat(h: Holding, a: seq<Line>, b: seq<Line>)
    ensures Reading(h, a + b) == Reading(Reading(h, a), b)
    decreases |a|
  {
    hide Merge;
    if a == [] {
      assert a + b == b;
    } else {
      assert (a + b)[0] == a[0] && (a + b)[1..] == a[1..] + b;
      ReadingConcat(Merge(h, a[0]), a[1..], b);
    }
  }

  lemma {:induction false} ReadingOne(h: Holding, l: Line)
    ensures Reading(h, [l]) == Merge(h, l)
  {
    hide Merge;
    assert [l][1..] == [];
    assert Reading(Merge(h, l), []) == Merge(h, l);
  }

  // ----- the key a place is remembered by -----

  /** What can name a record: an integer, a text, a word, or a float as it is printed. */
  predicate IsIdentity(id: Value) {
    match id
    case Float(t) => NumeralOf(t).Fractional?
    case Block(_) => false
    case _ => true
  }

  lemma {:induction false} WordKey(w: string)
    ensures PlacedKey(Word(w)) != "" && PlacedKey(Word(w))[0] != '"'
    ensures IsWord(CText(w)) ==> PlacedKey(Word(w)) == CText(w) && PlacedKey(Word(w))[0] != '('
    ensures !IsWord(CText(w)) ==> PlacedKey(Word(w)) == "(" + CText(w) + ")" && PlacedKey(Word(w))[0] == '('
  {}

  lemma {:induction false} WordKeyInjective(v: string, w: string)
    requires PlacedKey(Word(v)) == PlacedKey(Word(w))
    ensures CText(v) == CText(w)
  {
    hide CText;
    WordKey(v);
    WordKey(w);
    var c, d := CText(v), CText(w);
    if !IsWord(c) {
      assert ("(" + c + ")")[1..|c| + 1] == c;
      assert ("(" + d + ")")[1..|d| + 1] == d;
      assert |"(" + c + ")"| == |c| + 2 && |"(" + d + ")"| == |d| + 2;
    }
  }

  /** How a key opens, which tells the kinds of identity apart. */
  lemma {:induction false} KeyKinds(id: Value)
    requires IsIdentity(id)
    ensures PlacedKey(id) != ""
    ensures id.Int? ==> NumeralOf(PlacedKey(id)) == Whole(id.i)
    ensures id.Float? ==> PlacedKey(id) == id.text && NumeralOf(PlacedKey(id)).Fractional?
    ensures id.Str? <==> PlacedKey(id)[0] == '"'
    ensures id.Word? ==> NumeralOf(PlacedKey(id)).NotANumber?
  {
    match id {
      case Int(i) => IntRoundTrip(i);
      case Float(t) => NoNumberOpens(t);
      case Str(s) => QuoteRoundTrip(s, "");
      case Word(w) =>
        WordKey(w);
        NoNumberOpens(PlacedKey(id));
    }
  }

  lemma {:induction false} NoNumberOpens(t: string)
    ensures t == "" || t[0] == '(' || t[0] == '"' ==> NumeralOf(t).NotANumber?
  {}

  /** The key a place is remembered by says which record a reader takes it for: two
      identities share one exactly when they cross as the same. */
  lemma {:induction false} KeyInjective(a: Value, b: Value)
    requires IsIdentity(a) && IsIdentity(b)
    ensures PlacedKey(a) == PlacedKey(b) <==> Seen(a) == Seen(b)
  {
    hide NumeralOf, IsWord, Quote, CText;
    SeenIsWritten(a);
    SeenIsWritten(b);
    if PlacedKey(a) == PlacedKey(b) {
      KeyKinds(a);
      KeyKinds(b);
      if a.Str? {
        QuoteRoundTrip(a.s, "");
        QuoteRoundTrip(b.s, "");
      }
      if a.Word? {
        WordKeyInjective(a.w, b.w);
      }
    }
  }

  lemma {:induction false} SeenIsWritten(v: Value)
    ensures PlacedKey(Seen(v)) == PlacedKey(v)
  {
    if v.Str? {
      CTextFacts(v.s);
      CTextFacts(CText(v.s));
    }
    if v.Word? {
      CTextFacts(v.w);
      CTextFacts(CText(v.w));
    }
  }

  // ----- leaving out what is already held -----

  predicate Holds(m: Members, fields: seq<Field>) {
    forall f :: f in fields ==> NameOf(f) in m
  }

  lemma {:induction false} MergeGrows(m: Members, fields: seq<Field>)
    ensures forall n :: n in m ==> n in MergeFields(m, fields) && MergeFields(m, fields)[n] == m[n]
    ensures Holds(MergeFields(m, fields), fields)
    decreases |fields|
  {
    if fields != [] {
      var m' := if NameOf(fields[0]) in m then m else m[NameOf(fields[0]) := Worth(fields[0])];
      MergeGrows(m', fields[1..]);
      assert forall f :: f in fields ==> f == fields[0] || f in fields[1..];
    }
  }

  /** A field whose name is already held changes nothing, so leaving it out does not either. */
  lemma {:induction false} MergeLacking(m: Members, fields: seq<Field>, already: seq<Field>)
    requires Holds(m, already)
    ensures MergeFields(m, Lacking(fields, already)) == MergeFields(m, fields)
    decreases |fields|
  {
    if fields != [] {
      var f := fields[0];
      var m' := if NameOf(f) in m then m else m[NameOf(f) := Worth(f)];
      if HasName(already, NameOf(f)) {
        assert [] + Lacking(fields[1..], already) == Lacking(fields[1..], already);
        MergeLacking(m, fields[1..], already);
      } else {
        assert ([f] + Lacking(fields[1..], already))[1..] == Lacking(fields[1..], already);
        MergeLacking(m', fields[1..], already);
      }
    }
  }

  // ----- the two modes, side by side -----

  function IdOf(c: Call): Option<Value> {
    match c
    case Record(id, _) => Some(id)
    case Subset(id, _, _) => Some(id)
    case Place(id, _) => Some(id)
    case _ => None
  }

  predicate Identified(calls: seq<Call>) {
    forall c :: c in calls ==> (IdOf(c).Some? ==> IsIdentity(IdOf(c).value))
  }

  /** Whatever a place is remembered to have carried, the reader holds. */
  ghost predicate Leanable(s: State) {
    var h := Reading(map[], Everything(s));
    forall id {:trigger PlacedKey(id)} ::
      IsIdentity(id) && PlacedKey(id) in s.placed ==>
        Seen(id) in h && Holds(h[Seen(id)], s.placed[PlacedKey(id)])
  }

  ghost predicate Agree(s: State, r: State) {
    && Underway(s) && Underway(r) && Leanable(s)
    && Reading(map[], Everything(s)) == Reading(map[], Everything(r))
  }

  lemma {:induction false} ReadingStep(s: State, extend: bool, c: Call)
    requires Underway(s) && !c.End?
    ensures Underway(Do(s, extend, c))
    ensures Reading(map[], Everything(Do(s, extend, c)))
         == if Adds(s, extend, c) == [] then Reading(map[], Everything(s))
            else Merge(Reading(map[], Everything(s)), Adds(s, extend, c)[0])
  {
    hide Do, Merge, Everything;
    StepAdds(s, extend, c);
    ReadingConcat(map[], Everything(s), Adds(s, extend, c));
    if Adds(s, extend, c) != [] {
      ReadingOne(Reading(map[], Everything(s)), Adds(s, extend, c)[0]);
      assert Adds(s, extend, c) == [Adds(s, extend, c)[0]];
    }
  }

  /** Nothing that is merged later takes away what could be leaned on. */
  lemma {:induction false} LeanableMerge(h: Holding, l: Line, id: Value, fields: seq<Field>)
    requires Seen(id) in h && Holds(h[Seen(id)], fields)
    ensures Seen(id) in Merge(h, l) && Holds(Merge(h, l)[Seen(id)], fields)
  {
    hide Seen;
    if l.id.Some? && Seen(l.id.value) == Seen(id) {
      MergeGrows(h[Seen(id)], l.fields);
    }
  }

  lemma {:induction false} LeanableStep(s: State, c: Call)
    requires Underway(s) && Leanable(s) && !c.End?
    requires IdOf(c).Some? ==> IsIdentity(IdOf(c).value)
    ensures Leanable(Do(s, true, c))
  {
    hide Everything, Merge, Reading;
    var t := Do(s, true, c);
    var h, g := Reading(map[], Everything(s)), Reading(map[], Everything(t));
    ReadingStep(s, true, c);
    forall id {:trigger PlacedKey(id)} | IsIdentity(id) && PlacedKey(id) in t.placed
      ensures Seen(id) in g && Holds(g[Seen(id)], t.placed[PlacedKey(id)])
    {
      if c.Place? && PlacedKey(c.id) == PlacedKey(id) {
        KeyInjective(c.id, id);
        PlaceMerged(h, Adds(s, true, c)[0]);
      } else {
        assert PlacedKey(id) in s.placed && t.placed[PlacedKey(id)] == s.placed[PlacedKey(id)];
        if Adds(s, true, c) != [] {
          LeanableMerge(h, Adds(s, true, c)[0], id, s.placed[PlacedKey(id)]);
        }
      }
    }
  }

  lemma {:induction false} PlaceMerged(h: Holding, l: Line)
    requires l.id.Some?
    ensures Seen(l.id.value) in Merge(h, l) && Holds(Merge(h, l)[Seen(l.id.value)], l.fields)
  {
    MergeGrows(MembersOf(h, l.id.value), l.fields);
  }

  /** Merging a result that leans gives what merging the whole of it would have. */
  lemma {:induction false} AddsAgree(s: State, r: State, c: Call)
    requires Leanable(s) && !c.End?
    requires IdOf(c).Some? ==> IsIdentity(IdOf(c).value)
    ensures |Adds(s, true, c)| == |Adds(r, false, c)|
    ensures Adds(s, true, c) != [] ==>
      var h := Reading(map[], Everything(s));
      Merge(h, Adds(s, true, c)[0]) == Merge(h, Adds(r, false, c)[0])
  {
    hide Everything, Reading;
    if c.Record? || c.Subset? {
      var h := Reading(map[], Everything(s));
      if PlacedKey(c.id) in s.placed {
        MergeLacking(h[Seen(c.id)], c.fields, s.placed[PlacedKey(c.id)]);
      }
    }
  }

  lemma {:induction false} AgreeStep(s: State, r: State, c: Call)
    requires Agree(s, r) && !c.End?
    requires IdOf(c).Some? ==> IsIdentity(IdOf(c).value)
    ensures Agree(Do(s, true, c), Do(r, false, c))
  {
    hide Do, Everything, Reading, Merge, Leanable, Adds, Underway;
    LeanableStep(s, c);
    ReadingStep(s, true, c);
    ReadingStep(r, false, c);
    AddsAgree(s, r, c);
  }

  lemma {:induction false} AgreeRun(s: State, r: State, calls: seq<Call>)
    requires Agree(s, r) && NoEnd(calls) && Identified(calls)
    ensures Agree(Run(s, true, calls), Run(r, false, calls))
    decreases |calls|
  {
    hide Do, Agree, IsIdentity;
    if calls != [] {
      assert calls[0] in calls && forall x :: x in calls[1..] ==> x in calls;
      AgreeStep(s, r, calls[0]);
      AgreeRun(Do(s, true, calls[0]), Do(r, false, calls[0]), calls[1..]);
    }
  }

  lemma {:induction false} ReadingEnd(s: State, extend: bool, end: Call)
    requires Underway(s) && end.End?
    ensures Reading(map[], Do(s, extend, end).lines) == Reading(map[], Everything(s))
  {
    var last := LastLine(s, end);
    ReadingConcat(map[], s.lines, [last]);
    ReadingConcat(map[], s.lines, Held(s));
    ReadingOne(Reading(map[], s.lines), last);
    if s.waiting.Some? {
      ReadingOne(Reading(map[], s.lines), s.waiting.value);
    }
  }

  /** `extend` refines replace: for every sequence of calls, a reader that merges by
      identity and name ends up holding the same fields with the same values whether
      or not results leaned on their places. */
  lemma {:induction false} ExtendRefinesReplace(calls: seq<Call>, end: Call)
    requires NoEnd(calls) && end.End? && Identified(calls)
    ensures Reading(map[], Run(OPEN, true, calls + [end]).lines)
         == Reading(map[], Run(OPEN, false, calls + [end]).lines)
  {
    hide Reading, Do;
    assert Agree(OPEN, OPEN) by { OpenAgrees(); }
    AgreeRun(OPEN, OPEN, calls);
    RunConcat(OPEN, true, calls, [end]);
    RunConcat(OPEN, false, calls, [end]);
    var s, r := Run(OPEN, true, calls), Run(OPEN, false, calls);
    RunOne(s, true, end);
    RunOne(r, false, end);
    ReadingEnd(s, true, end);
    ReadingEnd(r, false, end);
  }

  lemma {:induction false} OpenAgrees()
    ensures Agree(OPEN, OPEN)
  {
    assert Everything(OPEN) == [];
  }

  lemma {:induction false} RunOne(s: State, extend: bool, c: Call)
    ensures Run(s, extend, [c]) == Do(s, extend, c)
  {
    hide Do;
    assert [c][1..] == [];
    assert Run(Do(s, extend, c), extend, []) == Do(s, extend, c);
  }

  // ----- the counts -----

  predicate DistinctNames(fields: seq<Field>) {
    forall i, j :: 0 <= i < j < |fields| ==> NameOf(fields[i]) != NameOf(fields[j])
  }

  predicate Among(fields: seq<Field>, whole: seq<Field>) {
    forall f :: f in fields ==> f in whole
  }

  /** The members of a record as a reader counts them. */
  function Count(m: Members): Totals {
    Totals(|Counted(m, false)|, |Counted(m, true)|)
  }

  /** The members held that stand by position, or by name. */
  function Counted(m: Members, byIndex: bool): set<string> {
    set n | n in m && m[n].Some? && IsMemberIndex(n) == byIndex
  }

  lemma {:induction false} CountedWithout(m: Members, name: string, byIndex: bool)
    requires name in m
    ensures |Counted(m, byIndex)|
         == |Counted(m - {name}, byIndex)| + if m[name].Some? && IsMemberIndex(name) == byIndex then 1 else 0
  {
    hide IsMemberIndex;
    var a, b := Counted(m, byIndex), Counted(m - {name}, byIndex);
    var mine := m[name].Some? && IsMemberIndex(name) == byIndex;
    assert name !in b && (name in a <==> mine);
    forall n | n != name ensures n in a <==> n in b {
      assert n in m - {name} <==> n in m;
    }
    OneFewer(a, b, name);
  }

  lemma {:induction false} OneFewer(a: set<string>, b: set<string>, x: string)
    requires x !in b && forall n :: n != x ==> (n in a <==> n in b)
    ensures |a| == |b| + if x in a then 1 else 0
  {
    if x in a {
      assert a == b + {x};
    } else {
      assert a == b;
    }
  }

  /** What a record holds, by name. */
  predicate IsRecord(m: Members, fields: seq<Field>) {
    && (forall f :: f in fields ==> NameOf(f) in m && m[NameOf(f)] == Worth(f))
    && (forall n :: n in m ==> HasName(fields, n))
  }

  /** With distinct names, the members of the record are counted as `Tally` counts them. */
  lemma {:induction false} CountIsTally(m: Members, fields: seq<Field>)
    requires DistinctNames(fields) && IsRecord(m, fields)
    ensures Count(m) == Tally(fields)
    decreases |fields|
  {
    hide IsRecord, Counted, IsMemberIndex;
    if fields == [] {
      NothingCounted(m);
    } else {
      RestIsRecord(m, fields);
      CountedWithout(m, NameOf(fields[0]), false);
      CountedWithout(m, NameOf(fields[0]), true);
      CountIsTally(m - {NameOf(fields[0])}, fields[1..]);
    }
  }

  lemma {:induction false} NothingCounted(m: Members)
    requires IsRecord(m, [])
    ensures Counted(m, false) == {} && Counted(m, true) == {}
  {
    forall n ensures n !in m {
      assert n in m ==> HasName([], n);
    }
  }

  lemma {:induction false} RestIsRecord(m: Members, fields: seq<Field>)
    requires fields != [] && DistinctNames(fields) && IsRecord(m, fields)
    ensures NameOf(fields[0]) in m && m[NameOf(fields[0])] == Worth(fields[0])
    ensures DistinctNames(fields[1..]) && IsRecord(m - {NameOf(fields[0])}, fields[1..])
  {
    var rest := fields[1..];
    assert fields[0] in fields;
    forall i, j | 0 <= i < j < |rest| ensures NameOf(rest[i]) != NameOf(rest[j]) {
      assert NameOf(fields[i + 1]) != NameOf(fields[j + 1]);
    }
    forall f | f in rest
      ensures NameOf(f) in m - {NameOf(fields[0])} && m[NameOf(f)] == Worth(f)
    {
      var i :| 0 <= i < |rest| && rest[i] == f;
      assert NameOf(fields[0]) != NameOf(fields[i + 1]);
      assert f in fields;
    }
    forall n | n in m - {NameOf(fields[0])}
      ensures HasName(rest, n)
    {
      assert HasName(fields, n);
      var f :| f in fields && NameOf(f) == n;
      assert f != fields[0];
      assert f in rest;
    }
  }

  /** Merging a record, or what is lacking of one, over some of its own fields gives it whole. */
  lemma {:induction false} MergeOwn(m: Members, fields: seq<Field>, whole: seq<Field>)
    requires DistinctNames(whole) && Among(fields, whole)
    requires forall n :: n in m ==> exists f :: f in whole && NameOf(f) == n && m[n] == Worth(f)
    ensures forall n :: n in MergeFields(m, fields) ==>
              exists f :: f in whole && NameOf(f) == n && MergeFields(m, fields)[n] == Worth(f)
    decreases |fields|
  {
    if fields != [] {
      var f := fields[0];
      assert f in fields && forall g :: g in fields[1..] ==> g in fields;
      var m' := if NameOf(f) in m then m else m[NameOf(f) := Worth(f)];
      forall n | n in m' ensures exists g :: g in whole && NameOf(g) == n && m'[n] == Worth(g) {
        if n in m {
          var g :| g in whole && NameOf(g) == n && m[n] == Worth(g);
          assert m'[n] == Worth(g);
        } else {
          assert f in whole;
        }
      }
      MergeOwn(m', fields[1..], whole);
    }
  }

  lemma {:induction false} DistinctByName(whole: seq<Field>, f: Field, g: Field)
    requires DistinctNames(whole) && f in whole && g in whole && NameOf(f) == NameOf(g)
    ensures f == g
  {
    var i :| 0 <= i < |whole| && whole[i] == f;
    var j :| 0 <= j < |whole| && whole[j] == g;
    assert i == j;
  }

  /** A place that carried some of a record, and then the record leaning on it: the
      reader holds the whole record, and the counts on the result are its members. */
  lemma {:induction false} LeaningCountsAreExact(place: seq<Field>, whole: seq<Field>)
    requires DistinctNames(whole) && Among(place, whole)
    ensures var held := MergeFields(MergeFields(map[], place), Lacking(whole, place));
            && IsRecord(held, whole)
            && Count(held) == Tally(whole)
  {
    var m := MergeFields(map[], place);
    MergeGrows(map[], place);
    MergeLacking(m, whole, place);
    var held := MergeFields(m, whole);
    MergeOwn(map[], place, whole);
    MergeOwn(m, whole, whole);
    MergeGrows(m, whole);
    forall f | f in whole ensures NameOf(f) in held && held[NameOf(f)] == Worth(f) {
      var g :| g in whole && NameOf(g) == NameOf(f) && held[NameOf(f)] == Worth(g);
      DistinctByName(whole, f, g);
    }
    forall n | n in held ensures HasName(whole, n) {
      var g :| g in whole && NameOf(g) == n && held[n] == Worth(g);
    }
    CountIsTally(held, whole);
  }

  predicate Elsewhere(calls: seq<Call>, id: Value) {
    forall c :: c in calls ==> (IdOf(c).Some? ==> Seen(IdOf(c).value) != Seen(id))
  }

  /** Calls about other records change neither what is held of this one nor what its
      place is remembered to have carried. */
  lemma {:induction false} ElsewhereRun(s: State, calls: seq<Call>, id: Value)
    requires Underway(s) && NoEnd(calls) && Identified(calls) && IsIdentity(id) && Elsewhere(calls, id)
    ensures var t := Run(s, true, calls);
            && Underway(t)
            && MembersOf(Reading(map[], Everything(t)), id) == MembersOf(Reading(map[], Everything(s)), id)
            && (PlacedKey(id) in t.placed <==> PlacedKey(id) in s.placed)
            && (PlacedKey(id) in t.placed ==> t.placed[PlacedKey(id)] == s.placed[PlacedKey(id)])
    decreases |calls|
  {
    hide IsIdentity, Underway, Everything, Reading, PlacedKey;
    if calls != [] {
      var c := calls[0];
      assert c in calls && forall x :: x in calls[1..] ==> x in calls;
      ElsewhereStep(s, c, id);
      ElsewhereRun(Do(s, true, c), calls[1..], id);
    }
  }

  lemma {:induction false} ElsewhereStep(s: State, c: Call, id: Value)
    requires Underway(s) && !c.End? && IsIdentity(id)
    requires IdOf(c).Some? ==> IsIdentity(IdOf(c).value) && Seen(IdOf(c).value) != Seen(id)
    ensures var t := Do(s, true, c);
            && Underway(t)
            && MembersOf(Reading(map[], Everything(t)), id) == MembersOf(Reading(map[], Everything(s)), id)
            && (PlacedKey(id) in t.placed <==> PlacedKey(id) in s.placed)
            && (PlacedKey(id) in t.placed ==> t.placed[PlacedKey(id)] == s.placed[PlacedKey(id)])
  {
    hide Everything, Reading, PlacedKey, IsIdentity;
    ReadingStep(s, true, c);
    if c.Place? && PlacedKey(c.id) == PlacedKey(id) {
      KeyInjective(c.id, id);
    }
  }

  /** In a run, under `extend`: a record placed once and sent whole once, among any calls
      about other records, crosses as a subset whose `map` and `len` count exactly the
      members the reader then holds -- and what it holds is the record. */
  lemma {:induction false} HeldMembersAreCounted(
    a: seq<Call>, id: Value, place: seq<Field>, b: seq<Call>, whole: seq<Field>)
    requires NoEnd(a) && NoEnd(b) && Identified(a) && Identified(b) && IsIdentity(id)
    requires Elsewhere(a, id) && Elsewhere(b, id)
    requires DistinctNames(whole) && Among(place, whole)
    ensures var s := Run(OPEN, true, a + [Place(id, place)] + b);
            var l := ResultLine(s, true, id, true, Totals(0, 0), whole);
            var held := MembersOf(Reading(map[], Everything(Do(s, true, Record(id, whole)))), id);
            && !l.whole && l.has == Count(held)
            && IsRecord(held, whole)
  {
    hide Do, Reading, Everything, IsIdentity, Count, IsRecord;
    var s0 := Run(OPEN, true, a);
    var s1 := Do(s0, true, Place(id, place));
    var s := Run(s1, true, b);
    RunConcat(OPEN, true, a, [Place(id, place)]);
    RunConcat(OPEN, true, a + [Place(id, place)], b);
    RunOne(s0, true, Place(id, place));
    OpenHolds(id);
    ElsewhereRun(OPEN, a, id);
    PlaceHolds(s0, id, place);
    ElsewhereRun(s1, b, id);
    RecordHolds(s, id, whole);
    LeaningCountsAreExact(place, whole);
  }

  lemma {:induction false} OpenHolds(id: Value)
    ensures Underway(OPEN) && MembersOf(Reading(map[], Everything(OPEN)), id) == map[]
  {
    assert Everything(OPEN) == [];
  }

  lemma {:induction false} PlaceHolds(s: State, id: Value, place: seq<Field>)
    requires Underway(s) && MembersOf(Reading(map[], Everything(s)), id) == map[]
    ensures var t := Do(s, true, Place(id, place));
            && Underway(t) && PlacedKey(id) in t.placed && t.placed[PlacedKey(id)] == place
            && MembersOf(Reading(map[], Everything(t)), id) == MergeFields(map[], place)
  {
    hide Everything, Reading;
    ReadingStep(s, true, Place(id, place));
  }

  lemma {:induction false} RecordHolds(s: State, id: Value, whole: seq<Field>)
    requires Underway(s) && PlacedKey(id) in s.placed
    ensures var l := ResultLine(s, true, id, true, Totals(0, 0), whole);
            && !l.whole && l.has == Tally(whole)
            && MembersOf(Reading(map[], Everything(Do(s, true, Record(id, whole)))), id)
            == MergeFields(MembersOf(Reading(map[], Everything(s)), id), Lacking(whole, s.placed[PlacedKey(id)]))
  {
    hide Everything, Reading;
    ReadingStep(s, true, Record(id, whole));
  }
}
