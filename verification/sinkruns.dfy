/**
 What does not matter to whoever reads an answer: where it was flushed, where the
 threshold fell, and how it crossed as bytes. And what does: the declaration of
 order, which is on the statement where it is worth something or nowhere.
 */
module SinkRuns {
  import opened Text
  import opened Tokens
  import opened Quoting
  import opened Syntax
  import opened Query
  import opened FilterSpelling
  import opened DescriptorSpelling
  import opened Framing
  import opened Sink

  // ----- flushing -----

  function WithoutFlush(calls: seq<Call>): seq<Call> {
    if calls == [] then []
    else (if calls[0].Flush? then [] else [calls[0]]) + WithoutFlush(calls[1..])
  }

  /** A terminator that rode on a record, said on a line of its own. */
  function Apart(ls: seq<Line>): seq<Line> {
    if ls == [] then []
    else
      (if ls[0].id.Some? && ls[0].end.Some? && !ls[0].place then
         [ls[0].(end := None), Line(false, false, None, false, Totals(0, 0), [], ls[0].end)]
       else [ls[0]])
      + Apart(ls[1..])
  }

  lemma {:induction false} ApartConcat(a: seq<Line>, b: seq<Line>)
    ensures Apart(a + b) == Apart(a) + Apart(b)
  {
    if a == [] {
      assert a + b == b;
    } else {
      assert (a + b)[0] == a[0] && (a + b)[1..] == a[1..] + b;
      ApartConcat(a[1..], b);
    }
  }

  /** Two sinks that differ at most in whether the last record is still held back. */
  predicate Alike(s: State, t: State) {
    && Underway(s) && Underway(t)
    && Everything(s) == Everything(t)
    && (s.waiting.None? || s.waiting == t.waiting)
    && s.(lines := [], waiting := None) == t.(lines := [], waiting := None)
  }

  lemma {:induction false} AddsAlike(s: State, t: State, extend: bool, c: Call)
    requires Alike(s, t) && !c.End?
    ensures Adds(s, extend, c) == Adds(t, extend, c)
  {
    hide PlacedKey, Tally, Lacking, Everything;
  }

  lemma {:induction false} AlikeStep(s: State, t: State, extend: bool, c: Call)
    requires Alike(s, t) && !c.End? && !c.Flush?
    ensures Alike(Do(s, extend, c), Do(t, extend, c))
  {
    hide PlacedKey, Tally, Lacking, Everything;
    AddsAlike(s, t, extend, c);
    StepAdds(s, extend, c);
    StepAdds(t, extend, c);
  }

  lemma {:induction false} AlikeFlush(s: State, t: State, extend: bool)
    requires Alike(s, t)
    ensures Alike(Do(s, extend, Flush), t)
  {
    StepAdds(s, extend, Flush);
    assert Everything(s) + [] == Everything(s);
  }

  lemma {:induction false} AlikeRun(s: State, t: State, extend: bool, calls: seq<Call>)
    requires Alike(s, t) && NoEnd(calls)
    ensures Alike(Run(s, extend, calls), Run(t, extend, WithoutFlush(calls)))
    decreases |calls|
  {
    hide Do, Alike;
    if calls != [] {
      var c := calls[0];
      assert c in calls && forall x :: x in calls[1..] ==> x in calls;
      if c.Flush? {
        AlikeFlush(s, t, extend);
        AlikeRun(Do(s, extend, c), t, extend, calls[1..]);
        assert [] + WithoutFlush(calls[1..]) == WithoutFlush(calls[1..]);
      } else {
        AlikeStep(s, t, extend, c);
        AlikeRun(Do(s, extend, c), Do(t, extend, c), extend, calls[1..]);
        assert WithoutFlush(calls)[1..] == WithoutFlush(calls[1..]);
      }
    }
  }

  lemma {:induction false} ApartEnd(s: State, extend: bool, end: Call)
    requires Underway(s) && end.End?
    ensures Apart(Do(s, extend, end).lines)
         == Apart(Everything(s))
            + [Line(false, s.ordered && s.records == 0, None, false, Totals(0, 0), [], Some(EndOf(s, end)))]
  {
    var last := LastLine(s, end);
    ApartConcat(s.lines, [last]);
    ApartConcat(s.lines, Held(s));
    assert [last][1..] == [] && Apart([]) == [];
    if s.waiting.Some? {
      assert s.waiting.value in Everything(s);
      assert Held(s)[1..] == [];
      assert Apart(Held(s)) == [s.waiting.value];
      assert last.(end := None) == s.waiting.value;
    }
  }

  /** Flushing changes only whether the terminator shares a line with the last record:
      set apart from it, the statements of a run are those of the run never flushed. */
  lemma {:induction false} FlushOnlySplitsTheEnd(extend: bool, calls: seq<Call>, end: Call)
    requires NoEnd(calls) && end.End?
    ensures Apart(Run(OPEN, extend, calls + [end]).lines)
         == Apart(Run(OPEN, extend, WithoutFlush(calls) + [end]).lines)
  {
    var s, t := Run(OPEN, extend, calls), Run(OPEN, extend, WithoutFlush(calls));
    AlikeRun(OPEN, OPEN, extend, calls);
    RunConcat(OPEN, extend, calls, [end]);
    RunConcat(OPEN, extend, WithoutFlush(calls), [end]);
    assert [end][1..] == [];
    assert Run(s, extend, [end]) == Do(s, extend, end) && Run(t, extend, [end]) == Do(t, extend, end);
    ApartEnd(s, extend, end);
    ApartEnd(t, extend, end);
  }

  // ----- the declaration of order -----

  predicate NamesRecord(c: Call) {
    c.Record? || c.Subset? || c.Place?
  }

  /** Whether order is declared before any call that names a record. */
  predicate Declares(calls: seq<Call>) {
    calls != [] && (calls[0].Ordered? || (!NamesRecord(calls[0]) && Declares(calls[1..])))
  }

  /** A place with no identity says the order is settled and names nothing. */
  predicate IsMark(l: Line) {
    l.place && l.id.None?
  }

  /** `ordered` is on the first statement that is not a mark, exactly when declared,
      and on no other. */
  predicate Flagged(ls: seq<Line>, declared: bool) {
    ls != [] ==>
      if IsMark(ls[0]) then !ls[0].ordered && Flagged(ls[1..], declared)
      else ls[0].ordered == declared && forall l :: l in ls[1..] ==> !l.ordered
  }

  predicate AllMarks(ls: seq<Line>) {
    forall l :: l in ls ==> IsMark(l) && !l.ordered
  }

  lemma {:induction false} FlaggedMarks(ls: seq<Line>, more: seq<Line>, declared: bool)
    requires AllMarks(ls)
    ensures Flagged(ls + more, declared) <==> Flagged(more, declared)
  {
    if ls == [] {
      assert ls + more == more;
    } else {
      assert ls[0] in ls && forall l :: l in ls[1..] ==> l in ls;
      assert (ls + more)[0] == ls[0] && (ls + more)[1..] == ls[1..] + more;
      FlaggedMarks(ls[1..], more, declared);
    }
  }

  /** Once a record has been named, nothing flagged is added. */
  lemma {:induction false} FlaggedMore(ls: seq<Line>, l: Line, declared: bool)
    requires Flagged(ls, declared) && !AllMarks(ls) && !l.ordered
    ensures Flagged(ls + [l], declared) && !AllMarks(ls + [l])
  {
    assert (ls + [l])[0] == ls[0] && (ls + [l])[1..] == ls[1..] + [l];
    if IsMark(ls[0]) {
      assert !AllMarks(ls[1..]) by {
        if AllMarks(ls[1..]) {
          forall x | x in ls ensures IsMark(x) && !x.ordered {
            assert x == ls[0] || x in ls[1..];
          }
        }
      }
      FlaggedMore(ls[1..], l, declared);
    }
    assert ls[0] in ls + [l] && forall x :: x in ls ==> x in ls + [l];
  }

  /** The flags of an answer under way: none before a record is named, and then the
      first one's for good. */
  predicate FlagsSoFar(s: State, declared: bool) {
    && Underway(s)
    && if s.records == 0 then AllMarks(Everything(s)) else !AllMarks(Everything(s)) && Flagged(Everything(s), declared)
  }

  lemma {:induction false} FlagStep(s: State, extend: bool, c: Call, declared: bool)
    requires !c.End? && FlagsSoFar(s, declared)
    requires s.records == 0 && NamesRecord(c) ==> s.ordered == declared
    ensures FlagsSoFar(Do(s, extend, c), declared)
  {
    StepAdds(s, extend, c);
    var t := Do(s, extend, c);
    if Adds(s, extend, c) == [] {
      assert Everything(t) == Everything(s) + [] == Everything(s);
    } else {
      var l := Adds(s, extend, c)[0];
      assert Adds(s, extend, c) == [l];
      if s.records > 0 {
        FlaggedMore(Everything(s), l, declared);
      } else if IsMark(l) {
        forall x | x in Everything(t) ensures IsMark(x) && !x.ordered {
          assert x in Everything(s) || x == l;
        }
      } else {
        FlaggedMarks(Everything(s), [l], declared);
        assert [l][1..] == [];
        assert l in Everything(t);
      }
    }
  }

  lemma {:induction false} FlagRun(s: State, extend: bool, calls: seq<Call>, declared: bool)
    requires NoEnd(calls) && FlagsSoFar(s, declared)
    requires s.records == 0 ==> declared == (s.ordered || Declares(calls))
    ensures var t := Run(s, extend, calls);
            FlagsSoFar(t, declared) && (t.records == 0 ==> t.ordered == declared)
    decreases |calls|
  {
    hide FlagsSoFar;
    if calls != [] {
      var c := calls[0];
      assert c in calls && forall x :: x in calls[1..] ==> x in calls;
      UnderwayOf(s, declared);
      FlagStep(s, extend, c, declared);
      FlagRun(Do(s, extend, c), extend, calls[1..], declared);
    }
  }

  lemma {:induction false} UnderwayOf(s: State, declared: bool)
    requires FlagsSoFar(s, declared)
    ensures !s.closed
  {}

  /** `ordered` rides on the first statement that names a record -- or on a terminator
      with no record before it -- exactly when it was declared before any record, and
      nowhere else. A declaration made later is dropped. */
  lemma {:induction false} OrderedWhereItCounts(extend: bool, calls: seq<Call>, end: Call)
    requires NoEnd(calls) && end.End?
    ensures Flagged(Run(OPEN, extend, calls + [end]).lines, Declares(calls))
  {
    var declared := Declares(calls);
    assert Everything(OPEN) == [];
    FlagRun(OPEN, extend, calls, declared);
    RunConcat(OPEN, extend, calls, [end]);
    var s := Run(OPEN, extend, calls);
    assert [end][1..] == [];
    assert Run(s, extend, [end]) == Do(s, extend, end);
    var last := LastLine(s, end);
    if s.waiting.Some? {
      FlaggedEnds(s.lines, s.waiting.value, last, declared);
    } else if s.records > 0 {
      assert Everything(s) == s.lines;
      FlaggedMore(s.lines, last, declared);
    } else {
      assert Everything(s) == s.lines;
      FlaggedMarks(s.lines, [last], declared);
      assert [last][1..] == [];
    }
  }

  /** Closing the line that was held back moves no flag. */
  lemma {:induction false} FlaggedEnds(ls: seq<Line>, l: Line, m: Line, declared: bool)
    requires Flagged(ls + [l], declared)
    requires !IsMark(l) && !IsMark(m) && l.ordered == m.ordered
    ensures Flagged(ls + [m], declared)
  {
    if ls == [] {
      assert [] + [l] == [l] && [] + [m] == [m] && [m][1..] == [];
    } else {
      assert (ls + [l])[0] == ls[0] && (ls + [l])[1..] == ls[1..] + [l];
      assert (ls + [m])[0] == ls[0] && (ls + [m])[1..] == ls[1..] + [m];
      if IsMark(ls[0]) {
        FlaggedEnds(ls[1..], l, m, declared);
      } else {
        forall x | x in (ls + [m])[1..] ensures !x.ordered {
          if x == m {
            assert l in (ls + [l])[1..];
          } else {
            assert x in (ls + [l])[1..];
          }
        }
      }
    }
  }

  // ----- as bytes -----

  predicate SpellableId(id: Value) {
    !id.Block? && SpellableValue(id) && FramableValue(id)
  }

  predicate FramableBag(b: seq<Field>) {
    forall f :: f in b ==> (f.value.Some? ==> FramableValue(f.value.value))
  }

  predicate SpellableLine(l: Line) {
    && (l.id.Some? ==> SpellableId(l.id.value))
    && SpellableBag(l.fields) && FramableBag(l.fields)
    && (l.end.Some? ==>
          && (l.end.value.watermark.Some? ==> SpellableId(l.end.value.watermark.value))
          && (l.end.value.stop != "" ==> IsName(l.end.value.stop))
          && (l.end.value.error.Some? ==> NulFree(l.end.value.error.value)))
  }

  lemma {:induction false} BagFramable(b: seq<Field>)
    requires SpellableBag(b) && FramableBag(b)
    ensures SpellableBlock(BagStmts(b)) && forall s :: s in BagStmts(b) ==> FramableStmt(s)
  {
    hide SpellableBagField, SpellableStmt, FramableValue;
    BagFacts(b);
    if b != [] {
      assert b[0] in b && forall f :: f in b[1..] ==> f in b;
      BagFramable(b[1..]);
      FieldFramable(b[0]);
    }
  }

  lemma {:induction false} FieldFramable(f: Field)
    requires f.value.Some? ==> FramableValue(f.value.value)
    ensures FramableStmt(FieldStmt(f))
  {}

  predicate GoodArg(a: Arg) {
    SpellableArg(a) && FramableArg(a)
  }

  predicate GoodArgs(args: seq<Arg>) {
    forall a :: a in args ==> GoodArg(a)
  }

  lemma {:induction false} GoodConcat(a: seq<Arg>, b: seq<Arg>)
    requires GoodArgs(a) && GoodArgs(b)
    ensures GoodArgs(a + b)
  {
    hide GoodArg;
  }

  lemma {:induction false} OneGood(a: Arg)
    requires GoodArg(a)
    ensures GoodArgs([a])
  {
    hide GoodArg;
  }

  lemma {:induction false} NamedGood(name: string, v: Value)
    requires IsName(name) && SpellableValue(v) && FramableValue(v)
    ensures GoodArg(Named(name, v))
  {}

  lemma {:induction false} SimpleGood(i: Int64, s: string)
    ensures SpellableValue(Int(i)) && FramableValue(Int(i)) && FramableValue(Str(s))
    ensures NulFree(s) ==> SpellableValue(Str(s))
    ensures GoodArg(Operand(Int(i)))
  {}

  lemma {:induction false} BlockGood(b: seq<Stmt>)
    requires SpellableBlock(b) && forall s :: s in b ==> FramableStmt(s)
    ensures SpellableValue(Block(b)) && FramableValue(Block(b))
  {
    hide SpellableStmt, FramableStmt;
  }

  lemma {:induction false} CountGood(name: string, n: nat)
    requires IsName(name)
    ensures GoodArgs(NumberArg(name, n))
  {
    hide IsName, GoodArg;
    if n != 0 && Fits(n) {
      SimpleGood(n, "");
      NamedGood(name, Int(n));
    }
  }

  lemma {:induction false} LineNames()
    ensures IsHead("place") && IsHead("result")
    ensures IsName("ordered") && IsName("id") && IsName("record") && IsName("fields") && IsName("map") && IsName("len")
    ensures IsName("complete") && IsName("watermark") && IsName("error") && IsName("first") && IsName("total")
        && IsName("exact")
  {}

  lemma {:induction false} RecordGood(l: Line)
    requires SpellableLine(l)
    ensures GoodArgs(RecordArgs(l))
  {
    hide IsName, IsHead, BagStmts, SpellableBlock, FramableStmt, GoodArg, SpellableValue, FramableValue, NumberArg;
    LineNames();
    if l.id.Some? {
      BagFramable(l.fields);
      BlockGood(BagStmts(l.fields));
      NamedGood("id", l.id.value);
      NamedGood("fields", Block(BagStmts(l.fields)));
      NamedGood("record", Block(BagStmts(l.fields)));
      CountGood("map", l.has.named);
      CountGood("len", l.has.ordered);
      var a := [Named("id", l.id.value), Named("fields", Block(BagStmts(l.fields)))];
      GoodConcat(a, NumberArg("map", l.has.named));
      GoodConcat(a + NumberArg("map", l.has.named), NumberArg("len", l.has.ordered));
    }
  }

  lemma {:induction false} EndGood(l: Line)
    requires SpellableLine(l) && l.end.Some?
    ensures GoodArgs(EndArgs(l.end.value))
  {
    hide IsName, IsHead, GoodArg;
    LineNames();
    var e := l.end.value;
    EndPartsGood(e);
    var a, b := [Bare("complete")], MaybeNamed("watermark", e.watermark);
    var c := if e.stop == "" then [] else [Bare(e.stop)];
    var d := if e.error.None? then [] else [Named("error", Str(e.error.value))];
    GoodConcat(a, b);
    GoodConcat(a + b, c);
    GoodConcat(a + b + c, d);
    var f := if e.first.None? || !Fits(e.first.value) then [] else [Named("first", Int(e.first.value))];
    GoodConcat(a + b + c + d, f);
    var g := if (e.total == 0 && !e.exact) || !Fits(e.total) then [] else [Named("total", Int(e.total))];
    GoodConcat(a + b + c + d + f, g);
    GoodConcat(a + b + c + d + f + g, IfAny(e.exact, Bare("exact")));
  }

  lemma {:induction false} EndPartsGood(e: Ending)
    requires e.watermark.Some? ==> SpellableId(e.watermark.value)
    requires e.stop != "" ==> IsName(e.stop)
    requires e.error.Some? ==> NulFree(e.error.value)
    ensures GoodArg(Bare("complete")) && GoodArg(Bare("exact"))
    ensures e.watermark.Some? ==> GoodArg(Named("watermark", e.watermark.value))
    ensures e.stop != "" ==> GoodArg(Bare(e.stop))
    ensures e.error.Some? ==> GoodArg(Named("error", Str(e.error.value)))
    ensures e.first.Some? && Fits(e.first.value) ==> GoodArg(Named("first", Int(e.first.value)))
    ensures Fits(e.total) ==> GoodArg(Named("total", Int(e.total)))
  {
    hide IsHead, IsName, SpellableValue, FramableValue;
    LineNames();
    if e.error.Some? {
      SimpleGood(0, e.error.value);
      NamedGood("error", Str(e.error.value));
    }
    if e.first.Some? && Fits(e.first.value) {
      SimpleGood(e.first.value, "");
      NamedGood("first", Int(e.first.value));
    }
    if Fits(e.total) {
      SimpleGood(e.total, "");
      NamedGood("total", Int(e.total));
    }
  }

  lemma {:induction false} TreeGood(query: Int64, l: Line)
    requires SpellableLine(l)
    ensures SpellableStmt(Tree(query, l)) && FramableStmt(Tree(query, l))
  {
    hide RecordArgs, EndArgs, SpellableArg, FramableArg, IsName, IsHead, SpellableLine;
    LineNames();
    HeadGood(query);
    var a, b := [Operand(Int(query))], IfAny(l.ordered, Bare("ordered"));
    GoodConcat(a, b);
    RecordGood(l);
    GoodConcat(a + b, RecordArgs(l));
    if l.end.Some? {
      EndGood(l);
      GoodConcat(a + b + RecordArgs(l), EndArgs(l.end.value));
    } else {
      assert a + b + RecordArgs(l) + [] == a + b + RecordArgs(l);
    }
    assert GoodArgs(Tree(query, l).args);
  }

  lemma {:induction false} HeadGood(query: Int64)
    ensures GoodArgs([Operand(Int(query))]) && GoodArg(Bare("ordered"))
  {
    LineNames();
    SimpleGood(query, "");
    OneGood(Operand(Int(query)));
  }

  lemma {:induction false} TreesGood(query: Int64, ls: seq<Line>)
    requires forall l :: l in ls ==> SpellableLine(l)
    ensures forall s :: s in Trees(query, ls) ==> SpellableStmt(s) && FramableStmt(s)
  {
    hide SpellableStmt, FramableStmt, SpellableLine, Tree;
    if ls != [] {
      assert ls[0] in ls && forall l :: l in ls[1..] ==> l in ls;
      TreeGood(query, ls[0]);
      TreesGood(query, ls[1..]);
    }
  }

  // ----- the text put together is the spelling of the statement -----

  lemma {:induction false} NumberIsArg(name: string, n: nat)
    requires name != ""
    ensures FigureText(name, n) == WriteArgs(NumberArg(name, n))
  {
    hide IntText;
    if n != 0 && Fits(n) {
      WriteArgsOne(Named(name, Int(n)));
      assert " " + (name + "=" + IntText(n)) == " " + name + "=" + IntText(n);
    }
  }

  lemma {:induction false} RecordIsArgs(l: Line)
    requires SpellableLine(l)
    ensures RecordText(l) == WriteArgs(RecordArgs(l))
  {
    hide EncValue, EncBag, BagStmts, FigureText, NumberArg, WriteArgs, SpellableBag, FramableBag, SpellableId;
    NoArgsText();
    if l.id.Some? {
      var name := if l.whole && !l.place then "record" else "fields";
      var args := [Named("id", l.id.value), Named(name, Block(BagStmts(l.fields)))];
      var text := " id=" + EncValue(l.id.value) + " " + name + "=" + EncBag(l.fields);
      IdAndBagText(l.id.value, name, l.fields);
      CountsText(args, text, l.has);
      assert text + "" == text;
    }
  }

  lemma {:induction false} IdAndBagText(id: Value, name: string, fields: seq<Field>)
    requires SpellableId(id) && SpellableBag(fields) && name != ""
    ensures WriteArgs([Named("id", id), Named(name, Block(BagStmts(fields)))])
         == " id=" + EncValue(id) + " " + name + "=" + EncBag(fields)
  {
    BagIsBlock(fields);
    ValueIsText(id);
    hide EncValue, EncBag, BagStmts, WriteValue, WriteArg, WriteArgs, SpellableBag, SpellableId;
    var bag := Block(BagStmts(fields));
    PairText(Named("id", id), Named(name, bag));
    NamedIsText("id", id);
    NamedIsText(name, bag);
    NamedPair(EncValue(id), name, EncBag(fields));
  }

  lemma {:induction false} NamedPair(id: string, name: string, bag: string)
    ensures " " + ("id" + "=" + id) + " " + (name + "=" + bag) == " id=" + id + " " + name + "=" + bag
  {
    assert " " + ("id" + "=" + id) == " id=" + id;
    Regroup(" id=" + id + " ", name + "=", bag);
    Regroup(" id=" + id + " ", name, "=");
  }

  lemma {:induction false} CountsText(args: seq<Arg>, text: string, has: Totals)
    requires WriteArgs(args) == text
    ensures WriteArgs(args + NumberArg("map", has.named) + NumberArg("len", has.ordered))
         == text + (FigureText("map", has.named) + FigureText("len", has.ordered))
  {
    hide FigureText, NumberArg, WriteArgs;
    NumberIsArg("map", has.named);
    NumberIsArg("len", has.ordered);
    WriteArgsConcat(args, NumberArg("map", has.named));
    WriteArgsConcat(args + NumberArg("map", has.named), NumberArg("len", has.ordered));
    Regroup(text, FigureText("map", has.named), FigureText("len", has.ordered));
  }

  lemma {:induction false} ValueIsText(v: Value)
    requires !v.Block?
    ensures EncValue(v) == WriteValue(v)
  {}

  lemma {:induction false} NamedIsText(name: string, v: Value)
    requires name != ""
    ensures WriteArg(Named(name, v)) == name + "=" + WriteValue(v)
  {}

  lemma {:induction false} PairText(a: Arg, b: Arg)
    ensures WriteArgs([a, b]) == " " + WriteArg(a) + " " + WriteArg(b)
  {
    hide WriteArg;
    assert [a, b][1..] == [b];
    WriteArgsOne(b);
    Regroup(" " + WriteArg(a), " ", WriteArg(b));
  }

  lemma {:induction false} BagIsBlock(b: seq<Field>)
    requires SpellableBag(b)
    ensures EncBag(b) == WriteValue(Block(BagStmts(b)))
  {
    hide WriteStmts, EncFields, BagStmts;
    BagFacts(b);
    assert b == [] <==> BagStmts(b) == [];
  }

  lemma {:induction false} EndIsArgs(e: Ending)
    requires e.watermark.Some? ==> SpellableId(e.watermark.value)
    requires e.stop != "" ==> IsName(e.stop)
    ensures EndText(e) == WriteArgs(EndArgs(e))
  {
    hide EncValue, IntText, Quote, WriteArgs, CText, SpellableValue, FramableValue, IsName;
    StopIsText(e.stop);
    var a, b := [Bare("complete")], MaybeNamed("watermark", e.watermark);
    var c := if e.stop == "" then [] else [Bare(e.stop)];
    var d := if e.error.None? then [] else [Named("error", Str(e.error.value))];
    var f := if e.first.None? || !Fits(e.first.value) then [] else [Named("first", Int(e.first.value))];
    var g := if (e.total == 0 && !e.exact) || !Fits(e.total) then [] else [Named("total", Int(e.total))];
    var h := IfAny(e.exact, Bare("exact"));
    WriteArgsConcat(a, b);
    WriteArgsConcat(a + b, c);
    WriteArgsConcat(a + b + c, d);
    WriteArgsConcat(a + b + c + d, f);
    WriteArgsConcat(a + b + c + d + f, g);
    WriteArgsConcat(a + b + c + d + f + g, h);
    EndPartsText(e);
  }

  lemma {:induction false} StopIsText(stop: string)
    requires stop != "" ==> IsName(stop)
    ensures CText(stop) == stop
  {
    if stop != "" {
      TokenIsText(stop);
    }
  }

  /** Each part of an ending, as an argument and as it is put together. */
  lemma {:induction false} EndPartsText(e: Ending)
    requires e.watermark.Some? ==> !e.watermark.value.Block?
    ensures WriteArgs([Bare("complete")]) == " complete"
        && WriteArgs(IfAny(e.exact, Bare("exact"))) == if e.exact then " exact" else ""
    ensures WriteArgs(MaybeNamed("watermark", e.watermark))
         == if e.watermark.None? then "" else " watermark=" + EncValue(e.watermark.value)
    ensures WriteArgs(if e.stop == "" then [] else [Bare(e.stop)]) == if e.stop == "" then "" else " " + e.stop
    ensures WriteArgs(if e.error.None? then [] else [Named("error", Str(e.error.value))])
         == if e.error.None? then "" else " error=" + Quote(e.error.value)
    ensures WriteArgs(if e.first.None? || !Fits(e.first.value) then [] else [Named("first", Int(e.first.value))])
         == if e.first.None? || !Fits(e.first.value) then "" else " first=" + IntText(e.first.value)
    ensures WriteArgs(if (e.total == 0 && !e.exact) || !Fits(e.total) then [] else [Named("total", Int(e.total))])
         == if (e.total == 0 && !e.exact) || !Fits(e.total) then "" else " total=" + IntText(e.total)
  {
    hide IntText, Quote, WriteArgs;
    NoArgsText();
    BareIsText("complete");
    BareIsText("exact");
    if e.watermark.Some? {
      NamedArgText("watermark", e.watermark.value);
      ValueIsText(e.watermark.value);
      assert " " + "watermark" + "=" == " watermark=";
    }
    if e.stop != "" {
      BareIsText(e.stop);
    }
    if e.error.Some? {
      NamedArgText("error", Str(e.error.value));
      assert " " + "error" + "=" == " error=";
    }
    if e.first.Some? && Fits(e.first.value) {
      NamedArgText("first", Int(e.first.value));
      assert " " + "first" + "=" == " first=";
    }
    if Fits(e.total) {
      NamedArgText("total", Int(e.total));
      assert " " + "total" + "=" == " total=";
    }
  }

  lemma {:induction false} NoArgsText()
    ensures WriteArgs([]) == ""
  {}

  lemma {:induction false} BareIsText(name: string)
    ensures WriteArgs([Bare(name)]) == " " + name
  {
    WriteArgsOne(Bare(name));
  }

  lemma {:induction false} NamedArgText(name: string, v: Value)
    requires name != ""
    ensures WriteArgs([Named(name, v)]) == " " + name + "=" + WriteValue(v)
  {
    hide WriteValue;
    WriteArgsOne(Named(name, v));
    NamedIsText(name, v);
    Regroup(" ", name + "=", WriteValue(v));
    Regroup(" ", name, "=");
  }

  /** What the sink puts together is the spelling of its statement. */
  lemma {:induction false} LineIsTree(query: Int64, l: Line)
    requires SpellableLine(l)
    ensures LineText(query, l) == WriteStmt(Tree(query, l))
  {
    hide RecordText, EndText, RecordArgs, EndArgs, IntText, WriteArgs, SpellableLine;
    var a, b := [Operand(Int(query))], IfAny(l.ordered, Bare("ordered"));
    var c, d := RecordArgs(l), if l.end.None? then [] else EndArgs(l.end.value);
    WriteArgsConcat(a, b);
    WriteArgsConcat(a + b, c);
    WriteArgsConcat(a + b + c, d);
    HeadParts(query, l.ordered);
    RecordIsArgs(l);
    NoArgsText();
    if l.end.Some? {
      EndOfLineIsArgs(l);
    }
    HeadJoins(if l.place then "place" else "result", IntText(query), if l.ordered then " ordered" else "",
              WriteArgs(c), WriteArgs(d));
  }

  lemma {:induction false} EndOfLineIsArgs(l: Line)
    requires SpellableLine(l) && l.end.Some?
    ensures EndText(l.end.value) == WriteArgs(EndArgs(l.end.value))
  {
    hide EndText, EndArgs;
    EndIsArgs(l.end.value);
  }

  lemma {:induction false} HeadParts(query: Int64, ordered: bool)
    ensures WriteArgs([Operand(Int(query))]) == " " + IntText(query)
    ensures WriteArgs(IfAny(ordered, Bare("ordered"))) == if ordered then " ordered" else ""
  {
    hide IntText;
    WriteArgsOne(Operand(Int(query)));
    BareIsText("ordered");
    assert "" + IntText(query) == IntText(query);
  }

  lemma {:induction false} HeadJoins(verb: string, query: string, ordered: string, record: string, end: string)
    ensures "" + verb + (" " + query + ordered + record + end) == verb + " " + query + ordered + record + end
    ensures "place" + " " == "place " && "result" + " " == "result "
  {}

  lemma {:induction false} BytesAreLines(query: Int64, ls: seq<Line>)
    requires forall l :: l in ls ==> SpellableLine(l)
    ensures Bytes(query, ls) == Lines(Trees(query, ls))
  {
    hide LineText, Tree, WriteStmt, SpellableLine;
    if ls != [] {
      assert ls[0] in ls && forall l :: l in ls[1..] ==> l in ls;
      LineIsTree(query, ls[0]);
      BytesAreLines(query, ls[1..]);
      assert Trees(query, ls)[1..] == Trees(query, ls[1..]);
    }
  }

  /** Wherever it was cut into messages, the display frames and parses the bytes of an
      answer into exactly its statements, in order. */
  lemma {:induction false} AnswerArrives(query: Int64, ls: seq<Line>)
    requires forall l :: l in ls ==> SpellableLine(l)
    ensures Receive(Frames(Bytes(query, ls))) == Trees(query, ls)
  {
    TreesGood(query, ls);
    BytesAreLines(query, ls);
    PrintFrameParse(Trees(query, ls));
  }
}
