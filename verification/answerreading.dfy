/**
 Reading an answer back: from the statement that arrives, by the names of its arguments,
 everything the sink was told -- the record, its counts, and how the answer ended.
 */
module AnswerReading {
  import opened Text
  import opened Tokens
  import opened Quoting
  import opened Syntax
  import opened Query
  import opened Reader
  import opened FilterSpelling
  import opened DescriptorSpelling
  import opened Sink

  // ----- positions -----

  lemma {:induction false} DecimalIsIndex(n: nat)
    ensures IsIndexText(Decimal(n))
  {
    if n >= 10 {
      DecimalIsIndex(n / 10);
      SmallDecimal(n / 10);
    }
  }

  lemma {:induction false} SmallDecimal(n: nat)
    requires n > 0
    ensures Decimal(n)[0] != '0'
  {
    if n >= 10 {
      SmallDecimal(n / 10);
    }
  }

  lemma {:induction false} IndexIsDecimal(s: string)
    requires IsIndexText(s)
    ensures Decimal(Text.Value(s)) == s
  {
    var n := |s| - 1;
    if n == 0 {
      assert s == [s[0]] && s[..0] == "";
    } else {
      IndexIsDecimal(s[..n]);
      LastDigit(s);
    }
  }

  lemma {:induction false} LastDigit(s: string)
    requires IsIndexText(s) && |s| > 1
    requires Decimal(Text.Value(s[..|s| - 1])) == s[..|s| - 1]
    ensures Decimal(Text.Value(s)) == s
  {
    var n, d := |s| - 1, s[|s| - 1] as int - '0' as int;
    var v := Text.Value(s[..n]);
    assert s[0] != '0' && 0 <= d < 10 && s[..n] != "0";
    hide IsIndexText;
    assert Text.Value(s) == v * 10 + d;
    assert Decimal(v * 10 + d) == Decimal(v) + [s[n]];
    assert s == s[..n] + [s[n]];
  }

  /** A name stands for a position exactly when it is one in decimal, with a dot before it
      or without. */
  lemma {:induction false} PositionsAre(name: string)
    ensures IsMemberIndex(name) <==> exists n: nat :: name == Decimal(n) || name == "." + Decimal(n)
  {
    if IsMemberIndex(name) {
      var s := if name != "" && name[0] == '.' then name[1..] else name;
      IndexIsDecimal(s);
      assert name == s || name == "." + s;
    }
    forall n: nat ensures IsMemberIndex(Decimal(n)) && IsMemberIndex("." + Decimal(n)) {
      DecimalIsIndex(n);
      assert ("." + Decimal(n))[1..] == Decimal(n);
    }
  }

  // ----- a result, by the names of its arguments -----

  /** The value of the first argument of a name that has one. */
  function NamedValue(args: seq<Arg>, name: string): Option<Value> {
    if args == [] then None
    else if args[0].name == name && args[0].value.Some? then args[0].value
    else NamedValue(args[1..], name)
  }

  /** Whether a name is asserted among the arguments. */
  predicate IsSaid(args: seq<Arg>, name: string) {
    exists a :: a in args && a.name == name && a.value.None? && a.flag == Asserted
  }

  function Count(args: seq<Arg>, name: string): nat {
    match NamedValue(args, name)
    case Some(Int(i)) => if i >= 0 then i else 0
    case _ => 0
  }

  function FieldsNamed(args: seq<Arg>, name: string): seq<Field> {
    match NamedValue(args, name)
    case Some(Block(b)) => (match ReadFields(b) case Ok(fields) => fields case Refused(_) => [])
    case _ => []
  }

  const STOPS := ["filled", "joined", "exhausted"]

  function StopSaid(args: seq<Arg>): string {
    if IsSaid(args, "filled") then "filled"
    else if IsSaid(args, "joined") then "joined"
    else if IsSaid(args, "exhausted") then "exhausted"
    else ""
  }

  function ErrorSaid(args: seq<Arg>): Option<string> {
    match NamedValue(args, "error")
    case Some(Str(s)) => Some(s)
    case _ => None
  }

  function FirstSaid(args: seq<Arg>): Option<nat> {
    match NamedValue(args, "first")
    case Some(Int(i)) => if i >= 0 then Some(i) else None
    case _ => None
  }

  function EndSaid(args: seq<Arg>): Option<Ending> {
    if !IsSaid(args, "complete") then None
    else
      Some(Ending(StopSaid(args), NamedValue(args, "watermark"), ErrorSaid(args), FirstSaid(args),
                  Count(args, "total"), IsSaid(args, "exact")))
  }

  function ReadResult(st: Stmt): Line {
    var args := st.args;
    var whole := NamedValue(args, "record").Some?;
    Line(st.verb == "place", IsSaid(args, "ordered"), NamedValue(args, "id"), whole,
         Totals(Count(args, "map"), Count(args, "len")),
         FieldsNamed(args, if whole then "record" else "fields"), EndSaid(args))
  }

  // ----- what the sink's statements say -----

  /** A line as the sink makes them: counts on a subset alone, nothing of a record where
      none is named, and figures that fit. */
  predicate Made(l: Line) {
    && (l.id.None? ==> !l.whole && l.has == Totals(0, 0) && l.fields == [])
    && (l.whole || l.place ==> l.has == Totals(0, 0)) && !(l.whole && l.place)
    && Fits(l.has.named) && Fits(l.has.ordered) && SpellableBag(l.fields)
    && (l.end.Some? ==>
          var e := l.end.value;
          (e.stop == "" || e.stop in STOPS) && Fits(e.total) && (e.first.Some? ==> Fits(e.first.value)))
  }

  lemma {:induction false} ValueConcat(a: seq<Arg>, b: seq<Arg>, name: string)
    ensures NamedValue(a + b, name) == if NamedValue(a, name).Some? then NamedValue(a, name) else NamedValue(b, name)
  {
    if a == [] {
      assert a + b == b;
    } else {
      assert (a + b)[0] == a[0] && (a + b)[1..] == a[1..] + b;
      ValueConcat(a[1..], b, name);
    }
  }

  lemma {:induction false} SaidConcat(a: seq<Arg>, b: seq<Arg>, name: string)
    ensures IsSaid(a + b, name) <==> IsSaid(a, name) || IsSaid(b, name)
  {
    assert forall x :: x in a + b <==> x in a || x in b;
  }

  lemma {:induction false} OneNamed(n: string, v: Value, name: string)
    ensures NamedValue([Named(n, v)], name) == (if n == name then Some(v) else None) && !IsSaid([Named(n, v)], name)
    ensures NamedValue([], name) == None && !IsSaid([], name)
  {
    assert [Named(n, v)][1..] == [];
  }

  lemma {:induction false} OneBare(n: string, name: string)
    ensures NamedValue([Bare(n)], name) == None && (IsSaid([Bare(n)], name) <==> n == name)
  {
    assert [Bare(n)][1..] == [] && Bare(n) in [Bare(n)];
  }

  lemma {:induction false} OneOperand(v: Value, name: string)
    requires name != ""
    ensures NamedValue([Operand(v)], name) == None && !IsSaid([Operand(v)], name)
  {
    assert [Operand(v)][1..] == [];
  }

  /** The value a record's line gives a name. */
  function RecordValue(l: Line, name: string): Option<Value> {
    if l.id.None? then None
    else if name == "id" then l.id
    else if name == (if l.whole && !l.place then "record" else "fields") then Some(Block(BagStmts(l.fields)))
    else if l.whole || l.place then None
    else if name == "map" then Figure(l.has.named)
    else if name == "len" then Figure(l.has.ordered)
    else None
  }

  function Figure(n: nat): Option<Value> {
    if n > 0 && Fits(n) then Some(Int(n)) else None
  }

  /** What the arguments about a record say of each name. */
  lemma {:induction false} RecordSays(l: Line, name: string)
    ensures !IsSaid(RecordArgs(l), name)
    ensures NamedValue(RecordArgs(l), name) == RecordValue(l, name)
  {
    hide BagStmts, IsSaid, NamedValue;
    OneNamed("", Int(0), name);
    if l.id.Some? {
      var bag := Block(BagStmts(l.fields));
      var what := if l.whole && !l.place then "record" else "fields";
      var a, b := [Named("id", l.id.value)], [Named(what, bag)];
      OneNamed("id", l.id.value, name);
      OneNamed(what, bag, name);
      ValueConcat(a, b, name);
      SaidConcat(a, b, name);
      assert a + b == [Named("id", l.id.value), Named(what, bag)];
      if !l.whole && !l.place {
        FigureSays("map", l.has.named, name);
        FigureSays("len", l.has.ordered, name);
        ValueConcat(a + b, NumberArg("map", l.has.named), name);
        SaidConcat(a + b, NumberArg("map", l.has.named), name);
        ValueConcat(a + b + NumberArg("map", l.has.named), NumberArg("len", l.has.ordered), name);
        SaidConcat(a + b + NumberArg("map", l.has.named), NumberArg("len", l.has.ordered), name);
      }
    }
  }

  lemma {:induction false} FigureSays(n: string, figure: nat, name: string)
    ensures !IsSaid(NumberArg(n, figure), name)
    ensures NamedValue(NumberArg(n, figure), name) ==
              if n == name && figure > 0 && Fits(figure) then Some(Int(figure)) else None
  {
    hide IsSaid, NamedValue;
    OneNamed(n, Int(0), name);
    if figure > 0 && Fits(figure) {
      OneNamed(n, Int(figure), name);
    }
  }

  /** What an argument says that stands there where it has a value. */
  lemma {:induction false} PartSays(part: seq<Arg>, n: string, v: Option<Value>, name: string)
    requires part == if v.None? then [] else [Named(n, v.value)]
    ensures NamedValue(part, name) == (if n == name then v else None) && !IsSaid(part, name)
  {
    hide IsSaid, NamedValue;
    OneNamed(n, Int(0), name);
    if v.Some? {
      OneNamed(n, v.value, name);
    }
  }

  lemma {:induction false} WordSays(part: seq<Arg>, n: string, said: bool, name: string)
    requires part == if said then [Bare(n)] else []
    ensures NamedValue(part, name) == None && (IsSaid(part, name) <==> said && n == name)
  {
    hide IsSaid, NamedValue;
    OneNamed(n, Int(0), name);
    OneBare(n, name);
  }

  function FirstSome(a: Option<Value>, b: Option<Value>): Option<Value> {
    if a.Some? then a else b
  }

  lemma {:induction false} PartsSay(a: seq<Arg>, b: seq<Arg>, c: seq<Arg>, d: seq<Arg>, name: string)
    ensures NamedValue(a + b + c + d, name) ==
              FirstSome(NamedValue(a, name),
                        FirstSome(NamedValue(b, name), FirstSome(NamedValue(c, name), NamedValue(d, name))))
    ensures IsSaid(a + b + c + d, name) <==>
              IsSaid(a, name) || IsSaid(b, name) || IsSaid(c, name) || IsSaid(d, name)
  {
    hide IsSaid, NamedValue;
    ConcatSays(a, b, name);
    ConcatSays(a + b, c, name);
    ConcatSays(a + b + c, d, name);
  }

  /** The value an ending gives a name. */
  function EndValue(e: Ending, name: string): Option<Value> {
    if name == "watermark" then e.watermark
    else if name == "error" then (if e.error.Some? then Some(Str(e.error.value)) else None)
    else if name == "first" then (if e.first.Some? && Fits(e.first.value) then Some(Int(e.first.value)) else None)
    else if name == "total" then (if (e.total > 0 || e.exact) && Fits(e.total) then Some(Int(e.total)) else None)
    else None
  }

  predicate EndWord(e: Ending, name: string) {
    name == "complete" || (e.stop != "" && name == e.stop) || (name == "exact" && e.exact)
  }

  /** What the arguments about an ending say of each name. */
  lemma {:induction false} EndSays(e: Ending, name: string)
    ensures NamedValue(EndArgs(e), name) == EndValue(e, name)
    ensures IsSaid(EndArgs(e), name) <==> EndWord(e, name)
  {
    hide IsSaid, NamedValue, Fits;
    var a, b := EndHead(e), EndTail(e);
    HeadSays(e, name);
    TailSays(e, name);
    ConcatSays(a, b, name);
    EndIsBoth(e);
    hide EndArgs, EndHead, EndTail;
  }

  function EndHead(e: Ending): seq<Arg> {
    [Bare("complete")]
    + MaybeNamed("watermark", e.watermark)
    + (if e.stop == "" then [] else [Bare(e.stop)])
    + (if e.error.None? then [] else [Named("error", Str(e.error.value))])
  }

  function EndTail(e: Ending): seq<Arg> {
    (if e.first.None? || !Fits(e.first.value) then [] else [Named("first", Int(e.first.value))])
    + (if (e.total == 0 && !e.exact) || !Fits(e.total) then [] else [Named("total", Int(e.total))])
    + IfAny(e.exact, Bare("exact"))
  }

  lemma {:induction false} EndIsBoth(e: Ending)
    ensures EndArgs(e) == EndHead(e) + EndTail(e)
  {}

  lemma {:induction false} HeadSays(e: Ending, name: string)
    ensures NamedValue(EndHead(e), name) == if name in ["watermark", "error"] then EndValue(e, name) else None
    ensures IsSaid(EndHead(e), name) <==> name == "complete" || (e.stop != "" && name == e.stop)
  {
    hide IsSaid, NamedValue;
    var error := if e.error.None? then None else Some(Str(e.error.value));
    var b, c := MaybeNamed("watermark", e.watermark), if e.stop == "" then [] else [Bare(e.stop)];
    var d := if e.error.None? then [] else [Named("error", Str(e.error.value))];
    WordSays([Bare("complete")], "complete", true, name);
    PartSays(b, "watermark", e.watermark, name);
    WordSays(c, e.stop, e.stop != "", name);
    PartSays(d, "error", error, name);
    PartsSay([Bare("complete")], b, c, d, name);
  }

  lemma {:induction false} TailSays(e: Ending, name: string)
    ensures NamedValue(EndTail(e), name) == if name in ["first", "total"] then EndValue(e, name) else None
    ensures IsSaid(EndTail(e), name) <==> name == "exact" && e.exact
  {
    hide IsSaid, NamedValue;
    var first := if e.first.None? || !Fits(e.first.value) then None else Some(Int(e.first.value));
    var total := if (e.total == 0 && !e.exact) || !Fits(e.total) then None else Some(Int(e.total));
    var f := if e.first.None? || !Fits(e.first.value) then [] else [Named("first", Int(e.first.value))];
    var g := if (e.total == 0 && !e.exact) || !Fits(e.total) then [] else [Named("total", Int(e.total))];
    var h := IfAny(e.exact, Bare("exact"));
    PartSays(f, "first", first, name);
    PartSays(g, "total", total, name);
    WordSays(h, "exact", e.exact, name);
    ConcatSays(f, g, name);
    ConcatSays(f + g, h, name);
  }

  lemma {:induction false} ConcatSays(a: seq<Arg>, b: seq<Arg>, name: string)
    ensures NamedValue(a + b, name) == if NamedValue(a, name).Some? then NamedValue(a, name) else NamedValue(b, name)
    ensures IsSaid(a + b, name) <==> IsSaid(a, name) || IsSaid(b, name)
  {
    ValueConcat(a, b, name);
    SaidConcat(a, b, name);
  }

  /** The arguments about the ending, where there is one. */
  function Closing(l: Line): seq<Arg> {
    if l.end.None? then [] else EndArgs(l.end.value)
  }

  /** What a whole statement says of each name. */
  lemma {:induction false} TreeSays(query: Int64, l: Line, name: string)
    requires name != ""
    ensures var args := Tree(query, l).args;
            && NamedValue(args, name) == FirstSome(NamedValue(RecordArgs(l), name), NamedValue(Closing(l), name))
            && (IsSaid(args, name) <==> (name == "ordered" && l.ordered) || IsSaid(Closing(l), name))
  {
    hide IsSaid, NamedValue, RecordArgs, EndArgs;
    var a, b := [Operand(Int(query))], IfAny(l.ordered, Bare("ordered"));
    OneOperand(Int(query), name);
    WordSays(b, "ordered", l.ordered, name);
    NeverSaid(l, name);
    PartsSay(a, b, RecordArgs(l), Closing(l), name);
    assert Tree(query, l).args == a + b + RecordArgs(l) + Closing(l);
    hide Tree, Closing, IfAny;
  }

  lemma {:induction false} NeverSaid(l: Line, name: string)
    ensures !IsSaid(RecordArgs(l), name)
  {
    RecordSays(l, name);
    hide IsSaid, RecordArgs;
  }

  lemma {:induction false} ClosingSays(l: Line, name: string)
    ensures NamedValue(Closing(l), name) == if l.end.None? then None else EndValue(l.end.value, name)
    ensures IsSaid(Closing(l), name) <==> l.end.Some? && EndWord(l.end.value, name)
  {
    hide IsSaid, NamedValue, EndArgs, EndValue, EndWord;
    OneNamed("", Int(0), name);
    if l.end.Some? {
      EndSays(l.end.value, name);
    }
  }

  /** Everything on a line the sink makes is read back from its statement, and the query
      it answers is what the statement opens with. */
  lemma {:induction false} ResultReads(query: Int64, l: Line)
    requires Made(l)
    ensures |Tree(query, l).args| > 0 && Tree(query, l).args[0] == Operand(Int(query))
    ensures Tree(query, l).verb == (if l.place then "place" else "result") && Tree(query, l).key == ""
    ensures ReadResult(Tree(query, l)) == l
  {
    hide Tree, NamedValue, IsSaid, FieldsNamed, EndSaid, Count, Made;
    Opens(query, l);
    RecordReads(query, l);
    EndReads(query, l);
    OrderedReads(query, l);
  }

  lemma {:induction false} OrderedReads(query: Int64, l: Line)
    requires Made(l)
    ensures IsSaid(Tree(query, l).args, "ordered") <==> l.ordered
  {
    hide Tree, NamedValue, IsSaid, EndArgs, RecordArgs, EndValue, SpellableBag;
    TreeSays(query, l, "ordered");
    ClosingSays(l, "ordered");
  }

  lemma {:induction false} Opens(query: Int64, l: Line)
    ensures Tree(query, l).args != [] && Tree(query, l).args[0] == Operand(Int(query))
    ensures Tree(query, l).verb == (if l.place then "place" else "result") && Tree(query, l).key == ""
  {}

  lemma {:induction false} RecordReads(query: Int64, l: Line)
    requires Made(l)
    ensures var args := Tree(query, l).args;
            && NamedValue(args, "id") == l.id && NamedValue(args, "record").Some? == l.whole
            && FieldsNamed(args, if l.whole then "record" else "fields") == l.fields
            && Count(args, "map") == l.has.named && Count(args, "len") == l.has.ordered
  {
    hide Tree, NamedValue, IsSaid, BagStmts, RecordArgs, EndArgs, ReadFields;
    BagFacts(l.fields);
    TellsRecord(query, l, "id");
    TellsRecord(query, l, "record");
    TellsRecord(query, l, "fields");
    TellsRecord(query, l, "map");
    TellsRecord(query, l, "len");
  }

  /** Nothing in an ending has the name of anything about a record. */
  lemma {:induction false} TellsRecord(query: Int64, l: Line, name: string)
    requires name in ["id", "record", "fields", "map", "len"]
    ensures NamedValue(Tree(query, l).args, name) == RecordValue(l, name)
  {
    hide Tree, NamedValue, IsSaid, BagStmts, RecordArgs, Closing;
    TreeSays(query, l, name);
    RecordSays(l, name);
    ClosingSays(l, name);
  }

  lemma {:induction false} EndReads(query: Int64, l: Line)
    requires Made(l)
    ensures EndSaid(Tree(query, l).args) == l.end
  {
    hide Tree, NamedValue, IsSaid, Made, EndValue, EndWord, StopSaid, Count, ErrorSaid, FirstSaid;
    CompleteReads(query, l);
    if l.end.Some? {
      StopReads(query, l);
      FiguresRead(query, l);
      OthersRead(query, l);
    }
  }

  lemma {:induction false} CompleteReads(query: Int64, l: Line)
    ensures IsSaid(Tree(query, l).args, "complete") <==> l.end.Some?
  {
    hide Tree, NamedValue, IsSaid, EndValue;
    TellsEnd(query, l, "complete");
  }

  lemma {:induction false} FiguresRead(query: Int64, l: Line)
    requires Made(l) && l.end.Some?
    ensures var args, e := Tree(query, l).args, l.end.value;
            && FirstSaid(args) == e.first && Count(args, "total") == e.total && (IsSaid(args, "exact") <==> e.exact)
  {
    hide Tree, NamedValue, IsSaid, SpellableBag;
    TellsEnd(query, l, "first");
    TellsEnd(query, l, "total");
    TellsEnd(query, l, "exact");
  }

  lemma {:induction false} OthersRead(query: Int64, l: Line)
    requires l.end.Some?
    ensures var args, e := Tree(query, l).args, l.end.value;
            && NamedValue(args, "watermark") == e.watermark && ErrorSaid(args) == e.error
  {
    hide Tree, NamedValue, IsSaid;
    TellsEnd(query, l, "watermark");
    TellsEnd(query, l, "error");
  }

  lemma {:induction false} StopReads(query: Int64, l: Line)
    requires Made(l) && l.end.Some?
    ensures StopSaid(Tree(query, l).args) == l.end.value.stop
  {
    hide Tree, NamedValue, IsSaid, EndValue, SpellableBag;
    TellsEnd(query, l, "filled");
    TellsEnd(query, l, "joined");
    TellsEnd(query, l, "exhausted");
  }

  /** Nothing about a record has the name of anything in an ending. */
  lemma {:induction false} TellsEnd(query: Int64, l: Line, name: string)
    requires name in ["complete", "watermark", "error", "first", "total", "exact", "filled", "joined", "exhausted"]
    ensures NamedValue(Tree(query, l).args, name) == if l.end.None? then None else EndValue(l.end.value, name)
    ensures IsSaid(Tree(query, l).args, name) <==> l.end.Some? && EndWord(l.end.value, name)
  {
    hide Tree, NamedValue, IsSaid, BagStmts, RecordArgs, Closing, EndValue, EndWord;
    TreeSays(query, l, name);
    RecordSays(l, name);
    ClosingSays(l, name);
  }
}
