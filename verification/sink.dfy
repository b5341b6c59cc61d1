/**
 The sink an answer is written into (`client/query.go`, and `kt_fill` in the C
 client, whose spelling of each statement is the one used here).

 One record is held back for the terminator to ride on, what accumulates goes out
 by size, and under `extend` a result leaves out what its place already carried.
 `Do` says what each call does to the answer as a run of statements; the class
 `Fill` is the source's sink, with its buffer, and sends bytes.
 */
module Sink {
  import opened Text
  import opened Tokens
  import opened Quoting
  import opened Syntax
  import opened Query
  import opened FilterSpelling
  import opened DescriptorSpelling
  import opened Framing

  /** How many members a record has, by name and by position. */
  datatype Totals = Totals(named: nat, ordered: nat)

  /** How an answer ended, and what rides on whatever ends it. */
  datatype Ending = Ending(
    stop: string, watermark: Option<Value>, error: Option<string>, first: Option<nat>, total: nat, exact: bool)

  /** One statement of an answer. A result with no identity is a terminator alone, and
      a place with none says the order is settled. */
  datatype Line = Line(
    place: bool, ordered: bool, id: Option<Value>, whole: bool, has: Totals, fields: seq<Field>, end: Option<Ending>)

  // ----- what a statement looks like on the wire -----

  /** A figure fits the integers of the wire; no sequence is so long that one does not. */
  predicate Fits(n: nat) {
    n < 0x8000_0000_0000_0000
  }

  /** A count of nothing is not written. */
  function NumberArg(name: string, n: nat): seq<Arg> {
    if n == 0 || !Fits(n) then [] else [Named(name, Int(n))]
  }

  function RecordArgs(l: Line): seq<Arg> {
    if l.id.None? then []
    else if l.place then [Named("id", l.id.value), Named("fields", Block(BagStmts(l.fields)))]
    else if l.whole then [Named("id", l.id.value), Named("record", Block(BagStmts(l.fields)))]
    else
      [Named("id", l.id.value), Named("fields", Block(BagStmts(l.fields)))]
      + NumberArg("map", l.has.named) + NumberArg("len", l.has.ordered)
  }

  function EndArgs(e: Ending): seq<Arg> {
    [Bare("complete")]
    + MaybeNamed("watermark", e.watermark)
    + (if e.stop == "" then [] else [Bare(e.stop)])
    + (if e.error.None? then [] else [Named("error", Str(e.error.value))])
    + (if e.first.None? || !Fits(e.first.value) then [] else [Named("first", Int(e.first.value))])
    + (if (e.total == 0 && !e.exact) || !Fits(e.total) then [] else [Named("total", Int(e.total))])
    + IfAny(e.exact, Bare("exact"))
  }

  function Tree(query: Int64, l: Line): Stmt {
    Stmt("", if l.place then "place" else "result",
         [Operand(Int(query))] + IfAny(l.ordered, Bare("ordered")) + RecordArgs(l)
         + (if l.end.None? then [] else EndArgs(l.end.value)))
  }

  function Trees(query: Int64, ls: seq<Line>): seq<Stmt> {
    if ls == [] then [] else [Tree(query, ls[0])] + Trees(query, ls[1..])
  }

  /** A figure as it is written out, where it is. */
  function FigureText(name: string, n: nat): string {
    if n == 0 || !Fits(n) then "" else " " + name + "=" + IntText(n)
  }

  function RecordText(l: Line): string {
    if l.id.None? then ""
    else
      " id=" + EncValue(l.id.value)
      + " " + (if l.whole && !l.place then "record" else "fields") + "=" + EncBag(l.fields)
      + if l.whole || l.place then "" else FigureText("map", l.has.named) + FigureText("len", l.has.ordered)
  }

  function EndText(e: Ending): string {
    " complete"
    + (if e.watermark.None? then "" else " watermark=" + EncValue(e.watermark.value))
    + (if CText(e.stop) == "" then "" else " " + CText(e.stop))
    + (if e.error.None? then "" else " error=" + Quote(e.error.value))
    + (if e.first.None? || !Fits(e.first.value) then "" else " first=" + IntText(e.first.value))
    + (if (e.total == 0 && !e.exact) || !Fits(e.total) then "" else " total=" + IntText(e.total))
    + (if e.exact then " exact" else "")
  }

  /** The text of a statement, as the C sink puts it together. */
  function LineText(query: Int64, l: Line): string {
    (if l.place then "place " else "result ") + IntText(query) + (if l.ordered then " ordered" else "")
    + RecordText(l) + (if l.end.None? then "" else EndText(l.end.value))
  }

  /** The statements as they cross, each ended by its newline. */
  function Bytes(query: Int64, ls: seq<Line>): string {
    if ls == [] then "" else LineText(query, ls[0]) + "\n" + Bytes(query, ls[1..])
  }

  // ----- members -----

  predicate IsIndexText(s: string) {
    s != "" && (forall k :: 0 <= k < |s| ==> IsDigit(s[k])) && (s[0] == '0' ==> |s| == 1)
  }

  /** A name that is a position written out, as in `0` or `.2`. */
  predicate IsMemberIndex(name: string) {
    IsIndexText(if name != "" && name[0] == '.' then name[1..] else name)
  }

  /** A member's name as it is compared and as it crosses: a C string. */
  function NameOf(f: Field): string {
    CText(f.name)
  }

  /** The members a record carries; an absence is not one. */
  function Tally(fields: seq<Field>): Totals {
    if fields == [] then Totals(0, 0)
    else
      var t := Tally(fields[1..]);
      if fields[0].value.None? then t
      else if IsMemberIndex(NameOf(fields[0])) then t.(ordered := t.ordered + 1)
      else t.(named := t.named + 1)
  }

  predicate HasName(fields: seq<Field>, name: string) {
    exists f :: f in fields && NameOf(f) == name
  }

  /** A record without the members another already carried, by name. */
  function Lacking(fields: seq<Field>, already: seq<Field>): seq<Field> {
    if fields == [] then []
    else (if HasName(already, NameOf(fields[0])) then [] else [fields[0]]) + Lacking(fields[1..], already)
  }

  // ----- what each call does to the answer -----

  datatype Call =
    | Record(id: Value, fields: seq<Field>)
    | Subset(id: Value, has: Totals, fields: seq<Field>)
    | Place(id: Value, fields: seq<Field>)
    | Placed(stop: string, watermark: Option<Value>)
    | Ordered
    | Total(n: nat, exact: bool)
    | First(at: nat)
    | Flush
    | End(stop: string, watermark: Option<Value>, error: Option<string>)

  /** `lines` is everything emitted so far, in order, sent or still in the buffer. */
  datatype State = State(
    lines: seq<Line>, waiting: Option<Line>, records: nat, ordered: bool, first: Option<nat>,
    total: nat, exact: bool, closed: bool, placed: map<string, seq<Field>>)

  const OPEN := State([], None, 0, false, None, 0, false, false, map[])

  /** What identifies a place to the result that leans on it: how it is written. */
  function PlacedKey(id: Value): string {
    EncValue(id)
  }

  function ResultLine(s: State, extend: bool, id: Value, whole: bool, has: Totals, fields: seq<Field>): Line {
    var ordered := s.ordered && s.records == 0;
    if extend && PlacedKey(id) in s.placed then
      Line(false, ordered, Some(id), false, if whole then Tally(fields) else has,
           Lacking(fields, s.placed[PlacedKey(id)]), None)
    else Line(false, ordered, Some(id), whole, has, fields, None)
  }

  function NamedPlace(id: Value, fields: seq<Field>): Line {
    Line(true, false, Some(id), false, Totals(0, 0), fields, None)
  }

  function PlaceLine(s: State, id: Value, fields: seq<Field>): Line {
    NamedPlace(id, fields).(ordered := s.ordered && s.records == 0)
  }

  function PlacedLine(stop: string, watermark: Option<Value>): Line {
    Line(true, false, None, false, Totals(0, 0), [], Some(Ending(stop, watermark, None, None, 0, false)))
  }

  function Held(s: State): seq<Line> {
    if s.waiting.Some? then [s.waiting.value] else []
  }

  function EndOf(s: State, c: Call): Ending
    requires c.End?
  {
    Ending(c.stop, c.watermark, c.error, s.first, s.total, s.exact)
  }

  /** The terminator rides on the record held back, where there is one. */
  function LastLine(s: State, c: Call): Line
    requires c.End?
  {
    if s.waiting.Some? then s.waiting.value.(end := Some(EndOf(s, c)))
    else Line(false, s.ordered && s.records == 0, None, false, Totals(0, 0), [], Some(EndOf(s, c)))
  }

  function HoldBack(s: State, l: Line): State {
    s.(lines := s.lines + Held(s), waiting := Some(l), records := s.records + 1)
  }

  /** A place goes out at once, behind whatever record was held back. One that names a
      record counts as one, and is remembered where it may be leaned on. */
  function PlaceAdded(s: State, extend: bool, place: Line, fields: seq<Field>): State {
    var named := place.id.Some?;
    s.(lines := s.lines + Held(s) + [place.(ordered := named && s.ordered && s.records == 0)],
       waiting := None, records := if named then s.records + 1 else s.records,
       placed := if named && extend then s.placed[PlacedKey(place.id.value) := fields] else s.placed)
  }

  function Do(s: State, extend: bool, c: Call): State {
    if s.closed then s
    else match c
      case Record(id, fields) => HoldBack(s, ResultLine(s, extend, id, true, Totals(0, 0), fields))
      case Subset(id, has, fields) => HoldBack(s, ResultLine(s, extend, id, false, has, fields))
      case Place(id, fields) => PlaceAdded(s, extend, NamedPlace(id, fields), fields)
      case Placed(stop, watermark) => PlaceAdded(s, extend, PlacedLine(stop, watermark), [])
      case Ordered => if s.records > 0 then s else s.(ordered := true)
      case Total(n, exact) => s.(total := n, exact := exact)
      case First(at) => s.(first := Some(at))
      case Flush => s.(lines := s.lines + Held(s), waiting := None)
      case End(_, _, _) => s.(lines := s.lines + [LastLine(s, c)], waiting := None, closed := true)
  }

  function Run(s: State, extend: bool, calls: seq<Call>): State
    decreases |calls|
  {
    if calls == [] then s else Run(Do(s, extend, calls[0]), extend, calls[1..])
  }

  // ----- the sink -----

  lemma {:induction false} BytesConcat(query: Int64, a: seq<Line>, l: Line)
    ensures Bytes(query, a + [l]) == Bytes(query, a) + LineText(query, l) + "\n"
  {
    hide LineText;
    if a == [] {
      assert a + [l] == [l] && [l][1..] == [];
      assert "" + LineText(query, l) + "\n" == LineText(query, l) + "\n" + "";
    } else {
      assert (a + [l])[0] == a[0] && (a + [l])[1..] == a[1..] + [l];
      BytesConcat(query, a[1..], l);
      var w := LineText(query, a[0]) + "\n";
      Regroup(w, Bytes(query, a[1..]) + LineText(query, l), "\n");
      Regroup(w, Bytes(query, a[1..]), LineText(query, l));
    }
  }

  /** Puts a statement's text together, part by part (`fill_write`, `place_write`,
      `fill_finish`). */
  method SpellLine(query: Int64, l: Line) returns (text: string)
    ensures text == LineText(query, l)
  {
    hide EncValue, EncBag, IntText, RecordText, EndText;
    var b := new Buffer();
    b.Puts(if l.place then "place " else "result ");
    b.Puts(IntText(query));
    if l.ordered {
      b.Puts(" ordered");
    }
    ghost var head :=
      (if l.place then "place " else "result ") + IntText(query) + (if l.ordered then " ordered" else "");
    assert b.p == head;
    SpellRecord(b, l);
    if l.end.Some? {
      SpellEnd(b, l.end.value);
    }
    text := b.p;
    assert head + RecordText(l) + "" == head + RecordText(l);
  }

  method SpellNumber(b: Buffer, name: string, n: nat)
    modifies b
    ensures b.p == old(b.p) + FigureText(name, n)
  {
    if n != 0 && Fits(n) {
      b.Puts(" " + name + "=");
      b.Puts(IntText(n));
      Regroup(old(b.p), " " + name + "=", IntText(n));
    } else {
      assert b.p + "" == b.p;
    }
  }

  method SpellRecord(b: Buffer, l: Line)
    modifies b
    ensures b.p == old(b.p) + RecordText(l)
  {
    hide EncValue, EncBag, FigureText;
    if l.id.None? {
      assert b.p + "" == b.p;
      return;
    }
    b.Puts(" id=");
    b.PutValue(l.id.value);
    b.Put(' ');
    var what := if l.whole && !l.place then "record" else "fields";
    b.Puts(what);
    b.Puts("=");
    b.PutBag(l.fields);
    ghost var text := " id=" + EncValue(l.id.value) + " " + what + "=" + EncBag(l.fields);
    Joins(old(b.p), " id=", EncValue(l.id.value), what, EncBag(l.fields));
    assert b.p == old(b.p) + text;
    if !l.whole && !l.place {
      SpellNumber(b, "map", l.has.named);
      SpellNumber(b, "len", l.has.ordered);
      Regroup(old(b.p), text, FigureText("map", l.has.named));
      Regroup(old(b.p), text + FigureText("map", l.has.named), FigureText("len", l.has.ordered));
      Regroup(text, FigureText("map", l.has.named), FigureText("len", l.has.ordered));
    } else {
      assert text + "" == text;
    }
  }

  lemma {:induction false} Joins(was: string, id: string, value: string, what: string, bag: string)
    ensures was + id + value + [' '] + what + "=" + bag == was + (id + value + " " + what + "=" + bag)
  {
    assert [' '] == " ";
  }

  /** One part of an ending, where it is said. */
  function Told(some: bool, name: string, text: string): string {
    if some then name + text else ""
  }

  method SpellPart(b: Buffer, some: bool, name: string, text: string)
    modifies b
    ensures b.p == old(b.p) + Told(some, name, text)
  {
    if some {
      b.Puts(name);
      b.Puts(text);
      Regroup(old(b.p), name, text);
    } else {
      assert b.p + "" == b.p;
    }
  }

  method SpellEnd(b: Buffer, e: Ending)
    modifies b
    ensures b.p == old(b.p) + EndText(e)
  {
    hide EncValue, IntText, CText, Quote, Told;
    var mark, error := "", "";
    if e.watermark.Some? {
      var v := new Buffer();
      v.PutValue(e.watermark.value);
      mark := v.p;
    }
    if e.error.Some? {
      error := KtQuote(e.error.value);
    }
    var first := if e.first.Some? && Fits(e.first.value) then IntText(e.first.value) else "";
    var total := if Fits(e.total) then IntText(e.total) else "";
    b.Puts(" complete");
    SpellPart(b, e.watermark.Some?, " watermark=", mark);
    SpellPart(b, CText(e.stop) != "", " ", CText(e.stop));
    SpellPart(b, e.error.Some?, " error=", error);
    SpellPart(b, e.first.Some? && Fits(e.first.value), " first=", first);
    SpellPart(b, (e.total != 0 || e.exact) && Fits(e.total), " total=", total);
    SpellPart(b, e.exact, " exact", "");
    EndParts(old(b.p), e, mark, error, first, total);
  }

  lemma {:induction false} EndParts(was: string, e: Ending, mark: string, error: string, first: string, total: string)
    requires e.watermark.Some? ==> mark == EncValue(e.watermark.value)
    requires e.error.Some? ==> error == Quote(e.error.value)
    requires e.first.Some? && Fits(e.first.value) ==> first == IntText(e.first.value)
    requires Fits(e.total) ==> total == IntText(e.total)
    ensures was + " complete" + Told(e.watermark.Some?, " watermark=", mark)
          + Told(CText(e.stop) != "", " ", CText(e.stop)) + Told(e.error.Some?, " error=", error)
          + Told(e.first.Some? && Fits(e.first.value), " first=", first)
          + Told((e.total != 0 || e.exact) && Fits(e.total), " total=", total) + Told(e.exact, " exact", "")
         == was + EndText(e)
  {
    hide EncValue, IntText, CText, Quote;
    var a, b := Told(e.watermark.Some?, " watermark=", mark), Told(CText(e.stop) != "", " ", CText(e.stop));
    var c, d := Told(e.error.Some?, " error=", error), Told(e.first.Some? && Fits(e.first.value), " first=", first);
    var f, g := Told((e.total != 0 || e.exact) && Fits(e.total), " total=", total), Told(e.exact, " exact", "");
    assert " exact" + "" == " exact";
    assert EndText(e) == " complete" + a + b + c + d + f + g;
    hide Told, EndText;
    Regroup(was, " complete", a);
    Regroup(was, " complete" + a, b);
    Regroup(was, " complete" + a + b, c);
    Regroup(was, " complete" + a + b + c, d);
    Regroup(was, " complete" + a + b + c + d, f);
    Regroup(was, " complete" + a + b + c + d + f, g);
  }

  /** What was sent and what is still in the buffer, as the statements emitted. */
  predicate Delivers(query: Int64, out: string, buf: string, lines: seq<Line>) {
    out + (if buf == "" then "" else buf + "\n") == Bytes(query, lines)
  }

  lemma {:induction false} SentWhole(query: Int64, out: string, buf: string, lines: seq<Line>)
    requires Delivers(query, out, buf, lines)
    ensures Delivers(query, if buf == "" then out else out + buf + "\n", "", lines)
  {
    hide Bytes;
    if buf != "" {
      Regroup(out, buf, "\n");
      assert out + buf + "\n" + "" == out + buf + "\n";
    }
  }

  lemma {:induction false} Grown(query: Int64, out: string, buf: string, lines: seq<Line>, l: Line)
    requires Delivers(query, out, buf, lines)
    ensures var now := (if buf == "" then buf else buf + "\n") + LineText(query, l);
            now != "" && Delivers(query, out, now, lines + [l])
  {
    hide Bytes;
    StatementNotEmpty(query, l);
    BytesConcat(query, lines, l);
    hide LineText;
    var was, stmt := if buf == "" then buf else buf + "\n", LineText(query, l);
    assert out + was == Bytes(query, lines) by {
      assert buf == "" ==> out + "" == out;
    }
    Regroup(out, was + stmt, "\n");
    Regroup(out, was, stmt);
  }

  lemma {:induction false} StatementNotEmpty(query: Int64, l: Line)
    ensures LineText(query, l) != ""
  {
    hide RecordText, EndText, IntText;
  }

  // What each method does to the whole state, from what it does to each field.

  lemma {:induction false} HeldBack(s: State, t: State, l: Line)
    requires t.lines == s.lines + Held(s) && t.waiting == Some(l) && t.records == s.records + 1
    requires t == s.(lines := t.lines, waiting := t.waiting, records := t.records)
    ensures t == HoldBack(s, l)
  {}

  lemma {:induction false} Leaned(s: State, extend: bool, id: Value, whole: bool, has: Totals, fields: seq<Field>)
    ensures var ordered, key := s.ordered && s.records == 0, PlacedKey(id);
            ResultLine(s, extend, id, whole, has, fields) ==
              if extend && key in s.placed then
                Line(false, ordered, Some(id), false, if whole then Tally(fields) else has,
                     Lacking(fields, s.placed[key]), None)
              else Line(false, ordered, Some(id), whole, has, fields, None)
  {}

  lemma {:induction false} Put(s: State, t: State, extend: bool, place: Line, fields: seq<Field>, stmt: Line)
    requires stmt == place.(ordered := place.id.Some? && s.ordered && s.records == 0)
    requires t.lines == s.lines + Held(s) + [stmt] && t.waiting.None?
    requires t.records == (if place.id.Some? then s.records + 1 else s.records)
    requires t.placed == if place.id.Some? && extend then s.placed[PlacedKey(place.id.value) := fields] else s.placed
    requires t == s.(lines := t.lines, waiting := t.waiting, records := t.records, placed := t.placed)
    ensures t == PlaceAdded(s, extend, place, fields)
  {}

  lemma {:induction false} Ended(s: State, t: State, extend: bool, c: Call)
    requires c.End? && !s.closed && t.lines == s.lines + [LastLine(s, c)]
    requires t == s.(lines := t.lines, waiting := None, closed := true)
    ensures t == Do(s, extend, c)
  {}

  class Fill {
    const query: Int64
    const extend: bool
    /** How much accumulates before it goes out on its own; 16 KiB in the source. */
    const limit: nat

    var buf: string
    var sent: nat
    var records: nat
    var ordered: bool
    var waiting: Option<Line>
    var total: nat
    var exact: bool
    var first: Option<nat>
    var closed: bool
    var placed: map<string, seq<Field>>
    /** The bytes handed to the transport. */
    var out: string
    /** Every statement emitted, in order. */
    ghost var lines: seq<Line>

    constructor (query: Int64, extend: bool, limit: nat)
      ensures this.query == query && this.extend == extend && this.limit == limit
      ensures Valid() && Abstract() == OPEN && out == ""
    {
      this.query, this.extend, this.limit := query, extend, limit;
      buf, sent, records, ordered, waiting := "", 0, 0, false, None;
      total, exact, first, closed, placed := 0, false, None, false, map[];
      out, lines := "", [];
      new;
      assert "" + "" == Bytes(query, []);
    }

    ghost function Abstract(): State
      reads this
    {
      State(lines, waiting, records, ordered, first, total, exact, closed, placed)
    }

    /** What has been sent and what is still in the buffer are the statements emitted,
        and nothing is left in the buffer once the answer has ended. */
    ghost predicate Valid()
      reads this
    {
      && Delivers(query, out, buf, lines)
      && sent == |lines|
      && (closed ==> buf == "" && waiting == None)
    }

    method Take() returns (src: string)
      modifies this`buf
      ensures src == old(buf) && buf == ""
    {
      src := buf;
      buf := "";
    }

    method Send(src: string)
      modifies this`out
      ensures out == old(out) + src + "\n"
    {
      out := out + src + "\n";
    }

    /** Sends what has accumulated, if anything has. */
    method SendAll()
      requires Delivers(query, out, buf, lines)
      modifies this`buf, this`out
      ensures buf == "" && Delivers(query, out, buf, lines)
    {
      hide Delivers;
      SentWhole(query, out, buf, lines);
      var src := Take();
      if src != "" {
        Send(src);
      }
    }

    /** Adds one statement, sending what has accumulated once it is worth it. */
    method Emit(l: Line)
      requires Valid() && !closed
      modifies this`buf, this`out, this`sent, this`lines
      ensures Valid() && lines == old(lines) + [l]
    {
      hide Delivers;
      Append(l);
      if |buf| >= limit {
        SendAll();
      }
    }

    method Append(l: Line)
      requires Delivers(query, out, buf, lines) && sent == |lines|
      modifies this`buf, this`sent, this`lines
      ensures buf != "" && Delivers(query, out, buf, lines)
      ensures lines == old(lines) + [l] && sent == |lines|
    {
      hide Delivers;
      var stmt := SpellLine(query, l);
      Grown(query, out, buf, lines, l);
      if buf != "" {
        buf := buf + "\n";
      }
      buf := buf + stmt;
      sent := sent + 1;
      lines := lines + [l];
    }

    method WriteRecord(whole: bool, id: Value, has: Totals, fields: seq<Field>) returns (ok: bool)
      requires Valid()
      modifies this
      ensures Valid() && ok == !old(closed)
      ensures Abstract() == if !ok then old(Abstract())
                            else HoldBack(old(Abstract()), ResultLine(old(Abstract()), extend, id, whole, has, fields))
    {
      hide Delivers, PlacedKey, ResultLine, HoldBack, Tally, Lacking;
      if closed {
        return false;
      }
      ghost var was := Abstract();
      Leaned(was, extend, id, whole, has, fields);
      var rec := Line(false, false, Some(id), whole, has, fields, None);
      if extend {
        var key := PlacedKey(id);
        if key in placed {
          if rec.whole {
            rec := rec.(has := Tally(fields), whole := false);
          }
          rec := rec.(fields := Lacking(fields, placed[key]));
        }
      }
      var held := waiting;
      rec := rec.(ordered := ordered && records == 0);
      waiting := Some(rec);
      records := records + 1;
      Release(held);
      HeldBack(was, Abstract(), rec);
      ok := true;
    }

    method AddRecord(id: Value, fields: seq<Field>) returns (ok: bool)
      requires Valid()
      modifies this
      ensures Valid() && ok == !old(closed) && Abstract() == Do(old(Abstract()), extend, Record(id, fields))
    {
      ok := WriteRecord(true, id, Totals(0, 0), fields);
    }

    method AddSubset(id: Value, has: Totals, fields: seq<Field>) returns (ok: bool)
      requires Valid()
      modifies this
      ensures Valid() && ok == !old(closed) && Abstract() == Do(old(Abstract()), extend, Subset(id, has, fields))
    {
      ok := WriteRecord(false, id, has, fields);
    }

    /** Counts a place that names a record, and remembers what it carries where its result
        may lean on it. */
    method Name(place: Line, fields: seq<Field>) returns (stmt: Line)
      requires !place.ordered
      modifies this`records, this`placed
      ensures var named := place.id.Some?;
              && stmt == place.(ordered := named && ordered && old(records) == 0)
              && records == (if named then old(records) + 1 else old(records))
              && placed == if named && extend then old(placed)[PlacedKey(place.id.value) := fields] else old(placed)
    {
      stmt := place;
      if stmt.id.Some? {
        stmt := stmt.(ordered := ordered && records == 0);
        records := records + 1;
        if extend {
          placed := placed[PlacedKey(stmt.id.value) := fields];
        }
      }
    }

    /** Sends one place statement at once, after whatever record was held back. */
    method Placing(place: Line, fields: seq<Field>) returns (ok: bool)
      requires Valid() && place.place && !place.ordered
      modifies this
      ensures Valid() && ok == !old(closed)
      ensures Abstract() == if ok then PlaceAdded(old(Abstract()), extend, place, fields) else old(Abstract())
    {
      hide Delivers, PlacedKey, PlaceAdded;
      if closed {
        return false;
      }
      ghost var was := Abstract();
      var held := waiting;
      waiting := None;
      var stmt := Name(place, fields);
      Release(held);
      Emit(stmt);
      Put(was, Abstract(), extend, place, fields, stmt);
      ok := true;
    }

    /** Lets go of the record held back, if there was one. */
    method Release(held: Option<Line>)
      requires Valid() && (closed ==> held.None?)
      modifies this`buf, this`out, this`sent, this`lines
      ensures Valid() && lines == old(lines) + if held.Some? then [held.value] else []
    {
      if held.Some? {
        Emit(held.value);
      } else {
        assert lines + [] == lines;
      }
    }

    method AddPlace(id: Value, fields: seq<Field>) returns (ok: bool)
      requires Valid()
      modifies this
      ensures Valid() && ok == !old(closed) && Abstract() == Do(old(Abstract()), extend, Place(id, fields))
    {
      ok := Placing(NamedPlace(id, fields), fields);
    }

    method SayPlaced(stop: string, watermark: Option<Value>) returns (ok: bool)
      requires Valid()
      modifies this
      ensures Valid() && ok == !old(closed) && Abstract() == Do(old(Abstract()), extend, Placed(stop, watermark))
    {
      ok := Placing(PlacedLine(stop, watermark), []);
    }

    method DeclareOrdered()
      requires Valid()
      modifies this`ordered
      ensures Valid() && Abstract() == Do(old(Abstract()), extend, Ordered)
    {
      hide Delivers;
      if records > 0 || closed || ordered {
        return;
      }
      ordered := true;
    }

    method SayTotal(n: nat, exact: bool)
      requires Valid()
      modifies this`total, this`exact
      ensures Valid() && Abstract() == Do(old(Abstract()), extend, Total(n, exact))
    {
      hide Delivers;
      if !closed {
        this.total, this.exact := n, exact;
      }
    }

    method SayFirst(at: nat)
      requires Valid()
      modifies this`first
      ensures Valid() && Abstract() == Do(old(Abstract()), extend, First(at))
    {
      hide Delivers;
      if !closed {
        first := Some(at);
      }
    }

    /** Sends what has accumulated, the record held back included. */
    method DoFlush()
      requires Valid()
      modifies this
      ensures Valid() && Abstract() == Do(old(Abstract()), extend, Flush)
      ensures buf == ""
    {
      hide Delivers;
      var held := waiting;
      waiting := None;
      Release(held);
      SendAll();
    }

    /** Ends the answer, on the last record's own statement where there is one. */
    method Finish(stop: string, watermark: Option<Value>, error: Option<string>) returns (ok: bool)
      requires Valid()
      modifies this
      ensures Valid() && ok == !old(closed)
      ensures Abstract() == Do(old(Abstract()), extend, End(stop, watermark, error))
    {
      hide Delivers;
      if closed {
        return false;
      }
      hide Do;
      ghost var was := Abstract();
      var end := if waiting.Some? then waiting.value
                 else Line(false, ordered && records == 0, None, false, Totals(0, 0), [], None);
      waiting := None;
      end := end.(end := Some(Ending(stop, watermark, error, first, total, exact)));
      Append(end);
      closed := true;
      SendAll();
      Ended(was, Abstract(), extend, End(stop, watermark, error));
      ok := true;
    }
  }

  // ----- a whole answer, through the sink -----

  method Perform(f: Fill, c: Call)
    requires f.Valid()
    modifies f
    ensures f.Valid() && f.Abstract() == Do(old(f.Abstract()), f.extend, c)
  {
    var ok := true;
    match c {
      case Record(id, fields) => ok := f.AddRecord(id, fields);
      case Subset(id, has, fields) => ok := f.AddSubset(id, has, fields);
      case Place(id, fields) => ok := f.AddPlace(id, fields);
      case Placed(stop, watermark) => ok := f.SayPlaced(stop, watermark);
      case Ordered => f.DeclareOrdered();
      case Total(n, exact) => f.SayTotal(n, exact);
      case First(at) => f.SayFirst(at);
      case Flush => f.DoFlush();
      case End(stop, watermark, error) => ok := f.Finish(stop, watermark, error);
    }
  }

  /** The bytes an answer sends are its statements, wherever the threshold falls: once
      it has ended they are the same for every `limit`. */
  method Answer(query: Int64, extend: bool, limit: nat, calls: seq<Call>) returns (out: string)
    ensures Run(OPEN, extend, calls).closed ==> out == Bytes(query, Run(OPEN, extend, calls).lines)
  {
    var f := new Fill(query, extend, limit);
    assert calls[0..] == calls;
    for i := 0 to |calls|
      invariant f.Valid() && f.query == query && f.extend == extend
      invariant Run(f.Abstract(), extend, calls[i..]) == Run(OPEN, extend, calls)
    {
      assert calls[i..][1..] == calls[i + 1..];
      Perform(f, calls[i]);
    }
    out := f.out;
    assert out + "" == out;
  }

  // ----- what a run sends -----

  predicate NoEnd(calls: seq<Call>) {
    forall c :: c in calls ==> !c.End?
  }

  /** What a call asks to be sent: something about a record, or that the order is settled. */
  datatype Said =
    | About(place: bool, id: Value, whole: bool, has: Totals, fields: seq<Field>)
    | Settled(how: Ending)

  function SaidBy(c: Call): seq<Said> {
    match c
    case Record(id, fields) => [About(false, id, true, Totals(0, 0), fields)]
    case Subset(id, has, fields) => [About(false, id, false, has, fields)]
    case Place(id, fields) => [About(true, id, false, Totals(0, 0), fields)]
    case Placed(stop, watermark) => [Settled(Ending(stop, watermark, None, None, 0, false))]
    case _ => []
  }

  function Asked(calls: seq<Call>): seq<Said> {
    if calls == [] then [] else SaidBy(calls[0]) + Asked(calls[1..])
  }

  function SaidIn(l: Line): seq<Said> {
    if l.id.Some? then [About(l.place, l.id.value, l.whole, l.has, l.fields)]
    else if l.place && l.end.Some? then [Settled(l.end.value)]
    else []
  }

  function Sent(ls: seq<Line>): seq<Said> {
    if ls == [] then [] else SaidIn(ls[0]) + Sent(ls[1..])
  }

  /** Which records were named and under which verb, and where the order was settled. */
  datatype Turn = Naming(place: bool, id: Value) | Mark(how: Ending)

  function TurnOf(x: Said): Turn {
    match x
    case About(place, id, _, _, _) => Naming(place, id)
    case Settled(how) => Mark(how)
  }

  function Turns(xs: seq<Said>): seq<Turn> {
    if xs == [] then [] else [TurnOf(xs[0])] + Turns(xs[1..])
  }

  function Everything(s: State): seq<Line> {
    s.lines + Held(s)
  }

  lemma {:induction false} SentConcat(a: seq<Line>, b: seq<Line>)
    ensures Sent(a + b) == Sent(a) + Sent(b)
  {
    if a == [] {
      assert a + b == b;
    } else {
      assert (a + b)[0] == a[0] && (a + b)[1..] == a[1..] + b;
      SentConcat(a[1..], b);
    }
  }

  lemma {:induction false} SentOne(l: Line)
    ensures Sent([l]) == SaidIn(l)
  {
    assert [l][1..] == [];
    assert Sent([]) == [];
  }

  lemma {:induction false} TurnsConcat(a: seq<Said>, b: seq<Said>)
    ensures Turns(a + b) == Turns(a) + Turns(b)
  {
    if a == [] {
      assert a + b == b;
    } else {
      assert (a + b)[0] == a[0] && (a + b)[1..] == a[1..] + b;
      TurnsConcat(a[1..], b);
    }
  }

  /** Before its end, an answer holds back results only, and none carries `complete`. */
  predicate Underway(s: State) {
    && !s.closed
    && (s.waiting.Some? ==> s.waiting.value.id.Some? && !s.waiting.value.place && s.records > 0)
    && (forall l :: l in Everything(s) ==> l.place || (l.end.None? && l.id.Some?))
  }

  /** The statement a call adds to the answer, if any. */
  function Adds(s: State, extend: bool, c: Call): seq<Line> {
    match c
    case Record(id, fields) => [ResultLine(s, extend, id, true, Totals(0, 0), fields)]
    case Subset(id, has, fields) => [ResultLine(s, extend, id, false, has, fields)]
    case Place(id, fields) => [PlaceLine(s, id, fields)]
    case Placed(stop, watermark) => [PlacedLine(stop, watermark)]
    case _ => []
  }

  lemma {:induction false} StepAdds(s: State, extend: bool, c: Call)
    requires Underway(s) && !c.End?
    ensures Underway(Do(s, extend, c))
    ensures Everything(Do(s, extend, c)) == Everything(s) + Adds(s, extend, c)
  {
    var t := Do(s, extend, c);
    assert Everything(t) == Everything(s) + Adds(s, extend, c);
    forall l | l in Everything(t)
      ensures l.place || (l.end.None? && l.id.Some?)
    {
      assert l in Everything(s) || l in Adds(s, extend, c);
    }
  }

  lemma {:induction false} AddsSays(s: State, extend: bool, c: Call)
    ensures Turns(Sent(Adds(s, extend, c))) == Turns(SaidBy(c))
    ensures !extend ==> Sent(Adds(s, extend, c)) == SaidBy(c)
  {
    if Adds(s, extend, c) != [] {
      SentOne(Adds(s, extend, c)[0]);
    }
  }

  lemma {:induction false} RunConcat(s: State, extend: bool, a: seq<Call>, b: seq<Call>)
    ensures Run(s, extend, a + b) == Run(Run(s, extend, a), extend, b)
    decreases |a|
  {
    if a == [] {
      assert a + b == b;
    } else {
      assert (a + b)[0] == a[0] && (a + b)[1..] == a[1..] + b;
      RunConcat(Do(s, extend, a[0]), extend, a[1..], b);
    }
  }

  lemma {:induction false} NoneSaid()
    ensures Turns(Asked([])) == [] && Turns([]) == []
  {}

  lemma {:induction false} RunSays(s: State, extend: bool, calls: seq<Call>)
    requires Underway(s) && NoEnd(calls)
    ensures var t := Run(s, extend, calls);
            && Underway(t)
            && Turns(Sent(Everything(t))) == Turns(Sent(Everything(s))) + Turns(Asked(calls))
            && (!extend ==> Sent(Everything(t)) == Sent(Everything(s)) + Asked(calls))
    decreases |calls|
  {
    hide Do, Adds, SaidBy, Underway, Everything, Sent, Turns;
    assert Asked([]) == [] && Turns([]) == [] by { NoneSaid(); }
    if calls != [] {
      var c := calls[0];
      assert c in calls && forall x :: x in calls[1..] ==> x in calls;
      StepAdds(s, extend, c);
      AddsSays(s, extend, c);
      SentConcat(Everything(s), Adds(s, extend, c));
      TurnsConcat(Sent(Everything(s)), Sent(Adds(s, extend, c)));
      TurnsConcat(SaidBy(c), Asked(calls[1..]));
      RunSays(Do(s, extend, c), extend, calls[1..]);
      Regroup(Turns(Sent(Everything(s))), Turns(SaidBy(c)), Turns(Asked(calls[1..])));
      Regroup(Sent(Everything(s)), SaidBy(c), Asked(calls[1..]));
    } else {
      assert Turns(Sent(Everything(s))) + [] == Turns(Sent(Everything(s)));
      assert Sent(Everything(s)) + [] == Sent(Everything(s));
    }
  }

  lemma {:induction false} ClosedStays(s: State, extend: bool, calls: seq<Call>)
    requires s.closed
    ensures Run(s, extend, calls) == s
    decreases |calls|
  {
    if calls != [] {
      ClosedStays(s, extend, calls[1..]);
    }
  }

  /** What the last `Total` and the last `First` of some calls said, where there was one. */
  function LastTotal(calls: seq<Call>): (nat, bool) {
    if calls == [] then (0, false)
    else
      var n := |calls| - 1;
      if calls[n].Total? then (calls[n].n, calls[n].exact) else LastTotal(calls[..n])
  }

  function LastFirst(calls: seq<Call>): Option<nat> {
    if calls == [] then None
    else
      var n := |calls| - 1;
      if calls[n].First? then Some(calls[n].at) else LastFirst(calls[..n])
  }

  lemma {:induction false} FiguresKept(extend: bool, calls: seq<Call>)
    requires NoEnd(calls)
    ensures var t := Run(OPEN, extend, calls);
            !t.closed && (t.total, t.exact) == LastTotal(calls) && t.first == LastFirst(calls)
  {
    if calls != [] {
      hide Run, Do;
      var n := |calls| - 1;
      var c := calls[n];
      assert calls == calls[..n] + [c] && c in calls && forall x :: x in calls[..n] ==> x in calls;
      FiguresKept(extend, calls[..n]);
      RunConcat(OPEN, extend, calls[..n], [c]);
      RunOne(Run(OPEN, extend, calls[..n]), extend, c);
      FigureStep(Run(OPEN, extend, calls[..n]), extend, c);
    } else {
      assert Run(OPEN, extend, []) == OPEN;
    }
  }

  lemma {:induction false} FigureStep(s: State, extend: bool, c: Call)
    requires !s.closed && !c.End?
    ensures var t := Do(s, extend, c);
            && !t.closed
            && (t.total, t.exact) == (if c.Total? then (c.n, c.exact) else (s.total, s.exact))
            && t.first == if c.First? then Some(c.at) else s.first
  {
    hide ResultLine, PlacedKey, Held;
  }

  lemma {:induction false} RunOne(s: State, extend: bool, c: Call)
    ensures Run(s, extend, [c]) == Do(s, extend, c)
  {
    hide Do;
    assert [c][1..] == [];
    assert Run(Do(s, extend, c), extend, []) == Do(s, extend, c);
  }

  /** Conservation. In every run with one ending, each record and place is sent exactly
      once and in the order produced -- with just what was said of it, unless places
      are leaned on -- and so is each word that the order is settled. The last statement
      is the only result that carries `complete`; it carries this ending with the figures
      said last, and nothing is sent after it. */
  lemma {:induction false} Conservation(extend: bool, calls: seq<Call>, end: Call, after: seq<Call>)
    requires NoEnd(calls) && end.End?
    ensures var t := Run(OPEN, extend, calls + [end] + after);
            && t.closed && t.waiting.None? && t.lines != []
            && Turns(Sent(t.lines)) == Turns(Asked(calls))
            && (!extend ==> Sent(t.lines) == Asked(calls))
            && (forall l :: l in t.lines[..|t.lines| - 1] ==> l.place || l.end.None?)
            && var last := t.lines[|t.lines| - 1];
               && !last.place
               && last.end == Some(Ending(end.stop, end.watermark, end.error,
                                          LastFirst(calls), LastTotal(calls).0, LastTotal(calls).1))
  {
    var s := Run(OPEN, extend, calls);
    assert Everything(OPEN) == [];
    RunSays(OPEN, extend, calls);
    FiguresKept(extend, calls);
    assert Turns([]) + Turns(Asked(calls)) == Turns(Asked(calls)) && [] + Asked(calls) == Asked(calls);
    RunConcat(OPEN, extend, calls, [end]);
    RunConcat(OPEN, extend, calls + [end], after);
    RunOne(s, extend, end);
    var t := Do(s, extend, end);
    ClosedStays(t, extend, after);
    EndingSays(s, extend, end);
  }

  lemma {:induction false} EndingSays(s: State, extend: bool, end: Call)
    requires Underway(s) && end.End?
    ensures var t := Do(s, extend, end);
            && t.closed && t.waiting.None? && t.lines == s.lines + [LastLine(s, end)]
            && Sent(t.lines) == Sent(Everything(s))
            && (forall l :: l in t.lines[..|t.lines| - 1] ==> l.place || l.end.None?)
            && var last := t.lines[|t.lines| - 1];
               !last.place && last.end == Some(EndOf(s, end))
  {
    var t := Do(s, extend, end);
    assert t.lines[..|t.lines| - 1] == s.lines;
    SentConcat(s.lines, [LastLine(s, end)]);
    SentOne(LastLine(s, end));
    if s.waiting.Some? {
      SentConcat(s.lines, Held(s));
      SentOne(s.waiting.value);
    } else {
      assert Everything(s) == s.lines;
    }
    forall l | l in s.lines ensures l.place || l.end.None? {
      assert l in Everything(s);
    }
  }
}
