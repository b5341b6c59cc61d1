/**
 A query in structured form, and the printers that write one (`enc_value`
 through `enc_qscope`). What each appends is a function of the structure; the
 class `Buffer` is the source's growable buffer, appended to in loops.
 */
module Query {
  import opened Text
  import opened Tokens
  import opened Quoting
  import opened Syntax

  /** `kt_filter`: a predicate over one field, or an and/or/not over other nodes. */
  datatype Filter = Filter(op: string, field: string, values: seq<Value>, collate: string, children: seq<Filter>)

  /** A name and what it holds, or the name alone. */
  datatype Field = Field(name: string, value: Option<Value>)

  datatype SortLevel = SortLevel(field: string, descending: bool, collation: string)

  datatype Descriptor = Descriptor(
    source: string, fields: seq<Field>, exclude: seq<Field>, filter: Option<Filter>, sort: seq<SortLevel>)

  datatype Scope = Scope(after: Option<Value>, until: Option<Value>, count: int, from: int, reversed: bool)

  predicate IsGroup(op: string) {
    op == "and" || op == "or" || op == "not"
  }

  // ----- what the printers write -----

  function EncValue(v: Value): string {
    if v.Block? then "undefined" else WriteValue(v)
  }

  /** Nothing else can spell a name that is empty or holds what ends a symbol. */
  predicate NeedsQuotes(name: string) {
    name == "" || ')' in name || '\n' in name
  }

  function EncFieldName(name: string): string {
    if NeedsQuotes(CText(name)) then Quote(name) else WriteWord(name)
  }

  function EncField(f: Field): string {
    CText(f.name) + (if f.value.Some? then " " + EncValue(f.value.value) else "")
  }

  function EncFields(b: seq<Field>): string {
    if b == [] then ""
    else if |b| == 1 then EncField(b[0])
    else EncField(b[0]) + "; " + EncFields(b[1..])
  }

  function EncBag(b: seq<Field>): string {
    if b == [] then "{}" else "{ " + EncFields(b) + " }"
  }

  function EncValues(vs: seq<Value>): string {
    if vs == [] then "" else " " + EncValue(vs[0]) + EncValues(vs[1..])
  }

  function EncCollate(collate: string): string {
    if CText(collate) == "" then "" else " collate=" + CText(collate)
  }

  function EncFilterStmt(f: Filter): string
    decreases f, 0
  {
    if IsGroup(f.op) then f.op + " " + EncFilterBlock(f.children)
    else
      f.op + (if f.op == "id" then "" else " " + EncFieldName(f.field)) + EncValues(f.values) + EncCollate(f.collate)
  }

  function EncFilterBlock(fs: seq<Filter>): string
    decreases fs, 1
  {
    if fs == [] then "{}" else "{ " + EncFilterStmts(fs) + " }"
  }

  function EncFilterStmts(fs: seq<Filter>): string
    decreases fs, 0
  {
    if fs == [] then ""
    else if |fs| == 1 then EncFilterStmt(fs[0])
    else EncFilterStmt(fs[0]) + "; " + EncFilterStmts(fs[1..])
  }

  /** A group at the top is written without its operator. */
  function EncFilter(f: Filter): string {
    if IsGroup(f.op) then EncFilterBlock(f.children) else "{ " + EncFilterStmt(f) + " }"
  }

  function EncLevel(l: SortLevel): string {
    CText(l.field) + (if CText(l.collation) != "" then " " + CText(l.collation) else "")
    + (if l.descending then " desc" else "")
  }

  function EncLevels(ls: seq<SortLevel>): string {
    if ls == [] then ""
    else if |ls| == 1 then EncLevel(ls[0])
    else EncLevel(ls[0]) + "; " + EncLevels(ls[1..])
  }

  function EncSort(ls: seq<SortLevel>): string {
    if ls == [] then "{}" else "{ " + EncLevels(ls) + " }"
  }

  /** One more part of a text whose parts are separated by blanks. */
  function Part(text: string, part: string): string {
    text + (if text == "" then "" else " ") + part
  }

  function EncDescriptor(d: Descriptor): string {
    var s0 := if CText(d.source) != "" then "source=" + Quote(d.source) else "";
    var s1 := if d.fields != [] then Part(s0, "fields=" + EncBag(d.fields)) else s0;
    var s2 := if d.exclude != [] then Part(s1, "exclude=" + EncBag(d.exclude)) else s1;
    var s3 := if d.filter.Some? then Part(s2, "filter=" + EncFilter(d.filter.value)) else s2;
    if d.sort != [] then Part(s3, "sort=" + EncSort(d.sort)) else s3
  }

  function EncScope(s: Scope): string {
    var s0 := if s.after.Some? then "after=" + EncValue(s.after.value) else "";
    var s1 := if s.until.Some? then Part(s0, "until=" + EncValue(s.until.value)) else s0;
    var s2 := if s.from != 0 then Part(s1, "from=" + IntText(s.from)) else s1;
    var s3 := Part(s2, "count=" + IntText(s.count));
    if s.reversed then s3 + " reversed" else s3
  }

  // ----- the printers -----

  class Buffer {
    var p: string

    constructor ()
      ensures p == ""
    {
      p := "";
    }

    method Put(c: char)
      modifies this
      ensures p == old(p) + [c]
    {
      p := p + [c];
    }

    method Puts(s: string)
      modifies this
      ensures p == old(p) + s
    {
      assert s[..|s|] == s;
      for i := 0 to |s|
        invariant p == old(p) + s[..i]
      {
        Put(s[i]);
        assert s[..i + 1] == s[..i] + [s[i]];
      }
    }

    /** Appends a C string, which ends at its first NUL. */
    method PutText(s: string)
      modifies this
      ensures p == old(p) + CText(s)
    {
      var i := 0;
      assert s[0..] == s;
      while i < |s| && s[i] != '\0'
        invariant i <= |s| && p + CText(s[i..]) == old(p) + CText(s)
      {
        TextStep(p, s, i);
        Put(s[i]);
        i := i + 1;
      }
      assert CText(s[i..]) == "" && p + "" == p;
    }

    lemma {:induction false} TextStep(was: string, s: string, i: nat)
      requires i < |s| && s[i] != '\0'
      ensures was + CText(s[i..]) == was + [s[i]] + CText(s[i + 1..])
    {
      assert s[i..][1..] == s[i + 1..];
    }

    method PutValue(v: Value)
      modifies this
      ensures p == old(p) + EncValue(v)
    {
      match v {
        case Int(i) => Puts(IntText(i));
        case Float(t) => Puts(t);
        case Str(s) =>
          var t := KtQuote(s);
          Puts(t);
        case Word(w) => PutWord(w);
        case Block(_) => Puts("undefined");
      }
    }

    method PutWord(w: string)
      modifies this
      ensures p == old(p) + WriteWord(w)
    {
      hide CText, IsWord;
      var bare := KtIsWord(CText(w));
      if bare {
        PutText(w);
      } else {
        Put('(');
        PutText(w);
        Put(')');
        assert p == old(p) + ("(" + CText(w) + ")");
      }
    }

    method PutFieldName(name: string)
      modifies this
      ensures p == old(p) + EncFieldName(name)
    {
      if NeedsQuotes(CText(name)) {
        var t := KtQuote(name);
        Puts(t);
      } else {
        PutWord(name);
      }
    }

    method PutField(f: Field)
      modifies this
      ensures p == old(p) + EncField(f)
    {
      hide EncValue, CText;
      PutText(f.name);
      var name := CText(f.name);
      if f.value.Some? {
        Put(' ');
        PutValue(f.value.value);
        Regroup(name, " ", EncValue(f.value.value));
        Regroup(old(p), name, " ");
        Regroup(old(p), name + " ", EncValue(f.value.value));
      }
    }

    method PutBag(b: seq<Field>)
      modifies this
      ensures p == old(p) + EncBag(b)
    {
      if b == [] {
        Puts("{}");
        return;
      }
      Puts("{ ");
      ghost var open := p;
      assert b[0..] == b;
      for i := 0 to |b|
        invariant i < |b| ==> p + (if i > 0 then "; " else "") + EncFields(b[i..]) == open + EncFields(b)
        invariant i == |b| ==> p == open + EncFields(b)
      {
        ghost var was := p;
        if i > 0 {
          Puts("; ");
        }
        PutField(b[i]);
        FieldsStep(b, i, was, if i > 0 then "; " else "", p);
      }
      Puts(" }");
      assert p == old(p) + ("{ " + EncFields(b) + " }");
    }

    lemma {:induction false} FieldsStep(b: seq<Field>, i: nat, was: string, sep: string, now: string)
      requires i < |b| && now == was + sep + EncField(b[i])
      ensures i + 1 < |b| ==> was + sep + EncFields(b[i..]) == now + "; " + EncFields(b[i + 1..])
      ensures i + 1 == |b| ==> was + sep + EncFields(b[i..]) == now
    {
      hide EncField;
      assert b[i..][1..] == b[i + 1..];
      if i + 1 < |b| {
        assert EncFields(b[i..]) == EncField(b[i]) + "; " + EncFields(b[i + 1..]);
      }
    }

    method PutFilterStmt(f: Filter)
      modifies this
      ensures p == old(p) + EncFilterStmt(f)
      decreases f, 0
    {
      if IsGroup(f.op) {
        Puts(f.op);
        Put(' ');
        PutFilterBlock(f.children);
        assert p == old(p) + (f.op + " " + EncFilterBlock(f.children));
        return;
      }
      hide CText, EncFieldName, EncCollate;
      Puts(f.op);
      ghost var head := f.op;
      if f.op != "id" {
        Put(' ');
        PutFieldName(f.field);
        head := f.op + (" " + EncFieldName(f.field));
        assert p == old(p) + head;
      } else {
        head := f.op + "";
        assert p == old(p) + head;
      }
      PutValues(f.values);
      if CText(f.collate) != "" {
        Puts(" collate=");
        PutText(f.collate);
      }
      Joined(old(p), head, EncValues(f.values), f.collate, p);
    }

    lemma {:induction false} Joined(was: string, head: string, values: string, collate: string, now: string)
      requires now == was + head + values + (if CText(collate) == "" then "" else " collate=") + CText(collate)
      ensures now == was + (head + values + EncCollate(collate))
    {
      hide CText;
    }

    method PutValues(vs: seq<Value>)
      modifies this
      ensures p == old(p) + EncValues(vs)
    {
      assert vs[0..] == vs;
      for i := 0 to |vs|
        invariant p + EncValues(vs[i..]) == old(p) + EncValues(vs)
      {
        ValuesStep(p, vs, i);
        Put(' ');
        PutValue(vs[i]);
      }
      assert p + "" == p;
    }

    lemma {:induction false} ValuesStep(was: string, vs: seq<Value>, i: nat)
      requires i < |vs|
      ensures was + EncValues(vs[i..]) == was + [' '] + EncValue(vs[i]) + EncValues(vs[i + 1..])
    {
      hide EncValue;
      assert vs[i..][1..] == vs[i + 1..];
      assert EncValues(vs[i..]) == " " + EncValue(vs[i]) + EncValues(vs[i + 1..]);
    }

    method PutFilterBlock(fs: seq<Filter>)
      modifies this
      ensures p == old(p) + EncFilterBlock(fs)
      decreases fs, 1
    {
      hide EncFilterStmts, EncFilterStmt;
      if fs == [] {
        Puts("{}");
        return;
      }
      Puts("{ ");
      ghost var open := p;
      assert fs[0..] == fs;
      for i := 0 to |fs|
        invariant i < |fs| ==> p + (if i > 0 then "; " else "") + EncFilterStmts(fs[i..]) == open + EncFilterStmts(fs)
        invariant i == |fs| ==> p == open + EncFilterStmts(fs)
      {
        ghost var was := p;
        if i > 0 {
          Puts("; ");
        }
        PutFilterStmt(fs[i]);
        FiltersStep(fs, i, was, if i > 0 then "; " else "", p);
      }
      Puts(" }");
      assert p == old(p) + ("{ " + EncFilterStmts(fs) + " }");
    }

    lemma {:induction false} FiltersStep(b: seq<Filter>, i: nat, was: string, sep: string, now: string)
      requires i < |b| && now == was + sep + EncFilterStmt(b[i])
      ensures i + 1 < |b| ==> was + sep + EncFilterStmts(b[i..]) == now + "; " + EncFilterStmts(b[i + 1..])
      ensures i + 1 == |b| ==> was + sep + EncFilterStmts(b[i..]) == now
    {
      hide EncFilterStmt;
      assert b[i..][1..] == b[i + 1..];
      if i + 1 < |b| {
        assert EncFilterStmts(b[i..]) == EncFilterStmt(b[i]) + "; " + EncFilterStmts(b[i + 1..]);
      }
    }

    method PutFilter(f: Option<Filter>)
      modifies this
      ensures p == old(p) + if f.None? then "{}" else EncFilter(f.value)
    {
      match f {
        case None => Puts("{}");
        case Some(g) =>
          if IsGroup(g.op) {
            PutFilterBlock(g.children);
          } else {
            Puts("{ ");
            PutFilterStmt(g);
            Puts(" }");
            assert p == old(p) + ("{ " + EncFilterStmt(g) + " }");
          }
      }
    }

    method PutLevel(l: SortLevel)
      modifies this
      ensures p == old(p) + EncLevel(l)
    {
      hide CText;
      PutText(l.field);
      var collated := CText(l.collation) != "";
      if collated {
        Put(' ');
        PutText(l.collation);
      }
      ghost var head := CText(l.field) + (if collated then " " + CText(l.collation) else "");
      assert p == old(p) + head;
      if l.descending {
        Puts(" desc");
      }
      assert p == old(p) + (head + (if l.descending then " desc" else ""));
    }

    method PutSort(ls: seq<SortLevel>)
      modifies this
      ensures p == old(p) + EncSort(ls)
    {
      if ls == [] {
        Puts("{}");
        return;
      }
      Puts("{ ");
      ghost var open := p;
      assert ls[0..] == ls;
      for i := 0 to |ls|
        invariant i < |ls| ==> p + (if i > 0 then "; " else "") + EncLevels(ls[i..]) == open + EncLevels(ls)
        invariant i == |ls| ==> p == open + EncLevels(ls)
      {
        ghost var was := p;
        if i > 0 {
          Puts("; ");
        }
        PutLevel(ls[i]);
        LevelsStep(ls, i, was, if i > 0 then "; " else "", p);
      }
      Puts(" }");
      assert p == old(p) + ("{ " + EncLevels(ls) + " }");
    }

    lemma {:induction false} LevelsStep(b: seq<SortLevel>, i: nat, was: string, sep: string, now: string)
      requires i < |b| && now == was + sep + EncLevel(b[i])
      ensures i + 1 < |b| ==> was + sep + EncLevels(b[i..]) == now + "; " + EncLevels(b[i + 1..])
      ensures i + 1 == |b| ==> was + sep + EncLevels(b[i..]) == now
    {
      hide EncLevel;
      assert b[i..][1..] == b[i + 1..];
      if i + 1 < |b| {
        assert EncLevels(b[i..]) == EncLevel(b[i]) + "; " + EncLevels(b[i + 1..]);
      }
    }

    /** `name=`, after a blank where something was written before. */
    method PutName(ghost start: string, ghost text: string, wrote: bool, name: string)
      requires p == start + text && (wrote <==> text != "")
      modifies this
      ensures p == start + (text + (if text == "" then "" else " ") + name)
    {
      if wrote {
        Put(' ');
      }
      Puts(name);
    }

    method PutDescriptor(d: Descriptor)
      modifies this
      ensures p == old(p) + EncDescriptor(d)
    {
      hide EncBag, EncFilter, EncSort, Quote, CText;
      var wrote := false;
      ghost var text := "";
      if CText(d.source) != "" {
        Puts("source=");
        var q := KtQuote(d.source);
        Puts(q);
        text, wrote := "source=" + Quote(d.source), true;
      }
      assert p == old(p) + text;
      if d.fields != [] {
        PutName(old(p), text, wrote, "fields=");
        PutBag(d.fields);
        Appended(old(p), text, "fields=", EncBag(d.fields), p);
        text, wrote := Part(text, "fields=" + EncBag(d.fields)), true;
      }
      if d.exclude != [] {
        PutName(old(p), text, wrote, "exclude=");
        PutBag(d.exclude);
        Appended(old(p), text, "exclude=", EncBag(d.exclude), p);
        text, wrote := Part(text, "exclude=" + EncBag(d.exclude)), true;
      }
      if d.filter.Some? {
        PutName(old(p), text, wrote, "filter=");
        PutFilter(d.filter);
        Appended(old(p), text, "filter=", EncFilter(d.filter.value), p);
        text, wrote := Part(text, "filter=" + EncFilter(d.filter.value)), true;
      }
      if d.sort != [] {
        PutName(old(p), text, wrote, "sort=");
        PutSort(d.sort);
        Appended(old(p), text, "sort=", EncSort(d.sort), p);
        text, wrote := Part(text, "sort=" + EncSort(d.sort)), true;
      }
    }

    lemma {:induction false} Appended(start: string, text: string, name: string, part: string, now: string)
      requires name != "" && now == start + (text + (if text == "" then "" else " ") + name) + part
      ensures now == start + Part(text, name + part) && Part(text, name + part) != ""
    {}

    method PutScope(s: Scope)
      modifies this
      ensures p == old(p) + EncScope(s)
    {
      hide EncValue, IntText;
      var wrote := false;
      ghost var text := "";
      if s.after.Some? {
        Puts("after=");
        PutValue(s.after.value);
        text, wrote := "after=" + EncValue(s.after.value), true;
      }
      assert p == old(p) + text;
      if s.until.Some? {
        PutName(old(p), text, wrote, "until=");
        PutValue(s.until.value);
        Appended(old(p), text, "until=", EncValue(s.until.value), p);
        text, wrote := Part(text, "until=" + EncValue(s.until.value)), true;
      }
      if s.from != 0 {
        PutName(old(p), text, wrote, "from=");
        Puts(IntText(s.from));
        Appended(old(p), text, "from=", IntText(s.from), p);
        text, wrote := Part(text, "from=" + IntText(s.from)), true;
      }
      PutName(old(p), text, wrote, "count=");
      Puts(IntText(s.count));
      Appended(old(p), text, "count=", IntText(s.count), p);
      text := Part(text, "count=" + IntText(s.count));
      if s.reversed {
        Puts(" reversed");
        Regroup(old(p), text, " reversed");
      }
    }
  }
}
