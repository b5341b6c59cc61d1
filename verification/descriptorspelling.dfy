/**
 The round trip of the rest of a query: field bags, sorts, descriptors and scopes,
 and the one statement that carries them all.
 */
module DescriptorSpelling {
  import opened Text
  import opened Tokens
  import opened Quoting
  import opened Syntax
  import opened Parser
  import opened RoundTrip
  import opened Query
  import opened Reader
  import opened FilterSpelling

  // ----- field bags -----

  /** A field's name is the head of its own statement, and is written as it stands. */
  predicate SpellableBagField(f: Field) {
    IsHead(f.name) && (f.value.Some? ==> SpellableItem(f.value.value))
  }

  predicate SpellableBag(b: seq<Field>) {
    forall f :: f in b ==> SpellableBagField(f)
  }

  function FieldStmt(f: Field): Stmt {
    Stmt("", f.name, if f.value.Some? then [OperandOf(f.value.value)] else [])
  }

  function BagStmts(b: seq<Field>): seq<Stmt> {
    if b == [] then [] else [FieldStmt(b[0])] + BagStmts(b[1..])
  }

  lemma {:induction false} HeadIsText(name: string)
    requires IsHead(name)
    ensures NulFree(name) && CText(name) == name
  {
    TokenIsText(name);
  }

  lemma {:induction false} FieldFacts(f: Field)
    requires SpellableBagField(f)
    ensures WriteStmt(FieldStmt(f)) == EncField(f)
    ensures SpellableStmt(FieldStmt(f))
    ensures ReadField(FieldStmt(f)) == Ok(f)
  {
    hide CText, OperandOf, SpellableArg, WriteArg, ValueOf;
    HeadIsText(f.name);
    if f.value.Some? {
      var v := f.value.value;
      OperandText(v);
      OperandSpellable(v);
      OperandReads(v);
      WriteArgsOne(OperandOf(v));
      GroupText(f.name, EncValue(v));
      assert "" + f.name + (" " + EncValue(v)) == f.name + (" " + EncValue(v));
    } else {
      assert "" + f.name + "" == f.name + "";
    }
  }

  lemma {:induction false} BagFrom(b: seq<Field>)
    requires b != []
    ensures BagStmts(b) != [] && BagStmts(b)[0] == FieldStmt(b[0]) && BagStmts(b)[1..] == BagStmts(b[1..])
  {
    hide FieldStmt;
  }

  lemma {:induction false} BagFacts(b: seq<Field>)
    requires SpellableBag(b)
    ensures |BagStmts(b)| == |b|
    ensures WriteStmts(BagStmts(b)) == EncFields(b)
    ensures SpellableBlock(BagStmts(b))
    ensures ReadFields(BagStmts(b)) == Ok(b)
  {
    hide FieldStmt, WriteStmt, EncField, SpellableStmt, ReadField, SpellableBagField;
    if b != [] {
      assert b[0] in b && forall f :: f in b[1..] ==> f in b;
      FieldFacts(b[0]);
      BagFacts(b[1..]);
      BagFrom(b);
      assert b == [b[0]] + b[1..];
    }
  }

  // ----- sorts -----

  /** A level can print any collation, but only these are read back as words. */
  predicate SpellableLevel(l: SortLevel) {
    IsHead(l.field) && l.collation in ["", "exact", "fold", "natural"]
  }

  predicate SpellableSort(ls: seq<SortLevel>) {
    forall l :: l in ls ==> SpellableLevel(l)
  }

  function LevelArgs(l: SortLevel): seq<Arg> {
    (if l.collation != "" then [Bare(l.collation)] else []) + (if l.descending then [Bare("desc")] else [])
  }

  function LevelStmt(l: SortLevel): Stmt {
    Stmt("", l.field, LevelArgs(l))
  }

  function LevelStmts(ls: seq<SortLevel>): seq<Stmt> {
    if ls == [] then [] else [LevelStmt(ls[0])] + LevelStmts(ls[1..])
  }

  lemma {:induction false} CollationNames()
    ensures IsName("exact") && IsName("fold") && IsName("natural") && IsName("desc") && IsName("reversed")
  {}

  lemma {:induction false} MaybeBare(some: bool, name: string)
    ensures WriteArgs(if some then [Bare(name)] else []) == if some then " " + name else ""
  {
    WriteArgsOne(Bare(name));
  }

  lemma {:induction false} LevelText(l: SortLevel)
    requires NulFree(l.field) && NulFree(l.collation)
    ensures WriteStmt(LevelStmt(l)) == EncLevel(l)
  {
    hide CText, WriteArgs;
    CTextFacts(l.field);
    CTextFacts(l.collation);
    var a := if l.collation != "" then [Bare(l.collation)] else [];
    var b := if l.descending then [Bare("desc")] else [];
    WriteArgsConcat(a, b);
    MaybeBare(l.collation != "", l.collation);
    MaybeBare(l.descending, "desc");
    var x := if l.collation != "" then " " + l.collation else "";
    var y := if l.descending then " desc" else "";
    assert "" + l.field + (x + y) == l.field + x + y;
  }

  lemma {:induction false} LevelReads(l: SortLevel)
    requires SpellableLevel(l)
    ensures ReadLevel(LevelStmt(l)) == Ok(l)
  {
    hide ReadLevelWords;
    var l0 := SortLevel(l.field, false, "");
    var tail := if l.descending then [Bare("desc")] else [];
    NoMoreWords(l);
    if l.descending {
      LevelWordStep(l.(descending := false), Bare("desc"), []);
      assert [Bare("desc")] + [] == tail;
    }
    assert ReadLevelWords(l.(descending := false), tail) == Ok(l);
    if l.collation != "" {
      LevelWordStep(l0, Bare(l.collation), tail);
    } else {
      assert [] + tail == tail;
    }
  }

  lemma {:induction false} NoMoreWords(l: SortLevel)
    ensures ReadLevelWords(l, []) == Ok(l)
  {}

  lemma {:induction false} LevelWordStep(l: SortLevel, g: Arg, rest: seq<Arg>)
    requires ReadLevelWord(l, g).Ok?
    ensures ReadLevelWords(l, [g] + rest) == ReadLevelWords(ReadLevelWord(l, g).value, rest)
  {
    assert ([g] + rest)[1..] == rest;
  }

  lemma {:induction false} LevelFacts(l: SortLevel)
    requires SpellableLevel(l)
    ensures WriteStmt(LevelStmt(l)) == EncLevel(l)
    ensures SpellableStmt(LevelStmt(l))
    ensures ReadLevel(LevelStmt(l)) == Ok(l)
  {
    CollationNames();
    HeadIsText(l.field);
    if l.collation != "" {
      HeadIsText(l.collation);
    }
    LevelText(l);
    LevelReads(l);
  }

  lemma {:induction false} SortFacts(ls: seq<SortLevel>)
    requires SpellableSort(ls)
    ensures |LevelStmts(ls)| == |ls|
    ensures WriteStmts(LevelStmts(ls)) == EncLevels(ls)
    ensures SpellableBlock(LevelStmts(ls))
    ensures ReadLevels(LevelStmts(ls)) == Ok(ls)
  {
    LevelsText(ls);
    LevelsSpellable(ls);
    LevelsRead(ls);
  }

  lemma {:induction false} LevelStmtsStep(ls: seq<SortLevel>)
    requires ls != []
    ensures LevelStmts(ls) == [LevelStmt(ls[0])] + LevelStmts(ls[1..])
    ensures LevelStmts(ls)[1..] == LevelStmts(ls[1..])
  {}

  lemma {:induction false} LevelsText(ls: seq<SortLevel>)
    requires SpellableSort(ls)
    ensures |LevelStmts(ls)| == |ls|
    ensures WriteStmts(LevelStmts(ls)) == EncLevels(ls)
  {
    hide LevelStmt, WriteStmt, EncLevel, SpellableStmt, ReadLevel, SpellableLevel;
    if ls != [] {
      assert ls[0] in ls && forall l :: l in ls[1..] ==> l in ls;
      LevelFacts(ls[0]);
      LevelsText(ls[1..]);
      LevelStmtsStep(ls);
    }
  }

  lemma {:induction false} LevelsSpellable(ls: seq<SortLevel>)
    requires SpellableSort(ls)
    ensures SpellableBlock(LevelStmts(ls))
  {
    hide LevelStmt, SpellableStmt, ReadLevel, SpellableLevel, WriteStmt, EncLevel;
    if ls != [] {
      assert ls[0] in ls && forall l :: l in ls[1..] ==> l in ls;
      LevelFacts(ls[0]);
      LevelsSpellable(ls[1..]);
      LevelStmtsStep(ls);
    }
  }

  lemma {:induction false} LevelsRead(ls: seq<SortLevel>)
    requires SpellableSort(ls)
    ensures ReadLevels(LevelStmts(ls)) == Ok(ls)
  {
    hide LevelStmt, SpellableStmt, ReadLevel, SpellableLevel, WriteStmt, EncLevel;
    if ls != [] {
      assert ls[0] in ls && forall l :: l in ls[1..] ==> l in ls;
      LevelFacts(ls[0]);
      LevelsRead(ls[1..]);
      LevelStmtsStep(ls);
      assert ls == [ls[0]] + ls[1..];
    }
  }

  // ----- arguments separated by blanks -----

  /** The text of a run of arguments, as `PutDescriptor` and `PutScope` build it. */
  predicate Spells(text: string, args: seq<Arg>) {
    WriteArgs(args) == (if text == "" then "" else " " + text) && (args == [] <==> text == "")
  }

  lemma {:induction false} Spread(text: string, part: string)
    ensures (if text == "" then "" else " " + text) + (" " + part) == " " + Part(text, part)
    ensures part != "" ==> Part(text, part) != ""
  {}

  lemma {:induction false} SpellsPart(text: string, args: seq<Arg>, part: string, a: Arg)
    requires Spells(text, args) && WriteArg(a) == part && part != ""
    ensures Spells(Part(text, part), args + [a])
  {
    hide WriteArg, WriteArgs;
    WriteArgsConcat(args, [a]);
    WriteArgsOne(a);
    Spread(text, part);
    assert args + [a] != [];
  }

  lemma {:induction false} NamedText(name: string, v: Value)
    requires name != ""
    ensures WriteArg(Named(name, v)) == name + "=" + WriteValue(v)
  {}

  // ----- descriptors -----

  predicate SpellableDescriptor(d: Descriptor) {
    && NulFree(d.source)
    && SpellableBag(d.fields) && SpellableBag(d.exclude) && SpellableSort(d.sort)
    && (d.filter.Some? ==> d.filter.value.op == "and" && SpellableFilter(d.filter.value))
  }

  function IfAny(some: bool, a: Arg): seq<Arg> {
    if some then [a] else []
  }

  function SourceArgs(d: Descriptor): seq<Arg> {
    IfAny(d.source != "", Named("source", Str(d.source)))
  }

  function FieldsArgs(d: Descriptor): seq<Arg> {
    IfAny(d.fields != [], Named("fields", Block(BagStmts(d.fields))))
  }

  function ExcludeArgs(d: Descriptor): seq<Arg> {
    IfAny(d.exclude != [], Named("exclude", Block(BagStmts(d.exclude))))
  }

  function FilterArgs(d: Descriptor): seq<Arg> {
    if d.filter.Some? then [Named("filter", Block(FilterTree(d.filter.value)))] else []
  }

  function SortArgs(d: Descriptor): seq<Arg> {
    IfAny(d.sort != [], Named("sort", Block(LevelStmts(d.sort))))
  }

  function DescriptorArgs(d: Descriptor): seq<Arg> {
    SourceArgs(d) + FieldsArgs(d) + ExcludeArgs(d) + FilterArgs(d) + SortArgs(d)
  }

  lemma {:induction false} BagText(b: seq<Field>)
    requires SpellableBag(b)
    ensures WriteBlock(BagStmts(b)) == EncBag(b)
  {
    hide WriteStmts, EncFields, SpellableBagField;
    BagFacts(b);
  }

  lemma {:induction false} SortText(ls: seq<SortLevel>)
    requires SpellableSort(ls)
    ensures WriteBlock(LevelStmts(ls)) == EncSort(ls)
  {
    hide WriteStmts, EncLevels, SpellableLevel;
    SortFacts(ls);
  }

  /** One more optional part, in the text and in the arguments alike. */
  lemma {:induction false} SpellsMaybe(text: string, args: seq<Arg>, some: bool, name: string, v: Value, body: string)
    requires Spells(text, args)
    requires some ==> name != "" && WriteValue(v) == body
    ensures Spells(if some then Part(text, name + "=" + body) else text, args + IfAny(some, Named(name, v)))
  {
    if some {
      NamedText(name, v);
      SpellsPart(text, args, name + "=" + body, Named(name, v));
    } else {
      assert args + [] == args;
    }
  }

  lemma {:induction false} DescriptorText(d: Descriptor)
    requires SpellableDescriptor(d)
    ensures Spells(EncDescriptor(d), DescriptorArgs(d))
  {
    hide EncBag, EncFilter, EncSort, Quote, WriteValue, WriteBlock, BagStmts, LevelStmts, FilterTree, Spells,
        SpellableFilter, SpellableBag, SpellableSort, Part;
    var s0 := if d.source != "" then "source=" + Quote(d.source) else "";
    var s1 := if d.fields != [] then Part(s0, "fields=" + EncBag(d.fields)) else s0;
    var s2 := if d.exclude != [] then Part(s1, "exclude=" + EncBag(d.exclude)) else s1;
    var s3 := if d.filter.Some? then Part(s2, "filter=" + EncFilter(d.filter.value)) else s2;
    BlockTexts(d);
    SourceText(d.source);
    var a0 := SourceArgs(d);
    SpellsMaybe(s0, a0, d.fields != [], "fields", Block(BagStmts(d.fields)), EncBag(d.fields));
    assert "fields" + "=" == "fields=";
    var a1 := a0 + FieldsArgs(d);
    SpellsMaybe(s1, a1, d.exclude != [], "exclude", Block(BagStmts(d.exclude)), EncBag(d.exclude));
    assert "exclude" + "=" == "exclude=";
    var a2 := a1 + ExcludeArgs(d);
    if d.filter.Some? {
      SpellsMaybe(s2, a2, true, "filter", Block(FilterTree(d.filter.value)), EncFilter(d.filter.value));
      assert "filter" + "=" == "filter=";
    } else {
      assert a2 + [] == a2;
    }
    var a3 := a2 + FilterArgs(d);
    SpellsMaybe(s3, a3, d.sort != [], "sort", Block(LevelStmts(d.sort)), EncSort(d.sort));
    assert "sort" + "=" == "sort=";
  }

  lemma {:induction false} SourceText(source: string)
    ensures Spells(if source != "" then "source=" + Quote(source) else "",
                   IfAny(source != "", Named("source", Str(source))))
  {
    if source != "" {
      WriteArgsOne(Named("source", Str(source)));
      assert "source" + "=" == "source=";
    }
  }

  lemma {:induction false} BlockTexts(d: Descriptor)
    requires SpellableDescriptor(d)
    ensures WriteValue(Block(BagStmts(d.fields))) == EncBag(d.fields)
    ensures WriteValue(Block(BagStmts(d.exclude))) == EncBag(d.exclude)
    ensures d.filter.Some? ==> WriteValue(Block(FilterTree(d.filter.value))) == EncFilter(d.filter.value)
    ensures WriteValue(Block(LevelStmts(d.sort))) == EncSort(d.sort)
  {
    hide WriteBlock, EncBag, EncSort, EncFilter, FilterTree, SpellableBag, SpellableSort;
    BagText(d.fields);
    BagText(d.exclude);
    SortText(d.sort);
    if d.filter.Some? {
      TopText(d.filter.value);
    }
  }

  lemma {:induction false} DescribeNames()
    ensures IsName("source") && IsName("fields") && IsName("exclude") && IsName("filter") && IsName("sort")
  {}

  lemma {:induction false} DescriptorSpellable(d: Descriptor)
    requires SpellableDescriptor(d)
    ensures SpellableArgs(DescriptorArgs(d))
  {
    hide SpellableBag, SpellableSort, BagStmts, LevelStmts, FilterTree, IsName, SpellableBlock, SpellableArgs;
    DescribeNames();
    BagFacts(d.fields);
    BagFacts(d.exclude);
    SortFacts(d.sort);
    if d.filter.Some? {
      TopText(d.filter.value);
      OneSpellable(true, Named("filter", Block(FilterTree(d.filter.value))));
    } else {
      NoneSpellable();
    }
    OneSpellable(d.source != "", Named("source", Str(d.source)));
    OneSpellable(d.fields != [], Named("fields", Block(BagStmts(d.fields))));
    OneSpellable(d.exclude != [], Named("exclude", Block(BagStmts(d.exclude))));
    OneSpellable(d.sort != [], Named("sort", Block(LevelStmts(d.sort))));
    BothSpellable(SourceArgs(d), FieldsArgs(d));
    BothSpellable(SourceArgs(d) + FieldsArgs(d), ExcludeArgs(d));
    BothSpellable(SourceArgs(d) + FieldsArgs(d) + ExcludeArgs(d), FilterArgs(d));
    BothSpellable(SourceArgs(d) + FieldsArgs(d) + ExcludeArgs(d) + FilterArgs(d), SortArgs(d));
  }

  lemma {:induction false} NoneSpellable()
    ensures SpellableArgs([])
  {}

  lemma {:induction false} OneSpellable(some: bool, a: Arg)
    requires some ==> SpellableArg(a)
    ensures SpellableArgs(IfAny(some, a))
  {
    hide SpellableArg;
  }

  lemma {:induction false} BothSpellable(a: seq<Arg>, b: seq<Arg>)
    requires SpellableArgs(a) && SpellableArgs(b)
    ensures SpellableArgs(a + b)
  {
    hide SpellableArg;
  }

  lemma {:induction false} DescribeConcat(d: Descriptor, a: seq<Arg>, b: seq<Arg>)
    requires DescribeAll(d, a).Ok?
    ensures DescribeAll(d, a + b) == DescribeAll(DescribeAll(d, a).value, b)
    decreases |a|
  {
    hide Describe;
    if a == [] {
      assert a + b == b;
    } else {
      assert (a + b)[0] == a[0] && (a + b)[1..] == a[1..] + b;
      DescribeConcat(Describe(d, a[0]).value, a[1..], b);
    }
  }

  lemma {:induction false} DescribeOne(d: Descriptor, some: bool, a: Arg)
    ensures DescribeAll(d, IfAny(some, a)) == if some then Describe(d, a) else Ok(d)
  {
    hide Describe;
    assert [a][1..] == [];
  }

  /** Reading one argument of a printed descriptor fills in what it says. */
  lemma {:induction false} SourceRead(source: string)
    requires NulFree(source)
    ensures DescribeAll(NOTHING, IfAny(source != "", Named("source", Str(source)))) == Ok(NOTHING.(source := source))
  {
    hide DescribeAll;
    DescribeOne(NOTHING, source != "", Named("source", Str(source)));
    CTextFacts(source);
  }

  lemma {:induction false} BagsRead(d: Descriptor, bag: seq<Field>)
    requires SpellableBag(bag)
    ensures d.fields == [] ==>
              DescribeAll(d, IfAny(bag != [], Named("fields", Block(BagStmts(bag))))) == Ok(d.(fields := bag))
    ensures d.exclude == [] ==>
              DescribeAll(d, IfAny(bag != [], Named("exclude", Block(BagStmts(bag))))) == Ok(d.(exclude := bag))
  {
    hide SpellableBag, BagStmts, DescribeAll, ReadFields;
    BagFacts(bag);
    DescribeOne(d, bag != [], Named("fields", Block(BagStmts(bag))));
    DescribeOne(d, bag != [], Named("exclude", Block(BagStmts(bag))));
  }

  lemma {:induction false} SortRead(d: Descriptor, ls: seq<SortLevel>)
    requires SpellableSort(ls) && d.sort == []
    ensures DescribeAll(d, IfAny(ls != [], Named("sort", Block(LevelStmts(ls))))) == Ok(d.(sort := ls))
  {
    hide SpellableSort, LevelStmts, DescribeAll, ReadLevels;
    SortFacts(ls);
    DescribeOne(d, ls != [], Named("sort", Block(LevelStmts(ls))));
  }

  /** Reading the arguments of a printed descriptor gives the descriptor. */
  lemma {:induction false} DescriptorReads(d: Descriptor)
    requires SpellableDescriptor(d)
    ensures ReadDescriptor(DescriptorArgs(d)) == Ok(d)
  {
    hide SpellableBag, SpellableSort, BagStmts, LevelStmts, DescribeAll, SpellableFilter;
    var d0 := NOTHING.(source := d.source);
    var d1 := d0.(fields := d.fields);
    var d2 := d1.(exclude := d.exclude);
    var d3 := d2.(filter := d.filter);
    SourceRead(d.source);
    BagsRead(d0, d.fields);
    BagsRead(d1, d.exclude);
    FilterArgRead(d2, d.filter);
    SortRead(d3, d.sort);
    FiveParts(d0, d1, d2, d3, d, SourceArgs(d), FieldsArgs(d), ExcludeArgs(d), FilterArgs(d), SortArgs(d));
  }

  lemma {:induction false} FiveParts(
    d0: Descriptor, d1: Descriptor, d2: Descriptor, d3: Descriptor, d4: Descriptor,
    a: seq<Arg>, b: seq<Arg>, c: seq<Arg>, e: seq<Arg>, f: seq<Arg>)
    requires DescribeAll(NOTHING, a) == Ok(d0) && DescribeAll(d0, b) == Ok(d1) && DescribeAll(d1, c) == Ok(d2)
    requires DescribeAll(d2, e) == Ok(d3) && DescribeAll(d3, f) == Ok(d4)
    ensures DescribeAll(NOTHING, a + b + c + e + f) == Ok(d4)
  {
    hide DescribeAll;
    DescribeConcat(NOTHING, a, b);
    DescribeConcat(NOTHING, a + b, c);
    DescribeConcat(NOTHING, a + b + c, e);
    DescribeConcat(NOTHING, a + b + c + e, f);
  }

  lemma {:induction false} FilterArgRead(d: Descriptor, f: Option<Filter>)
    requires f.Some? ==> f.value.op == "and" && SpellableFilter(f.value)
    requires d.filter.None?
    ensures DescribeAll(d, FilterArgs(d.(filter := f))) == Ok(d.(filter := f))
  {
    if f.Some? {
      TopText(f.value);
      var a := Named("filter", Block(FilterTree(f.value)));
      DescribeOne(d, true, a);
      assert ReadFilter(a) == Ok(AsAnd(f.value)) == Ok(f.value);
    }
  }

  // ----- scopes -----

  predicate SpellableScope(s: Scope) {
    && (s.after.Some? ==> !s.after.value.Block? && SpellableValue(s.after.value))
    && (s.until.Some? ==> !s.until.value.Block? && SpellableValue(s.until.value))
    && 0 <= s.count < 0x8000_0000 && 0 <= s.from < 0x8000_0000
    && !(s.after.Some? && s.from != 0)
  }

  function MaybeNamed(name: string, v: Option<Value>): seq<Arg> {
    if v.Some? then [Named(name, v.value)] else []
  }

  function ScopeArgs(s: Scope): seq<Arg>
    requires SpellableScope(s)
  {
    MaybeNamed("after", s.after) + MaybeNamed("until", s.until)
    + IfAny(s.from != 0, Named("from", Int(s.from))) + [Named("count", Int(s.count))]
    + IfAny(s.reversed, Bare("reversed"))
  }

  lemma {:induction false} MaybeText(text: string, args: seq<Arg>, name: string, v: Option<Value>)
    requires Spells(text, args) && name != "" && (v.Some? ==> !v.value.Block?)
    ensures Spells(if v.Some? then Part(text, name + "=" + EncValue(v.value)) else text, args + MaybeNamed(name, v))
  {
    if v.Some? {
      SpellsMaybe(text, args, true, name, v.value, EncValue(v.value));
    } else {
      assert args + [] == args;
    }
  }

  lemma {:induction false} ScopeText(s: Scope)
    requires SpellableScope(s)
    ensures Spells(EncScope(s), ScopeArgs(s))
  {
    hide EncValue, IntText, Spells, WriteArg, SpellableValue, Part;
    var s0 := if s.after.Some? then "after=" + EncValue(s.after.value) else "";
    var s1 := if s.until.Some? then Part(s0, "until=" + EncValue(s.until.value)) else s0;
    var s2 := if s.from != 0 then Part(s1, "from=" + IntText(s.from)) else s1;
    var s3 := Part(s2, "count=" + IntText(s.count));
    AfterText(s.after);
    var a0 := MaybeNamed("after", s.after);
    MaybeText(s0, a0, "until", s.until);
    assert "until" + "=" == "until=";
    var a1 := a0 + MaybeNamed("until", s.until);
    NumberText(s.from);
    SpellsMaybe(s1, a1, s.from != 0, "from", Int(s.from), IntText(s.from));
    assert "from" + "=" == "from=";
    var a2 := a1 + IfAny(s.from != 0, Named("from", Int(s.from)));
    NumberText(s.count);
    SpellsMaybe(s2, a2, true, "count", Int(s.count), IntText(s.count));
    assert "count" + "=" == "count=";
    ReversedText(s3, a2 + [Named("count", Int(s.count))], s.reversed);
  }

  lemma {:induction false} AfterText(v: Option<Value>)
    requires v.Some? ==> !v.value.Block?
    ensures Spells(if v.Some? then "after=" + EncValue(v.value) else "", MaybeNamed("after", v))
  {
    hide EncValue, WriteArg;
    EmptySpells();
    MaybeText("", [], "after", v);
    assert [] + MaybeNamed("after", v) == MaybeNamed("after", v);
    if v.Some? {
      assert "" + "" + ("after" + "=" + EncValue(v.value)) == "after=" + EncValue(v.value);
    }
  }

  lemma {:induction false} ReversedText(text: string, args: seq<Arg>, reversed: bool)
    requires Spells(text, args) && args != []
    ensures Spells(if reversed then text + " reversed" else text, args + IfAny(reversed, Bare("reversed")))
  {
    hide WriteArg;
    if reversed {
      BareText("reversed");
      SpellsPart(text, args, "reversed", Bare("reversed"));
      assert Part(text, "reversed") == text + " reversed";
    } else {
      assert args + [] == args;
    }
  }

  lemma {:induction false} EmptySpells()
    ensures Spells("", [])
  {}

  lemma {:induction false} BareText(name: string)
    ensures WriteArg(Bare(name)) == name
  {}

  lemma {:induction false} NumberText(i: Int64)
    ensures WriteValue(Int(i)) == IntText(i)
  {}

  lemma {:induction false} ScopeNames()
    ensures IsName("after") && IsName("until") && IsName("from") && IsName("count") && IsName("reversed")
  {}

  lemma {:induction false} ScopeSpellable(s: Scope)
    requires SpellableScope(s)
    ensures SpellableArgs(ScopeArgs(s))
  {
    hide IsName, SpellableArgs, SpellableValue;
    ScopeNames();
    var after, until := MaybeNamed("after", s.after), MaybeNamed("until", s.until);
    var from, count := IfAny(s.from != 0, Named("from", Int(s.from))), [Named("count", Int(s.count))];
    MaybeSpellable("after", s.after);
    MaybeSpellable("until", s.until);
    IntSpellable(s.from);
    IntSpellable(s.count);
    OneSpellable(s.from != 0, Named("from", Int(s.from)));
    OneSpellable(true, Named("count", Int(s.count)));
    OneSpellable(s.reversed, Bare("reversed"));
    BothSpellable(after, until);
    BothSpellable(after + until, from);
    BothSpellable(after + until + from, count);
    BothSpellable(after + until + from + count, IfAny(s.reversed, Bare("reversed")));
  }

  lemma {:induction false} IntSpellable(i: Int64)
    ensures SpellableValue(Int(i))
  {}

  lemma {:induction false} MaybeSpellable(name: string, v: Option<Value>)
    requires IsName(name) && (v.Some? ==> SpellableValue(v.value))
    ensures SpellableArgs(MaybeNamed(name, v))
  {
    hide SpellableValue;
  }

  lemma {:induction false} AskConcat(k: Asked, a: seq<Arg>, b: seq<Arg>)
    requires AskAll(k, a).Ok?
    ensures AskAll(k, a + b) == AskAll(AskAll(k, a).value, b)
    decreases |a|
  {
    hide Ask;
    if a == [] {
      assert a + b == b;
    } else {
      assert (a + b)[0] == a[0] && (a + b)[1..] == a[1..] + b;
      AskConcat(Ask(k, a[0]).value, a[1..], b);
    }
  }

  lemma {:induction false} AskOne(k: Asked, a: Arg)
    ensures AskAll(k, [a]) == Ask(k, a)
  {
    hide Ask;
    assert [a][1..] == [];
    if Ask(k, a).Ok? {
      assert AskAll(Ask(k, a).value, []) == Ask(k, a);
    }
  }

  lemma {:induction false} ScopeReads(s: Scope)
    requires SpellableScope(s)
    ensures ReadScope(ScopeArgs(s)) == Ok(Asked(s, false))
  {
    hide AskAll;
    var after, until := MaybeNamed("after", s.after), MaybeNamed("until", s.until);
    var from, count := IfAny(s.from != 0, Named("from", Int(s.from))), [Named("count", Int(s.count))];
    var reversed := IfAny(s.reversed, Bare("reversed"));
    var k0 := UNASKED.(scope := UNASKED.scope.(after := s.after));
    var k1 := k0.(scope := k0.scope.(until := s.until));
    var k2 := k1.(scope := k1.scope.(from := s.from));
    var k3 := k2.(scope := k2.scope.(count := s.count));
    NoneAsked(UNASKED);
    NoneAsked(k0);
    NoneAsked(k1);
    NoneAsked(k3);
    if s.after.Some? { AskOne(UNASKED, Named("after", s.after.value)); }
    if s.until.Some? { AskOne(k0, Named("until", s.until.value)); }
    AskOne(k1, Named("from", Int(s.from)));
    AskOne(k2, Named("count", Int(s.count)));
    AskOne(k3, Bare("reversed"));
    assert AskAll(UNASKED, after) == Ok(k0);
    AskConcat(UNASKED, after, until);
    AskConcat(UNASKED, after + until, from);
    AskConcat(UNASKED, after + until + from, count);
    AskConcat(UNASKED, after + until + from + count, reversed);
  }

  lemma {:induction false} NoneAsked(k: Asked)
    ensures AskAll(k, []) == Ok(k)
  {}

  // ----- through text -----

  /** A printed descriptor, under any head, is read back as the same descriptor, and
      so prints the same text again. */
  lemma {:induction false} DescriptorRoundTrip(head: string, d: Descriptor)
    requires IsHead(head) && SpellableDescriptor(d) && EncDescriptor(d) != ""
    ensures var st := ParseStatement(head + " " + EncDescriptor(d));
            && st == Some(Stmt("", head, DescriptorArgs(d)))
            && ReadDescriptor(st.value.args) == Ok(d)
  {
    hide EncDescriptor, SpellableDescriptor, DescriptorArgs, ReadDescriptor, IsHead, SpellableArgs, WriteArgs,
        ParseStatement;
    DescriptorText(d);
    DescriptorSpellable(d);
    DescriptorReads(d);
    HeadAndArgs(head, DescriptorArgs(d), EncDescriptor(d));
  }

  lemma {:induction false} HeadAndArgs(head: string, args: seq<Arg>, text: string)
    requires IsHead(head) && SpellableArgs(args) && Spells(text, args) && text != ""
    ensures ParseStatement(head + " " + text) == Some(Stmt("", head, args))
  {
    hide SpellableArgs, WriteArgs, IsHead;
    var s := Stmt("", head, args);
    StatementRoundTrip(s);
    assert WriteStmt(s) == head + " " + text by {
      assert "" + head + (" " + text) == head + " " + text;
    }
  }

  lemma {:induction false} ScopeSaysCount(s: Scope)
    requires SpellableScope(s)
    ensures EncScope(s) != ""
  {
    hide EncValue, IntText;
  }

  /** The same of a scope. */
  lemma {:induction false} ScopeRoundTrip(head: string, s: Scope)
    requires IsHead(head) && SpellableScope(s)
    ensures var st := ParseStatement(head + " " + EncScope(s));
            && st == Some(Stmt("", head, ScopeArgs(s)))
            && ReadScope(st.value.args) == Ok(Asked(s, false))
  {
    hide EncScope, SpellableScope, ScopeArgs, ReadScope, IsHead, SpellableArgs, WriteArgs, ParseStatement;
    ScopeText(s);
    ScopeSpellable(s);
    ScopeReads(s);
    ScopeSaysCount(s);
    HeadAndArgs(head, ScopeArgs(s), EncScope(s));
  }

  // ----- a statement carries both -----

  /** What a scope says is no part of the descriptor, and the other way about. */
  lemma {:induction false} DescribeIgnores(d: Descriptor, args: seq<Arg>)
    requires forall a :: a in args ==> a.name !in ["source", "fields", "exclude", "filter", "sort"]
    ensures DescribeAll(d, args) == Ok(d)
    decreases |args|
  {
    if args != [] {
      assert args[0] in args && forall a :: a in args[1..] ==> a in args;
      assert Describe(d, args[0]) == Ok(d);
      DescribeIgnores(d, args[1..]);
    }
  }

  lemma {:induction false} AskIgnores(k: Asked, args: seq<Arg>)
    requires forall a :: a in args ==> a.name !in ["count", "after", "until", "from", "reversed", "extend"]
    ensures AskAll(k, args) == Ok(k)
    decreases |args|
  {
    if args != [] {
      assert args[0] in args && forall a :: a in args[1..] ==> a in args;
      assert Ask(k, args[0]) == Ok(k);
      AskIgnores(k, args[1..]);
    }
  }

  lemma {:induction false} DescriptorNames(d: Descriptor)
    ensures forall a :: a in DescriptorArgs(d) ==> a.name in ["source", "fields", "exclude", "filter", "sort"]
  {
    hide BagStmts, LevelStmts, FilterTree;
    forall a | a in DescriptorArgs(d) ensures a.name in ["source", "fields", "exclude", "filter", "sort"] {
      assert a in SourceArgs(d) || a in FieldsArgs(d) || a in ExcludeArgs(d) || a in FilterArgs(d) || a in SortArgs(d);
    }
  }

  lemma {:induction false} ScopeArgNames(s: Scope)
    requires SpellableScope(s)
    ensures forall a :: a in ScopeArgs(s) ==> a.name in ["count", "after", "until", "from", "reversed"]
  {
    hide SpellableValue;
  }

  /** `new query` states a sequence and asks for a run of it in one statement. Written
      out and parsed, the descriptor and the scope are read apart from the very same
      arguments, and each is what it was. */
  lemma {:induction false} QueryRoundTrip(d: Descriptor, s: Scope)
    requires SpellableDescriptor(d) && EncDescriptor(d) != "" && SpellableScope(s)
    ensures var st := ParseStatement("new query " + EncDescriptor(d) + " " + EncScope(s));
            && st.Some? && st.value.verb == "new" && st.value.args != [] && st.value.args[0] == Bare("query")
            && ReadDescriptor(st.value.args[1..]) == Ok(d)
            && ReadScope(st.value.args[1..]) == Ok(Asked(s, false))
  {
    hide EncDescriptor, SpellableDescriptor, DescriptorArgs, EncScope, SpellableScope, ScopeArgs, SpellableArgs,
      WriteArgs, ParseStatement, DescribeAll, AskAll;
    var da, sa := DescriptorArgs(d), ScopeArgs(s);
    var args := [Bare("query")] + (da + sa);
    DescriptorText(d);
    DescriptorSpellable(d);
    ScopeText(s);
    ScopeSpellable(s);
    ScopeSaysCount(s);
    BothSpellable(da, sa);
    QueryHead();
    BothSpellable([Bare("query")], da + sa);
    WriteArgsConcat(da, sa);
    WriteArgsConcat([Bare("query")], da + sa);
    var text := "query " + EncDescriptor(d) + " " + EncScope(s);
    QueryText(EncDescriptor(d), EncScope(s));
    HeadAndArgs("new", args, text);
    assert args[1..] == da + sa;
    BothRead(d, s);
  }

  lemma {:induction false} QueryText(descriptor: string, scope: string)
    ensures " query" + (" " + descriptor + (" " + scope)) == " " + ("query " + descriptor + " " + scope)
    ensures "new" + " " + ("query " + descriptor + " " + scope) == "new query " + descriptor + " " + scope
  {
    assert " " + "query " == " query" + " ";
    assert "new" + " " + "query " == "new query ";
  }

  lemma {:induction false} QueryHead()
    ensures IsHead("new") && SpellableArgs([Bare("query")]) && WriteArgs([Bare("query")]) == " query"
  {
    assert IsName("query");
    WriteArgsOne(Bare("query"));
    assert " " + "query" == " query";
  }

  lemma {:induction false} BothRead(d: Descriptor, s: Scope)
    requires SpellableDescriptor(d) && SpellableScope(s)
    ensures ReadDescriptor(DescriptorArgs(d) + ScopeArgs(s)) == Ok(d)
    ensures ReadScope(DescriptorArgs(d) + ScopeArgs(s)) == Ok(Asked(s, false))
  {
    hide SpellableDescriptor, DescriptorArgs, SpellableScope, ScopeArgs, DescribeAll, AskAll;
    DescriptorReads(d);
    ScopeReads(s);
    DescriptorNames(d);
    ScopeArgNames(s);
    DescribeConcat(NOTHING, DescriptorArgs(d), ScopeArgs(s));
    DescribeIgnores(d, ScopeArgs(s));
    AskIgnores(UNASKED, DescriptorArgs(d));
    AskConcat(UNASKED, DescriptorArgs(d), ScopeArgs(s));
  }
}
