/**
 A query written out and taken apart again is the query it was.

 The printers' text is shown to be the spelling of a statement tree, the parser
 to give that tree back, and the readers to undo the tree.
 */
module FilterSpelling {
  import opened Text
  import opened Tokens
  import opened Quoting
  import opened Syntax
  import opened Parser
  import opened RoundTrip
  import opened Query
  import opened Reader

  // ----- the trees the printers write -----

  /** A bare word written where a value belongs arrives as a flag. */
  function OperandOf(v: Value): Arg {
    if v.Word? && IsWord(v.w) && IsWordStart(v.w[0]) then Bare(v.w) else Operand(v)
  }

  function FieldArg(name: string): Arg {
    if NeedsQuotes(name) then Operand(Str(name)) else OperandOf(Word(name))
  }

  function Operands(vs: seq<Value>): seq<Arg> {
    if vs == [] then [] else [OperandOf(vs[0])] + Operands(vs[1..])
  }

  function CollateArgs(collate: string): seq<Arg> {
    if collate == "" then [] else [Named("collate", Word(collate))]
  }

  function FilterStmt(f: Filter): Stmt
    decreases f, 0
  {
    if IsGroup(f.op) then Stmt("", f.op, [Operand(Block(FilterStmts(f.children)))])
    else
      Stmt("", f.op,
           (if f.op == "id" then [] else [FieldArg(f.field)]) + (Operands(f.values) + CollateArgs(f.collate)))
  }

  function FilterStmts(fs: seq<Filter>): (r: seq<Stmt>)
    ensures |r| == |fs|
    decreases fs, 0
  {
    if fs == [] then [] else [FilterStmt(fs[0])] + FilterStmts(fs[1..])
  }

  // ----- what has a spelling -----

  /** A value the grammar reads back where no name stands in front of it. A word that
      starts as one and goes on with a `+` is the case that looks bare and is not. */
  predicate SpellableItem(v: Value) {
    && !v.Block? && SpellableValue(v)
    && (v.Word? && IsWord(v.w) && IsWordStart(v.w[0]) ==> AllWordRunes(v.w))
  }

  /** `id` reads no flags, so an identity may not be a word that is written as one. */
  predicate SpellableIdentity(v: Value) {
    SpellableItem(v) && !(v.Word? && IsWord(v.w) && IsWordStart(v.w[0]))
  }

  predicate SpellableField(name: string) {
    name != "" && NulFree(name) && (NeedsQuotes(name) || SpellableItem(Word(name)))
  }

  predicate RightCount(op: string, n: nat) {
    if op == "has" || op == "lacks" then n == 0 else if op == "in" then n > 0 else n == 1
  }

  predicate SpellableFilter(f: Filter)
    decreases f
  {
    if IsGroup(f.op) then
      && f.field == "" && f.values == [] && f.collate == ""
      && (f.op == "not" ==> f.children != [])
      && forall c :: c in f.children ==> SpellableFilter(c)
    else if f.op == "id" then
      && f.field == "" && f.collate == "" && f.children == [] && f.values != []
      && forall v :: v in f.values ==> SpellableIdentity(v)
    else
      && f.op in OPERATORS && f.children == []
      && SpellableField(f.field) && (f.collate == "" || IsWord(f.collate))
      && RightCount(f.op, |f.values|)
      && forall v :: v in f.values ==> SpellableItem(v)
  }

  // ----- text and tree -----

  lemma {:induction false} OperandText(v: Value)
    requires !v.Block?
    ensures WriteArg(OperandOf(v)) == EncValue(v)
  {
    if v.Word? && IsWord(v.w) && IsWordStart(v.w[0]) {
      WordText(v.w);
    } else {
      assert "" + WriteValue(v) == WriteValue(v);
    }
  }

  lemma {:induction false} FieldArgText(name: string)
    requires NulFree(name)
    ensures WriteArg(FieldArg(name)) == EncFieldName(name)
  {
    CTextFacts(name);
    if NeedsQuotes(name) {
      assert "" + Quote(name) == Quote(name);
    } else {
      OperandText(Word(name));
    }
  }

  lemma {:induction false} WriteArgsConcat(a: seq<Arg>, b: seq<Arg>)
    ensures WriteArgs(a + b) == WriteArgs(a) + WriteArgs(b)
  {
    hide WriteArg;
    if a == [] {
      assert a + b == b && WriteArgs(a) + WriteArgs(b) == WriteArgs(b);
    } else {
      assert (a + b)[0] == a[0] && (a + b)[1..] == a[1..] + b;
      WriteArgsConcat(a[1..], b);
      Regroup(" " + WriteArg(a[0]), WriteArgs(a[1..]), WriteArgs(b));
    }
  }

  lemma {:induction false} WriteArgsOne(a: Arg)
    ensures WriteArgs([a]) == " " + WriteArg(a)
  {
    hide WriteArg;
    assert [a][1..] == [] && WriteArgs([]) == "";
    assert " " + WriteArg(a) + "" == " " + WriteArg(a);
  }

  lemma {:induction false} OperandsText(vs: seq<Value>)
    requires forall v :: v in vs ==> !v.Block?
    ensures WriteArgs(Operands(vs)) == EncValues(vs)
  {
    hide EncValue, WriteArg, OperandOf;
    if vs != [] {
      OperandText(vs[0]);
      assert forall v :: v in vs[1..] ==> v in vs;
      OperandsText(vs[1..]);
      assert Operands(vs)[1..] == Operands(vs[1..]);
    }
  }

  lemma {:induction false} CollateText(collate: string)
    requires collate == "" || IsWord(collate)
    ensures WriteArgs(CollateArgs(collate)) == EncCollate(collate)
  {
    WordText(collate);
    if collate != "" {
      WriteArgsOne(Named("collate", Word(collate)));
      assert "collate" + "=" == "collate=";
      assert " " + ("collate=" + collate) == " collate=" + collate;
    }
  }

  lemma {:induction false} FilterText(f: Filter)
    requires SpellableFilter(f)
    ensures WriteStmt(FilterStmt(f)) == EncFilterStmt(f)
    decreases f, 1
  {
    if IsGroup(f.op) {
      FilterBlockText(f.children);
      var a := Operand(Block(FilterStmts(f.children)));
      WriteArgsOne(a);
      assert WriteArg(a) == EncFilterBlock(f.children);
      GroupText(f.op, EncFilterBlock(f.children));
    } else {
      ComparisonText(f);
    }
  }

  lemma {:induction false} GroupText(op: string, block: string)
    ensures "" + op + (" " + block) == op + " " + block
  {}

  lemma {:induction false} ComparisonText(f: Filter)
    requires SpellableFilter(f) && !IsGroup(f.op)
    ensures WriteStmt(FilterStmt(f)) == EncFilterStmt(f)
  {
    hide EncFieldName, EncValues, EncCollate, WriteArg;
    OperandsText(f.values);
    CollateText(f.collate);
    var head := if f.op == "id" then [] else [FieldArg(f.field)];
    var more := Operands(f.values) + CollateArgs(f.collate);
    WriteArgsConcat(head, more);
    WriteArgsConcat(Operands(f.values), CollateArgs(f.collate));
    if f.op == "id" {
      JoinedText(f.op, "", EncValues(f.values), EncCollate(f.collate));
    } else {
      FieldArgText(f.field);
      WriteArgsOne(FieldArg(f.field));
      JoinedText(f.op, " " + EncFieldName(f.field), EncValues(f.values), EncCollate(f.collate));
    }
  }

  lemma {:induction false} JoinedText(op: string, field: string, values: string, collate: string)
    ensures "" + op + (field + (values + collate)) == op + field + values + collate
  {}

  lemma {:induction false} FilterBlockText(fs: seq<Filter>)
    requires forall f :: f in fs ==> SpellableFilter(f)
    ensures WriteBlock(FilterStmts(fs)) == EncFilterBlock(fs)
    decreases fs, 2
  {
    FilterStmtsText(fs);
  }

  lemma {:induction false} FilterStmtsText(fs: seq<Filter>)
    requires forall f :: f in fs ==> SpellableFilter(f)
    ensures WriteStmts(FilterStmts(fs)) == EncFilterStmts(fs)
    decreases fs, 1
  {
    hide FilterStmt, WriteStmt, EncFilterStmt, SpellableFilter;
    if fs != [] {
      FilterText(fs[0]);
      assert forall f :: f in fs[1..] ==> f in fs;
      FilterStmtsText(fs[1..]);
      assert FilterStmts(fs)[1..] == FilterStmts(fs[1..]);
    }
  }

  // ----- the trees can be spelled -----

  lemma {:induction false} OperatorIsHead(op: string)
    requires op in OPERATORS || IsGroup(op) || op == "id"
    ensures IsHead(op)
  {
    assert IsHead("eq") && IsHead("ne") && IsHead("lt") && IsHead("le") && IsHead("gt") && IsHead("ge");
    assert IsHead("in") && IsHead("contains") && IsHead("starts") && IsHead("ends") && IsHead("has") && IsHead("lacks");
    assert IsHead("and") && IsHead("or") && IsHead("not") && IsHead("id");
  }

  lemma {:induction false} OperandSpellable(v: Value)
    requires SpellableItem(v)
    ensures SpellableArg(OperandOf(v))
  {}

  lemma {:induction false} OperandsSpellable(vs: seq<Value>)
    requires forall v :: v in vs ==> SpellableItem(v)
    ensures SpellableArgs(Operands(vs))
  {
    if vs != [] {
      assert vs[0] in vs && forall v :: v in vs[1..] ==> v in vs;
      OperandsSpellable(vs[1..]);
      OperandSpellable(vs[0]);
    }
  }

  lemma {:induction false} FieldArgSpellable(name: string)
    requires SpellableField(name)
    ensures SpellableArg(FieldArg(name))
  {}

  lemma {:induction false} GroupSpellable(b: seq<Stmt>)
    ensures SpellableBlock(b) ==> SpellableArg(Operand(Block(b)))
  {}

  lemma {:induction false} FilterSpellable(f: Filter)
    requires SpellableFilter(f)
    ensures SpellableStmt(FilterStmt(f))
    decreases f, 1
  {
    hide FieldArg, CollateArgs, SpellableArg, IsHead, Operands;
    OperatorIsHead(f.op);
    if IsGroup(f.op) {
      GroupSpellable(FilterStmts(f.children));
      FilterStmtsSpellable(f.children);
    } else {
      OperandsSpellable(f.values);
      if f.op != "id" {
        FieldArgSpellable(f.field);
      }
      CollateSpellable(f.collate);
    }
  }

  lemma {:induction false} CollateSpellable(collate: string)
    requires collate == "" || IsWord(collate)
    ensures SpellableArgs(CollateArgs(collate))
  {
    assert IsName("collate");
  }

  lemma {:induction false} FilterStmtsSpellable(fs: seq<Filter>)
    requires forall f :: f in fs ==> SpellableFilter(f)
    ensures SpellableBlock(FilterStmts(fs))
    decreases fs, 0
  {
    hide FilterStmt, SpellableStmt, SpellableFilter;
    if fs != [] {
      FilterSpellable(fs[0]);
      assert forall f :: f in fs[1..] ==> f in fs;
      FilterStmtsSpellable(fs[1..]);
    }
  }

  // ----- the readers undo the trees -----

  lemma {:induction false} OperandReads(v: Value)
    requires !v.Block?
    ensures ValueOf(OperandOf(v)) == Ok(v) && !IsCollate(OperandOf(v))
    ensures OperandOf(v).value.Some? ==> !OperandOf(v).value.value.Block?
  {}

  lemma {:induction false} FieldReads(name: string)
    requires NulFree(name)
    ensures FieldOf(FieldArg(name)) == Ok(name) && !IsCollate(FieldArg(name))
  {
    CTextFacts(name);
  }

  lemma {:induction false} OperandsTold(op: string, t: Told, vs: seq<Value>, rest: seq<Arg>)
    requires t.named && forall v :: v in vs ==> !v.Block?
    ensures TellAll(op, t, Operands(vs) + rest) == TellAll(op, t.(values := t.values + vs), rest)
    decreases |vs|
  {
    hide OperandOf, Tell, TellAll, Operands;
    if vs == [] {
      NoOperands(rest);
      assert t.values + vs == t.values;
    } else {
      var t' := t.(values := t.values + [vs[0]]);
      assert vs[0] in vs && forall v :: v in vs[1..] ==> v in vs;
      OperandReads(vs[0]);
      OperandTold(op, t, vs[0]);
      TellStep(op, t, OperandOf(vs[0]), Operands(vs[1..]) + rest);
      OperandsStep(vs, rest);
      OperandsTold(op, t', vs[1..], rest);
      Regroup(t.values, [vs[0]], vs[1..]);
      assert [vs[0]] + vs[1..] == vs;
    }
  }

  lemma {:induction false} NoOperands(rest: seq<Arg>)
    ensures Operands([]) + rest == rest
  {}

  lemma {:induction false} OperandsStep(vs: seq<Value>, rest: seq<Arg>)
    requires vs != []
    ensures Operands(vs) + rest == [OperandOf(vs[0])] + (Operands(vs[1..]) + rest)
  {}

  lemma {:induction false} OperandTold(op: string, t: Told, v: Value)
    requires t.named && !v.Block?
    ensures Tell(op, t, OperandOf(v)) == Ok(t.(values := t.values + [v]))
  {
    OperandReads(v);
  }

  lemma {:induction false} TellStep(op: string, t: Told, a: Arg, rest: seq<Arg>)
    requires Tell(op, t, a).Ok?
    ensures TellAll(op, t, [a] + rest) == TellAll(op, Tell(op, t, a).value, rest)
  {
    assert ([a] + rest)[1..] == rest;
  }

  lemma {:induction false} CollateTold(op: string, t: Told, collate: string)
    requires t.collate == "" && NulFree(collate)
    ensures TellAll(op, t, CollateArgs(collate)) == Ok(t.(collate := collate))
  {
    CTextFacts(collate);
    if collate != "" {
      var a := CollateArgs(collate);
      assert a[1..] == [];
      assert TellAll(op, t.(collate := collate), a[1..]) == Ok(t.(collate := collate));
    }
  }

  /** Identities read back as they were exactly where each is written as a value. */
  lemma {:induction false} IdentitiesReadWhen(vs: seq<Value>)
    requires forall v :: v in vs ==> !v.Block?
    ensures ReadIdentities(Operands(vs)) == Ok(vs) <==> forall v :: v in vs ==> OperandOf(v).value.Some?
    ensures ReadIdentities(Operands(vs)).Ok? ==> ReadIdentities(Operands(vs)) == Ok(vs)
  {
    hide OperandOf, ReadIdentity, Operands;
    OperandsFront(vs);
    if vs != [] {
      assert vs[0] in vs && forall v :: v in vs[1..] ==> v in vs;
      assert forall v :: v in vs ==> v == vs[0] || v in vs[1..];
      IdentitiesReadWhen(vs[1..]);
      IdentityReadsWhen(vs[0]);
      assert vs == [vs[0]] + vs[1..];
    }
  }

  lemma {:induction false} OperandsFront(vs: seq<Value>)
    ensures vs == [] ==> Operands(vs) == []
    ensures vs != [] ==>
              Operands(vs) != [] && Operands(vs)[0] == OperandOf(vs[0]) && Operands(vs)[1..] == Operands(vs[1..])
  {
    hide OperandOf;
  }

  lemma {:induction false} IdentityReadsWhen(v: Value)
    requires !v.Block?
    ensures ReadIdentity(OperandOf(v)).Ok? <==> OperandOf(v).value.Some?
    ensures ReadIdentity(OperandOf(v)).Ok? ==> ReadIdentity(OperandOf(v)) == Ok(v)
  {}

  lemma {:induction false} IdentitiesRead(vs: seq<Value>)
    requires forall v :: v in vs ==> SpellableIdentity(v)
    ensures ReadIdentities(Operands(vs)) == Ok(vs)
  {
    IdentitiesReadWhen(vs);
  }

  lemma {:induction false} ComparisonReads(f: Filter)
    requires SpellableFilter(f) && !IsGroup(f.op) && f.op != "id"
    ensures ReadPredicate(FilterStmt(f)) == Ok(f)
  {
    hide FieldArg, IsCollate;
    FieldReads(f.field);
    var rest := Operands(f.values) + CollateArgs(f.collate);
    var args := [FieldArg(f.field)] + rest;
    assert args[0] == FieldArg(f.field) && args[1..] == rest;
    var t := UNTOLD.(named := true, field := f.field);
    assert TellAll(f.op, UNTOLD, args) == TellAll(f.op, t, rest);
    OperandsTold(f.op, t, f.values, CollateArgs(f.collate));
    assert [] + f.values == f.values;
    WordText(f.collate);
    CollateTold(f.op, t.(values := f.values), f.collate);
  }

  lemma {:induction false} FilterReads(f: Filter)
    requires SpellableFilter(f)
    ensures ReadPredicate(FilterStmt(f)) == Ok(f)
    decreases f, 1
  {
    if IsGroup(f.op) {
      FilterStmtsRead(f.children);
    } else if f.op == "id" {
      IdentitiesRead(f.values);
      assert [] + (Operands(f.values) + []) == Operands(f.values);
    } else {
      ComparisonReads(f);
    }
  }

  lemma {:induction false} FilterStmtsRead(fs: seq<Filter>)
    requires forall f :: f in fs ==> SpellableFilter(f)
    ensures ReadFilterBlock(FilterStmts(fs)) == Ok(fs)
    decreases fs, 0
  {
    hide FilterStmt, ReadPredicate, SpellableFilter, FilterStmts;
    FilterStmtsStep(fs);
    if fs != [] {
      FilterReads(fs[0]);
      assert forall f :: f in fs[1..] ==> f in fs;
      FilterStmtsRead(fs[1..]);
      assert fs == [fs[0]] + fs[1..];
    }
  }

  lemma {:induction false} FilterStmtsStep(fs: seq<Filter>)
    ensures fs == [] ==> FilterStmts(fs) == []
    ensures fs != [] ==> FilterStmts(fs)[0] == FilterStmt(fs[0]) && FilterStmts(fs)[1..] == FilterStmts(fs[1..])
  {
    hide FilterStmt;
  }

  // ----- filters, through text -----

  /** What is written for a filter, as the block it is. */
  function FilterTree(f: Filter): seq<Stmt> {
    if IsGroup(f.op) then FilterStmts(f.children) else [FilterStmt(f)]
  }

  /** Children that can all be spelled, under a top that may be any node. */
  predicate SpellableTop(f: Filter) {
    if IsGroup(f.op) then
      f.field == "" && f.values == [] && f.collate == "" && forall c :: c in f.children ==> SpellableFilter(c)
    else SpellableFilter(f)
  }

  /** The filter a printed one reads back as: a block is an AND, whatever was
      written in front of it at the top. */
  function AsAnd(f: Filter): Filter {
    Filter("and", "", [], "", if IsGroup(f.op) then f.children else [f])
  }

  lemma {:induction false} TopText(f: Filter)
    requires SpellableTop(f)
    ensures WriteBlock(FilterTree(f)) == EncFilter(f)
    ensures SpellableBlock(FilterTree(f))
    ensures ReadFilterBlock(FilterTree(f)) == Ok(AsAnd(f).children)
  {
    if IsGroup(f.op) {
      FilterBlockText(f.children);
      FilterStmtsSpellable(f.children);
      FilterStmtsRead(f.children);
    } else {
      FilterText(f);
      FilterSpellable(f);
      FilterReads(f);
      assert [FilterStmt(f)][1..] == [];
      assert ReadFilterBlock([]) == Ok([]);
      assert [f] + [] == [f];
    }
  }

  /** Printing a filter, parsing it and reading it apart gives the tree back, to any
      depth, and stops exactly where it ends. What comes back is an AND of what
      stood at the top, so it is the same tree exactly when the top was an AND. */
  lemma {:induction false} FilterRoundTrip(f: Filter, t: string)
    requires SpellableTop(f)
    ensures var p := ParseValue(EncFilter(f) + t);
            && !p.bad && p.rest == t && p.value.Some?
            && ReadFilter(Named("filter", p.value.value)) == Ok(AsAnd(f))
            && (ReadFilter(Named("filter", p.value.value)) == Ok(f) <==> f.op == "and")
  {
    TopText(f);
    BlockBack(FilterTree(f), t);
  }
}
