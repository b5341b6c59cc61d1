/**
 Exactly which filters survive being printed, parsed and read: those whose every field,
 value and collation has a spelling, over all strings.

 Where one has none the text may still be read, and as a filter, but not as the same.
 */
module FilterLimits {
  import opened Text
  import opened Tokens
  import opened Quoting
  import opened Syntax
  import opened Parser
  import opened RoundTrip
  import opened Query
  import opened Reader
  import opened FilterSpelling
  import opened SpellingLimits

  // ----- what any text at all can be read as -----

  predicate ReadableValue(v: Value) {
    && (v.Float? ==> NumeralOf(v.text).Fractional?)
    && (v.Word? ==> ')' !in v.w && '\n' !in v.w)
  }

  predicate ReadableArg(a: Arg) {
    AllWordRunes(a.name) && (a.value.Some? ==> ReadableValue(a.value.value))
  }

  lemma {:induction false} TokenHasNone(w: string)
    requires AllTokenRunes(w)
    ensures ')' !in w && '\n' !in w
  {
    forall c | c in w ensures IsTokenRune(c) {
      var k :| 0 <= k < |w| && w[k] == c;
    }
  }

  lemma {:induction false} ValueReadable(s: string)
    ensures var p := ParseValue(s); p.value.Some? ==> ReadableValue(p.value.value)
  {
    hide ParseScript, ReadString;
    if s != "" && s[0] == '(' {
      var u := s[1..];
      var w := u[..Span(InSymbol, u)];
      forall c | c in w ensures InSymbol(c) {
        var k :| 0 <= k < |w| && w[k] == c;
      }
      assert ParseSymbol(u).value == w;
    } else if s != "" && s[0] != '{' && s[0] != '"' && IsTokenRune(s[0]) {
      var w := s[..Span(IsTokenRune, s)];
      assert forall k :: 0 <= k < |w| ==> w[k] == s[k];
      TokenHasNone(w);
    }
  }

  lemma {:induction false} ArgReadable(s: string)
    requires s != "" && StartsArg(s[0])
    ensures ReadableArg(ParseArg(s).value)
  {
    hide ParseValue, SkipInline, ReadableValue;
    NameReadable(s);
    NameReadable(s[1..]);
    ValueReadable(s);
    if IsWordStart(s[0]) && s[0] != '!' && s[0] != '?' {
      var t := SkipInline(AfterWord(s));
      if t != "" && t[0] == '=' {
        ValueReadable(t[1..]);
      }
    }
  }

  lemma {:induction false} NameReadable(s: string)
    ensures AllWordRunes(WordOf(s))
  {}

  lemma {:induction false} ArgsReadable(s: string, inBlock: bool)
    ensures forall a :: a in ParseArgs(s, inBlock).value ==> ReadableArg(a)
    decreases |s|
  {
    hide ParseArg, ReadableArg;
    ArgsAre(s, inBlock);
    var x := SkipInline(s);
    if !EndsStatement(x, inBlock) && StartsArg(x[0]) {
      ArgReadable(x);
      ArgsReadable(ParseArg(x).rest, inBlock);
    }
  }

  lemma {:induction false} ArgsAre(s: string, inBlock: bool)
    ensures var x := SkipInline(s);
            ParseArgs(s, inBlock) ==
              if EndsStatement(x, inBlock) then Parse([], x, false)
              else if !StartsArg(x[0]) then Parse([], x, true)
              else
                var a := ParseArg(x);
                var more := ParseArgs(a.rest, inBlock);
                Parse([a.value] + more.value, more.rest, a.bad || more.bad)
  {}

  // ----- what any filter read is like -----

  /** A value a filter can hold at all. */
  predicate Item(v: Value) {
    !v.Block? && (v.Float? ==> NumeralOf(v.text).Fractional?)
  }

  predicate PlainCollation(c: string) {
    NulFree(c) && ')' !in c && '\n' !in c
  }

  predicate ToldReadable(t: Told) {
    NulFree(t.field) && PlainCollation(t.collate) && forall v :: v in t.values ==> Item(v)
  }

  lemma {:induction false} SetItems(b: seq<Stmt>)
    ensures ReadSet(b).Ok? ==> forall v :: v in ReadSet(b).value ==> Item(v)
  {
    if b != [] {
      SetItems(b[1..]);
    }
  }

  lemma {:induction false} CTextWithin(s: string)
    ensures forall c :: c in CText(s) ==> c in s
  {
    if s != "" {
      CTextWithin(s[1..]);
    }
  }

  lemma {:induction false} FieldReadable(a: Arg)
    requires ReadableArg(a)
    ensures FieldOf(a).Ok? ==> NulFree(FieldOf(a).value)
  {
    if a.value.None? {
      assert AllTokenRunes(a.name);
      TokenIsText(a.name);
    } else {
      match a.value.value {
        case Int(i) =>
          IntRoundTrip(i);
          TokenIsText(IntText(i));
        case Str(s) => CTextFacts(s);
        case Word(w) => CTextFacts(w);
        case _ =>
      }
    }
  }

  lemma {:induction false} TellReadable(op: string, t: Told, a: Arg)
    requires ToldReadable(t) && ReadableArg(a)
    ensures Tell(op, t, a).Ok? ==> ToldReadable(Tell(op, t, a).value)
  {
    FieldReadable(a);
    if a.value.Some? && a.value.value.Block? {
      SetItems(a.value.value.stmts);
    } else if a.value.Some? && a.value.value.Word? {
      CTextFacts(a.value.value.w);
      CTextWithin(a.value.value.w);
    }
  }

  lemma {:induction false} ToldAllReadable(op: string, t: Told, args: seq<Arg>)
    requires ToldReadable(t) && forall a :: a in args ==> ReadableArg(a)
    ensures TellAll(op, t, args).Ok? ==> ToldReadable(TellAll(op, t, args).value)
    decreases |args|
  {
    hide Tell, ToldReadable, ReadableArg;
    if args != [] {
      assert args[0] in args && forall a :: a in args[1..] ==> a in args;
      TellReadable(op, t, args[0]);
      if Tell(op, t, args[0]).Ok? {
        ToldAllReadable(op, Tell(op, t, args[0]).value, args[1..]);
      }
    }
  }

  /** What reading a predicate can give, its spelling aside. */
  predicate Readable(f: Filter) {
    && !IsGroup(f.op) && f.children == [] && (forall v :: v in f.values ==> Item(v))
    && if f.op == "id" then f.field == "" && f.collate == "" && f.values != []
       else
         f.op in OPERATORS && f.field != "" && NulFree(f.field)
         && PlainCollation(f.collate) && RightCount(f.op, |f.values|)
  }

  lemma {:induction false} IdentitiesReadable(args: seq<Arg>)
    requires forall a :: a in args ==> ReadableArg(a)
    ensures ReadIdentities(args).Ok? ==> forall v :: v in ReadIdentities(args).value ==> Item(v)
  {
    if args != [] {
      assert args[0] in args && forall a :: a in args[1..] ==> a in args;
      IdentitiesReadable(args[1..]);
    }
  }

  lemma {:induction false} PredicateReadable(st: Stmt)
    requires (forall a :: a in st.args ==> ReadableArg(a)) && !IsGroup(st.verb) && ReadPredicate(st).Ok?
    ensures Readable(ReadPredicate(st).value) && ReadPredicate(st).value.op == st.verb
  {
    hide TellAll, ReadIdentities, Tell;
    if st.verb == "id" {
      IdentitiesReadable(st.args);
    } else {
      ToldAllReadable(st.verb, UNTOLD, st.args);
    }
  }

  // ----- a value without a spelling is read as another -----

  /** What follows an argument: neither more of its token nor a sign. */
  predicate Follows(u: string) {
    Delimited(u) && (SkipInline(u) == "" || SkipInline(u)[0] != '=')
  }

  predicate Starts(w: string) {
    w != "" && StartsArg(w[0]) && !IsInline(w[0]) && w[0] != ';' && w[0] != '}' && w[0] != '='
  }

  lemma {:induction false} ItemStarts(v: Value)
    requires Item(v)
    ensures Starts(EncValue(v))
  {
    match v {
      case Int(i) => IntRoundTrip(i);
      case Float(t) => NumberRunes(t);
      case Str(s) => QuoteRoundTrip(s, "");
      case Word(w) =>
    }
  }

  lemma {:induction false} FieldStarts(name: string)
    ensures Starts(EncFieldName(name))
  {
    if NeedsQuotes(CText(name)) {
      QuoteRoundTrip(name, "");
    } else {
      ItemStarts(Word(name));
    }
  }

  /** A blank and then an argument. */
  lemma {:induction false} BlankThenArg(w: string, u: string, inBlock: bool)
    requires Starts(w)
    ensures Follows(" " + w + u) && (w + u) != "" && StartsArg((w + u)[0])
    ensures var a := ParseArg(w + u);
            var more := ParseArgs(a.rest, inBlock);
            ParseArgs(" " + w + u, inBlock) == Parse([a.value] + more.value, more.rest, a.bad || more.bad)
  {
    hide ParseArg, ParseArgs, SkipInline;
    BlankJoins(w, u);
    SkipOne(w + u);
    SkipsNothing(w + u);
    ArgsAre(" " + (w + u), inBlock);
  }

  lemma {:induction false} BlankJoins(w: string, u: string)
    ensures " " + w + u == " " + (w + u) && (" " + (w + u))[0] == ' ' && (w != "" ==> (w + u)[0] == w[0])
  {}

  lemma {:induction false} SkipsNothing(s: string)
    requires s != "" && !IsInline(s[0])
    ensures SkipInline(s) == s
  {}

  lemma {:induction false} ValuesFollow(vs: seq<Value>, u: string)
    requires Follows(u) && forall v :: v in vs ==> Item(v)
    ensures Follows(EncValues(vs) + u)
  {
    hide EncValue, Item, Follows;
    if vs == [] {
      assert "" + u == u;
    } else {
      assert vs[0] in vs;
      ItemStarts(vs[0]);
      BlankThenArg(EncValue(vs[0]), EncValues(vs[1..]) + u, false);
      Regroup(" " + EncValue(vs[0]), EncValues(vs[1..]), u);
    }
  }

  /** What stands in a value's place is refused or another value. */
  predicate Another(p: Parse<Arg>, v: Value) {
    !p.bad ==> !IsCollate(p.value) && (p.value.value.Some? ==> !p.value.value.value.Block?) && ValueOf(p.value) != Ok(v)
  }

  lemma {:induction false} ItemLost(v: Value, u: string)
    requires Item(v) && !SpellableItem(v) && Follows(u)
    ensures Starts(EncValue(v)) && Another(ParseArg(EncValue(v) + u), v)
  {
    ItemStarts(v);
    if v.Str? {
      TextLost(v.s, u);
    } else {
      WordLost(v.w, u);
    }
  }

  lemma {:induction false} TextLost(s: string, u: string)
    requires !NulFree(s)
    ensures Quote(s) != "" && Another(ParseArg(Quote(s) + u), Str(s))
  {
    hide ReadString, EscapedText;
    QuoteRoundTrip(s, u);
    assert (Quote(s) + u)[0] == '"';
    assert ParseArg(Quote(s) + u) == Parse(Operand(Str(CText(s))), u, false);
  }

  lemma {:induction false} WordLost(w: string, u: string)
    requires !SpellableItem(Word(w)) && Follows(u)
    ensures WriteWord(w) != "" && StartsArg((WriteWord(w) + u)[0]) && Another(ParseArg(WriteWord(w) + u), Word(w))
  {
    hide CText;
    var c := CText(w);
    WrittenAsSeen(w);
    WordText(c);
    WordStarts(w, u);
    if SpellableItem(Word(c)) {
      OperandSpellable(Word(c));
      OperandText(Word(c));
      ArgBack(OperandOf(Word(c)), u);
      OperandReads(Word(c));
    } else if IsWord(c) {
      PlusCutsShort(c, u);
    } else {
      SymbolCutShort(c, u);
      BracketIsOperand("(" + c + ")" + u);
    }
  }

  // ----- and so is the predicate that holds it -----

  lemma {:induction false} TellGrows(op: string, t: Told, args: seq<Arg>)
    requires TellAll(op, t, args).Ok?
    ensures var r := TellAll(op, t, args).value;
            t.values <= r.values && (t.named ==> r.named && r.field == t.field)
    decreases |args|
  {
    if args != [] {
      TellGrows(op, Tell(op, t, args[0]).value, args[1..]);
    }
  }

  lemma {:induction false} TellCons(op: string, t: Told, a: Arg, more: seq<Arg>)
    ensures TellAll(op, t, [a] + more) ==
              match Tell(op, t, a)
              case Ok(u) => TellAll(op, u, more)
              case Refused(why) => Refused(why)
  {
    hide Tell;
    assert ([a] + more)[1..] == more;
  }

  /** What follows values is read after them, where they have spellings. */
  lemma {:induction false} ValuesPass(op: string, t: Told, vs: seq<Value>, u: string, inBlock: bool)
    requires t.named && Follows(u) && forall v :: v in vs ==> SpellableItem(v)
    ensures var p, q := ParseArgs(EncValues(vs) + u, inBlock), ParseArgs(u, inBlock);
            && p.bad == q.bad && TellAll(op, t, p.value) == TellAll(op, t.(values := t.values + vs), q.value)
    decreases |vs|
  {
    hide EncValue, SpellableItem, ParseArg, ParseArgs, Tell, TellAll, Follows, OperandOf;
    if vs == [] {
      assert "" + u == u && t.values + vs == t.values;
    } else {
      var v, rest := vs[0], EncValues(vs[1..]) + u;
      assert v in vs && forall x :: x in vs[1..] ==> x in vs;
      SpellableIsItem(vs);
      ValuesFollow(vs[1..], u);
      ItemPasses(v, rest, inBlock);
      Regroup(" " + EncValue(v), EncValues(vs[1..]), u);
      OperandTold(op, t, v);
      TellCons(op, t, OperandOf(v), ParseArgs(rest, inBlock).value);
      ValuesPass(op, t.(values := t.values + [v]), vs[1..], u, inBlock);
      Regroup(t.values, [v], vs[1..]);
      assert [v] + vs[1..] == vs;
    }
  }

  lemma {:induction false} SpellableIsItem(vs: seq<Value>)
    requires forall v :: v in vs ==> SpellableItem(v)
    ensures forall v :: v in vs ==> Item(v)
  {}

  lemma {:induction false} NotBlock(v: Value)
    ensures SpellableItem(v) ==> !v.Block?
  {}

  /** A value with a spelling is read, and then what follows it. */
  lemma {:induction false} ItemPasses(v: Value, rest: string, inBlock: bool)
    requires SpellableItem(v) && Follows(rest)
    ensures var p, q := ParseArgs(" " + EncValue(v) + rest, inBlock), ParseArgs(rest, inBlock);
            p.bad == q.bad && p.value == [OperandOf(v)] + q.value
  {
    ArgPasses(OperandOf(v), rest, inBlock) by {
      OperandSpellable(v);
    }
    OperandText(v);
  }

  lemma {:induction false} ArgPasses(a: Arg, rest: string, inBlock: bool)
    requires SpellableArg(a) && Follows(rest)
    ensures var p, q := ParseArgs(" " + WriteArg(a) + rest, inBlock), ParseArgs(rest, inBlock);
            p.bad == q.bad && p.value == [a] + q.value
  {
    hide WriteArg, SpellableArg, ParseArg, SkipInline;
    ArgStarts(a);
    ArgBack(a, rest);
    BlankThenArg(WriteArg(a), rest, inBlock);
    SkippedAlready(rest, inBlock);
  }

  lemma {:induction false} SkippedAlready(rest: string, inBlock: bool)
    ensures ParseArgs(SkipInline(rest), inBlock) == ParseArgs(rest, inBlock)
  {
    assert SkipInline(SkipInline(rest)) == SkipInline(rest);
    ArgsAre(rest, inBlock);
    ArgsAre(SkipInline(rest), inBlock);
  }

  /** One value without a spelling, and the values are not read as they were. */
  lemma {:induction false} ValuesLost(op: string, t: Told, vs: seq<Value>, u: string, inBlock: bool)
    requires t.named && Follows(u) && forall v :: v in vs ==> Item(v)
    requires exists v :: v in vs && !SpellableItem(v)
    ensures var p := ParseArgs(EncValues(vs) + u, inBlock);
            !p.bad && TellAll(op, t, p.value).Ok? ==> !(t.values + vs <= TellAll(op, t, p.value).value.values)
    decreases |vs|
  {
    hide EncValue, SpellableItem, ParseArg, ParseArgs, Tell, TellAll, Follows, OperandOf, Item, Another;
    var v, rest := vs[0], EncValues(vs[1..]) + u;
    assert v in vs && forall x :: x in vs[1..] ==> x in vs;
    ValuesFollow(vs[1..], u);
    Regroup(" " + EncValue(v), EncValues(vs[1..]), u);
    var p := ParseArgs(EncValues(vs) + u, inBlock);
    if SpellableItem(v) {
      ItemPasses(v, rest, inBlock);
      NotBlock(v);
      OperandTold(op, t, v);
      TellCons(op, t, OperandOf(v), ParseArgs(rest, inBlock).value);
      assert exists x :: x in vs[1..] && !SpellableItem(x);
      ValuesLost(op, t.(values := t.values + [v]), vs[1..], u, inBlock);
      Regroup(t.values, [v], vs[1..]);
      assert [v] + vs[1..] == vs;
    } else {
      ItemLost(v, rest);
      BlankThenArg(EncValue(v), rest, inBlock);
      var a := ParseArg(EncValue(v) + rest);
      var more := ParseArgs(a.rest, inBlock).value;
      if !p.bad && TellAll(op, t, p.value).Ok? {
        TellCons(op, t, a.value, more);
        AnotherTold(op, t, a, v);
        var t' := Tell(op, t, a.value).value;
        TellGrows(op, t', more);
        assert t'.values[|t.values|] != (t.values + vs)[|t.values|];
      }
    }
  }

  lemma {:induction false} AnotherTold(op: string, t: Told, a: Parse<Arg>, v: Value)
    requires t.named && !a.bad && Another(a, v) && Tell(op, t, a.value).Ok?
    ensures var t' := Tell(op, t, a.value).value;
            |t'.values| == |t.values| + 1 && t'.values[|t.values|] != v
  {}

  // ----- a collation that is no word -----

  /** A collation that holds nothing which opens a symbol or a block. */
  predicate OpensNothing(c: string) {
    '(' !in c && '{' !in c
  }

  /** Arguments that leave the values as they are leave a word for the collation. */
  predicate LeavesWord(op: string, t: Told, p: Parse<seq<Arg>>) {
    !p.bad && TellAll(op, t, p.value).Ok? ==>
      var r := TellAll(op, t, p.value).value;
      r.values == t.values ==> r.collate == t.collate || IsWord(r.collate)
  }

  lemma {:induction false} BlankSplit(d: string, t: string) returns (k: nat)
    ensures k <= |d| && (k < |d| ==> !IsInline(d[k]))
    ensures SkipInline(d + t) == if k < |d| then d[k..] + t else SkipInline(t)
  {
    if d != "" && IsInline(d[0]) {
      assert (d + t)[1..] == d[1..] + t && (d + t)[0] == d[0];
      var n := BlankSplit(d[1..], t);
      k := n + 1;
    } else {
      k := 0;
      assert d == "" ==> d + t == t;
      assert d != "" ==> (d + t)[0] == d[0];
    }
  }

  lemma {:induction false} SpanSplit(p: char -> bool, d: string, t: string)
    requires t == "" || !p(t[0])
    ensures var n := Span(p, d + t);
            n <= |d| && (d + t)[..n] == d[..n] && (d + t)[n..] == d[n..] + t
  {
    assert t != "" ==> (d + t)[|d|] == t[0];
  }

  /** One argument that starts in d: told something else, or a collation said in d. */
  lemma {:induction false} OneInside(op: string, told: Told, d: string, t: string) returns (rest: string)
    requires told.named && OpensNothing(d) && Delimited(t) && (t == "" || !StartsArg(t[0])) && (t == "" || t[0] != '=')
    requires SkipInline(t) == "" || SkipInline(t)[0] != '='
    requires d != "" && StartsArg(d[0])
    ensures StartsArg((d + t)[0])
    ensures var a := ParseArg(d + t);
            !a.bad && Tell(op, told, a.value).Ok? ==>
              var r := Tell(op, told, a.value).value;
              || |r.values| > |told.values|
              || (r.values == told.values && r.named && IsWord(r.collate)
                  && |rest| < |d| && OpensNothing(rest) && a.rest == rest + t)
  {
    var s := d + t;
    rest := "";
    assert s[0] == d[0] && d[0] in d;
    hide ParseArg, ParseValue, Tell, IsWord;
    if IsWordStart(d[0]) {
      var body := AfterSign(d, t);
      if body.Some? {
        NamedHere(s, body.value + t);
        rest := SaidInside(op, told, WordOf(s), body.value, t);
      } else {
        NameHere(s);
        PlainTold(op, told, ParseArg(s).value);
      }
    } else {
      ValueHere(s);
      if !ParseArg(s).bad {
        PlainTold(op, told, ParseArg(s).value);
      }
    }
  }

  /** An argument that is no collation and no block is one more value, or refused. */
  lemma {:induction false} PlainTold(op: string, told: Told, a: Arg)
    requires told.named && !IsCollate(a) && (a.value.Some? ==> !a.value.value.Block?)
    ensures Tell(op, told, a).Ok? ==> |Tell(op, told, a).value.values| > |told.values|
  {}

  lemma {:induction false} NameHere(s: string)
    requires s != "" && IsWordStart(s[0])
    requires var t := SkipInline(AfterWord(s)); t == "" || t[0] != '='
    ensures ParseArg(s).value.value.None?
  {
    hide ParseValue;
  }

  lemma {:induction false} ValueHere(s: string)
    requires s != "" && StartsArg(s[0]) && !IsWordStart(s[0]) && s[0] != '{'
    ensures var a := ParseArg(s);
            !a.bad ==> !IsCollate(a.value) && (a.value.value.Some? ==> !a.value.value.value.Block?)
  {
    NoBlockHere(s);
    hide ParseValue;
  }

  lemma {:induction false} NoBlockHere(s: string)
    requires s != "" && s[0] != '{'
    ensures var p := ParseValue(s); !p.bad ==> p.value.Some? && !p.value.value.Block?
  {
    hide ParseScript, ReadString;
  }

  /** What is left of d past a name and its sign, where a sign follows it. */
  lemma {:induction false} AfterSign(d: string, t: string) returns (body: Option<string>)
    requires OpensNothing(d) && d != "" && IsWordStart(d[0])
    requires (t == "" || !IsWordRune(t[0])) && (SkipInline(t) == "" || SkipInline(t)[0] != '=')
    ensures var u := SkipInline(AfterWord(d + t));
            match body
            case Some(b) => u != "" && u[0] == '=' && u[1..] == b + t && |b| < |d| && OpensNothing(b)
            case None => u == "" || u[0] != '='
  {
    hide OpensNothing, SkipInline, Span;
    SpanSplit(IsWordRune, d, t);
    var n := Span(IsWordRune, d + t);
    var after := d[n..];
    Suffix(d, n);
    var k := BlankSplit(after, t);
    body := None;
    if k < |after| {
      OneFurther(after, k, t);
      if after[k] == '=' {
        Suffix(after, k + 1);
        WordIsSome(d, t);
        body := Some(after[k + 1..]);
      }
    }
  }

  lemma {:induction false} WordIsSome(d: string, t: string)
    requires d != "" && IsWordStart(d[0])
    ensures Span(IsWordRune, d + t) > 0
  {
    assert (d + t)[0] == d[0];
  }

  lemma {:induction false} OneFurther(d: string, k: nat, t: string)
    requires k < |d|
    ensures d[k..] + t != "" && (d[k..] + t)[0] == d[k] && (d[k..] + t)[1..] == d[k + 1..] + t
  {}

  lemma {:induction false} NamedHere(s: string, body: string)
    requires s != "" && IsWordStart(s[0])
    requires var t := SkipInline(AfterWord(s)); t != "" && t[0] == '=' && t[1..] == body
    ensures var v := ParseValue(body); ParseArg(s) == Parse(Arg(WordOf(s), Unflagged, v.value), v.rest, v.bad)
    ensures WordOf(s) != ""
  {
    hide ParseValue;
  }

  /** A named value that starts in what is left of d. */
  lemma {:induction false} SaidInside(op: string, told: Told, name: string, body: string,
      t: string) returns (rest: string)
    requires told.named && OpensNothing(body) && Delimited(t) && (t == "" || !StartsArg(t[0])) && name != ""
    ensures var v := ParseValue(body + t);
            var a := Arg(name, Unflagged, v.value);
            !v.bad && Tell(op, told, a).Ok? ==>
              var r := Tell(op, told, a).value;
              r.values == told.values && r.named && IsWord(r.collate)
              && |rest| <= |body| && OpensNothing(rest) && v.rest == rest + t
  {
    hide ParseScript, ReadString, NumeralOf, CText;
    rest := "";
    var s := body + t;
    if body == "" {
      assert s == t;
    } else {
      assert s[0] == body[0] && body[0] in body;
      if IsTokenRune(body[0]) {
        SpanSplit(IsTokenRune, body, t);
        var m := Span(IsTokenRune, s);
        rest := body[m..];
        Suffix(body, m);
        TokenHere(s);
        hide ParseValue, TokenValue;
        TokenCollates(body[..m]);
      }
    }
  }

  lemma {:induction false} TokenHere(s: string)
    requires s != "" && IsTokenRune(s[0])
    ensures var n := Span(IsTokenRune, s);
            && n > 0 && AllTokenRunes(s[..n])
            && ParseValue(s) == Parse(TokenValue(s[..n]), s[n..], TokenValue(s[..n]).None?)
  {
    hide ParseScript, ReadString, ParseSymbol, TokenValue;
  }

  lemma {:induction false} TokenCollates(w: string)
    requires w != "" && AllTokenRunes(w)
    ensures TokenValue(w).Some? && TokenValue(w).value.Word? ==> TokenValue(w).value.w == w && IsWord(w)
    ensures CText(w) == w
    ensures TokenValue(w).Some? ==> !TokenValue(w).value.Block?
  {
    TokenIsText(w);
  }

  lemma {:induction false} InsideLeavesWord(op: string, told: Told, d: string, t: string, inBlock: bool)
    requires told.named && OpensNothing(d) && Closes(t, inBlock)
    ensures LeavesWord(op, told, ParseArgs(d + t, inBlock))
    decreases |d|
  {
    hide ParseArg, Tell, TellAll, IsWord, SkipInline, OpensNothing;
    var k := BlankSplit(d, t);
    ArgsAre(d + t, inBlock);
    ClosesDelimits(t, inBlock);
    if k < |d| {
      var e := d[k..];
      Suffix(d, k);
      assert (e + t)[0] == e[0];
      if !EndsStatement(e + t, inBlock) && StartsArg(e[0]) {
        var rest := OneInside(op, told, e, t);
        var a := ParseArg(e + t);
        var more := ParseArgs(a.rest, inBlock).value;
        TellCons(op, told, a.value, more);
        if !ParseArgs(d + t, inBlock).bad && TellAll(op, told, [a.value] + more).Ok? {
          var r := Tell(op, told, a.value).value;
          TellGrows(op, r, more);
          if r.values == told.values {
            InsideLeavesWord(op, r, rest, t, inBlock);
          }
        }
      } else {
        NothingTold(op, told);
      }
    } else {
      NothingTold(op, told);
    }
  }

  lemma {:induction false} Suffix(d: string, k: nat)
    requires k <= |d| && OpensNothing(d)
    ensures OpensNothing(d[k..])
  {}

  lemma {:induction false} NothingTold(op: string, told: Told)
    ensures TellAll(op, told, []) == Ok(told)
  {}

  // ----- a predicate -----

  lemma {:induction false} CollateFollows(c: string, t: string, inBlock: bool)
    requires Closes(t, inBlock)
    ensures Follows(EncCollate(c) + t)
  {
    hide ParseArg, ParseArgs, Closes, CText, Follows;
    ClosesFollows(t, inBlock);
    if CText(c) == "" {
      assert "" + t == t;
    } else {
      CollateStarts(CText(c));
      BlankThenArg("collate=" + CText(c), t, inBlock);
    }
  }

  lemma {:induction false} ClosesFollows(t: string, inBlock: bool)
    requires Closes(t, inBlock)
    ensures Follows(t)
  {
    ClosesDelimits(t, inBlock);
  }

  lemma {:induction false} CollateStarts(c: string)
    ensures Starts("collate=" + c) && " " + ("collate=" + c) == " collate=" + c
  {
    assert ("collate=" + c)[0] == 'c';
  }

  /** What follows a field's name, with the values and the collation of f. */
  function AfterField(f: Filter, t: string): string {
    EncValues(f.values) + (EncCollate(f.collate) + t)
  }

  lemma {:induction false} FieldLost(name: string, u: string)
    requires name != "" && NulFree(name) && !SpellableField(name) && Follows(u)
    ensures Starts(EncFieldName(name))
    ensures var a := ParseArg(EncFieldName(name) + u); !a.bad ==> !IsCollate(a.value) && FieldOf(a.value) != Ok(name)
  {
    CTextFacts(name);
    FieldStarts(name);
    WordText(name);
    PlusCutsShort(name, u);
  }

  /** What is not told is not concluded. */
  lemma {:induction false} Concluded(f: Filter, r: Told)
    requires !IsGroup(f.op) && Conclude(f.op, r) == Ok(f)
    ensures r.field == f.field && r.values == f.values && r.collate == f.collate
  {}

  lemma {:induction false} ComparisonLost(f: Filter, t: string, inBlock: bool)
    requires Readable(f) && f.op != "id" && !SpellableFilter(f) && OpensNothing(f.collate) && Closes(t, inBlock)
    ensures var p := ParseArgs(" " + EncFieldName(f.field) + AfterField(f, t), inBlock);
            !p.bad && TellAll(f.op, UNTOLD, p.value).Ok? ==>
                Conclude(f.op, TellAll(f.op, UNTOLD, p.value).value) != Ok(f)
  {
    hide EncFieldName, EncValues, EncCollate, ParseArg, ParseArgs, TellAll, Conclude, Follows, SpellableItem;
    var u := AfterField(f, t);
    CollateFollows(f.collate, t, inBlock);
    ValuesFollow(f.values, EncCollate(f.collate) + t);
    var p := ParseArgs(" " + EncFieldName(f.field) + u, inBlock);
    if !p.bad && TellAll(f.op, UNTOLD, p.value).Ok? && Conclude(f.op, TellAll(f.op, UNTOLD, p.value).value) == Ok(f) {
      Concluded(f, TellAll(f.op, UNTOLD, p.value).value);
      if SpellableField(f.field) {
        FieldPasses(f.op, f.field, u, inBlock);
        RestLost(f, UNTOLD.(named := true, field := f.field), t, inBlock);
      } else {
        FieldLost(f.field, u);
        BlankThenArg(EncFieldName(f.field), u, inBlock);
        var a := ParseArg(EncFieldName(f.field) + u);
        var more := ParseArgs(a.rest, inBlock).value;
        TellCons(f.op, UNTOLD, a.value, more);
        FirstNames(f.op, a.value);
        TellGrows(f.op, Tell(f.op, UNTOLD, a.value).value, more);
      }
    }
  }

  lemma {:induction false} FirstNames(op: string, a: Arg)
    requires !IsCollate(a)
    ensures Tell(op, UNTOLD, a).Ok? ==>
              FieldOf(a) == Ok(Tell(op, UNTOLD, a).value.field) && Tell(op, UNTOLD, a).value.named
  {}

  lemma {:induction false} FieldPasses(op: string, name: string, u: string, inBlock: bool)
    requires SpellableField(name) && Follows(u)
    ensures var p, q := ParseArgs(" " + EncFieldName(name) + u, inBlock), ParseArgs(u, inBlock);
            && p.bad == q.bad
            && TellAll(op, UNTOLD, p.value) == TellAll(op, UNTOLD.(named := true, field := name), q.value)
  {
    hide ParseArgs, TellAll, Follows, WriteArg, IsCollate, FieldArg, EncFieldName, FieldOf;
    FieldArgSpellable(name);
    FieldArgText(name);
    ArgPasses(FieldArg(name), u, inBlock);
    FieldReads(name);
    TellCons(op, UNTOLD, FieldArg(name), ParseArgs(u, inBlock).value);
  }

  /** With its field named, a value or a collation without a spelling is told as another. */
  lemma {:induction false} RestLost(f: Filter, told: Told, t: string, inBlock: bool)
    requires Readable(f) && f.op != "id" && !SpellableFilter(f) && OpensNothing(f.collate) && Closes(t, inBlock)
    requires SpellableField(f.field) && told.named && told.values == [] && told.collate == ""
    ensures var p := ParseArgs(AfterField(f, t), inBlock);
            !p.bad && TellAll(f.op, told, p.value).Ok? ==>
              var r := TellAll(f.op, told, p.value).value; r.values != f.values || r.collate != f.collate
  {
    hide EncValues, EncCollate, ParseArgs, TellAll, Follows, SpellableItem, SpellableField, ParseArg;
    var u := EncCollate(f.collate) + t;
    CollateFollows(f.collate, t, inBlock);
    assert [] + f.values == f.values;
    if v :| v in f.values && !SpellableItem(v) {
      ValuesLost(f.op, told, f.values, u, inBlock);
    } else {
      ValuesPass(f.op, told, f.values, u, inBlock);
      assert f.collate != "" && !IsWord(f.collate);
      CollateInside(f.collate);
      InsideLeavesWord(f.op, told.(values := f.values), EncCollate(f.collate), t, inBlock);
    }
  }

  lemma {:induction false} CollateInside(c: string)
    requires PlainCollation(c) && OpensNothing(c)
    ensures OpensNothing(EncCollate(c))
  {
    CTextFacts(c);
  }

  lemma {:induction false} IdentitiesLost(vs: seq<Value>, t: string, inBlock: bool)
    requires Closes(t, inBlock) && (forall v :: v in vs ==> Item(v)) && exists v :: v in vs && !SpellableIdentity(v)
    ensures var p := ParseArgs(EncValues(vs) + t, inBlock); !p.bad ==> ReadIdentities(p.value) != Ok(vs)
    decreases |vs|
  {
    hide EncValue, ParseArg, ParseArgs, Follows, OperandOf, Item, SpellableItem, ReadIdentity, Another;
    var v, rest := vs[0], EncValues(vs[1..]) + t;
    assert v in vs && forall x :: x in vs[1..] ==> x in vs;
    assert forall x :: x in vs ==> x == v || x in vs[1..];
    CollateFollows("", t, inBlock);
    assert EncCollate("") + t == t;
    ValuesFollow(vs[1..], t);
    Regroup(" " + EncValue(v), EncValues(vs[1..]), t);
    if SpellableItem(v) {
      ItemPasses(v, rest, inBlock);
      NotBlock(v);
      IdentityReadsWhen(v);
      var more := ParseArgs(rest, inBlock).value;
      assert ([OperandOf(v)] + more)[1..] == more;
      if SpellableIdentity(v) {
        IdentitiesLost(vs[1..], t, inBlock);
        assert vs == [v] + vs[1..];
      } else {
        BareIdentity(v);
      }
    } else {
      ItemLost(v, rest);
      BlankThenArg(EncValue(v), rest, inBlock);
      var a := ParseArg(EncValue(v) + rest);
      AnotherIdentity(a, v);
    }
  }

  lemma {:induction false} BareIdentity(v: Value)
    requires SpellableItem(v) && !SpellableIdentity(v)
    ensures OperandOf(v).value.None?
  {}

  lemma {:induction false} AnotherIdentity(a: Parse<Arg>, v: Value)
    requires Another(a, v)
    ensures !a.bad ==> ReadIdentity(a.value) != Ok(v)
  {}

  // ----- filters of any depth -----

  /** No collation anywhere in a filter holds anything which opens a symbol or a block. */
  predicate PlainlyCollated(f: Filter)
    decreases f
  {
    OpensNothing(f.collate) && forall c :: c in f.children ==> PlainlyCollated(c)
  }

  predicate Known(op: string) {
    op in OPERATORS || IsGroup(op) || op == "id"
  }

  predicate ReadsBack(p: Parse<Option<Stmt>>, f: Filter) {
    !p.bad && p.value.Some? && ReadPredicate(p.value.value) == Ok(f)
  }

  lemma {:induction false} KnownIs(op: string)
    requires Known(op)
    ensures op in OPERATORS || IsGroup(op) || op == "id"
  {}

  lemma {:induction false} HeadParses(op: string, rest: string, inBlock: bool)
    requires Known(op) && (rest == "" || rest[0] == ' ')
    ensures var a := ParseArgs(rest, inBlock);
            ParseStmt(op + rest, inBlock) == Parse(Some(Stmt("", op, a.value)), a.rest, a.bad)
  {
    hide ParseArgs, ParseHead, ParseStmt, Known;
    KnownIs(op);
    OperatorIsHead(op);
    var st := Stmt("", op, []);
    HeadBack(st, rest);
    assert "" + op == op && (op + rest)[0] == op[0];
    StmtIs(op + rest, inBlock);
  }

  lemma {:induction false} StmtIs(s: string, inBlock: bool)
    requires s != "" && IsWordRune(s[0])
    ensures var h := ParseHead(s);
            var a := ParseArgs(h.rest, inBlock);
            ParseStmt(s, inBlock) == Parse(Some(Stmt(h.value.0, h.value.1, a.value)), a.rest, a.bad)
  {
    hide ParseHead, ParseArgs;
    assert SkipInline(s) == s;
  }

  lemma {:induction false} ReadsOperator(st: Stmt)
    ensures ReadPredicate(st).Ok? ==> ReadPredicate(st).value.op == st.verb && Known(st.verb)
  {
    hide TellAll, ReadIdentities;
  }

  lemma {:induction false} BlockOperators(b: seq<Stmt>)
    ensures ReadFilterBlock(b).Ok? ==> forall f :: f in ReadFilterBlock(b).value ==> Known(f.op)
  {
    hide ReadPredicate, Known;
    if b != [] {
      ReadsOperator(b[0]);
      BlockOperators(b[1..]);
    }
  }

  lemma {:induction false} PredicateLost(f: Filter, t: string, inBlock: bool)
    requires !IsGroup(f.op) && !SpellableFilter(f) && OpensNothing(f.collate) && Closes(t, inBlock)
    ensures !ReadsBack(ParseStmt(EncFilterStmt(f) + t, inBlock), f)
  {
    hide ParseArgs, EncFieldName, EncValues, EncCollate, TellAll, ReadIdentities, Readable, SpellableFilter,
        Conclude, ParseHead;
    var p := ParseStmt(EncFilterStmt(f) + t, inBlock);
    if ReadsBack(p, f) {
      var st := p.value.value;
      StmtArgsReadable(EncFilterStmt(f) + t, inBlock);
      ReadsOperator(st);
      PredicateReadable(st);
      StmtText(f, t);
      if f.op == "id" {
        assert Readable(f) && f.values != [] by {
          IdIsReadable(f);
        }
        BlankFirst(f.values, t);
        HeadParses(f.op, EncValues(f.values) + t, inBlock);
        IdNeedsIdentity(f);
        IdentitiesLost(f.values, t, inBlock);
      } else {
        HeadParses(f.op, " " + EncFieldName(f.field) + AfterField(f, t), inBlock);
        ComparisonLost(f, t, inBlock);
      }
    }
  }

  lemma {:induction false} IdIsReadable(f: Filter)
    ensures Readable(f) && f.op == "id" ==> f.values != [] && f.collate == "" && forall v :: v in f.values ==> Item(v)
  {}

  lemma {:induction false} IdNeedsIdentity(f: Filter)
    requires Readable(f) && f.op == "id" && !SpellableFilter(f)
    ensures exists v :: v in f.values && !SpellableIdentity(v)
    ensures forall v :: v in f.values ==> Item(v)
  {}

  lemma {:induction false} BlankFirst(vs: seq<Value>, t: string)
    requires vs != []
    ensures EncValues(vs) + t != "" && (EncValues(vs) + t)[0] == ' '
  {}

  lemma {:induction false} StmtArgsReadable(s: string, inBlock: bool)
    ensures ParseStmt(s, inBlock).value.Some? ==>
              forall a :: a in ParseStmt(s, inBlock).value.value.args ==> ReadableArg(a)
  {
    hide ReadableArg;
    var t := SkipInline(s);
    if t != "" && IsWordRune(t[0]) {
      ArgsReadable(ParseHead(t).rest, inBlock);
    }
  }

  lemma {:induction false} StmtText(f: Filter, t: string)
    requires !IsGroup(f.op) && (f.op == "id" ==> f.collate == "")
    ensures f.op == "id" ==> EncFilterStmt(f) + t == f.op + (EncValues(f.values) + t)
    ensures f.op != "id" ==> EncFilterStmt(f) + t == f.op + (" " + EncFieldName(f.field) + AfterField(f, t))
  {
    hide EncFieldName, EncValues;
    if f.op == "id" {
      assert EncCollate("") == "";
      assert f.op + "" + EncValues(f.values) + "" + t == f.op + (EncValues(f.values) + t);
    } else {
      hide EncCollate;
      var a, b, c := " " + EncFieldName(f.field), EncValues(f.values), EncCollate(f.collate);
      assert f.op + a + b + c + t == f.op + (a + (b + (c + t)));
    }
  }

  lemma {:induction false} FilterLost(f: Filter, t: string, inBlock: bool)
    requires !SpellableFilter(f) && PlainlyCollated(f) && Closes(t, inBlock)
    ensures !ReadsBack(ParseStmt(EncFilterStmt(f) + t, inBlock), f)
    decreases f, 1
  {
    hide ParseArgs, ParseStmt, SpellableFilter, PlainlyCollated, EncFilterBlock, ReadPredicate, ParseValue, Closes;
    if IsGroup(f.op) {
      var p := ParseStmt(EncFilterStmt(f) + t, inBlock);
      if ReadsBack(p, f) {
        GroupRead(p.value.value, f);
        GroupJoins(f.op, EncFilterBlock(f.children), t);
        HeadParses(f.op, " " + EncFilterBlock(f.children) + t, inBlock);
        BlockArg(f.children, t, inBlock);
        ChildLost(f);
        FilterBlockLost(f.children, t);
      }
    } else {
      PlainTop(f);
      PredicateLost(f, t, inBlock);
    }
  }

  lemma {:induction false} GroupJoins(op: string, block: string, t: string)
    ensures op + " " + block + t == op + (" " + block + t) && (" " + block + t)[0] == ' '
  {}

  /** What is read as a group is one block, read as its children. */
  lemma {:induction false} GroupRead(st: Stmt, f: Filter)
    requires IsGroup(f.op) && ReadPredicate(st) == Ok(f)
    ensures |st.args| == 1 && st.args[0].value.Some? && st.args[0].value.value.Block?
    ensures ReadFilterBlock(st.args[0].value.value.stmts) == Ok(f.children)
    ensures f.field == "" && f.values == [] && f.collate == "" && (f.op == "not" ==> f.children != [])
  {
    hide TellAll, ReadIdentities;
  }

  lemma {:induction false} PlainTop(f: Filter)
    requires PlainlyCollated(f)
    ensures OpensNothing(f.collate)
  {}

  /** The first argument is the block that was written. */
  lemma {:induction false} BlockArg(fs: seq<Filter>, t: string, inBlock: bool)
    ensures var p, v := ParseArgs(" " + EncFilterBlock(fs) + t, inBlock), ParseValue(EncFilterBlock(fs) + t);
            && p.value != [] && p.value[0] == Arg("", Unflagged, v.value) && (!p.bad ==> !v.bad)
  {
    hide EncFilterStmts, ParseScript, ParseValue;
    var w := EncFilterBlock(fs);
    assert w[0] == '{' && (w + t)[0] == '{';
    BlankThenArg(w, t, inBlock);
  }

  /** A group that might be read back and has no spelling has a child that has none. */
  lemma {:induction false} ChildLost(f: Filter)
    requires IsGroup(f.op) && !SpellableFilter(f) && PlainlyCollated(f)
    requires f.field == "" && f.values == [] && f.collate == "" && (f.op == "not" ==> f.children != [])
    ensures exists c :: c in f.children && !SpellableFilter(c)
    ensures forall c :: c in f.children ==> PlainlyCollated(c)
  {}

  lemma {:induction false} FilterBlockLost(fs: seq<Filter>, t: string)
    requires (exists f :: f in fs && !SpellableFilter(f)) && forall f :: f in fs ==> PlainlyCollated(f)
    ensures var v := ParseValue(EncFilterBlock(fs) + t);
            !v.bad ==> v.value.Some? && v.value.value.Block? && ReadFilterBlock(v.value.value.stmts) != Ok(fs)
    decreases fs, 2
  {
    hide SpellableFilter, PlainlyCollated, ParseScript, EncFilterStmts, ReadFilterBlock;
    var body := EncFilterStmts(fs) + (" }" + t);
    assert fs != [];
    BracedText(EncFilterStmts(fs), t);
    SkipOne(body);
    assert ("{" + (" " + body))[1..] == " " + body;
    BlankBrace(t);
    FilterStmtsLost(fs, " }" + t);
  }

  lemma {:induction false} FilterStmtsLost(fs: seq<Filter>, u: string)
    requires (exists f :: f in fs && !SpellableFilter(f)) && forall f :: f in fs ==> PlainlyCollated(f)
    requires SkipInline(u) != "" && SkipInline(u)[0] == '}'
    ensures var q := ParseScript(EncFilterStmts(fs) + u, true); !q.bad ==> ReadFilterBlock(q.value) != Ok(fs)
    decreases fs, 1
  {
    hide SpellableFilter, PlainlyCollated, ParseStmt, ParseScript, ReadPredicate, EncFilterStmt, SkipInline, Known;
    var f, more := fs[0], fs[1..];
    assert f in fs && (forall x :: x in more ==> x in fs) && forall x :: x in fs ==> x == f || x in more;
    var s := EncFilterStmts(fs) + u;
    var q := ParseScript(s, true);
    if !q.bad && ReadFilterBlock(q.value) == Ok(fs) {
      BlockOperators(q.value);
      var rest := if more == [] then u else "; " + EncFilterStmts(more) + u;
      assert s == EncFilterStmt(f) + rest by {
        if more == [] {
          assert |fs| == 1;
        } else {
          assert EncFilterStmt(f) + "; " + EncFilterStmts(more) + u
              == EncFilterStmt(f) + ("; " + EncFilterStmts(more) + u);
        }
      }
      RestCloses(EncFilterStmts(more), u);
      FirstStmt(f, rest);
      var p := ParseStmt(s, true);
      if SpellableFilter(f) {
        FilterText(f);
        FilterSpellable(f);
        StmtBack(FilterStmt(f), rest, true);
        if more != [] {
          assert "; " + EncFilterStmts(more) + u == "; " + (EncFilterStmts(more) + u);
          Separated(EncFilterStmts(more) + u);
          assert q.value[1..] == ParseScript("; " + (EncFilterStmts(more) + u), true).value;
          FilterStmtsLost(more, u);
        }
      } else {
        FilterLost(f, rest, true);
      }
    }
  }

  lemma {:induction false} RestCloses(more: string, u: string)
    requires SkipInline(u) != "" && SkipInline(u)[0] == '}'
    ensures Closes(u, true) && Closes("; " + more + u, true)
  {
    assert ("; " + more + u)[0] == ';';
  }

  /** A block that starts with a known operator starts with one statement. */
  lemma {:induction false} FirstStmt(f: Filter, rest: string)
    requires Known(f.op)
    ensures var s := EncFilterStmt(f) + rest;
            var p, q := ParseStmt(s, true), ParseScript(s, true);
            && (p.value.None? ==> q.bad)
            && (p.value.Some? ==>
                  var more := ParseScript(p.rest, true);
                  q == Parse([p.value.value] + more.value, more.rest, p.bad || more.bad))
  {
    hide ParseStmt, EncFieldName, EncValues, EncCollate, EncFilterBlock;
    OperatorIsHead(f.op);
    var s := EncFilterStmt(f) + rest;
    assert s != "" && s[0] == f.op[0] && IsWordRune(s[0]);
    assert SkipSeparators(s) == s;
  }

  /** A filter with a spelling is read back from it. */
  lemma {:induction false} FilterBack(f: Filter, t: string, inBlock: bool)
    requires SpellableFilter(f) && Closes(t, inBlock)
    ensures ReadsBack(ParseStmt(EncFilterStmt(f) + t, inBlock), f)
  {
    hide SpellableFilter, ParseStmt, ReadPredicate, EncFilterStmt, SpellableStmt;
    FilterText(f);
    FilterSpellable(f);
    StmtBack(FilterStmt(f), t, inBlock);
    FilterReads(f);
  }

  /** Printed, parsed and read, a predicate or a group, over all strings and to any depth,
      is the same exactly when it has a spelling. */
  lemma {:induction false} FilterStmtExact(f: Filter, t: string, inBlock: bool)
    requires PlainlyCollated(f) && Closes(t, inBlock)
    ensures ReadsBack(ParseStmt(EncFilterStmt(f) + t, inBlock), f) <==> SpellableFilter(f)
  {
    hide SpellableFilter, ReadsBack, PlainlyCollated;
    if SpellableFilter(f) {
      FilterBack(f, t, inBlock);
    } else {
      FilterLost(f, t, inBlock);
    }
  }

  /** And a whole filter, written without its top operator, exactly when that is `and`
      and the filter has a spelling. */
  lemma {:induction false} FilterExact(f: Filter, t: string)
    requires PlainlyCollated(f)
    ensures var v := ParseValue(EncFilter(f) + t);
            !v.bad && v.value.Some? && ReadFilter(Named("filter", v.value.value)) == Ok(f)
            <==> f.op == "and" && SpellableFilter(f)
  {
    var v := ParseValue(EncFilter(f) + t);
    if f.op == "and" && SpellableFilter(f) {
      FilterRoundTrip(f, t);
    } else if !v.bad && v.value.Some? && ReadFilter(Named("filter", v.value.value)) == Ok(f) {
      hide ParseValue, EncFilterBlock;
      ChildLost(f);
      FilterBlockLost(f.children, t);
    }
  }

  // ----- what a collation that opens a bracket can do -----

  /** A collation and the text after it that end as a block and that collation again. */
  predicate Borrows(c: string, t: string) {
    PlainCollation(c) && c != "" && !IsWord(c) && c + t == "a" + " " + "{}" + " collate=" + ("(" + c + ")")
  }

  /** What such a collation is read as: a word, a set of nothing, and itself. */
  function Borrowing(c: string): seq<Arg> {
    [Named("collate", Word("a"))] + ([Operand(Block([]))] + [Named("collate", Word(c))])
  }

  lemma {:induction false} ShortWord()
    ensures IsWord("a") && CText("a") == "a"
  {
    assert SkipSign("a") == "a";
    TokenIsText("a");
  }

  lemma {:induction false} BorrowingText(c: string, t: string)
    requires Borrows(c, t)
    ensures WriteArgs(Borrowing(c)) == EncCollate(c) + t
  {
    ShortWord();
    CTextFacts(c);
    hide WriteArgs, CText, IsWord;
    var x, y, z := Named("collate", Word("a")), Operand(Block([])), Named("collate", Word(c));
    WriteArgsOne(x);
    WriteArgsOne(y);
    WriteArgsOne(z);
    WriteArgsConcat([y], [z]);
    WriteArgsConcat([x], [y] + [z]);
    BorrowingArgs(c);
    hide WriteArg;
    BorrowedJoins(" collate=", "a", " ", "{}", "(" + c + ")", c, t);
  }

  lemma {:induction false} BorrowingArgs(c: string)
    requires CText(c) == c && !IsWord(c) && IsWord("a") && CText("a") == "a"
    ensures " " + WriteArg(Named("collate", Word("a"))) == " collate=" + "a"
    ensures WriteArg(Operand(Block([]))) == "" + "{}"
    ensures " " + WriteArg(Named("collate", Word(c))) == " collate=" + ("(" + c + ")")
  {
    hide CText, IsWord;
    var v := "(" + c + ")";
    assert WriteValue(Word(c)) == v;
    hide WriteValue;
    Regroup(" ", "collate" + "=", v);
    Regroup(" ", "collate" + "=", "a");
    assert " " + ("collate" + "=") == " collate=";
    assert WriteValue(Word("a")) == "a" by {
      BareText("a");
    }
  }

  lemma {:induction false} BareText(w: string)
    requires IsWord(w) && CText(w) == w
    ensures WriteValue(Word(w)) == w
  {}

  lemma {:induction false} BorrowedJoins(
    say: string, a: string, blank: string, block: string, symbol: string, c: string, t: string)
    requires c + t == a + blank + block + say + symbol
    ensures say + a + (blank + ("" + block) + (say + symbol)) == say + c + t
  {
    assert "" + block == block;
    Regroup(say, c, t);
    Regroup(say, a + blank + block + say, symbol);
    Regroup(say, a + blank + block, say);
    Regroup(say, a + blank, block);
    Regroup(say, a, blank);
    Regroup(say + a, blank, block);
    Regroup(say + a, blank + block, say);
    Regroup(say + a, blank + block + say, symbol);
    Regroup(blank + block, say, symbol);
  }

  lemma {:induction false} BorrowingSpellable(c: string)
    requires PlainCollation(c) && c != ""
    ensures SpellableArgs(Borrowing(c))
  {
    ShortWord();
    assert IsName("collate");
    hide IsWord, IsName;
    assert SpellableArg(Named("collate", Word("a"))) && SpellableArg(Operand(Block([])));
    assert SpellableArg(Named("collate", Word(c)));
  }

  lemma {:induction false} BorrowingTold(told: Told, c: string)
    requires told.named && PlainCollation(c)
    ensures TellAll("in", told, Borrowing(c)) == Ok(told.(collate := c))
  {
    ShortWord();
    CTextFacts(c);
    hide CText, IsWord, TellAll;
    var x, y, z := Named("collate", Word("a")), Operand(Block([])), Named("collate", Word(c));
    var t := told.(collate := "a");
    TellCons("in", told, x, [y] + [z]);
    TellCons("in", t, y, [z]);
    assert [z] + [] == [z] && t.values + [] == t.values;
    TellCons("in", t, z, []);
    NothingTold("in", told.(collate := c));
  }

  /** A filter with no spelling that is read back all the same, out of the text after it. */
  lemma {:induction false} Borrowed(f: Filter, t: string)
    requires f.op == "in" && f.children == [] && SpellableField(f.field) && Borrows(f.collate, t) && Closes(t, true)
    requires f.values != [] && forall v :: v in f.values ==> SpellableItem(v)
    ensures !SpellableFilter(f) && ReadsBack(ParseStmt(EncFilterStmt(f) + t, true), f)
  {
    hide ParseArgs, EncFieldName, EncValues, EncCollate, TellAll, Borrowing, Follows, SpellableItem, SpellableField,
        IsWord;
    var u := EncCollate(f.collate) + t;
    StmtText(f, t);
    HeadParses("in", " " + EncFieldName(f.field) + AfterField(f, t), true);
    CollateFollows(f.collate, t, true);
    SpellableIsItem(f.values);
    ValuesFollow(f.values, u);
    FieldPasses("in", f.field, AfterField(f, t), true);
    var told := UNTOLD.(named := true, field := f.field);
    assert [] + f.values == f.values;
    ValuesPass("in", told, f.values, u, true);
    BorrowingText(f.collate, t);
    BorrowingSpellable(f.collate);
    ArgsBack(Borrowing(f.collate), "", true);
    assert WriteArgs(Borrowing(f.collate)) + "" == u;
    BorrowingTold(told.(values := f.values), f.collate);
    FieldIsSome(f.field);
  }

  lemma {:induction false} FieldIsSome(name: string)
    requires SpellableField(name)
    ensures name != ""
  {}

  lemma {:induction false} Doubled(head: string, l: string, r: string, say: string, p: string, q: string)
    ensures var o := head + l;
            var z := r + say + p + o;
            (o + z) + (z + q) == head + (l + r) + say + (p + (o + z) + q)
  {
    var o, h := head + l, r + say + p;
    var z := h + o;
    var c := o + z;
    Regroup(head, l, r);
    Regroup(o + r + say, p + c, q);
    Regroup(o + r + say, p, c);
    Regroup(o, r + say, p);
    Regroup(o, r, say);
    Regroup(o + h, o, z);
    Regroup(o, h, o);
    Regroup(c, z, q);
  }

  lemma {:induction false} PlainPieces(a: string, b: string)
    requires PlainCollation(a) && PlainCollation(b)
    ensures PlainCollation(a + b)
  {}

  /** There is one: the collation `a {} collate=(a {` before `} collate=(a {)`. */
  lemma {:induction false} SomeBorrow() returns (c: string, t: string)
    ensures Borrows(c, t) && Closes(t, true)
  {
    var o := "a" + " " + "{";
    var z := "}" + " collate=" + "(" + o;
    c, t := o + z, z + ")";
    Doubled("a" + " ", "{", "}", " collate=", "(", ")");
    assert "{" + "}" == "{}";
    assert c[1] == o[1] == ' ' && !IsTokenRune(c[1]) && t[0] == z[0] == '}';
    PlainPieces("a" + " ", "{");
    PlainPieces("}", " collate=");
    PlainPieces("}" + " collate=", "(");
    PlainPieces("}" + " collate=" + "(", o);
    PlainPieces(o, z);
  }
}
