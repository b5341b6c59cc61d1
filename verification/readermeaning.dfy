/**
 What the readers make of arguments no printer writes, said of the arguments: of each
 name the last one counts, and the first that is wrong is what the statement is refused
 for.
 */
module ReaderMeaning {
  import opened Text
  import opened Tokens
  import opened Quoting
  import opened Syntax
  import opened Query
  import opened Reader

  // ----- the last argument of a name -----

  function LastOf(args: seq<Arg>, names: set<string>): Option<Arg> {
    if args == [] then None
    else
      var n := |args| - 1;
      if args[n].name in names then Some(args[n]) else LastOf(args[..n], names)
  }

  predicate LastAsserted(args: seq<Arg>, name: string) {
    var a := LastOf(args, {name});
    a.Some? && a.value.flag == Asserted
  }

  function LastValue(args: seq<Arg>, name: string): Option<Value> {
    var a := LastOf(args, {name});
    if a.Some? then a.value.value else None
  }

  lemma {:induction false} LastMore(args: seq<Arg>, a: Arg, names: set<string>)
    ensures LastOf(args + [a], names) == if a.name in names then Some(a) else LastOf(args, names)
  {
    assert (args + [a])[..|args|] == args;
  }

  /** The first argument that is not as it has to be; past the end where all are. */
  function FirstWrong(args: seq<Arg>, right: Arg -> bool): (i: nat)
    ensures i <= |args| && (i < |args| ==> !right(args[i]))
    ensures forall j :: 0 <= j < i ==> right(args[j])
  {
    if args == [] || !right(args[0]) then 0 else 1 + FirstWrong(args[1..], right)
  }

  // ----- scopes -----

  predicate IsCount(v: Option<Value>) {
    v.Some? && v.value.Int? && v.value.i >= 0
  }

  /** What a scope asks of an argument that has one of its names. */
  predicate RightForScope(a: Arg) {
    && (a.name in {"count", "from"} ==> IsCount(a.value))
    && (a.name in {"after", "until"} ==> a.value.Some? && !a.value.value.Block?)
    && (a.name in {"reversed", "extend"} ==> a.value.None?)
  }

  /** The count a scope's last argument of a name gives, as the C `int` it is cast to. */
  function LastCount(args: seq<Arg>, name: string): int {
    match LastValue(args, name)
    case Some(Int(i)) => ToInt32(i)
    case _ => 0
  }

  /** The cast keeps a count that an `int` holds, and every other modulo 2^32. */
  lemma {:induction false} CastKeeps(i: Int64)
    ensures -0x8000_0000 <= ToInt32(i) < 0x8000_0000 && (ToInt32(i) - i) % 0x1_0000_0000 == 0
    ensures -0x8000_0000 <= i < 0x8000_0000 ==> ToInt32(i) == i
  {}

  lemma {:induction false} AskMore(k: Asked, args: seq<Arg>, a: Arg)
    ensures AskAll(k, args + [a]) ==
              match AskAll(k, args)
              case Ok(k') => Ask(k', a)
              case Refused(why) => Refused(why)
    decreases |args|
  {
    hide Ask;
    if args == [] {
      assert args + [a] == [a] && [a][1..] == [];
      if Ask(k, a).Ok? {
        assert AskAll(Ask(k, a).value, []) == Ask(k, a);
      }
    } else {
      assert (args + [a])[0] == args[0] && (args + [a])[1..] == args[1..] + [a];
      if Ask(k, args[0]).Ok? {
        AskMore(Ask(k, args[0]).value, args[1..], a);
      }
    }
  }

  /** Why an argument is refused, by its name and what it has for a value. */
  predicate ScopeRefusal(a: Arg, why: Refusal) {
    if a.name == "count" || a.name == "from" then
      why == if a.value.Some? && a.value.value.Int? then NotACount else ExpectedNumber
    else if a.name == "after" || a.name == "until" then
      why == if a.value.Some? then BlockIsNoValue else ExpectedIdentity
    else why == TakesNoValue
  }

  lemma {:induction false} AskOne(k: Asked, a: Arg)
    ensures RightForScope(a) <==> Ask(k, a).Ok?
    ensures Ask(k, a).Refused? ==> ScopeRefusal(a, Ask(k, a).why)
  {}

  /** Exactly what is asked for by some arguments that are all right, whatever else is
      among them. */
  predicate Said(k: Asked, args: seq<Arg>) {
    && k.scope.count == LastCount(args, "count") && k.scope.from == LastCount(args, "from")
    && k.scope.after == LastValue(args, "after") && k.scope.until == LastValue(args, "until")
    && k.scope.reversed == LastAsserted(args, "reversed") && k.extend == LastAsserted(args, "extend")
  }

  lemma {:induction false} SaidMore(k: Asked, args: seq<Arg>, a: Arg)
    requires Said(k, args) && RightForScope(a)
    ensures Said(Ask(k, a).value, args + [a])
  {
    hide LastOf, ToInt32;
    LastMore(args, a, {"count"});
    LastMore(args, a, {"from"});
    LastMore(args, a, {"after"});
    LastMore(args, a, {"until"});
    LastMore(args, a, {"reversed"});
    LastMore(args, a, {"extend"});
  }

  lemma {:induction false} ArgsAsk(args: seq<Arg>)
    ensures var i, k := FirstWrong(args, RightForScope), AskAll(UNASKED, args);
            if i == |args| then k.Ok? && Said(k.value, args)
            else k.Refused? && ScopeRefusal(args[i], k.why)
  {
    if args != [] {
      hide Ask, AskAll, Said, ScopeRefusal, RightForScope;
      var n := |args| - 1;
      assert args == args[..n] + [args[n]];
      ArgsAsk(args[..n]);
      AskMore(UNASKED, args[..n], args[n]);
      FirstWrongMore(args, RightForScope);
      if AskAll(UNASKED, args[..n]).Ok? {
        AskOne(AskAll(UNASKED, args[..n]).value, args[n]);
        if RightForScope(args[n]) {
          SaidMore(AskAll(UNASKED, args[..n]).value, args[..n], args[n]);
        }
      }
    }
  }

  lemma {:induction false} FirstWrongMore(args: seq<Arg>, right: Arg -> bool)
    requires args != []
    ensures var n := |args| - 1;
            var i := FirstWrong(args[..n], right);
            FirstWrong(args, right) == if i < n then i else if right(args[n]) then n + 1 else n
  {
    var n := |args| - 1;
    var i, j := FirstWrong(args[..n], right), FirstWrong(args, right);
    assert forall k :: 0 <= k < n ==> args[..n][k] == args[k];
  }

  /** A scope is refused for its first wrong argument, or for saying where to start in two
      ways; and otherwise it is what the last argument of each name says. */
  lemma {:induction false} ScopeIsRead(args: seq<Arg>)
    ensures var i, r := FirstWrong(args, RightForScope), ReadScope(args);
            if i < |args| then r.Refused? && ScopeRefusal(args[i], r.why)
            else if LastValue(args, "after").Some? && LastCount(args, "from") != 0 then r == Refused(AfterAndFrom)
            else r.Ok? && Said(r.value, args)
  {
    hide AskAll, LastValue, LastCount, ScopeRefusal;
    ArgsAsk(args);
  }

  // ----- sort levels -----

  predicate RightForLevel(a: Arg) {
    if a.value.Some? then a.name == "collate" && a.value.value.Word?
    else a.name in {"desc", "asc", "exact", "fold", "natural"}
  }

  /** Whether a level descends: what the last `desc` or `asc` says, as it is asserted. */
  predicate Descends(args: seq<Arg>) {
    var a := LastOf(args, {"desc", "asc"});
    a.Some? && (a.value.name == "desc") == (a.value.flag == Asserted)
  }

  /** A level's collation: the last word for one, or the last `collate=`. */
  function LastCollation(args: seq<Arg>): string {
    match LastOf(args, {"collate", "exact", "fold", "natural"})
    case None => ""
    case Some(a) => if a.value.Some? && a.value.value.Word? then CText(a.value.value.w) else a.name
  }

  lemma {:induction false} WordsMore(l: SortLevel, args: seq<Arg>, a: Arg)
    ensures ReadLevelWords(l, args + [a]) ==
              match ReadLevelWords(l, args)
              case Ok(l') => ReadLevelWord(l', a)
              case Refused(why) => Refused(why)
    decreases |args|
  {
    hide ReadLevelWord;
    if args == [] {
      assert args + [a] == [a] && [a][1..] == [];
      if ReadLevelWord(l, a).Ok? {
        assert ReadLevelWords(ReadLevelWord(l, a).value, []) == ReadLevelWord(l, a);
      }
    } else {
      assert (args + [a])[0] == args[0] && (args + [a])[1..] == args[1..] + [a];
      if ReadLevelWord(l, args[0]).Ok? {
        WordsMore(ReadLevelWord(l, args[0]).value, args[1..], a);
      }
    }
  }

  predicate LevelSaid(l: SortLevel, field: string, args: seq<Arg>) {
    l.field == field && l.descending == Descends(args) && l.collation == LastCollation(args)
  }

  lemma {:induction false} WordOne(l: SortLevel, field: string, args: seq<Arg>, a: Arg)
    requires LevelSaid(l, field, args)
    ensures RightForLevel(a) <==> ReadLevelWord(l, a).Ok?
    ensures RightForLevel(a) ==> LevelSaid(ReadLevelWord(l, a).value, field, args + [a])
    ensures ReadLevelWord(l, a).Refused? ==>
              ReadLevelWord(l, a).why == if a.value.Some? then NoSuchArgument else NothingAboutSort
  {
    assert (args + [a])[..|args|] == args;
  }

  lemma {:induction false} WordsRead(field: string, args: seq<Arg>)
    ensures var i, l := FirstWrong(args, RightForLevel), ReadLevelWords(SortLevel(field, false, ""), args);
            if i == |args| then l.Ok? && LevelSaid(l.value, field, args)
            else l.Refused? && l.why == if args[i].value.Some? then NoSuchArgument else NothingAboutSort
  {
    if args != [] {
      hide ReadLevelWord, ReadLevelWords, LevelSaid, RightForLevel;
      var n := |args| - 1;
      assert args == args[..n] + [args[n]];
      WordsRead(field, args[..n]);
      WordsMore(SortLevel(field, false, ""), args[..n], args[n]);
      FirstWrongMore(args, RightForLevel);
      var l := ReadLevelWords(SortLevel(field, false, ""), args[..n]);
      if l.Ok? {
        WordOne(l.value, field, args[..n], args[n]);
      }
    }
  }

  /** A sort is refused for the first statement that heads no level or has a wrong word,
      and otherwise is one level to each: its verb, its direction and its collation. */
  lemma {:induction false} LevelIsRead(st: Stmt)
    ensures var i, r := FirstWrong(st.args, RightForLevel), ReadLevel(st);
            if st.verb == "" then r == Refused(NoFieldName)
            else if i < |st.args| then
              r.Refused? && r.why == if st.args[i].value.Some? then NoSuchArgument else NothingAboutSort
            else r.Ok? && LevelSaid(r.value, st.verb, st.args)
  {
    WordsRead(st.verb, st.args);
  }

  lemma {:induction false} LevelsAreRead(b: seq<Stmt>)
    ensures var r := ReadLevels(b);
            r.Ok? <==> forall st :: st in b ==> ReadLevel(st).Ok?
    ensures var r := ReadLevels(b);
            r.Ok? ==> |r.value| == |b| && forall i :: 0 <= i < |b| ==> Ok(r.value[i]) == ReadLevel(b[i])
  {
    hide ReadLevel;
    if b != [] {
      LevelsAreRead(b[1..]);
      assert b[0] in b;
      assert forall st :: st in b <==> st == b[0] || st in b[1..];
    }
  }

  // ----- lists of names -----

  /** Text between commas. */
  function BetweenCommas(s: string): (ps: seq<string>)
    ensures ps != []
    decreases |s|
  {
    var n := Span(NotComma, s);
    if n == |s| then [s] else [s[..n]] + BetweenCommas(s[n + 1..])
  }

  /** Commas put back where they were. */
  function Commas(ps: seq<string>): string
    requires ps != []
  {
    if |ps| == 1 then ps[0] else ps[0] + "," + Commas(ps[1..])
  }

  lemma {:induction false} PiecesAreText(s: string)
    ensures Commas(BetweenCommas(s)) == s && forall p :: p in BetweenCommas(s) ==> ',' !in p
    decreases |s|
  {
    var n := Span(NotComma, s);
    assert forall k :: 0 <= k < n ==> NotComma(s[..n][k]);
    if n < |s| {
      PiecesAreText(s[n + 1..]);
      assert s == s[..n] + "," + s[n + 1..];
    } else {
      assert s[..n] == s;
    }
  }

  /** Blank: one of the six characters C counts as space. */
  predicate Blank(s: string) {
    forall c :: c in s ==> c in [' ', '\t', '\n', '\r', 0x0B as char, 0x0C as char]
  }

  /** Trimming takes the blanks from both ends and nothing else. */
  lemma {:induction false} TrimTakes(s: string) returns (a: string, b: string)
    ensures s == a + Trim(s) + b && Blank(a) && Blank(b)
    ensures Trim(s) != "" ==> !Blank([Trim(s)[0]]) && !Blank([Trim(s)[|Trim(s)| - 1]])
  {
    hide TrimLeft, TrimRight, Blank;
    a := LeftTakes(s);
    b := RightTakes(TrimLeft(s));
    Regroup(a, Trim(s), b);
  }

  lemma {:induction false} SpaceIsBlank(c: char)
    ensures IsSpace(c) <==> Blank([c])
  {
    assert c in [c];
  }

  lemma {:induction false} LeftTakes(s: string) returns (a: string)
    ensures s == a + TrimLeft(s) && Blank(a) && (TrimLeft(s) != "" ==> !Blank([TrimLeft(s)[0]]))
  {
    if s != "" && IsSpace(s[0]) {
      SpaceIsBlank(s[0]);
      var rest := LeftTakes(s[1..]);
      a := [s[0]] + rest;
      assert forall c :: c in a ==> c in [s[0]] || c in rest;
    } else {
      a := "";
      if s != "" {
        SpaceIsBlank(s[0]);
      }
    }
  }

  lemma {:induction false} RightTakes(s: string) returns (b: string)
    ensures s == TrimRight(s) + b && Blank(b)
    ensures TrimRight(s) != "" ==> !Blank([TrimRight(s)[|TrimRight(s)| - 1]]) && TrimRight(s)[0] == s[0]
  {
    if s != "" && IsSpace(s[|s| - 1]) {
      var c := s[|s| - 1];
      SpaceIsBlank(c);
      var rest := RightTakes(s[..|s| - 1]);
      b := rest + [c];
      assert s == s[..|s| - 1] + [c];
    } else {
      b := "";
      if s != "" {
        SpaceIsBlank(s[|s| - 1]);
      }
    }
  }

  function NamesIn(ps: seq<string>): seq<Field> {
    if ps == [] then [] else [Field(CText(Trim(ps[0])), None)] + NamesIn(ps[1..])
  }

  /** A list of names is what stands between its commas, each trimmed, and refused where
      one of them is nothing; text that is all blank is a list of none. */
  lemma {:induction false} ListIsRead(s: string)
    ensures ReadNames(s) ==
              if exists p :: p in BetweenCommas(s) && Trim(p) == "" then Refused(EmptyName)
              else Ok(NamesIn(BetweenCommas(s)))
    ensures ReadFieldList(s) == if Trim(s) == "" then Ok([]) else ReadNames(s)
    decreases |s|
  {
    hide Trim, CText;
    var n := Span(NotComma, s);
    if n < |s| {
      ListIsRead(s[n + 1..]);
      var ps := BetweenCommas(s[n + 1..]);
      assert forall p :: p in [s[..n]] + ps <==> p == s[..n] || p in ps;
      assert ([s[..n]] + ps)[1..] == ps;
    } else {
      assert s[..n] == s && [s][1..] == [] && s in [s];
      assert NamesIn([]) == [] && NamesIn([s]) == [Field(CText(Trim(s)), None)];
    }
  }

  // ----- operands -----

  /** What an operand can be read as: the value it has, or the word a bare one is. */
  lemma {:induction false} OperandForms(v: Value, name: string, more: string)
    ensures ValueOf(Operand(v)) == if v.Block? then Refused(BlockIsNoValue) else Ok(v)
    ensures ValueOf(Bare(name)) == Ok(Word(name))
    ensures name != "" ==> ValueOf(Named(name, v)) == Refused(NoSuchArgument)
    ensures ValueOf(Arg(name, Negated, None)) == ValueOf(Arg(name, Indeterminate, None)) == Refused(AssertedNotValued)
  {}

  /** And as the name of a field: a word, a text, or a position written as a number. */
  lemma {:induction false} FieldForms(i: Int64, s: string, v: Value, name: string)
    ensures FieldOf(Bare(name)) == Ok(name)
    ensures FieldOf(Operand(Word(s))) == FieldOf(Operand(Str(s))) == Ok(CText(s))
    ensures FieldOf(Operand(Int(i))) == Ok(IntText(i))
    ensures v.Float? || v.Block? ==> FieldOf(Operand(v)) == Refused(NoFieldName)
    ensures name != "" ==> FieldOf(Named(name, v)) == Refused(NamesFieldFirst)
    ensures FieldOf(Arg(name, Negated, None)) == FieldOf(Arg(name, Indeterminate, None)) == Refused(AssertedNotNamed)
  {}

  // ----- bags -----

  /** A bag is a list of names or a block of fields, and nothing else. */
  lemma {:induction false} BagIsRead(a: Arg)
    ensures ReadBag(a) ==
              match a.value
              case Some(Str(s)) => ReadFieldList(s)
              case Some(Block(b)) => ReadFields(b)
              case _ => Refused(ExpectedFields)
  {
    hide ReadFieldList, ReadFields;
  }

  /** A field is a name and at most one value. */
  lemma {:induction false} FieldIsRead(st: Stmt)
    ensures ReadField(st) ==
              if st.verb == "" then Refused(NoFieldName)
              else if |st.args| > 1 then Refused(OneValueOnly)
              else if st.args == [] then Ok(Field(st.verb, None))
              else match ValueOf(st.args[0])
                case Ok(v) => Ok(Field(st.verb, Some(v)))
                case Refused(why) => Refused(why)
  {
    hide ValueOf;
  }

  lemma {:induction false} FieldsAreRead(b: seq<Stmt>)
    ensures var r := ReadFields(b);
            r.Ok? <==> forall st :: st in b ==> ReadField(st).Ok?
    ensures var r := ReadFields(b);
            r.Ok? ==> |r.value| == |b| && forall i :: 0 <= i < |b| ==> Ok(r.value[i]) == ReadField(b[i])
  {
    hide ReadField;
    if b != [] {
      FieldsAreRead(b[1..]);
      assert b[0] in b;
      assert forall st :: st in b <==> st == b[0] || st in b[1..];
    }
  }

  // ----- identities and sets -----

  predicate NamesIdentity(a: Arg) {
    a.name == "" && a.value.Some? && !a.value.value.Block?
  }

  /** `id` reads values alone, at least one, in the order written. */
  lemma {:induction false} IdIsRead(st: Stmt)
    requires st.verb == "id"
    ensures var r := ReadPredicate(st);
            && (r.Ok? <==> st.args != [] && forall a :: a in st.args ==> NamesIdentity(a))
            && (r.Ok? ==> r.value.op == "id" && r.value.field == "" && r.value.collate == "" && r.value.children == []
                          && |r.value.values| == |st.args|
                          && forall i :: 0 <= i < |st.args| ==> st.args[i].value == Some(r.value.values[i]))
  {
    IdentitiesAreRead(st.args);
  }

  lemma {:induction false} IdentitiesAreRead(args: seq<Arg>)
    ensures var r := ReadIdentities(args);
            && (r.Ok? <==> forall a :: a in args ==> NamesIdentity(a))
            && (r.Ok? ==> |r.value| == |args| && forall i :: 0 <= i < |args| ==> args[i].value == Some(r.value[i]))
  {
    if args != [] {
      IdentitiesAreRead(args[1..]);
      assert args[0] in args;
      assert forall a :: a in args <==> a == args[0] || a in args[1..];
    }
  }

  /** A set is words, each a statement of one. */
  lemma {:induction false} SetIsRead(b: seq<Stmt>)
    ensures var r := ReadSet(b);
            && (r.Ok? <==> forall st :: st in b ==> st.verb != "" && st.args == [])
            && (r.Ok? ==> |r.value| == |b| && forall i :: 0 <= i < |b| ==> r.value[i] == Word(b[i].verb))
            && (r.Refused? ==> r.why == SetHoldsNames)
  {
    if b != [] {
      SetIsRead(b[1..]);
      assert forall st :: st in b <==> st == b[0] || st in b[1..];
    }
  }

  // ----- comparisons -----

  /** The arguments of a comparison that say a collation, and those that do not. */
  function Collates(args: seq<Arg>, say: bool): seq<Arg> {
    if args == [] then []
    else
      var n := |args| - 1;
      Collates(args[..n], say) + if IsCollate(args[n]) == say then [args[n]] else []
  }

  /** What an operand past the field is matched against: a value, or a set for `in`. */
  function MatchedBy(op: string, a: Arg): Result<seq<Value>> {
    if a.value.Some? && a.value.value.Block? then
      if op == "in" then ReadSet(a.value.value.stmts) else Refused(BlockIsNoValue)
    else match ValueOf(a)
      case Ok(v) => Ok([v])
      case Refused(why) => Refused(why)
  }

  /** Everything some operands are matched against, in order. */
  function AllMatched(op: string, args: seq<Arg>): seq<Value>
    requires forall a :: a in args ==> MatchedBy(op, a).Ok?
  {
    if args == [] then []
    else
      var n := |args| - 1;
      AllMatched(op, args[..n]) + MatchedBy(op, args[n]).value
  }

  /** Every collation is a word, the first operand names a field, and each of the rest is
      something to match. */
  predicate RightForComparison(op: string, args: seq<Arg>) {
    var says, rest := Collates(args, true), Collates(args, false);
    && (forall a :: a in says ==> a.value.Some? && a.value.value.Word?)
    && (rest != [] ==> FieldOf(rest[0]).Ok? && forall a :: a in rest[1..] ==> MatchedBy(op, a).Ok?)
  }

  function LastSaid(args: seq<Arg>): string {
    var says := Collates(args, true);
    if says == [] then ""
    else
      var a := says[|says| - 1];
      if a.value.Some? && a.value.value.Word? then CText(a.value.value.w) else ""
  }

  lemma {:induction false} CollatesAre(args: seq<Arg>, say: bool)
    ensures forall a :: a in Collates(args, say) ==> IsCollate(a) == say
  {
    if args != [] {
      CollatesAre(args[..|args| - 1], say);
    }
  }

  lemma {:induction false} TellMore(op: string, t: Told, args: seq<Arg>, a: Arg)
    ensures TellAll(op, t, args + [a]) ==
              match TellAll(op, t, args)
              case Ok(t') => Tell(op, t', a)
              case Refused(why) => Refused(why)
    decreases |args|
  {
    hide Tell;
    if args == [] {
      assert args + [a] == [a] && [a][1..] == [];
      if Tell(op, t, a).Ok? {
        assert TellAll(op, Tell(op, t, a).value, []) == Tell(op, t, a);
      }
    } else {
      assert (args + [a])[0] == args[0] && (args + [a])[1..] == args[1..] + [a];
      if Tell(op, t, args[0]).Ok? {
        TellMore(op, Tell(op, t, args[0]).value, args[1..], a);
      }
    }
  }

  /** What has been told by some arguments that are all right. */
  predicate ToldBy(t: Told, op: string, args: seq<Arg>)
    requires RightForComparison(op, args)
  {
    var rest := Collates(args, false);
    && t.collate == LastSaid(args) && (t.named <==> rest != [])
    && (rest == [] ==> t.field == "" && t.values == [])
    && (rest != [] ==> FieldOf(rest[0]) == Ok(t.field) && t.values == AllMatched(op, rest[1..]))
  }

  lemma {:induction false} MoreCollates(args: seq<Arg>, a: Arg, say: bool)
    ensures Collates(args + [a], say) == Collates(args, say) + if IsCollate(a) == say then [a] else []
  {
    assert (args + [a])[..|args|] == args;
  }

  lemma {:induction false} ToldOneMore(op: string, t: Told, args: seq<Arg>, a: Arg)
    requires RightForComparison(op, args) && ToldBy(t, op, args)
    ensures Tell(op, t, a).Ok? <==> RightForComparison(op, args + [a])
    ensures Tell(op, t, a).Ok? ==> ToldBy(Tell(op, t, a).value, op, args + [a])
  {
    hide RightForComparison, ToldBy, Tell;
    if IsCollate(a) {
      CollateOneMore(op, t, args, a);
    } else if Collates(args, false) == [] {
      FieldOneMore(op, t, args, a);
    } else {
      ValueOneMore(op, t, args, a);
    }
  }

  lemma {:induction false} CollateOneMore(op: string, t: Told, args: seq<Arg>, a: Arg)
    requires RightForComparison(op, args) && ToldBy(t, op, args) && IsCollate(a)
    ensures Tell(op, t, a).Ok? <==> RightForComparison(op, args + [a])
    ensures Tell(op, t, a).Ok? ==> ToldBy(Tell(op, t, a).value, op, args + [a])
  {
    hide FieldOf, CText, Collates, MatchedBy, AllMatched;
    MoreCollates(args, a, true);
    MoreCollates(args, a, false);
    var says, rest := Collates(args, true), Collates(args, false);
    assert rest + [] == rest && a in says + [a] && forall x :: x in says + [a] <==> x in says || x == a;
  }

  lemma {:induction false} FieldOneMore(op: string, t: Told, args: seq<Arg>, a: Arg)
    requires RightForComparison(op, args) && ToldBy(t, op, args) && !IsCollate(a) && Collates(args, false) == []
    ensures Tell(op, t, a).Ok? <==> RightForComparison(op, args + [a])
    ensures Tell(op, t, a).Ok? ==> ToldBy(Tell(op, t, a).value, op, args + [a])
  {
    hide FieldOf, CText, Collates, MatchedBy, IsCollate;
    MoreCollates(args, a, true);
    MoreCollates(args, a, false);
    var says := Collates(args, true);
    assert says + [] == says && [] + [a] == [a] && [a][1..] == [];
  }

  lemma {:induction false} ValueOneMore(op: string, t: Told, args: seq<Arg>, a: Arg)
    requires RightForComparison(op, args) && ToldBy(t, op, args) && !IsCollate(a) && Collates(args, false) != []
    ensures Tell(op, t, a).Ok? <==> RightForComparison(op, args + [a])
    ensures Tell(op, t, a).Ok? ==> ToldBy(Tell(op, t, a).value, op, args + [a])
  {
    hide FieldOf, CText, Collates, ReadSet, ValueOf, IsCollate;
    MoreCollates(args, a, true);
    MoreCollates(args, a, false);
    var says, rest := Collates(args, true), Collates(args, false);
    TailMore(rest, a);
    assert says + [] == says && a in rest[1..] + [a];
  }

  lemma {:induction false} TailMore(rest: seq<Arg>, a: Arg)
    requires rest != []
    ensures (rest + [a])[1..] == rest[1..] + [a] && (rest + [a])[0] == rest[0]
    ensures forall x :: x in rest[1..] + [a] <==> x in rest[1..] || x == a
    ensures (rest[1..] + [a])[..|rest| - 1] == rest[1..]
  {}

  lemma {:induction false} ComparisonTold(op: string, args: seq<Arg>)
    ensures var r := TellAll(op, UNTOLD, args);
            (r.Ok? <==> RightForComparison(op, args)) && (r.Ok? ==> ToldBy(r.value, op, args))
  {
    if args != [] {
      hide Tell, TellAll, ToldBy, RightForComparison;
      var n := |args| - 1;
      assert args == args[..n] + [args[n]];
      ComparisonTold(op, args[..n]);
      TellMore(op, UNTOLD, args[..n], args[n]);
      var r := TellAll(op, UNTOLD, args[..n]);
      if r.Ok? {
        ToldOneMore(op, r.value, args[..n], args[n]);
      } else {
        WrongStays(op, args[..n], args[n]);
      }
    }
  }

  lemma {:induction false} WrongStays(op: string, args: seq<Arg>, a: Arg)
    requires !RightForComparison(op, args)
    ensures !RightForComparison(op, args + [a])
  {
    hide FieldOf, MatchedBy, Collates;
    MoreCollates(args, a, true);
    MoreCollates(args, a, false);
    var says, rest := Collates(args, true), Collates(args, false);
    assert says + [] == says && rest + [] == rest;
    assert forall x :: x in says ==> x in says + [a];
    if rest != [] {
      TailMore(rest, a);
    }
  }

  /** How many values an operator compares with. */
  predicate Compares(op: string, n: nat) {
    if op == "has" || op == "lacks" then n == 0 else if op == "in" then n > 0 else n == 1
  }

  /** The operators that compare a field. */
  predicate ComparesAField(op: string) {
    || op == "eq" || op == "ne"
    || op == "lt" || op == "le" || op == "gt" || op == "ge"
    || op == "in" || op == "contains" || op == "starts" || op == "ends"
    || op == "has" || op == "lacks"
  }

  lemma {:induction false} OperatorsAre(op: string)
    ensures op in OPERATORS <==> ComparesAField(op)
  {}

  /** A comparison is read exactly when its arguments are right, it names a field, and it
      has as many values as its operator takes: and then it is its field, everything it is
      matched against, and the last collation said, wherever among them that stands. */
  lemma {:induction false} ComparisonIsRead(st: Stmt)
    requires ComparesAField(st.verb)
    ensures var r, rest := ReadPredicate(st), Collates(st.args, false);
            && (r.Ok? <==> && RightForComparison(st.verb, st.args) && rest != [] && FieldOf(rest[0]) != Ok("")
                           && Compares(st.verb, |AllMatched(st.verb, rest[1..])|))
            && (r.Ok? ==> && r.value.op == st.verb && FieldOf(rest[0]) == Ok(r.value.field) && r.value.children == []
                          && r.value.values == AllMatched(st.verb, rest[1..]) && r.value.collate == LastSaid(st.args))
  {
    OperatorsAre(st.verb);
    hide TellAll, Collates, FieldOf, MatchedBy, LastSaid, AllMatched, ComparesAField;
    ComparisonTold(st.verb, st.args);
  }

  /** A group is one block of filters, and `not` of at least one; any other verb names no
      predicate. */
  lemma {:induction false} GroupIsRead(st: Stmt)
    ensures var r := ReadPredicate(st);
            (st.verb == "and" || st.verb == "or" || st.verb == "not") ==>
              var ok := |st.args| == 1 && st.args[0].value.Some? && st.args[0].value.value.Block?;
              && (!ok ==> r == Refused(TakesOneBlock))
              && (ok ==>
                    match ReadFilterBlock(st.args[0].value.value.stmts)
                    case Ok(children) =>
                      r == if st.verb == "not" && children == [] then Refused(NothingToNegate)
                           else Ok(Filter(st.verb, "", [], "", children))
                    case Refused(why) => r == Refused(why))
    ensures st.verb !in ["and", "or", "not", "id"] && !ComparesAField(st.verb) ==>
              ReadPredicate(st) == Refused(NoSuchOperator)
  {
    OperatorsAre(st.verb);
    hide ReadId, TellAll, ComparesAField;
  }

  lemma {:induction false} FiltersAreRead(b: seq<Stmt>)
    ensures var r := ReadFilterBlock(b);
            r.Ok? <==> forall st :: st in b ==> ReadPredicate(st).Ok?
    ensures var r := ReadFilterBlock(b);
            r.Ok? ==> |r.value| == |b| && forall i :: 0 <= i < |b| ==> Ok(r.value[i]) == ReadPredicate(b[i])
  {
    hide ReadPredicate;
    if b != [] {
      FiltersAreRead(b[1..]);
      assert b[0] in b;
      assert forall st :: st in b <==> st == b[0] || st in b[1..];
    }
  }

  // ----- descriptors -----

  /** Why an argument of a descriptor is refused, if it is. */
  function DescriptorRefusal(a: Arg): Option<Refusal> {
    if a.name == "source" then
      if a.value.Some? && (a.value.value.Str? || a.value.value.Word?) then None else Some(ExpectedName)
    else if a.name == "fields" || a.name == "exclude" then
      match ReadBag(a) case Ok(_) => None case Refused(why) => Some(why)
    else if a.name == "filter" then
      match ReadFilter(a) case Ok(_) => None case Refused(why) => Some(why)
    else if a.name == "sort" then
      match ReadSort(a) case Ok(_) => None case Refused(why) => Some(why)
    else None
  }

  predicate RightForDescriptor(a: Arg) {
    DescriptorRefusal(a).None?
  }

  /** What the last argument of each name of a descriptor says. */
  predicate DescribedBy(d: Descriptor, args: seq<Arg>) {
    && (match LastValue(args, "source")
        case Some(Str(s)) => d.source == CText(s)
        case Some(Word(w)) => d.source == CText(w)
        case _ => d.source == "")
    && (match LastOf(args, {"fields"}) case Some(a) => ReadBag(a) == Ok(d.fields) case None => d.fields == [])
    && (match LastOf(args, {"exclude"}) case Some(a) => ReadBag(a) == Ok(d.exclude) case None => d.exclude == [])
    && (match LastOf(args, {"sort"}) case Some(a) => ReadSort(a) == Ok(d.sort) case None => d.sort == [])
    && (match LastOf(args, {"filter"})
        case Some(a) => d.filter.Some? && ReadFilter(a) == Ok(d.filter.value)
        case None => d.filter.None?)
  }

  lemma {:induction false} DescribeMore(d: Descriptor, args: seq<Arg>, a: Arg)
    ensures DescribeAll(d, args + [a]) ==
              match DescribeAll(d, args)
              case Ok(d') => Describe(d', a)
              case Refused(why) => Refused(why)
    decreases |args|
  {
    hide Describe;
    if args == [] {
      assert args + [a] == [a] && [a][1..] == [];
      if Describe(d, a).Ok? {
        assert DescribeAll(Describe(d, a).value, []) == Describe(d, a);
      }
    } else {
      assert (args + [a])[0] == args[0] && (args + [a])[1..] == args[1..] + [a];
      if Describe(d, args[0]).Ok? {
        DescribeMore(Describe(d, args[0]).value, args[1..], a);
      }
    }
  }

  lemma {:induction false} DescribedOneMore(d: Descriptor, args: seq<Arg>, a: Arg)
    requires DescribedBy(d, args)
    ensures match DescriptorRefusal(a)
            case None => Describe(d, a).Ok? && DescribedBy(Describe(d, a).value, args + [a])
            case Some(why) => Describe(d, a) == Refused(why)
  {
    hide ReadBag, ReadFilter, ReadSort, CText, LastOf;
    LastMore(args, a, {"source"});
    LastMore(args, a, {"fields"});
    LastMore(args, a, {"exclude"});
    LastMore(args, a, {"filter"});
    LastMore(args, a, {"sort"});
  }

  /** A descriptor is refused for its first wrong argument, for that argument's reason, and
      otherwise is what the last argument of each name says, whatever else is among them. */
  lemma {:induction false} DescriptorIsRead(args: seq<Arg>)
    ensures var i, r := FirstWrong(args, RightForDescriptor), ReadDescriptor(args);
            if i < |args| then r.Refused? && Some(r.why) == DescriptorRefusal(args[i])
            else r.Ok? && DescribedBy(r.value, args)
  {
    if args != [] {
      hide Describe, DescribeAll, DescribedBy, DescriptorRefusal;
      var n := |args| - 1;
      assert args == args[..n] + [args[n]];
      DescriptorIsRead(args[..n]);
      DescribeMore(NOTHING, args[..n], args[n]);
      FirstWrongMore(args, RightForDescriptor);
      var r := DescribeAll(NOTHING, args[..n]);
      if r.Ok? {
        DescribedOneMore(r.value, args[..n], args[n]);
      }
    }
  }
}
