/**
 The readers as the source runs them: each takes a query apart in a loop, stops at
 the first refusal, and is tied to the function for what it reads.
 */
module ReaderLoops {
  import opened Text
  import opened Tokens
  import opened Quoting
  import opened Syntax
  import opened Query
  import opened Reader

  /** What has been read so far, in front of what the rest turns out to be. */
  function After<T>(done: seq<T>, rest: Result<seq<T>>): Result<seq<T>> {
    match rest
    case Ok(more) => Ok(done + more)
    case Refused(why) => Refused(why)
  }

  lemma {:induction false} AfterOne<T>(done: seq<T>, x: T, rest: Result<seq<T>>)
    ensures After(done, After([x], rest)) == After(done + [x], rest)
  {
    if rest.Ok? {
      Regroup(done, [x], rest.value);
    }
  }

  lemma {:induction false} AfterNone<T>(rest: Result<seq<T>>)
    ensures After([], rest) == rest
  {
    if rest.Ok? {
      assert [] + rest.value == rest.value;
    }
  }

  method TrimLoop(s: string) returns (t: string)
    ensures t == Trim(s)
  {
    var a, b := 0, |s|;
    assert s[0..] == s;
    while a < b && IsSpace(s[a])
      invariant a <= b == |s|
      invariant TrimLeft(s[a..]) == TrimLeft(s)
    {
      assert s[a..][1..] == s[a + 1..];
      a := a + 1;
    }
    assert TrimLeft(s) == s[a..b];
    while b > a && IsSpace(s[b - 1])
      invariant a <= b <= |s|
      invariant TrimRight(s[a..b]) == Trim(s)
    {
      assert s[a..b][..b - a - 1] == s[a..b - 1];
      b := b - 1;
    }
    t := s[a..b];
  }

  method ParseFieldList(text: string) returns (r: Result<seq<Field>>)
    ensures r == ReadFieldList(text)
  {
    hide ReadNames, Trim, Span;
    var whole := TrimLoop(text);
    if whole == "" {
      return Ok([]);
    }
    var out: seq<Field> := [];
    var i, j := 0, 0;
    assert text[0..] == text;
    AfterNone(ReadNames(text));
    while j <= |text|
      invariant i <= j <= |text| + 1 && (j == |text| + 1 ==> i == j)
      invariant forall k :: i <= k < j ==> NotComma(text[k])
      invariant i <= |text| ==> After(out, ReadNames(text[i..])) == ReadNames(text)
      invariant i > |text| ==> Ok(out) == ReadNames(text)
      decreases |text| + 1 - j
    {
      if j < |text| && text[j] != ',' {
        j := j + 1;
        continue;
      }
      var name := TrimLoop(text[i..j]);
      NameEnds(text, i, j);
      if name == "" {
        return Refused(EmptyName);
      }
      if j < |text| {
        AfterOne(out, Field(CText(name), None), ReadNames(text[j + 1..]));
      }
      out := out + [Field(CText(name), None)];
      j := j + 1;
      i := j;
    }
    r := Ok(out);
  }

  /** The name that starts at `i` ends at the comma, or at the end of the text. */
  lemma {:induction false} NameEnds(text: string, i: nat, j: nat)
    requires i <= j <= |text| && (forall k :: i <= k < j ==> NotComma(text[k]))
    requires j == |text| || text[j] == ','
    ensures ReadNames(text[i..])
         == var name := Trim(text[i..j]);
            if name == "" then Refused(EmptyName)
            else if j == |text| then Ok([Field(CText(name), None)])
            else After([Field(CText(name), None)], ReadNames(text[j + 1..]))
  {
    SpanExact(NotComma, text[i..j], text[j..]);
    assert text[i..] == text[i..j] + text[j..];
    assert text[i..][..j - i] == text[i..j];
    if j < |text| {
      assert text[i..][j - i + 1..] == text[j + 1..];
    }
  }

  method ParseBag(a: Arg) returns (r: Result<seq<Field>>)
    ensures r == ReadBag(a)
  {
    if a.value.Some? && a.value.value.Str? {
      r := ParseFieldList(a.value.value.s);
      return;
    }
    if a.value.None? || !a.value.value.Block? {
      return Refused(ExpectedFields);
    }
    var b := a.value.value.stmts;
    var out: seq<Field> := [];
    assert b[0..] == b;
    AfterNone(ReadFields(b));
    for i := 0 to |b|
      invariant After(out, ReadFields(b[i..])) == ReadFields(b)
    {
      assert b[i..][1..] == b[i + 1..];
      var f := ReadField(b[i]);
      if f.Refused? {
        return Refused(f.why);
      }
      AfterOne(out, f.value, ReadFields(b[i + 1..]));
      out := out + [f.value];
    }
    assert out + [] == out;
    r := Ok(out);
  }

  method ParseId(st: Stmt) returns (r: Result<Filter>)
    ensures r == ReadId(st)
  {
    var out: seq<Value> := [];
    assert st.args[0..] == st.args;
    AfterNone(ReadIdentities(st.args));
    for i := 0 to |st.args|
      invariant After(out, ReadIdentities(st.args[i..])) == ReadIdentities(st.args)
    {
      assert st.args[i..][1..] == st.args[i + 1..];
      var a := st.args[i];
      if a.value.None? {
        return Refused(NamesNoIdentity);
      }
      if a.name != "" {
        return Refused(NoSuchArgument);
      }
      if a.value.value.Block? {
        return Refused(BlockIsNoValue);
      }
      AfterOne(out, a.value.value, ReadIdentities(st.args[i + 1..]));
      out := out + [a.value.value];
    }
    assert out + [] == out;
    if out == [] {
      return Refused(AtLeastOneIdentity);
    }
    r := Ok(Filter("id", "", out, "", []));
  }

  method ParseSet(b: seq<Stmt>) returns (r: Result<seq<Value>>)
    ensures r == ReadSet(b)
  {
    var out: seq<Value> := [];
    assert b[0..] == b;
    AfterNone(ReadSet(b));
    for j := 0 to |b|
      invariant After(out, ReadSet(b[j..])) == ReadSet(b)
    {
      assert b[j..][1..] == b[j + 1..];
      if b[j].verb == "" || b[j].args != [] {
        return Refused(SetHoldsNames);
      }
      AfterOne(out, Word(b[j].verb), ReadSet(b[j + 1..]));
      out := out + [Word(b[j].verb)];
    }
    assert out + [] == out;
    r := Ok(out);
  }

  /** A predicate that is neither a group nor `id`. */
  method ParseComparison(st: Stmt) returns (r: Result<Filter>)
    requires !IsGroup(st.verb) && st.verb != "id"
    ensures r == ReadPredicate(st)
  {
    if st.verb !in OPERATORS {
      return Refused(NoSuchOperator);
    }
    var named, field, values, collate := false, "", [], "";
    assert st.args[0..] == st.args;
    for i := 0 to |st.args|
      invariant TellAll(st.verb, Told(named, field, values, collate), st.args[i..])
             == TellAll(st.verb, UNTOLD, st.args)
    {
      assert st.args[i..][1..] == st.args[i + 1..];
      var a := st.args[i];
      if a.name == "collate" && a.value.Some? {
        if !a.value.value.Word? {
          return Refused(CollateExpectsWord);
        }
        collate := CText(a.value.value.w);
        continue;
      }
      if !named {
        var name := FieldOf(a);
        if name.Refused? {
          return Refused(name.why);
        }
        field, named := name.value, true;
        continue;
      }
      if a.value.Some? && a.value.value.Block? {
        if st.verb != "in" {
          return Refused(BlockIsNoValue);
        }
        var words := ParseSet(a.value.value.stmts);
        if words.Refused? {
          return Refused(words.why);
        }
        values := values + words.value;
        continue;
      }
      var v := ValueOf(a);
      if v.Refused? {
        return Refused(v.why);
      }
      values := values + [v.value];
    }
    if field == "" {
      return Refused(NamesNoField);
    }
    if st.verb == "has" || st.verb == "lacks" {
      if values != [] {
        return Refused(TakesNoValue);
      }
      return Ok(Filter(st.verb, field, [], collate, []));
    }
    if values == [] {
      return Refused(NothingToCompare);
    }
    if st.verb != "in" && |values| > 1 {
      return Refused(OneValueOnly);
    }
    r := Ok(Filter(st.verb, field, values, collate, []));
  }

  method ParsePredicate(st: Stmt) returns (r: Result<Filter>)
    ensures r == ReadPredicate(st)
    decreases st, 1
  {
    if IsGroup(st.verb) {
      if |st.args| != 1 || st.args[0].value.None? || !st.args[0].value.value.Block? {
        return Refused(TakesOneBlock);
      }
      var children := ParseFilterBlock(st.args[0].value.value.stmts);
      if children.Refused? {
        return Refused(children.why);
      }
      if st.verb == "not" && children.value == [] {
        return Refused(NothingToNegate);
      }
      return Ok(Filter(st.verb, "", [], "", children.value));
    }
    if st.verb == "id" {
      r := ParseId(st);
    } else {
      r := ParseComparison(st);
    }
  }

  method ParseFilterBlock(b: seq<Stmt>) returns (r: Result<seq<Filter>>)
    ensures r == ReadFilterBlock(b)
    decreases b, 0
  {
    var children: seq<Filter> := [];
    assert b[0..] == b;
    AfterNone(ReadFilterBlock(b));
    for i := 0 to |b|
      invariant After(children, ReadFilterBlock(b[i..])) == ReadFilterBlock(b)
    {
      assert b[i..][1..] == b[i + 1..];
      var child := ParsePredicate(b[i]);
      if child.Refused? {
        return Refused(child.why);
      }
      AfterOne(children, child.value, ReadFilterBlock(b[i + 1..]));
      children := children + [child.value];
    }
    assert children + [] == children;
    r := Ok(children);
  }

  method ParseFilterArg(a: Arg) returns (r: Result<Filter>)
    ensures r == ReadFilter(a)
  {
    if a.value.None? || !a.value.value.Block? {
      return Refused(ExpectedBlock);
    }
    var children := ParseFilterBlock(a.value.value.stmts);
    if children.Refused? {
      return Refused(children.why);
    }
    r := Ok(Filter("and", "", [], "", children.value));
  }

  method ParseLevel(st: Stmt) returns (r: Result<SortLevel>)
    ensures r == ReadLevel(st)
  {
    if st.verb == "" {
      return Refused(NoFieldName);
    }
    var l := SortLevel(st.verb, false, "");
    assert st.args[0..] == st.args;
    for j := 0 to |st.args|
      invariant ReadLevelWords(l, st.args[j..]) == ReadLevel(st)
    {
      assert st.args[j..][1..] == st.args[j + 1..];
      var g := st.args[j];
      if g.value.Some? && g.name == "collate" && g.value.value.Word? {
        l := l.(collation := CText(g.value.value.w));
      } else if g.value.Some? {
        return Refused(NoSuchArgument);
      } else if g.name == "desc" {
        l := l.(descending := g.flag == Asserted);
      } else if g.name == "asc" {
        l := l.(descending := g.flag != Asserted);
      } else if g.name == "exact" || g.name == "fold" || g.name == "natural" {
        l := l.(collation := g.name);
      } else {
        return Refused(NothingAboutSort);
      }
    }
    r := Ok(l);
  }

  method ParseSortArg(a: Arg) returns (r: Result<seq<SortLevel>>)
    ensures r == ReadSort(a)
  {
    if a.value.None? || !a.value.value.Block? {
      return Refused(ExpectedBlock);
    }
    var b := a.value.value.stmts;
    var out: seq<SortLevel> := [];
    assert b[0..] == b;
    AfterNone(ReadLevels(b));
    for i := 0 to |b|
      invariant After(out, ReadLevels(b[i..])) == ReadLevels(b)
    {
      assert b[i..][1..] == b[i + 1..];
      var l := ParseLevel(b[i]);
      if l.Refused? {
        return Refused(l.why);
      }
      AfterOne(out, l.value, ReadLevels(b[i + 1..]));
      out := out + [l.value];
    }
    assert out + [] == out;
    r := Ok(out);
  }

  method ParseDescriptor(args: seq<Arg>) returns (r: Result<Descriptor>)
    ensures r == ReadDescriptor(args)
  {
    var out := NOTHING;
    assert args[0..] == args;
    for i := 0 to |args|
      invariant DescribeAll(out, args[i..]) == ReadDescriptor(args)
    {
      assert args[i..][1..] == args[i + 1..];
      var a := args[i];
      if a.name == "source" {
        if a.value.Some? && a.value.value.Str? {
          out := out.(source := CText(a.value.value.s));
        } else if a.value.Some? && a.value.value.Word? {
          out := out.(source := CText(a.value.value.w));
        } else {
          return Refused(ExpectedName);
        }
      } else if a.name == "fields" || a.name == "exclude" {
        var bag := ParseBag(a);
        if bag.Refused? {
          return Refused(bag.why);
        }
        out := if a.name == "fields" then out.(fields := bag.value) else out.(exclude := bag.value);
      } else if a.name == "filter" {
        var f := ParseFilterArg(a);
        if f.Refused? {
          return Refused(f.why);
        }
        out := out.(filter := Some(f.value));
      } else if a.name == "sort" {
        var ls := ParseSortArg(a);
        if ls.Refused? {
          return Refused(ls.why);
        }
        out := out.(sort := ls.value);
      }
    }
    r := Ok(out);
  }

  method ParseScope(args: seq<Arg>) returns (r: Result<Asked>)
    ensures r == ReadScope(args)
  {
    var scope, extend := UNASKED.scope, false;
    assert args[0..] == args;
    for i := 0 to |args|
      invariant AskAll(Asked(scope, extend), args[i..]) == AskAll(UNASKED, args)
    {
      assert args[i..][1..] == args[i + 1..];
      var a := args[i];
      if a.name == "count" || a.name == "from" {
        if a.value.None? || !a.value.value.Int? {
          return Refused(ExpectedNumber);
        }
        if a.value.value.i < 0 {
          return Refused(NotACount);
        }
        if a.name == "count" {
          scope := scope.(count := ToInt32(a.value.value.i));
        } else {
          scope := scope.(from := ToInt32(a.value.value.i));
        }
      } else if a.name == "after" || a.name == "until" {
        if a.value.None? {
          return Refused(ExpectedIdentity);
        }
        if a.value.value.Block? {
          return Refused(BlockIsNoValue);
        }
        if a.name == "after" {
          scope := scope.(after := Some(a.value.value));
        } else {
          scope := scope.(until := Some(a.value.value));
        }
      } else if a.name == "reversed" {
        if a.value.Some? {
          return Refused(TakesNoValue);
        }
        scope := scope.(reversed := a.flag == Asserted);
      } else if a.name == "extend" {
        if a.value.Some? {
          return Refused(TakesNoValue);
        }
        extend := a.flag == Asserted;
      }
    }
    if scope.after.Some? && scope.from != 0 {
      return Refused(AfterAndFrom);
    }
    r := Ok(Asked(scope, extend));
  }
}
