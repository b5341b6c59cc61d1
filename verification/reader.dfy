/**
 Taking a query apart (`value_of` through `parse_qscope`): from the arguments the
 parser yields to the structure an application is handed, or a refusal.
 */
module Reader {
  import opened Text
  import opened Tokens
  import opened Quoting
  import opened Syntax
  import opened Query

  /** Why a query was refused, one constructor to a message of the source. */
  datatype Refusal =
    | NoSuchArgument
    | BlockIsNoValue
    | AssertedNotValued
    | AssertedNotNamed
    | NamesFieldFirst
    | NoFieldName
    | EmptyName
    | ExpectedFields
    | OneValueOnly
    | NamesNoIdentity
    | AtLeastOneIdentity
    | TakesOneBlock
    | NothingToNegate
    | NoSuchOperator
    | CollateExpectsWord
    | SetHoldsNames
    | NamesNoField
    | TakesNoValue
    | NothingToCompare
    | ExpectedBlock
    | NothingAboutSort
    | ExpectedName
    | ExpectedNumber
    | NotACount
    | ExpectedIdentity
    | AfterAndFrom

  datatype Result<+T> = Ok(value: T) | Refused(why: Refusal) {
    predicate IsFailure() { Refused? }
    function PropagateFailure<U>(): Result<U>
      requires Refused?
    {
      Refused(why)
    }
    function Extract(): T
      requires Ok?
    {
      value
    }
  }

  /** One operand as a value. A bare word arrives as a flag carrying its own name. */
  function ValueOf(a: Arg): Result<Value> {
    if a.value.Some? then
      if a.name != "" then Refused(NoSuchArgument)
      else if a.value.value.Block? then Refused(BlockIsNoValue)
      else Ok(a.value.value)
    else if a.flag != Asserted then Refused(AssertedNotValued)
    else Ok(Word(a.name))
  }

  /** A predicate's first operand, as the name of the field it tests. */
  function FieldOf(a: Arg): Result<string> {
    if a.value.None? then
      if a.flag != Asserted then Refused(AssertedNotNamed) else Ok(a.name)
    else if a.name != "" then Refused(NamesFieldFirst)
    else match a.value.value
      case Int(i) => Ok(IntText(i))
      case Str(s) => Ok(CText(s))
      case Word(w) => Ok(CText(w))
      case _ => Refused(NoFieldName)
  }

  // ----- field bags -----

  predicate IsSpace(c: char) {
    c == ' ' || 0x09 <= c as int <= 0x0D
  }

  function TrimLeft(s: string): (r: string)
    ensures |r| <= |s|
  {
    if s != "" && IsSpace(s[0]) then TrimLeft(s[1..]) else s
  }

  function TrimRight(s: string): (r: string)
    ensures |r| <= |s|
  {
    if s != "" && IsSpace(s[|s| - 1]) then TrimRight(s[..|s| - 1]) else s
  }

  function Trim(s: string): string {
    TrimRight(TrimLeft(s))
  }

  predicate NotComma(c: char) {
    c != ','
  }

  /** Names separated by commas, each trimmed; an empty one is a typo and refused. */
  function ReadNames(s: string): Result<seq<Field>>
    decreases |s|
  {
    var n := Span(NotComma, s);
    var name := Trim(s[..n]);
    if name == "" then Refused(EmptyName)
    else if n == |s| then Ok([Field(CText(name), None)])
    else
      var more :- ReadNames(s[n + 1..]);
      Ok([Field(CText(name), None)] + more)
  }

  function ReadFieldList(s: string): Result<seq<Field>> {
    if Trim(s) == "" then Ok([]) else ReadNames(s)
  }

  function ReadField(st: Stmt): Result<Field> {
    if st.verb == "" then Refused(NoFieldName)
    else if st.args == [] then Ok(Field(st.verb, None))
    else if |st.args| == 1 then
      var v :- ValueOf(st.args[0]);
      Ok(Field(st.verb, Some(v)))
    else Refused(OneValueOnly)
  }

  function ReadFields(b: seq<Stmt>): Result<seq<Field>> {
    if b == [] then Ok([])
    else
      var f :- ReadField(b[0]);
      var more :- ReadFields(b[1..]);
      Ok([f] + more)
  }

  /** A field bag in either of its two forms. */
  function ReadBag(a: Arg): Result<seq<Field>> {
    if a.value.Some? && a.value.value.Str? then ReadFieldList(a.value.value.s)
    else if a.value.None? || !a.value.value.Block? then Refused(ExpectedFields)
    else ReadFields(a.value.value.stmts)
  }

  // ----- filters -----

  const OPERATORS := ["eq", "ne", "lt", "le", "gt", "ge", "in", "contains", "starts", "ends", "has", "lacks"]

  function ReadIdentity(a: Arg): Result<Value> {
    if a.value.None? then Refused(NamesNoIdentity)
    else if a.name != "" then Refused(NoSuchArgument)
    else if a.value.value.Block? then Refused(BlockIsNoValue)
    else ValueOf(a)
  }

  function ReadIdentities(args: seq<Arg>): Result<seq<Value>> {
    if args == [] then Ok([])
    else
      var v :- ReadIdentity(args[0]);
      var more :- ReadIdentities(args[1..]);
      Ok([v] + more)
  }

  function ReadId(st: Stmt): Result<Filter> {
    var vs :- ReadIdentities(st.args);
    if vs == [] then Refused(AtLeastOneIdentity) else Ok(Filter("id", "", vs, "", []))
  }

  /** A set of words: every statement in it is one bare name. */
  function ReadSet(b: seq<Stmt>): Result<seq<Value>> {
    if b == [] then Ok([])
    else if b[0].verb == "" || b[0].args != [] then Refused(SetHoldsNames)
    else
      var more :- ReadSet(b[1..]);
      Ok([Word(b[0].verb)] + more)
  }

  /** What a predicate has been told so far. */
  datatype Told = Told(named: bool, field: string, values: seq<Value>, collate: string)

  predicate IsCollate(a: Arg) {
    a.name == "collate" && a.value.Some?
  }

  /** One argument of a predicate: its collation, its field, or what it is matched against. */
  function Tell(op: string, t: Told, a: Arg): Result<Told> {
    if IsCollate(a) then
      if a.value.value.Word? then Ok(t.(collate := CText(a.value.value.w))) else Refused(CollateExpectsWord)
    else if !t.named then
      var name :- FieldOf(a);
      Ok(t.(named := true, field := name))
    else if a.value.Some? && a.value.value.Block? then
      if op != "in" then Refused(BlockIsNoValue)
      else
        var words :- ReadSet(a.value.value.stmts);
        Ok(t.(values := t.values + words))
    else
      var v :- ValueOf(a);
      Ok(t.(values := t.values + [v]))
  }

  function TellAll(op: string, t: Told, args: seq<Arg>): Result<Told>
    decreases |args|
  {
    if args == [] then Ok(t)
    else
      var t' :- Tell(op, t, args[0]);
      TellAll(op, t', args[1..])
  }

  /** Whether what was said makes a predicate. */
  function Conclude(op: string, t: Told): Result<Filter> {
    if t.field == "" then Refused(NamesNoField)
    else if op == "has" || op == "lacks" then
      if t.values != [] then Refused(TakesNoValue) else Ok(Filter(op, t.field, [], t.collate, []))
    else if t.values == [] then Refused(NothingToCompare)
    else if op != "in" && |t.values| > 1 then Refused(OneValueOnly)
    else Ok(Filter(op, t.field, t.values, t.collate, []))
  }

  const UNTOLD := Told(false, "", [], "")

  function ReadPredicate(st: Stmt): Result<Filter>
    decreases st, 1
  {
    if IsGroup(st.verb) then
      if |st.args| != 1 || st.args[0].value.None? || !st.args[0].value.value.Block? then Refused(TakesOneBlock)
      else
        var children :- ReadFilterBlock(st.args[0].value.value.stmts);
        if st.verb == "not" && children == [] then Refused(NothingToNegate)
        else Ok(Filter(st.verb, "", [], "", children))
    else if st.verb == "id" then ReadId(st)
    else if st.verb !in OPERATORS then Refused(NoSuchOperator)
    else
      var t :- TellAll(st.verb, UNTOLD, st.args);
      Conclude(st.verb, t)
  }

  function ReadFilterBlock(b: seq<Stmt>): Result<seq<Filter>>
    decreases b, 0
  {
    if b == [] then Ok([])
    else
      var f :- ReadPredicate(b[0]);
      var more :- ReadFilterBlock(b[1..]);
      Ok([f] + more)
  }

  /** A filter tree, from a block value. A block is an AND. */
  function ReadFilter(a: Arg): Result<Filter> {
    if a.value.None? || !a.value.value.Block? then Refused(ExpectedBlock)
    else
      var children :- ReadFilterBlock(a.value.value.stmts);
      Ok(Filter("and", "", [], "", children))
  }

  // ----- sorts -----

  /** One word after a level's field. */
  function ReadLevelWord(l: SortLevel, g: Arg): Result<SortLevel> {
    if g.value.Some? && g.name == "collate" && g.value.value.Word? then Ok(l.(collation := CText(g.value.value.w)))
    else if g.value.Some? then Refused(NoSuchArgument)
    else if g.name == "desc" then Ok(l.(descending := g.flag == Asserted))
    else if g.name == "asc" then Ok(l.(descending := g.flag != Asserted))
    else if g.name == "exact" || g.name == "fold" || g.name == "natural" then Ok(l.(collation := g.name))
    else Refused(NothingAboutSort)
  }

  function ReadLevelWords(l: SortLevel, args: seq<Arg>): Result<SortLevel>
    decreases |args|
  {
    if args == [] then Ok(l)
    else
      var l' :- ReadLevelWord(l, args[0]);
      ReadLevelWords(l', args[1..])
  }

  function ReadLevel(st: Stmt): Result<SortLevel> {
    if st.verb == "" then Refused(NoFieldName)
    else ReadLevelWords(SortLevel(st.verb, false, ""), st.args)
  }

  function ReadLevels(b: seq<Stmt>): Result<seq<SortLevel>> {
    if b == [] then Ok([])
    else
      var l :- ReadLevel(b[0]);
      var more :- ReadLevels(b[1..]);
      Ok([l] + more)
  }

  function ReadSort(a: Arg): Result<seq<SortLevel>> {
    if a.value.None? || !a.value.value.Block? then Refused(ExpectedBlock) else ReadLevels(a.value.value.stmts)
  }

  // ----- descriptors and scopes -----

  const NOTHING := Descriptor("", [], [], None, [])

  /** One argument of a descriptor; a name it does not know is somebody else's. */
  function Describe(d: Descriptor, a: Arg): Result<Descriptor> {
    if a.name == "source" then
      if a.value.Some? && a.value.value.Str? then Ok(d.(source := CText(a.value.value.s)))
      else if a.value.Some? && a.value.value.Word? then Ok(d.(source := CText(a.value.value.w)))
      else Refused(ExpectedName)
    else if a.name == "fields" then
      var bag :- ReadBag(a);
      Ok(d.(fields := bag))
    else if a.name == "exclude" then
      var bag :- ReadBag(a);
      Ok(d.(exclude := bag))
    else if a.name == "filter" then
      var f :- ReadFilter(a);
      Ok(d.(filter := Some(f)))
    else if a.name == "sort" then
      var ls :- ReadSort(a);
      Ok(d.(sort := ls))
    else Ok(d)
  }

  function DescribeAll(d: Descriptor, args: seq<Arg>): Result<Descriptor>
    decreases |args|
  {
    if args == [] then Ok(d)
    else
      var d' :- Describe(d, args[0]);
      DescribeAll(d', args[1..])
  }

  function ReadDescriptor(args: seq<Arg>): Result<Descriptor> {
    DescribeAll(NOTHING, args)
  }

  /** A scope being read, and whether the asker said it will hold places. */
  datatype Asked = Asked(scope: Scope, extend: bool)

  /** The cast of a 64-bit count to a C `int`. */
  function ToInt32(i: Int64): int {
    var m := i % 0x1_0000_0000;
    if m >= 0x8000_0000 then m - 0x1_0000_0000 else m
  }

  function Ask(k: Asked, a: Arg): Result<Asked> {
    if a.name == "count" then
      if a.value.None? || !a.value.value.Int? then Refused(ExpectedNumber)
      else if a.value.value.i < 0 then Refused(NotACount)
      else Ok(k.(scope := k.scope.(count := ToInt32(a.value.value.i))))
    else if a.name == "after" || a.name == "until" then
      if a.value.None? then Refused(ExpectedIdentity)
      else if a.value.value.Block? then Refused(BlockIsNoValue)
      else if a.name == "after" then Ok(k.(scope := k.scope.(after := Some(a.value.value))))
      else Ok(k.(scope := k.scope.(until := Some(a.value.value))))
    else if a.name == "from" then
      if a.value.None? || !a.value.value.Int? then Refused(ExpectedNumber)
      else if a.value.value.i < 0 then Refused(NotACount)
      else Ok(k.(scope := k.scope.(from := ToInt32(a.value.value.i))))
    else if a.name == "reversed" then
      if a.value.Some? then Refused(TakesNoValue) else Ok(k.(scope := k.scope.(reversed := a.flag == Asserted)))
    else if a.name == "extend" then
      if a.value.Some? then Refused(TakesNoValue) else Ok(k.(extend := a.flag == Asserted))
    else Ok(k)
  }

  function AskAll(k: Asked, args: seq<Arg>): Result<Asked>
    decreases |args|
  {
    if args == [] then Ok(k)
    else
      var k' :- Ask(k, args[0]);
      AskAll(k', args[1..])
  }

  const UNASKED := Asked(Scope(None, None, 0, 0, false), false)

  /** A record is not a position, so a scope says where to start in one way only. */
  function ReadScope(args: seq<Arg>): Result<Asked> {
    var k :- AskAll(UNASKED, args);
    if k.scope.after.Some? && k.scope.from != 0 then Refused(AfterAndFrom) else Ok(k)
  }
}
