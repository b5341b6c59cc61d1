/**
 Statements as the parser yields them (`kt_arg`, `kt_stmt`, `kt_script`), and
 the spelling every printer of the repository gives them.
 */
module Syntax {
  import opened Text
  import opened Tokens
  import opened Quoting

  datatype Option<+T> = None | Some(value: T)

  /** `KT_FLAG_*`: an argument with a value carries `Unflagged`. */
  datatype Flag = Unflagged | Asserted | Negated | Indeterminate

  /** A float is kept as the token it was written with: turning it into a double
      and back is the C library's work. */
  datatype Value =
    | Int(i: Int64)
    | Float(text: string)
    | Str(s: string)
    | Word(w: string)
    | Block(stmts: seq<Stmt>)

  /** An operand has the empty name. */
  datatype Arg = Arg(name: string, flag: Flag, value: Option<Value>)

  /** `key` is the correlation name a statement was written under, or empty. */
  datatype Stmt = Stmt(key: string, verb: string, args: seq<Arg>)

  function Operand(v: Value): Arg {
    Arg("", Unflagged, Some(v))
  }

  function Named(name: string, v: Value): Arg {
    Arg(name, Unflagged, Some(v))
  }

  function Bare(name: string): Arg {
    Arg(name, Asserted, None)
  }

  // ----- the spelling -----

  /** A symbol is bare where the grammar can read it back as itself, and bracketed
      where it cannot. */
  function WriteWord(w: string): string {
    var c := CText(w);
    if IsWord(c) then c else "(" + c + ")"
  }

  function WriteValue(v: Value): string
    decreases v, 0
  {
    match v
    case Int(i) => IntText(i)
    case Float(t) => t
    case Str(s) => Quote(s)
    case Word(w) => WriteWord(w)
    case Block(b) => WriteBlock(b)
  }

  function WriteBlock(b: seq<Stmt>): string
    decreases b, 1
  {
    if b == [] then "{}" else "{ " + WriteStmts(b) + " }"
  }

  function WriteStmts(b: seq<Stmt>): string
    decreases b, 0
  {
    if b == [] then ""
    else if |b| == 1 then WriteStmt(b[0])
    else WriteStmt(b[0]) + "; " + WriteStmts(b[1..])
  }

  function WriteStmt(s: Stmt): string
    decreases s, 0
  {
    (if s.key == "" then "" else s.key + "=") + s.verb + WriteArgs(s.args)
  }

  function WriteArgs(args: seq<Arg>): string
    decreases args, 0
  {
    if args == [] then "" else " " + WriteArg(args[0]) + WriteArgs(args[1..])
  }

  function WriteArg(a: Arg): string
    decreases a, 0
  {
    match a.flag
    case Asserted => a.name
    case Negated => "!" + a.name
    case Indeterminate => "?" + a.name
    case Unflagged =>
      (if a.name == "" then "" else a.name + "=") + (if a.value.Some? then WriteValue(a.value.value) else "")
  }

  // ----- what can be spelled -----

  /** A name the grammar reads after the first character of an argument. */
  predicate IsName(n: string) {
    n != "" && IsWordStart(n[0]) && AllWordRunes(n)
  }

  predicate IsHead(n: string) {
    n != "" && AllWordRunes(n)
  }

  /** A symbol has a spelling: bare, or between brackets that nothing in it closes. */
  predicate SpellableWord(w: string) {
    NulFree(w) && (IsWord(w) || (w != "" && ')' !in w && '\n' !in w))
  }

  /** Nothing a bare token is made of ends a C string. */
  lemma {:induction false} TokenIsText(w: string)
    requires AllTokenRunes(w)
    ensures NulFree(w) && CText(w) == w
  {
    CTextFacts(w);
    forall c | c in w ensures IsTokenRune(c) {
      var k :| 0 <= k < |w| && w[k] == c;
    }
  }

  lemma {:induction false} WordText(w: string)
    ensures IsWord(w) ==> NulFree(w)
    ensures NulFree(w) ==> CText(w) == w && WriteWord(w) == if IsWord(w) then w else "(" + w + ")"
  {
    CTextFacts(w);
    if IsWord(w) {
      TokenIsText(w);
    }
  }

  predicate SpellableValue(v: Value) {
    match v
    case Int(_) => true
    case Float(t) => NumeralOf(t).Fractional?
    case Str(s) => NulFree(s)
    case Word(w) => SpellableWord(w)
    case Block(b) => SpellableBlock(b)
  }

  predicate SpellableBlock(b: seq<Stmt>) {
    forall s :: s in b ==> SpellableStmt(s)
  }

  predicate SpellableStmt(s: Stmt) {
    && IsHead(s.verb)
    && (s.key != "" ==> IsHead(s.key) && IsWordStart(s.verb[0]))
    && SpellableArgs(s.args)
  }

  predicate SpellableArgs(args: seq<Arg>) {
    forall a :: a in args ==> SpellableArg(a)
  }

  /** Where a value stands without a name, a bare word is a flag and so is not
      that value's spelling. */
  predicate SpellableArg(a: Arg) {
    match a.flag
    case Asserted => a.value.None? && IsName(a.name)
    case Negated => a.value.None? && AllWordRunes(a.name)
    case Indeterminate => a.value.None? && AllWordRunes(a.name)
    case Unflagged =>
      && a.value.Some? && SpellableValue(a.value.value)
      && if a.name == "" then SpellableOperand(a.value.value) else IsName(a.name)
  }

  predicate SpellableOperand(v: Value) {
    v.Word? && IsWord(v.w) ==> !IsWordStart(v.w[0])
  }
}
