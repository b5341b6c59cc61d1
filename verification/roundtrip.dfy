/**
 What is printed is read back: the parser undoes the spelling of every value,
 argument, statement and block that has one, and stops exactly where it ends.
 */
module RoundTrip {
  import opened Text
  import opened Tokens
  import opened Quoting
  import opened Syntax
  import opened Parser

  /** What may follow a printed value: anything that is not more of a token. */
  predicate Delimited(t: string) {
    t == "" || !IsTokenRune(t[0])
  }

  /** What may follow a printed statement: its end, after blanks if any. */
  predicate Closes(t: string, inBlock: bool) {
    EndsStatement(SkipInline(t), inBlock)
  }

  lemma {:induction false} ClosesDelimits(t: string, inBlock: bool)
    requires Closes(t, inBlock)
    ensures Delimited(t) && (t == "" || !StartsArg(t[0])) && (t == "" || t[0] != '=')
    ensures SkipInline(t) == "" || SkipInline(t)[0] != '='
  {}

  lemma {:induction false} TokenBack(w: string, t: string)
    requires w != "" && AllTokenRunes(w) && Delimited(t)
    ensures ParseValue(w + t) == Parse(TokenValue(w), t, TokenValue(w).None?)
    ensures IsTokenRune(w[0])
  {
    hide TokenValue, ParseScript, ParseSymbol, ReadString;
    SpanExact(IsTokenRune, w, t);
    assert (w + t)[0] == w[0] && (w + t)[..|w|] == w && (w + t)[|w|..] == t;
  }

  lemma {:induction false} SymbolBack(w: string, t: string)
    requires w != "" && ')' !in w && '\n' !in w
    ensures ParseValue("(" + w + ")" + t) == Parse(Some(Word(w)), t, false)
  {
    var s := "(" + w + ")" + t;
    assert s[1..] == w + (")" + t);
    forall k | 0 <= k < |w| ensures InSymbol(w[k]) {
      assert w[k] in w;
    }
    SpanExact(InSymbol, w, ")" + t);
    assert (")" + t)[1..] == t;
    assert (w + (")" + t))[|w| + 1..] == t;
  }

  lemma {:induction false} WordBack(w: string, t: string)
    requires SpellableWord(w) && Delimited(t)
    ensures ParseValue(WriteWord(w) + t) == Parse(Some(Word(w)), t, false)
    ensures WriteWord(w) != "" && StartsValue(WriteWord(w)[0])
  {
    WordText(w);
    if IsWord(w) {
      TokenBack(w, t);
    } else {
      SymbolBack(w, t);
    }
  }

  lemma {:induction false} QuotedBack(s: string, t: string)
    requires NulFree(s)
    ensures ParseValue(Quote(s) + t) == Parse(Some(Str(s)), t, false)
    ensures Quote(s) != "" && Quote(s)[0] == '"'
  {
    QuoteRoundTrip(s, t);
    CTextFacts(s);
    assert (Quote(s) + t)[0] == '"';
  }

  lemma {:induction false} IntBack(i: Int64, t: string)
    requires Delimited(t)
    ensures ParseValue(IntText(i) + t) == Parse(Some(Int(i)), t, false)
    ensures IntText(i) != "" && StartsValue(IntText(i)[0]) && !IsWordStart(IntText(i)[0])
  {
    IntRoundTrip(i);
    TokenBack(IntText(i), t);
  }

  lemma {:induction false} ValueBack(v: Value, t: string)
    requires SpellableValue(v) && Delimited(t)
    ensures WriteValue(v) != "" && StartsValue(WriteValue(v)[0])
    ensures ParseValue(WriteValue(v) + t) == Parse(Some(v), t, false)
    decreases v, 2
  {
    match v {
      case Int(i) => IntBack(i, t);
      case Float(n) =>
        NumberRunes(n);
        TokenBack(n, t);
      case Str(s) => QuotedBack(s, t);
      case Word(w) => WordBack(w, t);
      case Block(b) => BlockBack(b, t);
    }
  }

  lemma {:induction false} BlockBack(b: seq<Stmt>, t: string)
    requires SpellableBlock(b)
    ensures ParseValue(WriteBlock(b) + t) == Parse(Some(Block(b)), t, false)
    ensures WriteBlock(b) != "" && WriteBlock(b)[0] == '{'
    decreases b, 2
  {
    if b == [] {
      EmptyBlock(t);
    } else {
      ScriptBack(b, " }" + t);
      Braced(WriteStmts(b), b, t);
    }
  }

  lemma {:induction false} EmptyBlock(t: string)
    ensures ParseValue("{}" + t) == Parse(Some(Block([])), t, false)
  {
    var s := "{}" + t;
    assert s[1..] == "}" + t && ("}" + t)[1..] == t;
    assert ParseScript("}" + t, true) == Parse([], "}" + t, false);
  }

  lemma {:induction false} Braced(w: string, b: seq<Stmt>, t: string)
    requires ParseScript(w + (" }" + t), true) == Parse(b, SkipInline(" }" + t), false)
    ensures ParseValue("{ " + w + " }" + t) == Parse(Some(Block(b)), t, false)
  {
    BracedText(w, t);
    SkipOne(w + (" }" + t));
    BlankBrace(t);
    OpenBrace(" " + (w + (" }" + t)), b, "}" + t);
    assert ("}" + t)[1..] == t;
  }

  lemma {:induction false} BracedText(w: string, t: string)
    ensures "{ " + w + " }" + t == "{" + (" " + (w + (" }" + t)))
  {}

  lemma {:induction false} BlankBrace(t: string)
    ensures SkipInline(" }" + t) == "}" + t
  {
    assert " " + ("}" + t) == " }" + t;
    SkipOne("}" + t);
  }

  lemma {:induction false} OpenBrace(body: string, b: seq<Stmt>, end: string)
    requires ParseScript(body, true) == Parse(b, end, false)
    requires end != "" && end[0] == '}'
    ensures ParseValue("{" + body) == Parse(Some(Block(b)), end[1..], false)
  {
    assert ("{" + body)[1..] == body;
  }

  lemma {:induction false} SkipOne(s: string)
    ensures SkipInline(" " + s) == SkipInline(s)
    ensures SkipSeparators(" " + s) == SkipSeparators(s)
    ensures ParseScript(" " + s, true) == ParseScript(s, true)
    ensures forall inBlock :: ParseArgs(" " + s, inBlock) == ParseArgs(s, inBlock)
  {
    assert (" " + s)[1..] == s;
  }

  /** The statements of a block, up to what closes it. */
  lemma {:induction false} ScriptBack(b: seq<Stmt>, t: string)
    requires b != [] && SpellableBlock(b)
    requires SkipInline(t) != "" && SkipInline(t)[0] == '}'
    ensures ParseScript(WriteStmts(b) + t, true) == Parse(b, SkipInline(t), false)
    decreases b, 1
  {
    hide WriteStmt, SpellableStmt, ParseStmt, ParseScript;
    assert b[0] in b;
    if |b| == 1 {
      StmtBack(b[0], t, true);
      LastStmt(b[0], t);
      assert [b[0]] + [] == b;
    } else {
      var more := WriteStmts(b[1..]) + t;
      assert forall s :: s in b[1..] ==> s in b;
      Separated(more);
      StmtBack(b[0], "; " + more, true);
      ScriptBack(b[1..], t);
      NextStmt(b[0], more, b[1..], SkipInline(t));
      JoinText(WriteStmt(b[0]), WriteStmts(b[1..]), t);
      assert [b[0]] + b[1..] == b;
    }
  }

  lemma {:induction false} ClosesScript(t: string)
    requires t != "" && t[0] == '}'
    ensures ParseScript(t, true) == Parse([], t, false)
  {}

  lemma {:induction false} LastStmt(s: Stmt, t: string)
    requires SpellableStmt(s) && ParseStmt(WriteStmt(s) + t, true) == Parse(Some(s), SkipInline(t), false)
    requires SkipInline(t) != "" && SkipInline(t)[0] == '}'
    ensures ParseScript(WriteStmt(s) + t, true) == Parse([s] + [], SkipInline(t), false)
  {
    ClosesScript(SkipInline(t));
    HeadStarts(s, t);
    hide WriteStmt, SpellableStmt, ParseStmt, ParseScript, SkipInline, SkipSeparators;
    assert (WriteStmt(s) + t)[0] == WriteStmt(s)[0];
    ScriptStep(WriteStmt(s) + t, s, SkipInline(t), [], SkipInline(t));
  }

  lemma {:induction false} NextStmt(s: Stmt, text: string, more: seq<Stmt>, end: string)
    requires SpellableStmt(s) && SkipInline("; " + text) == "; " + text
    requires ParseStmt(WriteStmt(s) + ("; " + text), true) == Parse(Some(s), SkipInline("; " + text), false)
    requires ParseScript("; " + text, true) == Parse(more, end, false)
    ensures ParseScript(WriteStmt(s) + ("; " + text), true) == Parse([s] + more, end, false)
  {
    HeadStarts(s, "; " + text);
    hide WriteStmt, SpellableStmt, ParseStmt, ParseScript, SkipInline, SkipSeparators;
    assert (WriteStmt(s) + ("; " + text))[0] == WriteStmt(s)[0];
    ScriptStep(WriteStmt(s) + ("; " + text), s, "; " + text, more, end);
  }

  lemma {:induction false} JoinText(w: string, more: string, t: string)
    ensures w + "; " + more + t == w + ("; " + (more + t))
  {}

  lemma {:induction false} Separated(more: string)
    ensures SkipInline("; " + more) == "; " + more && EndsStatement("; " + more, true)
    ensures ParseScript("; " + more, true) == ParseScript(more, true)
  {
    assert ("; " + more)[1..] == " " + more;
    SkipOne(more);
    assert SkipSeparators("; " + more) == SkipSeparators(" " + more);
  }

  lemma {:induction false} ScriptStep(s: string, st: Stmt, rest: string, more: seq<Stmt>, end: string)
    requires s != "" && IsWordRune(s[0]) && SkipSeparators(s) == s
    requires ParseStmt(s, true) == Parse(Some(st), rest, false)
    requires ParseScript(rest, true) == Parse(more, end, false)
    ensures ParseScript(s, true) == Parse([st] + more, end, false)
  {}

  /** A printed statement starts with its verb or key, so nothing before it is skipped. */
  lemma {:induction false} HeadStarts(s: Stmt, t: string)
    requires SpellableStmt(s)
    ensures WriteStmt(s) != "" && IsWordRune(WriteStmt(s)[0])
    ensures SkipInline(WriteStmt(s) + t) == SkipSeparators(WriteStmt(s) + t) == WriteStmt(s) + t
  {
    var h := if s.key == "" then s.verb else s.key;
    assert WriteStmt(s)[0] == h[0];
    assert (WriteStmt(s) + t)[0] == h[0];
  }

  lemma {:induction false} NameBack(w: string, t: string)
    requires AllWordRunes(w) && (t == "" || !IsWordRune(t[0]))
    ensures WordOf(w + t) == w && AfterWord(w + t) == t
  {
    SpanExact(IsWordRune, w, t);
  }

  function HeadText(s: Stmt): string {
    (if s.key == "" then "" else s.key + "=") + s.verb
  }

  lemma {:induction false} HeadBack(s: Stmt, t: string)
    requires SpellableStmt(s)
    requires t == "" || !(IsWordRune(t[0]) || t[0] == '=')
    ensures ParseHead(HeadText(s) + t) == Parse((s.key, s.verb), t, false)
  {
    NameBack(s.verb, t);
    if s.key == "" {
      assert HeadText(s) == s.verb;
    } else {
      var u := "=" + (s.verb + t);
      NameBack(s.key, u);
      assert HeadText(s) + t == s.key + u;
      KeyedHead(s.key + u, s.key, u, s.verb + t, s.verb, t);
    }
  }

  lemma {:induction false} KeyedHead(s: string, key: string, u: string, body: string, verb: string, t: string)
    requires WordOf(s) == key && AfterWord(s) == u
    requires u == "=" + body && body != "" && IsWordStart(body[0])
    requires WordOf(body) == verb && AfterWord(body) == t
    ensures ParseHead(s) == Parse((key, verb), t, false)
  {
    assert u[0] == '=' && u[1] == body[0] && u[1..] == body;
  }

  lemma {:induction false} StmtBack(s: Stmt, t: string, inBlock: bool)
    requires SpellableStmt(s) && Closes(t, inBlock)
    ensures ParseStmt(WriteStmt(s) + t, inBlock) == Parse(Some(s), SkipInline(t), false)
    decreases s, 1
  {
    HeadStarts(s, t);
    ClosesDelimits(t, inBlock);
    var rest := WriteArgs(s.args) + t;
    ArgsHead(s.args, t);
    HeadBack(s, rest);
    ArgsBack(s.args, t, inBlock);
    Regroup(HeadText(s), WriteArgs(s.args), t);
    StmtStep(WriteStmt(s) + t, s, rest, SkipInline(t), inBlock);
  }

  lemma {:induction false} ArgsHead(args: seq<Arg>, t: string)
    requires t == "" || !(IsWordRune(t[0]) || t[0] == '=')
    ensures var rest := WriteArgs(args) + t; rest == "" || !(IsWordRune(rest[0]) || rest[0] == '=')
  {
    if args == [] {
      assert WriteArgs(args) + t == t;
    } else {
      assert (WriteArgs(args) + t)[0] == ' ';
    }
  }

  lemma {:induction false} StmtStep(s: string, st: Stmt, rest: string, end: string, inBlock: bool)
    requires s != "" && IsWordRune(s[0])
    requires ParseHead(s) == Parse((st.key, st.verb), rest, false)
    requires ParseArgs(rest, inBlock) == Parse(st.args, end, false)
    ensures ParseStmt(s, inBlock) == Parse(Some(st), end, false)
  {}

  lemma {:induction false} ArgsBack(args: seq<Arg>, t: string, inBlock: bool)
    requires SpellableArgs(args) && Closes(t, inBlock)
    ensures ParseArgs(WriteArgs(args) + t, inBlock) == Parse(args, SkipInline(t), false)
    decreases args, 1
  {
    hide WriteArg, SpellableArg, ParseArg, SkipInline, ParseArgs;
    if args == [] {
      assert WriteArgs(args) + t == t;
      NoArgs(t, inBlock);
    } else {
      assert args[0] in args && forall a :: a in args[1..] ==> a in args;
      var rest := WriteArgs(args[1..]) + t;
      ArgsFollow(args[1..], t, inBlock);
      ArgBack(args[0], rest);
      ArgsBack(args[1..], t, inBlock);
      ArgsText(WriteArg(args[0]), WriteArgs(args[1..]), t);
      SkipOne(WriteArg(args[0]) + rest);
      OneMoreArg(args[0], rest, args[1..], SkipInline(t), inBlock);
      assert args == [args[0]] + args[1..];
    }
  }

  lemma {:induction false} NoArgs(t: string, inBlock: bool)
    requires Closes(t, inBlock)
    ensures ParseArgs(t, inBlock) == Parse([], SkipInline(t), false)
  {}

  lemma {:induction false} ArgsText(w: string, more: string, t: string)
    ensures " " + w + more + t == " " + (w + (more + t))
  {}

  lemma {:induction false} OneMoreArg(a: Arg, rest: string, more: seq<Arg>, end: string, inBlock: bool)
    requires WriteArg(a) != "" && StartsArg(WriteArg(a)[0])
    requires SkipInline(WriteArg(a) + rest) == WriteArg(a) + rest && !EndsStatement(WriteArg(a) + rest, true)
    requires ParseArg(WriteArg(a) + rest) == Parse(a, AfterArg(rest, a), false)
    requires ParseArgs(rest, inBlock) == Parse(more, end, false)
    ensures ParseArgs(WriteArg(a) + rest, inBlock) == Parse([a] + more, end, false)
  {
    var s := WriteArg(a) + rest;
    assert s[0] == WriteArg(a)[0];
    assert SkipInline(SkipInline(rest)) == SkipInline(rest);
    assert ParseArgs(AfterArg(rest, a), inBlock) == ParseArgs(rest, inBlock);
  }

  /** Reading a bare name looks past the blanks after it for a sign. */
  function AfterArg(rest: string, a: Arg): string {
    if a.flag == Asserted then SkipInline(rest) else rest
  }

  /** Whatever comes after an argument is a blank and another one, or the end. */
  lemma {:induction false} ArgsFollow(args: seq<Arg>, t: string, inBlock: bool)
    requires SpellableArgs(args) && Closes(t, inBlock)
    ensures var rest := WriteArgs(args) + t;
            && (rest == "" || !IsTokenRune(rest[0]))
            && (SkipInline(rest) == "" || SkipInline(rest)[0] != '=')
    decreases args, 0
  {
    hide WriteArg, SpellableArg, ParseArgs, ParseScript;
    if args == [] {
      assert WriteArgs(args) + t == t;
      ClosesDelimits(t, inBlock);
    } else {
      assert args[0] in args;
      var a := WriteArg(args[0]) + (WriteArgs(args[1..]) + t);
      ArgsText(WriteArg(args[0]), WriteArgs(args[1..]), t);
      SkipOne(a);
      ArgStarts(args[0]);
      assert a[0] == WriteArg(args[0])[0];
    }
  }

  lemma {:induction false} ArgStarts(a: Arg)
    requires SpellableArg(a)
    ensures WriteArg(a) != "" && StartsArg(WriteArg(a)[0])
    ensures !IsInline(WriteArg(a)[0]) && WriteArg(a)[0] != ';' && WriteArg(a)[0] != '}' && WriteArg(a)[0] != '='
    decreases a, 0
  {
    if a.flag == Unflagged && a.name == "" {
      ValueBack(a.value.value, "");
    }
  }

  lemma {:induction false} ArgBack(a: Arg, t: string)
    requires SpellableArg(a)
    requires Delimited(t) && (SkipInline(t) == "" || SkipInline(t)[0] != '=')
    ensures WriteArg(a) != "" && StartsArg(WriteArg(a)[0])
    ensures SkipInline(WriteArg(a) + t) == WriteArg(a) + t && !EndsStatement(WriteArg(a) + t, true)
    ensures ParseArg(WriteArg(a) + t) == Parse(a, AfterArg(t, a), false)
    decreases a, 1
  {
    ArgStarts(a);
    assert (WriteArg(a) + t)[0] == WriteArg(a)[0];
    match a.flag {
      case Asserted =>
        NameBack(a.name, t);
      case Negated =>
        MarkBack('!', a.name, t);
      case Indeterminate =>
        MarkBack('?', a.name, t);
      case Unflagged =>
        var v := a.value.value;
        ValueBack(v, t);
        if a.name == "" {
          OperandIsNoName(v);
          assert WriteArg(a) == WriteValue(v);
          OperandStep(WriteValue(v), v, t);
        } else {
          NamedText(a.name, WriteValue(v), t);
          NamedStep(a.name, WriteValue(v), v, t);
        }
    }
  }

  lemma {:induction false} MarkBack(mark: char, name: string, t: string)
    requires mark == '!' || mark == '?'
    requires AllWordRunes(name) && (t == "" || !IsWordRune(t[0]))
    ensures ParseArg([mark] + name + t)
         == Parse(Arg(name, if mark == '?' then Indeterminate else Negated, None), t, false)
  {
    assert ([mark] + name + t)[1..] == name + t;
    NameBack(name, t);
  }

  lemma {:induction false} OperandStep(w: string, v: Value, t: string)
    requires w != "" && !IsWordStart(w[0]) && w[0] != '!' && w[0] != '?' && StartsValue(w[0])
    requires ParseValue(w + t) == Parse(Some(v), t, false)
    ensures ParseArg(w + t) == Parse(Operand(v), t, false)
  {
    assert (w + t)[0] == w[0];
  }

  lemma {:induction false} NamedText(name: string, w: string, t: string)
    ensures name + "=" + w + t == name + ("=" + (w + t))
  {}

  lemma {:induction false} NamedStep(name: string, w: string, v: Value, t: string)
    requires IsName(name) && ParseValue(w + t) == Parse(Some(v), t, false)
    ensures ParseArg(name + ("=" + (w + t))) == Parse(Named(name, v), t, false)
  {
    var u := "=" + (w + t);
    NameBack(name, u);
    SignThenValue(name + u, name, u, w + t, v, t);
  }

  lemma {:induction false} SignThenValue(s: string, name: string, u: string, body: string, v: Value, t: string)
    requires s != "" && IsWordStart(s[0]) && WordOf(s) == name && AfterWord(s) == u
    requires u == "=" + body && ParseValue(body) == Parse(Some(v), t, false)
    ensures ParseArg(s) == Parse(Named(name, v), t, false)
  {
    assert u[0] == '=' && u[1..] == body;
  }

  lemma {:induction false} OperandIsNoName(v: Value)
    requires SpellableValue(v) && SpellableOperand(v)
    ensures WriteValue(v) != "" && !IsWordStart(WriteValue(v)[0]) && WriteValue(v)[0] != '!' && WriteValue(v)[0] != '?'
  {
    match v {
      case Int(i) => IntRoundTrip(i);
      case Float(n) => NumberRunes(n);
      case Str(s) => QuoteRoundTrip(s, "");
      case Word(w) => WordText(w);
      case Block(b) => BlockBack(b, "");
    }
  }

  /** A printed statement is read back whole, with or without the newline that ends it. */
  lemma {:induction false} StatementRoundTrip(s: Stmt)
    requires SpellableStmt(s)
    ensures ParseStatement(WriteStmt(s)) == Some(s)
    ensures ParseStatement(WriteStmt(s) + "\n") == Some(s)
  {
    StmtBack(s, "", false);
    assert WriteStmt(s) + "" == WriteStmt(s);
    assert "\n"[1..] == "";
    StmtBack(s, "\n", false);
  }
}
