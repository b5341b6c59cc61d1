/**
 Splitting a byte stream into statements (`scan_next`).

 The framer does not parse: it follows quotes and braces just far enough to know
 which newline ends a statement. It is shown to split any run of printed
 statements back into exactly those statements.
 */
module Framing {
  import opened Text
  import opened Tokens
  import opened Quoting
  import opened Syntax
  import opened Parser
  import opened RoundTrip

  /** How deep in braces the framer is, and whether it is inside quotes. */
  datatype Mode = Mode(depth: int, inString: bool, escaped: bool)

  datatype Frame = NoFrame | Frame(text: string, rest: string)

  function Outside(depth: int): Mode {
    Mode(depth, false, false)
  }

  function Step(m: Mode, ch: char): Mode {
    if m.escaped then m.(escaped := false)
    else if m.inString then
      if ch == '\\' then m.(escaped := true)
      else if ch == '"' then m.(inString := false)
      else m
    else if ch == '"' then m.(inString := true)
    else if ch == '{' then m.(depth := m.depth + 1)
    else if ch == '}' then m.(depth := m.depth - 1)
    else m
  }

  /** Neither inside quotes nor just past a backslash. */
  predicate Unquoted(m: Mode) {
    !m.escaped && !m.inString
  }

  predicate Silent(ch: char) {
    ch == ' ' || ch == '\t' || ch == '\r' || ch == ';'
  }

  function AfterComment(s: string): (r: string)
    ensures |r| <= |s|
  {
    if s == "" then "" else if s[0] == '\n' then s[1..] else AfterComment(s[1..])
  }

  /** The next statement of a stream, given what has been gathered of it. */
  function NextFrame(stream: string, text: string, m: Mode, saw: bool): (f: Frame)
    ensures f.Frame? ==> |f.rest| <= |stream| && (!saw ==> |f.rest| < |stream|)
    decreases |stream|
  {
    if stream == "" then
      if saw && m.depth == 0 && !m.inString then Frame(text, "") else NoFrame
    else
      var ch, rest := stream[0], stream[1..];
      if Unquoted(m) && ch == '#' then
        var past := AfterComment(rest);
        if saw && m.depth == 0 then Frame(text + "\n", past) else NextFrame(past, text, m, saw)
      else if Unquoted(m) && ch == '\n' && m.depth == 0 then
        if saw then Frame(text + "\n", rest) else NextFrame(rest, text, m, saw)
      else
        NextFrame(rest, text + [ch], Step(m, ch),
                  saw || (Unquoted(m) && !Silent(ch) && ch != '\n'))
  }

  function FirstFrame(stream: string): (f: Frame)
    ensures f.Frame? ==> |f.rest| < |stream|
  {
    NextFrame(stream, "", Outside(0), false)
  }

  /** Everything a stream holds, in order. */
  function Frames(stream: string): seq<string>
    decreases |stream|
  {
    match FirstFrame(stream)
    case NoFrame => []
    case Frame(text, rest) => [text] + Frames(rest)
  }

  // ----- the reader -----

  class Stream {
    const bytes: string
    var at: nat

    constructor (bytes: string)
      ensures this.bytes == bytes && at == 0 && Valid()
    {
      this.bytes, at := bytes, 0;
    }

    ghost predicate Valid()
      reads this
    {
      at <= |bytes|
    }

    ghost function Unread(): string
      requires Valid()
      reads this
    {
      bytes[at..]
    }

    method SkipComment()
      requires Valid()
      modifies this
      ensures Valid() && Unread() == AfterComment(old(Unread()))
    {
      while at < |bytes|
        invariant Valid() && AfterComment(Unread()) == AfterComment(old(Unread()))
        decreases |bytes| - at
      {
        var x := bytes[at];
        at := at + 1;
        if x == '\n' {
          return;
        }
      }
    }

    method ScanNext() returns (f: Option<string>)
      requires Valid()
      modifies this
      ensures Valid()
      ensures match FirstFrame(old(Unread()))
              case NoFrame => f == None
              case Frame(text, rest) => f == Some(text) && Unread() == rest
    {
      var b := "";
      var depth, inString, escaped, saw := 0, false, false, false;
      while at < |bytes|
        invariant Valid() && at >= old(at)
        invariant NextFrame(Unread(), b, Mode(depth, inString, escaped), saw) == FirstFrame(old(Unread()))
        decreases |bytes| - at
      {
        ghost var before := Unread();
        var ch := bytes[at];
        at := at + 1;
        assert Unread() == before[1..] && ch == before[0];
        if escaped {
          escaped := false;
        } else if inString {
          if ch == '\\' {
            escaped := true;
          } else if ch == '"' {
            inString := false;
          }
        } else if ch == '"' {
          inString, saw := true, true;
        } else if ch == '{' {
          depth, saw := depth + 1, true;
        } else if ch == '}' {
          depth, saw := depth - 1, true;
        } else if ch == '#' {
          SkipComment();
          if saw && depth == 0 {
            return Some(b + "\n");
          }
          continue;
        } else if ch == '\n' {
          if depth == 0 {
            if saw {
              return Some(b + "\n");
            }
            continue;
          }
        } else if !Silent(ch) {
          saw := true;
        }
        b := b + [ch];
      }
      f := if saw && depth == 0 && !inString then Some(b) else None;
    }
  }

  // ----- text the framer passes through undisturbed -----

  /** Where a run of text leaves the framer, and None where it would end a statement
      or start a comment. */
  function Scan(m: Mode, t: string): Option<Mode>
    decreases |t|
  {
    if t == "" then Some(m)
    else if Unquoted(m) && (t[0] == '#' || t[0] == '\n') then None
    else Scan(Step(m, t[0]), t[1..])
  }

  /** Text that opens and closes as many braces and quotes, wherever it stands. */
  predicate Balanced(t: string) {
    Scan(Outside(0), t) == Some(Outside(0))
  }

  lemma {:induction false} ScanConcat(m: Mode, a: string, b: string)
    ensures Scan(m, a + b) == if Scan(m, a).None? then None else Scan(Scan(m, a).value, b)
    decreases |a|
  {
    if a == "" {
      assert a + b == b;
    } else {
      assert (a + b)[0] == a[0] && (a + b)[1..] == a[1..] + b;
      ScanConcat(Step(m, a[0]), a[1..], b);
    }
  }

  /** How deep the framer already is changes nothing but how deep it ends. */
  lemma {:induction false} RunDeeper(m: Mode, t: string, d: int)
    ensures Scan(m.(depth := m.depth + d), t)
         == match Scan(m, t) case None => None case Some(e) => Some(e.(depth := e.depth + d))
    decreases |t|
  {
    if t != "" {
      assert Step(m.(depth := m.depth + d), t[0]) == Step(m, t[0]).(depth := Step(m, t[0]).depth + d);
      RunDeeper(Step(m, t[0]), t[1..], d);
    }
  }

  lemma {:induction false} BalancedAnywhere(t: string, d: int)
    requires Balanced(t)
    ensures Scan(Outside(d), t) == Some(Outside(d))
  {
    RunDeeper(Outside(0), t, d);
  }

  lemma {:induction false} BalancedConcat(a: string, b: string)
    requires Balanced(a) && Balanced(b)
    ensures Balanced(a + b)
  {
    ScanConcat(Outside(0), a, b);
  }

  predicate IsPlain(c: char) {
    c != '"' && c != '{' && c != '}' && c != '#' && c != '\n'
  }

  lemma {:induction false} PlainBalanced(t: string)
    requires forall k :: 0 <= k < |t| ==> IsPlain(t[k])
    ensures Balanced(t)
  {
    if t != "" {
      PlainBalanced(t[1..]);
    }
  }

  lemma {:induction false} BracedBalanced(t: string)
    requires Balanced(t)
    ensures Balanced("{" + t + "}")
  {
    ScanConcat(Outside(0), "{" + t, "}");
    ScanConcat(Outside(0), "{", t);
    assert "{"[1..] == "" && "}"[1..] == "";
    assert Scan(Outside(0), "{") == Some(Outside(1));
    BalancedAnywhere(t, 1);
    assert Scan(Outside(1), "}") == Some(Outside(0));
  }

  // ----- quoted text -----

  const QUOTED := Mode(0, true, false)

  lemma {:induction false} RunOne(c: char)
    requires c != '"' && c != '\\'
    ensures Scan(QUOTED, [c]) == Some(QUOTED)
  {
    assert [c][1..] == "";
  }

  lemma {:induction false} RunPair(e: char)
    ensures Scan(QUOTED, ['\\', e]) == Some(QUOTED)
  {
    assert ['\\', e][1..] == [e] && [e][1..] == "";
    assert Scan(Mode(0, true, true), [e]) == Some(QUOTED);
  }

  lemma {:induction false} RunHex(c: Byte)
    ensures Scan(QUOTED, HexEscape(c)) == Some(QUOTED)
  {
    var hi, lo := HexDigit(c as int / 16), HexDigit(c as int % 16);
    assert HexEscape(c) == ['\\', 'x'] + ([hi] + [lo]);
    RunPair('x');
    RunOne(hi);
    RunOne(lo);
    ScanConcat(QUOTED, [hi], [lo]);
    ScanConcat(QUOTED, ['\\', 'x'], [hi] + [lo]);
  }

  lemma {:induction false} RunEscapeText(c: char)
    ensures Scan(QUOTED, EscapeText(c)) == Some(QUOTED)
  {
    var e := EscapeText(c);
    if |e| == 1 {
      RunOne(c);
    } else if |e| == 2 {
      RunPair(e[1]);
      assert e == ['\\', e[1]];
    } else {
      RunHex(c);
    }
  }

  lemma {:induction false} RunEscapeByte(c: Byte)
    ensures Scan(QUOTED, EscapeByte(c)) == Some(QUOTED)
  {
    var e := EscapeByte(c);
    if |e| == 1 {
      RunOne(c);
    } else if |e| == 2 {
      RunPair(e[1]);
      assert e == ['\\', e[1]];
    } else {
      RunHex(c);
    }
  }

  lemma {:induction false} RunEscapedText(s: string)
    ensures Scan(QUOTED, EscapedText(s)) == Some(QUOTED)
  {
    if s != "" {
      RunEscapeText(s[0]);
      RunEscapedText(s[1..]);
      ScanConcat(QUOTED, EscapeText(s[0]), EscapedText(s[1..]));
    }
  }

  lemma {:induction false} RunEscapedBytes(s: seq<Byte>)
    ensures Scan(QUOTED, EscapedBytes(s)) == Some(QUOTED)
  {
    if s != [] {
      RunEscapeByte(s[0]);
      RunEscapedBytes(s[1..]);
      ScanConcat(QUOTED, EscapeByte(s[0]), EscapedBytes(s[1..]));
    }
  }

  lemma {:induction false} QuotedBalanced(e: string)
    requires Scan(QUOTED, e) == Some(QUOTED)
    ensures Balanced("\"" + e + "\"")
  {
    ScanConcat(Outside(0), "\"" + e, "\"");
    ScanConcat(Outside(0), "\"", e);
    assert "\""[1..] == "";
  }

  /** Nothing a quoted string holds can disturb the framer. */
  lemma {:induction false} QuoteBalanced(s: string)
    ensures Balanced(Quote(s))
  {
    RunEscapedText(CText(s));
    QuotedBalanced(EscapedText(CText(s)));
  }

  lemma {:induction false} QuoteBlobBalanced(data: seq<Byte>)
    ensures Balanced(QuoteBlob(data))
  {
    RunEscapedBytes(data);
    QuotedBalanced(EscapedBytes(data));
  }

  // ----- printed statements -----

  /** The framer does not know brackets, so what a bracketed symbol holds must be
      balanced by itself. */
  predicate FramableValue(v: Value) {
    match v
    case Word(w) => IsWord(w) || Balanced(w)
    case Block(b) => forall s :: s in b ==> FramableStmt(s)
    case _ => true
  }

  predicate FramableStmt(s: Stmt) {
    forall a :: a in s.args ==> FramableArg(a)
  }

  predicate FramableArg(a: Arg) {
    a.value.Some? ==> FramableValue(a.value.value)
  }

  lemma {:induction false} TokenBalanced(w: string)
    requires AllTokenRunes(w)
    ensures Balanced(w)
  {
    PlainBalanced(w);
  }

  lemma {:induction false} ValueBalanced(v: Value)
    requires SpellableValue(v) && FramableValue(v)
    ensures Balanced(WriteValue(v))
    decreases v, 2
  {
    match v {
      case Int(i) =>
        IntRoundTrip(i);
        TokenBalanced(IntText(i));
      case Float(n) =>
        NumberRunes(n);
        TokenBalanced(n);
      case Str(s) => QuoteBalanced(s);
      case Word(w) => WordBalanced(w);
      case Block(b) => BlockBalanced(b);
    }
  }

  lemma {:induction false} WordBalanced(w: string)
    requires NulFree(w) && (IsWord(w) || Balanced(w))
    ensures Balanced(WriteWord(w))
  {
    WordText(w);
    if IsWord(w) {
      TokenBalanced(w);
    } else {
      PlainBalanced("(");
      PlainBalanced(")");
      BalancedConcat("(", w);
      BalancedConcat("(" + w, ")");
    }
  }

  lemma {:induction false} BlockBalanced(b: seq<Stmt>)
    requires SpellableBlock(b) && forall s :: s in b ==> FramableStmt(s)
    ensures Balanced(WriteBlock(b))
    decreases b, 2
  {
    if b == [] {
      PlainBalanced("");
      BracedBalanced("");
      assert "{" + "" + "}" == "{}";
    } else {
      StmtsBalanced(b);
      SpacedBlock(WriteStmts(b));
    }
  }

  lemma {:induction false} SpacedBlock(w: string)
    requires Balanced(w)
    ensures Balanced("{ " + w + " }")
  {
    hide Scan;
    PlainBalanced(" ");
    BalancedConcat(" ", w);
    BalancedConcat(" " + w, " ");
    BracedBalanced(" " + w + " ");
    assert "{" + (" " + w + " ") + "}" == "{ " + w + " }";
  }

  lemma {:induction false} StmtsBalanced(b: seq<Stmt>)
    requires b != [] && SpellableBlock(b) && forall s :: s in b ==> FramableStmt(s)
    ensures Balanced(WriteStmts(b))
    decreases b, 1
  {
    assert b[0] in b;
    StmtBalanced(b[0]);
    if |b| > 1 {
      assert forall s :: s in b[1..] ==> s in b;
      StmtsBalanced(b[1..]);
      PlainBalanced("; ");
      BalancedConcat(WriteStmt(b[0]), "; ");
      BalancedConcat(WriteStmt(b[0]) + "; ", WriteStmts(b[1..]));
    }
  }

  lemma {:induction false} StmtBalanced(s: Stmt)
    requires SpellableStmt(s) && FramableStmt(s)
    ensures Balanced(WriteStmt(s))
    decreases s, 1
  {
    PlainBalanced(HeadText(s));
    ArgsBalanced(s.args);
    BalancedConcat(HeadText(s), WriteArgs(s.args));
  }

  lemma {:induction false} ArgsBalanced(args: seq<Arg>)
    requires SpellableArgs(args) && forall a :: a in args ==> FramableArg(a)
    ensures Balanced(WriteArgs(args))
    decreases args, 1
  {
    if args == [] {
      PlainBalanced("");
    } else {
      assert args[0] in args && forall a :: a in args[1..] ==> a in args;
      ArgBalanced(args[0]);
      ArgsBalanced(args[1..]);
      PlainBalanced(" ");
      BalancedConcat(" ", WriteArg(args[0]));
      BalancedConcat(" " + WriteArg(args[0]), WriteArgs(args[1..]));
    }
  }

  lemma {:induction false} ArgBalanced(a: Arg)
    requires SpellableArg(a) && FramableArg(a)
    ensures Balanced(WriteArg(a))
    decreases a, 1
  {
    if a.flag == Unflagged {
      ValueBalanced(a.value.value);
      var head := if a.name == "" then "" else a.name + "=";
      PlainBalanced(head);
      BalancedConcat(head, WriteValue(a.value.value));
    } else {
      PlainBalanced(WriteArg(a));
    }
  }

  // ----- a stream of printed statements -----

  /** What a sender writes: each statement and the newline that ends it. */
  function Lines(b: seq<Stmt>): string {
    if b == [] then "" else WriteStmt(b[0]) + "\n" + Lines(b[1..])
  }

  function LinesOf(b: seq<Stmt>): seq<string> {
    if b == [] then [] else [WriteStmt(b[0]) + "\n"] + LinesOf(b[1..])
  }

  /** Text the framer has begun on goes by, and is gathered, without ending. */
  lemma {:induction false} Gathers(t: string, u: string, text: string, m: Mode)
    requires Scan(m, t).Some?
    ensures NextFrame(t + u, text, m, true) == NextFrame(u, text + t, Scan(m, t).value, true)
    decreases |t|
  {
    if t == "" {
      assert t + u == u && text + t == text;
    } else {
      assert (t + u)[0] == t[0] && (t + u)[1..] == t[1..] + u;
      Gathers(t[1..], u, text + [t[0]], Step(m, t[0]));
      assert text + [t[0]] + t[1..] == text + t;
    }
  }

  lemma {:induction false} LineIsFrame(t: string, rest: string)
    requires t != "" && IsWordRune(t[0]) && Balanced(t)
    ensures FirstFrame(t + "\n" + rest) == Frame(t + "\n", rest)
  {
    var u := "\n" + rest;
    assert t + "\n" + rest == t + u;
    assert (t + u)[0] == t[0] && (t + u)[1..] == t[1..] + u;
    assert Step(Outside(0), t[0]) == Outside(0);
    assert Scan(Outside(0), t[1..]) == Some(Outside(0));
    assert NextFrame(t + u, "", Outside(0), false) == NextFrame(t[1..] + u, [t[0]], Outside(0), true) by {
      assert "" + [t[0]] == [t[0]];
    }
    Gathers(t[1..], u, [t[0]], Outside(0));
    assert [t[0]] + t[1..] == t;
    NewlineEnds(rest, t);
  }

  lemma {:induction false} NewlineEnds(rest: string, text: string)
    ensures NextFrame("\n" + rest, text, Outside(0), true) == Frame(text + "\n", rest)
  {
    assert ("\n" + rest)[1..] == rest;
  }

  /** The framer splits any run of printed statements that it balances back into exactly
      those statements, however deep their blocks and whatever their strings hold. */
  lemma {:induction false} StreamRoundTrip(b: seq<Stmt>)
    requires forall s :: s in b ==> SpellableStmt(s) && Balanced(WriteStmt(s))
    ensures Frames(Lines(b)) == LinesOf(b)
  {
    if b != [] {
      assert b[0] in b && forall s :: s in b[1..] ==> s in b;
      StreamRoundTrip(b[1..]);
      HeadStarts(b[0], "");
      LineIsFrame(WriteStmt(b[0]), Lines(b[1..]));
    }
  }

  /** What a receiver makes of a stream: each frame parsed, refused ones skipped. */
  function Receive(frames: seq<string>): seq<Stmt> {
    if frames == [] then []
    else
      (match ParseStatement(frames[0]) case Some(s) => [s] case None => []) + Receive(frames[1..])
  }

  /** Print, frame, parse is the identity on streams of statements. */
  lemma {:induction false} PrintFrameParse(b: seq<Stmt>)
    requires forall s :: s in b ==> SpellableStmt(s) && FramableStmt(s)
    ensures Receive(Frames(Lines(b))) == b
  {
    forall s | s in b ensures Balanced(WriteStmt(s)) {
      StmtBalanced(s);
    }
    StreamRoundTrip(b);
    LinesParse(b);
  }

  lemma {:induction false} ReceiveOne(line: string, more: seq<string>, s: Stmt)
    requires ParseStatement(line) == Some(s)
    ensures Receive([line] + more) == [s] + Receive(more)
  {
    hide ParseStatement;
    assert ([line] + more)[1..] == more;
  }

  lemma {:induction false} LinesParse(b: seq<Stmt>)
    requires forall s :: s in b ==> SpellableStmt(s)
    ensures Receive(LinesOf(b)) == b
  {
    hide SpellableStmt, WriteStmt, ParseStatement, Receive, LinesOf;
    if b == [] {
      NoLines();
    } else {
      FirstAndRest(b);
      StatementRoundTrip(b[0]);
      LinesParse(b[1..]);
      LinesFrom(b);
      ReceiveOne(WriteStmt(b[0]) + "\n", LinesOf(b[1..]), b[0]);
    }
  }

  lemma {:induction false} FirstAndRest(b: seq<Stmt>)
    requires b != []
    ensures b[0] in b && (forall s :: s in b[1..] ==> s in b) && b == [b[0]] + b[1..]
  {}

  lemma {:induction false} NoLines()
    ensures Receive(LinesOf([])) == []
  {}

  lemma {:induction false} LinesFrom(b: seq<Stmt>)
    requires b != []
    ensures LinesOf(b) == [WriteStmt(b[0]) + "\n"] + LinesOf(b[1..])
  {
    hide WriteStmt;
  }
}
