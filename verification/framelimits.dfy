/**
 Exactly which printed lines the framer takes whole: those it balances.

 A bracketed symbol may hold what the framer counts, so a printed statement need not
 balance. Where one does not, no text that can follow it makes up for it.
 */
module FrameLimits {
  import opened Text
  import opened Tokens
  import opened Quoting
  import opened Syntax
  import opened RoundTrip
  import opened Framing

  // ----- a printed statement is one line -----

  predicate OneLine(t: string) {
    '\n' !in t
  }

  lemma {:induction false} EscapedOneLine(s: string)
    ensures OneLine(EscapedText(s))
  {
    if s != "" {
      EscapeOneLine(s[0]);
      EscapedOneLine(s[1..]);
    }
  }

  lemma {:induction false} EscapeOneLine(c: char)
    ensures OneLine(EscapeText(c))
  {}

  lemma {:induction false} TokenOneLine(w: string)
    requires AllTokenRunes(w)
    ensures OneLine(w)
  {
    forall c | c in w ensures IsTokenRune(c) {
      var k :| 0 <= k < |w| && w[k] == c;
    }
  }

  lemma {:induction false} ValueOneLine(v: Value)
    requires SpellableValue(v)
    ensures OneLine(WriteValue(v))
    decreases v, 2
  {
    match v {
      case Int(i) =>
        IntTextDigits(i);
        TokenOneLine(IntText(i));
      case Float(n) =>
        NumberRunes(n);
        TokenOneLine(n);
      case Str(s) => EscapedOneLine(CText(s));
      case Word(w) =>
        WordText(w);
        if IsWord(w) {
          TokenOneLine(w);
        }
      case Block(b) =>
        if b != [] {
          StmtsOneLine(b);
        }
    }
  }

  lemma {:induction false} StmtsOneLine(b: seq<Stmt>)
    requires b != [] && SpellableBlock(b)
    ensures OneLine(WriteStmts(b))
    decreases b, 1
  {
    assert b[0] in b && forall s :: s in b[1..] ==> s in b;
    StmtOneLine(b[0]);
    if |b| > 1 {
      StmtsOneLine(b[1..]);
    }
  }

  lemma {:induction false} StmtOneLine(s: Stmt)
    requires SpellableStmt(s)
    ensures OneLine(WriteStmt(s))
    decreases s, 1
  {
    TokenOneLine(s.verb);
    TokenOneLine(s.key);
    ArgsOneLine(s.args);
  }

  lemma {:induction false} ArgsOneLine(args: seq<Arg>)
    requires SpellableArgs(args)
    ensures OneLine(WriteArgs(args))
    decreases args, 1
  {
    if args != [] {
      assert args[0] in args && forall a :: a in args[1..] ==> a in args;
      ArgOneLine(args[0]);
      ArgsOneLine(args[1..]);
    }
  }

  lemma {:induction false} ArgOneLine(a: Arg)
    requires SpellableArg(a)
    ensures OneLine(WriteArg(a))
    decreases a, 1
  {
    TokenOneLine(a.name);
    if a.flag == Unflagged {
      ValueOneLine(a.value.value);
    }
  }

  // ----- a line the framer does not balance -----

  /** What has been gathered stays gathered. */
  lemma {:induction false} Gathered(stream: string, text: string, m: Mode, saw: bool)
    ensures var f := NextFrame(stream, text, m, saw); f.Frame? ==> text <= f.text
    decreases |stream|
  {
    if stream != "" {
      var ch, rest := stream[0], stream[1..];
      if Framing.Unquoted(m) && ch == '#' {
        Gathered(AfterComment(rest), text, m, saw);
      } else if Framing.Unquoted(m) && ch == '\n' && m.depth == 0 {
        Gathered(rest, text, m, saw);
      } else {
        Gathered(rest, text + [ch], Step(m, ch), saw || (Framing.Unquoted(m) && !Silent(ch) && ch != '\n'));
      }
    }
  }

  /** Inside braces or quotes, what comes next is gathered or nothing is. */
  lemma {:induction false} GathersNext(stream: string, text: string, m: Mode)
    requires m.depth != 0 || m.inString
    requires stream != "" ==> !(Framing.Unquoted(m) && stream[0] == '#')
    ensures var f := NextFrame(stream, text, m, true);
            f.Frame? ==> stream != "" && text + [stream[0]] <= f.text
  {
    if stream != "" {
      Gathered(stream[1..], text + [stream[0]], Step(m, stream[0]), true);
    }
  }

  lemma {:induction false} CommentEnds(t: string, rest: string)
    requires OneLine(t)
    ensures AfterComment(t + "\n" + rest) == rest
  {
    if t != "" {
      assert t[0] in t && forall c :: c in t[1..] ==> c in t;
      assert (t + "\n" + rest)[0] == t[0] && (t + "\n" + rest)[1..] == t[1..] + "\n" + rest;
      CommentEnds(t[1..], rest);
    } else {
      assert t + "\n" + rest == "\n" + rest && ("\n" + rest)[1..] == rest;
    }
  }

  /** A mode the framer can come to: nothing is escaped outside quotes. */
  predicate Reachable(m: Mode) {
    m.escaped ==> m.inString
  }

  lemma {:induction false} ScanReachable(m: Mode, t: string)
    requires Reachable(m) && Scan(m, t).Some?
    ensures Reachable(Scan(m, t).value)
    decreases |t|
  {
    if t != "" {
      ScanReachable(Step(m, t[0]), t[1..]);
    }
  }

  predicate NotComment(rest: string) {
    rest == "" || rest[0] != '#'
  }

  /** A comment in a line takes the rest of the line away. */
  lemma {:induction false} Cut(t: string, rest: string, text: string, m: Mode)
    requires OneLine(t) && NotComment(rest) && Scan(m, t).None?
    ensures var f := NextFrame(t + "\n" + rest, text, m, true);
            f.Frame? ==> f.text != text + t + "\n"
    decreases |t|
  {
    var u := t + "\n" + rest;
    assert u[0] == t[0] && u[1..] == t[1..] + "\n" + rest;
    assert t[0] in t && forall c :: c in t[1..] ==> c in t;
    if Framing.Unquoted(m) && t[0] == '#' {
      CommentEnds(t[1..], rest);
      assert (text + t + "\n")[|text|] == '#';
      if m.depth != 0 {
        GathersNext(rest, text, m);
      }
    } else {
      assert text + [t[0]] + t[1..] == text + t;
      Cut(t[1..], rest, text + [t[0]], Step(m, t[0]));
    }
  }

  /** A line left open runs on. */
  lemma {:induction false} RunsOn(t: string, rest: string, text: string, m: Mode)
    requires Scan(m, t).Some? && Reachable(m) && Scan(m, t) != Some(Outside(0)) && NotComment(rest)
    ensures var f := NextFrame(t + "\n" + rest, text, m, true);
            f.Frame? ==> f.text != text + t + "\n"
  {
    var u := "\n" + rest;
    assert t + "\n" + rest == t + u;
    Gathers(t, u, text, m);
    ScanReachable(m, t);
    var e := Scan(m, t).value;
    assert u[1..] == rest;
    assert NextFrame(u, text + t, e, true) == NextFrame(rest, text + t + "\n", Step(e, '\n'), true);
    GathersNext(rest, text + t + "\n", Step(e, '\n'));
  }

  lemma {:induction false} Begins(t: string, rest: string)
    requires t != "" && IsWordRune(t[0])
    ensures FirstFrame(t + "\n" + rest) == NextFrame(t[1..] + "\n" + rest, [t[0]], Outside(0), true)
    ensures Scan(Outside(0), t[1..]) == Scan(Outside(0), t)
  {
    var u := t + "\n" + rest;
    assert u != "" && u[0] == t[0] && u[1..] == t[1..] + "\n" + rest;
    assert Step(Outside(0), t[0]) == Outside(0) && !Silent(t[0]) && t[0] != '#' && t[0] != '\n';
    assert "" + [t[0]] == [t[0]];
  }

  /** A line is the first frame, whatever follows it, exactly when the framer balances it. */
  lemma {:induction false} LineFramedExactly(t: string, rest: string)
    requires t != "" && IsWordRune(t[0]) && OneLine(t) && NotComment(rest)
    ensures Balanced(t) <==> FirstFrame(t + "\n" + rest) == Frame(t + "\n", rest)
    ensures !Balanced(t) ==>
              var f := FirstFrame(t + "\n" + rest); f.Frame? ==> f.text != t + "\n"
  {
    if Balanced(t) {
      LineIsFrame(t, rest);
    } else {
      Begins(t, rest);
      assert [t[0]] + t[1..] == t && forall c :: c in t[1..] ==> c in t;
      if Scan(Outside(0), t).None? {
        Cut(t[1..], rest, [t[0]], Outside(0));
      } else {
        RunsOn(t[1..], rest, [t[0]], Outside(0));
      }
    }
  }

  // ----- printed statements -----

  /** A printed statement is the first frame before every text exactly when the framer
      balances it. */
  lemma {:induction false} StmtFramedExactly(s: Stmt)
    requires SpellableStmt(s)
    ensures Balanced(WriteStmt(s))
       <==> forall rest {:trigger WriteStmt(s) + "\n" + rest} ::
              FirstFrame(WriteStmt(s) + "\n" + rest) == Frame(WriteStmt(s) + "\n", rest)
  {
    hide WriteStmt, SpellableStmt, FirstFrame;
    HeadStarts(s, "");
    StmtOneLine(s);
    LineFramedExactly(WriteStmt(s), "");
    if Balanced(WriteStmt(s)) {
      forall rest {:trigger WriteStmt(s) + "\n" + rest}
        ensures FirstFrame(WriteStmt(s) + "\n" + rest) == Frame(WriteStmt(s) + "\n", rest)
      {
        LineIsFrame(WriteStmt(s), rest);
      }
    }
  }

  lemma {:induction false} LinesStart(b: seq<Stmt>)
    requires SpellableBlock(b)
    ensures NotComment(Lines(b))
  {
    if b != [] {
      assert b[0] in b;
      hide WriteStmt, SpellableStmt;
      HeadStarts(b[0], "");
      assert Lines(b)[0] == WriteStmt(b[0])[0];
    }
  }

  /** A stream of printed statements is split into exactly them if and only if the framer
      balances every one. */
  lemma {:induction false} StreamExactly(b: seq<Stmt>)
    requires SpellableBlock(b)
    ensures Frames(Lines(b)) == LinesOf(b) <==> forall s :: s in b ==> Balanced(WriteStmt(s))
  {
    if forall s :: s in b ==> Balanced(WriteStmt(s)) {
      StreamRoundTrip(b);
    } else {
      assert b[0] in b && forall s :: s in b[1..] ==> s in b;
      hide WriteStmt, SpellableStmt, FirstFrame;
      HeadStarts(b[0], "");
      StmtOneLine(b[0]);
      LinesStart(b[1..]);
      LineFramedExactly(WriteStmt(b[0]), Lines(b[1..]));
      if Balanced(WriteStmt(b[0])) {
        StreamExactly(b[1..]);
        assert forall s :: s in b ==> s == b[0] || s in b[1..];
        assert Frames(Lines(b))[1..] == Frames(Lines(b[1..])) && LinesOf(b)[1..] == LinesOf(b[1..]);
      } else {
        assert LinesOf(b)[0] == WriteStmt(b[0]) + "\n";
      }
    }
  }

  /** And then the statements are what is received. */
  lemma {:induction false} BalancedArrives(b: seq<Stmt>)
    requires SpellableBlock(b) && forall s :: s in b ==> Balanced(WriteStmt(s))
    ensures Receive(Frames(Lines(b))) == b
  {
    StreamRoundTrip(b);
    LinesParse(b);
  }
}
