/**
 The grammar as a writer by hand meets it: where blanks may stand, which characters make
 what, what ends a statement, and what is refused -- whether or not a printer writes it so.
 */
module ParserMeaning {
  import opened Text
  import opened Tokens
  import opened Quoting
  import opened Syntax
  import opened Parser

  // ----- characters -----

  const BLANKS := " \t\r\n"

  predicate IsLetter(c: char) {
    'a' <= c <= 'z' || 'A' <= c <= 'Z'
  }

  predicate IsFigure(c: char) {
    '0' <= c <= '9'
  }

  /** Which characters are blanks, begin a name, stand in one and stand in a token. */
  lemma {:induction false} CharactersAre(c: char)
    ensures IsInline(c) <==> c in BLANKS
    ensures IsWordStart(c) <==> IsLetter(c) || c in "_."
    ensures IsWordRune(c) <==> IsLetter(c) || IsFigure(c) || c in "_.-"
    ensures IsTokenRune(c) <==> IsLetter(c) || IsFigure(c) || c in "_.-+"
    ensures StartsArg(c) <==> IsLetter(c) || IsFigure(c) || c in "_.-+!?({\""
  {}

  predicate Blank(ws: string) {
    forall c :: c in ws ==> c in BLANKS
  }

  /** Blanks and semicolons. */
  predicate Apart(ws: string) {
    forall c :: c in ws ==> c in BLANKS || c == ';'
  }

  // ----- blanks -----

  lemma {:induction false} BlanksSkipped(ws: string, t: string)
    requires Blank(ws)
    ensures SkipInline(ws + t) == SkipInline(t)
  {
    if ws == "" {
      assert ws + t == t;
    } else {
      CharactersAre(ws[0]);
      assert (ws + t)[0] == ws[0] && (ws + t)[1..] == ws[1..] + t;
      BlanksSkipped(ws[1..], t);
    }
  }

  lemma {:induction false} SkippedAgain(s: string)
    ensures SkipInline(SkipInline(s)) == SkipInline(s)
    ensures SkipSeparators(SkipInline(s)) == SkipSeparators(s)
  {
    if s != "" && IsInline(s[0]) {
      SkippedAgain(s[1..]);
    }
  }

  lemma {:induction false} SeparatorsSkipped(ws: string, t: string)
    requires Apart(ws)
    ensures SkipSeparators(ws + t) == SkipSeparators(t)
  {
    if ws == "" {
      assert ws + t == t;
    } else {
      CharactersAre(ws[0]);
      var u := ws[1..] + t;
      assert (ws + t)[0] == ws[0] && (ws + t)[1..] == u;
      SeparatorsSkipped(ws[1..], t);
      if IsInline(ws[0]) {
        assert SkipInline(ws + t) == SkipInline(u);
      } else {
        assert SkipInline(ws + t) == ws + t;
      }
    }
  }

  /** Blanks before a statement and before its arguments say nothing; before the statements
      of a block neither do semicolons. */
  lemma {:induction false} BlanksSayNothing(ws: string, t: string, inBlock: bool)
    ensures Blank(ws) ==> ParseStmt(ws + t, inBlock) == ParseStmt(t, inBlock)
    ensures Blank(ws) ==> ParseArgs(ws + t, inBlock) == ParseArgs(t, inBlock)
    ensures Apart(ws) ==> ParseScript(ws + t, inBlock) == ParseScript(t, inBlock)
  {
    if Blank(ws) {
      BlanksSkipped(ws, t);
    }
    if Apart(ws) {
      SeparatorsSkipped(ws, t);
    }
    hide SkipInline, SkipSeparators, ParseHead, ParseArg, Apart, Blank;
  }

  // ----- arguments -----

  predicate IsName(w: string) {
    w != "" && IsWordStart(w[0]) && AllWordRunes(w)
  }

  predicate Stops(t: string) {
    t == "" || !IsWordRune(t[0])
  }

  lemma {:induction false} WordThen(w: string, t: string)
    requires AllWordRunes(w) && Stops(t)
    ensures WordOf(w + t) == w && AfterWord(w + t) == t
  {
    SpanExact(IsWordRune, w, t);
  }

  /** A name and a value may have blanks between the name and the sign, and none behind it. */
  lemma {:induction false} NamedReads(name: string, ws: string, t: string)
    requires IsName(name) && Blank(ws)
    ensures ParseArg(name + (ws + ("=" + t)))
         == var p := ParseValue(t); Parse(Arg(name, Unflagged, p.value), p.rest, p.bad)
    ensures ParseValue(t).bad || (t != "" && t[0] !in BLANKS)
  {
    var rest := ws + ("=" + t);
    assert Stops(rest) by {
      CharactersAre(rest[0]);
      assert rest[0] == if ws == "" then '=' else ws[0];
    }
    WordThen(name, rest);
    assert (name + rest)[0] == name[0] && name[0] != '!' && name[0] != '?';
    BlanksSkipped(ws, "=" + t);
    assert SkipInline("=" + t) == "=" + t && ("=" + t)[1..] == t;
    if t != "" {
      CharactersAre(t[0]);
    }
    hide ParseValue, SkipInline, WordOf, AfterWord;
    BlankIsNoValue(t);
  }

  lemma {:induction false} BlankIsNoValue(t: string)
    ensures t == "" || t[0] in BLANKS ==> ParseValue(t) == Parse(None, t, true)
  {
    if t != "" {
      CharactersAre(t[0]);
    }
  }

  /** A name with a mark before it is denied or left open. */
  lemma {:induction false} MarksRead(name: string, t: string)
    requires AllWordRunes(name) && Stops(t)
    ensures ParseArg("!" + (name + t)) == Parse(Arg(name, Negated, None), t, false)
    ensures ParseArg("?" + (name + t)) == Parse(Arg(name, Indeterminate, None), t, false)
  {
    hide ParseValue, SkipInline;
    WordThen(name, t);
    assert ("!" + (name + t))[1..] == name + t && ("?" + (name + t))[1..] == name + t;
    hide WordOf, AfterWord;
  }

  /** One with nothing about it is asserted. */
  lemma {:induction false} NamesRead(name: string, ws: string, t: string)
    requires IsName(name) && Blank(ws) && Stops(ws + t)
    requires t == "" || (t[0] !in BLANKS && t[0] != '=')
    ensures ParseArg(name + (ws + t)) == Parse(Arg(name, Asserted, None), t, false)
  {
    hide ParseValue;
    WordThen(name, ws + t);
    BlanksSkipped(ws, t);
    if t != "" {
      CharactersAre(t[0]);
    }
    assert SkipInline(t) == t && (name + (ws + t))[0] == name[0];
    hide WordOf, AfterWord, SkipInline, Blank;
  }

  // ----- values -----

  /** A bracketed symbol is what stands between its brackets, and is refused where that is
      nothing or is cut short by a newline or the end. */
  lemma {:induction false} BracketsRead(w: string, t: string)
    requires ')' !in w && '\n' !in w
    ensures ParseValue("(" + (w + (")" + t))) == Parse(Some(Word(w)), t, w == "")
    ensures ParseValue("(" + w).bad && ParseValue("(" + (w + ("\n" + t))).bad
  {
    assert forall k :: 0 <= k < |w| ==> w[k] in w && InSymbol(w[k]);
    SymbolExact(w, ")" + t);
    SymbolExact(w, "\n" + t);
    SymbolExact(w, "");
    assert w + "" == w && (")" + t)[1..] == t;
    assert ("(" + (w + (")" + t)))[1..] == w + (")" + t) && ("(" + w)[1..] == w;
    assert ("(" + (w + ("\n" + t)))[1..] == w + ("\n" + t);
  }

  /** A token is a number, or a word where it has no sign; signed and no number it is refused. */
  lemma {:induction false} TokensRead(w: string, t: string)
    requires w != "" && AllTokenRunes(w) && (t == "" || !IsTokenRune(t[0]))
    ensures ParseValue(w + t)
         == match NumeralOf(w)
            case Whole(i) => Parse(Some(Int(i)), t, false)
            case Fractional => Parse(Some(Float(w)), t, false)
            case NotANumber => if w[0] in "+-" then Parse(None, t, true) else Parse(Some(Word(w)), t, false)
  {
    hide NumeralOf;
    SpanExact(IsTokenRune, w, t);
    assert (w + t)[0] == w[0];
  }

  /** A block is its statements up to the brace that closes it, and refused where that
      never comes. */
  lemma {:induction false} BlocksRead(t: string)
    ensures var p, v := ParseScript(t, true), ParseValue("{" + t);
            && v.value == Some(Block(p.value))
            && (if p.rest != "" && p.rest[0] == '}' then v.rest == p.rest[1..] && v.bad == p.bad else v.bad)
  {
    hide ParseScript;
    assert ("{" + t)[1..] == t && ("{" + t)[0] == '{';
  }

  // ----- ends and refusals -----

  /** A statement's arguments end where the text does, at a semicolon, and inside a block
      at its brace. */
  lemma {:induction false} EndsRead(ws: string, t: string, inBlock: bool)
    requires Blank(ws)
    ensures ParseArgs(ws, inBlock) == Parse([], "", false)
    ensures ParseArgs(ws + (";" + t), inBlock) == Parse([], ";" + t, false)
    ensures ParseArgs(ws + ("}" + t), inBlock) == Parse([], "}" + t, !inBlock)
  {
    assert ws + "" == ws;
    BlanksSayNothing(ws, "", inBlock);
    BlanksSayNothing(ws, ";" + t, inBlock);
    BlanksSayNothing(ws, "}" + t, inBlock);
    EndsAtOnce(t, inBlock);
    hide ParseArgs, Blank;
  }

  lemma {:induction false} EndsAtOnce(t: string, inBlock: bool)
    ensures ParseArgs("", inBlock) == Parse([], "", false)
    ensures ParseArgs(";" + t, inBlock) == Parse([], ";" + t, false)
    ensures ParseArgs("}" + t, inBlock) == Parse([], "}" + t, !inBlock)
  {
    hide ParseArg;
    assert SkipInline("") == "" && SkipInline(";" + t) == ";" + t && SkipInline("}" + t) == "}" + t;
    assert (";" + t)[0] == ';' && ("}" + t)[0] == '}';
  }

  /** Any other character where an argument belongs is refused, and so is the statement,
      whatever came before it. */
  lemma {:induction false} OddOnesRefused(ws: string, c: char, t: string, inBlock: bool)
    requires Blank(ws)
    requires c !in BLANKS && !IsLetter(c) && !IsFigure(c) && c !in "_.-+!?({\";" && (inBlock ==> c != '}')
    ensures ParseArgs(ws + ([c] + t), inBlock) == Parse([], [c] + t, true)
    ensures ParseStmt(ws + ([c] + t), inBlock).value == None
  {
    CharactersAre(c);
    BlanksSkipped(ws, [c] + t);
    assert SkipInline([c] + t) == [c] + t;
  }

  /** Arguments are read one after another, and one that is bad spoils them all. */
  lemma {:induction false} ArgumentsFollow(s: string, inBlock: bool)
    requires s != "" && StartsArg(s[0])
    ensures var a := ParseArg(s);
            var more := ParseArgs(a.rest, inBlock);
            ParseArgs(s, inBlock) == Parse([a.value] + more.value, more.rest, a.bad || more.bad)
  {
    CharactersAre(s[0]);
    assert SkipInline(s) == s;
    hide ParseArg, SkipInline, StartsArg;
  }

  /** `key=verb` names what the verb makes. */
  lemma {:induction false} HeadsRead(key: string, verb: string, t: string)
    requires key != "" && AllWordRunes(key) && Stops(t)
    ensures IsName(verb) ==> ParseHead(key + ("=" + (verb + t))) == Parse((key, verb), t, false)
    ensures t == "" || t[0] != '=' ==> ParseHead(key + t) == Parse(("", key), t, false)
  {
    var rest := verb + t;
    WordThen(key, "=" + rest);
    WordThen(key, t);
    if IsName(verb) {
      WordThen(verb, t);
      assert ("=" + rest)[1..] == rest && rest[0] == verb[0];
    }
    hide WordOf, AfterWord;
  }

  /** A sign with no name behind it is refused. */
  lemma {:induction false} SignNeedsName(key: string, t: string, inBlock: bool)
    requires key != "" && AllWordRunes(key) && (t == "" || !IsWordStart(t[0]))
    ensures ParseHead(key + ("=" + t)) == Parse(("", key), "=" + t, false) && ParseArgs("=" + t, inBlock).bad
  {
    WordThen(key, "=" + t);
    OddOnesRefused("", '=', t, inBlock);
    assert "" + (['='] + t) == "=" + t;
    hide WordOf, AfterWord, ParseArgs;
  }
}
