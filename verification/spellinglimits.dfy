/**
 Where printing does not survive reading, and exactly when it does.

 The printers and the parser disagree in a few places: a word holding `+` that
 starts like a name, a symbol its own brackets cannot hold, an identity written
 bare, and a collation the sort reader has no word for.
 */
module SpellingLimits {
  import opened Text
  import opened Tokens
  import opened Quoting
  import opened Syntax
  import opened Parser
  import opened RoundTrip
  import opened Query
  import opened Reader
  import opened FilterSpelling
  import opened DescriptorSpelling
  import ParserMeaning

  lemma {:induction false} SymbolCutShort(w: string, t: string)
    requires w == "" || ')' in w || '\n' in w
    ensures var p := ParseValue("(" + w + ")" + t);
            p.bad || (p.value.Some? && p.value.value.Word? && |p.value.value.w| < |w|)
  {
    var s := "(" + w + ")" + t;
    var u := w + ")" + t;
    assert s[1..] == u;
    var n := Span(InSymbol, u);
    assert forall k :: 0 <= k < |w| ==> u[k] == w[k];
    assert u[|w|] == ')';
    assert n <= |w|;
    if w != "" {
      var k :| 0 <= k < |w| && (w[k] == ')' || w[k] == '\n');
      assert !InSymbol(u[k]);
      assert n < |w|;
      assert |u[..n]| < |w|;
    }
  }

  /** What C sees of a symbol is what is written of it. */
  lemma {:induction false} WrittenAsSeen(w: string)
    ensures WriteWord(w) == WriteWord(CText(w)) && NulFree(CText(w)) && |CText(w)| <= |w|
    ensures CText(w) == w <==> NulFree(w)
  {
    CTextFacts(w);
    CTextFacts(CText(w));
  }

  /** After a name and a sign, a symbol is read back exactly when it has a spelling. */
  lemma {:induction false} NamedWordExact(w: string, t: string)
    requires Delimited(t)
    ensures ParseValue(EncValue(Word(w)) + t) == Parse(Some(Word(w)), t, false) <==> SpellableWord(w)
  {
    hide CText;
    var c := CText(w);
    WrittenAsSeen(w);
    WordText(c);
    if SpellableWord(c) {
      WordBack(c, t);
    } else {
      SymbolCutShort(c, t);
    }
  }

  /** Read where no name stands in front of it, a word that starts like a name ends at
      its first `+`. */
  lemma {:induction false} PlusCutsShort(w: string, t: string)
    requires IsWord(w) && IsWordStart(w[0]) && !AllWordRunes(w)
    ensures var p := ParseArg(w + t);
            && p.value.flag == Asserted && p.value.value.None? && |p.value.name| < |w|
            && p.rest != "" && p.rest[0] == '+'
  {
    var n := StopsAtPlus(w, t);
    hide ParseValue, ParseScript, TokenValue, IsWord;
    NameAtPlus(w + t);
  }

  lemma {:induction false} StopsAtPlus(w: string, t: string) returns (n: nat)
    requires IsWord(w) && !AllWordRunes(w)
    ensures n == Span(IsWordRune, w + t) < |w| && (w + t)[n] == '+'
  {
    hide AfterWord, TokenValue;
    var s := w + t;
    n := Span(IsWordRune, s);
    assert forall k :: 0 <= k < |w| ==> s[k] == w[k];
    var k :| 0 <= k < |w| && !IsWordRune(w[k]);
    assert !IsWordRune(s[k]);
    assert n <= k;
    assert IsTokenRune(s[n]);
  }

  lemma {:induction false} NameAtPlus(s: string)
    requires s != "" && IsWordStart(s[0])
    requires var n := Span(IsWordRune, s); n < |s| && s[n] == '+'
    ensures ParseArg(s) == Parse(Arg(WordOf(s), Asserted, None), AfterWord(s), false)
    ensures AfterWord(s) != "" && AfterWord(s)[0] == '+' && |WordOf(s)| == Span(IsWordRune, s)
  {
    hide ParseValue, Span;
    assert SkipInline(AfterWord(s)) == AfterWord(s);
  }

  predicate OperandBack(s: string, w: string, t: string)
    requires s != "" && StartsArg(s[0])
  {
    var p := ParseArg(s);
    !p.bad && ValueOf(p.value) == Ok(Word(w)) && SkipInline(p.rest) == SkipInline(t)
  }

  lemma {:induction false} WordStarts(w: string, t: string)
    ensures EncValue(Word(w)) + t != "" && StartsArg((EncValue(Word(w)) + t)[0])
  {
    assert (EncValue(Word(w)) + t)[0] == WriteWord(w)[0];
  }

  /** As an operand, a symbol is read back exactly when it has a spelling and, where it
      is bare and starts like a name, holds no `+`. */
  lemma {:induction false} OperandWordExact(w: string, t: string)
    requires Delimited(t) && (SkipInline(t) == "" || SkipInline(t)[0] != '=')
    ensures EncValue(Word(w)) + t != "" && StartsArg((EncValue(Word(w)) + t)[0])
    ensures OperandBack(EncValue(Word(w)) + t, w, t) <==> SpellableItem(Word(w))
  {
    hide CText, ParseArg, ParseValue, SkipInline;
    var c := CText(w);
    WrittenAsSeen(w);
    WordText(c);
    WordStarts(w, t);
    if SpellableItem(Word(c)) {
      OperandSpellable(Word(c));
      OperandText(Word(c));
      ArgBack(OperandOf(Word(c)), t);
      OperandReads(Word(c));
      SkipsOnce(t);
      assert OperandBack(EncValue(Word(w)) + t, c, t);
    } else if IsWord(c) {
      PlusCutsShort(c, t);
    } else {
      SymbolCutShort(c, t);
      BracketIsOperand("(" + c + ")" + t);
    }
  }

  lemma {:induction false} SkipsOnce(t: string)
    ensures SkipInline(SkipInline(t)) == SkipInline(t)
  {}

  lemma {:induction false} BracketIsOperand(s: string)
    requires s != "" && s[0] == '('
    ensures ParseArg(s) == Parse(Arg("", Unflagged, ParseValue(s).value), ParseValue(s).rest, ParseValue(s).bad)
  {}

  /** So a query can be accepted and yet not survive being printed: bracketed, such a
      word is read as itself, and printed without its brackets it is not. */
  lemma {:induction false} AcceptedAndLost(w: string, t: string)
    requires Delimited(t) && (SkipInline(t) == "" || SkipInline(t)[0] != '=')
    requires IsWord(w) && IsWordStart(w[0]) && !AllWordRunes(w)
    ensures OperandBack("(" + w + ")" + t, w, t)
    ensures EncValue(Word(w)) + t != "" && StartsArg((EncValue(Word(w)) + t)[0])
    ensures !OperandBack(EncValue(Word(w)) + t, w, t)
  {
    hide OperandBack;
    OperandWordExact(w, t);
    BracketedBack(w, t);
  }

  lemma {:induction false} BracketedBack(w: string, t: string)
    requires w != "" && AllTokenRunes(w)
    ensures "(" + w + ")" + t != "" && StartsArg(("(" + w + ")" + t)[0]) && OperandBack("(" + w + ")" + t, w, t)
  {
    forall c | c in w ensures IsTokenRune(c) {
      var k :| 0 <= k < |w| && w[k] == c;
    }
    hide ParseValue, IsTokenRune;
    SymbolBack(w, t);
    BracketIsOperand("(" + w + ")" + t);
  }

  lemma {:induction false} APlusBIsSuchAWord()
    ensures IsWord("a+b") && IsWordStart("a+b"[0]) && !AllWordRunes("a+b")
  {
    var w := "a+b";
    assert w[0] == 'a' && w[1] == '+' && w[2] == 'b';
    assert SkipSign(w) == w && Span(IsDigit, w) == 0;
    assert !IsWordRune(w[1]);
  }

  // ----- identities and sort levels, through text -----

  function Identities(vs: seq<Value>): Filter {
    Filter("id", "", vs, "", [])
  }

  /** `id` reads values and no flags, while the printer writes a bare word where it can:
      of identities that have a spelling, what is printed is always a statement, and it
      reads back exactly when none of them is such a word. */
  lemma {:induction false} IdentitiesExact(vs: seq<Value>)
    requires vs != [] && forall v :: v in vs ==> SpellableItem(v)
    ensures var st := ParseStatement(EncFilterStmt(Identities(vs)));
            && st.Some?
            && (ReadPredicate(st.value) == Ok(Identities(vs)) <==> forall v :: v in vs ==> SpellableIdentity(v))
  {
    hide ParseStatement;
    IdentitiesText(vs);
    OperandsSpellable(vs);
    OperatorIsHead("id");
    StatementRoundTrip(Stmt("", "id", Operands(vs)));
    IdentitiesReadWhen(vs);
    forall v | v in vs ensures OperandOf(v).value.Some? <==> SpellableIdentity(v) {}
  }

  lemma {:induction false} IdentitiesText(vs: seq<Value>)
    requires forall v :: v in vs ==> !v.Block?
    ensures EncFilterStmt(Identities(vs)) == WriteStmt(Stmt("", "id", Operands(vs)))
  {
    hide EncValues, WriteArgs;
    OperandsText(vs);
    assert CText("") == "";
    assert "" + "id" + WriteArgs(Operands(vs)) == "id" + "" + EncValues(vs) + "";
  }

  /** The head of a statement that is read can always be one. */
  lemma {:induction false} HeadIsHead(s: string)
    requires s != "" && IsWordRune(s[0])
    ensures IsHead(ParseHead(s).value.1) && |ParseHead(s).rest| + |ParseHead(s).value.1| <= |s|
  {
    var w, t := WordOf(s), AfterWord(s);
    assert AllWordRunes(w) && w != "";
    if |t| > 1 && t[0] == '=' && IsWordStart(t[1]) {
      var v := WordOf(t[1..]);
      assert AllWordRunes(v) && v != "";
    }
  }

  /** A collation said as `collate=` is shorter than the text it stands in. */
  predicate CollatesWithin(args: seq<Arg>, n: int) {
    forall a :: a in args ==> (IsCollate(a) && a.value.value.Word? ==> |a.value.value.w| + 8 <= n)
  }

  lemma {:induction false} WordWithin(s: string)
    ensures var p := ParseValue(s);
            p.value.Some? && p.value.value.Word? ==> |p.value.value.w| <= |s|
  {
    hide ParseScript, ReadString;
  }

  lemma {:induction false} ArgCollates(s: string)
    requires s != "" && StartsArg(s[0])
    ensures CollatesWithin([ParseArg(s).value], |s|)
  {
    hide ParseValue, SkipInline;
    var a := ParseArg(s).value;
    if IsCollate(a) && IsWordStart(s[0]) {
      var t := SkipInline(AfterWord(s));
      assert |WordOf(s)| == 7 && |t| <= |s| - 7;
      WordWithin(t[1..]);
    }
  }

  lemma {:induction false} ArgsCollate(s: string, inBlock: bool)
    ensures CollatesWithin(ParseArgs(s, inBlock).value, |s|)
    decreases |s|
  {
    hide ParseArg, IsCollate;
    var t := SkipInline(s);
    if !EndsStatement(t, inBlock) && StartsArg(t[0]) {
      var a := ParseArg(t);
      ArgCollates(t);
      assert a.value in [a.value];
      ArgsCollate(a.rest, inBlock);
    }
  }

  /** The collation a level ends with is one of the three, or none, or was said. */
  lemma {:induction false} CollationSaid(l: SortLevel, args: seq<Arg>, n: int)
    requires ReadLevelWords(l, args).Ok? && CollatesWithin(args, n)
    requires l.collation in ["", "exact", "fold", "natural"] || |l.collation| + 8 <= n
    ensures var r := ReadLevelWords(l, args).value;
            r.field == l.field && (r.collation in ["", "exact", "fold", "natural"] || |r.collation| + 8 <= n)
    decreases |args|
  {
    if args != [] {
      assert args[0] in args && forall a :: a in args[1..] ==> a in args;
      if IsCollate(args[0]) && args[0].value.value.Word? {
        CTextFacts(args[0].value.value.w);
      }
      CollationSaid(ReadLevelWord(l, args[0]).value, args[1..], n);
    }
  }

  predicate LevelReadsBack(l: SortLevel) {
    var st := ParseStatement(EncLevel(l));
    st.Some? && ReadLevel(st.value) == Ok(l)
  }

  /** A sort level prints any field and any collation, and is read back exactly when
      its field can be a head and its collation is one of the three the reader has a
      word for, or none. */
  lemma {:induction false} LevelExact(l: SortLevel)
    ensures LevelReadsBack(l) <==> IsHead(l.field) && l.collation in ["", "exact", "fold", "natural"]
  {
    hide ParseStatement, ReadLevel, LevelStmt, EncLevel;
    if SpellableLevel(l) {
      LevelFacts(l);
      StatementRoundTrip(LevelStmt(l));
    } else if LevelReadsBack(l) {
      LevelWasSpellable(l);
    }
  }

  lemma {:induction false} LevelWasSpellable(l: SortLevel)
    requires LevelReadsBack(l)
    ensures SpellableLevel(l)
  {
    hide ParseHead, ParseArgs, ReadLevelWords, CText;
    var s := EncLevel(l);
    var t := SkipInline(s);
    var h := ParseHead(t);
    HeadIsHead(t);
    ArgsCollate(h.rest, false);
    var args := ParseArgs(h.rest, false).value;
    CollationSaid(SortLevel(h.value.1, false, ""), args, |h.rest|);
    HeadIsText(l.field);
    CTextFacts(l.collation);
    assert |h.rest| + |l.field| <= |s| <= |l.field| + 1 + |l.collation| + 5;
  }

  // ----- which spelling is taken -----

  /** A name is printed bare where it is a word, in brackets where it is none and those read
      back to it, and in quotes only where nothing else spells it. */
  lemma {:induction false} NamesAreSpelled(name: string)
    requires NulFree(name)
    ensures var bracketed := "(" + name + ")";
            EncFieldName(name) ==
              if IsWord(name) then name
              else if ParseValue(bracketed) == Parse(Some(Word(name)), "", false) then bracketed
              else Quote(name)
  {
    hide ParseValue, IsWord;
    CTextFacts(name);
    if name == "" || ')' in name || '\n' in name {
      SymbolCutShort(name, "");
      NoWordHoldsThese(name);
      assert "(" + name + ")" + "" == "(" + name + ")";
    } else {
      ParserMeaning.BracketsRead(name, "");
      assert "(" + (name + (")" + "")) == "(" + name + ")";
    }
  }

  lemma {:induction false} NoWordHoldsThese(w: string)
    requires w == "" || ')' in w || '\n' in w
    ensures !IsWord(w)
  {
    hide NumeralOf;
  }

  /** What is no value prints as one all the same, and reads as the word `undefined`. */
  lemma {:induction false} BlocksAreUndefined(b: seq<Stmt>, t: string)
    requires t == "" || !IsTokenRune(t[0])
    ensures ParseValue(EncValue(Block(b)) + t) == Parse(Some(Word("undefined")), t, false)
  {
    ParserMeaning.TokensRead("undefined", t);
  }
}
