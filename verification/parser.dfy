/**
 The recursive parser (`p_value`, `p_statement`, `p_script`).

 Each rule is a function from the text still unread to what it makes of it, what
 it leaves unread, and whether it met something the grammar will not read. The
 class `Cursor` is the source's parser state, advanced in loops; every one of its
 methods is tied to the function for its rule. That the functions are total is
 the parser's termination, and the remaining length is its measure.
 */
module Parser {
  import opened Text
  import opened Tokens
  import opened Quoting
  import opened Syntax

  /** One rule's outcome. `bad` is sticky: the whole statement is then refused. */
  datatype Parse<T> = Parse(value: T, rest: string, bad: bool)

  function SkipInline(s: string): (r: string)
    ensures |r| <= |s| && (r == "" || !IsInline(r[0]))
  {
    if s != "" && IsInline(s[0]) then SkipInline(s[1..]) else s
  }

  function SkipSeparators(s: string): (r: string)
    ensures |r| <= |s| && (r == "" || (!IsInline(r[0]) && r[0] != ';'))
    decreases |s|
  {
    var t := SkipInline(s);
    if t != "" && t[0] == ';' then SkipSeparators(t[1..]) else t
  }

  function WordOf(s: string): string {
    s[..Span(IsWordRune, s)]
  }

  function AfterWord(s: string): (r: string)
    ensures |r| == |s| - Span(IsWordRune, s)
  {
    s[Span(IsWordRune, s)..]
  }

  predicate InSymbol(c: char) {
    c != ')' && c != '\n'
  }

  /** A bracketed symbol, past its opening bracket. */
  function ParseSymbol(s: string): (p: Parse<string>)
    ensures |p.rest| <= |s|
  {
    var n := Span(InSymbol, s);
    if n < |s| && s[n] == ')' then Parse(s[..n], s[n + 1..], n == 0)
    else Parse(s[..n], s[n..], true)
  }

  /** What a bare token says: a number, or a symbol unless it was signed. */
  function TokenValue(t: string): Option<Value> {
    match NumeralOf(t)
    case Whole(i) => Some(Int(i))
    case Fractional => Some(Float(t))
    case NotANumber => if t != "" && IsSign(t[0]) then None else Some(Word(t))
  }

  /** Whether a value, and whether an argument, can start here at all. */
  predicate StartsValue(c: char) {
    c == '(' || c == '{' || c == '"' || IsTokenRune(c)
  }

  predicate StartsArg(c: char) {
    c == '!' || c == '?' || StartsValue(c)
  }

  function ParseValue(s: string): (p: Parse<Option<Value>>)
    ensures |p.rest| <= |s|
    ensures s != "" && StartsValue(s[0]) ==> |p.rest| < |s|
    decreases |s|, 0
  {
    if s == "" then Parse(None, s, true)
    else if s[0] == '(' then
      var p := ParseSymbol(s[1..]);
      Parse(Some(Word(p.value)), p.rest, p.bad)
    else if s[0] == '{' then
      var p := ParseScript(s[1..], true);
      if p.rest != "" && p.rest[0] == '}' then Parse(Some(Block(p.value)), p.rest[1..], p.bad)
      else Parse(Some(Block(p.value)), p.rest, true)
    else if s[0] == '"' then
      var r := ReadString(s[1..]);
      Parse(Some(Str(r.value)), r.rest, false)
    else if IsTokenRune(s[0]) then
      var n := Span(IsTokenRune, s);
      var v := TokenValue(s[..n]);
      Parse(v, s[n..], v.None?)
    else Parse(None, s, true)
  }

  function ParseArg(s: string): (p: Parse<Arg>)
    requires s != "" && StartsArg(s[0])
    ensures |p.rest| < |s|
    decreases |s|, 1
  {
    if s[0] == '!' || s[0] == '?' then
      Parse(Arg(WordOf(s[1..]), if s[0] == '?' then Indeterminate else Negated, None), AfterWord(s[1..]), false)
    else if IsWordStart(s[0]) then
      var name := WordOf(s);
      var t := SkipInline(AfterWord(s));
      if t != "" && t[0] == '=' then
        var p := ParseValue(t[1..]);
        Parse(Arg(name, Unflagged, p.value), p.rest, p.bad)
      else Parse(Arg(name, Asserted, None), t, false)
    else
      var p := ParseValue(s);
      Parse(Arg("", Unflagged, p.value), p.rest, p.bad)
  }

  predicate EndsStatement(s: string, inBlock: bool) {
    s == "" || s[0] == ';' || (inBlock && s[0] == '}')
  }

  function ParseArgs(s: string, inBlock: bool): (p: Parse<seq<Arg>>)
    ensures |p.rest| <= |s|
    decreases |s|, 2
  {
    var t := SkipInline(s);
    if EndsStatement(t, inBlock) then Parse([], t, false)
    else if !StartsArg(t[0]) then Parse([], t, true)
    else
      var a := ParseArg(t);
      var more := ParseArgs(a.rest, inBlock);
      Parse([a.value] + more.value, more.rest, a.bad || more.bad)
  }

  /** `key=verb`, or the verb alone where what follows the sign is no verb. */
  function ParseHead(s: string): (p: Parse<(string, string)>)
    ensures |p.rest| <= |s|
    ensures s != "" && IsWordRune(s[0]) ==> |p.rest| < |s|
  {
    var w, t := WordOf(s), AfterWord(s);
    if |t| > 1 && t[0] == '=' && IsWordStart(t[1]) then Parse((w, WordOf(t[1..])), AfterWord(t[1..]), false)
    else Parse(("", w), t, false)
  }

  /** None is a statement that does not begin with a word. */
  function ParseStmt(s: string, inBlock: bool): (p: Parse<Option<Stmt>>)
    ensures |p.rest| <= |s|
    ensures p.value.Some? ==> |p.rest| < |s|
    decreases |s|, 3
  {
    var t := SkipInline(s);
    if t == "" || !IsWordRune(t[0]) then Parse(None, t, false)
    else
      var h := ParseHead(t);
      var a := ParseArgs(h.rest, inBlock);
      Parse(Some(Stmt(h.value.0, h.value.1, a.value)), a.rest, a.bad)
  }

  function ParseScript(s: string, inBlock: bool): (p: Parse<seq<Stmt>>)
    ensures |p.rest| <= |s|
    decreases |s|, 4
  {
    var t := SkipSeparators(s);
    if t == "" || (inBlock && t[0] == '}') then Parse([], t, false)
    else
      var st := ParseStmt(t, inBlock);
      if st.value.None? then Parse([], st.rest, true)
      else
        var more := ParseScript(st.rest, inBlock);
        Parse([st.value.value] + more.value, more.rest, st.bad || more.bad)
  }

  /** `parse_statement`: one statement of a text, refused whole where any of it is bad. */
  function ParseStatement(text: string): Option<Stmt> {
    var p := ParseStmt(text, false);
    if p.bad then None else p.value
  }

  lemma {:induction false} EscapeRead(s: string)
    requires |s| > 1 && s[0] == '\\'
    ensures var r := ReadString(if s[1] == 'x' then Rest(Rest(s[1..][1..])) else s[1..][1..]);
            ReadString(s)
            == Unquoted((if s[1] == 'x' then HexByte(s[1..][1..]) else [Unescape(s[1])]) + r.value, r.rest)
  {
    assert s[1..][1..] == s[2..];
  }

  lemma {:induction false} SymbolExact(w: string, t: string)
    requires forall k :: 0 <= k < |w| ==> InSymbol(w[k])
    requires t == "" || !InSymbol(t[0])
    ensures ParseSymbol(w + t) == if t != "" && t[0] == ')' then Parse(w, t[1..], w == "") else Parse(w, t, true)
  {
    SpanExact(InSymbol, w, t);
    if t != "" {
      assert (w + t)[|w|] == t[0] && (w + t)[|w| + 1..] == t[1..];
    }
  }

  lemma {:induction false} CutAt(s: string, i: nat, j: nat)
    requires i <= j <= |s|
    ensures s[i..] == s[i..j] + s[j..]
  {}

  // ----- the cursor -----

  class Cursor {
    const s: string
    var pos: nat
    var bad: bool

    constructor (text: string)
      ensures s == text && pos == 0 && !bad && Valid()
    {
      s, pos, bad := text, 0, false;
    }

    ghost predicate Valid()
      reads this
    {
      pos <= |s|
    }

    ghost function Unread(): string
      requires Valid()
      reads this
    {
      s[pos..]
    }

    function Eof(): bool
      reads this
    {
      pos >= |s|
    }

    method Step()
      requires Valid() && pos < |s|
      modifies this`pos
      ensures Valid() && Unread() == old(Unread())[1..]
    {
      pos := pos + 1;
    }

    method SkipBlank()
      requires Valid()
      modifies this`pos
      ensures Valid() && Unread() == SkipInline(old(Unread()))
    {
      while !Eof() && IsInline(s[pos])
        invariant Valid() && SkipInline(Unread()) == SkipInline(old(Unread()))
        decreases |s| - pos
      {
        Step();
      }
    }

    method Word() returns (w: string)
      requires Valid()
      modifies this`pos
      ensures Valid() && w == WordOf(old(Unread())) && Unread() == AfterWord(old(Unread()))
    {
      w := "";
      ghost var start := pos;
      while !Eof() && IsWordRune(s[pos])
        invariant start <= pos <= |s|
        invariant w == s[start..pos] && forall k :: start <= k < pos ==> IsWordRune(s[k])
        decreases |s| - pos
      {
        w := w + [s[pos]];
        pos := pos + 1;
      }
      SpanExact(IsWordRune, s[start..pos], s[pos..]);
      assert s[start..] == s[start..pos] + s[pos..];
    }

    /** Reads a quoted string; the cursor stands on its opening quote. */
    method String() returns (b: string)
      requires Valid() && pos < |s|
      modifies this`pos
      ensures Valid() && Unquoted(b, Unread()) == ReadString(old(Unread())[1..])
    {
      b := "";
      Step();
      ghost var all := ReadString(Unread());
      while !Eof()
        invariant Valid() && old(pos) < pos
        invariant b + ReadString(Unread()).value == all.value && ReadString(Unread()).rest == all.rest
        decreases |s| - pos
      {
        ghost var here := Unread();
        var c := s[pos];
        Step();
        if c == '"' {
          return;
        }
        var put := [c];
        if c == '\\' && !Eof() {
          put := Escape();
          EscapeRead(here);
        }
        Regroup(b, put, ReadString(Unread()).value);
        b := b + put;
      }
    }

    /** What a backslash makes of the characters after it, none where it names nothing. */
    method Escape() returns (put: string)
      requires Valid() && pos < |s|
      modifies this`pos
      ensures Valid() && pos > old(pos)
      ensures old(Unread())[0] != 'x' ==> put == [Unescape(old(Unread())[0])] && Unread() == old(Unread())[1..]
      ensures old(Unread())[0] == 'x' ==>
        put == HexByte(old(Unread())[1..]) && Unread() == Rest(Rest(old(Unread())[1..]))
    {
      var e := s[pos];
      Step();
      if e == 'x' {
        var hi, lo := -1, -1;
        ghost var hex := Unread();
        if !Eof() {
          hi := HexValue(s[pos]);
          Step();
        }
        assert Unread() == Rest(hex);
        if !Eof() {
          lo := HexValue(s[pos]);
          Step();
        }
        assert Unread() == Rest(Rest(hex));
        put := if hi >= 0 && lo >= 0 then [(hi * 16 + lo) as char] else "";
      } else {
        put := [Unescape(e)];
      }
    }

    /** Reads a bracketed symbol; the cursor stands on its opening bracket. */
    method ProtectedSymbol() returns (w: string)
      requires Valid() && pos < |s|
      modifies this
      ensures Valid()
      ensures var p := ParseSymbol(old(Unread())[1..]);
              w == p.value && Unread() == p.rest && bad == (old(bad) || p.bad)
    {
      hide ParseSymbol;
      w := "";
      Step();
      ghost var start := pos;
      while !Eof() && InSymbol(s[pos])
        invariant start <= pos <= |s| && bad == old(bad)
        invariant w == s[start..pos] && forall k :: start <= k < pos ==> InSymbol(s[k])
        decreases |s| - pos
      {
        w := w + [s[pos]];
        pos := pos + 1;
      }
      SymbolExact(w, s[pos..]);
      CutAt(s, start, pos);
      if !Eof() && s[pos] == ')' {
        Step();
      } else {
        bad := true;
      }
      if w == "" {
        bad := true;
      }
    }

    method Token() returns (w: string)
      requires Valid()
      modifies this`pos
      ensures Valid()
      ensures var n := Span(IsTokenRune, old(Unread()));
              w == old(Unread())[..n] && Unread() == old(Unread())[n..]
    {
      w := "";
      ghost var start := pos;
      while !Eof() && IsTokenRune(s[pos])
        invariant start <= pos <= |s|
        invariant w == s[start..pos] && forall k :: start <= k < pos ==> IsTokenRune(s[k])
        decreases |s| - pos
      {
        w := w + [s[pos]];
        pos := pos + 1;
      }
      SpanExact(IsTokenRune, s[start..pos], s[pos..]);
      CutAt(s, start, pos);
    }

    method Value() returns (v: Option<Value>)
      requires Valid()
      modifies this
      ensures Valid()
      ensures var p := ParseValue(old(Unread()));
              v == p.value && Unread() == p.rest && bad == (old(bad) || p.bad)
      decreases |s| - pos, 0
    {
      if Eof() {
        bad := true;
        return None;
      }
      var c := s[pos];
      assert c == Unread()[0];
      if c == '(' {
        var w := ProtectedSymbol();
        v := Some(Syntax.Word(w));
      } else if c == '{' {
        Step();
        var b := Script(true);
        if !Eof() && s[pos] == '}' {
          Step();
        } else {
          bad := true;
        }
        v := Some(Block(b));
      } else if c == '"' {
        var t := String();
        v := Some(Str(t));
      } else if IsTokenRune(c) {
        var t := Token();
        var n := NumberValue(t);
        if n.Whole? {
          v := Some(Int(n.i));
        } else if n.Fractional? {
          v := Some(Float(t));
        } else if IsSign(t[0]) {
          bad, v := true, None;
        } else {
          v := Some(Syntax.Word(t));
        }
      } else {
        bad, v := true, None;
      }
    }

    /** One argument, at a character that can start one. */
    method Argument() returns (a: Arg)
      requires Valid() && Unread() != "" && StartsArg(Unread()[0])
      modifies this
      ensures Valid()
      ensures var p := ParseArg(old(Unread()));
              a == p.value && Unread() == p.rest && bad == (old(bad) || p.bad)
      decreases |s| - pos, 1
    {
      var c := s[pos];
      if c == '!' || c == '?' {
        Step();
        var name := Word();
        a := Arg(name, if c == '?' then Indeterminate else Negated, None);
      } else if IsWordStart(c) {
        var name := Word();
        SkipBlank();
        if !Eof() && s[pos] == '=' {
          Step();
          var v := Value();
          a := Arg(name, Unflagged, v);
        } else {
          a := Arg(name, Asserted, None);
        }
      } else {
        var v := Value();
        a := Arg("", Unflagged, v);
      }
    }

    /** One statement, ending at a `;`, at the end of the text, or -- inside a
        block -- at the closing brace. */
    method Statement(inBlock: bool) returns (st: Option<Stmt>)
      requires Valid()
      modifies this
      ensures Valid()
      ensures var p := ParseStmt(old(Unread()), inBlock);
              st == p.value && Unread() == p.rest && bad == (old(bad) || p.bad)
      decreases |s| - pos, 3
    {
      SkipBlank();
      if Eof() || !IsWordRune(s[pos]) {
        return None;
      }
      var key, verb := Head();
      var args := Arguments(inBlock);
      st := Some(Stmt(key, verb, args));
    }

    method Head() returns (key: string, verb: string)
      requires Valid()
      modifies this`pos
      ensures Valid() && Parse((key, verb), Unread(), false) == ParseHead(old(Unread()))
    {
      key := "";
      verb := Word();
      if !Eof() && s[pos] == '=' {
        var save := pos;
        Step();
        if !Eof() && IsWordStart(s[pos]) {
          key := verb;
          verb := Word();
        } else {
          pos := save;
        }
      }
    }

    method Arguments(inBlock: bool) returns (args: seq<Arg>)
      requires Valid()
      modifies this
      ensures Valid()
      ensures var p := ParseArgs(old(Unread()), inBlock);
              args == p.value && Unread() == p.rest && bad == (old(bad) || p.bad)
      decreases |s| - pos, 2
    {
      args := [];
      ghost var all := ParseArgs(Unread(), inBlock);
      while true
        invariant Valid() && pos >= old(pos)
        invariant var now := ParseArgs(Unread(), inBlock);
                  && args + now.value == all.value && now.rest == all.rest
                  && (bad || now.bad) == (old(bad) || all.bad)
        decreases |s| - pos
      {
        SkipBlank();
        if Eof() || s[pos] == ';' || (inBlock && s[pos] == '}') {
          break;
        }
        if !StartsArg(s[pos]) {
          bad := true;
          break;
        }
        var a := Argument();
        Regroup(args, [a], ParseArgs(Unread(), inBlock).value);
        args := args + [a];
      }
      assert args + [] == args;
    }

    method SkipToStatement()
      requires Valid()
      modifies this`pos
      ensures Valid() && Unread() == SkipSeparators(old(Unread()))
    {
      SkipBlank();
      while !Eof() && s[pos] == ';'
        invariant Valid() && SkipInline(Unread()) == Unread()
        invariant SkipSeparators(Unread()) == SkipSeparators(old(Unread()))
        decreases |s| - pos
      {
        Step();
        SkipBlank();
      }
    }

    method Script(inBlock: bool) returns (b: seq<Stmt>)
      requires Valid()
      modifies this
      ensures Valid()
      ensures var p := ParseScript(old(Unread()), inBlock);
              b == p.value && Unread() == p.rest && bad == (old(bad) || p.bad)
      decreases |s| - pos, 4
    {
      b := [];
      ghost var all := ParseScript(Unread(), inBlock);
      while true
        invariant Valid() && pos >= old(pos)
        invariant var now := ParseScript(Unread(), inBlock);
                  && b + now.value == all.value && now.rest == all.rest
                  && (bad || now.bad) == (old(bad) || all.bad)
        decreases |s| - pos
      {
        SkipToStatement();
        if Eof() || (inBlock && s[pos] == '}') {
          break;
        }
        var st := Statement(inBlock);
        if st.None? {
          bad := true;
          break;
        }
        Regroup(b, [st.value], ParseScript(Unread(), inBlock).value);
        b := b + [st.value];
      }
      assert b + [] == b;
    }
  }

  method KtParseStatement(text: string) returns (st: Option<Stmt>)
    ensures st == ParseStatement(text)
  {
    var p := new Cursor(text);
    st := p.Statement(false);
    if p.bad {
      st := None;
    }
  }
}
