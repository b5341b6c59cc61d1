/**
 What the framer does with text no printer writes: blanks, blank lines and comments.

 Before a statement they are passed over; a comment after one ends it as its newline
 would; and inside braces a comment is as if it were not there.
 */
module FramerMeaning {
  import opened Text
  import opened Tokens
  import opened Syntax
  import opened Framing
  import opened FrameLimits

  // ----- between statements -----

  /** Something between one statement and the next. */
  datatype Gap =
    | Blank(c: char)
    | Newline
    | Comment(text: string)

  predicate IsGap(g: Gap) {
    match g
    case Blank(c) => c in [' ', '\t', '\r', ';']
    case Newline => true
    case Comment(text) => '\n' !in text
  }

  function GapText(g: Gap): string {
    match g
    case Blank(c) => [c]
    case Newline => "\n"
    case Comment(text) => "#" + text + "\n"
  }

  function GapsText(gs: seq<Gap>): string {
    if gs == [] then "" else GapText(gs[0]) + GapsText(gs[1..])
  }

  /** The blanks among some gaps, which the next frame begins with. */
  function Blanks(gs: seq<Gap>): string {
    if gs == [] then "" else (if gs[0].Blank? then [gs[0].c] else "") + Blanks(gs[1..])
  }

  predicate AreGaps(gs: seq<Gap>) {
    forall g :: g in gs ==> IsGap(g)
  }

  lemma {:induction false} GapPasses(g: Gap, s: string, text: string)
    requires IsGap(g)
    ensures NextFrame(GapText(g) + s, text, Outside(0), false)
         == NextFrame(s, text + (if g.Blank? then [g.c] else ""), Outside(0), false)
  {
    var u := GapText(g) + s;
    match g {
      case Blank(c) =>
        assert u[0] == c && u[1..] == s;
      case Newline =>
        assert u[0] == '\n' && u[1..] == s && text + "" == text;
      case Comment(t) =>
        assert u[0] == '#' && u[1..] == t + "\n" + s && text + "" == text;
        CommentEnds(t, s);
    }
  }

  /** Blanks, blank lines and comments before a statement are passed over; only the blanks
      among them are kept in its frame. */
  lemma {:induction false} GapsPass(gs: seq<Gap>, s: string, text: string)
    requires AreGaps(gs)
    ensures NextFrame(GapsText(gs) + s, text, Outside(0), false)
         == NextFrame(s, text + Blanks(gs), Outside(0), false)
    decreases |gs|
  {
    hide NextFrame, GapText, IsGap;
    if gs == [] {
      assert "" + s == s && text + "" == text;
    } else {
      assert gs[0] in gs && forall g :: g in gs[1..] ==> g in gs;
      var kept := if gs[0].Blank? then [gs[0].c] else "";
      GapPasses(gs[0], GapsText(gs[1..]) + s, text);
      GapsPass(gs[1..], s, text + kept);
      Regroup(GapText(gs[0]), GapsText(gs[1..]), s);
      Regroup(text, kept, Blanks(gs[1..]));
    }
  }

  lemma {:induction false} Kept(s: string, text: string)
    requires s != "" && IsWordRune(s[0])
    ensures NextFrame(s, text, Outside(0), false) == NextFrame(s[1..], text + [s[0]], Outside(0), true)
  {
    assert !Silent(s[0]) && s[0] != '\n' && s[0] != '#';
  }

  /** A line with gaps in front of it is framed with their blanks in front of it. */
  lemma {:induction false} GapsThenLine(gs: seq<Gap>, t: string, rest: string)
    requires AreGaps(gs) && t != "" && IsWordRune(t[0]) && Balanced(t)
    ensures FirstFrame(GapsText(gs) + (t + "\n" + rest)) == Frame(Blanks(gs) + t + "\n", rest)
  {
    var u := t[1..] + "\n" + rest;
    GapsPass(gs, t + "\n" + rest, "");
    assert "" + Blanks(gs) == Blanks(gs);
    assert (t + "\n" + rest)[0] == t[0] && (t + "\n" + rest)[1..] == u;
    Kept(t + "\n" + rest, Blanks(gs));
    WordStays(t);
    assert u == t[1..] + ("\n" + rest);
    Gathers(t[1..], "\n" + rest, Blanks(gs) + [t[0]], Outside(0));
    Regroup(Blanks(gs), [t[0]], t[1..]);
    assert [t[0]] + t[1..] == t;
    NewlineEnds(rest, Blanks(gs) + t);
  }

  lemma {:induction false} WordStays(t: string)
    requires t != "" && IsWordRune(t[0])
    ensures Scan(Outside(0), t[1..]) == Scan(Outside(0), t)
  {
    assert Step(Outside(0), t[0]) == Outside(0);
  }

  /** Where nothing else is left there is no frame. */
  lemma {:induction false} GapsAlone(gs: seq<Gap>)
    requires AreGaps(gs)
    ensures FirstFrame(GapsText(gs)) == NoFrame
  {
    GapsPass(gs, "", "");
    assert GapsText(gs) + "" == GapsText(gs);
  }

  // ----- where a statement ends -----

  /** After a balanced statement a comment ends it, as its newline alone would. */
  lemma {:induction false} CommentEndsStatement(t: string, comment: string, rest: string)
    requires t != "" && IsWordRune(t[0]) && Balanced(t) && '\n' !in comment
    ensures FirstFrame(t + ("#" + comment + "\n" + rest)) == FirstFrame(t + "\n" + rest) == Frame(t + "\n", rest)
  {
    LineIsFrame(t, rest);
    var u := "#" + comment + "\n" + rest;
    assert (t + u)[0] == t[0] && (t + u)[1..] == t[1..] + u;
    Kept(t + u, "");
    WordStays(t);
    Gathers(t[1..], u, "" + [t[0]], Outside(0));
    assert "" + [t[0]] + t[1..] == t;
    assert u[0] == '#' && u[1..] == comment + "\n" + rest;
    CommentEnds(comment, rest);
  }

  /** The stream's own end ends a statement that is balanced, and loses one that is not. */
  lemma {:induction false} EndOfStream(t: string)
    requires t != "" && IsWordRune(t[0]) && Scan(Outside(0), t).Some?
    ensures var m := Scan(Outside(0), t).value;
            FirstFrame(t) == if m.depth == 0 && !m.inString then Frame(t, "") else NoFrame
  {
    Kept(t, "");
    WordStays(t);
    Gathers(t[1..], "", "" + [t[0]], Outside(0));
    assert t[1..] + "" == t[1..] && "" + [t[0]] + t[1..] == t;
  }

  // ----- inside braces -----

  /** Inside braces a comment is as if it were not there, and a newline ends nothing. */
  lemma {:induction false} InsideBraces(t: string, comment: string, rest: string)
    requires t != "" && IsWordRune(t[0]) && Scan(Outside(0), t).Some? && '\n' !in comment
    requires Framing.Unquoted(Scan(Outside(0), t).value) && Scan(Outside(0), t).value.depth != 0
    ensures FirstFrame(t + ("#" + comment + "\n" + rest)) == FirstFrame(t + rest)
    ensures FirstFrame(t + ("\n" + rest)) == NextFrame(rest, t + "\n", Scan(Outside(0), t).value, true)
  {
    var m := Scan(Outside(0), t).value;
    Follows(t, "#" + comment + "\n" + rest);
    Follows(t, rest);
    Follows(t, "\n" + rest);
    var u := "#" + comment + "\n" + rest;
    assert u[0] == '#' && u[1..] == comment + "\n" + rest;
    CommentEnds(comment, rest);
    assert ("\n" + rest)[1..] == rest && t + "\n" == t + ['\n'];
  }

  lemma {:induction false} Follows(t: string, u: string)
    requires t != "" && IsWordRune(t[0]) && Scan(Outside(0), t).Some?
    ensures FirstFrame(t + u) == NextFrame(u, t, Scan(Outside(0), t).value, true)
  {
    assert (t + u)[0] == t[0] && (t + u)[1..] == t[1..] + u;
    Kept(t + u, "");
    WordStays(t);
    Gathers(t[1..], u, "" + [t[0]], Outside(0));
    assert "" + [t[0]] + t[1..] == t;
  }
}
