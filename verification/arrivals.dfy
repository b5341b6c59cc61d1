/**
 What the read loop makes of everything that has arrived, said of the statements alone.

 Each channel is fed by its own kind of statement, in the order they came. Batches for
 this end are cut at each `end`; what is said about a batch of this end's own is cut at
 each answer.
 */
module Arrivals {
  import opened Text
  import opened Syntax
  import opened Exchange

  // ----- what each kind of statement brings -----

  /** The text of a statement that is for this end to run. */
  function ForThisEndText(line: Line): Option<string> {
    match line
    case Hosted(text) => Some(text)
    case Vocabulary(text, true) => Some(text)
    case _ => None
  }

  /** The text of a statement that describes something. */
  function Description(line: Line): Option<string> {
    match line
    case Vocabulary(text, false) => Some(text)
    case Event(text, false) => Some(text)
    case _ => None
  }

  function Reported(line: Line): Option<string> {
    if line.Trouble? then line.decoded else None
  }

  function Happened(line: Line): Option<string> {
    match line
    case Event(text, true) => Some(text)
    case _ => None
  }

  function Answering(line: Line): Option<string> {
    if line.Answer? then line.decoded else None
  }

  /** What a run of statements brings of one kind, in order. */
  function Brought(of: Line -> Option<string>, lines: seq<Line>): seq<string> {
    if lines == [] then []
    else (match of(lines[0]) case Some(text) => [text] case None => []) + Brought(of, lines[1..])
  }

  // ----- where they are cut -----

  /** The pieces of a run of statements between those that `cuts`, the last of them open. */
  function Pieces(cuts: Line -> bool, lines: seq<Line>): (ps: seq<seq<Line>>)
    ensures ps != []
  {
    if lines == [] then [[]]
    else
      var rest := Pieces(cuts, lines[1..]);
      if cuts(lines[0]) then [[]] + rest else [[lines[0]] + rest[0]] + rest[1..]
  }

  function Open(ps: seq<seq<Line>>): seq<Line>
    requires ps != []
  {
    ps[|ps| - 1]
  }

  function Closed(ps: seq<seq<Line>>): seq<seq<Line>>
    requires ps != []
  {
    ps[..|ps| - 1]
  }

  predicate IsEnd(line: Line) {
    line.End?
  }

  predicate IsFinalLine(line: Line) {
    line.Reply? || line.Error?
  }

  /** The batches some pieces hold: what of each is for this end, where anything is. */
  function BatchesOf(ps: seq<seq<Line>>): seq<seq<string>> {
    if ps == [] then []
    else
      var batch := Brought(ForThisEndText, ps[0]);
      (if batch == [] then [] else [batch]) + BatchesOf(ps[1..])
  }

  /** The answer that closed a piece, with what the piece said before it. */
  function AnswerWith(piece: seq<Line>, final: Line): Outcome
    requires IsFinalLine(final)
  {
    match final
    case Reply(Some(ids)) => Replied(ids, Brought(Description, piece), Brought(Reported, piece))
    case Reply(None) => Undecodable
    case Error(text) => Refused(text)
  }

  // ----- one statement more -----

  lemma {:induction false} BroughtMore(of: Line -> Option<string>, lines: seq<Line>, line: Line)
    ensures Brought(of, lines + [line]) ==
              Brought(of, lines) + match of(line) case Some(text) => [text] case None => []
  {
    if lines == [] {
      assert lines + [line] == [line] && [line][1..] == [];
    } else {
      assert (lines + [line])[0] == lines[0] && (lines + [line])[1..] == lines[1..] + [line];
      BroughtMore(of, lines[1..], line);
    }
  }

  lemma {:induction false} PiecesMore(cuts: Line -> bool, lines: seq<Line>, line: Line)
    ensures var ps := Pieces(cuts, lines);
            Pieces(cuts, lines + [line]) == if cuts(line) then ps + [[]] else Closed(ps) + [Open(ps) + [line]]
  {
    if lines == [] {
      assert lines + [line] == [line] && [line][1..] == [];
      var none: seq<seq<Line>> := [[]];
      assert none[1..] == [] && [line] + none[0] == [line] && none[0] + [line] == [line];
      assert Closed(none) == [] && [[line]] + none[1..] == [[line]] && [] + [[line]] == [[line]];
    } else {
      assert (lines + [line])[0] == lines[0] && (lines + [line])[1..] == lines[1..] + [line];
      PiecesMore(cuts, lines[1..], line);
      if cuts(lines[0]) {
        AfterCut(Pieces(cuts, lines[1..]), line);
      } else {
        InFirst(lines[0], Pieces(cuts, lines[1..]), line);
      }
    }
  }

  lemma {:induction false} AfterCut(rest: seq<seq<Line>>, line: Line)
    requires rest != []
    ensures var ps := [[]] + rest;
            && [[]] + (rest + [[]]) == ps + [[]]
            && [[]] + (Closed(rest) + [Open(rest) + [line]]) == Closed(ps) + [Open(ps) + [line]]
  {}

  lemma {:induction false} InFirst(first: Line, rest: seq<seq<Line>>, line: Line)
    requires rest != []
    ensures var ps := [[first] + rest[0]] + rest[1..];
            var cut, more := rest + [[]], Closed(rest) + [Open(rest) + [line]];
            && [[first] + cut[0]] + cut[1..] == ps + [[]]
            && [[first] + more[0]] + more[1..] == Closed(ps) + [Open(ps) + [line]]
  {
    if |rest| == 1 {
      var ps := [[first] + rest[0]] + rest[1..];
      assert rest[1..] == [] && Closed(rest) == [] && ps == [[first] + rest[0]] && Closed(ps) == [];
      Regroup([first], rest[0], [line]);
    }
  }

  lemma {:induction false} BatchesMore(ps: seq<seq<Line>>, p: seq<Line>)
    ensures BatchesOf(ps + [p]) ==
              BatchesOf(ps) + if Brought(ForThisEndText, p) == [] then [] else [Brought(ForThisEndText, p)]
  {
    hide Brought;
    if ps == [] {
      assert ps + [p] == [p] && [p][1..] == [];
    } else {
      assert (ps + [p])[0] == ps[0] && (ps + [p])[1..] == ps[1..] + [p];
      BatchesMore(ps[1..], p);
    }
  }

  // ----- everything that has arrived -----

  /** The batches handed on are the pieces between one `end` and the next, of what is for
      this end, empty ones left out; what follows the last `end` is still gathered. */
  lemma {:induction false} BatchesHandedOn(lines: seq<Line>)
    ensures var r, ps := Drain(QUIET, lines), Pieces(IsEnd, lines);
            r.inbound == BatchesOf(Closed(ps)) && r.gathered == Brought(ForThisEndText, Open(ps))
  {
    if lines != [] {
      hide Drain, Pieces, Brought, BatchesOf, Route;
      var n := |lines| - 1;
      var before, line := lines[..n], lines[n];
      assert lines == before + [line];
      BatchesHandedOn(before);
      DrainMore(QUIET, before, line);
      PiecesMore(IsEnd, before, line);
      var ps := Pieces(IsEnd, before);
      BroughtMore(ForThisEndText, Open(ps), line);
      BatchesMore(Closed(ps), Open(ps));
      assert Closed(ps) + [Open(ps)] == ps && Closed(ps + [[]]) == ps;
      assert Closed(Closed(ps) + [Open(ps) + [line]]) == Closed(ps);
      NothingBrought(ForThisEndText);
      Handed(Drain(QUIET, before), line);
    }
  }

  lemma {:induction false} Handed(r: Router, line: Line)
    ensures var r' := Route(r, line);
            if line.End? then
              r'.inbound == r.inbound + (if r.gathered == [] then [] else [r.gathered]) && r'.gathered == []
            else
              && r'.inbound == r.inbound
              && r'.gathered == r.gathered + match ForThisEndText(line) case Some(text) => [text] case None => []
  {
    assert r.inbound + [] == r.inbound && r.gathered + [] == r.gathered;
  }

  lemma {:induction false} NothingBrought(of: Line -> Option<string>)
    ensures Brought(of, []) == []
  {}

  /** Event records and answers that decode are handed on, all of them, as they came. */
  lemma {:induction false} EventsAndAnswers(lines: seq<Line>)
    ensures var r := Drain(QUIET, lines);
            r.events == Brought(Happened, lines) && r.answers == Brought(Answering, lines)
  {
    if lines != [] {
      hide Drain, Brought;
      var n := |lines| - 1;
      var before, line := lines[..n], lines[n];
      assert lines == before + [line];
      EventsAndAnswers(before);
      DrainMore(QUIET, before, line);
      BroughtMore(Happened, before, line);
      BroughtMore(Answering, before, line);
    } else {
      NothingBrought(Happened);
      NothingBrought(Answering);
    }
  }

  /** What waits for a reply is what was described and reported since the last answer. */
  lemma {:induction false} WaitingForReply(lines: seq<Line>)
    ensures var r, ps := Drain(QUIET, lines), Pieces(IsFinalLine, lines);
            r.desc == Brought(Description, Open(ps)) && r.trouble == Brought(Reported, Open(ps))
  {
    NothingBrought(Description);
    NothingBrought(Reported);
    if lines != [] {
      hide Drain, Pieces, Brought, Route;
      var n := |lines| - 1;
      var before, line := lines[..n], lines[n];
      assert lines == before + [line];
      WaitingForReply(before);
      DrainMore(QUIET, before, line);
      PiecesMore(IsFinalLine, before, line);
      var ps := Pieces(IsFinalLine, before);
      BroughtMore(Description, Open(ps), line);
      BroughtMore(Reported, Open(ps), line);
      Waiting(Drain(QUIET, before), line);
    }
  }

  lemma {:induction false} Waiting(r: Router, line: Line)
    ensures var r' := Route(r, line);
            if IsFinalLine(line) then r'.desc == [] && r'.trouble == []
            else
              && r'.desc == r.desc + (match Description(line) case Some(text) => [text] case None => [])
              && r'.trouble == r.trouble + (match Reported(line) case Some(text) => [text] case None => [])
  {
    assert r.desc + [] == r.desc && r.trouble + [] == r.trouble;
  }

  /** Everything up to the first statement that cuts is the first piece. */
  lemma {:induction false} FirstPiece(cuts: Line -> bool, lines: seq<Line>)
    ensures var ps := Pieces(cuts, lines);
            && (|ps| == 1 ==> ps[0] == lines)
            && (|ps| > 1 ==> |ps[0]| < |lines| && cuts(lines[|ps[0]|]) && ps[0] == lines[..|ps[0]|])
  {
    if lines != [] {
      FirstPiece(cuts, lines[1..]);
      var rest := Pieces(cuts, lines[1..]);
      if cuts(lines[0]) {
        assert lines[..0] == [];
      } else if |rest| == 1 {
        assert rest[1..] == [] && [lines[0]] + lines[1..] == lines;
      } else {
        assert [lines[0]] + lines[1..][..|rest[0]|] == lines[..1 + |rest[0]|];
      }
    }
  }

  lemma {:induction false} Offered(r: Router, piece: seq<Line>, line: Line)
    requires r.desc == Brought(Description, piece) && r.trouble == Brought(Reported, piece)
    ensures Route(r, line).replies ==
              if IsFinalLine(line) && r.replies == [] then [AnswerWith(piece, line)] else r.replies
  {
    hide Brought;
  }

  lemma {:induction false} FirstStays(ps: seq<seq<Line>>, line: Line)
    requires ps != []
    ensures (ps + [[]])[0] == ps[0] && |ps + [[]]| > 1
    ensures var more := Closed(ps) + [Open(ps) + [line]]; |more| == |ps| && (|ps| > 1 ==> more[0] == ps[0])
  {}

  /** The reply waiting is the first answer that came, with what was said before it. */
  lemma {:induction false} ReplyWaiting(lines: seq<Line>)
    ensures var r, ps := Drain(QUIET, lines), Pieces(IsFinalLine, lines);
            if |ps| == 1 then r.replies == []
            else |ps[0]| < |lines| && IsFinalLine(lines[|ps[0]|])
                 && r.replies == [AnswerWith(ps[0], lines[|ps[0]|])]
  {
    FirstPiece(IsFinalLine, lines);
    if lines != [] {
      hide Drain, Pieces, Brought, Route, AnswerWith, Closed, Open;
      var n := |lines| - 1;
      var before, line := lines[..n], lines[n];
      assert lines == before + [line];
      ReplyWaiting(before);
      FirstPiece(IsFinalLine, before);
      WaitingForReply(before);
      DrainMore(QUIET, before, line);
      PiecesMore(IsFinalLine, before, line);
      var ps := Pieces(IsFinalLine, before);
      FirstStays(ps, line);
      Offered(Drain(QUIET, before), Open(ps), line);
      OnlyPiece(ps);
    }
  }

  lemma {:induction false} OnlyPiece(ps: seq<seq<Line>>)
    requires ps != []
    ensures |ps| == 1 ==> Open(ps) == ps[0]
  {}
}
