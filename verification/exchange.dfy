/**
 Requests and replies over one connection: `Exec`, `Send` and the read loop that
 buffers what a display says about a batch until the answer to it arrives.

 The connection is two queues. Any number of callers write to one of them under a
 lock that `Exec` keeps until its answer comes; the display reads that queue and says
 what it likes on the other. Nothing but their order ties an answer to its batch, and
 what is proved is that this is enough.
 */
module Exchange {
  import opened Text
  import opened Syntax

  /** A statement from the display, by what the read loop does with it. `decoded` is
      None where the statement would not decode. */
  datatype Line =
    | Reply(decoded: Option<string>)
    | Error(text: string)
    | Trouble(decoded: Option<string>)
    | Vocabulary(text: string, addressed: bool)
    | Hosted(text: string)
    | End
    | Event(text: string, record: bool)
    | Answer(decoded: Option<string>)
    | Other

  /** What an `Exec` comes back with. */
  datatype Outcome =
    | Replied(ids: string, extra: seq<string>, trouble: seq<string>)
    | Undecodable
    | Refused(text: string)
    | Lost

  /** Everything the read loop keeps, and the channels it feeds. */
  datatype Router = Router(
    desc: seq<string>, trouble: seq<string>, gathered: seq<string>,
    replies: seq<Outcome>, events: seq<string>, answers: seq<string>, inbound: seq<seq<string>>)

  const QUIET := Router([], [], [], [], [], [], [])

  /** The channel holds one; an answer that finds it full is dropped. */
  function Offer(replies: seq<Outcome>, r: Outcome): seq<Outcome> {
    if replies == [] then [r] else replies
  }

  function Route(r: Router, line: Line): Router {
    match line
    case Reply(ids) =>
      var o := if ids.Some? then Replied(ids.value, r.desc, r.trouble) else Undecodable;
      r.(desc := [], trouble := [], replies := Offer(r.replies, o))
    case Error(text) => r.(desc := [], trouble := [], replies := Offer(r.replies, Refused(text)))
    case Trouble(t) => if t.Some? then r.(trouble := r.trouble + [t.value]) else r
    case Vocabulary(text, addressed) =>
      if addressed then r.(gathered := r.gathered + [text]) else r.(desc := r.desc + [text])
    case Hosted(text) => r.(gathered := r.gathered + [text])
    case End => if r.gathered == [] then r else r.(inbound := r.inbound + [r.gathered], gathered := [])
    case Event(text, record) =>
      if record then r.(events := r.events + [text]) else r.(desc := r.desc + [text])
    case Answer(a) => if a.Some? then r.(answers := r.answers + [a.value]) else r
    case Other => r
  }

  function Drain(r: Router, lines: seq<Line>): Router
    decreases |lines|
  {
    if lines == [] then r else Drain(Route(r, lines[0]), lines[1..])
  }

  // ----- the read loop itself -----

  class RemoteTransport {
    var pendingDesc: seq<string>
    var pendingTrouble: seq<string>
    var pendingIn: seq<string>
    var replies: seq<Outcome>
    var events: seq<string>
    var answers: seq<string>
    var inbound: seq<seq<string>>

    constructor ()
      ensures Now() == QUIET
    {
      pendingDesc, pendingTrouble, pendingIn, replies, events, answers, inbound := [], [], [], [], [], [], [];
    }

    ghost function Now(): Router
      reads this
    {
      Router(pendingDesc, pendingTrouble, pendingIn, replies, events, answers, inbound)
    }

    /** Hands a reply to whatever is waiting, and drops it if one is already there. */
    method Deliver(r: Outcome)
      modifies this`replies
      ensures replies == Offer(old(replies), r)
    {
      if |replies| < 1 {
        replies := replies + [r];
      }
    }

    method RouteLine(line: Line)
      modifies this
      ensures Now() == Route(old(Now()), line)
    {
      match line {
        case Reply(decoded) =>
          var r := Undecodable;
          if decoded.Some? {
            r := Replied(decoded.value, [], []);
            if |pendingDesc| > 0 {
              r := r.(extra := pendingDesc);
            }
            if |pendingTrouble| > 0 {
              r := r.(trouble := pendingTrouble);
            }
          }
          pendingDesc, pendingTrouble := [], [];
          Deliver(r);
        case Error(text) =>
          pendingDesc, pendingTrouble := [], [];
          Deliver(Refused(text));
        case Trouble(decoded) =>
          if decoded.Some? {
            pendingTrouble := pendingTrouble + [decoded.value];
          }
        case Vocabulary(text, addressed) =>
          if addressed {
            pendingIn := pendingIn + [text];
          } else {
            pendingDesc := pendingDesc + [text];
          }
        case Hosted(text) => pendingIn := pendingIn + [text];
        case End =>
          if |pendingIn| > 0 {
            inbound := inbound + [pendingIn];
            pendingIn := [];
          }
        case Event(text, record) =>
          if record {
            events := events + [text];
          } else {
            pendingDesc := pendingDesc + [text];
          }
        case Answer(decoded) =>
          if decoded.Some? {
            answers := answers + [decoded.value];
          }
        case Other =>
      }
    }

    method ReadLoop(lines: seq<Line>)
      modifies this
      ensures Now() == Drain(old(Now()), lines)
    {
      hide Route;
      assert lines[0..] == lines;
      for i := 0 to |lines|
        invariant Drain(Now(), lines[i..]) == Drain(old(Now()), lines)
      {
        assert lines[i..][1..] == lines[i + 1..];
        RouteLine(lines[i]);
      }
    }
  }

  // ----- the connection -----

  type Caller = nat

  /** What goes out: a batch, which is answered, or a bare statement, which is not. */
  datatype Written = Batch(src: string) | Bare(src: string)

  /** What a display has said about the batch it is answering, and then its answer. */
  datatype Said = Said(desc: seq<string>, trouble: seq<string>)
  datatype Spoken = Spoken(batch: string, said: Said, last: Line)

  datatype Connection = Connection(
    holder: Option<Caller>, outbox: seq<Written>, working: Option<(string, Said)>, inbox: seq<Line>,
    router: Router, closed: bool,
    wrote: seq<(Caller, string)>, spoke: seq<Spoken>, got: seq<(Caller, Outcome)>)

  datatype Step =
    | ExecWrites(caller: Caller, src: string)
    | ExecReceives
    | ExecLost
    | SendWrites(src: string)
    | DisplayTakes
    | DisplaySays(line: Line)
    | DisplayAnswers(line: Line)
    | Reads
    | Closes

  const OPENED := Connection(None, [], None, [], QUIET, false, [], [], [])

  predicate IsFinal(line: Line) {
    line.Reply? || line.Error?
  }

  /** Said about the batch being answered, rather than about anything else. */
  predicate IsAboutBatch(line: Line) {
    || (line.Trouble? && line.decoded.Some?)
    || (line.Vocabulary? && !line.addressed)
    || (line.Event? && !line.record)
  }

  /** The lock, the queues, and what a display keeps to: it answers each batch once, in
      the order they came, and describes or reports trouble only while answering. */
  predicate Enabled(c: Connection, step: Step) {
    match step
    case ExecWrites(_, _) => c.holder.None? && !c.closed
    case ExecReceives => c.holder.Some? && c.router.replies != []
    case ExecLost => c.holder.Some? && c.router.replies == [] && c.closed
    case SendWrites(_) => c.holder.None? && !c.closed
    case DisplayTakes => c.working.None? && c.outbox != []
    case DisplaySays(line) => !IsFinal(line) && (IsAboutBatch(line) ==> c.working.Some?)
    case DisplayAnswers(line) => IsFinal(line) && c.working.Some?
    case Reads => c.inbox != [] && !c.closed
    case Closes => true
  }

  /** What one line adds to what has been said about a batch. */
  function Adding(said: Said, line: Line): Said {
    match line
    case Trouble(t) => if t.Some? then said.(trouble := said.trouble + [t.value]) else said
    case Vocabulary(text, addressed) => if addressed then said else said.(desc := said.desc + [text])
    case Event(text, record) => if record then said else said.(desc := said.desc + [text])
    case _ => said
  }

  function Do(c: Connection, step: Step): Connection
    requires Enabled(c, step)
  {
    match step
    case ExecWrites(caller, src) =>
      c.(holder := Some(caller), outbox := c.outbox + [Batch(src)], wrote := c.wrote + [(caller, src)])
    case ExecReceives =>
      c.(holder := None, got := c.got + [(c.holder.value, c.router.replies[0])],
         router := c.router.(replies := c.router.replies[1..]))
    case ExecLost => c.(holder := None, got := c.got + [(c.holder.value, Lost)])
    case SendWrites(src) => c.(outbox := c.outbox + [Bare(src)])
    case DisplayTakes =>
      c.(outbox := c.outbox[1..],
         working := if c.outbox[0].Batch? then Some((c.outbox[0].src, Said([], []))) else None)
    case DisplaySays(line) =>
      c.(inbox := c.inbox + [line],
         working := if c.working.None? then None else Some((c.working.value.0, Adding(c.working.value.1, line))))
    case DisplayAnswers(line) =>
      c.(inbox := c.inbox + [line], working := None,
         spoke := c.spoke + [Spoken(c.working.value.0, c.working.value.1, line)])
    case Reads => c.(inbox := c.inbox[1..], router := Route(c.router, c.inbox[0]))
    case Closes => c.(closed := true)
  }

  predicate Legal(c: Connection, steps: seq<Step>)
    decreases |steps|
  {
    steps == [] || (Enabled(c, steps[0]) && Legal(Do(c, steps[0]), steps[1..]))
  }

  function After(c: Connection, steps: seq<Step>): Connection
    requires Legal(c, steps)
    decreases |steps|
  {
    if steps == [] then c else After(Do(c, steps[0]), steps[1..])
  }

  /** What a caller is to be told, from what the display said of the batch. */
  function OutcomeOf(s: Spoken): Outcome {
    match s.last
    case Reply(ids) => if ids.Some? then Replied(ids.value, s.said.desc, s.said.trouble) else Undecodable
    case Error(text) => Refused(text)
    case _ => Lost
  }

  // ----- one batch at a time -----

  function Batches(out: seq<Written>): seq<string> {
    if out == [] then [] else (if out[0].Batch? then [out[0].src] else []) + Batches(out[1..])
  }

  function Finals(lines: seq<Line>): nat {
    if lines == [] then 0 else (if IsFinal(lines[0]) then 1 else 0) + Finals(lines[1..])
  }

  function Sources(wrote: seq<(Caller, string)>): seq<string> {
    seq(|wrote|, i requires 0 <= i < |wrote| => wrote[i].1)
  }

  function Answered(spoke: seq<Spoken>): seq<string> {
    seq(|spoke|, i requires 0 <= i < |spoke| => spoke[i].batch)
  }

  function InHand(working: Option<(string, Said)>): seq<string> {
    if working.Some? then [working.value.0] else []
  }

  /** Batches are answered in the order they were written, and none is lost. */
  predicate InOrder(c: Connection) {
    Sources(c.wrote) == Answered(c.spoke) + InHand(c.working) + Batches(c.outbox)
  }

  predicate Clean(r: Router) {
    r.desc == [] && r.trouble == [] && r.replies == []
  }

  /** How the one batch outstanding stands, if there is one: waiting to be taken, being
      answered, or answered. `r` is the router once it has read everything. */
  predicate Placed(c: Connection, r: Router) {
    var n := |c.got|;
    if c.holder.None? then |c.wrote| == |c.spoke| == n && Clean(r)
    else
      && |c.wrote| == n + 1 && c.wrote[n].0 == c.holder.value
      && (if c.working.Some? then
            |c.spoke| == n && r.replies == []
            && r.desc == c.working.value.1.desc && r.trouble == c.working.value.1.trouble
          else if |c.spoke| == n then Clean(r)
          else |c.spoke| == n + 1 && r.desc == [] && r.trouble == [] && r.replies == [OutcomeOf(c.spoke[n])])
  }

  /** Each caller so far got the answer to its own batch, made of what was said of it. */
  predicate Matched(c: Connection) {
    && (forall i :: 0 <= i < |c.spoke| ==> IsFinal(c.spoke[i].last))
    && |c.got| <= |c.wrote|
    && (forall i :: 0 <= i < |c.got| ==> c.got[i].0 == c.wrote[i].0)
    && (forall i :: 0 <= i < |c.got| ==>
          || (i < |c.spoke| && c.got[i].1 == OutcomeOf(c.spoke[i]))
          || (Over(c) && i == |c.got| - 1 && c.got[i].1 == Lost))
  }

  /** Nothing more will be written. */
  predicate Over(c: Connection) {
    c.closed && c.holder.None?
  }

  predicate Sound(c: Connection) {
    && InOrder(c) && Matched(c)
    && (Over(c) || (Placed(c, Drain(c.router, c.inbox))
                    && |c.router.replies| + Finals(c.inbox) == |c.spoke| - |c.got|))
  }

  lemma {:induction false} DrainMore(r: Router, lines: seq<Line>, line: Line)
    ensures Drain(r, lines + [line]) == Route(Drain(r, lines), line)
    decreases |lines|
  {
    hide Route;
    if lines == [] {
      assert lines + [line] == [line] && [line][1..] == [];
    } else {
      assert (lines + [line])[0] == lines[0] && (lines + [line])[1..] == lines[1..] + [line];
      DrainMore(Route(r, lines[0]), lines[1..], line);
    }
  }

  lemma {:induction false} FinalsMore(lines: seq<Line>, line: Line)
    ensures Finals(lines + [line]) == Finals(lines) + if IsFinal(line) then 1 else 0
  {
    if lines == [] {
      assert lines + [line] == [line] && [line][1..] == [];
    } else {
      assert (lines + [line])[0] == lines[0] && (lines + [line])[1..] == lines[1..] + [line];
      FinalsMore(lines[1..], line);
    }
  }

  lemma {:induction false} BatchesMore(out: seq<Written>, w: Written)
    ensures Batches(out + [w]) == Batches(out) + if w.Batch? then [w.src] else []
  {
    if out == [] {
      assert out + [w] == [w] && [w][1..] == [];
    } else {
      assert (out + [w])[0] == out[0] && (out + [w])[1..] == out[1..] + [w];
      BatchesMore(out[1..], w);
    }
  }

  /** Taking an answer from the channel changes nothing about reading lines that hold none. */
  lemma {:induction false} TakenEarlier(r: Router, lines: seq<Line>)
    requires Finals(lines) == 0
    ensures Drain(r.(replies := []), lines) == Drain(r, lines).(replies := [])
    ensures Drain(r, lines).replies == r.replies
    decreases |lines|
  {
    if lines != [] {
      assert Route(r.(replies := []), lines[0]) == Route(r, lines[0]).(replies := []);
      TakenEarlier(Route(r, lines[0]), lines[1..]);
    }
  }

  lemma {:induction false} WriteKeeps(c: Connection, step: Step)
    requires Sound(c) && Enabled(c, step) && (step.ExecWrites? || step.SendWrites?)
    ensures Sound(Do(c, step))
  {
    hide Drain, Finals, OutcomeOf, Batches;
    var c' := Do(c, step);
    BatchesMore(c.outbox, c'.outbox[|c.outbox|]);
    if step.ExecWrites? {
      assert Sources(c'.wrote) == Sources(c.wrote) + [step.src];
      Regroup(Answered(c.spoke) + InHand(c.working), Batches(c.outbox), [step.src]);
    } else {
      assert Batches(c.outbox) + [] == Batches(c.outbox);
    }
  }

  lemma {:induction false} ReceiveKeeps(c: Connection, step: Step)
    requires Sound(c) && Enabled(c, step) && (step.ExecReceives? || step.ExecLost?)
    ensures Sound(Do(c, step))
  {
    hide Drain, Finals, Batches;
    var c' := Do(c, step);
    LengthsOf(c);
    if step.ExecReceives? {
      assert Finals(c.inbox) == 0 && |c.router.replies| == 1;
      TakenEarlier(c.router, c.inbox);
      assert c'.router == c.router.(replies := []);
      assert c.router.replies == [OutcomeOf(c.spoke[|c.got|])];
    }
  }

  lemma {:induction false} LengthsOf(c: Connection)
    requires InOrder(c)
    ensures |c.wrote| == |c.spoke| + (if c.working.Some? then 1 else 0) + |Batches(c.outbox)|
  {
    assert |Sources(c.wrote)| == |c.wrote|;
  }

  /** What was matched stays so where nothing was written, answered or received. */
  lemma {:induction false} StaysMatched(c: Connection, c': Connection)
    requires Matched(c) && c'.got == c.got && c'.spoke == c.spoke && c'.wrote == c.wrote && Over(c') == Over(c)
    ensures Matched(c')
  {
    hide OutcomeOf, Over;
    forall i | 0 <= i < |c'.got|
      ensures || (i < |c'.spoke| && c'.got[i].1 == OutcomeOf(c'.spoke[i]))
              || (Over(c') && i == |c'.got| - 1 && c'.got[i].1 == Lost)
    {
      assert c.got[i] == c'.got[i];
    }
  }

  lemma {:induction false} TakeKeeps(c: Connection)
    requires Sound(c) && Enabled(c, DisplayTakes)
    ensures Sound(Do(c, DisplayTakes))
  {
    hide Drain, Finals, Batches, OutcomeOf, Matched, InOrder;
    var c' := Do(c, DisplayTakes);
    LengthsOf(c);
    BatchesTaken(c.outbox);
    InOrderTaken(c);
    LengthsOf(c');
    StaysMatched(c, c');
    assert !Over(c) ==> Placed(c', Drain(c.router, c.inbox));
  }

  lemma {:induction false} SayKeeps(c: Connection, line: Line)
    requires Sound(c) && Enabled(c, DisplaySays(line))
    ensures Sound(Do(c, DisplaySays(line)))
  {
    hide Drain, Finals, Batches, OutcomeOf, Matched, Placed, Route;
    var c' := Do(c, DisplaySays(line));
    DrainMore(c.router, c.inbox, line);
    FinalsMore(c.inbox, line);
    StaysMatched(c, c');
    assert InHand(c'.working) == InHand(c.working);
    if !Over(c) {
      LengthsOf(c);
      IdleInHand(c, Drain(c.router, c.inbox));
      SayPlaced(c, line, Drain(c.router, c.inbox));
    }
  }

  lemma {:induction false} SayPlaced(c: Connection, line: Line, r: Router)
    requires Enabled(c, DisplaySays(line)) && Placed(c, r) && (c.holder.None? ==> c.working.None?)
    ensures Placed(Do(c, DisplaySays(line)), Route(r, line))
  {
    hide OutcomeOf;
    var r' := Route(r, line);
    assert r'.replies == r.replies;
    if c.working.None? {
      assert r'.desc == r.desc && r'.trouble == r.trouble;
    }
  }

  lemma {:induction false} AnswerKeeps(c: Connection, line: Line)
    requires Sound(c) && Enabled(c, DisplayAnswers(line))
    ensures Sound(Do(c, DisplayAnswers(line)))
  {
    hide Drain, Finals, Batches, Placed, Matched, Route, OutcomeOf;
    var c' := Do(c, DisplayAnswers(line));
    DrainMore(c.router, c.inbox, line);
    FinalsMore(c.inbox, line);
    AnswerMatched(c, line);
    assert Answered(c'.spoke) == Answered(c.spoke) + [c.working.value.0];
    assert Answered(c'.spoke) + [] == Answered(c'.spoke);
    if !Over(c) {
      LengthsOf(c);
      IdleInHand(c, Drain(c.router, c.inbox));
      AnswerPlaced(c, line, Drain(c.router, c.inbox));
    }
  }

  lemma {:induction false} IdleInHand(c: Connection, r: Router)
    requires Placed(c, r) && |c.wrote| == |c.spoke| + (if c.working.Some? then 1 else 0) + |Batches(c.outbox)|
    ensures c.holder.None? ==> c.working.None?
  {}

  lemma {:induction false} AnswerPlaced(c: Connection, line: Line, r: Router)
    requires Enabled(c, DisplayAnswers(line)) && Placed(c, r) && (c.holder.None? ==> c.working.None?)
    ensures Placed(Do(c, DisplayAnswers(line)), Route(r, line))
  {
    var c' := Do(c, DisplayAnswers(line));
    assert c'.spoke[|c.spoke|] == Spoken(c.working.value.0, c.working.value.1, line);
    assert Route(r, line).replies == [OutcomeOf(c'.spoke[|c.spoke|])];
  }

  lemma {:induction false} AnswerMatched(c: Connection, line: Line)
    requires Enabled(c, DisplayAnswers(line)) && Matched(c)
    ensures Matched(Do(c, DisplayAnswers(line)))
  {
    hide Matched, Route;
    SpokeMore(c, Do(c, DisplayAnswers(line)));
  }

  lemma {:induction false} SpokeMore(c: Connection, d: Connection)
    requires Matched(c) && |d.spoke| == |c.spoke| + 1 && d.spoke[..|c.spoke|] == c.spoke
    requires d.got == c.got && d.wrote == c.wrote && Over(d) == Over(c) && IsFinal(d.spoke[|c.spoke|].last)
    ensures Matched(d)
  {
    hide OutcomeOf;
    assert forall i :: 0 <= i < |c.spoke| ==> d.spoke[i] == c.spoke[i];
  }

  lemma {:induction false} BatchesTaken(out: seq<Written>)
    requires out != []
    ensures Batches(out) == (if out[0].Batch? then [out[0].src] else []) + Batches(out[1..])
  {}

  lemma {:induction false} InOrderTaken(c: Connection)
    requires InOrder(c) && Enabled(c, DisplayTakes)
    ensures InOrder(Do(c, DisplayTakes))
  {
    hide Batches, Answered, Sources;
    BatchesTaken(c.outbox);
    var first := if c.outbox[0].Batch? then [c.outbox[0].src] else [];
    assert Answered(c.spoke) + [] == Answered(c.spoke);
    Regroup(Answered(c.spoke), first, Batches(c.outbox[1..]));
  }

  lemma {:induction false} ReadKeeps(c: Connection)
    requires Sound(c) && Enabled(c, Reads)
    ensures Sound(Do(c, Reads))
  {
    hide Batches, OutcomeOf;
    var line := c.inbox[0];
    assert Drain(c.router, c.inbox) == Drain(Route(c.router, line), c.inbox[1..]);
    LengthsOf(c);
    assert |c.spoke| - |c.got| <= 1;
  }

  lemma {:induction false} StepKeeps(c: Connection, step: Step)
    requires Sound(c) && Enabled(c, step)
    ensures Sound(Do(c, step))
  {
    match step {
      case ExecWrites(_, _) => WriteKeeps(c, step);
      case SendWrites(_) => WriteKeeps(c, step);
      case ExecReceives => ReceiveKeeps(c, step);
      case ExecLost => ReceiveKeeps(c, step);
      case DisplayTakes => TakeKeeps(c);
      case DisplaySays(line) => SayKeeps(c, line);
      case DisplayAnswers(line) => AnswerKeeps(c, line);
      case Reads => ReadKeeps(c);
      case Closes =>
    }
  }

  lemma {:induction false} RunKeeps(c: Connection, steps: seq<Step>)
    requires Sound(c) && Legal(c, steps)
    ensures Sound(After(c, steps))
    decreases |steps|
  {
    hide Sound, Do, Enabled;
    if steps != [] {
      StepKeeps(c, steps[0]);
      RunKeeps(Do(c, steps[0]), steps[1..]);
    }
  }

  /** Over every interleaving of any number of callers, the display and the read loop: the
      nth batch written is the nth the display answers, and its caller gets that answer,
      carrying exactly what was described and what trouble was reported while that batch
      was being answered, and nothing said of another; or, if the connection closed
      first, is told it was lost, and is the last to be told anything. */
  lemma {:induction false} EveryExecGetsItsOwnAnswer(steps: seq<Step>)
    requires Legal(OPENED, steps)
    ensures var c := After(OPENED, steps);
            && |c.spoke| <= |c.wrote| && |c.got| <= |c.wrote|
            && (forall i :: 0 <= i < |c.spoke| ==> c.spoke[i].batch == c.wrote[i].1)
            && (forall i :: 0 <= i < |c.got| ==> c.got[i].0 == c.wrote[i].0)
            && (forall i :: 0 <= i < |c.got| && c.got[i].1 != Lost ==>
                  i < |c.spoke| && c.got[i].1 == OutcomeOf(c.spoke[i]))
            && (forall i :: 0 <= i < |c.got| && c.got[i].1 == Lost ==> c.closed && i == |c.got| - 1)
  {
    OpensSound();
    RunKeeps(OPENED, steps);
    var c := After(OPENED, steps);
    LengthsOf(c);
    forall i | 0 <= i < |c.spoke| ensures c.spoke[i].batch == c.wrote[i].1 {
      assert Sources(c.wrote)[i] == Answered(c.spoke)[i];
    }
  }

  lemma {:induction false} OpensSound()
    ensures Sound(OPENED)
  {
    assert Sources([]) == [] && Answered([]) == [];
  }

  // ----- batches the other way -----

  /** The part of what a display says that is a batch for this end to run. */
  function ForThisEnd(lines: seq<Line>): seq<Line> {
    if lines == [] then []
    else (if lines[0].Hosted? || lines[0].End? || (lines[0].Vocabulary? && lines[0].addressed) then [lines[0]] else [])
         + ForThisEnd(lines[1..])
  }

  /** Replies, troubles, descriptions, events and answers may fall anywhere among the
      statements of a batch the display sends: the batches gathered are the same. */
  lemma {:induction false} GatheredWholeWhateverComesBetween(r: Router, lines: seq<Line>)
    ensures var all, only := Drain(r, lines), Drain(r, ForThisEnd(lines));
            all.inbound == only.inbound && all.gathered == only.gathered
    decreases |lines|
  {
    SameGathering(r, r, lines);
  }

  lemma {:induction false} SameGathering(r: Router, q: Router, lines: seq<Line>)
    requires r.inbound == q.inbound && r.gathered == q.gathered
    ensures var all, only := Drain(r, lines), Drain(q, ForThisEnd(lines));
            all.inbound == only.inbound && all.gathered == only.gathered
    decreases |lines|
  {
    if lines != [] {
      var line, rest := lines[0], ForThisEnd(lines[1..]);
      if line.Hosted? || line.End? || (line.Vocabulary? && line.addressed) {
        assert ForThisEnd(lines) == [line] + rest && ([line] + rest)[1..] == rest;
        SameGathering(Route(r, line), Route(q, line), lines[1..]);
      } else {
        assert ForThisEnd(lines) == [] + rest == rest;
        SameGathering(Route(r, line), q, lines[1..]);
      }
    }
  }
}
