/**
 What a request can be told when the display has not kept to its side.

 A connection with nothing outstanding may still hold an answer nobody asked for, or
 descriptions and trouble nobody was being answered about. The next request is sure of
 its own answer, and nothing else in it, exactly when reading what has arrived would
 leave none of that.
 */
module StrayReplies {
  import opened Text
  import opened Syntax
  import opened Exchange

  /** Nothing is waiting for an answer, and the display is answering nothing. */
  predicate AtRest(c: Connection) {
    && c.holder.None? && !c.closed && c.working.None? && Batches(c.outbox) == []
    && Lost !in c.router.replies
  }

  /** What the next to write is told is made of what was said of its batch, unless the
      connection was lost; `n` requests have been told and `m` batches answered before. */
  predicate OwnAnswer(c: Connection, n: nat, m: nat, src: string) {
    n < |c.got| && c.got[n].1 != Lost ==>
      m < |c.spoke| && c.spoke[m].batch == src && c.got[n].1 == OutcomeOf(c.spoke[m])
  }

  // ----- what was done before has no bearing on what is done -----

  function Behind(w: seq<(Caller, string)>, s: seq<Spoken>, g: seq<(Caller, Outcome)>, d: Connection): Connection {
    d.(wrote := w + d.wrote, spoke := s + d.spoke, got := g + d.got)
  }

  lemma {:induction false} StepBehind(w: seq<(Caller, string)>, s: seq<Spoken>, g: seq<(Caller, Outcome)>,
      d: Connection, step: Step)
    requires Enabled(Behind(w, s, g, d), step)
    ensures Enabled(d, step) && Do(Behind(w, s, g, d), step) == Behind(w, s, g, Do(d, step))
  {
    hide Route, Adding;
    match step {
      case ExecWrites(caller, src) => Regroup(w, d.wrote, [(caller, src)]);
      case ExecReceives => Regroup(g, d.got, [(d.holder.value, d.router.replies[0])]);
      case ExecLost => Regroup(g, d.got, [(d.holder.value, Lost)]);
      case DisplayAnswers(line) => Regroup(s, d.spoke, [Spoken(d.working.value.0, d.working.value.1, line)]);
      case _ =>
    }
  }

  lemma {:induction false} RunBehind(
    w: seq<(Caller, string)>, s: seq<Spoken>, g: seq<(Caller, Outcome)>, d: Connection, steps: seq<Step>)
    requires Legal(Behind(w, s, g, d), steps)
    ensures Legal(d, steps) && After(Behind(w, s, g, d), steps) == Behind(w, s, g, After(d, steps))
    decreases |steps|
  {
    hide Do, Enabled, Behind;
    if steps != [] {
      StepBehind(w, s, g, d, steps[0]);
      RunBehind(w, s, g, Do(d, steps[0]), steps[1..]);
    }
  }

  lemma {:induction false} Wrote(c: Connection, steps: seq<Step>)
    requires Legal(c, steps)
    ensures c.wrote <= After(c, steps).wrote
    decreases |steps|
  {
    hide Route, Adding;
    if steps != [] {
      Wrote(Do(c, steps[0]), steps[1..]);
    }
  }

  // ----- where what has arrived holds nothing stray -----

  /** Reading never takes an answer away, and adds one for each there is while there is none. */
  lemma {:induction false} NoAnswerCame(r: Router, lines: seq<Line>)
    ensures Drain(r, lines).replies == [] <==> r.replies == [] && Finals(lines) == 0
    decreases |lines|
  {
    if lines != [] {
      NoAnswerCame(Route(r, lines[0]), lines[1..]);
    }
  }

  lemma {:induction false} QuietIsSound(d: Connection)
    requires AtRest(d) && Clean(Drain(d.router, d.inbox)) && d.wrote == [] && d.spoke == [] && d.got == []
    ensures Sound(d)
  {
    NoAnswerCame(d.router, d.inbox);
    assert Sources(d.wrote) == [] && Answered(d.spoke) == [];
  }

  lemma {:induction false} QuietIsSafe(c: Connection, caller: Caller, src: string, steps: seq<Step>)
    requires AtRest(c) && Clean(Drain(c.router, c.inbox)) && Legal(Do(c, ExecWrites(caller, src)), steps)
    ensures OwnAnswer(After(Do(c, ExecWrites(caller, src)), steps), |c.got|, |c.spoke|, src)
  {
    hide Drain;
    var d := c.(wrote := [], spoke := [], got := []);
    var write := ExecWrites(caller, src);
    assert c.wrote + [] == c.wrote && c.spoke + [] == c.spoke && c.got + [] == c.got;
    assert c == Behind(c.wrote, c.spoke, c.got, d);
    StepBehind(c.wrote, c.spoke, c.got, d, write);
    var d1 := Do(d, write);
    RunBehind(c.wrote, c.spoke, c.got, d1, steps);
    QuietIsSound(d);
    StepKeeps(d, write);
    RunKeeps(d1, steps);
    Wrote(d1, steps);
    FirstIsOwn(d1, After(d1, steps), src);
  }

  lemma {:induction false} FirstIsOwn(d1: Connection, e: Connection, src: string)
    requires Sound(e) && |d1.wrote| == 1 && d1.wrote[0].1 == src && d1.wrote <= e.wrote
    ensures OwnAnswer(e, 0, 0, src)
  {
    if e.got != [] && e.got[0].1 != Lost {
      assert e.spoke[0].batch == Answered(e.spoke)[0] == Sources(e.wrote)[0] == e.wrote[0].1;
    }
  }

  // ----- where it does, a run that shows it -----

  function Times(step: Step, n: nat): seq<Step> {
    if n == 0 then [] else [step] + Times(step, n - 1)
  }

  lemma {:induction false} LegalOn(c: Connection, a: seq<Step>, b: seq<Step>)
    requires Legal(c, a) && Legal(After(c, a), b)
    ensures Legal(c, a + b) && After(c, a + b) == After(After(c, a), b)
    decreases |a|
  {
    hide Do, Enabled;
    if a == [] {
      assert a + b == b;
    } else {
      assert (a + b)[0] == a[0] && (a + b)[1..] == a[1..] + b;
      LegalOn(Do(c, a[0]), a[1..], b);
    }
  }

  lemma {:induction false} One(c: Connection, step: Step)
    requires Enabled(c, step)
    ensures Legal(c, [step]) && After(c, [step]) == Do(c, step)
  {
    hide Do, Enabled;
    assert [step][1..] == [];
  }

  lemma {:induction false} ReadsAll(c: Connection)
    requires !c.closed
    ensures var steps := Times(Reads, |c.inbox|);
            Legal(c, steps) && After(c, steps) == c.(inbox := [], router := Drain(c.router, c.inbox))
    decreases |c.inbox|
  {
    hide Route;
    if c.inbox != [] {
      var steps := Times(Reads, |c.inbox|);
      assert steps[0] == Reads && steps[1..] == Times(Reads, |c.inbox| - 1);
      ReadsAll(Do(c, Reads));
    }
  }

  /** The display takes everything up to the one batch there is. */
  lemma {:induction false} TakesAll(c: Connection, bare: seq<Written>, src: string)
    requires c.working.None? && c.outbox == bare + [Batch(src)] && Batches(bare) == []
    ensures var steps := Times(DisplayTakes, |bare| + 1);
            Legal(c, steps) && After(c, steps) == c.(outbox := [], working := Some((src, Said([], []))))
    decreases |bare|
  {
    var steps := Times(DisplayTakes, |bare| + 1);
    assert steps[0] == DisplayTakes && steps[1..] == Times(DisplayTakes, |bare|);
    if bare != [] {
      assert c.outbox[0] == bare[0] && c.outbox[1..] == bare[1..] + [Batch(src)];
      TakesAll(Do(c, DisplayTakes), bare[1..], src);
    } else {
      assert c.outbox == [Batch(src)] && c.outbox[1..] == [];
    }
  }

  lemma {:induction false} NeverLost(r: Router, lines: seq<Line>)
    requires Lost !in r.replies
    ensures Lost !in Drain(r, lines).replies
    decreases |lines|
  {
    if lines != [] {
      NeverLost(Route(r, lines[0]), lines[1..]);
    }
  }

  /** An answer left over is what the next request is told. */
  lemma {:induction false} StrayIsBelieved(c: Connection, caller: Caller, src: string) returns (steps: seq<Step>)
    requires AtRest(c) && Drain(c.router, c.inbox).replies != []
    ensures var w := Do(c, ExecWrites(caller, src));
            Legal(w, steps) && !OwnAnswer(After(w, steps), |c.got|, |c.spoke|, src)
  {
    hide Drain;
    var w := Do(c, ExecWrites(caller, src));
    var readings := Times(Reads, |w.inbox|);
    ReadsAll(w);
    NeverLost(c.router, c.inbox);
    One(After(w, readings), ExecReceives);
    LegalOn(w, readings, [ExecReceives]);
    steps := readings + [ExecReceives];
  }

  /** A description or a trouble left over is told as the next request's. */
  lemma {:induction false} LeftoverIsTold(c: Connection, caller: Caller, src: string) returns (steps: seq<Step>)
    requires AtRest(c)
    requires var r := Drain(c.router, c.inbox); r.replies == [] && (r.desc != [] || r.trouble != [])
    ensures var w := Do(c, ExecWrites(caller, src));
            Legal(w, steps) && !OwnAnswer(After(w, steps), |c.got|, |c.spoke|, src)
  {
    hide Drain;
    var w := Do(c, ExecWrites(caller, src));
    var readings, takes := Times(Reads, |w.inbox|), Times(DisplayTakes, |c.outbox| + 1);
    ReadsAll(w);
    var c1 := After(w, readings);
    TakesAll(c1, c.outbox, src);
    LegalOn(w, readings, takes);
    var c2 := After(c1, takes);
    var answer := DisplayAnswers(Reply(Some("")));
    One(c2, answer);
    LegalOn(w, readings + takes, [answer]);
    var c3 := Do(c2, answer);
    assert c3.inbox == [Reply(Some(""))];
    One(c3, Reads);
    LegalOn(w, readings + takes + [answer], [Reads]);
    var c4 := Do(c3, Reads);
    One(c4, ExecReceives);
    LegalOn(w, readings + takes + [answer] + [Reads], [ExecReceives]);
    steps := readings + takes + [answer] + [Reads] + [ExecReceives];
  }

  /** At rest, the next request is sure of its own answer, over every run from there,
      exactly when reading what has arrived would leave no answer, no description and no
      trouble behind. */
  lemma {:induction false} OwnAnswerExactly(c: Connection, caller: Caller, src: string)
    requires AtRest(c)
    ensures Clean(Drain(c.router, c.inbox))
       <==> forall steps {:trigger Legal(Do(c, ExecWrites(caller, src)), steps)} ::
              Legal(Do(c, ExecWrites(caller, src)), steps) ==>
              OwnAnswer(After(Do(c, ExecWrites(caller, src)), steps), |c.got|, |c.spoke|, src)
  {
    hide Drain, OwnAnswer;
    var w := Do(c, ExecWrites(caller, src));
    if Clean(Drain(c.router, c.inbox)) {
      forall steps {:trigger Legal(w, steps)} | Legal(w, steps)
        ensures OwnAnswer(After(w, steps), |c.got|, |c.spoke|, src)
      {
        QuietIsSafe(c, caller, src, steps);
      }
    } else if Drain(c.router, c.inbox).replies != [] {
      var steps := StrayIsBelieved(c, caller, src);
    } else {
      var steps := LeftoverIsTold(c, caller, src);
    }
  }
}
