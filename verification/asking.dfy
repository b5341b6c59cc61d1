/**
 Questions and their answers: the correlation keys an application mints, the handlers
 it holds under them, and the routing of what comes back.

 Asking, giving up and routing happen on different goroutines, so what is proved is
 about every interleaving of their steps: looking a handler up, letting it go when the
 answer completes, and calling it are three steps with anything allowed between them.
 */
module Asking {
  import opened Text

  // ----- the key -----

  function Digit36(d: nat): char
    requires d < 36
  {
    if d < 10 then '0' + d as char else 'a' + (d - 10) as char
  }

  function Base36(n: nat): string {
    if n < 36 then [Digit36(n)] else Base36(n / 36) + [Digit36(n % 36)]
  }

  /** What a statement's key and the answers to it say: a name and not a number. */
  function KeyOf(n: nat): string {
    "q" + Base36(n)
  }

  lemma {:induction false} Base36Injective(m: nat, n: nat)
    ensures Base36(m) == Base36(n) ==> m == n
    decreases m + n
  {
    if Base36(m) == Base36(n) {
      Base36Long(m);
      Base36Long(n);
      Base36Last(m);
      Base36Last(n);
      hide Base36, Digit36;
      DigitsDiffer(m % 36, n % 36);
      if m >= 36 {
        Base36Injective(m / 36, n / 36);
      }
    }
  }

  lemma {:induction false} Base36Last(n: nat)
    ensures var a := Base36(n);
            a != [] && a[|a| - 1] == Digit36(n % 36) && (n >= 36 ==> a[..|a| - 1] == Base36(n / 36))
  {}

  lemma {:induction false} DigitsDiffer(a: nat, b: nat)
    requires a < 36 && b < 36 && Digit36(a) == Digit36(b)
    ensures a == b
  {}

  lemma {:induction false} Base36Long(n: nat)
    ensures |Base36(n)| == 1 <==> n < 36
    ensures |Base36(n)| >= 1
  {
    if n >= 36 {
      Base36Long(n / 36);
    }
  }

  /** What a numeral in base 36 stands for, by the place of each digit among all of them. */
  function Numeral36(s: string): int {
    if s == "" then 0
    else
      var n := |s| - 1;
      36 * Numeral36(s[..n]) + DigitPlace(s[n])
  }

  const DIGITS36 := "0123456789abcdefghijklmnopqrstuvwxyz"

  function DigitPlace(c: char): int {
    if '0' <= c <= '9' then c as int - '0' as int else if 'a' <= c <= 'z' then c as int - 'a' as int + 10 else -1
  }

  lemma {:induction false} PlaceIs(k: nat)
    requires k < 36
    ensures DIGITS36[k] == Digit36(k) && DigitPlace(DIGITS36[k]) == k
  {}

  /** A key is its number, counted from 1, written in base 36 behind a letter. */
  lemma {:induction false} KeyReads(n: nat)
    ensures KeyOf(n)[0] == 'q' && Numeral36(KeyOf(n)[1..]) == n
    ensures forall c :: c in KeyOf(n)[1..] ==> c in DIGITS36
  {
    assert KeyOf(n)[1..] == Base36(n);
    NumeralReads(n);
  }

  lemma {:induction false} NumeralReads(n: nat)
    ensures Numeral36(Base36(n)) == n && forall c :: c in Base36(n) ==> c in DIGITS36
  {
    PlaceIs(n % 36);
    if n < 36 {
      assert Base36(n)[..0] == "";
    } else {
      NumeralReads(n / 36);
      Base36Last(n);
    }
  }

  lemma {:induction false} KeysDiffer(m: nat, n: nat)
    ensures KeyOf(m) == KeyOf(n) ==> m == n
    ensures KeyOf(m) != ""
  {
    assert KeyOf(m)[1..] == Base36(m) && KeyOf(n)[1..] == Base36(n);
    Base36Injective(m, n);
  }

  // ----- the steps -----

  /** Which function a caller passed; two are the same only if they are one. */
  type Handler = nat

  datatype Answer = Answer(to: string, complete: bool, text: string)

  datatype Call = Call(fn: Handler, answer: Answer)

  /** How far the answer in hand has been taken. */
  datatype Held = Idle | Found(call: Call) | LetGo(call: Call)

  datatype Asks = Asks(next: nat, on: map<string, Handler>, held: Held, calls: seq<Call>)

  datatype Step =
    | Ask(fn: Handler)
    | GiveUp(key: string)
    | LookUp(answer: Answer)
    | Settle
    | Run

  const NOTHING_ASKED := Asks(0, map[], Idle, [])

  /** Answers are routed one at a time, each to its end. */
  predicate Enabled(s: Asks, step: Step) {
    match step
    case LookUp(_) => s.held.Idle?
    case Settle => s.held.Found?
    case Run => s.held.LetGo?
    case _ => true
  }

  function Do(s: Asks, step: Step): Asks {
    match step
    case Ask(fn) => s.(next := s.next + 1, on := s.on[KeyOf(s.next + 1) := fn])
    case GiveUp(key) => s.(on := s.on - {key})
    case LookUp(a) => if a.to == "" || a.to !in s.on then s else s.(held := Found(Call(s.on[a.to], a)))
    case Settle =>
      if s.held.Idle? then s
      else s.(held := LetGo(s.held.call),
              on := if s.held.call.answer.complete then s.on - {s.held.call.answer.to} else s.on)
    case Run => if s.held.Idle? then s else s.(held := Idle, calls := s.calls + [s.held.call])
  }

  predicate Legal(s: Asks, steps: seq<Step>)
    decreases |steps|
  {
    steps == [] || (Enabled(s, steps[0]) && Legal(Do(s, steps[0]), steps[1..]))
  }

  function After(s: Asks, steps: seq<Step>): Asks
    decreases |steps|
  {
    if steps == [] then s else After(Do(s, steps[0]), steps[1..])
  }

  /** How many questions some steps ask. */
  function Questions(steps: seq<Step>): nat {
    if steps == [] then 0 else (if steps[0].Ask? then 1 else 0) + Questions(steps[1..])
  }

  /** A question's number is how many have been asked, it included, given up or not. */
  lemma {:induction false} QuestionsNumbered(before: seq<Step>, fn: Handler)
    ensures var s := After(NOTHING_ASKED, before);
            Do(s, Ask(fn)).on == s.on[KeyOf(Questions(before) + 1) := fn]
  {
    NumberedFrom(NOTHING_ASKED, before);
    hide After, Questions, KeyOf;
  }

  lemma {:induction false} NumberedFrom(s: Asks, steps: seq<Step>)
    ensures After(s, steps).next == s.next + Questions(steps)
    decreases |steps|
  {
    if steps != [] {
      NumberedFrom(Do(s, steps[0]), steps[1..]);
    }
  }

  // ----- the same steps as the program takes them -----

  class Asked {
    var on: map<string, Handler>
    var next: nat
    /** Every call made, in order. */
    var calls: seq<Call>

    constructor ()
      ensures Now() == NOTHING_ASKED
    {
      on, next, calls := map[], 0, [];
    }

    ghost function Now(): Asks
      reads this
    {
      Asks(next, on, Idle, calls)
    }

    method Key() returns (key: string)
      modifies this`next
      ensures next == old(next) + 1 && key == KeyOf(next)
    {
      next := next + 1;
      var digits, n := [], next;
      while n >= 36
        invariant Base36(next) == Base36(n) + digits
        decreases n
      {
        assert Base36(n) + digits == Base36(n / 36) + ([Digit36(n % 36)] + digits);
        digits, n := [Digit36(n % 36)] + digits, n / 36;
      }
      key := "q" + ([Digit36(n)] + digits);
    }

    method Want(key: string, fn: Handler)
      modifies this`on
      ensures on == old(on)[key := fn]
    {
      on := on[key := fn];
    }

    method Forget(key: string)
      modifies this`on
      ensures on == old(on) - {key}
    {
      on := on - {key};
    }

    /** Puts a question, and lets its handler go again if it could not be sent. */
    method AskFor(fn: Handler, sent: bool) returns (key: string)
      modifies this
      ensures key == KeyOf(old(next) + 1)
      ensures Now() == After(old(Now()), if sent then [Ask(fn)] else [Ask(fn), GiveUp(key)])
    {
      key := Key();
      Want(key, fn);
      ghost var s := Do(old(Now()), Ask(fn));
      assert Now() == s && After(old(Now()), [Ask(fn)]) == s;
      if !sent {
        Forget(key);
        assert [Ask(fn), GiveUp(key)][1..] == [GiveUp(key)];
        assert Now() == Do(s, GiveUp(key)) == After(s, [GiveUp(key)]);
      }
    }

    /** Routes one answer, with nothing else happening meanwhile. */
    method InboundAnswer(a: Answer)
      modifies this
      ensures Now() == After(old(Now()),
                             if a.to == "" || a.to !in old(on) then [LookUp(a)] else [LookUp(a), Settle, Run])
    {
      assert [LookUp(a), Settle, Run][1..] == [Settle, Run] && [Settle, Run][1..] == [Run];
      if a.to == "" || a.to !in on {
        return;
      }
      var fn := on[a.to];
      if a.complete {
        Forget(a.to);
      }
      calls := calls + [Call(fn, a)];
      ghost var s := Do(old(Now()), LookUp(a));
      assert Now() == Do(Do(s, Settle), Run);
    }
  }

  // ----- who is called with what -----

  function AnswersTo(steps: seq<Step>, key: string): seq<Answer> {
    if steps == [] then []
    else (if steps[0].LookUp? && steps[0].answer.to == key then [steps[0].answer] else []) + AnswersTo(steps[1..], key)
  }

  /** Up to and including the first that completes. */
  function UpToComplete(answers: seq<Answer>): seq<Answer> {
    if answers == [] then []
    else if answers[0].complete then [answers[0]]
    else [answers[0]] + UpToComplete(answers[1..])
  }

  predicate Completed(answers: seq<Answer>) {
    exists a :: a in answers && a.complete
  }

  function Calling(fn: Handler, answers: seq<Answer>): seq<Call> {
    if answers == [] then [] else [Call(fn, answers[0])] + Calling(fn, answers[1..])
  }

  function Quoting(calls: seq<Call>, key: string): seq<Call> {
    if calls == [] then []
    else (if calls[0].answer.to == key then [calls[0]] else []) + Quoting(calls[1..], key)
  }

  /** Every call made or about to be made with an answer quoting a key. */
  function CallsFor(s: Asks, key: string): seq<Call> {
    Quoting(if s.held.Idle? then s.calls else s.calls + [s.held.call], key)
  }

  lemma {:induction false} QuotingStep(calls: seq<Call>, key: string)
    requires calls != []
    ensures Quoting(calls, key) == (if calls[0].answer.to == key then [calls[0]] else []) + Quoting(calls[1..], key)
  {}

  lemma {:induction false} QuotingMore(calls: seq<Call>, c: Call, key: string)
    ensures Quoting(calls + [c], key) == Quoting(calls, key) + if c.answer.to == key then [c] else []
  {
    if calls == [] {
      assert calls + [c] == [c];
    } else {
      hide Quoting;
      assert (calls + [c])[0] == calls[0] && (calls + [c])[1..] == calls[1..] + [c];
      QuotingMore(calls[1..], c, key);
      QuotingStep(calls + [c], key);
      QuotingStep(calls, key);
      Regroup(if calls[0].answer.to == key then [calls[0]] else [], Quoting(calls[1..], key),
              if c.answer.to == key then [c] else []);
    }
  }

  lemma {:induction false} UpToMore(answers: seq<Answer>, a: Answer)
    ensures UpToComplete(answers + [a]) == UpToComplete(answers) + if Completed(answers) then [] else [a]
  {
    if answers == [] {
      assert answers + [a] == [a];
    } else {
      assert (answers + [a])[0] == answers[0] && (answers + [a])[1..] == answers[1..] + [a];
      UpToMore(answers[1..], a);
      assert Completed(answers) <==> answers[0].complete || Completed(answers[1..]) by {
        assert forall x :: x in answers <==> x == answers[0] || x in answers[1..];
      }
    }
  }

  lemma {:induction false} CallingMore(fn: Handler, answers: seq<Answer>, a: Answer)
    ensures Calling(fn, answers + [a]) == Calling(fn, answers) + [Call(fn, a)]
  {
    if answers == [] {
      assert answers + [a] == [a];
    } else {
      assert (answers + [a])[0] == answers[0] && (answers + [a])[1..] == answers[1..] + [a];
      CallingMore(fn, answers[1..], a);
    }
  }

  /** Keys yet to be minted are held by nobody and have been quoted to nobody. */
  ghost predicate Fresh(s: Asks) {
    && (forall n: nat {:trigger KeyOf(n)} :: n > s.next ==> KeyOf(n) !in s.on && CallsFor(s, KeyOf(n)) == [])
  }

  /** Where one question stands after these answers: its handler has been called with
      them as far as the first that completed, and is still held exactly until then. */
  ghost predicate Answered(s: Asks, n: nat, fn: Handler, answers: seq<Answer>) {
    && n <= s.next
    && CallsFor(s, KeyOf(n)) == Calling(fn, UpToComplete(answers))
    && (!Completed(answers) ==> KeyOf(n) in s.on && s.on[KeyOf(n)] == fn
                                && !(s.held.Found? && s.held.call.answer.complete && s.held.call.answer.to == KeyOf(n)))
    && (Completed(answers) ==>
          KeyOf(n) !in s.on
          || (s.held.Found? && s.held.call.answer.complete && s.held.call.answer.to == KeyOf(n)))
  }

  lemma {:induction false} StepKeepsFresh(s: Asks, step: Step)
    requires Fresh(s) && Enabled(s, step)
    ensures Fresh(Do(s, step))
  {
    hide KeyOf, Quoting;
    var s' := Do(s, step);
    forall n: nat | n > s'.next ensures KeyOf(n) !in s'.on && CallsFor(s', KeyOf(n)) == [] {
      KeysDiffer(n, s.next + 1);
      if step.LookUp? && s'.held.Found? {
        QuotingMore(s.calls, s'.held.call, KeyOf(n));
      }
    }
  }

  lemma {:induction false} StepKeepsAnswered(s: Asks, step: Step, n: nat, fn: Handler, answers: seq<Answer>)
    requires Answered(s, n, fn, answers) && Enabled(s, step) && step != GiveUp(KeyOf(n))
    ensures Answered(Do(s, step), n, fn, answers + AnswersTo([step], KeyOf(n)))
  {
    hide KeyOf, Quoting, Calling, UpToComplete;
    var key := KeyOf(n);
    var s' := Do(s, step);
    assert AnswersTo([step], key) == if step.LookUp? && step.answer.to == key then [step.answer] else [];
    KeysDiffer(n, s.next + 1);
    match step {
      case LookUp(a) =>
        if a.to == key {
          assert Completed(answers + [a]) <==> Completed(answers) || a.complete by {
            assert forall x :: x in answers + [a] <==> x in answers || x == a;
          }
          UpToMore(answers, a);
          CallingMore(fn, UpToComplete(answers), a);
          QuotingMore(s.calls, Call(fn, a), key);
          assert UpToComplete(answers) + [] == UpToComplete(answers);
        } else {
          assert answers + [] == answers;
          if s'.held.Found? {
            QuotingMore(s.calls, s'.held.call, key);
            assert Quoting(s.calls, key) + [] == Quoting(s.calls, key);
          }
        }
      case _ =>
        assert answers + [] == answers;
    }
  }

  lemma {:induction false} AnswersStep(steps: seq<Step>, key: string)
    requires steps != []
    ensures AnswersTo(steps, key) == AnswersTo([steps[0]], key) + AnswersTo(steps[1..], key)
  {
    assert [steps[0]][1..] == [];
  }

  lemma {:induction false} RunKeepsFresh(s: Asks, steps: seq<Step>)
    requires Fresh(s) && Legal(s, steps)
    ensures Fresh(After(s, steps))
    decreases |steps|
  {
    hide Fresh, Do;
    if steps != [] {
      StepKeepsFresh(s, steps[0]);
      RunKeepsFresh(Do(s, steps[0]), steps[1..]);
    }
  }

  lemma {:induction false} RunKeepsAnswered(s: Asks, steps: seq<Step>, n: nat, fn: Handler, answers: seq<Answer>)
    requires Answered(s, n, fn, answers) && Legal(s, steps) && GiveUp(KeyOf(n)) !in steps
    ensures Answered(After(s, steps), n, fn, answers + AnswersTo(steps, KeyOf(n)))
    decreases |steps|
  {
    hide Answered, Do, KeyOf, AnswersTo;
    if steps == [] {
      assert AnswersTo(steps, KeyOf(n)) == [] by { NoAnswers(KeyOf(n)); }
      assert answers + [] == answers;
    } else {
      var more := AnswersTo([steps[0]], KeyOf(n));
      StepKeepsAnswered(s, steps[0], n, fn, answers);
      RunKeepsAnswered(Do(s, steps[0]), steps[1..], n, fn, answers + more);
      AnswersStep(steps, KeyOf(n));
      Regroup(answers, more, AnswersTo(steps[1..], KeyOf(n)));
    }
  }

  lemma {:induction false} NoAnswers(key: string)
    ensures AnswersTo([], key) == []
  {}

  lemma {:induction false} JustAsked(s: Asks, fn: Handler)
    requires Fresh(s)
    ensures Answered(Do(s, Ask(fn)), s.next + 1, fn, [])
  {
    var s' := Do(s, Ask(fn));
    assert CallsFor(s', KeyOf(s.next + 1)) == CallsFor(s, KeyOf(s.next + 1)) == [];
    assert !Completed([]);
    if s.held.Found? && s.held.call.answer.to == KeyOf(s.next + 1) {
      QuotingMore(s.calls, s.held.call, KeyOf(s.next + 1));
      assert false;
    }
  }

  /** Whatever has been asked and answered before, and however the steps of other
      questions fall between: a question that is sent has its handler called, and no
      other, with exactly the answers that quote its key, in the order they arrived, up
      to and including the first that completes. */
  lemma {:induction false} CalledUntilComplete(before: seq<Step>, fn: Handler, after: seq<Step>)
    requires Legal(NOTHING_ASKED, before) && Legal(Do(After(NOTHING_ASKED, before), Ask(fn)), after)
    requires GiveUp(KeyOf(After(NOTHING_ASKED, before).next + 1)) !in after
    ensures var s := After(NOTHING_ASKED, before);
            var key := KeyOf(s.next + 1);
            CallsFor(After(Do(s, Ask(fn)), after), key) == Calling(fn, UpToComplete(AnswersTo(after, key)))
  {
    hide Do, KeyOf, Quoting, Calling, UpToComplete;
    NothingIsFresh();
    RunKeepsFresh(NOTHING_ASKED, before);
    var s := After(NOTHING_ASKED, before);
    JustAsked(s, fn);
    RunKeepsAnswered(Do(s, Ask(fn)), after, s.next + 1, fn, []);
    assert [] + AnswersTo(after, KeyOf(s.next + 1)) == AnswersTo(after, KeyOf(s.next + 1));
  }

  lemma {:induction false} NothingIsFresh()
    ensures Fresh(NOTHING_ASKED)
  {}

  /** A question that could not be sent has its handler let go for good: whatever quotes
      its key afterwards calls nobody. */
  lemma {:induction false} GivenUpIsSilent(s: Asks, n: nat, after: seq<Step>)
    requires n <= s.next && Legal(Do(s, GiveUp(KeyOf(n))), after)
    ensures CallsFor(After(Do(s, GiveUp(KeyOf(n))), after), KeyOf(n)) == CallsFor(s, KeyOf(n))
  {
    StaysSilent(Do(s, GiveUp(KeyOf(n))), n, after);
  }

  lemma {:induction false} StaysSilent(s: Asks, n: nat, steps: seq<Step>)
    requires n <= s.next && KeyOf(n) !in s.on && Legal(s, steps)
    ensures CallsFor(After(s, steps), KeyOf(n)) == CallsFor(s, KeyOf(n))
    decreases |steps|
  {
    hide KeyOf, Quoting;
    if steps != [] {
      var s' := Do(s, steps[0]);
      KeysDiffer(n, s.next + 1);
      if s'.held.Found? {
        QuotingMore(s.calls, s'.held.call, KeyOf(n));
        assert Quoting(s.calls, KeyOf(n)) + [] == Quoting(s.calls, KeyOf(n));
      }
      StaysSilent(s', n, steps[1..]);
    }
  }

  /** A handler about to be told its question is over is already not held, so a question
      it asks from there cannot be dropped by this one ending. */
  lemma {:induction false} ForgottenFirst(before: seq<Step>, a: Answer, between: seq<Step>)
    requires Legal(NOTHING_ASKED, before)
    requires var s := Do(After(NOTHING_ASKED, before), LookUp(a));
             s.held.Found? && a.complete && After(NOTHING_ASKED, before).held.Idle? && Legal(Do(s, Settle), between)
             && forall step :: step in between ==> step.Ask? || step.GiveUp?
    ensures var s := Do(Do(After(NOTHING_ASKED, before), LookUp(a)), Settle);
            a.to !in After(s, between).on
            && After(s, between).held == LetGo(Call(After(NOTHING_ASKED, before).on[a.to], a))
  {
    hide KeyOf;
    NothingMinted();
    RunKeepsMinted(NOTHING_ASKED, before);
    var s := After(NOTHING_ASKED, before);
    var n: nat :| n <= s.next && a.to == KeyOf(n);
    StillForgotten(Do(Do(s, LookUp(a)), Settle), n, between);
  }

  /** Every key held was minted. */
  ghost predicate Minted(s: Asks) {
    forall key :: key in s.on ==> exists n: nat {:trigger KeyOf(n)} :: n <= s.next && key == KeyOf(n)
  }

  lemma {:induction false} NothingMinted()
    ensures Minted(NOTHING_ASKED)
  {}

  lemma {:induction false} RunKeepsMinted(s: Asks, steps: seq<Step>)
    requires Minted(s)
    ensures Minted(After(s, steps))
    decreases |steps|
  {
    hide KeyOf;
    if steps != [] {
      var s' := Do(s, steps[0]);
      forall key | key in s'.on ensures exists n: nat {:trigger KeyOf(n)} :: n <= s'.next && key == KeyOf(n) {
        if key !in s.on {
          assert key == KeyOf(s'.next);
        }
      }
      RunKeepsMinted(s', steps[1..]);
    }
  }

  lemma {:induction false} StillForgotten(s: Asks, n: nat, steps: seq<Step>)
    requires n <= s.next && KeyOf(n) !in s.on
    requires forall step :: step in steps ==> step.Ask? || step.GiveUp?
    ensures KeyOf(n) !in After(s, steps).on && After(s, steps).held == s.held
    decreases |steps|
  {
    hide KeyOf;
    if steps != [] {
      KeysDiffer(n, s.next + 1);
      assert steps[0] in steps;
      StillForgotten(Do(s, steps[0]), n, steps[1..]);
    }
  }
}
