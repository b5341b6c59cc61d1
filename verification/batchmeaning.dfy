/**
 What a batch is answered with and what it makes happen, said of its statements alone:
 ids are counted off by the `new` statements, a name is one of them, and everything an
 accepted batch defers is deferred in its order.
 */
module BatchMeaning {
  import opened Text
  import opened Syntax
  import opened Query
  import opened Reader
  import opened DescriptorSpelling
  import opened Hosting
  import C = CHost
  import Go = GoHost

  // ----- counting -----

  /** How many queries some statements make. */
  function News(stmts: seq<Stmt>): nat {
    if stmts == [] then 0
    else
      var n := |stmts| - 1;
      News(stmts[..n]) + if stmts[n].verb == "new" then 1 else 0
  }

  predicate NamesQuery(st: Stmt, key: string) {
    st.verb == "new" && st.key == key
  }

  /** The first statement that makes a query of this name; past the end where none does. */
  function FirstUnder(stmts: seq<Stmt>, key: string): (i: nat)
    ensures i <= |stmts| && (i < |stmts| ==> NamesQuery(stmts[i], key))
    ensures forall j :: 0 <= j < i ==> !NamesQuery(stmts[j], key)
  {
    if stmts == [] then 0
    else
      var n := |stmts| - 1;
      var i := FirstUnder(stmts[..n], key);
      if i < n || NamesQuery(stmts[n], key) then i else n + 1
  }

  /** The last; past the end where none does. */
  function LastUnder(stmts: seq<Stmt>, key: string): (i: nat)
    ensures i <= |stmts| && (i < |stmts| ==> NamesQuery(stmts[i], key))
    ensures forall j :: 0 <= j < |stmts| && (i < j || i == |stmts|) ==> !NamesQuery(stmts[j], key)
  {
    if stmts == [] then 0
    else
      var n := |stmts| - 1;
      if NamesQuery(stmts[n], key) then n
      else
        var i := LastUnder(stmts[..n], key);
        if i < n then i else n + 1
  }

  /** The id of the query a statement makes: the last id before the batch, and so many on. */
  function IdMade(last: nat, stmts: seq<Stmt>, i: nat): nat
    requires i < |stmts|
  {
    last + News(stmts[..i + 1])
  }

  /** The names a batch gives, in order, and what each of them names. */
  function NamesGiven(last: nat, stmts: seq<Stmt>): seq<(string, nat)> {
    if stmts == [] then []
    else
      var n := |stmts| - 1;
      NamesGiven(last, stmts[..n])
      + if stmts[n].verb == "new" && stmts[n].key != "" then [(stmts[n].key, last + News(stmts))] else []
  }

  // ----- one statement more -----

  lemma {:induction false} CMore(h: C.Host, b: C.Batch, stmts: seq<Stmt>, st: Stmt)
    ensures C.RouteAll(h, b, stmts + [st]) ==
              var (h', b') := C.RouteAll(h, b, stmts); C.Route(h', b', st)
    decreases |stmts|
  {
    hide C.Route;
    if stmts == [] {
      assert stmts + [st] == [st] && [st][1..] == [];
      var (h', b') := C.Route(h, b, st);
      assert C.RouteAll(h', b', []) == (h', b');
    } else {
      assert (stmts + [st])[0] == stmts[0] && (stmts + [st])[1..] == stmts[1..] + [st];
      var (h', b') := C.Route(h, b, stmts[0]);
      CMore(h', b', stmts[1..], st);
    }
  }

  lemma {:induction false} GoMore(h: Go.Host, b: Go.Batch, stmts: seq<Stmt>, st: Stmt)
    ensures Go.RouteAll(h, b, stmts + [st]) ==
              var (h', b') := Go.RouteAll(h, b, stmts); Go.Route(h', b', st)
    decreases |stmts|
  {
    hide Go.Route;
    if stmts == [] {
      assert stmts + [st] == [st] && [st][1..] == [];
      var (h', b') := Go.Route(h, b, st);
      assert Go.RouteAll(h', b', []) == (h', b');
    } else {
      assert (stmts + [st])[0] == stmts[0] && (stmts + [st])[1..] == stmts[1..] + [st];
      var (h', b') := Go.Route(h, b, stmts[0]);
      GoMore(h', b', stmts[1..], st);
    }
  }

  // ----- what the Go client replies -----

  lemma {:induction false} GoStep(h: Go.Host, b: Go.Batch, st: Stmt)
    requires Go.Route(h, b, st).1.failed.None?
    ensures var (h', b') := Go.Route(h, b, st);
            && b.failed.None?
            && h'.last == h.last + (if st.verb == "new" then 1 else 0)
            && b'.keys == if st.verb == "new" && st.key != "" then b.keys[st.key := h'.last] else b.keys
  {
    hide ReadScope, ReadDescriptor, BareId, BareKey;
  }

  /** What one statement fewer leaves of ids and of where names were given. */
  lemma {:induction false} IdsBefore(last: nat, stmts: seq<Stmt>, i: nat)
    requires i < |stmts|
    ensures var n := |stmts| - 1;
            IdMade(last, stmts, i) == if i < n then IdMade(last, stmts[..n], i) else last + News(stmts)
  {
    hide News;
    var n := |stmts| - 1;
    assert i < n ==> stmts[..n][..i + 1] == stmts[..i + 1];
    assert i == n ==> stmts[..n + 1] == stmts;
  }

  lemma {:induction false} UnderBefore(stmts: seq<Stmt>, key: string)
    requires stmts != []
    ensures var n := |stmts| - 1;
            var i, j := LastUnder(stmts[..n], key), FirstUnder(stmts[..n], key);
            && LastUnder(stmts, key) == (if NamesQuery(stmts[n], key) then n else if i < n then i else n + 1)
            && FirstUnder(stmts, key) == if j < n || NamesQuery(stmts[n], key) then j else n + 1
  {}

  /** The keys of an accepted batch: one for each name it gives, for the last query given it. */
  ghost predicate LastNames(keys: map<string, nat>, last: nat, stmts: seq<Stmt>) {
    && (forall key {:trigger LastUnder(stmts, key)} ::
          key in keys <==> key != "" && LastUnder(stmts, key) < |stmts|)
    && (forall key {:trigger LastUnder(stmts, key)} ::
          key in keys ==> keys[key] == IdMade(last, stmts, LastUnder(stmts, key)))
  }

  lemma {:induction false} LastNamesMore(keys: map<string, nat>, last: nat, stmts: seq<Stmt>)
    requires stmts != [] && LastNames(keys, last, stmts[..|stmts| - 1])
    ensures var st := stmts[|stmts| - 1];
            var now := if st.verb == "new" && st.key != "" then keys[st.key := last + News(stmts)] else keys;
            LastNames(now, last, stmts)
  {
    var n := |stmts| - 1;
    var st := stmts[n];
    var now := if st.verb == "new" && st.key != "" then keys[st.key := last + News(stmts)] else keys;
    hide LastUnder, IdMade, News;
    forall key {:trigger LastUnder(stmts, key)}
      ensures key in now <==> key != "" && LastUnder(stmts, key) < |stmts|
      ensures key in now ==> now[key] == IdMade(last, stmts, LastUnder(stmts, key))
    {
      UnderBefore(stmts, key);
      assert LastUnder(stmts[..n], key) <= n;
      if LastUnder(stmts, key) < |stmts| {
        IdsBefore(last, stmts, LastUnder(stmts, key));
      }
    }
  }

  lemma {:induction false} NoNames(last: nat)
    ensures LastNames(Go.NEW_BATCH.keys, last, [])
  {}

  lemma {:induction false} GoNames(h: Go.Host, stmts: seq<Stmt>)
    requires Go.RouteAll(h, Go.NEW_BATCH, stmts).1.failed.None?
    ensures var (h', b') := Go.RouteAll(h, Go.NEW_BATCH, stmts);
            h'.last == h.last + News(stmts) && LastNames(b'.keys, h.last, stmts)
  {
    hide Go.Route, LastNames;
    if stmts == [] {
      NoNames(h.last);
    } else {
      hide Go.RouteAll;
      var n := |stmts| - 1;
      assert stmts == stmts[..n] + [stmts[n]];
      GoMore(h, Go.NEW_BATCH, stmts[..n], stmts[n]);
      var (h1, b1) := Go.RouteAll(h, Go.NEW_BATCH, stmts[..n]);
      GoStep(h1, b1, stmts[n]);
      GoNames(h, stmts[..n]);
      LastNamesMore(b1.keys, h.last, stmts);
    }
  }

  /** An accepted batch is answered with one id for each name it gives: that of the last
      query it gave the name. */
  lemma {:induction false} GoReplies(h: Go.Host, stmts: seq<Stmt>)
    requires Go.RouteAll(h, Go.NEW_BATCH, stmts).1.failed.None?
    ensures var e := Go.BatchEvents(h, stmts)[0];
            && e.Reply?
            && (forall key :: key in e.ids <==> key != "" && LastUnder(stmts, key) < |stmts|)
            && (forall key :: key in e.ids ==> e.ids[key] == IdMade(h.last, stmts, LastUnder(stmts, key)))
  {
    hide Go.RouteAll, Go.RanAll, LastUnder, IdMade;
    GoNames(h, stmts);
  }

  // ----- what the C client replies -----

  lemma {:induction false} CStep(h: C.Host, b: C.Batch, st: Stmt)
    requires C.Route(h, b, st).1.fault.None?
    ensures var (h', b') := C.Route(h, b, st);
            && b.fault.None?
            && h'.last == h.last + (if st.verb == "new" then 1 else 0)
            && b'.keys == b.keys + if st.verb == "new" && st.key != "" then [(st.key, h'.last)] else []
  {
    hide ReadScope, ReadDescriptor, BareId, BareKey, C.QueryWith, C.Without;
    assert b.keys + [] == b.keys;
  }

  lemma {:induction false} CNames(h: C.Host, stmts: seq<Stmt>)
    requires C.RouteAll(h, C.NEW_BATCH, stmts).1.fault.None?
    ensures var (h', b') := C.RouteAll(h, C.NEW_BATCH, stmts);
            h'.last == h.last + News(stmts) && b'.keys == NamesGiven(h.last, stmts)
  {
    if stmts != [] {
      hide C.RouteAll, C.Route;
      var n := |stmts| - 1;
      assert stmts == stmts[..n] + [stmts[n]];
      CMore(h, C.NEW_BATCH, stmts[..n], stmts[n]);
      var (h1, b1) := C.RouteAll(h, C.NEW_BATCH, stmts[..n]);
      CStep(h1, b1, stmts[n]);
      CNames(h, stmts[..n]);
    }
  }

  /** An accepted batch is answered with its names in order, each with the id it was given. */
  lemma {:induction false} CReplies(h: C.Host, stmts: seq<Stmt>)
    requires C.RouteAll(h, C.NEW_BATCH, stmts).1.fault.None?
    ensures C.BatchEvents(h, stmts)[0] == C.Reply(NamesGiven(h.last, stmts))
  {
    hide C.RouteAll, C.RanAll, NamesGiven;
    CNames(h, stmts);
  }

  /** In both clients a refused batch is answered with its refusal. */
  lemma {:induction false} RefusedIsError(hc: C.Host, hg: Go.Host, stmts: seq<Stmt>)
    ensures var why := C.RouteAll(hc, C.NEW_BATCH, stmts).1.fault;
            why.Some? ==> C.BatchEvents(hc, stmts)[0] == C.Error(why.value)
    ensures var why := Go.RouteAll(hg, Go.NEW_BATCH, stmts).1.failed;
            why.Some? ==> Go.BatchEvents(hg, stmts)[0] == Go.Error(why.value)
  {
    hide C.RouteAll, Go.RouteAll, C.RanAll, Go.RanAll;
  }

  // ----- what an accepted batch defers -----

  /** Something deferred: which query, and what about it. */
  datatype Deferral =
    | Fill(id: nat, asked: Asked)
    | Drop(id: nat)
    | Other(id: nat, stmt: Stmt)

  function DeferralOf(j: Job): Deferral {
    match j
    case FillJob(q, asked) => Fill(q.id, asked)
    case DropJob(q) => Drop(q.id)
    case OtherJob(q, stmt) => Other(q.id, stmt)
  }

  function Deferrals(jobs: seq<Job>): seq<Deferral> {
    if jobs == [] then [] else [DeferralOf(jobs[0])] + Deferrals(jobs[1..])
  }

  /** What the C client takes a statement to be about: the id it opens with, or the first
      query above it given the name it opens with; 0 for nothing. */
  function AboutC(last: nat, above: seq<Stmt>, st: Stmt): nat {
    if BareId(st).Some? then BareId(st).value
    else if BareKey(st).Some? && BareKey(st).value != "" && FirstUnder(above, BareKey(st).value) < |above|
    then IdMade(last, above, FirstUnder(above, BareKey(st).value))
    else 0
  }

  /** What each statement of an accepted batch defers, in order. */
  function DeferredC(last: nat, stmts: seq<Stmt>): seq<Deferral> {
    if stmts == [] then []
    else
      var n := |stmts| - 1;
      var st, above := stmts[n], stmts[..n];
      DeferredC(last, above)
      + match Deferring(st, AboutC(last, above, st), last + News(stmts))
        case Some(d) => [d]
        case None => []
  }

  lemma {:induction false} DeferralsMore(jobs: seq<Job>, j: Job)
    ensures Deferrals(jobs + [j]) == Deferrals(jobs) + [DeferralOf(j)]
  {
    if jobs == [] {
      assert jobs + [j] == [j] && [j][1..] == [];
    } else {
      assert (jobs + [j])[0] == jobs[0] && (jobs + [j])[1..] == jobs[1..] + [j];
      DeferralsMore(jobs[1..], j);
    }
  }

  lemma {:induction false} KeyNamedMore(keys: seq<(string, nat)>, k: (string, nat), name: string)
    requires forall x :: x in keys ==> x.1 > 0
    ensures C.KeyNamed(keys + [k], name) ==
              if C.KeyNamed(keys, name) != 0 then C.KeyNamed(keys, name) else if k.0 == name then k.1 else 0
  {
    if keys == [] {
      assert keys + [k] == [k] && [k][1..] == [];
    } else {
      assert keys[0] in keys && (keys + [k])[1..] == keys[1..] + [k];
      KeyNamedMore(keys[1..], k, name);
    }
  }

  /** Looking a name up in what has been given finds the first query given it. */
  lemma {:induction false} NameIsFirst(last: nat, stmts: seq<Stmt>, name: string)
    ensures forall x :: x in NamesGiven(last, stmts) ==> x.1 > 0
    ensures C.KeyNamed(NamesGiven(last, stmts), name) ==
              if name != "" && FirstUnder(stmts, name) < |stmts|
              then IdMade(last, stmts, FirstUnder(stmts, name)) else 0
    ensures FirstUnder(stmts, name) < |stmts| ==> IdMade(last, stmts, FirstUnder(stmts, name)) > 0
  {
    if stmts != [] {
      hide C.KeyNamed, FirstUnder, IdMade;
      var n := |stmts| - 1;
      NameIsFirst(last, stmts[..n], name);
      UnderBefore(stmts, name);
      assert FirstUnder(stmts[..n], name) <= n;
      if FirstUnder(stmts, name) < |stmts| {
        IdsBefore(last, stmts, FirstUnder(stmts, name));
      }
      hide News;
      var before := NamesGiven(last, stmts[..n]);
      if stmts[n].verb == "new" && stmts[n].key != "" {
        MadeSome(stmts);
        KeyNamedMore(before, (stmts[n].key, last + News(stmts)), name);
      } else {
        assert before + [] == before;
        if stmts[n].verb == "new" {
          MadeSome(stmts);
        }
      }
    } else {
      assert C.KeyNamed([], name) == 0;
    }
  }

  lemma {:induction false} MadeSome(stmts: seq<Stmt>)
    requires stmts != [] && stmts[|stmts| - 1].verb == "new"
    ensures News(stmts) > 0
  {}

  /** What one statement defers, by what it is about. */
  function Deferring(st: Stmt, about: nat, made: nat): Option<Deferral> {
    if st.verb == "new" then
      if st.args != [] && ReadScope(st.args[1..]).Ok? then Some(Fill(made, ReadScope(st.args[1..]).value)) else None
    else if about == 0 then None
    else if st.verb == "destroy" then Some(Drop(about))
    else Some(Other(about, st))
  }

  lemma {:induction false} CDefers(h: C.Host, b: C.Batch, st: Stmt)
    requires C.Route(h, b, st).1.fault.None?
    ensures var b' := C.Route(h, b, st).1;
            match Deferring(st, C.Target(st, b.keys), h.last + 1)
            case None => b'.jobs == b.jobs
            case Some(d) => exists j: Job :: DeferralOf(j) == d && b'.jobs == b.jobs + [j]
  {
    hide ReadScope, ReadDescriptor, BareId, BareKey, C.QueryWith, C.Without, C.Target;
    if st.verb == "new" {
      var q := HostedQuery(h.last + 1, OpeningOf(st, h.sources.Keys).d.source, OpeningOf(st, h.sources.Keys).d);
      var j := FillJob(q, ReadScope(st.args[1..]).value);
      assert DeferralOf(j) == Fill(h.last + 1, ReadScope(st.args[1..]).value);
    } else if C.Target(st, b.keys) != 0 {
      C.QueryWithIn(h.queries, C.Target(st, b.keys));
      var q := C.QueryWith(h.queries, C.Target(st, b.keys)).value;
      assert DeferralOf(DropJob(q)) == Drop(q.id) && DeferralOf(OtherJob(q, st)) == Other(q.id, st);
    }
  }

  /** An accepted batch defers exactly what its statements say, in their order. */
  lemma {:induction false} CBatchDefers(h: C.Host, stmts: seq<Stmt>)
    requires C.RouteAll(h, C.NEW_BATCH, stmts).1.fault.None?
    ensures Deferrals(C.RouteAll(h, C.NEW_BATCH, stmts).1.jobs) == DeferredC(h.last, stmts)
  {
    if stmts != [] {
      hide C.RouteAll, C.Route, C.Target, Deferrals, Deferring, AboutC, News;
      var n := |stmts| - 1;
      var st := stmts[n];
      assert stmts == stmts[..n] + [st];
      CMore(h, C.NEW_BATCH, stmts[..n], st);
      var (h1, b1) := C.RouteAll(h, C.NEW_BATCH, stmts[..n]);
      CStep(h1, b1, st);
      CBatchDefers(h, stmts[..n]);
      CNames(h, stmts[..n]);
      DefersOneMore(h1, b1, st, h.last, stmts);
    }
  }

  lemma {:induction false} DefersOneMore(h: C.Host, b: C.Batch, st: Stmt, last: nat, stmts: seq<Stmt>)
    requires stmts != [] && st == stmts[|stmts| - 1] && C.Route(h, b, st).1.fault.None?
    requires b.keys == NamesGiven(last, stmts[..|stmts| - 1]) && h.last == last + News(stmts[..|stmts| - 1])
    requires Deferrals(b.jobs) == DeferredC(last, stmts[..|stmts| - 1])
    ensures Deferrals(C.Route(h, b, st).1.jobs) == DeferredC(last, stmts)
  {
    hide C.Route, C.Target, Deferrals, Deferring, AboutC, NamesGiven;
    var above, jobs := stmts[..|stmts| - 1], C.Route(h, b, st).1.jobs;
    CDefers(h, b, st);
    AboutIsTarget(last, above, st);
    var about := C.Target(st, b.keys);
    MadeOnlyByNew(st, about, h.last + 1, last + News(stmts));
    var d := Deferring(st, about, h.last + 1);
    if d.Some? {
      var j: Job :| DeferralOf(j) == d.value && jobs == b.jobs + [j];
      DeferralsMore(b.jobs, j);
    } else {
      assert DeferredC(last, above) + [] == DeferredC(last, above);
    }
  }

  lemma {:induction false} MadeOnlyByNew(st: Stmt, about: nat, a: nat, b: nat)
    requires st.verb == "new" ==> a == b
    ensures Deferring(st, about, a) == Deferring(st, about, b)
  {}

  lemma {:induction false} AboutIsTarget(last: nat, above: seq<Stmt>, st: Stmt)
    ensures C.Target(st, NamesGiven(last, above)) == AboutC(last, above, st)
  {
    hide BareId, BareKey, C.KeyNamed, NamesGiven;
    if BareKey(st).Some? {
      NameIsFirst(last, above, BareKey(st).value);
    }
  }

  // ----- what a batch makes happen in the C client -----

  /** What can happen about a query once its batch has been answered. */
  datatype Happening = AFill | AFailure | ADrop | APass

  function Happens(e: C.Event, kind: Happening): Option<nat> {
    match (e, kind)
    case (Filled(id), AFill) => Some(id)
    case (FillFailed(id), AFailure) => Some(id)
    case (Dropped(id), ADrop) => Some(id)
    case (Passed(id), APass) => Some(id)
    case _ => None
  }

  function Happened(es: seq<C.Event>, kind: Happening): seq<nat> {
    if es == [] then []
    else (match Happens(es[0], kind) case Some(id) => [id] case None => []) + Happened(es[1..], kind)
  }

  /** Whether a deferral comes to such a happening, in a batch accepted or refused. */
  predicate Brings(sources: map<string, C.Callbacks>, j: Job, accepted: bool, kind: Happening) {
    var name := j.q.source;
    match kind
    case AFill => j.FillJob? && accepted && name in sources && sources[name].fill
    case AFailure => j.FillJob? && !(accepted && name in sources && sources[name].fill)
    case ADrop => j.DropJob? && name in sources && sources[name].dropped
    case APass => j.OtherJob? && name in sources && sources[name].other
  }

  function Brought(sources: map<string, C.Callbacks>, jobs: seq<Job>, accepted: bool, kind: Happening): seq<nat> {
    if jobs == [] then []
    else (if Brings(sources, jobs[0], accepted, kind) then [jobs[0].q.id] else [])
         + Brought(sources, jobs[1..], accepted, kind)
  }

  lemma {:induction false} HappenedConcat(a: seq<C.Event>, b: seq<C.Event>, kind: Happening)
    ensures Happened(a + b, kind) == Happened(a, kind) + Happened(b, kind)
  {
    hide Happens;
    if a == [] {
      assert a + b == b;
    } else {
      assert (a + b)[0] == a[0] && (a + b)[1..] == a[1..] + b;
      HappenedConcat(a[1..], b, kind);
    }
  }

  lemma {:induction false} OneHappens(sources: map<string, C.Callbacks>, j: Job, accepted: bool, kind: Happening)
    ensures Happened(C.Ran(sources, j, accepted), kind) ==
              if Brings(sources, j, accepted, kind) then [j.q.id] else []
  {
    var es := C.Ran(sources, j, accepted);
    assert es != [] ==> es[1..] == [];
  }

  lemma {:induction false} AllHappen(sources: map<string, C.Callbacks>, jobs: seq<Job>, accepted: bool, kind: Happening)
    ensures Happened(C.RanAll(sources, jobs, accepted), kind) == Brought(sources, jobs, accepted, kind)
  {
    hide C.Ran, Brings;
    if jobs != [] {
      OneHappens(sources, jobs[0], accepted, kind);
      HappenedConcat(C.Ran(sources, jobs[0], accepted), C.RanAll(sources, jobs[1..], accepted), kind);
      AllHappen(sources, jobs[1..], accepted, kind);
    }
  }

  /** Everything a batch makes happen after its answer: each fill deferred is filled where
      the batch was accepted and its source has a filler, and failed anywhere else; each
      drop and each statement passed on reaches the sources that want it; in order. */
  lemma {:induction false} BatchHappens(h: C.Host, stmts: seq<Stmt>, kind: Happening)
    ensures var b := C.RouteAll(h, C.NEW_BATCH, stmts).1;
            Happened(C.BatchEvents(h, stmts)[1..], kind) == Brought(h.sources, b.jobs, b.fault.None?, kind)
  {
    hide C.RouteAll, C.RanAll, C.AnswerOf;
    var b := C.RouteAll(h, C.NEW_BATCH, stmts).1;
    assert C.BatchEvents(h, stmts)[1..] == C.RanAll(h.sources, b.jobs, b.fault.None?);
    AllHappen(h.sources, b.jobs, b.fault.None?, kind);
  }

  function Fills(jobs: seq<Job>): seq<nat> {
    if jobs == [] then [] else (if jobs[0].FillJob? then [jobs[0].q.id] else []) + Fills(jobs[1..])
  }

  /** A refused batch fills nothing, and fails every fill it had deferred. */
  lemma {:induction false} RefusedFillsNothing(h: C.Host, stmts: seq<Stmt>)
    requires C.RouteAll(h, C.NEW_BATCH, stmts).1.fault.Some?
    ensures var es := C.BatchEvents(h, stmts)[1..];
            Happened(es, AFill) == [] && Happened(es, AFailure) == Fills(C.RouteAll(h, C.NEW_BATCH, stmts).1.jobs)
  {
    BatchHappens(h, stmts, AFill);
    BatchHappens(h, stmts, AFailure);
    NoneAccepted(h.sources, C.RouteAll(h, C.NEW_BATCH, stmts).1.jobs);
  }

  lemma {:induction false} NoneAccepted(sources: map<string, C.Callbacks>, jobs: seq<Job>)
    ensures Brought(sources, jobs, false, AFill) == [] && Brought(sources, jobs, false, AFailure) == Fills(jobs)
  {
    if jobs != [] {
      NoneAccepted(sources, jobs[1..]);
    }
  }

  // ----- what an accepted batch makes happen in the Go client -----

  /** The source a statement asks to be served from. */
  function SourceAsked(st: Stmt): string {
    if st.args == [] then ""
    else match ReadDescriptor(st.args[1..])
      case Ok(d) => d.source
      case Refused(_) => ""
  }

  /** The source a query is of: one there was, or one the statements make. */
  function SourceOf(h: Go.Host, stmts: seq<Stmt>, id: nat): string {
    if stmts == [] then if id in h.queries then h.queries[id].source else ""
    else
      var n := |stmts| - 1;
      if stmts[n].verb == "new" && id == h.last + News(stmts) then SourceAsked(stmts[n])
      else SourceOf(h, stmts[..n], id)
  }

  /** What the Go client takes a statement to be about: the id it opens with, or the last
      query above it given the name it opens with; 0 for nothing. */
  function AboutGo(last: nat, above: seq<Stmt>, st: Stmt): nat {
    if BareId(st).Some? then BareId(st).value
    else if BareKey(st).Some? && BareKey(st).value != "" && LastUnder(above, BareKey(st).value) < |above|
    then IdMade(last, above, LastUnder(above, BareKey(st).value))
    else 0
  }

  /** Whether a source's handlers want to hear of a thing; a filler there always is. */
  predicate Wants(sources: map<string, Go.Handlers>, source: string, d: Deferral) {
    match d
    case Fill(_, _) => true
    case Drop(_) => source in sources && sources[source].dropped
    case Other(_, _) => source in sources && sources[source].other
  }

  /** What each statement of an accepted batch defers, in order. */
  function DeferredGo(h: Go.Host, stmts: seq<Stmt>): seq<Deferral> {
    if stmts == [] then []
    else
      var n := |stmts| - 1;
      var st, above := stmts[n], stmts[..n];
      var about := AboutGo(h.last, above, st);
      DeferredGo(h, above)
      + match Deferring(st, about, h.last + News(stmts))
        case Some(d) => if Wants(h.sources, SourceOf(h, above, about), d) then [d] else []
        case None => []
  }

  /** What doing a deferred thing makes happen. */
  function Heard(d: Deferral): Go.Event {
    match d
    case Fill(id, _) => Go.Filled(id)
    case Drop(id) => Go.Dropped(id)
    case Other(id, _) => Go.Passed(id)
  }

  function AllHeard(ds: seq<Deferral>): seq<Go.Event> {
    if ds == [] then [] else [Heard(ds[0])] + AllHeard(ds[1..])
  }

  lemma {:induction false} RanIsHeard(jobs: seq<Job>)
    ensures Go.RanAll(jobs) == AllHeard(Deferrals(jobs))
  {
    if jobs != [] {
      RanIsHeard(jobs[1..]);
      assert Deferrals(jobs)[0] == DeferralOf(jobs[0]) && Deferrals(jobs)[1..] == Deferrals(jobs[1..]);
    }
  }

  /** Every query served is of the source the statements so far say it is. */
  ghost predicate Sourced(h: Go.Host, now: Go.Host, stmts: seq<Stmt>) {
    forall id :: id in now.queries ==> now.queries[id].source == SourceOf(h, stmts, id)
  }

  /** What one statement does to the queries. */
  lemma {:induction false} GoQueries(h: Go.Host, b: Go.Batch, st: Stmt)
    requires Go.Ordered(h) && Go.Route(h, b, st).1.failed.None?
    ensures var h' := Go.Route(h, b, st).0;
            && Go.Ordered(h') && h'.sources == h.sources
            && forall id :: id in h'.queries ==>
                 if id in h.queries then h'.queries[id] == h.queries[id]
                 else st.verb == "new" && id == h.last + 1 && h'.queries[id].source == SourceAsked(st)
  {
    Go.InboundKeeps(h, b.keys, st);
    hide ReadScope, ReadDescriptor, BareId, BareKey;
  }

  lemma {:induction false} SourcesMore(h: Go.Host, h1: Go.Host, b: Go.Batch, stmts: seq<Stmt>)
    requires stmts != [] && Go.Ordered(h1) && Sourced(h, h1, stmts[..|stmts| - 1])
    requires h1.last == h.last + News(stmts[..|stmts| - 1])
    requires Go.Route(h1, b, stmts[|stmts| - 1]).1.failed.None?
    ensures Sourced(h, Go.Route(h1, b, stmts[|stmts| - 1]).0, stmts)
  {
    GoQueries(h1, b, stmts[|stmts| - 1]);
    hide Go.Route, SourceAsked;
  }

  lemma {:induction false} TargetIsAbout(keys: map<string, nat>, last: nat, above: seq<Stmt>, st: Stmt)
    requires LastNames(keys, last, above)
    ensures AboutGo(last, above, st) != 0 ==> Go.Target(st, keys) == Some(AboutGo(last, above, st))
    ensures Go.Target(st, keys).Some? ==> Go.Target(st, keys) == Some(AboutGo(last, above, st))
  {
    hide BareId, BareKey, LastUnder, IdMade;
    if BareKey(st).Some? {
      var key := BareKey(st).value;
      assert key in keys <==> key != "" && LastUnder(above, key) < |above|;
    }
  }

  lemma {:induction false} GoDefers(h: Go.Host, b: Go.Batch, st: Stmt, about: nat)
    requires Go.Ordered(h) && Go.Route(h, b, st).1.failed.None?
    requires about != 0 ==> Go.Target(st, b.keys) == Some(about)
    requires Go.Target(st, b.keys).Some? ==> Go.Target(st, b.keys) == Some(about)
    ensures st.verb != "new" && about != 0 ==> about in h.queries
    ensures var b', d := Go.Route(h, b, st).1, Deferring(st, about, h.last + 1);
            if d.Some? && (st.verb == "new" || Wants(h.sources, h.queries[about].source, d.value))
            then exists j: Job :: DeferralOf(j) == d.value && b'.jobs == b.jobs + [j]
            else b'.jobs == b.jobs
  {
    hide ReadScope, ReadDescriptor, BareId, BareKey, Go.Target;
    assert b.jobs + [] == b.jobs;
    if st.verb == "new" {
      var d := OpeningOf(st, h.sources.Keys).d;
      var j := FillJob(HostedQuery(h.last + 1, d.source, d), ReadScope(st.args[1..]).value);
      assert DeferralOf(j) == Fill(h.last + 1, ReadScope(st.args[1..]).value);
    } else if about != 0 {
      var q := h.queries[about];
      assert DeferralOf(DropJob(q)) == Drop(q.id) && DeferralOf(OtherJob(q, st)) == Other(q.id, st);
    }
  }

  lemma {:induction false} GoBatchDefers(h: Go.Host, stmts: seq<Stmt>)
    requires Go.Ordered(h) && Go.RouteAll(h, Go.NEW_BATCH, stmts).1.failed.None?
    ensures var (h', b') := Go.RouteAll(h, Go.NEW_BATCH, stmts);
            && Go.Ordered(h') && h'.sources == h.sources && Sourced(h, h', stmts)
            && Deferrals(b'.jobs) == DeferredGo(h, stmts)
  {
    if stmts != [] {
      hide Go.RouteAll, Go.Route, Go.Ordered, Sourced, Deferrals, DeferredGo, News, LastNames;
      var n := |stmts| - 1;
      var st := stmts[n];
      assert stmts == stmts[..n] + [st];
      GoMore(h, Go.NEW_BATCH, stmts[..n], st);
      var (h1, b1) := Go.RouteAll(h, Go.NEW_BATCH, stmts[..n]);
      GoStep(h1, b1, st);
      GoBatchDefers(h, stmts[..n]);
      GoNames(h, stmts[..n]);
      SourcesMore(h, h1, b1, stmts);
      GoQueries(h1, b1, st);
      GoDefersMore(h, h1, b1, stmts);
    }
  }

  lemma {:induction false} GoDefersMore(h: Go.Host, h1: Go.Host, b: Go.Batch, stmts: seq<Stmt>)
    requires stmts != [] && Go.Ordered(h1) && h1.sources == h.sources && Sourced(h, h1, stmts[..|stmts| - 1])
    requires h1.last == h.last + News(stmts[..|stmts| - 1]) && LastNames(b.keys, h.last, stmts[..|stmts| - 1])
    requires Go.Route(h1, b, stmts[|stmts| - 1]).1.failed.None?
    requires Deferrals(b.jobs) == DeferredGo(h, stmts[..|stmts| - 1])
    ensures Deferrals(Go.Route(h1, b, stmts[|stmts| - 1]).1.jobs) == DeferredGo(h, stmts)
  {
    hide Go.Route, Go.Target, Go.Ordered, Deferrals, LastNames, AboutGo, SourceOf;
    var n := |stmts| - 1;
    var st, above, jobs := stmts[n], stmts[..n], Go.Route(h1, b, stmts[n]).1.jobs;
    var about := AboutGo(h.last, above, st);
    TargetIsAbout(b.keys, h.last, above, st);
    GoDefers(h1, b, st, about);
    var d := Deferring(st, about, h1.last + 1);
    MadeOnlyByNew(st, about, h1.last + 1, h.last + News(stmts));
    hide Deferring;
    assert d.Some? && st.verb == "new" ==> Wants(h.sources, SourceOf(h, above, about), d.value);
    assert Deferrals(b.jobs) + [] == Deferrals(b.jobs);
    if d.Some? && Wants(h.sources, SourceOf(h, above, about), d.value) {
      var j: Job :| DeferralOf(j) == d.value && jobs == b.jobs + [j];
      DeferralsMore(b.jobs, j);
    }
  }

  /** Everything an accepted batch makes happen in the Go client after its answer, in order:
      a fill for each `new`, and for each statement about a query what the handlers of that
      query's source want to hear. */
  lemma {:induction false} GoBatchHappens(h: Go.Host, stmts: seq<Stmt>)
    requires Go.Ordered(h) && Go.RouteAll(h, Go.NEW_BATCH, stmts).1.failed.None?
    ensures Go.BatchEvents(h, stmts)[1..] == AllHeard(DeferredGo(h, stmts))
  {
    GoBatchDefers(h, stmts);
    hide Go.RouteAll, Go.RanAll, Go.AnswerOf, DeferredGo, Deferrals;
    RanIsHeard(Go.RouteAll(h, Go.NEW_BATCH, stmts).1.jobs);
  }

  /** And a refused batch stops none of what it deferred. */
  lemma {:induction false} GoRunsAll(h: Go.Host, stmts: seq<Stmt>)
    ensures Go.BatchEvents(h, stmts)[1..] == AllHeard(Deferrals(Go.RouteAll(h, Go.NEW_BATCH, stmts).1.jobs))
  {
    hide Go.RouteAll, Go.RanAll, Go.AnswerOf, Deferrals;
    RanIsHeard(Go.RouteAll(h, Go.NEW_BATCH, stmts).1.jobs);
  }

  // ----- how a statement is addressed, and what `new` asks for -----

  /** A statement is addressed by an id or by a name where it opens with one bare. */
  lemma {:induction false} Addressed(key: string, verb: string, id: Int64, name: string, more: seq<Arg>)
    ensures BareId(Stmt(key, verb, [Operand(Int(id))] + more)) == if id >= 0 then Some(id) else None
    ensures BareKey(Stmt(key, verb, [Operand(Int(id))] + more)) == None
    ensures BareKey(Stmt(key, verb, [Bare(name)] + more)) == Some(name)
    ensures BareId(Stmt(key, verb, [Bare(name)] + more)) == None
    ensures BareId(Stmt(key, verb, [])) == None && BareKey(Stmt(key, verb, [])) == None
  {}

  /** A `new` is a query's exactly when it says so bare and its descriptor can be read and
      names a source that is served; each other one has its own refusal. */
  lemma {:induction false} OpeningIs(st: Stmt, sources: set<string>)
    ensures var o := OpeningOf(st, sources);
            var bare := st.args != [] && st.args[0].value.None? && st.args[0].flag == Asserted;
            && (o == Faulty(ExpectedType) <==> !bare)
            && (forall name :: o == Faulty(HostsNoSuch(name)) <==> bare && name == st.args[0].name && name != "query")
            && (bare && st.args[0].name == "query" ==>
                  var r := ReadDescriptor(st.args[1..]);
                  && (forall why :: r == Refused(why) ==> o == Faulty(BadQuery(why)))
                  && (forall d :: r == Ok(d) ==>
                        o == if d.source in sources then Opened(d) else Faulty(ServesNoSuch(d.source))))
  {
    hide ReadDescriptor;
  }

  /** In either client a statement about a live query is refused only where it asks for
      one made already or would change it; one about a query that is not live always is, and
      one about none never. */
  lemma {:induction false} AddressingIs(hc: C.Host, bc: C.Batch, hg: Go.Host, bg: Go.Batch, st: Stmt)
    requires st.verb != "new" && bc.fault.None? && bg.failed.None?
    ensures var id, why := C.Target(st, bc.keys), C.Route(hc, bc, st).1.fault;
            var live := exists q :: q in hc.queries && q.id == id;
            && (id == 0 ==> why.None?)
            && (id != 0 && !live ==> why == Some(NoQueryOfMine(st.verb, id)))
            && (id != 0 && live ==> why == AskedOfLive(st.verb))
    ensures var about, why := Go.Target(st, bg.keys), Go.Route(hg, bg, st).1.failed;
            && (about.None? ==> why.None?)
            && (about.Some? && about.value !in hg.queries ==> why == Some(NoQueryOfMine(st.verb, about.value)))
            && (about.Some? && about.value in hg.queries ==> why == AskedOfLive(st.verb))
  {
    hide BareId, BareKey, C.Target, Go.Target;
    var id := C.Target(st, bc.keys);
    C.QueryWithIn(hc.queries, id);
  }

  function AskedOfLive(verb: string): Option<Fault> {
    if verb == "query" then Some(AskedWhenMade) else if verb == "set" then Some(DoesNotChange) else None
  }

  /** A printed `new query` whose source is served is accepted by both clients: the query
      it makes has what was printed, and the fill deferred has the scope. */
  lemma {:induction false} QueryServed(hc: C.Host, bc: C.Batch, hg: Go.Host, key: string, d: Descriptor, s: Scope)
    requires SpellableDescriptor(d) && SpellableScope(s) && bc.fault.None?
    requires d.source in hc.sources && d.source in hg.sources
    ensures var st := Stmt(key, "new", [Bare("query")] + (DescriptorArgs(d) + ScopeArgs(s)));
            var (hc', bc') := C.Route(hc, bc, st);
            var q := HostedQuery(hc.last + 1, d.source, d);
            && bc'.fault.None? && hc' == hc.(queries := hc.queries + [q], last := q.id)
            && bc'.jobs == bc.jobs + [FillJob(q, Asked(s, false))]
    ensures var st := Stmt(key, "new", [Bare("query")] + (DescriptorArgs(d) + ScopeArgs(s)));
            var r := Go.Inbound(hg, map[], st);
            var q := HostedQuery(hg.last + 1, d.source, d);
            && r.why.None? && r.host == hg.(queries := hg.queries[q.id := q], last := q.id)
            && r.jobs == [FillJob(q, Asked(s, false))]
  {
    hide ReadScope, ReadDescriptor, DescriptorArgs, ScopeArgs, SpellableDescriptor, SpellableScope;
    var args := DescriptorArgs(d) + ScopeArgs(s);
    BothRead(d, s);
    assert ([Bare("query")] + args)[1..] == args;
  }
}
