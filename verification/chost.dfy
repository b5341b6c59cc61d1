/**
 The C client's side of a query: `batch_open`, `batch_one` and `run_batch`.

 A batch is routed until something in it is refused, answered, and then every job
 it deferred is run, whether it was refused or not. The source frees a query when
 its drop job runs; `released` keeps count of that, and what is proved is that no
 job ever runs on a query already freed and that each is freed exactly once.
 */
module CHost {
  import opened Text
  import opened Syntax
  import opened Query
  import opened Reader
  import opened Hosting

  /** Which of a source's three callbacks are set. */
  datatype Callbacks = Callbacks(fill: bool, dropped: bool, other: bool)

  function CallbacksOf(sources: map<string, Callbacks>, name: string): Callbacks {
    if name in sources then sources[name] else Callbacks(false, false, false)
  }

  /** What is being served, under which ids, and the last id minted. */
  datatype Host = Host(sources: map<string, Callbacks>, queries: seq<HostedQuery>, last: nat)

  /** What a batch has come to so far: the keys it surfaced, newest last, and its jobs. */
  datatype Batch = Batch(keys: seq<(string, nat)>, jobs: seq<Job>, fault: Option<Fault>)

  const NEW_BATCH := Batch([], [], None)

  function QueryWith(qs: seq<HostedQuery>, id: nat): Option<HostedQuery> {
    if qs == [] then None else if qs[0].id == id then Some(qs[0]) else QueryWith(qs[1..], id)
  }

  function KeyNamed(keys: seq<(string, nat)>, name: string): nat {
    if keys == [] then 0 else if keys[0].0 == name then keys[0].1 else KeyNamed(keys[1..], name)
  }

  /** `hosted_target`: 0 when a statement is addressed to nothing. */
  function Target(st: Stmt, keys: seq<(string, nat)>): nat {
    if BareId(st).Some? then BareId(st).value
    else if BareKey(st).Some? then KeyNamed(keys, BareKey(st).value)
    else 0
  }

  /** The table with one query taken out: the last one moves into its place. */
  function Without(qs: seq<HostedQuery>, id: nat): seq<HostedQuery> {
    if qs == [] then []
    else if qs[0].id == id then (if |qs| == 1 then [] else [qs[|qs| - 1]] + qs[1..|qs| - 1])
    else [qs[0]] + Without(qs[1..], id)
  }

  function Fail(h: Host, b: Batch, why: Fault): (Host, Batch) {
    (h, b.(fault := Some(why)))
  }

  /** A query is named, registered, and asked for its first scope. One whose scope will
      not read stays registered although the batch is refused. */
  function Open(h: Host, b: Batch, st: Stmt): (Host, Batch) {
    match OpeningOf(st, h.sources.Keys)
    case Faulty(why) => Fail(h, b, why)
    case Opened(d) =>
      var q := HostedQuery(h.last + 1, d.source, d);
      var h' := h.(queries := h.queries + [q], last := h.last + 1);
      match ReadScope(st.args[1..])
      case Refused(why) => Fail(h', b, BadQuery(why))
      case Ok(asked) =>
        (h', b.(jobs := b.jobs + [FillJob(q, asked)],
                keys := if st.key == "" then b.keys else b.keys + [(st.key, q.id)]))
  }

  function Address(h: Host, b: Batch, st: Stmt, q: HostedQuery): (Host, Batch) {
    if st.verb == "query" then Fail(h, b, AskedWhenMade)
    else if st.verb == "set" then Fail(h, b, DoesNotChange)
    else if st.verb == "destroy" then
      (h.(queries := Without(h.queries, q.id)), b.(jobs := b.jobs + [DropJob(q)]))
    else (h, b.(jobs := b.jobs + [OtherJob(q, st)]))
  }

  /** One statement of a batch; once one has been refused the rest are passed over. */
  function Route(h: Host, b: Batch, st: Stmt): (Host, Batch) {
    if b.fault.Some? then (h, b)
    else if st.verb == "new" then Open(h, b, st)
    else
      var id := Target(st, b.keys);
      if id == 0 then (h, b)
      else match QueryWith(h.queries, id)
        case None => Fail(h, b, NoQueryOfMine(st.verb, id))
        case Some(q) => Address(h, b, st, q)
  }

  function RouteAll(h: Host, b: Batch, stmts: seq<Stmt>): (Host, Batch)
    decreases |stmts|
  {
    if stmts == [] then (h, b)
    else
      var (h', b') := Route(h, b, stmts[0]);
      RouteAll(h', b', stmts[1..])
  }

  // ----- what a batch makes happen -----

  datatype Event =
    | Reply(ids: seq<(string, nat)>)
    | Error(why: Fault)
    | Filled(id: nat)
    | FillFailed(id: nat)
    | Dropped(id: nat)
    | Passed(id: nat)

  function AnswerOf(b: Batch): Event {
    if b.fault.Some? then Error(b.fault.value) else Reply(b.keys)
  }

  /** What a job makes happen. A sink that is not filled is failed; a callback that is
      not set is not called. */
  function Ran(sources: map<string, Callbacks>, j: Job, ok: bool): seq<Event> {
    var on := CallbacksOf(sources, j.q.source);
    match j
    case FillJob(q, _) => [if ok && on.fill then Filled(q.id) else FillFailed(q.id)]
    case DropJob(q) => if on.dropped then [Dropped(q.id)] else []
    case OtherJob(q, _) => if on.other then [Passed(q.id)] else []
  }

  function RanAll(sources: map<string, Callbacks>, jobs: seq<Job>, ok: bool): seq<Event> {
    if jobs == [] then [] else Ran(sources, jobs[0], ok) + RanAll(sources, jobs[1..], ok)
  }

  /** One answer, and then everything the batch deferred. */
  function BatchEvents(h: Host, stmts: seq<Stmt>): seq<Event> {
    var (_, b) := RouteAll(h, NEW_BATCH, stmts);
    [AnswerOf(b)] + RanAll(h.sources, b.jobs, b.fault.None?)
  }

  function AfterBatch(h: Host, stmts: seq<Stmt>): Host {
    RouteAll(h, NEW_BATCH, stmts).0
  }

  // ----- ids -----

  predicate Live(h: Host, id: nat) {
    QueryWith(h.queries, id).Some?
  }

  predicate DistinctIds(qs: seq<HostedQuery>) {
    forall i, j :: 0 <= i < j < |qs| ==> qs[i].id != qs[j].id
  }

  predicate IdsBelow(qs: seq<HostedQuery>, last: nat) {
    forall q :: q in qs ==> 0 < q.id <= last
  }

  function Drops(jobs: seq<Job>): set<nat> {
    set j | j in jobs && j.DropJob? :: j.q.id
  }

  /** Nothing is deferred on a query after its drop. */
  predicate NothingAfterDrop(jobs: seq<Job>) {
    forall i, j :: 0 <= i < j < |jobs| && jobs[i].DropJob? ==> jobs[j].q.id != jobs[i].q.id
  }

  /** Every id ever minted is live, about to be dropped, or already freed, and only
      one of them; every job is on a query that has not been freed. */
  ghost predicate Accounted(h: Host, jobs: seq<Job>, released: set<nat>) {
    && DistinctIds(h.queries) && IdsBelow(h.queries, h.last)
    && NothingAfterDrop(jobs)
    && (forall j :: j in jobs ==> 0 < j.q.id <= h.last && j.q.id !in released)
    && (forall id: nat {:trigger Live(h, id)} :: Live(h, id) ==> id !in released && id !in Drops(jobs))
    && (forall id: nat {:trigger Live(h, id)} ::
          0 < id <= h.last ==> Live(h, id) || id in released || id in Drops(jobs))
    && (forall id :: id in released ==> 0 < id <= h.last)
  }

  lemma {:induction false} QueryWithIn(qs: seq<HostedQuery>, id: nat)
    ensures QueryWith(qs, id).Some? ==> QueryWith(qs, id).value in qs && QueryWith(qs, id).value.id == id
    ensures QueryWith(qs, id).None? ==> forall q :: q in qs ==> q.id != id
  {
    if qs != [] {
      QueryWithIn(qs[1..], id);
      assert forall q :: q in qs ==> q == qs[0] || q in qs[1..];
    }
  }

  lemma {:induction false} LiveIsListed(h: Host, id: nat)
    ensures Live(h, id) <==> exists q :: q in h.queries && q.id == id
  {
    QueryWithIn(h.queries, id);
  }

  lemma {:induction false} WithoutFacts(qs: seq<HostedQuery>, id: nat)
    requires DistinctIds(qs)
    ensures DistinctIds(Without(qs, id))
    ensures forall q :: q in Without(qs, id) <==> q in qs && q.id != id
  {
    if qs != [] {
      var rest := qs[1..];
      assert forall i :: 0 < i < |qs| ==> qs[i] == rest[i - 1];
      assert DistinctIds(rest);
      if qs[0].id == id {
        MovedLast(qs);
        assert forall q :: q in qs ==> q == qs[0] || q in rest;
        forall q | q in rest ensures q.id != id {
          var k :| 0 <= k < |rest| && rest[k] == q;
          assert qs[k + 1] == q;
        }
      } else {
        WithoutFacts(rest, id);
        var w := Without(rest, id);
        forall i, j | 0 <= i < j < |[qs[0]] + w| ensures ([qs[0]] + w)[i].id != ([qs[0]] + w)[j].id {
          if i == 0 {
            assert w[j - 1] in rest;
            var k :| 0 <= k < |rest| && rest[k] == w[j - 1];
            assert qs[k + 1] == w[j - 1];
          }
        }
        assert forall q :: q in qs <==> q == qs[0] || q in rest;
        assert forall q :: q in [qs[0]] + w <==> q == qs[0] || q in w;
      }
    }
  }

  /** Taking the last out of the tail and putting it first keeps the same queries. */
  lemma {:induction false} MovedLast(qs: seq<HostedQuery>)
    requires qs != [] && DistinctIds(qs)
    ensures var w := Without(qs, qs[0].id);
            DistinctIds(w) && forall q :: q in w <==> q in qs[1..]
  {
    var w := Without(qs, qs[0].id);
    var n := |qs| - 1;
    if n > 0 {
      assert w == [qs[n]] + qs[1..n];
      assert forall i :: 0 < i < n ==> w[i] == qs[i];
      assert forall q :: q in w <==> q == qs[n] || q in qs[1..n];
      assert qs[1..] == qs[1..n] + [qs[n]];
    }
  }

  lemma {:induction false} DropsMore(jobs: seq<Job>, j: Job)
    ensures Drops(jobs + [j]) == Drops(jobs) + (if j.DropJob? then {j.q.id} else {})
  {
    assert forall x :: x in jobs + [j] <==> x in jobs || x == j;
  }

  /** One more job, on a query that has neither been freed nor is about to be. */
  lemma {:induction false} DeferKeeps(h: Host, jobs: seq<Job>, released: set<nat>, j: Job)
    requires Accounted(h, jobs, released) && Live(h, j.q.id) && 0 < j.q.id <= h.last && !j.DropJob?
    ensures Accounted(h, jobs + [j], released)
  {
    DropsMore(jobs, j);
    forall a, b | 0 <= a < b < |jobs + [j]| && (jobs + [j])[a].DropJob?
      ensures (jobs + [j])[b].q.id != (jobs + [j])[a].q.id
    {
      assert jobs[a] in jobs;
      if b == |jobs| {
        assert jobs[a].q.id in Drops(jobs);
      }
    }
  }

  lemma {:induction false} DropKeeps(h: Host, jobs: seq<Job>, released: set<nat>, q: HostedQuery)
    requires Accounted(h, jobs, released) && QueryWith(h.queries, q.id) == Some(q)
    ensures Accounted(h.(queries := Without(h.queries, q.id)), jobs + [DropJob(q)], released)
  {
    var h' := h.(queries := Without(h.queries, q.id));
    var j := DropJob(q);
    QueryWithIn(h.queries, q.id);
    WithoutFacts(h.queries, q.id);
    DropsMore(jobs, j);
    assert Live(h, q.id);
    forall id: nat ensures Live(h', id) <==> Live(h, id) && id != q.id {
      LiveIsListed(h, id);
      LiveIsListed(h', id);
    }
    forall a, b | 0 <= a < b < |jobs + [j]| && (jobs + [j])[a].DropJob?
      ensures (jobs + [j])[b].q.id != (jobs + [j])[a].q.id
    {
      assert jobs[a] in jobs;
      if b == |jobs| {
        assert jobs[a].q.id in Drops(jobs);
      }
    }
  }

  lemma {:induction false} MintKeeps(h: Host, jobs: seq<Job>, released: set<nat>, q: HostedQuery)
    requires Accounted(h, jobs, released) && q.id == h.last + 1
    ensures Accounted(h.(queries := h.queries + [q], last := h.last + 1), jobs, released)
    ensures Live(h.(queries := h.queries + [q], last := h.last + 1), q.id)
  {
    var h' := h.(queries := h.queries + [q], last := h.last + 1);
    forall i, j | 0 <= i < j < |h'.queries| ensures h'.queries[i].id != h'.queries[j].id {
      assert h.queries[i] in h.queries;
    }
    forall id: nat ensures Live(h', id) <==> Live(h, id) || id == q.id {
      LiveIsListed(h, id);
      LiveIsListed(h', id);
      assert forall x :: x in h'.queries <==> x in h.queries || x == q;
    }
    assert q.id !in Drops(jobs);
  }

  lemma {:induction false} RouteKeeps(h: Host, b: Batch, st: Stmt, released: set<nat>)
    requires Accounted(h, b.jobs, released)
    ensures var (h', b') := Route(h, b, st); Accounted(h', b'.jobs, released)
  {
    hide Accounted, Live, ReadScope, OpeningOf, Without;
    if b.fault.None? {
      if st.verb == "new" {
        OpenKeeps(h, b, st, released);
      } else {
        var id := Target(st, b.keys);
        QueryWithIn(h.queries, id);
        if id != 0 && QueryWith(h.queries, id).Some? {
          AddressKeeps(h, b, st, QueryWith(h.queries, id).value, released);
        }
      }
    }
  }

  lemma {:induction false} OpenKeeps(h: Host, b: Batch, st: Stmt, released: set<nat>)
    requires Accounted(h, b.jobs, released)
    ensures var (h', b') := Open(h, b, st); Accounted(h', b'.jobs, released)
  {
    hide Accounted, Live, ReadScope, ReadDescriptor;
    var o := OpeningOf(st, h.sources.Keys);
    if o.Opened? {
      var q := HostedQuery(h.last + 1, o.d.source, o.d);
      MintKeeps(h, b.jobs, released, q);
      var h' := h.(queries := h.queries + [q], last := h.last + 1);
      if ReadScope(st.args[1..]).Ok? {
        DeferKeeps(h', b.jobs, released, FillJob(q, ReadScope(st.args[1..]).value));
      }
    }
  }

  lemma {:induction false} AddressKeeps(h: Host, b: Batch, st: Stmt, q: HostedQuery, released: set<nat>)
    requires Accounted(h, b.jobs, released) && QueryWith(h.queries, q.id) == Some(q)
    ensures var (h', b') := Address(h, b, st, q); Accounted(h', b'.jobs, released)
  {
    QueryWithIn(h.queries, q.id);
    assert Live(h, q.id);
    if st.verb == "destroy" {
      DropKeeps(h, b.jobs, released, q);
    } else if st.verb != "query" && st.verb != "set" {
      DeferKeeps(h, b.jobs, released, OtherJob(q, st));
    }
  }

  lemma {:induction false} WithoutHere(qs: seq<HostedQuery>, id: nat, i: nat)
    requires i < |qs| && qs[i].id == id && qs[..i] + Without(qs[i..], id) == Without(qs, id)
    ensures var n := |qs| - 1;
            Without(qs, id) == if i == n then qs[..n] else qs[..i] + [qs[n]] + qs[i + 1..n]
  {
    var n := |qs| - 1;
    if i < n {
      assert qs[i..][1..n - i] == qs[i + 1..n];
    }
  }

  lemma {:induction false} WithoutStep(qs: seq<HostedQuery>, id: nat, i: nat)
    requires i < |qs| && qs[i].id != id && qs[..i] + Without(qs[i..], id) == Without(qs, id)
    ensures qs[..i + 1] + Without(qs[i + 1..], id) == Without(qs, id)
  {
    assert qs[i..][1..] == qs[i + 1..];
  }

  // ----- the host, as it runs -----

  lemma {:induction false} SourcesStay(h: Host, b: Batch, stmts: seq<Stmt>)
    ensures RouteAll(h, b, stmts).0.sources == h.sources
    decreases |stmts|
  {
    if stmts != [] {
      var (h', b') := Route(h, b, stmts[0]);
      SourcesStay(h', b', stmts[1..]);
    }
  }

  class Runner {
    const sources: map<string, Callbacks>
    var queries: seq<HostedQuery>
    var last: nat
    var log: seq<Event>
    /** The ids of the queries that have been freed. */
    ghost var released: set<nat>

    constructor (sources: map<string, Callbacks>)
      ensures Valid() && Now() == Host(sources, [], 0) && log == [] && released == {}
    {
      this.sources, queries, last, log, released := sources, [], 0, [], {};
    }

    ghost function Now(): Host
      reads this
    {
      Host(sources, queries, last)
    }

    ghost predicate Valid()
      reads this
    {
      Accounted(Now(), [], released)
    }

    /** `batch_open` and `batch_scope`. */
    method OpenQuery(b: Batch, st: Stmt) returns (b': Batch)
      requires b.fault.None?
      modifies this`queries, this`last
      ensures (Now(), b') == Open(old(Now()), b, st)
    {
      hide ReadScope, ReadDescriptor;
      if st.args == [] || st.args[0].value.Some? || st.args[0].flag != Asserted {
        return b.(fault := Some(ExpectedType));
      }
      if st.args[0].name != "query" {
        return b.(fault := Some(HostsNoSuch(st.args[0].name)));
      }
      var descriptor := ReadDescriptor(st.args[1..]);
      if descriptor.Refused? {
        return b.(fault := Some(BadQuery(descriptor.why)));
      }
      var d := descriptor.value;
      if d.source !in sources {
        return b.(fault := Some(ServesNoSuch(d.source)));
      }
      last := last + 1;
      var q := HostedQuery(last, d.source, d);
      queries := queries + [q];
      var scope := ReadScope(st.args[1..]);
      if scope.Refused? {
        return b.(fault := Some(BadQuery(scope.why)));
      }
      b' := b.(jobs := b.jobs + [FillJob(q, scope.value)]);
      if st.key != "" {
        b' := b'.(keys := b'.keys + [(st.key, q.id)]);
      }
    }

    method Find(id: nat) returns (q: Option<HostedQuery>)
      ensures q == QueryWith(queries, id)
    {
      assert queries[0..] == queries;
      for i := 0 to |queries|
        invariant QueryWith(queries[i..], id) == QueryWith(queries, id)
      {
        assert queries[i..][1..] == queries[i + 1..];
        if queries[i].id == id {
          return Some(queries[i]);
        }
      }
      q := None;
    }

    /** Takes a query out of the table; the last one moves into its place. */
    method Remove(id: nat)
      modifies this`queries
      ensures queries == Without(old(queries), id)
    {
      assert queries[0..] == queries && [] + Without(queries, id) == Without(queries, id);
      for i := 0 to |queries|
        invariant queries == old(queries)
        invariant queries[..i] + Without(queries[i..], id) == Without(queries, id)
      {
        ghost var all := queries;
        var n := |queries| - 1;
        if queries[i].id == id {
          WithoutHere(queries, id, i);
          queries := if i == n then queries[..n] else queries[..i] + [queries[n]] + queries[i + 1..n];
          return;
        }
        WithoutStep(queries, id, i);
      }
      assert queries[..|queries|] + [] == queries;
    }

    /** `batch_one`: routes one statement, or says why not. */
    method RouteOne(b: Batch, st: Stmt) returns (b': Batch)
      requires b.fault.None?
      modifies this`queries, this`last
      ensures (Now(), b') == Route(old(Now()), b, st)
    {
      hide Open, Without;
      if st.verb == "new" {
        b' := OpenQuery(b, st);
        return;
      }
      var id := Target(st, b.keys);
      if id == 0 {
        return b;
      }
      var found := Find(id);
      if found.None? {
        return b.(fault := Some(NoQueryOfMine(st.verb, id)));
      }
      var q := found.value;
      QueryWithIn(queries, id);
      if st.verb == "query" {
        b' := b.(fault := Some(AskedWhenMade));
      } else if st.verb == "set" {
        b' := b.(fault := Some(DoesNotChange));
      } else if st.verb == "destroy" {
        Remove(q.id);
        b' := b.(jobs := b.jobs + [DropJob(q)]);
      } else {
        b' := b.(jobs := b.jobs + [OtherJob(q, st)]);
      }
    }

    /** Runs one job. What it reads of its query has to be there still. */
    method RunJob(j: Job, ok: bool)
      requires j.q.id !in released
      modifies this`log, this`released
      ensures log == old(log) + Ran(sources, j, ok)
      ensures released == old(released) + if j.DropJob? then {j.q.id} else {}
    {
      var on := CallbacksOf(sources, j.q.source);
      assert log + [] == log;
      match j {
        case FillJob(q, _) =>
          log := log + [if ok && on.fill then Filled(q.id) else FillFailed(q.id)];
        case DropJob(q) =>
          if on.dropped {
            log := log + [Dropped(q.id)];
          }
          released := released + {q.id};
        case OtherJob(q, _) =>
          if on.other {
            log := log + [Passed(q.id)];
          }
      }
    }

    /** Routes a batch until something in it is refused, answers it, and then runs what
        it deferred. Each query dropped by it is freed here, having been freed by nothing
        before. */
    method RunBatch(stmts: seq<Stmt>)
      requires Valid()
      modifies this
      ensures Valid()
      ensures Now() == AfterBatch(old(Now()), stmts)
      ensures log == old(log) + BatchEvents(old(Now()), stmts)
      ensures var jobs := RouteAll(old(Now()), NEW_BATCH, stmts).1.jobs;
              Drops(jobs) !! old(released) && released == old(released) + Drops(jobs)
    {
      hide Route, Accounted, Ran, CallbacksOf;
      var b := NEW_BATCH;
      assert stmts[0..] == stmts;
      for i := 0 to |stmts|
        invariant RouteAll(Now(), b, stmts[i..]) == RouteAll(old(Now()), NEW_BATCH, stmts)
        invariant Accounted(Now(), b.jobs, released)
        invariant log == old(log) && released == old(released)
      {
        assert stmts[i..][1..] == stmts[i + 1..];
        RouteKeeps(Now(), b, stmts[i], released);
        if b.fault.None? {
          b := RouteOne(b, stmts[i]);
        } else {
          PassedOver(Now(), b, stmts[i]);
        }
      }
      var ok := b.fault.None?;
      log := log + [if ok then Reply(b.keys) else Error(b.fault.value)];
      RunJobs(b.jobs, ok);
      Settled(Now(), b.jobs, old(released));
      SourcesStay(old(Now()), NEW_BATCH, stmts);
      Regroup(old(log), [AnswerOf(b)], RanAll(sources, b.jobs, ok));
    }

    lemma {:induction false} PassedOver(h: Host, b: Batch, st: Stmt)
      requires b.fault.Some?
      ensures Route(h, b, st) == (h, b)
    {}

    method RunJobs(jobs: seq<Job>, ok: bool)
      requires Accounted(Now(), jobs, released)
      modifies this`log, this`released
      ensures log == old(log) + RanAll(sources, jobs, ok)
      ensures released == old(released) + Drops(jobs)
    {
      hide Ran;
      assert jobs[0..] == jobs;
      assert old(log) + RanAll(sources, jobs, ok) == log + RanAll(sources, jobs[0..], ok);
      for i := 0 to |jobs|
        invariant log + RanAll(sources, jobs[i..], ok) == old(log) + RanAll(sources, jobs, ok)
        invariant released == old(released) + Drops(jobs[..i])
      {
        NotYetFreed(jobs, i, old(released));
        assert jobs[i..][1..] == jobs[i + 1..];
        Regroup(log, Ran(sources, jobs[i], ok), RanAll(sources, jobs[i + 1..], ok));
        RunJob(jobs[i], ok);
        assert jobs[..i + 1] == jobs[..i] + [jobs[i]];
        DropsMore(jobs[..i], jobs[i]);
      }
      assert jobs[..|jobs|] == jobs;
      assert log + [] == log;
    }

    lemma {:induction false} NotYetFreed(jobs: seq<Job>, i: nat, was: set<nat>)
      requires i < |jobs| && NothingAfterDrop(jobs) && forall j :: j in jobs ==> j.q.id !in was
      ensures jobs[i].q.id !in was + Drops(jobs[..i])
    {
      forall j | j in jobs[..i] && j.DropJob? ensures j.q.id != jobs[i].q.id {
        var k :| 0 <= k < i && jobs[k] == j;
      }
    }

    lemma {:induction false} Settled(h: Host, jobs: seq<Job>, was: set<nat>)
      requires Accounted(h, jobs, was)
      ensures Accounted(h, [], was + Drops(jobs)) && Drops(jobs) !! was
    {
      assert Drops([]) == {};
    }
  }

  // ----- over every run of batches -----

  function AfterBatches(h: Host, batches: seq<seq<Stmt>>): Host
    decreases |batches|
  {
    if batches == [] then h else AfterBatches(AfterBatch(h, batches[0]), batches[1..])
  }

  /** Runs every batch a display sends. At the end every id minted is live or has been
      freed, and not both. */
  method RunBatches(sources: map<string, Callbacks>, batches: seq<seq<Stmt>>)
    returns (log: seq<Event>, ghost released: set<nat>)
    ensures var h := AfterBatches(Host(sources, [], 0), batches);
            && DistinctIds(h.queries)
            && (forall id: nat {:trigger Live(h, id)} :: 0 < id <= h.last <==> Live(h, id) || id in released)
            && (forall id: nat {:trigger Live(h, id)} :: !(Live(h, id) && id in released))
    ensures log == AllEvents(Host(sources, [], 0), batches)
  {
    hide AfterBatch, BatchEvents;
    var r := new Runner(sources);
    assert batches[0..] == batches;
    for i := 0 to |batches|
      invariant r.Valid()
      invariant AfterBatches(r.Now(), batches[i..]) == AfterBatches(Host(sources, [], 0), batches)
      invariant r.log + AllEvents(r.Now(), batches[i..]) == AllEvents(Host(sources, [], 0), batches)
    {
      assert batches[i..][1..] == batches[i + 1..];
      Regroup(r.log, BatchEvents(r.Now(), batches[i]), AllEvents(AfterBatch(r.Now(), batches[i]), batches[i + 1..]));
      r.RunBatch(batches[i]);
    }
    log, released := r.log, r.released;
    assert log + [] == log;
    AllAccounted(r.Now(), released);
  }

  lemma {:induction false} AllAccounted(h: Host, released: set<nat>)
    requires Accounted(h, [], released)
    ensures forall id: nat {:trigger Live(h, id)} :: 0 < id <= h.last <==> Live(h, id) || id in released
  {
    assert Drops([]) == {};
    forall id: nat ensures 0 < id <= h.last <==> Live(h, id) || id in released {
      LiveIsListed(h, id);
    }
  }

  function AllEvents(h: Host, batches: seq<seq<Stmt>>): seq<Event>
    decreases |batches|
  {
    if batches == [] then [] else BatchEvents(h, batches[0]) + AllEvents(AfterBatch(h, batches[0]), batches[1..])
  }

  predicate IsAnswer(e: Event) {
    e.Reply? || e.Error?
  }

  /** One reply or error to a batch, before anything else it makes happen. */
  lemma {:induction false} OneAnswerFirst(h: Host, stmts: seq<Stmt>)
    ensures var es := BatchEvents(h, stmts);
            IsAnswer(es[0]) && forall e :: e in es[1..] ==> !IsAnswer(e)
  {
    var (_, b) := RouteAll(h, NEW_BATCH, stmts);
    JobsAnswerNothing(h.sources, b.jobs, b.fault.None?);
    assert BatchEvents(h, stmts)[1..] == RanAll(h.sources, b.jobs, b.fault.None?);
  }

  lemma {:induction false} JobsAnswerNothing(sources: map<string, Callbacks>, jobs: seq<Job>, ok: bool)
    ensures forall e :: e in RanAll(sources, jobs, ok) ==> !IsAnswer(e)
  {
    if jobs != [] {
      JobsAnswerNothing(sources, jobs[1..], ok);
      assert forall e :: e in RanAll(sources, jobs, ok) ==>
               e in Ran(sources, jobs[0], ok) || e in RanAll(sources, jobs[1..], ok);
    }
  }

  // ----- a destroyed id is gone for good -----

  /** An id already minted and no longer live. */
  predicate Gone(h: Host, id: nat) {
    0 < id <= h.last && !Live(h, id)
  }

  lemma {:induction false} RouteKeepsGone(h: Host, b: Batch, st: Stmt, id: nat)
    requires Gone(h, id) && DistinctIds(h.queries)
    ensures var (h', b') := Route(h, b, st);
            Gone(h', id) && DistinctIds(h'.queries) && h'.last >= h.last
            && (forall q :: q in h'.queries && q !in h.queries ==> q.id == h.last + 1 == h'.last)
    requires IdsBelow(h.queries, h.last)
    ensures var (h', b') := Route(h, b, st); IdsBelow(h'.queries, h'.last)
  {
    hide ReadScope, OpeningOf, Without, KeyNamed;
    var (h', b') := Route(h, b, st);
    LiveIsListed(h, id);
    LiveIsListed(h', id);
    if b.fault.None? && st.verb != "new" {
      var t := Target(st, b.keys);
      QueryWithIn(h.queries, t);
      if t != 0 && QueryWith(h.queries, t).Some? {
        WithoutFacts(h.queries, QueryWith(h.queries, t).value.id);
      }
    } else if b.fault.None? && OpeningOf(st, h.sources.Keys).Opened? {
      MintedIsNew(h, OpeningOf(st, h.sources.Keys).d, h'.queries);
    }
  }

  lemma {:induction false} MintedIsNew(h: Host, d: Descriptor, qs: seq<HostedQuery>)
    requires DistinctIds(h.queries) && IdsBelow(h.queries, h.last)
    requires qs == h.queries + [HostedQuery(h.last + 1, d.source, d)]
    ensures DistinctIds(qs) && IdsBelow(qs, h.last + 1)
    ensures forall q :: q in qs <==> q in h.queries || q == HostedQuery(h.last + 1, d.source, d)
  {
    forall i, j | 0 <= i < j < |qs| ensures qs[i].id != qs[j].id {
      assert h.queries[i] in h.queries;
    }
  }

  lemma {:induction false} RouteAllKeepsGone(h: Host, b: Batch, stmts: seq<Stmt>, id: nat)
    requires Gone(h, id) && DistinctIds(h.queries) && IdsBelow(h.queries, h.last)
    ensures var h' := RouteAll(h, b, stmts).0;
            Gone(h', id) && DistinctIds(h'.queries) && IdsBelow(h'.queries, h'.last) && h'.last >= h.last
    decreases |stmts|
  {
    hide Route, Gone, DistinctIds, IdsBelow;
    if stmts != [] {
      RouteKeepsGone(h, b, stmts[0], id);
      var (h', b') := Route(h, b, stmts[0]);
      RouteAllKeepsGone(h', b', stmts[1..], id);
    }
  }

  /** Ids are never reused, so one destroyed is refused for ever: whatever batches come,
      a statement addressed to it is answered with an error. */
  lemma {:induction false} GoneForGood(h: Host, batches: seq<seq<Stmt>>, id: nat, b: Batch, st: Stmt)
    requires Gone(h, id) && DistinctIds(h.queries) && IdsBelow(h.queries, h.last)
    requires b.fault.None? && st.verb != "new" && BareId(st) == Some(id)
    ensures var h' := AfterBatches(h, batches);
            && Gone(h', id) && h'.last >= h.last
            && Route(h', b, st).1.fault == Some(NoQueryOfMine(st.verb, id))
    decreases |batches|
  {
    if batches == [] {
      GoneIsUnlisted(h, id);
      assert Target(st, b.keys) == id;
    } else {
      hide Gone, DistinctIds, IdsBelow, RouteAll, Route;
      RouteAllKeepsGone(h, NEW_BATCH, batches[0], id);
      GoneForGood(AfterBatch(h, batches[0]), batches[1..], id, b, st);
    }
  }

  lemma {:induction false} GoneIsUnlisted(h: Host, id: nat)
    ensures Gone(h, id) ==> QueryWith(h.queries, id).None? && id != 0
  {}
}
