/**
 The Go client's side of a query: `InboundBatch`, `inbound`, `open` and `mintID`.

 Unlike its C twin this one keeps routing after a refusal, remembers only the first,
 and runs everything it deferred whether the batch was refused or not. What a source
 registered decides what is deferred at all: a handler nobody set is never called.
 */
module GoHost {
  import opened Text
  import opened Syntax
  import opened Query
  import opened Reader
  import opened Hosting

  /** Which of a source's two optional handlers are set; its filler always is. */
  datatype Handlers = Handlers(dropped: bool, other: bool)

  /** What is being served, under which ids, and the last id minted. */
  datatype Host = Host(sources: map<string, Handlers>, queries: map<nat, HostedQuery>, last: nat)

  /** What a batch has come to so far. The reply's ids and the keys are one table. */
  datatype Batch = Batch(keys: map<string, nat>, jobs: seq<Job>, failed: Option<Fault>)

  const NEW_BATCH := Batch(map[], [], None)

  /** `hostedTarget`, which unlike the C one takes 0 for an id like any other. */
  function Target(st: Stmt, keys: map<string, nat>): Option<nat> {
    if BareId(st).Some? then BareId(st)
    else if BareKey(st).Some? && BareKey(st).value in keys then Some(keys[BareKey(st).value])
    else None
  }

  /** What one statement does: the new host, keys and jobs, and its refusal if it has one. */
  datatype Routed = Routed(host: Host, keys: map<string, nat>, jobs: seq<Job>, why: Option<Fault>)

  function Open(h: Host, keys: map<string, nat>, st: Stmt): Routed {
    match OpeningOf(st, h.sources.Keys)
    case Faulty(why) => Routed(h, keys, [], Some(why))
    case Opened(d) =>
      var q := HostedQuery(h.last + 1, d.source, d);
      var h' := h.(queries := h.queries[q.id := q], last := h.last + 1);
      var keys' := if st.key == "" then keys else keys[st.key := q.id];
      match ReadScope(st.args[1..])
      case Refused(why) => Routed(h', keys', [], Some(BadQuery(why)))
      case Ok(asked) => Routed(h', keys', [FillJob(q, asked)], None)
  }

  function Inbound(h: Host, keys: map<string, nat>, st: Stmt): Routed {
    if st.verb == "new" then Open(h, keys, st)
    else match Target(st, keys)
      case None => Routed(h, keys, [], None)
      case Some(id) =>
        if id !in h.queries then Routed(h, keys, [], Some(NoQueryOfMine(st.verb, id)))
        else
          var q := h.queries[id];
          var on := if q.source in h.sources then h.sources[q.source] else Handlers(false, false);
          if st.verb == "query" then Routed(h, keys, [], Some(AskedWhenMade))
          else if st.verb == "set" then Routed(h, keys, [], Some(DoesNotChange))
          else if st.verb == "destroy" then
            Routed(h.(queries := h.queries - {id}), keys, if on.dropped then [DropJob(q)] else [], None)
          else Routed(h, keys, if on.other then [OtherJob(q, st)] else [], None)
  }

  function Route(h: Host, b: Batch, st: Stmt): (Host, Batch) {
    var r := Inbound(h, b.keys, st);
    (r.host, Batch(r.keys, b.jobs + r.jobs, if b.failed.Some? then b.failed else r.why))
  }

  function RouteAll(h: Host, b: Batch, stmts: seq<Stmt>): (Host, Batch)
    decreases |stmts|
  {
    if stmts == [] then (h, b)
    else
      var (h', b') := Route(h, b, stmts[0]);
      RouteAll(h', b', stmts[1..])
  }

  datatype Event =
    | Reply(ids: map<string, nat>)
    | Error(why: Fault)
    | Filled(id: nat)
    | Dropped(id: nat)
    | Passed(id: nat)

  function AnswerOf(b: Batch): Event {
    if b.failed.Some? then Error(b.failed.value) else Reply(b.keys)
  }

  function Ran(j: Job): Event {
    match j
    case FillJob(q, _) => Filled(q.id)
    case DropJob(q) => Dropped(q.id)
    case OtherJob(q, _) => Passed(q.id)
  }

  function RanAll(jobs: seq<Job>): seq<Event> {
    if jobs == [] then [] else [Ran(jobs[0])] + RanAll(jobs[1..])
  }

  function BatchEvents(h: Host, stmts: seq<Stmt>): seq<Event> {
    var (_, b) := RouteAll(h, NEW_BATCH, stmts);
    [AnswerOf(b)] + RanAll(b.jobs)
  }

  function AfterBatch(h: Host, stmts: seq<Stmt>): Host {
    RouteAll(h, NEW_BATCH, stmts).0
  }

  /** Every query is filed under its own id, one already minted, and its source is served. */
  predicate Ordered(h: Host) {
    forall id :: id in h.queries ==>
      0 < id <= h.last && h.queries[id].id == id && h.queries[id].source in h.sources
  }

  lemma {:induction false} InboundKeeps(h: Host, keys: map<string, nat>, st: Stmt)
    requires Ordered(h)
    ensures var r := Inbound(h, keys, st);
            && Ordered(r.host) && h.last <= r.host.last <= h.last + 1
            && (forall id :: id in r.host.queries && id !in h.queries ==> id == h.last + 1)
            && (forall j :: j in r.jobs && j.FillJob? ==> j.q.id == r.host.last == h.last + 1)
            && |r.jobs| <= 1
  {
    hide ReadScope, ReadDescriptor;
  }

  // ----- the connection, as it runs -----

  class ServingConn {
    const sources: map<string, Handlers>
    var queries: map<nat, HostedQuery>
    var lastHostedID: nat
    /** What went out and which handlers ran, in the order it happened. */
    var log: seq<Event>

    constructor (sources: map<string, Handlers>)
      ensures Valid() && Now() == Host(sources, map[], 0) && log == []
    {
      this.sources, queries, lastHostedID, log := sources, map[], 0, [];
    }

    ghost function Now(): Host
      reads this
    {
      Host(sources, queries, lastHostedID)
    }

    ghost predicate Valid()
      reads this
    {
      Ordered(Now())
    }

    /** An id nothing was ever called before. */
    method MintID() returns (id: nat)
      requires Valid()
      modifies this`lastHostedID
      ensures Valid()
      ensures id == old(lastHostedID) + 1 == lastHostedID && id !in queries
    {
      lastHostedID := lastHostedID + 1;
      id := lastHostedID;
    }

    method OpenQuery(st: Stmt, keys: map<string, nat>)
      returns (keys': map<string, nat>, pending: seq<Job>, why: Option<Fault>)
      requires Valid()
      modifies this`queries, this`lastHostedID
      ensures Valid() && Routed(Now(), keys', pending, why) == Open(old(Now()), keys, st)
    {
      hide ReadScope, ReadDescriptor;
      keys', pending, why := keys, [], None;
      if st.args == [] || st.args[0].value.Some? || st.args[0].flag != Asserted {
        return keys, [], Some(ExpectedType);
      }
      if st.args[0].name != "query" {
        return keys, [], Some(HostsNoSuch(st.args[0].name));
      }
      var descriptor := ReadDescriptor(st.args[1..]);
      if descriptor.Refused? {
        return keys, [], Some(BadQuery(descriptor.why));
      }
      var d := descriptor.value;
      if d.source !in sources {
        return keys, [], Some(ServesNoSuch(d.source));
      }
      var id := MintID();
      var q := HostedQuery(id, d.source, d);
      queries := queries[id := q];
      if st.key != "" {
        keys' := keys[st.key := id];
      }
      var scope := ReadScope(st.args[1..]);
      if scope.Refused? {
        return keys', [], Some(BadQuery(scope.why));
      }
      pending := [FillJob(q, scope.value)];
    }

    method RouteOne(st: Stmt, keys: map<string, nat>)
      returns (keys': map<string, nat>, pending: seq<Job>, why: Option<Fault>)
      requires Valid()
      modifies this`queries, this`lastHostedID
      ensures Valid() && Routed(Now(), keys', pending, why) == Inbound(old(Now()), keys, st)
    {
      hide ReadScope, ReadDescriptor, Open;
      if st.verb == "new" {
        keys', pending, why := OpenQuery(st, keys);
        return;
      }
      keys', pending, why := keys, [], None;
      var target := Target(st, keys);
      if target.None? {
        return;
      }
      var id := target.value;
      if id !in queries {
        why := Some(NoQueryOfMine(st.verb, id));
        return;
      }
      var q := queries[id];
      if st.verb == "query" {
        why := Some(AskedWhenMade);
      } else if st.verb == "set" {
        why := Some(DoesNotChange);
      } else if st.verb == "destroy" {
        queries := queries - {id};
        if sources[q.source].dropped {
          pending := [DropJob(q)];
        }
      } else if sources[q.source].other {
        pending := [OtherJob(q, st)];
      }
    }

    /** Routes a batch to its end, answers it, and then does everything it deferred. */
    method InboundBatch(stmts: seq<Stmt>)
      requires Valid()
      modifies this
      ensures Valid() && Now() == AfterBatch(old(Now()), stmts)
      ensures log == old(log) + BatchEvents(old(Now()), stmts)
    {
      hide Inbound;
      var keys: map<string, nat> := map[];
      var pending: seq<Job> := [];
      var failed: Option<Fault> := None;
      assert stmts[0..] == stmts;
      for i := 0 to |stmts|
        invariant Valid() && log == old(log)
        invariant RouteAll(Now(), Batch(keys, pending, failed), stmts[i..]) == RouteAll(old(Now()), NEW_BATCH, stmts)
      {
        assert stmts[i..][1..] == stmts[i + 1..];
        var keys', more, why := RouteOne(stmts[i], keys);
        keys, pending := keys', pending + more;
        if failed.None? {
          failed := why;
        }
      }
      log := log + [if failed.Some? then Error(failed.value) else Reply(keys)];
      var answered := log;
      assert pending[0..] == pending;
      assert answered + RanAll(pending) == old(log) + ([log[|log| - 1]] + RanAll(pending));
      for i := 0 to |pending|
        invariant Valid() && Now() == AfterBatch(old(Now()), stmts)
        invariant log + RanAll(pending[i..]) == answered + RanAll(pending)
      {
        assert pending[i..][1..] == pending[i + 1..];
        Regroup(log, [Ran(pending[i])], RanAll(pending[i + 1..]));
        log := log + [Ran(pending[i])];
      }
      assert log + [] == log;
    }
  }

  // ----- a refusal changes the answer and nothing else -----

  /** A statement refused does not stop the ones behind it: what is served, named and
      deferred is the same whatever was refused before, and the first refusal is the
      one the display hears. */
  lemma {:induction false} RefusalStopsNothing(h: Host, b: Batch, why: Fault, stmts: seq<Stmt>)
    requires b.failed.None?
    ensures var (h0, b0) := RouteAll(h, b, stmts);
            var (h1, b1) := RouteAll(h, b.(failed := Some(why)), stmts);
            h1 == h0 && b1 == b0.(failed := Some(why))
    decreases |stmts|
  {
    hide Inbound;
    if stmts != [] {
      var (h', b') := Route(h, b, stmts[0]);
      var rest := stmts[1..];
      if b'.failed.None? {
        RefusalStopsNothing(h', b', why, rest);
      } else {
        var clean := b'.(failed := None);
        assert b' == clean.(failed := Some(b'.failed.value));
        RefusalStopsNothing(h', clean, b'.failed.value, rest);
        RefusalStopsNothing(h', clean, why, rest);
      }
      assert Route(h, b.(failed := Some(why)), stmts[0]) == (h', b'.(failed := Some(why)));
    }
  }

  predicate IsAnswer(e: Event) {
    e.Reply? || e.Error?
  }

  /** One reply or error to a batch, before anything else it makes happen. */
  lemma {:induction false} OneAnswerFirst(h: Host, stmts: seq<Stmt>)
    ensures var es := BatchEvents(h, stmts);
            IsAnswer(es[0]) && forall e :: e in es[1..] ==> !IsAnswer(e)
  {
    var (_, b) := RouteAll(h, NEW_BATCH, stmts);
    JobsAnswerNothing(b.jobs);
    assert BatchEvents(h, stmts)[1..] == RanAll(b.jobs);
  }

  lemma {:induction false} JobsAnswerNothing(jobs: seq<Job>)
    ensures forall e :: e in RanAll(jobs) ==> !IsAnswer(e)
  {
    if jobs != [] {
      JobsAnswerNothing(jobs[1..]);
      assert forall e :: e in RanAll(jobs) ==> e == Ran(jobs[0]) || e in RanAll(jobs[1..]);
    }
  }

  // ----- ids, over every run -----

  function AfterBatches(h: Host, batches: seq<seq<Stmt>>): Host
    decreases |batches|
  {
    if batches == [] then h else AfterBatches(AfterBatch(h, batches[0]), batches[1..])
  }

  function AllEvents(h: Host, batches: seq<seq<Stmt>>): seq<Event>
    decreases |batches|
  {
    if batches == [] then [] else BatchEvents(h, batches[0]) + AllEvents(AfterBatch(h, batches[0]), batches[1..])
  }

  /** The ids asked to be filled, in order. */
  function FilledIds(es: seq<Event>): seq<nat> {
    if es == [] then [] else (if es[0].Filled? then [es[0].id] else []) + FilledIds(es[1..])
  }

  predicate Rising(ids: seq<nat>, above: nat, last: nat) {
    && (forall i :: 0 <= i < |ids| ==> above < ids[i] <= last)
    && (forall i, j :: 0 <= i < j < |ids| ==> ids[i] < ids[j])
  }

  lemma {:induction false} FilledStep(es: seq<Event>)
    requires es != []
    ensures FilledIds(es) == (if es[0].Filled? then [es[0].id] else []) + FilledIds(es[1..])
  {}

  lemma {:induction false} FilledConcat(a: seq<Event>, b: seq<Event>)
    ensures FilledIds(a + b) == FilledIds(a) + FilledIds(b)
  {
    if a == [] {
      assert a + b == b;
    } else {
      hide FilledIds;
      assert (a + b)[0] == a[0] && (a + b)[1..] == a[1..] + b;
      FilledConcat(a[1..], b);
      FilledStep(a + b);
      FilledStep(a);
      Regroup(if a[0].Filled? then [a[0].id] else [], FilledIds(a[1..]), FilledIds(b));
    }
  }

  lemma {:induction false} RanConcat(a: seq<Job>, b: seq<Job>)
    ensures RanAll(a + b) == RanAll(a) + RanAll(b)
  {
    if a == [] {
      assert a + b == b;
    } else {
      assert (a + b)[1..] == a[1..] + b;
      RanConcat(a[1..], b);
    }
  }

  lemma {:induction false} RouteRises(h: Host, b: Batch, st: Stmt, above: nat)
    requires Ordered(h) && Rising(FilledIds(RanAll(b.jobs)), above, h.last) && above <= h.last
    ensures var (h', b') := Route(h, b, st);
            Ordered(h') && h.last <= h'.last && Rising(FilledIds(RanAll(b'.jobs)), above, h'.last)
  {
    hide Inbound, Ordered;
    InboundKeeps(h, b.keys, st);
    var r := Inbound(h, b.keys, st);
    RanConcat(b.jobs, r.jobs);
    FilledConcat(RanAll(b.jobs), RanAll(r.jobs));
    if r.jobs != [] {
      assert RanAll(r.jobs) == [Ran(r.jobs[0])];
    }
  }

  lemma {:induction false} RouteAllRises(h: Host, b: Batch, stmts: seq<Stmt>, above: nat)
    requires Ordered(h) && Rising(FilledIds(RanAll(b.jobs)), above, h.last) && above <= h.last
    ensures var (h', b') := RouteAll(h, b, stmts);
            Ordered(h') && h.last <= h'.last && Rising(FilledIds(RanAll(b'.jobs)), above, h'.last)
    decreases |stmts|
  {
    hide Route, Ordered, Rising;
    if stmts != [] {
      RouteRises(h, b, stmts[0], above);
      var (h', b') := Route(h, b, stmts[0]);
      RouteAllRises(h', b', stmts[1..], above);
    }
  }

  /** Over a whole run of batches, every query filled has a greater id than each one
      filled before it, destroyed or not, so none is ever named twice. */
  lemma {:induction false} IdsOnlyRise(h: Host, batches: seq<seq<Stmt>>)
    requires Ordered(h)
    ensures var h' := AfterBatches(h, batches);
            Ordered(h') && h.last <= h'.last && Rising(FilledIds(AllEvents(h, batches)), h.last, h'.last)
    decreases |batches|
  {
    hide Ordered, RouteAll;
    if batches != [] {
      var (h', b) := RouteAll(h, NEW_BATCH, batches[0]);
      RouteAllRises(h, NEW_BATCH, batches[0], h.last);
      IdsOnlyRise(h', batches[1..]);
      FilledConcat([AnswerOf(b)], RanAll(b.jobs));
      FilledConcat(BatchEvents(h, batches[0]), AllEvents(h', batches[1..]));
      assert FilledIds([AnswerOf(b)]) == [];
    }
  }

  /** An id already minted and no longer served. */
  predicate Gone(h: Host, id: nat) {
    id <= h.last && id !in h.queries
  }

  lemma {:induction false} DestroyedIsGone(h: Host, keys: map<string, nat>, st: Stmt, id: nat)
    requires Ordered(h) && st.verb == "destroy" && Target(st, keys) == Some(id)
    ensures var r := Inbound(h, keys, st);
            (id in h.queries ==> r.why.None?) && (id <= h.last ==> Gone(r.host, id))
  {}

  lemma {:induction false} RouteAllKeepsGone(h: Host, b: Batch, stmts: seq<Stmt>, id: nat)
    requires Ordered(h) && Gone(h, id)
    ensures var h' := RouteAll(h, b, stmts).0; Ordered(h') && Gone(h', id)
    decreases |stmts|
  {
    hide Inbound, Ordered;
    if stmts != [] {
      InboundKeeps(h, b.keys, stmts[0]);
      var (h', b') := Route(h, b, stmts[0]);
      RouteAllKeepsGone(h', b', stmts[1..], id);
    }
  }

  /** A destroyed id is refused for ever, and so is 0, which is never minted: whatever
      batches come, a batch that opens with a statement addressed to it is answered
      with that refusal. */
  lemma {:induction false} GoneForGood(h: Host, batches: seq<seq<Stmt>>, id: nat, st: Stmt, rest: seq<Stmt>)
    requires Ordered(h) && Gone(h, id)
    requires st.verb != "new" && BareId(st) == Some(id)
    ensures BatchEvents(AfterBatches(h, batches), [st] + rest)[0] == Error(NoQueryOfMine(st.verb, id))
    decreases |batches|
  {
    if batches == [] {
      RefusedAnswer(h, id, st, rest);
    } else {
      hide Ordered, RouteAll, Gone, BatchEvents;
      RouteAllKeepsGone(h, NEW_BATCH, batches[0], id);
      GoneForGood(AfterBatch(h, batches[0]), batches[1..], id, st, rest);
    }
  }

  lemma {:induction false} RefusedAnswer(h: Host, id: nat, st: Stmt, rest: seq<Stmt>)
    requires id !in h.queries && st.verb != "new" && BareId(st) == Some(id)
    ensures BatchEvents(h, [st] + rest)[0] == Error(NoQueryOfMine(st.verb, id))
  {
    var why := NoQueryOfMine(st.verb, id);
    assert Route(h, NEW_BATCH, st) == (h, NEW_BATCH.(failed := Some(why))) by {
      assert Inbound(h, map[], st) == Routed(h, map[], [], Some(why));
      assert NEW_BATCH.jobs + [] == [];
    }
    assert ([st] + rest)[1..] == rest;
    RefusalStopsNothing(h, NEW_BATCH, why, rest);
  }
}
