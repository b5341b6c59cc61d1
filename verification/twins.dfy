/**
 The two clients' inbound batches, side by side.

 They refuse differently: the C one stops at the first refusal and fails what it had
 deferred, the Go one carries on and runs it. And they look things up differently: a
 key named twice in a batch is its first query to the C client and its last to the Go
 one, and 0 is nobody's id to the C client and one like any other to the Go one. For
 the rest they are the same machine, whatever handlers the Go sources have set.
 */
module Twins {
  import opened Syntax
  import opened Query
  import opened Reader
  import opened Hosting
  import C = CHost
  import Go = GoHost

  /** The same queries under the same ids. */
  ghost predicate SameQueries(c: C.Host, g: Go.Host) {
    forall id: nat {:trigger C.QueryWith(c.queries, id)} ::
      C.QueryWith(c.queries, id) == if id in g.queries then Some(g.queries[id]) else None
  }

  /** Both serve sources of the same names and hold the same queries. */
  ghost predicate Same(c: C.Host, g: Go.Host) {
    && c.sources.Keys == g.sources.Keys && c.last == g.last
    && C.DistinctIds(c.queries) && C.IdsBelow(c.queries, c.last) && Go.Ordered(g)
    && SameQueries(c, g)
  }

  /** The Go client defers only what its source has a handler for; a fill it always does. */
  predicate Handled(sources: map<string, Go.Handlers>, j: Job) {
    var on := if j.q.source in sources then sources[j.q.source] else Go.Handlers(false, false);
    (j.DropJob? ==> on.dropped) && (j.OtherJob? ==> on.other)
  }

  function Wanted(sources: map<string, Go.Handlers>, jobs: seq<Job>): seq<Job> {
    if jobs == [] then []
    else (if Handled(sources, jobs[0]) then [jobs[0]] else []) + Wanted(sources, jobs[1..])
  }

  lemma {:induction false} WantedConcat(sources: map<string, Go.Handlers>, a: seq<Job>, b: seq<Job>)
    ensures Wanted(sources, a + b) == Wanted(sources, a) + Wanted(sources, b)
  {
    if a == [] {
      assert a + b == b;
    } else {
      assert (a + b)[0] == a[0] && (a + b)[1..] == a[1..] + b;
      WantedConcat(sources, a[1..], b);
    }
  }

  // ----- names -----

  /** What a batch has named, and which of it more than once: a name of one query is the
      same query to both clients, one given again is an earlier query to the C client. */
  ghost predicate Keyed(last: nat, c: seq<(string, nat)>, g: map<string, nat>, twice: set<string>) {
    && twice <= g.Keys && (forall k :: k in c ==> k.1 > 0)
    && (forall name {:trigger C.KeyNamed(c, name)} :: C.KeyNamed(c, name) == 0 <==> name !in g)
    && (forall name {:trigger C.KeyNamed(c, name)} :: name in g ==>
          && C.KeyNamed(c, name) <= g[name] <= last
          && (C.KeyNamed(c, name) == g[name] <==> name !in twice))
    && (forall x, y {:trigger C.KeyNamed(c, x), g[y]} :: x in g && y in g && C.KeyNamed(c, x) == g[y] ==> x == y)
  }

  predicate Names(st: Stmt) {
    st.verb == "new" && st.key != ""
  }

  function NamedWith(st: Stmt, named: set<string>): set<string> {
    if Names(st) then named + {st.key} else named
  }

  function TwiceWith(st: Stmt, named: set<string>, twice: set<string>): set<string> {
    if Names(st) && st.key in named then twice + {st.key} else twice
  }

  /** A statement is addressed by a name given again above it. */
  predicate ByNameGivenAgain(st: Stmt, twice: set<string>) {
    st.verb != "new" && BareId(st).None? && BareKey(st).Some? && BareKey(st).value in twice
  }

  /** Some statement of a batch is. */
  predicate AddressesAgain(stmts: seq<Stmt>, named: set<string>, twice: set<string>)
    decreases |stmts|
  {
    stmts != []
    && (ByNameGivenAgain(stmts[0], twice)
        || AddressesAgain(stmts[1..], NamedWith(stmts[0], named), TwiceWith(stmts[0], named, twice)))
  }

  /** Some `destroy` of a batch is. */
  predicate DestroysAgain(stmts: seq<Stmt>, named: set<string>, twice: set<string>)
    decreases |stmts|
  {
    stmts != []
    && ((stmts[0].verb == "destroy" && ByNameGivenAgain(stmts[0], twice))
        || DestroysAgain(stmts[1..], NamedWith(stmts[0], named), TwiceWith(stmts[0], named, twice)))
  }

  /** The names a batch has given more than once by its end. */
  function TwiceAfter(stmts: seq<Stmt>, named: set<string>, twice: set<string>): set<string>
    decreases |stmts|
  {
    if stmts == [] then twice
    else TwiceAfter(stmts[1..], NamedWith(stmts[0], named), TwiceWith(stmts[0], named, twice))
  }

  /** Both have accepted everything so far, given the same names, and deferred the same
      jobs but for those the Go client has no handler for. */
  ghost predicate Together(hg: Go.Host, c: C.Batch, g: Go.Batch, twice: set<string>) {
    && c.fault.None? && g.failed.None? && g.jobs == Wanted(hg.sources, c.jobs)
    && Keyed(hg.last, c.keys, g.keys, twice)
  }

  predicate AddressesZero(st: Stmt) {
    st.verb != "new" && BareId(st) == Some(0)
  }

  lemma {:induction false} KeyAdded(keys: seq<(string, nat)>, name: string, id: nat, asked: string)
    requires forall k :: k in keys ==> k.1 > 0
    ensures C.KeyNamed(keys + [(name, id)], asked) ==
              if C.KeyNamed(keys, asked) == 0 && asked == name then id else C.KeyNamed(keys, asked)
  {
    if keys == [] {
      assert keys + [(name, id)] == [(name, id)];
    } else {
      assert keys[0] in keys;
      assert (keys + [(name, id)])[1..] == keys[1..] + [(name, id)];
      KeyAdded(keys[1..], name, id, asked);
    }
  }

  lemma {:induction false} QueryAdded(qs: seq<HostedQuery>, q: HostedQuery, id: nat)
    requires forall x :: x in qs ==> x.id != q.id
    ensures C.QueryWith(qs + [q], id) == if id == q.id then Some(q) else C.QueryWith(qs, id)
  {
    if qs == [] {
      assert qs + [q] == [q];
    } else {
      assert qs[0] in qs;
      assert (qs + [q])[1..] == qs[1..] + [q];
      QueryAdded(qs[1..], q, id);
    }
  }

  lemma {:induction false} QueryRemoved(qs: seq<HostedQuery>, gone: nat, id: nat)
    requires C.DistinctIds(qs)
    ensures C.QueryWith(C.Without(qs, gone), id) == if id == gone then None else C.QueryWith(qs, id)
  {
    C.WithoutFacts(qs, gone);
    var left := C.Without(qs, gone);
    C.QueryWithIn(qs, id);
    C.QueryWithIn(left, id);
    if id != gone && C.QueryWith(qs, id).Some? {
      var q := C.QueryWith(qs, id).value;
      assert q in left;
      OneEach(qs, q, C.QueryWith(left, id).value);
    }
  }

  lemma {:induction false} OneEach(qs: seq<HostedQuery>, a: HostedQuery, b: HostedQuery)
    requires C.DistinctIds(qs) && a in qs && b in qs && a.id == b.id
    ensures a == b
  {
    var i :| 0 <= i < |qs| && qs[i] == a;
    var j :| 0 <= j < |qs| && qs[j] == b;
    assert i == j;
  }

  lemma {:induction false} KeyedMore(
    last: nat, c: seq<(string, nat)>, g: map<string, nat>, twice: set<string>, key: string)
    requires Keyed(last, c, g, twice)
    ensures Keyed(last + 1, c + [(key, last + 1)], g[key := last + 1], if key in g then twice + {key} else twice)
  {
    hide C.KeyNamed;
    var id, c', g' := last + 1, c + [(key, last + 1)], g[key := last + 1];
    var twice' := if key in g then twice + {key} else twice;
    forall name
      ensures C.KeyNamed(c', name) == if name == key && key !in g then id else C.KeyNamed(c, name)
    {
      KeyAdded(c, key, id, name);
    }
    forall name | name in g'
      ensures C.KeyNamed(c', name) <= g'[name] <= id
      ensures C.KeyNamed(c', name) == g'[name] <==> name !in twice'
    {
      assert name in g ==> C.KeyNamed(c, name) <= last;
    }
    forall x, y {:trigger C.KeyNamed(c', x), g'[y]} | x in g' && y in g' && C.KeyNamed(c', x) == g'[y]
      ensures x == y
    {
      assert x in g ==> C.KeyNamed(c, x) <= last;
      if x in g && y in g && y != key {
        assert C.KeyNamed(c, x) == g[y];
      }
    }
  }

  lemma {:induction false} KeyedLater(last: nat, c: seq<(string, nat)>, g: map<string, nat>, twice: set<string>)
    requires Keyed(last, c, g, twice)
    ensures Keyed(last + 1, c, g, twice)
  {}

  // ----- one statement -----

  lemma {:induction false} OpenTogether(hc: C.Host, hg: Go.Host, bc: C.Batch, bg: Go.Batch, st: Stmt,
      twice: set<string>)
    requires Same(hc, hg) && bc.fault.None? && Keyed(hg.last, bc.keys, bg.keys, twice)
    ensures var (hc', bc') := C.Open(hc, bc, st);
            var r := Go.Open(hg, bg.keys, st);
            && bc'.fault == r.why
            && (r.why.None? ==>
                  && Same(hc', r.host) && r.host.sources == hg.sources
                  && r.keys == (if st.key == "" then bg.keys else bg.keys[st.key := hg.last + 1])
                  && Keyed(r.host.last, bc'.keys, r.keys,
                           if st.key != "" && st.key in bg.keys then twice + {st.key} else twice)
                  && Wanted(hg.sources, bc'.jobs) == Wanted(hg.sources, bc.jobs) + r.jobs)
  {
    hide ReadScope, ReadDescriptor, C.QueryWith, C.KeyNamed, Keyed;
    var o := OpeningOf(st, hc.sources.Keys);
    assert hc.sources.Keys == hg.sources.Keys && hc.last == hg.last;
    hide Same;
    if o.Opened? {
      AddedTogether(hc, hg, o.d);
      if st.key == "" {
        KeyedLater(hg.last, bc.keys, bg.keys, twice);
      } else {
        KeyedMore(hg.last, bc.keys, bg.keys, twice, st.key);
      }
      var r := Go.Open(hg, bg.keys, st);
      if r.why.None? {
        assert r.jobs[1..] == [] && Wanted(hg.sources, r.jobs) == r.jobs;
        WantedConcat(hg.sources, bc.jobs, r.jobs);
      }
    }
  }

  lemma {:induction false} AddedTogether(hc: C.Host, hg: Go.Host, d: Descriptor)
    requires Same(hc, hg) && d.source in hc.sources
    ensures var q := HostedQuery(hc.last + 1, d.source, d);
            Same(hc.(queries := hc.queries + [q], last := q.id), hg.(queries := hg.queries[q.id := q], last := q.id))
  {
    hide C.QueryWith;
    var q := HostedQuery(hc.last + 1, d.source, d);
    forall id: nat
      ensures C.QueryWith(hc.queries + [q], id) == if id == q.id then Some(q) else C.QueryWith(hc.queries, id)
    {
      QueryAdded(hc.queries, q, id);
    }
    C.MintedIsNew(hc, d, hc.queries + [q]);
  }

  /** One object, whichever way a statement names it. */
  lemma {:induction false} TargetsMatch(last: nat, bc: C.Batch, bg: Go.Batch, st: Stmt, twice: set<string>)
    requires Keyed(last, bc.keys, bg.keys, twice) && st.verb != "new" && !AddressesZero(st)
    ensures var id := C.Target(st, bc.keys);
            && (Go.Target(st, bg.keys).None? <==> id == 0)
            && (id != 0 ==>
                  && id <= Go.Target(st, bg.keys).value
                  && (id == Go.Target(st, bg.keys).value <==> !ByNameGivenAgain(st, twice)))
  {
    hide C.KeyNamed;
    if BareKey(st).Some? {
      assert C.KeyNamed(bc.keys, BareKey(st).value) == C.KeyNamed(bc.keys, BareKey(st).value);
    }
  }

  lemma {:induction false} AddressTogether(hc: C.Host, hg: Go.Host, bc: C.Batch, bg: Go.Batch, st: Stmt,
      twice: set<string>)
    requires Same(hc, hg) && bc.fault.None? && Keyed(hg.last, bc.keys, bg.keys, twice)
    requires st.verb != "new" && !AddressesZero(st) && !ByNameGivenAgain(st, twice)
    ensures var (hc', bc') := C.Route(hc, bc, st);
            var r := Go.Inbound(hg, bg.keys, st);
            && bc'.fault == r.why && bc'.keys == bc.keys && r.keys == bg.keys
            && (r.why.None? ==>
                  && Same(hc', r.host) && r.host.sources == hg.sources && r.host.last == hg.last
                  && Wanted(hg.sources, bc'.jobs) == Wanted(hg.sources, bc.jobs) + r.jobs)
  {
    hide ReadScope, ReadDescriptor, C.QueryWith, C.KeyNamed, C.Without, C.Target, Go.Target, BareId, BareKey, Keyed;
    TargetsMatch(hg.last, bc, bg, st, twice);
    var id := C.Target(st, bc.keys);
    assert Wanted(hg.sources, bc.jobs) + [] == Wanted(hg.sources, bc.jobs);
    if id != 0 && C.QueryWith(hc.queries, id).Some? {
      var q := C.QueryWith(hc.queries, id).value;
      assert q.id == id && hg.queries[id] == q;
      OneWanted(hg.sources, bc.jobs, DropJob(q));
      OneWanted(hg.sources, bc.jobs, OtherJob(q, st));
      if st.verb == "destroy" {
        RemovedTogether(hc, hg, id);
      }
    }
  }

  lemma {:induction false} OneWanted(sources: map<string, Go.Handlers>, jobs: seq<Job>, j: Job)
    ensures Wanted(sources, jobs + [j]) == Wanted(sources, jobs) + if Handled(sources, j) then [j] else []
  {
    WantedConcat(sources, jobs, [j]);
    assert [j][1..] == [];
  }

  lemma {:induction false} RemovedTogether(hc: C.Host, hg: Go.Host, id: nat)
    requires Same(hc, hg)
    ensures Same(hc.(queries := C.Without(hc.queries, id)), hg.(queries := hg.queries - {id}))
  {
    hide C.QueryWith, C.Without;
    C.WithoutFacts(hc.queries, id);
    forall x: nat
      ensures C.QueryWith(C.Without(hc.queries, id), x) == if x == id then None else C.QueryWith(hc.queries, x)
    {
      QueryRemoved(hc.queries, id, x);
    }
  }

  // ----- a whole batch -----

  /** The C twin, once it has refused, passes the rest of the batch over. */
  lemma {:induction false} CStops(hc: C.Host, bc: C.Batch, stmts: seq<Stmt>)
    requires bc.fault.Some?
    ensures C.RouteAll(hc, bc, stmts) == (hc, bc)
    decreases |stmts|
  {
    if stmts != [] {
      CStops(hc, bc, stmts[1..]);
    }
  }

  /** The C client comes to a statement addressed to 0 before it refuses anything. */
  predicate ReachesZero(hc: C.Host, bc: C.Batch, stmts: seq<Stmt>)
    decreases |stmts|
  {
    stmts != [] && bc.fault.None?
    && (AddressesZero(stmts[0])
        || var (hc', bc') := C.Route(hc, bc, stmts[0]); ReachesZero(hc', bc', stmts[1..]))
  }

  predicate IsZeroFault(why: Option<Fault>) {
    why.Some? && why.value.NoQueryOfMine? && why.value.id == 0
  }

  /** The C client never says that it has no query 0. */
  lemma {:induction false} CNeverSaysZero(hc: C.Host, bc: C.Batch, stmts: seq<Stmt>)
    requires !IsZeroFault(bc.fault)
    ensures !IsZeroFault(C.RouteAll(hc, bc, stmts).1.fault)
    decreases |stmts|
  {
    if stmts != [] {
      COneNeverSaysZero(hc, bc, stmts[0]);
      hide C.Route;
      var (hc', bc') := C.Route(hc, bc, stmts[0]);
      CNeverSaysZero(hc', bc', stmts[1..]);
    }
  }

  lemma {:induction false} COneNeverSaysZero(hc: C.Host, bc: C.Batch, st: Stmt)
    requires !IsZeroFault(bc.fault)
    ensures !IsZeroFault(C.Route(hc, bc, st).1.fault)
  {
    hide ReadScope, ReadDescriptor, C.QueryWith, C.Without;
  }

  lemma {:induction false} GoRefusesZero(hc: C.Host, hg: Go.Host, bg: Go.Batch, st: Stmt)
    requires Same(hc, hg) && AddressesZero(st) && bg.failed.None?
    ensures Go.Route(hg, bg, st).1.failed == Some(NoQueryOfMine(st.verb, 0))
  {
    assert 0 !in hg.queries;
  }

  /** Once it has refused, the Go client's answer is that refusal. */
  lemma {:induction false} GoKeepsFirst(hg: Go.Host, bg: Go.Batch, stmts: seq<Stmt>)
    requires bg.failed.Some?
    ensures Go.RouteAll(hg, bg, stmts).1.failed == bg.failed
  {
    hide Go.Inbound;
    var clean := bg.(failed := None);
    assert bg == clean.(failed := bg.failed);
    Go.RefusalStopsNothing(hg, clean, bg.failed.value, stmts);
  }

  /** One statement that is not addressed to 0 nor by a name given again. */
  lemma {:induction false} StepTogether(hc: C.Host, hg: Go.Host, bc: C.Batch, bg: Go.Batch, st: Stmt,
      twice: set<string>)
    requires Same(hc, hg) && Together(hg, bc, bg, twice) && !AddressesZero(st) && !ByNameGivenAgain(st, twice)
    ensures var (hc', bc') := C.Route(hc, bc, st);
            var (hg', bg') := Go.Route(hg, bg, st);
            && bc'.fault == bg'.failed
            && (bc'.fault.None? ==>
                  && Same(hc', hg') && hg'.sources == hg.sources && bg'.keys.Keys == NamedWith(st, bg.keys.Keys)
                  && Together(hg', bc', bg', TwiceWith(st, bg.keys.Keys, twice)))
  {
    hide Same, Keyed, C.Open, Go.Open, C.Target, Go.Target, C.QueryWith, C.Address, Wanted;
    if st.verb == "new" {
      OpenTogether(hc, hg, bc, bg, st, twice);
    } else {
      AddressTogether(hc, hg, bc, bg, st, twice);
    }
  }

  /** A batch that addresses nothing by a name it has given again is refused by both
      clients for the same reason or by neither exactly when the C one does not come to a
      statement addressed to 0 before it refuses; to it such a statement is addressed to
      nothing, and to the Go one to a query that never was. Where it does not and the
      batch is accepted, both are left serving the same queries under the same ids, having
      replied with the same names and with the same jobs to do, but for those the Go
      client has no handler for. */
  lemma {:induction false} TwinsAgree(
    hc: C.Host, hg: Go.Host, bc: C.Batch, bg: Go.Batch, stmts: seq<Stmt>, twice: set<string>)
    requires Same(hc, hg) && Together(hg, bc, bg, twice) && !AddressesAgain(stmts, bg.keys.Keys, twice)
    ensures var (hc', bc') := C.RouteAll(hc, bc, stmts);
            var (hg', bg') := Go.RouteAll(hg, bg, stmts);
            && (bc'.fault == bg'.failed <==> !ReachesZero(hc, bc, stmts))
            && (!ReachesZero(hc, bc, stmts) && bc'.fault.None? ==>
                  Same(hc', hg') && Together(hg', bc', bg', TwiceAfter(stmts, bg.keys.Keys, twice)))
    decreases |stmts|
  {
    hide Same, Together, ByNameGivenAgain, C.Route, Go.Route, AddressesZero, NamedWith, TwiceWith;
    FaultsUnset(hg, bc, bg, twice);
    if stmts != [] {
      var st, rest := stmts[0], stmts[1..];
      var (hc', bc') := C.Route(hc, bc, st);
      var (hg', bg') := Go.Route(hg, bg, st);
      if AddressesZero(st) {
        GoRefusesZero(hc, hg, bg, st);
        GoKeepsFirst(hg', bg', rest);
        CNeverSaysZero(hc, bc, stmts);
      } else {
        StepTogether(hc, hg, bc, bg, st, twice);
        if bc'.fault.Some? {
          CStops(hc', bc', rest);
          GoKeepsFirst(hg', bg', rest);
        } else {
          TwinsAgree(hc', hg', bc', bg', rest, TwiceWith(st, bg.keys.Keys, twice));
        }
      }
    }
  }

  lemma {:induction false} FaultsUnset(hg: Go.Host, bc: C.Batch, bg: Go.Batch, twice: set<string>)
    requires Together(hg, bc, bg, twice)
    ensures bc.fault.None? && bg.failed.None?
  {}

  // ----- batches that both accept -----

  /** A query the C client has and the Go one has not, out of reach of every name. */
  ghost predicate Parted(hc: C.Host, hg: Go.Host, bc: C.Batch, id: nat) {
    && C.Live(hc, id) && id !in hg.queries && 0 < id <= hg.last && hc.last == hg.last
    && C.DistinctIds(hc.queries) && C.IdsBelow(hc.queries, hc.last)
    && (forall k :: k in bc.keys ==> k.1 > 0)
    && (forall name {:trigger C.KeyNamed(bc.keys, name)} :: C.KeyNamed(bc.keys, name) != id)
  }

  lemma {:induction false} StaysParted(hc: C.Host, hg: Go.Host, bc: C.Batch, bg: Go.Batch, st: Stmt, id: nat)
    requires Parted(hc, hg, bc, id) && bc.fault.None? && bg.failed.None? && hc.sources.Keys == hg.sources.Keys
    requires C.Route(hc, bc, st).1.fault.None? && Go.Route(hg, bg, st).1.failed.None?
    ensures Parted(C.Route(hc, bc, st).0, Go.Route(hg, bg, st).0, C.Route(hc, bc, st).1, id)
    ensures C.Route(hc, bc, st).0.sources == hc.sources && Go.Route(hg, bg, st).0.sources == hg.sources
  {
    hide ReadScope, ReadDescriptor, C.QueryWith, C.KeyNamed, C.Without;
    if st.verb == "new" {
      var o := OpeningOf(st, hc.sources.Keys);
      var q := HostedQuery(hc.last + 1, o.d.source, o.d);
      C.MintedIsNew(hc, o.d, hc.queries + [q]);
      QueryAdded(hc.queries, q, id);
      forall name ensures C.KeyNamed(bc.keys + [(st.key, q.id)], name) != id {
        KeyAdded(bc.keys, st.key, q.id, name);
      }
    } else {
      var x := C.Target(st, bc.keys);
      if x != 0 && st.verb == "destroy" {
        assert BareId(st).None? ==> x == C.KeyNamed(bc.keys, BareKey(st).value);
        assert x != id;
        C.QueryWithIn(hc.queries, x);
        C.WithoutFacts(hc.queries, x);
        QueryRemoved(hc.queries, x, id);
      }
    }
  }

  lemma {:induction false} PartedForGood(hc: C.Host, hg: Go.Host, bc: C.Batch, bg: Go.Batch, stmts: seq<Stmt>, id: nat)
    requires Parted(hc, hg, bc, id) && bc.fault.None? && bg.failed.None? && hc.sources.Keys == hg.sources.Keys
    requires C.RouteAll(hc, bc, stmts).1.fault.None? && Go.RouteAll(hg, bg, stmts).1.failed.None?
    ensures !SameQueries(C.RouteAll(hc, bc, stmts).0, Go.RouteAll(hg, bg, stmts).0)
    decreases |stmts|
  {
    hide C.Route, Go.Route;
    if stmts == [] {
      assert C.QueryWith(hc.queries, id).Some?;
    } else {
      hide Parted;
      var (hc', bc') := C.Route(hc, bc, stmts[0]);
      var (hg', bg') := Go.Route(hg, bg, stmts[0]);
      SoFarAccepted(hc', hg', bc', bg', stmts[1..]);
      StaysParted(hc, hg, bc, bg, stmts[0], id);
      PartedForGood(hc', hg', bc', bg', stmts[1..], id);
    }
  }

  /** What both have accepted they had accepted so far. */
  lemma {:induction false} SoFarAccepted(hc: C.Host, hg: Go.Host, bc: C.Batch, bg: Go.Batch, stmts: seq<Stmt>)
    requires C.RouteAll(hc, bc, stmts).1.fault.None? && Go.RouteAll(hg, bg, stmts).1.failed.None?
    ensures bc.fault.None? && bg.failed.None?
  {
    hide C.RouteAll, Go.RouteAll;
    if bc.fault.Some? {
      CStops(hc, bc, stmts);
    }
    if bg.failed.Some? {
      GoKeepsFirst(hg, bg, stmts);
    }
  }

  /** A statement addressed by a name given again, accepted by both: a `destroy` parts
      them, and anything else changes neither. */
  lemma {:induction false} GivenAgainStep(hc: C.Host, hg: Go.Host, bc: C.Batch, bg: Go.Batch, st: Stmt,
      twice: set<string>)
    returns (id: nat)
    requires Same(hc, hg) && bc.fault.None? && bg.failed.None? && Keyed(hg.last, bc.keys, bg.keys, twice)
    requires ByNameGivenAgain(st, twice)
    requires C.Route(hc, bc, st).1.fault.None? && Go.Route(hg, bg, st).1.failed.None?
    ensures var (hc', bc') := C.Route(hc, bc, st);
            var (hg', bg') := Go.Route(hg, bg, st);
            && hc'.sources == hc.sources && hg'.sources == hg.sources
            && bc'.keys == bc.keys && bg'.keys == bg.keys
            && if st.verb == "destroy" then Parted(hc', hg', bc', id) else hc' == hc && hg' == hg
  {
    hide C.QueryWith, C.KeyNamed, C.Without;
    var key := BareKey(st).value;
    assert C.KeyNamed(bc.keys, key) == C.KeyNamed(bc.keys, key);
    id := bg.keys[key];
    var first := C.KeyNamed(bc.keys, key);
    if st.verb == "destroy" {
      C.WithoutFacts(hc.queries, first);
      C.QueryWithIn(hc.queries, first);
      QueryRemoved(hc.queries, first, id);
      assert C.QueryWith(hc.queries, id).Some?;
      forall name ensures C.KeyNamed(bc.keys, name) != id {
        assert name in bg.keys ==> C.KeyNamed(bc.keys, name) == id ==> name == key;
      }
    }
  }

  /** A batch that both accept, and in which no name given again has let a query go:
      the same queries so far, and after it exactly when none does. */
  lemma {:induction false} AcceptedBoth(
    hc: C.Host, hg: Go.Host, bc: C.Batch, bg: Go.Batch, stmts: seq<Stmt>, twice: set<string>)
    requires Same(hc, hg) && Keyed(hg.last, bc.keys, bg.keys, twice) && bc.fault.None? && bg.failed.None?
    requires C.RouteAll(hc, bc, stmts).1.fault.None? && Go.RouteAll(hg, bg, stmts).1.failed.None?
    ensures SameQueries(C.RouteAll(hc, bc, stmts).0, Go.RouteAll(hg, bg, stmts).0)
       <==> !DestroysAgain(stmts, bg.keys.Keys, twice)
    decreases |stmts|
  {
    hide Keyed, C.Route, Go.Route, AddressesZero, ByNameGivenAgain, Parted, NamedWith, TwiceWith;
    if stmts != [] {
      var st, rest := stmts[0], stmts[1..];
      var (hc', bc') := C.Route(hc, bc, st);
      var (hg', bg') := Go.Route(hg, bg, st);
      SoFarAccepted(hc', hg', bc', bg', rest);
      if AddressesZero(st) {
        GoRefusesZero(hc, hg, bg, st);
      } else if ByNameGivenAgain(st, twice) {
        var id := GivenAgainStep(hc, hg, bc, bg, st, twice);
        NamesNothing(st, bg.keys.Keys, twice);
        if st.verb == "destroy" {
          PartedForGood(hc', hg', bc', bg', rest, id);
        } else {
          AcceptedBoth(hc', hg', bc', bg', rest, twice);
        }
      } else {
        StepKeyed(hc, hg, bc, bg, st, twice);
        AcceptedBoth(hc', hg', bc', bg', rest, TwiceWith(st, bg.keys.Keys, twice));
      }
    }
  }

  lemma {:induction false} NamesNothing(st: Stmt, named: set<string>, twice: set<string>)
    requires ByNameGivenAgain(st, twice)
    ensures NamedWith(st, named) == named && TwiceWith(st, named, twice) == twice
  {}

  lemma {:induction false} StepKeyed(hc: C.Host, hg: Go.Host, bc: C.Batch, bg: Go.Batch, st: Stmt, twice: set<string>)
    requires Same(hc, hg) && Keyed(hg.last, bc.keys, bg.keys, twice) && bc.fault.None? && bg.failed.None?
    requires !AddressesZero(st) && !ByNameGivenAgain(st, twice) && C.Route(hc, bc, st).1.fault.None?
    ensures var (hc', bc') := C.Route(hc, bc, st);
            var (hg', bg') := Go.Route(hg, bg, st);
            && Same(hc', hg') && bg'.keys.Keys == NamedWith(st, bg.keys.Keys)
            && Keyed(hg'.last, bc'.keys, bg'.keys, TwiceWith(st, bg.keys.Keys, twice))
  {
    hide Same, Keyed, C.Open, Go.Open, C.Target, Go.Target, C.QueryWith, C.Address, Wanted;
    if st.verb == "new" {
      OpenTogether(hc, hg, bc, bg, st, twice);
    } else {
      AddressTogether(hc, hg, bc, bg, st, twice);
    }
  }

  /** Of batches that both clients accept, those that leave them with the same queries are
      exactly the ones in which no `destroy` goes by a name given again above it. */
  lemma {:induction false} SameQueriesExactly(hc: C.Host, hg: Go.Host, stmts: seq<Stmt>)
    requires Same(hc, hg)
    requires C.RouteAll(hc, C.NEW_BATCH, stmts).1.fault.None? && Go.RouteAll(hg, Go.NEW_BATCH, stmts).1.failed.None?
    ensures SameQueries(C.AfterBatch(hc, stmts), Go.AfterBatch(hg, stmts)) <==> !DestroysAgain(stmts, {}, {})
  {
    hide Same, C.RouteAll, Go.RouteAll, SameQueries;
    assert Go.NEW_BATCH.keys.Keys == {};
    AcceptedBoth(hc, hg, C.NEW_BATCH, Go.NEW_BATCH, stmts, {});
  }

  // ----- a name given twice -----

  predicate Opens(st: Stmt, sources: set<string>) {
    st.verb == "new" && st.args != [] && OpeningOf(st, sources).Opened? && ReadScope(st.args[1..]).Ok?
  }

  function Made(st: Stmt, sources: set<string>, id: nat): HostedQuery
    requires Opens(st, sources)
  {
    var d := OpeningOf(st, sources).d;
    HostedQuery(id, d.source, d)
  }

  function Filling(st: Stmt, sources: set<string>, id: nat): Job
    requires Opens(st, sources)
  {
    FillJob(Made(st, sources, id), ReadScope(st.args[1..]).value)
  }

  function LetGo(key: string): Stmt {
    Stmt("", "destroy", [Bare(key)])
  }

  /** A name given twice in a batch goes on meaning the first query it named to the C
      client, and to the Go one the last: both accept this batch, and they let different
      queries go. */
  lemma {:induction false} RepeatedKeyParts(hc: C.Host, hg: Go.Host, first: Stmt, second: Stmt)
    requires Same(hc, hg) && Opens(first, hc.sources.Keys) && Opens(second, hc.sources.Keys)
    requires first.key == second.key != ""
    ensures var stmts := [first, second, LetGo(first.key)];
            var (c, bc) := C.RouteAll(hc, C.NEW_BATCH, stmts);
            var (g, bg) := Go.RouteAll(hg, Go.NEW_BATCH, stmts);
            && bc.fault.None? && bg.failed.None?
            && !C.Live(c, hc.last + 1) && C.Live(c, hc.last + 2)
            && hc.last + 1 in g.queries && hc.last + 2 !in g.queries
  {
    hide C.RouteAll, Go.RouteAll, C.Live, Opens;
    CLetsFirstGo(hc, first, second);
    GoLetsLastGo(hg, first, second);
  }

  lemma {:induction false} CMakes(h: C.Host, b: C.Batch, st: Stmt)
    requires b.fault.None? && Opens(st, h.sources.Keys) && st.key != ""
    ensures C.Route(h, b, st) == (h.(queries := h.queries + [Made(st, h.sources.Keys, h.last + 1)], last := h.last + 1),
              C.Batch(b.keys + [(st.key, h.last + 1)], b.jobs + [Filling(st, h.sources.Keys, h.last + 1)], None))
  {
    hide ReadScope, OpeningOf;
  }

  lemma {:induction false} CThree(h: C.Host, b: C.Batch, x: Stmt, y: Stmt, z: Stmt)
    ensures var (h1, b1) := C.Route(h, b, x);
            var (h2, b2) := C.Route(h1, b1, y);
            C.RouteAll(h, b, [x, y, z]) == C.Route(h2, b2, z)
  {
    hide C.Route;
    assert [x, y, z][1..] == [y, z] && [y, z][1..] == [z] && [z][1..] == [];
    var (h1, b1) := C.Route(h, b, x);
    var (h2, b2) := C.Route(h1, b1, y);
    var (h3, b3) := C.Route(h2, b2, z);
    assert C.RouteAll(h3, b3, []) == (h3, b3);
    assert C.RouteAll(h2, b2, [z]) == (h3, b3);
    assert C.RouteAll(h1, b1, [y, z]) == (h3, b3);
  }

  lemma {:induction false} CLetsFirstGo(h: C.Host, first: Stmt, second: Stmt)
    requires C.DistinctIds(h.queries) && C.IdsBelow(h.queries, h.last)
    requires Opens(first, h.sources.Keys) && Opens(second, h.sources.Keys) && first.key == second.key != ""
    ensures var (c, b) := C.RouteAll(h, C.NEW_BATCH, [first, second, LetGo(first.key)]);
            b.fault.None? && !C.Live(c, h.last + 1) && C.Live(c, h.last + 2)
  {
    hide Opens, OpeningOf, ReadScope, C.QueryWith, C.Without, C.RouteAll, C.Open;
    var k, id1, id2 := first.key, h.last + 1, h.last + 2;
    var q1, q2 := Made(first, h.sources.Keys, id1), Made(second, h.sources.Keys, id2);
    CThree(h, C.NEW_BATCH, first, second, LetGo(k));
    CMakes(h, C.NEW_BATCH, first);
    var (h1, b1) := C.Route(h, C.NEW_BATCH, first);
    CMakes(h1, b1, second);
    var (h2, b2) := C.Route(h1, b1, second);
    assert h1.queries == h.queries + [q1] && h2.queries == h1.queries + [q2];
    C.MintedIsNew(h, q1.descriptor, h1.queries);
    C.MintedIsNew(h1, q2.descriptor, h2.queries);
    QueryAdded(h.queries, q1, id1);
    QueryAdded(h1.queries, q2, id1);
    QueryAdded(h1.queries, q2, id2);
    assert b2.keys[0] == (k, id1);
    assert C.Target(LetGo(k), b2.keys) == id1;
    QueryRemoved(h2.queries, id1, id1);
    QueryRemoved(h2.queries, id1, id2);
  }

  lemma {:induction false} GoThree(h: Go.Host, b: Go.Batch, x: Stmt, y: Stmt, z: Stmt)
    ensures var (h1, b1) := Go.Route(h, b, x);
            var (h2, b2) := Go.Route(h1, b1, y);
            Go.RouteAll(h, b, [x, y, z]) == Go.Route(h2, b2, z)
  {
    hide Go.Route;
    assert [x, y, z][1..] == [y, z] && [y, z][1..] == [z] && [z][1..] == [];
    var (h1, b1) := Go.Route(h, b, x);
    var (h2, b2) := Go.Route(h1, b1, y);
    var (h3, b3) := Go.Route(h2, b2, z);
    assert Go.RouteAll(h3, b3, []) == (h3, b3);
    assert Go.RouteAll(h2, b2, [z]) == (h3, b3);
    assert Go.RouteAll(h1, b1, [y, z]) == (h3, b3);
  }

  lemma {:induction false} GoMakes(h: Go.Host, keys: map<string, nat>, st: Stmt)
    requires Opens(st, h.sources.Keys) && st.key != ""
    ensures var id := h.last + 1;
            Go.Inbound(h, keys, st)
            == Go.Routed(h.(queries := h.queries[id := Made(st, h.sources.Keys, id)], last := id),
              keys[st.key := id], [Filling(st, h.sources.Keys, id)], None)
  {
    hide ReadScope, OpeningOf;
  }

  lemma {:induction false} GoLetsLastGo(h: Go.Host, first: Stmt, second: Stmt)
    requires Opens(first, h.sources.Keys) && Opens(second, h.sources.Keys) && first.key == second.key != ""
    requires h.last + 1 !in h.queries && h.last + 2 !in h.queries
    ensures var (g, b) := Go.RouteAll(h, Go.NEW_BATCH, [first, second, LetGo(first.key)]);
            b.failed.None? && h.last + 1 in g.queries && h.last + 2 !in g.queries
  {
    hide Opens, OpeningOf, ReadScope, Go.RouteAll, Go.Open;
    GoThree(h, Go.NEW_BATCH, first, second, LetGo(first.key));
    GoMakes(h, Go.NEW_BATCH.keys, first);
    var (h1, b1) := Go.Route(h, Go.NEW_BATCH, first);
    GoMakes(h1, b1.keys, second);
    var (h2, b2) := Go.Route(h1, b1, second);
    assert Go.Target(LetGo(first.key), b2.keys) == Some(h.last + 2);
  }
}
