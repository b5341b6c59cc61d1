/**
 The registry and the cached contexts as the program keeps them: edited in place, with
 a revision that a holder compares against the one its context was built at.
 */
module KeyRegistries {
  import opened Syntax
  import opened Keymap
  import opened KeyContexts

  /** Whether one spelling sorts after another. */
  predicate Greater(a: string, b: string) {
    if a == "" then false
    else if b == "" then true
    else if a[0] != b[0] then a[0] > b[0]
    else Greater(a[1..], b[1..])
  }

  lemma {:induction false} SaidMore(before: seq<Pair>, line: Binding, j: nat)
    requires j < |line.commands|
    ensures before + Said(line.text, line.commands[..j + 1])
         == before + Said(line.text, line.commands[..j]) + [(line.text, line.commands[j])]
  {
    assert Said(line.text, line.commands[..j + 1])
        == Said(line.text, line.commands[..j]) + [(line.text, line.commands[j])];
  }

  lemma {:induction false} PairsLine(table: seq<Binding>, i: nat)
    requires i < |table|
    ensures Pairs(table[..i + 1]) == Pairs(table[..i]) + Said(table[i].text, table[i].commands)
  {
    assert table[..i + 1][..i] == table[..i];
  }

  lemma {:induction false} NothingSaid(before: seq<Pair>, line: Binding)
    ensures before + Said(line.text, line.commands[..0]) == before
  {}

  lemma {:induction false} NothingBuilt(env: Hints)
    ensures Pairs([]) == [] && Built(env, []) == EMPTY
  {}

  lemma {:induction false} BuiltMore(env: Hints, lines: seq<Pair>, line: Pair)
    ensures Built(env, lines + [line]) == Line(env, Built(env, lines), line.0, line.1)
  {
    assert (lines + [line])[..|lines|] == lines;
  }

  lemma {:induction false} OverlaidMore(env: Hints, r: Registry, lines: seq<Pair>, line: Pair)
    ensures Overlaid(env, r, lines + [line]) == Overlay(env, Overlaid(env, r, lines), line.0, line.1)
  {
    assert (lines + [line])[..|lines|] == lines;
  }

  class KeyRegistry {
    /** What a line's hints say where this runs. */
    const env: Hints
    var bindings: map<string, seq<Bound>>
    var serial: nat
    var revision: nat

    ghost function Now(): Registry
      reads this
    {
      Registry(bindings, serial, revision)
    }

    ghost predicate Valid()
      reads this
    {
      Serialised(Now())
    }

    constructor (env: Hints, table: seq<Binding>)
      ensures Valid() && this.env == env && Now() == Built(env, Pairs(table))
    {
      this.env := env;
      bindings, serial, revision := map[], 0, 0;
      new;
      hide Pairs, Said, Serialised, Built;
      NothingBuilt(env);
      assert table[..0] == [];
      for i := 0 to |table|
        invariant Now() == Built(env, Pairs(table[..i]))
      {
        LoadLine(Pairs(table[..i]), table[i]);
        PairsLine(table, i);
      }
      assert table[..|table|] == table;
      BuiltSerialised(env, Pairs(table));
    }

    /** The commands of one line of a table, each one more meaning of its key. */
    method LoadLine(ghost before: seq<Pair>, line: Binding)
      requires Now() == Built(env, before)
      modifies this
      ensures Now() == Built(env, before + Said(line.text, line.commands))
    {
      hide Said, Built;
      var hint := env(line.text);
      NothingSaid(before, line);
      for j := 0 to |line.commands|
        invariant Now() == Built(env, before + Said(line.text, line.commands[..j]))
      {
        var cmd := line.commands[j];
        SaidMore(before, line, j);
        BuiltMore(env, before + Said(line.text, line.commands[..j]), (line.text, cmd));
        if hint.keep && cmd != "" {
          serial := serial + 1;
          var meanings := if hint.key in bindings then bindings[hint.key] else [];
          bindings := bindings[hint.key := meanings + [Bound(cmd, serial, hint.weight)]];
        }
      }
      assert line.commands[..|line.commands|] == line.commands;
    }

    /** Replaces everything a key means; a blank command unbinds it. */
    method Rebind(text: string, command: string)
      requires Valid()
      modifies this
      ensures Valid() && Now() == Bind(env, old(Now()), text, command)
    {
      hide Serialised;
      EditKeepsSerialised(env, Now(), Replace(text, command));
      var hint := env(text);
      if command == "" || !hint.keep {
        bindings := bindings - {hint.key};
      } else {
        serial := serial + 1;
        bindings := bindings[hint.key := [Bound(command, serial, hint.weight)]];
      }
      revision := revision + 1;
    }

    /** Gives a key one more meaning, where it does not have it already. */
    method AddMeaning(text: string, command: string)
      requires Valid()
      modifies this
      ensures Valid() && Now() == AddBinding(env, old(Now()), text, command)
    {
      hide Serialised;
      EditKeepsSerialised(env, Now(), Add(text, command));
      if command == "" {
        return;
      }
      var hint := env(text);
      if !hint.keep {
        return;
      }
      var bs := if hint.key in bindings then bindings[hint.key] else [];
      for i := 0 to |bs|
        invariant forall j :: 0 <= j < i ==> bs[j].command != command
      {
        if bs[i].command == command {
          PlaceExact(bs, command, i);
          return;
        }
      }
      PlaceExact(bs, command, |bs|);
      serial := serial + 1;
      bindings := bindings[hint.key := bs + [Bound(command, serial, hint.weight)]];
      revision := revision + 1;
    }

    /** Binds a key to a command and makes it the newest binding of that command. */
    method MakeNewest(text: string, command: string)
      requires Valid()
      modifies this
      ensures Valid() && Now() == Prefer(env, old(Now()), text, command)
    {
      hide Serialised;
      EditKeepsSerialised(env, Now(), Favour(text, command));
      if command == "" {
        return;
      }
      var hint := env(text);
      if !hint.keep {
        return;
      }
      serial := serial + 1;
      var bs := if hint.key in bindings then bindings[hint.key] else [];
      for i := 0 to |bs|
        invariant forall j :: 0 <= j < i ==> bs[j].command != command
        invariant serial == old(serial) + 1 && bindings == old(bindings) && revision == old(revision)
      {
        if bs[i].command == command {
          PlaceExact(bs, command, i);
          var b := bs[i].(serial := serial);
          if hint.weight > b.weight {
            b := b.(weight := hint.weight);
          }
          bindings := bindings[hint.key := bs[i := b]];
          revision := revision + 1;
          return;
        }
      }
      PlaceExact(bs, command, |bs|);
      bindings := bindings[hint.key := bs + [Bound(command, serial, hint.weight)]];
      revision := revision + 1;
    }

    method Edit(e: Edit)
      requires Valid()
      modifies this
      ensures Valid() && Now() == Edited(env, old(Now()), e)
    {
      match e {
        case Replace(text, command) => Rebind(text, command);
        case Add(text, command) => AddMeaning(text, command);
        case Favour(text, command) => MakeNewest(text, command);
      }
    }

    method OverlayLine(ghost was: Registry, ghost before: seq<Pair>, line: Binding)
      requires Valid() && Now() == Overlaid(env, was, before)
      modifies this
      ensures Valid() && Now() == Overlaid(env, was, before + Said(line.text, line.commands))
    {
      hide Said, Overlaid, Serialised;
      NothingSaid(before, line);
      for j := 0 to |line.commands|
        invariant Valid() && Now() == Overlaid(env, was, before + Said(line.text, line.commands[..j]))
      {
        SaidMore(before, line, j);
        OverlaidMore(env, was, before + Said(line.text, line.commands[..j]), (line.text, line.commands[j]));
        if line.commands[j] == "" {
          Rebind(line.text, "");
        } else {
          MakeNewest(line.text, line.commands[j]);
        }
      }
      assert line.commands[..|line.commands|] == line.commands;
    }

    /** Lays a host's keymap over this one, in the order it was written. */
    method ApplyHostKeymap(table: seq<Binding>)
      requires Valid()
      modifies this
      ensures Valid() && Now() == Overlaid(env, old(Now()), Pairs(table))
    {
      hide Pairs, Said, Serialised;
      NothingBuilt(env);
      assert table[..0] == [];
      for i := 0 to |table|
        invariant Valid() && Now() == Overlaid(env, old(Now()), Pairs(table[..i]))
      {
        OverlayLine(old(Now()), Pairs(table[..i]), table[i]);
        PairsLine(table, i);
      }
      assert table[..|table|] == table;
    }

    /** Every key bound to a command, the one to advertise first. */
    method KeysFor(command: string) returns (keys: seq<string>)
      requires Valid()
      ensures IsRanking(Now(), command, keys)
    {
      hide Serialised, Has, RankOf, Listed, IsRanking, Place;
      keys := [];
      var ranks: seq<Bound> := [];
      var left := bindings.Keys;
      NothingListed(Now(), command);
      while left != {}
        invariant left <= bindings.Keys && |keys| == |ranks|
        invariant Listed(Now(), command, bindings.Keys - left, keys, ranks)
        decreases |left|
      {
        var k :| k in left;
        assert bindings.Keys - (left - {k}) == bindings.Keys - left + {k};
        var at := Place(bindings[k], command);
        HasHere(Now(), k, command);
        if at < |bindings[k]| {
          ListedApart(Now(), command, bindings.Keys - left, keys, ranks, k);
          var where, keys', ranks' := Insert(keys, ranks, k, bindings[k][at]);
          ListedMore(Now(), command, bindings.Keys - left, keys, ranks, k, where);
          keys, ranks := keys', ranks';
        } else {
          PassedOver(Now(), command, bindings.Keys - left, keys, ranks, k);
        }
        left := left - {k};
      }
      assert bindings.Keys - left == bindings.Keys;
      AllListed(Now(), command, keys, ranks);
    }

    /** What a situation offering these commands resolves. */
    method BuildContext(commands: seq<string>) returns (ctx: Context)
      ensures ctx == ContextOf(Now(), set c | c in commands)
    {
      hide First;
      var offered := set c | c in commands;
      var mappings: map<string, string> := map[];
      var ranks: map<string, Bound> := map[];
      var left := bindings.Keys;
      while left != {}
        invariant left <= bindings.Keys
        invariant mappings.Keys == ranks.Keys == set k | k in bindings && k !in left && Offers(Now(), offered, k)
        invariant forall k :: k in mappings ==>
                    mappings[k] == First(Meanings(Now(), k), offered).value.command
                    && ranks[k] == First(Meanings(Now(), k), offered).value
        decreases |left|
      {
        var k :| k in left;
        left := left - {k};
        var b := FirstOffered(bindings[k], offered);
        if b.Some? {
          mappings, ranks := mappings[k := b.value.command], ranks[k := b.value];
        }
      }
      ctx := Context(mappings, ranks, revision);
      assert mappings == ContextOf(Now(), offered).mappings && ranks == ContextOf(Now(), offered).ranks;
    }
  }

  lemma {:induction false} HasHere(r: Registry, key: string, command: string)
    requires key in r.bindings
    ensures Has(r, key, command) <==> Place(r.bindings[key], command) < |r.bindings[key]|
    ensures Has(r, key, command) ==> RankOf(r, key, command) == r.bindings[key][Place(r.bindings[key], command)]
  {}

  lemma {:induction false} HasBound(r: Registry, command: string)
    ensures forall k :: Has(r, k, command) ==> k in r.bindings
  {}

  lemma {:induction false} RanksDiffer(r: Registry, k: string, l: string, command: string)
    requires Serialised(r) && Has(r, k, command) && Has(r, l, command) && k != l
    ensures RankOf(r, k, command).serial != RankOf(r, l, command).serial
  {
    HasBound(r, command);
    assert r.bindings[k][Place(r.bindings[k], command)] == RankOf(r, k, command);
    assert r.bindings[l][Place(r.bindings[l], command)] == RankOf(r, l, command);
  }

  /** The keys seen so far that a command has, in the order of their ranks. */
  ghost predicate Listed(r: Registry, command: string, seen: set<string>, keys: seq<string>, ranks: seq<Bound>) {
    && |keys| == |ranks|
    && (forall k :: k in keys <==> k in seen && Has(r, k, command))
    && (forall i :: 0 <= i < |keys| ==> Has(r, keys[i], command) && ranks[i] == RankOf(r, keys[i], command))
    && (forall i, j :: 0 <= i < j < |ranks| ==> Outranks(ranks[i], ranks[j]))
  }

  lemma {:induction false} NothingListed(r: Registry, command: string)
    ensures Listed(r, command, r.bindings.Keys - r.bindings.Keys, [], [])
  {}

  lemma {:induction false} PassedOver(r: Registry, command: string, seen: set<string>, keys: seq<string>,
      ranks: seq<Bound>, k: string)
    requires Listed(r, command, seen, keys, ranks) && !Has(r, k, command)
    ensures Listed(r, command, seen + {k}, keys, ranks)
  {}

  lemma {:induction false} AllListed(r: Registry, command: string, keys: seq<string>, ranks: seq<Bound>)
    requires Listed(r, command, r.bindings.Keys, keys, ranks)
    ensures IsRanking(r, command, keys)
  {
    HasBound(r, command);
  }

  lemma {:induction false} ListedApart(r: Registry, command: string, seen: set<string>, keys: seq<string>,
      ranks: seq<Bound>, k: string)
    requires Serialised(r) && Listed(r, command, seen, keys, ranks) && Has(r, k, command) && k !in seen
    ensures forall i :: 0 <= i < |ranks| ==> ranks[i].serial != RankOf(r, k, command).serial
    ensures forall i, j :: 0 <= i < j < |ranks| ==> Outranks(ranks[i], ranks[j])
  {
    hide Serialised, Has, RankOf;
    forall i | 0 <= i < |ranks| ensures ranks[i].serial != RankOf(r, k, command).serial {
      assert keys[i] in keys;
      RanksDiffer(r, keys[i], k, command);
    }
  }

  lemma {:induction false} ListedMore(r: Registry, command: string, seen: set<string>, keys: seq<string>,
      ranks: seq<Bound>, k: string, at: nat)
    requires Listed(r, command, seen, keys, ranks) && Has(r, k, command) && at <= |ranks|
    requires var ranks' := ranks[..at] + [RankOf(r, k, command)] + ranks[at..];
             forall i, j :: 0 <= i < j < |ranks'| ==> Outranks(ranks'[i], ranks'[j])
    ensures Listed(r, command, seen + {k}, keys[..at] + [k] + keys[at..],
        ranks[..at] + [RankOf(r, k, command)] + ranks[at..])
  {
    hide Has, RankOf, Outranks;
    var b := RankOf(r, k, command);
    var keys', ranks' := keys[..at] + [k] + keys[at..], ranks[..at] + [b] + ranks[at..];
    SplicedIn(keys, at, k);
    forall i | 0 <= i < |keys'| ensures Has(r, keys'[i], command) && ranks'[i] == RankOf(r, keys'[i], command) {
      assert i > at ==> keys'[i] == keys[i - 1] && ranks'[i] == ranks[i - 1];
    }
  }

  lemma {:induction false} SplicedIn(keys: seq<string>, at: nat, k: string)
    requires at <= |keys|
    ensures forall x :: x in keys[..at] + [k] + keys[at..] <==> x in keys || x == k
  {
    assert keys == keys[..at] + keys[at..];
  }

  /** Puts a key where its rank belongs among keys already in order. */
  method Insert(keys: seq<string>, ranks: seq<Bound>, key: string, b: Bound)
    returns (at: nat, keys': seq<string>, ranks': seq<Bound>)
    requires |keys| == |ranks|
    requires forall i, j :: 0 <= i < j < |ranks| ==> Outranks(ranks[i], ranks[j])
    requires forall i :: 0 <= i < |ranks| ==> ranks[i].serial != b.serial
    ensures at <= |ranks| && keys' == keys[..at] + [key] + keys[at..] && ranks' == ranks[..at] + [b] + ranks[at..]
    ensures forall i, j :: 0 <= i < j < |ranks'| ==> Outranks(ranks'[i], ranks'[j])
  {
    at := 0;
    while at < |ranks| && Outranks(ranks[at], b)
      invariant at <= |ranks| && forall i :: 0 <= i < at ==> Outranks(ranks[i], b)
    {
      at := at + 1;
    }
    keys' := keys[..at] + [key] + keys[at..];
    ranks' := ranks[..at] + [b] + ranks[at..];
  }

  method FirstOffered(bs: seq<Bound>, offered: set<string>) returns (b: Option<Bound>)
    ensures b == First(bs, offered)
  {
    assert bs[0..] == bs;
    for i := 0 to |bs|
      invariant First(bs, offered) == First(bs[i..], offered)
    {
      assert bs[i..][1..] == bs[i + 1..];
      if bs[i].command in offered {
        return Some(bs[i]);
      }
    }
    return None;
  }

  // ----- the key to show -----

  /** The best key found so far; the empty one stands for none. */
  datatype Best = Best(key: string, rank: Bound)

  const NO_BEST := Best("", Bound("", 0, 0))

  function Consider(ctx: Context, command: string, best: Best, key: string): Best
    requires key in ctx.mappings && key in ctx.ranks
  {
    var rank := ctx.ranks[key];
    if ctx.mappings[key] != command then best
    else if best.key == "" || Outranks(rank, best.rank) || (rank == best.rank && Greater(key, best.key)) then
        Best(key, rank)
    else best
  }

  predicate Among(ctx: Context, order: seq<string>) {
    forall i :: 0 <= i < |order| ==> order[i] in ctx.mappings && order[i] in ctx.ranks
  }

  /** What a walk of the mappings in some order finds. */
  function Picked(ctx: Context, command: string, order: seq<string>): Best
    requires Among(ctx, order)
  {
    if order == [] then NO_BEST
    else
      var n := |order| - 1;
      Consider(ctx, command, Picked(ctx, command, order[..n]), order[n])
  }

  /** Every key mapped, once each. */
  ghost predicate Walks(ctx: Context, order: seq<string>) {
    && Among(ctx, order) && (forall k :: k in ctx.mappings ==> k in order)
    && (forall i, j :: 0 <= i < j < |order| ==> order[i] != order[j])
  }

  predicate Runs(ctx: Context, command: string, key: string) {
    key in ctx.mappings && ctx.mappings[key] == command
  }

  /** The empty key is the one to show for a command that other keys run as well: the
      source tells having found it from having found none by its being empty. */
  ghost predicate Hidden(ctx: Context, command: string) {
    Runs(ctx, command, "") && Advertises(ctx, command, "") && exists k :: k != "" && Runs(ctx, command, k)
  }

  // ----- ties, in a context put together without ranks -----

  /** Where two spellings part, and the first of them goes on or is greater there. */
  predicate PartsAbove(a: string, b: string, n: nat) {
    n < |a| && n <= |b| && a[..n] == b[..n] && (n == |b| || a[n] > b[n])
  }

  lemma {:induction false} GreaterParts(a: string, b: string)
    ensures Greater(a, b) <==> exists n :: PartsAbove(a, b, n)
  {
    if exists n :: PartsAbove(a, b, n) {
      var n :| PartsAbove(a, b, n);
      GreaterFrom(a, b, n);
    }
    if Greater(a, b) {
      var n := PartOf(a, b);
    }
  }

  lemma {:induction false} GreaterFrom(a: string, b: string, n: nat)
    requires PartsAbove(a, b, n)
    ensures Greater(a, b)
  {
    if n > 0 {
      assert a[0] == a[..n][0] == b[..n][0] == b[0];
      assert a[1..][..n - 1] == a[..n][1..] == b[..n][1..] == b[1..][..n - 1];
      GreaterFrom(a[1..], b[1..], n - 1);
    }
  }

  lemma {:induction false} PartOf(a: string, b: string) returns (n: nat)
    requires Greater(a, b)
    ensures PartsAbove(a, b, n)
  {
    n := 0;
    if b != "" && a[0] == b[0] {
      var m := PartOf(a[1..], b[1..]);
      n := m + 1;
      assert a[..n] == [a[0]] + a[1..][..m] == b[..n];
    }
  }

  lemma {:induction false} GreaterOrders(a: string, b: string, c: string)
    ensures a == b || Greater(a, b) || Greater(b, a)
    ensures Greater(a, b) && Greater(b, c) ==> Greater(a, c)
  {
    if a != "" && b != "" {
      GreaterOrders(a[1..], b[1..], if c == "" then c else c[1..]);
      assert a[0] == b[0] && a[1..] == b[1..] ==> a == [a[0]] + a[1..] == b;
    }
  }

  /** Where no rank tells keys apart the greatest spelling is found, in whatever order they
      are walked. */
  lemma {:induction false} TiesGoToGreatest(ctx: Context, command: string, order: seq<string>)
    requires Among(ctx, order) && "" !in order
    requires forall x, y :: x in order && y in order ==> ctx.ranks[x] == ctx.ranks[y]
    ensures var key := Picked(ctx, command, order).key;
            if key == "" then forall x :: x in order ==> !Runs(ctx, command, x)
            else
              && key in order && Runs(ctx, command, key) && Picked(ctx, command, order).rank == ctx.ranks[key]
              && forall x :: x in order && Runs(ctx, command, x) && x != key ==> Greater(key, x)
  {
    if order != [] {
      var n := |order| - 1;
      var k, before := order[n], order[..n];
      assert forall x :: x in order <==> x == k || x in before;
      TiesGoToGreatest(ctx, command, before);
      var best := Picked(ctx, command, before);
      assert Picked(ctx, command, order) == Consider(ctx, command, best, k);
      hide Picked, Greater;
      GreaterOrders(k, best.key, best.key);
      forall x | x in before { GreaterOrders(k, best.key, x); }
    }
  }

  lemma {:induction false} TopExists(ctx: Context, command: string, keys: set<string>) returns (top: string)
    requires Ranked(ctx) && keys != {} && forall k :: k in keys ==> Runs(ctx, command, k)
    ensures top in keys && keys <= ctx.ranks.Keys
    ensures forall k :: k in keys && k != top ==> Outranks(ctx.ranks[top], ctx.ranks[k])
    decreases |keys|
  {
    var k :| k in keys;
    var rest := keys - {k};
    assert keys <= ctx.ranks.Keys && forall x :: x in keys ==> x == k || x in rest;
    if rest == {} {
      top := k;
    } else {
      var t := TopExists(ctx, command, rest);
      top := if Outranks(ctx.ranks[k], ctx.ranks[t]) then k else t;
    }
  }

  /** Some key is to be shown wherever some key runs the command. */
  lemma {:induction false} SomeAdvertised(ctx: Context, command: string, k: string) returns (top: string)
    requires Ranked(ctx) && command != "" && Runs(ctx, command, k)
    ensures Runs(ctx, command, top) && Advertises(ctx, command, top)
  {
    var keys := set x | x in ctx.mappings && ctx.mappings[x] == command;
    assert k in keys;
    top := TopExists(ctx, command, keys);
  }

  /** A walk that has passed the key to show has it still. */
  lemma {:induction false} TopStays(ctx: Context, command: string, order: seq<string>, top: string)
    requires Ranked(ctx) && Among(ctx, order) && command != ""
    requires top != "" && Runs(ctx, command, top) && Advertises(ctx, command, top)
    ensures var b := Picked(ctx, command, order);
            && (b.key != "" ==> Runs(ctx, command, b.key) && b.rank == ctx.ranks[b.key])
            && (top in order ==> b.key == top)
  {
    if order != [] {
      var n := |order| - 1;
      TopStays(ctx, command, order[..n], top);
      assert top in order ==> top == order[n] || top in order[..n];
    }
  }

  lemma {:induction false} NothingElse(ctx: Context, command: string, order: seq<string>)
    requires Among(ctx, order) && forall k :: k != "" ==> !Runs(ctx, command, k)
    ensures Picked(ctx, command, order).key == ""
  {
    if order != [] {
      var n := |order| - 1;
      NothingElse(ctx, command, order[..n]);
      assert Runs(ctx, command, order[n]) ==> order[n] == "";
    }
  }

  lemma {:induction false} PickedIsAdvertised(ctx: Context, command: string, order: seq<string>)
    requires Ranked(ctx) && Walks(ctx, order) && command != "" && !Hidden(ctx, command)
    ensures Advertises(ctx, command, Picked(ctx, command, order).key)
  {
    if k :| k != "" && Runs(ctx, command, k) {
      var top := SomeAdvertised(ctx, command, k);
      TopStays(ctx, command, order, top);
    } else {
      NothingElse(ctx, command, order);
      assert forall x :: x in ctx.mappings && ctx.mappings[x] == command ==> Runs(ctx, command, x);
    }
  }

  /** Once past the empty key, a walk that meets another does not come back to it. */
  lemma {:induction false} PastEmpty(ctx: Context, command: string, order: seq<string>, k: string)
    requires Among(ctx, [""] + order) && "" !in order && k in order && Runs(ctx, command, k)
    ensures Among(ctx, order) && Picked(ctx, command, [""] + order).key != ""
  {
    hide Outranks, Greater, Among, Runs;
    var n := |order| - 1;
    var before, last := order[..n], order[n];
    assert order == before + [last] && last in order && forall x :: x in before ==> x in order;
    Parted(ctx, command, before, last);
    if k in before {
      PastEmpty(ctx, command, before, k);
    }
    StaysPast(ctx, command, Picked(ctx, command, [""] + before), last, k);
  }

  lemma {:induction false} Parted(ctx: Context, command: string, before: seq<string>, last: string)
    requires Among(ctx, [""] + (before + [last]))
    ensures Among(ctx, before + [last]) && Among(ctx, [""] + before) && last in ctx.mappings && last in ctx.ranks
    ensures Picked(ctx, command, [""] + (before + [last]))
         == Consider(ctx, command, Picked(ctx, command, [""] + before), last)
  {
    var all := [""] + (before + [last]);
    assert all[..|all| - 1] == [""] + before && all[|all| - 1] == last;
    assert forall i :: 0 <= i <= |before| ==> (before + [last])[i] == all[i + 1];
    assert forall i :: 0 <= i <= |before| ==> ([""] + before)[i] == all[i];
  }

  lemma {:induction false} StaysPast(ctx: Context, command: string, b: Best, key: string, k: string)
    requires key in ctx.mappings && key in ctx.ranks && key != ""
    requires b.key != "" || (key == k && Runs(ctx, command, k))
    ensures Consider(ctx, command, b, key).key != ""
  {}

  lemma {:induction false} SomeOrder(keys: set<string>) returns (order: seq<string>)
    ensures forall k :: k in keys <==> k in order
    ensures forall i, j :: 0 <= i < j < |order| ==> order[i] != order[j]
    decreases |keys|
  {
    if keys == {} {
      order := [];
    } else {
      var k :| k in keys;
      var rest := SomeOrder(keys - {k});
      order := rest + [k];
      forall i, j | 0 <= i < j < |order| ensures order[i] != order[j] {
        assert rest[i] in rest;
      }
      assert forall x :: x in order <==> x in rest || x == k;
    }
  }

  /** Whatever order the mappings are walked in, the key found is the one to show, except
      where that is the empty key and others run the command too; and there some order
      finds another. */
  lemma {:induction false} ShownExactly(ctx: Context, command: string)
    requires Ranked(ctx) && command != ""
    ensures !Hidden(ctx, command)
       <==> forall order {:trigger Walks(ctx, order)} ::
              Walks(ctx, order) ==> Advertises(ctx, command, Picked(ctx, command, order).key)
  {
    if Hidden(ctx, command) {
      var k :| k != "" && Runs(ctx, command, k);
      var rest := SomeOrder(ctx.mappings.Keys - {""});
      var order := [""] + rest;
      forall i | 0 <= i < |order| ensures order[i] in ctx.mappings && order[i] in ctx.ranks {
        assert i > 0 ==> order[i] in rest;
      }
      assert forall x :: x in order <==> x == "" || x in rest;
      assert forall i :: 0 <= i < |rest| ==> rest[i] in rest;
      assert Walks(ctx, order);
      PastEmpty(ctx, command, rest, k);
      var found := Picked(ctx, command, order).key;
      if Advertises(ctx, command, found) {
        AdvertisesUnique(ctx, command, found, "");
      }
    } else {
      forall order {:trigger Walks(ctx, order)} | Walks(ctx, order)
        ensures Advertises(ctx, command, Picked(ctx, command, order).key)
      {
        PickedIsAdvertised(ctx, command, order);
      }
    }
  }

  /** The one key to show for a command here. */
  method KeyForCommand(ctx: Context, command: string) returns (best: string)
    requires Ranked(ctx)
    ensures !Hidden(ctx, command) ==> Advertises(ctx, command, best)
  {
    if command == "" {
      return "";
    }
    var found := NO_BEST;
    ghost var order: seq<string> := [];
    var left := ctx.mappings.Keys;
    while left != {}
      invariant left <= ctx.mappings.Keys
      invariant forall k :: k in order <==> k in ctx.mappings && k !in left
      invariant forall i, j :: 0 <= i < j < |order| ==> order[i] != order[j]
      invariant Among(ctx, order) && found == Picked(ctx, command, order)
      decreases |left|
    {
      hide Picked, Outranks, Greater;
      var key :| key in left;
      left := left - {key};
      ghost var was := order;
      order := order + [key];
      assert order[..|order| - 1] == was;
      assert forall i :: 0 <= i < |was| ==> was[i] in was;
      PickedMore(ctx, command, was, key);
      if ctx.mappings[key] == command {
        var rank := ctx.ranks[key];
        if found.key == "" || Outranks(rank, found.rank) || (rank == found.rank && Greater(key, found.key)) {
          found := Best(key, rank);
        }
      }
    }
    if !Hidden(ctx, command) {
      PickedIsAdvertised(ctx, command, order);
    }
    best := found.key;
  }

  lemma {:induction false} PickedMore(ctx: Context, command: string, order: seq<string>, key: string)
    requires Among(ctx, order) && key in ctx.mappings && key in ctx.ranks
    ensures Among(ctx, order + [key])
    ensures Picked(ctx, command, order + [key]) == Consider(ctx, command, Picked(ctx, command, order), key)
  {
    assert (order + [key])[..|order|] == order;
  }

  // ----- the cache -----

  class TrinketKeys {
    var commands: seq<string>
    var ctx: Context
    var rev: nat
    var built: bool
    var owner: Option<nat>
    var reg: KeyRegistry?

    constructor ()
      ensures Valid() && commands == [] && !built
    {
      commands, ctx, rev, built, owner, reg := [], Context(map[], map[], 0), 0, false, None, null;
    }

    /** A context built is the one its registry would give at the revision it was built at. */
    ghost predicate Valid()
      reads this, reg
    {
      built ==>
        && reg != null && rev <= reg.revision
        && (rev == reg.revision ==> ctx == ContextOf(reg.Now(), set c | c in commands))
    }

    method SetKeyOwner(o: Option<nat>)
      requires Valid()
      modifies this`owner, this`built
      ensures Valid() && owner == o && (built ==> old(built))
    {
      if owner != o {
        owner, built := o, false;
      }
    }

    method SetCommands(cs: seq<string>)
      modifies this`commands, this`built
      ensures Valid() && commands == cs && !built
    {
      commands, built := cs, false;
    }

    /** Rebuilds the context where the registry in force is another or has moved on. */
    method Refresh(r: KeyRegistry)
      requires Valid()
      modifies this`ctx, this`rev, this`reg, this`built
      ensures Valid() && built && reg == r && ctx == ContextOf(r.Now(), set c | c in commands)
    {
      if !built || rev != r.revision || reg != r {
        ctx := r.BuildContext(commands);
        rev, reg, built := r.revision, r, true;
      }
    }

    method KeyCommand(r: KeyRegistry, key: string) returns (command: string)
      requires Valid()
      modifies this`ctx, this`rev, this`reg, this`built
      ensures Valid() && built && reg == r
      ensures command == Resolve(ContextOf(r.Now(), set c | c in commands), key)
    {
      Refresh(r);
      command := Resolve(ctx, key);
    }

    method KeyToShow(r: KeyRegistry, command: string) returns (key: string)
      requires Valid() && r.Valid()
      modifies this`ctx, this`rev, this`reg, this`built
      ensures Valid() && built && reg == r
      ensures var here := ContextOf(r.Now(), set c | c in commands);
              !Hidden(here, command) ==> Advertises(here, command, key)
    {
      Refresh(r);
      ContextRanked(r.Now(), set c | c in commands);
      key := KeyForCommand(ctx, command);
    }
  }

  // ----- any run of edits, changes of owner and of commands, and questions -----

  datatype Op =
    | EditOne(at: nat, edit: Edit)
    | Own(owner: Option<nat>)
    | Offer(commands: seq<string>)
    | Press(at: nat, key: string)
    | Show(at: nat, command: string)

  predicate Within(op: Op, n: nat) {
    (op.EditOne? || op.Press? || op.Show?) ==> op.at < n
  }

  function RegistriesAfter(env: Hints, rs: seq<Registry>, op: Op): seq<Registry>
    requires Within(op, |rs|)
  {
    if op.EditOne? then rs[op.at := Edited(env, rs[op.at], op.edit)] else rs
  }

  function CommandsAfter(commands: seq<string>, op: Op): seq<string> {
    if op.Offer? then op.commands else commands
  }

  /** What a step answers, if a context were built for it there and then. */
  ghost predicate FreshAnswer(rs: seq<Registry>, commands: seq<string>, op: Op, answer: Option<string>)
    requires Within(op, |rs|)
  {
    match op
    case Press(at, key) => answer == Some(Resolve(ContextOf(rs[at], set c | c in commands), key))
    case Show(at, command) =>
      var ctx := ContextOf(rs[at], set c | c in commands);
      answer.Some? && (!Hidden(ctx, command) ==> Advertises(ctx, command, answer.value))
    case _ => answer == None
  }

  ghost predicate AnsweredFresh(env: Hints, rs: seq<Registry>, commands: seq<string>, ops: seq<Op>,
      answers: seq<Option<string>>)
    requires forall i :: 0 <= i < |ops| ==> Within(ops[i], |rs|)
    decreases |ops|
  {
    if ops == [] then answers == []
    else
      && answers != [] && FreshAnswer(rs, commands, ops[0], answers[0])
      && AnsweredFresh(env, RegistriesAfter(env, rs, ops[0]), CommandsAfter(commands, ops[0]), ops[1..], answers[1..])
  }

  ghost function Snapshot(regs: seq<KeyRegistry>): seq<Registry>
    reads regs
  {
    seq(|regs|, i requires 0 <= i < |regs| reads regs => regs[i].Now())
  }

  ghost predicate Separate(env: Hints, regs: seq<KeyRegistry>)
    reads regs
  {
    && (forall i, j :: 0 <= i < j < |regs| ==> regs[i] != regs[j])
    && (forall i :: 0 <= i < |regs| ==> regs[i].Valid() && regs[i].env == env)
  }

  method Take(env: Hints, regs: seq<KeyRegistry>, t: TrinketKeys, op: Op) returns (answer: Option<string>)
    requires Separate(env, regs) && t.Valid() && (t.built ==> t.reg in regs) && Within(op, |regs|)
    modifies regs, t
    ensures Separate(env, regs) && t.Valid() && (t.built ==> t.reg in regs)
    ensures Snapshot(regs) == RegistriesAfter(env, old(Snapshot(regs)), op)
    ensures t.commands == CommandsAfter(old(t.commands), op)
    ensures FreshAnswer(old(Snapshot(regs)), old(t.commands), op, answer)
  {
    hide Serialised, ContextOf, Edited, Advertises;
    answer := None;
    match op {
      case EditOne(at, e) =>
        EditOneOf(env, regs, t, at, e);
      case Own(o) => t.SetKeyOwner(o);
      case Offer(cs) => t.SetCommands(cs);
      case Press(at, key) =>
        var command := t.KeyCommand(regs[at], key);
        answer := Some(command);
      case Show(at, command) =>
        var key := t.KeyToShow(regs[at], command);
        answer := Some(key);
    }
  }

  /** An edit of any registry, the cached one or not, leaves a cache that knows its age. */
  method EditOneOf(env: Hints, regs: seq<KeyRegistry>, t: TrinketKeys, at: nat, e: Edit)
    requires Separate(env, regs) && t.Valid() && (t.built ==> t.reg in regs) && at < |regs|
    modifies regs[at]
    ensures Separate(env, regs) && t.Valid()
    ensures Snapshot(regs) == old(Snapshot(regs))[at := Edited(env, old(Snapshot(regs))[at], e)]
  {
    hide Serialised, ContextOf, Edited;
    var r := regs[at];
    EditKeepsSerialised(env, r.Now(), e);
    r.Edit(e);
    assert forall i :: 0 <= i < |regs| && i != at ==> regs[i] != r && regs[i].Now() == old(regs[i].Now());
    assert forall i :: 0 <= i < |regs| && i != at ==> old(regs[i].Valid()) ==> regs[i].Valid();
  }

  /** Over any run, with any number of registries coming into force, being edited and
      giving way to one another, the cached context answers as a fresh one would. */
  method Run(env: Hints, regs: seq<KeyRegistry>, t: TrinketKeys, ops: seq<Op>) returns (answers: seq<Option<string>>)
    requires Separate(env, regs) && t.Valid() && (t.built ==> t.reg in regs)
    requires forall i :: 0 <= i < |ops| ==> Within(ops[i], |regs|)
    modifies regs, t
    ensures AnsweredFresh(env, old(Snapshot(regs)), old(t.commands), ops, answers)
    decreases |ops|
  {
    hide FreshAnswer, RegistriesAfter, CommandsAfter, Separate, Within;
    if ops == [] {
      return [];
    }
    var first := Take(env, regs, t, ops[0]);
    var rest := Run(env, regs, t, ops[1..]);
    answers := [first] + rest;
    assert answers[1..] == rest;
  }
}
