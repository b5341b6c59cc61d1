/**
 Key contexts: what the keys mean to something that can carry out only some commands,
 which key to show for each, and which edits of the registry may change either.
 */
module KeyContexts {
  import opened Syntax
  import opened Keymap

  /** What a context resolves, and how what it kept was ranked in the registry. */
  datatype Context = Context(mappings: map<string, string>, ranks: map<string, Bound>, revision: nat)

  /** The first of a key's meanings that is on offer. */
  function First(bs: seq<Bound>, offered: set<string>): Option<Bound> {
    if bs == [] then None
    else if bs[0].command in offered then Some(bs[0])
    else First(bs[1..], offered)
  }

  predicate Offers(r: Registry, offered: set<string>, key: string) {
    First(Meanings(r, key), offered).Some?
  }

  function ContextOf(r: Registry, offered: set<string>): Context {
    Context(map k | k in r.bindings && Offers(r, offered, k) :: First(Meanings(r, k), offered).value.command,
            map k | k in r.bindings && Offers(r, offered, k) :: First(Meanings(r, k), offered).value,
            r.revision)
  }

  function Resolve(ctx: Context, key: string): string {
    if key in ctx.mappings then ctx.mappings[key] else ""
  }

  /** Every key mapped has its rank, and no two ranks were given at the same time. */
  ghost predicate Ranked(ctx: Context) {
    && ctx.mappings.Keys == ctx.ranks.Keys
    && (forall k, l :: k in ctx.ranks && l in ctx.ranks && k != l ==> ctx.ranks[k].serial != ctx.ranks[l].serial)
  }

  /** A key to show for a command: one that runs it here and outranks every other that
      does; or none, where nothing here runs it. */
  ghost predicate Advertises(ctx: Context, command: string, key: string) {
    if command == "" || forall k :: k in ctx.mappings ==> ctx.mappings[k] != command then key == ""
    else
      && key in ctx.mappings && ctx.mappings[key] == command && key in ctx.ranks
      && (forall k :: k in ctx.mappings && ctx.mappings[k] == command && k != key ==>
            k in ctx.ranks && Outranks(ctx.ranks[key], ctx.ranks[k]))
  }

  // ----- the keys of a command -----

  predicate Has(r: Registry, key: string, command: string) {
    Place(Meanings(r, key), command) < |Meanings(r, key)|
  }

  function RankOf(r: Registry, key: string, command: string): Bound
    requires Has(r, key, command)
  {
    Meanings(r, key)[Place(Meanings(r, key), command)]
  }

  /** Every key of a command, the one to advertise first and each outranking the next. */
  ghost predicate IsRanking(r: Registry, command: string, keys: seq<string>) {
    && (forall k :: k in keys <==> Has(r, k, command))
    && (forall i, j :: 0 <= i < j < |keys| ==> Outranks(RankOf(r, keys[i], command), RankOf(r, keys[j], command)))
  }

  ghost predicate Descending(rank: map<string, Bound>, keys: seq<string>) {
    && (forall k :: k in keys ==> k in rank)
    && (forall i, j :: 0 <= i < j < |keys| ==> Outranks(rank[keys[i]], rank[keys[j]]))
  }

  lemma {:induction false} DescendingUnique(rank: map<string, Bound>, a: seq<string>, b: seq<string>)
    requires Descending(rank, a) && Descending(rank, b)
    requires forall k :: k in a <==> k in b
    ensures a == b
  {
    if a == [] || b == [] {
      Something(a);
      Something(b);
    } else {
      assert b[0] in b;
      var i :| 0 <= i < |a| && a[i] == b[0];
      assert a[0] in b;
      var j :| 0 <= j < |b| && b[j] == a[0];
      assert i == 0 || j == 0;
      assert a[0] == b[0];
      forall k ensures k in a[1..] <==> k in b[1..] {
        TailIsRest(rank, a, k);
        TailIsRest(rank, b, k);
      }
      DescendingUnique(rank, a[1..], b[1..]);
    }
  }

  lemma {:induction false} Something(keys: seq<string>)
    ensures keys == [] || exists k :: k in keys
  {
    if keys != [] {
      assert keys[0] in keys;
    }
  }

  lemma {:induction false} TailIsRest(rank: map<string, Bound>, keys: seq<string>, k: string)
    requires keys != [] && Descending(rank, keys)
    ensures k in keys[1..] <==> k in keys && k != keys[0]
  {
    if k in keys[1..] {
      var i :| 0 <= i < |keys[1..]| && keys[1..][i] == k;
      assert keys[i + 1] == k;
    }
  }

  /** There is one ranking, so a listing of a command's keys is determined. */
  lemma {:induction false} RankingUnique(r: Registry, command: string, a: seq<string>, b: seq<string>)
    requires IsRanking(r, command, a) && IsRanking(r, command, b)
    ensures a == b
  {
    var rank := map k | k in a :: RankOf(r, k, command);
    DescendingUnique(rank, a, b);
  }

  // ----- contexts of a registry -----

  lemma {:induction false} FirstFacts(bs: seq<Bound>, offered: set<string>)
    ensures First(bs, offered).Some? ==>
              exists i :: 0 <= i < |bs| && bs[i] == First(bs, offered).value && bs[i].command in offered
                && forall j :: 0 <= j < i ==> bs[j].command !in offered
    ensures First(bs, offered).None? ==> forall b :: b in bs ==> b.command !in offered
  {
    if bs != [] && bs[0].command !in offered {
      FirstFacts(bs[1..], offered);
      var rest := First(bs[1..], offered);
      if rest.Some? {
        var i :| 0 <= i < |bs[1..]| && bs[1..][i] == rest.value && bs[1..][i].command in offered
                 && forall j :: 0 <= j < i ==> bs[1..][j].command !in offered;
        assert bs[i + 1] == rest.value;
        forall j | 0 <= j < i + 1 ensures bs[j].command !in offered {
          assert j > 0 ==> bs[j] == bs[1..][j - 1];
        }
      }
      assert forall b :: b in bs ==> b == bs[0] || b in bs[1..];
    }
  }

  lemma {:induction false} ContextRanked(r: Registry, offered: set<string>)
    requires Serialised(r)
    ensures Ranked(ContextOf(r, offered))
  {
    var ctx := ContextOf(r, offered);
    forall k, l | k in ctx.ranks && l in ctx.ranks && k != l ensures ctx.ranks[k].serial != ctx.ranks[l].serial {
      FirstFacts(Meanings(r, k), offered);
      FirstFacts(Meanings(r, l), offered);
      var i :| 0 <= i < |Meanings(r, k)| && Meanings(r, k)[i] == ctx.ranks[k];
      var j :| 0 <= j < |Meanings(r, l)| && Meanings(r, l)[j] == ctx.ranks[l];
      assert r.bindings[k][i] == ctx.ranks[k] && r.bindings[l][j] == ctx.ranks[l];
    }
  }

  lemma {:induction false} AdvertisesUnique(ctx: Context, command: string, a: string, b: string)
    requires Advertises(ctx, command, a) && Advertises(ctx, command, b)
    ensures a == b
  {}

  /** Where something is advertised for a command the situation offers it, pressing it
      there runs the command, and no other key that would is ranked above it. */
  lemma {:induction false} AdvertisedRuns(r: Registry, offered: set<string>, command: string, key: string)
    requires Serialised(r) && Advertises(ContextOf(r, offered), command, key)
    requires exists k ::
               && k in r.bindings && First(Meanings(r, k), offered).Some?
               && First(Meanings(r, k), offered).value.command == command
    requires command != ""
    ensures command in offered && Resolve(ContextOf(r, offered), key) == command && Offers(r, offered, key)
    ensures forall k :: Resolve(ContextOf(r, offered), k) == command && k != key ==>
              Offers(r, offered, k)
              && Outranks(First(Meanings(r, key), offered).value, First(Meanings(r, k), offered).value)
  {
    var ctx := ContextOf(r, offered);
    var k :| k in r.bindings && First(Meanings(r, k), offered).Some?
        && First(Meanings(r, k), offered).value.command == command;
    assert k in ctx.mappings && ctx.mappings[k] == command;
    FirstFacts(Meanings(r, key), offered);
  }

  // ----- overlays never steal a keystroke -----

  function EditedAll(env: Hints, r: Registry, edits: seq<Edit>): Registry
    decreases |edits|
  {
    if edits == [] then r else EditedAll(env, Edited(env, r, edits[0]), edits[1..])
  }

  lemma {:induction false} EditKeepsMeanings(env: Hints, r: Registry, e: Edit, key: string)
    requires !e.Replace?
    ensures Commands(Meanings(r, key)) <= Commands(Meanings(Edited(env, r, e), key))
  {
    var bs, bs' := Meanings(r, key), Meanings(Edited(env, r, e), key);
    assert forall i :: 0 <= i < |bs| ==> bs'[i].command == bs[i].command;
    assert Commands(bs')[..|bs|] == Commands(bs);
  }

  lemma {:induction false} EditsKeepMeanings(env: Hints, r: Registry, edits: seq<Edit>, key: string)
    requires forall e :: e in edits ==> !e.Replace?
    ensures Commands(Meanings(r, key)) <= Commands(Meanings(EditedAll(env, r, edits), key))
    decreases |edits|
  {
    hide Commands, Edited;
    if edits != [] {
      assert edits[0] in edits;
      EditKeepsMeanings(env, r, edits[0], key);
      EditsKeepMeanings(env, Edited(env, r, edits[0]), edits[1..], key);
    }
  }

  /** Which command of a list is resolved depends on the commands alone, and not on
      anything added behind them. */
  lemma {:induction false} FirstStays(bs: seq<Bound>, bs': seq<Bound>, offered: set<string>)
    requires Commands(bs) <= Commands(bs') && First(bs, offered).Some?
    ensures First(bs', offered).Some? && First(bs', offered).value.command == First(bs, offered).value.command
  {
    assert Commands(bs)[0] == bs[0].command && Commands(bs')[0] == bs'[0].command;
    if bs[0].command !in offered {
      assert Commands(bs[1..]) == Commands(bs)[1..] && Commands(bs'[1..]) == Commands(bs')[1..];
      FirstStays(bs[1..], bs'[1..], offered);
    }
  }

  /** Whatever is added or preferred after, every key that ran a command in a context built
      for any commands at all still runs that same command there. */
  lemma {:induction false} OverlaysNeverSteal(env: Hints, r: Registry, edits: seq<Edit>, offered: set<string>,
      key: string)
    requires forall e :: e in edits ==> !e.Replace?
    requires key in ContextOf(r, offered).mappings
    ensures Resolve(ContextOf(EditedAll(env, r, edits), offered), key) == Resolve(ContextOf(r, offered), key)
  {
    hide Commands;
    EditsKeepMeanings(env, r, edits, key);
    FirstStays(Meanings(r, key), Meanings(EditedAll(env, r, edits), key), offered);
    assert key in EditedAll(env, r, edits).bindings;
  }

  /** The lines of an overlay with no blanks are such edits. */
  function Favours(lines: seq<Pair>): seq<Edit> {
    seq(|lines|, i requires 0 <= i < |lines| => Favour(lines[i].0, lines[i].1))
  }

  lemma {:induction false} OverlayIsFavours(env: Hints, r: Registry, lines: seq<Pair>)
    requires forall line :: line in lines ==> line.1 != ""
    ensures Overlaid(env, r, lines) == EditedAll(env, r, Favours(lines))
  {
    if lines != [] {
      var n := |lines| - 1;
      OverlayIsFavours(env, r, lines[..n]);
      assert lines[n] in lines;
      assert Favours(lines) == Favours(lines[..n]) + [Favour(lines[n].0, lines[n].1)];
      EditedMore(env, r, Favours(lines[..n]), Favour(lines[n].0, lines[n].1));
    }
  }

  lemma {:induction false} EditedMore(env: Hints, r: Registry, edits: seq<Edit>, e: Edit)
    ensures EditedAll(env, r, edits + [e]) == Edited(env, EditedAll(env, r, edits), e)
    decreases |edits|
  {
    hide Edited;
    if edits == [] {
      assert edits + [e] == [e] && [e][1..] == [];
    } else {
      assert (edits + [e])[0] == edits[0] && (edits + [e])[1..] == edits[1..] + [e];
      EditedMore(env, Edited(env, r, edits[0]), edits[1..], e);
    }
  }

  // ----- restating changes no ranking and no context -----

  lemma {:induction false} PlaceLater(bs: seq<Bound>, shift: nat, command: string)
    ensures Place(Later(bs, shift), command) == Place(bs, command)
  {
    PlaceExact(Later(bs, shift), command, Place(bs, command));
  }

  lemma {:induction false} FirstLater(bs: seq<Bound>, shift: nat, offered: set<string>)
    ensures First(Later(bs, shift), offered) ==
            match First(bs, offered) case None => None case Some(b) => Some(b.(serial := b.serial + shift))
  {
    if bs != [] {
      assert Later(bs, shift)[0] == bs[0].(serial := bs[0].serial + shift);
      assert Later(bs, shift)[1..] == Later(bs[1..], shift);
      FirstLater(bs[1..], shift, offered);
    }
  }

  lemma {:induction false} HasLater(r: Registry, r': Registry, shift: nat, key: string, command: string)
    requires Meanings(r', key) == Later(Meanings(r, key), shift)
    ensures Has(r', key, command) == Has(r, key, command)
    ensures Has(r, key, command) ==>
              RankOf(r', key, command) == RankOf(r, key, command).(serial := RankOf(r, key, command).serial + shift)
  {
    PlaceLater(Meanings(r, key), shift, command);
  }

  /** Restating a keymap changes the list of no command's keys, what no keystroke does in
      any context, and which key none advertises. */
  lemma {:induction false} RestatingChangesNoRanking(env: Hints, lines: seq<Pair>, command: string,
      keys: seq<string>, offered: set<string>, key: string)
    requires Distinct(env, lines) && !BlanksLate(env, lines)
    ensures var r := Built(env, lines);
            var r' := Overlaid(env, r, lines);
            && (IsRanking(r', command, keys) <==> IsRanking(r, command, keys))
            && Resolve(ContextOf(r', offered), key) == Resolve(ContextOf(r, offered), key)
            && (Advertises(ContextOf(r', offered), command, key) <==> Advertises(ContextOf(r, offered), command, key))
  {
    hide Distinct, BlanksLate, Built, Overlaid, Later;
    RestatingLandsBack(env, lines);
    var r := Built(env, lines);
    SameRanking(r, Overlaid(env, r, lines), r.serial, command, keys);
    SameContext(r, Overlaid(env, r, lines), r.serial, offered, command, key);
  }

  lemma {:induction false} SameRanking(r: Registry, r': Registry, shift: nat, command: string, keys: seq<string>)
    requires forall k {:trigger Meanings(r', k)} :: Meanings(r', k) == Later(Meanings(r, k), shift)
    ensures IsRanking(r', command, keys) <==> IsRanking(r, command, keys)
  {
    hide Later, Has, RankOf;
    forall k ensures Has(r', k, command) == Has(r, k, command)
      && (Has(r, k, command) ==>
            RankOf(r', k, command) == RankOf(r, k, command).(serial := RankOf(r, k, command).serial + shift)) {
      assert Meanings(r', k) == Later(Meanings(r, k), shift);
      HasLater(r, r', shift, k, command);
    }
  }

  lemma {:induction false} SameContext(r: Registry, r': Registry, shift: nat, offered: set<string>, command: string,
      key: string)
    requires forall k {:trigger Meanings(r', k)} :: Meanings(r', k) == Later(Meanings(r, k), shift)
    ensures Resolve(ContextOf(r', offered), key) == Resolve(ContextOf(r, offered), key)
    ensures Advertises(ContextOf(r', offered), command, key) <==> Advertises(ContextOf(r, offered), command, key)
  {
    ContextLater(r, r', shift, offered);
    SameAdvertised(ContextOf(r, offered), ContextOf(r', offered), shift, command, key);
  }

  /** Two contexts that resolve alike, one with every rank given so much later. */
  ghost predicate Alike(ctx: Context, ctx': Context, shift: nat) {
    && ctx'.mappings == ctx.mappings && ctx'.ranks.Keys == ctx.ranks.Keys == ctx.mappings.Keys
    && (forall k :: k in ctx.ranks ==> ctx'.ranks[k] == ctx.ranks[k].(serial := ctx.ranks[k].serial + shift))
  }

  lemma {:induction false} ContextLater(r: Registry, r': Registry, shift: nat, offered: set<string>)
    requires forall k {:trigger Meanings(r', k)} :: Meanings(r', k) == Later(Meanings(r, k), shift)
    ensures Alike(ContextOf(r, offered), ContextOf(r', offered), shift)
  {
    hide Later, First;
    forall k ensures First(Meanings(r', k), offered) ==
                     match First(Meanings(r, k), offered)
                     case None => None
                     case Some(b) => Some(b.(serial := b.serial + shift)) {
      assert Meanings(r', k) == Later(Meanings(r, k), shift);
      FirstLater(Meanings(r, k), shift, offered);
    }
    forall k ensures Offers(r, offered, k) ==> k in r.bindings {
      NothingFirst(offered);
    }
    forall k ensures Offers(r', offered, k) ==> k in r'.bindings {
      NothingFirst(offered);
    }
    var ctx, ctx' := ContextOf(r, offered), ContextOf(r', offered);
    forall k ensures k in ctx'.mappings <==> k in ctx.mappings {
      assert Offers(r, offered, k) <==> Offers(r', offered, k);
    }
    assert ctx'.mappings.Keys == ctx.mappings.Keys;
    assert ctx'.ranks.Keys == ctx'.mappings.Keys && ctx.ranks.Keys == ctx.mappings.Keys;
  }

  lemma {:induction false} NothingFirst(offered: set<string>)
    ensures First([], offered).None?
  {}

  lemma {:induction false} SameAdvertised(ctx: Context, ctx': Context, shift: nat, command: string, key: string)
    requires Alike(ctx, ctx', shift)
    ensures Resolve(ctx', key) == Resolve(ctx, key)
    ensures Advertises(ctx', command, key) <==> Advertises(ctx, command, key)
  {
    forall k, l | k in ctx.ranks && l in ctx.ranks
      ensures Outranks(ctx'.ranks[k], ctx'.ranks[l]) <==> Outranks(ctx.ranks[k], ctx.ranks[l]) {}
  }

  /** Saying a pair twice is what the condition is for: the second saying is a second
      meaning when the table is made and no meaning at all when it is restated. */
  lemma {:induction false} RepeatedPairTurnsRankingOver(env: Hints)
    requires env("a") == Hint("a", 0, true) && env("b") == Hint("b", 0, true)
    ensures IsRanking(Built(env, REPEATED), "go", ["b", "a"])
    ensures IsRanking(Overlaid(env, Built(env, REPEATED), REPEATED), "go", ["a", "b"])
  {
    hide Built, Overlaid, IsRanking, Repeated;
    RepeatedBuilt(env);
    RepeatedOverlaid(env);
    RepeatedRanking(1, 2, 3, 0);
    RepeatedRanking(6, 5, 6, 3);
  }

  lemma {:induction false} RepeatedRanking(first: nat, second: nat, serial: nat, revision: nat)
    requires first != second
    ensures IsRanking(Repeated(first, second, serial, revision), "go",
                      if first > second then ["a", "b"] else ["b", "a"])
  {
    hide Place;
    var r := Repeated(first, second, serial, revision);
    PlaceExact(Meanings(r, "a"), "go", 0);
    PlaceExact(Meanings(r, "b"), "go", 0);
    forall k | k != "a" && k != "b" ensures !Has(r, k, "go") {
      PlaceExact([], "go", 0);
    }
  }

  const REPEATED: seq<Pair> := [("a", "go"), ("b", "go"), ("a", "go")]

  function Repeated(first: nat, second: nat, serial: nat, revision: nat): Registry {
    Registry(map["a" := [Bound("go", first, 0), Bound("go", 3, 0)], "b" := [Bound("go", second, 0)]], serial, revision)
  }

  lemma {:induction false} RepeatedBuilt(env: Hints)
    requires env("a") == Hint("a", 0, true) && env("b") == Hint("b", 0, true)
    ensures Built(env, REPEATED) == Repeated(1, 2, 3, 0)
  {
    var r1 := Registry(map["a" := [Bound("go", 1, 0)]], 1, 0);
    var r2 := Registry(map["a" := [Bound("go", 1, 0)], "b" := [Bound("go", 2, 0)]], 2, 0);
    assert Meanings(EMPTY, "a") + [Bound("go", 1, 0)] == [Bound("go", 1, 0)];
    assert Meanings(r1, "b") + [Bound("go", 2, 0)] == [Bound("go", 2, 0)];
    assert Meanings(r2, "a") + [Bound("go", 3, 0)] == [Bound("go", 1, 0), Bound("go", 3, 0)];
    assert REPEATED[..2][..1] == REPEATED[..1] && REPEATED[..1][..0] == [];
    assert Built(env, REPEATED[..1]) == Line(env, Built(env, []), "a", "go") == r1;
    assert Built(env, REPEATED[..2]) == Line(env, r1, "b", "go") == r2;
  }

  lemma {:induction false} RepeatedOverlaid(env: Hints)
    requires env("a") == Hint("a", 0, true) && env("b") == Hint("b", 0, true)
    ensures Overlaid(env, Repeated(1, 2, 3, 0), REPEATED) == Repeated(6, 5, 6, 3)
  {
    var r := Repeated(1, 2, 3, 0);
    RepeatedFavoured(env, 1, 2, 3, 0);
    RepeatedFavoured(env, 4, 2, 4, 1);
    RepeatedFavoured(env, 4, 5, 5, 2);
    assert REPEATED[..2][..1] == REPEATED[..1] && REPEATED[..1][..0] == [];
    assert Overlaid(env, r, REPEATED[..1]) == Prefer(env, Overlaid(env, r, []), "a", "go");
    assert Overlaid(env, r, REPEATED[..2]) == Prefer(env, Repeated(4, 2, 4, 1), "b", "go");
  }

  lemma {:induction false} RepeatedFavoured(env: Hints, first: nat, second: nat, serial: nat, revision: nat)
    requires env("a") == Hint("a", 0, true) && env("b") == Hint("b", 0, true)
    ensures Prefer(env, Repeated(first, second, serial, revision), "a", "go")
        == Repeated(serial + 1, second, serial + 1, revision + 1)
    ensures Prefer(env, Repeated(first, second, serial, revision), "b", "go")
        == Repeated(first, serial + 1, serial + 1, revision + 1)
  {
    assert Preferred([Bound("go", first, 0), Bound("go", 3, 0)], "go", serial + 1, 0)
        == [Bound("go", serial + 1, 0), Bound("go", 3, 0)];
    assert Preferred([Bound("go", second, 0)], "go", serial + 1, 0) == [Bound("go", serial + 1, 0)];
  }
}
