/**
 What a context shows after a keymap is restated, read off the lines, for every table.

 A key runs the first command on offer that a line says for it; after a restatement,
 the first that a line says for it below its last blank. Which key is shown for a
 command follows the same way, by weight and place at first and at last.
 */
module RestatedContexts {
  import opened Syntax
  import opened Keymap
  import opened KeyContexts
  import opened Restating

  // ----- what the lines say a key runs -----

  predicate OnOffer(env: Hints, line: Pair, key: string, offered: set<string>) {
    Means(env, line, key) && line.1 in offered
  }

  /** The first line that gives a key something on offer; past the end where none does. */
  function FirstOffered(env: Hints, lines: seq<Pair>, key: string, offered: set<string>): (i: nat)
    ensures i <= |lines| && (i < |lines| ==> OnOffer(env, lines[i], key, offered))
    ensures forall j :: 0 <= j < i ==> !OnOffer(env, lines[j], key, offered)
  {
    if lines == [] then 0
    else
      var n := |lines| - 1;
      var i := FirstOffered(env, lines[..n], key, offered);
      if i < n || OnOffer(env, lines[n], key, offered) then i else n + 1
  }

  /** A line that gives a key something on offer, which no line below it blanks away. */
  predicate Remains(env: Hints, lines: seq<Pair>, i: nat, key: string, offered: set<string>) {
    && i < |lines| && OnOffer(env, lines[i], key, offered)
    && forall j :: i < j < |lines| ==> !Blanks(env, lines[j], key)
  }

  /** The first line that does and is not; past the end where none is. */
  function FirstRemaining(env: Hints, lines: seq<Pair>, key: string, offered: set<string>): (i: nat)
    ensures i <= |lines| && (i < |lines| ==> Remains(env, lines, i, key, offered))
    ensures forall j: nat :: j < i ==> !Remains(env, lines, j, key, offered)
  {
    if lines == [] then 0
    else
      var n := |lines| - 1;
      var i := FirstRemaining(env, lines[..n], key, offered);
      assert forall j: nat :: j < n ==>
        (Remains(env, lines, j, key, offered) <==>
         Remains(env, lines[..n], j, key, offered) && !Blanks(env, lines[n], key));
      if Blanks(env, lines[n], key) then n + 1
      else if i < n || OnOffer(env, lines[n], key, offered) then i
      else n + 1
  }

  function CommandAt(lines: seq<Pair>, i: nat): Option<string> {
    if i < |lines| then Some(lines[i].1) else None
  }

  function Runs(bs: seq<Bound>, offered: set<string>): Option<string> {
    match First(bs, offered)
    case Some(b) => Some(b.command)
    case None => None
  }

  // ----- what a registry made of them runs -----

  lemma {:induction false} RunsMore(bs: seq<Bound>, b: Bound, offered: set<string>)
    ensures Runs(bs + [b], offered) ==
              if Runs(bs, offered).Some? then Runs(bs, offered)
              else if b.command in offered then Some(b.command) else None
  {
    if bs == [] {
      assert [] + [b] == [b] && [b][1..] == [];
    } else {
      assert (bs + [b])[0] == bs[0] && (bs + [b])[1..] == bs[1..] + [b];
      RunsMore(bs[1..], b, offered);
    }
  }

  /** A meaning made newer keeps its place, so only one not there yet can add anything. */
  lemma {:induction false} RunsPreferred(bs: seq<Bound>, c: string, serial: nat, weight: int, offered: set<string>)
    ensures Runs(Preferred(bs, c, serial, weight), offered) ==
              if Runs(bs, offered).Some? then Runs(bs, offered)
              else if c in offered then Some(c) else None
  {
    var i := Place(bs, c);
    if i == |bs| {
      RunsMore(bs, Bound(c, serial, weight), offered);
    } else {
      RunsByCommand(bs, Preferred(bs, c, serial, weight), offered);
      FirstFacts(bs, offered);
      assert bs[i] in bs;
    }
  }

  lemma {:induction false} RunsByCommand(a: seq<Bound>, b: seq<Bound>, offered: set<string>)
    requires |a| == |b| && forall i :: 0 <= i < |a| ==> a[i].command == b[i].command
    ensures Runs(a, offered) == Runs(b, offered)
  {
    if a != [] {
      RunsByCommand(a[1..], b[1..], offered);
    }
  }

  lemma {:induction false} BuiltRuns(env: Hints, lines: seq<Pair>, key: string, offered: set<string>)
    ensures Runs(Meanings(Built(env, lines), key), offered) == CommandAt(lines, FirstOffered(env, lines, key, offered))
  {
    if lines != [] {
      hide Built, Means;
      var n := |lines| - 1;
      assert lines[..n + 1] == lines;
      BuiltRuns(env, lines[..n], key, offered);
      BuiltLine(env, lines, n, key);
      RunsMore(Meanings(Built(env, lines[..n]), key),
               Bound(lines[n].1, Built(env, lines[..n]).serial + 1, env(lines[n].0).weight), offered);
    }
  }

  lemma {:induction false} LineRuns(env: Hints, r: Registry, line: Pair, key: string, offered: set<string>)
    ensures var was, now := Runs(Meanings(r, key), offered),
        Runs(Meanings(Overlay(env, r, line.0, line.1), key), offered);
            now == if Blanks(env, line, key) then None
                   else if was.Some? then was
                   else if OnOffer(env, line, key, offered) then Some(line.1) else None
  {
    OverlayLine(env, r, line, key);
    NotBoth(env, line, key);
    RunsPreferred(Meanings(r, key), line.1, r.serial + 1, env(line.0).weight, offered);
  }

  lemma {:induction false} LaidRuns(env: Hints, lines: seq<Pair>, key: string, offered: set<string>)
    ensures Runs(Meanings(Overlaid(env, EMPTY, lines), key), offered)
         == CommandAt(lines, FirstRemaining(env, lines, key, offered))
  {
    if lines != [] {
      hide Overlay, Means, Blanks, Runs;
      var n := |lines| - 1;
      LaidRuns(env, lines[..n], key, offered);
      LineRuns(env, Overlaid(env, EMPTY, lines[..n]), lines[n], key, offered);
    }
  }

  /** Over a registry, what it ran goes before what the lines say, unless blanked away. */
  lemma {:induction false} OverRuns(env: Hints, r: Registry, lines: seq<Pair>, key: string, offered: set<string>)
    ensures Runs(Meanings(Overlaid(env, r, lines), key), offered) ==
              if !Blanked(env, lines, key) && Runs(Meanings(r, key), offered).Some? then Runs(Meanings(r, key), offered)
              else Runs(Meanings(Overlaid(env, EMPTY, lines), key), offered)
  {
    if lines == [] {
    } else {
      hide Overlay, Means, Blanks, Runs, Blanked;
      var n := |lines| - 1;
      assert lines[..n + 1] == lines;
      OverRuns(env, r, lines[..n], key, offered);
      BlankedMore(env, lines, n, key);
      LineRuns(env, Overlaid(env, r, lines[..n]), lines[n], key, offered);
      LineRuns(env, Overlaid(env, EMPTY, lines[..n]), lines[n], key, offered);
    }
  }

  lemma {:induction false} RestatedRuns(env: Hints, lines: seq<Pair>, key: string, offered: set<string>)
    ensures Runs(Meanings(Overlaid(env, Built(env, lines), lines), key), offered)
         == CommandAt(lines, FirstRemaining(env, lines, key, offered))
  {
    hide Built, Overlaid, Runs, Means;
    OverRuns(env, Built(env, lines), lines, key, offered);
    BuiltRuns(env, lines, key, offered);
    LaidRuns(env, lines, key, offered);
    if !Blanked(env, lines, key) {
      NothingBlanked(env, lines, key, offered);
    }
  }

  lemma {:induction false} NothingBlanked(env: Hints, lines: seq<Pair>, key: string, offered: set<string>)
    requires !Blanked(env, lines, key)
    ensures FirstRemaining(env, lines, key, offered) == FirstOffered(env, lines, key, offered)
  {
    var i, j := FirstRemaining(env, lines, key, offered), FirstOffered(env, lines, key, offered);
    assert j < |lines| ==> Remains(env, lines, j, key, offered);
  }

  // ----- contexts -----

  /** What a key runs where `offered` is on offer, as the lines first say it. */
  function FirstRuns(env: Hints, lines: seq<Pair>, key: string, offered: set<string>): string {
    var i := FirstOffered(env, lines, key, offered);
    if i < |lines| then lines[i].1 else ""
  }

  /** The same, as they say it below the last blanks. */
  function LastRuns(env: Hints, lines: seq<Pair>, key: string, offered: set<string>): string {
    var i := FirstRemaining(env, lines, key, offered);
    if i < |lines| then lines[i].1 else ""
  }

  lemma {:induction false} ResolveRuns(r: Registry, offered: set<string>, key: string)
    ensures Resolve(ContextOf(r, offered), key) ==
              match Runs(Meanings(r, key), offered) case Some(c) => c case None => ""
  {}

  /** For every table, what a key runs in a context, before it is restated and after. So a
      key goes on running the same exactly when the first command on offer is the same as
      the first that remains. */
  lemma {:induction false} ContextsRun(env: Hints, lines: seq<Pair>, offered: set<string>, key: string)
    ensures Resolve(ContextOf(Built(env, lines), offered), key) == FirstRuns(env, lines, key, offered)
    ensures Resolve(ContextOf(Overlaid(env, Built(env, lines), lines), offered), key)
         == LastRuns(env, lines, key, offered)
  {
    hide Built, Overlaid, ContextOf, Runs, Means;
    ResolveRuns(Built(env, lines), offered, key);
    ResolveRuns(Overlaid(env, Built(env, lines), lines), offered, key);
    BuiltRuns(env, lines, key, offered);
    RestatedRuns(env, lines, key, offered);
  }

  // ----- the key shown for a command -----

  /** The key shown for a command where `offered` is on offer, as the lines first say it. */
  ghost predicate ShownFirst(env: Hints, lines: seq<Pair>, offered: set<string>, command: string, key: string) {
    if command == "" || forall k :: FirstRuns(env, lines, k, offered) != command then key == ""
    else
      && FirstRuns(env, lines, key, offered) == command
      && forall k :: FirstRuns(env, lines, k, offered) == command && k != key ==>
          FirstAbove(env, lines, key, k, command)
  }

  /** The same, as they say it below the last blanks. */
  ghost predicate ShownLast(env: Hints, lines: seq<Pair>, offered: set<string>, command: string, key: string) {
    if command == "" || forall k :: LastRuns(env, lines, k, offered) != command then key == ""
    else
      && LastRuns(env, lines, key, offered) == command
      && forall k :: LastRuns(env, lines, k, offered) == command && k != key ==> LastAbove(env, lines, key, k, command)
  }

  lemma {:induction false} ContextRank(r: Registry, offered: set<string>, k: string, command: string)
    requires command != ""
    ensures var ctx := ContextOf(r, offered);
            && (Resolve(ctx, k) == command <==> k in ctx.mappings && ctx.mappings[k] == command)
            && (Resolve(ctx, k) == command ==>
                  Has(r, k, command) && k in ctx.ranks && ctx.ranks[k] == RankOf(r, k, command))
  {
    var bs := Meanings(r, k);
    if Resolve(ContextOf(r, offered), k) == command {
      FirstFacts(bs, offered);
      var i :| 0 <= i < |bs| && bs[i] == First(bs, offered).value && bs[i].command in offered
               && forall j :: 0 <= j < i ==> bs[j].command !in offered;
      PlaceExact(bs, command, i);
    }
  }

  /** What a context advertises, by what its registry resolves and ranks. */
  lemma {:induction false} AdvertisesIs(r: Registry, offered: set<string>, command: string, key: string)
    requires command != ""
    ensures var ctx := ContextOf(r, offered);
            Advertises(ctx, command, key) <==>
              if forall k :: Resolve(ctx, k) != command then key == ""
              else
                && Resolve(ctx, key) == command
                && forall k :: Resolve(ctx, k) == command && k != key ==> RanksOver(r, key, k, command)
  {
    hide ContextOf, Has, RankOf, Resolve;
    var ctx := ContextOf(r, offered);
    forall k
      ensures Resolve(ctx, k) == command <==> k in ctx.mappings && ctx.mappings[k] == command
      ensures Resolve(ctx, k) == command ==>
                Has(r, k, command) && k in ctx.ranks && ctx.ranks[k] == RankOf(r, k, command)
    {
      ContextRank(r, offered, k, command);
    }
  }

  lemma {:induction false} RestatedOver(env: Hints, lines: seq<Pair>, k: string, l: string, command: string)
    ensures RanksOver(Overlaid(env, Built(env, lines), lines), k, l, command) <==> LastAbove(env, lines, k, l, command)
  {
    hide Overlaid, Built, Has, RankOf, ComesFrom, LastAbove;
    BuiltComesFrom(env, lines);
    RestatedRank(env, Built(env, lines), lines, k, command);
    RestatedRank(env, Built(env, lines), lines, l, command);
    RankedAsSaid(env, lines, k, l, command);
  }

  /** For every table, the key a context shows for a command, before it is restated and
      after. So the same key is shown exactly when the lines put it on top at first and,
      below the last blanks, at last. */
  lemma {:induction false} ContextsShow(env: Hints, lines: seq<Pair>, offered: set<string>, command: string,
      key: string)
    ensures Advertises(ContextOf(Built(env, lines), offered), command, key)
       <==> ShownFirst(env, lines, offered, command, key)
    ensures Advertises(ContextOf(Overlaid(env, Built(env, lines), lines), offered), command, key)
       <==> ShownLast(env, lines, offered, command, key)
  {
    hide Overlaid, Built, ContextOf, Resolve, FirstRuns, LastRuns, FirstAbove, LastAbove, RanksOver;
    if command != "" {
      AdvertisesIs(Built(env, lines), offered, command, key);
      AdvertisesIs(Overlaid(env, Built(env, lines), lines), offered, command, key);
      forall k
        ensures Resolve(ContextOf(Built(env, lines), offered), k) == FirstRuns(env, lines, k, offered)
        ensures Resolve(ContextOf(Overlaid(env, Built(env, lines), lines), offered), k)
            == LastRuns(env, lines, k, offered)
        ensures RanksOver(Built(env, lines), key, k, command) <==> FirstAbove(env, lines, key, k, command)
        ensures RanksOver(Overlaid(env, Built(env, lines), lines), key, k, command)
           <==> LastAbove(env, lines, key, k, command)
      {
        ContextsRun(env, lines, offered, k);
        RankedAsSaid(env, lines, key, k, command);
        RestatedOver(env, lines, key, k, command);
      }
      hide Advertises;
    }
  }

  /** The key shown survives a restatement exactly when it is on top below the last blanks. */
  lemma {:induction false} RestatingKeepsShown(
    env: Hints, lines: seq<Pair>, offered: set<string>, command: string, key: string)
    requires Advertises(ContextOf(Built(env, lines), offered), command, key)
    ensures Advertises(ContextOf(Overlaid(env, Built(env, lines), lines), offered), command, key)
       <==> ShownLast(env, lines, offered, command, key)
  {
    ContextsShow(env, lines, offered, command, key);
  }
}
