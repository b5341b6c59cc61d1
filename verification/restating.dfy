/**
 Restating a keymap over a registry that came from it, for every table: said twice,
 blanked late, whatever it holds.

 Restating may change a ranking once. It always lands on the ranking the same lines
 have as an overlay of nothing, so doing it again changes nothing more.
 */
module Restating {
  import opened Keymap
  import opened KeyContexts

  predicate Says(env: Hints, line: Pair, key: string, command: string) {
    Means(env, line, key) && line.1 == command
  }

  /** Some line says a meaning, with at least this weight. */
  ghost predicate SaidWith(env: Hints, lines: seq<Pair>, key: string, command: string, weight: int) {
    exists i :: 0 <= i < |lines| && Says(env, lines[i], key, command) && weight <= env(lines[i].0).weight
  }

  /** Everything a registry means was said by the table, with no greater weight. */
  ghost predicate ComesFrom(env: Hints, r: Registry, lines: seq<Pair>) {
    forall key, command :: Has(r, key, command) ==> SaidWith(env, lines, key, command, RankOf(r, key, command).weight)
  }

  function Larger(a: int, b: int): int {
    if a > b then a else b
  }

  /** What preferring one command does to the place of any. */
  lemma {:induction false} PreferredRank(bs: seq<Bound>, command: string, serial: nat, weight: int, asked: string)
    ensures var bs' := Preferred(bs, command, serial, weight);
            var i, i' := Place(bs, asked), Place(bs', asked);
            if asked == command then
              i' < |bs'| && bs'[i'] == Bound(command, serial, if i < |bs| then Larger(weight, bs[i].weight) else weight)
            else
              (i' < |bs'| <==> i < |bs|) && (i < |bs| ==> bs'[i'] == bs[i])
  {
    var bs' := Preferred(bs, command, serial, weight);
    var i, at := Place(bs, asked), Place(bs, command);
    hide Place;
    if asked == command {
      PlaceExact(bs', asked, at);
    } else if i < |bs| {
      PlaceExact(bs', asked, i);
    } else {
      assert forall j :: 0 <= j < |bs'| ==> bs'[j].command != asked;
      PlaceExact(bs', asked, |bs'|);
    }
  }

  /** What one line does to one command of one key. */
  lemma {:induction false} LineRank(env: Hints, r: Registry, line: Pair, key: string, command: string)
    ensures var r' := Overlay(env, r, line.0, line.1);
            && r'.serial == r.serial + (if Means(env, line, env(line.0).key) then 1 else 0)
            && (if Says(env, line, key, command) then
                  Has(r', key, command)
                  && RankOf(r', key, command) == Bound(command, r.serial + 1,
                       if Has(r, key, command)
                       then Larger(env(line.0).weight, RankOf(r, key, command).weight)
                       else env(line.0).weight)
                else if Blanks(env, line, key) then !Has(r', key, command)
                else Has(r', key, command) == Has(r, key, command)
                     && (Has(r, key, command) ==> RankOf(r', key, command) == RankOf(r, key, command)))
  {
    hide Preferred, Place;
    OverlayLine(env, r, line, key);
    PlaceExact([], command, 0);
    if Means(env, line, key) {
      PreferredRank(Meanings(r, key), line.1, r.serial + 1, env(line.0).weight, command);
    }
  }

  /** Where one command of one key stands in s, laid over r, and in e, laid over nothing
      by the same lines: what they have said is the same but for when, and a weight that
      r had already is kept unless it was blanked away. */
  ghost predicate Stands(r: Registry, s: Registry, e: Registry, blanked: bool, key: string, command: string) {
    && s.serial == r.serial + e.serial
    && (if Has(e, key, command) then
          Has(s, key, command)
          && RankOf(s, key, command) == Bound(command, r.serial + RankOf(e, key, command).serial,
               if !blanked && Has(r, key, command)
               then Larger(RankOf(e, key, command).weight, RankOf(r, key, command).weight)
               else RankOf(e, key, command).weight)
        else if blanked then !Has(s, key, command)
        else Has(s, key, command) == Has(r, key, command)
             && (Has(r, key, command) ==> RankOf(s, key, command) == RankOf(r, key, command)))
  }

  lemma {:induction false} LineStands(
    env: Hints, r: Registry, s: Registry, e: Registry, blanked: bool, line: Pair, key: string, command: string)
    requires Stands(r, s, e, blanked, key, command)
    ensures Stands(r, Overlay(env, s, line.0, line.1), Overlay(env, e, line.0, line.1),
                   blanked || Blanks(env, line, key), key, command)
  {
    LineRank(env, s, line, key, command);
    LineRank(env, e, line, key, command);
    NotBoth(env, line, key);
    hide Overlay, Has, RankOf, Blanks, Means;
  }

  lemma {:induction false} AlwaysStands(env: Hints, r: Registry, lines: seq<Pair>, key: string, command: string)
    ensures Stands(r, Overlaid(env, r, lines), Overlaid(env, EMPTY, lines), Blanked(env, lines, key), key, command)
  {
    if lines == [] {
      PlaceExact([], command, 0);
    } else {
      hide Overlay, Stands, Blanked, Blanks;
      var n := |lines| - 1;
      AlwaysStands(env, r, lines[..n], key, command);
      BlankedMore(env, lines, n, key);
      assert lines[..n + 1] == lines;
      LineStands(env, r, Overlaid(env, r, lines[..n]), Overlaid(env, EMPTY, lines[..n]), Blanked(env, lines[..n], key),
                 lines[n], key, command);
    }
  }

  /** What was said of a key never blanked is still meant, with at least that weight. */
  lemma {:induction false} SaidIsMeant(env: Hints, lines: seq<Pair>, i: nat, key: string, command: string)
    requires i < |lines| && Says(env, lines[i], key, command) && !Blanked(env, lines, key)
    ensures var e := Overlaid(env, EMPTY, lines);
            Has(e, key, command) && RankOf(e, key, command).weight >= env(lines[i].0).weight
  {
    hide Overlay, Has, RankOf, Blanked, Blanks;
    var n := |lines| - 1;
    assert lines[..n + 1] == lines;
    BlankedMore(env, lines, n, key);
    LineRank(env, Overlaid(env, EMPTY, lines[..n]), lines[n], key, command);
    if i < n {
      assert lines[..n][i] == lines[i];
      SaidIsMeant(env, lines[..n], i, key, command);
    }
  }

  /** Over a registry that came from the table, the table's meanings and ranks are those
      it has as an overlay of nothing, every serial greater by the same amount. */
  lemma {:induction false} RestatedRank(env: Hints, r: Registry, lines: seq<Pair>, key: string, command: string)
    requires ComesFrom(env, r, lines)
    ensures var s, e := Overlaid(env, r, lines), Overlaid(env, EMPTY, lines);
            && Has(s, key, command) == Has(e, key, command)
            && (Has(e, key, command) ==>
                  RankOf(s, key, command)
                  == Bound(command, r.serial + RankOf(e, key, command).serial, RankOf(e, key, command).weight))
  {
    hide Overlaid, Has, RankOf, Blanked;
    AlwaysStands(env, r, lines, key, command);
    if Has(r, key, command) && !Blanked(env, lines, key) {
      var i :| 0 <= i < |lines| && Says(env, lines[i], key, command)
               && RankOf(r, key, command).weight <= env(lines[i].0).weight;
      SaidIsMeant(env, lines, i, key, command);
    }
  }

  /** So the rankings are those of the overlay, whatever the table and whatever was
      there of it before. */
  lemma {:induction false} RestatedRanking(env: Hints, r: Registry, lines: seq<Pair>, command: string,
      keys: seq<string>)
    requires ComesFrom(env, r, lines)
    ensures IsRanking(Overlaid(env, r, lines), command, keys) <==> IsRanking(Overlaid(env, EMPTY, lines), command, keys)
  {
    hide Overlaid, Has, RankOf, ComesFrom;
    var s, e := Overlaid(env, r, lines), Overlaid(env, EMPTY, lines);
    forall k ensures Has(s, k, command) == Has(e, k, command)
      && (Has(e, k, command) ==>
            RankOf(s, k, command)
            == Bound(command, r.serial + RankOf(e, k, command).serial, RankOf(e, k, command).weight))
    {
      RestatedRank(env, r, lines, k, command);
    }
  }

  lemma {:induction false} BuiltComesFrom(env: Hints, lines: seq<Pair>)
    ensures ComesFrom(env, Built(env, lines), lines)
  {
    hide Place;
    forall key, command | Has(Built(env, lines), key, command)
      ensures SaidWith(env, lines, key, command, RankOf(Built(env, lines), key, command).weight)
    {
      SaidWithWeight(env, lines, key, RankOf(Built(env, lines), key, command));
    }
  }

  lemma {:induction false} SaidWithWeight(env: Hints, lines: seq<Pair>, key: string, b: Bound)
    requires b in Meanings(Built(env, lines), key)
    ensures SaidWith(env, lines, key, b.command, b.weight)
  {
    if lines != [] {
      var n := |lines| - 1;
      assert lines[..n + 1] == lines;
      BuiltLine(env, lines, n, key);
      if b in Meanings(Built(env, lines[..n]), key) {
        SaidWithWeight(env, lines[..n], key, b);
        var i :| 0 <= i < n && Says(env, lines[..n][i], key, b.command) && b.weight <= env(lines[..n][i].0).weight;
        assert lines[i] == lines[..n][i];
      } else {
        assert Says(env, lines[n], key, b.command);
      }
    }
  }

  lemma {:induction false} OverlaidComesFrom(env: Hints, lines: seq<Pair>)
    ensures ComesFrom(env, Overlaid(env, EMPTY, lines), lines)
  {
    hide Has, RankOf, Overlay, Means;
    forall key, command | Has(Overlaid(env, EMPTY, lines), key, command)
      ensures SaidWith(env, lines, key, command, RankOf(Overlaid(env, EMPTY, lines), key, command).weight)
    {
      OverlaidWithWeight(env, lines, key, command);
    }
  }

  lemma {:induction false} OverlaidWithWeight(env: Hints, lines: seq<Pair>, key: string, command: string)
    ensures Has(Overlaid(env, EMPTY, lines), key, command) ==>
              SaidWith(env, lines, key, command, RankOf(Overlaid(env, EMPTY, lines), key, command).weight)
  {
    if lines == [] {
      PlaceExact([], command, 0);
    } else {
      hide Has, RankOf, Overlay, Means, Blanks;
      var n := |lines| - 1;
      var before := Overlaid(env, EMPTY, lines[..n]);
      LineRank(env, before, lines[n], key, command);
      OverlaidWithWeight(env, lines[..n], key, command);
      if Has(before, key, command) {
        var i :| 0 <= i < n && Says(env, lines[..n][i], key, command)
          && RankOf(before, key, command).weight <= env(lines[..n][i].0).weight;
        assert lines[i] == lines[..n][i];
      }
    }
  }

  /** A registry restated comes from the table still. */
  lemma {:induction false} RestatedComesFrom(env: Hints, r: Registry, lines: seq<Pair>)
    requires ComesFrom(env, r, lines)
    ensures ComesFrom(env, Overlaid(env, r, lines), lines)
  {
    hide Has, RankOf, Overlaid, SaidWith;
    OverlaidComesFrom(env, lines);
    var s, e := Overlaid(env, r, lines), Overlaid(env, EMPTY, lines);
    forall key, command | Has(s, key, command)
      ensures SaidWith(env, lines, key, command, RankOf(s, key, command).weight)
    {
      RestatedRank(env, r, lines, key, command);
      assert Has(e, key, command) && RankOf(s, key, command).weight == RankOf(e, key, command).weight;
    }
  }

  /** Restating settles at once, for every table: a second restatement changes no
      command's keys and no order among them. */
  lemma {:induction false} RestatingSettles(env: Hints, lines: seq<Pair>, command: string, keys: seq<string>)
    ensures var once := Overlaid(env, Built(env, lines), lines);
            IsRanking(Overlaid(env, once, lines), command, keys) <==> IsRanking(once, command, keys)
  {
    hide IsRanking, ComesFrom, Overlaid, Built;
    BuiltComesFrom(env, lines);
    RestatedComesFrom(env, Built(env, lines), lines);
    RestatedRanking(env, Built(env, lines), lines, command, keys);
    RestatedRanking(env, Overlaid(env, Built(env, lines), lines), lines, command, keys);
  }

  /** The first restatement changes none exactly when the table ranks as the same lines
      laid over nothing do. */
  lemma {:induction false} RestatedAsLaid(env: Hints, lines: seq<Pair>, command: string, keys: seq<string>)
    ensures IsRanking(Overlaid(env, Built(env, lines), lines), command, keys)
       <==> IsRanking(Overlaid(env, EMPTY, lines), command, keys)
  {
    hide IsRanking, ComesFrom, Overlaid, Built;
    BuiltComesFrom(env, lines);
    RestatedRanking(env, Built(env, lines), lines, command, keys);
  }

  // ----- what the lines themselves say of a ranking -----

  /** The first line that says a meaning; past the end where none does. */
  function FirstSaid(env: Hints, lines: seq<Pair>, key: string, command: string): (i: nat)
    ensures i <= |lines| && (i < |lines| ==> Says(env, lines[i], key, command))
    ensures forall j :: 0 <= j < i ==> !Says(env, lines[j], key, command)
  {
    if lines == [] then 0
    else
      var n := |lines| - 1;
      var i := FirstSaid(env, lines[..n], key, command);
      if i < n || Says(env, lines[n], key, command) then i else n + 1
  }

  /** The last that does; past the end where none does. */
  function LastSaid(env: Hints, lines: seq<Pair>, key: string, command: string): (i: nat)
    ensures i <= |lines| && (i < |lines| ==> Says(env, lines[i], key, command))
    ensures forall j :: 0 <= j < |lines| && (i < j || i == |lines|) ==> !Says(env, lines[j], key, command)
  {
    if lines == [] then 0
    else
      var n := |lines| - 1;
      if Says(env, lines[n], key, command) then n
      else
        var i := LastSaid(env, lines[..n], key, command);
        if i < n then i else n + 1
  }

  /** A line that says a meaning which no line below it blanks away. */
  predicate Standing(env: Hints, lines: seq<Pair>, i: nat, key: string, command: string) {
    && i < |lines| && Says(env, lines[i], key, command)
    && forall j :: i < j < |lines| ==> !Blanks(env, lines[j], key)
  }

  /** The meaning is said, and said again if its key is blanked below. */
  predicate StillSaid(env: Hints, lines: seq<Pair>, key: string, command: string) {
    Standing(env, lines, LastSaid(env, lines, key, command), key, command)
  }

  /** The greatest weight a meaning is said with since its key was last blanked. */
  function Heaviest(env: Hints, lines: seq<Pair>, key: string, command: string): (w: int)
    requires StillSaid(env, lines, key, command)
    ensures exists i: nat :: Standing(env, lines, i, key, command) && env(lines[i].0).weight == w
    ensures forall i: nat :: Standing(env, lines, i, key, command) ==> env(lines[i].0).weight <= w
  {
    var n := |lines| - 1;
    assert forall i: nat :: i < n ==>
      (Standing(env, lines, i, key, command) <==>
       Standing(env, lines[..n], i, key, command) && !Blanks(env, lines[n], key));
    if !Says(env, lines[n], key, command) then Heaviest(env, lines[..n], key, command)
    else if StillSaid(env, lines[..n], key, command) then
      Larger(env(lines[n].0).weight, Heaviest(env, lines[..n], key, command))
    else env(lines[n].0).weight
  }

  predicate Above(weight: int, place: nat, otherWeight: int, otherPlace: nat) {
    weight > otherWeight || (weight == otherWeight && place > otherPlace)
  }

  /** Whether one key of a command is advertised over another, as first said. */
  predicate FirstAbove(env: Hints, lines: seq<Pair>, k: string, l: string, command: string) {
    var i, j := FirstSaid(env, lines, k, command), FirstSaid(env, lines, l, command);
    i < |lines| && j < |lines| && Above(env(lines[i].0).weight, i, env(lines[j].0).weight, j)
  }

  /** The same, as it stands below the last blanks. */
  predicate LastAbove(env: Hints, lines: seq<Pair>, k: string, l: string, command: string) {
    && StillSaid(env, lines, k, command) && StillSaid(env, lines, l, command)
    && Above(Heaviest(env, lines, k, command), LastSaid(env, lines, k, command),
             Heaviest(env, lines, l, command), LastSaid(env, lines, l, command))
  }

  /** Every key said for a command is said again below its last blank, and for any two of
      them weight and place at first agree with weight and place at last. */
  ghost predicate SaysTheSameTwice(env: Hints, lines: seq<Pair>, command: string) {
    && (forall k :: FirstSaid(env, lines, k, command) < |lines| ==> StillSaid(env, lines, k, command))
    && (forall k, l :: FirstAbove(env, lines, k, l, command) <==> LastAbove(env, lines, k, l, command))
  }

  lemma {:induction false} BuiltRank(env: Hints, lines: seq<Pair>, key: string, command: string)
    ensures var b, i := Built(env, lines), FirstSaid(env, lines, key, command);
            && Has(b, key, command) == (i < |lines|)
            && (i < |lines| ==>
                  RankOf(b, key, command) == Bound(command, Built(env, lines[..i]).serial + 1, env(lines[i].0).weight))
  {
    if lines == [] {
      PlaceExact([], command, 0);
    } else {
      hide Built, Place;
      var n := |lines| - 1;
      assert lines[..n + 1] == lines;
      BuiltRank(env, lines[..n], key, command);
      BuiltLine(env, lines, n, key);
      var i := FirstSaid(env, lines, key, command);
      assert i < n ==> lines[..n][..i] == lines[..i];
      var before, after := Meanings(Built(env, lines[..n]), key), Meanings(Built(env, lines), key);
      if Place(before, command) < |before| {
        PlaceExact(after, command, Place(before, command));
      } else {
        PlaceExact(after, command, if i == n then |before| else |after|);
      }
    }
  }

  /** Over nothing, a table numbers its meanings as a registry built of it does. */
  lemma {:induction false} LaidSerial(env: Hints, lines: seq<Pair>)
    ensures Overlaid(env, EMPTY, lines).serial == Built(env, lines).serial
  {
    if lines != [] {
      LaidSerial(env, lines[..|lines| - 1]);
    }
  }

  /** What one more line does to what is still said. */
  lemma {:induction false} StillSaidLine(env: Hints, lines: seq<Pair>, key: string, command: string)
    requires lines != []
    ensures var n := |lines| - 1;
            var before, i := lines[..n], LastSaid(env, lines, key, command);
            if Says(env, lines[n], key, command) then
              StillSaid(env, lines, key, command) && i == n
              && Heaviest(env, lines, key, command) ==
                   if StillSaid(env, before, key, command)
                   then Larger(env(lines[n].0).weight, Heaviest(env, before, key, command))
                   else env(lines[n].0).weight
            else if Blanks(env, lines[n], key) then !StillSaid(env, lines, key, command)
            else
              && StillSaid(env, lines, key, command) == StillSaid(env, before, key, command)
              && (StillSaid(env, before, key, command) ==>
                    i == LastSaid(env, before, key, command) < n
                    && Heaviest(env, lines, key, command) == Heaviest(env, before, key, command))
  {}

  lemma {:induction false} LaidRank(env: Hints, lines: seq<Pair>, key: string, command: string)
    ensures var e, i := Overlaid(env, EMPTY, lines), LastSaid(env, lines, key, command);
            && Has(e, key, command) == StillSaid(env, lines, key, command)
            && (Has(e, key, command) ==>
                  i < |lines|
                  && RankOf(e, key, command)
                     == Bound(command, Built(env, lines[..i]).serial + 1, Heaviest(env, lines, key, command)))
  {
    if lines == [] {
      PlaceExact([], command, 0);
    } else {
      hide Overlay, Has, RankOf, Built, Means, StillSaid, LastSaid, Heaviest, Blanks;
      var n := |lines| - 1;
      LaidRank(env, lines[..n], key, command);
      LaidSerial(env, lines[..n]);
      LineRank(env, Overlaid(env, EMPTY, lines[..n]), lines[n], key, command);
      StillSaidLine(env, lines, key, command);
      var i := LastSaid(env, lines, key, command);
      assert i < n ==> lines[..n][..i] == lines[..i];
    }
  }

  lemma {:induction false} SerialsRise(env: Hints, lines: seq<Pair>, i: nat, j: nat)
    requires i < j <= |lines| && Means(env, lines[i], env(lines[i].0).key)
    ensures Built(env, lines[..i]).serial < Built(env, lines[..j]).serial
  {
    assert lines[..i + 1][..i] == lines[..i] && lines[..j][..i + 1] == lines[..i + 1];
    BuiltGrows(env, lines[..j], i + 1, "");
  }

  /** Whether a registry has two keys of a command in that order. */
  ghost predicate RanksOver(r: Registry, k: string, l: string, command: string) {
    Has(r, k, command) && Has(r, l, command) && Outranks(RankOf(r, k, command), RankOf(r, l, command))
  }

  /** For two keys of a command, the registries rank them as the lines do. */
  lemma {:induction false} RankedAsSaid(env: Hints, lines: seq<Pair>, k: string, l: string, command: string)
    ensures FirstAbove(env, lines, k, l, command) <==> RanksOver(Built(env, lines), k, l, command)
    ensures LastAbove(env, lines, k, l, command) <==> RanksOver(Overlaid(env, EMPTY, lines), k, l, command)
  {
    hide Built, Overlaid, Has, RankOf, Heaviest;
    BuiltRank(env, lines, k, command);
    BuiltRank(env, lines, l, command);
    LaidRank(env, lines, k, command);
    LaidRank(env, lines, l, command);
    PlacesAsSerials(env, lines, FirstSaid(env, lines, k, command), FirstSaid(env, lines, l, command));
    PlacesAsSerials(env, lines, LastSaid(env, lines, k, command), LastSaid(env, lines, l, command));
  }

  lemma {:induction false} PlacesAsSerials(env: Hints, lines: seq<Pair>, i: nat, j: nat)
    ensures i < |lines| && j < |lines| && Means(env, lines[i], env(lines[i].0).key)
            && Means(env, lines[j], env(lines[j].0).key) ==>
              (i > j <==> Built(env, lines[..i]).serial > Built(env, lines[..j]).serial)
  {
    hide Built;
    if i < |lines| && j < |lines|
       && Means(env, lines[i], env(lines[i].0).key) && Means(env, lines[j], env(lines[j].0).key) {
      if i < j {
        SerialsRise(env, lines, i, j);
      } else if j < i {
        SerialsRise(env, lines, j, i);
      }
    }
  }

  /** The first restatement keeps a command's keys and their order exactly when the lines
      say the same of them at first and at last. */
  lemma {:induction false} RestatingKeepsRanking(env: Hints, lines: seq<Pair>, command: string, keys: seq<string>)
    requires IsRanking(Built(env, lines), command, keys)
    ensures IsRanking(Overlaid(env, Built(env, lines), lines), command, keys)
       <==> SaysTheSameTwice(env, lines, command)
  {
    hide Overlaid, Built, Has, RankOf, RanksOver, FirstAbove, LastAbove, StillSaid, FirstSaid;
    RestatedAsLaid(env, lines, command, keys);
    var b, e := Built(env, lines), Overlaid(env, EMPTY, lines);
    forall k
      ensures Has(b, k, command) <==> FirstSaid(env, lines, k, command) < |lines|
      ensures Has(e, k, command) <==> StillSaid(env, lines, k, command)
      ensures Has(e, k, command) ==> Has(b, k, command)
    {
      BuiltRank(env, lines, k, command);
      LaidRank(env, lines, k, command);
      StillIsSaid(env, lines, k, command);
    }
    forall k, l {:trigger FirstAbove(env, lines, k, l, command)} {:trigger LastAbove(env, lines, k, l, command)}
      ensures FirstAbove(env, lines, k, l, command) <==> RanksOver(b, k, l, command)
      ensures LastAbove(env, lines, k, l, command) <==> RanksOver(e, k, l, command)
    {
      RankedAsSaid(env, lines, k, l, command);
    }
    RankingsAgree(b, e, command, keys);
    assert (forall k :: Has(b, k, command) ==> Has(e, k, command)) <==>
           (forall k :: FirstSaid(env, lines, k, command) < |lines| ==> StillSaid(env, lines, k, command));
    if forall k, l :: FirstAbove(env, lines, k, l, command) <==> LastAbove(env, lines, k, l, command) {
      forall k, l ensures RanksOver(b, k, l, command) <==> RanksOver(e, k, l, command) {
        assert FirstAbove(env, lines, k, l, command) <==> LastAbove(env, lines, k, l, command);
      }
    }
  }

  lemma {:induction false} StillIsSaid(env: Hints, lines: seq<Pair>, key: string, command: string)
    ensures StillSaid(env, lines, key, command) ==> FirstSaid(env, lines, key, command) < |lines|
  {}

  ghost predicate SameOrder(b: Registry, e: Registry, command: string) {
    forall k, l :: RanksOver(b, k, l, command) <==> RanksOver(e, k, l, command)
  }

  /** A registry that has no more keys for a command than another ranks them as the other
      does exactly when it has as many, each pair in the same order. */
  lemma {:induction false} RankingsAgree(b: Registry, e: Registry, command: string, keys: seq<string>)
    requires IsRanking(b, command, keys) && forall k :: Has(e, k, command) ==> Has(b, k, command)
    ensures IsRanking(e, command, keys) <==>
              (forall k :: Has(b, k, command) ==> Has(e, k, command)) && SameOrder(b, e, command)
  {
    hide Has, RankOf;
    if IsRanking(e, command, keys) {
      forall k, l ensures RanksOver(b, k, l, command) <==> RanksOver(e, k, l, command) {
        if k in keys && l in keys {
          var i :| 0 <= i < |keys| && keys[i] == k;
          var j :| 0 <= j < |keys| && keys[j] == l;
        }
      }
    } else if (forall k :: Has(b, k, command) ==> Has(e, k, command)) && SameOrder(b, e, command) {
      forall i, j | 0 <= i < j < |keys|
        ensures Outranks(RankOf(e, keys[i], command), RankOf(e, keys[j], command))
      {
        assert keys[i] in keys && keys[j] in keys;
        assert RanksOver(b, keys[i], keys[j], command);
      }
    }
  }
}
