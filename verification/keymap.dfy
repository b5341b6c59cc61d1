/**
 The key registry: a ranked table from keys to what they can mean, built from a
 keymap and edited by overlays.

 What the environment hints on a line say is taken as a function from the line's text
 to the key it names, the weight it gives and whether it belongs here at all.
 */
module Keymap {
  import opened Syntax

  /** One meaning of one key: what it does, when it was bound, and how much the
      environment prefers it. */
  datatype Bound = Bound(command: string, serial: nat, weight: int)

  datatype Hint = Hint(key: string, weight: int, keep: bool)

  type Hints = string -> Hint

  /** One line of a keymap. */
  datatype Binding = Binding(text: string, commands: seq<string>)

  datatype Registry = Registry(bindings: map<string, seq<Bound>>, serial: nat, revision: nat)

  const EMPTY := Registry(map[], 0, 0)

  /** Whether a is advertised over b. */
  predicate Outranks(a: Bound, b: Bound) {
    if a.weight != b.weight then a.weight > b.weight else a.serial > b.serial
  }

  function Meanings(r: Registry, key: string): seq<Bound> {
    if key in r.bindings then r.bindings[key] else []
  }

  /** Where a command first appears among a key's meanings; past the end where it does not. */
  function Place(bs: seq<Bound>, command: string): (i: nat)
    ensures i <= |bs| && (i < |bs| ==> bs[i].command == command)
    ensures forall j :: 0 <= j < i ==> bs[j].command != command
  {
    if bs == [] || bs[0].command == command then 0 else 1 + Place(bs[1..], command)
  }

  // ----- the edits -----

  /** A line of the table a registry is made from: one more meaning, asked for or not. */
  function Line(env: Hints, r: Registry, text: string, command: string): Registry {
    var h := env(text);
    if !h.keep || command == "" then r
    else Registry(r.bindings[h.key := Meanings(r, h.key) + [Bound(command, r.serial + 1, h.weight)]],
                  r.serial + 1, r.revision)
  }

  function Bind(env: Hints, r: Registry, text: string, command: string): Registry {
    var h := env(text);
    if command == "" || !h.keep then r.(bindings := r.bindings - {h.key}, revision := r.revision + 1)
    else Registry(r.bindings[h.key := [Bound(command, r.serial + 1, h.weight)]], r.serial + 1, r.revision + 1)
  }

  function AddBinding(env: Hints, r: Registry, text: string, command: string): Registry {
    var h := env(text);
    var bs := Meanings(r, h.key);
    if command == "" || !h.keep || Place(bs, command) < |bs| then r
    else Registry(r.bindings[h.key := bs + [Bound(command, r.serial + 1, h.weight)]], r.serial + 1, r.revision + 1)
  }

  /** A key's meanings with one of them made the newest. */
  function Preferred(bs: seq<Bound>, command: string, serial: nat, weight: int): seq<Bound> {
    var i := Place(bs, command);
    if i == |bs| then bs + [Bound(command, serial, weight)]
    else bs[i := Bound(command, serial, if weight > bs[i].weight then weight else bs[i].weight)]
  }

  function Prefer(env: Hints, r: Registry, text: string, command: string): Registry {
    var h := env(text);
    if command == "" || !h.keep then r
    else Registry(r.bindings[h.key := Preferred(Meanings(r, h.key), command, r.serial + 1, h.weight)],
                  r.serial + 1, r.revision + 1)
  }

  /** A line of an overlay: a blank command takes everything the key meant away. */
  function Overlay(env: Hints, r: Registry, text: string, command: string): Registry {
    if command == "" then Bind(env, r, text, "") else Prefer(env, r, text, command)
  }

  type Pair = (string, string)

  function Built(env: Hints, lines: seq<Pair>): Registry {
    if lines == [] then EMPTY
    else
      var n := |lines| - 1;
      Line(env, Built(env, lines[..n]), lines[n].0, lines[n].1)
  }

  function Overlaid(env: Hints, r: Registry, lines: seq<Pair>): Registry {
    if lines == [] then r
    else
      var n := |lines| - 1;
      Overlay(env, Overlaid(env, r, lines[..n]), lines[n].0, lines[n].1)
  }

  /** A line with its commands told one by one. */
  function Said(text: string, commands: seq<string>): seq<Pair> {
    seq(|commands|, i requires 0 <= i < |commands| => (text, commands[i]))
  }

  function Pairs(table: seq<Binding>): seq<Pair> {
    if table == [] then []
    else
      var n := |table| - 1;
      Pairs(table[..n]) + Said(table[n].text, table[n].commands)
  }

  // ----- serials -----

  /** No two meanings anywhere were bound at the same time, and none is yet to come. */
  ghost predicate Serialised(r: Registry) {
    && (forall k, i :: k in r.bindings && 0 <= i < |r.bindings[k]| ==> 0 < r.bindings[k][i].serial <= r.serial)
    && (forall k, i, l, j ::
          (k in r.bindings && l in r.bindings && 0 <= i < |r.bindings[k]| && 0 <= j < |r.bindings[l]|
           && r.bindings[k][i].serial == r.bindings[l][j].serial) ==> k == l && i == j)
  }

  /** Whatever list a key ends with, if everything in it was there before at its place or
      carries the next serial, and that once, serials stay distinct. */
  lemma {:induction false} NewestKeepsSerialised(r: Registry, key: string, bs: seq<Bound>, at: nat, revision: nat)
    requires Serialised(r)
    requires at < |bs| && bs[at].serial == r.serial + 1
    requires forall i :: 0 <= i < |bs| && i != at ==>
               i < |Meanings(r, key)| && bs[i].serial == Meanings(r, key)[i].serial
    ensures Serialised(Registry(r.bindings[key := bs], r.serial + 1, revision))
  {}

  datatype Edit =
    | Replace(text: string, command: string)
    | Add(text: string, command: string)
    | Favour(text: string, command: string)

  function Edited(env: Hints, r: Registry, e: Edit): Registry {
    match e
    case Replace(text, command) => Bind(env, r, text, command)
    case Add(text, command) => AddBinding(env, r, text, command)
    case Favour(text, command) => Prefer(env, r, text, command)
  }

  lemma {:induction false} EditKeepsSerialised(env: Hints, r: Registry, e: Edit)
    requires Serialised(r)
    ensures Serialised(Edited(env, r, e))
    ensures Edited(env, r, e).revision >= r.revision
    ensures Edited(env, r, e).revision == r.revision ==> Edited(env, r, e) == r
  {
    hide Serialised;
    var h := env(e.text);
    var bs := Meanings(r, h.key);
    var i := Place(bs, e.command);
    match e {
      case Replace(_, command) =>
        if command == "" || !h.keep {
          RemovalKeepsSerialised(r, h.key);
        } else {
          NewestKeepsSerialised(r, h.key, [Bound(command, r.serial + 1, h.weight)], 0, r.revision + 1);
        }
      case Add(_, command) =>
        if command != "" && h.keep && i == |bs| {
          NewestKeepsSerialised(r, h.key, bs + [Bound(command, r.serial + 1, h.weight)], |bs|, r.revision + 1);
        }
      case Favour(_, command) =>
        if command != "" && h.keep {
          NewestKeepsSerialised(r, h.key, Preferred(bs, command, r.serial + 1, h.weight), i, r.revision + 1);
        }
    }
  }

  lemma {:induction false} RemovalKeepsSerialised(r: Registry, key: string)
    requires Serialised(r)
    ensures Serialised(r.(bindings := r.bindings - {key}, revision := r.revision + 1))
  {}

  lemma {:induction false} BuiltSerialised(env: Hints, lines: seq<Pair>)
    ensures Serialised(Built(env, lines))
  {
    if lines != [] {
      var n := |lines| - 1;
      BuiltSerialised(env, lines[..n]);
      var r, h := Built(env, lines[..n]), env(lines[n].0);
      if h.keep && lines[n].1 != "" {
        NewestKeepsSerialised(r, h.key, Meanings(r, h.key) + [Bound(lines[n].1, r.serial + 1, h.weight)],
            |Meanings(r, h.key)|, r.revision);
      }
    }
  }

  // ----- restating a keymap -----

  /** Whether a line gives a key a meaning here. */
  predicate Means(env: Hints, line: Pair, key: string) {
    env(line.0).keep && line.1 != "" && env(line.0).key == key
  }

  predicate Blanks(env: Hints, line: Pair, key: string) {
    line.1 == "" && env(line.0).key == key
  }

  /** No line gives a key a meaning that another line gives it. */
  predicate Distinct(env: Hints, lines: seq<Pair>) {
    forall i, j :: 0 <= i < j < |lines| && Means(env, lines[i], env(lines[i].0).key)
        && Means(env, lines[j], env(lines[i].0).key)
      ==> lines[i].1 != lines[j].1
  }

  /** Some line blanks a key that a line above it gave a meaning to. */
  ghost predicate BlanksLate(env: Hints, lines: seq<Pair>) {
    exists i, j :: 0 <= i < j < |lines| && Means(env, lines[i], env(lines[i].0).key)
        && Blanks(env, lines[j], env(lines[i].0).key)
  }

  /** Every meaning as it was, but bound so much later. */
  function Later(bs: seq<Bound>, shift: nat): seq<Bound> {
    seq(|bs|, i requires 0 <= i < |bs| => bs[i].(serial := bs[i].serial + shift))
  }

  predicate Blanked(env: Hints, lines: seq<Pair>, key: string) {
    exists i :: 0 <= i < |lines| && Blanks(env, lines[i], key)
  }

  /** What a key means part way through a restatement: what has been restated is bound
      later, and behind it is what has not been yet, unless the key has been blanked. */
  function Halfway(env: Hints, lines: seq<Pair>, n: nat, key: string): seq<Bound>
    requires n <= |lines| && |Meanings(Built(env, lines[..n]), key)| <= |Meanings(Built(env, lines), key)|
  {
    var done := Meanings(Built(env, lines[..n]), key);
    Later(done, Built(env, lines).serial)
    + if Blanked(env, lines[..n], key) then [] else Meanings(Built(env, lines), key)[|done|..]
  }

  lemma {:induction false} BuiltGrows(env: Hints, lines: seq<Pair>, n: nat, key: string)
    requires n <= |lines|
    ensures Meanings(Built(env, lines[..n]), key) <= Meanings(Built(env, lines), key)
    ensures Built(env, lines[..n]).serial <= Built(env, lines).serial
    decreases |lines| - n
  {
    if n < |lines| {
      BuiltGrows(env, lines, n + 1, key);
      assert lines[..n + 1][..n] == lines[..n];
    } else {
      assert lines[..n] == lines;
    }
  }

  /** Everything a key means so far was said by some line. */
  lemma {:induction false} BuiltFrom(env: Hints, lines: seq<Pair>, key: string, b: Bound)
    requires b in Meanings(Built(env, lines), key)
    ensures exists i :: 0 <= i < |lines| && Means(env, lines[i], key) && lines[i].1 == b.command
  {
    var n := |lines| - 1;
    var before := Meanings(Built(env, lines[..n]), key);
    if b in before {
      BuiltFrom(env, lines[..n], key, b);
      var i :| 0 <= i < n && Means(env, lines[..n][i], key) && lines[..n][i].1 == b.command;
      assert lines[i] == lines[..n][i];
    } else {
      assert Means(env, lines[n], key);
    }
  }

  lemma {:induction false} SaidIsBuilt(env: Hints, lines: seq<Pair>, i: nat)
    requires i < |lines| && Means(env, lines[i], env(lines[i].0).key)
    ensures exists b :: b in Meanings(Built(env, lines), env(lines[i].0).key) && b.command == lines[i].1
  {
    var key := env(lines[i].0).key;
    var r := Built(env, lines[..i]);
    assert lines[..i + 1][..i] == lines[..i];
    var after := Meanings(Built(env, lines[..i + 1]), key);
    assert after[|after| - 1] == Bound(lines[i].1, r.serial + 1, env(lines[i].0).weight);
    BuiltGrows(env, lines, i + 1, key);
    assert after[|after| - 1] in Meanings(Built(env, lines), key);
  }

  /** Where a restatement stands after n lines. */
  ghost predicate Restating(env: Hints, lines: seq<Pair>, n: nat, r: Registry)
    requires n <= |lines|
  {
    && r.serial == Built(env, lines).serial + Built(env, lines[..n]).serial
    && (forall key {:trigger Meanings(r, key)} ::
          && |Meanings(Built(env, lines[..n]), key)| <= |Meanings(Built(env, lines), key)|
          && Meanings(r, key) == Halfway(env, lines, n, key))
  }

  lemma {:induction false} PlaceExact(bs: seq<Bound>, command: string, i: nat)
    requires i <= |bs| && (i < |bs| ==> bs[i].command == command)
    requires forall j :: 0 <= j < i ==> bs[j].command != command
    ensures Place(bs, command) == i
  {}

  /** A meaning restated moves from what is still to come to what is done, in place. */
  lemma {:induction false} RestatedInPlace(done: seq<Bound>, b: Bound, rest: seq<Bound>, shift: nat)
    requires forall x :: x in done ==> x.command != b.command
    requires rest == [] || rest[0] == b
    ensures Preferred(Later(done, shift) + rest, b.command, b.serial + shift, b.weight)
         == Later(done + [b], shift) + if rest == [] then [] else rest[1..]
  {
    var bs := Later(done, shift) + rest;
    forall j | 0 <= j < |done| ensures bs[j].command != b.command {
      assert done[j] in done;
    }
    PlaceExact(bs, b.command, |done|);
    assert Later(done + [b], shift) == Later(done, shift) + [b.(serial := b.serial + shift)];
  }

  lemma {:induction false} BlankedMore(env: Hints, lines: seq<Pair>, n: nat, key: string)
    requires n < |lines|
    ensures Blanked(env, lines[..n + 1], key) <==> Blanked(env, lines[..n], key) || Blanks(env, lines[n], key)
  {
    assert lines[..n + 1] == lines[..n] + [lines[n]];
    if Blanked(env, lines[..n], key) {
      var i :| 0 <= i < n && Blanks(env, lines[..n][i], key);
      assert Blanks(env, lines[..n + 1][i], key);
    }
    if Blanks(env, lines[n], key) {
      assert Blanks(env, lines[..n + 1][n], key);
    }
  }

  /** One line restated, for the key it names and for any other. */
  lemma {:induction false} RestateLine(env: Hints, lines: seq<Pair>, n: nat, r: Registry, key: string)
    requires n < |lines| && Restating(env, lines, n, r) && Distinct(env, lines) && !BlanksLate(env, lines)
    ensures var r' := Overlay(env, r, lines[n].0, lines[n].1);
            |Meanings(Built(env, lines[..n + 1]), key)| <= |Meanings(Built(env, lines), key)|
            && Meanings(r', key) == Halfway(env, lines, n + 1, key)
  {
    hide Distinct, BlanksLate, Blanked, Later, Preferred, Built, Overlay, Blanks;
    var line, r0, before := lines[n], Built(env, lines), Built(env, lines[..n]);
    var done, all := Meanings(before, key), Meanings(r0, key);
    BuiltGrows(env, lines, n, key);
    BuiltGrows(env, lines, n + 1, key);
    assert Meanings(r, key) == Halfway(env, lines, n, key);
    BlankedMore(env, lines, n, key);
    BuiltLine(env, lines, n, key);
    OverlayLine(env, r, line, key);
    if Means(env, line, key) {
      var b := Bound(line.1, before.serial + 1, env(line.0).weight);
      NotSaidYet(env, lines, n, key);
      assert all[|done|] == b;
      RestatedInPlace(done, b, if Blanked(env, lines[..n], key) then [] else all[|done|..], r0.serial);
      assert all[|done|..][1..] == all[|done| + 1..];
      NotBoth(env, line, key);
    } else if Blanks(env, line, key) {
      NothingBlankedLate(env, lines, n, key);
      NoneLater(r0.serial);
    }
  }

  lemma {:induction false} NotBoth(env: Hints, line: Pair, key: string)
    ensures !(Means(env, line, key) && Blanks(env, line, key))
  {}

  lemma {:induction false} BuiltLine(env: Hints, lines: seq<Pair>, n: nat, key: string)
    requires n < |lines|
    ensures var before := Built(env, lines[..n]);
            Meanings(Built(env, lines[..n + 1]), key) ==
              if Means(env, lines[n], key)
              then Meanings(before, key) + [Bound(lines[n].1, before.serial + 1, env(lines[n].0).weight)]
              else Meanings(before, key)
  {
    assert lines[..n + 1][..n] == lines[..n];
  }

  lemma {:induction false} OverlayLine(env: Hints, r: Registry, line: Pair, key: string)
    ensures Meanings(Overlay(env, r, line.0, line.1), key) ==
            if Means(env, line, key) then Preferred(Meanings(r, key), line.1, r.serial + 1, env(line.0).weight)
            else if Blanks(env, line, key) then []
            else Meanings(r, key)
  {}

  lemma {:induction false} NoneLater(shift: nat)
    ensures Later([], shift) == []
  {}

  lemma {:induction false} NotSaidYet(env: Hints, lines: seq<Pair>, n: nat, key: string)
    requires n < |lines| && Means(env, lines[n], key) && Distinct(env, lines)
    ensures forall b :: b in Meanings(Built(env, lines[..n]), key) ==> b.command != lines[n].1
  {
    forall b | b in Meanings(Built(env, lines[..n]), key) ensures b.command != lines[n].1 {
      BuiltFrom(env, lines[..n], key, b);
      var i :| 0 <= i < n && Means(env, lines[..n][i], key) && lines[..n][i].1 == b.command;
      assert lines[..n][i] == lines[i];
    }
  }

  lemma {:induction false} NothingBlankedLate(env: Hints, lines: seq<Pair>, n: nat, key: string)
    requires n < |lines| && Blanks(env, lines[n], key)
    ensures Meanings(Built(env, lines[..n]), key) != [] ==> BlanksLate(env, lines)
  {
    var done := Meanings(Built(env, lines[..n]), key);
    if done != [] {
      BuiltFrom(env, lines[..n], key, done[0]);
      var i :| 0 <= i < n && Means(env, lines[..n][i], key) && lines[..n][i].1 == done[0].command;
      assert lines[..n][i] == lines[i];
    }
  }

  lemma {:induction false} RestateLines(env: Hints, lines: seq<Pair>, n: nat)
    requires n <= |lines| && Distinct(env, lines) && !BlanksLate(env, lines)
    ensures Restating(env, lines, n, Overlaid(env, Built(env, lines), lines[..n]))
  {
    hide Distinct, BlanksLate;
    var r0 := Built(env, lines);
    if n == 0 {
      forall key ensures Meanings(r0, key) == Halfway(env, lines, 0, key) {
        NoneLater(r0.serial);
        assert [] + Meanings(r0, key)[0..] == Meanings(r0, key);
      }
    } else {
      RestateLines(env, lines, n - 1);
      assert lines[..n][..n - 1] == lines[..n - 1];
      var r := Overlaid(env, r0, lines[..n - 1]);
      var r' := Overlaid(env, r0, lines[..n]);
      assert r' == Overlay(env, r, lines[n - 1].0, lines[n - 1].1);
      forall key ensures |Meanings(Built(env, lines[..n]), key)| <= |Meanings(r0, key)|
                         && Meanings(r', key) == Halfway(env, lines, n, key) {
        RestateLine(env, lines, n - 1, r, key);
      }
    }
  }

  function Commands(bs: seq<Bound>): seq<string> {
    seq(|bs|, i requires 0 <= i < |bs| => bs[i].command)
  }

  /** Restating a whole keymap lands back on it: every serial is reissued, each by the
      same amount, and every key keeps its meanings in their order with their weights. */
  lemma {:induction false} RestatingLandsBack(env: Hints, lines: seq<Pair>)
    requires Distinct(env, lines) && !BlanksLate(env, lines)
    ensures var r := Built(env, lines);
            var r' := Overlaid(env, r, lines);
            && r'.serial == 2 * r.serial
            && forall key {:trigger Meanings(r', key)} :: Meanings(r', key) == Later(Meanings(r, key), r.serial)
  {
    hide Distinct, BlanksLate, Later;
    var r := Built(env, lines);
    RestateLines(env, lines, |lines|);
    assert lines[..|lines|] == lines;
    var r' := Overlaid(env, r, lines);
    forall key ensures Meanings(r', key) == Later(Meanings(r, key), r.serial) {
      var bs := Meanings(r, key);
      assert Meanings(r', key) == Later(bs, r.serial) + if Blanked(env, lines, key) then [] else bs[|bs|..];
    }
  }

  lemma {:induction false} NeverAgain(env: Hints, r: Registry, lines: seq<Pair>, m: nat, n: nat, key: string,
      command: string)
    requires m <= n <= |lines|
    requires command !in Commands(Meanings(Overlaid(env, r, lines[..m]), key))
    requires forall i :: m <= i < n && Means(env, lines[i], key) ==> lines[i].1 != command
    ensures command !in Commands(Meanings(Overlaid(env, r, lines[..n]), key))
  {
    if m < n {
      NeverAgain(env, r, lines, m, n - 1, key, command);
      assert lines[..n][..n - 1] == lines[..n - 1];
      var line, was := lines[n - 1], Overlaid(env, r, lines[..n - 1]);
      OverlayLine(env, was, line, key);
      assert Overlaid(env, r, lines[..n]) == Overlay(env, was, line.0, line.1);
      hide Meanings, Overlay, Overlaid;
      if Means(env, line, key) {
        AnotherPreferred(Meanings(was, key), line.1, was.serial + 1, env(line.0).weight, command);
      }
    }
  }

  lemma {:induction false} AnotherPreferred(bs: seq<Bound>, c: string, serial: nat, weight: int, command: string)
    requires command !in Commands(bs) && c != command
    ensures command !in Commands(Preferred(bs, c, serial, weight))
  {
    var now := Preferred(bs, c, serial, weight);
    forall i | 0 <= i < |now| ensures now[i].command != command {
      assert i < |bs| ==> Commands(bs)[i] != command;
    }
  }

  /** That is exactly when it does. A table that blanks a key it has already given a
      meaning to takes that meaning away the second time. */
  lemma {:induction false} RestatingKeepsMeanings(env: Hints, lines: seq<Pair>)
    requires Distinct(env, lines)
    ensures var r := Built(env, lines);
            var r' := Overlaid(env, r, lines);
            !BlanksLate(env, lines) <==>
            forall key {:trigger Meanings(r, key)} :: Commands(Meanings(r', key)) == Commands(Meanings(r, key))
  {
    hide Built, Overlaid;
    var r := Built(env, lines);
    var r' := Overlaid(env, r, lines);
    if BlanksLate(env, lines) {
      var i, j :| 0 <= i < j < |lines| && Means(env, lines[i], env(lines[i].0).key)
          && Blanks(env, lines[j], env(lines[i].0).key);
      var key, command := env(lines[i].0).key, lines[i].1;
      SaidIsBuilt(env, lines, i);
      BlankTakesAway(env, r, lines, j, key);
      NeverAgain(env, r, lines, j + 1, |lines|, key, command);
      assert lines[..|lines|] == lines;
      var b :| b in Meanings(r, key) && b.command == command;
      var at :| 0 <= at < |Meanings(r, key)| && Meanings(r, key)[at] == b;
      assert Commands(Meanings(r, key))[at] == command;
      assert Commands(Meanings(r', key)) != Commands(Meanings(r, key));
    } else {
      RestatingLandsBack(env, lines);
      forall key ensures Commands(Meanings(r', key)) == Commands(Meanings(r, key)) {
        assert Meanings(r', key) == Later(Meanings(r, key), r.serial);
      }
    }
  }

  lemma {:induction false} BlankTakesAway(env: Hints, r: Registry, lines: seq<Pair>, j: nat, key: string)
    requires j < |lines| && Blanks(env, lines[j], key)
    ensures Meanings(Overlaid(env, r, lines[..j + 1]), key) == []
  {
    assert lines[..j + 1][..j] == lines[..j];
  }
}
