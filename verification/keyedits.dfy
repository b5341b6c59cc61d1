/**
 What each edit of the registry leaves a key meaning, said of the commands it meant
 before: bound anew it means that alone, added to it means one more, and a preference
 changes which is newest and nothing about what there is.
 */
module KeyEdits {
  import opened Syntax
  import opened Keymap
  import opened KeyContexts

  /** Whether an edit says anything for a key here. */
  predicate Speaks(env: Hints, text: string, command: string) {
    command != "" && env(text).keep
  }

  /** The newest of everything the registry holds, with this weight. */
  predicate Newest(r: Registry, key: string, command: string, weight: int) {
    && Has(r, key, command) && RankOf(r, key, command).weight == weight
    && RankOf(r, key, command).serial == r.serial
  }

  /** Binding a key replaces everything it meant, and binding it to nothing unbinds it. */
  lemma {:induction false} BoundAnew(env: Hints, r: Registry, text: string, command: string, key: string)
    ensures var r' := Bind(env, r, text, command);
            && r'.revision > r.revision
            && (if key != env(text).key then Meanings(r', key) == Meanings(r, key)
                else if Speaks(env, text, command) then
                  Commands(Meanings(r', key)) == [command] && Newest(r', key, command, env(text).weight)
                  && r'.serial == r.serial + 1
                else key !in r'.bindings)
  {}

  /** Adding a meaning puts it last, behind those the key has, unless it is one of them. */
  lemma {:induction false} AddedLast(env: Hints, r: Registry, text: string, command: string, key: string)
    ensures var r' := AddBinding(env, r, text, command);
            var was := Commands(Meanings(r, env(text).key));
            if !Speaks(env, text, command) || command in was then r' == r
            else if key != env(text).key then Meanings(r', key) == Meanings(r, key)
            else
              && Commands(Meanings(r', key)) == was + [command] && r'.revision > r.revision
              && Newest(r', key, command, env(text).weight)
              && Meanings(r', key)[..|was|] == Meanings(r, key)
  {
    var bs := Meanings(r, env(text).key);
    var i := Place(bs, command);
    if i < |bs| {
      assert Commands(bs)[i] == command;
    } else {
      forall c | c in Commands(bs) ensures c != command {
        var j :| 0 <= j < |bs| && Commands(bs)[j] == c;
        assert bs[j].command == c;
      }
      var b := Bound(command, r.serial + 1, env(text).weight);
      PlaceExact(bs + [b], command, |bs|);
      assert Commands(bs + [b]) == Commands(bs) + [command];
    }
  }

  /** Preferring a meaning makes it the newest, where it stands or last, and never lighter. */
  lemma {:induction false} PreferredNewest(env: Hints, r: Registry, text: string, command: string, key: string)
    ensures var r' := Prefer(env, r, text, command);
            if !Speaks(env, text, command) then r' == r
            else if key != env(text).key then Meanings(r', key) == Meanings(r, key)
            else
              && r'.revision > r.revision
              && Commands(Meanings(r', key)) ==
                   Commands(Meanings(r, key)) + (if Has(r, key, command) then [] else [command])
              && (!Has(r, key, command) ==> Newest(r', key, command, env(text).weight))
              && (Has(r, key, command) ==>
                    var was := RankOf(r, key, command).weight;
                    Newest(r', key, command, if env(text).weight > was then env(text).weight else was))
  {
    var bs := Meanings(r, key);
    var i := Place(bs, command);
    var bs' := Preferred(bs, command, r.serial + 1, env(text).weight);
    PlaceExact(bs', command, i);
    assert Commands(bs') == Commands(bs) + if i < |bs| then [] else [command];
  }

  /** The meanings of the others, and of the other keys, are as they were. */
  lemma {:induction false} OthersKeep(env: Hints, r: Registry, text: string, command: string, key: string, i: nat)
    requires i < |Meanings(r, key)| && Meanings(r, key)[i].command != command
    ensures i < |Meanings(Prefer(env, r, text, command), key)|
            && Meanings(Prefer(env, r, text, command), key)[i] == Meanings(r, key)[i]
  {}

  /** An overlay's line without a command unbinds the key it names, whatever else its text
      hints, and one with a command prefers it. */
  lemma {:induction false} OverlayIs(env: Hints, r: Registry, text: string, command: string)
    ensures command == "" ==> env(text).key !in Overlay(env, r, text, command).bindings
    ensures command != "" ==> Overlay(env, r, text, command) == Prefer(env, r, text, command)
  {}
}
