/**
 The names a place carried, as the C sink remembers them: run together, one separator
 between each and the next (`place_write`, `placed_has`).

 The Go sink keeps the fields themselves, and the two leave out the same of every record
 exactly when no name holds a separator and no empty name comes last alone.
 */
module PlacedNames {
  import opened Text
  import opened Quoting
  import opened Syntax
  import opened Query
  import opened DescriptorSpelling
  import opened Sink
  import opened Extend

  const UNIT: char := 0x1f as char

  predicate InPiece(c: char) {
    c != UNIT
  }

  function Joined(fields: seq<Field>): string {
    if fields == [] then ""
    else if |fields| == 1 then NameOf(fields[0])
    else NameOf(fields[0]) + [UNIT] + Joined(fields[1..])
  }

  /** What a run of names is taken apart into: nothing follows a separator at its end. */
  function Pieces(names: string): seq<string>
    decreases |names|
  {
    if names == "" then []
    else
      var n := Span(InPiece, names);
      if n == |names| then [names] else [names[..n]] + Pieces(names[n + 1..])
  }

  method JoinNames(fields: seq<Field>) returns (names: string)
    ensures names == Joined(fields)
  {
    names := "";
    assert fields[0..] == fields;
    for i := 0 to |fields|
      invariant names + (if 0 < i < |fields| then [UNIT] else "") + Joined(fields[i..]) == Joined(fields)
    {
      ghost var was, rest := names, Joined(fields[i + 1..]);
      assert fields[i..][1..] == fields[i + 1..];
      if i > 0 {
        names := names + [UNIT];
      }
      names := names + NameOf(fields[i]);
      Regroup(was + (if i > 0 then [UNIT] else ""), NameOf(fields[i]), [UNIT]);
      Regroup(was + (if i > 0 then [UNIT] else ""), NameOf(fields[i]) + [UNIT], rest);
    }
    assert names + "" + "" == names;
  }

  lemma {:induction false} FirstPiece(names: string, name: string)
    requires names != ""
    ensures var n := Span(InPiece, names);
            name in Pieces(names) <==> name == names[..n] || (n < |names| && name in Pieces(names[n + 1..]))
  {
    hide Span;
    var n := Span(InPiece, names);
    if n == |names| {
      assert names[..n] == names;
    } else {
      assert Pieces(names) == [names[..n]] + Pieces(names[n + 1..]);
    }
  }

  /** Whether a place carried a name, as its run of names is searched. */
  method PlacedHas(names: string, name: string) returns (has: bool)
    ensures has <==> name in Pieces(names)
  {
    hide Pieces, Span;
    var p := names;
    while p != ""
      invariant name in Pieces(names) <==> name in Pieces(p)
      decreases |p|
    {
      var n := Span(InPiece, p);
      FirstPiece(p, name);
      if p[..n] == name {
        return true;
      }
      if n == |p| {
        return false;
      }
      p := p[n + 1..];
    }
    NoPieces();
    has := false;
  }

  lemma {:induction false} NoPieces()
    ensures Pieces("") == []
  {}

  // ----- when that is the names themselves -----

  predicate Whole(name: string) {
    UNIT !in name
  }

  /** No name holds a separator, and one that is empty does not come last alone. */
  predicate KeptApart(fields: seq<Field>) {
    && (forall f :: f in fields ==> Whole(NameOf(f)))
    && (fields == [] || NameOf(fields[|fields| - 1]) != "" || HasName(fields[..|fields| - 1], ""))
  }

  /** Every name, but for an empty one that comes last. */
  function Said(fields: seq<Field>): seq<string> {
    if fields == [] || (|fields| == 1 && NameOf(fields[0]) == "") then []
    else [NameOf(fields[0])] + Said(fields[1..])
  }

  lemma {:induction false} SaidAre(fields: seq<Field>, name: string)
    ensures name in Said(fields) <==>
              HasName(fields, name) && (name == "" ==> HasName(fields[..|fields| - 1], ""))
  {
    if fields != [] {
      var rest := fields[1..];
      SaidAre(rest, name);
      assert forall f :: f in fields <==> f == fields[0] || f in rest;
      if |fields| > 1 {
        var n := |rest| - 1;
        assert fields[..n + 1] == [fields[0]] + rest[..n];
      }
    }
  }

  lemma {:induction false} PiecesWhole(names: string)
    ensures forall p :: p in Pieces(names) ==> Whole(p)
    decreases |names|
  {
    if names != "" {
      var n := Span(InPiece, names);
      assert forall k :: 0 <= k < n ==> InPiece(names[..n][k]);
      if n < |names| {
        PiecesWhole(names[n + 1..]);
      } else {
        assert names[..n] == names;
      }
    }
  }

  lemma {:induction false} PieceThenMore(name: string, more: string)
    requires Whole(name)
    ensures Pieces(name + [UNIT] + more) == [name] + Pieces(more)
    ensures name != "" ==> Pieces(name) == [name]
  {
    assert forall k :: 0 <= k < |name| ==> InPiece(name[k]);
    SpanExact(InPiece, name, [UNIT] + more);
    SpanExact(InPiece, name, "");
    assert name + "" == name;
    var names := name + [UNIT] + more;
    assert names == name + ([UNIT] + more) && names[|name| + 1..] == more && names[..|name|] == name;
  }

  /** Names without separators come apart as they were, but for an empty one at the end. */
  lemma {:induction false} PiecesOf(fields: seq<Field>)
    requires forall f :: f in fields ==> Whole(NameOf(f))
    ensures Pieces(Joined(fields)) == Said(fields)
  {
    hide Whole, Pieces;
    NoPieces();
    if fields != [] {
      assert fields[0] in fields && forall f :: f in fields[1..] ==> f in fields;
      PieceThenMore(NameOf(fields[0]), Joined(fields[1..]));
      PiecesOf(fields[1..]);
      if |fields| == 1 {
        assert fields[1..] == [] && [NameOf(fields[0])] + [] == [NameOf(fields[0])];
      }
    }
  }

  /** The search finds exactly the names there are, whatever is asked for, if and only if
      the names are kept apart. */
  lemma {:induction false} JoinedExactly(fields: seq<Field>)
    ensures KeptApart(fields)
       <==> forall name :: name in Pieces(Joined(fields)) <==> HasName(fields, name)
  {
    if f :| f in fields && !Whole(NameOf(f)) {
      PiecesWhole(Joined(fields));
      assert HasName(fields, NameOf(f)) && NameOf(f) !in Pieces(Joined(fields));
    } else {
      PiecesOf(fields);
      forall name
        ensures name in Pieces(Joined(fields)) <==>
                  HasName(fields, name) && (name == "" ==> HasName(fields[..|fields| - 1], ""))
      {
        SaidAre(fields, name);
      }
      if fields != [] && NameOf(fields[|fields| - 1]) == "" {
        assert HasName(fields, "");
      } else if HasName(fields, "") {
        LastIsNot(fields);
      }
    }
  }

  lemma {:induction false} LastIsNot(fields: seq<Field>)
    requires HasName(fields, "") && (fields == [] || NameOf(fields[|fields| - 1]) != "")
    ensures HasName(fields[..|fields| - 1], "")
  {
    var f :| f in fields && NameOf(f) == "";
    var i :| 0 <= i < |fields| && fields[i] == f;
    assert fields[..|fields| - 1][i] == f;
  }

  /** A record without what its place is found to have carried, as the C sink writes it. */
  function LackingC(fields: seq<Field>, names: string): seq<Field> {
    if fields == [] then []
    else (if NameOf(fields[0]) in Pieces(names) then [] else [fields[0]]) + LackingC(fields[1..], names)
  }

  lemma {:induction false} BothLeaveOut(fields: seq<Field>, place: seq<Field>)
    requires KeptApart(place)
    ensures LackingC(fields, Joined(place)) == Lacking(fields, place)
  {
    hide KeptApart, Pieces, Joined;
    if fields != [] {
      JoinedExactly(place);
      BothLeaveOut(fields[1..], place);
    }
  }

  /** A name that could cross at all is kept apart from the next. */
  lemma {:induction false} SpellableKeptApart(fields: seq<Field>)
    requires SpellableBag(fields)
    ensures KeptApart(fields)
  {
    forall f | f in fields ensures Whole(NameOf(f)) && NameOf(f) != "" {
      HeadIsText(f.name);
    }
  }

  lemma {:induction false} MergeLackingC(m: Members, fields: seq<Field>, place: seq<Field>)
    requires Holds(m, place) && forall p :: p in Pieces(Joined(place)) ==> HasName(place, p)
    ensures MergeFields(m, LackingC(fields, Joined(place))) == MergeFields(m, fields)
    decreases |fields|
  {
    hide Pieces, Joined;
    if fields != [] {
      var f, more := fields[0], LackingC(fields[1..], Joined(place));
      if NameOf(f) in Pieces(Joined(place)) {
        assert [] + more == more && NameOf(f) in m;
        MergeLackingC(m, fields[1..], place);
      } else {
        assert ([f] + more)[1..] == more;
        MergeLackingC(if NameOf(f) in m then m else m[NameOf(f) := Worth(f)], fields[1..], place);
      }
    }
  }

  lemma {:induction false} JoinedNulFree(fields: seq<Field>)
    ensures NulFree(Joined(fields))
  {
    if fields != [] {
      CTextFacts(fields[0].name);
      JoinedNulFree(fields[1..]);
    }
  }

  lemma {:induction false} PiecesWithin(names: string, p: string)
    requires p in Pieces(names)
    ensures forall c :: c in p ==> c in names
    decreases |names|
  {
    var n := Span(InPiece, names);
    if n < |names| && p != names[..n] {
      PiecesWithin(names[n + 1..], p);
    }
  }

  /** Leaving out what a held place is found to have carried loses nothing of a record. */
  ghost predicate LosesNothing(m: Members, whole: seq<Field>, place: seq<Field>) {
    Holds(m, place) ==> MergeFields(m, LackingC(whole, Joined(place))) == MergeFields(m, whole)
  }

  /** To a reader that merges, nothing is lost by it, whatever the record and whatever is
      held, exactly when every piece found is one of the place's names. */
  lemma {:induction false} NothingLostExactly(place: seq<Field>)
    ensures (forall p :: p in Pieces(Joined(place)) ==> HasName(place, p))
       <==> forall m, whole :: LosesNothing(m, whole, place)
  {
    hide Pieces, Joined;
    if p :| p in Pieces(Joined(place)) && !HasName(place, p) {
      var m: Members := map f | f in place :: NameOf(f) := None;
      var f := Field(p, None);
      JoinedNulFree(place);
      PiecesWithin(Joined(place), p);
      CTextFacts(p);
      assert [f][1..] == [] && LackingC([f], Joined(place)) == [];
      assert p !in m && Holds(m, place);
      assert MergeFields(m, [f]) == MergeFields(m[p := Worth(f)], []);
      assert !LosesNothing(m, [f], place);
    } else {
      forall m, whole ensures LosesNothing(m, whole, place) {
        if Holds(m, place) {
          MergeLackingC(m, whole, place);
        }
      }
    }
  }
}
