/**
 Three-way comparisons, the laws a total preorder obeys, and the lexicographic
 comparison of two sequences under one. Every collation of the repository is an
 instance of `Lex`, so the laws are proved once and inherited.
 */
module Lexicographic {

  function Sign(n: int): int {
    if n < 0 then -1 else if n > 0 then 1 else 0
  }

  function CompareInt(a: int, b: int): int {
    Sign(a - b)
  }

  /** `cmp` is a three-way total preorder on the values satisfying `dom`. */
  ghost predicate Preorder<T(!new)>(cmp: (T, T) -> int, dom: T -> bool) {
    && (forall x, y {:trigger cmp(x, y)} :: dom(x) && dom(y) ==> Mirrored(cmp, x, y))
    && (forall x, y, z {:trigger cmp(x, y), cmp(y, z)} ::
          dom(x) && dom(y) && dom(z) ==> Transitive(cmp, x, y, z))
  }

  ghost predicate Mirrored<T>(cmp: (T, T) -> int, x: T, y: T) {
    -1 <= cmp(x, y) <= 1 && cmp(x, y) == -cmp(y, x)
  }

  ghost predicate Transitive<T>(cmp: (T, T) -> int, x: T, y: T, z: T) {
    cmp(x, y) <= 0 && cmp(y, z) <= 0 ==> cmp(x, z) <= 0
  }

  /** In a preorder, values that compare equal are interchangeable on either side. */
  lemma {:induction false} EqualsInterchange<T(!new)>(cmp: (T, T) -> int, dom: T -> bool, x: T, y: T, z: T)
    requires Preorder(cmp, dom) && dom(x) && dom(y) && dom(z)
    requires cmp(x, y) == 0
    ensures cmp(x, z) == cmp(y, z) && cmp(z, x) == cmp(z, y)
  {
    assert Mirrored(cmp, x, y) && Mirrored(cmp, x, z) && Mirrored(cmp, y, z);
    assert Mirrored(cmp, y, x) && Mirrored(cmp, z, x) && Mirrored(cmp, z, y);
    assert Transitive(cmp, x, y, z) && Transitive(cmp, y, x, z);
    assert Transitive(cmp, z, x, y) && Transitive(cmp, z, y, x);
  }

  /** Comparison place by place; a proper prefix comes first. */
  function Lex<T>(cmp: (T, T) -> int, a: seq<T>, b: seq<T>): int {
    if a == [] || b == [] then Sign(|a| - |b|)
    else if cmp(a[0], b[0]) != 0 then cmp(a[0], b[0])
    else Lex(cmp, a[1..], b[1..])
  }

  ghost predicate All<T(!new)>(dom: T -> bool, a: seq<T>) {
    forall x :: x in a ==> dom(x)
  }

  lemma {:induction false} LexMirrored<T(!new)>(cmp: (T, T) -> int, dom: T -> bool, a: seq<T>, b: seq<T>)
    requires Preorder(cmp, dom) && All(dom, a) && All(dom, b)
    ensures -1 <= Lex(cmp, a, b) <= 1
    ensures Lex(cmp, a, b) == -Lex(cmp, b, a)
  {
    if a != [] && b != [] {
      assert dom(a[0]) && dom(b[0]);
      assert Mirrored(cmp, a[0], b[0]);
      LexMirrored(cmp, dom, a[1..], b[1..]);
    }
  }

  lemma {:induction false} LexTransitive<T(!new)>(
    cmp: (T, T) -> int, dom: T -> bool, a: seq<T>, b: seq<T>, c: seq<T>)
    requires Preorder(cmp, dom) && All(dom, a) && All(dom, b) && All(dom, c)
    requires Lex(cmp, a, b) <= 0 && Lex(cmp, b, c) <= 0
    ensures Lex(cmp, a, c) <= 0
  {
    if a != [] {
      assert b != [] && c != [];
      assert dom(a[0]) && dom(b[0]) && dom(c[0]);
      assert Transitive(cmp, a[0], b[0], c[0]);
      if cmp(a[0], b[0]) == 0 {
        EqualsInterchange(cmp, dom, a[0], b[0], c[0]);
      } else if cmp(b[0], c[0]) == 0 {
        EqualsInterchange(cmp, dom, b[0], c[0], a[0]);
      }
      if cmp(a[0], c[0]) == 0 {
        EqualsInterchange(cmp, dom, a[0], c[0], b[0]);
        assert Mirrored(cmp, b[0], c[0]);
        LexTransitive(cmp, dom, a[1..], b[1..], c[1..]);
      }
    }
  }

  /** When `cmp` answers 0 only for identical elements, so does `Lex`. */
  lemma {:induction false} LexZero<T(!new)>(cmp: (T, T) -> int, dom: T -> bool, a: seq<T>, b: seq<T>)
    requires All(dom, a) && All(dom, b)
    requires forall x, y :: dom(x) && dom(y) ==> (cmp(x, y) == 0 <==> x == y)
    ensures Lex(cmp, a, b) == 0 <==> a == b
  {
    if a != [] && b != [] && cmp(a[0], b[0]) == 0 {
      LexZero(cmp, dom, a[1..], b[1..]);
      assert a == [a[0]] + a[1..] && b == [b[0]] + b[1..];
    }
  }

  /** A common prefix decides nothing. */
  lemma {:induction false} LexSkip<T(!new)>(cmp: (T, T) -> int, p: seq<T>, a: seq<T>, b: seq<T>)
    requires forall x :: x in p ==> cmp(x, x) == 0
    ensures Lex(cmp, p + a, p + b) == Lex(cmp, a, b)
  {
    if p == [] {
      assert p + a == a && p + b == b;
    } else {
      LexSkip(cmp, p[1..], a, b);
      assert (p + a)[1..] == p[1..] + a && (p + b)[1..] == p[1..] + b;
      assert p[0] in p;
    }
  }

  predicate AnyInt(x: int) { true }

  lemma {:induction false} IntPreorder()
    ensures Preorder(CompareInt, AnyInt)
  {
    forall x, y ensures Mirrored(CompareInt, x, y) {}
    forall x, y, z ensures Transitive(CompareInt, x, y, z) {}
  }
}
