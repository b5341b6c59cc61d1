/**
 Runs of characters, and the numbers that runs of decimal digits spell.

 A string is a run of bytes throughout, one `char` to a byte.
 */
module Text {

  type Int64 = i: int | -0x8000_0000_0000_0000 <= i < 0x8000_0000_0000_0000

  /** How many characters at the front of `s` satisfy `p`. */
  function Span(p: char -> bool, s: string): (n: nat)
    ensures n <= |s| && (forall k :: 0 <= k < n ==> p(s[k]))
    ensures n == |s| || !p(s[n])
  {
    if s == "" || !p(s[0]) then 0 else 1 + Span(p, s[1..])
  }

  /** A run that `p` accepts, followed by something it does not, is one span. */
  lemma {:induction false} SpanExact(p: char -> bool, w: string, t: string)
    requires forall k :: 0 <= k < |w| ==> p(w[k])
    requires t == "" || !p(t[0])
    ensures Span(p, w + t) == |w|
    ensures (w + t)[..|w|] == w && (w + t)[|w|..] == t
  {
    assert forall k :: 0 <= k < |w| ==> (w + t)[k] == w[k];
    assert t != "" ==> (w + t)[|w|] == t[0];
  }

  predicate IsDigit(c: char) {
    '0' <= c <= '9'
  }

  predicate AllDigits(s: string) {
    forall k :: 0 <= k < |s| ==> IsDigit(s[k])
  }

  /** The number a run of digits spells. */
  function Value(s: string): nat
    requires AllDigits(s)
  {
    if s == "" then 0
    else Value(s[..|s| - 1]) * 10 + (s[|s| - 1] as int - '0' as int)
  }

  /** A number in its shortest decimal spelling. */
  function Decimal(n: nat): (s: string)
    ensures s != "" && AllDigits(s)
  {
    var d := ('0' as int + n % 10) as char;
    if n < 10 then [d] else Decimal(n / 10) + [d]
  }

  lemma {:induction false} DecimalValue(n: nat)
    ensures Value(Decimal(n)) == n
  {
    if n < 10 {
      assert Decimal(n)[..0] == "";
    } else {
      DecimalValue(n / 10);
      assert Decimal(n)[..|Decimal(n)| - 1] == Decimal(n / 10);
    }
  }

  lemma {:induction false} Regroup<T>(a: seq<T>, b: seq<T>, c: seq<T>)
    ensures a + (b + c) == (a + b) + c
  {}
}
