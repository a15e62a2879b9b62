/** The order in which names and strings are sorted: element by element, a prefix first. */
module Lexical {

  predicate Before(a: seq<int>, b: seq<int>) {
    b != [] && (a == [] || a[0] < b[0] || (a[0] == b[0] && Before(a[1..], b[1..])))
  }

  /** The two agree up to `n`; there `a` ends, or has the smaller element. */
  predicate DifferAt(a: seq<int>, b: seq<int>, n: nat) {
    && n <= |a| && n < |b| && (forall i :: 0 <= i < n ==> a[i] == b[i])
    && (n == |a| || a[n] < b[n])
  }

  /** The first difference decides. */
  lemma {:induction false} FirstDifferenceDecides(a: seq<int>, b: seq<int>)
    ensures Before(a, b) <==> exists n: nat :: DifferAt(a, b, n)
    decreases |a|
  {
    if a != [] && b != [] && a[0] == b[0] {
      FirstDifferenceDecides(a[1..], b[1..]);
      if n: nat :| DifferAt(a[1..], b[1..], n) {
        assert DifferAt(a, b, n + 1);
      }
      if n: nat :| DifferAt(a, b, n) {
        assert DifferAt(a[1..], b[1..], n - 1);
      }
    } else if Before(a, b) {
      assert DifferAt(a, b, 0);
    }
  }

  lemma {:induction false} NeverBeforeItself(a: seq<int>)
    ensures !Before(a, a)
    decreases |a|
  {
    if a != [] {
      NeverBeforeItself(a[1..]);
    }
  }

  lemma {:induction false} BeforeIsTotal(a: seq<int>, b: seq<int>)
    ensures Before(a, b) || a == b || Before(b, a)
    ensures !(Before(a, b) && Before(b, a)) && !Before(a, a)
    decreases |a| + |b|
  {
    NeverBeforeItself(a);
    if a != [] && b != [] && a[0] == b[0] {
      BeforeIsTotal(a[1..], b[1..]);
      assert a == [a[0]] + a[1..] && b == [b[0]] + b[1..];
    }
  }

  lemma {:induction false} BeforeIsTransitive(a: seq<int>, b: seq<int>, c: seq<int>)
    requires Before(a, b) && Before(b, c)
    ensures Before(a, c)
    decreases |a|
  {
    if a != [] && a[0] == b[0] && b[0] == c[0] {
      BeforeIsTransitive(a[1..], b[1..], c[1..]);
    }
  }

  /** The character codes of a string. */
  function Codes(s: string): (codes: seq<int>)
    ensures |codes| == |s| && forall i :: 0 <= i < |s| ==> codes[i] == s[i] as int
  {
    seq(|s|, i requires 0 <= i < |s| => s[i] as int)
  }

  lemma CodesAreInjective(s: string, t: string)
    requires Codes(s) == Codes(t)
    ensures s == t
  {
  }
}
