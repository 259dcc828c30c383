/** Sequences as multisets, one element at a time. */
module Sequences {

  lemma RestOf<T>(xs: seq<T>)
    requires xs != []
    ensures multiset(xs[1..]) == multiset(xs) - multiset{xs[0]}
  {
    assert xs == [xs[0]] + xs[1..];
  }

  lemma Without<T>(xs: seq<T>, j: nat)
    requires j < |xs|
    ensures multiset(xs) == multiset(xs[..j] + xs[j + 1..]) + multiset{xs[j]}
  {
    assert xs == xs[..j] + [xs[j]] + xs[j + 1..];
  }

  lemma Cancel<T>(a: multiset<T>, b: multiset<T>, x: T)
    requires a + multiset{x} == b + multiset{x}
    ensures a == b
  {
    assert a == (a + multiset{x}) - multiset{x};
    assert b == (b + multiset{x}) - multiset{x};
  }

  lemma CancelBelow<T>(a: multiset<T>, b: multiset<T>, x: T)
    requires a + multiset{x} <= b + multiset{x}
    ensures a <= b
  {
    forall y: T | y in a ensures a[y] <= b[y] {
      assert (a + multiset{x})[y] <= (b + multiset{x})[y];
    }
  }

  /** The first element of a contained sequence, taken from both. */
  lemma Shared<T>(a: seq<T>, b: seq<T>) returns (j: nat)
    requires a != [] && multiset(a) <= multiset(b)
    ensures j < |b| && b[j] == a[0]
    ensures multiset(a[..0] + a[1..]) <= multiset(b[..j] + b[j + 1..])
  {
    assert a[0] in multiset(b);
    j :| 0 <= j < |b| && b[j] == a[0];
    Without(a, 0);
    Without(b, j);
    CancelBelow(multiset(a[..0] + a[1..]), multiset(b[..j] + b[j + 1..]), a[0]);
  }
}
