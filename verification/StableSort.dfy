/** Python's `sorted` with a key: a stable sort, here by insertion. */
module StableSort {
  import opened Sequences

  /** `less` orders the keys in `ks` linearly. */
  ghost predicate Linear<K>(ks: set<K>, less: (K, K) -> bool) {
    && (forall a <- ks, b <- ks :: less(a, b) ==> a != b)
    && (forall a <- ks, b <- ks :: a == b || less(a, b) || less(b, a))
    && (forall a <- ks, b <- ks, c <- ks :: less(a, b) && less(b, c) ==> less(a, c))
  }

  ghost predicate KeysIn<T, K>(xs: seq<T>, key: T -> K, ks: set<K>) {
    forall x <- xs :: key(x) in ks
  }

  ghost predicate Sorted<T, K>(xs: seq<T>, key: T -> K, less: (K, K) -> bool) {
    forall i, j :: 0 <= i < j < |xs| ==> !less(key(xs[j]), key(xs[i]))
  }

  function Insert<T, K>(sorted: seq<T>, x: T, key: T -> K, less: (K, K) -> bool): seq<T>
    decreases |sorted|
  {
    if sorted == [] then [x]
    else if less(key(x), key(sorted[0])) then [x] + sorted
    else [sorted[0]] + Insert(sorted[1..], x, key, less)
  }

  function Sort<T, K>(xs: seq<T>, key: T -> K, less: (K, K) -> bool): seq<T>
    decreases |xs|
  {
    if xs == [] then [] else Insert(Sort(xs[..|xs| - 1], key, less), xs[|xs| - 1], key, less)
  }

  /** The elements with the given key, in order. */
  function OfKey<T, K(==)>(xs: seq<T>, key: T -> K, k: K): seq<T>
    decreases |xs|
  {
    if xs == [] then []
    else OfKey(xs[..|xs| - 1], key, k) + if key(xs[|xs| - 1]) == k then [xs[|xs| - 1]] else []
  }

  /** The last of them, as a sequence of at most one. */
  function Last<T, K(==)>(xs: seq<T>, key: T -> K, k: K): seq<T> {
    var same := OfKey(xs, key, k);
    if same == [] then [] else [same[|same| - 1]]
  }

  lemma LastFromEnd<T, K>(xs: seq<T>, key: T -> K, k: K)
    requires xs != []
    ensures Last(xs, key, k) == if key(xs[|xs| - 1]) == k then [xs[|xs| - 1]] else Last(xs[..|xs| - 1], key, k)
  {
  }

  lemma {:induction false} OfKeyOfFront<T, K>(x: T, xs: seq<T>, key: T -> K, k: K)
    ensures OfKey([x] + xs, key, k) == (if key(x) == k then [x] else []) + OfKey(xs, key, k)
    decreases |xs|
  {
    var n := |xs|;
    assert ([x] + xs)[..n] == if n == 0 then [] else [x] + xs[..n - 1];
    if n > 0 {
      OfKeyOfFront(x, xs[..n - 1], key, k);
    }
  }

  lemma {:induction false} OfKeyAreThere<T, K>(xs: seq<T>, key: T -> K, k: K)
    ensures forall x <- OfKey(xs, key, k) :: x in xs && key(x) == k
    ensures forall x <- xs :: key(x) == k ==> x in OfKey(xs, key, k)
    decreases |xs|
  {
    if xs != [] {
      var n := |xs| - 1;
      OfKeyAreThere(xs[..n], key, k);
      assert xs == xs[..n] + [xs[n]];
    }
  }

  lemma LastOfFront<T, K>(x: T, xs: seq<T>, key: T -> K, k: K)
    ensures Last([x] + xs, key, k)
            == if Last(xs, key, k) != [] then Last(xs, key, k) else if key(x) == k then [x] else []
  {
    OfKeyOfFront(x, xs, key, k);
  }

  lemma LastIsThere<T, K>(xs: seq<T>, key: T -> K, k: K)
    ensures Last(xs, key, k) == [] <==> forall x <- xs :: key(x) != k
    ensures Last(xs, key, k) != [] ==>
            |Last(xs, key, k)| == 1 && Last(xs, key, k)[0] in xs && key(Last(xs, key, k)[0]) == k
  {
    OfKeyAreThere(xs, key, k);
    var same := OfKey(xs, key, k);
    if same == [] {
      forall x <- xs ensures key(x) != k { assert x !in same; }
    } else {
      assert same[|same| - 1] in same;
    }
  }

  lemma {:induction false} InsertIsPermutation<T, K>(s: seq<T>, x: T, key: T -> K, less: (K, K) -> bool)
    ensures multiset(Insert(s, x, key, less)) == multiset(s) + multiset{x}
    decreases |s|
  {
    if s != [] {
      assert s == [s[0]] + s[1..];
      InsertIsPermutation(s[1..], x, key, less);
    }
  }

  lemma SortedCons<T, K>(x: T, s: seq<T>, key: T -> K, less: (K, K) -> bool)
    requires Sorted(s, key, less) && forall y <- s :: !less(key(y), key(x))
    ensures Sorted([x] + s, key, less)
  {
  }

  lemma FirstIsLeast<T, K>(s: seq<T>, key: T -> K, less: (K, K) -> bool, ks: set<K>)
    requires s != [] && Linear(ks, less) && KeysIn(s, key, ks) && Sorted(s, key, less)
    ensures forall y <- s :: key(y) == key(s[0]) || less(key(s[0]), key(y))
  {
    forall y <- s ensures key(y) == key(s[0]) || less(key(s[0]), key(y)) {
      var j :| 0 <= j < |s| && s[j] == y;
      assert s[0] in s;
    }
  }

  lemma {:induction false} InsertIsSorted<T, K>(s: seq<T>, x: T, key: T -> K, less: (K, K) -> bool, ks: set<K>)
    requires Linear(ks, less) && KeysIn(s, key, ks) && key(x) in ks && Sorted(s, key, less)
    ensures Sorted(Insert(s, x, key, less), key, less)
    decreases |s|
  {
    if s != [] {
      FirstIsLeast(s, key, less, ks);
      assert s[0] in s;
      if less(key(x), key(s[0])) {
        SortedCons(x, s, key, less);
      } else {
        var rest := Insert(s[1..], x, key, less);
        InsertIsSorted(s[1..], x, key, less, ks);
        InsertIsPermutation(s[1..], x, key, less);
        forall y <- rest ensures !less(key(y), key(s[0])) {
          assert y in multiset(rest);
        }
        SortedCons(s[0], rest, key, less);
      }
    }
  }

  lemma {:induction false} SortIsSorted<T, K>(xs: seq<T>, key: T -> K, less: (K, K) -> bool, ks: set<K>)
    requires Linear(ks, less) && KeysIn(xs, key, ks)
    ensures Sorted(Sort(xs, key, less), key, less)
    ensures multiset(Sort(xs, key, less)) == multiset(xs)
    decreases |xs|
  {
    if xs != [] {
      var n := |xs| - 1;
      var s := Sort(xs[..n], key, less);
      SortIsSorted(xs[..n], key, less, ks);
      assert xs == xs[..n] + [xs[n]];
      forall x <- s ensures key(x) in ks { assert x in multiset(s); }
      InsertIsSorted(s, xs[n], key, less, ks);
      InsertIsPermutation(s, xs[n], key, less);
    }
  }

  lemma SmallerIsNew<T, K>(s: seq<T>, x: T, key: T -> K, less: (K, K) -> bool, ks: set<K>)
    requires s != [] && Linear(ks, less) && KeysIn(s, key, ks) && key(x) in ks && Sorted(s, key, less)
    requires less(key(x), key(s[0]))
    ensures OfKey(s, key, key(x)) == []
  {
    LastIsThere(s, key, key(x));
    FirstIsLeast(s, key, less, ks);
    assert s[0] in s;
  }

  /** Stability: an element goes after those with its key. */
  lemma {:induction false} InsertIsStable<T, K>(s: seq<T>, x: T, key: T -> K, less: (K, K) -> bool, ks: set<K>, k: K)
    requires Linear(ks, less) && KeysIn(s, key, ks) && key(x) in ks && Sorted(s, key, less)
    ensures OfKey(Insert(s, x, key, less), key, k) == OfKey(s, key, k) + if key(x) == k then [x] else []
    decreases |s|
  {
    if s == [] {
      assert [x][..0] == [];
    } else {
      hide Linear, OfKey, Last;
      assert s == [s[0]] + s[1..];
      OfKeyOfFront(s[0], s[1..], key, k);
      if less(key(x), key(s[0])) {
        OfKeyOfFront(x, s, key, k);
        SmallerIsNew(s, x, key, less, ks);
      } else {
        var rest := Insert(s[1..], x, key, less);
        assert Insert(s, x, key, less) == [s[0]] + rest;
        InsertIsStable(s[1..], x, key, less, ks, k);
        hide Insert;
        OfKeyOfFront(s[0], rest, key, k);
      }
    }
  }

  /** The elements with any one key are the same sequence before and after. */
  lemma {:induction false} SortIsStable<T, K>(xs: seq<T>, key: T -> K, less: (K, K) -> bool, ks: set<K>, k: K)
    requires Linear(ks, less) && KeysIn(xs, key, ks)
    ensures OfKey(Sort(xs, key, less), key, k) == OfKey(xs, key, k)
    decreases |xs|
  {
    if xs != [] {
      var n := |xs| - 1;
      var s := Sort(xs[..n], key, less);
      SortIsSorted(xs[..n], key, less, ks);
      forall x <- s ensures key(x) in ks { assert x in multiset(s) && x in xs; }
      SortIsStable(xs[..n], key, less, ks, k);
      InsertIsStable(s, xs[n], key, less, ks, k);
    }
  }

  /** Elements with equal keys are equal. */
  ghost predicate Keyed<T, K>(xs: seq<T>, key: T -> K) {
    forall x <- xs, y <- xs :: key(x) == key(y) ==> x == y
  }

  lemma HeadsAgree<T, K>(xs: seq<T>, ys: seq<T>, key: T -> K, less: (K, K) -> bool, ks: set<K>)
    requires Linear(ks, less) && KeysIn(xs, key, ks) && multiset(xs) == multiset(ys) && Keyed(xs, key)
    requires Sorted(xs, key, less) && Sorted(ys, key, less) && xs != [] && ys != []
    ensures xs[0] == ys[0]
  {
    assert xs[0] in multiset(ys) && ys[0] in multiset(xs);
    forall y <- ys ensures key(y) in ks { assert y in multiset(xs); }
    FirstIsLeast(xs, key, less, ks);
    FirstIsLeast(ys, key, less, ks);
  }

  /** Where elements with equal keys are equal, sorted order is unique. */
  lemma {:induction false} SortedIsUnique<T, K>(xs: seq<T>, ys: seq<T>, key: T -> K, less: (K, K) -> bool, ks: set<K>)
    requires Linear(ks, less) && KeysIn(xs, key, ks) && multiset(xs) == multiset(ys) && Keyed(xs, key)
    requires Sorted(xs, key, less) && Sorted(ys, key, less)
    ensures xs == ys
    decreases |xs|
  {
    hide Linear;
    assert |xs| == |multiset(xs)| == |multiset(ys)| == |ys|;
    if xs != [] {
      HeadsAgree(xs, ys, key, less, ks);
      RestOf(xs);
      RestOf(ys);
      SortedIsUnique(xs[1..], ys[1..], key, less, ks);
    }
  }

  lemma {:induction false} SortOfSorted<T, K>(xs: seq<T>, key: T -> K, less: (K, K) -> bool)
    requires Sorted(xs, key, less)
    ensures Sort(xs, key, less) == xs
    decreases |xs|
  {
    if xs != [] {
      var n := |xs| - 1;
      SortOfSorted(xs[..n], key, less);
      InsertAtEnd(xs[..n], xs[n], key, less);
      assert xs == xs[..n] + [xs[n]];
    }
  }

  lemma {:induction false} InsertAtEnd<T, K>(s: seq<T>, x: T, key: T -> K, less: (K, K) -> bool)
    requires forall y <- s :: !less(key(x), key(y))
    ensures Insert(s, x, key, less) == s + [x]
    decreases |s|
  {
    if s != [] {
      InsertAtEnd(s[1..], x, key, less);
    }
  }
}
