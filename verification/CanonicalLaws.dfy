/** What the canonical form tells apart and what it does not, value by value
    (app/services/idempotency_service.py:39-67). */
module CanonicalLaws {
  import opened Prelude
  import opened Strings
  import opened Sequences
  import opened StableSort
  import opened Canonical

  predicate Scalar(v: Value) {
    v.Null? || v.Bool? || v.Int? || v.Str?
  }

  /** None, booleans, integers and strings are told apart, from each other and from every list
      and dictionary: 1 is neither true nor "1". */
  lemma ScalarsAreToldApart(v: Value, w: Value)
    requires Scalar(v)
    ensures Scalar(w) ==> (Normalize(v) == Normalize(w) <==> v == w)
    ensures w.List? || w.Tuple? || w.PySet? || w.Dict? || w.Upload? ==> Normalize(v) != Normalize(w)
    ensures Normalize(v).Some?
  {
    hide NormalizeAll, NormalizeItems, SetForm, DictForm;
    if w.PySet? && NormalizeAll(w.elements).Some? { SetFormIsAList(NormalizeAll(w.elements).value); }
  }

  lemma SetFormIsAList(cs: seq<Canon>)
    ensures SetForm(cs).Some? ==> SetForm(cs).value.CList?
  {
  }

  /** Lists and tuples are the same thing, taken element by element, and never a dictionary. */
  lemma ListsGoElementByElement(xs: seq<Value>, ys: seq<Value>, items: seq<Item>)
    ensures Normalize(List(xs)) == Normalize(Tuple(xs))
    ensures Normalize(List(xs)).Some? <==> forall x <- xs :: Normalize(x).Some?
    ensures Normalize(List(xs)).Some? ==>
              (Normalize(List(xs)) == Normalize(List(ys))
               <==> |xs| == |ys| && forall i :: 0 <= i < |xs| ==> Normalize(xs[i]) == Normalize(ys[i]))
    ensures Normalize(List(xs)).Some? ==> Normalize(List(xs)) != Normalize(Dict(items))
  {
    hide Normalize, NormalizeAll;
    NormalOfList(xs);
    NormalOfList(ys);
    NormalOfDict(items);
    NormalizeAllPointwise(xs);
    NormalizeAllPointwise(ys);
    if NormalizeAll(xs).Some? && |xs| == |ys| && forall i :: 0 <= i < |xs| ==> Normalize(xs[i]) == Normalize(ys[i]) {
      assert NormalizeAll(xs).value == NormalizeAll(ys).value;
    }
  }

  lemma NormalOfList(xs: seq<Value>)
    ensures Normalize(List(xs)) == Normalize(Tuple(xs))
         == if NormalizeAll(xs).None? then None else Some(CList(NormalizeAll(xs).value))
  {
  }

  function NameOf(item: Item): string { Text(item.key) }

  lemma {:induction false} LastEntry(items: seq<Item>, k: string)
    requires NormalizeItems(items).Some?
    ensures var x, e := OfKey(items, NameOf, k), OfKey(NormalizeItems(items).value, TextOf, k);
            |x| == |e| && forall i :: 0 <= i < |x| ==> NormalizeItem(x[i]) == Some(e[i])
    decreases |items|
  {
    hide NormalizeItems;
    NormalizeItemsPointwise(items);
    if items != [] {
      var n := |items| - 1;
      NormalizeItemsPointwise(items[..n]);
      assert NormalizeItems(items[..n]).value == NormalizeItems(items).value[..n];
      LastEntry(items[..n], k);
      assert NormalizeItem(items[n]) == Some(NormalizeItems(items).value[n]);
    }
  }

  /** Two dictionaries are the same if and only if every name has the same normal value in both,
      or is in neither; of several items whose keys have one name the last counts. */
  lemma DictsGoNameByName(a: seq<Item>, b: seq<Item>)
    requires (forall x <- a :: Normalize(x.value).Some?) && forall y <- b :: Normalize(y.value).Some?
    ensures Normalize(Dict(a)).Some? && Normalize(Dict(b)).Some?
    ensures Normalize(Dict(a)) == Normalize(Dict(b)) <==>
            forall k :: var x, y := Last(a, NameOf, k), Last(b, NameOf, k);
                        |x| == |y| && (x != [] ==> Normalize(x[0].value) == Normalize(y[0].value))
  {
    hide Normalize, NormalizeItems, OfKey, DictForm;
    NormalizeItemsPointwise(a);
    NormalizeItemsPointwise(b);
    NormalOfDict(a);
    NormalOfDict(b);
    var es, ds := NormalizeItems(a).value, NormalizeItems(b).value;
    forall k ensures var x, y := Last(a, NameOf, k), Last(b, NameOf, k);
                     Last(es, TextOf, k) == Last(ds, TextOf, k) <==>
                     |x| == |y| && (x != [] ==> Normalize(x[0].value) == Normalize(y[0].value)) {
      LastEntry(a, k);
      LastEntry(b, k);
      LastIsThere(a, NameOf, k);
      LastIsThere(b, NameOf, k);
    }
    SameMapSameForm(es, ds);
  }

  /** The name of a key is what `str` makes of it: 7 and "7" are one name. */
  lemma NamesOfKeys(n: int)
    ensures n >= 0 ==> Text(NumKey(n)) == Text(TextKey(Decimal(n))) == Decimal(n)
    ensures n < 0 ==> Text(NumKey(n)) == "-" + Decimal(-n)
  {
  }

  function TextOrNull(o: Option<string>): Value {
    if o.Some? then Str(o.value) else Null
  }

  lemma TwoEntries(d: Entry, e: Entry)
    requires Below(e.key, d.key)
    ensures DictForm([d, e]) == [e, d]
  {
    hide DictForm, Below;
    var es := [e, d];
    assert Strict(es);
    StrictIsSorted(es);
    ReorderedMap(es, [d, e]) by {
      assert [d, e] == [d] + [e] && es == [e] + [d];
    }
    SameMapSameForm(es, [d, e]);
    StrictFormIsItself(es);
  }

  lemma StrictFormIsItself(es: seq<Entry>)
    requires Strict(es)
    ensures DictForm(es) == es
  {
    hide Strict, Sort;
    StrictIsSorted(es);
    SortOfSorted(es, TextOf, Below);
    ComprehendStrict(es);
  }

  /** An upload is the dictionary of its two properties. */
  lemma UploadIsItsProperties(filename: Option<string>, contentType: Option<string>)
    ensures Normalize(Upload(filename, contentType))
         == Normalize(Dict([Item(TextKey("filename"), TextOrNull(filename)),
                            Item(TextKey("content_type"), TextOrNull(contentType))]))
  {
    hide NormalizeItems, DictForm;
    var items := [Item(TextKey("filename"), TextOrNull(filename)),
                  Item(TextKey("content_type"), TextOrNull(contentType))];
    var d, e := Entry("filename", OptionalText(filename)), Entry("content_type", OptionalText(contentType));
    NormalizeItemsPointwise(items);
    assert NormalizeItem(items[0]) == Some(d) && NormalizeItem(items[1]) == Some(e);
    assert NormalizeItems(items).value == [d, e];
    assert Below("content_type", "filename");
    TwoEntries(d, e);
  }

  /** Any other object stands for its encoding, or where that fails for its `repr`; it never
      makes the request fail. */
  lemma OthersStandForTheirEncoding(encoded: Option<Value>, repr: string)
    ensures Normalize(Foreign(encoded, repr)).Some?
    ensures Normalize(Foreign(encoded, repr))
         == if encoded.Some? && Normalize(encoded.value).Some? then Normalize(encoded.value) else Normalize(Str(repr))
  {
  }

  // ----- sets

  /** The strings agree up to i and differ there, the first having the smaller character. */
  predicate BelowAt(a: string, b: string, i: nat) {
    i < |a| && i < |b| && a[..i] == b[..i] && a[i] < b[i]
  }

  lemma BelowAtNext(a: string, b: string, i: nat)
    requires a != [] && b != [] && a[0] == b[0]
    ensures BelowAt(a[1..], b[1..], i) <==> BelowAt(a, b, i + 1)
    ensures !BelowAt(a, b, 0)
  {
    if i < |a[1..]| && i < |b[1..]| {
      assert a[..i + 1] == [a[0]] + a[1..][..i] && b[..i + 1] == [b[0]] + b[1..][..i];
      assert a[..i + 1][1..] == a[1..][..i] && b[..i + 1][1..] == b[1..][..i];
    }
  }

  /** Python's order on strings: a proper prefix, or smaller at the first difference. */
  lemma {:induction false} BelowMeans(a: string, b: string)
    ensures Below(a, b) <==> a < b || exists i: nat :: BelowAt(a, b, i)
    decreases |a|
  {
    if a != [] && b != [] {
      if a[0] == b[0] {
        BelowMeans(a[1..], b[1..]);
        assert a == [a[0]] + a[1..] && b == [b[0]] + b[1..];
        assert a < b <==> a[1..] < b[1..];
        hide BelowAt;
        forall i: nat { BelowAtNext(a, b, i); }
        if i: nat :| BelowAt(a, b, i) {
          assert i > 0 && BelowAt(a[1..], b[1..], i - 1);
        }
      } else {
        assert a[..0] == b[..0];
        assert BelowAt(a, b, 0) <==> a[0] < b[0];
        assert forall i :: 0 < i <= |a| && i <= |b| ==> a[..i][0] == a[0] && b[..i][0] == b[0];
      }
    }
  }

  /** Python's == on normal forms: booleans are the numbers 0 and 1, at any depth. */
  predicate PyEqual(a: Canon, b: Canon) {
    match (a, b)
    case (CBool(x), CInt(n)) => n == if x then 1 else 0
    case (CInt(n), CBool(x)) => n == if x then 1 else 0
    case (CList(xs), CList(ys)) => |xs| == |ys| && forall i :: 0 <= i < |xs| ==> PyEqual(xs[i], ys[i])
    case (CDict(es), CDict(ds)) =>
      |es| == |ds| && forall i :: 0 <= i < |es| ==> es[i].key == ds[i].key && PyEqual(es[i].value, ds[i].value)
    case _ => a == b
  }

  lemma RankOfList(xs: seq<Canon>, ys: seq<Canon>)
    ensures Rank(CList(xs)) == Rank(CList(ys)) <==>
            |xs| == |ys| && forall i :: 0 <= i < |xs| ==> Rank(xs[i]) == Rank(ys[i])
  {
    var r, q := Rank(CList(xs)).elements, Rank(CList(ys)).elements;
    assert |r| == |xs| && |q| == |ys|;
    assert forall i :: 0 <= i < |xs| ==> r[i] == Rank(xs[i]);
    assert forall i :: 0 <= i < |ys| ==> q[i] == Rank(ys[i]);
    if |xs| == |ys| && forall i :: 0 <= i < |xs| ==> Rank(xs[i]) == Rank(ys[i]) {
      assert r == q;
    }
  }

  lemma RankOfDict(es: seq<Entry>, ds: seq<Entry>)
    ensures Rank(CDict(es)) == Rank(CDict(ds)) <==>
            && |es| == |ds|
            && forall i :: 0 <= i < |es| ==> es[i].key == ds[i].key && Rank(es[i].value) == Rank(ds[i].value)
  {
    var r, q := Rank(CDict(es)).entries, Rank(CDict(ds)).entries;
    assert |r| == |es| && |q| == |ds|;
    assert forall i :: 0 <= i < |es| ==> r[i] == Entry(es[i].key, Rank(es[i].value));
    assert forall i :: 0 <= i < |ds| ==> q[i] == Entry(ds[i].key, Rank(ds[i].value));
    if |es| == |ds| && forall i :: 0 <= i < |es| ==> es[i].key == ds[i].key && Rank(es[i].value) == Rank(ds[i].value) {
      assert r == q;
    }
  }

  /** Two elements tie in the sort exactly if they are equal in Python. */
  lemma {:induction false} RanksAreEqualIff(a: Canon, b: Canon)
    ensures Rank(a) == Rank(b) <==> PyEqual(a, b)
  {
    match (a, b)
    case (CList(xs), CList(ys)) =>
      RankOfList(xs, ys);
      forall i | 0 <= i < |xs| && |xs| == |ys| ensures Rank(xs[i]) == Rank(ys[i]) <==> PyEqual(xs[i], ys[i]) {
        RanksAreEqualIff(xs[i], ys[i]);
      }
    case (CDict(es), CDict(ds)) =>
      RankOfDict(es, ds);
      forall i | 0 <= i < |es| && |es| == |ds|
        ensures Rank(es[i].value) == Rank(ds[i].value) <==> PyEqual(es[i].value, ds[i].value)
      {
        RanksAreEqualIff(es[i].value, ds[i].value);
      }
    case _ =>
  }

  /** The lists agree up to i and differ there, the first having the smaller rank. */
  predicate SmallerAt(xs: seq<Canon>, ys: seq<Canon>, i: nat) {
    i < |xs| && i < |ys| && xs[..i] == ys[..i] && xs[i] != ys[i] && Less(xs[i], ys[i])
  }

  lemma SmallerAtNext(xs: seq<Canon>, ys: seq<Canon>, i: nat)
    requires xs != [] && ys != [] && xs[0] == ys[0]
    ensures SmallerAt(xs[1..], ys[1..], i) <==> SmallerAt(xs, ys, i + 1)
    ensures !SmallerAt(xs, ys, 0)
    ensures xs < ys <==> xs[1..] < ys[1..]
  {
    hide Less;
    assert xs == [xs[0]] + xs[1..] && ys == [ys[0]] + ys[1..];
    if i < |xs[1..]| && i < |ys[1..]| {
      assert xs[..i + 1] == [xs[0]] + xs[1..][..i] && ys[..i + 1] == [ys[0]] + ys[1..][..i];
      assert xs[..i + 1][1..] == xs[1..][..i] && ys[..i + 1][1..] == ys[1..][..i];
    }
  }

  /** Python's order on lists of ranks: the same, element by element. */
  lemma {:induction false} LessListMeans(xs: seq<Canon>, ys: seq<Canon>)
    ensures LessList(xs, ys) <==> xs < ys || exists i: nat :: SmallerAt(xs, ys, i)
    decreases |xs|
  {
    if xs != [] && ys != [] {
      if xs[0] == ys[0] {
        hide SmallerAt, Less;
        LessListMeans(xs[1..], ys[1..]);
        forall i: nat { SmallerAtNext(xs, ys, i); }
        if i: nat :| SmallerAt(xs, ys, i) {
          assert i > 0 && SmallerAt(xs[1..], ys[1..], i - 1);
        }
      } else {
        LessIsStrict(xs[0], ys[0]);
        assert xs[..0] == ys[..0];
        assert SmallerAt(xs, ys, 0) <==> Less(xs[0], ys[0]);
        assert forall i :: 0 < i <= |xs| && i <= |ys| ==> xs[..i][0] == xs[0] && ys[..i][0] == ys[0];
      }
    }
  }

  /** A set of integers is the list of them in ascending order, whatever order it is iterated
      in. */
  lemma IntegerSetsAscend(xs: seq<Value>, p: seq<int>)
    requires (forall x <- xs :: x.Int?) && IsOrder(p, |xs|)
    requires forall i, j :: 0 <= i < j < |xs| ==> xs[i].n < xs[j].n
    ensures Normalize(PySet(Pick(xs, p))) == Normalize(List(xs)) != None
  {
    NormalizeAllPointwise(xs);
    var cs := NormalizeAll(xs).value;
    forall i | 0 <= i < |xs| ensures xs[i].Int? && cs[i] == CInt(xs[i].n) {
      assert xs[i] in xs && Normalize(xs[i]) == Some(CInt(xs[i].n));
    }
    SortedSetIsItsList(xs, p);
  }

  /** And a set of strings likewise, by code points. */
  lemma StringSetsAscend(xs: seq<Value>, p: seq<int>)
    requires (forall x <- xs :: x.Str?) && IsOrder(p, |xs|)
    requires forall i, j :: 0 <= i < j < |xs| ==> Below(xs[i].s, xs[j].s)
    ensures Normalize(PySet(Pick(xs, p))) == Normalize(List(xs)) != None
  {
    hide Below, NormalizeAll;
    NormalizeAllPointwise(xs);
    var cs := NormalizeAll(xs).value;
    forall i | 0 <= i < |xs| ensures xs[i].Str? && cs[i] == CStr(xs[i].s) == Rank(cs[i]) {
      assert xs[i] in xs && Normalize(xs[i]) == Some(CStr(xs[i].s));
    }
    hide Normalize, Rank;
    forall i, j | 0 <= i < j < |xs| ensures !Below(xs[j].s, xs[i].s) && xs[i].s != xs[j].s {
      AscendingStrings(xs[i].s, xs[j].s);
    }
    SortedSetIsItsList(xs, p);
  }

  lemma AscendingStrings(a: string, b: string)
    requires Below(a, b)
    ensures !Below(b, a) && a != b
  {
    BelowIsStrict(a, b);
    if Below(b, a) {
      BelowIsTransitive(a, b, a);
      BelowIsStrict(a, a);
    }
  }

  lemma SortedSetIsItsList(xs: seq<Value>, p: seq<int>)
    requires IsOrder(p, |xs|) && NormalizeAll(xs).Some?
    requires AllComparable(NormalizeAll(xs).value)
    requires Sorted(NormalizeAll(xs).value, Rank, Less) && Keyed(NormalizeAll(xs).value, Rank)
    ensures Normalize(PySet(Pick(xs, p))) == Normalize(List(xs)) != None
  {
    hide Normalize, NormalizeAll, AllComparable, Keyed, Sorted, Rank, Less;
    var cs := NormalizeAll(xs).value;
    PickedElements(xs, p);
    ReorderedMultiset(cs, Pick(cs, p), p);
    SetFormIsUnique(cs, Pick(cs, p));
    SortOfSorted(cs, Rank, Less);
    NormalOfSet(Pick(xs, p));
    NormalOfList(xs);
  }

  /** A set of scalars can be sorted exactly if it has one element at most, only numbers (true
      and false are numbers) or only strings; otherwise the request fails. */
  lemma ScalarSetsSortExactlyWhen(xs: seq<Value>)
    requires forall x <- xs :: Scalar(x)
    ensures Normalize(PySet(xs)).Some? <==>
            |xs| <= 1 || (forall x <- xs :: x.Bool? || x.Int?) || (forall x <- xs :: x.Str?)
  {
    hide Normalize, NormalizeAll, Sort, Rank, Comparable;
    NormalizeAllPointwise(xs);
    forall i | 0 <= i < |xs| ensures Normalize(xs[i]).Some? {
      assert xs[i] in xs;
      ScalarsAreToldApart(xs[i], xs[i]);
    }
    NormalOfSet(xs);
    var cs := NormalizeAll(xs).value;
    if |xs| > 1 {
      assert xs[0] in xs && cs[0] in cs;
      if AllComparable(cs) {
        forall i | 0 <= i < |xs| ensures SameSort(xs[0], xs[i]) {
          assert xs[i] in xs && cs[i] in cs;
          ScalarsCompare(xs[0], xs[i]);
        }
        forall x <- xs ensures SameSort(xs[0], x) {
        }
      }
      if (forall x <- xs :: x.Bool? || x.Int?) || (forall x <- xs :: x.Str?) {
        forall c <- cs, d <- cs ensures Comparable(Rank(c), Rank(d)) {
          var i :| 0 <= i < |cs| && cs[i] == c;
          var j :| 0 <= j < |cs| && cs[j] == d;
          assert xs[i] in xs && xs[j] in xs;
          ScalarsCompare(xs[i], xs[j]);
        }
      }
    }
  }

  /** Both numbers or both strings. */
  predicate SameSort(v: Value, w: Value) {
    ((v.Bool? || v.Int?) && (w.Bool? || w.Int?)) || (v.Str? && w.Str?)
  }

  lemma ScalarsCompare(v: Value, w: Value)
    requires Scalar(v) && Scalar(w)
    ensures Normalize(v).Some? && Normalize(w).Some?
    ensures Comparable(Rank(Normalize(v).value), Rank(Normalize(w).value)) <==> SameSort(v, w)
  {
  }
}
