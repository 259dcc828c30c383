/** The canonical request form of app/services/idempotency_service.py:31-89: normalisation of
    nested Python values, the JSON text's unambiguity, and the scope key. */
module Canonical {
  import opened Prelude
  import opened Strings
  import opened Sequences
  import opened StableSort

  datatype Key = TextKey(text: string) | NumKey(n: int)
  datatype Item = Item(key: Key, value: Value)

  /** A Python value.  Dictionaries and sets come in insertion and iteration order.  `Foreign`
      is any other object: what model_dump or jsonable_encoder makes of it, None if that
      raises, and its repr. */
  datatype Value =
    | Null
    | Bool(b: bool)
    | Int(n: int)
    | Str(s: string)
    | Dict(items: seq<Item>)
    | List(elements: seq<Value>)
    | Tuple(elements: seq<Value>)
    | PySet(elements: seq<Value>)
    | Upload(filename: Option<string>, contentType: Option<string>)
    | Foreign(encoded: Option<Value>, repr: string)

  datatype Entry = Entry(key: string, value: Canon)

  /** A normalised value up to Python's equality: a dictionary is given by its entries in key
      order. */
  datatype Canon =
    | CNull
    | CBool(b: bool)
    | CInt(n: int)
    | CStr(s: string)
    | CList(elements: seq<Canon>)
    | CDict(entries: seq<Entry>)

  // ----- text

  function Text(k: Key): string {
    match k
    case TextKey(text) => text
    case NumKey(n) => if n >= 0 then Decimal(n) else "-" + Decimal(-n)
  }

  /** Python's order on strings, by code points. */
  predicate Below(a: string, b: string)
    decreases |a|
  {
    if b == [] then false
    else if a == [] then true
    else if a[0] != b[0] then a[0] < b[0]
    else Below(a[1..], b[1..])
  }

  lemma {:induction false} BelowIsStrict(a: string, b: string)
    ensures Below(a, b) ==> a != b
    ensures a == b || Below(a, b) || Below(b, a)
    decreases |a|
  {
    if a != [] && b != [] {
      if a[0] == b[0] {
        BelowIsStrict(a[1..], b[1..]);
        assert a == [a[0]] + a[1..] && b == [b[0]] + b[1..];
      }
    }
  }

  lemma {:induction false} BelowIsTransitive(a: string, b: string, c: string)
    requires Below(a, b) && Below(b, c)
    ensures Below(a, c)
    decreases |a|
  {
    if a != [] && a[0] == b[0] == c[0] {
      BelowIsTransitive(a[1..], b[1..], c[1..]);
    }
  }

  lemma BelowIsLinear(ks: set<string>)
    ensures Linear(ks, Below)
  {
    forall a <- ks, b <- ks ensures (Below(a, b) ==> a != b) && (a == b || Below(a, b) || Below(b, a)) {
      BelowIsStrict(a, b);
    }
    forall a <- ks, b <- ks, c <- ks | Below(a, b) && Below(b, c) ensures Below(a, c) {
      BelowIsTransitive(a, b, c);
    }
  }

  // ----- the order Python's `sorted` uses on set elements

  /** Python compares booleans as the integers 0 and 1; two values are == in Python exactly if
      their ranks are equal. */
  function Rank(c: Canon): Canon {
    match c
    case CBool(b) => CInt(if b then 1 else 0)
    case CList(xs) => CList(seq(|xs|, i requires 0 <= i < |xs| => Rank(xs[i])))
    case CDict(es) => CDict(seq(|es|, i requires 0 <= i < |es| => Entry(es[i].key, Rank(es[i].value))))
    case _ => c
  }

  /** a < b on ranks, false where Python raises TypeError. */
  predicate Less(a: Canon, b: Canon) {
    || (a.CInt? && b.CInt? && a.n < b.n)
    || (a.CStr? && b.CStr? && Below(a.s, b.s))
    || (a.CList? && b.CList? && LessList(a.elements, b.elements))
  }

  predicate LessList(xs: seq<Canon>, ys: seq<Canon>) {
    if ys == [] then false
    else if xs == [] then true
    else if xs[0] == ys[0] then LessList(xs[1..], ys[1..])
    else Less(xs[0], ys[0])
  }

  /** Python can evaluate a < b. */
  predicate Comparable(a: Canon, b: Canon) {
    (a.CInt? && b.CInt?) || (a.CStr? && b.CStr?) || (a.CList? && b.CList? && ComparableList(a.elements, b.elements))
  }

  predicate ComparableList(xs: seq<Canon>, ys: seq<Canon>) {
    if xs == [] || ys == [] then true
    else if xs[0] == ys[0] then ComparableList(xs[1..], ys[1..])
    else Comparable(xs[0], ys[0])
  }

  lemma {:induction false} LessIsStrict(a: Canon, b: Canon)
    ensures Less(a, b) ==> a != b
    ensures Comparable(a, b) ==> a == b || Less(a, b) || Less(b, a)
  {
    if a.CStr? && b.CStr? { BelowIsStrict(a.s, b.s); }
    if a.CList? && b.CList? { LessListIsStrict(a.elements, b.elements); }
  }

  lemma {:induction false} LessListIsStrict(xs: seq<Canon>, ys: seq<Canon>)
    ensures LessList(xs, ys) ==> xs != ys
    ensures ComparableList(xs, ys) ==> xs == ys || LessList(xs, ys) || LessList(ys, xs)
  {
    if xs != [] && ys != [] {
      if xs[0] == ys[0] {
        LessListIsStrict(xs[1..], ys[1..]);
        assert xs == [xs[0]] + xs[1..] && ys == [ys[0]] + ys[1..];
      } else {
        LessIsStrict(xs[0], ys[0]);
      }
    }
  }

  lemma {:induction false} LessIsTransitive(a: Canon, b: Canon, c: Canon)
    requires Less(a, b) && Less(b, c)
    ensures Less(a, c)
  {
    if a.CStr? { BelowIsTransitive(a.s, b.s, c.s); }
    if a.CList? { LessListIsTransitive(a.elements, b.elements, c.elements); }
  }

  lemma {:induction false} LessListIsTransitive(xs: seq<Canon>, ys: seq<Canon>, zs: seq<Canon>)
    requires LessList(xs, ys) && LessList(ys, zs)
    ensures LessList(xs, zs)
  {
    if xs != [] {
      if xs[0] == ys[0] == zs[0] {
        LessListIsTransitive(xs[1..], ys[1..], zs[1..]);
      } else if xs[0] != ys[0] && ys[0] != zs[0] {
        LessIsTransitive(xs[0], ys[0], zs[0]);
        LessIsStrict(xs[0], zs[0]);
      }
    }
  }

  /** Nothing makes `sorted` raise; a lone element is not compared at all. */
  predicate AllComparable(cs: seq<Canon>) {
    |cs| <= 1 || forall a <- cs, b <- cs :: Comparable(Rank(a), Rank(b))
  }

  function Ranks(cs: seq<Canon>): set<Canon> { set c <- cs :: Rank(c) }

  lemma RanksAreLinear(cs: seq<Canon>)
    requires AllComparable(cs)
    ensures Linear(Ranks(cs), Less) && KeysIn(cs, Rank, Ranks(cs))
  {
    var ks := Ranks(cs);
    forall a <- ks, b <- ks ensures (Less(a, b) ==> a != b) && (a == b || Less(a, b) || Less(b, a)) {
      LessIsStrict(a, b);
      assert |cs| == 1 ==> cs == [cs[0]];
    }
    forall a <- ks, b <- ks, c <- ks | Less(a, b) && Less(b, c) ensures Less(a, c) {
      LessIsTransitive(a, b, c);
    }
  }

  // ----- normalisation

  function TextOf(e: Entry): string { e.key }

  /** The keys in insertion order of a dict comprehension: a later item with the same key
      overwrites the value in place. */
  function Comprehend(es: seq<Entry>): seq<Entry>
    decreases |es|
  {
    if es == [] then [] else Assign(Comprehend(es[..|es| - 1]), es[|es| - 1])
  }

  function Assign(es: seq<Entry>, e: Entry): seq<Entry>
    decreases |es|
  {
    if es == [] then [e]
    else if es[0].key == e.key then [e] + es[1..]
    else [es[0]] + Assign(es[1..], e)
  }

  /** The normalised items of a dictionary, sorted by key and rebuilt. */
  function DictForm(es: seq<Entry>): seq<Entry> {
    Comprehend(Sort(es, TextOf, Below))
  }

  /** The normalised elements of a set, sorted; None where that raises TypeError. */
  function SetForm(cs: seq<Canon>): Option<Canon> {
    if AllComparable(cs) then Some(CList(Sort(cs, Rank, Less))) else None
  }

  function OptionalText(o: Option<string>): Canon {
    if o.Some? then CStr(o.value) else CNull
  }

  /** _normalize_for_hash; None where it raises TypeError. */
  function Normalize(v: Value): Option<Canon> {
    match v
    case Null => Some(CNull)
    case Bool(b) => Some(CBool(b))
    case Int(n) => Some(CInt(n))
    case Str(s) => Some(CStr(s))
    case Dict(items) =>
      var es := NormalizeItems(items);
      if es.None? then None else Some(CDict(DictForm(es.value)))
    case List(xs) => var cs := NormalizeAll(xs); if cs.None? then None else Some(CList(cs.value))
    case Tuple(xs) => var cs := NormalizeAll(xs); if cs.None? then None else Some(CList(cs.value))
    case PySet(xs) =>
      var cs := NormalizeAll(xs); if cs.None? then None else SetForm(cs.value)
    case Upload(filename, contentType) =>
      Some(CDict([Entry("content_type", OptionalText(contentType)), Entry("filename", OptionalText(filename))]))
    case Foreign(encoded, repr) =>
      var inner := if encoded.None? then None else Normalize(encoded.value);
      if inner.Some? then inner else Some(CStr(repr))
  }

  function NormalizeAll(xs: seq<Value>): Option<seq<Canon>> {
    if xs == [] then Some([])
    else
      var c, rest := Normalize(xs[0]), NormalizeAll(xs[1..]);
      if c.None? || rest.None? then None else Some([c.value] + rest.value)
  }

  function NormalizeItem(item: Item): Option<Entry> {
    var c := Normalize(item.value);
    if c.None? then None else Some(Entry(Text(item.key), c.value))
  }

  function NormalizeItems(items: seq<Item>): Option<seq<Entry>> {
    if items == [] then Some([])
    else
      var e, rest := NormalizeItem(items[0]), NormalizeItems(items[1..]);
      if e.None? || rest.None? then None else Some([e.value] + rest.value)
  }

  lemma {:induction false} NormalizeAllPointwise(xs: seq<Value>)
    ensures NormalizeAll(xs).Some? <==> forall i :: 0 <= i < |xs| ==> Normalize(xs[i]).Some?
    ensures NormalizeAll(xs).Some? ==> |NormalizeAll(xs).value| == |xs|
    ensures NormalizeAll(xs).Some? ==> forall i :: 0 <= i < |xs| ==> Normalize(xs[i]) == Some(NormalizeAll(xs).value[i])
  {
    if xs != [] {
      NormalizeAllPointwise(xs[1..]);
      assert forall i :: 0 < i < |xs| ==> xs[i] == xs[1..][i - 1];
    }
  }

  lemma {:induction false} NormalizeItemsPointwise(items: seq<Item>)
    ensures NormalizeItems(items).Some? <==> forall i :: 0 <= i < |items| ==> NormalizeItem(items[i]).Some?
    ensures NormalizeItems(items).Some? ==> |NormalizeItems(items).value| == |items|
    ensures NormalizeItems(items).Some? ==> forall i :: 0 <= i < |items| ==>
            NormalizeItem(items[i]) == Some(NormalizeItems(items).value[i])
  {
    if items != [] {
      NormalizeItemsPointwise(items[1..]);
      assert forall i :: 0 < i < |items| ==> items[i] == items[1..][i - 1];
    }
  }

  // ----- what becomes of a dictionary

  ghost predicate Strict(es: seq<Entry>) {
    forall i, j :: 0 <= i < j < |es| ==> Below(es[i].key, es[j].key)
  }

  function Keys(es: seq<Entry>): set<string> { set e <- es :: e.key }

  lemma StrictCons(e: Entry, es: seq<Entry>)
    requires Strict(es) && forall x <- es :: Below(e.key, x.key)
    ensures Strict([e] + es)
  {
  }

  lemma StrictHead(es: seq<Entry>)
    requires Strict(es) && es != []
    ensures Strict(es[1..]) && forall x <- es[1..] :: Below(es[0].key, x.key) && x in es
  {
  }

  lemma SecondKey(es: seq<Entry>)
    requires Strict(es) && |es| > 1
    ensures es[1] in es && Below(es[0].key, es[1].key)
  {
  }

  lemma LargestAlone(es: seq<Entry>, e: Entry)
    requires Strict(es) && es != [] && es[0].key == e.key && forall x <- es :: !Below(e.key, x.key)
    ensures es[1..] == []
  {
    if |es| > 1 {
      SecondKey(es);
      assert false;
    }
  }

  lemma {:induction false} AssignLargest(es: seq<Entry>, e: Entry)
    requires Strict(es) && forall x <- es :: !Below(e.key, x.key)
    ensures Strict(Assign(es, e))
    ensures forall x <- Assign(es, e) :: x == e || x in es
    decreases |es|
  {
    if es != [] {
      StrictHead(es);
      if es[0].key == e.key {
        LargestAlone(es, e);
      } else {
        hide Strict;
        AssignLargest(es[1..], e);
        BelowIsStrict(es[0].key, e.key);
        assert es[0] in es;
        StrictCons(es[0], Assign(es[1..], e));
      }
    }
  }

  lemma {:induction false} AssignedLast(es: seq<Entry>, e: Entry, k: string)
    requires Strict(es) && forall x <- es :: !Below(e.key, x.key)
    ensures Last(Assign(es, e), TextOf, k) == if e.key == k then [e] else Last(es, TextOf, k)
    decreases |es|
  {
    if es != [] {
      StrictHead(es);
      assert es == [es[0]] + es[1..];
      LastOfFront(es[0], es[1..], TextOf, k);
      if es[0].key == e.key {
        LargestAlone(es, e);
      } else {
        AssignedLast(es[1..], e, k);
        LastOfFront(es[0], Assign(es[1..], e), TextOf, k);
      }
    }
  }

  lemma {:induction false} ComprehendSorted(es: seq<Entry>, k: string)
    requires Sorted(es, TextOf, Below)
    ensures Strict(Comprehend(es))
    ensures forall x <- Comprehend(es) :: x in es
    ensures Last(Comprehend(es), TextOf, k) == Last(es, TextOf, k)
    decreases |es|
  {
    if es != [] {
      var n := |es| - 1;
      ComprehendSorted(es[..n], k);
      AssignLargest(Comprehend(es[..n]), es[n]);
      AssignedLast(Comprehend(es[..n]), es[n], k);
    }
  }

  /** The dictionary's normal form lists its keys in strict order, each with the value of the
      item that came last. */
  lemma DictFormIsTheMap(es: seq<Entry>, k: string)
    ensures Strict(DictForm(es))
    ensures Last(DictForm(es), TextOf, k) == Last(es, TextOf, k)
  {
    BelowIsLinear(Keys(es));
    SortIsSorted(es, TextOf, Below, Keys(es));
    SortIsStable(es, TextOf, Below, Keys(es), k);
    ComprehendSorted(Sort(es, TextOf, Below), k);
  }

  lemma {:induction false} LookupInStrict(es: seq<Entry>, i: nat)
    requires Strict(es) && i < |es|
    ensures Last(es, TextOf, es[i].key) == [es[i]]
    decreases |es|
  {
    hide Below, Last;
    var n := |es| - 1;
    LastFromEnd(es, TextOf, es[i].key);
    if i < n {
      BelowIsStrict(es[i].key, es[n].key);
      LookupInStrict(es[..n], i);
    }
  }

  ghost predicate SameMap(xs: seq<Entry>, ys: seq<Entry>) {
    forall k :: Last(xs, TextOf, k) == Last(ys, TextOf, k)
  }

  lemma StrictIsSorted(es: seq<Entry>)
    requires Strict(es)
    ensures Sorted(es, TextOf, Below) && Keyed(es, TextOf)
  {
    forall i, j | 0 <= i < j < |es| ensures !Below(es[j].key, es[i].key) {
      if Below(es[j].key, es[i].key) {
        BelowIsTransitive(es[i].key, es[j].key, es[i].key);
        BelowIsStrict(es[i].key, es[i].key);
      }
    }
    forall x <- es, y <- es | x.key == y.key ensures x == y {
      var i :| 0 <= i < |es| && es[i] == x;
      var j :| 0 <= j < |es| && es[j] == y;
      LookupInStrict(es, i);
      LookupInStrict(es, j);
    }
  }

  lemma StrictMapsAreSets(xs: seq<Entry>, ys: seq<Entry>, e: Entry)
    requires Strict(xs) && SameMap(xs, ys) && e in xs
    ensures e in ys
  {
    var i :| 0 <= i < |xs| && xs[i] == e;
    LookupInStrict(xs, i);
    assert Last(ys, TextOf, e.key) == [e];
    LastIsThere(ys, TextOf, e.key);
  }

  lemma {:induction false} StrictMultiplicity(es: seq<Entry>, e: Entry)
    requires Strict(es)
    ensures multiset(es)[e] == if e in es then 1 else 0
    decreases |es|
  {
    if es != [] {
      assert es == [es[0]] + es[1..];
      StrictMultiplicity(es[1..], e);
      if e == es[0] && e in es[1..] {
        var i :| 1 <= i < |es| && es[i] == e;
        BelowIsStrict(es[0].key, es[i].key);
      }
    }
  }

  /** A map has one strictly ordered listing. */
  lemma StrictIsUnique(xs: seq<Entry>, ys: seq<Entry>)
    requires Strict(xs) && Strict(ys) && SameMap(xs, ys)
    ensures xs == ys
  {
    forall e: Entry ensures multiset(xs)[e] == multiset(ys)[e] {
      StrictMultiplicity(xs, e);
      StrictMultiplicity(ys, e);
      if e in xs { StrictMapsAreSets(xs, ys, e); }
      if e in ys { StrictMapsAreSets(ys, xs, e); }
    }
    assert multiset(xs) == multiset(ys);
    StrictIsSorted(xs);
    StrictIsSorted(ys);
    BelowIsLinear(Keys(xs));
    SortedIsUnique(xs, ys, TextOf, Below, Keys(xs));
  }

  lemma SameMapSameForm(xs: seq<Entry>, ys: seq<Entry>)
    ensures SameMap(xs, ys) <==> DictForm(xs) == DictForm(ys)
  {
    forall k ensures && Last(DictForm(xs), TextOf, k) == Last(xs, TextOf, k)
                     && Last(DictForm(ys), TextOf, k) == Last(ys, TextOf, k)
                     && Strict(DictForm(xs)) && Strict(DictForm(ys)) {
      DictFormIsTheMap(xs, k);
      DictFormIsTheMap(ys, k);
    }
    DictFormIsTheMap(xs, "");
    DictFormIsTheMap(ys, "");
    if SameMap(xs, ys) {
      assert SameMap(DictForm(xs), DictForm(ys));
      StrictIsUnique(DictForm(xs), DictForm(ys));
    }
  }

  // ----- order does not matter

  function Upto(n: nat): (r: seq<int>)
    ensures |r| == n && forall i :: 0 <= i < n ==> r[i] == i
  {
    seq(n, i => i)
  }

  /** p lists the positions 0..n-1 in some order. */
  ghost predicate IsOrder(p: seq<int>, n: nat) {
    |p| == n && InRange(p, n) && multiset(p) == multiset(Upto(n))
  }

  predicate InRange(p: seq<int>, n: nat) {
    forall i :: 0 <= i < |p| ==> 0 <= p[i] < n
  }

  /** v and w differ only in the order of dictionary items and set elements, at any depth. */
  ghost predicate SameUpToOrder(v: Value, w: Value) {
    match (v, w)
    case (Dict(a), Dict(b)) =>
      |a| == |b| && exists p: seq<int> | IsOrder(p, |a|) ::
        forall i :: 0 <= i < |b| ==> a[p[i]].key == b[i].key && SameUpToOrder(a[p[i]].value, b[i].value)
    case (PySet(a), PySet(b)) =>
      |a| == |b| && exists p: seq<int> | IsOrder(p, |a|) :: forall i :: 0 <= i < |b| ==> SameUpToOrder(a[p[i]], b[i])
    case (List(a), List(b)) => |a| == |b| && forall i :: 0 <= i < |a| ==> SameUpToOrder(a[i], b[i])
    case (Tuple(a), Tuple(b)) => |a| == |b| && forall i :: 0 <= i < |a| ==> SameUpToOrder(a[i], b[i])
    case (Foreign(a, r), Foreign(b, q)) => r == q && a.Some? == b.Some? && (a.Some? ==> SameUpToOrder(a.value, b.value))
    case _ => v == w
  }

  ghost predicate ItemsAgree(items: seq<Item>) {
    NormalizeItems(items).Some? ==> Keyed(NormalizeItems(items).value, TextOf)
  }

  ghost predicate ElementsAgree(xs: seq<Value>) {
    NormalizeAll(xs).Some? && AllComparable(NormalizeAll(xs).value) ==> Keyed(NormalizeAll(xs).value, Rank)
  }

  /** Items of a dictionary whose keys coincide under `str` have the same normal value, and
      elements of a set that Python's order cannot tell apart have the same normal form. */
  ghost predicate Tame(v: Value) {
    match v
    case Dict(items) =>
      && ItemsAgree(items)
      && forall i :: 0 <= i < |items| ==> Tame(items[i].value)
    case List(xs) => forall i :: 0 <= i < |xs| ==> Tame(xs[i])
    case Tuple(xs) => forall i :: 0 <= i < |xs| ==> Tame(xs[i])
    case PySet(xs) =>
      && ElementsAgree(xs)
      && forall i :: 0 <= i < |xs| ==> Tame(xs[i])
    case Foreign(encoded, _) => encoded.Some? ==> Tame(encoded.value)
    case _ => true
  }

  lemma OrderCovers(p: seq<int>, n: nat, j: nat)
    requires IsOrder(p, n) && j < n
    ensures j in p
  {
    assert Upto(n)[j] in multiset(Upto(n));
    assert j in multiset(p);
  }

  function Pick<T>(xs: seq<T>, p: seq<int>): (r: seq<T>)
    requires InRange(p, |xs|)
    ensures |r| == |p| && forall i :: 0 <= i < |p| ==> r[i] == xs[p[i]]
  {
    seq(|p|, i requires 0 <= i < |p| => xs[p[i]])
  }

  lemma PickWithout<T>(xs: seq<T>, p: seq<int>, j: nat)
    requires j < |p| && InRange(p, |xs|)
    ensures InRange(p[..j] + p[j + 1..], |xs|)
    ensures multiset(Pick(xs, p)) == multiset(Pick(xs, p[..j] + p[j + 1..])) + multiset{xs[p[j]]}
  {
    var y := Pick(xs, p);
    Without(y, j);
    assert y[..j] + y[j + 1..] == Pick(xs, p[..j] + p[j + 1..]);
  }

  lemma SameWithout<T>(p: seq<T>, q: seq<T>, j: nat)
    requires p != [] && j < |q| && q[j] == p[0] && multiset(p) == multiset(q)
    ensures multiset(p[..0] + p[1..]) == multiset(q[..j] + q[j + 1..])
  {
    Without(p, 0);
    Without(q, j);
    Cancel(multiset(p[..0] + p[1..]), multiset(q[..j] + q[j + 1..]), p[0]);
  }

  lemma {:induction false} PickMultiset<T>(xs: seq<T>, p: seq<int>, q: seq<int>)
    requires multiset(p) == multiset(q) && InRange(p, |xs|) && InRange(q, |xs|)
    ensures multiset(Pick(xs, p)) == multiset(Pick(xs, q))
    decreases |p|
  {
    assert |p| == |multiset(p)| == |multiset(q)| == |q|;
    if p != [] {
      assert p[0] in multiset(q);
      var j :| 0 <= j < |q| && q[j] == p[0];
      var p', q' := p[..0] + p[1..], q[..j] + q[j + 1..];
      hide InRange, Pick;
      PickWithout(xs, p, 0);
      PickWithout(xs, q, j);
      SameWithout(p, q, j);
      PickMultiset(xs, p', q');
    }
  }

  lemma ReorderedMultiset<T>(xs: seq<T>, ys: seq<T>, p: seq<int>)
    requires IsOrder(p, |xs|) && |ys| == |xs| && forall i :: 0 <= i < |xs| ==> ys[i] == xs[p[i]]
    ensures multiset(xs) == multiset(ys)
  {
    PickMultiset(xs, p, Upto(|xs|));
    assert xs == Pick(xs, Upto(|xs|)) && ys == Pick(xs, p);
  }

  /** Sorting the elements of a set forgets the order they came in. */
  lemma SetFormIsUnique(xs: seq<Canon>, ys: seq<Canon>)
    requires multiset(xs) == multiset(ys) && (AllComparable(xs) ==> Keyed(xs, Rank))
    ensures SetForm(xs) == SetForm(ys)
  {
    assert |xs| == |multiset(xs)| == |multiset(ys)| == |ys|;
    assert forall x :: x in xs <==> x in multiset(ys);
    if AllComparable(xs) {
      RanksAreLinear(xs);
      SortIsSorted(xs, Rank, Less, Ranks(xs));
      SortIsSorted(ys, Rank, Less, Ranks(xs));
      var s := Sort(xs, Rank, Less);
      assert forall x <- s :: x in multiset(xs);
      SortedIsUnique(s, Sort(ys, Rank, Less), Rank, Less, Ranks(xs));
    }
  }

  lemma ReorderedMap(xs: seq<Entry>, ys: seq<Entry>)
    requires multiset(xs) == multiset(ys) && Keyed(xs, TextOf)
    ensures SameMap(xs, ys)
  {
    forall k ensures Last(xs, TextOf, k) == Last(ys, TextOf, k) {
      LastIsThere(xs, TextOf, k);
      LastIsThere(ys, TextOf, k);
      assert forall x :: x in multiset(xs) <==> x in ys;
      assert forall x :: x in multiset(xs) <==> x in xs;
    }
  }

  /** Values that differ only in the order of dictionary items and set elements have the same
      normal form. */
  lemma {:induction false} NormalFormIgnoresOrder(v: Value, w: Value)
    requires SameUpToOrder(v, w) && Tame(v)
    ensures Normalize(v) == Normalize(w)
    decreases v
  {
    match (v, w)
    case (Dict(a), Dict(b)) => DictIgnoresOrder(v, w);
    case (PySet(a), PySet(b)) => SetIgnoresOrder(v, w);
    case (List(a), List(b)) => ElementsIgnoreOrder(a, b);
    case (Tuple(a), Tuple(b)) => ElementsIgnoreOrder(a, b);
    case (Foreign(a, _), Foreign(b, _)) => if a.Some? { NormalFormIgnoresOrder(a.value, b.value); }
    case _ =>
  }

  lemma {:induction false} ElementsIgnoreOrder(a: seq<Value>, b: seq<Value>)
    requires |a| == |b| && forall i :: 0 <= i < |a| ==> SameUpToOrder(a[i], b[i]) && Tame(a[i])
    ensures NormalizeAll(a) == NormalizeAll(b)
    decreases a
  {
    if a != [] {
      NormalFormIgnoresOrder(a[0], b[0]);
      ElementsIgnoreOrder(a[1..], b[1..]);
    }
  }

  lemma {:induction false} DictIgnoresOrder(v: Value, w: Value)
    requires v.Dict? && w.Dict? && SameUpToOrder(v, w) && Tame(v)
    ensures Normalize(v) == Normalize(w)
    decreases v, 0
  {
    var a, b := v.items, w.items;
    var p :| IsOrder(p, |a|) && forall i :: 0 <= i < |b| ==>
        a[p[i]].key == b[i].key && SameUpToOrder(a[p[i]].value, b[i].value);
    forall i | 0 <= i < |b| ensures NormalizeItem(a[p[i]]) == NormalizeItem(b[i]) {
      NormalFormIgnoresOrder(a[p[i]].value, b[i].value);
    }
    ReorderedItems(a, b, p);
  }

  lemma ReorderedItems(a: seq<Item>, b: seq<Item>, p: seq<int>)
    requires IsOrder(p, |a|) && |a| == |b| && forall i :: 0 <= i < |b| ==> NormalizeItem(a[p[i]]) == NormalizeItem(b[i])
    requires ItemsAgree(a)
    ensures Normalize(Dict(a)) == Normalize(Dict(b))
  {
    hide NormalizeItems, IsOrder, DictForm, Last;
    NormalizeItemsPointwise(a);
    NormalizeItemsPointwise(b);
    OrderInRange(p, |a|);
    if NormalizeItems(b).Some? {
      forall j | 0 <= j < |a| ensures NormalizeItem(a[j]).Some? {
        OrderCovers(p, |a|, j);
        var i :| 0 <= i < |p| && p[i] == j;
        assert NormalizeItem(a[p[i]]) == NormalizeItem(b[i]);
      }
    }
    if NormalizeItems(a).Some? {
      var x, y := NormalizeItems(a).value, NormalizeItems(b).value;
      ReorderedMultiset(x, y, p);
      ReorderedMap(x, y);
      SameMapSameForm(x, y);
    }
  }

  lemma OrderInRange(p: seq<int>, n: nat)
    requires IsOrder(p, n)
    ensures |p| == n && forall i :: 0 <= i < n ==> 0 <= p[i] < n
  {
  }

  lemma {:induction false} SetIgnoresOrder(v: Value, w: Value)
    requires v.PySet? && w.PySet? && SameUpToOrder(v, w) && Tame(v)
    ensures Normalize(v) == Normalize(w)
    decreases v, 0
  {
    var a, b := v.elements, w.elements;
    var p :| IsOrder(p, |a|) && forall i :: 0 <= i < |b| ==> SameUpToOrder(a[p[i]], b[i]);
    forall i | 0 <= i < |b| ensures Normalize(a[p[i]]) == Normalize(b[i]) {
      NormalFormIgnoresOrder(a[p[i]], b[i]);
    }
    ReorderedElements(a, b, p);
  }

  lemma ReorderedNormals(a: seq<Value>, b: seq<Value>, p: seq<int>)
    requires IsOrder(p, |a|) && |a| == |b| && forall i :: 0 <= i < |b| ==> Normalize(a[p[i]]) == Normalize(b[i])
    ensures NormalizeAll(a).Some? == NormalizeAll(b).Some?
    ensures NormalizeAll(a).Some? ==> multiset(NormalizeAll(a).value) == multiset(NormalizeAll(b).value)
  {
    hide NormalizeAll, Normalize, IsOrder;
    NormalizeAllPointwise(a);
    NormalizeAllPointwise(b);
    OrderInRange(p, |a|);
    if NormalizeAll(b).Some? {
      forall j | 0 <= j < |a| ensures Normalize(a[j]).Some? {
        OrderCovers(p, |a|, j);
        var i :| 0 <= i < |p| && p[i] == j;
        assert Normalize(a[p[i]]) == Normalize(b[i]);
      }
    }
    if NormalizeAll(a).Some? {
      ReorderedMultiset(NormalizeAll(a).value, NormalizeAll(b).value, p);
    }
  }

  lemma NormalOfSet(xs: seq<Value>)
    ensures Normalize(PySet(xs)) == if NormalizeAll(xs).None? then None else SetForm(NormalizeAll(xs).value)
  {
  }

  lemma ReorderedElements(a: seq<Value>, b: seq<Value>, p: seq<int>)
    requires IsOrder(p, |a|) && |a| == |b| && forall i :: 0 <= i < |b| ==> Normalize(a[p[i]]) == Normalize(b[i])
    requires ElementsAgree(a)
    ensures Normalize(PySet(a)) == Normalize(PySet(b))
  {
    hide Normalize, NormalizeAll, SetForm, Keyed, IsOrder;
    ReorderedNormals(a, b, p);
    NormalOfSet(a);
    NormalOfSet(b);
    if NormalizeAll(a).Some? {
      SetFormIsUnique(NormalizeAll(a).value, NormalizeAll(b).value);
    }
  }

  // ----- where order does matter

  function MoveToEnd(n: nat, i: nat): seq<int>
    requires i < n
  {
    Upto(n)[..i] + Upto(n)[i + 1..] + [i]
  }

  lemma MoveToEndIsOrder(n: nat, i: nat)
    requires i < n
    ensures IsOrder(MoveToEnd(n, i), n)
  {
    Without(Upto(n), i);
  }

  lemma LastAfterMove<T, K>(xs: seq<T>, i: nat, key: T -> K)
    requires i < |xs|
    ensures IsOrder(MoveToEnd(|xs|, i), |xs|)
    ensures Last(Pick(xs, MoveToEnd(|xs|, i)), key, key(xs[i])) == [xs[i]]
  {
    MoveToEndIsOrder(|xs|, i);
    var ys := Pick(xs, MoveToEnd(|xs|, i));
    assert ys[|xs| - 1] == xs[i];
  }

  /** Two different elements with one key: some element is not the last with its key. */
  lemma NotLast<T, K>(xs: seq<T>, key: T -> K) returns (i: nat)
    requires !Keyed(xs, key)
    ensures i < |xs| && Last(xs, key, key(xs[i])) != [xs[i]]
  {
    var x, y :| x in xs && y in xs && key(x) == key(y) && x != y;
    var z := if Last(xs, key, key(x)) == [x] then y else x;
    assert [x][0] != [y][0] && key(z) == key(x);
    i :| 0 <= i < |xs| && xs[i] == z;
  }

  lemma PickedItems(items: seq<Item>, p: seq<int>)
    requires InRange(p, |items|) && NormalizeItems(items).Some?
    ensures |NormalizeItems(items).value| == |items|
    ensures NormalizeItems(Pick(items, p)) == Some(Pick(NormalizeItems(items).value, p))
  {
    hide NormalizeItems, NormalizeItem;
    NormalizeItemsPointwise(items);
    NormalizeItemsPointwise(Pick(items, p));
    assert forall i :: 0 <= i < |p| ==> NormalizeItem(items[p[i]]) == Some(NormalizeItems(items).value[p[i]]);
    assert NormalizeItems(Pick(items, p)).value == Pick(NormalizeItems(items).value, p);
  }

  lemma PickedElements(xs: seq<Value>, p: seq<int>)
    requires InRange(p, |xs|) && NormalizeAll(xs).Some?
    ensures |NormalizeAll(xs).value| == |xs|
    ensures NormalizeAll(Pick(xs, p)) == Some(Pick(NormalizeAll(xs).value, p))
  {
    hide NormalizeAll, Normalize;
    NormalizeAllPointwise(xs);
    NormalizeAllPointwise(Pick(xs, p));
    assert forall i :: 0 <= i < |p| ==> Normalize(xs[p[i]]) == Some(NormalizeAll(xs).value[p[i]]);
    assert NormalizeAll(Pick(xs, p)).value == Pick(NormalizeAll(xs).value, p);
  }

  lemma NormalOfDict(items: seq<Item>)
    ensures Normalize(Dict(items)) == if NormalizeItems(items).None? then None
            else Some(CDict(DictForm(NormalizeItems(items).value)))
  {
  }

  lemma CollisionShows(items: seq<Item>) returns (p: seq<int>)
    requires !ItemsAgree(items)
    ensures IsOrder(p, |items|) && Normalize(Dict(Pick(items, p))) != Normalize(Dict(items))
  {
    hide Normalize, NormalizeItems, DictForm, Last, Keyed;
    var es := NormalizeItems(items).value;
    var i := NotLast(es, TextOf);
    PickedItems(items, Upto(|items|));
    LastAfterMove(es, i, TextOf);
    p := MoveToEnd(|es|, i);
    PickedItems(items, p);
    NormalOfDict(items);
    NormalOfDict(Pick(items, p));
    SameMapSameForm(Pick(es, p), es);
  }

  /** The normal form of a dictionary does not depend on its insertion order exactly when any
      two items whose keys coincide under `str` have the same normal value. */
  lemma DictOrderMattersExactlyWhen(items: seq<Item>)
    ensures (forall p | IsOrder(p, |items|) :: Normalize(Dict(Pick(items, p))) == Normalize(Dict(items)))
            <==> ItemsAgree(items)
  {
    hide Normalize, ItemsAgree;
    if ItemsAgree(items) {
      forall p | IsOrder(p, |items|) ensures Normalize(Dict(Pick(items, p))) == Normalize(Dict(items)) {
        ReorderedItems(items, Pick(items, p), p);
      }
    } else {
      var p := CollisionShows(items);
    }
  }

  lemma TieShows(xs: seq<Value>) returns (p: seq<int>)
    requires !ElementsAgree(xs)
    ensures IsOrder(p, |xs|) && Normalize(PySet(Pick(xs, p))) != Normalize(PySet(xs))
  {
    hide Normalize, NormalizeAll, Last, Keyed, AllComparable, Rank, Sort;
    var cs := NormalizeAll(xs).value;
    var i := NotLast(cs, Rank);
    PickedElements(xs, Upto(|xs|));
    LastAfterMove(cs, i, Rank);
    p := MoveToEnd(|cs|, i);
    PickedElements(xs, p);
    NormalOfSet(xs);
    NormalOfSet(Pick(xs, p));
    ReorderedMultiset(cs, Pick(cs, p), p);
    SortedKeepsLast(cs, cs, Rank(cs[i]));
    SortedKeepsLast(cs, Pick(cs, p), Rank(cs[i]));
  }

  lemma SortedKeepsLast(cs: seq<Canon>, ds: seq<Canon>, k: Canon)
    requires AllComparable(cs) && multiset(ds) == multiset(cs)
    ensures AllComparable(ds) && Last(Sort(ds, Rank, Less), Rank, k) == Last(ds, Rank, k)
  {
    assert |ds| == |multiset(cs)| == |cs|;
    assert forall x :: x in ds <==> x in multiset(cs);
    RanksAreLinear(cs);
    SortIsStable(ds, Rank, Less, Ranks(cs), k);
  }

  /** The normal form of a set does not depend on its iteration order exactly when any two
      elements that Python's order cannot tell apart have the same normal form. */
  lemma SetOrderMattersExactlyWhen(xs: seq<Value>)
    ensures (forall p | IsOrder(p, |xs|) :: Normalize(PySet(Pick(xs, p))) == Normalize(PySet(xs)))
            <==> ElementsAgree(xs)
  {
    hide Normalize, ElementsAgree;
    if ElementsAgree(xs) {
      forall p | IsOrder(p, |xs|) ensures Normalize(PySet(Pick(xs, p))) == Normalize(PySet(xs)) {
        ReorderedElements(xs, Pick(xs, p), p);
      }
    } else {
      var p := TieShows(xs);
    }
  }

  /** What stands in for another object, at any depth, can be normalised. */
  ghost predicate Encodes(v: Value) {
    match v
    case Dict(items) => forall i :: 0 <= i < |items| ==> Encodes(items[i].value)
    case List(xs) => forall i :: 0 <= i < |xs| ==> Encodes(xs[i])
    case Tuple(xs) => forall i :: 0 <= i < |xs| ==> Encodes(xs[i])
    case PySet(xs) => forall i :: 0 <= i < |xs| ==> Encodes(xs[i])
    case Foreign(encoded, _) => encoded.Some? ==> Normalize(encoded.value).Some? && Encodes(encoded.value)
    case _ => true
  }

  lemma {:induction false} SameAsItself(v: Value)
    ensures SameUpToOrder(v, v)
  {
    match v
    case Dict(items) =>
      forall i | 0 <= i < |items| ensures SameUpToOrder(items[i].value, items[i].value) {
        SameAsItself(items[i].value);
      }
      assert IsOrder(Upto(|items|), |items|);
    case PySet(xs) =>
      forall i | 0 <= i < |xs| ensures SameUpToOrder(xs[i], xs[i]) { SameAsItself(xs[i]); }
      assert IsOrder(Upto(|xs|), |xs|);
    case List(xs) => forall i | 0 <= i < |xs| ensures SameUpToOrder(xs[i], xs[i]) { SameAsItself(xs[i]); }
    case Tuple(xs) => forall i | 0 <= i < |xs| ensures SameUpToOrder(xs[i], xs[i]) { SameAsItself(xs[i]); }
    case Foreign(encoded, _) => if encoded.Some? { SameAsItself(encoded.value); }
    case _ =>
  }

  lemma SameItems(a: seq<Item>, b: seq<Item>, p: seq<int>)
    requires IsOrder(p, |a|) && |a| == |b|
    requires forall i :: 0 <= i < |b| ==> a[p[i]].key == b[i].key && SameUpToOrder(a[p[i]].value, b[i].value)
    ensures SameUpToOrder(Dict(a), Dict(b))
  {
  }

  lemma SameElements(a: seq<Value>, b: seq<Value>, p: seq<int>)
    requires IsOrder(p, |a|) && |a| == |b| && forall i :: 0 <= i < |b| ==> SameUpToOrder(a[p[i]], b[i])
    ensures SameUpToOrder(PySet(a), PySet(b))
  {
  }

  /** The items of a dictionary in another order, one of them changed inside. */
  lemma PickedItemsAreSame(items: seq<Item>, i: nat, x: Value, p: seq<int>)
    requires i < |items| && SameUpToOrder(items[i].value, x) && IsOrder(p, |items|)
    ensures SameUpToOrder(Dict(items), Dict(Pick(items[i := Item(items[i].key, x)], p)))
  {
    hide SameUpToOrder;
    var changed := items[i := Item(items[i].key, x)];
    var b := Pick(changed, p);
    forall j | 0 <= j < |b| ensures items[p[j]].key == b[j].key && SameUpToOrder(items[p[j]].value, b[j].value) {
      assert b[j] == changed[p[j]];
      SameAsItself(items[p[j]].value);
    }
    SameItems(items, b, p);
  }

  lemma ReorderedElementsAreSame(xs: seq<Value>, p: seq<int>)
    requires IsOrder(p, |xs|)
    ensures SameUpToOrder(PySet(xs), PySet(Pick(xs, p)))
  {
    hide SameUpToOrder;
    var b := Pick(xs, p);
    forall j | 0 <= j < |b| ensures SameUpToOrder(xs[p[j]], b[j]) { SameAsItself(xs[p[j]]); }
    SameElements(xs, b, p);
  }

  lemma SameListOrTuple(a: seq<Value>, b: seq<Value>)
    requires |a| == |b| && forall i :: 0 <= i < |a| ==> SameUpToOrder(a[i], b[i])
    ensures SameUpToOrder(List(a), List(b)) && SameUpToOrder(Tuple(a), Tuple(b))
  {
  }

  lemma ChangedElementsAreSame(xs: seq<Value>, i: nat, x: Value)
    requires i < |xs| && SameUpToOrder(xs[i], x)
    ensures SameUpToOrder(PySet(xs), PySet(xs[i := x]))
    ensures SameUpToOrder(List(xs), List(xs[i := x]))
    ensures SameUpToOrder(Tuple(xs), Tuple(xs[i := x]))
  {
    hide SameUpToOrder;
    var ys := xs[i := x];
    forall j | 0 <= j < |xs| ensures SameUpToOrder(xs[j], ys[j]) {
      SameAsItself(xs[j]);
    }
    SameElements(xs, ys, Upto(|xs|));
    SameListOrTuple(xs, ys);
  }

  /** A changed item shows once it is moved to the end. */
  lemma ChangedItemShows(items: seq<Item>, i: nat, x: Value)
    requires i < |items| && NormalizeItems(items).Some? && ItemsAgree(items)
    requires Normalize(x) != Normalize(items[i].value)
    ensures IsOrder(MoveToEnd(|items|, i), |items|)
    ensures Normalize(Dict(Pick(items[i := Item(items[i].key, x)], MoveToEnd(|items|, i)))) != Normalize(Dict(items))
  {
    hide Normalize, NormalizeItems, DictForm, OfKey;
    var n, p, b := |items|, MoveToEnd(|items|, i), items[i := Item(items[i].key, x)];
    MoveToEndIsOrder(n, i);
    NormalizeItemsPointwise(items);
    NormalizeItemsPointwise(b);
    NormalizeItemsPointwise(Pick(b, p));
    NormalOfDict(items);
    NormalOfDict(Pick(b, p));
    assert Pick(b, p)[n - 1] == b[i];
    if Normalize(x).Some? {
      var es, ds := NormalizeItems(items).value, NormalizeItems(b).value;
      var k := es[i].key;
      assert NormalizeItem(items[i]) == Some(es[i]) && NormalizeItem(b[i]) == Some(ds[i]);
      PickedItems(b, p);
      LastAfterMove(ds, i, TextOf);
      LastIsThere(es, TextOf, k);
      assert es[i] in es && ds[i] != es[i];
      assert Last(es, TextOf, k)[0] == es[i];
      SameMapSameForm(Pick(ds, p), es);
    }
  }

  lemma ChangedElementShows(xs: seq<Value>, i: nat, x: Value)
    requires i < |xs| && NormalizeAll(xs).Some? && Normalize(x) != Normalize(xs[i])
    ensures NormalizeAll(xs[i := x]) != NormalizeAll(xs)
    ensures Normalize(PySet(xs)).Some? ==> Normalize(PySet(xs[i := x])) != Normalize(PySet(xs))
  {
    hide Normalize, NormalizeAll, AllComparable, Sort, Rank, Less;
    var ys := xs[i := x];
    NormalizeAllPointwise(xs);
    NormalizeAllPointwise(ys);
    assert ys[i] == x;
    NormalOfSet(xs);
    NormalOfSet(ys);
    if NormalizeAll(ys).Some? {
      var cs, ds := NormalizeAll(xs).value, NormalizeAll(ys).value;
      assert ds == cs[i := ds[i]];
      assert multiset(ds)[cs[i]] < multiset(cs)[cs[i]];
      if AllComparable(cs) && AllComparable(ds) {
        RanksAreLinear(cs);
        RanksAreLinear(ds);
        SortIsSorted(cs, Rank, Less, Ranks(cs));
        SortIsSorted(ds, Rank, Less, Ranks(ds));
      }
    }
  }

  /** A reordering that shows, where something inside is not tame. */
  lemma {:induction false} UntameShows(v: Value) returns (w: Value)
    requires Normalize(v).Some? && Encodes(v) && !Tame(v)
    ensures SameUpToOrder(v, w) && Normalize(w) != Normalize(v) && !Normalize(v).value.CStr?
    decreases v
  {
    match v
    case Dict(items) =>
      var b := UntameItem(v, items);
      w := Dict(b);
    case PySet(xs) =>
      if !ElementsAgree(xs) {
        var p := TieShows(xs);
        ReorderedElementsAreSame(xs, p);
        w := PySet(Pick(xs, p));
      } else {
        var ys := UntameElement(v, xs);
        w := PySet(ys);
      }
    case List(xs) =>
      var ys := UntameElement(v, xs);
      w := List(ys);
    case Tuple(xs) =>
      var ys := UntameElement(v, xs);
      w := Tuple(ys);
    case Foreign(encoded, repr) =>
      var x := UntameShows(encoded.value);
      w := Foreign(Some(x), repr);
  }

  lemma {:induction false} UntameItem(v: Value, items: seq<Item>) returns (b: seq<Item>)
    requires v == Dict(items) && Normalize(v).Some? && Encodes(v) && !Tame(v)
    ensures SameUpToOrder(v, Dict(b)) && Normalize(Dict(b)) != Normalize(v)
    decreases v, 0
  {
    if !ItemsAgree(items) {
      hide Normalize, SameUpToOrder;
      var p := CollisionShows(items);
      b := Pick(items, p);
      forall j | 0 <= j < |b| ensures SameUpToOrder(items[p[j]].value, b[j].value) { SameAsItself(items[p[j]].value); }
      SameItems(items, b, p);
    } else {
      var i :| 0 <= i < |items| && !Tame(items[i].value);
      NormalOfDict(items);
      NormalizeItemsPointwise(items);
      hide SameUpToOrder, NormalizeItems, ItemsAgree;
      assert NormalizeItem(items[i]).Some?;
      var x := UntameShows(items[i].value);
      ChangedItemShows(items, i, x);
      PickedItemsAreSame(items, i, x, MoveToEnd(|items|, i));
      b := Pick(items[i := Item(items[i].key, x)], MoveToEnd(|items|, i));
    }
  }

  lemma {:induction false} UntameElement(v: Value, xs: seq<Value>) returns (ys: seq<Value>)
    requires (v.PySet? || v.List? || v.Tuple?) && v.elements == xs
    requires NormalizeAll(xs).Some? && Encodes(v) && exists i :: 0 <= i < |xs| && !Tame(xs[i])
    ensures SameUpToOrder(PySet(xs), PySet(ys))
    ensures SameUpToOrder(List(xs), List(ys)) && SameUpToOrder(Tuple(xs), Tuple(ys))
    ensures NormalizeAll(ys) != NormalizeAll(xs)
    ensures Normalize(PySet(xs)).Some? ==> Normalize(PySet(ys)) != Normalize(PySet(xs))
    decreases v, 0
  {
    NormalizeAllPointwise(xs);
    var i :| 0 <= i < |xs| && !Tame(xs[i]);
    hide SameUpToOrder, NormalizeAll, Tame;
    var x := UntameShows(xs[i]);
    ChangedElementsAreSame(xs, i, x);
    ChangedElementShows(xs, i, x);
    ys := xs[i := x];
  }

  /** The normal form of a value, dictionaries and sets nested in any way, is the same for all
      their orders exactly when at every depth colliding keys and tied elements agree. */
  lemma OrderMattersExactlyWhen(v: Value)
    requires Normalize(v).Some? && Encodes(v)
    ensures (forall w | SameUpToOrder(v, w) :: Normalize(w) == Normalize(v)) <==> Tame(v)
  {
    hide Normalize, Encodes, Tame, SameUpToOrder;
    if Tame(v) {
      forall w | SameUpToOrder(v, w) ensures Normalize(w) == Normalize(v) {
        NormalFormIgnoresOrder(v, w);
      }
    } else {
      var w := UntameShows(v);
    }
  }

  // ----- normal forms are fixed points

  /** The Python value a normal form is: dictionaries, lists and scalars. */
  function Embed(c: Canon): Value {
    match c
    case CNull => Null
    case CBool(b) => Bool(b)
    case CInt(n) => Int(n)
    case CStr(s) => Str(s)
    case CList(cs) => List(seq(|cs|, i requires 0 <= i < |cs| => Embed(cs[i])))
    case CDict(es) => Dict(seq(|es|, i requires 0 <= i < |es| => Item(TextKey(es[i].key), Embed(es[i].value))))
  }

  /** Every dictionary inside lists its keys in strict order. */
  ghost predicate Normal(c: Canon) {
    match c
    case CList(cs) => forall i :: 0 <= i < |cs| ==> Normal(cs[i])
    case CDict(es) => Strict(es) && forall i :: 0 <= i < |es| ==> Normal(es[i].value)
    case _ => true
  }

  lemma {:induction false} ComprehendStrict(es: seq<Entry>)
    requires Strict(es)
    ensures Comprehend(es) == es
    decreases |es|
  {
    if es != [] {
      var n := |es| - 1;
      ComprehendStrict(es[..n]);
      AssignNew(es[..n], es[n]);
      assert es == es[..n] + [es[n]];
    }
  }

  lemma {:induction false} AssignNew(es: seq<Entry>, e: Entry)
    requires forall x <- es :: Below(x.key, e.key)
    ensures Assign(es, e) == es + [e]
    decreases |es|
  {
    hide Below;
    if es != [] {
      BelowIsStrict(es[0].key, e.key);
      AssignNew(es[1..], e);
    }
  }

  lemma {:induction false} NormalizeFixes(c: Canon)
    requires Normal(c)
    ensures Normalize(Embed(c)) == Some(c)
  {
    match c
    case CList(cs) =>
      hide NormalizeAll;
      var xs := Embed(c).elements;
      forall i | 0 <= i < |cs| ensures Normalize(xs[i]) == Some(cs[i]) { NormalizeFixes(cs[i]); }
      NormalizeAllPointwise(xs);
      assert NormalizeAll(xs).value == cs;
    case CDict(es) =>
      hide NormalizeItems;
      var items := Embed(c).items;
      forall i | 0 <= i < |es| ensures NormalizeItem(items[i]) == Some(es[i]) { NormalizeFixes(es[i].value); }
      NormalizeItemsPointwise(items);
      assert NormalizeItems(items).value == es;
      hide Normalize, Embed;
      StrictIsSorted(es);
      SortOfSorted(es, TextOf, Below);
      ComprehendStrict(es);
    case _ =>
  }

  lemma SetFormIsNormal(cs: seq<Canon>)
    requires SetForm(cs).Some? && forall c <- cs :: Normal(c)
    ensures Normal(SetForm(cs).value)
  {
    hide AllComparable, Less, Rank;
    RanksAreLinear(cs);
    SortIsSorted(cs, Rank, Less, Ranks(cs));
    var s := Sort(cs, Rank, Less);
    forall i | 0 <= i < |s| ensures Normal(s[i]) { assert s[i] in multiset(cs); }
  }

  lemma {:induction false} ResultIsNormal(v: Value)
    requires Normalize(v).Some?
    ensures Normal(Normalize(v).value)
  {
    match v
    case Dict(items) => DictResultIsNormal(items);
    case List(xs) => ElementsAreNormal(xs);
    case Tuple(xs) => ElementsAreNormal(xs);
    case PySet(xs) =>
      ElementsAreNormal(xs);
      SetFormIsNormal(NormalizeAll(xs).value);
    case Upload(_, _) => BelowIsStrict("content_type", "filename");
    case Foreign(encoded, _) => if encoded.Some? && Normalize(encoded.value).Some? { ResultIsNormal(encoded.value); }
    case _ =>
  }

  lemma {:induction false} ElementsAreNormal(xs: seq<Value>)
    requires NormalizeAll(xs).Some?
    ensures forall c <- NormalizeAll(xs).value :: Normal(c)
  {
    if xs != [] {
      ResultIsNormal(xs[0]);
      ElementsAreNormal(xs[1..]);
    }
  }

  lemma {:induction false} DictResultIsNormal(items: seq<Item>)
    requires NormalizeItems(items).Some?
    ensures Normal(CDict(DictForm(NormalizeItems(items).value)))
    decreases items, 1
  {
    var es := NormalizeItems(items).value;
    EntriesAreNormal(items);
    DictFormIsTheMap(es, "");
    BelowIsLinear(Keys(es));
    SortIsSorted(es, TextOf, Below, Keys(es));
    ComprehendSorted(Sort(es, TextOf, Below), "");
    var d := DictForm(es);
    forall i | 0 <= i < |d| ensures Normal(d[i].value) {
      assert d[i] in d;
      assert d[i] in multiset(es);
    }
  }

  lemma {:induction false} EntriesAreNormal(items: seq<Item>)
    requires NormalizeItems(items).Some?
    ensures forall e <- NormalizeItems(items).value :: Normal(e.value)
    decreases items, 0
  {
    if items != [] {
      EntryIsNormal(items[0]);
      EntriesAreNormal(items[1..]);
    }
  }

  lemma {:induction false} EntryIsNormal(item: Item)
    requires NormalizeItem(item).Some?
    ensures Normal(NormalizeItem(item).value.value)
  {
    ResultIsNormal(item.value);
  }

  /** Normalising a normal form changes nothing. */
  lemma NormalizeIsIdempotent(v: Value)
    requires Normalize(v).Some?
    ensures Normalize(Embed(Normalize(v).value)) == Normalize(v)
  {
    hide Normalize, Normal;
    ResultIsNormal(v);
    NormalizeFixes(Normalize(v).value);
  }
}
