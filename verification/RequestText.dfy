/** The two strings app/services/idempotency_service.py builds from a request: the canonical
    JSON text that is hashed, and the key under which the record is stored. */
module RequestText {
  import opened Prelude
  import opened Strings
  import opened StableSort
  import opened Canonical

  // ----- JSON

  /** The lexical elements of JSON text; separators carry no information. */
  datatype Token =
    | NullToken | BoolToken(b: bool) | NumToken(n: int) | TextToken(s: string)
    | OpenList | CloseList | OpenDict | CloseDict

  /** json.dumps with sort_keys on a normal form. */
  function Tokens(c: Canon): seq<Token> {
    match c
    case CNull => [NullToken]
    case CBool(b) => [BoolToken(b)]
    case CInt(n) => [NumToken(n)]
    case CStr(s) => [TextToken(s)]
    case CList(cs) => [OpenList] + ElementTokens(cs) + [CloseList]
    case CDict(es) => [OpenDict] + EntryTokens(es) + [CloseDict]
  }

  function ElementTokens(cs: seq<Canon>): seq<Token> {
    if cs == [] then [] else Tokens(cs[0]) + ElementTokens(cs[1..])
  }

  function TokensOfEntry(e: Entry): seq<Token> {
    [TextToken(e.key)] + Tokens(e.value)
  }

  function EntryTokens(es: seq<Entry>): seq<Token> {
    if es == [] then [] else TokensOfEntry(es[0]) + EntryTokens(es[1..])
  }

  /** No text is the beginning of another's, and different values have different texts. */
  lemma {:induction false} Unambiguous(a: Canon, b: Canon, x: seq<Token>, y: seq<Token>)
    requires Tokens(a) + x == Tokens(b) + y
    ensures a == b && x == y
    decreases a
  {
    assert (Tokens(a) + x)[0] == (Tokens(b) + y)[0];
    match a
    case CList(cs) =>
      assert (Tokens(a) + x)[1..] == ElementTokens(cs) + ([CloseList] + x);
      assert (Tokens(b) + y)[1..] == ElementTokens(b.elements) + ([CloseList] + y);
      ElementsUnambiguous(cs, b.elements, x, y);
    case CDict(es) =>
      assert (Tokens(a) + x)[1..] == EntryTokens(es) + ([CloseDict] + x);
      assert (Tokens(b) + y)[1..] == EntryTokens(b.entries) + ([CloseDict] + y);
      EntriesUnambiguous(es, b.entries, x, y);
    case _ =>
      assert x == (Tokens(a) + x)[1..] && y == (Tokens(b) + y)[1..];
  }

  lemma FirstToken(c: Canon)
    ensures Tokens(c) != [] && !Tokens(c)[0].CloseList? && !Tokens(c)[0].CloseDict?
  {
  }

  lemma {:induction false} ElementsUnambiguous(cs: seq<Canon>, ds: seq<Canon>, x: seq<Token>, y: seq<Token>)
    requires ElementTokens(cs) + ([CloseList] + x) == ElementTokens(ds) + ([CloseList] + y)
    ensures cs == ds && x == y
    decreases cs
  {
    hide Tokens;
    if cs != [] { FirstToken(cs[0]); }
    if ds != [] { FirstToken(ds[0]); }
    var l, r := ElementTokens(cs) + ([CloseList] + x), ElementTokens(ds) + ([CloseList] + y);
    assert l[0] == r[0];
    if cs != [] && ds != [] {
      var x', y' := ElementTokens(cs[1..]) + ([CloseList] + x), ElementTokens(ds[1..]) + ([CloseList] + y);
      assert l == Tokens(cs[0]) + x' && r == Tokens(ds[0]) + y';
      Unambiguous(cs[0], ds[0], x', y');
      ElementsUnambiguous(cs[1..], ds[1..], x, y);
      assert cs == [cs[0]] + cs[1..] && ds == [ds[0]] + ds[1..];
    } else if cs == [] && ds == [] {
      assert x == l[1..] && y == r[1..];
    }
  }

  lemma {:induction false} EntriesUnambiguous(es: seq<Entry>, ds: seq<Entry>, x: seq<Token>, y: seq<Token>)
    requires EntryTokens(es) + ([CloseDict] + x) == EntryTokens(ds) + ([CloseDict] + y)
    ensures es == ds && x == y
    decreases es
  {
    var l, r := EntryTokens(es) + ([CloseDict] + x), EntryTokens(ds) + ([CloseDict] + y);
    assert l[0] == r[0];
    if es != [] && ds != [] {
      var x', y' := EntryTokens(es[1..]) + ([CloseDict] + x), EntryTokens(ds[1..]) + ([CloseDict] + y);
      assert l == TokensOfEntry(es[0]) + x' && r == TokensOfEntry(ds[0]) + y';
      EntryUnambiguous(es[0], ds[0], x', y');
      EntriesUnambiguous(es[1..], ds[1..], x, y);
      assert es == [es[0]] + es[1..] && ds == [ds[0]] + ds[1..];
    } else if es == [] && ds == [] {
      assert x == l[1..] && y == r[1..];
    }
  }

  lemma {:induction false} EntryUnambiguous(e: Entry, d: Entry, x: seq<Token>, y: seq<Token>)
    requires TokensOfEntry(e) + x == TokensOfEntry(d) + y
    ensures e == d && x == y
    decreases e
  {
    var l, r := TokensOfEntry(e) + x, TokensOfEntry(d) + y;
    assert l[0] == r[0];
    assert l[1..] == Tokens(e.value) + x && r[1..] == Tokens(d.value) + y;
    Unambiguous(e.value, d.value, x, y);
  }

  // ----- the request

  const IGNORED := {"idempotency_key", "currentUser", "current_user", "db", "dbs", "_"}

  /** The bound arguments that are hashed. */
  function Kept(arguments: seq<Item>): seq<Item>
    decreases |arguments|
  {
    if arguments == [] then []
    else (if Text(arguments[0].key) in IGNORED then [] else [arguments[0]]) + Kept(arguments[1..])
  }

  /** The text whose hash identifies the request; None where normalisation raises. */
  function CanonicalText(arguments: seq<Item>): Option<seq<Token>> {
    var payload := Normalize(Dict(Kept(arguments)));
    if payload.None? then None else Some(Tokens(payload.value))
  }

  /** Two requests have the same text exactly when their hashed arguments have the same normal
      form. */
  lemma TextIdentifiesRequest(a: seq<Item>, b: seq<Item>)
    ensures CanonicalText(a) == CanonicalText(b) <==> Normalize(Dict(Kept(a))) == Normalize(Dict(Kept(b)))
  {
    hide Normalize, Tokens, Kept;
    var x, y := Normalize(Dict(Kept(a))), Normalize(Dict(Kept(b)));
    if x.Some? && y.Some? && CanonicalText(a) == CanonicalText(b) {
      Unambiguous(x.value, y.value, [], []);
    }
  }

  /** The argument is the client's: not the key itself, the user, a session or a placeholder. */
  predicate Client(argument: Item) {
    var name := Text(argument.key);
    && name != "idempotency_key" && name != "currentUser" && name != "current_user"
    && name != "db" && name != "dbs" && name != "_"
  }

  lemma {:induction false} KeptAreTheClients(arguments: seq<Item>, x: Item)
    ensures x in Kept(arguments) <==> x in arguments && Client(x)
    decreases |arguments|
  {
    if arguments != [] {
      assert arguments == [arguments[0]] + arguments[1..];
      KeptAreTheClients(arguments[1..], x);
    }
  }

  ghost predicate NamesDistinct(arguments: seq<Item>) {
    forall x <- arguments, y <- arguments :: Text(x.key) == Text(y.key) ==> x == y
  }

  ghost predicate ClientsNormalize(arguments: seq<Item>) {
    forall x <- arguments :: Client(x) ==> Normalize(x.value).Some?
  }

  /** Everything b's client sends under a name, a's client sends with the same normal form. */
  ghost predicate Covers(a: seq<Item>, b: seq<Item>) {
    forall y <- b :: Client(y) ==>
      exists x <- a :: Text(x.key) == Text(y.key) && Normalize(x.value) == Normalize(y.value)
  }

  lemma EntriesOfItems(items: seq<Item>, e: Entry)
    requires NormalizeItems(items).Some?
    ensures e in NormalizeItems(items).value <==> exists x <- items :: NormalizeItem(x) == Some(e)
  {
    hide NormalizeItems, NormalizeItem;
    NormalizeItemsPointwise(items);
    var es := NormalizeItems(items).value;
    if e in es {
      var i :| 0 <= i < |es| && es[i] == e;
      assert items[i] in items;
    }
    if exists x <- items :: NormalizeItem(x) == Some(e) {
      var x :| x in items && NormalizeItem(x) == Some(e);
      var i :| 0 <= i < |items| && items[i] == x;
      assert es[i] in es;
    }
  }

  lemma NamesMakeKeys(items: seq<Item>)
    requires NormalizeItems(items).Some? && NamesDistinct(items)
    ensures Keyed(NormalizeItems(items).value, TextOf)
  {
    var es := NormalizeItems(items).value;
    forall d <- es, e <- es | d.key == e.key ensures d == e {
      EntriesOfItems(items, d);
      EntriesOfItems(items, e);
    }
  }

  /** Keyed entries are the map they describe. */
  lemma SameMapSameEntries(es: seq<Entry>, ds: seq<Entry>)
    requires Keyed(es, TextOf) && Keyed(ds, TextOf)
    ensures SameMap(es, ds) <==> forall e :: e in es <==> e in ds
  {
    hide Last;
    forall e: Entry ensures && (e in es <==> Last(es, TextOf, e.key) == [e])
                            && (e in ds <==> Last(ds, TextOf, e.key) == [e]) {
      LastIsThere(es, TextOf, e.key);
      LastIsThere(ds, TextOf, e.key);
    }
    if forall e :: e in es <==> e in ds {
      forall k ensures Last(es, TextOf, k) == Last(ds, TextOf, k) {
        LastIsThere(es, TextOf, k);
        LastIsThere(ds, TextOf, k);
      }
    }
  }

  lemma KeptNormalizes(a: seq<Item>)
    requires ClientsNormalize(a)
    ensures NormalizeItems(Kept(a)).Some?
  {
    hide Normalize, Client, NormalizeItems;
    NormalizeItemsPointwise(Kept(a));
    forall i | 0 <= i < |Kept(a)| ensures NormalizeItem(Kept(a)[i]).Some? {
      KeptAreTheClients(a, Kept(a)[i]);
    }
  }

  lemma CoverMeansEntries(a: seq<Item>, b: seq<Item>)
    requires ClientsNormalize(a) && ClientsNormalize(b)
    ensures NormalizeItems(Kept(a)).Some? && NormalizeItems(Kept(b)).Some?
    ensures Covers(a, b) <==> forall e <- NormalizeItems(Kept(b)).value :: e in NormalizeItems(Kept(a)).value
  {
    hide Normalize, NormalizeItems, Kept;
    KeptNormalizes(a);
    KeptNormalizes(b);
    var es, ds := NormalizeItems(Kept(a)).value, NormalizeItems(Kept(b)).value;
    forall x ensures x in Kept(a) <==> x in a && Client(x) { KeptAreTheClients(a, x); }
    forall x ensures x in Kept(b) <==> x in b && Client(x) { KeptAreTheClients(b, x); }
    forall e ensures e in es <==> exists x <- Kept(a) :: NormalizeItem(x) == Some(e) { EntriesOfItems(Kept(a), e); }
    forall e ensures e in ds <==> exists x <- Kept(b) :: NormalizeItem(x) == Some(e) { EntriesOfItems(Kept(b), e); }
    if Covers(a, b) {
      forall e <- ds ensures e in es {
        var y :| y in Kept(b) && NormalizeItem(y) == Some(e);
        var x :| x in a && Text(x.key) == Text(y.key) && Normalize(x.value) == Normalize(y.value);
        assert x in Kept(a) && NormalizeItem(x) == Some(e);
      }
    }
    if forall e <- ds :: e in es {
      forall y <- b | Client(y)
        ensures exists x <- a :: Text(x.key) == Text(y.key) && Normalize(x.value) == Normalize(y.value)
      {
        var e := NormalizeItem(y).value;
        assert y in Kept(b) && NormalizeItem(y) == Some(e);
        assert e in es;
      }
    }
  }

  /** Two requests, each argument named once and all client data normalisable, have the same
      text if and only if their clients sent the same names with the same normal forms; what
      else is passed along has no part in it. */
  lemma EqualTextsExactlyWhen(a: seq<Item>, b: seq<Item>)
    requires NamesDistinct(a) && NamesDistinct(b) && ClientsNormalize(a) && ClientsNormalize(b)
    ensures CanonicalText(a).Some? && CanonicalText(b).Some?
    ensures CanonicalText(a) == CanonicalText(b) <==> Covers(a, b) && Covers(b, a)
  {
    hide Tokens, Covers, Kept, Last, DictForm, NormalizeItems, ClientsNormalize;
    TextIdentifiesRequest(a, b);
    CoverMeansEntries(a, b);
    CoverMeansEntries(b, a);
    NormalOfDict(Kept(a));
    NormalOfDict(Kept(b));
    forall x ensures x in Kept(a) ==> x in a { KeptAreTheClients(a, x); }
    forall x ensures x in Kept(b) ==> x in b { KeptAreTheClients(b, x); }
    NamesMakeKeys(Kept(a));
    NamesMakeKeys(Kept(b));
    SameMapSameEntries(NormalizeItems(Kept(a)).value, NormalizeItems(Kept(b)).value);
    SameMapSameForm(NormalizeItems(Kept(a)).value, NormalizeItems(Kept(b)).value);
  }

  lemma {:induction false} KeptOfConcat(a: seq<Item>, b: seq<Item>)
    ensures Kept(a + b) == Kept(a) + Kept(b)
    decreases |a|
  {
    if a == [] {
      assert a + b == b;
    } else {
      assert (a + b)[1..] == a[1..] + b;
      KeptOfConcat(a[1..], b);
    }
  }

  /** Adding, dropping or changing the key, the user or a session leaves the text alone. */
  lemma OthersDoNotMatter(before: seq<Item>, x: Item, after: seq<Item>)
    requires Text(x.key) in {"idempotency_key", "currentUser", "current_user", "db", "dbs", "_"}
    ensures CanonicalText(before + [x] + after) == CanonicalText(before + after)
  {
    hide Normalize, Tokens;
    KeptOfConcat(before + [x], after);
    KeptOfConcat(before, [x]);
    KeptOfConcat(before, after);
    assert Kept([x]) == [] by { assert [x][1..] == []; }
    assert Kept(before) + [] == Kept(before);
  }

  /** The same client data, in whatever dictionary or set order, with whatever user, database
      session or key object passed along, has the same text. */
  lemma SameDataSameText(a: seq<Item>, b: seq<Item>)
    requires NamesDistinct(a) && NamesDistinct(b)
    requires forall x <- a :: Client(x) ==>
               && Normalize(x.value).Some? && Tame(x.value)
               && exists y <- b :: Text(y.key) == Text(x.key) && SameUpToOrder(x.value, y.value)
    requires forall y <- b :: Client(y) ==> exists x <- a :: Text(x.key) == Text(y.key)
    ensures CanonicalText(a).Some? && CanonicalText(a) == CanonicalText(b)
  {
    hide Normalize, SameUpToOrder, Tame, CanonicalText;
    forall x <- a | Client(x)
      ensures exists y <- b :: Text(y.key) == Text(x.key) && Normalize(y.value) == Normalize(x.value)
    {
      var y :| y in b && Text(y.key) == Text(x.key) && SameUpToOrder(x.value, y.value);
      NormalFormIgnoresOrder(x.value, y.value);
    }
    forall y <- b | Client(y)
      ensures Normalize(y.value).Some?
      ensures exists x <- a :: Text(x.key) == Text(y.key) && Normalize(x.value) == Normalize(y.value)
    {
      var x :| x in a && Text(x.key) == Text(y.key);
      assert Client(x);
      var z :| z in b && Text(z.key) == Text(x.key) && Normalize(z.value) == Normalize(x.value);
      assert z == y;
    }
    EqualTextsExactlyWhen(a, b);
  }

  // ----- the scope key

  const PREFIX := "idempotency:"

  function UserPart(user: Option<nat>): string {
    if user.Some? then "user:" + Decimal(user.value) else "public"
  }

  /** `pathHash` is the first 16 hex digits of the endpoint's hash. */
  function ScopeKey(user: Option<nat>, pathHash: string, clientKey: string): string {
    PREFIX + UserPart(user) + ":" + pathHash + ":" + clientKey
  }

  lemma UserPartKind(u: Option<nat>, x: string)
    ensures (UserPart(u) + x)[0] == if u.Some? then 'u' else 'p'
  {
    hide Decimal;
  }

  lemma NumberedSplits(m: nat, n: nat, x: string, y: string)
    requires "user:" + Decimal(m) + (":" + x) == "user:" + Decimal(n) + (":" + y)
    ensures m == n && x == y
  {
    hide Decimal;
    var s, t := Decimal(m), Decimal(n);
    assert "user:" + s + (":" + x) == "user:" + (s + (":" + x));
    assert "user:" + t + (":" + y) == "user:" + (t + (":" + y));
    SplitAtLength("user:", "user:", s + (":" + x), t + (":" + y));
    DecimalDigits(m);
    DecimalDigits(n);
    SplitAtColon(s, t, x, y);
    DecimalIsInjective(m, n);
  }

  lemma UserPartSplits(u: Option<nat>, v: Option<nat>, x: string, y: string)
    requires UserPart(u) + (":" + x) == UserPart(v) + (":" + y)
    ensures u == v && x == y
  {
    hide Decimal;
    UserPartKind(u, ":" + x);
    UserPartKind(v, ":" + y);
    if u.Some? {
      NumberedSplits(u.value, v.value, x, y);
    } else {
      SplitAtLength("public", "public", ":" + x, ":" + y);
      SplitAtLength(":", ":", x, y);
    }
  }

  lemma ScopeKeyParts(user: Option<nat>, pathHash: string, clientKey: string)
    ensures ScopeKey(user, pathHash, clientKey) == PREFIX + (UserPart(user) + (":" + (pathHash + (":" + clientKey))))
  {
    hide UserPart;
  }

  lemma ScopeKeyText(user: nat, pathHash: string, clientKey: string)
    ensures ScopeKey(None, pathHash, clientKey) == "idempotency:public:" + pathHash + ":" + clientKey
    ensures ScopeKey(Some(user), pathHash, clientKey)
         == "idempotency:user:" + Decimal(user) + ":" + pathHash + ":" + clientKey
  {
    hide Decimal;
    assert PREFIX + ("user:" + Decimal(user)) == "idempotency:user:" + Decimal(user);
    assert PREFIX + "public" + ":" == "idempotency:public:";
  }

  /** Different users, endpoints or client keys never share a record, whatever the client puts
      into its key. */
  lemma ScopeKeyIsInjective(u: Option<nat>, v: Option<nat>, h: string, k: string, clientKey: string, otherKey: string)
    requires |h| == |k| == 16
    ensures ScopeKey(u, h, clientKey) == ScopeKey(v, k, otherKey) <==> u == v && h == k && clientKey == otherKey
  {
    hide ScopeKey, UserPart;
    if ScopeKey(u, h, clientKey) == ScopeKey(v, k, otherKey) {
      var x, y := h + (":" + clientKey), k + (":" + otherKey);
      ScopeKeyParts(u, h, clientKey);
      ScopeKeyParts(v, k, otherKey);
      SplitAtLength(PREFIX, PREFIX, UserPart(u) + (":" + x), UserPart(v) + (":" + y));
      UserPartSplits(u, v, x, y);
      SplitAtLength(h, k, ":" + clientKey, ":" + otherKey);
      SplitAtLength(":", ":", clientKey, otherKey);
    }
  }
}
