/** The counter invariant over every run of row changes, its drift when it does not hold to
    begin with, and the repair pass of app/services/reconciliation_service.py. */
module CounterInvariant {
  import opened Counters

  datatype Db = Db(rows: set<Row>, cnt: Counts)

  predicate HasKey(rows: set<Row>, k: Key) {
    exists r <- rows :: KeyOf(r) == k
  }

  /** Keys are unique and the counter cells are those of the rows present. */
  ghost predicate WellFormed(db: Db) {
    && (forall r <- db.rows, q <- db.rows :: KeyOf(r) == KeyOf(q) ==> r == q)
    && (forall c :: c in db.cnt <==> HasKey(db.rows, OwnerOf(c)))
  }

  /** Referential integrity. */
  predicate Closed(rows: set<Row>) {
    forall r <- rows, k <- Parents(r) :: HasKey(rows, k)
  }

  predicate Dangling(rows: set<Row>, r: Row) {
    exists k <- Parents(r) :: !HasKey(rows, k)
  }

  // ----- row-level steps

  datatype Event =
    | Insert(row: Row)
    | Delete(row: Row)
    | Update(before: Row, after: Row)
    | FlushViews(post: Id, seen: nat)

  /** Identifiers come from sequences: no row ever referred to a new one. */
  predicate Unreferenced(rows: set<Row>, k: Key) {
    forall r <- rows :: k !in Parents(r)
  }

  predicate CanInsert(db: Db, r: Row) {
    && !HasKey(db.rows, KeyOf(r))
    && Unreferenced(db.rows, KeyOf(r))
    && (forall k <- Parents(r) :: HasKey(db.rows, k))
    && (r.Connection? ==> r.followed != r.follower)
  }

  predicate CanUpdate(db: Db, before: Row, after: Row) {
    before in db.rows && KeyOf(before) == KeyOf(after) && Parents(before) == Parents(after)
  }

  function InsertRow(db: Db, r: Row): Db {
    Db(db.rows + {r}, Fire(db.cnt + (map c <- CellsOf(r) :: 0), Inserted(r)))
  }

  function DeleteRow(db: Db, r: Row): Db {
    Db(db.rows - {r}, Fire(db.cnt - CellsOf(r), Deleted(r)))
  }

  function UpdateRow(db: Db, before: Row, after: Row): Db {
    Db(db.rows - {before} + {after}, Fire(db.cnt, Updated(before, after)))
  }

  /** One row changes and its trigger fires; a statement the constraints refuse changes
      nothing.  The view flush adds to posts.views behind the triggers' back. */
  function Step(db: Db, e: Event): Db {
    match e
    case Insert(r) => if CanInsert(db, r) then InsertRow(db, r) else db
    case Delete(r) => if r in db.rows then DeleteRow(db, r) else db
    case Update(before, after) => if CanUpdate(db, before, after) then UpdateRow(db, before, after) else db
    case FlushViews(post, seen) =>
      var c := Cell(PostViews, post);
      if c in db.cnt then db.(cnt := db.cnt[c := db.cnt[c] + seen]) else db
  }

  function Run(db: Db, events: seq<Event>): Db
    decreases |events|
  {
    if events == [] then db else Run(Step(db, events[0]), events[1..])
  }

  const Empty := Db({}, map[])

  // ----- counting

  lemma CountAdd(rows: set<Row>, r: Row, c: Cell)
    requires r !in rows
    ensures Count(rows + {r}, c) == Count(rows, c) + if Feeds(r, c) then 1 else 0
  {
    if Feeds(r, c) {
      assert Fed(rows + {r}, c) == Fed(rows, c) + {r};
    } else {
      assert Fed(rows + {r}, c) == Fed(rows, c);
    }
  }

  lemma CountRemove(rows: set<Row>, r: Row, c: Cell)
    requires r in rows
    ensures Count(rows, c) == Count(rows - {r}, c) + if Feeds(r, c) then 1 else 0
  {
    assert rows == (rows - {r}) + {r};
    CountAdd(rows - {r}, r, c);
  }

  /** A row that feeds a cell refers to the row the cell belongs to. */
  lemma FeedersReferToTheOwner(r: Row, c: Cell)
    requires Feeds(r, c)
    ensures OwnerOf(c) in Parents(r) && OwnerOf(c) != KeyOf(r)
  {
  }

  lemma NobodyFeedsANewCell(rows: set<Row>, c: Cell)
    requires Unreferenced(rows, OwnerOf(c))
    ensures Count(rows, c) == 0
  {
    forall r <- rows | Feeds(r, c) ensures false {
      FeedersReferToTheOwner(r, c);
    }
    assert Fed(rows, c) == {};
  }

  // ----- well-formedness

  lemma StepKeepsWellFormed(db: Db, e: Event)
    requires WellFormed(db)
    ensures WellFormed(Step(db, e))
  {
    match e
    case Insert(r) => if CanInsert(db, r) { InsertKeepsWellFormed(db, r); }
    case Delete(r) => if r in db.rows { DeleteKeepsWellFormed(db, r); }
    case Update(before, after) => if CanUpdate(db, before, after) { UpdateKeepsWellFormed(db, before, after); }
    case FlushViews(_, _) =>
  }

  lemma InsertKeepsWellFormed(db: Db, r: Row)
    requires WellFormed(db) && CanInsert(db, r)
    ensures WellFormed(InsertRow(db, r))
  {
    hide Fire, Feeds, Parents, KeyOf, OwnerOf;
    var t, zeroed := InsertRow(db, r), db.cnt + (map c <- CellsOf(r) :: 0);
    forall c ensures c in t.cnt <==> HasKey(t.rows, OwnerOf(c)) {
      TriggersFollowTheCount(zeroed, Inserted(r), c);
      assert HasKey(t.rows, OwnerOf(c)) <==> HasKey(db.rows, OwnerOf(c)) || OwnerOf(c) == KeyOf(r);
    }
  }

  lemma DeleteKeepsWellFormed(db: Db, r: Row)
    requires WellFormed(db) && r in db.rows
    ensures WellFormed(DeleteRow(db, r))
  {
    hide Fire, Feeds;
    var t := DeleteRow(db, r);
    forall c ensures c in t.cnt <==> HasKey(t.rows, OwnerOf(c)) {
      TriggersFollowTheCount(db.cnt - CellsOf(r), Deleted(r), c);
      assert HasKey(t.rows, OwnerOf(c)) <==> HasKey(db.rows, OwnerOf(c)) && OwnerOf(c) != KeyOf(r);
    }
  }

  lemma UpdateKeepsWellFormed(db: Db, before: Row, after: Row)
    requires WellFormed(db) && CanUpdate(db, before, after)
    ensures WellFormed(UpdateRow(db, before, after))
  {
    hide Fire, Feeds;
    var t := UpdateRow(db, before, after);
    forall c ensures c in t.cnt <==> HasKey(t.rows, OwnerOf(c)) {
      TriggersFollowTheCount(db.cnt, Updated(before, after), c);
      assert HasKey(t.rows, OwnerOf(c)) <==> HasKey(db.rows, OwnerOf(c));
    }
  }

  // ----- drift

  /** How far a counter is from the truth; a counter that is not there is not wrong. */
  function Drift(db: Db, c: Cell): int {
    if c in db.cnt then db.cnt[c] - Count(db.rows, c) else 0
  }

  ghost predicate NonNegative(db: Db) {
    forall c <- db.cnt :: db.cnt[c] >= 0
  }

  /** Closer to zero, or as close, and on the same side. */
  predicate NoWorse(now: int, was: int) {
    (0 <= now <= was) || (was <= now <= 0)
  }

  /** Every trigger step keeps the counters it finds nonnegative and brings none of them
      further from its count or past it, in spite of the clamped decrements. */
  lemma StepShrinksDrift(db: Db, e: Event, c: Cell)
    requires WellFormed(db) && NonNegative(db)
    requires e.FlushViews? ==> c.col != PostViews
    ensures NoWorse(Drift(Step(db, e), c), Drift(db, c))
    ensures c in Step(db, e).cnt ==> Step(db, e).cnt[c] >= 0
  {
    match e
    case Insert(r) => if CanInsert(db, r) { InsertShrinksDrift(db, r, c); }
    case Delete(r) => if r in db.rows { DeleteShrinksDrift(db, r, c); }
    case Update(before, after) => if CanUpdate(db, before, after) { UpdateShrinksDrift(db, before, after, c); }
    case FlushViews(_, _) =>
  }

  lemma InsertShrinksDrift(db: Db, r: Row, c: Cell)
    requires WellFormed(db) && NonNegative(db) && CanInsert(db, r)
    ensures NoWorse(Drift(InsertRow(db, r), c), Drift(db, c))
    ensures c in InsertRow(db, r).cnt ==> InsertRow(db, r).cnt[c] >= 0
  {
    hide Fire, Count;
    TriggersFollowTheCount(db.cnt + (map d <- CellsOf(r) :: 0), Inserted(r), c);
    assert r !in db.rows;
    CountAdd(db.rows, r, c);
    if OwnerOf(c) == KeyOf(r) {
      NobodyFeedsANewCell(db.rows, c);
      if Feeds(r, c) { FeedersReferToTheOwner(r, c); }
    }
  }

  lemma DeleteShrinksDrift(db: Db, r: Row, c: Cell)
    requires WellFormed(db) && NonNegative(db) && r in db.rows
    ensures NoWorse(Drift(DeleteRow(db, r), c), Drift(db, c))
    ensures c in DeleteRow(db, r).cnt ==> DeleteRow(db, r).cnt[c] >= 0
  {
    hide Fire, Count;
    TriggersFollowTheCount(db.cnt - CellsOf(r), Deleted(r), c);
    CountRemove(db.rows, r, c);
  }

  lemma UpdateShrinksDrift(db: Db, before: Row, after: Row, c: Cell)
    requires WellFormed(db) && NonNegative(db) && CanUpdate(db, before, after)
    ensures NoWorse(Drift(UpdateRow(db, before, after), c), Drift(db, c))
    ensures c in UpdateRow(db, before, after).cnt ==> UpdateRow(db, before, after).cnt[c] >= 0
  {
    hide Fire, Count;
    TriggersFollowTheCount(db.cnt, Updated(before, after), c);
    CountRemove(db.rows, before, c);
    assert after !in db.rows - {before};
    CountAdd(db.rows - {before}, after, c);
  }

  lemma StepKeepsNonNegative(db: Db, e: Event)
    requires WellFormed(db) && NonNegative(db)
    ensures NonNegative(Step(db, e))
  {
    hide InsertRow, DeleteRow, UpdateRow, CanInsert, CanUpdate;
    forall c <- Step(db, e).cnt ensures Step(db, e).cnt[c] >= 0 {
      if !e.FlushViews? { StepShrinksDrift(db, e, c); }
    }
  }

  /** From any database with nonnegative counters, no run makes any counter worse than it was
      or turns an overcount into an undercount. */
  lemma {:induction false} DriftNeverGrows(db: Db, events: seq<Event>, c: Cell)
    requires WellFormed(db) && NonNegative(db) && c.col != PostViews
    ensures NoWorse(Drift(Run(db, events), c), Drift(db, c))
    ensures WellFormed(Run(db, events)) && NonNegative(Run(db, events))
    decreases |events|
  {
    hide Step, WellFormed, NonNegative, Drift;
    if events != [] {
      StepShrinksDrift(db, events[0], c);
      StepKeepsWellFormed(db, events[0]);
      StepKeepsNonNegative(db, events[0]);
      DriftNeverGrows(Step(db, events[0]), events[1..], c);
    }
  }

  // ----- the invariant

  /** Every counter but posts.views, which the flush also writes, equals its count. */
  ghost predicate Agrees(db: Db) {
    forall c <- db.cnt :: c.col != PostViews ==> db.cnt[c] == Count(db.rows, c)
  }

  /** Starting from agreement, every run of inserts, updates and deletes keeps it, in the
      middle of a cascade as well as after it. */
  lemma CountersAlwaysAgree(db: Db, events: seq<Event>)
    requires WellFormed(db) && NonNegative(db) && Agrees(db)
    ensures Agrees(Run(db, events)) && WellFormed(Run(db, events)) && NonNegative(Run(db, events))
  {
    var t := Run(db, events);
    DriftNeverGrows(db, events, Cell(PostLikes, 0));
    forall c <- t.cnt | c.col != PostViews ensures t.cnt[c] == Count(t.rows, c) {
      DriftNeverGrows(db, events, c);
      assert Drift(db, c) == 0;
    }
  }

  /** A GREATEST(..., 0) never bites on the way: the counter a delete lowers is at least one. */
  lemma NoClampBites(db: Db, events: seq<Event>, r: Row, c: Cell)
    requires WellFormed(db) && NonNegative(db) && Agrees(db)
    requires var t := Run(db, events); r in t.rows && c in t.cnt && Feeds(r, c) && c.col != PostViews
    ensures Run(db, events).cnt[c] >= 1
    ensures c in DeleteRow(Run(db, events), r).cnt
         && DeleteRow(Run(db, events), r).cnt[c] == Run(db, events).cnt[c] - 1
  {
    hide Fire, Run;
    var t := Run(db, events);
    CountersAlwaysAgree(db, events);
    CountRemove(t.rows, r, c);
    FeedersReferToTheOwner(r, c);
    TriggersFollowTheCount(t.cnt - CellsOf(r), Deleted(r), c);
  }

  // ----- the column with two writers

  /** What the flushes of a run add to a post's views. */
  function Flushed(events: seq<Event>, post: Id): nat
    decreases |events|
  {
    if events == [] then 0
    else (if events[0].FlushViews? && events[0].post == post then events[0].seen else 0) + Flushed(events[1..], post)
  }

  /** The post is there at every step of the run. */
  predicate Survives(db: Db, events: seq<Event>, post: Id)
    decreases |events|
  {
    Cell(PostViews, post) in db.cnt && (events != [] ==> Survives(Step(db, events[0]), events[1..], post))
  }

  lemma StepMovesViews(db: Db, e: Event, post: Id)
    requires WellFormed(db) && NonNegative(db)
    requires Cell(PostViews, post) in db.cnt && Cell(PostViews, post) in Step(db, e).cnt
    ensures var c := Cell(PostViews, post);
            && Drift(Step(db, e), c) >= Drift(db, c) + Flushed([e], post)
            && (Drift(db, c) >= 0 || e.FlushViews? ==> Drift(Step(db, e), c) == Drift(db, c) + Flushed([e], post))
  {
    hide Count, Fire;
    var c := Cell(PostViews, post);
    assert [e][1..] == [];
    match e
    case Insert(r) =>
      if CanInsert(db, r) {
        TriggersFollowTheCount(db.cnt + (map d <- CellsOf(r) :: 0), Inserted(r), c);
        assert OwnerOf(c) != KeyOf(r);
        CountAdd(db.rows, r, c);
      }
    case Delete(r) =>
      if r in db.rows {
        TriggersFollowTheCount(db.cnt - CellsOf(r), Deleted(r), c);
        CountRemove(db.rows, r, c);
      }
    case Update(before, after) =>
      if CanUpdate(db, before, after) {
        TriggersFollowTheCount(db.cnt, Updated(before, after), c);
        CountRemove(db.rows, before, c);
        assert after !in db.rows - {before};
        CountAdd(db.rows - {before}, after, c);
      }
    case FlushViews(_, _) =>
  }

  /** posts.views has two writers.  Over any run a surviving post's views exceed its post_views
      rows by what they did at the start and all that was flushed to it since; from an
      undercount, clamped decrements can only add to that. */
  lemma {:induction false} ViewDriftIsWhatWasFlushed(db: Db, events: seq<Event>, post: Id)
    requires WellFormed(db) && NonNegative(db) && Survives(db, events, post)
    ensures var c := Cell(PostViews, post);
            && Drift(Run(db, events), c) >= Drift(db, c) + Flushed(events, post)
            && (Drift(db, c) >= 0 ==> Drift(Run(db, events), c) == Drift(db, c) + Flushed(events, post))
    decreases |events|
  {
    if events != [] {
      var t := Step(db, events[0]);
      StepMovesViews(db, events[0], post);
      StepKeepsWellFormed(db, events[0]);
      StepKeepsNonNegative(db, events[0]);
      assert Flushed([events[0]], post) + Flushed(events[1..], post) == Flushed(events, post)
          by { assert [events[0]][1..] == []; }
      hide Step, WellFormed, NonNegative, Drift;
      ViewDriftIsWhatWasFlushed(t, events[1..], post);
    }
  }

  // ----- totals

  function Users(rows: set<Row>): set<Id> {
    set r <- rows | r.User? :: r.id
  }

  function Connections(rows: set<Row>): set<Row> {
    set r <- rows | r.Connection?
  }

  /** The rows that feed a column of one of the given owners. */
  function FedAny(rows: set<Row>, col: Column, ids: set<Id>): set<Row> {
    set r <- rows, id <- ids | Feeds(r, Cell(col, id)) :: r
  }

  ghost function Total(cnt: Counts, col: Column, ids: set<Id>): int
    requires forall id <- ids :: Cell(col, id) in cnt
  {
    if ids == {} then 0
    else var id :| id in ids; cnt[Cell(col, id)] + Total(cnt, col, ids - {id})
  }

  lemma {:induction false} TotalCounts(db: Db, col: Column, ids: set<Id>)
    requires col != PostViews && Agrees(db) && forall id <- ids :: Cell(col, id) in db.cnt
    ensures Total(db.cnt, col, ids) == |FedAny(db.rows, col, ids)|
  {
    hide FedAny, Count, Feeds;
    if ids == {} {
      NobodyFeedsNothing(db.rows, col);
      assert FedAny(db.rows, col, ids) == {};
    } else {
      var id :| id in ids && Total(db.cnt, col, ids) == db.cnt[Cell(col, id)] + Total(db.cnt, col, ids - {id});
      TotalCounts(db, col, ids - {id});
      FedSplits(db.rows, col, ids, id);
    }
  }

  lemma NobodyFeedsNothing(rows: set<Row>, col: Column)
    ensures FedAny(rows, col, {}) == {}
  {
  }

  lemma FedSplits(rows: set<Row>, col: Column, ids: set<Id>, id: Id)
    requires id in ids
    ensures |FedAny(rows, col, ids)| == Count(rows, Cell(col, id)) + |FedAny(rows, col, ids - {id})|
  {
    var one, rest := Fed(rows, Cell(col, id)), FedAny(rows, col, ids - {id});
    assert FedAny(rows, col, ids) == one + rest;
    assert one !! rest;
  }

  /** Everyone's following counts and everyone's follower counts add up to the same thing:
      the number of connections. */
  lemma FollowTotalsAgree(db: Db)
    requires WellFormed(db) && Agrees(db) && Closed(db.rows)
    ensures forall u <- Users(db.rows) :: Cell(UserFollowing, u) in db.cnt && Cell(UserFollowers, u) in db.cnt
    ensures Total(db.cnt, UserFollowing, Users(db.rows)) == |Connections(db.rows)|
    ensures Total(db.cnt, UserFollowers, Users(db.rows)) == |Connections(db.rows)|
  {
    var users := Users(db.rows);
    forall u <- users ensures Cell(UserFollowing, u) in db.cnt && Cell(UserFollowers, u) in db.cnt {
      assert User(u) in db.rows && KeyOf(User(u)) == OwnerOf(Cell(UserFollowing, u)) == OwnerOf(Cell(UserFollowers, u));
    }
    TotalCounts(db, UserFollowing, users);
    TotalCounts(db, UserFollowers, users);
    EveryConnectionIsFed(db.rows);
  }

  lemma EveryConnectionIsFed(rows: set<Row>)
    requires Closed(rows)
    ensures FedAny(rows, UserFollowing, Users(rows)) == Connections(rows)
    ensures FedAny(rows, UserFollowers, Users(rows)) == Connections(rows)
  {
    forall r <- Connections(rows)
      ensures r in FedAny(rows, UserFollowing, Users(rows)) && r in FedAny(rows, UserFollowers, Users(rows))
    {
      EndpointIsAUser(rows, r, r.follower);
      EndpointIsAUser(rows, r, r.followed);
      assert Feeds(r, Cell(UserFollowing, r.follower)) && Feeds(r, Cell(UserFollowers, r.followed));
    }
  }

  lemma EndpointIsAUser(rows: set<Row>, r: Row, u: Id)
    requires Closed(rows) && r in rows && r.Connection? && (u == r.follower || u == r.followed)
    ensures u in Users(rows)
  {
    assert UserKey(u) in Parents(r);
    assert HasKey(rows, UserKey(u));
    var q :| q in rows && KeyOf(q) == UserKey(u);
    assert q == User(u);
  }

  // ----- cascading deletes

  /** What ON DELETE CASCADE leaves: the greatest part of the rest that refers to nothing
      missing. */
  ghost predicate LeftByDelete(before: set<Row>, root: Row, after: set<Row>) {
    && after <= before - {root} && Closed(after)
    && forall kept: set<Row> :: kept <= before - {root} && Closed(kept) ==> kept <= after
  }

  /** A dangling row belongs to no part that could be left. */
  lemma DanglingRowsGo(rows: set<Row>, r: Row, kept: set<Row>)
    requires Dangling(rows, r) && kept <= rows && Closed(kept)
    ensures kept <= rows - {r}
  {
    var k :| k in Parents(r) && !HasKey(rows, k);
    forall q <- kept ensures k !in Parents(q) {
      forall d <- Parents(q) ensures d != k {
        assert HasKey(kept, d);
        assert HasKey(rows, d);
      }
    }
  }

  lemma InsertStaysClosed(rows: set<Row>, r: Row)
    requires Closed(rows) && forall k <- Parents(r) :: HasKey(rows, k)
    ensures Closed(rows + {r})
  {
    hide Parents, KeyOf;
    forall q <- rows + {r}, k <- Parents(q) ensures HasKey(rows + {r}, k) {
      assert HasKey(rows, k);
    }
  }

  lemma RemoveStaysClosed(rows: set<Row>, r: Row)
    requires Closed(rows) && Unreferenced(rows, KeyOf(r))
    ensures Closed(rows - {r})
  {
    hide Parents, KeyOf;
    forall q <- rows - {r}, k <- Parents(q) ensures HasKey(rows - {r}, k) {
      assert HasKey(rows, k);
    }
  }

  lemma UpdateStaysClosed(rows: set<Row>, r: Row, q: Row)
    requires Closed(rows) && r in rows && KeyOf(q) == KeyOf(r) && Parents(q) == Parents(r)
    ensures Closed(rows - {r} + {q})
  {
    hide Parents, KeyOf;
    forall x <- rows - {r} + {q}, k <- Parents(x) ensures HasKey(rows - {r} + {q}, k) {
      assert HasKey(rows, k);
    }
  }

  lemma StepIsARun(db: Db, e: Event)
    ensures Run(db, [e]) == Step(db, e)
  {
    hide Step;
    assert [e][1..] == [];
  }

  // ----- the repair pass

  function Wrong(db: Db, col: Column): set<Cell> {
    set c <- db.cnt | c.col == col && db.cnt[c] != Count(db.rows, c)
  }

  /** UPDATE t SET col = (count) WHERE col <> (count) */
  function Repair(db: Db, col: Column): Db {
    db.(cnt := map c <- db.cnt :: if c in Wrong(db, col) then Count(db.rows, c) else db.cnt[c])
  }

  function RepairAll(db: Db, order: seq<Column>): Db
    decreases |order|
  {
    if order == [] then db else RepairAll(Repair(db, order[0]), order[1..])
  }

  /** The rowcount of each statement of the pass, in its own place. */
  function Reported(db: Db, order: seq<Column>): seq<nat>
    decreases |order|
  {
    if order == [] then [] else [|Wrong(db, order[0])|] + Reported(Repair(db, order[0]), order[1..])
  }

  /** A pass over any list of columns: exactly those columns become right, everything else
      and every correct counter stays as it was. */
  lemma {:induction false} RepairAllRepairs(db: Db, order: seq<Column>, c: Cell)
    ensures RepairAll(db, order).rows == db.rows && RepairAll(db, order).cnt.Keys == db.cnt.Keys
    ensures c in db.cnt ==> RepairAll(db, order).cnt[c] == if c.col in order then Count(db.rows, c) else db.cnt[c]
    decreases |order|
  {
    hide Count;
    if order != [] {
      RepairAllRepairs(Repair(db, order[0]), order[1..], c);
    }
  }

  /** From any counters whatsoever the pass makes every counter equal its count, and the
      result does not depend on the order of the nine statements. */
  lemma ReconciliationIsExact(db: Db, order: seq<Column>)
    requires forall col: Column :: col in order
    ensures RepairAll(db, order) == Db(db.rows, map c <- db.cnt :: Count(db.rows, c))
  {
    var t := RepairAll(db, order);
    RepairAllRepairs(db, order, Cell(PostLikes, 0));
    forall c <- db.cnt ensures t.cnt[c] == Count(db.rows, c) {
      RepairAllRepairs(db, order, c);
    }
  }

  ghost predicate Distinct(order: seq<Column>) {
    forall i, j :: 0 <= i < j < |order| ==> order[i] != order[j]
  }

  /** Each statement reports exactly how many rows of its column were wrong to begin with. */
  lemma {:induction false} ReportsAreExact(db: Db, order: seq<Column>, i: nat)
    requires Distinct(order) && i < |order|
    ensures |Reported(db, order)| == |order| && Reported(db, order)[i] == |Wrong(db, order[i])|
    decreases |order|
  {
    hide Count;
    var next := Repair(db, order[0]);
    if i > 0 {
      ReportsAreExact(next, order[1..], i - 1);
      assert Wrong(next, order[i]) == Wrong(db, order[i]);
    } else {
      ReportedLength(next, order[1..]);
    }
  }

  lemma {:induction false} ReportedLength(db: Db, order: seq<Column>)
    ensures |Reported(db, order)| == |order|
    decreases |order|
  {
    if order != [] {
      ReportedLength(Repair(db, order[0]), order[1..]);
    }
  }

  /** A second pass finds nothing to do and reports all zeros. */
  lemma SecondPassIsIdle(db: Db, order: seq<Column>, i: nat)
    requires (forall col: Column :: col in order) && Distinct(order) && i < |order|
    ensures var once := RepairAll(db, order);
            RepairAll(once, order) == once && |Reported(once, order)| == |order| && Reported(once, order)[i] == 0
  {
    hide Count;
    var once := RepairAll(db, order);
    ReconciliationIsExact(db, order);
    ReconciliationIsExact(once, order);
    ReportsAreExact(once, order, i);
    assert Wrong(once, order[i]) == {};
  }

  /** The nine statements in the order of the source. */
  const Pass := [UserFollowing, UserFollowers, MessageReactions, ShareReactions, CommentLikes,
                 PostComments, PostViews, PostLikes, PostDislikes]

  lemma PassCoversEveryColumn()
    ensures Distinct(Pass) && forall col: Column :: col in Pass
  {
    forall col: Column ensures col in Pass {
      match col
      case UserFollowing => assert Pass[0] == col;
      case UserFollowers => assert Pass[1] == col;
      case MessageReactions => assert Pass[2] == col;
      case ShareReactions => assert Pass[3] == col;
      case CommentLikes => assert Pass[4] == col;
      case PostComments => assert Pass[5] == col;
      case PostViews => assert Pass[6] == col;
      case PostLikes => assert Pass[7] == col;
      case PostDislikes => assert Pass[8] == col;
    }
  }

  /** The dictionary the pass returns. */
  function Dict(following: nat, followers: nat, messages: nat, shares: nat, commentLikes: nat, comments: nat,
          views: nat, likes: nat, dislikes: nat): map<Column, nat> {
    map[UserFollowing := following, UserFollowers := followers, MessageReactions := messages,
        ShareReactions := shares, CommentLikes := commentLikes, PostComments := comments,
        PostViews := views, PostLikes := likes, PostDislikes := dislikes]
  }

  lemma PassReports(db: Db, following: nat, followers: nat, messages: nat, shares: nat, commentLikes: nat,
          comments: nat, views: nat, likes: nat, dislikes: nat)
    requires Reported(db, Pass)
             == [following, followers, messages, shares, commentLikes, comments, views, likes, dislikes]
    ensures var repaired :=
              Dict(following, followers, messages, shares, commentLikes, comments, views, likes, dislikes);
            forall col: Column :: col in repaired && repaired[col] == |Wrong(db, col)|
  {
    hide Reported, Wrong;
    PassCoversEveryColumn();
    var repaired := Dict(following, followers, messages, shares, commentLikes, comments, views, likes, dislikes);
    forall col: Column ensures col in repaired && repaired[col] == |Wrong(db, col)| {
      match col
      case UserFollowing => ReportsAreExact(db, Pass, 0);
      case UserFollowers => ReportsAreExact(db, Pass, 1);
      case MessageReactions => ReportsAreExact(db, Pass, 2);
      case ShareReactions => ReportsAreExact(db, Pass, 3);
      case CommentLikes => ReportsAreExact(db, Pass, 4);
      case PostComments => ReportsAreExact(db, Pass, 5);
      case PostViews => ReportsAreExact(db, Pass, 6);
      case PostLikes => ReportsAreExact(db, Pass, 7);
      case PostDislikes => ReportsAreExact(db, Pass, 8);
    }
  }

  /** So a pass establishes what every later run keeps. */
  lemma RepairThenRun(db: Db, order: seq<Column>, events: seq<Event>)
    requires WellFormed(db) && forall col: Column :: col in order
    ensures Agrees(Run(RepairAll(db, order), events))
  {
    ReconciliationIsExact(db, order);
    CountersAlwaysAgree(RepairAll(db, order), events);
  }
}
