/** app/tasks/post_view_flush_task.py as written: the counting loop, the bulk update and the
    removal, over the set and the posts.  Each method is tied to the steps of ViewFlush. */
module ViewQueue {
  import opened Prelude
  import opened ViewFlush

  /** The sum of the counts, over their keys in insertion order. */
  function Total(order: seq<int>, counts: map<int, nat>): nat
    requires forall k <- order :: k in counts
    decreases |order|
  {
    if order == [] then 0
    else
      var last := order[|order| - 1];
      assert last in order;
      Total(order[..|order| - 1], counts) + counts[last]
  }

  ghost predicate Distinct(order: seq<int>) {
    forall i, j :: 0 <= i < j < |order| ==> order[i] != order[j]
  }

  lemma {:induction false} TotalUnaffected(order: seq<int>, counts: map<int, nat>, k: int, n: nat)
    requires k !in order && forall x <- order :: x in counts
    ensures Total(order, counts[k := n]) == Total(order, counts)
    decreases |order|
  {
    if order != [] {
      TotalUnaffected(order[..|order| - 1], counts, k, n);
    }
  }

  lemma {:induction false} TotalBumped(order: seq<int>, counts: map<int, nat>, k: int)
    requires k in order && Distinct(order) && forall x <- order :: x in counts
    ensures Total(order, counts[k := counts[k] + 1]) == Total(order, counts) + 1
    decreases |order|
  {
    var n := |order| - 1;
    if order[n] == k {
      TotalUnaffected(order[..n], counts, k, counts[k] + 1);
    } else {
      TotalBumped(order[..n], counts, k);
    }
  }

  lemma ViewsOfPrefix(members: seq<string>, i: nat, post: int)
    requires i < |members|
    ensures Views(members[..i + 1], post)
            == Views(members[..i], post) + if PostOf(members[i]) == Some(post) then 1 else 0
    ensures WellFormed(members[..i + 1])
            == WellFormed(members[..i]) + if PostOf(members[i]).Some? then [members[i]] else []
  {
    assert members[..i + 1][..i] == members[..i];
  }

  /** The keys in `order` are those of `counts`, and each count is that of the members. */
  ghost predicate Tally(members: seq<string>, order: seq<int>, counts: map<int, nat>) {
    && Distinct(order)
    && (forall k <- order :: k in counts) && (forall k <- counts :: k in order)
    && (forall k :: At(counts, k) == Views(members, k))
    && (forall k <- counts :: counts[k] > 0)
  }

  /** A member for a post already counted. */
  lemma TallyAgain(members: seq<string>, i: nat, order: seq<int>, counts: map<int, nat>, k: int)
    requires i < |members| && Tally(members[..i], order, counts) && PostOf(members[i]) == Some(k) && k in counts
    ensures Tally(members[..i + 1], order, counts[k := counts[k] + 1])
    ensures Total(order, counts[k := counts[k] + 1]) == Total(order, counts) + 1
  {
    TotalBumped(order, counts, k);
    TallyMoves(members, i, counts, counts[k := counts[k] + 1]);
  }

  /** The first member for a post. */
  lemma TallyFirst(members: seq<string>, i: nat, order: seq<int>, counts: map<int, nat>, k: int)
    requires i < |members| && Tally(members[..i], order, counts) && PostOf(members[i]) == Some(k) && k !in counts
    ensures Tally(members[..i + 1], order + [k], counts[k := 1])
    ensures Total(order + [k], counts[k := 1]) == Total(order, counts) + 1
  {
    TotalUnaffected(order, counts, k, 1);
    assert (order + [k])[..|order|] == order;
    TallyMoves(members, i, counts, counts[k := 1]);
  }

  lemma TallySkips(members: seq<string>, i: nat, order: seq<int>, counts: map<int, nat>)
    requires i < |members| && Tally(members[..i], order, counts) && PostOf(members[i]).None?
    ensures Tally(members[..i + 1], order, counts)
  {
    TallyMoves(members, i, counts, counts);
  }

  function At(counts: map<int, nat>, k: int): nat {
    if k in counts then counts[k] else 0
  }

  lemma TallyMoves(members: seq<string>, i: nat, counts: map<int, nat>, after: map<int, nat>)
    requires i < |members| && forall k :: At(counts, k) == Views(members[..i], k)
    requires forall k :: At(after, k) == At(counts, k) + if PostOf(members[i]) == Some(k) then 1 else 0
    ensures forall k :: At(after, k) == Views(members[..i + 1], k)
  {
    forall k ensures At(after, k) == Views(members[..i + 1], k) {
      ViewsOfPrefix(members, i, k);
    }
  }

  /** The counting loop: each post's count is the number of well-formed members for it, and the
      counts add up to the number of members to remove. */
  method CountMembers(members: seq<string>) returns (counts: map<int, nat>, order: seq<int>, toRemove: seq<string>)
    ensures toRemove == WellFormed(members)
    ensures Tally(members, order, counts)
    ensures Total(order, counts) == |toRemove|
  {
    counts, order, toRemove := map[], [], [];
    for i := 0 to |members|
      invariant toRemove == WellFormed(members[..i])
      invariant Tally(members[..i], order, counts)
      invariant Total(order, counts) == |toRemove|
    {
      hide Tally, Total;
      ViewsOfPrefix(members, i, 0);
      var post := PostOf(members[i]);
      if post.Some? {
        var pid := post.value;
        if pid in counts {
          TallyAgain(members, i, order, counts, pid);
          counts := counts[pid := counts[pid] + 1];
        } else {
          TallyFirst(members, i, order, counts, pid);
          counts := counts[pid := 1];
          order := order + [pid];
        }
        toRemove := toRemove + [members[i]];
      } else {
        TallySkips(members, i, order, counts);
      }
    }
    assert members[..|members|] == members;
  }

  function Script(t: Task, members: seq<string>, sql: Sql, sremOk: bool): seq<Event> {
    [Snapshot(t, members)] + [Update(t, sql)] + [Remove(t, sremOk)]
  }

  const ENV := Env(true, false, true)

  /** One flush with nobody in between. */
  lemma FlushAlone(s: State, t: Task, members: seq<string>, sql: Sql, sremOk: bool)
    requires Resting(s) && t !in s.tasks && multiset(members) == multiset(s.queue)
    ensures var u := Run(ENV, s, Script(t, members, sql, sremOk));
            && u.tasks == s.tasks[t := Over]
            && u.posts == (if sql.Failed? then s.posts else Bump(s.posts, WellFormed(members)))
            && u.queue == (if sql.Applied? && sremOk then s.queue - ToSet(WellFormed(members)) else s.queue)
  {
    hide Run, Bump, WellFormed, ToSet;
    RunAppends(ENV, s, [], Snapshot(t, members));
    RunAppends(ENV, s, [Snapshot(t, members)], Update(t, sql));
    RunAppends(ENV, s, [Snapshot(t, members)] + [Update(t, sql)], Remove(t, sremOk));
    assert [] + [Snapshot(t, members)] == [Snapshot(t, members)];
    NoEvents(s);
  }

  lemma NoEvents(s: State)
    ensures Run(ENV, s, []) == s
  {
  }

  lemma ViewsBySet(queue: set<string>, members: seq<string>, post: int)
    requires multiset(members) == multiset(queue)
    ensures Views(WellFormed(members), post) == |set m <- queue | PostOf(m) == Some(post)|
  {
    hide PostOf, Views, WellFormed;
    ViewsOfWellFormed(members, post);
    ListingCounts(queue, members, post);
  }

  lemma RemovedBySet(queue: set<string>, members: seq<string>, m: string)
    requires multiset(members) == multiset(queue)
    ensures m in ToSet(WellFormed(members)) <==> m in queue && PostOf(m).Some?
  {
    hide PostOf, WellFormed;
    WellFormedMembers(members);
    assert m in WellFormed(members) <==> m in multiset(WellFormed(members));
    assert m in queue <==> m in multiset(members);
  }

  /** What a full flush does to posts and queue, by the members of the set. */
  lemma FlushBySet(posts: map<int, int>, queue: set<string>, members: seq<string>)
    requires multiset(members) == multiset(queue)
    ensures Bump(posts, WellFormed(members))
         == map post <- posts :: posts[post] + |set m <- queue | PostOf(m) == Some(post)|
    ensures queue - ToSet(WellFormed(members)) == set m <- queue | PostOf(m).None?
  {
    hide PostOf, Views, WellFormed, ToSet;
    forall m { RemovedBySet(queue, members, m); }
    forall post { ViewsBySet(queue, members, post); }
  }

  /** One flush alone, by the members of the set. */
  lemma FlushMeans(s: State, u: State, members: seq<string>, sql: Sql, sremOk: bool)
    requires multiset(members) == multiset(s.queue)
    requires u.posts == (if sql.Failed? then s.posts else Bump(s.posts, WellFormed(members)))
    requires u.queue == (if sql.Applied? && sremOk then s.queue - ToSet(WellFormed(members)) else s.queue)
    ensures u.queue == set m <- s.queue | !sql.Applied? || !sremOk || PostOf(m).None?
    ensures u.posts == map post <- s.posts ::
                         s.posts[post] + if sql.Failed? then 0 else |set m <- s.queue | PostOf(m) == Some(post)|
  {
    hide PostOf, WellFormed, Bump, ToSet;
    FlushBySet(s.posts, s.queue, members);
  }

  class FlushTask {
    var queue: set<string>
    var posts: map<int, int>
    ghost var st: State

    ghost predicate Valid()
      reads this
    {
      st.queue == queue && st.posts == posts && Resting(st)
    }

    constructor (posts: map<int, int>)
      ensures Valid() && st == Start(posts)
    {
      this.queue, this.posts := {}, posts;
      st := Start(posts);
    }

    /** queue_post_view */
    method QueuePostView(post: nat, user: nat)
      requires Valid()
      modifies this
      ensures Valid() && st == Step(ENV, old(st), Add(Member(post, user)))
      ensures queue == old(queue) + {Member(post, user)} && posts == old(posts)
    {
      st := DoAdd(st, Member(post, user));
      queue := queue + {Member(post, user)};
    }

    /** _do_flush; `members` is the set in the order Redis returned it, `sql` what becomes of the
        update: an exception ends the flush, committed or not. */
    method Flush(ghost t: Task, members: seq<string>, sql: Sql, sremOk: bool)
      requires Valid() && t !in st.tasks && multiset(members) == multiset(queue)
      modifies this
      ensures Valid() && st == Run(ENV, old(st), Script(t, members, sql, sremOk))
      ensures queue == set m <- old(queue) | !sql.Applied? || !sremOk || PostOf(m).None?
      ensures posts == map post <- old(posts) ::
                         old(posts)[post]
                         + if sql.Failed? then 0 else |set m <- old(queue) | PostOf(m) == Some(post)|
    {
      hide Run, Bump, WellFormed, Tally, Resting, Script, ToSet, PostOf;
      ghost var s := st;
      FlushAlone(s, t, members, sql, sremOk);
      StillResting(s, t);
      FlushMeans(s, Run(ENV, s, Script(t, members, sql, sremOk)), members, sql, sremOk);
      NothingToCount(s, members);
      st := Run(ENV, s, Script(t, members, sql, sremOk));
      if members == [] { return; }
      var counts, order, toRemove := CountMembers(members);
      if order == [] { return; }
      if sql.Failed? { return; }
      posts := map post <- posts :: if post in counts then posts[post] + counts[post] else posts[post];
      BumpIsTally(s.posts, members, order, counts);
      if sql.Unacknowledged? { return; }
      if sremOk {
        queue := queue - set m <- toRemove;
        assert queue == s.queue - ToSet(toRemove) by { SetOf(toRemove); }
      }
    }
  }

  lemma SetOf(members: seq<string>)
    ensures ToSet(members) == set m <- members
  {
  }

  lemma StillResting(s: State, t: Task)
    requires Resting(s)
    ensures forall u: State :: u.tasks == s.tasks[t := Over] ==> Resting(u)
  {
  }

  lemma BumpIsTally(posts: map<int, int>, members: seq<string>, order: seq<int>, counts: map<int, nat>)
    requires Tally(members, order, counts)
    ensures Bump(posts, WellFormed(members)) == map post <- posts ::
            if post in counts then posts[post] + counts[post] else posts[post]
  {
    forall post <- posts ensures Views(WellFormed(members), post) == if post in counts then counts[post] else 0 {
      ViewsOfWellFormed(members, post);
    }
  }

  /** With nothing to count, the update and the removal change nothing. */
  lemma NothingToCount(s: State, members: seq<string>)
    ensures members == [] ==> WellFormed(members) == []
    ensures WellFormed(members) == [] ==>
            Bump(s.posts, WellFormed(members)) == s.posts && s.queue - ToSet(WellFormed(members)) == s.queue
  {
  }
}
