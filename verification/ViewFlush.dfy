/** The post-view queue and its flush (app/tasks/post_view_flush_task.py,
    app/services/redis_service.py:191-207): a Redis set of "post:user" members that a periodic
    task counts, adds to posts.views and removes, while viewers keep adding. */
module ViewFlush {
  import opened Prelude
  import opened Sequences
  import opened Strings

  type Task = nat

  // ----- members

  predicate IsSpace(c: char) {
    c == ' ' || '\t' <= c <= '\r' || '\U{001C}' <= c <= '\U{001F}'
  }

  function StripLeft(s: string): string {
    if s != [] && IsSpace(s[0]) then StripLeft(s[1..]) else s
  }

  function StripRight(s: string): string {
    if s != [] && IsSpace(s[|s| - 1]) then StripRight(s[..|s| - 1]) else s
  }

  /** Digits, with single underscores allowed between them. */
  function Numeral(s: string): Option<nat>
    decreases |s|
  {
    if s == [] || !('0' <= s[|s| - 1] <= '9') then None
    else
      var d := (s[|s| - 1] - '0') as nat;
      if |s| == 1 then Some(d)
      else
        var rest := Numeral(s[..if s[|s| - 2] == '_' then |s| - 2 else |s| - 1]);
        if rest.None? then None else Some(10 * rest.value + d)
  }

  /** Python's int() on ASCII text; None for ValueError. */
  function IntOf(s: string): Option<int> {
    var t := StripRight(StripLeft(s));
    if t != [] && (t[0] == '+' || t[0] == '-') then
      var n := Numeral(t[1..]);
      if n.None? then None
      else
        var v: int := n.value;
        Some(if t[0] == '-' then -v else v)
    else
      var n := Numeral(t);
      if n.None? then None else Some(n.value)
  }

  /** The post a member counts for; None for a malformed one. */
  function PostOf(m: string): Option<int> {
    var i := FirstColon(m);
    if i == |m| then None else IntOf(m[..i])
  }

  function Member(post: nat, user: nat): string {
    Decimal(post) + (":" + Decimal(user))
  }

  lemma {:induction false} NumeralOfDecimal(n: nat)
    ensures Numeral(Decimal(n)) == Some(n)
    decreases n
  {
    if n >= 10 {
      var s := Decimal(n);
      NumeralOfDecimal(n / 10);
      DecimalDigits(n / 10);
      assert s[..|s| - 1] == Decimal(n / 10);
      assert s[|s| - 2] == Decimal(n / 10)[|s| - 2] && s[|s| - 2] in Decimal(n / 10);
    }
  }

  /** What a viewer queues is counted for the post viewed, and two views share a member only
      if post and user are the same. */
  lemma MemberRoundTrip(post: nat, user: nat, otherPost: nat, otherUser: nat)
    ensures PostOf(Member(post, user)) == Some(post)
    ensures Member(post, user) == Member(otherPost, otherUser) <==> post == otherPost && user == otherUser
  {
    var s := Decimal(post);
    DecimalDigits(post);
    DecimalDigits(otherPost);
    FirstColonAfter(s, Decimal(user));
    assert Member(post, user)[..|s|] == s;
    assert s[0] in s && s[|s| - 1] in s;
    assert StripRight(StripLeft(s)) == s;
    NumeralOfDecimal(post);
    if Member(post, user) == Member(otherPost, otherUser) {
      SplitAtColon(s, Decimal(otherPost), Decimal(user), Decimal(otherUser));
      DecimalIsInjective(post, otherPost);
      DecimalIsInjective(user, otherUser);
    }
  }

  predicate IsDigit(c: char) { '0' <= c <= '9' }

  lemma {:induction false} NumeralHolds(s: string)
    ensures Numeral(s).Some? ==> (forall c <- s :: IsDigit(c) || c == '_') && exists c <- s :: IsDigit(c)
    decreases |s|
  {
    if Numeral(s).Some? {
      var n := |s| - 1;
      assert s[n] in s;
      if n > 0 {
        var k := if s[n - 1] == '_' then n - 1 else n;
        NumeralHolds(s[..k]);
        assert s == s[..k] + s[k..];
      }
    }
  }

  lemma {:induction false} StripKeeps(s: string, c: char)
    requires !IsSpace(c)
    ensures c in StripLeft(s) <==> c in s
    ensures c in StripRight(s) <==> c in s
    decreases |s|
  {
    if s != [] {
      var n := |s| - 1;
      StripKeeps(s[1..], c);
      StripKeeps(s[..n], c);
      assert s == [s[0]] + s[1..] && s == s[..n] + [s[n]];
    }
  }

  /** What int() accepts holds a digit, and nothing but digits, underscores, signs and white
      space. */
  lemma NumbersHold(s: string)
    requires IntOf(s).Some?
    ensures exists c <- s :: IsDigit(c)
    ensures forall c <- s :: IsDigit(c) || c == '_' || c == '+' || c == '-' || IsSpace(c)
  {
    var t := StripRight(StripLeft(s));
    var u := if t != [] && (t[0] == '+' || t[0] == '-') then t[1..] else t;
    NumeralHolds(u);
    assert t == t[..|t| - |u|] + u;
    var d :| d in u && IsDigit(d);
    StripKeeps(s, d);
    StripKeeps(StripLeft(s), d);
    forall c <- s ensures IsDigit(c) || c == '_' || c == '+' || c == '-' || IsSpace(c) {
      if !IsSpace(c) {
        StripKeeps(s, c);
        StripKeeps(StripLeft(s), c);
        assert c in t;
      }
    }
  }

  predicate Blank(s: string) {
    forall c <- s :: IsSpace(c)
  }

  lemma {:induction false} StripLeftOf(w: string, s: string)
    requires Blank(w) && s != [] && !IsSpace(s[0])
    ensures StripLeft(w + s) == s
    decreases |w|
  {
    if w == [] {
      assert w + s == s;
    } else {
      assert w[0] in w && (w + s)[1..] == w[1..] + s;
      StripLeftOf(w[1..], s);
    }
  }

  lemma {:induction false} StripRightOf(s: string, w: string)
    requires Blank(w) && s != [] && !IsSpace(s[|s| - 1])
    ensures StripRight(s + w) == s
    decreases |w|
  {
    if w == [] {
      assert s + w == s;
    } else {
      var n := |w| - 1;
      assert w[n] in w && (s + w)[..|s + w| - 1] == s + w[..n];
      StripRightOf(s, w[..n]);
    }
  }

  lemma SignedNumbers(n: nat)
    ensures Decimal(n) != [] && forall c <- Decimal(n) :: IsDigit(c)
    ensures var value: int := n;
            IntOf(Decimal(n)) == Some(value) && IntOf("+" + Decimal(n)) == Some(value)
            && IntOf("-" + Decimal(n)) == Some(-value)
  {
    DecimalDigits(n);
    NumeralOfDecimal(n);
    hide Numeral, Decimal;
    hide StripLeft, StripRight;
    var s := Decimal(n);
    assert s[0] in s && s[|s| - 1] in s;
    assert ("+" + s)[1..] == s && ("-" + s)[1..] == s;
    AlreadyStripped(s);
    AlreadyStripped("+" + s);
    AlreadyStripped("-" + s);
  }

  lemma AlreadyStripped(s: string)
    requires s != [] && !IsSpace(s[0]) && !IsSpace(s[|s| - 1])
    ensures StripRight(StripLeft(s)) == s
  {
  }

  /** Whatever follows the first colon, the member counts for the post whose number stands
      before it, with a sign or without and with white space around it. */
  lemma NumberedMembers(left: string, n: nat, right: string, rest: string)
    requires Blank(left) && Blank(right)
    ensures var value: int := n;
            && PostOf(left + Decimal(n) + right + (":" + rest)) == Some(value)
            && PostOf(left + ("+" + Decimal(n)) + right + (":" + rest)) == Some(value)
            && PostOf(left + ("-" + Decimal(n)) + right + (":" + rest)) == Some(-value)
  {
    hide PostOf, IntOf, Decimal;
    SignedNumbers(n);
    var s := Decimal(n);
    assert s[0] in s && s[|s| - 1] in s;
    PaddedMember(left, s, right, rest);
    PaddedMember(left, "+" + s, right, rest);
    PaddedMember(left, "-" + s, right, rest);
  }

  lemma PaddedMember(left: string, s: string, right: string, rest: string)
    requires Blank(left) && Blank(right) && ':' !in s
    requires s != [] && !IsSpace(s[0]) && !IsSpace(s[|s| - 1])
    ensures PostOf(left + s + right + (":" + rest)) == IntOf(s)
  {
    var a := left + s + right;
    StripLeftOf(left, s + right);
    StripRightOf(s, right);
    assert a == left + (s + right);
    FirstColonAfter(a, rest);
    assert (a + (":" + rest))[..|a|] == a;
    assert StripRight(StripLeft(a)) == s;
    AlreadyStripped(s);
  }

  /** Malformed are all members without a colon, and those whose text before the first colon has
      no digit or anything in it that does not belong to a number. */
  lemma MalformedMembers(m: string, a: string, rest: string)
    ensures ':' !in m ==> PostOf(m).None?
    ensures ':' !in a && (forall c <- a :: !IsDigit(c)) ==> PostOf(a + (":" + rest)).None?
    ensures ':' !in a && (exists c <- a :: !IsDigit(c) && c != '_' && c != '+' && c != '-' && !IsSpace(c)) ==>
              PostOf(a + (":" + rest)).None?
  {
    hide IntOf;
    if FirstColon(m) < |m| { assert m[FirstColon(m)] in m; }
    if ':' !in a {
      FirstColonAfter(a, rest);
      assert (a + (":" + rest))[..|a|] == a;
      if IntOf(a).Some? { NumbersHold(a); }
    }
  }

  // ----- counting

  /** How many of the members count for the post. */
  function Views(members: seq<string>, post: int): nat
    decreases |members|
  {
    if members == [] then 0
    else Views(members[..|members| - 1], post) + if PostOf(members[|members| - 1]) == Some(post) then 1 else 0
  }

  function WellFormed(members: seq<string>): seq<string>
    decreases |members|
  {
    if members == [] then []
    else WellFormed(members[..|members| - 1])
         + if PostOf(members[|members| - 1]).Some? then [members[|members| - 1]] else []
  }

  lemma {:induction false} ViewsOfConcat(a: seq<string>, b: seq<string>, post: int)
    ensures Views(a + b, post) == Views(a, post) + Views(b, post)
    decreases |b|
  {
    if b == [] {
      assert a + b == a;
    } else {
      assert (a + b)[..|a + b| - 1] == a + b[..|b| - 1];
      ViewsOfConcat(a, b[..|b| - 1], post);
    }
  }

  lemma ViewsWithout(members: seq<string>, j: nat, post: int)
    requires j < |members|
    ensures Views(members, post)
            == Views(members[..j] + members[j + 1..], post) + if PostOf(members[j]) == Some(post) then 1 else 0
  {
    var a, x, b := members[..j], [members[j]], members[j + 1..];
    assert members == a + (x + b);
    ViewsOfConcat(a, x + b, post);
    ViewsOfConcat(x, b, post);
    ViewsOfConcat(a, b, post);
    assert x[..0] == [];
  }

  /** More members, more views. */
  lemma {:induction false} ViewsGrow(a: seq<string>, b: seq<string>, post: int)
    requires multiset(a) <= multiset(b)
    ensures Views(a, post) <= Views(b, post)
    decreases |a|
  {
    if a != [] {
      hide Views, PostOf;
      var j := Shared(a, b);
      ViewsWithout(a, 0, post);
      ViewsWithout(b, j, post);
      ViewsGrow(a[..0] + a[1..], b[..j] + b[j + 1..], post);
    }
  }

  lemma ViewsOfSame(a: seq<string>, b: seq<string>, post: int)
    requires multiset(a) == multiset(b)
    ensures Views(a, post) == Views(b, post)
  {
    ViewsGrow(a, b, post);
    ViewsGrow(b, a, post);
  }

  lemma {:induction false} WellFormedMembers(members: seq<string>)
    ensures forall m :: multiset(WellFormed(members))[m] == if PostOf(m).Some? then multiset(members)[m] else 0
    decreases |members|
  {
    if members != [] {
      var n := |members| - 1;
      assert members == members[..n] + [members[n]];
      WellFormedMembers(members[..n]);
    }
  }

  lemma ViewsOfOneMore(members: seq<string>, m: string, post: int)
    ensures Views(members + [m], post) == Views(members, post) + if PostOf(m) == Some(post) then 1 else 0
  {
    hide PostOf;
    assert (members + [m])[..|members|] == members;
  }

  lemma {:induction false} ViewsOfWellFormed(members: seq<string>, post: int)
    ensures Views(WellFormed(members), post) == Views(members, post)
    decreases |members|
  {
    hide PostOf;
    if members != [] {
      var n := |members| - 1;
      ViewsOfWellFormed(members[..n], post);
      assert members == members[..n] + [members[n]] && WellFormed(members[..n]) + [] == WellFormed(members[..n]);
      hide Views;
      ViewsOfOneMore(members[..n], members[n], post);
      ViewsOfOneMore(WellFormed(members[..n]), members[n], post);
    }
  }

  // ----- the protocol

  /** Redis hands out the set in some order. */
  datatype Phase = Counted(members: seq<string>) | Updated(members: seq<string>) | Over

  /** `posts` maps existing posts to their views.  `added` and `counted` are history: members
      in the order they entered the queue, and in the order updates counted them. */
  datatype State = State(queue: set<string>, posts: map<int, int>, tasks: map<Task, Phase>, added: seq<string>,
                         counted: seq<string>)

  /** What may go wrong: a removal, two flushes at once, or an update that commits although the
      connection raises. */
  datatype Env = Env(removalMayFail: bool, mayOverlap: bool, ackMayBeLost: bool)

  datatype Sql = Applied | Unacknowledged | Failed

  datatype Event =
    | Add(m: string)
    | Snapshot(t: Task, members: seq<string>)
    | Update(t: Task, sql: Sql)
    | Remove(t: Task, ok: bool)

  predicate Resting(s: State) {
    forall t <- s.tasks :: s.tasks[t].Over?
  }

  function ToSet(members: seq<string>): set<string> { set m <- members }

  function Bump(posts: map<int, int>, members: seq<string>): map<int, int> {
    map post <- posts :: posts[post] + Views(members, post)
  }

  /** sadd */
  function DoAdd(s: State, m: string): State {
    if m in s.queue then s else s.(queue := s.queue + {m}, added := s.added + [m])
  }

  /** smembers, and the loop that keeps the well-formed members. */
  function DoSnapshot(env: Env, s: State, t: Task, members: seq<string>): State {
    if t in s.tasks || multiset(members) != multiset(s.queue) || !(env.mayOverlap || Resting(s)) then s
    else s.(tasks := s.tasks[t := Counted(WellFormed(members))])
  }

  /** The bulk UPDATE; on an exception the flush gives up, whether or not it was committed. */
  function DoUpdate(s: State, t: Task, sql: Sql): State
    requires t in s.tasks && s.tasks[t].Counted?
  {
    var members := s.tasks[t].members;
    var t' := s.(tasks := s.tasks[t := if sql.Applied? then Updated(members) else Over]);
    if sql.Failed? then t' else t'.(posts := Bump(s.posts, members), counted := s.counted + members)
  }

  /** srem */
  function DoRemove(s: State, t: Task, ok: bool): State
    requires t in s.tasks && s.tasks[t].Updated?
  {
    s.(queue := if ok then s.queue - ToSet(s.tasks[t].members) else s.queue, tasks := s.tasks[t := Over])
  }

  function Step(env: Env, s: State, e: Event): State {
    match e
    case Add(m) => DoAdd(s, m)
    case Snapshot(t, members) => DoSnapshot(env, s, t, members)
    case Update(t, sql) =>
      if t in s.tasks && s.tasks[t].Counted? && (sql.Unacknowledged? ==> env.ackMayBeLost) then DoUpdate(s, t, sql)
      else s
    case Remove(t, ok) =>
      if t in s.tasks && s.tasks[t].Updated? && (ok || env.removalMayFail) then DoRemove(s, t, ok) else s
  }

  function Run(env: Env, s: State, events: seq<Event>): State
    decreases |events|
  {
    if events == [] then s else Run(env, Step(env, s, events[0]), events[1..])
  }

  function Start(posts: map<int, int>): State {
    State({}, posts, map[], [], [])
  }

  // ----- what every run keeps

  /** Flushes that have counted m and not yet tried to remove it. */
  function Pending(s: State, m: string): set<Task> {
    set t <- s.tasks | s.tasks[t].Updated? && m in s.tasks[t].members
  }

  function Queued(s: State, m: string): nat {
    if m in s.queue then 1 else 0
  }

  ghost predicate TasksOk(s: State) {
    forall t <- s.tasks :: !s.tasks[t].Over? ==>
      forall m :: multiset(s.tasks[t].members)[m] == if m in s.tasks[t].members then 1 else 0
  }

  /** How often m was counted or is still queued, beyond how often it was added, less the
      removals to come. */
  function Surplus(s: State, m: string): int {
    multiset(s.counted)[m] + Queued(s, m) - multiset(s.added)[m] - |Pending(s, m)|
  }

  /** Every entry into the queue is still there or has been counted, and a removal to come is
      paid for. */
  ghost predicate NothingLost(s: State) {
    forall m :: Surplus(s, m) >= 0
  }

  ghost predicate OnlyWellFormed(s: State) {
    && (forall t <- s.tasks :: !s.tasks[t].Over? ==> forall m <- s.tasks[t].members :: PostOf(m).Some?)
    && (forall m <- s.counted :: PostOf(m).Some?)
    && (forall m <- s.added :: PostOf(m).None? ==> m in s.queue)
  }

  ghost predicate PostsOk(start: map<int, int>, s: State) {
    s.posts == Bump(start, s.counted)
  }

  ghost predicate Inv(start: map<int, int>, s: State) {
    TasksOk(s) && NothingLost(s) && OnlyWellFormed(s) && PostsOk(start, s)
  }

  lemma StartIsOk(posts: map<int, int>)
    ensures Inv(posts, Start(posts))
  {
  }

  lemma SnapshotIsDistinct(queue: set<string>, members: seq<string>)
    requires multiset(members) == multiset(queue)
    ensures forall m :: multiset(WellFormed(members))[m] == if m in WellFormed(members) then 1 else 0
    ensures forall m <- WellFormed(members) :: PostOf(m).Some? && m in queue
  {
    WellFormedMembers(members);
    forall m ensures multiset(WellFormed(members))[m] == if m in WellFormed(members) then 1 else 0 {
      assert m in WellFormed(members) <==> m in multiset(WellFormed(members));
      assert m in multiset(members) <==> m in queue;
    }
    forall m <- WellFormed(members) ensures PostOf(m).Some? && m in queue {
      assert m in multiset(WellFormed(members)) && m in multiset(queue);
    }
  }

  /** How a flush's move to a phase changes who is pending. */
  lemma PendingAfter(s: State, t: State, task: Task, p: Phase, m: string)
    requires t.tasks == s.tasks[task := p]
    ensures Pending(t, m) == Pending(s, m) - {task} + if p.Updated? && m in p.members then {task} else {}
  {
  }

  /** The step does for m what its flush counted on. */
  predicate Effective(s: State, e: Event, m: string) {
    && (e.Remove? && e.t in s.tasks && s.tasks[e.t].Updated? && m in s.tasks[e.t].members ==> e.ok && m in s.queue)
    && (e.Update? && e.t in s.tasks && s.tasks[e.t].Counted? && m in s.tasks[e.t].members ==> !e.sql.Unacknowledged?)
  }

  lemma AddKeepsSurplus(s: State, x: string, m: string)
    ensures Surplus(DoAdd(s, x), m) == Surplus(s, m)
  {
    assert Pending(DoAdd(s, x), m) == Pending(s, m);
  }

  lemma SnapshotKeepsSurplus(env: Env, s: State, t: Task, members: seq<string>, m: string)
    ensures Surplus(DoSnapshot(env, s, t, members), m) == Surplus(s, m)
  {
    var s' := DoSnapshot(env, s, t, members);
    if s' != s { PendingAfter(s, s', t, s'.tasks[t], m); }
  }

  lemma PendingAfterUpdate(s: State, t: Task, sql: Sql, m: string)
    requires t in s.tasks && s.tasks[t].Counted?
    ensures |Pending(DoUpdate(s, t, sql), m)|
            == |Pending(s, m)| + if sql.Applied? && m in s.tasks[t].members then 1 else 0
  {
    hide Bump;
    PendingAfter(s, DoUpdate(s, t, sql), t, DoUpdate(s, t, sql).tasks[t], m);
    assert t !in Pending(s, m);
  }

  lemma CountedAfterUpdate(s: State, t: Task, sql: Sql, m: string)
    requires TasksOk(s) && t in s.tasks && s.tasks[t].Counted?
    ensures multiset(DoUpdate(s, t, sql).counted)[m]
            == multiset(s.counted)[m] + if !sql.Failed? && m in s.tasks[t].members then 1 else 0
    ensures DoUpdate(s, t, sql).queue == s.queue && DoUpdate(s, t, sql).added == s.added
  {
    hide Bump;
  }

  lemma UpdateKeepsSurplus(s: State, t: Task, sql: Sql, m: string)
    requires TasksOk(s) && t in s.tasks && s.tasks[t].Counted?
    ensures Surplus(DoUpdate(s, t, sql), m) >= Surplus(s, m)
    ensures Effective(s, Update(t, sql), m) ==> Surplus(DoUpdate(s, t, sql), m) == Surplus(s, m)
  {
    hide DoUpdate, Pending, TasksOk;
    PendingAfterUpdate(s, t, sql, m);
    CountedAfterUpdate(s, t, sql, m);
  }

  lemma RemoveKeepsSurplus(s: State, t: Task, ok: bool, m: string)
    requires t in s.tasks && s.tasks[t].Updated?
    ensures Surplus(DoRemove(s, t, ok), m) >= Surplus(s, m)
    ensures Effective(s, Remove(t, ok), m) ==> Surplus(DoRemove(s, t, ok), m) == Surplus(s, m)
  {
    var s' := DoRemove(s, t, ok);
    assert s'.counted == s.counted && s'.added == s.added;
    assert |Pending(s', m)| == |Pending(s, m)| - if m in s.tasks[t].members then 1 else 0 by {
      PendingAfter(s, s', t, Over, m);
      assert t in Pending(s, m) <==> m in s.tasks[t].members;
    }
    hide Pending;
    assert m in ToSet(s.tasks[t].members) <==> m in s.tasks[t].members;
  }

  lemma StepKeepsSurplus(env: Env, s: State, e: Event, m: string)
    requires TasksOk(s)
    ensures Surplus(Step(env, s, e), m) >= Surplus(s, m)
    ensures Effective(s, e, m) ==> Surplus(Step(env, s, e), m) == Surplus(s, m)
  {
    hide TasksOk, Surplus, Effective, DoAdd, DoSnapshot, DoUpdate, DoRemove;
    match e
    case Add(x) => AddKeepsSurplus(s, x, m);
    case Snapshot(t, members) => SnapshotKeepsSurplus(env, s, t, members, m);
    case Update(t, sql) => if t in s.tasks && s.tasks[t].Counted? { UpdateKeepsSurplus(s, t, sql, m); }
    case Remove(t, ok) => if t in s.tasks && s.tasks[t].Updated? { RemoveKeepsSurplus(s, t, ok, m); }
  }

  lemma StepKeepsNothingLost(env: Env, s: State, e: Event)
    requires NothingLost(s) && TasksOk(s)
    ensures NothingLost(Step(env, s, e))
  {
    hide Step, Surplus, TasksOk;
    forall m ensures Surplus(Step(env, s, e), m) >= 0 {
      StepKeepsSurplus(env, s, e, m);
    }
  }

  lemma StepKeepsTasks(env: Env, s: State, e: Event)
    requires TasksOk(s) && OnlyWellFormed(s)
    ensures TasksOk(Step(env, s, e)) && OnlyWellFormed(Step(env, s, e))
  {
    if e.Snapshot? && multiset(e.members) == multiset(s.queue) {
      SnapshotIsDistinct(s.queue, e.members);
    }
  }

  lemma BumpTwice(posts: map<int, int>, a: seq<string>, b: seq<string>)
    ensures Bump(Bump(posts, a), b) == Bump(posts, a + b)
  {
    forall post <- posts ensures Bump(Bump(posts, a), b)[post] == Bump(posts, a + b)[post] {
      ViewsOfConcat(a, b, post);
    }
  }

  lemma StepKeepsInv(start: map<int, int>, env: Env, s: State, e: Event)
    requires Inv(start, s)
    ensures Inv(start, Step(env, s, e))
  {
    hide TasksOk, NothingLost, OnlyWellFormed, Bump;
    StepKeepsNothingLost(env, s, e);
    StepKeepsTasks(env, s, e);
    if e.Update? && e.t in s.tasks && s.tasks[e.t].Counted? {
      BumpTwice(start, s.counted, s.tasks[e.t].members);
    }
  }

  lemma {:induction false} RunKeepsInv(start: map<int, int>, env: Env, s: State, events: seq<Event>)
    requires Inv(start, s)
    ensures Inv(start, Run(env, s, events))
    decreases |events|
  {
    if events != [] {
      hide Inv, Step;
      StepKeepsInv(start, env, s, events[0]);
      RunKeepsInv(start, env, Step(env, s, events[0]), events[1..]);
    }
  }

  /** Any listing of the queue. */
  lemma {:induction false} Listing(queue: set<string>) returns (members: seq<string>)
    ensures multiset(members) == multiset(queue)
    decreases |queue|
  {
    if queue == {} {
      members := [];
    } else {
      var m :| m in queue;
      var rest := Listing(queue - {m});
      members := rest + [m];
      assert multiset(queue) == multiset(queue - {m}) + multiset{m};
    }
  }

  /** The members in the queue that count for the post. */
  function InQueue(queue: set<string>, post: int): set<string> {
    set m <- queue | PostOf(m) == Some(post)
  }

  lemma {:induction false} ListingCounts(queue: set<string>, members: seq<string>, post: int)
    requires multiset(members) == multiset(queue)
    ensures Views(members, post) == |InQueue(queue, post)|
    decreases |members|
  {
    if members == [] {
      assert forall m :: m !in multiset(queue);
      assert forall m :: m in queue <==> m in multiset(queue);
      assert InQueue(queue, post) == {};
    } else {
      var n := |members| - 1;
      var m := members[n];
      assert members == members[..n] + [m];
      assert m in multiset(queue);
      assert multiset(members[..n]) == multiset(queue - {m}) by {
        assert multiset(queue) == multiset(queue - {m}) + multiset{m};
        Cancel(multiset(members[..n]), multiset(queue - {m}), m);
      }
      ListingCounts(queue - {m}, members[..n], post);
      assert InQueue(queue - {m}, post) == InQueue(queue, post) - {m};
    }
  }

  /** Whatever fails and however many flushes overlap, no queued view of an existing post is
      lost: it has been added to the post or is still in the queue. */
  lemma NoViewIsLost(env: Env, posts: map<int, int>, events: seq<Event>, post: int)
    requires post in posts
    ensures var t := Run(env, Start(posts), events);
            post in t.posts && t.posts[post] + |InQueue(t.queue, post)| >= posts[post] + Views(t.added, post)
  {
    StartIsOk(posts);
    RunKeepsInv(posts, env, Start(posts), events);
    var t := Run(env, Start(posts), events);
    var q := Listing(t.queue);
    ListingCounts(t.queue, q, post);
    ViewsOfConcat(t.counted, q, post);
    forall m ensures multiset(t.added)[m] <= multiset(t.counted + q)[m] {
      assert Surplus(t, m) >= 0;
      assert multiset(t.counted + q)[m] == multiset(t.counted)[m] + multiset(t.queue)[m];
    }
    ViewsGrow(t.added, t.counted + q, post);
  }

  /** A member leaves the queue only after it was counted, once for every time it entered. */
  lemma RemovedOnlyAfterCounted(env: Env, posts: map<int, int>, events: seq<Event>, m: string)
    ensures var t := Run(env, Start(posts), events);
            multiset(t.added)[m] <= multiset(t.counted)[m] + if m in t.queue then 1 else 0
  {
    StartIsOk(posts);
    RunKeepsInv(posts, env, Start(posts), events);
    assert Surplus(Run(env, Start(posts), events), m) >= 0;
  }

  /** A malformed member is never counted and never removed. */
  lemma MalformedStays(env: Env, posts: map<int, int>, events: seq<Event>, m: string)
    requires PostOf(m).None?
    ensures var t := Run(env, Start(posts), events); m !in t.counted && (m in t.added ==> m in t.queue)
  {
    StartIsOk(posts);
    RunKeepsInv(posts, env, Start(posts), events);
  }

  // ----- each view counted once, and exactly when

  predicate Sound(env: Env) { !env.removalMayFail && !env.mayOverlap && !env.ackMayBeLost }

  /** One flush at most is under way, and what it counted is still in the queue. */
  ghost predicate OneFlush(s: State) {
    && (forall t <- s.tasks, u <- s.tasks :: !s.tasks[t].Over? && !s.tasks[u].Over? ==> t == u)
    && (forall t <- s.tasks :: !s.tasks[t].Over? ==> forall m <- s.tasks[t].members :: m in s.queue)
  }

  ghost predicate Balanced(s: State) {
    forall m :: Surplus(s, m) == 0
  }

  lemma StepKeepsOneFlush(env: Env, s: State, e: Event)
    requires Sound(env) && OneFlush(s)
    ensures OneFlush(Step(env, s, e))
  {
    if e.Snapshot? && multiset(e.members) == multiset(s.queue) {
      SnapshotIsDistinct(s.queue, e.members);
    }
  }

  lemma StepKeepsBalance(start: map<int, int>, env: Env, s: State, e: Event)
    requires Sound(env) && Inv(start, s) && OneFlush(s) && Balanced(s)
    ensures Balanced(Step(env, s, e))
  {
    hide Surplus, DoAdd, DoSnapshot, DoUpdate, DoRemove;
    forall m ensures Surplus(Step(env, s, e), m) == 0 {
      assert Surplus(s, m) == 0;
      if Effective(s, e, m) {
        StepKeepsSurplus(env, s, e, m);
      } else {
        assert Step(env, s, e) == s;
      }
    }
  }

  lemma {:induction false} RunKeepsBalance(start: map<int, int>, env: Env, s: State, events: seq<Event>)
    requires Sound(env) && Inv(start, s) && OneFlush(s) && Balanced(s)
    ensures OneFlush(Run(env, s, events)) && Balanced(Run(env, s, events))
    decreases |events|
  {
    if events != [] {
      var e := events[0];
      StepKeepsInv(start, env, s, e);
      StepKeepsOneFlush(env, s, e);
      assert Balanced(Step(env, s, e)) by { StepKeepsBalance(start, env, s, e); }
      hide Inv, OneFlush, Balanced, Step;
      RunKeepsBalance(start, env, Step(env, s, e), events[1..]);
    }
  }

  /** Between flushes, a post's views and its queued members account for every addition. */
  ghost predicate Accounted(start: map<int, int>, s: State) {
    Resting(s) ==> forall post <- start ::
      post in s.posts && s.posts[post] + |InQueue(s.queue, post)| == start[post] + Views(s.added, post)
  }

  lemma BalancedIsAccounted(start: map<int, int>, s: State)
    requires Inv(start, s) && Balanced(s)
    ensures Accounted(start, s)
  {
    if Resting(s) {
      var q := Listing(s.queue);
      forall m ensures multiset(s.added)[m] == multiset(s.counted + q)[m] {
        assert Surplus(s, m) == 0;
        assert Pending(s, m) == {};
        assert multiset(s.counted + q)[m] == multiset(s.counted)[m] + multiset(s.queue)[m];
      }
      assert multiset(s.added) == multiset(s.counted + q);
      forall post <- start
          ensures post in s.posts && s.posts[post] + |InQueue(s.queue, post)| == start[post] + Views(s.added, post) {
        ListingCounts(s.queue, q, post);
        ViewsOfConcat(s.counted, q, post);
        ViewsOfSame(s.added, s.counted + q, post);
      }
    }
  }

  // ----- where views are counted twice

  const Seen := "7:1"
  const OnePost: map<int, int> := map[7 := 0]

  /** Post 7 was viewed once; this is what the flushes have made of it. */
  function Viewed(queue: set<string>, views: int, tasks: map<Task, Phase>, counted: seq<string>): State {
    State(queue, map[7 := views], tasks, [Seen], counted)
  }

  lemma SeenIsForSeven()
    ensures PostOf(Seen) == Some(7) && WellFormed([Seen]) == [Seen] && Views([Seen], 7) == 1
  {
    assert Decimal(7) == "7" && Decimal(1) == "1";
    assert Member(7, 1) == Seen;
    MemberRoundTrip(7, 1, 7, 1);
    assert [Seen][..0] == [];
  }

  lemma {:induction false} RunAppends(env: Env, s: State, first: seq<Event>, e: Event)
    ensures Run(env, s, first + [e]) == Step(env, Run(env, s, first), e)
    decreases |first|
  {
    if first == [] {
      assert [] + [e] == [e] && [e][1..] == [];
    } else {
      assert (first + [e])[1..] == first[1..] + [e];
      RunAppends(env, Step(env, s, first[0]), first[1..], e);
    }
  }

  lemma Overcounted(queue: set<string>, views: int, tasks: map<Task, Phase>, counted: seq<string>)
    requires Resting(Viewed(queue, views, tasks, counted)) && views + |queue| == 2 && queue <= {Seen}
    ensures !Accounted(OnePost, Viewed(queue, views, tasks, counted))
  {
    SeenIsForSeven();
    assert InQueue(queue, 7) == queue;
    assert 7 in OnePost;
  }

  const FirstCount := [Add(Seen)] + [Snapshot(1, [Seen])]

  lemma FirstCountRun(env: Env)
    ensures Run(env, Start(OnePost), FirstCount) == Viewed({Seen}, 0, map[1 := Counted([Seen])], [])
  {
    SeenIsForSeven();
    RunAppends(env, Start(OnePost), [], Add(Seen));
    assert [] + [Add(Seen)] == [Add(Seen)] && [] + [Seen] == [Seen];
    RunAppends(env, Start(OnePost), [Add(Seen)], Snapshot(1, [Seen]));
    assert multiset([Seen]) == multiset({Seen});
  }

  lemma UpdateCounts(views: int, tasks: map<Task, Phase>, counted: seq<string>, t: Task)
    requires t in tasks && tasks[t] == Counted([Seen])
    ensures DoUpdate(Viewed({Seen}, views, tasks, counted), t, Applied)
         == Viewed({Seen}, views + 1, tasks[t := Updated([Seen])], counted + [Seen])
  {
    SeenIsForSeven();
  }

  const LostRemoval := FirstCount + [Update(1, Applied)] + [Remove(1, false)]

  /** A removal that fails leaves the view to be counted again. */
  lemma LostRemovalRecounts(env: Env)
    requires env.removalMayFail
    ensures !Accounted(OnePost, Run(env, Start(OnePost), LostRemoval))
  {
    hide Run, PostOf, Views, WellFormed, Bump, Accounted;
    var s := Viewed({Seen}, 0, map[1 := Counted([Seen])], []);
    FirstCountRun(env);
    UpdateCounts(0, s.tasks, [], 1);
    RunAppends(env, Start(OnePost), FirstCount, Update(1, Applied));
    RunAppends(env, Start(OnePost), FirstCount + [Update(1, Applied)], Remove(1, false));
    var t := Run(env, Start(OnePost), LostRemoval);
    assert t == Viewed({Seen}, 1, map[1 := Over], [] + [Seen]);
    Overcounted({Seen}, 1, map[1 := Over], [] + [Seen]);
  }

  const LostAck := FirstCount + [Update(1, Unacknowledged)]

  /** An update that commits while its flush is told otherwise leaves the view to be counted
      again, too. */
  lemma LostAckRecounts(env: Env)
    requires env.ackMayBeLost
    ensures !Accounted(OnePost, Run(env, Start(OnePost), LostAck))
  {
    hide Run, PostOf, Views, WellFormed, Accounted;
    SeenIsForSeven();
    FirstCountRun(env);
    RunAppends(env, Start(OnePost), FirstCount, Update(1, Unacknowledged));
    assert Bump(map[7 := 0], [Seen]) == map[7 := 1];
    assert Run(env, Start(OnePost), LostAck) == Viewed({Seen}, 1, map[1 := Over], [] + [Seen]);
    Overcounted({Seen}, 1, map[1 := Over], [] + [Seen]);
  }

  const SecondCount := FirstCount + [Snapshot(2, [Seen])]
  const BothCount := SecondCount + [Update(1, Applied)] + [Update(2, Applied)]
  const Overlap := BothCount + [Remove(1, true)] + [Remove(2, true)]

  lemma SecondSnapshotRun(env: Env)
    requires env.mayOverlap
    ensures Run(env, Start(OnePost), SecondCount)
            == Viewed({Seen}, 0, map[1 := Counted([Seen]), 2 := Counted([Seen])], [])
  {
    hide Run, PostOf, WellFormed;
    SeenIsForSeven();
    FirstCountRun(env);
    RunAppends(env, Start(OnePost), FirstCount, Snapshot(2, [Seen]));
    assert multiset([Seen]) == multiset({Seen});
  }

  lemma SecondCountRun(env: Env)
    requires env.mayOverlap
    ensures Run(env, Start(OnePost), BothCount)
            == Viewed({Seen}, 2, map[1 := Updated([Seen]), 2 := Updated([Seen])], [Seen] + [Seen])
  {
    hide Run, DoUpdate;
    SecondSnapshotRun(env);
    var tasks := map[1 := Counted([Seen]), 2 := Counted([Seen])];
    UpdateCounts(0, tasks, [], 1);
    RunAppends(env, Start(OnePost), SecondCount, Update(1, Applied));
    UpdateCounts(1, tasks[1 := Updated([Seen])], [Seen], 2);
    RunAppends(env, Start(OnePost), SecondCount + [Update(1, Applied)], Update(2, Applied));
    assert [] + [Seen] == [Seen];
  }

  /** Two flushes at once both count the view. */
  lemma OverlapRecounts(env: Env)
    requires env.mayOverlap
    ensures !Accounted(OnePost, Run(env, Start(OnePost), Overlap))
  {
    hide Run, PostOf, Views, WellFormed, Bump, Accounted;
    SecondCountRun(env);
    var s := Viewed({Seen}, 2, map[1 := Updated([Seen]), 2 := Updated([Seen])], [Seen] + [Seen]);
    RunAppends(env, Start(OnePost), BothCount, Remove(1, true));
    RunAppends(env, Start(OnePost), BothCount + [Remove(1, true)], Remove(2, true));
    assert Run(env, Start(OnePost), Overlap) == DoRemove(DoRemove(s, 1, true), 2, true);
    assert ToSet([Seen]) == {Seen};
    assert DoRemove(s, 1, true) == Viewed({}, 2, map[1 := Over, 2 := Updated([Seen])], [Seen] + [Seen]);
    assert DoRemove(DoRemove(s, 1, true), 2, true) == Viewed({}, 2, map[1 := Over, 2 := Over], [Seen] + [Seen]);
    Overcounted({}, 2, map[1 := Over, 2 := Over], [Seen] + [Seen]);
  }

  /** Views are counted exactly once, in all runs from all posts, if and only if removals do
      not fail, flushes do not overlap and no acknowledgement of an update is lost. */
  lemma CountedOnceExactlyWhen(env: Env)
    ensures (forall posts, events :: Accounted(posts, Run(env, Start(posts), events)))
            <==> !env.removalMayFail && !env.mayOverlap && !env.ackMayBeLost
  {
    hide Accounted, Run;
    if Sound(env) {
      forall posts, events ensures Accounted(posts, Run(env, Start(posts), events)) {
        StartIsOk(posts);
        RunKeepsInv(posts, env, Start(posts), events);
        StartIsBalanced(posts);
        RunKeepsBalance(posts, env, Start(posts), events);
        BalancedIsAccounted(posts, Run(env, Start(posts), events));
      }
    } else if env.removalMayFail {
      LostRemovalRecounts(env);
    } else if env.ackMayBeLost {
      LostAckRecounts(env);
    } else {
      OverlapRecounts(env);
    }
  }

  lemma StartIsBalanced(posts: map<int, int>)
    ensures OneFlush(Start(posts)) && Balanced(Start(posts))
  {
  }
}
