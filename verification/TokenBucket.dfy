/** The token bucket of app/services/rate_limit_service.py, one key, calls taken one at a time.

    Levels are exact integers in units of 1/W token, where W is the refill window in
    milliseconds: one call costs W units, one millisecond refills maxCalls units and the
    bucket holds maxCalls * W units.  Redis keeps the level, the caller's timestamp and the
    expiry time of the key. */
module TokenBucket {
  import opened Prelude

  datatype Limit = Limit(maxCalls: int, window: int) {
    /** refill_window_ms */
    function W(): (w: int)
      ensures w >= 1000
    {
      Max(window, 1) * 1000
    }

    function Cap(): int { maxCalls * W() }

    /** ttl_ms */
    function Ttl(): int { Max(W() * 2, 1000) }

    /** The negation of the kill-switch test. */
    predicate Live() { maxCalls > 0 }
  }

  /** The Redis hash of one key together with the moment PEXPIRE makes it vanish. */
  datatype Row = Row(tokens: int, ts: int, expiresAt: int)

  type Stored = Option<Row>

  /** One committed attempt: `now` was captured before the retry loop, HMGET ran at
      `readAt` and EXEC at `execAt`. */
  datatype Attempt = Attempt(now: int, readAt: int, execAt: int)

  datatype Verdict = Verdict(allowed: bool, retryAfterMs: int)

  /** What HMGET returns at time `at`: an expired key is a missing key. */
  function Seen(stored: Stored, at: int): Stored {
    if stored.Some? && at < stored.value.expiresAt then stored else None
  }

  /** The level after lazy refill and capping. */
  function Refilled(limit: Limit, seen: Stored, now: int): int {
    match seen
    case None => limit.Cap()
    case Some(row) => Min(limit.Cap(), row.tokens + limit.maxCalls * Max(0, now - row.ts))
  }

  /** The answer to a call that finds `level` units in the bucket. */
  function Decide(limit: Limit, level: int): Verdict
    requires limit.Live()
  {
    if level >= limit.W() then Verdict(true, 0)
    else Verdict(false, CeilDiv(limit.W() - level, limit.maxCalls))
  }

  function Charge(limit: Limit, level: int): int {
    if level >= limit.W() then level - limit.W() else level
  }

  /** What the caller is told, in whole seconds. */
  function RetrySeconds(retryAfterMs: int): int {
    Max(1, CeilDiv(retryAfterMs, 1000))
  }

  function CommitRow(limit: Limit, stored: Stored, a: Attempt): Row {
    Row(Charge(limit, Refilled(limit, Seen(stored, a.readAt), a.now)), a.now, a.execAt + limit.Ttl())
  }

  function CommitVerdict(limit: Limit, stored: Stored, a: Attempt): Verdict
    requires limit.Live()
  {
    Decide(limit, Refilled(limit, Seen(stored, a.readAt), a.now))
  }

  /** The key after the attempts of `log`, taken one at a time in EXEC order. */
  function Replay(limit: Limit, start: Stored, log: seq<Attempt>): Stored {
    if log == [] then start
    else Some(CommitRow(limit, Replay(limit, start, log[..|log| - 1]), log[|log| - 1]))
  }

  function VerdictAt(limit: Limit, start: Stored, log: seq<Attempt>, i: nat): Verdict
    requires limit.Live() && i < |log|
  {
    CommitVerdict(limit, Replay(limit, start, log[..i]), log[i])
  }

  // ----- which keys and which logs can occur

  /** Everything the code ever writes: a level inside the bucket, and an expiry no sooner
      than two windows after the timestamp (EXEC runs no earlier than the capture). */
  ghost predicate WellStored(limit: Limit, stored: Stored) {
    stored.Some? ==>
      && 0 <= stored.value.tokens <= limit.Cap()
      && stored.value.expiresAt >= stored.value.ts + 2 * limit.W()
  }

  /** Every call captures its time, then reads, then commits. */
  ghost predicate WellTimed(log: seq<Attempt>) {
    forall i :: 0 <= i < |log| ==> log[i].now <= log[i].readAt <= log[i].execAt
  }

  /** Clock readings in the order the protocol takes them. */
  ghost predicate Possible(log: seq<Attempt>) {
    && WellTimed(log)
    && (forall i, j :: 0 <= i < j < |log| ==> log[i].execAt <= log[j].readAt)
  }

  /** No call reads the key more than `lag` ms after capturing its timestamp. */
  ghost predicate LagAtMost(log: seq<Attempt>, lag: int) {
    forall i :: 0 <= i < |log| ==> log[i].readAt - log[i].now <= lag
  }

  ghost predicate Nondecreasing(log: seq<Attempt>) {
    forall i, j :: 0 <= i < j < |log| ==> log[i].now <= log[j].now
  }

  /** A run whose callers commit in the order in which they captured their timestamps. */
  ghost predicate InOrder(limit: Limit, log: seq<Attempt>) {
    Possible(log) && LagAtMost(log, limit.W()) && Nondecreasing(log)
  }

  /** `a` may follow `last`. */
  ghost predicate Follows(last: Attempt, a: Attempt) {
    last.now <= a.now && last.execAt <= a.readAt
  }

  lemma SliceStaysInOrder(limit: Limit, log: seq<Attempt>, i: nat, j: nat)
    requires i <= j <= |log| && InOrder(limit, log)
    ensures InOrder(limit, log[i..j])
  {
  }

  lemma PairFollows(limit: Limit, log: seq<Attempt>, i: nat, j: nat)
    requires InOrder(limit, log) && i < j < |log|
    ensures Follows(log[i], log[j])
  {
  }

  lemma MemberIsTimely(limit: Limit, log: seq<Attempt>, i: nat)
    requires InOrder(limit, log) && i < |log|
    ensures log[i].now <= log[i].readAt <= log[i].execAt && log[i].readAt - log[i].now <= limit.W()
  {
  }

  lemma AppendStaysInOrder(limit: Limit, log: seq<Attempt>, a: Attempt)
    requires InOrder(limit, log) && a.now <= a.readAt <= a.execAt && a.readAt - a.now <= limit.W()
    requires log != [] ==> Follows(log[|log| - 1], a)
    ensures InOrder(limit, log + [a])
  {
  }

  // ----- accounting

  function Tokens(limit: Limit, stored: Stored): int {
    if stored.Some? then stored.value.tokens else limit.Cap()
  }

  /** The time by which this commit moves the stored timestamp forward, if it does. */
  function Gain(stored: Stored, now: int): nat {
    if stored.Some? then Max(0, now - stored.value.ts) else 0
  }

  function Calls(limit: Limit, stored: Stored, a: Attempt): nat
    requires limit.Live()
  {
    if CommitVerdict(limit, stored, a).allowed then 1 else 0
  }

  /** Refill lost to the cap by one commit. */
  function Spill(limit: Limit, stored: Stored, a: Attempt): nat {
    Max(0, Tokens(limit, stored) + limit.maxCalls * Gain(stored, a.now) - limit.Cap())
  }

  /** The number of calls let through. */
  function Spent(limit: Limit, start: Stored, log: seq<Attempt>): nat
    requires limit.Live()
  {
    if log == [] then 0
    else
      Spent(limit, start, log[..|log| - 1])
      + Calls(limit, Replay(limit, start, log[..|log| - 1]), log[|log| - 1])
  }

  /** The sum of the positive increments of the stored timestamp. */
  function Gained(limit: Limit, start: Stored, log: seq<Attempt>): nat {
    if log == [] then 0
    else
      Gained(limit, start, log[..|log| - 1])
      + Gain(Replay(limit, start, log[..|log| - 1]), log[|log| - 1].now)
  }

  function Spilled(limit: Limit, start: Stored, log: seq<Attempt>): nat {
    if log == [] then 0
    else
      Spilled(limit, start, log[..|log| - 1])
      + Spill(limit, Replay(limit, start, log[..|log| - 1]), log[|log| - 1])
  }

  /** The advertised rate: calls let through plus calls left never exceed the opening
      level plus the refill of the time gained. */
  ghost predicate RateBound(limit: Limit, start: Stored, log: seq<Attempt>)
    requires limit.Live()
  {
    limit.W() * Spent(limit, start, log) + Tokens(limit, Replay(limit, start, log))
    <= Tokens(limit, start) + limit.maxCalls * Gained(limit, start, log)
  }

  // ----- one commit

  lemma CapHoldsOneCall(limit: Limit)
    requires limit.Live()
    ensures limit.Cap() >= limit.W()
  {
    Monotone(limit.W(), 1, limit.maxCalls);
  }

  /** Whatever the interleaving, the code only writes well-formed rows. */
  lemma CommitIsWellStored(limit: Limit, stored: Stored, a: Attempt)
    requires limit.Live() && WellStored(limit, stored) && a.now <= a.execAt
    ensures WellStored(limit, Some(CommitRow(limit, stored, a)))
  {
    CapHoldsOneCall(limit);
    Monotone(limit.maxCalls, 0, Gain(stored, a.now));
  }

  lemma FreshKeyIsWellStored(limit: Limit)
    ensures WellStored(limit, None)
  {
  }

  lemma {:induction false} ReplayIsWellStored(limit: Limit, start: Stored, log: seq<Attempt>)
    requires limit.Live() && WellStored(limit, start)
    requires WellTimed(log)
    ensures WellStored(limit, Replay(limit, start, log))
  {
    if log != [] {
      ReplayIsWellStored(limit, start, log[..|log| - 1]);
      CommitIsWellStored(limit, Replay(limit, start, log[..|log| - 1]), log[|log| - 1]);
    }
  }

  lemma ReplayTimestamp(limit: Limit, start: Stored, log: seq<Attempt>)
    requires log != []
    ensures Replay(limit, start, log).Some? && Replay(limit, start, log).value.ts == log[|log| - 1].now
  {
  }

  /** A caller at most one window late cannot tell an expired key from a live one: the key
      outlives its timestamp by two windows, and one window refills any level to the cap. */
  lemma ExpiryIsInvisible(limit: Limit, stored: Stored, a: Attempt)
    requires limit.Live() && WellStored(limit, stored)
    requires a.readAt - a.now <= limit.W()
    ensures Refilled(limit, Seen(stored, a.readAt), a.now) == Refilled(limit, stored, a.now)
  {
    if stored.Some? && a.readAt >= stored.value.expiresAt {
      Monotone(limit.maxCalls, limit.W(), a.now - stored.value.ts);
    }
  }

  /** Conservation across one commit. */
  lemma CommitConserves(limit: Limit, stored: Stored, a: Attempt)
    requires limit.Live() && WellStored(limit, stored)
    requires a.readAt - a.now <= limit.W()
    ensures limit.W() * Calls(limit, stored, a) + CommitRow(limit, stored, a).tokens + Spill(limit, stored, a)
         == Tokens(limit, stored) + limit.maxCalls * Gain(stored, a.now)
  {
    ExpiryIsInvisible(limit, stored, a);
  }

  /** Nothing is created or lost: spending, the remaining level and the spilled refill add
      up to the opening level plus the refill of the positive time increments. */
  lemma {:induction false} Conservation(limit: Limit, start: Stored, log: seq<Attempt>)
    requires limit.Live() && WellStored(limit, start)
    requires Possible(log) && LagAtMost(log, limit.W())
    ensures limit.W() * Spent(limit, start, log) + Tokens(limit, Replay(limit, start, log)) + Spilled(limit, start, log)
         == Tokens(limit, start) + limit.maxCalls * Gained(limit, start, log)
  {
    hide Refilled, Limit.Cap, Limit.W;
    if log != [] {
      var prefix, a := log[..|log| - 1], log[|log| - 1];
      var before := Replay(limit, start, prefix);
      Conservation(limit, start, prefix);
      ReplayIsWellStored(limit, start, prefix);
      CommitConserves(limit, before, a);
      Distribute(limit.maxCalls, Gained(limit, start, prefix), Gain(before, a.now));
      Distribute(limit.W(), Spent(limit, start, prefix), Calls(limit, before, a));
    }
  }

  // ----- the exact condition on lateness

  ghost predicate BoundedForLag(limit: Limit, lag: int)
    requires limit.Live()
  {
    forall log :: Possible(log) && LagAtMost(log, lag) ==> RateBound(limit, None, log)
  }

  function Repeat(a: Attempt, k: nat): seq<Attempt> {
    seq(k, _ => a)
  }

  /** k calls at time 0. */
  function Burst(k: nat): seq<Attempt> {
    Repeat(Attempt(0, 0, 0), k)
  }

  /** A full bucket, or a key that has expired, lets a burst through and is empty after
      maxCalls of them. */
  lemma {:induction false} BurstDrains(limit: Limit, start: Stored, a: Attempt, k: nat)
    requires limit.Live() && 0 < k <= limit.maxCalls
    requires Seen(start, a.readAt).None? && a.readAt < a.execAt + limit.Ttl()
    ensures Replay(limit, start, Repeat(a, k)) == Some(Row(limit.Cap() - limit.W() * k, a.now, a.execAt + limit.Ttl()))
    ensures Spent(limit, start, Repeat(a, k)) == k && Gained(limit, start, Repeat(a, k)) == Gain(start, a.now)
  {
    var before := Replay(limit, start, Repeat(a, k - 1));
    CapHoldsOneCall(limit);
    assert Repeat(a, k)[..k - 1] == Repeat(a, k - 1);
    if k > 1 {
      BurstDrains(limit, start, a, k - 1);
    } else {
      assert Repeat(a, 0) == [];
    }
    BurstStep(limit, before, a, k);
  }

  lemma BurstStep(limit: Limit, before: Stored, a: Attempt, k: nat)
    requires limit.Live() && 0 < k <= limit.maxCalls && a.readAt < a.execAt + limit.Ttl()
    requires if k == 1 then Seen(before, a.readAt).None?
             else before == Some(Row(limit.Cap() - limit.W() * (k - 1), a.now, a.execAt + limit.Ttl()))
    ensures CommitRow(limit, before, a) == Row(limit.Cap() - limit.W() * k, a.now, a.execAt + limit.Ttl())
    ensures Calls(limit, before, a) == 1
  {
    Monotone(limit.W(), k, limit.maxCalls);
    Distribute(limit.W(), k - 1, 1);
    Monotone(limit.W(), 0, k - 1);
  }

  /** A caller one millisecond later than the window: drains the bucket at time 0, then
      commits with a timestamp just short of W after the key has expired at 2 W. */
  function LateLog(limit: Limit): seq<Attempt>
    requires limit.Live()
  {
    Burst(limit.maxCalls) + [Attempt(limit.W() - 1, 2 * limit.W(), 2 * limit.W())]
  }

  /** A call on an expired key finds the bucket full. */
  lemma CallOnExpiredKey(limit: Limit, stored: Stored, a: Attempt)
    requires limit.Live() && Seen(stored, a.readAt).None?
    ensures Calls(limit, stored, a) == 1 && CommitRow(limit, stored, a).tokens == limit.Cap() - limit.W()
  {
    CapHoldsOneCall(limit);
  }

  lemma OneCallTooMany(w: int, m: int, cap: int)
    requires m > 0 && cap == m * w
    ensures w * (m + 1) + (cap - w) > cap + m * (w - 1)
  {
    assert w * (m + 1) == cap + w && m * (w - 1) == cap - m;
  }

  lemma LateLogIsPossible(limit: Limit)
    requires limit.Live()
    ensures Possible(LateLog(limit)) && LagAtMost(LateLog(limit), limit.W() + 1)
  {
  }

  lemma LateCallerBreaksTheBound(limit: Limit)
    requires limit.Live()
    ensures Possible(LateLog(limit)) && LagAtMost(LateLog(limit), limit.W() + 1)
    ensures !RateBound(limit, None, LateLog(limit))
  {
    hide Possible, LagAtMost, Replay, Spent, CommitRow, CommitVerdict, Calls, Limit.W, Limit.Cap;
    var log, m, late := LateLog(limit), limit.maxCalls, Attempt(limit.W() - 1, 2 * limit.W(), 2 * limit.W());
    var drained := Replay(limit, None, Burst(m));
    assert log[..|log| - 1] == Burst(m) && log[|log| - 1] == late;
    LateLogIsPossible(limit);
    BurstDrains(limit, None, Attempt(0, 0, 0), m);
    TtlIsTwoWindows(limit);
    CallOnExpiredKey(limit, drained, late);
    LastCall(limit, None, log);
    CapIsWholeCalls(limit);
    OneCallTooMany(limit.W(), m, limit.Cap());
  }

  lemma TtlIsTwoWindows(limit: Limit)
    ensures limit.Ttl() == 2 * limit.W() && limit.W() >= 1000
  {
  }

  lemma WindowInMilliseconds(limit: Limit)
    ensures limit.W() == if limit.window >= 1 then 1000 * limit.window else 1000
  {
  }

  lemma CapIsWholeCalls(limit: Limit)
    ensures limit.Cap() == limit.maxCalls * limit.W()
  {
  }

  /** From a fresh key the advertised rate holds in every run exactly when no caller
      reads the key more than one refill window after capturing its timestamp. */
  lemma RateBoundIffLagWithinWindow(limit: Limit, lag: int)
    requires limit.Live()
    ensures BoundedForLag(limit, lag) <==> lag <= limit.W()
  {
    if lag <= limit.W() {
      forall log | Possible(log) && LagAtMost(log, lag)
        ensures RateBound(limit, None, log)
      {
        Conservation(limit, None, log);
      }
    } else {
      LateCallerBreaksTheBound(limit);
    }
  }

  // ----- the burst bound on an interval

  lemma {:induction false} ReplayAppends(limit: Limit, start: Stored, a: seq<Attempt>, b: seq<Attempt>)
    requires limit.Live()
    ensures Replay(limit, start, a + b) == Replay(limit, Replay(limit, start, a), b)
    ensures Spent(limit, start, a + b) == Spent(limit, start, a) + Spent(limit, Replay(limit, start, a), b)
  {
    if b == [] {
      assert a + b == a;
    } else {
      assert (a + b)[..|a + b| - 1] == a + b[..|b| - 1];
      ReplayAppends(limit, start, a, b[..|b| - 1]);
    }
  }

  lemma FirstCallBound(limit: Limit, at: Stored, a: Attempt)
    requires limit.Live()
    ensures limit.W() * Calls(limit, at, a) + CommitRow(limit, at, a).tokens <= limit.Cap()
  {
  }

  lemma EmptyRun(limit: Limit, start: Stored)
    requires limit.Live()
    ensures Replay(limit, start, []) == start && Spent(limit, start, []) == 0
  {
  }

  lemma LastCall(limit: Limit, start: Stored, log: seq<Attempt>)
    requires limit.Live() && log != []
    ensures var before, a := Replay(limit, start, log[..|log| - 1]), log[|log| - 1];
            && Replay(limit, start, log) == Some(CommitRow(limit, before, a))
            && Spent(limit, start, log) == Spent(limit, start, log[..|log| - 1]) + Calls(limit, before, a)
            && Tokens(limit, Replay(limit, start, log)) == CommitRow(limit, before, a).tokens
  {
  }

  lemma AddBounds(w: int, spent: int, calls: int, m: int, passed: int, gain: int, before: int, after: int, cap: int)
    requires w * spent + before <= cap + m * passed
    requires w * calls + after <= before + m * gain
    ensures w * (spent + calls) + after <= cap + m * (passed + gain)
  {
    Distribute(w, spent, calls);
    Distribute(m, passed, gain);
  }

  /** Calls in order, from any stored key: the bucket admits a full burst plus the refill of
      the time that passes between the first and the last of them. */
  lemma {:induction false} BurstBound(limit: Limit, start: Stored, log: seq<Attempt>)
    requires limit.Live() && WellStored(limit, start) && log != []
    requires InOrder(limit, log)
    ensures limit.W() * Spent(limit, start, log) + Tokens(limit, Replay(limit, start, log))
         <= limit.Cap() + limit.maxCalls * (log[|log| - 1].now - log[0].now)
  {
    hide Limit.Cap, Limit.W, CommitRow, Calls, Replay, Spent, WellTimed, LagAtMost, Nondecreasing;
    var prefix, a := log[..|log| - 1], log[|log| - 1];
    var before := Replay(limit, start, prefix);
    MemberIsTimely(limit, log, |log| - 1);
    LastCall(limit, start, log);
    if prefix == [] {
      EmptyRun(limit, start);
      assert prefix == [];
      FirstCallBound(limit, start, a);
    } else {
      SliceStaysInOrder(limit, log, 0, |log| - 1);
      PairFollows(limit, log, |log| - 2, |log| - 1);
      BurstBound(limit, start, prefix);
      ReplayIsWellStored(limit, start, prefix);
      CommitConserves(limit, before, a);
      ReplayTimestamp(limit, start, prefix);
      var passed, gain := prefix[|prefix| - 1].now - log[0].now, a.now - prefix[|prefix| - 1].now;
      AddBounds(limit.W(), Spent(limit, start, prefix), Calls(limit, before, a), limit.maxCalls, passed, gain,
                Tokens(limit, before), CommitRow(limit, before, a).tokens, limit.Cap());
    }
  }

  /** The number of calls let through from the i-th up to the j-th of a run. */
  function SpentBetween(limit: Limit, start: Stored, log: seq<Attempt>, i: nat, j: nat): int
    requires limit.Live() && i <= j <= |log|
  {
    Spent(limit, start, log[..j]) - Spent(limit, start, log[..i])
  }

  lemma SpentBetweenIsSpentAfter(limit: Limit, start: Stored, log: seq<Attempt>, i: nat, j: nat)
    requires limit.Live() && i <= j <= |log|
    ensures SpentBetween(limit, start, log, i, j) == Spent(limit, Replay(limit, start, log[..i]), log[i..j])
  {
    assert log[..j] == log[..i] + log[i..j];
    ReplayAppends(limit, start, log[..i], log[i..j]);
  }

  /** With commit times in order, any window of the run that lasts d milliseconds lets
      through at most maxCalls + maxCalls * d / W calls. */
  lemma IntervalBound(limit: Limit, start: Stored, log: seq<Attempt>, i: nat, j: nat)
    requires limit.Live() && WellStored(limit, start) && i < j <= |log|
    requires InOrder(limit, log)
    ensures limit.W() * SpentBetween(limit, start, log, i, j)
         <= limit.Cap() + limit.maxCalls * (log[j - 1].now - log[i].now)
    ensures limit.window >= 1 ==>
              1000 * limit.window * SpentBetween(limit, start, log, i, j)
              <= limit.maxCalls * (1000 * limit.window) + limit.maxCalls * (log[j - 1].now - log[i].now)
  {
    WindowInMilliseconds(limit);
    CapIsWholeCalls(limit);
    hide WellTimed, LagAtMost, Nondecreasing, CommitVerdict, CommitRow, Limit.W, Limit.Cap, SpentBetween;
    var at, window := Replay(limit, start, log[..i]), log[i..j];
    SpentBetweenIsSpentAfter(limit, start, log, i, j);
    SliceStaysInOrder(limit, log, 0, i);
    ReplayIsWellStored(limit, start, log[..i]);
    SliceStaysInOrder(limit, log, i, j);
    var d := log[j - 1].now - log[i].now;
    assert limit.W() * Spent(limit, at, window) <= limit.Cap() + limit.maxCalls * d by {
      BurstBound(limit, at, window);
      assert Tokens(limit, Replay(limit, at, window)) >= 0 by { ReplayIsWellStored(limit, at, window); }
      assert window[|window| - 1].now - window[0].now == d;
    }
  }

  // ----- lazy refill and key expiry against an ideal bucket

  /** A bucket that really adds maxCalls units every millisecond and is never forgotten. */
  function EagerRefill(limit: Limit, level: int, ms: nat): int {
    if ms == 0 then level
    else Min(limit.Cap(), EagerRefill(limit, level, ms - 1) + limit.maxCalls)
  }

  lemma {:induction false} EagerRefillIsLazyRefill(limit: Limit, level: int, ms: nat)
    requires limit.Live() && level <= limit.Cap()
    ensures EagerRefill(limit, level, ms) == Min(limit.Cap(), level + limit.maxCalls * ms)
  {
    if ms > 0 {
      EagerRefillIsLazyRefill(limit, level, ms - 1);
      Distribute(limit.maxCalls, ms - 1, 1);
    }
  }

  /** The level the ideal bucket shows to the i-th call, starting full. */
  function EagerLevel(limit: Limit, log: seq<Attempt>, i: nat): int
    requires Nondecreasing(log) && i < |log|
  {
    if i == 0 then limit.Cap()
    else EagerRefill(limit, Charge(limit, EagerLevel(limit, log, i - 1)), log[i].now - log[i - 1].now)
  }

  /** The bucket refilled only when touched, in a key that expires, answers every call of
      every run exactly as the ideal one does. */
  lemma {:induction false} LazyEqualsEager(limit: Limit, log: seq<Attempt>, i: nat)
    requires limit.Live() && i < |log|
    requires InOrder(limit, log)
    ensures VerdictAt(limit, None, log, i) == Decide(limit, EagerLevel(limit, log, i))
    ensures Replay(limit, None, log[..i + 1]).value.tokens == Charge(limit, EagerLevel(limit, log, i))
  {
    hide Limit.Cap, Limit.W, WellTimed, LagAtMost, Charge, WellStored;
    MemberIsTimely(limit, log, i);
    assert log[..i + 1][..i] == log[..i];
    if i > 0 {
      var before := Replay(limit, None, log[..i]);
      LazyEqualsEager(limit, log, i - 1);
      assert log[..i - 1 + 1] == log[..i];
      SliceStaysInOrder(limit, log, 0, i);
      PairFollows(limit, log, i - 1, i);
      FreshKeyIsWellStored(limit);
      ReplayTimestamp(limit, None, log[..i]);
      ReplayIsWellStored(limit, None, log[..i]);
      LazyStep(limit, before, log[i], EagerLevel(limit, log, i - 1), log[i - 1].now);
    }
  }

  lemma LazyStep(limit: Limit, before: Stored, a: Attempt, level: int, ts: int)
    requires limit.Live() && WellStored(limit, before) && a.readAt - a.now <= limit.W()
    requires before.Some? && before.value.ts == ts <= a.now && before.value.tokens == Charge(limit, level)
    ensures Refilled(limit, Seen(before, a.readAt), a.now) == EagerRefill(limit, Charge(limit, level), a.now - ts)
  {
    ExpiryIsInvisible(limit, before, a);
    EagerRefillIsLazyRefill(limit, before.value.tokens, a.now - ts);
  }

  // ----- denied calls

  /** No call at `t` or later tells the two keys apart. */
  ghost predicate SameFrom(limit: Limit, x: Stored, y: Stored, t: int) {
    forall now :: now >= t ==> Refilled(limit, x, now) == Refilled(limit, y, now)
  }

  lemma SameKeyTwice(limit: Limit, x: Stored, t: int)
    ensures SameFrom(limit, x, x, t)
  {
  }

  lemma SameFromChains(limit: Limit, x: Stored, y: Stored, z: Stored, s: int, t: int)
    requires SameFrom(limit, y, x, s) && SameFrom(limit, y, z, s) && s <= t
    ensures SameFrom(limit, x, z, t)
  {
    forall now | now >= t
      ensures Refilled(limit, x, now) == Refilled(limit, z, now)
    {
      assert Refilled(limit, y, now) == Refilled(limit, x, now);
    }
  }

  /** A denied call only rewrites the same bucket at a later timestamp. */
  lemma DeniedCallIsInvisible(limit: Limit, stored: Stored, a: Attempt)
    requires limit.Live() && WellStored(limit, stored) && a.readAt - a.now <= limit.W()
    requires stored.Some? ==> stored.value.ts <= a.now
    ensures !CommitVerdict(limit, stored, a).allowed ==>
              SameFrom(limit, stored, Some(CommitRow(limit, stored, a)), a.now)
  {
    if !CommitVerdict(limit, stored, a).allowed {
      CapHoldsOneCall(limit);
      ExpiryIsInvisible(limit, stored, a);
      forall now | now >= a.now
        ensures Refilled(limit, stored, now) == Refilled(limit, Some(CommitRow(limit, stored, a)), now)
      {
        Distribute(limit.maxCalls, a.now - stored.value.ts, now - a.now);
      }
    }
  }

  /** The run without its denied calls. */
  function Granted(limit: Limit, start: Stored, log: seq<Attempt>): (r: seq<Attempt>)
    requires limit.Live()
    ensures |r| <= |log|
  {
    if log == [] then []
    else
      Granted(limit, start, log[..|log| - 1])
      + if VerdictAt(limit, start, log, |log| - 1).allowed then [log[|log| - 1]] else []
  }

  /** `log` ends no later than `last`. */
  ghost predicate EndsBy(log: seq<Attempt>, last: Attempt) {
    log != [] ==> log[|log| - 1].now <= last.now && log[|log| - 1].execAt <= last.execAt
  }

  lemma {:induction false} GrantedKeepsOrder(limit: Limit, start: Stored, log: seq<Attempt>)
    requires limit.Live() && InOrder(limit, log)
    ensures InOrder(limit, Granted(limit, start, log))
    ensures log != [] ==> EndsBy(Granted(limit, start, log), log[|log| - 1])
  {
    hide Possible, LagAtMost, Nondecreasing, CommitVerdict, Limit.W;
    if log == [] {
      SliceStaysInOrder(limit, log, 0, 0);
    } else {
      var prefix, a := log[..|log| - 1], log[|log| - 1];
      var thin := Granted(limit, start, prefix);
      SliceStaysInOrder(limit, log, 0, |log| - 1);
      MemberIsTimely(limit, log, |log| - 1);
      GrantedKeepsOrder(limit, start, prefix);
      if prefix != [] {
        PairFollows(limit, log, |log| - 2, |log| - 1);
      }
      AppendStaysInOrder(limit, thin, a);
      assert Granted(limit, start, log) == thin || Granted(limit, start, log) == thin + [a];
    }
  }

  /** Two keys no call can tell apart answer the next call alike. */
  lemma SameKeysSameVerdict(limit: Limit, x: Stored, y: Stored, a: Attempt)
    requires limit.Live() && WellStored(limit, x) && WellStored(limit, y)
    requires SameFrom(limit, x, y, a.now) && a.readAt - a.now <= limit.W()
    ensures CommitVerdict(limit, x, a) == CommitVerdict(limit, y, a)
    ensures CommitRow(limit, x, a) == CommitRow(limit, y, a)
  {
    ExpiryIsInvisible(limit, x, a);
    ExpiryIsInvisible(limit, y, a);
  }

  /** Striking the denied calls out of a run leaves a key no later call can tell apart from
      the original. */
  lemma {:induction false} GrantedLeavesTheSameKey(limit: Limit, log: seq<Attempt>, t: int)
    requires limit.Live() && InOrder(limit, log)
    requires log != [] ==> log[|log| - 1].now <= t
    ensures SameFrom(limit, Replay(limit, None, log), Replay(limit, None, Granted(limit, None, log)), t)
  {
    hide SameFrom, WellTimed, LagAtMost, Nondecreasing, WellStored, Limit.W, Limit.Cap, Refilled;
    if log == [] {
      SameKeyTwice(limit, None, t);
    } else {
      var prefix, a := log[..|log| - 1], log[|log| - 1];
      MemberIsTimely(limit, log, |log| - 1);
      if prefix != [] {
        PairFollows(limit, log, |log| - 2, |log| - 1);
      }
      var x, thin := Replay(limit, None, prefix), Granted(limit, None, prefix);
      var y := Replay(limit, None, thin);
      SliceStaysInOrder(limit, log, 0, |log| - 1);
      GrantedLeavesTheSameKey(limit, prefix, a.now);
      ReplayIsWellStored(limit, None, prefix);
      assert Replay(limit, None, log) == Some(CommitRow(limit, x, a));
      if CommitVerdict(limit, x, a).allowed {
        GrantedKeepsOrder(limit, None, prefix);
        ReplayIsWellStored(limit, None, thin);
        SameKeysSameVerdict(limit, x, y, a);
        assert Granted(limit, None, log) == thin + [a] && (thin + [a])[..|thin|] == thin;
        assert Replay(limit, None, thin + [a]) == Some(CommitRow(limit, y, a));
        SameKeyTwice(limit, Some(CommitRow(limit, x, a)), t);
      } else {
        DeniedCallIsInvisible(limit, x, a);
        assert Granted(limit, None, log) == thin;
        SameFromChains(limit, Replay(limit, None, log), x, y, a.now, t);
      }
    }
  }

  /** Any number of denied calls changes no later decision. */
  lemma DeniedCallsChangeNothing(limit: Limit, log: seq<Attempt>, next: Attempt)
    requires limit.Live() && InOrder(limit, log + [next])
    ensures CommitVerdict(limit, Replay(limit, None, log), next)
         == CommitVerdict(limit, Replay(limit, None, Granted(limit, None, log)), next)
  {
    var whole := log + [next];
    SliceStaysInOrder(limit, whole, 0, |log|);
    assert whole[..|log|] == log && whole[|log|] == next;
    assert log != [] ==> whole[|log| - 1] == log[|log| - 1];
    GrantedLeavesTheSameKey(limit, log, next.now);
    GrantedKeepsOrder(limit, None, log);
    ReplayIsWellStored(limit, None, log);
    ReplayIsWellStored(limit, None, Granted(limit, None, log));
    SameKeysSameVerdict(limit, Replay(limit, None, log), Replay(limit, None, Granted(limit, None, log)), next);
  }

  // ----- retry-after

  /** A single denial: the next call is let through exactly from the quoted moment on. */
  lemma WaitIsExact(limit: Limit, level: int, elapsed: nat)
    requires limit.Live() && level < limit.W()
    ensures Min(limit.Cap(), level + limit.maxCalls * elapsed) >= limit.W()
            <==> elapsed >= Decide(limit, level).retryAfterMs
  {
    CeilDivIsLeast(limit.W() - level, limit.maxCalls, elapsed);
    CapHoldsOneCall(limit);
  }

  /** Polls that all come before the quoted moment leave the denied key as it was. */
  lemma {:induction false} EarlyPollsChangeNothing(limit: Limit, row: Row, polls: seq<Attempt>, wait: nat, t: int)
    requires limit.Live() && WellStored(limit, Some(row)) && row.tokens < limit.W()
    requires wait == Decide(limit, row.tokens).retryAfterMs
    requires InOrder(limit, polls)
    requires forall j :: 0 <= j < |polls| ==> row.ts <= polls[j].now < row.ts + wait
    requires row.ts <= t && (polls != [] ==> polls[|polls| - 1].now <= t)
    ensures SameFrom(limit, Some(row), Replay(limit, Some(row), polls), t)
  {
    hide WellTimed, Limit.Cap;
    if polls != [] {
      var prefix, a := polls[..|polls| - 1], polls[|polls| - 1];
      var before := Replay(limit, Some(row), prefix);
      SliceStaysInOrder(limit, polls, 0, |polls| - 1);
      EarlyPollsChangeNothing(limit, row, prefix, wait, a.now);
      ReplayIsWellStored(limit, Some(row), prefix);
      SameKeysSameVerdict(limit, Some(row), before, a);
      ExpiryIsInvisible(limit, Some(row), a);
      WaitIsExact(limit, row.tokens, a.now - row.ts);
      DeniedCallIsInvisible(limit, before, a);
    }
  }

  /** The wait quoted with a denial is exact.  However many polls come before it, a further
      call is let through if and only if it captures its time at that moment or later. */
  lemma RetryAfterIsExact(limit: Limit, stored: Stored, denied: Attempt, polls: seq<Attempt>, next: Attempt)
    requires limit.Live()
    ensures WellStored(limit, stored) && InOrder(limit, [denied] + polls + [next])
            && !CommitVerdict(limit, stored, denied).allowed
            && (forall j :: 0 <= j < |polls| ==>
                polls[j].now < denied.now + CommitVerdict(limit, stored, denied).retryAfterMs) ==>
              (CommitVerdict(limit, Replay(limit, stored, [denied] + polls), next).allowed
               <==> next.now >= denied.now + CommitVerdict(limit, stored, denied).retryAfterMs)
  {
    if WellStored(limit, stored) && InOrder(limit, [denied] + polls + [next])
       && !CommitVerdict(limit, stored, denied).allowed
       && (forall j :: 0 <= j < |polls| ==>
           polls[j].now < denied.now + CommitVerdict(limit, stored, denied).retryAfterMs) {
      hide InOrder;
      var row := CommitRow(limit, stored, denied);
      var after := Replay(limit, Some(row), polls);
      RetrySetting(limit, stored, denied, polls, next);
      EarlyPollsChangeNothing(limit, row, polls, CommitVerdict(limit, stored, denied).retryAfterMs, next.now);
      assert Replay(limit, stored, [denied] + polls) == after by {
        assert [denied][..0] == [];
        ReplayAppends(limit, stored, [denied], polls);
      }
      OrderedIsTimed(limit, polls);
      ReplayIsWellStored(limit, Some(row), polls);
      SameKeysSameVerdict(limit, Some(row), after, next);
      NextAfterDenial(limit, row, next);
    }
  }

  lemma OrderedIsTimed(limit: Limit, log: seq<Attempt>)
    requires InOrder(limit, log)
    ensures WellTimed(log)
  {
  }

  lemma NextAfterDenial(limit: Limit, row: Row, next: Attempt)
    requires limit.Live() && WellStored(limit, Some(row)) && row.tokens < limit.W()
    requires row.ts <= next.now && next.readAt - next.now <= limit.W()
    ensures CommitVerdict(limit, Some(row), next).allowed
            <==> next.now >= row.ts + Decide(limit, row.tokens).retryAfterMs
  {
    ExpiryIsInvisible(limit, Some(row), next);
    WaitIsExact(limit, row.tokens, next.now - row.ts);
  }

  /** Where a denial leaves the key, and the order of what follows it. */
  lemma RetrySetting(limit: Limit, stored: Stored, denied: Attempt, polls: seq<Attempt>, next: Attempt)
    requires limit.Live() && WellStored(limit, stored)
    requires InOrder(limit, [denied] + polls + [next])
    requires !CommitVerdict(limit, stored, denied).allowed
    ensures var row := CommitRow(limit, stored, denied);
            && WellStored(limit, Some(row)) && row.tokens < limit.W()
            && CommitVerdict(limit, stored, denied) == Decide(limit, row.tokens)
            && Decide(limit, row.tokens).retryAfterMs >= 0
    ensures InOrder(limit, polls) && next.readAt - next.now <= limit.W() && denied.now <= next.now
    ensures forall j :: 0 <= j < |polls| ==> denied.now <= polls[j].now <= next.now
  {
    var all := [denied] + polls + [next];
    assert all[0] == denied && all[|polls| + 1] == next && all[1..|polls| + 1] == polls;
    SliceStaysInOrder(limit, all, 1, |polls| + 1);
    assert forall j :: 0 <= j < |polls| ==> polls[j] == all[j + 1];
    CommitIsWellStored(limit, stored, denied);
    WaitIsNatural(limit, CommitRow(limit, stored, denied).tokens);
  }

  lemma WaitIsNatural(limit: Limit, level: int)
    requires limit.Live()
    ensures Decide(limit, level).retryAfterMs >= 0
  {
    if level < limit.W() {
      CeilDivIsLeast(limit.W() - level, limit.maxCalls, 0);
    }
  }

  /** Rounding up to whole seconds still suffices, is never zero, and never adds a second
      that was not needed. */
  lemma WholeSecondsSuffice(limit: Limit, level: int)
    requires limit.Live() && level >= 0
    ensures var v := Decide(limit, level);
            && v.retryAfterMs <= 1000 * RetrySeconds(v.retryAfterMs)
            && 1 <= RetrySeconds(v.retryAfterMs)
            && (RetrySeconds(v.retryAfterMs) > 1 ==> 1000 * (RetrySeconds(v.retryAfterMs) - 1) < v.retryAfterMs)
            && v.retryAfterMs <= limit.W()
            && (v.allowed <==> v.retryAfterMs == 0)
  {
    var v := Decide(limit, level);
    CeilDivIsLeast(v.retryAfterMs, 1000, CeilDiv(v.retryAfterMs, 1000));
    CeilDivIsLeast(v.retryAfterMs, 1000, CeilDiv(v.retryAfterMs, 1000) - 1);
    if !v.allowed {
      Monotone(limit.W(), 1, limit.maxCalls);
      CeilDivIsLeast(limit.W() - level, limit.maxCalls, limit.W());
      CeilDivIsLeast(limit.W() - level, limit.maxCalls, 0);
    }
  }

  // ----- the rate in calls and milliseconds

  /** The k-th call of a burst on a fresh key is let through. */
  lemma BurstIsLetThrough(limit: Limit, a: Attempt, k: nat)
    requires limit.Live() && k < limit.maxCalls && a.readAt < a.execAt + limit.Ttl()
    ensures CommitVerdict(limit, Replay(limit, None, Repeat(a, k)), a).allowed
  {
    hide Replay, Limit.W, Limit.Cap, CommitVerdict;
    BurstDrains(limit, None, a, k + 1);
    assert Repeat(a, k + 1)[..k] == Repeat(a, k);
    LastCall(limit, None, Repeat(a, k + 1));
    if k > 0 {
      BurstDrains(limit, None, a, k);
    } else {
      assert Repeat(a, 0) == [];
      EmptyRun(limit, None);
    }
  }

  /** After maxCalls calls at time t, all let through, a further call e milliseconds later is let
      through if and only if the refill of those milliseconds is a whole call, at the rate of
      maxCalls calls in `window` seconds (one second, if the window is zero or less); and a
      denied caller is quoted the least further wait after which it is. */
  lemma OneCallPerShareOfTheWindow(limit: Limit, t: int, e: nat, next: Attempt, d: int)
    requires limit.maxCalls > 0 && next.now == t + e <= next.readAt <= next.execAt
    requires next.readAt - next.now <= if limit.window >= 1 then 1000 * limit.window else 1000
    ensures var ms := if limit.window >= 1 then 1000 * limit.window else 1000;
            var log := Repeat(Attempt(t, t, t), limit.maxCalls) + [next];
            var verdict := VerdictAt(limit, None, log, limit.maxCalls);
            && (forall i: nat :: i < limit.maxCalls ==> VerdictAt(limit, None, log, i).allowed)
            && (verdict.allowed <==> limit.maxCalls * e >= ms)
            && (!verdict.allowed ==> (limit.maxCalls * (e + d) >= ms <==> d >= verdict.retryAfterMs))
  {
    var m, w, a := limit.maxCalls, limit.W(), Attempt(t, t, t);
    var log := Repeat(a, m) + [next];
    WindowInMilliseconds(limit);
    TtlIsTwoWindows(limit);
    hide Replay, Limit.W, CommitVerdict;
    forall i: nat | i < m ensures VerdictAt(limit, None, log, i).allowed {
      assert log[..i] == Repeat(a, i);
      BurstIsLetThrough(limit, a, i);
    }
    assert log[..m] == Repeat(a, m) && log[m] == next;
    BurstDrains(limit, None, a, m);
    CapIsWholeCalls(limit);
    AfterTheBurst(limit, Row(0, t, t + limit.Ttl()), e, next, d);
  }

  lemma AfterTheBurst(limit: Limit, row: Row, e: nat, next: Attempt, d: int)
    requires limit.Live() && row.tokens == 0 && row.expiresAt == row.ts + 2 * limit.W()
    requires next.now == row.ts + e && next.readAt - next.now <= limit.W()
    ensures var verdict := CommitVerdict(limit, Some(row), next);
            && (verdict.allowed <==> limit.maxCalls * e >= limit.W())
            && (!verdict.allowed ==> (limit.maxCalls * (e + d) >= limit.W() <==> d >= verdict.retryAfterMs))
  {
    hide Limit.W;
    var level := limit.maxCalls * e;
    assert level >= 0 by { Monotone(limit.maxCalls, 0, e); }
    CapHoldsOneCall(limit);
    assert WellStored(limit, Some(row)) by { Monotone(limit.maxCalls, 0, limit.W()); CapIsWholeCalls(limit); }
    ExpiryIsInvisible(limit, Some(row), next);
    hide Limit.Cap, Seen;
    Distribute(limit.maxCalls, e, d);
    CeilDivIsLeast(limit.W() - level, limit.maxCalls, d);
  }
}
