/** When the advertised rate holds on every interval of a run: the exact lateness of callers it
    tolerates, for every limit (app/services/rate_limit_service.py:30-65). */
module IntervalBounds {
  import opened Prelude
  import opened TokenBucket

  /** The captured times of the i-th up to the j-th call lie between lo and hi. */
  ghost predicate Within(log: seq<Attempt>, i: nat, j: nat, lo: int, hi: int) {
    i < j <= |log| && forall k :: i <= k < j ==> lo <= log[k].now <= hi
  }

  /** In every window of the run, if its captured times span d milliseconds, at most
      maxCalls + maxCalls * d / W calls are let through. */
  ghost predicate IntervalsBounded(limit: Limit, log: seq<Attempt>)
    requires limit.Live()
  {
    forall i: nat, j: nat, lo: int, hi: int :: Within(log, i, j, lo, hi) ==>
      limit.W() * SpentBetween(limit, None, log, i, j) <= limit.Cap() + limit.maxCalls * (hi - lo)
  }

  ghost predicate BoundedForLag(limit: Limit, lag: int)
    requires limit.Live()
  {
    forall log :: Possible(log) && LagAtMost(log, lag) ==> IntervalsBounded(limit, log)
  }

  ghost predicate BoundedInOrderForLag(limit: Limit, lag: int)
    requires limit.Live()
  {
    forall log :: Possible(log) && Nondecreasing(log) && LagAtMost(log, lag) ==> IntervalsBounded(limit, log)
  }

  lemma OrderedRunsAreBounded(limit: Limit, log: seq<Attempt>)
    requires limit.Live() && InOrder(limit, log)
    ensures IntervalsBounded(limit, log)
  {
    hide SpentBetween, InOrder, Limit.W, Limit.Cap;
    FreshKeyIsWellStored(limit);
    forall i: nat, j: nat, lo: int, hi: int | Within(log, i, j, lo, hi)
      ensures limit.W() * SpentBetween(limit, None, log, i, j) <= limit.Cap() + limit.maxCalls * (hi - lo)
    {
      IntervalBound(limit, None, log, i, j);
      Monotone(limit.maxCalls, log[j - 1].now - log[i].now, hi - lo);
    }
  }

  /** A run whose calls exceed the bound on the interval it spans. */
  lemma WholeRunBreaks(limit: Limit, log: seq<Attempt>, lo: int, hi: int)
    requires limit.Live() && Within(log, 0, |log|, lo, hi)
    requires limit.W() * Spent(limit, None, log) > limit.Cap() + limit.maxCalls * (hi - lo)
    ensures !IntervalsBounded(limit, log)
  {
    hide Limit.W, Limit.Cap, Spent;
    assert log[..|log|] == log && log[..0] == [];
    EmptyRun(limit, None);
    assert SpentBetween(limit, None, log, 0, |log|) == Spent(limit, None, log);
  }

  // ----- late callers in order

  /** The bucket is drained at time 0; when its key has expired, maxCalls callers that took
      their time just short of one window drain it again. */
  function TwoBursts(limit: Limit): seq<Attempt>
    requires limit.Live()
  {
    Burst(limit.maxCalls) + Repeat(Attempt(limit.W() - 1, 2 * limit.W(), 2 * limit.W()), limit.maxCalls)
  }

  lemma TwoBurstsAreInOrder(limit: Limit)
    requires limit.Live()
    ensures var log := TwoBursts(limit);
            && Possible(log) && Nondecreasing(log) && LagAtMost(log, limit.W() + 1)
            && Within(log, 0, |log|, 0, limit.W() - 1)
  {
  }

  lemma TwoBurstsSpend(limit: Limit)
    requires limit.Live()
    ensures Spent(limit, None, TwoBursts(limit)) == 2 * limit.maxCalls
  {
    hide Spent, Replay, Limit.Cap;
    var m, late := limit.maxCalls, Attempt(limit.W() - 1, 2 * limit.W(), 2 * limit.W());
    var drained := Replay(limit, None, Burst(m));
    BurstDrains(limit, None, Attempt(0, 0, 0), m);
    assert limit.Ttl() == 2 * limit.W();
    BurstDrains(limit, drained, late, m);
    ReplayAppends(limit, None, Burst(m), Repeat(late, m));
  }

  lemma TwoCapsExceed(w: int, m: int)
    requires m > 0
    ensures w * (2 * m) > m * w + m * (w - 1)
  {
  }

  lemma TwoBurstsBreakTheBound(limit: Limit)
    requires limit.Live()
    ensures Possible(TwoBursts(limit)) && Nondecreasing(TwoBursts(limit)) && LagAtMost(TwoBursts(limit), limit.W() + 1)
    ensures Spent(limit, None, TwoBursts(limit)) == 2 * limit.maxCalls
            && Within(TwoBursts(limit), 0, |TwoBursts(limit)|, 0, limit.W() - 1)
    ensures !IntervalsBounded(limit, TwoBursts(limit))
  {
    hide IntervalsBounded, TwoBursts, Spent, Possible, Nondecreasing, LagAtMost, Limit.W;
    TwoBurstsAreInOrder(limit);
    TwoBurstsSpend(limit);
    TwoCapsExceed(limit.W(), limit.maxCalls);
    WholeRunBreaks(limit, TwoBursts(limit), 0, limit.W() - 1);
  }

  /** Among runs whose callers commit in the order of their captured times, the interval bound
      holds exactly when no caller reads the key more than one window after capturing its
      time. */
  lemma InOrderBoundIffLagWithinWindow(limit: Limit, lag: int)
    requires limit.Live()
    ensures BoundedInOrderForLag(limit, lag) <==> lag <= limit.W()
  {
    if lag <= limit.W() {
      forall log | Possible(log) && Nondecreasing(log) && LagAtMost(log, lag) ensures IntervalsBounded(limit, log) {
        OrderedRunsAreBounded(limit, log);
      }
    } else {
      TwoBurstsBreakTheBound(limit);
    }
  }

  // ----- callers out of order

  /** A caller commits time 0 after others have committed time 1: the next maxCalls calls at
      time 1 collect that millisecond's refill once more. */
  function Cycle(limit: Limit): seq<Attempt>
    requires limit.Live()
  {
    Repeat(Attempt(1, 1, 1), limit.maxCalls) + [Attempt(0, 1, 1)]
  }

  function Cycles(limit: Limit, n: nat): seq<Attempt>
    requires limit.Live()
  {
    if n == 0 then [] else Cycles(limit, n - 1) + Cycle(limit)
  }

  function StaleLog(limit: Limit): seq<Attempt>
    requires limit.Live()
  {
    Burst(limit.maxCalls) + Cycles(limit, limit.W())
  }

  lemma {:induction false} CyclesAreAtOne(limit: Limit, n: nat)
    requires limit.Live()
    ensures forall a <- Cycles(limit, n) :: a.readAt == a.execAt == 1 && 0 <= a.now <= 1
  {
    if n > 0 {
      CyclesAreAtOne(limit, n - 1);
    }
  }

  lemma StaleLogIsPossible(limit: Limit)
    requires limit.Live()
    ensures Possible(StaleLog(limit)) && LagAtMost(StaleLog(limit), 1)
    ensures Within(StaleLog(limit), 0, |StaleLog(limit)|, 0, 1)
  {
    var tail, log := Cycles(limit, limit.W()), StaleLog(limit);
    CyclesAreAtOne(limit, limit.W());
    assert forall i :: limit.maxCalls <= i < |log| ==> log[i] in tail;
  }

  /** The key after cycles: drained below one call, stamped 0, not expired at time 1. */
  predicate Emptied(limit: Limit, key: Stored) {
    key.Some? && 0 <= key.value.tokens < limit.W() && key.value.ts == 0 && key.value.expiresAt > 1
  }

  lemma RoomForARefill(limit: Limit, level: int)
    requires limit.Live() && level < limit.W()
    ensures level + limit.maxCalls <= limit.Cap()
  {
    Monotone(limit.W() - 1, 1, limit.maxCalls);
    assert (limit.W() - 1) * limit.maxCalls == limit.Cap() - limit.maxCalls;
  }

  /** One call takes a token or finds less than one. */
  lemma CallTakes(limit: Limit, key: Stored, a: Attempt)
    requires limit.Live()
    ensures limit.W() * Calls(limit, key, a) + CommitRow(limit, key, a).tokens
            == Refilled(limit, Seen(key, a.readAt), a.now)
    ensures CommitRow(limit, key, a).tokens < limit.W() || Calls(limit, key, a) == 1
    ensures Refilled(limit, Seen(key, a.readAt), a.now) >= 0 ==> CommitRow(limit, key, a).tokens >= 0
  {
  }

  lemma LevelAtOne(limit: Limit, key: Stored)
    requires limit.Live() && key.Some? && key.value.expiresAt > 1 && key.value.tokens <= limit.Cap()
    ensures key.value.ts == 1 ==> Refilled(limit, Seen(key, 1), 1) == key.value.tokens
    ensures Emptied(limit, key) ==> Refilled(limit, Seen(key, 1), 1) == key.value.tokens + limit.maxCalls
    ensures Refilled(limit, Seen(key, 1), 0) == key.value.tokens || key.value.ts < 0
  {
    if Emptied(limit, key) { RoomForARefill(limit, key.value.tokens); }
  }

  /** k calls at time 1: together they take what was left and one millisecond's refill, down to
      less than one call. */
  lemma {:induction false} CallsAtOne(limit: Limit, key: Stored, k: nat)
    requires limit.Live() && Emptied(limit, key) && k > 0
    ensures var t := Replay(limit, key, Repeat(Attempt(1, 1, 1), k));
            && t.Some? && t.value.ts == 1 && t.value.expiresAt == 1 + limit.Ttl() && t.value.tokens >= 0
            && limit.W() * Spent(limit, key, Repeat(Attempt(1, 1, 1), k)) + t.value.tokens
               == key.value.tokens + limit.maxCalls
            && (t.value.tokens < limit.W() || Spent(limit, key, Repeat(Attempt(1, 1, 1), k)) == k)
  {
    hide Refilled, Calls, Charge, Limit.Cap, Limit.W;
    var a, prefix := Attempt(1, 1, 1), Repeat(Attempt(1, 1, 1), k - 1);
    var before := Replay(limit, key, prefix);
    assert Repeat(a, k)[..k - 1] == prefix;
    RoomForARefill(limit, key.value.tokens);
    LastCall(limit, key, Repeat(a, k));
    CallTakes(limit, before, a);
    Distribute(limit.W(), Spent(limit, key, prefix), Calls(limit, before, a));
    if k > 1 {
      CallsAtOne(limit, key, k - 1);
      WindowIsPositive(limit, Spent(limit, key, prefix));
    } else {
      assert prefix == [];
      EmptyRun(limit, key);
    }
    LevelAtOne(limit, before);
  }

  lemma WindowIsPositive(limit: Limit, n: nat)
    ensures limit.W() * n >= 0 && limit.W() >= 1000 && limit.Ttl() >= 2 * limit.W()
  {
  }

  lemma CycleCollects(limit: Limit, key: Stored)
    requires limit.Live() && Emptied(limit, key)
    ensures Emptied(limit, Replay(limit, key, Cycle(limit)))
    ensures limit.W() * Spent(limit, key, Cycle(limit)) + Replay(limit, key, Cycle(limit)).value.tokens
         == key.value.tokens + limit.maxCalls
  {
    hide Refilled, Calls, Limit.Cap, Limit.W, Limit.Ttl;
    var calls, back, m := Repeat(Attempt(1, 1, 1), limit.maxCalls), Attempt(0, 1, 1), limit.maxCalls;
    var t := Replay(limit, key, calls);
    CallsAtOne(limit, key, m);
    WindowIsPositive(limit, Spent(limit, key, calls));
    RoomForARefill(limit, key.value.tokens);
    DrainedByCalls(limit, key, t.value.tokens, Spent(limit, key, calls));
    assert Cycle(limit)[..m] == calls;
    LastCall(limit, key, Cycle(limit));
    CallTakes(limit, t, back);
    LevelAtOne(limit, t);
    NoCallFromLittle(limit, t, back);
  }

  /** maxCalls calls leave less than one call's worth of any level the bucket can hold. */
  lemma DrainedByCalls(limit: Limit, key: Stored, tokens: int, spent: nat)
    requires limit.Live() && Emptied(limit, key)
    requires limit.W() * spent + tokens == key.value.tokens + limit.maxCalls
             && (tokens < limit.W() || spent == limit.maxCalls)
    ensures tokens < limit.W()
  {
    RoomForARefill(limit, key.value.tokens);
  }

  lemma NoCallFromLittle(limit: Limit, key: Stored, a: Attempt)
    requires limit.Live()
    ensures Refilled(limit, Seen(key, a.readAt), a.now) < limit.W() ==> Calls(limit, key, a) == 0
  {
  }

  /** Every cycle collects one millisecond's refill, though no time passes. */
  lemma {:induction false} CyclesCollect(limit: Limit, key: Stored, n: nat)
    requires limit.Live() && Emptied(limit, key)
    ensures Emptied(limit, Replay(limit, key, Cycles(limit, n)))
    ensures limit.W() * Spent(limit, key, Cycles(limit, n)) + Replay(limit, key, Cycles(limit, n)).value.tokens
         == key.value.tokens + limit.maxCalls * n
  {
    hide Cycle, Replay, Spent, Limit.W;
    if n == 0 {
      EmptyRun(limit, key);
    } else {
      var before := Replay(limit, key, Cycles(limit, n - 1));
      CyclesCollect(limit, key, n - 1);
      CycleCollects(limit, before);
      ReplayAppends(limit, key, Cycles(limit, n - 1), Cycle(limit));
      AddCycles(limit.W(), Spent(limit, key, Cycles(limit, n - 1)), Spent(limit, before, Cycle(limit)),
                limit.maxCalls, n - 1);
    }
  }

  lemma AddCycles(w: int, spent: int, more: int, m: int, n: int)
    ensures w * (spent + more) == w * spent + w * more && m * (n + 1) == m * n + m
  {
  }

  /** W units collected for each call and less than one call left: nothing is left. */
  lemma WholeCallsOnly(w: int, spent: int, tokens: int, m: int)
    requires w * spent + tokens == m * w && 0 <= tokens < w
    ensures spent == m
  {
    if spent < m { Monotone(w, spent, m - 1); }
    if spent > m { Monotone(w, m + 1, spent); }
  }

  lemma TwiceExceeds(w: int, m: int)
    requires w >= 1000 && m > 0
    ensures w * (2 * m) > m * w + m * (1 - 0)
  {
    Monotone(m, 2, w);
    assert w * (2 * m) == m * w + m * w;
  }

  /** For every limit: callers one millisecond late that commit out of order let two full
      bursts through within one millisecond. */
  lemma StaleCommitRefillsTwice(limit: Limit)
    requires limit.Live()
    ensures Possible(StaleLog(limit)) && LagAtMost(StaleLog(limit), 1)
    ensures Spent(limit, None, StaleLog(limit)) == 2 * limit.maxCalls
            && Within(StaleLog(limit), 0, |StaleLog(limit)|, 0, 1)
    ensures !IntervalsBounded(limit, StaleLog(limit))
  {
    hide Possible, LagAtMost, IntervalsBounded, Replay, Spent, Cycles, Within, Limit.W;
    var m, w := limit.maxCalls, limit.W();
    var drained := Replay(limit, None, Burst(m));
    StaleLogIsPossible(limit);
    BurstDrains(limit, None, Attempt(0, 0, 0), m);
    WindowIsPositive(limit, 0);
    CyclesCollect(limit, drained, w);
    ReplayAppends(limit, None, Burst(m), Cycles(limit, w));
    WholeCallsOnly(w, Spent(limit, drained, Cycles(limit, w)),
                   Replay(limit, drained, Cycles(limit, w)).value.tokens, m);
    TwiceExceeds(w, m);
    WholeRunBreaks(limit, StaleLog(limit), 0, 1);
  }

  lemma PromptRunsAreOrdered(log: seq<Attempt>, lag: int)
    requires Possible(log) && LagAtMost(log, lag) && lag <= 0
    ensures Nondecreasing(log)
  {
    forall i, j | 0 <= i < j < |log| ensures log[i].now <= log[j].now {
      assert log[i].execAt <= log[j].readAt;
    }
  }

  /** Among all runs the interval bound holds exactly when every caller reads the key in the
      very millisecond in which it captured its time. */
  lemma IntervalBoundIffNoLag(limit: Limit, lag: int)
    requires limit.Live()
    ensures BoundedForLag(limit, lag) <==> lag <= 0
  {
    if lag <= 0 {
      forall log | Possible(log) && LagAtMost(log, lag) ensures IntervalsBounded(limit, log) {
        PromptRunsAreOrdered(log, lag);
        OrderedRunsAreBounded(limit, log);
      }
    } else {
      StaleCommitRefillsTwice(limit);
    }
  }
}
