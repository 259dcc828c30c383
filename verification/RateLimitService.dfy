/** app/services/rate_limit_service.py as written: one Redis key, updated in place. */
module RateLimitService {
  import opened Prelude
  import opened TokenBucket
  import OptimisticRetry

  /** What the rest of the world does during one turn of the loop, and the clock readings the
      turn takes: transactions of other callers that land between WATCH and HMGET and between
      HMGET and EXEC. */
  datatype Round = Round(watchAt: int, beforeFetch: seq<Attempt>, readAt: int, beforeExec: seq<Attempt>, execAt: int) {
    predicate Quiet() { beforeFetch == [] && beforeExec == [] }

    function Others(): seq<Attempt> { beforeFetch + beforeExec }
  }

  /** EXEC of a turn that finds the key like this goes through: nobody wrote it, and it did not
      expire after it was watched. */
  predicate Goes(stored: Stored, turn: Round) {
    turn.Quiet() && !(Seen(stored, turn.watchAt).Some? && Seen(stored, turn.execAt).None?)
  }

  /** The transactions of other callers during the first k turns. */
  function Overtaking(rounds: seq<Round>, k: nat): seq<Attempt>
    requires k <= |rounds|
  {
    if k == 0 then [] else Overtaking(rounds, k - 1) + rounds[k - 1].Others()
  }

  /** The number of turns EXEC aborts before the first that goes through. */
  function Aborts(limit: Limit, stored: Stored, rounds: seq<Round>): (k: nat)
    ensures k <= |rounds|
    decreases |rounds|
  {
    if rounds == [] || Goes(stored, rounds[0]) then 0
    else 1 + Aborts(limit, Replay(limit, stored, rounds[0].Others()), rounds[1..])
  }

  /** A turn with no other transaction on the key is three round trips of the interleaved
      protocol, and goes through in the one exactly when it does in the other. */
  lemma QuietTurnIsThreeRoundTrips(limit: Limit, s: OptimisticRetry.System, i: nat, turn: Round)
    requires limit.Live() && i < |s.callers| && s.callers[i].phase.Ready? && turn.Quiet()
    requires s.clock <= turn.watchAt <= turn.readAt <= turn.execAt
    ensures var watched := RoundTrip(limit, s, turn.watchAt - s.clock, i);
            var fetched := RoundTrip(limit, watched, turn.readAt - turn.watchAt, i);
            var t := RoundTrip(limit, fetched, turn.execAt - turn.readAt, i);
            var mine := Attempt(s.callers[i].now, turn.readAt, turn.execAt);
            && i < |t.callers|
            && (t.callers[i].phase.Done? <==> Goes(s.key, turn))
            && (Goes(s.key, turn) ==>
                  && t.key == Some(CommitRow(limit, s.key, mine)) && t.log == s.log + [mine]
                  && t.callers[i].phase.verdict == CommitVerdict(limit, s.key, mine))
            && (!Goes(s.key, turn) ==> t.key == s.key && t.log == s.log && t.callers[i] == s.callers[i])
  {
    hide Refilled, Charge, Decide;
  }

  function RoundTrip(limit: Limit, s: OptimisticRetry.System, wait: nat, i: nat): OptimisticRetry.System
    requires limit.Live()
  {
    OptimisticRetry.Step(limit, OptimisticRetry.Step(limit, s, OptimisticRetry.Tick(wait)), OptimisticRetry.Advance(i))
  }

  /** If the key was written since it was watched, EXEC aborts and the caller starts over. */
  lemma OverwrittenTurnAborts(limit: Limit, s: OptimisticRetry.System, i: nat)
    requires limit.Live() && i < |s.callers| && s.callers[i].phase.Fetched? && s.callers[i].phase.version != s.version
    ensures var t := OptimisticRetry.Step(limit, s, OptimisticRetry.Advance(i));
            t.key == s.key && t.log == s.log && t.callers[i] == s.callers[i].(phase := OptimisticRetry.Ready)
  {
  }

  /** What the endpoint sees: the request goes on, or 429 with a Retry-After header. */
  datatype Response = Pass | TooMany(retryAfter: int)

  /** Redis answers throughout, raises in the turn that would have gone through, or runs that
      turn's EXEC and loses the reply. */
  datatype Outage = Up | Down | ReplyLost

  class BucketKey {
    const limit: Limit
    var stored: Stored
    /** How many transactions wrote the key; WATCH remembers it. */
    var version: nat
    ghost var origin: Stored
    ghost var history: seq<Attempt>

    ghost predicate Valid()
      reads this
    {
      && version == |history|
      && (limit.Live() ==> stored == Replay(limit, origin, history))
    }

    constructor (limit: Limit, stored: Stored)
      ensures Valid() && this.limit == limit && this.stored == stored && history == [] && origin == stored
    {
      this.limit := limit;
      this.stored := stored;
      version := 0;
      origin := stored;
      history := [];
    }

    /** HSET and PEXPIRE inside MULTI / EXEC. */
    method Write(tokens: int, a: Attempt)
      requires Valid() && limit.Live()
      requires tokens == CommitRow(limit, stored, a).tokens
      modifies this
      ensures Valid() && origin == old(origin) && history == old(history) + [a]
    {
      stored := Some(Row(tokens, a.now, a.execAt + limit.Ttl()));
      version := version + 1;
      history := history + [a];
      assert history[..|history| - 1] == old(history);
    }

    /** Other callers' transactions on the same key. */
    method Interfere(others: seq<Attempt>)
      requires Valid() && limit.Live()
      modifies this
      ensures Valid() && origin == old(origin) && history == old(history) + others
    {
      for i := 0 to |others|
        invariant Valid() && origin == old(origin) && history == old(history) + others[..i]
      {
        Write(CommitRow(limit, stored, others[i]).tokens, others[i]);
        assert others[..i + 1] == others[..i] + [others[i]];
      }
    }

    /** The body of the loop between HMGET and MULTI: refill, cap, take a token or quote a wait. */
    method RefillAndTake(row: Stored, now: int, refillWindowMs: int)
      returns (allowed: bool, tokens: int, retryAfterMs: int)
      requires limit.Live() && refillWindowMs == limit.W()
      ensures Verdict(allowed, retryAfterMs) == Decide(limit, Refilled(limit, row, now))
      ensures tokens == Charge(limit, Refilled(limit, row, now))
    {
      tokens := if row.Some? then row.value.tokens else limit.maxCalls * refillWindowMs;
      var lastRefillMs := if row.Some? then row.value.ts else now;
      var elapsedMs := Max(0, now - lastRefillMs);
      tokens := Min(limit.maxCalls * refillWindowMs, tokens + limit.maxCalls * elapsedMs);
      assert tokens == Refilled(limit, row, now);
      if tokens >= refillWindowMs {
        tokens := tokens - refillWindowMs;
        allowed := true;
        retryAfterMs := 0;
      } else {
        allowed := false;
        retryAfterMs := CeilDiv(refillWindowMs - tokens, limit.maxCalls);
      }
    }

    /** One turn of the loop: WATCH, HMGET, decide, EXEC.  It commits exactly when nobody
        wrote the key in between and it did not expire. */
    method Turn(now: int, turn: Round) returns (committed: bool, allowed: bool, retryAfterMs: int)
      requires Valid() && limit.Live()
      modifies this
      ensures Valid() && origin == old(origin) && committed == Goes(old(stored), turn)
      ensures committed <==>
              && turn.beforeFetch == [] && turn.beforeExec == []
              && !(old(stored).Some? && turn.watchAt < old(stored).value.expiresAt <= turn.execAt)
      ensures !committed ==>
                history == old(history) + turn.Others() && stored == Replay(limit, old(stored), turn.Others())
      ensures committed ==>
                var mine := Attempt(now, turn.readAt, turn.execAt);
                && history == old(history) + [mine]
                && Verdict(allowed, retryAfterMs) == CommitVerdict(limit, old(stored), mine)
    {
      hide Refilled, Charge, Decide;
      var watched, live := version, Seen(stored, turn.watchAt).Some?;
      Interfere(turn.beforeFetch);
      assert turn.beforeFetch == [] ==> history == old(history) && stored == old(stored);
      var row := Seen(stored, turn.readAt);
      var tokens;
      allowed, tokens, retryAfterMs := RefillAndTake(row, now, Max(limit.window, 1) * 1000);
      Interfere(turn.beforeExec);
      assert history == old(history) + turn.Others();
      ReplayAppends(limit, origin, old(history), turn.Others());
      committed := version == watched && !(live && Seen(stored, turn.execAt).None?);
      if committed {
        assert turn.beforeExec == [] && history == old(history);
        Write(tokens, Attempt(now, turn.readAt, turn.execAt));
      }
    }

    /** _consume_token_bucket.  `rounds` says who interferes with each turn of the loop; a
        turn past its end is quiet and over within the millisecond `last` says. */
    method Consume(now: int, rounds: seq<Round>, last: Round) returns (allowed: bool, retryAfter: int)
      requires Valid() && last.Quiet() && last.watchAt == last.execAt
      modifies this
      ensures Valid() && origin == old(origin)
      ensures !limit.Live() ==> !allowed && retryAfter == 1 && stored == old(stored) && history == old(history)
      ensures limit.Live() ==>
                var k := Aborts(limit, old(stored), rounds);
                var turn := if k < |rounds| then rounds[k] else last;
                var mine := Attempt(now, turn.readAt, turn.execAt);
                var before := old(history) + Overtaking(rounds, k);
                var verdict := CommitVerdict(limit, Replay(limit, origin, before), mine);
                && history == before + [mine]
                && allowed == verdict.allowed && retryAfter == RetrySeconds(verdict.retryAfterMs)
    {
      hide CommitVerdict, CommitRow, Seen, Replay;
      if limit.maxCalls <= 0 {
        return false, 1;
      }
      ghost var k := 0;
      var rest := rounds;
      while true
        invariant k <= |rounds| && rest == rounds[k..]
        invariant Valid() && origin == old(origin) && history == old(history) + Overtaking(rounds, k)
        invariant k + Aborts(limit, stored, rest) == Aborts(limit, old(stored), rounds)
        decreases |rest|
      {
        var turn := if rest == [] then last else rest[0];
        ghost var before := Overtaking(rounds, k);
        var committed, retryAfterMs;
        committed, allowed, retryAfterMs := Turn(now, turn);
        if committed {
          return allowed, Max(1, CeilDiv(retryAfterMs, 1000));
        }
        Associate(old(history), before, turn.Others());
        k, rest := k + 1, rest[1..];
      }
    }

    /** The turns that abort, up to the first that would go through. */
    method Endure(now: int, rounds: seq<Round>)
      requires Valid() && limit.Live()
      modifies this
      ensures Valid() && origin == old(origin)
      ensures history == old(history) + Overtaking(rounds, Aborts(limit, old(stored), rounds))
    {
      hide Seen, Replay;
      ghost var k := 0;
      var rest := rounds;
      while rest != [] && !Goes(stored, rest[0])
        invariant k <= |rounds| && rest == rounds[k..]
        invariant Valid() && origin == old(origin) && history == old(history) + Overtaking(rounds, k)
        invariant k + Aborts(limit, stored, rest) == Aborts(limit, old(stored), rounds)
        decreases |rest|
      {
        ghost var before := Overtaking(rounds, k);
        var committed, allowed, retryAfterMs := Turn(now, rest[0]);
        Associate(old(history), before, rest[0].Others());
        k, rest := k + 1, rest[1..];
      }
    }

    /** _check: 429 exactly for a denied call.  If a Redis call raises, in whichever turn, the
        request passes; only an endpoint that is switched off does not ask Redis. */
    method Check(now: int, rounds: seq<Round>, last: Round, outage: Outage) returns (response: Response)
      requires Valid() && last.Quiet() && last.watchAt == last.execAt
      modifies this
      ensures Valid() && origin == old(origin)
      ensures !limit.Live() ==> response == TooMany(1) && history == old(history)
      ensures limit.Live() ==>
                var k := Aborts(limit, old(stored), rounds);
                var turn := if k < |rounds| then rounds[k] else last;
                var mine := Attempt(now, turn.readAt, turn.execAt);
                var before := old(history) + Overtaking(rounds, k);
                var verdict := CommitVerdict(limit, Replay(limit, origin, before), mine);
                && history == (if outage.Down? then before else before + [mine])
                && response == if !outage.Up? || verdict.allowed then Pass
                               else TooMany(RetrySeconds(verdict.retryAfterMs))
    {
      hide CommitVerdict, CommitRow, RetrySeconds, Replay;
      if limit.Live() && outage.Down? {
        Endure(now, rounds);
        return Pass;
      }
      var allowed, retryAfter := Consume(now, rounds, last);
      if limit.Live() && outage.ReplyLost? { return Pass; }
      return if allowed then Pass else TooMany(retryAfter);
    }
  }

  lemma Associate(a: seq<Attempt>, b: seq<Attempt>, c: seq<Attempt>)
    ensures a + b + c == a + (b + c)
  {
  }
}
