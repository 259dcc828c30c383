/** The `idempotent` wrapper and its four Redis helpers as written, one request at a time over
    the stored record.  Each method is tied to the steps of Idempotency. */
module IdempotencyService {
  import opened Prelude
  import opened Idempotency

  /** What the wrapped function does: how long it takes and how it ends. */
  datatype Outcome = Yields(result: Result) | Raises

  /** The Redis calls of one request that succeed. */
  datatype Redis = Redis(get: bool, setNx: bool, close: bool)

  ghost predicate Quiet(s: State) {
    forall i <- s.reqs :: s.reqs[i].phase.Done?
  }

  /** Up to the decision whether to run the function. */
  function Admission(id: Id, hash: Hash, redis: Redis): seq<Event> {
    [Arrive(id, hash), Get(id, redis.get), SetNx(id, redis.setNx)]
  }

  /** The function runs for a while and the outcome is written. */
  function Closing(id: Id, took: nat, outcome: Outcome, redis: Redis): seq<Event> {
    [Tick(took)] + match outcome
                   case Yields(result) => [Return(id, result), Complete(id, redis.close)]
                   case Raises => [Raise(id), Erase(id, redis.close)]
  }

  predicate Admitted(s: State, id: Id) {
    id in s.reqs && s.reqs[id].phase.Running?
  }

  /** The run of the protocol that serves one request with nobody in between. */
  function Serve(env: Env, s: State, id: Id, hash: Hash, took: nat, outcome: Outcome, redis: Redis): State {
    var t := Run(env, s, Admission(id, hash, redis));
    if Admitted(t, id) then Run(env, t, Closing(id, took, outcome, redis)) else t
  }

  /** What admission answers, or None if the function is to run. */
  function Verdict(env: Env, s: State, hash: Hash, redis: Redis): Option<Reply> {
    if redis.get && s.stored.Some? then
      var record := s.stored.value.record;
      Some(if record.hash != hash then HashConflict else if record.Completed? then Replayed(record.body)
           else InProgress)
    else if redis.setNx && s.stored.Some? then Some(InProgress)
    else None
  }

  lemma AdmissionIsVerdict(env: Env, s: State, id: Id, hash: Hash, redis: Redis)
    requires id !in s.reqs && (redis.setNx || env.nxMayFail)
    ensures var t := Run(env, s, Admission(id, hash, redis));
            match Verdict(env, s, hash, redis)
            case Some(reply) => t == s.(reqs := s.reqs[id := Req(hash, Done(reply))])
            case None => t == s.(reqs := s.reqs[id := Req(hash, Running(s.clock))],
                                 stored := if redis.setNx then Some(Stored(Processing(hash), s.clock + env.ttl))
                                           else s.stored)
  {
    RunOf3(env, s, Arrive(id, hash), Get(id, redis.get), SetNx(id, redis.setNx));
    var s1 := Step(env, s, Arrive(id, hash));
    assert s1 == s.(reqs := s.reqs[id := Req(hash, Arrived)]);
    var s2 := Step(env, s1, Get(id, redis.get));
    assert s2.reqs[id] == Req(hash, Looked) || s2.reqs[id].phase.Done?;
  }

  lemma ClosingIsOutcome(env: Env, s: State, id: Id, took: nat, outcome: Outcome, redis: Redis)
    requires Admitted(s, id) && s.reqs[id].phase == Running(s.clock) && took <= env.maxRun
    requires forall i <- s.reqs :: i != id ==> s.reqs[i].phase.Done?
    ensures var t, waited := Run(env, s, Closing(id, took, outcome, redis)), Step(env, s, Tick(took));
            && t.clock == s.clock + took == waited.clock
            && waited.stored == (if s.stored.Some? && s.clock + took >= s.stored.value.expiresAt then None
                                 else s.stored)
            && t.reqs == s.reqs[id := Req(s.reqs[id].hash,
                                          Done(if outcome.Yields? then Returned(outcome.result) else Raised))]
            && t.stored == if !redis.close then waited.stored
                           else if outcome.Yields? then
                             Some(Stored(Completed(s.reqs[id].hash, Encoded(outcome.result)), t.clock + env.keep))
                           else None
  {
    var waited := Step(env, s, Tick(took));
    assert waited.reqs == s.reqs && waited.clock == s.clock + took;
    match outcome
    case Yields(result) =>
      assert [Tick(took)] + [Return(id, result), Complete(id, redis.close)]
          == [Tick(took), Return(id, result), Complete(id, redis.close)];
      RunOf3(env, s, Tick(took), Return(id, result), Complete(id, redis.close));
    case Raises =>
      assert [Tick(took)] + [Raise(id), Erase(id, redis.close)] == [Tick(took), Raise(id), Erase(id, redis.close)];
      RunOf3(env, s, Tick(took), Raise(id), Erase(id, redis.close));
  }

  class IdempotencyKey {
    const env: Env
    var stored: Option<Stored>
    var clock: int
    /** The state of the protocol, of which the fields are the real part. */
    ghost var st: State

    ghost predicate Valid()
      reads this
    {
      st.stored == stored && st.clock == clock
    }

    constructor (env: Env)
      ensures Valid() && st == Empty && this.env == env
    {
      this.env, stored, clock := env, None, 0;
      st := Empty;
    }

    /** get_idempotency_result; an error reads as absence. */
    method GetResult(up: bool) returns (existing: Option<Record>)
      ensures existing == if up && stored.Some? then Some(stored.value.record) else None
    {
      if !up || stored.None? { return None; }
      return Some(stored.value.record);
    }

    /** set_idempotency_processing; an error reads as success. */
    method SetProcessing(hash: Hash, up: bool) returns (success: bool)
      modifies this`stored
      ensures success == (up ==> old(stored).None?)
      ensures stored == if up && success then Some(Stored(Processing(hash), clock + env.ttl)) else old(stored)
    {
      if !up { return true; }
      if stored.Some? { return false; }
      stored := Some(Stored(Processing(hash), clock + env.ttl));
      return true;
    }

    /** set_idempotency_completed; errors are swallowed. */
    method SetCompleted(hash: Hash, body: Encoded, up: bool)
      modifies this`stored
      ensures stored == if up then Some(Stored(Completed(hash, body), clock + env.keep)) else old(stored)
    {
      if up { stored := Some(Stored(Completed(hash, body), clock + env.keep)); }
    }

    /** delete_idempotency_key; errors are swallowed. */
    method DeleteKey(up: bool)
      modifies this`stored
      ensures stored == if up then None else old(stored)
    {
      if up { stored := None; }
    }

    /** Time goes by and may take the record with it. */
    method Elapse(took: nat)
      modifies this`stored, this`clock
      ensures clock == old(clock) + took
      ensures stored == if old(stored).Some? && clock >= old(stored).value.expiresAt then None else old(stored)
    {
      clock := clock + took;
      if stored.Some? && clock >= stored.value.expiresAt { stored := None; }
    }

    /** The wrapper, for a request with a key. */
    method Wrapper(ghost id: Id, hash: Hash, took: nat, outcome: Outcome, redis: Redis) returns (reply: Reply)
      requires Valid() && Quiet(st) && id !in st.reqs
      requires took <= env.maxRun && (redis.setNx || env.nxMayFail)
      modifies this
      ensures Valid() && Quiet(st)
      ensures st == Serve(env, old(st), id, hash, took, outcome, redis)
      ensures id in st.reqs && st.reqs[id] == Req(hash, Done(reply))
      ensures redis.get && old(stored).Some? ==>
                && stored == old(stored) && clock == old(clock)
                && reply == match old(stored).value.record
                            case Processing(claimed) => if claimed == hash then InProgress else HashConflict
                            case Completed(claimed, body) => if claimed == hash then Replayed(body) else HashConflict
      ensures !redis.get && old(stored).Some? && redis.setNx ==>
                reply == InProgress && stored == old(stored) && clock == old(clock)
      ensures old(stored).None? || (!redis.get && !redis.setNx) ==>
                && clock == old(clock) + took
                && reply == (if outcome.Yields? then Returned(outcome.result) else Raised)
                && (redis.close ==>
                      stored == if outcome.Yields? then
                                  Some(Stored(Completed(hash, Encoded(outcome.result)), clock + env.keep))
                                else None)
                && (!redis.close ==>
                      var claimed := if redis.setNx then Some(Stored(Processing(hash), old(clock) + env.ttl))
                                     else old(stored);
                      stored == if claimed.Some? && clock >= claimed.value.expiresAt then None else claimed)
    {
      hide Run, Step;
      ghost var s := st;
      ghost var t := Run(env, s, Admission(id, hash, redis));
      AdmissionIsVerdict(env, s, id, hash, redis);
      st := t;

      var existing := GetResult(redis.get);
      if existing.Some? {
        if existing.value.hash != hash { return HashConflict; }
        if existing.value.Completed? { return Replayed(existing.value.body); }
        return InProgress;
      }
      var success := SetProcessing(hash, redis.setNx);
      if !success { return InProgress; }

      ClosingIsOutcome(env, t, id, took, outcome, redis);
      st := Run(env, t, Closing(id, took, outcome, redis));
      Elapse(took);
      match outcome
      case Yields(result) =>
        SetCompleted(hash, Encoded(result), redis.close);
        return Returned(result);
      case Raises =>
        DeleteKey(redis.close);
        return Raised;
    }
  }
}
