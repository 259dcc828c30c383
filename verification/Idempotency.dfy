/** The idempotency protocol of app/services/idempotency_service.py for one scope key:
    concurrent requests look the key up, claim it with SET NX, run the wrapped function and
    record or erase the outcome, while Redis calls may fail and records expire. */
module Idempotency {
  import opened Prelude

  type Id = nat
  type Hash = nat
  type Result = nat

  /** jsonable_encoder's output. */
  datatype Encoded = Encoded(of: Result)

  datatype Record = Processing(hash: Hash) | Completed(hash: Hash, body: Encoded)
  datatype Stored = Stored(record: Record, expiresAt: int)

  datatype Reply =
    | Returned(result: Result)   // this request ran the function
    | Replayed(body: Encoded)    // cached outcome
    | HashConflict               // 409, same key with different data
    | InProgress                 // 409, someone else is at it
    | Raised                     // the function's own exception
    | Died

  datatype Phase =
    | Arrived
    | Looked
    | Running(since: int)
    | Succeeded(since: int, result: Result)
    | Failing(since: int)
    | Done(reply: Reply)

  datatype Req = Req(hash: Hash, phase: Phase)

  /** What happened to the key and to the wrapped function, in order. */
  datatype Note = Ran(id: Id, hash: Hash, result: Result) | Expired

  datatype State = State(stored: Option<Stored>, clock: int, reqs: map<Id, Req>, history: seq<Note>)

  /** `ttl` and `keep` are the configured lifetimes of the two kinds of record; `maxRun`
      bounds the time from the claim to the closing write; `nxMayFail` says whether the SET NX
      call itself can raise. */
  datatype Env = Env(ttl: nat, keep: nat, maxRun: nat, nxMayFail: bool) {
    predicate Configured() { ttl > 0 && keep > 0 }
  }

  datatype Event =
    | Tick(d: nat)
    | Arrive(id: Id, hash: Hash)
    | Get(id: Id, up: bool)
    | SetNx(id: Id, up: bool)
    | Return(id: Id, result: Result)
    | Raise(id: Id)
    | Complete(id: Id, up: bool)
    | Erase(id: Id, up: bool)
    | Crash(id: Id)

  predicate InFlight(p: Phase) {
    p.Running? || p.Succeeded? || p.Failing?
  }

  predicate At(s: State, id: Id, p: Phase -> bool) {
    id in s.reqs && p(s.reqs[id].phase)
  }

  function To(s: State, id: Id, p: Phase): State
    requires id in s.reqs
  {
    s.(reqs := s.reqs[id := s.reqs[id].(phase := p)])
  }

  /** Time passes only as far as every claimed run stays within its bound; a record whose
      time is up disappears. */
  function DoTick(env: Env, s: State, d: nat): State {
    if exists id <- s.reqs :: InFlight(s.reqs[id].phase) && s.clock + d > s.reqs[id].phase.since + env.maxRun then s
    else if s.stored.Some? && s.clock + d >= s.stored.value.expiresAt then
      s.(clock := s.clock + d, stored := None, history := s.history + [Expired])
    else s.(clock := s.clock + d)
  }

  function DoGet(s: State, id: Id, up: bool): State
    requires id in s.reqs
  {
    if up && s.stored.Some? then
      var record := s.stored.value.record;
      if record.hash != s.reqs[id].hash then To(s, id, Done(HashConflict))
      else if record.Completed? then To(s, id, Done(Replayed(record.body)))
      else To(s, id, Done(InProgress))
    else To(s, id, Looked)
  }

  /** SET key ... NX EX ttl; an exception counts as success. */
  function DoSetNx(env: Env, s: State, id: Id, up: bool): State
    requires id in s.reqs
  {
    if !up then (if env.nxMayFail then To(s, id, Running(s.clock)) else s)
    else if s.stored.Some? then To(s, id, Done(InProgress))
    else To(s, id, Running(s.clock)).(stored := Some(Stored(Processing(s.reqs[id].hash), s.clock + env.ttl)))
  }

  function DoComplete(env: Env, s: State, id: Id, up: bool): State
    requires id in s.reqs && s.reqs[id].phase.Succeeded?
  {
    var result := s.reqs[id].phase.result;
    var t := To(s, id, Done(Returned(result)));
    if up then t.(stored := Some(Stored(Completed(s.reqs[id].hash, Encoded(result)), s.clock + env.keep))) else t
  }

  function Step(env: Env, s: State, e: Event): State {
    match e
    case Tick(d) => DoTick(env, s, d)
    case Arrive(id, hash) => if id in s.reqs then s else s.(reqs := s.reqs[id := Req(hash, Arrived)])
    case Get(id, up) => if id in s.reqs && s.reqs[id].phase.Arrived? then DoGet(s, id, up) else s
    case SetNx(id, up) => if id in s.reqs && s.reqs[id].phase.Looked? then DoSetNx(env, s, id, up) else s
    case Return(id, result) =>
      if id in s.reqs && s.reqs[id].phase.Running? then
        To(s, id, Succeeded(s.reqs[id].phase.since, result)).(history := s.history + [Ran(id, s.reqs[id].hash, result)])
      else s
    case Raise(id) =>
      if id in s.reqs && s.reqs[id].phase.Running? then To(s, id, Failing(s.reqs[id].phase.since)) else s
    case Complete(id, up) => if id in s.reqs && s.reqs[id].phase.Succeeded? then DoComplete(env, s, id, up) else s
    case Erase(id, up) =>
      if id in s.reqs && s.reqs[id].phase.Failing? then
        To(s, id, Done(Raised)).(stored := if up then None else s.stored)
      else s
    case Crash(id) => if id in s.reqs && !s.reqs[id].phase.Done? then To(s, id, Done(Died)) else s
  }

  function Run(env: Env, s: State, events: seq<Event>): State
    decreases |events|
  {
    if events == [] then s else Run(env, Step(env, s, events[0]), events[1..])
  }

  const Empty := State(None, 0, map[], [])

  // ----- the two safety properties

  /** Never two requests inside the wrapped function. */
  ghost predicate Exclusive(s: State) {
    forall i <- s.reqs, j <- s.reqs :: s.reqs[i].phase.Running? && s.reqs[j].phase.Running? ==> i == j
  }

  /** Between any two runs that succeeded, the record of the first had expired. */
  ghost predicate Separated(history: seq<Note>) {
    forall a, b :: 0 <= a < b < |history| && history[a].Ran? && history[b].Ran? ==>
      exists k :: a < k < b && history[k].Expired?
  }

  /** Every successful run so far has expired. */
  ghost predicate Settled(history: seq<Note>) {
    forall a :: 0 <= a < |history| && history[a].Ran? ==> exists k :: a < k < |history| && history[k].Expired?
  }

  /** The last successful run, if its record has not expired since. */
  function Current(history: seq<Note>): Option<Note>
    decreases |history|
  {
    if history == [] then None
    else
      match history[|history| - 1]
      case Expired => None
      case Ran(_, _, _) => Some(history[|history| - 1])
  }

  // ----- the invariant, in an environment that keeps its promises

  predicate Sound(env: Env) {
    !env.nxMayFail && env.maxRun < env.ttl
  }

  /** A request in flight is alone and its own record guards it. */
  ghost predicate Guarded(env: Env, s: State) {
    && (forall i <- s.reqs, j <- s.reqs :: InFlight(s.reqs[i].phase) && InFlight(s.reqs[j].phase) ==> i == j)
    && (forall i <- s.reqs :: InFlight(s.reqs[i].phase) ==>
          && s.stored == Some(Stored(Processing(s.reqs[i].hash), s.reqs[i].phase.since + env.ttl))
          && s.clock <= s.reqs[i].phase.since + env.maxRun)
  }

  /** Nothing is on record for the present, or only a run that has not succeeded. */
  ghost predicate Undecided(s: State) {
    s.stored.None? || exists i <- s.reqs :: s.reqs[i].phase.Running? || s.reqs[i].phase.Failing?
  }

  ghost predicate HistoryOk(s: State) {
    && Separated(s.history)
    && (Undecided(s) ==> Settled(s.history))
    && (s.stored.Some? && s.stored.value.record.Completed? ==>
          Current(s.history).Some? && Records(s.stored.value.record, Current(s.history).value))
    && (forall i <- s.reqs :: s.reqs[i].phase.Succeeded? ==>
          Current(s.history) == Some(Ran(i, s.reqs[i].hash, s.reqs[i].phase.result)))
  }

  predicate Records(r: Record, n: Note) {
    n.Ran? && r == Completed(n.hash, Encoded(n.result))
  }

  ghost predicate Inv(env: Env, s: State) {
    Guarded(env, s) && HistoryOk(s)
  }

  lemma EmptyIsOk(env: Env)
    ensures Inv(env, Empty)
  {
  }

  lemma AppendExpired(history: seq<Note>)
    requires Separated(history)
    ensures Separated(history + [Expired]) && Settled(history + [Expired])
  {
    var h := history + [Expired];
    forall a, b | 0 <= a < b < |h| && h[a].Ran? && h[b].Ran? ensures exists k :: a < k < b && h[k].Expired? {
      var k :| a < k < b && history[k].Expired?;
      assert h[k].Expired?;
    }
    forall a | 0 <= a < |h| && h[a].Ran? ensures exists k :: a < k < |h| && h[k].Expired? {
      assert h[|history|].Expired?;
    }
  }

  lemma AppendRan(history: seq<Note>, n: Note)
    requires Separated(history) && Settled(history) && n.Ran?
    ensures Separated(history + [n])
  {
    var h := history + [n];
    forall a, b | 0 <= a < b < |h| && h[a].Ran? && h[b].Ran? ensures exists k :: a < k < b && h[k].Expired? {
      if b < |history| {
        var k :| a < k < b && history[k].Expired?;
        assert h[k].Expired?;
      } else {
        var k :| a < k < |history| && history[k].Expired?;
        assert h[k].Expired?;
      }
    }
  }

  lemma TickKeepsInv(env: Env, s: State, d: nat)
    requires Sound(env) && Inv(env, s)
    ensures Inv(env, DoTick(env, s, d))
  {
    AppendExpired(s.history);
  }

  /** A request leaves a phase in which it was not in flight for another such phase. */
  lemma IdleMoveKeepsInv(env: Env, s: State, id: Id, p: Phase)
    requires Inv(env, s) && id in s.reqs && !InFlight(s.reqs[id].phase) && !InFlight(p)
    ensures Inv(env, To(s, id, p))
  {
    hide Separated, Settled, Current;
    var t := To(s, id, p);
    assert Undecided(t) ==> Undecided(s);
  }

  lemma GetKeepsInv(env: Env, s: State, id: Id, up: bool)
    requires Sound(env) && Inv(env, s) && id in s.reqs && s.reqs[id].phase.Arrived?
    ensures Inv(env, DoGet(s, id, up))
  {
    hide Inv;
    IdleMoveKeepsInv(env, s, id, DoGet(s, id, up).reqs[id].phase);
  }

  lemma SetNxKeepsInv(env: Env, s: State, id: Id, up: bool)
    requires Sound(env) && Inv(env, s) && id in s.reqs && s.reqs[id].phase.Looked?
    ensures Inv(env, DoSetNx(env, s, id, up))
  {
    hide Separated, Settled, Current;
  }

  lemma ReturnKeepsInv(env: Env, s: State, id: Id, result: Result)
    requires Sound(env) && Inv(env, s) && id in s.reqs && s.reqs[id].phase.Running?
    ensures Inv(env, Step(env, s, Return(id, result)))
  {
    var n := Ran(id, s.reqs[id].hash, result);
    AppendRan(s.history, n);
  }

  lemma CompleteKeepsInv(env: Env, s: State, id: Id, up: bool)
    requires Sound(env) && Inv(env, s) && id in s.reqs && s.reqs[id].phase.Succeeded?
    ensures Inv(env, DoComplete(env, s, id, up))
  {
    assert s.history[|s.history| - 1] == Ran(id, s.reqs[id].hash, s.reqs[id].phase.result);
  }

  lemma ArriveKeepsInv(env: Env, s: State, id: Id, hash: Hash)
    requires Inv(env, s)
    ensures Inv(env, Step(env, s, Arrive(id, hash)))
  {
    hide Separated, Settled, Current;
    var t := Step(env, s, Arrive(id, hash));
    assert Undecided(t) ==> Undecided(s);
  }

  lemma StepKeepsInv(env: Env, s: State, e: Event)
    requires Sound(env) && Inv(env, s)
    ensures Inv(env, Step(env, s, e))
  {
    hide Inv, DoTick, DoGet, DoSetNx, DoComplete;
    match e
    case Tick(d) => TickKeepsInv(env, s, d);
    case Arrive(id, hash) => ArriveKeepsInv(env, s, id, hash);
    case Get(id, up) => if id in s.reqs && s.reqs[id].phase.Arrived? { GetKeepsInv(env, s, id, up); }
    case SetNx(id, up) => if id in s.reqs && s.reqs[id].phase.Looked? { SetNxKeepsInv(env, s, id, up); }
    case Return(id, result) => if id in s.reqs && s.reqs[id].phase.Running? { ReturnKeepsInv(env, s, id, result); }
    case Raise(id) => if id in s.reqs && s.reqs[id].phase.Running? { RaiseKeepsInv(env, s, id); }
    case Complete(id, up) => if id in s.reqs && s.reqs[id].phase.Succeeded? { CompleteKeepsInv(env, s, id, up); }
    case Erase(id, up) => if id in s.reqs && s.reqs[id].phase.Failing? { EraseKeepsInv(env, s, id, up); }
    case Crash(id) => if id in s.reqs && !s.reqs[id].phase.Done? { CrashKeepsInv(env, s, id); }
  }

  lemma RaiseKeepsInv(env: Env, s: State, id: Id)
    requires Sound(env) && Inv(env, s) && id in s.reqs && s.reqs[id].phase.Running?
    ensures Inv(env, Step(env, s, Raise(id)))
  {
  }

  lemma EraseKeepsInv(env: Env, s: State, id: Id, up: bool)
    requires Sound(env) && Inv(env, s) && id in s.reqs && s.reqs[id].phase.Failing?
    ensures Inv(env, Step(env, s, Erase(id, up)))
  {
  }

  lemma CrashKeepsInv(env: Env, s: State, id: Id)
    requires Sound(env) && Inv(env, s) && id in s.reqs && !s.reqs[id].phase.Done?
    ensures Inv(env, Step(env, s, Crash(id)))
  {
  }

  lemma {:induction false} RunKeepsInv(env: Env, s: State, events: seq<Event>)
    requires Sound(env) && Inv(env, s)
    ensures Inv(env, Run(env, s, events))
    decreases |events|
  {
    if events != [] {
      StepKeepsInv(env, s, events[0]);
      RunKeepsInv(env, Step(env, s, events[0]), events[1..]);
    }
  }

  // ----- at most once, and exactly when

  lemma {:induction false} RunAppends(env: Env, s: State, first: seq<Event>, second: seq<Event>)
    ensures Run(env, s, first + second) == Run(env, Run(env, s, first), second)
    decreases |first|
  {
    if first == [] {
      assert first + second == second;
    } else {
      assert (first + second)[1..] == first[1..] + second;
      RunAppends(env, Step(env, s, first[0]), first[1..], second);
    }
  }

  lemma RunUnfolds(env: Env, s: State, e: Event, rest: seq<Event>)
    ensures Run(env, s, [e] + rest) == Run(env, Step(env, s, e), rest)
  {
    assert ([e] + rest)[1..] == rest;
  }

  lemma RunOf2(env: Env, s: State, e: Event, f: Event)
    ensures Run(env, s, [e, f]) == Step(env, Step(env, s, e), f)
  {
    hide Step;
    assert [e, f] == [e] + [f] && [f] == [f] + [];
    RunUnfolds(env, s, e, [f]);
    RunUnfolds(env, Step(env, s, e), f, []);
  }

  lemma RunOf3(env: Env, s: State, e: Event, f: Event, g: Event)
    ensures Run(env, s, [e, f, g]) == Step(env, Step(env, Step(env, s, e), f), g)
  {
    hide Step;
    assert [e, f, g] == [e] + [f, g];
    RunUnfolds(env, s, e, [f, g]);
    RunOf2(env, Step(env, s, e), f, g);
  }

  /** In a sound environment no interleaving of any number of requests, whatever lookups,
      closing writes and deletions fail, lets two of them into the function together or two
      of them succeed for one record. */
  lemma AtMostOnce(env: Env, events: seq<Event>)
    requires Sound(env)
    ensures Exclusive(Run(env, Empty, events))
    ensures Separated(Run(env, Empty, events).history)
  {
    EmptyIsOk(env);
    RunKeepsInv(env, Empty, events);
  }

  /** Two requests that have both found the key absent. */
  const Race := [Arrive(1, 0), Arrive(2, 0), Get(1, true), Get(2, true)]
  const BothLooked := State(None, 0, map[1 := Req(0, Looked), 2 := Req(0, Looked)], [])

  lemma RaceBegins(env: Env)
    ensures Run(env, Empty, Race) == BothLooked
  {
    var s2 := Step(env, Step(env, Empty, Arrive(1, 0)), Arrive(2, 0));
    assert s2 == State(None, 0, map[1 := Req(0, Arrived), 2 := Req(0, Arrived)], []);
    assert Step(env, Step(env, s2, Get(1, true)), Get(2, true)) == BothLooked;
    assert Race == [Arrive(1, 0), Arrive(2, 0)] + [Get(1, true), Get(2, true)];
    RunOf2(env, Empty, Arrive(1, 0), Arrive(2, 0));
    RunOf2(env, s2, Get(1, true), Get(2, true));
    RunAppends(env, Empty, [Arrive(1, 0), Arrive(2, 0)], [Get(1, true), Get(2, true)]);
  }

  /** How the second of the two gets in: the SET NX calls error, or the first record expires. */
  function Breach(env: Env): seq<Event> {
    if env.nxMayFail then [SetNx(1, false), SetNx(2, false)] else [SetNx(1, true), Tick(env.ttl), SetNx(2, true)]
  }

  predicate BothInside(s: State) {
    1 in s.reqs && 2 in s.reqs && s.reqs[1].phase.Running? && s.reqs[2].phase.Running?
  }

  lemma BreachLetsBothIn(env: Env)
    requires env.Configured() && !Sound(env)
    ensures BothInside(Run(env, BothLooked, Breach(env)))
  {
    if env.nxMayFail {
      RunOf2(env, BothLooked, SetNx(1, false), SetNx(2, false));
    } else {
      RunOf3(env, BothLooked, SetNx(1, true), Tick(env.ttl), SetNx(2, true));
      var s1 := Step(env, BothLooked, SetNx(1, true));
      assert s1 == State(Some(Stored(Processing(0), env.ttl)), 0,
                         map[1 := Req(0, Running(0)), 2 := Req(0, Looked)], []);
      var s2 := Step(env, s1, Tick(env.ttl));
      assert s2 == s1.(clock := env.ttl, stored := None, history := [Expired]);
    }
  }

  lemma BothSucceed(env: Env, s: State)
    requires BothInside(s)
    ensures !Separated(Run(env, s, [Return(1, 0), Return(2, 0)]).history)
  {
    RunOf2(env, s, Return(1, 0), Return(2, 0));
    var n, h := |s.history|, Run(env, s, [Return(1, 0), Return(2, 0)]).history;
    assert h[n].Ran? && h[n + 1].Ran?;
  }

  lemma UnsoundBreaksBoth(env: Env)
    requires env.Configured() && !Sound(env)
    ensures !Exclusive(Run(env, Empty, Race + Breach(env)))
    ensures !Separated(Run(env, Empty, Race + Breach(env) + [Return(1, 0), Return(2, 0)]).history)
  {
    hide Step, Separated, Run, Breach;
    RaceBegins(env);
    BreachLetsBothIn(env);
    RunAppends(env, Empty, Race, Breach(env));
    BothSucceed(env, Run(env, BothLooked, Breach(env)));
    RunAppends(env, Empty, Race + Breach(env), [Return(1, 0), Return(2, 0)]);
  }

  /** The wrapper keeps requests out of each other's way if and only if the SET NX call cannot
      error and the processing lifetime outlasts every run. */
  lemma ExclusiveExactlyWhen(env: Env)
    requires env.Configured()
    ensures (forall events :: Exclusive(Run(env, Empty, events))) <==> !env.nxMayFail && env.maxRun < env.ttl
    ensures (forall events :: Separated(Run(env, Empty, events).history)) <==> !env.nxMayFail && env.maxRun < env.ttl
  {
    hide Exclusive, Separated, Run;
    if Sound(env) {
      forall events ensures Exclusive(Run(env, Empty, events)) && Separated(Run(env, Empty, events).history) {
        AtMostOnce(env, events);
      }
    } else {
      UnsoundBreaksBoth(env);
    }
  }

  // ----- what callers are told

  /** A successful run with that data and that outcome is on record. */
  ghost predicate Backed(history: seq<Note>, hash: Hash, body: Encoded) {
    exists n <- history :: n.Ran? && n.hash == hash && Encoded(n.result) == body
  }

  /** What is stored, waits to be stored or was answered is backed, in every environment. */
  ghost predicate Genuine(s: State) {
    && (s.stored.Some? && s.stored.value.record.Completed? ==>
          Backed(s.history, s.stored.value.record.hash, s.stored.value.record.body))
    && (forall i <- s.reqs :: GenuineReq(s.history, i, s.reqs[i]))
  }

  ghost predicate GenuineReq(history: seq<Note>, id: Id, r: Req) {
    match r.phase
    case Succeeded(_, result) => Ran(id, r.hash, result) in history
    case Done(Returned(result)) => Ran(id, r.hash, result) in history
    case Done(Replayed(body)) => Backed(history, r.hash, body)
    case _ => true
  }

  lemma StepKeepsGenuine(env: Env, s: State, e: Event)
    requires Genuine(s)
    ensures Genuine(Step(env, s, e))
  {
    var t := Step(env, s, e);
    assert t.history == s.history || exists n :: t.history == s.history + [n];
    if e.Return? && t.history != s.history {
      assert t.history[|s.history|] == Ran(e.id, s.reqs[e.id].hash, e.result);
    }
    forall i <- t.reqs ensures GenuineReq(t.history, i, t.reqs[i]) {
      if i in s.reqs && t.reqs[i] == s.reqs[i] {
        assert GenuineReq(s.history, i, s.reqs[i]);
      }
    }
  }

  lemma {:induction false} RunKeepsGenuine(env: Env, s: State, events: seq<Event>)
    requires Genuine(s)
    ensures Genuine(Run(env, s, events))
    decreases |events|
  {
    if events != [] {
      hide Genuine, Step;
      StepKeepsGenuine(env, s, events[0]);
      RunKeepsGenuine(env, Step(env, s, events[0]), events[1..]);
    }
  }

  /** Whoever gets a replay or a result gets that of a run that succeeded, for its own data,
      even where Redis errs and lifetimes are too short for exclusion. */
  lemma RepliesAreGenuine(env: Env, events: seq<Event>, id: Id)
    ensures var t := Run(env, Empty, events);
            id in t.reqs && t.reqs[id].phase.Done? ==>
              match t.reqs[id].phase.reply
              case Returned(result) => Ran(id, t.reqs[id].hash, result) in t.history
              case Replayed(body) => Backed(t.history, t.reqs[id].hash, body)
              case _ => true
  {
    RunKeepsGenuine(env, Empty, events);
    var t := Run(env, Empty, events);
    if id in t.reqs {
      assert GenuineReq(t.history, id, t.reqs[id]);
    }
  }

  /** A lookup that replays gives out the result of the one run since the last expiry. */
  lemma ReplayIsTheCurrentRun(env: Env, events: seq<Event>, id: Id, up: bool)
    requires Sound(env)
    ensures var s, t := Run(env, Empty, events), Run(env, Empty, events + [Get(id, up)]);
            && id in s.reqs && s.reqs[id].phase.Arrived?
            && id in t.reqs && t.reqs[id].phase.Done? && t.reqs[id].phase.reply.Replayed? ==>
              && t.history == s.history && t.stored == s.stored
              && Current(s.history).Some? && Current(s.history).value.Ran?
              && Current(s.history).value.hash == s.reqs[id].hash
              && t.reqs[id].phase.reply.body == Encoded(Current(s.history).value.result)
  {
    hide Separated, Settled, Guarded;
    EmptyIsOk(env);
    RunKeepsInv(env, Empty, events);
    RunAppends(env, Empty, events, [Get(id, up)]);
    var s := Run(env, Empty, events);
    assert [Get(id, up)] == [Get(id, up)] + [];
    RunUnfolds(env, s, Get(id, up), []);
    assert Run(env, Empty, events + [Get(id, up)]) == Step(env, s, Get(id, up));
  }

  lemma {:induction false} ClockNeverGoesBack(env: Env, s: State, events: seq<Event>)
    ensures Run(env, s, events).clock >= s.clock
    decreases |events|
  {
    if events != [] {
      ClockNeverGoesBack(env, Step(env, s, events[0]), events[1..]);
    }
  }

  lemma StepKeepsCompleted(env: Env, s: State, e: Event)
    requires Guarded(env, s) && s.stored.Some? && s.stored.value.record.Completed?
    ensures var t := Step(env, s, e); t.stored == s.stored || t.clock >= s.stored.value.expiresAt
  {
  }

  /** Once recorded, an outcome stays until its lifetime is over, whatever the requests do. */
  lemma {:induction false} CompletedStays(env: Env, s: State, events: seq<Event>)
    requires Sound(env) && Inv(env, s) && s.stored.Some? && s.stored.value.record.Completed?
    requires Run(env, s, events).clock < s.stored.value.expiresAt
    ensures Run(env, s, events).stored == s.stored
    decreases |events|
  {
    if events != [] {
      hide Step;
      StepKeepsInv(env, s, events[0]);
      StepKeepsCompleted(env, s, events[0]);
      ClockNeverGoesBack(env, Step(env, s, events[0]), events[1..]);
      CompletedStays(env, Step(env, s, events[0]), events[1..]);
    }
  }

  /** After a successful call whose closing write went through, every later lookup that gets an
      answer within the record's lifetime replays the result to the same data and refuses
      other data, and the function does not run again. */
  lemma RetriesReplay(env: Env, events: seq<Event>, first: Id, between: seq<Event>, retry: Id)
    requires Sound(env)
    ensures var s := Run(env, Empty, events);
            first in s.reqs && s.reqs[first].phase.Succeeded? ==>
              var t := Run(env, Step(env, s, Complete(first, true)), between);
              retry in t.reqs && t.reqs[retry].phase.Arrived? && t.clock < s.clock + env.keep ==>
                var u := Step(env, t, Get(retry, true));
                && u.history == t.history
                && u.reqs[retry].phase == Done(if t.reqs[retry].hash == s.reqs[first].hash
                                               then Replayed(Encoded(s.reqs[first].phase.result)) else HashConflict)
  {
    EmptyIsOk(env);
    RunKeepsInv(env, Empty, events);
    var s := Run(env, Empty, events);
    if first in s.reqs && s.reqs[first].phase.Succeeded? {
      hide Inv, Run;
      var c := Step(env, s, Complete(first, true));
      StepKeepsInv(env, s, Complete(first, true));
      if Run(env, c, between).clock < s.clock + env.keep {
        CompletedStays(env, c, between);
      }
    }
  }

  /** A run that raised frees the key at once if the deletion goes through; a request that
      died frees it after the processing lifetime. */
  lemma FailuresFreeTheKey(env: Env, events: seq<Event>, id: Id)
    requires Sound(env)
    ensures var s := Run(env, Empty, events);
            id in s.reqs ==>
              && (s.reqs[id].phase.Failing? ==> Step(env, s, Erase(id, true)).stored.None?)
              && (InFlight(s.reqs[id].phase) ==> Step(env, Step(env, s, Crash(id)), Tick(env.ttl)).stored.None?)
  {
    EmptyIsOk(env);
    RunKeepsInv(env, Empty, events);
    var s := Run(env, Empty, events);
    if id in s.reqs && InFlight(s.reqs[id].phase) {
      var t := Step(env, s, Crash(id));
      assert forall i <- t.reqs :: !InFlight(t.reqs[i].phase);
      assert t.stored == Some(Stored(Processing(s.reqs[id].hash), s.reqs[id].phase.since + env.ttl));
      SinceIsPast(env, events, id);
    }
  }

  lemma {:induction false} SinceIsPast(env: Env, events: seq<Event>, id: Id)
    requires id in Run(env, Empty, events).reqs && InFlight(Run(env, Empty, events).reqs[id].phase)
    ensures Run(env, Empty, events).reqs[id].phase.since <= Run(env, Empty, events).clock
  {
    SinceStaysPast(env, Empty, events);
  }

  ghost predicate SincePast(s: State) {
    forall i <- s.reqs :: InFlight(s.reqs[i].phase) ==> s.reqs[i].phase.since <= s.clock
  }

  lemma {:induction false} SinceStaysPast(env: Env, s: State, events: seq<Event>)
    requires SincePast(s)
    ensures SincePast(Run(env, s, events))
    decreases |events|
  {
    if events != [] {
      SinceStaysPast(env, Step(env, s, events[0]), events[1..]);
    }
  }
}
