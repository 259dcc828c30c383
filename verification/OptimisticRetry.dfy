/** The WATCH / HMGET / MULTI-EXEC loop of app/services/rate_limit_service.py: n calls on one
    key, interleaved at every Redis round trip by an arbitrary scheduler. */
module OptimisticRetry {
  import opened Prelude
  import opened TokenBucket

  /** Where a call stands in the loop; the version and whether the key was live stand for what
      WATCH remembers. */
  datatype Phase =
    | New
    | Ready
    | Watching(version: nat, live: bool)
    | Fetched(version: nat, live: bool, seen: Stored, readAt: int)
    | Done(verdict: Verdict)

  /** `now` is captured once, before the loop. */
  datatype Caller = Caller(now: int, phase: Phase)

  /** The key, the number of transactions that wrote it, the clock and the callers, with
      the history of the run: committed attempts, who made each, aborts because the key was
      overwritten or because it lapsed, and steps. */
  datatype System = System(
    key: Stored, version: nat, clock: int, callers: seq<Caller>,
    log: seq<Attempt>, order: seq<nat>, aborts: nat, lapses: nat, steps: nat)

  /** The scheduler lets time pass or lets one caller make its next round trip. */
  datatype Event = Tick(ms: nat) | Advance(i: nat)

  predicate Unfinished(s: System, i: nat) {
    i < |s.callers| && !s.callers[i].phase.Done?
  }

  function Step(limit: Limit, s: System, e: Event): System
    requires limit.Live()
  {
    match e
    case Tick(ms) => s.(clock := s.clock + ms)
    case Advance(i) => if Unfinished(s, i) then AdvanceCaller(limit, s, i).(steps := s.steps + 1) else s
  }

  function AdvanceCaller(limit: Limit, s: System, i: nat): System
    requires limit.Live() && Unfinished(s, i)
  {
    var c := s.callers[i];
    match c.phase
    case New => s.(callers := s.callers[i := Caller(s.clock, Ready)])
    case Ready => s.(callers := s.callers[i := c.(phase := Watching(s.version, Seen(s.key, s.clock).Some?))])
    case Watching(v, live) =>
      s.(callers := s.callers[i := c.(phase := Fetched(v, live, Seen(s.key, s.clock), s.clock))])
    case Fetched(v, live, seen, readAt) =>
      if v != s.version then s.(callers := s.callers[i := c.(phase := Ready)], aborts := s.aborts + 1)
      else if live && Lapsed(s) then s.(callers := s.callers[i := c.(phase := Ready)], lapses := s.lapses + 1)
      else CommitCaller(limit, s, i)
  }

  /** The key has expired since it was last written. */
  predicate Lapsed(s: System) {
    s.key.Some? && s.clock >= s.key.value.expiresAt
  }

  /** EXEC goes through unless the watched key was written, or was live and has expired. */
  predicate CanCommit(s: System, i: nat) {
    && Unfinished(s, i) && s.callers[i].phase.Fetched? && s.callers[i].phase.version == s.version
    && !(s.callers[i].phase.live && Lapsed(s))
  }

  /** EXEC goes through: the answer rests on what HMGET saw, whatever happened since. */
  function CommitCaller(limit: Limit, s: System, i: nat): System
    requires limit.Live() && CanCommit(s, i)
  {
    var c := s.callers[i];
    var level := Refilled(limit, c.phase.seen, c.now);
    s.(key := Some(Row(Charge(limit, level), c.now, s.clock + limit.Ttl())),
       version := s.version + 1,
       callers := s.callers[i := c.(phase := Done(Decide(limit, level)))],
       log := s.log + [Attempt(c.now, c.phase.readAt, s.clock)],
       order := s.order + [i])
  }

  function Start(key: Stored, n: nat, clock: int): System {
    System(key, 0, clock, seq(n, i => Caller(0, New)), [], [], 0, 0, 0)
  }

  function Run(limit: Limit, s: System, events: seq<Event>): System
    requires limit.Live()
  {
    if events == [] then s
    else Step(limit, Run(limit, s, events[..|events| - 1]), events[|events| - 1])
  }

  // ----- every interleaving is a serial run in EXEC order

  /** The k-th commit is caller i's, at its captured time and with the serial answer. */
  ghost predicate Committed(limit: Limit, key0: Stored, s: System, i: nat, k: nat)
    requires limit.Live()
  {
    && k < |s.order| == |s.log| && i < |s.callers|
    && s.order[k] == i && s.log[k].now == s.callers[i].now
    && s.callers[i].phase == Done(VerdictAt(limit, key0, s.log, k))
  }

  ghost predicate CallerOk(limit: Limit, key0: Stored, s: System, i: nat)
    requires limit.Live() && i < |s.callers|
  {
    var c := s.callers[i];
    match c.phase
    case New => true
    case Ready => c.now <= s.clock
    case Watching(v, _) => c.now <= s.clock && v <= |s.log|
    case Fetched(v, _, seen, readAt) =>
      && c.now <= readAt <= s.clock && v <= |s.log|
      && (v == |s.log| ==>
            && seen == Seen(s.key, readAt)
            && (forall k :: 0 <= k < |s.log| ==> s.log[k].execAt <= readAt))
    case Done(_) => exists k: nat :: Committed(limit, key0, s, i, k)
  }

  ghost predicate HistoryOk(limit: Limit, key0: Stored, s: System)
    requires limit.Live()
  {
    && s.version == |s.log| == |s.order|
    && s.key == Replay(limit, key0, s.log)
    && Possible(s.log) && (forall k :: 0 <= k < |s.log| ==> s.log[k].execAt <= s.clock)
    && (forall k :: 0 <= k < |s.order| ==> s.order[k] < |s.callers| && s.callers[s.order[k]].phase.Done?)
    && (forall j, k :: 0 <= j < k < |s.order| ==> s.order[j] != s.order[k])
  }

  ghost predicate Serial(limit: Limit, key0: Stored, s: System)
    requires limit.Live()
  {
    HistoryOk(limit, key0, s) && forall i :: 0 <= i < |s.callers| ==> CallerOk(limit, key0, s, i)
  }

  lemma CommitIsSerial(limit: Limit, key0: Stored, s: System, i: nat)
    requires limit.Live() && HistoryOk(limit, key0, s) && CanCommit(s, i) && CallerOk(limit, key0, s, i)
    ensures var t, a := CommitCaller(limit, s, i), Attempt(s.callers[i].now, s.callers[i].phase.readAt, s.clock);
            && t.key == Some(CommitRow(limit, s.key, a)) && t.log == s.log + [a]
            && t.callers[i].phase == Done(CommitVerdict(limit, s.key, a))
            && a.now <= a.readAt <= a.execAt && (forall k :: 0 <= k < |s.log| ==> s.log[k].execAt <= a.readAt)
  {
  }

  lemma CommitKeepsHistory(limit: Limit, key0: Stored, s: System, i: nat)
    requires limit.Live() && HistoryOk(limit, key0, s) && CanCommit(s, i) && CallerOk(limit, key0, s, i)
    ensures HistoryOk(limit, key0, CommitCaller(limit, s, i))
    ensures Committed(limit, key0, CommitCaller(limit, s, i), i, |s.log|)
  {
    hide Refilled, Seen, CommitRow, CommitVerdict, Charge, Decide, CallerOk;
    var t := CommitCaller(limit, s, i);
    CommitIsSerial(limit, key0, s, i);
    assert t.log[..|s.log|] == s.log;
    assert forall k :: 0 <= k < |s.order| ==> s.order[k] != i;
  }

  lemma CommitKeepsCallers(limit: Limit, key0: Stored, s: System, i: nat, j: nat)
    requires limit.Live() && HistoryOk(limit, key0, s) && CanCommit(s, i)
    requires j < |s.callers| && j != i && CallerOk(limit, key0, s, j)
    ensures CallerOk(limit, key0, CommitCaller(limit, s, i), j)
  {
    hide Refilled, Seen, Replay, CommitRow, CommitVerdict, Charge, Decide;
    if s.callers[j].phase.Done? {
      var t := CommitCaller(limit, s, i);
      var k: nat :| Committed(limit, key0, s, j, k);
      assert t.log[..k] == s.log[..k];
      assert Committed(limit, key0, t, j, k);
    }
  }

  /** A round trip that commits nothing changes no caller but its own. */
  lemma RoundTripKeepsCallers(limit: Limit, key0: Stored, s: System, i: nat, j: nat)
    requires limit.Live() && HistoryOk(limit, key0, s) && Unfinished(s, i) && !CanCommit(s, i)
    requires j < |s.callers| && CallerOk(limit, key0, s, j)
    ensures CallerOk(limit, key0, AdvanceCaller(limit, s, i), j)
  {
    hide Refilled, Replay, CommitRow, CommitVerdict, Charge, Decide;
    if s.callers[j].phase.Done? {
      var k: nat :| Committed(limit, key0, s, j, k);
      assert Committed(limit, key0, AdvanceCaller(limit, s, i), j, k);
    }
  }

  lemma AdvanceKeepsSerial(limit: Limit, key0: Stored, s: System, i: nat)
    requires limit.Live() && Serial(limit, key0, s) && Unfinished(s, i)
    ensures Serial(limit, key0, AdvanceCaller(limit, s, i))
  {
    hide Refilled, Replay, CommitRow, CommitVerdict, Charge, Decide, CallerOk;
    var t := AdvanceCaller(limit, s, i);
    if CanCommit(s, i) {
      CommitKeepsHistory(limit, key0, s, i);
      CommittedIsOk(limit, key0, t, i, |s.log|);
    }
    forall j | 0 <= j < |t.callers| ensures CallerOk(limit, key0, t, j) {
      if !CanCommit(s, i) {
        RoundTripKeepsCallers(limit, key0, s, i, j);
      } else if j != i {
        CommitKeepsCallers(limit, key0, s, i, j);
      }
    }
  }

  lemma CommittedIsOk(limit: Limit, key0: Stored, s: System, i: nat, k: nat)
    requires limit.Live() && Committed(limit, key0, s, i, k)
    ensures CallerOk(limit, key0, s, i)
  {
  }

  lemma StepKeepsSerial(limit: Limit, key0: Stored, s: System, e: Event)
    requires limit.Live() && Serial(limit, key0, s)
    ensures Serial(limit, key0, Step(limit, s, e))
  {
    hide Replay, CallerOk, AdvanceCaller;
    var t := Step(limit, s, e);
    var a := if e.Advance? && Unfinished(s, e.i) then AdvanceCaller(limit, s, e.i) else s;
    if e.Advance? && Unfinished(s, e.i) {
      AdvanceKeepsSerial(limit, key0, s, e.i);
    }
    forall j | 0 <= j < |t.callers| ensures CallerOk(limit, key0, t, j) {
      CallerFrame(limit, key0, a, t, j);
    }
  }

  lemma CallerFrame(limit: Limit, key0: Stored, s: System, t: System, j: nat)
    requires limit.Live() && j < |s.callers| && CallerOk(limit, key0, s, j)
    requires t == s.(clock := t.clock, steps := t.steps) && s.clock <= t.clock
    ensures CallerOk(limit, key0, t, j)
  {
    if s.callers[j].phase.Done? {
      var k: nat :| Committed(limit, key0, s, j, k);
      assert Committed(limit, key0, t, j, k);
    }
  }

  lemma StartIsSerial(limit: Limit, key0: Stored, n: nat, clock: int)
    requires limit.Live()
    ensures Serial(limit, key0, Start(key0, n, clock))
  {
  }

  lemma StepKeepsCallers(limit: Limit, s: System, e: Event)
    requires limit.Live()
    ensures |Step(limit, s, e).callers| == |s.callers|
  {
  }

  lemma {:induction false} RunIsSerial(limit: Limit, key0: Stored, n: nat, clock: int, events: seq<Event>)
    requires limit.Live()
    ensures Serial(limit, key0, Run(limit, Start(key0, n, clock), events))
    ensures |Run(limit, Start(key0, n, clock), events).callers| == n
  {
    hide CallerOk, HistoryOk, AdvanceCaller;
    if events == [] {
      StartIsSerial(limit, key0, n, clock);
    } else {
      RunIsSerial(limit, key0, n, clock, events[..|events| - 1]);
      StepKeepsCallers(limit, Run(limit, Start(key0, n, clock), events[..|events| - 1]), events[|events| - 1]);
      StepKeepsSerial(limit, key0, Run(limit, Start(key0, n, clock), events[..|events| - 1]), events[|events| - 1]);
    }
  }

  /** Under any interleaving the key holds what the committed calls leave behind when they
      run one at a time in EXEC order, each with its captured time; each finished caller is
      in that order exactly once and was told what it would have been told there. */
  lemma InterleavingRefinesSerial(limit: Limit, key0: Stored, n: nat, clock: int, events: seq<Event>, i: nat)
    requires limit.Live() && i < n
    ensures var s := Run(limit, Start(key0, n, clock), events);
            && |s.callers| == n
            && Possible(s.log) && s.key == Replay(limit, key0, s.log)
            && (s.callers[i].phase.Done? <==> i in s.order)
            && (s.callers[i].phase.Done? ==>
                  exists k: nat :: Committed(limit, key0, s, i, k)
                                   && forall j :: 0 <= j < |s.order| && s.order[j] == i ==> j == k)
  {
    RunIsSerial(limit, key0, n, clock, events);
    var s := Run(limit, Start(key0, n, clock), events);
    assert CallerOk(limit, key0, s, i);
    if s.callers[i].phase.Done? {
      var k: nat :| Committed(limit, key0, s, i, k);
      assert forall j :: 0 <= j < |s.order| && s.order[j] == i ==> j == k;
    }
  }

  /** A caller's captured time is the clock of its first step, however often it retries: this is
      the step, and before it the caller had made none. */
  lemma {:induction false} TimeIsCapturedOnce(
      limit: Limit, key0: Stored, n: nat, clock: int, events: seq<Event>, i: nat) returns (j: nat)
    requires limit.Live() && i < n
    ensures var t := Run(limit, Start(key0, n, clock), events);
            && i < |t.callers| && j <= |events|
            && (forall k :: 0 <= k < j ==> events[k] != Advance(i))
            && (t.callers[i].phase.New? <==> j == |events|)
            && (j < |events| ==> events[j] == Advance(i)
                                 && t.callers[i].now == Run(limit, Start(key0, n, clock), events[..j]).clock)
    decreases |events|
  {
    var s0 := Start(key0, n, clock);
    if events == [] {
      j := 0;
    } else {
      var m := |events| - 1;
      var s := Run(limit, s0, events[..m]);
      hide Start, Step;
      j := TimeIsCapturedOnce(limit, key0, n, clock, events[..m], i);
      CapturedOnce(limit, s, events[m], i);
      assert events[..m][..j] == events[..j];
      if j == m && events[m] != Advance(i) {
        j := m + 1;
      }
    }
  }

  lemma CapturedOnce(limit: Limit, s: System, e: Event, i: nat)
    requires limit.Live() && i < |s.callers|
    ensures var t := Step(limit, s, e);
            && i < |t.callers|
            && (!s.callers[i].phase.New? ==> !t.callers[i].phase.New? && t.callers[i].now == s.callers[i].now)
            && (s.callers[i].phase.New? ==>
                  if e == Advance(i) then !t.callers[i].phase.New? && t.callers[i].now == s.clock
                  else t.callers[i].phase.New?)
  {
  }

  /** The advertised rate therefore holds of the interleaved calls themselves, as long as
      no committed call read the key more than a window after capturing its time. */
  lemma InterleavedRateBound(limit: Limit, key0: Stored, n: nat, clock: int, events: seq<Event>)
    requires limit.Live() && WellStored(limit, key0)
    requires LagAtMost(Run(limit, Start(key0, n, clock), events).log, limit.W())
    ensures var s := Run(limit, Start(key0, n, clock), events);
            limit.W() * Spent(limit, key0, s.log) + Tokens(limit, s.key)
            <= Tokens(limit, key0) + limit.maxCalls * Gained(limit, key0, s.log)
  {
    RunIsSerial(limit, key0, n, clock, events);
    Conservation(limit, key0, Run(limit, Start(key0, n, clock), events).log);
  }

  // ----- how often the loop can retry

  function Stale(c: Caller, version: nat): nat {
    if (c.phase.Watching? || c.phase.Fetched?) && c.phase.version < version then 1 else 0
  }

  function StaleCount(callers: seq<Caller>, version: nat): nat {
    if callers == [] then 0 else StaleCount(callers[..|callers| - 1], version) + Stale(callers[|callers| - 1], version)
  }

  /** A watch on the present key, which was live and has expired. */
  function Doomed(c: Caller, version: nat, lapsed: bool): nat {
    if (c.phase.Watching? || c.phase.Fetched?) && c.phase.version == version && c.phase.live && lapsed then 1 else 0
  }

  function DoomedCount(callers: seq<Caller>, version: nat, lapsed: bool): nat {
    if callers == [] then 0
    else DoomedCount(callers[..|callers| - 1], version, lapsed) + Doomed(callers[|callers| - 1], version, lapsed)
  }

  function IsDone(c: Caller): nat { if c.phase.Done? then 1 else 0 }

  function DoneCount(callers: seq<Caller>): nat {
    if callers == [] then 0 else DoneCount(callers[..|callers| - 1]) + IsDone(callers[|callers| - 1])
  }

  /** Round trips a caller has behind it in the present attempt. */
  function Progress(c: Caller): nat {
    match c.phase
    case New => 0
    case Ready => 1
    case Watching(_, _) => 2
    case Fetched(_, _, _, _) => 3
    case Done(_) => 4
  }

  function TotalProgress(callers: seq<Caller>): nat {
    if callers == [] then 0 else TotalProgress(callers[..|callers| - 1]) + Progress(callers[|callers| - 1])
  }

  /** (n - 1) + (n - 2) + ... + (n - k) */
  function Rivals(n: nat, k: nat): int {
    if k == 0 then 0 else Rivals(n, k - 1) + n - k
  }

  lemma {:induction false} RivalsClosedForm(n: nat, k: nat)
    ensures 2 * Rivals(n, k) == k * (2 * n - k - 1)
  {
    if k > 0 {
      RivalsClosedForm(n, k - 1);
      RivalsArithmetic(n, k);
    }
  }

  lemma RivalsArithmetic(n: int, k: int)
    ensures (k - 1) * (2 * n - k) + 2 * (n - k) == k * (2 * n - k - 1)
  {
  }

  lemma {:induction false} RivalsGrow(n: nat, k: nat, m: nat)
    requires k <= m <= n
    ensures Rivals(n, k) <= Rivals(n, m)
  {
    if k < m {
      RivalsGrow(n, k, m - 1);
    }
  }

  lemma RivalsBound(n: nat, k: nat)
    requires k <= n
    ensures 2 * Rivals(n, k) <= n * (n - 1)
  {
    RivalsGrow(n, k, n);
    RivalsClosedForm(n, n);
    assert 2 * n - n - 1 == n - 1;
  }

  /** n + (n - 1) + ... + (n - k + 1) */
  function Waits(n: nat, k: nat): int {
    if k == 0 then 0 else Waits(n, k - 1) + n - k + 1
  }

  lemma {:induction false} WaitsAreRivals(n: nat, k: nat)
    ensures Waits(n, k) == Rivals(n, k) + k
  {
    if k > 0 {
      WaitsAreRivals(n, k - 1);
    }
  }

  lemma {:induction false} UpdateCounts(callers: seq<Caller>, i: nat, c: Caller, version: nat, lapsed: bool)
    requires i < |callers|
    ensures DoomedCount(callers[i := c], version, lapsed)
            == DoomedCount(callers, version, lapsed) - Doomed(callers[i], version, lapsed) + Doomed(c, version, lapsed)
    ensures StaleCount(callers[i := c], version)
            == StaleCount(callers, version) - Stale(callers[i], version) + Stale(c, version)
    ensures DoneCount(callers[i := c]) == DoneCount(callers) - IsDone(callers[i]) + IsDone(c)
    ensures TotalProgress(callers[i := c]) == TotalProgress(callers) - Progress(callers[i]) + Progress(c)
  {
    var last := |callers| - 1;
    if i == last {
      assert callers[i := c][..last] == callers[..last];
    } else {
      assert callers[i := c][..last] == callers[..last][i := c];
      UpdateCounts(callers[..last], i, c, version, lapsed);
    }
  }

  lemma {:induction false} CountsAreBounded(callers: seq<Caller>, version: nat, lapsed: bool)
    ensures StaleCount(callers, version) + DoneCount(callers) <= |callers|
    ensures DoomedCount(callers, version, lapsed) + DoneCount(callers) <= |callers|
    ensures !lapsed ==> DoomedCount(callers, version, lapsed) == 0
    ensures TotalProgress(callers) <= 4 * |callers|
  {
    if callers != [] {
      CountsAreBounded(callers[..|callers| - 1], version, lapsed);
    }
  }

  /** Every abort and every watch about to abort is paid for by a commit that came between, and
      the k-th commit has at most n - k unfinished rivals; or by an expiry, which the key
      suffers at most once per writing and which at most the unfinished callers notice. */
  ghost predicate Paid(s: System) {
    && s.version == DoneCount(s.callers)
    && s.aborts + StaleCount(s.callers, s.version) <= Rivals(|s.callers|, s.version)
    && s.lapses + DoomedCount(s.callers, s.version, Lapsed(s))
       <= Waits(|s.callers|, s.version) + (if Lapsed(s) then |s.callers| - s.version else 0)
    && s.steps == TotalProgress(s.callers) + 3 * (s.aborts + s.lapses)
  }

  predicate WatchesThePast(s: System, i: nat)
    requires i < |s.callers|
  {
    s.callers[i].phase.Watching? || s.callers[i].phase.Fetched? ==> s.callers[i].phase.version <= s.version
  }

  lemma AdvanceKeepsPaid(limit: Limit, s: System, i: nat)
    requires limit.Live() && Unfinished(s, i) && Paid(s) && WatchesThePast(s, i)
    ensures Paid(Step(limit, s, Advance(i)))
  {
    hide StaleCount, DoneCount, DoomedCount, TotalProgress, Refilled, Charge, Decide;
    var t := Step(limit, s, Advance(i));
    UpdateCounts(s.callers, i, t.callers[i], s.version, Lapsed(s));
    UpdateCounts(s.callers, i, t.callers[i], t.version, Lapsed(t));
    CountsAreBounded(s.callers, s.version, Lapsed(s));
    CountsAreBounded(t.callers, t.version, Lapsed(t));
  }

  /** Time passes: the key may expire, for those who still wait. */
  lemma TickKeepsPaid(limit: Limit, s: System, ms: nat)
    requires limit.Live() && Paid(s)
    ensures Paid(Step(limit, s, Tick(ms)))
  {
    hide StaleCount, DoneCount, DoomedCount, TotalProgress, Rivals, Waits;
    var t := Step(limit, s, Tick(ms));
    CountsAreBounded(s.callers, s.version, Lapsed(s));
    CountsAreBounded(s.callers, s.version, Lapsed(t));
    assert Lapsed(s) ==> Lapsed(t);
  }

  lemma {:induction false} RunIsPaid(limit: Limit, key0: Stored, n: nat, clock: int, events: seq<Event>)
    requires limit.Live()
    ensures Paid(Run(limit, Start(key0, n, clock), events))
  {
    hide StaleCount, DoneCount, DoomedCount, TotalProgress, Replay, Possible, AdvanceCaller, Rivals, Waits, Paid;
    if events == [] {
      StartIsPaid(key0, n, clock);
    } else {
      var e := events[|events| - 1];
      var s := Run(limit, Start(key0, n, clock), events[..|events| - 1]);
      RunIsPaid(limit, key0, n, clock, events[..|events| - 1]);
      RunIsSerial(limit, key0, n, clock, events[..|events| - 1]);
      if e.Advance? && Unfinished(s, e.i) {
        assert CallerOk(limit, key0, s, e.i);
        assert WatchesThePast(s, e.i);
        AdvanceKeepsPaid(limit, s, e.i);
      } else if e.Tick? {
        TickKeepsPaid(limit, s, e.ms);
      }
    }
  }

  lemma StartIsPaid(key0: Stored, n: nat, clock: int)
    ensures Paid(Start(key0, n, clock))
  {
    StartCounts(n, Lapsed(Start(key0, n, clock)));
  }

  lemma {:induction false} StartCounts(n: nat, lapsed: bool)
    ensures var cs := seq(n, i => Caller(0, New));
            StaleCount(cs, 0) == DoneCount(cs) == TotalProgress(cs) == DoomedCount(cs, 0, lapsed) == 0
  {
    if n > 0 {
      StartCounts(n - 1, lapsed);
      assert seq(n, i => Caller(0, New))[..n - 1] == seq(n - 1, i => Caller(0, New));
    }
  }

  lemma AbortBound(n: nat, version: nat, aborts: nat, lapses: nat)
    requires version <= n && aborts <= Rivals(n, version) && lapses <= Waits(n, version) + n - version
    ensures 2 * aborts <= n * (n - 1) && 2 * lapses <= n * (n + 1)
  {
    RivalsBound(n, version);
    WaitsAreRivals(n, version);
    assert n * (n + 1) == n * (n - 1) + 2 * n;
  }

  /** n calls suffer at most n(n-1)/2 aborts from each other's commits and n(n+1)/2 from the key
      expiring under them, whatever the scheduler does. */
  lemma RetriesAreBounded(limit: Limit, key0: Stored, n: nat, clock: int, events: seq<Event>)
    requires limit.Live()
    ensures var s := Run(limit, Start(key0, n, clock), events);
            && 2 * s.aborts <= n * (n - 1)
            && 2 * s.lapses <= n * (n + 1)
            && s.steps <= 4 * n + 3 * (n * n)
  {
    hide Rivals, Waits, StaleCount, DoneCount, DoomedCount, TotalProgress, HistoryOk, CallerOk;
    var s := Run(limit, Start(key0, n, clock), events);
    RunIsPaid(limit, key0, n, clock, events);
    RunIsSerial(limit, key0, n, clock, events);
    CountsAreBounded(s.callers, s.version, Lapsed(s));
    AbortBound(n, s.version, s.aborts, s.lapses);
    assert n * (n + 1) + n * (n - 1) == 2 * (n * n);
  }

  /** The round trips in a run. */
  function Trips(events: seq<Event>): nat {
    if events == [] then 0 else Trips(events[..|events| - 1]) + if events[|events| - 1].Advance? then 1 else 0
  }

  /** Every round trip is one of a call that has not returned. */
  ghost predicate Busy(limit: Limit, s: System, events: seq<Event>)
    requires limit.Live()
  {
    forall k :: 0 <= k < |events| && events[k].Advance? ==> Unfinished(Run(limit, s, events[..k]), events[k].i)
  }

  lemma {:induction false} BusyRunsCount(limit: Limit, s: System, events: seq<Event>)
    requires limit.Live() && Busy(limit, s, events)
    ensures Run(limit, s, events).steps == s.steps + Trips(events)
  {
    if events != [] {
      var prefix := events[..|events| - 1];
      assert forall k {:trigger prefix[..k]} :: 0 <= k < |prefix| ==> prefix[..k] == events[..k];
      BusyRunsCount(limit, s, prefix);
      StepCounts(limit, Run(limit, s, prefix), events[|events| - 1]);
    }
  }

  lemma StepCounts(limit: Limit, s: System, e: Event)
    requires limit.Live() && (e.Advance? ==> Unfinished(s, e.i))
    ensures Step(limit, s, e).steps == s.steps + if e.Advance? then 1 else 0
  {
  }

  /** `while True` terminates: however they are interleaved and time passes, n calls have all
      returned after 4n + 3n^2 round trips. */
  lemma AllCallsReturn(limit: Limit, key0: Stored, n: nat, clock: int, events: seq<Event>)
    requires limit.Live() && Busy(limit, Start(key0, n, clock), events)
    ensures Trips(events) <= 4 * n + 3 * (n * n)
  {
    BusyRunsCount(limit, Start(key0, n, clock), events);
    RetriesAreBounded(limit, key0, n, clock, events);
  }
}
