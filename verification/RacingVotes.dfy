/** Votes on posts and comments whose read and write are apart (app/routes/like.py:47-98 and
    123-156): other requests commit between the SELECT and the flush, and a unique constraint or
    a missing row can make the write fail. */
module RacingVotes {
  import opened Prelude
  import opened Counters
  import opened CounterInvariant
  import opened SocialRules

  type Req = nat

  /** What is voted on. */
  datatype Target = OnPost(id: Id) | OnComment(id: Id)

  datatype Answer =
    | Ordinary(outcome: Outcome)
    | Conflict   // 409, IntegrityError
    | Stale      // the row to update is gone
    | Broken     // no counts to return: the post is gone

  /** A request has read the user's vote, or none; or it has committed its row change and is
      about to read the counts it returns. */
  datatype Phase =
    | Looked(target: Target, user: Id, choice: bool, seen: Option<bool>)
    | Wrote(target: Target, outcome: Outcome)
    | Done(answer: Answer)

  datatype State = State(db: Db, reqs: map<Req, Phase>)

  /** `Other` is any row change of any other request. */
  datatype Event =
    | Look(r: Req, target: Target, user: Id, choice: bool)
    | Write(r: Req)
    | Count(r: Req)
    | Other(e: CounterInvariant.Event)

  function VoteRow(target: Target, user: Id, choice: bool): Row {
    match target
    case OnPost(id) => Vote(id, user, choice)
    case OnComment(id) => CommentVote(id, user, choice)
  }

  function TargetKey(target: Target): Key {
    match target
    case OnPost(id) => PostKey(id)
    case OnComment(id) => CommentKey(id)
  }

  /** The user's vote as the table has it. */
  function VoteOf(rows: set<Row>, target: Target, user: Id): Option<bool> {
    if VoteRow(target, user, true) in rows then Some(true)
    else if VoteRow(target, user, false) in rows then Some(false)
    else None
  }

  /** The row change the flush attempts, given what was read: INSERT, DELETE by primary key or
      UPDATE by primary key. */
  function Attempted(rows: set<Row>, p: Phase): Option<CounterInvariant.Event>
    requires p.Looked?
  {
    var now := VoteOf(rows, p.target, p.user);
    if p.seen.None? then Some(Insert(VoteRow(p.target, p.user, p.choice)))
    else if now.None? then None
    else if p.seen == Some(p.choice) then Some(Delete(VoteRow(p.target, p.user, now.value)))
    else Some(Update(VoteRow(p.target, p.user, now.value), VoteRow(p.target, p.user, p.choice)))
  }

  /** How the flush ends.  Deleting a row that is gone already is no error, updating one is. */
  function Written(db: Db, p: Phase): Phase
    requires p.Looked?
  {
    if p.seen.None? then
      (if CanInsert(db, VoteRow(p.target, p.user, p.choice)) then Wrote(p.target, Added) else Done(Conflict))
    else if p.seen == Some(p.choice) then Wrote(p.target, Removed)
    else if VoteOf(db.rows, p.target, p.user).None? then Done(Stale)
    else Wrote(p.target, Switched)
  }

  function DoLook(s: State, r: Req, target: Target, user: Id, choice: bool): State {
    s.(reqs := s.reqs[r :=
      if HasKey(s.db.rows, TargetKey(target)) then Looked(target, user, choice, VoteOf(s.db.rows, target, user))
      else Done(Ordinary(NotFound))])
  }

  /** One transaction; a statement the constraints refuse changes nothing. */
  function DoWrite(s: State, r: Req): State
    requires r in s.reqs && s.reqs[r].Looked?
  {
    var e := Attempted(s.db.rows, s.reqs[r]);
    State(if e.None? then s.db else CounterInvariant.Step(s.db, e.value), s.reqs[r := Written(s.db, s.reqs[r])])
  }

  /** The counts are read after the commit.  For a missing post `first()` is None and cannot be
      unpacked; for a missing comment `scalar()` is None, which the response admits. */
  function DoCount(s: State, r: Req): State
    requires r in s.reqs && s.reqs[r].Wrote?
  {
    var p := s.reqs[r];
    var answer := if p.target.OnPost? && !HasKey(s.db.rows, TargetKey(p.target)) then Broken else Ordinary(p.outcome);
    s.(reqs := s.reqs[r := Done(answer)])
  }

  function Step(s: State, e: Event): State {
    match e
    case Look(r, target, user, choice) => if r in s.reqs then s else DoLook(s, r, target, user, choice)
    case Write(r) => if r in s.reqs && s.reqs[r].Looked? then DoWrite(s, r) else s
    case Count(r) => if r in s.reqs && s.reqs[r].Wrote? then DoCount(s, r) else s
    case Other(change) => s.(db := CounterInvariant.Step(s.db, change))
  }

  function Run(s: State, events: seq<Event>): State
    decreases |events|
  {
    if events == [] then s else Run(Step(s, events[0]), events[1..])
  }

  lemma StepKeepsCounters(s: State, e: Event)
    requires WellFormed(s.db) && NonNegative(s.db) && Agrees(s.db)
    ensures var t := Step(s, e); WellFormed(t.db) && NonNegative(t.db) && Agrees(t.db)
  {
    hide CounterInvariant.Step, Attempted, WellFormed, NonNegative, Agrees;
    var change := if e.Other? then Some(e.e)
                  else if e.Write? && e.r in s.reqs && s.reqs[e.r].Looked? then Attempted(s.db.rows, s.reqs[e.r])
                  else None;
    if change.Some? {
      StepIsARun(s.db, change.value);
      CountersAlwaysAgree(s.db, [change.value]);
    }
  }

  /** However votes race with each other and with everything else, every counter stays right
      and nobody has two votes on one thing. */
  lemma {:induction false} RacesKeepCounters(s: State, events: seq<Event>)
    requires WellFormed(s.db) && NonNegative(s.db) && Agrees(s.db)
    ensures var t := Run(s, events); WellFormed(t.db) && NonNegative(t.db) && Agrees(t.db)
    ensures forall target, user :: !(VoteRow(target, user, true) in Run(s, events).db.rows
                                     && VoteRow(target, user, false) in Run(s, events).db.rows)
    decreases |events|
  {
    if events != [] {
      StepKeepsCounters(s, events[0]);
      hide Step, Agrees, NonNegative;
      RacesKeepCounters(Step(s, events[0]), events[1..]);
    } else {
      forall target, user
        ensures !(VoteRow(target, user, true) in s.db.rows && VoteRow(target, user, false) in s.db.rows)
      {
        assert KeyOf(VoteRow(target, user, true)) == KeyOf(VoteRow(target, user, false));
      }
    }
  }

  // ----- when a race is harmless

  /** The toggle as if nobody came between its read and its write. */
  function Toggled(rows: set<Row>, target: Target, user: Id, choice: bool): set<Row> {
    match target
    case OnPost(id) => AfterVote(rows, id, user, choice)
    case OnComment(id) => AfterCommentVote(rows, id, user, choice)
  }

  function ToggleOutcome(rows: set<Row>, target: Target, user: Id, choice: bool): Outcome {
    match target
    case OnPost(id) => VoteOutcome(rows, id, user, choice)
    case OnComment(id) => CommentVoteOutcome(rows, id, user, choice)
  }

  lemma NewVoteFits(db: Db, target: Target, user: Id, choice: bool)
    requires WellFormed(db)
    ensures CanInsert(db, VoteRow(target, user, choice)) <==>
            HasKey(db.rows, TargetKey(target)) && HasKey(db.rows, UserKey(user)) && VoteOf(db.rows, target, user).None?
  {
    var row := VoteRow(target, user, choice);
    assert Parents(row) == {TargetKey(target), UserKey(user)};
    var now := VoteOf(db.rows, target, user);
    if now.Some? {
      assert KeyOf(VoteRow(target, user, now.value)) == KeyOf(row);
    } else {
      forall q <- db.rows ensures KeyOf(q) != KeyOf(row) {
        assert row == VoteRow(target, user, true) || row == VoteRow(target, user, false);
      }
    }
    assert forall q :: KeyOf(row) !in Parents(q);
  }

  /** How every write ends, lost races included, by what was read and what is there now: an
      insert is refused if target or user are gone or a vote is there; deleting a vote that is
      gone changes nothing, updating it is an error; otherwise whatever vote is there goes or
      becomes the chosen one. */
  lemma WriteLeaves(s: State, r: Req)
    requires WellFormed(s.db) && r in s.reqs && s.reqs[r].Looked?
    ensures var p, rows, t := s.reqs[r], s.db.rows, DoWrite(s, r);
            var now, yes := VoteOf(rows, p.target, p.user), VoteRow(p.target, p.user, p.choice);
            var fits := now.None? && HasKey(rows, TargetKey(p.target)) && HasKey(rows, UserKey(p.user));
            if p.seen.None? then
              && t.reqs[r] == (if fits then Wrote(p.target, Added) else Done(Conflict))
              && t.db.rows == (if fits then rows + {yes} else rows)
            else if p.seen == Some(p.choice) then
              && t.reqs[r] == Wrote(p.target, Removed)
              && t.db.rows == (if now.Some? then rows - {VoteRow(p.target, p.user, now.value)} else rows)
            else
              && t.reqs[r] == (if now.Some? then Wrote(p.target, Switched) else Done(Stale))
              && t.db.rows == (if now.Some? then rows - {VoteRow(p.target, p.user, now.value)} + {yes} else rows)
  {
    hide Fire, WellFormed, CanInsert;
    var p := s.reqs[r];
    NewVoteFits(s.db, p.target, p.user, p.choice);
  }

  /** What an undisturbed toggle leaves. */
  lemma ToggleLeaves(db: Db, target: Target, user: Id, choice: bool)
    requires WellFormed(db) && Closed(db.rows)
    ensures var rows, now, yes := db.rows, VoteOf(db.rows, target, user), VoteRow(target, user, choice);
            && (now.Some? ==> HasKey(rows, TargetKey(target)) && HasKey(rows, UserKey(user)))
            && Toggled(rows, target, user, choice) ==
               (if !HasKey(rows, TargetKey(target)) then rows
                else if now == Some(choice) then rows - {yes}
                else if now.None? then rows + {yes}
                else rows - {VoteRow(target, user, !choice)} + {yes})
            && ToggleOutcome(rows, target, user, choice) ==
               (if !HasKey(rows, TargetKey(target)) then NotFound
                else if now.None? then Added else if now == Some(choice) then Removed else Switched)
            && (now.Some? ==> VoteRow(target, user, now.value) in rows && VoteRow(target, user, !now.value) !in rows)
            && (now.None? ==> yes !in rows && VoteRow(target, user, !choice) !in rows)
  {
    var rows, now := db.rows, VoteOf(db.rows, target, user);
    assert KeyOf(VoteRow(target, user, true)) == KeyOf(VoteRow(target, user, false));
    if now.Some? {
      assert Parents(VoteRow(target, user, now.value)) == {TargetKey(target), UserKey(user)};
    } else {
      assert rows - {VoteRow(target, user, !choice)} == rows;
    }
  }

  /** The write leaves the rows, and the outcome to answer, of an undisturbed toggle at that
      moment exactly when target and user still exist and the vote read is still the user's. */
  lemma WriteIsHarmlessIff(s: State, r: Req)
    requires WellFormed(s.db) && Closed(s.db.rows) && r in s.reqs && s.reqs[r].Looked?
    ensures var p, t := s.reqs[r], DoWrite(s, r);
            (t.db.rows == Toggled(s.db.rows, p.target, p.user, p.choice)
             && t.reqs[r] == Wrote(p.target, ToggleOutcome(s.db.rows, p.target, p.user, p.choice)))
            <==> && HasKey(s.db.rows, TargetKey(p.target)) && HasKey(s.db.rows, UserKey(p.user))
                 && VoteOf(s.db.rows, p.target, p.user) == p.seen
  {
    hide WellFormed, Closed, DoWrite, Toggled, ToggleOutcome, CanInsert, HasKey, VoteOf;
    var p := s.reqs[r];
    WriteLeaves(s, r);
    ToggleLeaves(s.db, p.target, p.user, p.choice);
    NewVoteFits(s.db, p.target, p.user, p.choice);
    var now, yes := VoteOf(s.db.rows, p.target, p.user), VoteRow(p.target, p.user, p.choice);
    assert now.None? || now == Some(p.choice) || now == Some(!p.choice);
    if p.seen.Some? {
      var seen: bool := p.seen.value;
      assert p.seen == Some(seen) && (seen == p.choice || seen == !p.choice);
    }
    if p.seen == Some(p.choice) && now.None? {
      assert yes in s.db.rows + {yes};
    }
  }

  function AnswerOf(s: State, r: Req): Option<Answer> {
    if r in s.reqs && s.reqs[r].Done? then Some(s.reqs[r].answer) else None
  }

  lemma {:induction false} RequestWaits(s: State, events: seq<Event>, r: Req)
    requires r in s.reqs && !s.reqs[r].Looked? && Count(r) !in events
    ensures r in Run(s, events).reqs && Run(s, events).reqs[r] == s.reqs[r]
    decreases |events|
  {
    if events != [] {
      RequestWaits(Step(s, events[0]), events[1..], r);
    }
  }

  /** A toggle whose counts are read after any further events changes the rows and answers as
      an undisturbed one would at its write if and only if target and user still existed, the
      vote it read was still the user's, and a post is still there when its counts are read. */
  lemma RaceIsHarmlessIff(s: State, r: Req, events: seq<Event>)
    requires WellFormed(s.db) && Closed(s.db.rows) && r in s.reqs && s.reqs[r].Looked? && Count(r) !in events
    ensures var p, t := s.reqs[r], DoWrite(s, r);
            var u := Run(t, events);
            (t.db.rows == Toggled(s.db.rows, p.target, p.user, p.choice)
             && AnswerOf(Step(u, Count(r)), r) == Some(Ordinary(ToggleOutcome(s.db.rows, p.target, p.user, p.choice))))
            <==> && HasKey(s.db.rows, TargetKey(p.target)) && HasKey(s.db.rows, UserKey(p.user))
                 && VoteOf(s.db.rows, p.target, p.user) == p.seen
                 && (p.target.OnPost? ==> HasKey(u.db.rows, TargetKey(p.target)))
  {
    WriteIsHarmlessIff(s, r);
    hide WellFormed, Closed, CounterInvariant.Step, Run, Toggled, ToggleOutcome, CanInsert, HasKey, VoteOf;
    RequestWaits(DoWrite(s, r), events, r);
  }

  /** With nobody in between, the three statements are the toggle. */
  lemma UndisturbedToggle(s: State, r: Req, target: Target, user: Id, choice: bool)
    requires WellFormed(s.db) && Closed(s.db.rows) && r !in s.reqs && HasKey(s.db.rows, UserKey(user))
    ensures var t := Step(Step(Step(s, Look(r, target, user, choice)), Write(r)), Count(r));
            && t.db.rows == Toggled(s.db.rows, target, user, choice)
            && AnswerOf(t, r) == Some(Ordinary(ToggleOutcome(s.db.rows, target, user, choice)))
  {
    hide WellFormed, Closed, CounterInvariant.Step, Toggled, ToggleOutcome, CanInsert, HasKey, VoteOf;
    var looked := Step(s, Look(r, target, user, choice));
    ToggleLeaves(s.db, target, user, choice);
    if looked.reqs[r].Looked? {
      WriteIsHarmlessIff(looked, r);
      assert HasKey(DoWrite(looked, r).db.rows, TargetKey(target)) by {
        WriteLeaves(looked, r);
        VotesKeepTargets(s.db.rows, DoWrite(looked, r).db.rows, target, user);
      }
    }
  }

  /** Votes come and go without touching what is voted on. */
  lemma VotesKeepTargets(rows: set<Row>, after: set<Row>, target: Target, user: Id)
    requires HasKey(rows, TargetKey(target))
    requires forall q <- rows :: q in after || q == VoteRow(target, user, true) || q == VoteRow(target, user, false)
    ensures HasKey(after, TargetKey(target))
  {
    var q :| q in rows && KeyOf(q) == TargetKey(target);
    assert q in after;
  }
}
