/** What the message tables hold after any run, said by their columns: who gets which rows, whose
    text a message shows and who sent it to whom. */
module DeliveryLaws {
  import opened Prelude
  import opened MessageFlow

  lemma RunExtends(window: nat, events: seq<Event>, e: Event)
    ensures Run(window, Empty, events + [e]) == Step(window, Run(window, Empty, events), e)
  {
    hide Step;
    RunAppends(window, Empty, events, [e]);
    RunOfOne(window, Run(window, Empty, events), e);
  }

  lemma LastStep(window: nat, events: seq<Event>)
    requires events != []
    ensures var n := |events| - 1;
            Run(window, Empty, events) == Step(window, Run(window, Empty, events[..n]), events[n])
  {
    var n := |events| - 1;
    assert events == events[..n] + [events[n]];
    RunExtends(window, events[..n], events[n]);
  }

  // ----- who gets which rows

  /** A statement under way ends with the answer to what it found, or is rolled back. */
  ghost predicate EndsAs(s: State, r: Req, op: Op, ids: set<RowId>) {
    r in s.reqs && s.reqs[r] in {Holding(op, ids), Done(Answer(op, ids)), Done(Aborted)}
  }

  lemma StepEndsAs(window: nat, s: State, e: Event, r: Req, op: Op, ids: set<RowId>)
    requires EndsAs(s, r, op, ids)
    ensures EndsAs(Step(window, s, e), r, op, ids)
  {
    hide Selected, Blocked, Write, NewClaims, NewDeletions, Holds, Answer;
  }

  lemma {:induction false} RunEndsAs(window: nat, s: State, events: seq<Event>, r: Req, op: Op, ids: set<RowId>)
    requires EndsAs(s, r, op, ids)
    ensures EndsAs(Run(window, s, events), r, op, ids)
    decreases |events|
  {
    if events != [] {
      hide EndsAs, Step;
      StepEndsAs(window, s, events[0], r, op, ids);
      RunEndsAs(window, Step(window, s, events[0]), events[1..], r, op, ids);
    }
  }

  lemma BegunEndsAs(window: nat, s: State, r: Req, op: Op) returns (ids: set<RowId>)
    requires r !in s.reqs && !op.Edit? && r in Step(window, s, Begin(r, op)).reqs
    ensures EndsAs(Step(window, s, Begin(r, op)), r, op, ids)
    ensures forall id :: id in ids <==> id in Selected(window, s.rows, op) && !(op.Claim? && Blocked(s, op, id))
  {
    hide Matches, Blocked, Holds;
    var found := Selected(window, s.rows, op);
    ids := if op.Claim? then set id <- found | !Blocked(s, op, id) else found;
  }

  /** In every run, whatever goes on at the same time: what a reconnect, a receipt or a local
      delivery is told it got are exactly the rows that were its to get when it looked.  For a
      reconnect, the unread undeleted messages, or shares, addressed to that user and not locked
      by anybody; for a receipt, the unread messages from that sender to that reader; for a
      local delivery, the one message, if unread. */
  lemma EverybodyGetsTheirOwn(window: nat, before: seq<Event>, r: Req, op: Op, after: seq<Event>, ids: set<RowId>)
    requires op.Claim? || op.Receipt? || op.MarkRead?
    ensures var s := Run(window, Empty, before);
            var started := Step(window, s, Begin(r, op));
            var t := Run(window, started, after);
            r !in s.reqs && r in started.reqs && r in t.reqs && t.reqs[r] == Done(Claimed(ids)) ==>
              forall id :: id in ids <==>
                && id in s.rows && !s.rows[id].isRead
                && match op
                   case Claim(user, shares, _) =>
                     && id.Share? == shares && s.rows[id].receiver == user && !s.rows[id].isDeleted
                     && forall q <- s.reqs :: s.reqs[q].Holding? ==> id !in s.reqs[q].locked
                   case Receipt(sender, reader, _) =>
                     id.Msg? && s.rows[id].sender == sender && s.rows[id].receiver == reader
                   case MarkRead(target, _) => id == target
                   case _ => false
  {
    var s := Run(window, Empty, before);
    var started := Step(window, s, Begin(r, op));
    if r !in s.reqs && r in started.reqs {
      var found := BegunEndsAs(window, s, r, op);
      hide Run, Step;
      RunEndsAs(window, started, after, r, op, found);
    }
  }

  /** A deletion for everyone that was not rolled back took effect exactly if the row was there,
      the caller's own and not deleted when it looked. */
  lemma OnlyTheSenderDeletes(window: nat, before: seq<Event>, r: Req, id: RowId, sender: User, after: seq<Event>)
    ensures var s := Run(window, Empty, before);
            var started := Step(window, s, Begin(r, Delete(id, sender)));
            var t := Run(window, started, after);
            r !in s.reqs && r in started.reqs && r in t.reqs && t.reqs[r].Done? && !t.reqs[r].reply.Aborted? ==>
              t.reqs[r] == Done(if id in s.rows && s.rows[id].sender == sender && !s.rows[id].isDeleted
                                then DeletedForAll else DeleteRefused)
  {
    var s := Run(window, Empty, before);
    var op := Delete(id, sender);
    var started := Step(window, s, Begin(r, op));
    if r !in s.reqs && r in started.reqs {
      var found := BegunEndsAs(window, s, r, op);
      hide Run, Step;
      RunEndsAs(window, started, after, r, op, found);
      assert found == {} <==> id !in found;
    }
  }

  // ----- who sent what to whom

  /** The step inserts the message. */
  predicate Inserts(s: State, e: Event, id: RowId) {
    e.Send? && e.id == id && id !in s.rows
  }

  lemma StepKeepsParties(window: nat, s: State, e: Event, id: RowId)
    requires id in s.rows
    ensures var t := Step(window, s, e);
            && id in t.rows && t.rows[id].sender == s.rows[id].sender && t.rows[id].receiver == s.rows[id].receiver
            && t.rows[id].createdAt == s.rows[id].createdAt
  {
    hide Selected, Blocked, Holds;
  }

  /** Every row was inserted by a step of the run, and sender, receiver and time are those of
      its insertion for good. */
  lemma {:induction false} PartiesAreAsSent(window: nat, events: seq<Event>, id: RowId) returns (j: nat)
    requires id in Run(window, Empty, events).rows
    ensures j < |events|
    ensures var s, row := Run(window, Empty, events[..j]), Run(window, Empty, events).rows[id];
            && Inserts(s, events[j], id)
            && row.sender == events[j].sender && row.receiver == events[j].receiver && row.createdAt == s.clock
    decreases |events|
  {
    assert events != [];
    j := |events| - 1;
    LastStep(window, events);
    var s := Run(window, Empty, events[..j]);
    if id in s.rows {
      var n := j;
      hide Step, Run;
      StepKeepsParties(window, s, events[n], id);
      j := PartiesAreAsSent(window, events[..n], id);
      assert events[..n][..j] == events[..j];
    }
  }

  /** The text the step gives the message, if it does: that of its insertion or of an edit that
      commits. */
  function Gives(s: State, e: Event, id: RowId): Option<Content> {
    match e
    case Send(target, _, _, content) => if target == id && id !in s.rows then Some(content) else None
    case Commit(r) =>
      if r in s.reqs && s.reqs[r].Holding? && s.reqs[r].op.Edit? && id in s.reqs[r].locked
      then Some(s.reqs[r].op.content) else None
    case _ => None
  }

  /** The last text any step of the run gave the message. */
  function LastGiven(window: nat, events: seq<Event>, id: RowId): Option<Content>
    decreases |events|
  {
    if events == [] then None
    else
      var n := |events| - 1;
      var given := Gives(Run(window, Empty, events[..n]), events[n], id);
      if given.Some? then given else LastGiven(window, events[..n], id)
  }

  lemma StepGives(window: nat, s: State, e: Event, id: RowId)
    requires id in Step(window, s, e).rows
    ensures Gives(s, e, id).Some? ==> Step(window, s, e).rows[id].content == Gives(s, e, id).value
    ensures Gives(s, e, id).None? ==> id in s.rows && Step(window, s, e).rows[id].content == s.rows[id].content
  {
    hide Selected, Blocked, Holds;
  }

  /** In every run a message shows the text of the last edit of it that committed, or the text
      it was sent with. */
  lemma {:induction false} TextIsTheLastGiven(window: nat, events: seq<Event>, id: RowId)
    requires id in Run(window, Empty, events).rows
    ensures LastGiven(window, events, id) == Some(Run(window, Empty, events).rows[id].content)
    decreases |events|
  {
    assert events != [];
    var n := |events| - 1;
    LastStep(window, events);
    var s := Run(window, Empty, events[..n]);
    hide Run, Step, Gives;
    StepGives(window, s, events[n], id);
    if Gives(s, events[n], id).None? {
      TextIsTheLastGiven(window, events[..n], id);
    }
  }
}
