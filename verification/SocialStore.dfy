/** What the routes and message handlers do to the rows. */
module SocialRules {
  import opened Counters
  import opened CounterInvariant
  import opened RowLaws

  datatype Outcome = Added | Removed | Switched | NotFound | Forbidden | Refused

  function AfterVote(rows: set<Row>, post: Id, user: Id, choice: bool): set<Row> {
    if !HasKey(rows, PostKey(post)) then rows
    else if Vote(post, user, choice) in rows then rows - {Vote(post, user, choice)}
    else rows - {Vote(post, user, !choice)} + {Vote(post, user, choice)}
  }

  function VoteOutcome(rows: set<Row>, post: Id, user: Id, choice: bool): Outcome {
    if !HasKey(rows, PostKey(post)) then NotFound
    else if Vote(post, user, choice) in rows then Removed
    else if Vote(post, user, !choice) in rows then Switched
    else Added
  }

  function AfterCommentVote(rows: set<Row>, comment: Id, user: Id, choice: bool): set<Row> {
    if !HasKey(rows, CommentKey(comment)) then rows
    else if CommentVote(comment, user, choice) in rows then rows - {CommentVote(comment, user, choice)}
    else rows - {CommentVote(comment, user, !choice)} + {CommentVote(comment, user, choice)}
  }

  function CommentVoteOutcome(rows: set<Row>, comment: Id, user: Id, choice: bool): Outcome {
    if !HasKey(rows, CommentKey(comment)) then NotFound
    else if CommentVote(comment, user, choice) in rows then Removed
    else if CommentVote(comment, user, !choice) in rows then Switched
    else Added
  }

  function ReactionsBy(rows: set<Row>, message: Id, user: Id): set<Row> {
    set r <- rows | r.MessageReaction? && r.message == message && r.user == user
  }

  function ShareReactionsBy(rows: set<Row>, share: Id, user: Id): set<Row> {
    set r <- rows | r.ShareReaction? && r.share == share && r.user == user
  }

  predicate IsParty(rows: set<Row>, message: Id, user: Id) {
    exists r <- rows :: r.Message? && r.id == message && (user == r.sender || user == r.receiver)
  }

  predicate IsEndOfShare(rows: set<Row>, share: Id, user: Id) {
    exists r <- rows :: r.Share? && r.id == share && (user == r.fromUser || user == r.toUser)
  }

  function ReactionOutcome(rows: set<Row>, message: Id, user: Id, reaction: string): Outcome {
    if !HasKey(rows, MessageKey(message)) then NotFound
    else if !IsParty(rows, message, user) then Forbidden
    else if MessageReaction(message, user, reaction) in rows then Removed
    else if ReactionsBy(rows, message, user) == {} then Added
    else Switched
  }

  function ShareReactionOutcome(rows: set<Row>, share: Id, user: Id, reaction: string): Outcome {
    if !HasKey(rows, ShareKey(share)) then NotFound
    else if !IsEndOfShare(rows, share, user) then Forbidden
    else if ShareReaction(share, user, reaction) in rows then Removed
    else if ShareReactionsBy(rows, share, user) == {} then Added
    else Switched
  }

  function AfterReaction(rows: set<Row>, message: Id, user: Id, reaction: string): set<Row> {
    if !IsParty(rows, message, user) then rows
    else if MessageReaction(message, user, reaction) in rows then rows - {MessageReaction(message, user, reaction)}
    else rows - ReactionsBy(rows, message, user) + {MessageReaction(message, user, reaction)}
  }

  function AfterShareReaction(rows: set<Row>, share: Id, user: Id, reaction: string): set<Row> {
    if !IsEndOfShare(rows, share, user) then rows
    else if ShareReaction(share, user, reaction) in rows then rows - {ShareReaction(share, user, reaction)}
    else rows - ShareReactionsBy(rows, share, user) + {ShareReaction(share, user, reaction)}
  }

  /** Voting the same way twice takes the user back to where they were, unless they held the
      opposite vote, which is then withdrawn. */
  lemma VotingTwice(db: Db, post: Id, user: Id, choice: bool)
    requires WellFormed(db)
    ensures AfterVote(AfterVote(db.rows, post, user, choice), post, user, choice)
         == if HasKey(db.rows, PostKey(post)) then db.rows - {Vote(post, user, !choice)} else db.rows
  {
    var rows, yes, no := db.rows, Vote(post, user, choice), Vote(post, user, !choice);
    var once := AfterVote(rows, post, user, choice);
    assert KeyOf(yes) == KeyOf(no) && yes != no;
    SameParent(rows, once, PostKey(post));
    if HasKey(rows, PostKey(post)) {
      if yes in rows {
        assert no !in rows;
        assert once == rows - {yes};
        assert rows - {yes} - {no} + {yes} == rows - {no};
      } else {
        assert rows - {no} + {yes} - {yes} == rows - {no};
      }
    }
  }

  /** Votes come and go without touching posts. */
  lemma SameParent(rows: set<Row>, once: set<Row>, k: Key)
    requires k.PostKey? && forall r :: KeyOf(r) == k ==> (r in rows <==> r in once)
    ensures HasKey(rows, k) <==> HasKey(once, k)
  {
  }

  lemma VotingTwiceOnAComment(db: Db, comment: Id, user: Id, choice: bool)
    requires WellFormed(db)
    ensures AfterCommentVote(AfterCommentVote(db.rows, comment, user, choice), comment, user, choice)
         == if HasKey(db.rows, CommentKey(comment)) then db.rows - {CommentVote(comment, user, !choice)} else db.rows
  {
    var rows, yes, no := db.rows, CommentVote(comment, user, choice), CommentVote(comment, user, !choice);
    var once := AfterCommentVote(rows, comment, user, choice);
    assert KeyOf(yes) == KeyOf(no) && yes != no;
    assert HasKey(rows, CommentKey(comment)) <==> HasKey(once, CommentKey(comment)) by {
      assert forall r :: KeyOf(r) == CommentKey(comment) ==> (r in rows <==> r in once);
    }
    if HasKey(rows, CommentKey(comment)) {
      if yes in rows {
        assert no !in rows;
        assert once == rows - {yes};
        assert rows - {yes} - {no} + {yes} == rows - {no};
      } else {
        assert rows - {no} + {yes} - {yes} == rows - {no};
      }
    }
  }

  /** Reacting the same way twice takes a party back to where they were, unless they held
      another reaction, which is then withdrawn. */
  lemma ReactingTwice(db: Db, message: Id, user: Id, reaction: string)
    requires WellFormed(db)
    ensures AfterReaction(AfterReaction(db.rows, message, user, reaction), message, user, reaction)
         == if IsParty(db.rows, message, user)
            then db.rows - (ReactionsBy(db.rows, message, user) - {MessageReaction(message, user, reaction)})
            else db.rows
  {
    var rows, mine := db.rows, MessageReaction(message, user, reaction);
    var once := AfterReaction(rows, message, user, reaction);
    assert IsParty(once, message, user) == IsParty(rows, message, user) by {
      assert forall r: Row :: r.Message? ==> (r in rows <==> r in once);
    }
    if IsParty(rows, message, user) {
      if mine in rows {
        OneReactionEach(db, message, user, mine);
        assert ReactionsBy(once, message, user) == {};
        assert rows - {mine} - {} + {mine} == rows;
      } else {
        assert once - {mine} == rows - ReactionsBy(rows, message, user);
      }
    }
  }

  lemma ReactingTwiceToAShare(db: Db, share: Id, user: Id, reaction: string)
    requires WellFormed(db)
    ensures AfterShareReaction(AfterShareReaction(db.rows, share, user, reaction), share, user, reaction)
         == if IsEndOfShare(db.rows, share, user)
            then db.rows - (ShareReactionsBy(db.rows, share, user) - {ShareReaction(share, user, reaction)})
            else db.rows
  {
    var rows, mine := db.rows, ShareReaction(share, user, reaction);
    var once := AfterShareReaction(rows, share, user, reaction);
    assert IsEndOfShare(once, share, user) == IsEndOfShare(rows, share, user) by {
      assert forall r: Row :: r.Share? ==> (r in rows <==> r in once);
    }
    if IsEndOfShare(rows, share, user) {
      if mine in rows {
        OneShareReactionEach(db, share, user, mine);
        assert ShareReactionsBy(once, share, user) == {};
        assert rows - {mine} - {} + {mine} == rows;
      } else {
        assert once - {mine} == rows - ShareReactionsBy(rows, share, user);
      }
    }
  }

  /** At most one vote of a user on a post, at most one reaction of a user on a message. */
  lemma OneReactionEach(db: Db, message: Id, user: Id, row: Row)
    requires WellFormed(db) && row in ReactionsBy(db.rows, message, user)
    ensures ReactionsBy(db.rows, message, user) == {row}
    ensures row == MessageReaction(message, user, row.reaction)
  {
    forall r <- ReactionsBy(db.rows, message, user) ensures r == row {
      assert KeyOf(r) == KeyOf(row);
    }
  }

  lemma OneShareReactionEach(db: Db, share: Id, user: Id, row: Row)
    requires WellFormed(db) && row in ShareReactionsBy(db.rows, share, user)
    ensures ShareReactionsBy(db.rows, share, user) == {row}
    ensures row == ShareReaction(share, user, row.reaction)
  {
    forall r <- ShareReactionsBy(db.rows, share, user) ensures r == row {
      assert KeyOf(r) == KeyOf(row);
    }
  }

  lemma ReactionOutsider(rows: set<Row>, target: Id, user: Id, reaction: string)
    ensures !HasKey(rows, MessageKey(target)) ==> !IsParty(rows, target, user)
    ensures !IsParty(rows, target, user) ==> AfterReaction(rows, target, user, reaction) == rows
  {
    if IsParty(rows, target, user) {
      var owner :| owner in rows && owner.Message? && owner.id == target;
      assert KeyOf(owner) == MessageKey(target);
    }
  }

  /** The three cases of the toggle, on consistent rows. */
  lemma ReactionCases(db: Db, target: Id, user: Id, reaction: string)
    requires WellFormed(db) && Closed(db.rows) && IsParty(db.rows, target, user) && HasKey(db.rows, UserKey(user))
    ensures HasKey(db.rows, MessageKey(target))
    ensures ReactionsBy(db.rows, target, user) == {} ==>
              && CanInsert(db, MessageReaction(target, user, reaction))
              && MessageReaction(target, user, reaction) !in db.rows
              && AfterReaction(db.rows, target, user, reaction) == db.rows + {MessageReaction(target, user, reaction)}
    ensures forall row <- ReactionsBy(db.rows, target, user) ::
              && row in db.rows && Leaf(row) && row.MessageReaction?
              && (row.reaction == reaction <==> MessageReaction(target, user, reaction) in db.rows)
              && (row.reaction == reaction ==> AfterReaction(db.rows, target, user, reaction) == db.rows - {row})
              && (row.reaction != reaction ==>
                    CanUpdate(db, row, MessageReaction(target, user, reaction))
                    && AfterReaction(db.rows, target, user, reaction)
                       == db.rows - {row} + {MessageReaction(target, user, reaction)})
  {
    var fresh' := MessageReaction(target, user, reaction);
    LeafIsUnreferenced(db.rows, fresh');
    var owner :| owner in db.rows && owner.Message? && owner.id == target;
    assert KeyOf(owner) == MessageKey(target);
    if ReactionsBy(db.rows, target, user) == {} {
      forall r <- db.rows ensures KeyOf(r) != KeyOf(fresh') {
        assert r !in ReactionsBy(db.rows, target, user);
      }
      assert db.rows - ReactionsBy(db.rows, target, user) == db.rows;
    }
    forall row <- ReactionsBy(db.rows, target, user)
      ensures ReactionsBy(db.rows, target, user) == {row} && row == MessageReaction(target, user, row.reaction)
      ensures row.reaction != reaction ==> fresh' !in db.rows
    {
      OneReactionEach(db, target, user, row);
      assert fresh' in db.rows ==> fresh' in ReactionsBy(db.rows, target, user);
    }
  }

  lemma IsPartyByFields(rows: set<Row>, message: Id, user: Id)
    ensures IsParty(rows, message, user) <==>
            exists other :: Message(message, user, other) in rows || Message(message, other, user) in rows
  {
    if IsParty(rows, message, user) {
      var r :| r in rows && r.Message? && r.id == message && (user == r.sender || user == r.receiver);
      assert r == Message(message, user, r.receiver) || r == Message(message, r.sender, user);
    }
  }

  /** The toggle by the columns of what was there and what is there after it. */
  lemma ReactionByFields(db: Db, message: Id, user: Id, reaction: string)
    requires WellFormed(db)
    ensures var rows, outcome := db.rows, ReactionOutcome(db.rows, message, user, reaction);
            var after := AfterReaction(rows, message, user, reaction);
            && (outcome == NotFound <==> !HasMessage(rows, message))
            && (outcome == Forbidden <==>
                  && HasMessage(rows, message)
                  && forall other :: && Message(message, user, other) !in rows
                                     && Message(message, other, user) !in rows)
            && (outcome == Removed ==>
                  && MessageReaction(message, user, reaction) in rows
                  && after == rows - {MessageReaction(message, user, reaction)})
            && (outcome == Added ==>
                  && (forall x :: MessageReaction(message, user, x) !in rows)
                  && after == rows + {MessageReaction(message, user, reaction)})
            && (outcome == Switched ==>
                  exists was :: && was != reaction && MessageReaction(message, user, was) in rows
                                && after == rows - {MessageReaction(message, user, was)}
                                            + {MessageReaction(message, user, reaction)})
            && outcome in {NotFound, Forbidden, Removed, Added, Switched}
            && (outcome in {NotFound, Forbidden} ==> after == rows)
  {
    hide WellFormed, HasKey, HasMessage;
    var rows, mine := db.rows, ReactionsBy(db.rows, message, user);
    KeysByFields(rows, message);
    IsPartyByFields(rows, message, user);
    ReactionOutsider(rows, message, user, reaction);
    if mine != {} {
      var row :| row in mine;
      OneReactionEach(db, message, user, row);
    } else {
      assert forall x :: MessageReaction(message, user, x) in rows ==> MessageReaction(message, user, x) in mine;
      assert rows - mine == rows;
    }
  }

  lemma ShareReactionOutsider(rows: set<Row>, target: Id, user: Id, reaction: string)
    ensures !HasKey(rows, ShareKey(target)) ==> !IsEndOfShare(rows, target, user)
    ensures !IsEndOfShare(rows, target, user) ==> AfterShareReaction(rows, target, user, reaction) == rows
  {
    if IsEndOfShare(rows, target, user) {
      var owner :| owner in rows && owner.Share? && owner.id == target;
      assert KeyOf(owner) == ShareKey(target);
    }
  }

  /** The three cases of the toggle, on consistent rows. */
  lemma ShareReactionCases(db: Db, target: Id, user: Id, reaction: string)
    requires WellFormed(db) && Closed(db.rows) && IsEndOfShare(db.rows, target, user) && HasKey(db.rows, UserKey(user))
    ensures HasKey(db.rows, ShareKey(target))
    ensures ShareReactionsBy(db.rows, target, user) == {} ==>
              CanInsert(db, ShareReaction(target, user, reaction)) && ShareReaction(target, user, reaction) !in db.rows
              && AfterShareReaction(db.rows, target, user, reaction)
                 == db.rows + {ShareReaction(target, user, reaction)}
    ensures forall row <- ShareReactionsBy(db.rows, target, user) ::
              && row in db.rows && Leaf(row) && row.ShareReaction?
              && (row.reaction == reaction <==> ShareReaction(target, user, reaction) in db.rows)
              && (row.reaction == reaction ==> AfterShareReaction(db.rows, target, user, reaction) == db.rows - {row})
              && (row.reaction != reaction ==>
                    CanUpdate(db, row, ShareReaction(target, user, reaction))
                    && AfterShareReaction(db.rows, target, user, reaction)
                       == db.rows - {row} + {ShareReaction(target, user, reaction)})
  {
    var fresh' := ShareReaction(target, user, reaction);
    LeafIsUnreferenced(db.rows, fresh');
    var owner :| owner in db.rows && owner.Share? && owner.id == target;
    assert KeyOf(owner) == ShareKey(target);
    if ShareReactionsBy(db.rows, target, user) == {} {
      forall r <- db.rows ensures KeyOf(r) != KeyOf(fresh') {
        assert r !in ShareReactionsBy(db.rows, target, user);
      }
      assert db.rows - ShareReactionsBy(db.rows, target, user) == db.rows;
    }
    forall row <- ShareReactionsBy(db.rows, target, user)
      ensures ShareReactionsBy(db.rows, target, user) == {row} && row == ShareReaction(target, user, row.reaction)
      ensures row.reaction != reaction ==> fresh' !in db.rows
    {
      OneShareReactionEach(db, target, user, row);
      assert fresh' in db.rows ==> fresh' in ShareReactionsBy(db.rows, target, user);
    }
  }

  lemma IsEndOfShareByFields(rows: set<Row>, share: Id, user: Id)
    ensures IsEndOfShare(rows, share, user) <==>
            exists p, other :: Share(share, p, user, other) in rows || Share(share, p, other, user) in rows
  {
    if IsEndOfShare(rows, share, user) {
      var r :| r in rows && r.Share? && r.id == share && (user == r.fromUser || user == r.toUser);
      assert r == Share(share, r.post, user, r.toUser) || r == Share(share, r.post, r.fromUser, user);
    }
  }

  /** The toggle by the columns of what was there and what is there after it. */
  lemma ShareReactionByFields(db: Db, share: Id, user: Id, reaction: string)
    requires WellFormed(db)
    ensures var rows, outcome := db.rows, ShareReactionOutcome(db.rows, share, user, reaction);
            var after := AfterShareReaction(rows, share, user, reaction);
            && (outcome == NotFound <==> !HasShare(rows, share))
            && (outcome == Forbidden <==>
                  && HasShare(rows, share)
                  && forall p, other :: && Share(share, p, user, other) !in rows
                                        && Share(share, p, other, user) !in rows)
            && (outcome == Removed ==>
                  && ShareReaction(share, user, reaction) in rows
                  && after == rows - {ShareReaction(share, user, reaction)})
            && (outcome == Added ==>
                  && (forall x :: ShareReaction(share, user, x) !in rows)
                  && after == rows + {ShareReaction(share, user, reaction)})
            && (outcome == Switched ==>
                  exists was :: && was != reaction && ShareReaction(share, user, was) in rows
                                && after == rows - {ShareReaction(share, user, was)}
                                            + {ShareReaction(share, user, reaction)})
            && outcome in {NotFound, Forbidden, Removed, Added, Switched}
            && (outcome in {NotFound, Forbidden} ==> after == rows)
  {
    hide WellFormed, HasKey, HasShare;
    var rows, mine := db.rows, ShareReactionsBy(db.rows, share, user);
    KeysByFields(rows, share);
    IsEndOfShareByFields(rows, share, user);
    ShareReactionOutsider(rows, share, user, reaction);
    if mine != {} {
      var row :| row in mine;
      OneShareReactionEach(db, share, user, row);
    } else {
      assert forall x :: ShareReaction(share, user, x) in rows ==> ShareReaction(share, user, x) in mine;
      assert rows - mine == rows;
    }
  }
}

/** The counter tables updated in place: the triggers, the routes and message handlers that
    set them off, and the repair pass.
    app/routes/like.py, app/routes/comment.py, app/routes/connect.py,
    app/messaging/msg_reaction.py, app/messaging/share_reaction.py,
    app/services/reconciliation_service.py. */
module SocialStore {
  import opened Counters
  import opened CounterInvariant
  import opened RowLaws
  import opened SocialRules

  class Database {
    var rows: set<Row>
    var cnt: Counts

    ghost function State(): Db
      reads this
    {
      Db(rows, cnt)
    }

    /** Consistent, and every counter but posts.views right. */
    ghost predicate Valid()
      reads this
    {
      WellFormed(State()) && NonNegative(State()) && Agrees(State()) && Closed(rows)
    }

    constructor ()
      ensures Valid() && State() == Empty
    {
      rows, cnt := {}, map[];
    }

    // ----- one row at a time

    method ApplyInsert(r: Row)
      requires WellFormed(State()) && NonNegative(State()) && Agrees(State()) && CanInsert(State(), r)
      modifies this
      ensures State() == InsertRow(old(State()), r)
      ensures WellFormed(State()) && NonNegative(State()) && Agrees(State())
    {
      ghost var before := State();
      StepIsARun(before, Insert(r));
      CountersAlwaysAgree(before, [Insert(r)]);
      rows := rows + {r};
      cnt := Fire(cnt + (map c <- CellsOf(r) :: 0), Inserted(r));
    }

    method ApplyDelete(r: Row)
      requires WellFormed(State()) && NonNegative(State()) && Agrees(State()) && r in rows
      modifies this
      ensures State() == DeleteRow(old(State()), r)
      ensures WellFormed(State()) && NonNegative(State()) && Agrees(State())
    {
      ghost var before := State();
      StepIsARun(before, Delete(r));
      CountersAlwaysAgree(before, [Delete(r)]);
      rows := rows - {r};
      cnt := Fire(cnt - CellsOf(r), Deleted(r));
    }

    method ApplyUpdate(r: Row, q: Row)
      requires Valid() && CanUpdate(State(), r, q)
      modifies this
      ensures Valid() && rows == old(rows) - {r} + {q}
    {
      ghost var before := State();
      StepIsARun(before, Update(r, q));
      CountersAlwaysAgree(before, [Update(r, q)]);
      UpdateStaysClosed(rows, r, q);
      rows := rows - {r} + {q};
      cnt := Fire(cnt, Updated(r, q));
    }

    /** INSERT of a row whose key is new and whose references exist. */
    method Create(r: Row)
      requires Valid() && CanInsert(State(), r)
      modifies this
      ensures Valid() && rows == old(rows) + {r}
    {
      InsertStaysClosed(rows, r);
      ApplyInsert(r);
    }

    /** DELETE with ON DELETE CASCADE: dangling rows go one by one, in any order, until none
        is left. */
    method DeleteCascading(root: Row)
      requires Valid() && root in rows
      modifies this
      ensures Valid() && LeftByDelete(old(rows), root, rows)
      ensures rows == set r <- old(rows) | !GoesWith(old(rows), root, r)
    {
      ApplyDelete(root);
      while exists r <- rows :: Dangling(rows, r)
        invariant WellFormed(State()) && NonNegative(State()) && Agrees(State())
        invariant rows <= old(rows) - {root}
        invariant forall kept: set<Row> :: kept <= old(rows) - {root} && Closed(kept) ==> kept <= rows
        decreases |rows|
      {
        var r :| r in rows && Dangling(rows, r);
        forall kept: set<Row> | kept <= old(rows) - {root} && Closed(kept)
          ensures kept <= rows - {r}
        {
          DanglingRowsGo(rows, r, kept);
        }
        ApplyDelete(r);
      }
      DeletionTakesExactly(old(rows), root, rows);
    }

    /** DELETE of a row nothing refers to. */
    method Remove(r: Row)
      requires Valid() && r in rows && Unreferenced(rows, KeyOf(r))
      modifies this
      ensures Valid() && rows == old(rows) - {r}
    {
      RemoveStaysClosed(rows, r);
      ApplyDelete(r);
    }

    // ----- routes

    /** voteOnPost: no vote, create; the same vote, remove; the other vote, switch. */
    method VoteOnPost(post: Id, user: Id, choice: bool) returns (outcome: Outcome)
      requires Valid() && HasKey(rows, UserKey(user))
      modifies this
      ensures Valid() && rows == AfterVote(old(rows), post, user, choice)
      ensures outcome == VoteOutcome(old(rows), post, user, choice)
      ensures outcome ==
              if !HasPost(old(rows), post) then NotFound
              else if Vote(post, user, choice) in old(rows) then Removed
              else if Vote(post, user, !choice) in old(rows) then Switched
              else Added
      ensures rows ==
              match outcome
              case Added => old(rows) + {Vote(post, user, choice)}
              case Removed => old(rows) - {Vote(post, user, choice)}
              case Switched => old(rows) - {Vote(post, user, !choice)} + {Vote(post, user, choice)}
              case _ => old(rows)
    {
      KeysByFields(rows, post);
      if !HasKey(rows, PostKey(post)) {
        return NotFound;
      }
      if Vote(post, user, choice) in rows {
        LeafIsUnreferenced(rows, Vote(post, user, choice));
        Remove(Vote(post, user, choice));
        return Removed;
      } else if Vote(post, user, !choice) in rows {
        ApplyUpdate(Vote(post, user, !choice), Vote(post, user, choice));
        return Switched;
      } else {
        LeafIsUnreferenced(rows, Vote(post, user, choice));
        Create(Vote(post, user, choice));
        return Added;
      }
    }

    /** likeAComment: the same toggle on a comment. */
    method LikeAComment(comment: Id, user: Id, choice: bool) returns (outcome: Outcome)
      requires Valid() && HasKey(rows, UserKey(user))
      modifies this
      ensures Valid() && rows == AfterCommentVote(old(rows), comment, user, choice)
      ensures outcome == CommentVoteOutcome(old(rows), comment, user, choice)
      ensures outcome ==
              if !HasComment(old(rows), comment) then NotFound
              else if CommentVote(comment, user, choice) in old(rows) then Removed
              else if CommentVote(comment, user, !choice) in old(rows) then Switched
              else Added
      ensures rows ==
              match outcome
              case Added => old(rows) + {CommentVote(comment, user, choice)}
              case Removed => old(rows) - {CommentVote(comment, user, choice)}
              case Switched =>
                old(rows) - {CommentVote(comment, user, !choice)} + {CommentVote(comment, user, choice)}
              case _ => old(rows)
    {
      KeysByFields(rows, comment);
      if !HasKey(rows, CommentKey(comment)) {
        return NotFound;
      }
      if CommentVote(comment, user, choice) in rows {
        LeafIsUnreferenced(rows, CommentVote(comment, user, choice));
        Remove(CommentVote(comment, user, choice));
        return Removed;
      } else if CommentVote(comment, user, !choice) in rows {
        ApplyUpdate(CommentVote(comment, user, !choice), CommentVote(comment, user, choice));
        return Switched;
      } else {
        LeafIsUnreferenced(rows, CommentVote(comment, user, choice));
        Create(CommentVote(comment, user, choice));
        return Added;
      }
    }

    /** react: only the two parties; create, toggle off or change. */
    method React(message: Id, user: Id, reaction: string) returns (outcome: Outcome)
      requires Valid() && HasKey(rows, UserKey(user))
      modifies this
      ensures Valid() && rows == AfterReaction(old(rows), message, user, reaction)
      ensures outcome == ReactionOutcome(old(rows), message, user, reaction)
      ensures outcome == NotFound <==> !HasMessage(old(rows), message)
      ensures outcome == Forbidden <==>
              && HasMessage(old(rows), message)
              && forall other :: && Message(message, user, other) !in old(rows)
                                 && Message(message, other, user) !in old(rows)
      ensures outcome == Removed ==>
              MessageReaction(message, user, reaction) in old(rows)
              && rows == old(rows) - {MessageReaction(message, user, reaction)}
      ensures outcome == Added ==>
              && (forall x :: MessageReaction(message, user, x) !in old(rows))
              && rows == old(rows) + {MessageReaction(message, user, reaction)}
      ensures outcome == Switched ==>
              exists was :: && was != reaction && MessageReaction(message, user, was) in old(rows)
                            && rows == old(rows) - {MessageReaction(message, user, was)}
                                       + {MessageReaction(message, user, reaction)}
      ensures outcome in {NotFound, Forbidden, Removed, Added, Switched}
      ensures outcome in {NotFound, Forbidden} ==> rows == old(rows)
    {
      hide Agrees, NonNegative, ReactionsBy, AfterReaction, CanInsert, CanUpdate;
      ReactionOutsider(rows, message, user, reaction);
      ReactionByFields(State(), message, user, reaction);
      if !HasKey(rows, MessageKey(message)) {
        return NotFound;
      }
      if !IsParty(rows, message, user) {
        return Forbidden;
      }
      ReactionCases(State(), message, user, reaction);
      var mine := ReactionsBy(rows, message, user);
      if mine == {} {
        Create(MessageReaction(message, user, reaction));
        return Added;
      }
      var row :| row in mine;
      if row.reaction == reaction {
        LeafIsUnreferenced(rows, row);
        Remove(row);
        return Removed;
      }
      ApplyUpdate(row, MessageReaction(message, user, reaction));
      return Switched;
    }

    /** react_to_shared_post: the same for the two ends of a share. */
    method ReactToSharedPost(share: Id, user: Id, reaction: string) returns (outcome: Outcome)
      requires Valid() && HasKey(rows, UserKey(user))
      modifies this
      ensures Valid() && rows == AfterShareReaction(old(rows), share, user, reaction)
      ensures outcome == ShareReactionOutcome(old(rows), share, user, reaction)
      ensures outcome == NotFound <==> !HasShare(old(rows), share)
      ensures outcome == Forbidden <==>
              && HasShare(old(rows), share)
              && forall p, other :: && Share(share, p, user, other) !in old(rows)
                                    && Share(share, p, other, user) !in old(rows)
      ensures outcome == Removed ==>
              ShareReaction(share, user, reaction) in old(rows)
              && rows == old(rows) - {ShareReaction(share, user, reaction)}
      ensures outcome == Added ==>
              && (forall x :: ShareReaction(share, user, x) !in old(rows))
              && rows == old(rows) + {ShareReaction(share, user, reaction)}
      ensures outcome == Switched ==>
              exists was :: && was != reaction && ShareReaction(share, user, was) in old(rows)
                            && rows == old(rows) - {ShareReaction(share, user, was)}
                                       + {ShareReaction(share, user, reaction)}
      ensures outcome in {NotFound, Forbidden, Removed, Added, Switched}
      ensures outcome in {NotFound, Forbidden} ==> rows == old(rows)
    {
      hide Agrees, NonNegative, ShareReactionsBy, AfterShareReaction, CanInsert, CanUpdate;
      ShareReactionOutsider(rows, share, user, reaction);
      ShareReactionByFields(State(), share, user, reaction);
      if !HasKey(rows, ShareKey(share)) {
        return NotFound;
      }
      if !IsEndOfShare(rows, share, user) {
        return Forbidden;
      }
      ShareReactionCases(State(), share, user, reaction);
      var mine := ShareReactionsBy(rows, share, user);
      if mine == {} {
        Create(ShareReaction(share, user, reaction));
        return Added;
      }
      var row :| row in mine;
      if row.reaction == reaction {
        LeafIsUnreferenced(rows, row);
        Remove(row);
        return Removed;
      }
      ApplyUpdate(row, ShareReaction(share, user, reaction));
      return Switched;
    }

    /** follow_user: INSERT ... ON CONFLICT DO NOTHING. */
    method FollowUser(target: Id, me: Id) returns (outcome: Outcome)
      requires Valid() && HasKey(rows, UserKey(me))
      modifies this
      ensures Valid()
      ensures outcome == Added
              <==> HasKey(old(rows), UserKey(target)) && target != me && Connection(target, me) !in old(rows)
      ensures rows == if outcome == Added then old(rows) + {Connection(target, me)} else old(rows)
    {
      if !HasKey(rows, UserKey(target)) {
        return NotFound;
      }
      if target == me || Connection(target, me) in rows {
        return Refused;
      }
      LeafIsUnreferenced(rows, Connection(target, me));
      Create(Connection(target, me));
      return Added;
    }

    /** unfollow_user with me = follower, remove_follower_endpoint with me = followed: the
        edge goes if it is there. */
    method Disconnect(followed: Id, follower: Id) returns (outcome: Outcome)
      requires Valid()
      modifies this
      ensures Valid() && rows == old(rows) - {Connection(followed, follower)}
      ensures outcome == Removed <==> Connection(followed, follower) in old(rows)
    {
      if Connection(followed, follower) !in rows {
        assert rows - {Connection(followed, follower)} == rows;
        return Refused;
      }
      LeafIsUnreferenced(rows, Connection(followed, follower));
      Remove(Connection(followed, follower));
      return Removed;
    }

    /** delete_comment: only the author's own comment, with the votes on it. */
    method DeleteComment(comment: Id, user: Id) returns (outcome: Outcome)
      requires Valid()
      modifies this
      ensures Valid()
      ensures outcome == NotFound ==> rows == old(rows) && !exists post: Id :: Comment(comment, post, user) in rows
      ensures outcome != NotFound ==>
                exists post: Id :: && Comment(comment, post, user) in old(rows)
                                   && rows == set r <- old(rows) | r != Comment(comment, post, user)
                                                                   && !(r.CommentVote? && r.comment == comment)
    {
      var mine := set r <- rows | r.Comment? && r.id == comment && r.user == user;
      if mine == {} {
        forall post: Id ensures Comment(comment, post, user) !in rows {
          assert Comment(comment, post, user) !in mine;
        }
        return NotFound;
      }
      var row :| row in mine;
      DeleteCascading(row);
      return Removed;
    }

    // ----- the repair pass

    /** One guarded UPDATE and its rowcount; `rest` is the part of the pass it begins. */
    method RepairColumn(col: Column, ghost rest: seq<Column>) returns (count: nat)
      requires rest != [] && rest[0] == col
      modifies this`cnt
      ensures State() == Repair(old(State()), col) && count == |Wrong(old(State()), col)|
      ensures RepairAll(State(), rest[1..]) == RepairAll(old(State()), rest)
      ensures Reported(old(State()), rest) == [count] + Reported(State(), rest[1..])
    {
      var wrong := set c <- cnt | c.col == col && cnt[c] != Count(rows, c);
      count := |wrong|;
      cnt := map c <- cnt :: if c in wrong then Count(rows, c) else cnt[c];
    }

    /** The first five statements: users, messages, shares, comments. */
    method ReconcilePeople() returns (following: nat, followers: nat, messages: nat, shares: nat, commentLikes: nat)
      modifies this`cnt
      ensures RepairAll(State(), Pass[5..]) == RepairAll(old(State()), Pass)
      ensures Reported(old(State()), Pass)
              == [following, followers, messages, shares, commentLikes] + Reported(State(), Pass[5..])
    {
      hide Repair, Wrong, Count, RepairAll, Reported;
      following := RepairColumn(UserFollowing, Pass[0..]);
      followers := RepairColumn(UserFollowers, Pass[1..]);
      messages := RepairColumn(MessageReactions, Pass[2..]);
      shares := RepairColumn(ShareReactions, Pass[3..]);
      commentLikes := RepairColumn(CommentLikes, Pass[4..]);
      assert Pass[0..] == Pass;
    }

    /** The last four: posts. */
    method ReconcilePosts() returns (comments: nat, views: nat, likes: nat, dislikes: nat)
      modifies this`cnt
      ensures State() == RepairAll(old(State()), Pass[5..])
      ensures Reported(old(State()), Pass[5..]) == [comments, views, likes, dislikes]
    {
      hide Repair, Wrong, Count, RepairAll, Reported;
      comments := RepairColumn(PostComments, Pass[5..]);
      views := RepairColumn(PostViews, Pass[6..]);
      likes := RepairColumn(PostLikes, Pass[7..]);
      dislikes := RepairColumn(PostDislikes, Pass[8..]);
      NothingLeft(State(), Pass[9..]);
    }

    /** reconcile_denormalized_counters: nine statements, from any counters to the right ones. */
    method Reconcile() returns (repaired: map<Column, nat>)
      modifies this`cnt
      ensures cnt == map c <- old(cnt) :: Count(rows, c)
      ensures forall col: Column ::
                && col in repaired
                && repaired[col] == |set c <- old(cnt) | c.col == col && old(cnt)[c] != cnt[c]|
    {
      hide Repair, Wrong, Count, RepairAll, Reported, Dict;
      ghost var start := State();
      var following, followers, messages, shares, commentLikes := ReconcilePeople();
      var comments, views, likes, dislikes := ReconcilePosts();
      repaired := Dict(following, followers, messages, shares, commentLikes, comments, views, likes, dislikes);
      PassReports(start, following, followers, messages, shares, commentLikes, comments, views, likes, dislikes);
      PassCoversEveryColumn();
      ReconciliationIsExact(start, Pass);
      forall col: Column { WrongIsChanged(start, cnt, col); }
    }
  }

  lemma NothingLeft(db: Db, rest: seq<Column>)
    requires rest == []
    ensures RepairAll(db, rest) == db && Reported(db, rest) == []
  {
  }
}
