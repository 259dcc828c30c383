/** What the tables promise, said by their columns: which rows each counter counts, what is
    unique, what a row refers to, and what goes when a row is deleted (app/models.py). */
module RowLaws {
  import opened Counters
  import opened CounterInvariant

  // ----- what the counters count

  lemma CellIsRight(events: seq<Event>, r: Row, c: Cell)
    requires r in Run(Empty, events).rows && OwnerOf(c) == KeyOf(r) && c.col != PostViews
    ensures var t := Run(Empty, events); c in t.cnt && t.cnt[c] == Count(t.rows, c)
  {
    CountersAlwaysAgree(Empty, events);
  }

  /** Whatever is inserted, updated and deleted, a post's three counters are the numbers of its
      comments, of its likes and of its dislikes. */
  lemma PostCounters(events: seq<Event>, post: Id, owner: Id)
    requires Post(post, owner) in Run(Empty, events).rows
    ensures var t := Run(Empty, events);
            && Cell(PostComments, post) in t.cnt && Cell(PostLikes, post) in t.cnt && Cell(PostDislikes, post) in t.cnt
            && t.cnt[Cell(PostComments, post)] == |set r <- t.rows | r.Comment? && r.post == post|
            && t.cnt[Cell(PostLikes, post)] == |set r <- t.rows | r.Vote? && r.post == post && r.action|
            && t.cnt[Cell(PostDislikes, post)] == |set r <- t.rows | r.Vote? && r.post == post && !r.action|
  {
    hide Run, Count;
    CellIsRight(events, Post(post, owner), Cell(PostComments, post));
    CellIsRight(events, Post(post, owner), Cell(PostLikes, post));
    CellIsRight(events, Post(post, owner), Cell(PostDislikes, post));
    forall col: Column { CountByFields(Run(Empty, events).rows, Cell(col, post)); }
  }

  /** A user's two counters are the numbers of users they follow and of users who follow them. */
  lemma UserCounters(events: seq<Event>, user: Id)
    requires User(user) in Run(Empty, events).rows
    ensures var t := Run(Empty, events);
            && Cell(UserFollowing, user) in t.cnt && Cell(UserFollowers, user) in t.cnt
            && t.cnt[Cell(UserFollowing, user)] == |set r <- t.rows | r.Connection? && r.follower == user|
            && t.cnt[Cell(UserFollowers, user)] == |set r <- t.rows | r.Connection? && r.followed == user|
  {
    hide Run, Count;
    CellIsRight(events, User(user), Cell(UserFollowing, user));
    CellIsRight(events, User(user), Cell(UserFollowers, user));
    forall col: Column { CountByFields(Run(Empty, events).rows, Cell(col, user)); }
  }

  /** A comment's counter is the number of its likes, a message's or share's that of the
      reactions to it. */
  lemma OtherCounters(events: seq<Event>, r: Row)
    requires r in Run(Empty, events).rows
    ensures var t := Run(Empty, events);
            match r
            case Comment(id, _, _) => Cell(CommentLikes, id) in t.cnt
              && t.cnt[Cell(CommentLikes, id)] == |set q <- t.rows | q.CommentVote? && q.comment == id && q.like|
            case Message(id, _, _) => Cell(MessageReactions, id) in t.cnt
              && t.cnt[Cell(MessageReactions, id)] == |set q <- t.rows | q.MessageReaction? && q.message == id|
            case Share(id, _, _, _) => Cell(ShareReactions, id) in t.cnt
              && t.cnt[Cell(ShareReactions, id)] == |set q <- t.rows | q.ShareReaction? && q.share == id|
            case _ => true
  {
    hide Run, Count;
    match r
    case Comment(id, _, _) =>
      CellIsRight(events, r, Cell(CommentLikes, id));
      CountByFields(Run(Empty, events).rows, Cell(CommentLikes, id));
    case Message(id, _, _) =>
      CellIsRight(events, r, Cell(MessageReactions, id));
      CountByFields(Run(Empty, events).rows, Cell(MessageReactions, id));
    case Share(id, _, _, _) =>
      CellIsRight(events, r, Cell(ShareReactions, id));
      CountByFields(Run(Empty, events).rows, Cell(ShareReactions, id));
    case _ =>
  }

  /** What each of the nine counts of the repair pass counts. */
  lemma CountByFields(rows: set<Row>, c: Cell)
    ensures Count(rows, c) ==
            match c.col
            case UserFollowing => |set r <- rows | r.Connection? && r.follower == c.id|
            case UserFollowers => |set r <- rows | r.Connection? && r.followed == c.id|
            case MessageReactions => |set r <- rows | r.MessageReaction? && r.message == c.id|
            case ShareReactions => |set r <- rows | r.ShareReaction? && r.share == c.id|
            case CommentLikes => |set r <- rows | r.CommentVote? && r.comment == c.id && r.like|
            case PostComments => |set r <- rows | r.Comment? && r.post == c.id|
            case PostViews => |set r <- rows | r.PostView? && r.post == c.id|
            case PostLikes => |set r <- rows | r.Vote? && r.post == c.id && r.action|
            case PostDislikes => |set r <- rows | r.Vote? && r.post == c.id && !r.action|
  {
    var id, fed := c.id, Fed(rows, c);
    match c.col
    case UserFollowing => assert fed == set r <- rows | r.Connection? && r.follower == id;
    case UserFollowers => assert fed == set r <- rows | r.Connection? && r.followed == id;
    case MessageReactions => assert fed == set r <- rows | r.MessageReaction? && r.message == id;
    case ShareReactions => assert fed == set r <- rows | r.ShareReaction? && r.share == id;
    case CommentLikes => assert fed == set r <- rows | r.CommentVote? && r.comment == id && r.like;
    case PostComments => assert fed == set r <- rows | r.Comment? && r.post == id;
    case PostViews => assert fed == set r <- rows | r.PostView? && r.post == id;
    case PostLikes => assert fed == set r <- rows | r.Vote? && r.post == id && r.action;
    case PostDislikes => assert fed == set r <- rows | r.Vote? && r.post == id && !r.action;
  }

  /** The rows a repair finds wrong are those whose counter it changes. */
  lemma WrongIsChanged(db: Db, right: Counts, col: Column)
    requires right == map c <- db.cnt :: Count(db.rows, c)
    ensures Wrong(db, col) == set c <- db.cnt | c.col == col && db.cnt[c] != right[c]
  {
    hide Count;
  }

  // ----- what is unique

  ghost predicate NoSelfFollow(rows: set<Row>) {
    forall r <- rows :: r.Connection? ==> r.followed != r.follower
  }

  lemma {:induction false} NobodyFollowsThemselves(db: Db, events: seq<Event>)
    requires NoSelfFollow(db.rows)
    ensures NoSelfFollow(Run(db, events).rows)
    decreases |events|
  {
    if events != [] {
      StepKeepsNoSelfFollow(db, events[0]);
      hide Step, NoSelfFollow;
      NobodyFollowsThemselves(Step(db, events[0]), events[1..]);
    }
  }

  lemma StepKeepsNoSelfFollow(db: Db, e: Event)
    requires NoSelfFollow(db.rows)
    ensures NoSelfFollow(Step(db, e).rows)
  {
    hide Fire, HasKey, Unreferenced;
    if e.Update? && CanUpdate(db, e.before, e.after) && e.after.Connection? {
      assert KeyOf(e.before) == KeyOf(e.after) && e.before == e.after;
    }
  }

  /** In every reachable state: one row per identifier; one vote, one view, one connection and
      one reaction for each pair; nobody follows themselves. */
  lemma RowsAreUnique(events: seq<Event>, r: Row, q: Row)
    requires r in Run(Empty, events).rows && q in Run(Empty, events).rows
    ensures match (r, q)
            case (User(a), User(b)) => a == b ==> r == q
            case (Post(a, _), Post(b, _)) => a == b ==> r == q
            case (Comment(a, _, _), Comment(b, _, _)) => a == b ==> r == q
            case (Message(a, _, _), Message(b, _, _)) => a == b ==> r == q
            case (Share(a, _, _, _), Share(b, _, _, _)) => a == b ==> r == q
            case (Vote(a, u, _), Vote(b, v, _)) => a == b && u == v ==> r == q
            case (CommentVote(a, u, _), CommentVote(b, v, _)) => a == b && u == v ==> r == q
            case (MessageReaction(a, u, _), MessageReaction(b, v, _)) => a == b && u == v ==> r == q
            case (ShareReaction(a, u, _), ShareReaction(b, v, _)) => a == b && u == v ==> r == q
            case _ => true
    ensures r.Connection? ==> r.followed != r.follower
  {
    hide Run;
    CountersAlwaysAgree(Empty, events);
    NobodyFollowsThemselves(Empty, events);
    assert KeyOf(r) == KeyOf(q) ==> r == q;
  }

  // ----- what a row may be inserted for

  ghost predicate HasUser(rows: set<Row>, user: Id) { User(user) in rows }
  ghost predicate HasPost(rows: set<Row>, post: Id) { exists owner :: Post(post, owner) in rows }
  ghost predicate HasComment(rows: set<Row>, comment: Id) { exists p, u :: Comment(comment, p, u) in rows }
  ghost predicate HasMessage(rows: set<Row>, message: Id) { exists a, b :: Message(message, a, b) in rows }
  ghost predicate HasShare(rows: set<Row>, share: Id) { exists p, a, b :: Share(share, p, a, b) in rows }

  lemma KeysByFields(rows: set<Row>, id: Id)
    ensures HasKey(rows, UserKey(id)) <==> HasUser(rows, id)
    ensures HasKey(rows, PostKey(id)) <==> HasPost(rows, id)
    ensures HasKey(rows, CommentKey(id)) <==> HasComment(rows, id)
    ensures HasKey(rows, MessageKey(id)) <==> HasMessage(rows, id)
    ensures HasKey(rows, ShareKey(id)) <==> HasShare(rows, id)
  {
    assert KeyOf(User(id)) == UserKey(id);
    if HasPost(rows, id) { var o :| Post(id, o) in rows; assert KeyOf(Post(id, o)) == PostKey(id); }
    if HasComment(rows, id) {
      var p, u :| Comment(id, p, u) in rows;
      assert KeyOf(Comment(id, p, u)) == CommentKey(id);
    }
    if HasMessage(rows, id) {
      var a, b :| Message(id, a, b) in rows;
      assert KeyOf(Message(id, a, b)) == MessageKey(id);
    }
    if HasShare(rows, id) {
      var p, a, b :| Share(id, p, a, b) in rows;
      assert KeyOf(Share(id, p, a, b)) == ShareKey(id);
    }
    if HasKey(rows, UserKey(id)) { var r :| r in rows && KeyOf(r) == UserKey(id); assert r == User(id); }
    if HasKey(rows, PostKey(id)) { var r :| r in rows && KeyOf(r) == PostKey(id); assert r == Post(id, r.owner); }
    if HasKey(rows, CommentKey(id)) {
      var r :| r in rows && KeyOf(r) == CommentKey(id);
      assert r == Comment(id, r.post, r.user);
    }
    if HasKey(rows, MessageKey(id)) {
      var r :| r in rows && KeyOf(r) == MessageKey(id);
      assert r == Message(id, r.sender, r.receiver);
    }
    if HasKey(rows, ShareKey(id)) {
      var r :| r in rows && KeyOf(r) == ShareKey(id);
      assert r == Share(id, r.post, r.fromUser, r.toUser);
    }
  }

  /** Nothing refers to votes, reactions, connections or views. */
  predicate Leaf(r: Row) {
    r.Vote? || r.CommentVote? || r.Connection? || r.MessageReaction? || r.ShareReaction? || r.PostView?
  }

  lemma LeafIsUnreferenced(rows: set<Row>, r: Row)
    requires Leaf(r)
    ensures Unreferenced(rows, KeyOf(r))
  {
  }

  lemma OwnKeyByFields(rows: set<Row>, r: Row)
    ensures HasKey(rows, KeyOf(r)) <==>
            match r
            case User(id) => HasUser(rows, id)
            case Post(id, _) => HasPost(rows, id)
            case Comment(id, _, _) => HasComment(rows, id)
            case Message(id, _, _) => HasMessage(rows, id)
            case Share(id, _, _, _) => HasShare(rows, id)
            case Vote(post, user, _) => Vote(post, user, true) in rows || Vote(post, user, false) in rows
            case CommentVote(comment, user, _) =>
              CommentVote(comment, user, true) in rows || CommentVote(comment, user, false) in rows
            case Connection(_, _) => r in rows
            case MessageReaction(message, user, _) => exists x :: MessageReaction(message, user, x) in rows
            case ShareReaction(share, user, _) => exists x :: ShareReaction(share, user, x) in rows
            case PostView(_, _) => r in rows
  {
    hide HasUser, HasPost, HasComment, HasMessage, HasShare;
    match r
    case User(id) => KeysByFields(rows, id);
    case Post(id, _) => KeysByFields(rows, id);
    case Comment(id, _, _) => KeysByFields(rows, id);
    case Message(id, _, _) => KeysByFields(rows, id);
    case Share(id, _, _, _) => KeysByFields(rows, id);
    case Vote(post, user, a) =>
      assert KeyOf(Vote(post, user, !a)) == KeyOf(r);
      assert forall q :: KeyOf(q) == KeyOf(r) ==> q == Vote(post, user, true) || q == Vote(post, user, false);
    case CommentVote(comment, user, a) =>
      assert KeyOf(CommentVote(comment, user, !a)) == KeyOf(r);
      assert forall q :: KeyOf(q) == KeyOf(r) ==>
                q == CommentVote(comment, user, true) || q == CommentVote(comment, user, false);
    case Connection(_, _) => assert forall q :: KeyOf(q) == KeyOf(r) ==> q == r;
    case MessageReaction(message, user, _) =>
      assert forall x :: KeyOf(MessageReaction(message, user, x)) == KeyOf(r);
      assert forall q :: KeyOf(q) == KeyOf(r) ==> q.MessageReaction? && q == MessageReaction(message, user, q.reaction);
    case ShareReaction(share, user, _) =>
      assert forall x :: KeyOf(ShareReaction(share, user, x)) == KeyOf(r);
      assert forall q :: KeyOf(q) == KeyOf(r) ==> q.ShareReaction? && q == ShareReaction(share, user, q.reaction);
    case PostView(_, _) => assert forall q :: KeyOf(q) == KeyOf(r) ==> q == r;
  }

  lemma ParentsByFields(rows: set<Row>, r: Row)
    ensures (forall k <- Parents(r) :: HasKey(rows, k)) <==>
            match r
            case User(_) => true
            case Post(_, owner) => HasUser(rows, owner)
            case Comment(_, post, user) => HasPost(rows, post) && HasUser(rows, user)
            case Message(_, sender, receiver) => HasUser(rows, sender) && HasUser(rows, receiver)
            case Share(_, post, a, b) => HasPost(rows, post) && HasUser(rows, a) && HasUser(rows, b)
            case Vote(post, user, _) => HasPost(rows, post) && HasUser(rows, user)
            case CommentVote(comment, user, _) => HasComment(rows, comment) && HasUser(rows, user)
            case Connection(a, b) => HasUser(rows, a) && HasUser(rows, b)
            case MessageReaction(message, user, _) => HasMessage(rows, message) && HasUser(rows, user)
            case ShareReaction(share, user, _) => HasShare(rows, share) && HasUser(rows, user)
            case PostView(post, user) => HasPost(rows, post) && HasUser(rows, user)
  {
    hide HasUser, HasPost, HasComment, HasMessage, HasShare, HasKey;
    forall id ensures && (HasKey(rows, UserKey(id)) <==> HasUser(rows, id))
                      && (HasKey(rows, PostKey(id)) <==> HasPost(rows, id))
                      && (HasKey(rows, CommentKey(id)) <==> HasComment(rows, id))
                      && (HasKey(rows, MessageKey(id)) <==> HasMessage(rows, id))
                      && (HasKey(rows, ShareKey(id)) <==> HasShare(rows, id)) {
      KeysByFields(rows, id);
    }
  }

  /** Exactly when the constraints admit a row: what it refers to is there, and nothing with
      its identifier or its pair. */
  lemma InsertedExactlyWhen(db: Db, r: Row)
    ensures CanInsert(db, r) <==>
            match r
            case User(id) => !HasUser(db.rows, id) && Unreferenced(db.rows, UserKey(id))
            case Post(id, owner) =>
              HasUser(db.rows, owner) && !HasPost(db.rows, id) && Unreferenced(db.rows, PostKey(id))
            case Comment(id, post, user) =>
              && HasPost(db.rows, post) && HasUser(db.rows, user)
              && !HasComment(db.rows, id) && Unreferenced(db.rows, CommentKey(id))
            case Message(id, sender, receiver) =>
              && HasUser(db.rows, sender) && HasUser(db.rows, receiver)
              && !HasMessage(db.rows, id) && Unreferenced(db.rows, MessageKey(id))
            case Share(id, post, a, b) =>
              && HasPost(db.rows, post) && HasUser(db.rows, a) && HasUser(db.rows, b)
              && !HasShare(db.rows, id) && Unreferenced(db.rows, ShareKey(id))
            case Vote(post, user, _) =>
              && HasPost(db.rows, post) && HasUser(db.rows, user)
              && Vote(post, user, true) !in db.rows && Vote(post, user, false) !in db.rows
            case CommentVote(comment, user, _) =>
              && HasComment(db.rows, comment) && HasUser(db.rows, user)
              && CommentVote(comment, user, true) !in db.rows && CommentVote(comment, user, false) !in db.rows
            case Connection(a, b) => HasUser(db.rows, a) && HasUser(db.rows, b) && a != b && r !in db.rows
            case MessageReaction(message, user, _) =>
              && HasMessage(db.rows, message) && HasUser(db.rows, user)
              && !exists x :: MessageReaction(message, user, x) in db.rows
            case ShareReaction(share, user, _) =>
              && HasShare(db.rows, share) && HasUser(db.rows, user)
              && !exists x :: ShareReaction(share, user, x) in db.rows
            case PostView(post, user) => HasPost(db.rows, post) && HasUser(db.rows, user) && r !in db.rows
  {
    hide HasUser, HasPost, HasComment, HasMessage, HasShare;
    OwnKeyByFields(db.rows, r);
    ParentsByFields(db.rows, r);
    if Leaf(r) { LeafIsUnreferenced(db.rows, r); }
  }

  // ----- what goes with a row

  ghost predicate GoesWithUser(rows: set<Row>, user: Id, r: Row) {
    match r
    case User(id) => id == user
    case Post(_, owner) => owner == user
    case Comment(_, post, who) => who == user || Post(post, user) in rows
    case Message(_, sender, receiver) => sender == user || receiver == user
    case Share(_, post, a, b) => a == user || b == user || Post(post, user) in rows
    case Vote(post, who, _) => who == user || Post(post, user) in rows
    case PostView(post, who) => who == user || Post(post, user) in rows
    case Connection(a, b) => a == user || b == user
    case CommentVote(comment, who, _) =>
      || who == user
      || exists q <- rows :: q.Comment? && q.id == comment && (q.user == user || Post(q.post, user) in rows)
    case MessageReaction(message, who, _) =>
      || who == user
      || exists q <- rows :: q.Message? && q.id == message && (q.sender == user || q.receiver == user)
    case ShareReaction(share, who, _) =>
      || who == user
      || exists q <- rows :: q.Share? && q.id == share
                             && (q.fromUser == user || q.toUser == user || Post(q.post, user) in rows)
  }

  ghost predicate GoesWithPost(rows: set<Row>, post: Id, r: Row) {
    match r
    case Post(id, _) => id == post
    case Comment(_, on, _) => on == post
    case Share(_, of, _, _) => of == post
    case Vote(on, _, _) => on == post
    case PostView(of, _) => of == post
    case CommentVote(comment, _, _) => exists q <- rows :: q.Comment? && q.id == comment && q.post == post
    case ShareReaction(share, _, _) => exists q <- rows :: q.Share? && q.id == share && q.post == post
    case _ => false
  }

  /** Deleting a user, a post, a comment, a message or a share takes all that is theirs, on it
      or about it; anything else goes alone. */
  ghost predicate GoesWith(rows: set<Row>, root: Row, r: Row) {
    match root
    case User(id) => GoesWithUser(rows, id, r)
    case Post(id, _) => GoesWithPost(rows, id, r)
    case Comment(id, _, _) => r == root || (r.CommentVote? && r.comment == id)
    case Message(id, _, _) => r == root || (r.MessageReaction? && r.message == id)
    case Share(id, _, _, _) => r == root || (r.ShareReaction? && r.share == id)
    case _ => r == root
  }

  ghost predicate UniqueKeys(rows: set<Row>) {
    forall r <- rows, q <- rows :: KeyOf(r) == KeyOf(q) ==> r == q
  }

  /** What refers to a row that goes, goes. */
  lemma GoingSpreads(rows: set<Row>, root: Row, q: Row, r: Row)
    requires UniqueKeys(rows) && root in rows && q in rows && r in rows
    requires KeyOf(q) in Parents(r) && GoesWith(rows, root, q)
    ensures GoesWith(rows, root, r)
  {
    assert KeyOf(q) == KeyOf(root) ==> q == root;
    match root
    case User(id) => UserSpreads(rows, id, q, r);
    case Post(id, _) => PostSpreads(rows, id, q, r);
    case _ =>
  }

  lemma UserSpreads(rows: set<Row>, user: Id, q: Row, r: Row)
    requires q in rows && KeyOf(q) in Parents(r) && GoesWithUser(rows, user, q)
    ensures GoesWithUser(rows, user, r)
  {
  }

  lemma PostSpreads(rows: set<Row>, post: Id, q: Row, r: Row)
    requires q in rows && KeyOf(q) in Parents(r) && GoesWithPost(rows, post, q)
    ensures GoesWithPost(rows, post, r)
  {
  }

  /** The reference on account of which a row goes, if it is not the deleted row. */
  ghost function CauseWithUser(user: Id, r: Row): Key {
    match r
    case Comment(_, post, who) => if who == user then UserKey(user) else PostKey(post)
    case Share(_, post, a, b) => if a == user || b == user then UserKey(user) else PostKey(post)
    case Vote(post, who, _) => if who == user then UserKey(user) else PostKey(post)
    case PostView(post, who) => if who == user then UserKey(user) else PostKey(post)
    case CommentVote(comment, who, _) => if who == user then UserKey(user) else CommentKey(comment)
    case MessageReaction(message, who, _) => if who == user then UserKey(user) else MessageKey(message)
    case ShareReaction(share, who, _) => if who == user then UserKey(user) else ShareKey(share)
    case _ => UserKey(user)
  }

  ghost function CauseWithPost(post: Id, r: Row): Key {
    match r
    case CommentVote(comment, _, _) => CommentKey(comment)
    case ShareReaction(share, _, _) => ShareKey(share)
    case _ => PostKey(post)
  }

  ghost function Cause(root: Row, r: Row): Key {
    match root
    case User(id) => CauseWithUser(id, r)
    case Post(id, _) => CauseWithPost(id, r)
    case _ => KeyOf(root)
  }

  lemma GoingHasACause(rows: set<Row>, root: Row, r: Row)
    requires UniqueKeys(rows) && root in rows && r in rows && r != root && GoesWith(rows, root, r)
    ensures Cause(root, r) in Parents(r)
  {
    assert KeyOf(r) != KeyOf(root);
  }

  lemma CauseGoes(rows: set<Row>, root: Row, r: Row, q: Row)
    requires UniqueKeys(rows) && root in rows && r in rows && q in rows && r != root && GoesWith(rows, root, r)
    requires KeyOf(q) == Cause(root, r)
    ensures GoesWith(rows, root, q)
  {
    hide KeyOf;
    assert KeyOf(q) == KeyOf(root) ==> q == root;
    match root
    case User(id) => UserCauseGoes(rows, id, r, q);
    case Post(id, _) => PostCauseGoes(rows, id, r, q);
    case _ =>
  }

  lemma UserCauseGoes(rows: set<Row>, user: Id, r: Row, q: Row)
    requires UniqueKeys(rows) && q in rows && GoesWithUser(rows, user, r) && KeyOf(q) == CauseWithUser(user, r)
    ensures GoesWithUser(rows, user, q)
  {
    assert forall p <- rows :: KeyOf(p) == KeyOf(q) ==> p == q;
    assert q.Post? ==> KeyOf(Post(q.id, user)) == KeyOf(q);
  }

  lemma PostCauseGoes(rows: set<Row>, post: Id, r: Row, q: Row)
    requires UniqueKeys(rows) && q in rows && GoesWithPost(rows, post, r) && KeyOf(q) == CauseWithPost(post, r)
    ensures GoesWithPost(rows, post, q)
  {
    assert forall p <- rows :: KeyOf(p) == KeyOf(q) ==> p == q;
  }

  function Depth(r: Row): nat {
    match r
    case User(_) => 0
    case Post(_, _) => 1
    case Comment(_, _, _) => 2
    case Message(_, _, _) => 2
    case Share(_, _, _, _) => 2
    case _ => 3
  }

  lemma ParentsAreHigher(q: Row, r: Row)
    requires KeyOf(q) in Parents(r)
    ensures Depth(q) < Depth(r)
  {
  }

  /** Nothing that goes can be left behind. */
  lemma {:induction false} GoingIsForced(rows: set<Row>, root: Row, left: set<Row>, r: Row)
    requires UniqueKeys(rows) && root in rows && left <= rows - {root} && Closed(left)
    requires r in left
    ensures !GoesWith(rows, root, r)
    decreases Depth(r)
  {
    if GoesWith(rows, root, r) {
      hide GoesWith, Cause, Parents, KeyOf, Depth;
      GoingHasACause(rows, root, r);
      assert HasKey(left, Cause(root, r));
      var q :| q in left && KeyOf(q) == Cause(root, r);
      CauseGoes(rows, root, r, q);
      ParentsAreHigher(q, r);
      GoingIsForced(rows, root, left, q);
    }
  }

  /** What ON DELETE CASCADE leaves of consistent rows, whichever row is deleted: exactly what
      does not go with it. */
  lemma DeletionTakesExactly(rows: set<Row>, root: Row, left: set<Row>)
    requires UniqueKeys(rows) && Closed(rows) && root in rows && LeftByDelete(rows, root, left)
    ensures left == set r <- rows | !GoesWith(rows, root, r)
  {
    hide GoesWith, Parents, KeyOf;
    var kept := set r <- rows | !GoesWith(rows, root, r);
    forall r <- kept, k <- Parents(r) ensures HasKey(kept, k) {
      assert HasKey(rows, k);
      var q :| q in rows && KeyOf(q) == k;
      if GoesWith(rows, root, q) { GoingSpreads(rows, root, q, r); }
    }
    RootGoes(rows, root);
    assert kept <= rows - {root};
    forall r <- left ensures r in kept {
      GoingIsForced(rows, root, left, r);
    }
  }

  lemma RootGoes(rows: set<Row>, root: Row)
    ensures GoesWith(rows, root, root)
  {
  }
}
