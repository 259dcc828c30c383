/** Denormalised counters: the triggers of
    alembic/versions/e9b7c6a5d4f2_add_counter_triggers.py against plain counting.

    The database is a set of rows plus one value per counter cell (a counter column of one
    row).  Every row-level change fires the trigger of its table; a cascading delete is a
    series of row deletes, in whatever order PostgreSQL reaches them. */
module Counters {
  import opened Prelude

  type Id = nat

  datatype Row =
    | User(id: Id)
    | Post(id: Id, owner: Id)
    | Comment(id: Id, post: Id, user: Id)
    | Message(id: Id, sender: Id, receiver: Id)
    | Share(id: Id, post: Id, fromUser: Id, toUser: Id)
    | Vote(post: Id, user: Id, action: bool)
    | CommentVote(comment: Id, user: Id, like: bool)
    | Connection(followed: Id, follower: Id)
    | MessageReaction(message: Id, user: Id, reaction: string)
    | ShareReaction(share: Id, user: Id, reaction: string)
    | PostView(post: Id, user: Id)

  /** Primary keys and unique constraints. */
  datatype Key =
    | UserKey(id: Id) | PostKey(id: Id) | CommentKey(id: Id) | MessageKey(id: Id) | ShareKey(id: Id)
    | VoteKey(post: Id, user: Id) | CommentVoteKey(comment: Id, user: Id) | ConnectionKey(followed: Id, follower: Id)
    | MessageReactionKey(message: Id, user: Id) | ShareReactionKey(share: Id, user: Id)
    | PostViewKey(post: Id, user: Id)

  function KeyOf(r: Row): Key {
    match r
    case User(id) => UserKey(id)
    case Post(id, _) => PostKey(id)
    case Comment(id, _, _) => CommentKey(id)
    case Message(id, _, _) => MessageKey(id)
    case Share(id, _, _, _) => ShareKey(id)
    case Vote(p, u, _) => VoteKey(p, u)
    case CommentVote(c, u, _) => CommentVoteKey(c, u)
    case Connection(a, b) => ConnectionKey(a, b)
    case MessageReaction(m, u, _) => MessageReactionKey(m, u)
    case ShareReaction(s, u, _) => ShareReactionKey(s, u)
    case PostView(p, u) => PostViewKey(p, u)
  }

  /** The rows a row refers to, each with ON DELETE CASCADE. */
  function Parents(r: Row): set<Key> {
    match r
    case User(_) => {}
    case Post(_, owner) => {UserKey(owner)}
    case Comment(_, post, user) => {PostKey(post), UserKey(user)}
    case Message(_, sender, receiver) => {UserKey(sender), UserKey(receiver)}
    case Share(_, post, a, b) => {PostKey(post), UserKey(a), UserKey(b)}
    case Vote(post, user, _) => {PostKey(post), UserKey(user)}
    case CommentVote(comment, user, _) => {CommentKey(comment), UserKey(user)}
    case Connection(a, b) => {UserKey(a), UserKey(b)}
    case MessageReaction(message, user, _) => {MessageKey(message), UserKey(user)}
    case ShareReaction(share, user, _) => {ShareKey(share), UserKey(user)}
    case PostView(post, user) => {PostKey(post), UserKey(user)}
  }

  datatype Column =
    | UserFollowing | UserFollowers | MessageReactions | ShareReactions | CommentLikes
    | PostComments | PostViews | PostLikes | PostDislikes

  datatype Cell = Cell(col: Column, id: Id)

  type Counts = map<Cell, int>

  /** The row a cell is a column of. */
  function OwnerOf(c: Cell): Key {
    match c.col
    case UserFollowing => UserKey(c.id)
    case UserFollowers => UserKey(c.id)
    case MessageReactions => MessageKey(c.id)
    case ShareReactions => ShareKey(c.id)
    case CommentLikes => CommentKey(c.id)
    case PostComments => PostKey(c.id)
    case PostViews => PostKey(c.id)
    case PostLikes => PostKey(c.id)
    case PostDislikes => PostKey(c.id)
  }

  function CellsOf(r: Row): (cells: set<Cell>)
    ensures forall c :: c in cells <==> OwnerOf(c) == KeyOf(r)
  {
    match r
    case User(id) => {Cell(UserFollowing, id), Cell(UserFollowers, id)}
    case Post(id, _) => {Cell(PostComments, id), Cell(PostViews, id), Cell(PostLikes, id), Cell(PostDislikes, id)}
    case Comment(id, _, _) => {Cell(CommentLikes, id)}
    case Message(id, _, _) => {Cell(MessageReactions, id)}
    case Share(id, _, _, _) => {Cell(ShareReactions, id)}
    case _ => {}
  }

  /** The COUNT queries: which source rows a cell counts. */
  predicate Feeds(r: Row, c: Cell) {
    match c.col
    case UserFollowing => r.Connection? && r.follower == c.id
    case UserFollowers => r.Connection? && r.followed == c.id
    case MessageReactions => r.MessageReaction? && r.message == c.id
    case ShareReactions => r.ShareReaction? && r.share == c.id
    case CommentLikes => r.CommentVote? && r.comment == c.id && r.like
    case PostComments => r.Comment? && r.post == c.id
    case PostViews => r.PostView? && r.post == c.id
    case PostLikes => r.Vote? && r.post == c.id && r.action
    case PostDislikes => r.Vote? && r.post == c.id && !r.action
  }

  function Fed(rows: set<Row>, c: Cell): set<Row> {
    set r <- rows | Feeds(r, c)
  }

  function Count(rows: set<Row>, c: Cell): nat {
    |Fed(rows, c)|
  }

  // ----- the seven triggers

  datatype Change = Inserted(row: Row) | Deleted(row: Row) | Updated(before: Row, after: Row)

  /** UPDATE t SET col = col + 1 WHERE id = ... */
  function Inc(cnt: Counts, col: Column, id: Id): Counts {
    var c := Cell(col, id);
    if c in cnt then cnt[c := cnt[c] + 1] else cnt
  }

  /** UPDATE t SET col = GREATEST(col - 1, 0) WHERE id = ... */
  function Dec(cnt: Counts, col: Column, id: Id): Counts {
    var c := Cell(col, id);
    if c in cnt then cnt[c := Max(cnt[c] - 1, 0)] else cnt
  }

  function SyncPostVoteCounts(cnt: Counts, op: Change): Counts {
    match op
    case Inserted(Vote(post, _, action)) => if action then Inc(cnt, PostLikes, post) else Inc(cnt, PostDislikes, post)
    case Deleted(Vote(post, _, action)) => if action then Dec(cnt, PostLikes, post) else Dec(cnt, PostDislikes, post)
    case Updated(Vote(oldPost, _, was), Vote(newPost, _, now)) =>
      if was == now then cnt
      else
        var lowered := if was then Dec(cnt, PostLikes, oldPost) else Dec(cnt, PostDislikes, oldPost);
        if now then Inc(lowered, PostLikes, newPost) else Inc(lowered, PostDislikes, newPost)
    case _ => cnt
  }

  function SyncCommentVoteCounts(cnt: Counts, op: Change): Counts {
    match op
    case Inserted(CommentVote(comment, _, like)) => if like then Inc(cnt, CommentLikes, comment) else cnt
    case Deleted(CommentVote(comment, _, like)) => if like then Dec(cnt, CommentLikes, comment) else cnt
    case Updated(CommentVote(oldComment, _, was), CommentVote(newComment, _, now)) =>
      if was == now then cnt
      else
        var lowered := if was then Dec(cnt, CommentLikes, oldComment) else cnt;
        if now then Inc(lowered, CommentLikes, newComment) else lowered
    case _ => cnt
  }

  function SyncPostCommentCounts(cnt: Counts, op: Change): Counts {
    match op
    case Inserted(Comment(_, post, _)) => Inc(cnt, PostComments, post)
    case Deleted(Comment(_, post, _)) => Dec(cnt, PostComments, post)
    case _ => cnt
  }

  function SyncPostViewCounts(cnt: Counts, op: Change): Counts {
    match op
    case Inserted(PostView(post, _)) => Inc(cnt, PostViews, post)
    case Deleted(PostView(post, _)) => Dec(cnt, PostViews, post)
    case _ => cnt
  }

  function SyncConnectionCounts(cnt: Counts, op: Change): Counts {
    match op
    case Inserted(Connection(followed, follower)) => Inc(Inc(cnt, UserFollowing, follower), UserFollowers, followed)
    case Deleted(Connection(followed, follower)) => Dec(Dec(cnt, UserFollowing, follower), UserFollowers, followed)
    case _ => cnt
  }

  function SyncMessageReactionCounts(cnt: Counts, op: Change): Counts {
    match op
    case Inserted(MessageReaction(message, _, _)) => Inc(cnt, MessageReactions, message)
    case Deleted(MessageReaction(message, _, _)) => Dec(cnt, MessageReactions, message)
    case _ => cnt
  }

  function SyncShareReactionCounts(cnt: Counts, op: Change): Counts {
    match op
    case Inserted(ShareReaction(share, _, _)) => Inc(cnt, ShareReactions, share)
    case Deleted(ShareReaction(share, _, _)) => Dec(cnt, ShareReactions, share)
    case _ => cnt
  }

  /** Each table fires its own trigger. */
  function Fire(cnt: Counts, op: Change): Counts {
    match (if op.Updated? then op.after else op.row)
    case Vote(_, _, _) => SyncPostVoteCounts(cnt, op)
    case CommentVote(_, _, _) => SyncCommentVoteCounts(cnt, op)
    case Comment(_, _, _) => SyncPostCommentCounts(cnt, op)
    case PostView(_, _) => SyncPostViewCounts(cnt, op)
    case Connection(_, _) => SyncConnectionCounts(cnt, op)
    case MessageReaction(_, _, _) => SyncMessageReactionCounts(cnt, op)
    case ShareReaction(_, _, _) => SyncShareReactionCounts(cnt, op)
    case _ => cnt
  }

  // ----- what the triggers must do

  predicate FedBefore(op: Change, c: Cell) {
    match op
    case Inserted(_) => false
    case Deleted(r) => Feeds(r, c)
    case Updated(before, _) => Feeds(before, c)
  }

  predicate FedAfter(op: Change, c: Cell) {
    match op
    case Inserted(r) => Feeds(r, c)
    case Deleted(_) => false
    case Updated(_, after) => Feeds(after, c)
  }

  /** One more, one fewer down to zero, or as before. */
  function Adjusted(value: int, was: bool, now: bool): int {
    if was == now then value else if now then value + 1 else Max(value - 1, 0)
  }

  /** An UPDATE statement never moves a row to another key. */
  predicate Proper(op: Change) {
    op.Updated? ==> KeyOf(op.before) == KeyOf(op.after) && Parents(op.before) == Parents(op.after)
  }

  /** All seven triggers do the same thing: every counter of a surviving row follows the rows
      it counts, whichever table changed and however. */
  lemma TriggersFollowTheCount(cnt: Counts, op: Change, c: Cell)
    requires Proper(op)
    ensures Fire(cnt, op).Keys == cnt.Keys
    ensures c in cnt ==> Fire(cnt, op)[c] == Adjusted(cnt[c], FedBefore(op, c), FedAfter(op, c))
  {
    match op
    case Inserted(r) => InsertTrigger(cnt, r, c);
    case Deleted(r) => DeleteTrigger(cnt, r, c);
    case Updated(r, q) => UpdateTrigger(cnt, r, q, c);
  }

  lemma InsertTrigger(cnt: Counts, r: Row, c: Cell)
    ensures Fire(cnt, Inserted(r)).Keys == cnt.Keys
    ensures c in cnt ==> Fire(cnt, Inserted(r))[c] == Adjusted(cnt[c], false, Feeds(r, c))
  {
  }

  lemma DeleteTrigger(cnt: Counts, r: Row, c: Cell)
    ensures Fire(cnt, Deleted(r)).Keys == cnt.Keys
    ensures c in cnt ==> Fire(cnt, Deleted(r))[c] == Adjusted(cnt[c], Feeds(r, c), false)
  {
  }

  lemma UpdateTrigger(cnt: Counts, r: Row, q: Row, c: Cell)
    requires KeyOf(r) == KeyOf(q) && Parents(r) == Parents(q)
    ensures Fire(cnt, Updated(r, q)).Keys == cnt.Keys
    ensures c in cnt ==> Fire(cnt, Updated(r, q))[c] == Adjusted(cnt[c], Feeds(r, c), Feeds(q, c))
  {
    match r
    case Comment(_, _, _) => SameParents(r, q);
    case Post(_, _) =>
    case User(_) =>
    case Message(_, _, _) =>
    case Share(_, _, _, _) =>
    case Vote(_, _, _) =>
    case CommentVote(_, _, _) =>
    case Connection(_, _) =>
    case MessageReaction(_, _, _) =>
    case ShareReaction(_, _, _) =>
    case PostView(_, _) =>
  }

  lemma SameParents(r: Row, q: Row)
    requires r.Comment? && q.Comment? && Parents(r) == Parents(q)
    ensures r.post == q.post
  {
    assert PostKey(r.post) in Parents(q);
  }
}
