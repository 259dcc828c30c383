/** The life of messages and shared posts: reconnects that claim unread rows with
    FOR UPDATE SKIP LOCKED, read receipts, edits and deletions for everyone, as concurrent
    transactions.  A transaction's one guarded statement finds and locks its rows; what it
    writes is seen by others from its commit. */
module MessageFlow {
  import opened Prelude

  type User = nat
  type Req = nat

  datatype RowId = Msg(n: nat) | Share(n: nat)

  /** A text and what `strip` leaves of it. */
  datatype Content = Content(text: string, trimmed: string)

  /** A row of `messages` or `shared_posts`; `edits` is history: how often it was edited. */
  datatype Row = Row(
    sender: User, receiver: User, content: Content, createdAt: int,
    isRead: bool, readAt: Option<int>, isDeleted: bool, isEdited: bool, edits: nat)

  /** The guarded statements, with the time the request took. */
  datatype Op =
    | Claim(user: User, shares: bool, at: int)          // load_missed_content
    | Receipt(sender: User, reader: User, at: int)      // mark_as_read
    | MarkRead(id: RowId, at: int)                      // local delivery when Redis is down
    | Edit(id: RowId, sender: User, content: Content, at: int)
    | Delete(id: RowId, sender: User)
    | Touch(ids: set<RowId>, lock: Lock)                // whatever else locks rows and lets them be

  /** PostgreSQL's row locks: of a foreign-key check, of an UPDATE, of SELECT ... FOR UPDATE. */
  datatype Lock = KeyShare | NoKeyUpdate | ForUpdate

  datatype Reply =
    | Claimed(ids: set<RowId>)
    | Edited | Unchanged | EditExpired | EditRefused
    | DeletedForAll | DeleteRefused
    | Touched
    | NotFound | Aborted

  datatype Phase =
    | Checked(id: RowId, sender: User, content: Content, now: int)
    | Holding(op: Op, locked: set<RowId>)
    | Done(reply: Reply)

  /** A row handed to a request, and which edit of it. */
  datatype Claiming = Claiming(req: Req, id: RowId, epoch: nat)
  datatype Deletion = Deletion(req: Req, id: RowId)

  /** A transaction that locked a row, which edit of it, and whether its commit claims, edits or
      deletes the row. */
  datatype Hold = Hold(req: Req, id: RowId, epoch: nat, settles: bool)

  /** `claims`, `deletions`, `held` and `rolledBack` are history: what committed statements
      handed out and deleted, every lock ever taken, and those given up in a rollback. */
  datatype State = State(
    rows: map<RowId, Row>, clock: int, reqs: map<Req, Phase>,
    claims: set<Claiming>, deletions: set<Deletion>, held: set<Hold>, rolledBack: set<Hold>)

  datatype Event =
    | Tick(d: nat)
    | Send(id: RowId, sender: User, receiver: User, content: Content)
    | Begin(r: Req, op: Op)
    | CheckEdit(r: Req, id: RowId, sender: User, content: Content)
    | BeginEdit(r: Req)
    | Commit(r: Req)
    | Abort(r: Req)

  // ----- statements

  /** The WHERE clause. */
  predicate Matches(window: nat, op: Op, id: RowId, row: Row) {
    match op
    case Claim(user, shares, _) => id.Share? == shares && row.receiver == user && !row.isRead && !row.isDeleted
    case Receipt(sender, reader, _) => id.Msg? && row.sender == sender && row.receiver == reader && !row.isRead
    case MarkRead(target, _) => id == target && !row.isRead
    case Edit(target, sender, _, at) =>
      id == target && row.sender == sender && row.createdAt >= at - window && !row.isDeleted
    case Delete(target, sender) => id == target && row.sender == sender && !row.isDeleted
    case Touch(ids, _) => id in ids
  }

  function Selected(window: nat, rows: map<RowId, Row>, op: Op): set<RowId> {
    set id <- rows | Matches(window, op, id, rows[id])
  }

  predicate Reads(op: Op) {
    op.Claim? || op.Receipt? || op.MarkRead?
  }

  /** The SET clause. */
  function Effect(op: Op, id: RowId, row: Row): Row {
    match op
    case Edit(_, _, content, _) =>
      row.(content := content, isEdited := true, isRead := false, readAt := None, edits := row.edits + 1)
    case Delete(_, _) => row.(isDeleted := true)
    case Touch(_, _) => row
    case _ => row.(isRead := true, readAt := if id.Msg? then Some(op.at) else row.readAt)
  }

  function Write(rows: map<RowId, Row>, op: Op, ids: set<RowId>): map<RowId, Row> {
    map id <- rows :: if id in ids then Effect(op, id, rows[id]) else rows[id]
  }

  function LockOf(op: Op): Lock {
    match op
    case Claim(_, _, _) => ForUpdate
    case Touch(_, lock) => lock
    case _ => NoKeyUpdate
  }

  /** A foreign-key check stands in the way of FOR UPDATE alone. */
  predicate Conflict(a: Lock, b: Lock) {
    a.ForUpdate? || b.ForUpdate? || (a.NoKeyUpdate? && b.NoKeyUpdate?)
  }

  predicate Blocked(s: State, op: Op, id: RowId) {
    exists q <- s.reqs :: s.reqs[q].Holding? && id in s.reqs[q].locked && Conflict(LockOf(op), LockOf(s.reqs[q].op))
  }

  /** The reply of a statement that found the given rows. */
  function Answer(op: Op, ids: set<RowId>): Reply {
    match op
    case Edit(_, _, _, _) => if ids == {} then EditRefused else Edited
    case Delete(_, _) => if ids == {} then DeleteRefused else DeletedForAll
    case Touch(_, _) => Touched
    case _ => Claimed(ids)
  }

  // ----- steps

  function To(s: State, r: Req, p: Phase): State {
    s.(reqs := s.reqs[r := p])
  }

  /** SKIP LOCKED passes over locked rows; any other statement waits for them. */
  function DoBegin(window: nat, s: State, r: Req, op: Op): State {
    var found := Selected(window, s.rows, op);
    var ids := if op.Claim? then set id <- found | !Blocked(s, op, id) else found;
    if exists id <- ids :: Blocked(s, op, id) then s
    else Found(s, r, op, ids)
  }

  /** The statement has found its rows: it holds them, or answers at once if there are none. */
  function Found(s: State, r: Req, op: Op, ids: set<RowId>): State {
    To(s, r, if ids == {} then Done(Answer(op, {})) else Holding(op, ids)).(held := s.held + Holds(s.rows, r, op, ids))
  }

  /** The locks a statement takes on the rows as they are. */
  function Holds(rows: map<RowId, Row>, r: Req, op: Op, ids: set<RowId>): set<Hold> {
    set id <- ids | id in rows :: Hold(r, id, rows[id].edits, !op.Touch?)
  }

  /** edit_message, lines 59-96. */
  function DoCheckEdit(window: nat, s: State, r: Req, id: RowId, sender: User, content: Content): State {
    To(s, r,
       if id !in s.rows || s.rows[id].sender != sender then Done(NotFound)
       else if s.clock - s.rows[id].createdAt > window then Done(EditExpired)
       else if s.rows[id].content.trimmed == content.text then Done(Unchanged)
       else Checked(id, sender, content, s.clock))
  }

  function DoCommit(s: State, r: Req): State
    requires r in s.reqs && s.reqs[r].Holding?
  {
    var op, ids := s.reqs[r].op, s.reqs[r].locked;
    State(Write(s.rows, op, ids), s.clock, s.reqs[r := Done(Answer(op, ids))],
          s.claims + NewClaims(s, r, op, ids), s.deletions + NewDeletions(r, op, ids), s.held, s.rolledBack)
  }

  /** A rollback gives the locks up and writes nothing. */
  function DoAbort(s: State, r: Req): State
    requires r in s.reqs
  {
    To(s, r, Done(Aborted)).(rolledBack := s.rolledBack + set h <- s.held | h.req == r)
  }

  function NewClaims(s: State, r: Req, op: Op, ids: set<RowId>): set<Claiming> {
    if Reads(op) then set id <- ids | id in s.rows :: Claiming(r, id, s.rows[id].edits) else {}
  }

  function NewDeletions(r: Req, op: Op, ids: set<RowId>): set<Deletion> {
    if op.Delete? then set id <- ids :: Deletion(r, id) else {}
  }

  function Step(window: nat, s: State, e: Event): State {
    match e
    case Tick(d) => s.(clock := s.clock + d)
    case Send(id, sender, receiver, content) =>
      if id in s.rows then s
      else s.(rows := s.rows[id := Row(sender, receiver, content, s.clock, false, None, false, false, 0)])
    case Begin(r, op) => if r in s.reqs || op.Edit? then s else DoBegin(window, s, r, op)
    case CheckEdit(r, id, sender, content) =>
      if r in s.reqs || id.Share? then s else DoCheckEdit(window, s, r, id, sender, content)
    case BeginEdit(r) =>
      if r in s.reqs && s.reqs[r].Checked? then
        var p := s.reqs[r];
        DoBegin(window, s, r, Edit(p.id, p.sender, p.content, p.now))
      else s
    case Commit(r) => if r in s.reqs && s.reqs[r].Holding? then DoCommit(s, r) else s
    case Abort(r) => if r in s.reqs && !s.reqs[r].Done? then DoAbort(s, r) else s
  }

  function Run(window: nat, s: State, events: seq<Event>): State
    decreases |events|
  {
    if events == [] then s else Run(window, Step(window, s, events[0]), events[1..])
  }

  lemma RunOfOne(window: nat, s: State, e: Event)
    ensures Run(window, s, [e]) == Step(window, s, e)
  {
    hide Step;
    assert [e][1..] == [];
  }

  lemma RunOf2(window: nat, s: State, e: Event, f: Event)
    ensures Run(window, s, [e, f]) == Step(window, Step(window, s, e), f)
  {
    hide Step;
    assert [e, f][1..] == [f];
    RunOfOne(window, Step(window, s, e), f);
  }

  lemma {:induction false} RunAppends(window: nat, s: State, first: seq<Event>, second: seq<Event>)
    ensures Run(window, s, first + second) == Run(window, Run(window, s, first), second)
    decreases |first|
  {
    if first == [] {
      assert first + second == second;
    } else {
      assert (first + second)[1..] == first[1..] + second;
      RunAppends(window, Step(window, s, first[0]), first[1..], second);
    }
  }

  const Empty := State(map[], 0, map[], {}, {}, {}, {})

  // ----- the invariant

  ghost predicate RowOk(id: RowId, row: Row) {
    if id.Msg? then row.isRead <==> row.readAt.Some? else row.readAt.None? && row.edits == 0
  }

  ghost predicate RowsOk(rows: map<RowId, Row>) {
    forall id <- rows :: RowOk(id, rows[id])
  }

  /** A row is read exactly if its present edit was claimed, and no edit was claimed twice. */
  ghost predicate ClaimsOk(rows: map<RowId, Row>, claims: set<Claiming>) {
    && (forall c <- claims :: && c.id in rows && c.epoch <= rows[c.id].edits
                              && (c.epoch == rows[c.id].edits ==> rows[c.id].isRead))
    && (forall c <- claims, d <- claims :: c.id == d.id && c.epoch == d.epoch ==> c == d)
    && (forall id <- rows :: rows[id].isRead ==> exists c <- claims :: c.id == id && c.epoch == rows[id].edits)
  }

  ghost predicate DeletionsOk(rows: map<RowId, Row>, deletions: set<Deletion>) {
    && (forall d <- deletions :: d.id in rows && rows[d.id].isDeleted)
    && (forall c <- deletions, d <- deletions :: c.id == d.id ==> c == d)
    && (forall id <- rows :: rows[id].isDeleted ==> exists d <- deletions :: d.id == id)
  }

  /** Locked rows still match the statement that locked them. */
  ghost predicate PhaseOk(window: nat, rows: map<RowId, Row>, p: Phase) {
    match p
    case Holding(op, ids) =>
      (op.Edit? ==> op.id.Msg?) && forall id <- ids :: id in rows && Matches(window, op, id, rows[id])
    case Checked(id, sender, _, now) =>
      id.Msg? && id in rows && rows[id].sender == sender && rows[id].createdAt >= now - window
    case Done(_) => true
  }

  ghost predicate PhasesOk(window: nat, rows: map<RowId, Row>, reqs: map<Req, Phase>) {
    forall r <- reqs :: PhaseOk(window, rows, reqs[r])
  }

  /** Locks that conflict are not held together. */
  ghost predicate Exclusive(reqs: map<Req, Phase>) {
    forall q <- reqs, r <- reqs ::
      q != r && reqs[q].Holding? && reqs[r].Holding? && Conflict(LockOf(reqs[q].op), LockOf(reqs[r].op)) ==>
        reqs[q].locked !! reqs[r].locked
  }

  /** What a finished batch was told it claimed is on record. */
  ghost predicate RepliesOk(reqs: map<Req, Phase>, claims: set<Claiming>) {
    forall r <- reqs :: reqs[r].Done? && reqs[r].reply.Claimed? ==>
      forall id <- reqs[r].reply.ids :: exists c <- claims :: c.req == r && c.id == id
  }

  ghost predicate Inv(window: nat, s: State) {
    && RowsOk(s.rows) && ClaimsOk(s.rows, s.claims) && DeletionsOk(s.rows, s.deletions)
    && PhasesOk(window, s.rows, s.reqs) && Exclusive(s.reqs) && RepliesOk(s.reqs, s.claims)
  }

  // ----- every step keeps it

  lemma SendKeepsInv(window: nat, s: State, id: RowId, row: Row)
    requires Inv(window, s) && id !in s.rows
    requires !row.isRead && row.readAt.None? && !row.isDeleted && row.edits == 0
    ensures Inv(window, s.(rows := s.rows[id := row]))
  {
    hide RepliesOk, Exclusive, Matches;
  }

  lemma FoundKeepsInv(window: nat, s: State, r: Req, op: Op, ids: set<RowId>)
    requires Inv(window, s) && (op.Edit? ==> op.id.Msg?) && (r in s.reqs ==> s.reqs[r].Checked?)
    requires forall id <- ids :: id in s.rows && Matches(window, op, id, s.rows[id]) && !Blocked(s, op, id)
    ensures Inv(window, Found(s, r, op, ids))
  {
    hide RowsOk, ClaimsOk, DeletionsOk, Matches, Conflict;
    var t := Found(s, r, op, ids);
    forall q <- s.reqs | q != r && s.reqs[q].Holding? && Conflict(LockOf(op), LockOf(s.reqs[q].op))
        ensures s.reqs[q].locked !! ids {
      assert forall id <- ids :: id !in s.reqs[q].locked;
    }
    assert forall a, b :: Conflict(a, b) == Conflict(b, a) by { ConflictIsSymmetric(); }
  }

  lemma ConflictIsSymmetric()
    ensures forall a, b :: Conflict(a, b) == Conflict(b, a)
  {
  }

  lemma BeginKeepsInv(window: nat, s: State, r: Req, op: Op)
    requires Inv(window, s) && (op.Edit? ==> op.id.Msg?) && (r in s.reqs ==> s.reqs[r].Checked?)
    ensures Inv(window, DoBegin(window, s, r, op))
  {
    hide Inv, Matches, Blocked, Found;
    var found := Selected(window, s.rows, op);
    var ids := if op.Claim? then set id <- found | !Blocked(s, op, id) else found;
    if !exists id <- ids :: Blocked(s, op, id) {
      FoundKeepsInv(window, s, r, op, ids);
    }
  }

  lemma WriteKeepsRows(rows: map<RowId, Row>, op: Op, ids: set<RowId>)
    requires RowsOk(rows) && (op.Edit? ==> forall id <- ids :: id.Msg?)
    ensures RowsOk(Write(rows, op, ids))
  {
  }

  lemma CommitKeepsClaims(window: nat, s: State, r: Req, op: Op, ids: set<RowId>)
    requires ClaimsOk(s.rows, s.claims) && PhaseOk(window, s.rows, Holding(op, ids))
    ensures ClaimsOk(Write(s.rows, op, ids), s.claims + NewClaims(s, r, op, ids))
  {
    var rows, claims := Write(s.rows, op, ids), s.claims + NewClaims(s, r, op, ids);
    forall id <- rows | rows[id].isRead ensures exists c <- claims :: c.id == id && c.epoch == rows[id].edits {
      if id in ids && Reads(op) {
        assert Claiming(r, id, s.rows[id].edits) in claims;
      } else {
        assert s.rows[id].isRead;
        var c :| c in s.claims && c.id == id && c.epoch == s.rows[id].edits;
        assert c in claims;
      }
    }
  }

  lemma CommitKeepsDeletions(window: nat, s: State, r: Req, op: Op, ids: set<RowId>)
    requires DeletionsOk(s.rows, s.deletions) && PhaseOk(window, s.rows, Holding(op, ids))
    ensures DeletionsOk(Write(s.rows, op, ids), s.deletions + NewDeletions(r, op, ids))
  {
    var rows, deletions := Write(s.rows, op, ids), s.deletions + NewDeletions(r, op, ids);
    forall id <- rows | rows[id].isDeleted ensures exists d <- deletions :: d.id == id {
      if id in ids && op.Delete? {
        assert Deletion(r, id) in deletions;
      } else {
        assert s.rows[id].isDeleted;
        var d :| d in s.deletions && d.id == id;
        assert d in deletions;
      }
    }
  }

  lemma CommitKeepsPhases(window: nat, s: State, r: Req)
    requires PhasesOk(window, s.rows, s.reqs) && Exclusive(s.reqs) && r in s.reqs && s.reqs[r].Holding?
    ensures var t := DoCommit(s, r); PhasesOk(window, t.rows, t.reqs) && Exclusive(t.reqs)
  {
    hide Matches;
    var t := DoCommit(s, r);
    forall q <- t.reqs ensures PhaseOk(window, t.rows, t.reqs[q]) {
      if q != r {
        assert PhaseOk(window, s.rows, s.reqs[q]);
        if s.reqs[q].Holding? {
          forall id <- s.reqs[q].locked ensures Matches(window, s.reqs[q].op, id, t.rows[id]) {
            StillMatches(window, s, r, q, id);
          }
        }
      }
    }
  }

  /** A commit leaves alone what others have locked, or they do not mind. */
  lemma StillMatches(window: nat, s: State, r: Req, q: Req, id: RowId)
    requires Exclusive(s.reqs) && r in s.reqs && s.reqs[r].Holding? && q in s.reqs && s.reqs[q].Holding? && q != r
    requires id in s.reqs[q].locked && id in s.rows && Matches(window, s.reqs[q].op, id, s.rows[id])
    ensures Matches(window, s.reqs[q].op, id, DoCommit(s, r).rows[id])
  {
    if id in s.reqs[r].locked {
      assert !Conflict(LockOf(s.reqs[q].op), LockOf(s.reqs[r].op));
    }
  }

  lemma CommitKeepsReplies(s: State, r: Req)
    requires RepliesOk(s.reqs, s.claims) && r in s.reqs && s.reqs[r].Holding? && s.reqs[r].locked <= s.rows.Keys
    ensures var t := DoCommit(s, r); RepliesOk(t.reqs, t.claims)
  {
    var t, op, ids := DoCommit(s, r), s.reqs[r].op, s.reqs[r].locked;
    forall q <- t.reqs | t.reqs[q].Done? && t.reqs[q].reply.Claimed?
      ensures forall id <- t.reqs[q].reply.ids :: exists c <- t.claims :: c.req == q && c.id == id
    {
      forall id <- t.reqs[q].reply.ids ensures exists c <- t.claims :: c.req == q && c.id == id {
        if q == r {
          assert Claiming(r, id, s.rows[id].edits) in t.claims;
        } else {
          var c :| c in s.claims && c.req == q && c.id == id;
          assert c in t.claims;
        }
      }
    }
  }

  lemma CommitKeepsInv(window: nat, s: State, r: Req)
    requires Inv(window, s) && r in s.reqs && s.reqs[r].Holding?
    ensures Inv(window, DoCommit(s, r))
  {
    var op, ids := s.reqs[r].op, s.reqs[r].locked;
    assert PhaseOk(window, s.rows, Holding(op, ids));
    assert op.Edit? ==> forall id <- ids :: id.Msg?;
    hide RowsOk, ClaimsOk, DeletionsOk, PhasesOk, Exclusive, RepliesOk, Write, NewClaims, NewDeletions;
    WriteKeepsRows(s.rows, op, ids);
    CommitKeepsClaims(window, s, r, op, ids);
    CommitKeepsDeletions(window, s, r, op, ids);
    CommitKeepsPhases(window, s, r);
    CommitKeepsReplies(s, r);
  }

  lemma IdleKeepsInv(window: nat, s: State, r: Req, p: Phase)
    requires Inv(window, s) && !p.Holding? && PhaseOk(window, s.rows, p) && !(p.Done? && p.reply.Claimed?)
    ensures Inv(window, To(s, r, p))
  {
    hide RowsOk, ClaimsOk, DeletionsOk, Matches;
  }

  lemma StepKeepsInv(window: nat, s: State, e: Event)
    requires Inv(window, s)
    ensures Inv(window, Step(window, s, e))
  {
    match e
    case Tick(_) =>
    case Send(id, sender, receiver, content) =>
      hide RowsOk, ClaimsOk, DeletionsOk, PhasesOk, Exclusive, RepliesOk;
      if id !in s.rows {
        SendKeepsInv(window, s, id, Row(sender, receiver, content, s.clock, false, None, false, false, 0));
      }
    case Begin(r, op) =>
      hide Inv, DoBegin;
      if r !in s.reqs && !op.Edit? { BeginKeepsInv(window, s, r, op); }
    case CheckEdit(r, id, sender, content) =>
      hide Inv;
      if r !in s.reqs && id.Msg? { IdleKeepsInv(window, s, r, DoCheckEdit(window, s, r, id, sender, content).reqs[r]); }
    case BeginEdit(r) =>
      hide RowsOk, ClaimsOk, DeletionsOk, Exclusive, RepliesOk, DoBegin;
      if r in s.reqs && s.reqs[r].Checked? {
        var p := s.reqs[r];
        assert PhaseOk(window, s.rows, p);
        BeginKeepsInv(window, s, r, Edit(p.id, p.sender, p.content, p.now));
      }
    case Commit(r) =>
      hide Inv, DoCommit;
      if r in s.reqs && s.reqs[r].Holding? { CommitKeepsInv(window, s, r); }
    case Abort(r) =>
      hide Inv;
      if r in s.reqs && !s.reqs[r].Done? { IdleKeepsInv(window, s, r, Done(Aborted)); }
  }

  lemma {:induction false} RunKeepsInv(window: nat, s: State, events: seq<Event>)
    requires Inv(window, s)
    ensures Inv(window, Run(window, s, events))
    decreases |events|
  {
    if events != [] {
      hide Inv, Step;
      StepKeepsInv(window, s, events[0]);
      RunKeepsInv(window, Step(window, s, events[0]), events[1..]);
    }
  }

  lemma EmptyIsOk(window: nat)
    ensures Inv(window, Empty)
  {
  }

  // ----- what holds in every run

  /** No edit of a row is handed out twice, by reconnects, receipts or local delivery, and a
      row is marked read exactly if its present edit was handed out. */
  lemma ClaimedOncePerEdit(window: nat, events: seq<Event>)
    ensures var t := Run(window, Empty, events);
            && (forall c <- t.claims, d <- t.claims :: c.id == d.id && c.epoch == d.epoch ==> c == d)
            && (forall id <- t.rows ::
                  t.rows[id].isRead <==> exists c <- t.claims :: c.id == id && c.epoch == t.rows[id].edits)
  {
    EmptyIsOk(window);
    RunKeepsInv(window, Empty, events);
  }

  /** Two batches share a row only if it was edited and each got a different edit. */
  lemma BatchesAreDisjoint(window: nat, events: seq<Event>, q: Req, r: Req, id: RowId)
    ensures var t := Run(window, Empty, events);
            q != r && q in t.reqs && r in t.reqs
            && t.reqs[q].Done? && t.reqs[q].reply.Claimed? && id in t.reqs[q].reply.ids
            && t.reqs[r].Done? && t.reqs[r].reply.Claimed? && id in t.reqs[r].reply.ids ==>
              id in t.rows && t.rows[id].edits > 0
              && exists c <- t.claims, d <- t.claims ::
                   c.req == q && d.req == r && c.id == d.id == id && c.epoch != d.epoch
  {
    EmptyIsOk(window);
    RunKeepsInv(window, Empty, events);
    var t := Run(window, Empty, events);
    if q != r && q in t.reqs && r in t.reqs
       && t.reqs[q].Done? && t.reqs[q].reply.Claimed? && id in t.reqs[q].reply.ids
       && t.reqs[r].Done? && t.reqs[r].reply.Claimed? && id in t.reqs[r].reply.ids {
      var c :| c in t.claims && c.req == q && c.id == id;
      var d :| d in t.claims && d.req == r && d.id == id;
    }
  }

  /** read_at is set exactly when is_read is; a share has no read_at. */
  lemma ReadTimeIffRead(window: nat, events: seq<Event>)
    ensures var t := Run(window, Empty, events);
            forall id <- t.rows :: t.rows[id].readAt.Some? <==> t.rows[id].isRead && id.Msg?
  {
    EmptyIsOk(window);
    RunKeepsInv(window, Empty, events);
    var t := Run(window, Empty, events);
    forall id <- t.rows ensures t.rows[id].readAt.Some? <==> t.rows[id].isRead && id.Msg? {
      assert RowOk(id, t.rows[id]);
    }
  }

  /** A row is deleted for everyone exactly if one deletion took effect, and then only one. */
  lemma OneDeletionTakesEffect(window: nat, events: seq<Event>)
    ensures var t := Run(window, Empty, events);
            && (forall c <- t.deletions, d <- t.deletions :: c.id == d.id ==> c == d)
            && (forall id <- t.rows :: t.rows[id].isDeleted <==> exists d <- t.deletions :: d.id == id)
  {
    EmptyIsOk(window);
    RunKeepsInv(window, Empty, events);
  }

  /** The text of a row and how often it was edited. */
  predicate SameText(a: Row, b: Row) {
    a.content == b.content && a.edits == b.edits && a.isEdited == b.isEdited
  }

  /** Deleted for everyone is for good, and freezes the text. */
  lemma {:induction false} DeletedIsFinal(window: nat, s: State, events: seq<Event>, id: RowId)
    requires Inv(window, s) && id in s.rows && s.rows[id].isDeleted
    ensures var t := Run(window, s, events); id in t.rows && t.rows[id].isDeleted && SameText(t.rows[id], s.rows[id])
    decreases |events|
  {
    if events != [] {
      var e, t := events[0], Step(window, s, events[0]);
      StepKeepsInv(window, s, e);
      assert id in t.rows && t.rows[id].isDeleted && SameText(t.rows[id], s.rows[id])
          by { StepKeepsDeleted(window, s, e, id); }
      hide Inv, Step;
      DeletedIsFinal(window, t, events[1..], id);
    }
  }

  lemma StepKeepsDeleted(window: nat, s: State, e: Event, id: RowId)
    requires Inv(window, s) && id in s.rows && s.rows[id].isDeleted
    ensures var t := Step(window, s, e); id in t.rows && t.rows[id].isDeleted && SameText(t.rows[id], s.rows[id])
  {
    hide RowsOk, ClaimsOk, DeletionsOk, Exclusive, RepliesOk, Selected, Blocked;
    if e.Commit? && e.r in s.reqs && s.reqs[e.r].Holding? {
      assert PhaseOk(window, s.rows, s.reqs[e.r]);
    }
  }

  /** An edit that passed the time check is refused by the guarded update exactly if the
      message was deleted for everyone in the meantime; it may have to wait for a lock. */
  lemma EditRefusedIffDeleted(window: nat, events: seq<Event>, r: Req)
    ensures var s, t := Run(window, Empty, events), Step(window, Run(window, Empty, events), BeginEdit(r));
            r in s.reqs && s.reqs[r].Checked? ==>
              var id := s.reqs[r].id;
              var op := Edit(id, s.reqs[r].sender, s.reqs[r].content, s.reqs[r].now);
              && id in s.rows && (Blocked(s, op, id) && !s.rows[id].isDeleted <==> t == s)
              && (s.rows[id].isDeleted <==> t.reqs[r] == Done(EditRefused))
              && (t.reqs[r].Holding? ==> t.reqs[r].locked == {id})
  {
    EmptyIsOk(window);
    RunKeepsInv(window, Empty, events);
    var s := Run(window, Empty, events);
    if r in s.reqs && s.reqs[r].Checked? {
      hide RowsOk, ClaimsOk, DeletionsOk, Exclusive, RepliesOk, Run;
      var p := s.reqs[r];
      assert PhaseOk(window, s.rows, p);
      var op := Edit(p.id, p.sender, p.content, p.now);
      assert Selected(window, s.rows, op) == if s.rows[p.id].isDeleted then {} else {p.id};
      if s.rows[p.id].isDeleted {
        assert DoBegin(window, s, r, op) == To(s, r, Done(EditRefused));
      } else if Blocked(s, op, p.id) {
        assert p.id in {p.id};
        assert DoBegin(window, s, r, op) == s;
      } else {
        assert !exists x <- {p.id} :: Blocked(s, op, x);
        assert DoBegin(window, s, r, op).reqs == s.reqs[r := Holding(op, {p.id})];
      }
    }
  }

  // ----- nothing is left behind, and exactly when

  /** The given edit of the row was handed out, replaced or deleted. */
  ghost predicate Settled(s: State, id: RowId, epoch: nat) {
    && id in s.rows
    && (s.rows[id].isDeleted || s.rows[id].edits > epoch || exists c <- s.claims :: c.id == id && c.epoch == epoch)
  }

  /** A transaction that locked a row and then committed. */
  predicate Committed(s: State, h: Hold) {
    h in s.held && h !in s.rolledBack && h.req in s.reqs && s.reqs[h.req].Done?
  }

  /** One of them has claimed, edited or deleted that edit of the row. */
  ghost predicate Kept(s: State, id: RowId, epoch: nat) {
    exists h: Hold :: Committed(s, h) && h.settles && h.id == id && h.epoch == epoch
  }

  /** Locks on record belong to requests that hold them still, gave them up or committed. */
  ghost predicate HoldOk(s: State, h: Hold) {
    && h.id in s.rows && h.epoch <= s.rows[h.id].edits && h.req in s.reqs && !s.reqs[h.req].Checked?
    && (s.reqs[h.req].Holding? ==>
          && h.id in s.reqs[h.req].locked && h !in s.rolledBack
          && h.settles == !s.reqs[h.req].op.Touch? && (h.settles ==> h.epoch == s.rows[h.id].edits))
  }

  predicate OnRecord(held: set<Hold>, r: Req, op: Op, id: RowId) {
    exists h <- held :: h.req == r && h.id == id && h.settles == !op.Touch?
  }

  ghost predicate HeldOk(s: State) {
    && s.rolledBack <= s.held && (forall h <- s.held :: HoldOk(s, h))
    && (forall r <- s.reqs :: s.reqs[r].Holding? ==>
          forall id <- s.reqs[r].locked :: OnRecord(s.held, r, s.reqs[r].op, id))
  }

  ghost predicate SettledIffKept(s: State) {
    forall id <- s.rows, epoch: nat :: epoch <= s.rows[id].edits ==> (Settled(s, id, epoch) <==> Kept(s, id, epoch))
  }

  ghost predicate Traced(s: State) {
    HeldOk(s) && SettledIffKept(s)
  }

  /** A step that neither writes nor commits. */
  lemma SameCommits(s: State, t: State)
    requires SettledIffKept(s) && t.rows == s.rows && t.claims == s.claims
    requires forall h: Hold :: Committed(t, h) <==> Committed(s, h)
    ensures SettledIffKept(t)
  {
    forall id <- t.rows, epoch: nat | epoch <= t.rows[id].edits ensures Settled(t, id, epoch) <==> Kept(t, id, epoch) {
      assert Settled(t, id, epoch) <==> Settled(s, id, epoch);
      assert Kept(t, id, epoch) <==> Kept(s, id, epoch);
    }
  }

  lemma RecordGrows(held: set<Hold>, more: set<Hold>, r: Req, op: Op, id: RowId)
    requires OnRecord(held, r, op, id)
    ensures OnRecord(held + more, r, op, id)
  {
    var h :| h in held && h.req == r && h.id == id && h.settles == !op.Touch?;
    assert h in held + more;
  }

  lemma FoundKeepsTraced(s: State, r: Req, op: Op, ids: set<RowId>)
    requires Traced(s) && (r in s.reqs ==> s.reqs[r].Checked?) && ids <= s.rows.Keys
    ensures Traced(Found(s, r, op, ids))
  {
    hide SettledIffKept, OnRecord;
    var t, more := Found(s, r, op, ids), Holds(s.rows, r, op, ids);
    assert forall h <- s.held :: HoldOk(s, h) && h.req != r;
    forall h <- t.held ensures HoldOk(t, h) {
      if h in s.held { assert HoldOk(s, h); } else { assert h in more; }
    }
    forall q <- t.reqs | t.reqs[q].Holding?
        ensures forall id <- t.reqs[q].locked :: OnRecord(t.held, q, t.reqs[q].op, id) {
      forall id <- t.reqs[q].locked ensures OnRecord(t.held, q, t.reqs[q].op, id) {
        if q == r { NewOnRecord(s, r, op, ids, id); } else { RecordGrows(s.held, more, q, s.reqs[q].op, id); }
      }
    }
    SameCommits(s, t);
  }

  lemma NewOnRecord(s: State, r: Req, op: Op, ids: set<RowId>, id: RowId)
    requires id in ids && id in s.rows
    ensures OnRecord(s.held + Holds(s.rows, r, op, ids), r, op, id)
  {
    assert Hold(r, id, s.rows[id].edits, !op.Touch?) in Holds(s.rows, r, op, ids);
  }

  lemma BeginKeepsTraced(window: nat, s: State, r: Req, op: Op)
    requires Traced(s) && (r in s.reqs ==> s.reqs[r].Checked?)
    ensures Traced(DoBegin(window, s, r, op))
  {
    hide Matches, Traced, Found, Blocked;
    var found := Selected(window, s.rows, op);
    FoundKeepsTraced(s, r, op, if op.Claim? then set id <- found | !Blocked(s, op, id) else found);
  }

  lemma CheckKeepsTraced(s: State, r: Req, p: Phase)
    requires Traced(s) && r !in s.reqs && !p.Holding?
    ensures Traced(To(s, r, p))
  {
    hide SettledIffKept;
    assert forall h <- s.held :: HoldOk(s, h) && h.req != r;
    forall h <- s.held ensures HoldOk(To(s, r, p), h) { assert HoldOk(s, h); }
    SameCommits(s, To(s, r, p));
  }

  lemma AbortKeepsTraced(s: State, r: Req)
    requires Traced(s) && r in s.reqs && !s.reqs[r].Done?
    ensures Traced(DoAbort(s, r))
  {
    hide SettledIffKept;
    var t := DoAbort(s, r);
    forall h <- s.held ensures HoldOk(t, h) && (Committed(t, h) <==> Committed(s, h)) {
      assert HoldOk(s, h);
    }
    SameCommits(s, t);
  }

  lemma SendKeepsTraced(s: State, id: RowId, row: Row)
    requires Traced(s) && ClaimsOk(s.rows, s.claims) && id !in s.rows && !row.isDeleted && row.edits == 0
    requires forall r <- s.reqs :: s.reqs[r].Holding? ==> s.reqs[r].locked <= s.rows.Keys
    ensures Traced(s.(rows := s.rows[id := row]))
  {
    var t := s.(rows := s.rows[id := row]);
    forall h <- s.held ensures HoldOk(t, h) { assert HoldOk(s, h); }
    forall x <- t.rows, epoch: nat | epoch <= t.rows[x].edits ensures Settled(t, x, epoch) <==> Kept(t, x, epoch) {
      assert Kept(t, x, epoch) <==> exists h: Hold :: Committed(s, h) && h.settles && h.id == x && h.epoch == epoch;
      if x != id {
        assert Settled(t, x, epoch) <==> Settled(s, x, epoch);
      }
    }
  }

  /** What the committing request settles becomes kept, and nothing else does. */
  lemma CommitKeeps(s: State, r: Req, id: RowId, epoch: nat)
    requires HeldOk(s) && r in s.reqs && s.reqs[r].Holding? && id in s.rows
    ensures Kept(DoCommit(s, r), id, epoch) <==>
            Kept(s, id, epoch) || (id in s.reqs[r].locked && epoch == s.rows[id].edits && !s.reqs[r].op.Touch?)
  {
    var t := DoCommit(s, r);
    if id in s.reqs[r].locked && epoch == s.rows[id].edits && !s.reqs[r].op.Touch? {
      assert OnRecord(s.held, r, s.reqs[r].op, id);
      var h :| h in s.held && h.req == r && h.id == id && h.settles;
      assert HoldOk(s, h);
      assert Committed(t, h);
    }
    if Kept(s, id, epoch) {
      var h: Hold :| Committed(s, h) && h.settles && h.id == id && h.epoch == epoch;
      assert Committed(t, h);
    }
    if Kept(t, id, epoch) {
      var h: Hold :| Committed(t, h) && h.settles && h.id == id && h.epoch == epoch;
      assert HoldOk(s, h);
      assert h.req != r ==> Committed(s, h);
    }
  }

  lemma CommitSettles(window: nat, s: State, r: Req, id: RowId, epoch: nat)
    requires Inv(window, s) && r in s.reqs && s.reqs[r].Holding? && id in s.rows && epoch <= s.rows[id].edits
    ensures Settled(DoCommit(s, r), id, epoch) <==>
            Settled(s, id, epoch) || (id in s.reqs[r].locked && epoch == s.rows[id].edits && !s.reqs[r].op.Touch?)
  {
    hide RowsOk, DeletionsOk, ClaimsOk, Exclusive, RepliesOk, Matches;
    var t, op, ids := DoCommit(s, r), s.reqs[r].op, s.reqs[r].locked;
    if id in ids && Reads(op) {
      assert Claiming(r, id, s.rows[id].edits) in t.claims;
    }
  }

  /** An edit opens an epoch that nobody has locked or claimed yet. */
  lemma FreshEpoch(window: nat, s: State, r: Req, id: RowId)
    requires Inv(window, s) && HeldOk(s) && r in s.reqs && s.reqs[r].Holding? && id in s.rows
    ensures var t := DoCommit(s, r);
            t.rows[id].edits == s.rows[id].edits || (t.rows[id].edits == s.rows[id].edits + 1
              && !Settled(t, id, t.rows[id].edits) && !Kept(s, id, t.rows[id].edits))
  {
    hide RowsOk, DeletionsOk, Exclusive, RepliesOk;
    assert PhaseOk(window, s.rows, s.reqs[r]);
    assert forall h <- s.held :: HoldOk(s, h);
  }

  lemma CommitKeepsHeld(window: nat, s: State, r: Req)
    requires Inv(window, s) && HeldOk(s) && r in s.reqs && s.reqs[r].Holding?
    ensures HeldOk(DoCommit(s, r))
  {
    hide RowsOk, DeletionsOk, ClaimsOk, RepliesOk, Matches, OnRecord;
    var t := DoCommit(s, r);
    forall h <- t.held ensures HoldOk(t, h) { assert HoldOk(s, h); }
  }

  lemma CommitKeepsTraced(window: nat, s: State, r: Req)
    requires Inv(window, s) && Traced(s) && r in s.reqs && s.reqs[r].Holding?
    ensures Traced(DoCommit(s, r))
  {
    var t := DoCommit(s, r);
    CommitKeepsHeld(window, s, r);
    forall id <- t.rows, epoch: nat | epoch <= t.rows[id].edits ensures Settled(t, id, epoch) <==> Kept(t, id, epoch) {
      hide Inv, HeldOk, Settled, Kept, DoCommit;
      assert t.rows.Keys == s.rows.Keys by { CommitKeepsKeys(s, r); }
      FreshEpoch(window, s, r, id);
      CommitKeeps(s, r, id, epoch);
      if epoch <= s.rows[id].edits {
        CommitSettles(window, s, r, id, epoch);
      }
    }
  }

  lemma CommitKeepsKeys(s: State, r: Req)
    requires r in s.reqs && s.reqs[r].Holding?
    ensures DoCommit(s, r).rows.Keys == s.rows.Keys
  {
  }

  lemma StepKeepsTraced(window: nat, s: State, e: Event)
    requires Inv(window, s) && Traced(s)
    ensures Traced(Step(window, s, e))
  {
    match e
    case Tick(_) => hide Inv; assert Traced(s.(clock := s.clock + e.d)) by { TickKeepsTraced(s, e.d); }
    case Send(id, sender, receiver, content) =>
      hide Traced, RowsOk, ClaimsOk, DeletionsOk, Exclusive, RepliesOk, Matches;
      if id !in s.rows {
        SendKeepsTraced(s, id, Row(sender, receiver, content, s.clock, false, None, false, false, 0));
      }
    case Begin(r, op) =>
      hide Inv, Traced, DoBegin;
      if r !in s.reqs && !op.Edit? { BeginKeepsTraced(window, s, r, op); }
    case CheckEdit(r, id, sender, content) =>
      hide Inv, Traced;
      if r !in s.reqs && id.Msg? { CheckKeepsTraced(s, r, DoCheckEdit(window, s, r, id, sender, content).reqs[r]); }
    case BeginEdit(r) =>
      hide Inv, Traced, DoBegin;
      if r in s.reqs && s.reqs[r].Checked? {
        var p := s.reqs[r];
        BeginKeepsTraced(window, s, r, Edit(p.id, p.sender, p.content, p.now));
      }
    case Commit(r) =>
      hide Inv, Traced, DoCommit;
      if r in s.reqs && s.reqs[r].Holding? { CommitKeepsTraced(window, s, r); }
    case Abort(r) =>
      hide Inv, Traced, DoAbort;
      if r in s.reqs && !s.reqs[r].Done? { AbortKeepsTraced(s, r); }
  }

  lemma TickKeepsTraced(s: State, d: nat)
    requires Traced(s)
    ensures Traced(s.(clock := s.clock + d))
  {
    hide SettledIffKept;
    var t := s.(clock := s.clock + d);
    forall h <- s.held ensures HoldOk(t, h) { assert HoldOk(s, h); }
    SameCommits(s, t);
  }

  lemma {:induction false} RunKeepsTraced(window: nat, s: State, events: seq<Event>)
    requires Inv(window, s) && Traced(s)
    ensures Traced(Run(window, s, events)) && s.held <= Run(window, s, events).held
    decreases |events|
  {
    if events != [] {
      StepGrowsHeld(window, s, events[0]);
      StepKeepsInv(window, s, events[0]);
      StepKeepsTraced(window, s, events[0]);
      hide Inv, Step, Traced;
      RunKeepsTraced(window, Step(window, s, events[0]), events[1..]);
    }
  }

  lemma StepGrowsHeld(window: nat, s: State, e: Event)
    ensures s.held <= Step(window, s, e).held
  {
    hide Selected, Blocked;
  }

  /** Every lock ever taken on that edit of the row; one that only touches the row may have
      been taken on an earlier edit. */
  function Lockers(s: State, id: RowId, epoch: nat): set<Hold> {
    set h <- s.held | h.id == id && (h.epoch == epoch || (!h.settles && h.epoch < epoch))
  }

  /** They came to nothing: each was rolled back or only touched the row. */
  predicate Idle(s: State, lockers: set<Hold>) {
    forall h <- lockers :: h in s.rolledBack || !h.settles
  }

  /** Once all requests have finished, an edit of a row was left unclaimed, unreplaced and
      undeleted if and only if everybody who locked it was rolled back or only touched it. */
  lemma LeftBehindIffIdle(window: nat, events: seq<Event>, id: RowId, epoch: nat)
    ensures var t := Run(window, Empty, events);
            (forall q <- t.reqs :: t.reqs[q].Done?) && id in t.rows && epoch <= t.rows[id].edits ==>
              (!Settled(t, id, epoch) <==> Idle(t, Lockers(t, id, epoch)))
  {
    hide OnRecord;
    EmptyIsOk(window);
    EmptyIsTraced();
    RunKeepsTraced(window, Empty, events);
    var t := Run(window, Empty, events);
    if (forall q <- t.reqs :: t.reqs[q].Done?) && id in t.rows && epoch <= t.rows[id].edits {
      assert forall h <- t.held :: HoldOk(t, h);
      assert forall h <- t.held :: h !in t.rolledBack ==> Committed(t, h);
      assert Kept(t, id, epoch) <==> !Idle(t, Lockers(t, id, epoch));
    }
  }

  /** A reconnect leaves none of its rows without a lock: it takes it or passes over it. */
  lemma ReconnectMeansHeld(window: nat, s: State, r: Req, op: Op, id: RowId)
    requires HeldOk(s) && r !in s.reqs && op.Claim? && id in Selected(window, s.rows, op)
    ensures Lockers(DoBegin(window, s, r, op), id, s.rows[id].edits) != {}
  {
    hide Matches;
    var t := DoBegin(window, s, r, op);
    var found := Selected(window, s.rows, op);
    var ids := set x <- found | !Blocked(s, op, x);
    assert !exists x <- ids :: Blocked(s, op, x);
    assert t.held == s.held + Holds(s.rows, r, op, ids);
    if Blocked(s, op, id) {
      var q :| q in s.reqs && s.reqs[q].Holding? && id in s.reqs[q].locked;
      assert OnRecord(s.held, q, s.reqs[q].op, id);
      var h :| h in s.held && h.req == q && h.id == id && h.settles == !s.reqs[q].op.Touch?;
      assert HoldOk(s, h);
      assert h in Lockers(t, id, s.rows[id].edits);
    } else {
      assert Hold(r, id, s.rows[id].edits, true) in Holds(s.rows, r, op, ids);
      assert Hold(r, id, s.rows[id].edits, true) in Lockers(t, id, s.rows[id].edits);
    }
  }

  /** What becomes of a row that was unread and not deleted when a reconnect looked, once every
      request has finished.  Somebody had locked it; it is left behind if and only if all who
      did were rolled back or only touched it, and otherwise it was handed out exactly once,
      unless it was edited or deleted meanwhile. */
  lemma EveryUnreadRowIsClaimed(window: nat, before: seq<Event>, r: Req, op: Op, after: seq<Event>, id: RowId)
    requires op.Claim?
    ensures var s := Run(window, Empty, before);
            var t := Run(window, Empty, before + [Begin(r, op)] + after);
            r !in s.reqs && id in Selected(window, s.rows, op) && (forall q <- t.reqs :: t.reqs[q].Done?) ==>
              var epoch := s.rows[id].edits;
              var lockers := Lockers(t, id, epoch);
              && lockers != {} && id in t.rows
              && (Idle(t, lockers) <==>
                    && !t.rows[id].isDeleted && t.rows[id].edits == epoch
                    && !exists c <- t.claims :: c.id == id && c.epoch == epoch)
              && (forall c <- t.claims, d <- t.claims :: c.id == d.id == id && c.epoch == d.epoch == epoch ==> c == d)
  {
    hide Inv, Traced, Settled, Run, Selected;
    EmptyIsOk(window);
    EmptyIsTraced();
    RunKeepsInv(window, Empty, before);
    RunKeepsTraced(window, Empty, before);
    var s := Run(window, Empty, before);
    var t := Run(window, Empty, before + [Begin(r, op)] + after);
    if r !in s.reqs && id in Selected(window, s.rows, op) && (forall q <- t.reqs :: t.reqs[q].Done?) {
      assert t == Run(window, Step(window, s, Begin(r, op)), after) by {
        RunAppends(window, Empty, before, [Begin(r, op)]);
        RunAppends(window, Empty, before + [Begin(r, op)], after);
        RunOfOne(window, s, Begin(r, op));
      }
      ReconnectLeavesATrace(window, s, r, op, after, id);
      LeftBehindIffIdle(window, before + [Begin(r, op)] + after, id, s.rows[id].edits);
      RunKeepsInv(window, Empty, before + [Begin(r, op)] + after);
      UniqueClaims(window, t);
      assert Settled(t, id, s.rows[id].edits) <==>
             (t.rows[id].isDeleted || t.rows[id].edits > s.rows[id].edits
              || exists c <- t.claims :: c.id == id && c.epoch == s.rows[id].edits)
        by { SettledMeans(t, id, s.rows[id].edits); }
    }
  }

  lemma SettledMeans(s: State, id: RowId, epoch: nat)
    ensures Settled(s, id, epoch) <==>
            && id in s.rows
            && (s.rows[id].isDeleted || s.rows[id].edits > epoch
                || exists c <- s.claims :: c.id == id && c.epoch == epoch)
  {
  }

  lemma EmptyIsTraced()
    ensures Traced(Empty)
  {
  }

  lemma UniqueClaims(window: nat, s: State)
    requires Inv(window, s)
    ensures forall c <- s.claims, d <- s.claims :: c.id == d.id && c.epoch == d.epoch ==> c == d
  {
  }

  lemma ReconnectLeavesATrace(window: nat, s: State, r: Req, op: Op, after: seq<Event>, id: RowId)
    requires Inv(window, s) && Traced(s) && r !in s.reqs && op.Claim? && id in Selected(window, s.rows, op)
    ensures id in s.rows
    ensures var t := Run(window, Step(window, s, Begin(r, op)), after);
            && id in t.rows && t.rows[id].edits >= s.rows[id].edits
            && Lockers(t, id, s.rows[id].edits) != {}
  {
    var s1 := Step(window, s, Begin(r, op));
    ReconnectMeansHeld(window, s, r, op, id);
    StepKeepsInv(window, s, Begin(r, op));
    StepKeepsTraced(window, s, Begin(r, op));
    StepGrowsRows(window, s, Begin(r, op), id);
    RunKeepsTraced(window, s1, after);
    assert Lockers(s1, id, s.rows[id].edits) <= Lockers(Run(window, s1, after), id, s.rows[id].edits);
    RunGrowsRows(window, s1, after, id);
  }

  lemma {:induction false} RunGrowsRows(window: nat, s: State, events: seq<Event>, id: RowId)
    requires id in s.rows
    ensures var t := Run(window, s, events); id in t.rows && t.rows[id].edits >= s.rows[id].edits
    decreases |events|
  {
    if events != [] {
      StepGrowsRows(window, s, events[0], id);
      hide Step;
      RunGrowsRows(window, Step(window, s, events[0]), events[1..], id);
    }
  }

  lemma StepGrowsRows(window: nat, s: State, e: Event, id: RowId)
    requires id in s.rows
    ensures var t := Step(window, s, e); id in t.rows && t.rows[id].edits >= s.rows[id].edits
  {
    hide Selected, Blocked;
  }

  // ----- two ways to be left behind

  /** A reconnect meets a row that another transaction has locked. */
  function Met(id: RowId, sender: User, user: User, content: Content, first: Op): seq<Event> {
    [Send(id, sender, user, content)] + [Begin(1, first)] + [Begin(2, Claim(user, id.Share?, 0))]
  }

  /** Unread and not deleted, with nobody left to claim it. */
  ghost predicate LeftBehind(s: State, id: RowId) {
    && (forall q <- s.reqs :: s.reqs[q].Done?)
    && id in s.rows && !s.rows[id].isRead && !s.rows[id].isDeleted && s.rows[id].edits == 0 && s.claims == {}
  }

  /** Whatever the row: the other transaction is a reconnect too, and is rolled back. */
  lemma RollbackLeavesRowUnclaimed(window: nat, id: RowId, sender: User, user: User, content: Content)
    ensures LeftBehind(Run(window, Empty, Met(id, sender, user, content, Claim(user, id.Share?, 0)) + [Abort(1)]), id)
  {
    var first := Claim(user, id.Share?, 0);
    ReconnectPassesOver(window, id, sender, user, content, first);
    RunExtends(window, Met(id, sender, user, content, first),
               Run(window, Empty, Met(id, sender, user, content, first)), Abort(1));
  }

  /** Whatever the row and the lock: the other transaction checks a foreign key, counts a
      reaction, repairs a counter or locks the row for a reply, and commits; nobody is rolled
      back. */
  lemma TouchLeavesRowUnclaimed(window: nat, id: RowId, sender: User, user: User, content: Content, lock: Lock)
    ensures var t := Run(window, Empty, Met(id, sender, user, content, Touch({id}, lock)) + [Commit(1)]);
            LeftBehind(t, id) && t.rolledBack == {}
  {
    var first := Touch({id}, lock);
    ReconnectPassesOver(window, id, sender, user, content, first);
    RunExtends(window, Met(id, sender, user, content, first),
               Run(window, Empty, Met(id, sender, user, content, first)), Commit(1));
  }

  lemma ReconnectPassesOver(window: nat, id: RowId, sender: User, user: User, content: Content, first: Op)
    requires (first.Claim? || first.Touch?)
             && Matches(window, first, id, Row(sender, user, content, 0, false, None, false, false, 0))
    ensures var t := Run(window, Empty, Met(id, sender, user, content, first));
            && t.reqs == map[1 := Holding(first, {id}), 2 := Done(Claimed({}))]
            && t.rows == map[id := Row(sender, user, content, 0, false, None, false, false, 0)]
            && t.claims == {} && t.rolledBack == {}
  {
    var op, row := Claim(user, id.Share?, 0), Row(sender, user, content, 0, false, None, false, false, 0);
    var send := [Send(id, sender, user, content)];
    var s1 := Empty.(rows := map[id := row]);
    var s2 := s1.(reqs := map[1 := Holding(first, {id})], held := {Hold(1, id, 0, !first.Touch?)});
    RunOfOne(window, Empty, send[0]);
    assert Run(window, Empty, send) == s1;
    FirstLock(window, s1, id, first);
    SecondReconnect(window, s2, id, first, op);
    RunExtends(window, send, s1, Begin(1, first));
    RunExtends(window, send + [Begin(1, first)], s2, Begin(2, op));
  }

  lemma RunExtends(window: nat, events: seq<Event>, s: State, e: Event)
    requires Run(window, Empty, events) == s
    ensures Run(window, Empty, events + [e]) == Step(window, s, e)
  {
    hide Step;
    RunAppends(window, Empty, events, [e]);
    RunOfOne(window, s, e);
  }

  lemma FirstLock(window: nat, s: State, id: RowId, op: Op)
    requires s.reqs == map[] && s.held == {} && s.rows.Keys == {id} && s.rows[id].edits == 0
    requires !op.Edit? && Matches(window, op, id, s.rows[id])
    ensures Step(window, s, Begin(1, op))
            == s.(reqs := map[1 := Holding(op, {id})], held := {Hold(1, id, 0, !op.Touch?)})
  {
    hide Matches;
    var found := Selected(window, s.rows, op);
    assert id in found && found == {id};
    assert forall x :: !Blocked(s, op, x);
    assert (set x <- found | !Blocked(s, op, x)) == {id};
    assert Holds(s.rows, 1, op, {id}) == {Hold(1, id, 0, !op.Touch?)};
  }

  lemma SecondReconnect(window: nat, s: State, id: RowId, first: Op, op: Op)
    requires s.reqs == map[1 := Holding(first, {id})] && s.rows.Keys == {id}
    requires op.Claim? && Matches(window, op, id, s.rows[id])
    ensures Step(window, s, Begin(2, op)) == s.(reqs := map[1 := Holding(first, {id}), 2 := Done(Claimed({}))])
  {
    hide Matches;
    var found := Selected(window, s.rows, op);
    assert id in s.reqs[1].locked;
    assert Blocked(s, op, id);
    assert (set x <- found | !Blocked(s, op, x)) == {};
    assert Holds(s.rows, 2, op, {}) == {};
    assert DoBegin(window, s, 2, op) == To(s, 2, Done(Answer(op, {})));
  }
}
