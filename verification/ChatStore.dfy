/** What each user sees of a conversation: messages hidden for oneself, clearing a chat and the
    history filter (app/messaging/clear_chat.py, chat_history.py, delete_msg.py). */
module ChatViews {
  import opened MessageFlow

  /** A row of `deleted_messages`. */
  datatype Hiding = Hiding(user: User, id: RowId)
  type Table = multiset<Hiding>

  /** The table's unique constraint on (user_id, message_id). */
  ghost predicate Unique(table: Table) {
    forall h <- table :: table[h] == 1
  }

  predicate Between(row: Row, me: User, friend: User) {
    (row.sender == me && row.receiver == friend) || (row.sender == friend && row.receiver == me)
  }

  /** get_chat_history's filter on messages. */
  function History(rows: map<RowId, Row>, table: Table, me: User, friend: User): set<RowId> {
    set id <- rows | id.Msg? && !rows[id].isDeleted && Between(rows[id], me, friend) && Hiding(me, id) !in table
  }

  /** What clear_chat selects: all of mine, and what I have read of the friend's. */
  function Clearable(rows: map<RowId, Row>, table: Table, me: User, friend: User): set<RowId> {
    set id <- rows | id.Msg? && !rows[id].isDeleted
                     && ((rows[id].sender == me && rows[id].receiver == friend)
                         || (rows[id].sender == friend && rows[id].receiver == me && rows[id].isRead))
                     && Hiding(me, id) !in table
  }

  function Hidings(me: User, ids: set<RowId>): set<Hiding> {
    set id <- ids :: Hiding(me, id)
  }

  /** INSERT ... SELECT, with no conflict clause. */
  function Clear(rows: map<RowId, Row>, table: Table, me: User, friend: User): Table {
    table + multiset(Hidings(me, Clearable(rows, table, me, friend)))
  }

  /** INSERT ... ON CONFLICT DO NOTHING. */
  function Hide(table: Table, me: User, id: RowId): Table {
    if Hiding(me, id) in table then table else table + multiset{Hiding(me, id)}
  }

  /** After clearing, exactly the friend's unread messages are left, less what was deleted or
      hidden before; nothing is left of a conversation with oneself. */
  lemma ClearThenView(rows: map<RowId, Row>, table: Table, me: User, friend: User)
    ensures History(rows, Clear(rows, table, me, friend), me, friend)
         == set id <- rows | id.Msg? && rows[id].sender == friend != me && rows[id].receiver == me && !rows[id].isRead
                             && !rows[id].isDeleted && Hiding(me, id) !in table
  {
    var ids := Clearable(rows, table, me, friend);
    assert forall id :: Hiding(me, id) in multiset(Hidings(me, ids)) <==> id in ids;
  }

  /** Nobody else's history changes, nor mine with anyone else. */
  lemma ClearIsLocal(rows: map<RowId, Row>, table: Table, me: User, friend: User, user: User, other: User)
    requires user != me || other != friend
    ensures History(rows, Clear(rows, table, me, friend), user, other) == History(rows, table, user, other)
  {
    var ids := Clearable(rows, table, me, friend);
    assert forall h :: h in multiset(Hidings(me, ids)) <==> h.user == me && h.id in ids;
  }

  /** Clearing again inserts nothing. */
  lemma SecondClearIsIdle(rows: map<RowId, Row>, table: Table, me: User, friend: User)
    ensures Clearable(rows, Clear(rows, table, me, friend), me, friend) == {}
    ensures Clear(rows, Clear(rows, table, me, friend), me, friend) == Clear(rows, table, me, friend)
  {
    var ids, t := Clearable(rows, table, me, friend), Clear(rows, table, me, friend);
    forall id <- ids ensures Hiding(me, id) in t { assert Hiding(me, id) in Hidings(me, ids); }
    assert Clearable(rows, t, me, friend) == {};
  }

  // ----- overlapping requests

  /** What a clear_chat selected and is about to insert. */
  datatype Pending = Pending(me: User, selected: set<RowId>)

  /** The table, the clears between their SELECT and their INSERT, and those the unique
      constraint made fail. */
  datatype View = View(table: Table, pending: map<Req, Pending>, raised: set<Req>)

  datatype ViewEvent =
    | Select(r: Req, rows: map<RowId, Row>, me: User, friend: User)
    | Insert(r: Req)
    | HideOne(me: User, id: RowId)

  /** Somebody else's commit hid one of the selected messages in the meantime. */
  predicate Conflict(table: Table, p: Pending) {
    exists id <- p.selected :: Hiding(p.me, id) in table
  }

  function ViewStep(v: View, e: ViewEvent): View {
    match e
    case Select(r, rows, me, friend) =>
      if r in v.pending then v else v.(pending := v.pending[r := Pending(me, Clearable(rows, v.table, me, friend))])
    case Insert(r) =>
      if r !in v.pending then v
      else if Conflict(v.table, v.pending[r]) then v.(pending := v.pending - {r}, raised := v.raised + {r})
      else v.(table := v.table + multiset(Hidings(v.pending[r].me, v.pending[r].selected)), pending := v.pending - {r})
    case HideOne(me, id) => v.(table := Hide(v.table, me, id))
  }

  function ViewRun(v: View, events: seq<ViewEvent>): View
    decreases |events|
  {
    if events == [] then v else ViewRun(ViewStep(v, events[0]), events[1..])
  }

  lemma InsertKeepsUnique(table: Table, me: User, ids: set<RowId>)
    requires Unique(table) && forall id <- ids :: Hiding(me, id) !in table
    ensures Unique(table + multiset(Hidings(me, ids)))
  {
    var s := Hidings(me, ids);
    assert forall h <- s :: h !in table && multiset(s)[h] == 1;
  }

  lemma HideKeepsUnique(table: Table, me: User, id: RowId)
    requires Unique(table)
    ensures Unique(Hide(table, me, id)) && table <= Hide(table, me, id)
  {
  }

  lemma ViewStepKeepsUnique(v: View, e: ViewEvent)
    requires Unique(v.table)
    ensures Unique(ViewStep(v, e).table) && v.table <= ViewStep(v, e).table
  {
    hide Unique, Hide;
    match e
    case Select(_, _, _, _) =>
    case Insert(r) =>
      if r in v.pending && !Conflict(v.table, v.pending[r]) {
        InsertKeepsUnique(v.table, v.pending[r].me, v.pending[r].selected);
      }
    case HideOne(me, id) => HideKeepsUnique(v.table, me, id);
  }

  /** Whatever users clear and hide, however the requests overlap and the messages change in
      between, no message is hidden twice for a user and nothing comes back. */
  lemma {:induction false} UniqueForever(v: View, events: seq<ViewEvent>)
    requires Unique(v.table)
    ensures Unique(ViewRun(v, events).table) && v.table <= ViewRun(v, events).table
    decreases |events|
  {
    if events != [] {
      hide Unique, ViewStep;
      ViewStepKeepsUnique(v, events[0]);
      UniqueForever(ViewStep(v, events[0]), events[1..]);
    }
  }

  lemma {:induction false} PendingStays(v: View, events: seq<ViewEvent>, r: Req)
    requires r in v.pending && Insert(r) !in events
    ensures r in ViewRun(v, events).pending && ViewRun(v, events).pending[r] == v.pending[r]
    decreases |events|
  {
    if events != [] {
      assert events[0] in events;
      PendingStays(ViewStep(v, events[0]), events[1..], r);
    }
  }

  /** A clear is refused by the constraint if and only if, between its SELECT and its INSERT,
      the same user hid one of the messages it had selected; otherwise it hides them all. */
  lemma ClearRaisesIff(v: View, r: Req, rows: map<RowId, Row>, me: User, friend: User, between: seq<ViewEvent>)
    requires r !in v.pending && Insert(r) !in between
    ensures var selected := Clearable(rows, v.table, me, friend);
            var w := ViewRun(ViewStep(v, Select(r, rows, me, friend)), between);
            var u := ViewStep(w, Insert(r));
            var raises := exists h <- w.table :: h !in v.table && h in Hidings(me, selected);
            u == if raises then w.(pending := w.pending - {r}, raised := w.raised + {r})
                 else w.(pending := w.pending - {r}, table := w.table + multiset(Hidings(me, selected)))
  {
    hide ViewRun;
    var selected := Clearable(rows, v.table, me, friend);
    var w := ViewRun(ViewStep(v, Select(r, rows, me, friend)), between);
    PendingStays(ViewStep(v, Select(r, rows, me, friend)), between, r);
    assert w.pending[r] == Pending(me, selected);
    forall id <- selected ensures Hiding(me, id) !in v.table && Hiding(me, id) in Hidings(me, selected) {
    }
    if Conflict(w.table, Pending(me, selected)) {
      var id :| id in selected && Hiding(me, id) in w.table;
      assert Hiding(me, id) in Hidings(me, selected);
    }
  }
}

/** The messaging endpoints as written, one request at a time over the tables.  Each method is
    tied to the statements of MessageFlow and ChatViews. */
module ChatStore {
  import opened Prelude
  import opened MessageFlow
  import opened ChatViews

  ghost predicate Quiet(s: State) {
    forall r <- s.reqs :: s.reqs[r].Done?
  }

  /** One statement run to its commit. */
  function Execute(s: State, r: Req, op: Op, ids: set<RowId>): State {
    State(Write(s.rows, op, ids), s.clock, s.reqs[r := Done(Answer(op, ids))],
          s.claims + NewClaims(s, r, op, ids), s.deletions + NewDeletions(r, op, ids),
          s.held + Holds(s.rows, r, op, ids), s.rolledBack)
  }

  lemma BeginAlone(window: nat, s: State, r: Req, op: Op)
    requires forall q <- s.reqs :: !s.reqs[q].Holding?
    ensures DoBegin(window, s, r, op) == Found(s, r, op, Selected(window, s.rows, op))
  {
    var found := Selected(window, s.rows, op);
    assert forall id :: !Blocked(s, op, id);
    assert (set id <- found | !Blocked(s, op, id)) == found;
  }

  lemma CommitAfter(window: nat, s: State, r: Req, op: Op, ids: set<RowId>)
    ensures Step(window, Found(s, r, op, ids), Commit(r)) == Execute(s, r, op, ids)
  {
    if ids == {} {
      assert Write(s.rows, op, {}) == s.rows;
    }
  }

  /** With nobody else about, a statement finds all its rows and commits. */
  lemma StatementAlone(window: nat, s: State, r: Req, op: Op)
    requires Quiet(s) && r !in s.reqs && !op.Edit?
    ensures Run(window, s, [Begin(r, op), Commit(r)]) == Execute(s, r, op, Selected(window, s.rows, op))
  {
    hide DoBegin, Selected, Execute, Found;
    RunOf2(window, s, Begin(r, op), Commit(r));
    BeginAlone(window, s, r, op);
    assert Step(window, s, Begin(r, op)) == DoBegin(window, s, r, op);
    CommitAfter(window, s, r, op, Selected(window, s.rows, op));
  }

  /** An edit that passed the checks, with nobody else about. */
  lemma EditAlone(window: nat, s: State, r: Req, id: RowId, sender: User, content: Content)
    requires Quiet(s) && r !in s.reqs && id.Msg?
    ensures var c := DoCheckEdit(window, s, r, id, sender, content);
            var op := Edit(id, sender, content, s.clock);
            var t := if c.reqs[r].Done? then c else Execute(s, r, op, Selected(window, s.rows, op));
            Run(window, s, [CheckEdit(r, id, sender, content)] + [BeginEdit(r), Commit(r)]) == t
  {
    hide DoBegin, Selected, Execute, Found;
    var c := DoCheckEdit(window, s, r, id, sender, content);
    RunAppends(window, s, [CheckEdit(r, id, sender, content)], [BeginEdit(r), Commit(r)]);
    assert Step(window, s, CheckEdit(r, id, sender, content)) == c;
    assert [CheckEdit(r, id, sender, content)][1..] == [];
    RunOf2(window, c, BeginEdit(r), Commit(r));
    if !c.reqs[r].Done? {
      var op := Edit(id, sender, content, s.clock);
      BeginAlone(window, c, r, op);
      CommitAfter(window, c, r, op, Selected(window, c.rows, op));
      ExecuteForgets(s, r, c.reqs[r], op, Selected(window, s.rows, op));
    }
  }

  lemma ExecuteForgets(s: State, r: Req, p: Phase, op: Op, ids: set<RowId>)
    ensures Execute(To(s, r, p), r, op, ids) == Execute(s, r, op, ids)
  {
    assert s.reqs[r := p][r := Done(Answer(op, ids))] == s.reqs[r := Done(Answer(op, ids))];
  }

  class Messages {
    const window: nat
    var rows: map<RowId, Row>
    var clock: int
    var hidden: Table
    /** The state of the transactions, history included, of which `rows` and `clock` are the
        real part. */
    ghost var st: State

    ghost predicate Valid()
      reads this
    {
      st.rows == rows && st.clock == clock && Inv(window, st) && Unique(hidden)
    }

    constructor (window: nat)
      ensures Valid() && Quiet(st) && st == Empty && this.window == window && hidden == multiset{}
    {
      this.window, rows, clock, hidden := window, map[], 0, multiset{};
      st := Empty;
      new;
      EmptyIsOk(window);
    }

    /** The first transaction of load_missed_content. */
    method ClaimMessages(ghost r: Req, user: User) returns (messages: set<RowId>)
      requires Valid() && Quiet(st) && r !in st.reqs
      modifies this`rows, this`st
      ensures Valid() && Quiet(st)
      ensures st == Run(window, old(st), [Begin(r, Claim(user, false, clock)), Commit(r)])
      ensures st.reqs == old(st.reqs)[r := Done(Claimed(messages))]
      ensures messages == set id <- old(rows) | id.Msg? && old(rows)[id].receiver == user
                                                && !old(rows)[id].isRead && !old(rows)[id].isDeleted
      ensures rows == map id <- old(rows) ::
                        if id in messages then old(rows)[id].(isRead := true, readAt := Some(clock)) else old(rows)[id]
    {
      hide Inv, Run;
      ghost var s := st;
      ghost var op := Claim(user, false, clock);
      StatementAlone(window, s, r, op);
      RunKeepsInv(window, s, [Begin(r, op), Commit(r)]);
      var claimedReadAt := clock;
      messages := set id <- rows | id.Msg? && !rows[id].isDeleted && rows[id].receiver == user && !rows[id].isRead;
      if messages != {} {
        rows := map id <- rows ::
          if id in messages && !rows[id].isRead then rows[id].(isRead := true, readAt := Some(claimedReadAt))
          else rows[id];
      }
      assert messages == Selected(window, s.rows, op);
      st := Execute(s, r, op, messages);
    }

    /** The second transaction of load_missed_content. */
    method ClaimShares(ghost r: Req, user: User) returns (shares: set<RowId>)
      requires Valid() && Quiet(st) && r !in st.reqs
      modifies this`rows, this`st
      ensures Valid() && Quiet(st)
      ensures st == Run(window, old(st), [Begin(r, Claim(user, true, clock)), Commit(r)])
      ensures st.reqs == old(st.reqs)[r := Done(Claimed(shares))]
      ensures shares == set id <- old(rows) | id.Share? && old(rows)[id].receiver == user
                                              && !old(rows)[id].isRead && !old(rows)[id].isDeleted
      ensures rows == map id <- old(rows) ::
                        if id in shares then old(rows)[id].(isRead := true) else old(rows)[id]
    {
      hide Inv, Run;
      ghost var s := st;
      ghost var op := Claim(user, true, clock);
      StatementAlone(window, s, r, op);
      RunKeepsInv(window, s, [Begin(r, op), Commit(r)]);
      shares := set id <- rows | id.Share? && rows[id].receiver == user && !rows[id].isRead && !rows[id].isDeleted;
      if shares != {} {
        rows := map id <- rows :: if id in shares && !rows[id].isRead then rows[id].(isRead := true) else rows[id];
      }
      assert shares == Selected(window, s.rows, op);
      st := Execute(s, r, op, shares);
    }

    /** load_missed_content: a claim over the messages, then one over the shares. */
    method LoadMissedContent(ghost q: Req, ghost r: Req, user: User) returns (messages: set<RowId>, shares: set<RowId>)
      requires Valid() && Quiet(st) && q !in st.reqs && r !in st.reqs && q != r
      modifies this`rows, this`st
      ensures Valid() && Quiet(st)
      ensures st == Run(window, old(st), [Begin(q, Claim(user, false, clock)), Commit(q)]
                                         + [Begin(r, Claim(user, true, clock)), Commit(r)])
      ensures st.reqs == old(st.reqs)[q := Done(Claimed(messages))][r := Done(Claimed(shares))]
      ensures messages + shares == set id <- old(rows) | old(rows)[id].receiver == user
                                                         && !old(rows)[id].isRead && !old(rows)[id].isDeleted
      ensures (forall id <- messages :: id.Msg?) && (forall id <- shares :: id.Share?)
      ensures rows == map id <- old(rows) ::
                        if id in messages then old(rows)[id].(isRead := true, readAt := Some(clock))
                        else if id in shares then old(rows)[id].(isRead := true)
                        else old(rows)[id]
    {
      hide Inv, Run, Quiet;
      RunAppends(window, st, [Begin(q, Claim(user, false, clock)), Commit(q)],
                 [Begin(r, Claim(user, true, clock)), Commit(r)]);
      messages := ClaimMessages(q, user);
      shares := ClaimShares(r, user);
    }

    /** mark_as_read */
    method MarkAsRead(ghost r: Req, sender: User, reader: User) returns (updated: set<RowId>)
      requires Valid() && Quiet(st) && r !in st.reqs
      modifies this`rows, this`st
      ensures Valid() && Quiet(st)
      ensures st == Run(window, old(st), [Begin(r, Receipt(sender, reader, clock)), Commit(r)])
      ensures r in st.reqs && st.reqs[r] == Done(Claimed(updated))
      ensures updated == set id <- old(rows) | id.Msg? && old(rows)[id].sender == sender
                                               && old(rows)[id].receiver == reader && !old(rows)[id].isRead
      ensures rows == map id <- old(rows) ::
                        if id in updated then old(rows)[id].(isRead := true, readAt := Some(clock)) else old(rows)[id]
    {
      hide Inv, Run;
      ghost var s := st;
      ghost var op := Receipt(sender, reader, clock);
      StatementAlone(window, s, r, op);
      RunKeepsInv(window, s, [Begin(r, op), Commit(r)]);
      var now := clock;
      updated := set id <- rows | id.Msg? && rows[id].sender == sender && rows[id].receiver == reader
          && !rows[id].isRead;
      rows := map id <- rows :: if id in updated then rows[id].(isRead := true, readAt := Some(now)) else rows[id];
      assert updated == Selected(window, s.rows, op);
      st := Execute(s, r, op, updated);
    }

    /** The local delivery of a message or share while Redis is down marks it read at once. */
    method MarkDelivered(ghost r: Req, id: RowId)
      requires Valid() && Quiet(st) && r !in st.reqs
      modifies this`rows, this`st
      ensures Valid() && Quiet(st)
      ensures st == Run(window, old(st), [Begin(r, MarkRead(id, clock)), Commit(r)])
      ensures rows ==
              if id in old(rows) && !old(rows)[id].isRead then
                old(rows)[id := old(rows)[id].(isRead := true,
                                               readAt := if id.Msg? then Some(clock) else old(rows)[id].readAt)]
              else old(rows)
    {
      hide Inv, Run;
      ghost var s := st;
      ghost var op := MarkRead(id, clock);
      StatementAlone(window, s, r, op);
      RunKeepsInv(window, s, [Begin(r, op), Commit(r)]);
      st := Run(window, s, [Begin(r, op), Commit(r)]);
      ghost var delivered := id in rows && !rows[id].isRead;
      assert Selected(window, s.rows, op) == if delivered then {id} else {};
      if id in rows && !rows[id].isRead {
        rows := rows[id := rows[id].(isRead := true, readAt := if id.Msg? then Some(clock) else rows[id].readAt)];
      }
    }

    /** edit_message */
    method EditMessage(ghost r: Req, id: RowId, sender: User, content: Content) returns (reply: Reply)
      requires Valid() && Quiet(st) && r !in st.reqs && id.Msg?
      modifies this`rows, this`st
      ensures Valid() && Quiet(st)
      ensures st == Run(window, old(st), [CheckEdit(r, id, sender, content)] + [BeginEdit(r), Commit(r)])
      ensures r in st.reqs && st.reqs[r] == Done(reply)
      ensures reply ==
              if id !in old(rows) || old(rows)[id].sender != sender then NotFound
              else if clock - old(rows)[id].createdAt > window then EditExpired
              else if old(rows)[id].content.trimmed == content.text then Unchanged
              else if old(rows)[id].isDeleted then EditRefused
              else Edited
      ensures rows ==
              if reply.Edited? then
                old(rows)[id := old(rows)[id].(content := content, isEdited := true, isRead := false, readAt := None,
                                               edits := old(rows)[id].edits + 1)]
              else old(rows)
    {
      hide Inv, Run;
      ghost var s := st;
      ghost var op := Edit(id, sender, content, clock);
      EditAlone(window, s, r, id, sender, content);
      RunKeepsInv(window, s, [CheckEdit(r, id, sender, content)] + [BeginEdit(r), Commit(r)]);
      st := Run(window, s, [CheckEdit(r, id, sender, content)] + [BeginEdit(r), Commit(r)]);

      if id !in rows || rows[id].sender != sender { return NotFound; }
      var message, currTime := rows[id], clock;
      if currTime - message.createdAt > window { return EditExpired; }
      if message.content.trimmed == content.text { return Unchanged; }
      var editWindowFloor := currTime - window;
      var rowcount := 0;
      if rows[id].createdAt >= editWindowFloor && !rows[id].isDeleted {
        rows := rows[id := message.(content := content, isEdited := true, isRead := false, readAt := None,
                                    edits := message.edits + 1)];
        rowcount := 1;
      }
      assert Selected(window, s.rows, op) == if rowcount == 1 then {id} else {};
      if rowcount == 0 { return EditRefused; }
      return Edited;
    }

    /** delete_for_everyone and delete_share_for_everyone */
    method DeleteForEveryone(ghost r: Req, id: RowId, sender: User) returns (reply: Reply)
      requires Valid() && Quiet(st) && r !in st.reqs
      modifies this`rows, this`st
      ensures Valid() && Quiet(st)
      ensures st == Run(window, old(st), [Begin(r, Delete(id, sender)), Commit(r)])
      ensures r in st.reqs && st.reqs[r] == Done(reply)
      ensures reply == if id in old(rows) && old(rows)[id].sender == sender && !old(rows)[id].isDeleted
                       then DeletedForAll else DeleteRefused
      ensures rows == if reply.DeletedForAll? then old(rows)[id := old(rows)[id].(isDeleted := true)] else old(rows)
    {
      hide Inv, Run;
      ghost var s := st;
      ghost var op := Delete(id, sender);
      StatementAlone(window, s, r, op);
      RunKeepsInv(window, s, [Begin(r, op), Commit(r)]);
      st := Run(window, s, [Begin(r, op), Commit(r)]);
      var rowcount := 0;
      if id in rows && rows[id].sender == sender && !rows[id].isDeleted {
        rows := rows[id := rows[id].(isDeleted := true)];
        rowcount := 1;
      }
      assert Selected(window, s.rows, op) == if rowcount == 1 then {id} else {};
      if rowcount == 0 { return DeleteRefused; }
      return DeletedForAll;
    }

    /** deleteForMe; `found` is false for an unknown message, `again` for a repeated click. */
    method DeleteForMe(me: User, id: RowId) returns (found: bool, again: bool)
      requires Valid()
      modifies this`hidden
      ensures Valid()
      ensures found == (id in rows) && again == (found && Hiding(me, id) in old(hidden))
      ensures hidden == if found && !again then old(hidden) + multiset{Hiding(me, id)} else old(hidden)
    {
      if id !in rows { return false, false; }
      HideKeepsUnique(hidden, me, id);
      if Hiding(me, id) in hidden { return true, true; }
      hidden := hidden[Hiding(me, id) := 1];
      assert hidden == Hide(old(hidden), me, id);
      return true, false;
    }

    /** clear_chat */
    method ClearChat(me: User, friend: User)
      requires Valid()
      modifies this`hidden
      ensures Valid()
      ensures hidden == old(hidden)
                        + multiset(set id <- rows |
                                     && id.Msg? && !rows[id].isDeleted && Hiding(me, id) !in old(hidden)
                                     && ((rows[id].sender == me && rows[id].receiver == friend)
                                         || (rows[id].sender == friend && rows[id].receiver == me && rows[id].isRead))
                                   :: Hiding(me, id))
      ensures hidden == Clear(rows, old(hidden), me, friend)
    {
      InsertKeepsUnique(hidden, me, Clearable(rows, hidden, me, friend));
      var visible := set id <- rows | id.Msg? && !rows[id].isDeleted
        && ((rows[id].sender == me && rows[id].receiver == friend)
            || (rows[id].sender == friend && rows[id].receiver == me && rows[id].isRead))
        && Hiding(me, id) !in hidden;
      hidden := hidden + multiset(set id <- visible :: Hiding(me, id));
      assert visible == Clearable(rows, old(hidden), me, friend);
    }

    /** get_chat_history's messages, with the hidden ones in a subquery of their own. */
    method ChatHistory(me: User, friend: User) returns (messages: set<RowId>)
      requires Valid()
      ensures messages == set id <- rows |
                            && id.Msg? && !rows[id].isDeleted && Hiding(me, id) !in hidden
                            && ((rows[id].sender == me && rows[id].receiver == friend)
                                || (rows[id].sender == friend && rows[id].receiver == me))
      ensures messages == History(rows, hidden, me, friend)
    {
      var mine := set id <- rows | Hiding(me, id) in hidden;
      messages := set id <- rows | id.Msg? && !rows[id].isDeleted
        && ((rows[id].sender == me && rows[id].receiver == friend)
            || (rows[id].sender == friend && rows[id].receiver == me))
        && id !in mine;
    }
  }
}
