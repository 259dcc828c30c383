/** app/services/token_service.py as written: the token table and the grace cache, updated in
    place, one request at a time.  Each method is tied to the steps of RefreshTokens. */
module TokenService {
  import opened Prelude
  import opened RefreshTokens

  /** No other request is under way. */
  ghost predicate Quiet(s: State) {
    forall q <- s.requests :: s.requests[q].Finished?
  }

  /** One request served from start to finish with nobody in between. */
  function Serve(s: State, r: Request, presented: Token, access: nat, next: Token, getUp: bool, setUp: bool): State {
    DoWriteGrace(DoApply(DoProceed(DoLock(s, r, presented), r, access, next, getUp), r), r, setUp)
  }

  /** The steps that serve one request. */
  function Script(r: Request, presented: Token, access: nat, next: Token, getUp: bool, setUp: bool): seq<Event> {
    [Lock(r, presented), Proceed(r, access, next, getUp), ApplyRevocation(r), WriteGrace(r, setUp)]
  }

  lemma FinishKeepsQuiet(s: State, t: State, r: Request, p: Phase)
    requires Quiet(s) && p.Finished? && t.requests == s.requests[r := p]
    ensures Quiet(t)
  {
  }

  lemma RunUnfolds(s: State, events: seq<Event>)
    requires events != []
    ensures Run(s, events) == Run(Step(s, events[0]), events[1..])
  {
  }

  lemma ServeIsARun(s: State, r: Request, presented: Token, access: nat, next: Token, getUp: bool, setUp: bool)
    ensures Run(s, Script(r, presented, access, next, getUp, setUp))
            == Serve(s, r, presented, access, next, getUp, setUp)
  {
    hide Run, DoLock, DoProceed, DoApply, DoWriteGrace;
    var script := Script(r, presented, access, next, getUp, setUp);
    var s1 := DoLock(s, r, presented);
    var s2 := DoProceed(s1, r, access, next, getUp);
    var s3 := DoApply(s2, r);
    RunUnfolds(s, script);
    RunUnfolds(s1, script[1..]);
    RunUnfolds(s2, script[1..][1..]);
    RunUnfolds(s3, script[1..][1..][1..]);
    NoEvents(DoWriteGrace(s3, r, setUp), script[1..][1..][1..][1..]);
  }

  lemma NoEvents(s: State, events: seq<Event>)
    requires events == []
    ensures Run(s, events) == s
  {
  }

  lemma LockAlone(s: State, r: Request, presented: Token)
    requires Quiet(s) && r !in s.requests
    ensures DoLock(s, r, presented)
         == To(s, r, if presented in s.rows then Locked(presented, s.rows[presented])
               else Finished(Some(presented), NotFound))
  {
  }

  lemma FinishedIsFinal(s: State, r: Request, access: nat, next: Token, getUp: bool, setUp: bool)
    requires r in s.requests && s.requests[r].Finished?
    ensures DoProceed(s, r, access, next, getUp) == DoApply(s, r) == DoWriteGrace(s, r, setUp) == s
  {
  }

  lemma ServeUnknown(s: State, r: Request, presented: Token, access: nat, next: Token, getUp: bool, setUp: bool)
    requires Quiet(s) && r !in s.requests && presented !in s.rows
    ensures Serve(s, r, presented, access, next, getUp, setUp) == To(s, r, Finished(Some(presented), NotFound))
  {
    hide DoLock, DoProceed, DoApply, DoWriteGrace;
    LockAlone(s, r, presented);
    FinishedIsFinal(DoLock(s, r, presented), r, access, next, getUp, setUp);
  }

  lemma ServeRetry(s: State, r: Request, presented: Token, access: nat, next: Token, getUp: bool, setUp: bool)
    requires Quiet(s) && r !in s.requests && presented in s.rows && s.rows[presented].revoked
    requires GraceOf(s, presented, getUp).Some?
    ensures Serve(s, r, presented, access, next, getUp, setUp)
         == To(s, r, Finished(Some(presented), Replayed(GraceOf(s, presented, getUp).value)))
  {
    hide DoLock, DoApply, DoWriteGrace;
    LockAlone(s, r, presented);
    var s2 := DoProceed(DoLock(s, r, presented), r, access, next, getUp);
    assert s2.requests[r] == Finished(Some(presented), Replayed(GraceOf(s, presented, getUp).value));
    FinishedIsFinal(s2, r, access, next, getUp, setUp);
  }

  lemma ServeReuse(s: State, r: Request, presented: Token, access: nat, next: Token, getUp: bool, setUp: bool)
    requires Quiet(s) && r !in s.requests && presented in s.rows && s.rows[presented].revoked
    requires GraceOf(s, presented, getUp).None?
    ensures Serve(s, r, presented, access, next, getUp, setUp)
         == To(s, r, Finished(Some(presented), ReuseDetected)).(
              rows := Revoke(s.rows, FamilyTokens(s, s.rows[presented].family)))
  {
    hide DoLock, DoWriteGrace, Revoke;
    LockAlone(s, r, presented);
    var s2 := DoProceed(DoLock(s, r, presented), r, access, next, getUp);
    assert s2 == To(s, r, Revoking(Some(presented), FamilyTokens(s, s.rows[presented].family)));
    assert CanApply(s2, r);
    FinishedIsFinal(DoApply(s2, r), r, access, next, getUp, setUp);
  }

  lemma ServeExpired(s: State, r: Request, presented: Token, access: nat, next: Token, getUp: bool, setUp: bool)
    requires Quiet(s) && r !in s.requests && presented in s.rows && !s.rows[presented].revoked
    requires s.rows[presented].expiresAt < s.clock
    ensures Serve(s, r, presented, access, next, getUp, setUp)
         == To(s, r, Finished(Some(presented), Expired)).(
              rows := s.rows[presented := s.rows[presented].(revoked := true)])
  {
    hide DoLock, DoApply, DoWriteGrace;
    LockAlone(s, r, presented);
    assert Revoke(s.rows, {presented}) == s.rows[presented := s.rows[presented].(revoked := true)];
    FinishedIsFinal(DoProceed(DoLock(s, r, presented), r, access, next, getUp), r, access, next, getUp, setUp);
  }

  lemma ServeRotation(s: State, r: Request, presented: Token, access: nat, next: Token, getUp: bool, setUp: bool)
    requires Inv(s) && Quiet(s) && r !in s.requests && next !in s.rows
    requires presented in s.rows && !s.rows[presented].revoked && s.rows[presented].expiresAt >= s.clock
    ensures var t, old' := Serve(s, r, presented, access, next, getUp, setUp), s.rows[presented];
            && t.rows == s.rows[presented := old'.(revoked := true)]
                               [next := TokenRow(old'.user, old'.family, false, s.clock + LIFETIME_MS)]
            && t.grace == (if setUp then s.grace[presented := GraceEntry(Pair(access, next), s.clock + GRACE_MS)]
                           else s.grace)
            && t.requests == s.requests[r := Finished(Some(presented), Issued(Pair(access, next)))]
            && t.clock == s.clock
  {
    hide DoLock, DoApply, DoWriteGrace, ChainOk, Apart, RequestOk;
    var row, pair := s.rows[presented], Pair(access, next);
    assert row.family in s.chains;
    LockAlone(s, r, presented);
    var s1 := To(s, r, Locked(presented, row));
    var s2 := Rotate(s1, r, presented, row, pair);
    assert DoProceed(s1, r, access, next, getUp) == s2 by { hide Rotate; }
    assert Revoke(s.rows, {presented}) == s.rows[presented := row.(revoked := true)];
    GraceAfterRotation(s2, r, presented, pair, setUp);
    assert s2.requests[r := Finished(Some(presented), Issued(pair))]
        == s.requests[r := Finished(Some(presented), Issued(pair))];
  }

  lemma GraceAfterRotation(s: State, r: Request, tok: Token, pair: Pair, setUp: bool)
    requires r in s.requests && s.requests[r] == Rotated(tok, pair)
    ensures DoWriteGrace(DoApply(s, r), r, setUp)
         == To(s, r, Finished(Some(tok), Issued(pair)))
              .(grace := if setUp then s.grace[tok := GraceEntry(pair, s.clock + GRACE_MS)] else s.grace)
  {
  }

  /** One UPDATE, seen row by row. */
  lemma RevokeByFields(rows: map<Token, TokenRow>, which: set<Token>, after: map<Token, TokenRow>)
    ensures after == Revoke(rows, which) <==>
            && after.Keys == rows.Keys
            && forall t <- rows :: after[t] == if t in which then rows[t].(revoked := true) else rows[t]
  {
  }

  /** Logging out with nobody in between revokes every token of the user. */
  lemma LogoutAlone(s: State, r: Request, user: User)
    requires Quiet(s) && r !in s.requests
    ensures var t := Run(s, [BeginLogout(r, user), ApplyRevocation(r)]);
            && t == To(s, r, Finished(None, LoggedOut)).(rows := t.rows) && t.rows.Keys == s.rows.Keys
            && forall tok <- s.rows :: t.rows[tok] == if s.rows[tok].user == user then s.rows[tok].(revoked := true)
                                                      else s.rows[tok]
  {
    hide Run, Revoke;
    var script := [BeginLogout(r, user), ApplyRevocation(r)];
    var s1 := DoBeginLogout(s, r, user);
    RunUnfolds(s, script);
    RunUnfolds(s1, script[1..]);
    NoEvents(DoApply(s1, r), script[1..][1..]);
    assert CanApply(s1, r);
    RevokeByFields(s.rows, UserTokens(s, user), DoApply(s1, r).rows);
  }

  /** What one request served alone answers and leaves, by the presented row and the cached
      entry. */
  lemma ServeMeans(s: State, r: Request, presented: Token, access: nat, next: Token, getUp: bool, setUp: bool)
    requires Inv(s) && Quiet(s) && r !in s.requests && next !in s.rows
    ensures var t := Serve(s, r, presented, access, next, getUp, setUp);
            && Quiet(t) && t.clock == s.clock
            && r in t.requests && t.requests[r].Finished? && t.requests[r].presented == Some(presented)
            && var reply := t.requests[r].reply;
            && (presented !in s.rows ==> reply == NotFound && t.rows == s.rows && t.grace == s.grace)
            && (presented in s.rows ==>
                  var row := s.rows[presented];
                  var cached := getUp && presented in s.grace && s.clock < s.grace[presented].expiresAt;
                  if row.revoked && cached then
                    reply == Replayed(s.grace[presented].pair) && t.rows == s.rows && t.grace == s.grace
                  else if row.revoked then
                    && reply == ReuseDetected && t.grace == s.grace && t.rows.Keys == s.rows.Keys
                    && forall tok <- s.rows ::
                         t.rows[tok] == if s.rows[tok].family == row.family then s.rows[tok].(revoked := true)
                                        else s.rows[tok]
                  else if row.expiresAt < s.clock then
                    && reply == Expired && t.grace == s.grace
                    && t.rows == s.rows[presented := row.(revoked := true)]
                  else
                    && reply == Issued(Pair(access, next))
                    && t.rows == s.rows[presented := row.(revoked := true)]
                                       [next := TokenRow(row.user, row.family, false, s.clock + LIFETIME_MS)]
                    && t.grace == if setUp then s.grace[presented := GraceEntry(Pair(access, next), s.clock + GRACE_MS)]
                                  else s.grace)
  {
    hide Inv, Quiet, Serve, Revoke;
    var t := Serve(s, r, presented, access, next, getUp, setUp);
    if presented !in s.rows {
      ServeUnknown(s, r, presented, access, next, getUp, setUp);
    } else if s.rows[presented].revoked && GraceOf(s, presented, getUp).Some? {
      ServeRetry(s, r, presented, access, next, getUp, setUp);
    } else if s.rows[presented].revoked {
      ServeReuse(s, r, presented, access, next, getUp, setUp);
      RevokeByFields(s.rows, FamilyTokens(s, s.rows[presented].family), t.rows);
    } else if s.rows[presented].expiresAt < s.clock {
      ServeExpired(s, r, presented, access, next, getUp, setUp);
    } else {
      ServeRotation(s, r, presented, access, next, getUp, setUp);
    }
    FinishKeepsQuiet(s, t, r, t.requests[r]);
  }

  class TokenStore {
    var rows: map<Token, TokenRow>
    var grace: map<Token, GraceEntry>
    var clock: int
    /** The state of the protocol, history included, of which the fields are the real part. */
    ghost var st: State

    ghost predicate Valid()
      reads this
    {
      st.rows == rows && st.grace == grace && st.clock == clock && Inv(st)
    }

    constructor ()
      ensures Valid() && Quiet(st) && st == Empty
    {
      rows, grace, clock := map[], map[], 0;
      st := Empty;
      new;
      EmptyIsOk();
    }

    /** create_refresh_token: adds the row; committing is up to the caller. */
    method CreateRefreshToken(user: User, family: Family, tok: Token)
      modifies this`rows
      ensures rows == old(rows)[tok := TokenRow(user, family, false, clock + 7 * 24 * 3600 * 1000)]
    {
      var expiresAt := clock + LIFETIME_MS;
      rows := rows[tok := TokenRow(user, family, false, expiresAt)];
    }

    /** First login: a new family with a first token. */
    method Login(user: User, family: Family, tok: Token)
      requires Valid() && tok !in rows && family !in st.chains
      modifies this
      ensures Valid() && st == Step(old(st), RefreshTokens.Login(user, family, tok))
      ensures rows == old(rows)[tok := TokenRow(user, family, false, clock + 7 * 24 * 3600 * 1000)]
      ensures grace == old(grace) && clock == old(clock)
    {
      CreateRefreshToken(user, family, tok);
      LoginKeepsInv(st, user, family, tok);
      st := DoLogin(st, user, family, tok);
    }

    /** revoke_family: one UPDATE over the family. */
    method RevokeFamily(family: Family)
      modifies this`rows
      ensures rows.Keys == old(rows).Keys
      ensures forall t <- rows :: rows[t] == if old(rows)[t].family == family then old(rows)[t].(revoked := true)
                                             else old(rows)[t]
    {
      rows := map t <- rows :: if rows[t].family == family then rows[t].(revoked := true) else rows[t];
    }

    /** revoke_all_user_tokens: one UPDATE over the user's rows. */
    method RevokeAllUserTokens(ghost r: Request, user: User)
      requires Valid() && Quiet(st) && r !in st.requests
      modifies this
      ensures Valid() && Quiet(st)
      ensures st == Run(old(st), [BeginLogout(r, user), ApplyRevocation(r)])
      ensures rows.Keys == old(rows).Keys && grace == old(grace) && clock == old(clock)
      ensures forall t <- rows :: rows[t] == if old(rows)[t].user == user then old(rows)[t].(revoked := true)
                                             else old(rows)[t]
    {
      hide Inv, Run, Quiet, Holds;
      ghost var s := st;
      rows := map t <- rows :: if rows[t].user == user then rows[t].(revoked := true) else rows[t];
      RunKeepsInv(s, [BeginLogout(r, user), ApplyRevocation(r)]);
      LogoutAlone(s, r, user);
      FinishKeepsQuiet(s, Run(s, [BeginLogout(r, user), ApplyRevocation(r)]), r, Finished(None, LoggedOut));
      st := Run(s, [BeginLogout(r, user), ApplyRevocation(r)]);
    }

    /** rotate_refresh_token.  `access` and `next` are the freshly made tokens; the flags say
        whether Redis answers the grace lookup and the grace write. */
    method RotateRefreshToken(ghost r: Request, presented: Token, access: nat, next: Token, getUp: bool, setUp: bool)
      returns (reply: Reply)
      requires Valid() && Quiet(st) && r !in st.requests && next !in rows
      modifies this
      ensures Valid() && Quiet(st)
      ensures st == Run(old(st), Script(r, presented, access, next, getUp, setUp))
      ensures r in st.requests && st.requests[r] == Finished(Some(presented), reply)
      ensures clock == old(clock)
      ensures presented !in old(rows) ==> reply == NotFound && rows == old(rows) && grace == old(grace)
      ensures presented in old(rows) ==>
                var row := old(rows)[presented];
                var cached := getUp && presented in old(grace) && clock < old(grace)[presented].expiresAt;
                if row.revoked && cached then
                  reply == Replayed(old(grace)[presented].pair) && rows == old(rows) && grace == old(grace)
                else if row.revoked then
                  && reply == ReuseDetected && grace == old(grace) && rows.Keys == old(rows).Keys
                  && forall t <- rows ::
                       rows[t] == if old(rows)[t].family == row.family then old(rows)[t].(revoked := true)
                                  else old(rows)[t]
                else if row.expiresAt < clock then
                  && reply == Expired && grace == old(grace)
                  && rows == old(rows)[presented := row.(revoked := true)]
                else
                  && reply == Issued(Pair(access, next))
                  && rows == old(rows)[presented := row.(revoked := true)]
                                      [next := TokenRow(row.user, row.family, false, clock + 7 * 24 * 3600 * 1000)]
                  && grace == if setUp then old(grace)[presented := GraceEntry(reply.pair, clock + 60_000)]
                              else old(grace)
    {
      hide Inv, Quiet, Run, Serve, Script;
      ghost var s := st;
      RunKeepsInv(s, Script(r, presented, access, next, getUp, setUp));
      ServeIsARun(s, r, presented, access, next, getUp, setUp);
      ServeMeans(s, r, presented, access, next, getUp, setUp);
      st := Run(s, Script(r, presented, access, next, getUp, setUp));

      if presented !in rows { return NotFound; }
      var oldRow := rows[presented];
      if oldRow.revoked {
        if getUp && presented in grace && clock < grace[presented].expiresAt {
          return Replayed(grace[presented].pair);
        }
        RevokeFamily(oldRow.family);
        return ReuseDetected;
      }
      if oldRow.expiresAt < clock {
        rows := rows[presented := oldRow.(revoked := true)];
        return Expired;
      }
      rows := rows[presented := oldRow.(revoked := true)];
      CreateRefreshToken(oldRow.user, oldRow.family, next);
      if setUp {
        grace := grace[presented := GraceEntry(Pair(access, next), clock + GRACE_MS)];
      }
      return Issued(Pair(access, next));
    }
  }
}
