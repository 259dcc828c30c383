/** Refresh-token families of app/services/token_service.py: rotation with reuse detection
    and a grace cache, as interleaved steps of concurrent requests.

    A request first locks and reads the presented row, then acts on what it read and commits,
    and only then writes the grace entry.  A bulk revocation fixes the rows it will touch when
    the statement starts (PostgreSQL's statement snapshot) and touches them once no other
    request holds one of their locks.  Tokens stand for their own hashes. */
module RefreshTokens {
  import opened Prelude

  type Token = nat
  type Family = nat
  type User = nat
  type Request = nat

  const GRACE_MS := 60_000
  const LIFETIME_MS := 7 * 24 * 3600 * 1000

  datatype TokenRow = TokenRow(user: User, family: Family, revoked: bool, expiresAt: int)
  datatype Pair = Pair(access: nat, refresh: Token)
  datatype GraceEntry = GraceEntry(pair: Pair, expiresAt: int)

  datatype Reply =
    | Issued(pair: Pair)      // 200, next successor
    | Replayed(pair: Pair)    // 200, successor from the grace cache
    | NotFound | ReuseDetected | Expired | LoggedOut | Died

  datatype Phase =
    | Locked(tok: Token, row: TokenRow)
    | Revoking(holding: Option<Token>, snapshot: set<Token>)
    | Rotated(tok: Token, pair: Pair)
    | Finished(presented: Option<Token>, reply: Reply)

  /** Both stores, the clock and the requests in flight; `chains` and `issued` are history:
      the tokens of each family in order of creation, and the pair each rotation handed out. */
  datatype State = State(
    rows: map<Token, TokenRow>, grace: map<Token, GraceEntry>, clock: int,
    requests: map<Request, Phase>,
    chains: map<Family, seq<Token>>, issued: map<Token, Pair>)

  datatype Event =
    | Tick(ms: nat)
    | Login(user: User, family: Family, next: Token)
    | Lock(r: Request, presented: Token)
    | Proceed(r: Request, access: nat, next: Token, redisUp: bool)
    | WriteGrace(r: Request, redisUp: bool)
    | BeginLogout(r: Request, user: User)
    | ApplyRevocation(r: Request)
    | Crash(r: Request)

  // ----- steps

  predicate Holds(p: Phase, tok: Token) {
    (p.Locked? && p.tok == tok) || (p.Revoking? && p.holding == Some(tok))
  }

  predicate Free(s: State, tok: Token) {
    forall r <- s.requests :: !Holds(s.requests[r], tok)
  }

  function FamilyTokens(s: State, family: Family): set<Token> {
    set t <- s.rows | s.rows[t].family == family
  }

  function UserTokens(s: State, user: User): set<Token> {
    set t <- s.rows | s.rows[t].user == user
  }

  function Revoke(rows: map<Token, TokenRow>, which: set<Token>): map<Token, TokenRow> {
    map t <- rows :: if t in which then rows[t].(revoked := true) else rows[t]
  }

  /** redis.get(rotation_grace:...) */
  function GraceOf(s: State, tok: Token, redisUp: bool): Option<Pair> {
    if redisUp && tok in s.grace && s.clock < s.grace[tok].expiresAt then Some(s.grace[tok].pair) else None
  }

  function To(s: State, r: Request, p: Phase): State {
    s.(requests := s.requests[r := p])
  }

  predicate InPhase(s: State, r: Request, locked: bool, revoking: bool, rotated: bool) {
    r in s.requests &&
    match s.requests[r]
    case Locked(_, _) => locked
    case Revoking(_, _) => revoking
    case Rotated(_, _) => rotated
    case Finished(_, _) => false
  }

  function DoLogin(s: State, user: User, family: Family, next: Token): State {
    if next in s.rows || family in s.chains then s
    else s.(rows := s.rows[next := TokenRow(user, family, false, s.clock + LIFETIME_MS)],
            chains := s.chains[family := [next]])
  }

  /** SELECT ... FOR UPDATE */
  function DoLock(s: State, r: Request, tok: Token): State {
    if r in s.requests || !Free(s, tok) then s
    else if tok !in s.rows then To(s, r, Finished(Some(tok), NotFound))
    else To(s, r, Locked(tok, s.rows[tok]))
  }

  /** Lines 122-158: what the request does with the row it locked. */
  function DoProceed(s: State, r: Request, access: nat, next: Token, redisUp: bool): State {
    if !InPhase(s, r, true, false, false) then s
    else
      var tok, row := s.requests[r].tok, s.requests[r].row;
      if row.revoked then
        match GraceOf(s, tok, redisUp)
        case Some(pair) => To(s, r, Finished(Some(tok), Replayed(pair)))
        case None => To(s, r, Revoking(Some(tok), FamilyTokens(s, row.family)))
      else if row.expiresAt < s.clock then
        To(s, r, Finished(Some(tok), Expired)).(rows := Revoke(s.rows, {tok}))
      else if next in s.rows || row.family !in s.chains then s
      else Rotate(s, r, tok, row, Pair(access, next))
  }

  /** Revoke the old row and insert its successor in one commit. */
  function Rotate(s: State, r: Request, tok: Token, row: TokenRow, pair: Pair): State
    requires row.family in s.chains
  {
    State(Revoke(s.rows, {tok})[pair.refresh := TokenRow(row.user, row.family, false, s.clock + LIFETIME_MS)],
          s.grace, s.clock, s.requests[r := Rotated(tok, pair)],
          s.chains[row.family := s.chains[row.family] + [pair.refresh]],
          s.issued[tok := pair])
  }

  function DoWriteGrace(s: State, r: Request, redisUp: bool): State {
    if !InPhase(s, r, false, false, true) then s
    else
      var tok, pair := s.requests[r].tok, s.requests[r].pair;
      To(s, r, Finished(Some(tok), Issued(pair)))
        .(grace := if redisUp then s.grace[tok := GraceEntry(pair, s.clock + GRACE_MS)] else s.grace)
  }

  function DoBeginLogout(s: State, r: Request, user: User): State {
    if r in s.requests then s else To(s, r, Revoking(None, UserTokens(s, user)))
  }

  predicate CanApply(s: State, r: Request) {
    && InPhase(s, r, false, true, false)
    && forall q <- s.requests, t <- s.requests[r].snapshot :: q != r ==> !Holds(s.requests[q], t)
  }

  function DoApply(s: State, r: Request): State {
    if !CanApply(s, r) then s
    else
      var p := s.requests[r];
      To(s, r, Finished(p.holding, if p.holding.Some? then ReuseDetected else LoggedOut))
        .(rows := Revoke(s.rows, p.snapshot))
  }

  /** The worker dies: its transaction is rolled back and its locks go. */
  function DoCrash(s: State, r: Request): State {
    if !InPhase(s, r, true, true, true) then s else To(s, r, Finished(None, Died))
  }

  function Step(s: State, e: Event): State {
    match e
    case Tick(ms) => s.(clock := s.clock + ms)
    case Login(user, family, next) => DoLogin(s, user, family, next)
    case Lock(r, tok) => DoLock(s, r, tok)
    case Proceed(r, access, next, redisUp) => DoProceed(s, r, access, next, redisUp)
    case WriteGrace(r, redisUp) => DoWriteGrace(s, r, redisUp)
    case BeginLogout(r, user) => DoBeginLogout(s, r, user)
    case ApplyRevocation(r) => DoApply(s, r)
    case Crash(r) => DoCrash(s, r)
  }

  function Run(s: State, events: seq<Event>): State
    decreases |events|
  {
    if events == [] then s else Run(Step(s, events[0]), events[1..])
  }

  const Empty := State(map[], map[], 0, map[], map[], map[])

  // ----- the invariant

  /** One family: distinct tokens of one user, each but the last revoked and the predecessor
      of the next. */
  ghost predicate ChainOk(rows: map<Token, TokenRow>, issued: map<Token, Pair>, f: Family, c: seq<Token>) {
    && c != []
    && (forall i :: 0 <= i < |c| ==> c[i] in rows && rows[c[i]].family == f)
    && (forall i, j :: 0 <= i < j < |c| ==> c[i] != c[j] && rows[c[i]].user == rows[c[j]].user)
    && (forall i :: 0 <= i < |c| - 1 ==> rows[c[i]].revoked && c[i] in issued)
    && (forall i, j :: 0 <= i && j == i + 1 < |c| ==> issued[c[i]].refresh == c[j])
    && c[|c| - 1] !in issued
  }

  ghost predicate ChainsOk(rows: map<Token, TokenRow>, issued: map<Token, Pair>, chains: map<Family, seq<Token>>) {
    && (forall f <- chains :: ChainOk(rows, issued, f, chains[f]))
    && (forall t <- rows :: rows[t].family in chains && t in chains[rows[t].family])
    && (forall t <- issued :: t in rows)
  }

  ghost predicate RequestOk(rows: map<Token, TokenRow>, issued: map<Token, Pair>, grace: map<Token, GraceEntry>,
          p: Phase) {
    match p
    case Locked(tok, row) => tok in rows && rows[tok] == row
    case Revoking(holding, snapshot) =>
      && (forall t <- snapshot :: t in rows)
      && (holding.Some? ==> holding.value in rows && rows[holding.value].revoked)
    case Rotated(tok, pair) => tok in issued && issued[tok] == pair && tok !in grace
    case Finished(presented, reply) =>
      (reply.Issued? || reply.Replayed?) ==>
        presented.Some? && presented.value in issued && issued[presented.value] == reply.pair
  }

  ghost predicate RequestsOk(s: State) {
    forall r <- s.requests :: RequestOk(s.rows, s.issued, s.grace, s.requests[r])
  }

  /** One request at most holds a row, and one at most is between commit and grace write. */
  ghost predicate Apart(p: Phase, q: Phase) {
    && (forall t :: Holds(p, t) ==> !Holds(q, t))
    && (p.Rotated? && q.Rotated? ==> p.tok != q.tok)
  }

  ghost predicate Exclusive(requests: map<Request, Phase>) {
    forall q <- requests, r <- requests :: q != r ==> Apart(requests[q], requests[r])
  }

  ghost predicate GraceOk(grace: map<Token, GraceEntry>, issued: map<Token, Pair>) {
    forall t <- grace :: t in issued && grace[t].pair == issued[t]
  }

  ghost predicate Inv(s: State) {
    ChainsOk(s.rows, s.issued, s.chains) && GraceOk(s.grace, s.issued) && RequestsOk(s) && Exclusive(s.requests)
  }

  // ----- chains

  lemma NewRowKeepsChain(rows: map<Token, TokenRow>, issued: map<Token, Pair>, f: Family, c: seq<Token>, next: Token,
          row: TokenRow)
    requires ChainOk(rows, issued, f, c) && next !in rows
    ensures ChainOk(rows[next := row], issued, f, c)
  {
  }

  lemma LoginKeepsChains(s: State, user: User, family: Family, next: Token)
    requires ChainsOk(s.rows, s.issued, s.chains)
    ensures var t := DoLogin(s, user, family, next); ChainsOk(t.rows, t.issued, t.chains)
  {
    hide ChainOk;
    if next !in s.rows && family !in s.chains {
      var t, row := DoLogin(s, user, family, next), TokenRow(user, family, false, s.clock + LIFETIME_MS);
      assert ChainOk(t.rows, t.issued, family, [next]) by { FirstToken(t.rows, t.issued, family, next); }
      forall f <- t.chains ensures ChainOk(t.rows, t.issued, f, t.chains[f]) {
        if f != family { NewRowKeepsChain(s.rows, s.issued, f, s.chains[f], next, row); }
      }
    }
  }

  lemma FirstToken(rows: map<Token, TokenRow>, issued: map<Token, Pair>, f: Family, tok: Token)
    requires tok in rows && rows[tok].family == f && tok !in issued
    ensures ChainOk(rows, issued, f, [tok])
  {
  }

  lemma RevokeKeepsChain(rows: map<Token, TokenRow>, issued: map<Token, Pair>, f: Family, c: seq<Token>,
          which: set<Token>)
    requires ChainOk(rows, issued, f, c)
    ensures ChainOk(Revoke(rows, which), issued, f, c)
  {
  }

  lemma RevokeKeepsChains(rows: map<Token, TokenRow>, issued: map<Token, Pair>, chains: map<Family, seq<Token>>,
          which: set<Token>)
    requires ChainsOk(rows, issued, chains)
    ensures ChainsOk(Revoke(rows, which), issued, chains)
  {
    hide ChainOk;
    forall f <- chains ensures ChainOk(Revoke(rows, which), issued, f, chains[f]) {
      RevokeKeepsChain(rows, issued, f, chains[f], which);
    }
  }

  /** An unrevoked token is the last of its chain. */
  lemma LiveTokenIsLast(s: State, tok: Token)
    requires ChainsOk(s.rows, s.issued, s.chains) && tok in s.rows && !s.rows[tok].revoked
    ensures s.rows[tok].family in s.chains
    ensures var c := s.chains[s.rows[tok].family]; c != [] && tok == c[|c| - 1] && tok !in s.issued
  {
    var f := s.rows[tok].family;
    assert ChainOk(s.rows, s.issued, f, s.chains[f]);
  }

  lemma RotateExtendsChain(rows: map<Token, TokenRow>, issued: map<Token, Pair>, f: Family, c: seq<Token>,
          pair: Pair, expiresAt: int)
    requires ChainOk(rows, issued, f, c) && !rows[c[|c| - 1]].revoked
    requires pair.refresh !in rows && pair.refresh !in issued
    ensures var tok := c[|c| - 1];
            ChainOk(Revoke(rows, {tok})[pair.refresh := TokenRow(rows[tok].user, f, false, expiresAt)],
                    issued[tok := pair], f, c + [pair.refresh])
  {
    var tok := c[|c| - 1];
    var d := c + [pair.refresh];
    assert forall i :: 0 <= i < |c| - 1 ==> c[i] != tok;
    assert forall i, j :: 0 <= i && j == i + 1 < |d| ==> issued[tok := pair][d[i]].refresh == d[j];
  }

  lemma RotateKeepsOtherChain(rows: map<Token, TokenRow>, issued: map<Token, Pair>, f: Family, c: seq<Token>,
          tok: Token, pair: Pair, row: TokenRow)
    requires ChainOk(rows, issued, f, c) && tok in rows && rows[tok].family != f
    requires pair.refresh !in rows
    ensures ChainOk(Revoke(rows, {tok})[pair.refresh := row], issued[tok := pair], f, c)
  {
  }

  lemma RotateKeepsChains(s: State, r: Request, tok: Token, pair: Pair)
    requires ChainsOk(s.rows, s.issued, s.chains) && tok in s.rows && !s.rows[tok].revoked && pair.refresh !in s.rows
    requires s.rows[tok].family in s.chains
    ensures var t := Rotate(s, r, tok, s.rows[tok], pair); ChainsOk(t.rows, t.issued, t.chains)
  {
    hide ChainOk;
    var t, g := Rotate(s, r, tok, s.rows[tok], pair), s.rows[tok].family;
    LiveTokenIsLast(s, tok);
    forall f <- t.chains ensures ChainOk(t.rows, t.issued, f, t.chains[f]) {
      if f == g {
        RotateExtendsChain(s.rows, s.issued, g, s.chains[g], pair, s.clock + LIFETIME_MS);
      } else {
        RotateKeepsOtherChain(s.rows, s.issued, f, s.chains[f], tok, pair, t.rows[pair.refresh]);
      }
    }
  }

  // ----- requests

  lemma MoveKeepsExclusive(s: State, r: Request, p: Phase)
    requires Exclusive(s.requests)
    requires forall q <- s.requests :: q != r ==> Apart(s.requests[q], p) && Apart(p, s.requests[q])
    ensures Exclusive(To(s, r, p).requests)
  {
  }

  /** A phase that takes no lock and is not between commit and grace write. */
  predicate Passive(p: Phase) {
    p.Finished? || (p.Revoking? && p.holding.None?)
  }

  lemma PassiveKeepsInv(s: State, r: Request, p: Phase)
    requires Inv(s) && Passive(p) && RequestOk(s.rows, s.issued, s.grace, p)
    ensures Inv(To(s, r, p))
  {
    hide ChainOk;
    MoveKeepsExclusive(s, r, p);
  }

  lemma LockKeepsInv(s: State, r: Request, tok: Token)
    requires Inv(s)
    ensures Inv(DoLock(s, r, tok))
  {
    hide ChainOk;
    if r !in s.requests && Free(s, tok) {
      if tok in s.rows {
        MoveKeepsExclusive(s, r, Locked(tok, s.rows[tok]));
      } else {
        PassiveKeepsInv(s, r, Finished(Some(tok), NotFound));
      }
    }
  }

  /** Revoking rows none of which is locked by a request that has yet to act on it. */
  lemma RevokeKeepsInv(s: State, which: set<Token>)
    requires Inv(s)
    requires forall r <- s.requests :: s.requests[r].Locked? ==> s.requests[r].tok !in which
    ensures Inv(s.(rows := Revoke(s.rows, which)))
  {
    hide ChainOk;
    RevokeKeepsChains(s.rows, s.issued, s.chains, which);
  }

  lemma RotateKeepsInv(s: State, r: Request, pair: Pair)
    requires Inv(s) && InPhase(s, r, true, false, false) && !s.requests[r].row.revoked && pair.refresh !in s.rows
    requires s.requests[r].row.family in s.chains
    ensures Inv(Rotate(s, r, s.requests[r].tok, s.requests[r].row, pair))
  {
    hide ChainOk, ChainsOk;
    var tok := s.requests[r].tok;
    var t := Rotate(s, r, tok, s.rows[tok], pair);
    RotateKeepsChains(s, r, tok, pair);
    LiveTokenIsLast(s, tok);
    assert Exclusive(t.requests) by {
      assert Holds(s.requests[r], tok);
      assert forall q <- s.requests :: s.requests[q].Rotated? ==> s.requests[q].tok in s.issued;
      MoveKeepsExclusive(s, r, Rotated(tok, pair));
    }
    assert RequestsOk(t) by {
      forall q <- t.requests ensures RequestOk(t.rows, t.issued, t.grace, t.requests[q]) {
        if q != r {
          assert Apart(s.requests[r], s.requests[q]) && Holds(s.requests[r], tok);
          RotateKeepsRequest(s, s.requests[q], tok, pair, t.rows[pair.refresh]);
        }
      }
    }
  }

  lemma RotateKeepsRequest(s: State, p: Phase, tok: Token, pair: Pair, row: TokenRow)
    requires RequestOk(s.rows, s.issued, s.grace, p) && !Holds(p, tok)
    requires tok in s.rows && pair.refresh !in s.rows && tok !in s.issued
    ensures RequestOk(Revoke(s.rows, {tok})[pair.refresh := row], s.issued[tok := pair], s.grace, p)
  {
  }

  lemma ProceedKeepsInv(s: State, r: Request, access: nat, next: Token, redisUp: bool)
    requires Inv(s)
    ensures Inv(DoProceed(s, r, access, next, redisUp))
  {
    hide ChainOk;
    if InPhase(s, r, true, false, false) {
      var tok, row := s.requests[r].tok, s.requests[r].row;
      assert Holds(s.requests[r], tok);
      if row.revoked {
        match GraceOf(s, tok, redisUp)
        case Some(pair) => PassiveKeepsInv(s, r, Finished(Some(tok), Replayed(pair)));
        case None => KeepLockKeepsInv(s, r, Revoking(Some(tok), FamilyTokens(s, row.family)));
      } else if row.expiresAt < s.clock {
        PassiveKeepsInv(s, r, Finished(Some(tok), Expired));
        LocksDiffer(s, r);
        RevokeKeepsInv(To(s, r, Finished(Some(tok), Expired)), {tok});
      } else if next !in s.rows && row.family in s.chains {
        RotateKeepsInv(s, r, Pair(access, next));
      }
    }
  }

  lemma LocksDiffer(s: State, r: Request)
    requires Exclusive(s.requests) && InPhase(s, r, true, false, false)
    ensures forall q <- s.requests :: q != r && s.requests[q].Locked? ==> s.requests[q].tok != s.requests[r].tok
  {
    forall q <- s.requests | q != r && s.requests[q].Locked? ensures s.requests[q].tok != s.requests[r].tok {
      assert Holds(s.requests[q], s.requests[q].tok) && Apart(s.requests[q], s.requests[r]);
    }
  }

  /** Moving to a phase that holds the same lock. */
  lemma KeepLockKeepsInv(s: State, r: Request, p: Phase)
    requires Inv(s) && InPhase(s, r, true, false, false) && p.Revoking? && p.holding == Some(s.requests[r].tok)
    requires RequestOk(s.rows, s.issued, s.grace, p)
    ensures Inv(To(s, r, p))
  {
    hide ChainOk;
    assert forall t :: Holds(p, t) <==> Holds(s.requests[r], t);
    MoveKeepsExclusive(s, r, p);
  }

  lemma WriteGraceKeepsInv(s: State, r: Request, redisUp: bool)
    requires Inv(s)
    ensures Inv(DoWriteGrace(s, r, redisUp))
  {
    hide ChainOk, ChainsOk;
    if InPhase(s, r, false, false, true) {
      var t, tok := DoWriteGrace(s, r, redisUp), s.requests[r].tok;
      MoveKeepsExclusive(s, r, t.requests[r]);
      forall q <- t.requests ensures RequestOk(t.rows, t.issued, t.grace, t.requests[q]) {
        assert q != r ==> Apart(s.requests[r], s.requests[q]);
      }
    }
  }

  lemma ApplyKeepsInv(s: State, r: Request)
    requires Inv(s)
    ensures Inv(DoApply(s, r))
  {
    hide ChainOk;
    if CanApply(s, r) {
      var p := s.requests[r];
      var done := Finished(p.holding, if p.holding.Some? then ReuseDetected else LoggedOut);
      PassiveKeepsInv(s, r, done);
      forall q <- s.requests | q != r && s.requests[q].Locked? ensures s.requests[q].tok !in p.snapshot {
        assert Holds(s.requests[q], s.requests[q].tok);
      }
      RevokeKeepsInv(To(s, r, done), p.snapshot);
    }
  }

  lemma StepKeepsInv(s: State, e: Event)
    requires Inv(s)
    ensures Inv(Step(s, e))
  {
    hide ChainOk, DoLock, DoProceed, DoWriteGrace, DoApply;
    match e
    case Tick(_) =>
    case Login(user, family, next) => LoginKeepsInv(s, user, family, next);
    case Lock(r, tok) => LockKeepsInv(s, r, tok);
    case Proceed(r, access, next, redisUp) => ProceedKeepsInv(s, r, access, next, redisUp);
    case WriteGrace(r, redisUp) => WriteGraceKeepsInv(s, r, redisUp);
    case BeginLogout(r, user) => if r !in s.requests { PassiveKeepsInv(s, r, Revoking(None, UserTokens(s, user))); }
    case ApplyRevocation(r) => ApplyKeepsInv(s, r);
    case Crash(r) => if InPhase(s, r, true, true, true) { PassiveKeepsInv(s, r, Finished(None, Died)); }
  }

  lemma LoginKeepsInv(s: State, user: User, family: Family, next: Token)
    requires Inv(s)
    ensures Inv(DoLogin(s, user, family, next))
  {
    hide ChainOk;
    LoginKeepsChains(s, user, family, next);
  }

  /** Every reachable state, from any state that satisfies the invariant. */
  lemma {:induction false} RunKeepsInv(s: State, events: seq<Event>)
    requires Inv(s)
    ensures Inv(Run(s, events))
    decreases |events|
  {
    if events != [] {
      StepKeepsInv(s, events[0]);
      RunKeepsInv(Step(s, events[0]), events[1..]);
    }
  }

  lemma EmptyIsOk()
    ensures Inv(Empty)
  {
  }

  // ----- families are chains

  /** The tokens of family f, first to last. */
  ghost predicate OneChain(s: State, f: Family, c: seq<Token>) {
    && c != [] && FamilyTokens(s, f) == (set t <- c)
    && (forall i, j :: 0 <= i < j < |c| ==> c[i] != c[j])
    && (forall t <- c, u <- c :: t in s.rows && u in s.rows && s.rows[t].user == s.rows[u].user)
    && (forall t <- c :: t in s.rows && (!s.rows[t].revoked ==> t == c[|c| - 1]))
    && (forall i :: 0 <= i < |c| ==> (c[i] in s.issued <==> i < |c| - 1))
    && (forall i, j :: 0 <= i && j == i + 1 < |c| ==> c[i] in s.issued && s.issued[c[i]].refresh == c[j])
  }

  lemma ChainMember(s: State, f: Family, t: Token)
    requires ChainsOk(s.rows, s.issued, s.chains) && f in s.chains && t in s.chains[f]
    ensures var c := s.chains[f];
            && c != [] && t in s.rows && s.rows[t].family == f && c[0] in s.rows && s.rows[t].user == s.rows[c[0]].user
            && (!s.rows[t].revoked ==> t == c[|c| - 1])
  {
    var c := s.chains[f];
    assert ChainOk(s.rows, s.issued, f, c);
    var i :| 0 <= i < |c| && c[i] == t;
  }

  lemma ChainOkIsOneChain(s: State, f: Family)
    requires ChainsOk(s.rows, s.issued, s.chains) && f in s.chains
    ensures OneChain(s, f, s.chains[f])
  {
    var c := s.chains[f];
    forall t <- c ensures t in s.rows && s.rows[t].family == f && s.rows[t].user == s.rows[c[0]].user
        && (!s.rows[t].revoked ==> t == c[|c| - 1]) {
      ChainMember(s, f, t);
    }
    assert FamilyTokens(s, f) == (set t <- c);
    assert ChainOk(s.rows, s.issued, f, c);
  }

  /** In every reachable state the tokens of a family are one chain: all of one user, in
      order of creation, each handed out by rotating the one before, and only the last of
      them can still be live. */
  lemma FamilyIsOneChain(events: seq<Event>, f: Family)
    requires f in Run(Empty, events).chains
    ensures OneChain(Run(Empty, events), f, Run(Empty, events).chains[f])
  {
    hide ChainsOk;
    EmptyIsOk();
    RunKeepsInv(Empty, events);
    ChainOkIsOneChain(Run(Empty, events), f);
  }

  // ----- dead families

  /** Rows are never deleted, never change hands and never come back to life. */
  ghost predicate RowsGrow(s: State, t: State) {
    forall tok <- s.rows ::
      && tok in t.rows && t.rows[tok].family == s.rows[tok].family && t.rows[tok].user == s.rows[tok].user
      && (s.rows[tok].revoked ==> t.rows[tok].revoked)
  }

  lemma StepGrowsRows(s: State, e: Event)
    ensures RowsGrow(s, Step(s, e))
  {
  }

  ghost predicate Dead(s: State, f: Family) {
    f in s.chains && forall t <- s.chains[f] :: t in s.rows && s.rows[t].revoked
  }

  /** Whoever is about to rotate holds a live token. */
  lemma RotationNeedsALiveToken(s: State, r: Request)
    requires Inv(s) && InPhase(s, r, true, false, false) && !s.requests[r].row.revoked
    ensures var tok := s.requests[r].tok;
            tok in s.rows && !s.rows[tok].revoked && s.rows[tok] == s.requests[r].row
            && s.rows[tok].family in s.chains && tok in s.chains[s.rows[tok].family]
  {
    assert RequestOk(s.rows, s.issued, s.grace, s.requests[r]);
  }

  lemma StepKeepsDead(s: State, e: Event, f: Family)
    requires Inv(s) && Dead(s, f)
    ensures Dead(Step(s, e), f) && Step(s, e).chains[f] == s.chains[f]
  {
    hide Inv;
    StepGrowsRows(s, e);
    if e.Proceed? && InPhase(s, e.r, true, false, false) && !s.requests[e.r].row.revoked {
      RotationNeedsALiveToken(s, e.r);
    }
  }

  /** Once every token of a family is revoked, no later run brings any of them back and the
      family never grows again. */
  lemma {:induction false} DeadFamiliesStayDead(s: State, events: seq<Event>, f: Family)
    requires Inv(s) && Dead(s, f)
    ensures Dead(Run(s, events), f) && Run(s, events).chains[f] == s.chains[f]
    decreases |events|
  {
    hide ChainOk, Step;
    if events != [] {
      StepKeepsDead(s, events[0], f);
      StepKeepsInv(s, events[0]);
      DeadFamiliesStayDead(Step(s, events[0]), events[1..], f);
    }
  }

  lemma StepGrowsChain(s: State, e: Event, f: Family)
    requires f in s.chains
    ensures f in Step(s, e).chains && s.chains[f] <= Step(s, e).chains[f]
  {
  }

  /** The request whose turn it is. */
  function Actor(e: Event): Option<Request> {
    match e
    case Tick(_) => None
    case Login(_, _, _) => None
    case Lock(r, _) => Some(r)
    case Proceed(r, _, _, _) => Some(r)
    case WriteGrace(r, _) => Some(r)
    case BeginLogout(r, _) => Some(r)
    case ApplyRevocation(r) => Some(r)
    case Crash(r) => Some(r)
  }

  lemma StepKeepsOthers(s: State, e: Event, r: Request)
    requires r in s.requests && Actor(e) != Some(r)
    ensures r in Step(s, e).requests && Step(s, e).requests[r] == s.requests[r]
  {
    hide DoProceed, DoWriteGrace, DoApply, InPhase;
    match e
    case Proceed(q, access, next, redisUp) => ProceedKeepsOthers(s, q, access, next, redisUp, r);
    case WriteGrace(q, redisUp) => WriteGraceKeepsOthers(s, q, redisUp, r);
    case ApplyRevocation(q) => ApplyKeepsOthers(s, q, r);
    case _ =>
  }

  lemma ProceedKeepsOthers(s: State, q: Request, access: nat, next: Token, redisUp: bool, r: Request)
    requires r in s.requests && r != q
    ensures var t := DoProceed(s, q, access, next, redisUp); r in t.requests && t.requests[r] == s.requests[r]
  {
    hide Revoke, FamilyTokens, GraceOf;
  }

  lemma WriteGraceKeepsOthers(s: State, q: Request, redisUp: bool, r: Request)
    requires r in s.requests && r != q
    ensures var t := DoWriteGrace(s, q, redisUp); r in t.requests && t.requests[r] == s.requests[r]
  {
  }

  lemma ApplyKeepsOthers(s: State, q: Request, r: Request)
    requires r in s.requests && r != q
    ensures var t := DoApply(s, q); r in t.requests && t.requests[r] == s.requests[r]
  {
    hide Revoke, CanApply;
  }

  lemma StepKeepsRevoking(s: State, e: Event, r: Request)
    requires r in s.requests && (s.requests[r].Revoking? || s.requests[r].Finished?)
    ensures r in Step(s, e).requests
    ensures Step(s, e).requests[r] == s.requests[r] || Step(s, e).requests[r].Finished?
  {
    if Actor(e) != Some(r) {
      hide Step;
      StepKeepsOthers(s, e, r);
    }
  }

  lemma {:induction false} RunKeepsRevoking(s: State, events: seq<Event>, r: Request, f: Family)
    requires f in s.chains && r in s.requests && (s.requests[r].Revoking? || s.requests[r].Finished?)
    ensures var t := Run(s, events);
            && r in t.requests && (t.requests[r] == s.requests[r] || t.requests[r].Finished?)
            && f in t.chains && s.chains[f] <= t.chains[f]
    decreases |events|
  {
    hide Step;
    if events != [] {
      StepGrowsChain(s, events[0], f);
      StepKeepsRevoking(s, events[0], r);
      RunKeepsRevoking(Step(s, events[0]), events[1..], r, f);
    }
  }

  lemma {:induction false} RunGrowsRows(s: State, events: seq<Event>)
    ensures RowsGrow(s, Run(s, events))
    decreases |events|
  {
    hide Step;
    if events != [] {
      StepGrowsRows(s, events[0]);
      RunGrowsRows(Step(s, events[0]), events[1..]);
    }
  }

  predicate LastIsRevoked(s: State, f: Family) {
    f in s.chains && s.chains[f] != [] &&
    var last := s.chains[f][|s.chains[f]| - 1]; last in s.rows && s.rows[last].revoked
  }

  predicate LastIsKnown(s: State, f: Family, which: set<Token>) {
    f in s.chains && s.chains[f] != [] && s.chains[f][|s.chains[f]| - 1] in which
  }

  /** Applying a revocation kills exactly the families whose last token it knows about. */
  lemma RevocationKillsIff(s: State, r: Request, f: Family)
    requires Inv(s) && CanApply(s, r) && f in s.chains
    ensures Dead(DoApply(s, r), f) <==> LastIsKnown(s, f, s.requests[r].snapshot) || LastIsRevoked(s, f)
  {
    hide ChainOk;
    ChainOkIsOneChain(s, f);
    var t, c := DoApply(s, r), s.chains[f];
    var last := c[|c| - 1];
    assert t.chains[f] == c && last in c && last in t.rows;
    assert forall x <- c :: x in t.rows && (x != last ==> t.rows[x].revoked);
  }

  lemma NewTokensAreNotKnown(s: State, t: State, f: Family)
    requires f in s.chains && f in t.chains && s.chains[f] < t.chains[f] && RowsGrow(s, t)
    requires OneChain(s, f, s.chains[f]) && OneChain(t, f, t.chains[f])
    ensures t.chains[f][|t.chains[f]| - 1] !in s.rows
  {
    var b, c := s.chains[f], t.chains[f];
    var last := c[|c| - 1];
    forall x <- b ensures x != last {
      var i :| 0 <= i < |b| && b[i] == x;
      assert c[i] == x;
    }
    assert last in FamilyTokens(t, f);
    assert last in s.rows ==> last in FamilyTokens(s, f);
    assert forall x :: x in FamilyTokens(s, f) <==> x in b;
  }

  /** A bulk revocation that knew all of a family when its statement started ends the family
      if and only if no rotation of the family committed before it was applied, or the token
      that rotation made has been revoked in the meantime. */
  lemma RevocationKillsUnlessOvertaken(s: State, r: Request, f: Family, events: seq<Event>)
    requires Inv(s) && f in s.chains && r in s.requests && s.requests[r].Revoking?
    requires forall t <- s.chains[f] :: t in s.requests[r].snapshot
    requires CanApply(Run(s, events), r)
    ensures var before := Run(s, events);
            && f in before.chains
            && (Dead(DoApply(before, r), f) <==> before.chains[f] == s.chains[f] || LastIsRevoked(before, f))
  {
    hide ChainOk, ChainsOk, RequestOk;
    var before := Run(s, events);
    RunKeepsInv(s, events);
    RunGrowsRows(s, events);
    RunKeepsRevoking(s, events, r, f);
    RevocationKillsIff(before, r, f);
    SnapshotIsKnown(s, r);
    ChainIsNotEmpty(s, f);
    if before.chains[f] != s.chains[f] {
      ChainOkIsOneChain(s, f);
      ChainOkIsOneChain(before, f);
      NewTokensAreNotKnown(s, before, f);
    }
  }

  lemma ChainIsNotEmpty(s: State, f: Family)
    requires Inv(s) && f in s.chains
    ensures s.chains[f] != [] && s.chains[f][|s.chains[f]| - 1] in s.chains[f]
  {
    assert ChainOk(s.rows, s.issued, f, s.chains[f]);
  }

  lemma SnapshotIsKnown(s: State, r: Request)
    requires Inv(s) && r in s.requests && s.requests[r].Revoking?
    ensures forall t <- s.requests[r].snapshot :: t in s.rows
  {
  }

  /** Presenting a revoked token outside the grace window starts a revocation that knows the
      whole family of that token. */
  lemma ReuseKnowsTheFamily(s: State, r: Request, access: nat, next: Token, redisUp: bool)
    requires Inv(s) && InPhase(s, r, true, false, false)
    requires s.requests[r].row.revoked && GraceOf(s, s.requests[r].tok, redisUp).None?
    ensures var t, f := DoProceed(s, r, access, next, redisUp), s.requests[r].row.family;
            && f in t.chains && t.requests[r].Revoking?
            && forall x <- t.chains[f] :: x in t.requests[r].snapshot
  {
    hide ChainOk;
    assert RequestOk(s.rows, s.issued, s.grace, s.requests[r]);
    ChainOkIsOneChain(s, s.requests[r].row.family);
  }

  /** Logging out or changing the password starts one that knows every family of the user. */
  lemma LogoutKnowsEveryFamily(s: State, r: Request, user: User, f: Family)
    requires Inv(s) && r !in s.requests && f in s.chains
    requires exists t <- s.chains[f] :: t in s.rows && s.rows[t].user == user
    ensures var t := DoBeginLogout(s, r, user);
            t.requests[r].Revoking? && forall x <- t.chains[f] :: x in t.requests[r].snapshot
  {
    hide ChainOk;
    ChainOkIsOneChain(s, f);
  }

  // ----- the grace window

  /** Every answer a client ever gets for one presented token is the same pair. */
  lemma SamePairForEveryRetry(events: seq<Event>, q: Request, r: Request)
    requires var s := Run(Empty, events);
             && q in s.requests && s.requests[q].Finished?
             && (s.requests[q].reply.Issued? || s.requests[q].reply.Replayed?)
             && r in s.requests && s.requests[r].Finished?
             && (s.requests[r].reply.Issued? || s.requests[r].reply.Replayed?)
             && s.requests[q].presented == s.requests[r].presented
    ensures Run(Empty, events).requests[q].reply.pair == Run(Empty, events).requests[r].reply.pair
  {
    hide ChainsOk, Exclusive, GraceOk, Run;
    EmptyIsOk();
    RunKeepsInv(Empty, events);
    var s := Run(Empty, events);
    assert RequestOk(s.rows, s.issued, s.grace, s.requests[q]);
    assert RequestOk(s.rows, s.issued, s.grace, s.requests[r]);
  }

  /** A retry of a rotated token that finds its grace entry gets the pair of the original
      rotation, whose refresh token is the presented token's unique successor in the same
      family, and changes nothing in either store. */
  lemma GraceReturnsTheSuccessor(s: State, r: Request, access: nat, next: Token)
    requires Inv(s) && InPhase(s, r, true, false, false)
    requires s.requests[r].row.revoked && GraceOf(s, s.requests[r].tok, true).Some?
    ensures var t, tok := DoProceed(s, r, access, next, true), s.requests[r].tok;
            && tok in s.issued && t.requests[r] == Finished(Some(tok), Replayed(s.issued[tok]))
            && t.rows == s.rows && t.grace == s.grace && t.chains == s.chains
            && s.issued[tok].refresh in s.rows
            && s.rows[s.issued[tok].refresh].family == s.rows[tok].family
            && s.rows[s.issued[tok].refresh].user == s.rows[tok].user
  {
    hide ChainOk;
    var tok := s.requests[r].tok;
    assert RequestOk(s.rows, s.issued, s.grace, s.requests[r]);
    var f := s.rows[tok].family;
    ChainOkIsOneChain(s, f);
    var c := s.chains[f];
    var i :| 0 <= i < |c| && c[i] == tok;
    assert tok in s.issued;
    var j := i + 1;
    assert s.issued[c[i]].refresh == c[j] && c[j] in FamilyTokens(s, f);
  }

  // ----- the grace window over whole runs

  /** The k-th step of the run wrote the grace entry of a token. */
  predicate GraceWritten(events: seq<Event>, k: nat, tok: Token) {
    k < |events| && WritesGrace(Run(Empty, events[..k]), events[k], tok)
  }

  predicate WritesGrace(s: State, e: Event, tok: Token) {
    e.WriteGrace? && e.redisUp && InPhase(s, e.r, false, false, true) && s.requests[e.r].tok == tok
  }

  lemma {:induction false} RunExtends(s: State, events: seq<Event>, e: Event)
    ensures Run(s, events + [e]) == Step(Run(s, events), e)
    decreases |events|
  {
    hide Step;
    if events == [] {
      assert [] + [e] == [e] && [e][1..] == [];
    } else {
      assert (events + [e])[1..] == events[1..] + [e];
      RunExtends(Step(s, events[0]), events[1..], e);
    }
  }

  lemma StepWritesGrace(s: State, e: Event, tok: Token)
    requires Inv(s)
    ensures WritesGrace(s, e, tok) ==>
            tok !in s.grace && tok in Step(s, e).grace && Step(s, e).grace[tok].expiresAt == s.clock + GRACE_MS
    ensures !WritesGrace(s, e, tok) ==>
            (tok in Step(s, e).grace <==> tok in s.grace) && (tok in s.grace ==> Step(s, e).grace[tok] == s.grace[tok])
  {
    hide ChainOk, ChainsOk, Exclusive, GraceOk;
    if e.WriteGrace? && InPhase(s, e.r, false, false, true) {
      assert RequestOk(s.rows, s.issued, s.grace, s.requests[e.r]);
    }
  }

  /** What the run wrote is in the cache for good, dated by its write. */
  lemma {:induction false} WrittenIsCached(events: seq<Event>, k: nat, tok: Token)
    requires GraceWritten(events, k, tok)
    ensures tok in Run(Empty, events).grace
            && Run(Empty, events).grace[tok].expiresAt == Run(Empty, events[..k]).clock + GRACE_MS
    decreases |events|
  {
    hide Run, Step, Inv, WritesGrace;
    var n := |events| - 1;
    LastStepOfGrace(events, tok);
    if k < n {
      assert events[..n][..k] == events[..k];
      WrittenIsCached(events[..n], k, tok);
    }
  }

  /** And whatever is in the cache was written by the run. */
  lemma {:induction false} CachedWasWritten(events: seq<Event>, tok: Token) returns (k: nat)
    requires tok in Run(Empty, events).grace
    ensures GraceWritten(events, k, tok)
    decreases |events|
  {
    var n := |events| - 1;
    LastStepOfGrace(events, tok);
    if WritesGrace(Run(Empty, events[..n]), events[n], tok) {
      k := n;
    } else {
      hide Run, WritesGrace;
      k := CachedWasWritten(events[..n], tok);
      assert events[..n][..k] == events[..k];
    }
  }

  lemma LastStepOfGrace(events: seq<Event>, tok: Token)
    requires events != []
    ensures var n := |events| - 1;
            var before, after := Run(Empty, events[..n]), Run(Empty, events);
            if WritesGrace(before, events[n], tok)
            then tok !in before.grace && tok in after.grace && after.grace[tok].expiresAt == before.clock + GRACE_MS
            else && (tok in after.grace <==> tok in before.grace)
                 && (tok in before.grace ==> after.grace[tok] == before.grace[tok])
  {
    hide Run, Step, Inv, WritesGrace;
    var n := |events| - 1;
    assert events == events[..n] + [events[n]];
    RunExtends(Empty, events[..n], events[n]);
    EmptyIsOk();
    RunKeepsInv(Empty, events[..n]);
    StepWritesGrace(Run(Empty, events[..n]), events[n], tok);
  }

  /** The run wrote the grace entry of the token less than sixty seconds ago. */
  ghost predicate InGrace(events: seq<Event>, tok: Token) {
    exists k: nat :: GraceWritten(events, k, tok) && Run(Empty, events).clock < Run(Empty, events[..k]).clock + 60_000
  }

  lemma InGraceIffCached(events: seq<Event>, tok: Token)
    ensures var s := Run(Empty, events); InGrace(events, tok) <==> tok in s.grace && s.clock < s.grace[tok].expiresAt
  {
    hide Run, WritesGrace;
    var s := Run(Empty, events);
    if InGrace(events, tok) {
      var k: nat :| GraceWritten(events, k, tok) && s.clock < Run(Empty, events[..k]).clock + 60_000;
      WrittenIsCached(events, k, tok);
    }
    if tok in s.grace {
      var k := CachedWasWritten(events, tok);
      WrittenIsCached(events, k, tok);
    }
  }

  lemma RetryReply(s: State, r: Request, access: nat, next: Token, redisUp: bool)
    requires GraceOk(s.grace, s.issued) && InPhase(s, r, true, false, false) && s.requests[r].row.revoked
    ensures var tok, reply := s.requests[r].tok, DoProceed(s, r, access, next, redisUp).requests[r];
            if redisUp && tok in s.grace && s.clock < s.grace[tok].expiresAt
            then tok in s.issued && reply == Finished(Some(tok), Replayed(s.issued[tok]))
            else reply.Revoking?
  {
  }

  /** In every run, a retry of a revoked token is answered with the pair of its rotation if and
      only if Redis answers the lookup and the rotation's grace entry was written less than
      sixty seconds ago; a write that failed, a worker that died before it or one that has yet
      to write leave no entry.  Any other retry starts a revocation of the family. */
  lemma ReplayedIffGraceWritten(events: seq<Event>, r: Request, access: nat, next: Token, redisUp: bool)
    ensures var s := Run(Empty, events);
            InPhase(s, r, true, false, false) && s.requests[r].row.revoked ==>
              var tok, reply := s.requests[r].tok, DoProceed(s, r, access, next, redisUp).requests[r];
              if redisUp && InGrace(events, tok)
              then tok in s.issued && reply == Finished(Some(tok), Replayed(s.issued[tok]))
              else reply.Revoking?
  {
    EmptyIsOk();
    RunKeepsInv(Empty, events);
    hide Run, DoProceed, ChainsOk, Exclusive, RequestsOk, InGrace;
    var s := Run(Empty, events);
    if InPhase(s, r, true, false, false) && s.requests[r].row.revoked {
      InGraceIffCached(events, s.requests[r].tok);
      RetryReply(s, r, access, next, redisUp);
    }
  }

  /** A retry that finds no grace entry ends its family, if nobody overtakes the revocation:
      every reuse outside the grace window does, and so does a harmless retry that comes
      before the entry is written. */
  lemma UndisturbedReuseKillsTheFamily(s: State, r: Request, access: nat, next: Token, redisUp: bool)
    requires Inv(s) && InPhase(s, r, true, false, false)
    requires s.requests[r].row.revoked && GraceOf(s, s.requests[r].tok, redisUp).None?
    requires CanApply(DoProceed(s, r, access, next, redisUp), r)
    ensures Dead(DoApply(DoProceed(s, r, access, next, redisUp), r), s.requests[r].row.family)
  {
    hide ChainOk, ChainsOk;
    ReuseKnowsTheFamily(s, r, access, next, redisUp);
    ProceedKeepsInv(s, r, access, next, redisUp);
    RevocationKillsUnlessOvertaken(DoProceed(s, r, access, next, redisUp), r, s.requests[r].row.family, []);
  }

  // ----- who revokes a token

  /** The request's statement starts: a logout of the user, or a reuse in the family. */
  predicate Begins(s: State, e: Event, r: Request) {
    || (e.BeginLogout? && e.r == r && r !in s.requests)
    || (e.Proceed? && e.r == r && r in s.requests && s.requests[r].Locked? && s.requests[r].row.revoked)
  }

  lemma NobodyElseBegins(s: State, e: Event, r: Request)
    requires Actor(e) != Some(r) && r !in s.requests
    ensures r !in Step(s, e).requests
  {
    hide Revoke, FamilyTokens, UserTokens, GraceOf, Free, CanApply;
  }

  lemma RevokingStays(s: State, e: Event, r: Request)
    requires r in Step(s, e).requests && Step(s, e).requests[r].Revoking?
    ensures (r in s.requests && s.requests[r] == Step(s, e).requests[r]) || Begins(s, e, r)
  {
    hide Revoke, FamilyTokens, UserTokens, GraceOf, Free, CanApply;
    if Actor(e) != Some(r) {
      hide Step, Begins;
      if r in s.requests { StepKeepsOthers(s, e, r); } else { NobodyElseBegins(s, e, r); }
    }
  }

  /** Every bulk revocation under way began at some step of the run. */
  lemma {:induction false} RevokingBegan(events: seq<Event>, r: Request) returns (j: nat)
    requires r in Run(Empty, events).requests && Run(Empty, events).requests[r].Revoking?
    ensures j < |events| && Begins(Run(Empty, events[..j]), events[j], r)
    ensures var t := Step(Run(Empty, events[..j]), events[j]);
            r in t.requests && t.requests[r] == Run(Empty, events).requests[r]
    decreases |events|
  {
    hide Step, Begins;
    assert events != [];
    j := |events| - 1;
    assert events == events[..j] + [events[j]];
    RunExtends(Empty, events[..j], events[j]);
    RevokingStays(Run(Empty, events[..j]), events[j], r);
    if !Begins(Run(Empty, events[..j]), events[j], r) {
      var n := j;
      j := RevokingBegan(events[..n], r);
      assert events[..n][..j] == events[..j];
    }
  }

  /** On account of the event, the live token t may be among those that are to go: its user
      logs out or changes the password, or a revoked token of its family is presented. */
  predicate Accounts(s: State, e: Event, r: Request, row: TokenRow) {
    match e
    case BeginLogout(q, user) => q == r && user == row.user
    case Proceed(q, _, _, _) =>
      && q == r && r in s.requests && s.requests[r].Locked?
      && s.requests[r].row.revoked && s.requests[r].row.family == row.family
    case _ => false
  }

  lemma BegunSnapshot(s: State, e: Event, r: Request, t: Token)
    requires Begins(s, e, r)
    requires r in Step(s, e).requests && Step(s, e).requests[r].Revoking? && t in Step(s, e).requests[r].snapshot
    ensures t in s.rows && Accounts(s, e, r, s.rows[t])
  {
  }

  lemma StepRevokes(s: State, e: Event, t: Token)
    requires t in s.rows && !s.rows[t].revoked
    ensures t in Step(s, e).rows && Step(s, e).rows[t].revoked ==>
              && (e.Proceed? || e.ApplyRevocation?)
              && (e.Proceed? ==> e.r in s.requests && s.requests[e.r].Locked? && s.requests[e.r].tok == t)
              && (e.ApplyRevocation? ==>
                    e.r in s.requests && s.requests[e.r].Revoking? && t in s.requests[e.r].snapshot)
  {
    hide FamilyTokens, UserTokens, GraceOf, Free;
  }

  lemma {:induction false} RunSplits(s: State, events: seq<Event>, j: nat)
    requires j <= |events|
    ensures Run(s, events) == Run(Run(s, events[..j]), events[j..])
    decreases |events|
  {
    hide Step;
    if j > 0 {
      assert events[..j][1..] == events[1..][..j - 1] && events[1..][j - 1..] == events[j..];
      RunSplits(Step(s, events[0]), events[1..], j - 1);
    } else {
      assert events[..0] == [] && events[0..] == events;
    }
  }

  /** In every run, a step that turns a live token revoked is the rotation or the expiry of that
      very token, or applies a revocation that began when its own user logged out or changed the
      password, or when a revoked token of its own family was presented.  Nobody else's token
      ever goes. */
  lemma NobodyElseIsRevoked(events: seq<Event>, k: nat, t: Token)
    requires k < |events|
    ensures var s := Run(Empty, events[..k]);
            t in s.rows && !s.rows[t].revoked && t in Step(s, events[k]).rows && Step(s, events[k]).rows[t].revoked ==>
              match events[k]
              case Proceed(r, _, _, _) => r in s.requests && s.requests[r].Locked? && s.requests[r].tok == t
              case ApplyRevocation(r) =>
                exists j: nat :: j < k && Accounts(Run(Empty, events[..j]), events[j], r, s.rows[t])
              case _ => false
  {
    var s := Run(Empty, events[..k]);
    if t in s.rows && !s.rows[t].revoked && t in Step(s, events[k]).rows && Step(s, events[k]).rows[t].revoked {
      StepRevokes(s, events[k], t);
      if events[k].ApplyRevocation? {
        hide Run, Step, Inv, Begins, Accounts;
        var j := RevokingBegan(events[..k], events[k].r);
        assert events[..k][..j] == events[..j];
        var b := Run(Empty, events[..j]);
        BegunSnapshot(b, events[j], events[k].r, t);
        RunSplits(Empty, events[..k], j);
        RunGrowsRows(b, events[..k][j..]);
        SameAccount(b, events[j], events[k].r, b.rows[t], s.rows[t]);
      }
    }
  }

  lemma SameAccount(s: State, e: Event, r: Request, row: TokenRow, later: TokenRow)
    requires Accounts(s, e, r, row) && later.user == row.user && later.family == row.family
    ensures Accounts(s, e, r, later)
  {
  }

  // ----- a worked run: the revocation that is overtaken

  const Born := TokenRow(1, 1, false, LIFETIME_MS)
  const Used := TokenRow(1, 1, true, LIFETIME_MS)
  const Owner1 := Pair(77, 11)
  const Owner2 := Pair(79, 12)

  /** Token 10 has been rotated to 11; request 2 is about to rotate 11, and request 3
      presents 10 once more. */
  const Theft0 := State(map[10 := Used, 11 := Born], map[], 0, map[1 := Rotated(10, Owner1)], map[1 := [10, 11]],
                        map[10 := Owner1])
  const Theft1 := Theft0.(requests := map[1 := Rotated(10, Owner1), 2 := Locked(11, Born), 3 := Locked(10, Used)])
  const Theft2 := Theft0.(requests := map[1 := Rotated(10, Owner1), 2 := Locked(11, Born),
                                          3 := Revoking(Some(10), {10, 11})])
  const Theft3 := State(map[10 := Used, 11 := Used, 12 := Born], map[], 0,
                        map[1 := Rotated(10, Owner1), 2 := Rotated(11, Owner2), 3 := Revoking(Some(10), {10, 11})],
                        map[1 := [10, 11, 12]], map[10 := Owner1, 11 := Owner2])
  const Theft4 := Theft3.(requests := Theft3.requests[3 := Finished(Some(10), ReuseDetected)])

  lemma TheftBegins()
    ensures Run(Empty, [Login(1, 1, 10), Lock(1, 10), Proceed(1, 77, 11, true)]) == Theft0
  {
    var s1 := Step(Empty, Login(1, 1, 10));
    assert s1 == State(map[10 := Born], map[], 0, map[], map[1 := [10]], map[]);
    var s2 := Step(s1, Lock(1, 10));
    assert s2 == s1.(requests := map[1 := Locked(10, Born)]);
    assert Revoke(s2.rows, {10})[11 := Born] == Theft0.rows;
    assert [10] + [11] == [10, 11];
    var s3 := Step(s2, Proceed(1, 77, 11, true));
    assert s3 == Theft0;
  }

  lemma TheftLocks()
    ensures Step(Step(Theft0, Lock(2, 11)), Lock(3, 10)) == Theft1
  {
    assert Step(Theft0, Lock(2, 11)) == Theft0.(requests := map[1 := Rotated(10, Owner1), 2 := Locked(11, Born)]);
  }

  lemma TheftDetected()
    ensures Step(Theft1, Proceed(3, 78, 99, true)) == Theft2
  {
    assert FamilyTokens(Theft1, 1) == {10, 11};
  }

  lemma TheftOvertaken()
    ensures Step(Theft2, Proceed(2, 79, 12, true)) == Theft3
  {
    assert Revoke(Theft2.rows, {11})[12 := Born] == Theft3.rows;
    assert [10, 11] + [12] == [10, 11, 12];
  }

  lemma TheftRevocationApplied()
    ensures Step(Theft3, ApplyRevocation(3)) == Theft4
  {
    assert Revoke(Theft3.rows, {10, 11}) == Theft3.rows;
  }

  /** A thief replays token 10 while its owner rotates 11: the revocation starts before the
      owner's commit and is applied after it; the thief is told "all sessions revoked", yet
      token 12 is live. */
  lemma OvertakenRevocationSparesTheNewToken()
    ensures Run(Empty, [Login(1, 1, 10), Lock(1, 10), Proceed(1, 77, 11, true)]) == Theft0
    ensures Step(Step(Step(Step(Step(Theft0, Lock(2, 11)), Lock(3, 10)), Proceed(3, 78, 99, true)),
                           Proceed(2, 79, 12, true)), ApplyRevocation(3)) == Theft4
    ensures Theft4.requests[3].reply == ReuseDetected && !Theft4.rows[12].revoked && !Dead(Theft4, 1)
  {
    hide Step, Run;
    TheftBegins();
    TheftLocks();
    TheftDetected();
    TheftOvertaken();
    TheftRevocationApplied();
    assert 12 in Theft4.chains[1];
  }
}
