/** Session tokens, the rows that can revoke them, and who is let in over a whole run. */
module Sessions {
  import opened Prelude
  import opened Zones

  type SessionId = string
  type TenantId = string

  const SESSION_TTL := 24 * HOUR
  const TOUCH_INTERVAL := 5 * MINUTE
  const CHALLENGE_AUDIENCE := "2fa_challenge"

  // ---------------------------------------------------------------- tokens

  /** A JWT NumericDate: whole seconds, rounded down (RFC 7519 section 2). */
  function NumericDate(t: int): (d: int)
    ensures d <= t < d + SECOND && d % SECOND == 0
  {
    t - t % SECOND
  }

  /** The claims of a token; `genuine` says it is HMAC-signed with this installation's secret. */
  datatype Token = Token(
    genuine: bool,
    subject: Option<UserId>,
    issuedAt: Option<int>,
    expiresAt: Option<int>,
    audience: seq<string>,
    tenant: TenantId,
    sid: SessionId)

  datatype TokenError = InvalidToken | MissingSessionID

  /** The claims a verified session token hands on. */
  datatype SessionClaims = SessionClaims(user: UserId, issuedAt: int, tenant: TenantId, sid: SessionId)

  function IssueSession(user: UserId, tenant: TenantId, sid: SessionId, now: int, ttl: int): Result<Token, TokenError> {
    if sid == "" then Err(MissingSessionID)
    else Ok(Token(true, Some(user), Some(NumericDate(now)), Some(NumericDate(now + ttl)), [], tenant, sid))
  }

  function IssueTwoFactorChallenge(user: UserId, now: int, ttl: int): Token {
    Token(true, Some(user), Some(NumericDate(now)), Some(NumericDate(now + ttl)), [CHALLENGE_AUDIENCE], "", "")
  }

  function VerifySessionClaims(token: Token, now: int): Result<SessionClaims, TokenError> {
    if !token.genuine || (token.expiresAt.Some? && now >= token.expiresAt.value) then Err(InvalidToken)
    else if token.subject.None? || token.issuedAt.None? then Err(InvalidToken)
    else if token.audience != [] then Err(InvalidToken)
    else if token.sid == "" then Err(InvalidToken)
    else Ok(SessionClaims(token.subject.value, token.issuedAt.value, token.tenant, token.sid))
  }

  /**
   An issued token verifies, with the claims it was issued for, until its whole
   second of expiry; a token without a sid is never issued; and a 2FA challenge
   never verifies as a session.
   */
  lemma IssuedTokenVerifies(user: UserId, tenant: TenantId, sid: SessionId, at: int, now: int)
    ensures var issued := IssueSession(user, tenant, sid, at, SESSION_TTL);
            && (issued.Ok? <==> sid != "")
            && (issued.Ok? ==>
                  (VerifySessionClaims(issued.value, now) == Ok(SessionClaims(user, NumericDate(at), tenant, sid))
                   <==> now < NumericDate(at) + 24 * HOUR))
            && (issued.Ok? && now >= NumericDate(at) + 24 * HOUR ==> VerifySessionClaims(issued.value, now).Err?)
    ensures VerifySessionClaims(IssueTwoFactorChallenge(user, at, SESSION_TTL), now).Err?
  {
  }

  // ---------------------------------------------------------------- rows

  datatype Session = Session(user: UserId, lastSeenAt: Option<int>, revokedAt: Option<int>)

  /** users.sessions_revoked_at by user, and the sessions table. */
  datatype Store = Store(revokedAt: map<UserId, Option<int>>, sessions: map<SessionId, Session>)

  /** RequireAuth's decision, in the order it is taken. */
  predicate Accepts(store: Store, token: Token, now: int) {
    var claims := VerifySessionClaims(token, now);
    && claims.Ok?
    && claims.value.user in store.revokedAt
    && !(store.revokedAt[claims.value.user].Some? && claims.value.issuedAt < store.revokedAt[claims.value.user].value)
    && claims.value.sid in store.sessions
    && store.sessions[claims.value.sid].revokedAt.None?
  }

  /**
   Who gets in: exactly the bearers of a genuine, unexpired session token, not a
   challenge, of a user that exists and was not revoked after the token's second,
   for a session row that exists and was not revoked. A forged or expired token
   gets in nowhere.
   */
  lemma AcceptsExactly(store: Store, token: Token, now: int)
    ensures Accepts(store, token, now) <==>
      && token.genuine && (token.expiresAt == None || now < token.expiresAt.value)
      && token.audience == [] && |token.sid| > 0 && token.subject != None && token.issuedAt != None
      && (exists user :: token.subject == Some(user) && user in store.revokedAt
            && (store.revokedAt[user] == None || store.revokedAt[user].value <= token.issuedAt.value))
      && (exists session :: token.sid in store.sessions && store.sessions[token.sid] == session
            && session.revokedAt == None)
  {
  }

  function RevokeRow(s: Session, now: int): Session {
    if s.revokedAt.None? then s.(revokedAt := Some(now)) else s
  }

  /**
   What happens to the rows over a run, in the order the changes are committed.
   Tokens may be issued for any sid at any moment in between. RevokeSessions
   stamps the row with now(), which is the start of the transaction it runs in,
   opened `openFor` before its change is committed. RevokeAllForUser touches the
   rows its statement could see, which a row created before its commit may not be.
   */
  datatype Event =
    | Pass(duration: nat)
    | CreateRow(user: UserId, sid: SessionId)
    | RevokeOne(sid: SessionId)
    | RevokeAllForUser(user: UserId, visible: set<SessionId>)
    | RevokeSessions(user: UserId, openFor: nat)
    | Touch(sid: SessionId)
    | DeleteUser(user: UserId)

  /** The rows, the time, and every sid handed out so far: fresh ones are random and never repeat. */
  datatype World = World(now: int, store: Store, used: set<SessionId>)

  function RevokedAll(sessions: map<SessionId, Session>, user: UserId, visible: set<SessionId>, now: int)
    : map<SessionId, Session>
  {
    map sid | sid in sessions ::
      if sessions[sid].user == user && sid in visible then RevokeRow(sessions[sid], now) else sessions[sid]
  }

  function Next(w: World, e: Event): World {
    var store := w.store;
    match e
    case Pass(duration) => w.(now := w.now + duration)
    case CreateRow(user, sid) =>
      if sid in w.used || user !in store.revokedAt then w
      else w.(store := store.(sessions := store.sessions[sid := Session(user, None, None)]), used := w.used + {sid})
    case RevokeOne(sid) =>
      if sid in store.sessions
      then w.(store := store.(sessions := store.sessions[sid := RevokeRow(store.sessions[sid], w.now)])) else w
    case RevokeAllForUser(user, visible) =>
      w.(store := store.(sessions := RevokedAll(store.sessions, user, visible, w.now)))
    case RevokeSessions(user, openFor) =>
      if user in store.revokedAt
      then w.(store := store.(revokedAt := store.revokedAt[user := Some(w.now - openFor)])) else w
    case Touch(sid) =>
      if sid in store.sessions
      then
        var seen := store.sessions[sid].(lastSeenAt := Some(w.now));
        w.(store := store.(sessions := store.sessions[sid := seen]))
      else w
    case DeleteUser(user) =>
      w.(store := Store(store.revokedAt - {user},
                        map sid | sid in store.sessions && store.sessions[sid].user != user :: store.sessions[sid]))
  }

  function Run(w: World, events: seq<Event>): World
    decreases |events|
  {
    if events == [] then w else Run(Next(w, events[0]), events[1..])
  }

  /** The row of `sid` was handed out and is revoked, or deleted with its user. */
  predicate Ended(w: World, sid: SessionId) {
    sid in w.used && (sid in w.store.sessions ==> w.store.sessions[sid].revokedAt.Some?)
  }

  /** Every token ever issued to the user before `instant` is out: deleted, or revoked as of `instant` or later. */
  predicate CutOff(store: Store, user: UserId, instant: int) {
    user !in store.revokedAt || (store.revokedAt[user].Some? && store.revokedAt[user].value >= instant)
  }

  lemma NextKeepsEnded(w: World, e: Event, sid: SessionId)
    requires Ended(w, sid)
    ensures Ended(Next(w, e), sid)
  {
  }

  /** What ends a live session: revoking its row, a sweep over its user's rows that sees it, or deleting the user. */
  lemma SessionEnds(w: World, sid: SessionId)
    requires sid in w.used && sid in w.store.sessions && !Ended(w, sid)
    ensures Ended(Next(w, RevokeOne(sid)), sid)
    ensures forall user, visible :: Ended(Next(w, RevokeAllForUser(user, visible)), sid)
              <==> user == w.store.sessions[sid].user && sid in visible
    ensures forall user :: Ended(Next(w, DeleteUser(user)), sid) <==> user == w.store.sessions[sid].user
  {
  }

  /**
   A revoked session stays out: after its row is revoked or deleted, no token
   carrying its sid is accepted at any later point of any run, whenever that
   token was issued, tenant switches included.
   */
  lemma {:induction false} RevokedSessionNeverAccepted(w: World, events: seq<Event>, sid: SessionId, token: Token)
    requires Ended(w, sid) && token.sid == sid
    ensures !Accepts(Run(w, events).store, token, Run(w, events).now)
    decreases |events|
  {
    if events != [] {
      NextKeepsEnded(w, events[0], sid);
      RevokedSessionNeverAccepted(Next(w, events[0]), events[1..], sid, token);
    }
  }

  /** The event writes a revocation stamp earlier than `instant` over the user's. */
  predicate Undercuts(w: World, e: Event, user: UserId, instant: int) {
    e.RevokeSessions? && e.user == user && user in w.store.revokedAt && w.now - e.openFor < instant
  }

  ghost predicate NeverUndercut(w: World, events: seq<Event>, user: UserId, instant: int)
    decreases |events|
  {
    if events == [] then true
    else !Undercuts(w, events[0], user, instant) && NeverUndercut(Next(w, events[0]), events[1..], user, instant)
  }

  /** `CutOff` at every point of the run. */
  ghost predicate AlwaysCutOff(w: World, events: seq<Event>, user: UserId, instant: int)
    decreases |events|
  {
    && CutOff(w.store, user, instant)
    && (events == [] || AlwaysCutOff(Next(w, events[0]), events[1..], user, instant))
  }

  /** The token is refused at every point of the run. */
  ghost predicate AlwaysRefused(w: World, events: seq<Event>, token: Token)
    decreases |events|
  {
    && !Accepts(w.store, token, w.now)
    && (events == [] || AlwaysRefused(Next(w, events[0]), events[1..], token))
  }

  /**
   A cut-off lasts through a run exactly as long as no later revocation of the
   same user carries an earlier stamp: the UPDATE overwrites what is there, and
   its stamp is the start of a transaction that may have been open for long.
   */
  lemma {:induction false} CutOffLastsExactly(w: World, events: seq<Event>, user: UserId, instant: int)
    requires CutOff(w.store, user, instant)
    ensures AlwaysCutOff(w, events, user, instant) <==> NeverUndercut(w, events, user, instant)
    decreases |events|
  {
    if events != [] {
      var next := Next(w, events[0]);
      assert CutOff(next.store, user, instant) <==> !Undercuts(w, events[0], user, instant);
      if CutOff(next.store, user, instant) {
        CutOffLastsExactly(next, events[1..], user, instant);
      }
    }
  }

  lemma {:induction false} CutOffRefuses(w: World, events: seq<Event>, token: Token)
    requires token.subject.Some? && token.issuedAt.Some?
    requires AlwaysCutOff(w, events, token.subject.value, token.issuedAt.value + 1)
    ensures AlwaysRefused(w, events, token)
    decreases |events|
  {
    if events != [] {
      CutOffRefuses(Next(w, events[0]), events[1..], token);
    }
  }

  /**
   Revoking everything cuts off the past: a token issued before its user's
   revoke-all instant is refused at every later point of any run in which no
   revocation stamped earlier than the token's second overwrites that one,
   although the token's iat is only known to the second.
   */
  lemma EarlierTokenNeverAccepted(
    w: World, events: seq<Event>, user: UserId, instant: int, tenant: TenantId, sid: SessionId, at: int)
    requires CutOff(w.store, user, instant) && at < instant && sid != ""
    requires NeverUndercut(w, events, user, NumericDate(at) + 1)
    ensures AlwaysRefused(w, events, IssueSession(user, tenant, sid, at, SESSION_TTL).value)
  {
    CutOffLastsExactly(w, events, user, NumericDate(at) + 1);
    CutOffRefuses(w, events, IssueSession(user, tenant, sid, at, SESSION_TTL).value);
  }

  /** What RevokeSessions cuts off: the tokens issued before its transaction began, and no others. */
  lemma RevokeSessionsCutsOff(w: World, user: UserId, openFor: nat, instant: int)
    requires user in w.store.revokedAt
    ensures CutOff(Next(w, RevokeSessions(user, openFor)).store, user, instant) <==> instant <= w.now - openFor
  {
  }

  /** Apart from revocation, everything else RequireAuth asks of an issued token. */
  predicate OtherwiseAcceptable(store: Store, user: UserId, sid: SessionId, at: int, now: int) {
    && sid != "" && now < NumericDate(at) + SESSION_TTL
    && user in store.revokedAt && sid in store.sessions && store.sessions[sid].revokedAt.None?
  }

  /**
   What rounding costs: an otherwise acceptable token is refused exactly when
   the second it was issued in began before the revoke-all instant. So a token
   issued after a revocation is refused only within that very second.
   */
  lemma RevocationIsToTheSecond(store: Store, user: UserId, tenant: TenantId, sid: SessionId, at: int, now: int)
    requires OtherwiseAcceptable(store, user, sid, at, now)
    ensures var token := IssueSession(user, tenant, sid, at, SESSION_TTL).value;
            && (Accepts(store, token, now) <==>
                  store.revokedAt[user].None? || store.revokedAt[user].value <= NumericDate(at))
            && (store.revokedAt[user].Some? && store.revokedAt[user].value <= at && !Accepts(store, token, now) ==>
                  NumericDate(at) < store.revokedAt[user].value <= at < NumericDate(at) + SECOND)
  {
    var token := IssueSession(user, tenant, sid, at, SESSION_TTL).value;
    assert VerifySessionClaims(token, now) == Ok(SessionClaims(user, NumericDate(at), tenant, sid)) by {
      IssuedTokenVerifies(user, tenant, sid, at, now);
    }
    var revoked := store.revokedAt[user];
    assert Accepts(store, token, now) <==> !(revoked.Some? && NumericDate(at) < revoked.value);
  }

  ghost predicate OtherwiseAcceptableThroughout(w: World, events: seq<Event>, user: UserId, sid: SessionId, at: int)
    decreases |events|
  {
    && OtherwiseAcceptable(w.store, user, sid, at, w.now)
    && (events == [] || OtherwiseAcceptableThroughout(Next(w, events[0]), events[1..], user, sid, at))
  }

  /**
   And exactly that: a refused token, as long as nothing else stands in its way,
   stays refused throughout a run if and only if no revocation in the run is
   stamped at or before the second the token was issued in.
   */
  lemma {:induction false} RefusedForGoodExactly(
    w: World, events: seq<Event>, user: UserId, tenant: TenantId, sid: SessionId, at: int)
    requires CutOff(w.store, user, NumericDate(at) + 1)
    requires OtherwiseAcceptableThroughout(w, events, user, sid, at)
    ensures AlwaysRefused(w, events, IssueSession(user, tenant, sid, at, SESSION_TTL).value)
      <==> NeverUndercut(w, events, user, NumericDate(at) + 1)
    decreases |events|
  {
    RevocationIsToTheSecond(w.store, user, tenant, sid, at, w.now);
    if events != [] {
      var next := Next(w, events[0]);
      assert CutOff(next.store, user, NumericDate(at) + 1) <==> !Undercuts(w, events[0], user, NumericDate(at) + 1);
      if CutOff(next.store, user, NumericDate(at) + 1) {
        RefusedForGoodExactly(next, events[1..], user, tenant, sid, at);
      } else {
        RevocationIsToTheSecond(next.store, user, tenant, sid, at, next.now);
      }
    }
  }

  /**
   Such a revocation is possible. A token issued while a password change is
   already open is cut off by a password reset, and let in again when the
   password change commits and writes its own, earlier, start over the reset's.
   */
  lemma OpenTransactionReadmits(w: World, user: UserId, tenant: TenantId, sid: SessionId, at: int, openFor: nat)
    requires OtherwiseAcceptable(w.store, user, sid, at, w.now)
    requires w.now - openFor <= NumericDate(at) && at < w.now
    ensures var token := IssueSession(user, tenant, sid, at, SESSION_TTL).value;
            var reset := Next(w, RevokeSessions(user, 0));
            var changed := Next(reset, RevokeSessions(user, openFor));
            && CutOff(reset.store, user, w.now) && !Accepts(reset.store, token, reset.now)
            && Accepts(changed.store, token, changed.now)
  {
    var reset := Next(w, RevokeSessions(user, 0));
    RevocationIsToTheSecond(reset.store, user, tenant, sid, at, w.now);
    RevocationIsToTheSecond(Next(reset, RevokeSessions(user, openFor)).store, user, tenant, sid, at, w.now);
  }

  /**
   A token issued in the second of a revocation, though after it, is refused for
   good, not once: only a token issued in a later second gets in.
   */
  lemma SameSecondTokenStaysRefused(
    w: World, events: seq<Event>, user: UserId, tenant: TenantId, sid: SessionId, at: int)
    requires user in w.store.revokedAt && w.store.revokedAt[user].Some? && sid != ""
    requires NumericDate(at) < w.store.revokedAt[user].value <= at
    requires NeverUndercut(w, events, user, NumericDate(at) + 1)
    ensures AlwaysRefused(w, events, IssueSession(user, tenant, sid, at, SESSION_TTL).value)
  {
    CutOffLastsExactly(w, events, user, NumericDate(at) + 1);
    CutOffRefuses(w, events, IssueSession(user, tenant, sid, at, SESSION_TTL).value);
  }

  /**
   The instants compared come from two clocks, the issuing process's and the
   database's. If the process reads `ahead` later than the database does, every
   token issued before a revocation at `revoked` is still refused exactly when
   that lead does not carry the last such reading into a second that begins at
   `revoked` or later.
   */
  lemma ClockLeadTolerated(revoked: int, ahead: int)
    ensures (forall reading :: reading < revoked + ahead ==> NumericDate(reading) < revoked)
      <==> NumericDate(revoked + ahead - 1) < revoked
    ensures ahead <= 0 ==> NumericDate(revoked + ahead - 1) < revoked
  {
    forall reading | reading < revoked + ahead ensures NumericDate(reading) <= NumericDate(revoked + ahead - 1) {
      RoundingKeepsOrder(reading, revoked + ahead - 1);
    }
  }

  lemma RoundingKeepsOrder(a: int, b: int)
    requires a <= b
    ensures NumericDate(a) <= NumericDate(b)
  {
  }

  // ---------------------------------------------------------------- exactly how long a session lasts

  function Elapsed(events: seq<Event>): nat {
    if events == [] then 0 else (if events[0].Pass? then events[0].duration else 0) + Elapsed(events[1..])
  }

  /** The user's revocation stamp after these events, the first of them at `now`. */
  function LastStamp(events: seq<Event>, now: int, user: UserId, stamp: Option<int>): Option<int> {
    if events == [] then stamp
    else
      match events[0]
      case Pass(duration) => LastStamp(events[1..], now + duration, user, stamp)
      case RevokeSessions(u, openFor) =>
        LastStamp(events[1..], now, user, if u == user then Some(now - openFor) else stamp)
      case _ => LastStamp(events[1..], now, user, stamp)
  }

  /** When the session was last seen, after these events. */
  function LastTouch(events: seq<Event>, now: int, sid: SessionId, seen: Option<int>): Option<int> {
    if events == [] then seen
    else
      match events[0]
      case Pass(duration) => LastTouch(events[1..], now + duration, sid, seen)
      case Touch(s) => LastTouch(events[1..], now, sid, if s == sid then Some(now) else seen)
      case _ => LastTouch(events[1..], now, sid, seen)
  }

  predicate Spares(e: Event, user: UserId, sid: SessionId) {
    match e
    case RevokeOne(s) => s != sid
    case RevokeAllForUser(u, visible) => !(u == user && sid in visible)
    case DeleteUser(u) => u != user
    case _ => true
  }

  predicate Live(w: World, user: UserId, sid: SessionId) {
    user in w.store.revokedAt && sid in w.store.sessions && w.store.sessions[sid].revokedAt.None?
  }

  /** The sid is the user's, if its row is still there. */
  predicate Belongs(w: World, user: UserId, sid: SessionId) {
    sid in w.used && (sid in w.store.sessions ==> w.store.sessions[sid].user == user)
  }

  lemma NextKeepsLive(w: World, e: Event, user: UserId, sid: SessionId)
    requires Belongs(w, user, sid)
    ensures Belongs(Next(w, e), user, sid)
    ensures Live(Next(w, e), user, sid) <==> Live(w, user, sid) && Spares(e, user, sid)
  {
  }

  lemma {:induction false} RunKeepsLive(w: World, events: seq<Event>, user: UserId, sid: SessionId)
    requires Belongs(w, user, sid)
    ensures Live(Run(w, events), user, sid)
      <==> Live(w, user, sid) && forall k :: 0 <= k < |events| ==> Spares(events[k], user, sid)
    decreases |events|
  {
    if events != [] {
      NextKeepsLive(w, events[0], user, sid);
      RunKeepsLive(Next(w, events[0]), events[1..], user, sid);
      assert events == [events[0]] + events[1..];
      assert (forall k :: 0 <= k < |events| ==> Spares(events[k], user, sid))
        <==> Spares(events[0], user, sid) && forall k :: 0 <= k < |events[1..]| ==> Spares(events[1..][k], user, sid)
      by {
        AllOfHeadAndTail(events, user, sid);
      }
    }
  }

  lemma AllOfHeadAndTail(events: seq<Event>, user: UserId, sid: SessionId)
    requires events != []
    ensures (forall k :: 0 <= k < |events| ==> Spares(events[k], user, sid))
      <==> Spares(events[0], user, sid) && forall k :: 0 <= k < |events[1..]| ==> Spares(events[1..][k], user, sid)
  {
    var rest := events[1..];
    assert forall k :: 0 < k < |events| ==> events[k] == rest[k - 1];
    assert forall k :: 0 <= k < |rest| ==> rest[k] == events[k + 1];
  }

  lemma {:induction false} RunColumns(w: World, events: seq<Event>, user: UserId, sid: SessionId)
    requires sid in w.used
    ensures Run(w, events).now == w.now + Elapsed(events)
    ensures user in Run(w, events).store.revokedAt ==>
      && user in w.store.revokedAt
      && Run(w, events).store.revokedAt[user] == LastStamp(events, w.now, user, w.store.revokedAt[user])
    ensures sid in Run(w, events).store.sessions ==>
      && sid in w.store.sessions
      && Run(w, events).store.sessions[sid].lastSeenAt
           == LastTouch(events, w.now, sid, w.store.sessions[sid].lastSeenAt)
    decreases |events|
  {
    if events != [] {
      RunColumns(Next(w, events[0]), events[1..], user, sid);
    }
  }

  /**
   How long a new session lasts. After any run from its creation, its token is
   accepted if and only if its day is not over, nothing in the run revoked its
   row or deleted its user, and the last revocation of all the user's sessions,
   if any, is not stamped later than the second the token was issued in. The row
   of an accepted session says when it was last seen.
   */
  lemma SessionLastsExactly(w: World, events: seq<Event>, user: UserId, tenant: TenantId, sid: SessionId)
    requires sid != "" && sid !in w.used && user in w.store.revokedAt
    ensures var token := IssueSession(user, tenant, sid, w.now, SESSION_TTL).value;
            var end := Run(Next(w, CreateRow(user, sid)), events);
            var stamp := LastStamp(events, w.now, user, w.store.revokedAt[user]);
            && (Accepts(end.store, token, end.now) <==>
                  && w.now + Elapsed(events) < NumericDate(w.now) + 24 * HOUR
                  && (forall k :: 0 <= k < |events| ==> Spares(events[k], user, sid))
                  && (stamp.Some? ==> stamp.value <= NumericDate(w.now)))
            && (Accepts(end.store, token, end.now) ==>
                  end.store.sessions[sid].lastSeenAt == LastTouch(events, w.now, sid, None))
  {
    var created := Next(w, CreateRow(user, sid));
    assert created.now == w.now && Live(created, user, sid) && Belongs(created, user, sid);
    RunKeepsLive(created, events, user, sid);
    RunColumns(created, events, user, sid);
    var end := Run(created, events);
    if Live(end, user, sid) && end.now < NumericDate(w.now) + SESSION_TTL {
      RevocationIsToTheSecond(end.store, user, tenant, sid, w.now, end.now);
    } else {
      IssuedTokenVerifies(user, tenant, sid, w.now, end.now);
    }
  }

  // ---------------------------------------------------------------- handlers

  /** The middleware and the handlers that create, switch and revoke sessions. */
  class AuthHandler {
    var store: Store

    constructor (store: Store)
      ensures this.store == store
    {
      this.store := store;
    }

    /** Lets a request through exactly when `Accepts` holds; the throttled touch changes nothing else. */
    method RequireAuth(token: Option<Token>, now: int, touches: bool) returns (r: Result<SessionClaims, ()>)
      modifies this
      ensures r.Ok? <==> token.Some? && Accepts(old(store), token.value, now)
      ensures r.Ok? ==> VerifySessionClaims(token.value, now) == Ok(r.value)
      ensures r.Err? ==> store == old(store)
      ensures store.revokedAt == old(store).revokedAt && store.sessions.Keys == old(store).sessions.Keys
      ensures forall sid :: sid in store.sessions ==>
        && store.sessions[sid].(lastSeenAt := None) == old(store).sessions[sid].(lastSeenAt := None)
        && (store.sessions[sid].lastSeenAt != old(store).sessions[sid].lastSeenAt ==>
              r.Ok? && sid == r.value.sid && store.sessions[sid].lastSeenAt == Some(now)
              && (old(store).sessions[sid].lastSeenAt.Some? ==>
                    old(store).sessions[sid].lastSeenAt.value < now - 5 * MINUTE))
      ensures r.Ok? && touches ==>
        var seen := store.sessions[r.value.sid].lastSeenAt;
        seen.Some? && seen.value >= now - 5 * MINUTE
    {
      if token.None? { return Err(()); }
      var claims := VerifySessionClaims(token.value, now);
      if claims.Err? { return Err(()); }
      var c := claims.value;
      if c.user !in store.revokedAt { return Err(()); }
      var revoked := store.revokedAt[c.user];
      if revoked.Some? && c.issuedAt < revoked.value { return Err(()); }
      if c.sid !in store.sessions { return Err(()); }
      var row := store.sessions[c.sid];
      if row.revokedAt.Some? { return Err(()); }
      // A failing touch is only logged.
      if touches && (row.lastSeenAt.None? || row.lastSeenAt.value < now - TOUCH_INTERVAL) {
        store := store.(sessions := store.sessions[c.sid := row.(lastSeenAt := Some(now))]);
      }
      return Ok(c);
    }

    /**
     Logging in: the memberships are read and the row is created, or nothing
     changes. A user deleted meanwhile has no row to create; a member of no
     tenant gets none; otherwise there is a fresh row and a token that names it.
     */
    method IssueSessionForUser(user: UserId, memberships: Option<seq<TenantId>>, creates: bool,
                               sid: SessionId, now: int)
      returns (r: Result<Token, ()>)
      requires sid !in store.sessions && sid != ""
      modifies this
      ensures r.Ok? <==> memberships.Some? && memberships.value != [] && creates && user in old(store).revokedAt
      ensures r.Err? ==> store == old(store)
      ensures r.Ok? ==>
        && store == old(store).(sessions := old(store).sessions[sid := Session(user, None, None)])
        && r.value.sid == sid && r.value.tenant == (if |memberships.value| == 1 then memberships.value[0] else "")
        && (Accepts(store, r.value, now) <==>
              store.revokedAt[user].None? || store.revokedAt[user].value <= NumericDate(now))
    {
      if memberships.None? || |memberships.value| == 0 { return Err(()); }
      var tenant := "";
      if |memberships.value| == 1 { tenant := memberships.value[0]; }
      // The row refers to its user, so the INSERT fails once that is gone.
      if !creates || user !in store.revokedAt { return Err(()); }
      store := store.(sessions := store.sessions[sid := Session(user, None, None)]);
      var token := IssueSession(user, tenant, sid, now, SESSION_TTL);
      RevocationIsToTheSecond(store, user, tenant, sid, now, now);
      return Ok(token.value);
    }

    /** Switching tenants keeps the row: the new token carries the caller's sid, and no row is written. */
    method SwitchTenant(caller: SessionClaims, tenant: TenantId, memberships: seq<TenantId>, now: int)
      returns (r: Result<Token, ()>)
      requires caller.sid != ""
      ensures r.Ok? <==> tenant != "" && tenant in memberships
      ensures r.Ok? ==>
        VerifySessionClaims(r.value, now) == Ok(SessionClaims(caller.user, NumericDate(now), tenant, caller.sid))
    {
      if tenant == "" { return Err(()); }
      var hasMembership := false;
      for i := 0 to |memberships|
        invariant hasMembership <==> tenant in memberships[..i]
      {
        if memberships[i] == tenant {
          hasMembership := true;
          break;
        }
      }
      if !hasMembership { return Err(()); }
      var token := IssueSession(caller.user, tenant, caller.sid, now, SESSION_TTL);
      return Ok(token.value);
    }

    /**
     Logging out revokes the caller's row, if the write succeeds and the request's
     transaction commits; a second logout changes nothing.
     */
    method Logout(caller: SessionClaims, begun: int, writes: bool, commits: bool)
      modifies this
      ensures store.revokedAt == old(store).revokedAt && store.sessions.Keys == old(store).sessions.Keys
      ensures forall sid :: sid in store.sessions ==>
        store.sessions[sid] == (if sid == caller.sid && writes && commits
                                then RevokeRow(old(store).sessions[sid], begun) else old(store).sessions[sid])
      ensures writes && commits && caller.sid in store.sessions ==> store.sessions[caller.sid].revokedAt.Some?
    {
      if writes && commits && caller.sid in store.sessions && store.sessions[caller.sid].revokedAt.None? {
        var revoked := store.sessions[caller.sid].(revokedAt := Some(begun));
        store := store.(sessions := store.sessions[caller.sid := revoked]);
      }
    }

    /**
     Changing the password. The request's transaction began at `begun`,
     before the password was checked, and that is the stamp: the tokens cut off
     are those issued before then, not before the change is committed. The reply
     does not wait for the commit, and a failed revocation is only logged.
     */
    method ChangePassword(caller: SessionClaims, currentMatches: bool, strong: bool, updates: bool, begun: int,
                          revokes: bool, commits: bool) returns (r: Result<(), ()>)
      modifies this
      ensures r.Ok? <==> currentMatches && strong && updates && caller.user in old(store).revokedAt
      ensures store.sessions == old(store).sessions
      ensures r.Err? || !revokes || !commits ==> store == old(store)
      ensures r.Ok? && revokes && commits ==>
        && (forall user :: user != caller.user ==>
              (user in store.revokedAt <==> user in old(store).revokedAt)
              && (user in store.revokedAt ==> store.revokedAt[user] == old(store).revokedAt[user]))
        && forall instant :: CutOff(store, caller.user, instant) <==> instant <= begun
    {
      if !currentMatches || !strong { return Err(()); }
      // The hash cannot be made, or the UPDATE fails or finds the user gone: the reply is an error.
      if !updates || caller.user !in store.revokedAt { return Err(()); }
      if revokes && commits {
        store := store.(revokedAt := store.revokedAt[caller.user := Some(begun)]);
      }
      return Ok(());
    }
  }
}
