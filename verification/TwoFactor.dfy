/**
 Completing a login with a second factor: any number of verify-2fa requests,
 one statement at a time, against the challenge, secret, recovery-code and
 session rows, with enrolment and disabling going on meanwhile.
 */
module TwoFactor {
  import opened Prelude

  type ChallengeId = nat
  type CodeId = nat

  datatype Challenge = Challenge(user: UserId, expiresAt: int, usedAt: Option<int>)
  datatype Code = Code(user: UserId, used: bool)

  /** What a request submits: a TOTP code, right or wrong, or a recovery code and the row whose hash it matches. */
  datatype Factor = Totp(valid: bool) | Recovery(matching: Option<CodeId>)
  datatype Request = Request(user: UserId, challenge: ChallengeId, factor: Factor)

  /** A recovery code, and the request that claimed it. */
  datatype Claim = Claim(code: CodeId, claimant: Tid)

  /** The last step of VerifyTwoFactor a request has got past. */
  datatype Pc =
    | Received(req: Request)
    | LookedUp(req: Request)
    | Secured(req: Request)
    | Proven(req: Request)
    | Claimed(req: Request)
    | LoggedIn(req: Request)
    | Refused(req: Request)

  /**
   The rows, and the requests. `secrets` maps an enrolled user to whether 2FA is
   enabled. Three histories: `issued` has the owner of every recovery code ever
   handed out, `sessions` the challenge of every session row a verification
   created, and `spent` the recovery codes in the order claimed.
   */
  datatype State = State(
    now: int,
    challenges: map<ChallengeId, Challenge>,
    secrets: map<UserId, bool>,
    codes: map<CodeId, Code>,
    issued: map<CodeId, UserId>,
    sessions: seq<ChallengeId>,
    spent: seq<Claim>,
    requests: map<Tid, Pc>)

  datatype Action =
    | Wait(duration: nat)
    | IssueChallenge(id: ChallengeId, user: UserId, ttl: nat)
    | Enroll(user: UserId)
    | Confirm(user: UserId)
    | StoreCodes(user: UserId, ids: set<CodeId>)
    | DeleteSecret(user: UserId)
    | DeleteCodes(user: UserId)
    | Receive(t: Tid, req: Request)
    | Lookup(t: Tid)
    | GetSecret(t: Tid)
    | CheckFactor(t: Tid)
    | MarkUsed(t: Tid)
    | CreateSession(t: Tid, member: bool)

  predicate Enabled(s: State, a: Action) {
    match a
    case IssueChallenge(id, _, _) => id !in s.challenges
    case StoreCodes(_, ids) => forall id :: id in ids ==> id !in s.issued
    case Receive(t, _) => t !in s.requests
    case Lookup(t) => t in s.requests && s.requests[t].Received?
    case GetSecret(t) => t in s.requests && s.requests[t].LookedUp?
    case CheckFactor(t) => t in s.requests && s.requests[t].Secured?
    case MarkUsed(t) => t in s.requests && s.requests[t].Proven?
    case CreateSession(t, _) => t in s.requests && s.requests[t].Claimed?
    case _ => true
  }

  /** An unused code of this user whose hash the submitted one matches. */
  predicate Consumable(s: State, req: Request) {
    && req.factor.Recovery? && req.factor.matching.Some?
    && req.factor.matching.value in s.codes
    && s.codes[req.factor.matching.value] == Code(req.user, false)
  }

  /** VerifyTwoFactor's own checks on the challenge it looked up. */
  predicate Usable(s: State, req: Request) {
    && req.challenge in s.challenges
    && s.challenges[req.challenge].user == req.user
    && s.challenges[req.challenge].usedAt.None?
    && s.now <= s.challenges[req.challenge].expiresAt
  }

  /** MarkUsed's conditional UPDATE finds the challenge unused and unexpired. */
  predicate Claimable(s: State, req: Request) {
    && req.challenge in s.challenges && s.challenges[req.challenge].usedAt.None?
    && s.challenges[req.challenge].expiresAt > s.now
  }

  /** The request whose step it is. */
  function Actor(a: Action): Option<Tid> {
    match a
    case Receive(t, _) => Some(t)
    case Lookup(t) => Some(t)
    case GetSecret(t) => Some(t)
    case CheckFactor(t) => Some(t)
    case MarkUsed(t) => Some(t)
    case CreateSession(t, _) => Some(t)
    case _ => None
  }

  /** Where the acting request stands after its step. */
  function NextPc(s: State, a: Action): Pc
    requires Enabled(s, a) && Actor(a).Some?
  {
    match a
    case Receive(_, req) => Received(req)
    case Lookup(t) => var req := s.requests[t].req; if Usable(s, req) then LookedUp(req) else Refused(req)
    case GetSecret(t) =>
      var req := s.requests[t].req;
      if req.user in s.secrets && s.secrets[req.user] then Secured(req) else Refused(req)
    case CheckFactor(t) =>
      var req := s.requests[t].req;
      if req.factor == Totp(true) || Consumable(s, req) then Proven(req) else Refused(req)
    case MarkUsed(t) => var req := s.requests[t].req; if Claimable(s, req) then Claimed(req) else Refused(req)
    case CreateSession(t, member) => var req := s.requests[t].req; if member then LoggedIn(req) else Refused(req)
  }

  function CodesExcept(s: State, user: UserId): map<CodeId, Code> {
    map id | id in s.codes && s.codes[id].user != user :: s.codes[id]
  }

  /** What the step does to the rows. */
  function Rows(s: State, a: Action): State
    requires Enabled(s, a)
  {
    match a
    case Wait(duration) => s.(now := s.now + duration)
    case IssueChallenge(id, user, ttl) => s.(challenges := s.challenges[id := Challenge(user, s.now + ttl, None)])
    case Enroll(user) => s.(secrets := s.secrets[user := false])
    case Confirm(user) => if user in s.secrets then s.(secrets := s.secrets[user := true]) else s
    case StoreCodes(user, ids) =>
      s.(codes := CodesExcept(s, user) + (map id | id in ids :: Code(user, false)),
         issued := s.issued + (map id | id in ids :: user))
    case DeleteSecret(user) => s.(secrets := s.secrets - {user})
    case DeleteCodes(user) => s.(codes := CodesExcept(s, user))
    case CheckFactor(t) =>
      var req := s.requests[t].req;
      if Consumable(s, req) then
        var code := req.factor.matching.value;
        s.(codes := s.codes[code := Code(req.user, true)], spent := s.spent + [Claim(code, t)])
      else s
    case MarkUsed(t) =>
      var req := s.requests[t].req;
      if Claimable(s, req)
      then s.(challenges := s.challenges[req.challenge := s.challenges[req.challenge].(usedAt := Some(s.now))]) else s
    case CreateSession(t, member) =>
      if member then s.(sessions := s.sessions + [s.requests[t].req.challenge]) else s
    case _ => s
  }

  function Step(s: State, a: Action): State
    requires Enabled(s, a)
  {
    if Actor(a).None? then Rows(s, a)
    else Rows(s, a).(requests := s.requests[Actor(a).value := NextPc(s, a)])
  }

  ghost predicate Runs(s: State, actions: seq<Action>, end: State)
    decreases |actions|
  {
    if actions == [] then s == end
    else Enabled(s, actions[0]) && Runs(Step(s, actions[0]), actions[1..], end)
  }

  lemma OthersUnmoved(s: State, a: Action, t: Tid)
    requires Enabled(s, a) && Actor(a) != Some(t)
    ensures t in Step(s, a).requests <==> t in s.requests
    ensures t in s.requests ==> Step(s, a).requests[t] == s.requests[t]
  {
  }

  /** How one step moves a request on. */
  predicate Moves(s: State, a: Action, pc: Pc, pc': Pc) {
    match a
    case Lookup(_) => pc.Received? && (pc' == LookedUp(pc.req) || pc' == Refused(pc.req))
    case GetSecret(_) => pc.LookedUp? && (pc' == Secured(pc.req) || pc' == Refused(pc.req))
    case CheckFactor(_) => pc.Secured? && (pc' == Proven(pc.req) || pc' == Refused(pc.req))
    case MarkUsed(_) => pc.Proven? && pc' == (if Claimable(s, pc.req) then Claimed(pc.req) else Refused(pc.req))
    case CreateSession(_, member) => pc.Claimed? && pc' == (if member then LoggedIn(pc.req) else Refused(pc.req))
    case _ => false
  }

  lemma ActorMoves(s: State, a: Action, t: Tid)
    requires Enabled(s, a) && Actor(a) == Some(t)
    ensures t in Step(s, a).requests
    ensures t in s.requests ==> Moves(s, a, s.requests[t], Step(s, a).requests[t])
    ensures t !in s.requests ==> a.Receive? && Step(s, a).requests[t] == Received(a.req)
  {
  }

  /** What no step takes back. */
  ghost predicate Extends(s: State, s': State) {
    && (forall t :: t in s.requests ==> t in s'.requests && s'.requests[t].req == s.requests[t].req)
    && (forall id :: id in s.issued ==> id in s'.issued && s'.issued[id] == s.issued[id])
    && (forall id :: id in s.challenges ==> id in s'.challenges && s'.challenges[id].user == s.challenges[id].user)
    && (forall claim :: claim in s.spent ==> claim in s'.spent)
    && (forall id :: id in s.sessions ==> id in s'.sessions)
  }

  lemma StepKeepsSubmissions(s: State, a: Action)
    requires Enabled(s, a)
    ensures forall t :: t in s.requests ==> t in Step(s, a).requests && Step(s, a).requests[t].req == s.requests[t].req
  {
    forall t | t in s.requests
      ensures t in Step(s, a).requests && Step(s, a).requests[t].req == s.requests[t].req
    {
      if Actor(a) == Some(t) {
        ActorMoves(s, a, t);
      } else {
        OthersUnmoved(s, a, t);
      }
    }
  }

  lemma StepExtends(s: State, a: Action)
    requires Enabled(s, a)
    ensures Extends(s, Step(s, a))
  {
    StepKeepsSubmissions(s, a);
  }

  predicate Initial(s: State) {
    && s.challenges == map[] && s.codes == map[] && s.issued == map[]
    && s.sessions == [] && s.spent == [] && s.requests == map[]
  }

  predicate Used(s: State, id: ChallengeId) {
    id in s.challenges && s.challenges[id].usedAt.Some?
  }

  /** The request has claimed the challenge, and has its session row or is about to. */
  predicate Holds(s: State, t: Tid, id: ChallengeId) {
    t in s.requests && (s.requests[t].Claimed? || s.requests[t].LoggedIn?) && s.requests[t].req.challenge == id
  }

  /** A challenge has at most one holder, and at most one session row; both only once it is marked used. */
  ghost predicate ClaimInv(s: State) {
    && Distinct(s.sessions)
    && (forall id :: id in s.sessions ==> Used(s, id))
    && (forall t, id :: Holds(s, t, id) ==> Used(s, id) && (s.requests[t].Claimed? ==> id !in s.sessions))
    && (forall t, u, id :: Holds(s, t, id) && Holds(s, u, id) ==> t == u)
  }

  predicate IsSpent(s: State, id: CodeId) {
    exists k :: 0 <= k < |s.spent| && s.spent[k].code == id
  }

  /** A recovery code is claimed at most once, keeps its owner, and is marked used from its claim on. */
  ghost predicate CodeInv(s: State) {
    && (forall i, j :: 0 <= i < j < |s.spent| ==> s.spent[i].code != s.spent[j].code)
    && (forall k :: 0 <= k < |s.spent| ==> s.spent[k].code in s.issued)
    && forall id :: id in s.codes ==>
         id in s.issued && s.codes[id].user == s.issued[id] && (s.codes[id].used <==> IsSpent(s, id))
  }

  lemma StepKeepsClaimInv(s: State, a: Action)
    requires ClaimInv(s) && Enabled(s, a)
    ensures ClaimInv(Step(s, a))
  {
    if a.CreateSession? {
      LoginKeepsClaimInv(s, a);
    } else if a.MarkUsed? {
      ClaimKeepsClaimInv(s, a);
    } else {
      var s' := Step(s, a);
      assert forall id :: Used(s, id) ==> Used(s', id);
      assert forall t, c :: Holds(s', t, c) ==> Holds(s, t, c) && s'.requests[t] == s.requests[t];
    }
  }

  lemma LoginKeepsClaimInv(s: State, a: Action)
    requires ClaimInv(s) && Enabled(s, a) && a.CreateSession?
    ensures ClaimInv(Step(s, a))
  {
    var s' := Step(s, a);
    assert Holds(s, a.t, s.requests[a.t].req.challenge);
    assert forall id :: Used(s, id) <==> Used(s', id);
    assert forall t, c :: Holds(s', t, c) ==> Holds(s, t, c) && (t != a.t ==> s'.requests[t] == s.requests[t]);
  }

  lemma ClaimKeepsClaimInv(s: State, a: Action)
    requires ClaimInv(s) && Enabled(s, a) && a.MarkUsed?
    ensures ClaimInv(Step(s, a))
  {
    var s' := Step(s, a);
    assert forall id :: Used(s, id) ==> Used(s', id);
    assert forall t, c :: t != a.t && Holds(s', t, c) ==> Holds(s, t, c) && s'.requests[t] == s.requests[t];
  }

  lemma StepKeepsCodeInv(s: State, a: Action)
    requires CodeInv(s) && Enabled(s, a)
    ensures CodeInv(Step(s, a))
  {
    if a.CheckFactor? {
      CheckKeepsCodeInv(s, a.t);
    } else {
      assert Step(s, a).spent == s.spent;
      assert forall id :: IsSpent(Step(s, a), id) <==> IsSpent(s, id);
      if a.StoreCodes? {
        StoreKeepsCodeInv(s, a);
      }
    }
  }

  lemma StoreKeepsCodeInv(s: State, a: Action)
    requires CodeInv(s) && Enabled(s, a) && a.StoreCodes?
    ensures CodeInv(Step(s, a))
  {
    var s' := Step(s, a);
    assert s'.spent == s.spent;
    assert forall id :: IsSpent(s', id) <==> IsSpent(s, id);
    forall id | id in s'.codes
      ensures id in s'.issued && s'.codes[id].user == s'.issued[id] && (s'.codes[id].used <==> IsSpent(s', id))
    {
      assert id in a.ids ==> !IsSpent(s, id);
    }
  }

  lemma CheckKeepsCodeInv(s: State, t: Tid)
    requires CodeInv(s) && Enabled(s, CheckFactor(t))
    ensures CodeInv(Step(s, CheckFactor(t)))
  {
    var s' := Step(s, CheckFactor(t));
    if s'.spent == s.spent {
      assert forall id :: IsSpent(s', id) <==> IsSpent(s, id);
    } else {
      var claim := Claim(s.requests[t].req.factor.matching.value, t);
      assert s'.spent == s.spent + [claim] && s'.spent[|s.spent|] == claim;
      assert forall k :: 0 <= k < |s.spent| ==> s'.spent[k] == s.spent[k];
      assert forall id :: IsSpent(s', id) <==> IsSpent(s, id) || id == claim.code;
    }
  }

  lemma {:induction false} RunKeepsInvariants(s: State, actions: seq<Action>, end: State)
    requires ClaimInv(s) && CodeInv(s) && Runs(s, actions, end)
    ensures ClaimInv(end) && CodeInv(end)
    decreases |actions|
  {
    if actions != [] {
      StepKeepsClaimInv(s, actions[0]);
      StepKeepsCodeInv(s, actions[0]);
      RunKeepsInvariants(Step(s, actions[0]), actions[1..], end);
    }
  }

  /**
   One challenge, one login: in every interleaving of concurrent verifications,
   retries, enrolments and disablings, no two session rows come from the same
   challenge, no two requests log in through it, and no recovery code is
   accepted twice.
   */
  lemma OneSessionPerChallenge(s: State, actions: seq<Action>, end: State)
    requires Initial(s) && Runs(s, actions, end)
    ensures Distinct(end.sessions) && forall id :: id in end.sessions ==> Used(end, id)
    ensures forall t, u, id :: Holds(end, t, id) && Holds(end, u, id) ==> t == u
    ensures forall i, j :: 0 <= i < j < |end.spent| ==> end.spent[i].code != end.spent[j].code
  {
    RunKeepsInvariants(s, actions, end);
  }

  // ---------------------------------------------------------------- what a login takes

  /** The request claimed this recovery code, its own user's. */
  predicate ClaimedCode(s: State, t: Tid, id: CodeId)
    requires t in s.requests
  {
    && s.requests[t].req.factor == Recovery(Some(id))
    && id in s.issued && s.issued[id] == s.requests[t].req.user
    && Claim(id, t) in s.spent
  }

  /** The factor the request submitted was right: a valid TOTP code, or a recovery code it has claimed. */
  predicate Earned(s: State, t: Tid)
    requires t in s.requests
  {
    var factor := s.requests[t].req.factor;
    factor == Totp(true) || (factor.Recovery? && factor.matching.Some? && ClaimedCode(s, t, factor.matching.value))
  }

  /** The challenge a request names exists and is its own user's. */
  predicate OwnChallenge(s: State, req: Request) {
    req.challenge in s.challenges && s.challenges[req.challenge].user == req.user
  }

  predicate PastFactor(pc: Pc) {
    pc.Proven? || pc.Claimed? || pc.LoggedIn?
  }

  predicate Checked(pc: Pc) {
    pc.LookedUp? || pc.Secured? || PastFactor(pc)
  }

  predicate Finished(s: State, t: Tid) {
    t in s.requests && (s.requests[t].LoggedIn? || s.requests[t].Refused?)
  }

  ghost predicate RequestInv(s: State, t: Tid)
    requires t in s.requests
  {
    var pc := s.requests[t];
    && (Checked(pc) ==> OwnChallenge(s, pc.req))
    && (PastFactor(pc) ==> Earned(s, t))
    && (pc.LoggedIn? ==> pc.req.challenge in s.sessions)
  }

  /** Whoever claimed a code is past its factor check, or has been refused since. */
  ghost predicate ClaimantInv(s: State, claim: Claim) {
    && claim.claimant in s.requests && ClaimedCode(s, claim.claimant, claim.code)
    && (PastFactor(s.requests[claim.claimant]) || s.requests[claim.claimant].Refused?)
  }

  /** A challenge is only ever used before it expires. */
  ghost predicate UsedInTime(s: State, id: ChallengeId) {
    Used(s, id) ==> s.challenges[id].usedAt.value < s.challenges[id].expiresAt
  }

  ghost predicate LoginInv(s: State) {
    && (forall t :: t in s.requests ==> RequestInv(s, t))
    && (forall claim :: claim in s.spent ==> ClaimantInv(s, claim))
    && (forall id :: UsedInTime(s, id))
  }

  /** A request that does not move keeps what was earned. */
  lemma UnmovedKeepsRequestInv(s: State, s': State, t: Tid)
    requires Extends(s, s') && t in s.requests && s'.requests[t] == s.requests[t] && RequestInv(s, t)
    ensures RequestInv(s', t)
  {
  }

  lemma CheckKeepsRequestInv(s: State, t: Tid)
    requires CodeInv(s) && Enabled(s, CheckFactor(t)) && RequestInv(s, t)
    ensures RequestInv(Step(s, CheckFactor(t)), t)
  {
    StepExtends(s, CheckFactor(t));
  }

  lemma ActorKeepsRequestInv(s: State, a: Action, t: Tid)
    requires CodeInv(s) && Enabled(s, a) && Actor(a) == Some(t) && (t in s.requests ==> RequestInv(s, t))
    ensures RequestInv(Step(s, a), t)
  {
    StepExtends(s, a);
    ActorMoves(s, a, t);
    if a.CheckFactor? {
      CheckKeepsRequestInv(s, t);
    }
  }

  lemma StepKeepsRequestInv(s: State, a: Action, t: Tid)
    requires CodeInv(s) && Enabled(s, a) && t in Step(s, a).requests && (t in s.requests ==> RequestInv(s, t))
    ensures RequestInv(Step(s, a), t)
  {
    if Actor(a) == Some(t) {
      ActorKeepsRequestInv(s, a, t);
    } else {
      OthersUnmoved(s, a, t);
      StepExtends(s, a);
      UnmovedKeepsRequestInv(s, Step(s, a), t);
    }
  }

  lemma OldClaimKept(s: State, s': State, claim: Claim)
    requires Extends(s, s') && ClaimantInv(s, claim) && claim in s.spent
    requires PastFactor(s'.requests[claim.claimant]) || s'.requests[claim.claimant].Refused?
    ensures ClaimantInv(s', claim)
  {
  }

  lemma StepKeepsClaimant(s: State, a: Action, claim: Claim)
    requires CodeInv(s) && Enabled(s, a) && claim in Step(s, a).spent
    requires claim in s.spent ==> ClaimantInv(s, claim)
    ensures ClaimantInv(Step(s, a), claim)
  {
    StepExtends(s, a);
    if claim in s.spent {
      if Actor(a) == Some(claim.claimant) {
        ActorMoves(s, a, claim.claimant);
      } else {
        OthersUnmoved(s, a, claim.claimant);
      }
      OldClaimKept(s, Step(s, a), claim);
    } else {
      NewClaimHolds(s, a, claim);
    }
  }

  lemma NewClaimHolds(s: State, a: Action, claim: Claim)
    requires CodeInv(s) && Enabled(s, a) && claim in Step(s, a).spent && claim !in s.spent
    ensures ClaimantInv(Step(s, a), claim)
  {
    assert a.CheckFactor?;
  }

  lemma {:induction false} RunKeepsLoginInv(s: State, actions: seq<Action>, end: State)
    requires LoginInv(s) && CodeInv(s) && Runs(s, actions, end)
    ensures LoginInv(end)
    decreases |actions|
  {
    if actions != [] {
      var next := Step(s, actions[0]);
      forall t | t in next.requests ensures RequestInv(next, t) {
        StepKeepsRequestInv(s, actions[0], t);
      }
      forall claim | claim in next.spent ensures ClaimantInv(next, claim) {
        StepKeepsClaimant(s, actions[0], claim);
      }
      assert forall id :: UsedInTime(s, id) ==> UsedInTime(next, id);
      StepKeepsCodeInv(s, actions[0]);
      RunKeepsLoginInv(next, actions[1..], end);
    }
  }

  /**
   No login unearned: in every interleaving, a request that got its session
   submitted a valid code, or claimed a recovery code issued to its own user, on
   a challenge issued to its own user and used before it expired.
   */
  lemma LoginIsEarned(s: State, actions: seq<Action>, end: State, t: Tid)
    requires Initial(s) && Runs(s, actions, end)
    requires t in end.requests && end.requests[t].LoggedIn?
    ensures var req := end.requests[t].req;
            && Earned(end, t) && OwnChallenge(end, req) && req.challenge in end.sessions
            && Used(end, req.challenge)
            && end.challenges[req.challenge].usedAt.value < end.challenges[req.challenge].expiresAt
  {
    RunKeepsLoginInv(s, actions, end);
    RunKeepsInvariants(s, actions, end);
    assert RequestInv(end, t) && UsedInTime(end, end.requests[t].req.challenge);
  }

  /** Two-factor login is not enabled for the user, and none of its requests has got past that check. */
  ghost predicate NotEnrolled(s: State, user: UserId) {
    && (user in s.secrets ==> !s.secrets[user])
    && forall t :: t in s.requests && s.requests[t].req.user == user ==>
         !s.requests[t].Secured? && !PastFactor(s.requests[t])
  }

  lemma UnenrolledStaysOut(s: State, a: Action, user: UserId, t: Tid)
    requires NotEnrolled(s, user) && Enabled(s, a)
    requires t in Step(s, a).requests && Step(s, a).requests[t].req.user == user
    ensures !Step(s, a).requests[t].Secured? && !PastFactor(Step(s, a).requests[t])
  {
    if Actor(a) == Some(t) {
      ActorMoves(s, a, t);
      StepKeepsSubmissions(s, a);
    } else {
      OthersUnmoved(s, a, t);
    }
  }

  /** Nobody logs in through a second factor that was never confirmed. */
  lemma {:induction false} NoLoginWithoutEnrolment(s: State, actions: seq<Action>, end: State, user: UserId)
    requires NotEnrolled(s, user) && Runs(s, actions, end)
    requires forall k :: 0 <= k < |actions| ==> actions[k] != Confirm(user)
    ensures NotEnrolled(end, user)
    decreases |actions|
  {
    if actions != [] {
      var next := Step(s, actions[0]);
      forall t | t in next.requests && next.requests[t].req.user == user
        ensures !next.requests[t].Secured? && !PastFactor(next.requests[t])
      {
        UnenrolledStaysOut(s, actions[0], user, t);
      }
      NoLoginWithoutEnrolment(next, actions[1..], end, user);
    }
  }

  predicate LoginThrough(s: State, t: Tid, id: ChallengeId) {
    t in s.requests && s.requests[t].LoggedIn? && s.requests[t].req.challenge == id
  }

  ghost predicate SessionFromLogin(s: State, id: ChallengeId) {
    exists t: Tid :: LoginThrough(s, t, id)
  }

  lemma StepKeepsSessionsFromLogins(s: State, a: Action, id: ChallengeId)
    requires Enabled(s, a) && id in Step(s, a).sessions && (id in s.sessions ==> SessionFromLogin(s, id))
    ensures SessionFromLogin(Step(s, a), id)
  {
    if id in s.sessions {
      var t: Tid :| LoginThrough(s, t, id);
      assert LoginThrough(Step(s, a), t, id) by {
        if Actor(a) == Some(t) {
          ActorMoves(s, a, t);
        } else {
          OthersUnmoved(s, a, t);
        }
      }
    } else {
      assert a.CreateSession? && LoginThrough(Step(s, a), a.t, id);
    }
  }

  /** No session without a login: every row a verification created is some logged-in request's. */
  lemma {:induction false} EverySessionIsALogin(s: State, actions: seq<Action>, end: State)
    requires Runs(s, actions, end) && forall id :: id in s.sessions ==> SessionFromLogin(s, id)
    ensures forall id :: id in end.sessions ==> SessionFromLogin(end, id)
    decreases |actions|
  {
    if actions != [] {
      forall id | id in Step(s, actions[0]).sessions ensures SessionFromLogin(Step(s, actions[0]), id) {
        StepKeepsSessionsFromLogins(s, actions[0], id);
      }
      EverySessionIsALogin(Step(s, actions[0]), actions[1..], end);
    }
  }

  // ---------------------------------------------------------------- exactly what logs in

  /** The five points at which a verification can fail, in the order they come. */
  datatype Stage = AtLookup | AtSecret | AtFactor | AtClaim | AtSession

  predicate IsStage(a: Action, t: Tid, stage: Stage) {
    match stage
    case AtLookup => a == Lookup(t)
    case AtSecret => a == GetSecret(t)
    case AtFactor => a == CheckFactor(t)
    case AtClaim => a == MarkUsed(t)
    case AtSession => a.CreateSession? && a.t == t
  }

  /** What each point asks of the rows, and the last of the user's memberships. */
  predicate Right(s: State, a: Action, req: Request, stage: Stage) {
    match stage
    case AtLookup =>
      && req.challenge in s.challenges
      && var challenge := s.challenges[req.challenge];
         challenge.user == req.user && challenge.usedAt == None && challenge.expiresAt >= s.now
    case AtSecret => req.user in s.secrets && s.secrets[req.user] == true
    case AtFactor =>
      (match req.factor
       case Totp(valid) => valid
       case Recovery(None) => false
       case Recovery(Some(id)) => id in s.codes && s.codes[id].user == req.user && !s.codes[id].used)
    case AtClaim =>
      && req.challenge in s.challenges
      && s.challenges[req.challenge].usedAt == None && s.now < s.challenges[req.challenge].expiresAt
    case AtSession => a.CreateSession? && a.member
  }

  /** When the run comes to this point of the request, all is right. */
  ghost predicate Met(s: State, actions: seq<Action>, t: Tid, stage: Stage)
    decreases |actions|
  {
    && actions != [] && Enabled(s, actions[0])
    && if IsStage(actions[0], t, stage) then Right(s, actions[0], s.requests[t].req, stage)
       else Met(Step(s, actions[0]), actions[1..], t, stage)
  }

  /** The request still has this point to pass. */
  predicate Ahead(s: State, t: Tid, stage: Stage) {
    if t !in s.requests then true
    else match s.requests[t]
      case Received(_) => true
      case LookedUp(_) => !stage.AtLookup?
      case Secured(_) => !stage.AtLookup? && !stage.AtSecret?
      case Proven(_) => stage.AtClaim? || stage.AtSession?
      case Claimed(_) => stage.AtSession?
      case _ => false
  }

  lemma StageDecides(s: State, a: Action, t: Tid, stage: Stage)
    requires Enabled(s, a) && IsStage(a, t, stage)
    ensures t in s.requests && t in Step(s, a).requests && Ahead(s, t, stage)
    ensures Right(s, a, s.requests[t].req, stage) ==>
      !Step(s, a).requests[t].Refused?
      && forall other :: Ahead(Step(s, a), t, other) <==> Ahead(s, t, other) && other != stage
    ensures !Right(s, a, s.requests[t].req, stage) ==> Step(s, a).requests[t].Refused?
  {
  }

  ghost predicate AllMet(s: State, actions: seq<Action>, t: Tid) {
    && (t in s.requests ==> !s.requests[t].Refused?)
    && forall stage :: Ahead(s, t, stage) ==> Met(s, actions, t, stage)
  }

  function StageOf(a: Action): Stage
    requires Actor(a).Some? && !a.Receive?
  {
    match a
    case Lookup(_) => AtLookup
    case GetSecret(_) => AtSecret
    case CheckFactor(_) => AtFactor
    case MarkUsed(_) => AtClaim
    case CreateSession(_, _) => AtSession
  }

  /** From wherever it stands, a request logs in exactly when every point still ahead of it is met. */
  lemma {:induction false} AheadLogsInExactly(s: State, actions: seq<Action>, end: State, t: Tid)
    requires Runs(s, actions, end)
    ensures t in end.requests && end.requests[t].LoggedIn? <==> AllMet(s, actions, t)
    decreases |actions|
  {
    if actions == [] {
      assert !Met(s, actions, t, AtSession);
    } else {
      var a, rest := actions[0], actions[1..];
      var next := Step(s, a);
      AheadLogsInExactly(next, rest, end, t);
      if Actor(a) != Some(t) {
        OthersUnmoved(s, a, t);
        assert forall stage :: Met(s, actions, t, stage) <==> Met(next, rest, t, stage);
      } else if a.Receive? {
        ActorMoves(s, a, t);
        assert forall stage :: Met(s, actions, t, stage) <==> Met(next, rest, t, stage);
      } else {
        StageDecides(s, a, t, StageOf(a));
        assert Met(s, actions, t, StageOf(a)) <==> Right(s, a, s.requests[t].req, StageOf(a));
        assert forall stage :: stage != StageOf(a) ==> (Met(s, actions, t, stage) <==> Met(next, rest, t, stage));
        ActorMoves(s, a, t);
      }
    }
  }

  /**
   What it takes to log in, and all it takes. Over every run, a request is logged
   in if and only if: when looked up, its challenge was its own user's, unused and
   unexpired; its user's second factor was confirmed; it submitted a valid TOTP
   code or an unused recovery code of its user; the challenge was still unused and
   unexpired when it came to mark it; and its user belonged to a tenant.
   */
  lemma LogsInExactly(s: State, actions: seq<Action>, end: State, t: Tid)
    requires Runs(s, actions, end) && t !in s.requests
    ensures t in end.requests && end.requests[t].LoggedIn? <==>
      && Met(s, actions, t, AtLookup) && Met(s, actions, t, AtSecret) && Met(s, actions, t, AtFactor)
      && Met(s, actions, t, AtClaim) && Met(s, actions, t, AtSession)
  {
    AheadLogsInExactly(s, actions, end, t);
  }

  // ---------------------------------------------------------------- how long rows are good for

  function Elapsed(actions: seq<Action>): nat {
    if actions == [] then 0 else (if actions[0].Wait? then actions[0].duration else 0) + Elapsed(actions[1..])
  }

  lemma {:induction false} RunsKeepChallenge(s: State, actions: seq<Action>, end: State, id: ChallengeId)
    requires Runs(s, actions, end) && id in s.challenges
    ensures end.now == s.now + Elapsed(actions) && id in end.challenges
    ensures end.challenges[id].user == s.challenges[id].user
    ensures end.challenges[id].expiresAt == s.challenges[id].expiresAt
    decreases |actions|
  {
    if actions != [] {
      RunsKeepChallenge(Step(s, actions[0]), actions[1..], end, id);
    }
  }

  /**
   A challenge is good for its lifetime and its user alone: whatever runs in
   between, a request on it is let past the lookup exactly when it is the user's,
   no more than `ttl` has gone by since the challenge was issued, and nobody has
   used it.
   */
  lemma ChallengeLastsItsLifetime(
    s: State, id: ChallengeId, user: UserId, ttl: nat, actions: seq<Action>, end: State, req: Request, t: Tid)
    requires Enabled(s, IssueChallenge(id, user, ttl)) && Runs(Step(s, IssueChallenge(id, user, ttl)), actions, end)
    requires req.challenge == id && t in end.requests && end.requests[t] == Received(req)
    ensures !Step(end, Lookup(t)).requests[t].Refused? <==>
      req.user == user && Elapsed(actions) <= ttl && !Used(end, id)
  {
    RunsKeepChallenge(Step(s, IssueChallenge(id, user, ttl)), actions, end, id);
  }

  /** No row lets the code be claimed, and it has been handed out, so that none ever will. */
  predicate Void(s: State, id: CodeId) {
    id in s.issued && id !in s.codes
  }

  lemma {:induction false} VoidCodeIsNeverClaimed(s: State, actions: seq<Action>, end: State, id: CodeId, t: Tid)
    requires Void(s, id) && Runs(s, actions, end)
    ensures Void(end, id) && (Claim(id, t) in end.spent <==> Claim(id, t) in s.spent)
    decreases |actions|
  {
    if actions != [] {
      VoidCodeIsNeverClaimed(Step(s, actions[0]), actions[1..], end, id, t);
    }
  }

  /** The step hands out recovery codes in place of the user's old ones, or withdraws them. */
  predicate Withdraws(a: Action, user: UserId) {
    a == DeleteCodes(user) || (a.StoreCodes? && a.user == user)
  }

  /**
   New recovery codes, or disabling, void the old ones for good: no request,
   one already under way included, claims any of them afterwards.
   */
  lemma WithdrawnCodesAreVoid(s: State, a: Action, actions: seq<Action>, end: State, id: CodeId, t: Tid)
    requires CodeInv(s) && id in s.codes && Enabled(s, a)
    requires Withdraws(a, s.codes[id].user) && Runs(Step(s, a), actions, end)
    ensures Void(end, id) && (Claim(id, t) in end.spent <==> Claim(id, t) in s.spent)
  {
    VoidCodeIsNeverClaimed(Step(s, a), actions, end, id, t);
  }

  /** Whether the user's second factor is on, as the last of these steps left it. */
  function SwitchedOn(actions: seq<Action>, user: UserId, secret: Option<bool>): Option<bool> {
    if actions == [] then secret
    else
      var left :=
        match actions[0]
        case Enroll(u) => if u == user then Some(false) else secret
        case Confirm(u) => if u == user && secret.Some? then Some(true) else secret
        case DeleteSecret(u) => if u == user then None else secret
        case _ => secret;
      SwitchedOn(actions[1..], user, left)
  }

  function SecretOf(s: State, user: UserId): Option<bool> {
    if user in s.secrets then Some(s.secrets[user]) else None
  }

  lemma {:induction false} SecretIsAsSwitched(s: State, actions: seq<Action>, end: State, user: UserId)
    requires Runs(s, actions, end)
    ensures SecretOf(end, user) == SwitchedOn(actions, user, SecretOf(s, user))
    decreases |actions|
  {
    if actions != [] {
      SecretIsAsSwitched(Step(s, actions[0]), actions[1..], end, user);
    }
  }

  // ---------------------------------------------------------------- what a code buys

  lemma {:induction false} RefusedIsOut(s: State, actions: seq<Action>, end: State, t: Tid, stage: Stage)
    requires Runs(s, actions, end) && t in s.requests && s.requests[t].Refused?
    ensures !Met(s, actions, t, stage)
    decreases |actions|
  {
    if actions != [] {
      if Actor(actions[0]) == Some(t) {
        ActorMoves(s, actions[0], t);
      } else {
        OthersUnmoved(s, actions[0], t);
      }
      RefusedIsOut(Step(s, actions[0]), actions[1..], end, t, stage);
    }
  }

  predicate BeforeClaim(s: State, t: Tid) {
    t in s.requests ==> !s.requests[t].Claimed? && !s.requests[t].LoggedIn? && !s.requests[t].Refused?
  }

  /** A request that comes to mark its challenge has passed all the points before. */
  lemma {:induction false} ClaimDecides(s: State, actions: seq<Action>, end: State, t: Tid)
    requires Runs(s, actions, end) && BeforeClaim(s, t)
    requires Met(s, actions, t, AtClaim) && Met(s, actions, t, AtSession)
    ensures t in end.requests && end.requests[t].LoggedIn?
    decreases |actions|
  {
    var a, rest := actions[0], actions[1..];
    var next := Step(s, a);
    if Actor(a) == Some(t) {
      ActorMoves(s, a, t);
    } else {
      OthersUnmoved(s, a, t);
    }
    if a == MarkUsed(t) {
      assert Ahead(next, t, AtSession) && forall stage :: Ahead(next, t, stage) ==> stage == AtSession;
      AheadLogsInExactly(next, rest, end, t);
    } else {
      if t in next.requests && next.requests[t].Refused? {
        RefusedIsOut(next, rest, end, t, AtClaim);
      }
      ClaimDecides(next, rest, end, t);
    }
  }

  /**
   A recovery code is claimed before the challenge is, and not given back. Over
   every run, a claimed code is its own user's, is spent, and once its request is
   through is wasted exactly when the request found its challenge used or
   expired, or its user in no tenant.
   */
  lemma CodeIsWastedExactly(s: State, actions: seq<Action>, end: State, claim: Claim)
    requires Initial(s) && Runs(s, actions, end) && claim in end.spent
    ensures claim.claimant in end.requests && ClaimedCode(end, claim.claimant, claim.code)
    ensures claim.code in end.codes ==> end.codes[claim.code].used
    ensures Finished(end, claim.claimant) ==>
      (end.requests[claim.claimant].Refused? <==>
         !(Met(s, actions, claim.claimant, AtClaim) && Met(s, actions, claim.claimant, AtSession)))
  {
    RunKeepsLoginInv(s, actions, end);
    RunKeepsInvariants(s, actions, end);
    LogsInExactly(s, actions, end, claim.claimant);
    if Met(s, actions, claim.claimant, AtClaim) && Met(s, actions, claim.claimant, AtSession) {
      ClaimDecides(s, actions, end, claim.claimant);
    }
    assert ClaimantInv(end, claim);
    assert IsSpent(end, claim.code);
  }

  /** So of any two codes claimed for one challenge, by requests that are through, at least one was wasted. */
  lemma LoserSpendsItsCode(s: State, actions: seq<Action>, end: State, claim: Claim, other: Claim)
    requires Initial(s) && Runs(s, actions, end)
    requires claim in end.spent && other in end.spent && claim != other
    requires Finished(end, claim.claimant) && Finished(end, other.claimant)
    requires end.requests[claim.claimant].req.challenge == end.requests[other.claimant].req.challenge
    ensures end.requests[claim.claimant].Refused? || end.requests[other.claimant].Refused?
  {
    RunKeepsLoginInv(s, actions, end);
    RunKeepsInvariants(s, actions, end);
    assert ClaimantInv(end, claim) && ClaimantInv(end, other);
    var id := end.requests[claim.claimant].req.challenge;
    assert Holds(end, claim.claimant, id) && Holds(end, other.claimant, id) ==> claim.claimant == other.claimant;
  }

  // ---------------------------------------------------------------- wrong codes

  /**
   The request cannot prove itself: a wrong TOTP code, a recovery code that
   matches no row, or one that is spent, withdrawn or another user's.
   */
  predicate Wrong(s: State, req: Request) {
    && req.factor != Totp(true)
    && (req.factor.Recovery? && req.factor.matching.Some? ==>
          req.factor.matching.value in s.issued && !Consumable(s, req))
  }

  lemma WrongStaysWrong(s: State, a: Action, req: Request)
    requires CodeInv(s) && Enabled(s, a) && Wrong(s, req)
    ensures Wrong(Step(s, a), req)
  {
  }

  /** Every request on this challenge is wrong, and none has got past its factor check. */
  ghost predicate OnlyWrong(s: State, id: ChallengeId) {
    forall t :: t in s.requests && s.requests[t].req.challenge == id ==>
      Wrong(s, s.requests[t].req) && !s.requests[t].Proven? && !s.requests[t].Claimed?
  }

  ghost predicate ReceivesOnlyWrong(s: State, actions: seq<Action>, id: ChallengeId)
    decreases |actions|
  {
    if actions == [] then true
    else
      && Enabled(s, actions[0])
      && (actions[0].Receive? && actions[0].req.challenge == id ==> Wrong(s, actions[0].req))
      && ReceivesOnlyWrong(Step(s, actions[0]), actions[1..], id)
  }

  /**
   A wrong code never costs the challenge: however many are tried, spent and
   foreign recovery codes included, its row is as it was and a retry can still
   use it.
   */
  lemma {:induction false} WrongCodesLeaveChallengeUsable(s: State, actions: seq<Action>, end: State, id: ChallengeId)
    requires CodeInv(s) && id in s.challenges && OnlyWrong(s, id)
    requires Runs(s, actions, end) && ReceivesOnlyWrong(s, actions, id)
    ensures id in end.challenges && end.challenges[id] == s.challenges[id]
    ensures OnlyWrong(end, id)
    decreases |actions|
  {
    if actions != [] {
      StepKeepsCodeInv(s, actions[0]);
      WrongStepLeavesChallenge(s, actions[0], id);
      WrongCodesLeaveChallengeUsable(Step(s, actions[0]), actions[1..], end, id);
    }
  }

  lemma WrongStepLeavesChallenge(s: State, a: Action, id: ChallengeId)
    requires CodeInv(s) && id in s.challenges && OnlyWrong(s, id) && Enabled(s, a)
    requires a.Receive? && a.req.challenge == id ==> Wrong(s, a.req)
    ensures id in Step(s, a).challenges && Step(s, a).challenges[id] == s.challenges[id]
    ensures OnlyWrong(Step(s, a), id)
  {
    var next := Step(s, a);
    if a.CheckFactor? && s.requests[a.t].req.challenge == id {
      WrongFactorIsRefused(s, a.t);
    }
    forall t | t in next.requests && next.requests[t].req.challenge == id
      ensures Wrong(next, next.requests[t].req) && !next.requests[t].Proven? && !next.requests[t].Claimed?
    {
      WrongStaysWrong(s, a, if t in s.requests then s.requests[t].req else a.req);
    }
  }

  lemma WrongFactorIsRefused(s: State, t: Tid)
    requires Enabled(s, CheckFactor(t)) && Wrong(s, s.requests[t].req)
    ensures Step(s, CheckFactor(t)) == s.(requests := s.requests[t := Refused(s.requests[t].req)])
  {
  }
}
