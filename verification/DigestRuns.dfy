/**
 Any number of replicas running digest cycles against one database: what holds
 over every interleaving of ticks, passes, mails, crashes, dying lock sessions
 and edits to tenant rows.
 */
module DigestRuns {
  import opened Prelude
  import opened Zones
  import opened DigestTiming
  import opened DigestScheduler

  /** One committed digest marker and the recipients it was committed for. */
  datatype Mark = Mark(at: int, fire: int, recipients: seq<Recipient>)

  /**
   Where a replica is in its cycle. `Mailing` is the loop over one tenant's
   recipients, about to attempt the one at index `next`; `mark` is the marker
   it committed just before, as numbered in the tenant's history.
   */
  datatype Pc =
    | Idle
    | Listing(now: int)
    | Passing(now: int, todo: seq<TenantId>, listed: map<TenantId, Tenant>)
    | Mailing(now: int, todo: seq<TenantId>, listed: map<TenantId, Tenant>,
              id: TenantId, mark: nat, recipients: seq<Recipient>, next: nat)

  /**
   The database, the leader lock, the replicas, and two histories: every marker
   committed for a tenant, and the recipients attempted for each of them.
   */
  datatype Cluster = Cluster(
    rows: map<TenantId, Tenant>,
    lock: Option<ReplicaId>,
    pcs: map<ReplicaId, Pc>,
    marks: map<TenantId, seq<Mark>>,
    mailed: map<TenantId, seq<seq<Recipient>>>)

  datatype Action =
    | Acquire(r: ReplicaId, now: int)
    | List(r: ReplicaId, ids: seq<TenantId>)
    | ListFails(r: ReplicaId)
    | PassTenant(r: ReplicaId, w: World)
    | SendOne(r: ReplicaId)
    | Finish(r: ReplicaId)
    | SessionDies(r: ReplicaId)
    | Crash(r: ReplicaId)
    | CreateTenant(id: TenantId, row: Tenant)
    | ChangeZone(id: TenantId, zone: Zone)

  function PcOf(c: Cluster, r: ReplicaId): Pc {
    if r in c.pcs then c.pcs[r] else Idle
  }

  function MarksOf(c: Cluster, id: TenantId): seq<Mark> {
    if id in c.marks then c.marks[id] else []
  }

  function MailedOf(c: Cluster, id: TenantId): seq<seq<Recipient>> {
    if id in c.mailed then c.mailed[id] else []
  }

  /** What the replica's pass over the next tenant comes to, judged on the row it listed. */
  function PassNext(c: Cluster, r: ReplicaId, w: World): Pass
    requires CanPass(c, r)
  {
    var pc := PcOf(c, r);
    PassOf(pc.listed[pc.todo[0]], pc.todo[0] in c.rows, pc.now, w)
  }

  predicate CanPass(c: Cluster, r: ReplicaId) {
    var pc := PcOf(c, r);
    pc.Passing? && pc.todo != [] && pc.todo[0] in pc.listed
  }

  /** The loop over the recipients has one left. */
  predicate CanSend(c: Cluster, r: ReplicaId) {
    PcOf(c, r).Mailing? && PcOf(c, r).next < |PcOf(c, r).recipients|
  }

  /** One more attempt in the history of tenant `id`'s mark `mark`. */
  function Attempted(c: Cluster, id: TenantId, mark: nat, recipient: Recipient): Cluster {
    var sent := MailedOf(c, id);
    if mark < |sent| then c.(mailed := c.mailed[id := sent[mark := sent[mark] + [recipient]]]) else c
  }

  ghost predicate Enabled(c: Cluster, a: Action) {
    match a
    case Acquire(r, now) => PcOf(c, r).Idle? && c.lock.None?
    case List(r, ids) => PcOf(c, r).Listing? && Distinct(ids) && forall id :: id in ids ==> id in c.rows
    case ListFails(r) => PcOf(c, r).Listing?
    case PassTenant(r, w) => CanPass(c, r)
    case SendOne(r) => CanSend(c, r)
    case Finish(r) =>
      var pc := PcOf(c, r);
      (pc.Passing? && pc.todo == []) || (pc.Mailing? && !CanSend(c, r))
    case SessionDies(r) => c.lock == Some(r)
    case Crash(r) => true
    case CreateTenant(id, row) => id !in c.rows && row.lastSent.None? && DigestZone(row.zone)
    case ChangeZone(id, zone) => id in c.rows && DigestZone(zone)
  }

  /** Leaves the cycle: releasing frees the lock only if this replica's session still holds it. */
  function Release(c: Cluster, r: ReplicaId): Cluster {
    c.(pcs := c.pcs[r := Idle], lock := if c.lock == Some(r) then None else c.lock)
  }

  /** Commits a marker and turns to its mail. */
  function Settle(c: Cluster, r: ReplicaId, pass: Pass): Cluster
    requires CanPass(c, r) && PcOf(c, r).todo[0] in c.rows && pass.Settled?
  {
    var pc := PcOf(c, r);
    var id := pc.todo[0];
    c.(rows := c.rows[id := c.rows[id].(lastSent := Some(pc.now))],
       pcs := c.pcs[r := Mailing(pc.now, pc.todo[1..], pc.listed, id, |MarksOf(c, id)|, pass.mailed, 0)],
       marks := c.marks[id := MarksOf(c, id) + [Mark(pc.now, pass.fire, pass.mailed)]],
       mailed := c.mailed[id := MailedOf(c, id) + [[]]])
  }

  ghost function Step(c: Cluster, a: Action): Cluster
    requires Enabled(c, a)
  {
    match a
    case Acquire(r, now) => c.(lock := Some(r), pcs := c.pcs[r := Listing(now)])
    case List(r, ids) => c.(pcs := c.pcs[r := Passing(PcOf(c, r).now, ids, c.rows)])
    case ListFails(r) => Release(c, r)
    case PassTenant(r, w) =>
      var pc := PcOf(c, r);
      var pass := PassNext(c, r, w);
      if pass.Settled? then Settle(c, r, pass)
      else c.(pcs := c.pcs[r := Passing(pc.now, pc.todo[1..], pc.listed)])
    case SendOne(r) =>
      var pc := PcOf(c, r);
      Attempted(c, pc.id, pc.mark, pc.recipients[pc.next]).(pcs := c.pcs[r := pc.(next := pc.next + 1)])
    case Finish(r) =>
      var pc := PcOf(c, r);
      if pc.Mailing? then c.(pcs := c.pcs[r := Passing(pc.now, pc.todo, pc.listed)]) else Release(c, r)
    case SessionDies(r) => c.(lock := None)
    case Crash(r) => Release(c, r)
    case CreateTenant(id, row) => c.(rows := c.rows[id := row])
    case ChangeZone(id, zone) => c.(rows := c.rows[id := c.rows[id].(zone := zone)])
  }

  /** The action commits a marker. */
  ghost predicate Commits(c: Cluster, a: Action)
    requires Enabled(c, a)
  {
    a.PassTenant? && PassNext(c, a.r, a.w).Settled?
  }

  /** No marker is committed by a replica whose lock session has died under it. */
  ghost predicate UnderLiveLock(c: Cluster, a: Action)
    requires Enabled(c, a)
  {
    Commits(c, a) ==> c.lock == Some(a.r)
  }

  ghost predicate Runs(c: Cluster, actions: seq<Action>, end: Cluster)
    decreases |actions|
  {
    if actions == [] then c == end
    else Enabled(c, actions[0]) && Runs(Step(c, actions[0]), actions[1..], end)
  }

  ghost predicate RunsUnderLiveLock(c: Cluster, actions: seq<Action>, end: Cluster)
    decreases |actions|
  {
    if actions == [] then c == end
    else
      && Enabled(c, actions[0]) && UnderLiveLock(c, actions[0])
      && RunsUnderLiveLock(Step(c, actions[0]), actions[1..], end)
  }

  // ---------------------------------------------------------------- markers

  ghost predicate Follows(last: Mark, next: Mark) {
    last.at + MIN_INTERVAL <= next.at && last.at < next.fire
  }

  /** Consecutive markers are six days apart, and each settles a later fire than the one before. */
  ghost predicate Spaced(marks: seq<Mark>) {
    forall i :: 0 < i < |marks| ==> Follows(marks[i - 1], marks[i])
  }

  ghost predicate Timely(marks: seq<Mark>) {
    forall i :: 0 <= i < |marks| ==> marks[i].fire <= marks[i].at < marks[i].fire + CATCH_UP_WINDOW
  }

  /** The row carries the last marker of the history, or none if there is none. */
  ghost predicate Linked(c: Cluster, id: TenantId) {
    if MarksOf(c, id) == [] then id in c.rows ==> c.rows[id].lastSent.None?
    else id in c.rows && c.rows[id].lastSent == Some(MarksOf(c, id)[|MarksOf(c, id)| - 1].at)
  }

  ghost predicate TenantInv(c: Cluster, id: TenantId) {
    && Spaced(MarksOf(c, id)) && Timely(MarksOf(c, id)) && Linked(c, id)
    && (id in c.rows ==> DigestZone(c.rows[id].zone))
  }

  /** Every tenant the lock holder has still to pass looks, marker-wise, as it did when listed. */
  ghost predicate HolderInv(c: Cluster) {
    match c.lock
    case None => true
    case Some(r) =>
      match PcOf(c, r)
      case Idle => false
      case Listing(_) => true
      case Passing(_, todo, listed) => Current(c.rows, todo, listed)
      case Mailing(_, todo, listed, _, _, _, _) => Current(c.rows, todo, listed)
  }

  ghost predicate Current(rows: map<TenantId, Tenant>, todo: seq<TenantId>, listed: map<TenantId, Tenant>) {
    && Distinct(todo)
    && forall id :: id in todo ==>
         && id in rows && id in listed
         && rows[id].lastSent == listed[id].lastSent && rows[id].createdAt == listed[id].createdAt
         && DigestZone(listed[id].zone)
  }

  ghost predicate MarkInv(c: Cluster) {
    HolderInv(c) && forall id :: TenantInv(c, id)
  }

  /** What has been attempted for a mark is an initial stretch of what it was committed for. */
  ghost predicate TenantMail(c: Cluster, id: TenantId) {
    && |MailedOf(c, id)| == |MarksOf(c, id)|
    && forall k :: 0 <= k < |MarksOf(c, id)| ==> MailedOf(c, id)[k] <= MarksOf(c, id)[k].recipients
  }

  /**
   Between cycles, any tenants and any history so far. A tenant that was sent a
   digest earlier has that marker in its history, so what follows is compared
   with it too.
   */
  ghost predicate Initial(c: Cluster) {
    c.lock.None? && c.pcs == map[] && forall id :: TenantInv(c, id) && TenantMail(c, id)
  }

  /** A pass settles a fire in its catch-up window, after the listed marker and six days after the last send. */
  ghost predicate Admissible(listed: Tenant, now: int, fire: int) {
    && Marker(listed) < fire <= now < fire + CATCH_UP_WINDOW
    && (listed.lastSent.Some? ==> listed.lastSent.value + MIN_INTERVAL <= now)
  }

  lemma SettledIsAdmissible(listed: Tenant, known: bool, now: int, w: World)
    requires DigestZone(listed.zone) && PassOf(listed, known, now, w).Settled?
    ensures known && Admissible(listed, now, PassOf(listed, known, now, w).fire)
  {
    DueKeepsDistance(listed, now);
    WeeklyDigestFireMonotone(listed.zone, now, now);
  }

  lemma SettleKeepsMarkInv(c: Cluster, r: ReplicaId, pass: Pass)
    requires MarkInv(c) && CanPass(c, r) && c.lock == Some(r)
    requires PcOf(c, r).todo[0] in c.rows && pass.Settled?
    requires Admissible(PcOf(c, r).listed[PcOf(c, r).todo[0]], PcOf(c, r).now, pass.fire)
    ensures MarkInv(Settle(c, r, pass))
  {
    var pc := PcOf(c, r);
    var id := pc.todo[0];
    assert id in pc.todo;
    forall other ensures TenantInv(Settle(c, r, pass), other) {
      assert TenantInv(c, other);
      if other == id {
        SettledMarksStaySpaced(MarksOf(c, id), c.rows[id], pc.now, pass);
      } else {
        assert MarksOf(Settle(c, r, pass), other) == MarksOf(c, other);
      }
    }
    RestStaysCurrent(c.rows, pc.todo, pc.listed, Some(pc.now));
  }

  /** A mark admissible for the row that carries the last one extends the history. */
  lemma SettledMarksStaySpaced(marks: seq<Mark>, row: Tenant, now: int, pass: Pass)
    requires Spaced(marks) && Timely(marks) && pass.Settled? && Admissible(row, now, pass.fire)
    requires marks != [] ==> row.lastSent == Some(marks[|marks| - 1].at)
    ensures Spaced(marks + [Mark(now, pass.fire, pass.mailed)])
    ensures Timely(marks + [Mark(now, pass.fire, pass.mailed)])
  {
  }

  /** Settling the first tenant of the list leaves the listed rows of the others current. */
  lemma RestStaysCurrent(
    rows: map<TenantId, Tenant>, todo: seq<TenantId>, listed: map<TenantId, Tenant>, sent: Option<int>)
    requires Current(rows, todo, listed) && todo != [] && todo[0] in rows
    ensures Current(rows[todo[0] := rows[todo[0]].(lastSent := sent)], todo[1..], listed)
  {
    forall other | other in todo[1..] ensures other in todo && other != todo[0] {
      var i :| 0 <= i < |todo[1..]| && todo[1..][i] == other;
      assert todo[i + 1] == other;
    }
  }

  lemma QuietStepKeepsTenantInv(c: Cluster, a: Action, id: TenantId)
    requires TenantInv(c, id) && Enabled(c, a) && !Commits(c, a)
    ensures TenantInv(Step(c, a), id)
  {
    assert MarksOf(Step(c, a), id) == MarksOf(c, id);
  }

  lemma QuietStepKeepsHolderInv(c: Cluster, a: Action)
    requires MarkInv(c) && Enabled(c, a) && !Commits(c, a)
    ensures HolderInv(Step(c, a))
  {
    if a.List? {
      assert forall id :: TenantInv(c, id) && id in c.rows ==> DigestZone(c.rows[id].zone);
    } else if a.PassTenant? {
      var pc := PcOf(c, a.r);
      assert forall id :: id in pc.todo[1..] ==> id in pc.todo;
    }
  }

  lemma StepKeepsMarkInv(c: Cluster, a: Action)
    requires MarkInv(c) && Enabled(c, a) && UnderLiveLock(c, a)
    ensures MarkInv(Step(c, a))
  {
    if Commits(c, a) {
      var pc := PcOf(c, a.r);
      assert pc.todo[0] in pc.todo;
      SettledIsAdmissible(pc.listed[pc.todo[0]], pc.todo[0] in c.rows, pc.now, a.w);
      SettleKeepsMarkInv(c, a.r, PassNext(c, a.r, a.w));
    } else {
      QuietStepKeepsHolderInv(c, a);
      forall id ensures TenantInv(Step(c, a), id) {
        QuietStepKeepsTenantInv(c, a, id);
      }
    }
  }

  lemma {:induction false} RunKeepsMarkInv(c: Cluster, actions: seq<Action>, end: Cluster)
    requires MarkInv(c) && RunsUnderLiveLock(c, actions, end)
    ensures MarkInv(end)
    decreases |actions|
  {
    if actions != [] {
      StepKeepsMarkInv(c, actions[0]);
      RunKeepsMarkInv(Step(c, actions[0]), actions[1..], end);
    }
  }

  lemma {:induction false} SpacedAtAnyDistance(marks: seq<Mark>, i: nat, j: nat)
    requires Spaced(marks) && i < j < |marks|
    ensures marks[i].at + (j - i) * MIN_INTERVAL <= marks[j].at
    ensures marks[i].at < marks[j].fire
    decreases j - i
  {
    if i + 1 < j {
      SpacedAtAnyDistance(marks, i, j - 1);
    }
  }

  /**
   At most one digest a week. Over every run in which markers are only committed
   under a live lock, whatever else fails, dies or moves to another time zone:
   any two markers of a tenant are at least six days apart, the later one
   belongs to a fire after the earlier one was written, and so no fire is ever
   settled twice.
   */
  lemma {:induction false} NoWeekSettledTwice(
    c: Cluster, actions: seq<Action>, end: Cluster, id: TenantId, i: nat, j: nat)
    requires Initial(c) && RunsUnderLiveLock(c, actions, end)
    requires i < j < |MarksOf(end, id)|
    ensures var marks := MarksOf(end, id);
            && marks[j].at - marks[i].at >= MIN_INTERVAL
            && marks[i].fire <= marks[i].at < marks[j].fire <= marks[j].at < marks[j].fire + CATCH_UP_WINDOW
  {
    RunKeepsMarkInv(c, actions, end);
    assert TenantInv(end, id);
    MarksApart(MarksOf(end, id), i, j);
  }

  lemma {:induction false} MarksApart(marks: seq<Mark>, i: nat, j: nat)
    requires Spaced(marks) && Timely(marks) && i < j < |marks|
    ensures marks[j].at - marks[i].at >= MIN_INTERVAL
    ensures marks[i].fire <= marks[i].at < marks[j].fire <= marks[j].at < marks[j].fire + CATCH_UP_WINDOW
  {
    SpacedAtAnyDistance(marks, i, j);
    assert (j - i) * MIN_INTERVAL >= MIN_INTERVAL;
  }

  // ---------------------------------------------------------------- exactly when

  /** The row as stored, not as listed, still admits a digest for `fire` at `now`. */
  predicate StillOpen(stored: Tenant, now: int, fire: int) {
    stored.lastSent.Some? ==> stored.lastSent.value + MIN_INTERVAL <= now && stored.lastSent.value < fire
  }

  /**
   A pass commits its marker while the stored row still admits it. This is the
   guard the code leaves out: MarkDigestSent's UPDATE has no condition on the
   marker it overwrites, and the pass has only looked at the row it listed.
   */
  ghost predicate CommitsInTime(c: Cluster, a: Action)
    requires Enabled(c, a)
  {
    Commits(c, a) ==>
      var pc := PcOf(c, a.r);
      && pc.todo[0] in c.rows
      && StillOpen(c.rows[pc.todo[0]], pc.now, PassNext(c, a.r, a.w).fire)
  }

  ghost predicate AlwaysInTime(c: Cluster, actions: seq<Action>)
    decreases |actions|
  {
    if actions == [] then true
    else
      && Enabled(c, actions[0]) && CommitsInTime(c, actions[0])
      && AlwaysInTime(Step(c, actions[0]), actions[1..])
  }

  lemma StepKeepsLinked(c: Cluster, a: Action, id: TenantId)
    requires Linked(c, id) && Enabled(c, a)
    ensures Linked(Step(c, a), id)
  {
    if !(Commits(c, a) && PcOf(c, a.r).todo[0] == id) {
      assert MarksOf(Step(c, a), id) == MarksOf(c, id);
    }
  }

  lemma SpacedExtends(marks: seq<Mark>, next: Mark)
    ensures Spaced(marks + [next]) <==>
      Spaced(marks) && (marks != [] ==> Follows(marks[|marks| - 1], next))
  {
    var longer := marks + [next];
    assert marks != [] && Spaced(longer) ==> longer[|marks| - 1] == marks[|marks| - 1] && longer[|marks|] == next;
    forall i | 0 < i < |marks| && Spaced(longer)
      ensures Follows(marks[i - 1], marks[i])
    {
      assert longer[i - 1] == marks[i - 1] && longer[i] == marks[i];
    }
  }

  /** Only a marker committed for the tenant bears on its history, and it keeps the spacing exactly when in time. */
  lemma StepOnSpaced(c: Cluster, a: Action, id: TenantId)
    requires Linked(c, id) && Enabled(c, a)
    ensures Spaced(MarksOf(Step(c, a), id)) <==>
      Spaced(MarksOf(c, id)) && (Commits(c, a) && PcOf(c, a.r).todo[0] == id ==> CommitsInTime(c, a))
  {
    if Commits(c, a) && PcOf(c, a.r).todo[0] == id {
      var pass := PassNext(c, a.r, a.w);
      SpacedExtends(MarksOf(c, id), Mark(PcOf(c, a.r).now, pass.fire, pass.mailed));
    } else {
      assert MarksOf(Step(c, a), id) == MarksOf(c, id);
    }
  }

  /**
   What once a week comes down to. Over every run, dying lock sessions included:
   every tenant's markers keep their six days' distance, and settle ever later
   fires, if and only if each marker was committed while the stored row still
   admitted it. A live lock is one way to see to that.
   */
  lemma {:induction false} SpacedExactlyWhenInTime(c: Cluster, actions: seq<Action>, end: Cluster)
    requires Runs(c, actions, end) && forall id :: Linked(c, id)
    ensures (forall id :: Spaced(MarksOf(end, id)))
      <==> (forall id :: Spaced(MarksOf(c, id))) && AlwaysInTime(c, actions)
    decreases |actions|
  {
    if actions != [] {
      var a := actions[0];
      forall id ensures Linked(Step(c, a), id) {
        StepKeepsLinked(c, a, id);
      }
      SpacedExactlyWhenInTime(Step(c, a), actions[1..], end);
      forall id
        ensures Spaced(MarksOf(Step(c, a), id)) <==>
          Spaced(MarksOf(c, id)) && (Commits(c, a) && PcOf(c, a.r).todo[0] == id ==> CommitsInTime(c, a))
      {
        StepOnSpaced(c, a, id);
      }
      if (forall id :: Spaced(MarksOf(Step(c, a), id))) && Commits(c, a) {
        assert Spaced(MarksOf(Step(c, a), PcOf(c, a.r).todo[0]));
      }
    }
  }

  /** In particular between cycles, from any history that has kept its distance so far. */
  lemma OnceAWeekExactly(c: Cluster, actions: seq<Action>, end: Cluster)
    requires Initial(c) && Runs(c, actions, end)
    ensures (forall id :: Spaced(MarksOf(end, id))) <==> AlwaysInTime(c, actions)
  {
    assert forall id :: TenantInv(c, id) ==> Linked(c, id) && Spaced(MarksOf(c, id));
    SpacedExactlyWhenInTime(c, actions, end);
  }

  lemma {:induction false} LiveLockIsARun(c: Cluster, actions: seq<Action>, end: Cluster)
    requires RunsUnderLiveLock(c, actions, end)
    ensures Runs(c, actions, end)
    decreases |actions|
  {
    if actions != [] {
      LiveLockIsARun(Step(c, actions[0]), actions[1..], end);
    }
  }

  /** Under a live lock every marker is committed in time. */
  lemma LiveLockIsInTime(c: Cluster, actions: seq<Action>, end: Cluster)
    requires Initial(c) && RunsUnderLiveLock(c, actions, end)
    ensures AlwaysInTime(c, actions)
  {
    LiveLockIsARun(c, actions, end);
    RunKeepsMarkInv(c, actions, end);
    assert forall id :: TenantInv(end, id) ==> Spaced(MarksOf(end, id));
    OnceAWeekExactly(c, actions, end);
  }

  // ---------------------------------------------------------------- mail

  /** A replica in its mail loop has attempted, for its mark, exactly the recipients before `next`. */
  ghost predicate ReplicaMail(c: Cluster, r: ReplicaId) {
    var pc := PcOf(c, r);
    pc.Mailing? ==>
      && pc.mark < |MarksOf(c, pc.id)| && pc.mark < |MailedOf(c, pc.id)|
      && pc.recipients == MarksOf(c, pc.id)[pc.mark].recipients
      && pc.next <= |pc.recipients|
      && MailedOf(c, pc.id)[pc.mark] == pc.recipients[..pc.next]
  }

  predicate MailsMark(c: Cluster, r: ReplicaId, id: TenantId, mark: nat) {
    PcOf(c, r).Mailing? && PcOf(c, r).id == id && PcOf(c, r).mark == mark
  }

  /** No two replicas mail the same mark. */
  ghost predicate SoleMailer(c: Cluster) {
    forall r, q, id, mark :: MailsMark(c, r, id, mark) && MailsMark(c, q, id, mark) ==> r == q
  }

  ghost predicate MailInv(c: Cluster) {
    SoleMailer(c) && (forall id :: TenantMail(c, id)) && (forall r :: ReplicaMail(c, r))
  }

  /** Only the replica that steps changes where it is, and a mark is only ever mailed by the one that committed it. */
  lemma StepKeepsSoleMailer(c: Cluster, a: Action)
    requires MailInv(c) && Enabled(c, a)
    ensures SoleMailer(Step(c, a))
  {
    var next := Step(c, a);
    forall r, q, id, mark | MailsMark(next, r, id, mark) && MailsMark(next, q, id, mark) ensures r == q {
      MailerBefore(c, a, r, id, mark);
      MailerBefore(c, a, q, id, mark);
    }
  }

  /** Who mails a mark after a step mailed it before, or has just committed it as the newest of all. */
  lemma MailerBefore(c: Cluster, a: Action, r: ReplicaId, id: TenantId, mark: nat)
    requires MailInv(c) && Enabled(c, a) && MailsMark(Step(c, a), r, id, mark)
    ensures MailsMark(c, r, id, mark) || (Commits(c, a) && a.r == r && mark == |MarksOf(c, id)|)
    ensures MailsMark(c, r, id, mark) ==> mark < |MarksOf(c, id)|
  {
    assert ReplicaMail(c, r);
  }

  lemma StepKeepsTenantMail(c: Cluster, a: Action, id: TenantId)
    requires MailInv(c) && Enabled(c, a)
    ensures TenantMail(Step(c, a), id)
  {
    assert TenantMail(c, id);
    if a.SendOne? {
      var pc := PcOf(c, a.r);
      assert ReplicaMail(c, a.r);
      assert pc.recipients[..pc.next] + [pc.recipients[pc.next]] == pc.recipients[..pc.next + 1];
    }
  }

  /** Another replica's step leaves this one's place in its loop, and the mail of its mark, alone. */
  lemma OthersKeepReplicaMail(c: Cluster, a: Action, r: ReplicaId)
    requires MailInv(c) && Enabled(c, a) && PcOf(Step(c, a), r) == PcOf(c, r)
    ensures ReplicaMail(Step(c, a), r)
  {
    var pc := PcOf(c, r);
    assert ReplicaMail(c, r);
    if pc.Mailing? && a.SendOne? && PcOf(c, a.r).id == pc.id && PcOf(c, a.r).mark == pc.mark {
      assert MailsMark(c, r, pc.id, pc.mark) && MailsMark(c, a.r, pc.id, pc.mark);
    }
  }

  lemma OwnStepKeepsReplicaMail(c: Cluster, a: Action, r: ReplicaId)
    requires MailInv(c) && Enabled(c, a) && PcOf(Step(c, a), r) != PcOf(c, r)
    ensures ReplicaMail(Step(c, a), r)
  {
    var pc := PcOf(c, r);
    assert ReplicaMail(c, r);
    if a.SendOne? {
      assert pc.recipients[..pc.next] + [pc.recipients[pc.next]] == pc.recipients[..pc.next + 1];
    } else if Commits(c, a) {
      assert TenantMail(c, pc.todo[0]);
    }
  }

  lemma StepKeepsMailInv(c: Cluster, a: Action)
    requires MailInv(c) && Enabled(c, a)
    ensures MailInv(Step(c, a))
  {
    var next := Step(c, a);
    StepKeepsSoleMailer(c, a);
    forall id ensures TenantMail(next, id) {
      StepKeepsTenantMail(c, a, id);
    }
    forall r ensures ReplicaMail(next, r) {
      if PcOf(next, r) == PcOf(c, r) {
        OthersKeepReplicaMail(c, a, r);
      } else {
        OwnStepKeepsReplicaMail(c, a, r);
      }
    }
  }

  lemma {:induction false} RunKeepsMailInv(c: Cluster, actions: seq<Action>, end: Cluster)
    requires MailInv(c) && Runs(c, actions, end)
    ensures MailInv(end)
    decreases |actions|
  {
    if actions != [] {
      StepKeepsMailInv(c, actions[0]);
      RunKeepsMailInv(Step(c, actions[0]), actions[1..], end);
    }
  }

  /**
   Each recipient is attempted at most once per marker, and only once it is
   stored: over every run, dying lock sessions included, no two replicas ever
   mail the same marker, and what they attempt for it is an initial stretch of
   its recipients, in order.
   */
  lemma EachRecipientAttemptedOnce(c: Cluster, actions: seq<Action>, end: Cluster, id: TenantId, mark: nat)
    requires Initial(c) && Runs(c, actions, end)
    requires mark < |MailedOf(end, id)|
    ensures mark < |MarksOf(end, id)| && MailedOf(end, id)[mark] <= MarksOf(end, id)[mark].recipients
    ensures Distinct(MarksOf(end, id)[mark].recipients) ==> Distinct(MailedOf(end, id)[mark])
    ensures forall r, q :: MailsMark(end, r, id, mark) && MailsMark(end, q, id, mark) ==> r == q
  {
    RunKeepsMailInv(c, actions, end);
    assert TenantMail(end, id);
  }

  /** A replica that turns from a tenant's mail to the next tenant has attempted every recipient. */
  lemma NobodyIsForgotten(c: Cluster, actions: seq<Action>, end: Cluster, r: ReplicaId)
    requires Initial(c) && Runs(c, actions, end)
    requires Enabled(end, Finish(r)) && PcOf(end, r).Mailing?
    ensures var pc := PcOf(end, r);
            && pc.mark < |MarksOf(end, pc.id)| && pc.mark < |MailedOf(end, pc.id)|
            && MailedOf(end, pc.id)[pc.mark] == MarksOf(end, pc.id)[pc.mark].recipients
  {
    RunKeepsMailInv(c, actions, end);
    assert ReplicaMail(end, r);
  }

  /** The marker a pass at `now` leaves for a tenant listed as `row`, told from the row and the world alone. */
  ghost function Marked(row: Tenant, now: int, w: World): seq<Mark> {
    if Due(row, now) && Stores(w) then [Mark(now, WeeklyDigestFire(now, row.zone), MailedBy(w))] else []
  }

  lemma MarkedIsSettled(row: Tenant, now: int, w: World)
    ensures var pass := PassOf(row, true, now, w);
            && Marked(row, now, w) == (if pass.Settled? then [Mark(now, pass.fire, pass.mailed)] else [])
            && (pass.Settled? ==> pass.mailed == MailedBy(w))
  {
    if Due(row, now) {
      FailureLeavesNoMarker(row, now, w);
    }
  }

  /** The marker one action commits for a tenant, if any. */
  ghost function Written(c: Cluster, a: Action, id: TenantId): seq<Mark>
    requires Enabled(c, a)
  {
    if a.PassTenant? && PcOf(c, a.r).todo[0] == id && id in c.rows
    then Marked(PcOf(c, a.r).listed[id], PcOf(c, a.r).now, a.w) else []
  }

  ghost function AllWritten(c: Cluster, actions: seq<Action>, id: TenantId): seq<Mark>
    decreases |actions|
  {
    if actions == [] || !Enabled(c, actions[0]) then []
    else Written(c, actions[0], id) + AllWritten(Step(c, actions[0]), actions[1..], id)
  }

  lemma StepWrites(c: Cluster, a: Action, id: TenantId)
    requires Enabled(c, a)
    ensures MarksOf(Step(c, a), id) == MarksOf(c, id) + Written(c, a, id)
  {
    if a.PassTenant? {
      MarkedIsSettled(PcOf(c, a.r).listed[PcOf(c, a.r).todo[0]], PcOf(c, a.r).now, a.w);
    }
  }

  lemma Joins(a: seq<Mark>, b: seq<Mark>, c: seq<Mark>)
    ensures (a + b) + c == a + (b + c)
  {
  }

  /**
   Over every run the markers are exactly those of the due passes whose steps all
   succeeded, each for the recipients its pass had listed if the commit was known
   to succeed, and for nobody if it was in doubt.
   */
  lemma {:induction false} MarksAreWritten(c: Cluster, actions: seq<Action>, end: Cluster, id: TenantId)
    requires Runs(c, actions, end)
    ensures MarksOf(end, id) == MarksOf(c, id) + AllWritten(c, actions, id)
    decreases |actions|
  {
    if actions != [] {
      var next, rest := Step(c, actions[0]), actions[1..];
      MarksAreWritten(next, rest, end, id);
      assert MarksOf(next, id) == MarksOf(c, id) + Written(c, actions[0], id) by {
        StepWrites(c, actions[0], id);
      }
      Joins(MarksOf(c, id), Written(c, actions[0], id), AllWritten(next, rest, id));
    }
  }

  /** A tenant's creation and its zone, as the last of these edits left them. */
  ghost function Edited(actions: seq<Action>, id: TenantId, row: Option<(int, Zone)>): Option<(int, Zone)> {
    if actions == [] then row
    else
      var left :=
        match actions[0]
        case CreateTenant(i, created) => if i == id then Some((created.createdAt, created.zone)) else row
        case ChangeZone(i, zone) => if i == id && row.Some? then Some((row.value.0, zone)) else row
        case _ => row;
      Edited(actions[1..], id, left)
  }

  ghost function Standing(c: Cluster, id: TenantId): Option<(int, Zone)> {
    if id in c.rows then Some((c.rows[id].createdAt, c.rows[id].zone)) else None
  }

  /**
   Digest cycles write the marker column and nothing else: over every run a
   tenant exists, dates from and lies in the zone that the edits alone say.
   */
  lemma {:induction false} CyclesOnlyWriteMarkers(c: Cluster, actions: seq<Action>, end: Cluster, id: TenantId)
    requires Runs(c, actions, end)
    ensures Standing(end, id) == Edited(actions, id, Standing(c, id))
    decreases |actions|
  {
    if actions != [] {
      CyclesOnlyWriteMarkers(Step(c, actions[0]), actions[1..], end, id);
    }
  }

  // ---------------------------------------------------------------- a cycle left to itself

  /** From its place in the mail loop a replica can attempt everyone left, and turn to the next tenant. */
  lemma {:induction false} MailsTheRest(c: Cluster, r: ReplicaId) returns (actions: seq<Action>, end: Cluster)
    requires PcOf(c, r).Mailing? && PcOf(c, r).next <= |PcOf(c, r).recipients|
    requires PcOf(c, r).mark < |MailedOf(c, PcOf(c, r).id)|
    ensures Runs(c, actions, end)
    ensures var pc := PcOf(c, r);
            && PcOf(end, r) == Passing(pc.now, pc.todo, pc.listed)
            && end.rows == c.rows && end.lock == c.lock && end.marks == c.marks
            && MailedOf(end, pc.id)
                 == MailedOf(c, pc.id)[pc.mark := MailedOf(c, pc.id)[pc.mark] + pc.recipients[pc.next..]]
            && forall id :: id != pc.id ==> MailedOf(end, id) == MailedOf(c, id)
    decreases |PcOf(c, r).recipients| - PcOf(c, r).next
  {
    var pc := PcOf(c, r);
    var sent := MailedOf(c, pc.id)[pc.mark];
    if pc.next == |pc.recipients| {
      actions, end := [Finish(r)], Step(c, Finish(r));
      assert Runs(end, [], end);
      assert sent + pc.recipients[pc.next..] == sent;
    } else {
      var next := Step(c, SendOne(r));
      var rest;
      rest, end := MailsTheRest(next, r);
      actions := [SendOne(r)] + rest;
      StepThen(c, SendOne(r), rest, end);
      assert sent + pc.recipients[pc.next..] == (sent + [pc.recipients[pc.next]]) + pc.recipients[pc.next + 1..];
    }
  }

  /** The tenant's marks and their mail after its pass. */
  ghost predicate PassedTo(c: Cluster, end: Cluster, id: TenantId, row: Tenant, now: int, w: World) {
    && MarksOf(end, id) == MarksOf(c, id) + Marked(row, now, w)
    && MailedOf(end, id) == MailedOf(c, id) + if Marked(row, now, w) == [] then [] else [MailedBy(w)]
  }

  ghost predicate Untouched(c: Cluster, end: Cluster, id: TenantId) {
    MarksOf(end, id) == MarksOf(c, id) && MailedOf(end, id) == MailedOf(c, id)
  }

  lemma StepThen(c: Cluster, a: Action, rest: seq<Action>, end: Cluster)
    requires Enabled(c, a) && Runs(Step(c, a), rest, end)
    ensures Runs(c, [a] + rest, end)
  {
    assert ([a] + rest)[1..] == rest;
  }

  /** Where the mail of a marker just committed leads. */
  lemma {:induction false} SettledIsMailed(c: Cluster, r: ReplicaId, pass: Pass)
    returns (actions: seq<Action>, end: Cluster)
    requires CanPass(c, r) && PcOf(c, r).todo[0] in c.rows && TenantMail(c, PcOf(c, r).todo[0]) && pass.Settled?
    ensures Runs(Settle(c, r, pass), actions, end) && end.lock == c.lock && end.rows.Keys == c.rows.Keys
    ensures var pc := PcOf(c, r);
            && PcOf(end, r) == Passing(pc.now, pc.todo[1..], pc.listed)
            && MarksOf(end, pc.todo[0]) == MarksOf(c, pc.todo[0]) + [Mark(pc.now, pass.fire, pass.mailed)]
            && MailedOf(end, pc.todo[0]) == MailedOf(c, pc.todo[0]) + [pass.mailed]
            && forall id :: id != pc.todo[0] ==> Untouched(c, end, id)
  {
    var id := PcOf(c, r).todo[0];
    var settled := Settle(c, r, pass);
    assert MailedOf(settled, id) == MailedOf(c, id) + [[]] && |MarksOf(c, id)| == |MailedOf(c, id)|;
    actions, end := MailsTheRest(settled, r);
    assert [] + pass.mailed[0..] == pass.mailed;
  }

  lemma {:induction false} PassesNext(c: Cluster, r: ReplicaId, w: World) returns (actions: seq<Action>, end: Cluster)
    requires CanPass(c, r) && PcOf(c, r).todo[0] in c.rows && TenantMail(c, PcOf(c, r).todo[0])
    ensures Runs(c, actions, end) && end.lock == c.lock && end.rows.Keys == c.rows.Keys
    ensures var pc := PcOf(c, r);
            && PcOf(end, r) == Passing(pc.now, pc.todo[1..], pc.listed)
            && PassedTo(c, end, pc.todo[0], pc.listed[pc.todo[0]], pc.now, w)
            && forall id :: id != pc.todo[0] ==> Untouched(c, end, id)
  {
    var pass := PassNext(c, r, w);
    var rest := [];
    end := Step(c, PassTenant(r, w));
    MarkedIsSettled(PcOf(c, r).listed[PcOf(c, r).todo[0]], PcOf(c, r).now, w);
    if pass.Settled? {
      rest, end := SettledIsMailed(c, r, pass);
    }
    StepThen(c, PassTenant(r, w), rest, end);
    actions := [PassTenant(r, w)] + rest;
  }

  /** Every tenant still to pass can be passed. */
  ghost predicate CanComplete(c: Cluster, r: ReplicaId) {
    && PcOf(c, r).Passing? && Distinct(PcOf(c, r).todo)
    && forall id :: id in PcOf(c, r).todo ==> id in c.rows && id in PcOf(c, r).listed && TenantMail(c, id)
  }

  /** Every tenant of the list has had its pass, and nobody else anything. */
  ghost predicate PassedAll(
    c: Cluster, end: Cluster, todo: seq<TenantId>, listed: map<TenantId, Tenant>, now: int, worlds: TenantId -> World)
    requires forall id :: id in todo ==> id in listed
  {
    && (forall id :: id in todo ==> PassedTo(c, end, id, listed[id], now, worlds(id)))
    && (forall id :: id !in todo ==> Untouched(c, end, id))
  }

  lemma PassedHeadAndRest(
    c: Cluster, mid: Cluster, end: Cluster,
    todo: seq<TenantId>, listed: map<TenantId, Tenant>, now: int, worlds: TenantId -> World)
    requires Distinct(todo) && todo != [] && forall id :: id in todo ==> id in listed
    requires PassedTo(c, mid, todo[0], listed[todo[0]], now, worlds(todo[0]))
    requires forall id :: id != todo[0] ==> Untouched(c, mid, id)
    requires forall id :: id in todo[1..] ==> id in listed
    requires PassedAll(mid, end, todo[1..], listed, now, worlds)
    ensures PassedAll(c, end, todo, listed, now, worlds)
  {
    HeadAndRest(todo);
    assert Untouched(mid, end, todo[0]);
    forall id | id in todo[1..] ensures PassedTo(c, end, id, listed[id], now, worlds(id)) {
      assert PassedTo(mid, end, id, listed[id], now, worlds(id)) && Untouched(c, mid, id);
    }
    forall id | id !in todo ensures Untouched(c, end, id) {
      assert Untouched(mid, end, id) && Untouched(c, mid, id);
    }
  }

  lemma RestCanComplete(c: Cluster, mid: Cluster, r: ReplicaId)
    requires CanComplete(c, r) && PcOf(c, r).todo != [] && mid.rows.Keys == c.rows.Keys
    requires PcOf(mid, r) == Passing(PcOf(c, r).now, PcOf(c, r).todo[1..], PcOf(c, r).listed)
    requires forall id :: id != PcOf(c, r).todo[0] ==> Untouched(c, mid, id)
    ensures CanComplete(mid, r)
  {
    var todo := PcOf(c, r).todo;
    HeadAndRest(todo);
    forall id | id in todo[1..] ensures id in mid.rows && id in PcOf(c, r).listed && TenantMail(mid, id) {
      assert id in todo && Untouched(c, mid, id);
    }
  }

  lemma FinishesCycle(c: Cluster, r: ReplicaId) returns (actions: seq<Action>, end: Cluster)
    requires PcOf(c, r).Passing? && PcOf(c, r).todo == []
    ensures Runs(c, actions, end) && PcOf(end, r).Idle? && end.lock == (if c.lock == Some(r) then None else c.lock)
    ensures forall id :: Untouched(c, end, id)
  {
    actions, end := [Finish(r)], Step(c, Finish(r));
    assert Runs(end, [], end);
  }

  /**
   No tenant's failure stops the cycle. Left to itself, a replica can take its
   cycle to the end whatever each tenant's pass meets: every listed tenant then
   has its mark and all of its mail by its own row and its own luck alone, no
   other tenant has anything, and the lock is given back.
   */
  lemma {:induction false} CycleCompletes(c: Cluster, r: ReplicaId, worlds: TenantId -> World)
    returns (actions: seq<Action>, end: Cluster)
    requires CanComplete(c, r)
    ensures Runs(c, actions, end) && PcOf(end, r).Idle? && end.lock == (if c.lock == Some(r) then None else c.lock)
    ensures PassedAll(c, end, PcOf(c, r).todo, PcOf(c, r).listed, PcOf(c, r).now, worlds)
    decreases |PcOf(c, r).todo|
  {
    var pc := PcOf(c, r);
    if pc.todo == [] {
      actions, end := FinishesCycle(c, r);
    } else {
      assert pc.todo[0] in pc.todo;
      var first, mid := PassesNext(c, r, worlds(pc.todo[0]));
      RestCanComplete(c, mid, r);
      var rest;
      rest, end := CycleCompletes(mid, r, worlds);
      PassedHeadAndRest(c, mid, end, pc.todo, pc.listed, pc.now, worlds);
      RunsCompose(c, first, mid, rest, end);
      actions := first + rest;
    }
  }

  lemma HeadAndRest(todo: seq<TenantId>)
    requires Distinct(todo) && todo != []
    ensures Distinct(todo[1..]) && todo[0] !in todo[1..]
    ensures forall id :: id in todo <==> id == todo[0] || id in todo[1..]
  {
    assert todo == [todo[0]] + todo[1..];
  }

  /**
   A cycle that breaks off hands over. Whether its listing fails, its process
   crashes or its session dies, the lock it held is free for any idle replica, a
   lock that is another's stays so, and no row, marker or mail changes.
   */
  lemma BrokenCycleHandsOver(c: Cluster, r: ReplicaId, a: Action, q: ReplicaId, now: int)
    requires Enabled(c, a) && a in {ListFails(r), Crash(r), SessionDies(r)}
    ensures var next := Step(c, a);
            && next.rows == c.rows && next.marks == c.marks && next.mailed == c.mailed
            && (c.lock != Some(r) ==> next.lock == c.lock)
            && (c.lock == Some(r) && PcOf(c, q).Idle? ==> Enabled(next, Acquire(q, now)))
            && (c.lock == Some(r) && !a.SessionDies? ==> Enabled(next, Acquire(r, now)))
            && forall other :: other != r ==> PcOf(next, other) == PcOf(c, other)
  {
  }

  // ---------------------------------------------------------------- a lock that dies mid-cycle

  /**
   The live lock is needed. Take any tenant whose week is due: a session that
   dies after its replica listed the tenant lets a second replica settle the
   week, and the first then settles the same fire again from the row it had
   listed. Two markers, two mailings.
   */
  lemma DeadSessionSettlesTwice(c: Cluster, row: Tenant, now: int, w: World)
    returns (actions: seq<Action>, end: Cluster)
    requires Initial(c) && c.rows == map[0 := row] && PassOf(row, true, now, w).Settled?
    ensures Runs(c, actions, end) && !RunsUnderLiveLock(c, actions, end)
    ensures exists mark :: MarksOf(end, 0) == MarksOf(c, 0) + [mark, mark]
  {
    var opening := DeadSessionLetsBothList(c, row, now);
    var last := [PassTenant(1, w), PassTenant(0, w)];
    end := BothSettle(BothListed(c, row, now), row, now, w);
    Prepend(c, opening, BothListed(c, row, now), last, end);
    actions := opening + last;
  }

  /** Replica 1 holds the lock, and both replicas are about to pass tenant 0 from the same row. */
  function BothListed(c: Cluster, row: Tenant, now: int): Cluster {
    var pc := Passing(now, [0], map[0 := row]);
    c.(lock := Some(1), pcs := map[0 := pc, 1 := pc])
  }

  lemma DeadSessionLetsBothList(c: Cluster, row: Tenant, now: int) returns (actions: seq<Action>)
    requires c.rows == map[0 := row] && c.lock.None? && c.pcs == map[]
    ensures Runs(c, actions, BothListed(c, row, now))
  {
    var pc := Passing(now, [0], map[0 := row]);
    var c2 := c.(lock := Some(0), pcs := map[0 := pc]);
    var c3 := c2.(lock := None);
    var toListed := TwoSteps(c, Acquire(0, now), List(0, [0]), c2);
    var toBothListed := TwoSteps(c3, Acquire(1, now), List(1, [0]), BothListed(c, row, now));
    assert Step(c2, SessionDies(0)) == c3;
    actions := [SessionDies(0)] + toBothListed;
    assert actions[1..] == toBothListed;
    RunsCompose(c, toListed, c2, actions, BothListed(c, row, now));
    actions := toListed + actions;
  }

  lemma BothSettle(c: Cluster, row: Tenant, now: int, w: World) returns (end: Cluster)
    requires c == BothListed(c, row, now) && c.rows == map[0 := row] && PassOf(row, true, now, w).Settled?
    ensures var last := [PassTenant(1, w), PassTenant(0, w)];
            Runs(c, last, end) && !RunsUnderLiveLock(c, last, end)
    ensures exists mark :: MarksOf(end, 0) == MarksOf(c, 0) + [mark, mark]
  {
    var pass := PassOf(row, true, now, w);
    var mark := Mark(now, pass.fire, pass.mailed);
    var settled := Settle(c, 1, pass);
    assert PassNext(c, 1, w) == pass && Step(c, PassTenant(1, w)) == settled;
    assert PassNext(settled, 0, w) == pass;
    end := Settle(settled, 0, pass);
    var last := [PassTenant(1, w), PassTenant(0, w)];
    assert last[1..] == [PassTenant(0, w)];
    assert Runs(end, [], end);
    assert Step(settled, last[1]) == end;
    assert Runs(settled, last[1..], end);
    assert MarksOf(end, 0) == MarksOf(c, 0) + [mark, mark];
  }

  lemma {:induction false} RunsCompose(c: Cluster, first: seq<Action>, mid: Cluster, rest: seq<Action>, end: Cluster)
    requires Runs(c, first, mid) && Runs(mid, rest, end)
    ensures Runs(c, first + rest, end)
    decreases |first|
  {
    if first == [] {
      assert first + rest == rest;
    } else {
      RunsCompose(Step(c, first[0]), first[1..], mid, rest, end);
      assert (first + rest)[1..] == first[1..] + rest;
    }
  }

  lemma TwoSteps(c: Cluster, a: Action, b: Action, end: Cluster) returns (actions: seq<Action>)
    requires Enabled(c, a) && Enabled(Step(c, a), b) && Step(Step(c, a), b) == end
    ensures Runs(c, actions, end)
  {
    actions := [a, b];
    assert actions[1..] == [b];
    assert Runs(Step(c, a), [b], end);
  }

  lemma {:induction false} Prepend(c: Cluster, first: seq<Action>, mid: Cluster, rest: seq<Action>, end: Cluster)
    requires Runs(c, first, mid) && Runs(mid, rest, end) && !RunsUnderLiveLock(mid, rest, end)
    ensures Runs(c, first + rest, end) && !RunsUnderLiveLock(c, first + rest, end)
    decreases |first|
  {
    RunsCompose(c, first, mid, rest, end);
    if first == [] {
      assert first + rest == rest;
    } else {
      Prepend(Step(c, first[0]), first[1..], mid, rest, end);
      assert (first + rest)[1..] == first[1..] + rest;
    }
  }
}
