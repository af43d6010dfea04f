/** One digest cycle on one replica: every tenant's pass, and what each failure leaves behind. */
module DigestScheduler {
  import opened Prelude
  import opened DigestTiming

  type TenantId = nat
  type Recipient = nat

  /** What one tenant's pass meets outside the process. */
  datatype World = World(
    begins: bool,
    recipients: Option<seq<Recipient>>,
    content: bool,
    marks: bool,
    commit: Commit,
    delivered: Recipient -> bool)

  datatype Failure = BeginFailed | RecipientsFailed | ContentFailed | MarkFailed | CommitFailed | ListFailed

  /** What a tenant's pass comes to: nothing due, nothing written, or the week settled for `fire`. */
  datatype Pass = NotDue | Failed(error: Failure) | Settled(fire: int, mailed: seq<Recipient>, clean: bool)

  /** The pass as a function of the listed row and the world alone. */
  function PassOf(listed: Tenant, known: bool, now: int, w: World): Pass {
    var (fire, due) := DigestDue(listed, now);
    if !due then NotDue
    else if !w.begins then Failed(BeginFailed)
    else if w.recipients.None? then Failed(RecipientsFailed)
    else if w.recipients.value != [] && !w.content then Failed(ContentFailed)
    else if !known || !w.marks then Failed(MarkFailed)
    else if w.commit.RolledBack? then Failed(CommitFailed)
    else if w.commit.Unknown? then Settled(fire, [], false)
    else Settled(fire, w.recipients.value, true)
  }

  function RowAfter(row: Tenant, now: int, pass: Pass): Tenant {
    if pass.Settled? then row.(lastSent := Some(now)) else row
  }

  function MailAfter(pass: Pass): seq<Recipient> {
    if pass.Settled? then pass.mailed else []
  }

  /** Every step of a pass up to the commit succeeds, and the server applies the commit. */
  predicate Stores(w: World) {
    && w.begins && w.recipients.Some? && (w.recipients.value == [] || w.content) && w.marks
    && w.commit != RolledBack
  }

  /** What a due tenant's pass mails: everyone listed if it succeeds to the end, or nobody. */
  function MailedBy(w: World): seq<Recipient> {
    if Stores(w) && w.commit == Committed then w.recipients.value else []
  }

  /** Where a tenant listed as `row`, and mailed `mail` so far, must stand after its pass. */
  ghost predicate Passed(row: Tenant, mail: seq<Recipient>, now: int, w: World, row': Tenant, mail': seq<Recipient>) {
    && row' == row.(lastSent := if Due(row, now) && Stores(w) then Some(now) else row.lastSent)
    && mail' == mail + if Due(row, now) then MailedBy(w) else []
  }

  /** The tenant rows, and the mail attempted for each tenant. */
  datatype Books = Books(rows: map<TenantId, Tenant>, attempts: map<TenantId, seq<Recipient>>)

  function MailIn(b: Books, id: TenantId): seq<Recipient> {
    if id in b.attempts then b.attempts[id] else []
  }

  /** Tenant `id` has gone from where it stands in `b` to where its own pass puts it. */
  ghost predicate PassedIn(b: Books, b': Books, id: TenantId, now: int, w: World) {
    id in b.rows && id in b'.rows && Passed(b.rows[id], MailIn(b, id), now, w, b'.rows[id], MailIn(b', id))
  }

  /** Nothing has changed for tenant `id`. */
  ghost predicate SameIn(b: Books, b': Books, id: TenantId) {
    && (id in b.rows <==> id in b'.rows) && (id in b.rows ==> b'.rows[id] == b.rows[id])
    && MailIn(b', id) == MailIn(b, id)
  }

  /** The first `n` tenants of the list have had their pass, and nobody else anything. */
  ghost predicate PassedUpTo(b: Books, b': Books, ids: seq<TenantId>, n: nat, now: int, worlds: TenantId -> World)
    requires n <= |ids|
  {
    && (forall j :: 0 <= j < n ==> PassedIn(b, b', ids[j], now, worlds(ids[j])))
    && (forall id :: id !in ids[..n] ==> SameIn(b, b', id))
  }

  lemma PassedOneMore(
    b: Books, b1: Books, b2: Books, ids: seq<TenantId>, n: nat, now: int, worlds: TenantId -> World)
    requires Distinct(ids) && n < |ids| && PassedUpTo(b, b1, ids, n, now, worlds)
    requires PassedIn(b1, b2, ids[n], now, worlds(ids[n])) && forall id :: id != ids[n] ==> SameIn(b1, b2, id)
    ensures PassedUpTo(b, b2, ids, n + 1, now, worlds)
  {
    assert ids[n] !in ids[..n] && ids[..n + 1] == ids[..n] + [ids[n]];
    assert SameIn(b, b1, ids[n]);
    forall j | 0 <= j < n + 1 ensures PassedIn(b, b2, ids[j], now, worlds(ids[j])) {
      if j < n {
        assert PassedIn(b, b1, ids[j], now, worlds(ids[j])) && SameIn(b1, b2, ids[j]);
      }
    }
    forall id | id !in ids[..n + 1] ensures SameIn(b, b2, id) {
      assert SameIn(b, b1, id) && SameIn(b1, b2, id);
    }
  }

  /** The recipients whose delivery fails, in order. */
  function Undelivered(recipients: seq<Recipient>, delivered: Recipient -> bool): seq<Recipient> {
    if recipients == [] then []
    else
      var last := recipients[|recipients| - 1];
      Undelivered(recipients[..|recipients| - 1], delivered) + if delivered(last) then [] else [last]
  }

  lemma UndeliveredAppends(recipients: seq<Recipient>, delivered: Recipient -> bool, i: nat)
    requires i < |recipients|
    ensures Undelivered(recipients[..i + 1], delivered)
      == Undelivered(recipients[..i], delivered) + if delivered(recipients[i]) then [] else [recipients[i]]
  {
    assert recipients[..i + 1][..i] == recipients[..i];
  }

  /** The scheduler with the tenant rows it works on and the mail it has attempted. */
  class Scheduler {
    var rows: map<TenantId, Tenant>
    var attempts: map<TenantId, seq<Recipient>>

    constructor (rows: map<TenantId, Tenant>)
      ensures this.rows == rows && attempts == map[]
    {
      this.rows := rows;
      attempts := map[];
    }

    ghost function Now(): Books
      reads this
    {
      Books(rows, attempts)
    }

    function AttemptsFor(id: TenantId): seq<Recipient>
      reads this
    {
      if id in attempts then attempts[id] else []
    }

    /** Attempts one mail per recipient, in order; a failed delivery is only logged. */
    method SendAll(id: TenantId, recipients: seq<Recipient>, delivered: Recipient -> bool)
      returns (logged: seq<Recipient>)
      modifies this`attempts
      ensures AttemptsFor(id) == old(AttemptsFor(id)) + recipients
      ensures forall other :: other != id ==> AttemptsFor(other) == old(AttemptsFor(other))
      ensures logged == Undelivered(recipients, delivered)
    {
      logged := [];
      for i := 0 to |recipients|
        invariant logged == Undelivered(recipients[..i], delivered)
        invariant AttemptsFor(id) == old(AttemptsFor(id)) + recipients[..i]
        invariant forall other :: other != id ==> AttemptsFor(other) == old(AttemptsFor(other))
      {
        UndeliveredAppends(recipients, delivered, i);
        attempts := attempts[id := AttemptsFor(id) + [recipients[i]]];
        if !delivered(recipients[i]) {
          logged := logged + [recipients[i]];
        }
      }
      assert recipients[..|recipients|] == recipients;
    }

    /**
     One tenant's pass. Before the commit nothing is visible: a failure leaves
     every row and the mail untouched. Mail goes out only once the marker is
     stored, and a delivery failure never takes the marker back.
     */
    method RunTenant(id: TenantId, listed: Tenant, sentAt: int, w: World) returns (r: Result<(), Failure>)
      requires Due(listed, sentAt)
      modifies this
      ensures var pass := PassOf(listed, id in old(rows), sentAt, w);
              && rows == (if pass.Settled? then old(rows)[id := RowAfter(old(rows)[id], sentAt, pass)] else old(rows))
              && AttemptsFor(id) == old(AttemptsFor(id)) + MailAfter(pass)
              && r == (if pass.Failed? then Err(pass.error) else if pass.clean then Ok(()) else Err(CommitFailed))
      ensures AttemptsFor(id) == old(AttemptsFor(id)) + if id in old(rows) then MailedBy(w) else []
      ensures rows == if id in old(rows) && Stores(w)
                      then old(rows)[id := old(rows)[id].(lastSent := Some(sentAt))] else old(rows)
      ensures r.Ok? <==> id in old(rows) && Stores(w) && w.commit == Committed
      ensures forall other :: other != id ==> AttemptsFor(other) == old(AttemptsFor(other))
    {
      if !w.begins { return Err(BeginFailed); }
      if w.recipients.None? { return Err(RecipientsFailed); }
      var recipients := w.recipients.value;
      if recipients != [] && !w.content { return Err(ContentFailed); }
      // MarkDigestSent's UPDATE runs inside the transaction and fails on a row it cannot see.
      if id !in rows || !w.marks { return Err(MarkFailed); }
      var inTransaction := rows[id := rows[id].(lastSent := Some(sentAt))];
      if w.commit.RolledBack? { return Err(CommitFailed); }
      rows := inTransaction;
      if w.commit.Unknown? { return Err(CommitFailed); }
      var _ := SendAll(id, recipients, w.delivered);
      return Ok(());
    }

    /** Skips a tenant that is not due and passes one that is. */
    method RunListed(id: TenantId, listed: Tenant, now: int, w: World)
      requires id in rows && rows[id] == listed
      modifies this
      ensures PassedIn(old(Now()), Now(), id, now, w)
      ensures forall other :: other != id ==> SameIn(old(Now()), Now(), other)
    {
      label before:
      if Due(listed, now) {
        var outcome := RunTenant(id, listed, now, w);
        FailureLeavesNoMarker(listed, now, w);
      }
      assert forall other :: AttemptsFor(other) == MailIn(Now(), other);
      assert forall other :: old@before(AttemptsFor(other)) == MailIn(old@before(Now()), other);
    }

    /**
     One cycle over every tenant. Each tenant ends exactly where its own row and
     its own world put it, so one tenant's failure changes nothing for another.
     */
    method RunOnce(listing: Option<seq<TenantId>>, now: int, worlds: TenantId -> World)
      returns (r: Result<(), Failure>)
      requires listing.Some? ==>
        Distinct(listing.value) && forall j :: 0 <= j < |listing.value| ==> listing.value[j] in rows
      modifies this
      ensures r.Ok? <==> listing.Some?
      ensures r.Err? ==> Now() == old(Now())
      ensures r.Ok? ==> PassedUpTo(old(Now()), Now(), listing.value, |listing.value|, now, worlds)
    {
      if listing.None? { return Err(ListFailed); }
      var ids, listed := listing.value, rows;
      for i := 0 to |ids|
        invariant PassedUpTo(old(Now()), Now(), ids, i, now, worlds)
      {
        ghost var before := Now();
        assert ids[i] !in ids[..i];
        assert SameIn(old(Now()), Now(), ids[i]);
        RunListed(ids[i], listed[ids[i]], now, worlds(ids[i]));
        PassedOneMore(old(Now()), before, Now(), ids, i, now, worlds);
      }
      return Ok(());
    }
  }

  /**
   Every failure before the commit, and only those, leaves the marker as it was;
   a pass whose steps all succeed and whose commit is known to have succeeded
   mails everyone listed, and every other pass nobody; and the error reported is
   that of the first step to fail.
   */
  lemma FailureLeavesNoMarker(listed: Tenant, now: int, w: World)
    requires Due(listed, now)
    ensures var pass := PassOf(listed, true, now, w);
            && (pass.Settled? <==> Stores(w))
            && (pass.Settled? ==> pass.fire == WeeklyDigestFire(now, listed.zone))
            && MailAfter(pass) == MailedBy(w)
            && RowAfter(listed, now, pass) == listed.(lastSent := if Stores(w) then Some(now) else listed.lastSent)
    ensures var pass := PassOf(listed, true, now, w);
            pass.Failed? ==>
              match pass.error
              case BeginFailed => !w.begins
              case RecipientsFailed => w.begins && w.recipients == None
              case ContentFailed => w.begins && w.recipients.Some? && w.recipients.value != [] && !w.content
              case MarkFailed => w.begins && w.recipients.Some? && (w.recipients.value == [] || w.content) && !w.marks
              case CommitFailed => w.marks && w.commit == RolledBack
              case ListFailed => false
  {
  }

  /**
   A settled pass closes the week: no later tick of the same fire is due again,
   and a failed one leaves the next tick exactly as due as before.
   */
  lemma SettledWeekIsClosed(row: Tenant, now: int, later: int, w: World)
    requires DigestZone(row.zone) && now <= later
    ensures var pass := PassOf(row, true, now, w);
            var after := RowAfter(row, now, pass);
            && (pass.Settled? && WeeklyDigestFire(later, row.zone) == pass.fire ==> !Due(after, later))
            && (pass.Failed? ==> DigestDue(after, later) == DigestDue(row, later))
  {
    WeeklyDigestFireMonotone(row.zone, now, now);
  }
}
