/** A tenant that stays in one zone gets its digest every week: nothing is skipped, nothing comes twice. */
module DigestWeekly {
  import opened Prelude
  import opened Zones
  import opened DigestTiming

  /**
   One hourly tick. `works` says whether a replica got the lock and the pass
   would commit; a tick that does not work stands for contention, a process
   that is down, or any failure before the commit.
   */
  datatype Tick = Tick(at: int, works: bool)

  predicate Sends(tenant: Tenant, tick: Tick) {
    tick.works && Due(tenant, tick.at)
  }

  function AfterTick(tenant: Tenant, tick: Tick): Tenant {
    if Sends(tenant, tick) then tenant.(lastSent := Some(tick.at)) else tenant
  }

  /** The instants at which digests go out over a sequence of ticks. */
  function SentAt(tenant: Tenant, ticks: seq<Tick>): seq<int>
    decreases |ticks|
  {
    if ticks == [] then []
    else (if Sends(tenant, ticks[0]) then [ticks[0].at] else []) + SentAt(AfterTick(tenant, ticks[0]), ticks[1..])
  }

  /** The tenant's marker belongs to week `week`: sent inside its window, or created during it and never sent. */
  ghost predicate SettledUpTo(tenant: Tenant, week: int) {
    match tenant.lastSent
    case Some(at) => FireOf(tenant.zone, week) <= at < FireOf(tenant.zone, week) + CATCH_UP_WINDOW
    case None => FireOf(tenant.zone, week) <= tenant.createdAt < FireOf(tenant.zone, week + 1)
  }

  /** A working tick in the part of week `week`'s window that the guard can never block. */
  predicate Serves(z: Zone, week: int, tick: Tick) {
    tick.works && FireOf(z, week) + HOUR <= tick.at < FireOf(z, week) + CATCH_UP_WINDOW
  }

  ghost predicate Served(z: Zone, week: int, ticks: seq<Tick>) {
    exists i :: 0 <= i < |ticks| && Serves(z, week, ticks[i])
  }

  ghost predicate TicksInOrder(ticks: seq<Tick>) {
    forall i, j :: 0 <= i < j < |ticks| ==> ticks[i].at < ticks[j].at
  }

  /** A tick can only send the week after the marker's, and a serving tick of that week does. */
  lemma TickSendsOnlyNextWeek(tenant: Tenant, week: int, tick: Tick)
    requires DigestZone(tenant.zone) && SettledUpTo(tenant, week)
    requires Marker(tenant) < tick.at < FireOf(tenant.zone, week + 2)
    ensures Sends(tenant, tick) ==> SettledUpTo(AfterTick(tenant, tick), week + 1)
    ensures Serves(tenant.zone, week + 1, tick) ==> Sends(tenant, tick)
  {
    var z := tenant.zone;
    assert DigestWeek(z, week) && DigestWeek(z, week + 1);
    if tick.at < FireOf(z, week + 1) {
      WeeklyDigestFireCharacterised(z, tick.at, week);
    } else {
      DueCharacterised(tenant, tick.at, week + 1);
      WeeklyDigestFireCharacterised(z, tick.at, week + 1);
    }
  }

  /**
   Exactly one digest a week. If each of the `weeks` weeks after the marker's has
   at least one working tick between an hour after its fire and the end of its
   catch-up window, then over those ticks exactly `weeks` digests go out, one
   inside each week's window, whatever the other ticks do.
   */
  lemma {:induction false} EveryWeekSentOnce(tenant: Tenant, week: int, weeks: nat, ticks: seq<Tick>)
    requires DigestZone(tenant.zone) && SettledUpTo(tenant, week) && TicksInOrder(ticks)
    requires forall i :: 0 <= i < |ticks| ==>
      Marker(tenant) < ticks[i].at < FireOf(tenant.zone, week + weeks + 1)
    requires forall k :: week < k <= week + weeks ==> Served(tenant.zone, k, ticks)
    ensures |SentAt(tenant, ticks)| == weeks
    ensures forall j :: 0 <= j < weeks ==>
      FireOf(tenant.zone, week + 1 + j) <= SentAt(tenant, ticks)[j]
        < FireOf(tenant.zone, week + 1 + j) + CATCH_UP_WINDOW
    decreases |ticks|
  {
    var z := tenant.zone;
    if ticks == [] {
      assert weeks == 0 by {
        if weeks > 0 {
          var _ := Served(z, week + 1, ticks);
          assert false;
        }
      }
    } else {
      var tick, rest := ticks[0], ticks[1..];
      FirstTickIsEarly(tenant, week, weeks, ticks);
      TickSendsOnlyNextWeek(tenant, week, tick);
      if Sends(tenant, tick) {
        assert weeks > 0 by {
          assert DigestWeek(z, week + 1);
        }
        forall k | week + 1 < k <= week + weeks ensures Served(z, k, rest) {
          LaterServedByRest(z, week, k, ticks);
        }
        EveryWeekSentOnce(AfterTick(tenant, tick), week + 1, weeks - 1, rest);
        assert SentAt(tenant, ticks) == [tick.at] + SentAt(AfterTick(tenant, tick), rest);
      } else {
        forall k | week < k <= week + weeks ensures Served(z, k, rest) {
          LaterServedByRest(z, week, k, ticks);
        }
        EveryWeekSentOnce(tenant, week, weeks, rest);
        assert SentAt(tenant, ticks) == SentAt(tenant, rest);
      }
    }
  }

  /** The first tick cannot lie beyond the next week, since that week is still to be served. */
  lemma FirstTickIsEarly(tenant: Tenant, week: int, weeks: nat, ticks: seq<Tick>)
    requires DigestZone(tenant.zone) && TicksInOrder(ticks) && ticks != []
    requires forall i :: 0 <= i < |ticks| ==> ticks[i].at < FireOf(tenant.zone, week + weeks + 1)
    requires forall k :: week < k <= week + weeks ==> Served(tenant.zone, k, ticks)
    ensures ticks[0].at < FireOf(tenant.zone, week + 2)
  {
    var z := tenant.zone;
    assert DigestWeek(z, week + 1);
    if weeks > 0 {
      assert Served(z, week + 1, ticks);
      var i :| 0 <= i < |ticks| && Serves(z, week + 1, ticks[i]);
      assert ticks[0].at <= ticks[i].at;
    }
  }

  /** A tick that is early, and does not itself serve the next week, can be dropped. */
  lemma LaterServedByRest(z: Zone, week: int, k: int, ticks: seq<Tick>)
    requires DigestZone(z) && ticks != [] && week < k && Served(z, k, ticks)
    requires ticks[0].at < FireOf(z, week + 2)
    requires k == week + 1 ==> !Serves(z, k, ticks[0])
    ensures Served(z, k, ticks[1..])
  {
    var i :| 0 <= i < |ticks| && Serves(z, k, ticks[i]);
    if week + 2 < k {
      FiresIncrease(z, week + 2, k);
    }
    assert i != 0;
    assert ticks[1..][i - 1] == ticks[i];
  }
}
