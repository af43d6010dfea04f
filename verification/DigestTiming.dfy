/** When a weekly digest is due, for which fire instant, and which week it summarises. */
module DigestTiming {
  import opened Prelude
  import opened Zones

  const FIRE_HOUR := 9
  const TICK_INTERVAL := HOUR
  const TICK_OFFSET := MINUTE
  const CATCH_UP_WINDOW := 24 * HOUR
  const MIN_INTERVAL := 6 * 24 * HOUR

  /** The columns of a tenant row the digest reads and writes. */
  datatype Tenant = Tenant(zone: Zone, createdAt: int, lastSent: Option<int>)

  // ---------------------------------------------------------------- ticks

  predicate IsTick(t: int) {
    t % HOUR == MINUTE
  }

  /** The scheduler's next tick: the least instant after `now` that is a minute past an hour. */
  function NextDigestTick(now: int): (next: int)
    ensures next > now && IsTick(next)
    ensures forall t :: t > now && IsTick(t) ==> next <= t
  {
    var next := now - now % TICK_INTERVAL + TICK_OFFSET;
    if next > now then next else next + TICK_INTERVAL
  }

  // ---------------------------------------------------------------- fires

  /** The wall-clock reading "Monday 09:00" of week number `week`. */
  function FireWall(week: int): int {
    MondayOf(week) * DAY + FIRE_HOUR * HOUR
  }

  /** The wall-clock reading "Monday 00:00" of week number `week`. */
  function MidnightWall(week: int): int {
    MondayOf(week) * DAY
  }

  function FireOf(z: Zone, week: int): int {
    z.date(FireWall(week))
  }

  function MidnightOf(z: Zone, week: int): int {
    z.date(MidnightWall(week))
  }

  /** Local Monday 00:00 and 09:00 of one week each happen once, 167 to 169 hours before the next fire. */
  ghost predicate DigestWeek(z: Zone, week: int) {
    && ShownOnce(z, FireWall(week))
    && ShownOnce(z, MidnightWall(week))
    && 167 * HOUR <= FireOf(z, week + 1) - FireOf(z, week) <= 169 * HOUR
  }

  /** What the scheduler assumes of a zone: daylight saving moves its clock by at most an hour a week. */
  ghost predicate DigestZone(z: Zone) {
    forall week :: DigestWeek(z, week)
  }

  lemma FixedZoneIsDigestZone(offset: int)
    ensures DigestZone(FixedZone(offset))
  {
    var z := FixedZone(offset);
    forall week ensures DigestWeek(z, week) {
      FixedZoneShowsEveryReadingOnce(offset, FireWall(week));
      FixedZoneShowsEveryReadingOnce(offset, MidnightWall(week));
    }
  }

  /** A zone whose offset changes once, from `before` to `after` at instant `at`. */
  function ChangingZone(before: int, after: int, at: int): Zone {
    Zone(t => if t < at then before else after,
         w => if w < at + before && w < at + after then w - before else w - after)
  }

  /** Every clock reading outside the stretch the change skips or repeats is shown once. */
  lemma ChangingZoneShowsOnce(before: int, after: int, at: int, w: int)
    requires w < at + before <==> w < at + after
    ensures ShownOnce(ChangingZone(before, after, at), w)
    ensures ChangingZone(before, after, at).date(w) == if w < at + before then w - before else w - after
  {
  }

  /**
   Daylight saving meets the assumption: so does any zone that puts its clock
   forward or back by at most an hour, at any time of a Sunday.
   */
  lemma SundayChangeIsDigestZone(before: int, after: int, at: int, sunday: int)
    requires -HOUR <= after - before <= HOUR && Weekday(sunday) == 0
    requires sunday * DAY <= at + before <= (sunday + 1) * DAY && sunday * DAY <= at + after <= (sunday + 1) * DAY
    ensures DigestZone(ChangingZone(before, after, at))
  {
    forall week ensures DigestWeek(ChangingZone(before, after, at), week) {
      ChangingWeek(before, after, at, sunday, week);
    }
  }

  lemma ChangingWeek(before: int, after: int, at: int, sunday: int, week: int)
    requires -HOUR <= after - before <= HOUR && Weekday(sunday) == 0
    requires sunday * DAY <= at + before <= (sunday + 1) * DAY && sunday * DAY <= at + after <= (sunday + 1) * DAY
    ensures DigestWeek(ChangingZone(before, after, at), week)
  {
    MondayReadingsMissSunday(week, sunday);
    MondayReadingsMissSunday(week + 1, sunday);
    assert FireWall(week + 1) == FireWall(week) + WEEK;
    ChangingZoneShowsOnce(before, after, at, FireWall(week));
    ChangingZoneShowsOnce(before, after, at, MidnightWall(week));
    ChangingZoneShowsOnce(before, after, at, FireWall(week + 1));
  }

  lemma MondayReadingsMissSunday(week: int, sunday: int)
    requires Weekday(sunday) == 0
    ensures MidnightWall(week) >= (sunday + 1) * DAY || FireWall(week) < sunday * DAY
    ensures MidnightWall(week) < FireWall(week)
  {
  }

  /** This week's fire instant: the latest local Monday 09:00 at or before `now`. */
  function WeeklyDigestFire(now: int, z: Zone): int {
    var day := DayOf(Wall(z, now));
    var daysSinceMonday := (Weekday(day) - 1 + 7) % 7;
    var fire := z.date((day - daysSinceMonday) * DAY + FIRE_HOUR * HOUR);
    if fire > now then z.date((day - daysSinceMonday - 7) * DAY + FIRE_HOUR * HOUR) else fire
  }

  /** The number of the Monday-to-Sunday week a day belongs to. */
  function WeekOf(day: int): (week: int)
    ensures MondayOf(week) <= day < MondayOf(week + 1)
    ensures MondayOf(week) == day - (Weekday(day) - 1 + 7) % 7
  {
    (day - 4) / 7
  }

  lemma WeekOfWall(wall: int) returns (week: int)
    ensures week == WeekOf(DayOf(wall))
    ensures MidnightWall(week) <= wall < MidnightWall(week + 1)
  {
    week := WeekOf(DayOf(wall));
  }

  /** Every instant has a digest week: its fire is past and the next one is not. */
  lemma DigestWeekExists(z: Zone, now: int) returns (week: int)
    requires DigestZone(z)
    ensures WeeklyDigestFire(now, z) == FireOf(z, week)
    ensures FireOf(z, week) <= now < FireOf(z, week + 1)
  {
    var current := WeekOfWall(Wall(z, now));
    assert DigestWeek(z, current - 1) && DigestWeek(z, current) && DigestWeek(z, current + 1);
    assert FireWall(current - 1) < MidnightWall(current) && MidnightWall(current + 1) < FireWall(current + 1);
    assert WeeklyDigestFire(now, z) == if FireOf(z, current) > now then FireOf(z, current - 1) else FireOf(z, current);
    week := if FireOf(z, current) > now then current - 1 else current;
  }

  lemma FiresIncrease(z: Zone, j: int, k: int)
    requires DigestZone(z) && j < k
    ensures FireOf(z, j) + (k - j) * 167 * HOUR <= FireOf(z, k)
    decreases k - j
  {
    assert DigestWeek(z, k - 1);
    if j < k - 1 {
      FiresIncrease(z, j, k - 1);
    }
  }

  /**
   The fire of `now` is the fire of week `week` exactly when `now` falls between
   that fire and the next one.
   */
  lemma WeeklyDigestFireCharacterised(z: Zone, now: int, week: int)
    requires DigestZone(z)
    ensures WeeklyDigestFire(now, z) == FireOf(z, week)
      <==> FireOf(z, week) <= now < FireOf(z, week + 1)
  {
    var actual := DigestWeekExists(z, now);
    if week < actual {
      FiresIncrease(z, week, actual);
      if week + 1 < actual {
        FiresIncrease(z, week + 1, actual);
      }
    } else if actual < week {
      FiresIncrease(z, actual, week);
      if actual + 1 < week {
        FiresIncrease(z, actual + 1, week);
      }
    }
  }

  /** The fire never moves back, and stays put until the next one is reached. */
  lemma WeeklyDigestFireMonotone(z: Zone, now: int, later: int)
    requires DigestZone(z) && now <= later
    ensures WeeklyDigestFire(now, z) <= WeeklyDigestFire(later, z) <= later
    ensures WeeklyDigestFire(later, z) <= now
      ==> WeeklyDigestFire(now, z) == WeeklyDigestFire(later, z)
  {
    var a := DigestWeekExists(z, now);
    var b := DigestWeekExists(z, later);
    if a < b {
      FiresIncrease(z, a, b);
      if a + 1 < b {
        FiresIncrease(z, a + 1, b);
      }
    } else if b < a {
      FiresIncrease(z, b, a);
      if b + 1 < a {
        FiresIncrease(z, b + 1, a);
      }
    }
  }

  /**
   At a fixed offset the fire is a Monday, 09:00 on the local clock, within the
   last seven days; and it is the only such instant.
   */
  lemma FixedZoneFire(offset: int, now: int, t: int)
    ensures WeeklyDigestFire(now, FixedZone(offset)) == t
      <==> (now - WEEK < t <= now
            && Weekday(DayOf(t + offset)) == 1 && (t + offset) % DAY == 9 * HOUR)
  {
    var z := FixedZone(offset);
    FixedZoneIsDigestZone(offset);
    var week := DigestWeekExists(z, now);
    FireWallReads(week);
    if Weekday(DayOf(t + offset)) == 1 && (t + offset) % DAY == FIRE_HOUR * HOUR {
      var k := OnlyFireWallReadsSo(t + offset);
      WeeklyDigestFireCharacterised(z, now, k);
    }
  }

  lemma FireWallReads(week: int)
    ensures DayOf(FireWall(week)) == MondayOf(week) && FireWall(week) % DAY == FIRE_HOUR * HOUR
  {
  }

  lemma OnlyFireWallReadsSo(wall: int) returns (week: int)
    requires Weekday(DayOf(wall)) == 1 && wall % DAY == FIRE_HOUR * HOUR
    ensures wall == FireWall(week)
  {
    week := WeekOf(DayOf(wall));
    assert wall == DayOf(wall) * DAY + wall % DAY;
  }

  // ---------------------------------------------------------------- due

  /** The instant a tenant's week is compared with: its last digest, or its creation. */
  function Marker(tenant: Tenant): int {
    match tenant.lastSent
    case Some(at) => at
    case None => tenant.createdAt
  }

  /** The fire instant a digest would be sent for at `now`, and whether it is due. */
  function DigestDue(tenant: Tenant, now: int): (int, bool) {
    var fire := WeeklyDigestFire(now, tenant.zone);
    if now - fire >= CATCH_UP_WINDOW then (fire, false)
    else
      match tenant.lastSent
      case Some(at) => if now - at < MIN_INTERVAL then (fire, false) else (fire, at < fire)
      case None => (fire, tenant.createdAt < fire)
  }

  predicate Due(tenant: Tenant, now: int) {
    DigestDue(tenant, now).1
  }

  /** Being due for week `week`, without going through the clock arithmetic. */
  ghost predicate DueFor(tenant: Tenant, now: int, week: int) {
    && FireOf(tenant.zone, week) <= now < FireOf(tenant.zone, week) + DAY
    && (if tenant.lastSent.Some? then tenant.lastSent.value < FireOf(tenant.zone, week)
        else tenant.createdAt < FireOf(tenant.zone, week))
    && (tenant.lastSent.Some? ==> now >= tenant.lastSent.value + 6 * DAY)
  }

  /** A digest is due, for a given fire, exactly when the three documented conditions hold. */
  lemma DueCharacterised(tenant: Tenant, now: int, week: int)
    requires DigestZone(tenant.zone)
    ensures DigestDue(tenant, now) == (FireOf(tenant.zone, week), true) <==> DueFor(tenant, now, week)
  {
    WeeklyDigestFireCharacterised(tenant.zone, now, week);
    assert DigestWeek(tenant.zone, week);
  }

  /**
   Whatever the zone is, and however stale the row: a due digest is for a fire
   after the marker and at least six days after the last send.
   */
  lemma DueKeepsDistance(tenant: Tenant, now: int)
    requires Due(tenant, now)
    ensures Marker(tenant) < DigestDue(tenant, now).0
    ensures now - CATCH_UP_WINDOW < DigestDue(tenant, now).0
    ensures tenant.lastSent.Some? ==> now >= tenant.lastSent.value + MIN_INTERVAL
  {
  }

  /**
   In one zone: if week `week` was sent inside its catch-up window, the next
   week's digest is due at every instant from an hour after its fire until its
   window closes.
   */
  lemma NextWeekIsDue(z: Zone, week: int, sent: int, tenant: Tenant, now: int)
    requires DigestZone(z) && tenant.zone == z && tenant.lastSent == Some(sent)
    requires FireOf(z, week) <= sent < FireOf(z, week) + CATCH_UP_WINDOW
    requires FireOf(z, week + 1) + HOUR <= now < FireOf(z, week + 1) + CATCH_UP_WINDOW
    ensures DigestDue(tenant, now) == (FireOf(z, week + 1), true)
  {
    assert DigestWeek(z, week);
    DueCharacterised(tenant, now, week + 1);
  }

  /**
   So the six-day guard costs the next week at most one tick: either the first
   tick at or after the fire is due, or the one an hour later is.
   */
  lemma GuardDelaysAtMostOneTick(z: Zone, week: int, sent: int, tenant: Tenant)
    requires DigestZone(z) && tenant.zone == z && tenant.lastSent == Some(sent)
    requires FireOf(z, week) <= sent < FireOf(z, week) + CATCH_UP_WINDOW
    ensures var first := NextDigestTick(FireOf(z, week + 1) - 1);
            && FireOf(z, week + 1) <= first < FireOf(z, week + 1) + HOUR
            && (Due(tenant, first) <==> first >= sent + MIN_INTERVAL)
            && NextDigestTick(first) == first + HOUR
            && Due(tenant, first + HOUR)
  {
    var fire := FireOf(z, week + 1);
    var first := NextDigestTick(fire - 1);
    assert DigestWeek(z, week);
    assert first < fire + HOUR by {
      assert IsTick(first - HOUR);
    }
    assert NextDigestTick(first) == first + HOUR;
    NextWeekIsDue(z, week, sent, tenant, first + HOUR);
    DueCharacterised(tenant, first, week + 1);
    WeeklyDigestFireCharacterised(z, first, week + 1);
    assert DigestWeek(z, week + 1);
  }

  // ---------------------------------------------------------------- zone changes

  /** No instant of week `week`'s catch-up window is due. */
  ghost predicate WeekSkipped(tenant: Tenant, week: int) {
    forall now :: FireOf(tenant.zone, week) <= now < FireOf(tenant.zone, week) + CATCH_UP_WINDOW
      ==> !Due(tenant, now)
  }

  /**
   After a send at any instant, and whatever zone the tenant has now: a later
   fire's window is lost altogether exactly when the fire comes no more than
   five days after the send.
   */
  lemma SkippedExactlyWhenTooSoon(tenant: Tenant, sent: int, week: int)
    requires DigestZone(tenant.zone) && tenant.lastSent == Some(sent)
    requires sent < FireOf(tenant.zone, week)
    ensures WeekSkipped(tenant, week) <==> FireOf(tenant.zone, week) - sent <= 5 * DAY
  {
    var fire := FireOf(tenant.zone, week);
    if fire - sent <= 5 * DAY {
      forall now | fire <= now < fire + CATCH_UP_WINDOW ensures !Due(tenant, now) {
        assert now < sent + MIN_INTERVAL;
      }
    } else {
      var now := fire + CATCH_UP_WINDOW - 1;
      DueCharacterised(tenant, now, week);
      assert Due(tenant, now);
    }
  }

  /**
   A zone change costs at most one week: whatever zone a tenant sent in, the
   second fire of its new zone after the send is due throughout its window, and
   comes within a fortnight (two hours more if the new zone also changes its
   clocks on the way).
   */
  lemma SecondFireAfterSendIsDue(tenant: Tenant, sent: int, week: int, now: int)
    requires DigestZone(tenant.zone) && tenant.lastSent == Some(sent)
    requires FireOf(tenant.zone, week - 1) <= sent < FireOf(tenant.zone, week)
    requires FireOf(tenant.zone, week + 1) <= now < FireOf(tenant.zone, week + 1) + CATCH_UP_WINDOW
    ensures DigestDue(tenant, now) == (FireOf(tenant.zone, week + 1), true)
    ensures FireOf(tenant.zone, week + 1) <= sent + 14 * DAY + 2 * HOUR
    ensures forall offset :: tenant.zone == FixedZone(offset)
              ==> FireOf(tenant.zone, week + 1) <= sent + 14 * DAY
  {
    var z := tenant.zone;
    assert DigestWeek(z, week) && DigestWeek(z, week - 1);
    DueCharacterised(tenant, now, week + 1);
    forall offset | z == FixedZone(offset)
      ensures FireOf(z, week + 1) <= sent + 14 * DAY
    {
      assert FireOf(z, week + 1) == FireOf(z, week - 1) + 2 * WEEK;
    }
  }

  /**
   Moving from one fixed offset to another after week `week` was sent inside its
   window loses the next week exactly when the eastward jump and the lateness of
   the send add up to two days. That takes a jump of more than a whole day, and
   the week after is then due as usual.
   */
  lemma EastwardJumpSkipsExactly(from: int, to: int, week: int, sent: int, tenant: Tenant)
    requires -26 * HOUR <= to - from <= 26 * HOUR
    requires FireOf(FixedZone(from), week) <= sent < FireOf(FixedZone(from), week) + CATCH_UP_WINDOW
    requires tenant.zone == FixedZone(to) && tenant.lastSent == Some(sent)
    ensures WeekSkipped(tenant, week + 1)
      <==> (sent - FireOf(FixedZone(from), week)) + (to - from) >= 2 * DAY
    ensures WeekSkipped(tenant, week + 1) ==> to - from > DAY
    ensures !WeekSkipped(tenant, week + 2)
  {
    FixedZoneIsDigestZone(to);
    var fire := FireOf(FixedZone(from), week);
    assert FireOf(tenant.zone, week + 1) == fire + WEEK - (to - from);
    assert FireOf(tenant.zone, week + 2) == fire + 2 * WEEK - (to - from);
    SkippedExactlyWhenTooSoon(tenant, sent, week + 1);
    SkippedExactlyWhenTooSoon(tenant, sent, week + 2);
  }

  // ---------------------------------------------------------------- period

  /** The window a digest fired at `fire` summarises. */
  function DigestPeriod(fire: int, z: Zone): (int, int) {
    var to := z.date(DayOf(Wall(z, fire)) * DAY);
    (AddDays(to, -7, z), to)
  }

  /** A digest covers the local Monday-to-Monday week that ended nine hours before its fire. */
  lemma PeriodIsPreviousWeek(z: Zone, week: int)
    requires DigestZone(z)
    ensures DigestPeriod(FireOf(z, week), z) == (MidnightOf(z, week - 1), MidnightOf(z, week))
    ensures MidnightOf(z, week) < FireOf(z, week)
    ensures forall t {:trigger Wall(z, t)} :: MidnightOf(z, week - 1) <= t < MidnightOf(z, week)
              <==> MidnightWall(week) - WEEK <= Wall(z, t) < MidnightWall(week)
  {
    assert DigestWeek(z, week) && DigestWeek(z, week - 1);
    assert DayOf(FireWall(week)) == MondayOf(week);
    assert MidnightWall(week) + (-7) * DAY == MidnightWall(week - 1);
    ReadingsKeepOrder(z, MidnightWall(week), FireWall(week));
  }

  /**
   Consecutive digests leave no gap and no overlap: each period starts where the
   one before ends, and every instant lies in exactly one digest's period.
   */
  lemma PeriodsTile(z: Zone, t: int) returns (week: int)
    requires DigestZone(z)
    ensures forall k {:trigger FireOf(z, k)} ::
              DigestPeriod(FireOf(z, k + 1), z).0 == DigestPeriod(FireOf(z, k), z).1
    ensures forall k {:trigger FireOf(z, k)} ::
              DigestPeriod(FireOf(z, k), z).0 <= t < DigestPeriod(FireOf(z, k), z).1 <==> k == week
  {
    week := WeekOfWall(Wall(z, t));
    week := week + 1;
    forall k
      ensures DigestPeriod(FireOf(z, k + 1), z).0 == DigestPeriod(FireOf(z, k), z).1
      ensures DigestPeriod(FireOf(z, k), z).0 <= t < DigestPeriod(FireOf(z, k), z).1 <==> k == week
    {
      PeriodIsPreviousWeek(z, k);
      PeriodIsPreviousWeek(z, k + 1);
      OneWeekContains(Wall(z, t), k, week);
    }
  }

  /** The weeks before local Mondays `k` and `week` share a clock reading only if they are the same. */
  lemma OneWeekContains(wall: int, k: int, week: int)
    requires MidnightWall(week - 1) <= wall < MidnightWall(week)
    ensures MidnightWall(k) - WEEK <= wall < MidnightWall(k) <==> k == week
  {
  }

  /** The period does not depend on which tick of the week sends the digest. */
  lemma PeriodIndependentOfTick(z: Zone, now: int, later: int)
    requires DigestZone(z)
    requires WeeklyDigestFire(later, z) <= now <= later
    ensures DigestPeriod(WeeklyDigestFire(now, z), z) == DigestPeriod(WeeklyDigestFire(later, z), z)
  {
    WeeklyDigestFireMonotone(z, now, later);
  }
}
