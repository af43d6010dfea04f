/** The daily domain check: expiry bands, nameserver drift, and the columns that remember both. */
module DomainHealth {
  import opened Prelude
  import opened Zones
  import opened NameServers

  type DomainId = nat

  /** The health columns of a domains row. */
  datatype Domain = Domain(
    expiresAt: Option<int>,
    registrar: Option<string>,
    expectedNS: Option<seq<Host>>,
    currentNS: Option<seq<Host>>,
    drift: bool,
    lastCheckAt: Option<int>,
    lastSuccessAt: Option<int>,
    lastError: Option<string>)

  /** A domain that has never been checked: every column NULL, the drift flag at its default. */
  const UNCHECKED := Domain(None, None, None, None, false, None, None, None)

  datatype Lookup = LookupFailed(message: string) | Found(expiresAt: Option<int>, registrar: Option<string>)
  datatype Alert = Expiring(threshold: int, days: int) | Drifted(expected: seq<Host>, current: seq<Host>)

  // ---------------------------------------------------------------- fire

  /** The next 00:00 UTC strictly after `now`. */
  function NextDomainHealthFire(now: int): (next: int)
    ensures now < next <= now + DAY && next % DAY == 0
  {
    var midnight := now / DAY * DAY;
    if midnight > now then midnight else midnight + DAY
  }

  // ---------------------------------------------------------------- bands

  function DaysUntil(from: int, to: int): int {
    TruncDiv(to - from, DAY)
  }

  function ExpirationThreshold(days: int): int {
    if days <= 7 then 7 else if days <= 15 then 15 else if days <= 30 then 30 else 0
  }

  /** The alert band `at` falls in for a domain expiring at `expiry`; 0 is no band. */
  function Band(at: int, expiry: int): int {
    ExpirationThreshold(DaysUntil(at, expiry))
  }

  /** The band the stored columns stand for: that of the last successful check. */
  function StoredBand(expiresAt: Option<int>, lastSuccessAt: Option<int>): int {
    if expiresAt.Some? && lastSuccessAt.Some? then Band(lastSuccessAt.value, expiresAt.value) else 0
  }

  /** The alert a successful check at `now` calls for, if any. */
  function ExpirationAlert(
    now: int, prevExpiresAt: Option<int>, prevSuccessAt: Option<int>, expiresAt: int): Option<Alert>
  {
    var days := DaysUntil(now, expiresAt);
    var threshold := ExpirationThreshold(days);
    if threshold == 0 then None
    else
      var previous := StoredBand(prevExpiresAt, prevSuccessAt);
      if previous != 0 && threshold >= previous then None else Some(Expiring(threshold, days))
  }

  /** A band is entered exactly one day count at a time: fewer than 8, 16 or 31 whole days left. */
  lemma BandBoundaries(at: int, expiry: int)
    ensures Band(at, expiry) == 7 <==> expiry - at < 8 * DAY
    ensures Band(at, expiry) == 15 <==> 8 * DAY <= expiry - at < 16 * DAY
    ensures Band(at, expiry) == 30 <==> 16 * DAY <= expiry - at < 31 * DAY
    ensures Band(at, expiry) == 0 <==> 31 * DAY <= expiry - at
  {
  }

  /**
   An alert names the whole days left, and the narrowest threshold they fall
   within; a domain already expired counts down below zero and stays in the last.
   */
  lemma AlertTellsDaysLeft(now: int, prevExpiresAt: Option<int>, prevSuccessAt: Option<int>, expiresAt: int)
    ensures match ExpirationAlert(now, prevExpiresAt, prevSuccessAt, expiresAt)
            case Some(Expiring(threshold, days)) =>
              && (now <= expiresAt ==> days * DAY <= expiresAt - now < (days + 1) * DAY)
              && (expiresAt < now ==> (days - 1) * DAY < expiresAt - now <= days * DAY)
              && days <= threshold
              && (threshold == 7 || (threshold == 15 && 7 < days) || (threshold == 30 && 15 < days))
              && (StoredBand(prevExpiresAt, prevSuccessAt) != 0 ==>
                    threshold < StoredBand(prevExpiresAt, prevSuccessAt))
            case Some(Drifted(_, _)) => false
            case None =>
              expiresAt - now >= 31 * DAY
              || 0 < StoredBand(prevExpiresAt, prevSuccessAt) <= Band(now, expiresAt)
  {
    BandBoundaries(now, expiresAt);
  }

  // ---------------------------------------------------------------- one check

  /** Everything one domain's check meets: the two lookups, the two clocks and the commit. */
  datatype Check = Check(lookup: Lookup, ns: Option<seq<Host>>, now: int, dbNow: int, commit: Commit)

  /** The expiry a check works with: the one found, or the one already known. */
  function ExpiryAfter(known: Option<int>, lookup: Lookup): Option<int> {
    if lookup.Found? && lookup.expiresAt.Some? then lookup.expiresAt else known
  }

  /** An empty or missing baseline has not drifted; any other has when the collections differ. */
  function HasDrifted(expected: Option<seq<Host>>, current: seq<Host>): bool {
    expected.Some? && expected.value != [] && multiset(expected.value) != multiset(current)
  }

  method NsDrift(expected: Option<seq<Host>>, current: seq<Host>) returns (drift: bool)
    ensures drift == HasDrifted(expected, current)
  {
    if expected.None? || expected.value == [] { return false; }
    var same := NsSetsEqual(expected.value, current);
    return !same;
  }

  /** The UPDATE of setHealthCheckResult, column by column. */
  function Written(row: Domain, expiresAt: Option<int>, registrar: Option<string>, currentNS: Option<seq<Host>>,
                   drift: bool, error: Option<string>, dbNow: int): Domain {
    Domain(
      expiresAt,
      registrar,
      if row.expectedNS.Some? then row.expectedNS else currentNS,
      if currentNS.Some? then currentNS else row.currentNS,
      if currentNS.None? then row.drift else drift,
      Some(dbNow),
      if error.None? then Some(dbNow) else row.lastSuccessAt,
      error)
  }

  /** The row a committed check of `listed`, the row as the cycle read it, leaves of the row stored by then. */
  function Persisted(stored: Domain, listed: Domain, check: Check): Domain {
    Written(stored,
            ExpiryAfter(listed.expiresAt, check.lookup),
            if check.lookup.Found? then check.lookup.registrar else listed.registrar,
            check.ns,
            check.ns.Some? && HasDrifted(listed.expectedNS, check.ns.value),
            if check.lookup.Found? then None else Some(check.lookup.message),
            check.dbNow)
  }

  function ExpiryAlertOf(row: Domain, check: Check): Option<Alert> {
    var expiry := ExpiryAfter(row.expiresAt, check.lookup);
    if check.lookup.LookupFailed? || expiry.None? then None
    else ExpirationAlert(check.now, row.expiresAt, row.lastSuccessAt, expiry.value)
  }

  function DriftAlertOf(row: Domain, check: Check): Option<Alert> {
    if check.ns.Some? && HasDrifted(row.expectedNS, check.ns.value)
    then Some(Drifted(row.expectedNS.value, check.ns.value)) else None
  }

  /** The registration half of a check: what to store, and what to alert for. */
  method JudgeExpiry(domain: Domain, check: Check)
    returns (expiresAt: Option<int>, registrar: Option<string>, error: Option<string>, alert: Option<Alert>)
    ensures match check.lookup
            case LookupFailed(message) =>
              expiresAt == domain.expiresAt && registrar == domain.registrar && error == Some(message)
            case Found(None, name) => expiresAt == domain.expiresAt && registrar == name && error == None
            case Found(Some(at), name) => expiresAt == Some(at) && registrar == name && error == None
    ensures expiresAt == ExpiryAfter(domain.expiresAt, check.lookup)
    ensures alert == ExpiryAlertOf(domain, check)
  {
    alert := None;
    match check.lookup {
      case LookupFailed(message) =>
        error := Some(message);
        expiresAt, registrar := domain.expiresAt, domain.registrar;
      case Found(found, name) =>
        error, expiresAt, registrar := None, found, name;
        if expiresAt.None? { expiresAt := domain.expiresAt; }
    }
    if error.None? && expiresAt.Some? {
      alert := ExpirationAlert(check.now, domain.expiresAt, domain.lastSuccessAt, expiresAt.value);
    }
  }

  /** A tenant's domains rows and the alerts dispatched for them. */
  class DomainTable {
    var rows: map<DomainId, Domain>
    var alerts: map<DomainId, seq<Alert>>

    constructor (rows: map<DomainId, Domain>)
      ensures this.rows == rows && alerts == map[]
    {
      this.rows := rows;
      alerts := map[];
    }

    function AlertsOf(id: DomainId): seq<Alert>
      reads this
    {
      if id in alerts then alerts[id] else []
    }

    /** Sends the alert, if there is one. */
    method Dispatch(id: DomainId, alert: Option<Alert>)
      modifies this`alerts
      ensures AlertsOf(id) == old(AlertsOf(id)) + ToSeq(alert)
      ensures forall other :: other != id ==> AlertsOf(other) == old(AlertsOf(other))
    {
      if alert.Some? {
        alerts := alerts[id := AlertsOf(id) + [alert.value]];
      }
    }

    method DispatchBoth(id: DomainId, first: Option<Alert>, second: Option<Alert>)
      modifies this`alerts
      ensures AlertsOf(id) == old(AlertsOf(id)) + (ToSeq(first) + ToSeq(second))
      ensures forall other :: other != id ==> AlertsOf(other) == old(AlertsOf(other))
    {
      Dispatch(id, first);
      Dispatch(id, second);
    }

    /**
     Writes one check's outcome under its transaction. `Err` leaves the row as it
     was, unless the commit is in doubt.
     */
    method SetHealthCheckResult(id: DomainId, expiresAt: Option<int>, registrar: Option<string>,
                                currentNS: Option<seq<Host>>, drift: bool, error: Option<string>,
                                dbNow: int, commit: Commit) returns (r: Result<(), ()>)
      modifies this`rows
      ensures r.Ok? <==> id in old(rows) && commit.Committed?
      ensures rows == (if id in old(rows) && !commit.RolledBack?
                       then old(rows)[id :=
                              Written(old(rows)[id], expiresAt, registrar, currentNS, drift, error, dbNow)]
                       else old(rows))
    {
      if id !in rows || commit.RolledBack? { return Err(()); }
      var row := rows[id];
      // COALESCE(expected_ns, $4): the baseline is learned once.
      var expected := row.expectedNS;
      if expected.None? { expected := currentNS; }
      // COALESCE($4, current_ns) and its CASE for the flag: a failed lookup keeps both.
      var current, flag := row.currentNS, row.drift;
      if currentNS.Some? { current, flag := currentNS, drift; }
      var success := row.lastSuccessAt;
      if error.None? { success := Some(dbNow); }
      rows := rows[id := Domain(expiresAt, registrar, expected, current, flag, Some(dbNow), success, error)];
      if commit.Unknown? { return Err(()); }
      return Ok(());
    }

    /**
     Checks one domain, as the cycle read it, and persists the outcome; alerts
     go out only after a commit that returned no error.
     */
    method CheckAndPersist(id: DomainId, domain: Domain, check: Check) returns (r: Result<(), ()>)
      modifies this
      ensures r.Ok? <==> id in old(rows) && check.commit.Committed?
      ensures rows == (if id in old(rows) && !check.commit.RolledBack?
                       then old(rows)[id := Persisted(old(rows)[id], domain, check)] else old(rows))
      ensures AlertsOf(id) == old(AlertsOf(id)) +
        (if r.Ok? then ToSeq(ExpiryAlertOf(domain, check)) + ToSeq(DriftAlertOf(domain, check)) else [])
      ensures forall other :: other != id ==> AlertsOf(other) == old(AlertsOf(other))
    {
      var expiresAt, registrar, error, expiring := JudgeExpiry(domain, check);
      var drift, drifted := false, None;
      if check.ns.Some? {
        drift := NsDrift(domain.expectedNS, check.ns.value);
        if drift { drifted := Some(Drifted(domain.expectedNS.value, check.ns.value)); }
      }
      assert forall stored ::
        Persisted(stored, domain, check)
          == Written(stored, expiresAt, registrar, check.ns, drift, error, check.dbNow);
      var saved := SetHealthCheckResult(id, expiresAt, registrar, check.ns, drift, error, check.dbNow, check.commit);
      if saved.Err? { return Err(()); }
      DispatchBoth(id, expiring, drifted);
      return Ok(());
    }
  }

  // ---------------------------------------------------------------- runs of one domain

  /** One visit of the cycle to the domain: the row as the cycle listed it, and everything its check meets. */
  datatype Visit = Visit(listed: Domain, check: Check)

  /** The stored row after a visit, whichever way its commit went. */
  function Stored(row: Domain, v: Visit): Domain {
    if v.check.commit.RolledBack? then row else Persisted(row, v.listed, v.check)
  }

  function RunRows(row: Domain, visits: seq<Visit>): Domain
    decreases |visits|
  {
    if visits == [] then row else RunRows(Stored(row, visits[0]), visits[1..])
  }

  function ThresholdOf(v: Visit): seq<int> {
    match ExpiryAlertOf(v.listed, v.check)
    case Some(Expiring(threshold, _)) => if v.check.commit.Committed? then [threshold] else []
    case _ => []
  }

  /** The thresholds alerted for over a run of visits, in order. */
  function ExpiryAlerts(visits: seq<Visit>): seq<int>
    decreases |visits|
  {
    if visits == [] then [] else ThresholdOf(visits[0]) + ExpiryAlerts(visits[1..])
  }

  /** A machine that simply remembers the expiry and the band of the last successful check. */
  datatype Watch = Watch(expiry: Option<int>, band: int)

  predicate ValidWatch(w: Watch) {
    (w.band == 0 || w.band == 7 || w.band == 15 || w.band == 30) && (w.expiry.None? ==> w.band == 0)
  }

  /** The expiry it remembers: the last one a lookup carried. */
  function Remembered(known: Option<int>, lookup: Lookup): Option<int> {
    match lookup
    case Found(Some(at), _) => Some(at)
    case _ => known
  }

  function WatchBand(w: Watch, check: Check): int {
    var expiry := Remembered(w.expiry, check.lookup);
    if expiry.None? then 0 else Band(check.now, expiry.value)
  }

  /** The check reached RDAP and its outcome is stored. */
  predicate Counts(check: Check) {
    check.lookup.Found? && !check.commit.RolledBack?
  }

  function WatchNext(w: Watch, check: Check): Watch {
    if Counts(check) then Watch(Remembered(w.expiry, check.lookup), WatchBand(w, check)) else w
  }

  /** The band is a real one, and narrower than the one before it. */
  predicate Crossed(band: int, previous: int) {
    band != 0 && (previous == 0 || band < previous)
  }

  /** It alerts when the check's band is crossed from the remembered one. */
  function WatchThreshold(w: Watch, check: Check): seq<int> {
    var band := WatchBand(w, check);
    if Counts(check) && check.commit.Committed? && Crossed(band, w.band) then [band] else []
  }

  function WatchAlerts(w: Watch, visits: seq<Visit>): seq<int>
    decreases |visits|
  {
    if visits == [] then []
    else WatchThreshold(w, visits[0].check) + WatchAlerts(WatchNext(w, visits[0].check), visits[1..])
  }

  ghost predicate Refines(row: Domain, w: Watch) {
    row.expiresAt == w.expiry && StoredBand(row.expiresAt, row.lastSuccessAt) == w.band
  }

  /** The listed row stands for the same expiry and band as the row stored by then. */
  predicate Heeds(row: Domain, listed: Domain) {
    && listed.expiresAt == row.expiresAt
    && StoredBand(listed.expiresAt, listed.lastSuccessAt) == StoredBand(row.expiresAt, row.lastSuccessAt)
  }

  ghost predicate AllHeed(row: Domain, visits: seq<Visit>)
    decreases |visits|
  {
    visits == [] || (Heeds(row, visits[0].listed) && AllHeed(Stored(row, visits[0]), visits[1..]))
  }

  /** The success stamp, read off the database clock, falls in the band the check was judged in. */
  predicate StampedInBand(w: Watch, check: Check) {
    var expiry := Remembered(w.expiry, check.lookup);
    Counts(check) && expiry.Some? ==> Band(check.dbNow, expiry.value) == Band(check.now, expiry.value)
  }

  ghost predicate AllStampedInBand(w: Watch, visits: seq<Visit>)
    decreases |visits|
  {
    visits == [] || (StampedInBand(w, visits[0].check) && AllStampedInBand(WatchNext(w, visits[0].check), visits[1..]))
  }

  /** The visit stores the expiry it would from the row as stored by then: no stale one is written back. */
  predicate KeepsExpiry(row: Domain, v: Visit) {
    if v.check.commit.RolledBack? then true
    else match v.check.lookup
      case Found(Some(_), _) => true
      case _ => v.listed.expiresAt == row.expiresAt
  }

  /** From the listed row the check's band looks crossed exactly if it is from the remembered one. */
  predicate JudgedInStep(w: Watch, v: Visit) {
    v.check.lookup.Found? && v.check.commit.Committed? ==>
      var band := WatchBand(w, v.check);
      Crossed(band, StoredBand(v.listed.expiresAt, v.listed.lastSuccessAt)) == Crossed(band, w.band)
  }

  ghost predicate AllKeepExpiry(row: Domain, visits: seq<Visit>)
    decreases |visits|
  {
    visits == [] || (KeepsExpiry(row, visits[0]) && AllKeepExpiry(Stored(row, visits[0]), visits[1..]))
  }

  ghost predicate AllInStep(w: Watch, visits: seq<Visit>)
    decreases |visits|
  {
    if visits == [] then true
    else
      && StampedInBand(w, visits[0].check) && JudgedInStep(w, visits[0])
      && AllInStep(WatchNext(w, visits[0].check), visits[1..])
  }

  /** What one visit needs to alert like the machine, and to leave the stored pair in step with it. */
  lemma VisitRefinesExactly(row: Domain, w: Watch, v: Visit)
    requires Refines(row, w) && KeepsExpiry(row, v)
    ensures Refines(Stored(row, v), WatchNext(w, v.check)) <==> StampedInBand(w, v.check)
    ensures Stored(row, v).expiresAt == WatchNext(w, v.check).expiry
    ensures ThresholdOf(v) == WatchThreshold(w, v.check) <==> JudgedInStep(w, v)
    ensures Heeds(row, v.listed) ==> JudgedInStep(w, v)
  {
  }

  /**
   The alerts of any run of visits, over any mix of successful, failed and
   expiry-less lookups, renewals and failed or doubtful commits, are those of the
   machine that remembers the last band, as long as each visit is in step.
   */
  lemma {:induction false} AlertsRefineWatch(row: Domain, w: Watch, visits: seq<Visit>)
    requires Refines(row, w) && AllKeepExpiry(row, visits) && AllInStep(w, visits)
    ensures ExpiryAlerts(visits) == WatchAlerts(w, visits)
    decreases |visits|
  {
    if visits != [] {
      VisitRefinesExactly(row, w, visits[0]);
      AlertsRefineWatch(Stored(row, visits[0]), WatchNext(w, visits[0].check), visits[1..]);
    }
  }

  /** Visits that heed the row stored by then are in step, if stamped in band. */
  lemma {:induction false} HeedingIsInStep(row: Domain, w: Watch, visits: seq<Visit>)
    requires Refines(row, w) && AllHeed(row, visits) && AllStampedInBand(w, visits)
    ensures AllKeepExpiry(row, visits) && AllInStep(w, visits)
    decreases |visits|
  {
    if visits != [] {
      VisitRefinesExactly(row, w, visits[0]);
      HeedingIsInStep(Stored(row, visits[0]), WatchNext(w, visits[0].check), visits[1..]);
    }
  }

  ghost predicate From(since: int, visits: seq<Visit>) {
    VisitsInOrder(visits) && forall i :: 0 <= i < |visits| ==> since <= visits[i].check.now
  }

  /** Code and machine alert alike on every later continuation that heeds the stored rows and is stamped in band. */
  ghost predicate AlertsAgree(row: Domain, w: Watch, since: int) {
    forall visits {:trigger ExpiryAlerts(visits)} ::
      From(since, visits) && AllHeed(row, visits) && AllStampedInBand(w, visits)
      ==> ExpiryAlerts(visits) == WatchAlerts(w, visits)
  }

  /** Two different bands are told apart by a single check at any later moment, of a domain renewed to expire soon. */
  lemma DifferentBandsAlertDifferently(row: Domain, w: Watch, since: int) returns (v: Visit)
    requires ValidWatch(w) && StoredBand(row.expiresAt, row.lastSuccessAt) != w.band
    ensures v.listed == row && v.check.now == since && StampedInBand(w, v.check)
    ensures ThresholdOf(v) != WatchThreshold(w, v.check)
  {
    var stored := StoredBand(row.expiresAt, row.lastSuccessAt);
    var band := if stored == 0 || (w.band != 0 && w.band < stored) then w.band else stored;
    var expiry := since + band * DAY;
    BandBoundaries(since, expiry);
    v := Visit(row, Check(Found(Some(expiry), row.registrar), None, since, since, Committed));
  }

  lemma OneVisitAlerts(row: Domain, w: Watch, v: Visit)
    requires v.listed == row && StampedInBand(w, v.check)
    ensures From(v.check.now, [v]) && AllHeed(row, [v]) && AllStampedInBand(w, [v])
    ensures ExpiryAlerts([v]) == ThresholdOf(v) && WatchAlerts(w, [v]) == WatchThreshold(w, v.check)
  {
    assert [v][1..] == [];
    assert AllHeed(Stored(row, v), []) && AllStampedInBand(WatchNext(w, v.check), []);
    assert ExpiryAlerts([]) == [] && WatchAlerts(WatchNext(w, v.check), []) == [];
  }

  /** So the pair stands for the band, as far as alerts go, exactly when it refines the machine. */
  lemma AlertsAgreeExactly(row: Domain, w: Watch, since: int)
    requires ValidWatch(w) && row.expiresAt == w.expiry
    ensures AlertsAgree(row, w, since) <==> Refines(row, w)
  {
    if Refines(row, w) {
      forall visits | From(since, visits) && AllHeed(row, visits) && AllStampedInBand(w, visits)
        ensures ExpiryAlerts(visits) == WatchAlerts(w, visits)
      {
        HeedingIsInStep(row, w, visits);
        AlertsRefineWatch(row, w, visits);
      }
    } else {
      var v := DifferentBandsAlertDifferently(row, w, since);
      OneVisitAlerts(row, w, v);
    }
  }

  /** Code and machine alert alike at each visit of the run, and could go on alike from each point of it. */
  ghost predicate AlwaysAgree(row: Domain, w: Watch, since: int, visits: seq<Visit>)
    decreases |visits|
  {
    && AlertsAgree(row, w, since)
    && (visits == [] ||
        (ThresholdOf(visits[0]) == WatchThreshold(w, visits[0].check)
         && AlwaysAgree(Stored(row, visits[0]), WatchNext(w, visits[0].check), visits[0].check.now, visits[1..])))
  }

  /**
   Exactly when the recomputed band is as good as a remembered one: over any run,
   stale listings included, the code alerts like the machine at every visit, and
   from every point on whatever comes next, if and only if every stored success
   was stamped in the band it was judged in, and every listed row lay on the same
   side of that band as the row stored by then.
   */
  lemma {:induction false} AlertsAgreeExactlyWhenInStep(row: Domain, w: Watch, since: int, visits: seq<Visit>)
    requires Refines(row, w) && ValidWatch(w) && AllKeepExpiry(row, visits)
    ensures AlwaysAgree(row, w, since, visits) <==> AllInStep(w, visits)
    decreases |visits|
  {
    AlertsAgreeExactly(row, w, since);
    if visits != [] {
      var row', w' := Stored(row, visits[0]), WatchNext(w, visits[0].check);
      VisitRefinesExactly(row, w, visits[0]);
      AlertsAgreeExactly(row', w', visits[0].check.now);
      if StampedInBand(w, visits[0].check) {
        AlertsAgreeExactlyWhenInStep(row', w', visits[0].check.now, visits[1..]);
      }
    }
  }

  /**
   Over any run that writes no stale expiry back, the stored expiry is the last
   one a stored lookup carried, or the initial one: failed and expiry-less
   lookups never erase it.
   */
  lemma {:induction false} ExpiryIsLastCarried(row: Domain, visits: seq<Visit>)
    requires AllKeepExpiry(row, visits)
    ensures RunRows(row, visits).expiresAt == LastCarried(row.expiresAt, visits)
    decreases |visits|
  {
    if visits != [] {
      ExpiryIsLastCarried(Stored(row, visits[0]), visits[1..]);
    }
  }

  function LastCarried(known: Option<int>, visits: seq<Visit>): Option<int>
    decreases |visits|
  {
    if visits == [] then known
    else match visits[0].check
      case Check(Found(Some(at), _), _, _, _, Committed) => LastCarried(Some(at), visits[1..])
      case Check(Found(Some(at), _), _, _, _, Unknown) => LastCarried(Some(at), visits[1..])
      case _ => LastCarried(known, visits[1..])
  }

  /** What any stored visit leaves in the other columns the lookups fill, and what its drift alert says. */
  lemma StoredColumns(row: Domain, v: Visit)
    requires v.check.commit != RolledBack
    ensures var after := Stored(row, v);
            && after.lastCheckAt == Some(v.check.dbNow)
            && match v.check.lookup
               case LookupFailed(message) =>
                 after.registrar == v.listed.registrar && after.lastError == Some(message)
                 && after.lastSuccessAt == row.lastSuccessAt
               case Found(_, name) =>
                 after.registrar == name && after.lastError == None && after.lastSuccessAt == Some(v.check.dbNow)
    ensures match (v.listed.expectedNS, v.check.ns)
            case (Some(expected), Some(current)) =>
              DriftAlertOf(v.listed, v.check) ==
                (if expected == [] || multiset(expected) == multiset(current) then None
                 else Some(Drifted(expected, current)))
            case _ => DriftAlertOf(v.listed, v.check) == None
  {
  }

  /** A stale listing that writes its expiry back undoes a renewal stored meanwhile. */
  lemma StaleFailureRestoresExpiry(row: Domain, v: Visit)
    requires v.check.lookup.LookupFailed? && !v.check.commit.RolledBack?
    ensures Stored(row, v).expiresAt == v.listed.expiresAt
    ensures KeepsExpiry(row, v) <==> v.listed.expiresAt == row.expiresAt
  {
  }

  // ---------------------------------------------------------------- rows listed earlier

  /** The stored row as visit number `n` finds it. */
  function RowAt(row: Domain, visits: seq<Visit>, n: nat): Domain
    requires n <= |visits|
  {
    RunRows(row, visits[..n])
  }

  lemma {:induction false} NextRowAt(row: Domain, visits: seq<Visit>, n: nat)
    requires n < |visits|
    ensures RowAt(row, visits, n + 1) == Stored(RowAt(row, visits, n), visits[n])
    decreases n
  {
    if n > 0 {
      NextRowAt(Stored(row, visits[0]), visits[1..], n - 1);
      assert visits[..n + 1][1..] == visits[1..][..n] && visits[..n][1..] == visits[1..][..n - 1];
    } else {
      assert visits[..1][1..] == [] && visits[..1][0] == visits[0];
      assert RunRows(Stored(row, visits[0]), []) == Stored(row, visits[0]);
    }
  }

  /** Visit number `i` was listed when visit number `j` was still to come. */
  ghost predicate ListedAt(row: Domain, visits: seq<Visit>, i: nat, j: nat)
    requires i < |visits|
  {
    j <= i && visits[i].listed == RowAt(row, visits, j)
  }

  ghost predicate WasListed(row: Domain, visits: seq<Visit>, i: nat)
    requires i < |visits|
  {
    exists j: nat :: ListedAt(row, visits, i, j)
  }

  /** Every listed row is one the run stored earlier, however long ago. */
  ghost predicate ListedEarlier(row: Domain, visits: seq<Visit>) {
    forall i: nat :: i < |visits| ==> WasListed(row, visits, i)
  }

  lemma {:induction false} ExpiryStays(row: Domain, expiry: int, visits: seq<Visit>, n: nat)
    requires row.expiresAt == Some(expiry) && FixedExpiry(expiry, visits) && ListedEarlier(row, visits)
    requires n <= |visits|
    ensures forall j: nat :: j <= n ==> RowAt(row, visits, j).expiresAt == Some(expiry)
    decreases n
  {
    if n > 0 {
      ExpiryStays(row, expiry, visits, n - 1);
      NextRowAt(row, visits, n - 1);
      assert WasListed(row, visits, n - 1);
      var j: nat :| ListedAt(row, visits, n - 1, j);
      assert Remembered(Some(expiry), visits[n - 1].check.lookup) == Some(expiry);
    }
  }

  /** No stored success among the first `n` visits was in band `band`. */
  ghost predicate NoneStoredIn(expiry: int, visits: seq<Visit>, n: nat, band: int)
    requires n <= |visits|
  {
    forall m :: 0 <= m < n ==> !StoredIn(expiry, visits[m], band)
  }

  predicate StampedIn(expiry: int, v: Visit) {
    Counts(v.check) ==> Band(v.check.dbNow, expiry) == Band(v.check.now, expiry)
  }

  /** With stamps in band, a stored row's band is that of the last success, and no success was in a narrower one. */
  lemma {:induction false} StoredBandAt(row: Domain, expiry: int, visits: seq<Visit>, n: nat)
    requires row.expiresAt == Some(expiry) && FixedExpiry(expiry, visits) && ListedEarlier(row, visits)
    requires StoredBand(row.expiresAt, row.lastSuccessAt) == 0
    requires VisitsInOrder(visits) && forall i :: 0 <= i < |visits| ==> StampedIn(expiry, visits[i])
    requires n <= |visits|
    ensures var at := RowAt(row, visits, n);
            var band := StoredBand(at.expiresAt, at.lastSuccessAt);
            && (band != 0 ==> exists m :: 0 <= m < n && StoredIn(expiry, visits[m], band))
            && (forall m :: 0 <= m < n && Counts(visits[m].check) ==>
                  var b := Band(visits[m].check.now, expiry); b == 0 || (band != 0 && band <= b))
    decreases n
  {
    ExpiryStays(row, expiry, visits, n);
    if n > 0 {
      StoredBandAt(row, expiry, visits, n - 1);
      NextRowAt(row, visits, n - 1);
      if Counts(visits[n - 1].check) {
        forall m | 0 <= m < n
          ensures var b := Band(visits[m].check.now, expiry);
                  var band := Band(visits[n - 1].check.now, expiry);
                  b == 0 || (band != 0 && band <= b)
        {
          BandBoundaries(visits[m].check.now, expiry);
          BandBoundaries(visits[n - 1].check.now, expiry);
        }
      }
    }
  }

  /**
   Whatever was listed when: a success that commits cleanly alerts for its band
   exactly when none in that band had been stored by the time its row was listed.
   Two replicas that list before either persists both alert; otherwise a band is
   alerted once.
   */
  lemma {:induction false} VisitAlertsExactly(row: Domain, expiry: int, visits: seq<Visit>, i: nat, j: nat)
    requires row.expiresAt == Some(expiry) && FixedExpiry(expiry, visits) && ListedEarlier(row, visits)
    requires StoredBand(row.expiresAt, row.lastSuccessAt) == 0
    requires VisitsInOrder(visits) && forall k :: 0 <= k < |visits| ==> StampedIn(expiry, visits[k])
    requires i < |visits| && ListedAt(row, visits, i, j)
    requires visits[i].check.lookup.Found? && visits[i].check.commit.Committed?
    ensures var band := Band(visits[i].check.now, expiry);
            ThresholdOf(visits[i]) == if band != 0 && NoneStoredIn(expiry, visits, j, band) then [band] else []
  {
    var check, listed := visits[i].check, visits[i].listed;
    var band, before := Band(check.now, expiry), StoredBand(listed.expiresAt, listed.lastSuccessAt);
    ExpiryStays(row, expiry, visits, j);
    StoredBandAt(row, expiry, visits, j);
    assert Remembered(Some(expiry), check.lookup) == Some(expiry);
    assert ThresholdOf(visits[i]) == if Crossed(band, before) then [band] else [];
    if band != 0 && !Crossed(band, before) {
      var m :| 0 <= m < j && StoredIn(expiry, visits[m], before);
      BandBoundaries(visits[m].check.now, expiry);
      BandBoundaries(check.now, expiry);
      assert StoredIn(expiry, visits[m], band);
    }
  }

  // ---------------------------------------------------------------- one alert per band

  /** Every lookup that carries an expiry carries this one. */
  ghost predicate FixedExpiry(expiry: int, visits: seq<Visit>) {
    forall i :: 0 <= i < |visits| ==>
      match visits[i].check.lookup
      case Found(Some(at), _) => at == expiry
      case _ => true
  }

  ghost predicate VisitsInOrder(visits: seq<Visit>) {
    forall i, j :: 0 <= i < j < |visits| ==> visits[i].check.now <= visits[j].check.now
  }

  /** A success judged in `band` was stored. */
  predicate StoredIn(expiry: int, v: Visit, band: int) {
    Counts(v.check) && Band(v.check.now, expiry) == band
  }

  /** `band` is a real band, and the first success stored in it was committed without a doubt. */
  ghost predicate FirstStoredCleanly(expiry: int, visits: seq<Visit>, band: int) {
    band != 0 && exists i ::
      && 0 <= i < |visits| && StoredIn(expiry, visits[i], band) && visits[i].check.commit.Committed?
      && forall j :: 0 <= j < i ==> !StoredIn(expiry, visits[j], band)
  }

  /** Alerted so far: strictly narrower each time, and every one of them narrower than `band`. */
  ghost predicate Narrowing(alerts: seq<int>, band: int) {
    && (forall i :: 0 <= i < |alerts| ==> alerts[i] in {7, 15, 30} && (band != 0 ==> alerts[i] < band))
    && (forall i, j :: 0 <= i < j < |alerts| ==> alerts[j] < alerts[i])
  }

  /**
   For a fixed expiry and visits in time order, the alerted thresholds strictly
   decrease, and are exactly the bands, narrower than the one remembered at the
   start, whose first stored success committed cleanly. A commit in doubt there
   is the only way to visit a band without an alert.
   */
  lemma {:induction false} WatchAlertsOncePerBand(expiry: int, band: int, visits: seq<Visit>)
    requires FixedExpiry(expiry, visits) && VisitsInOrder(visits)
    requires forall i :: 0 <= i < |visits| && band != 0 ==> 0 < Band(visits[i].check.now, expiry) <= band
    ensures Narrowing(WatchAlerts(Watch(Some(expiry), band), visits), band)
    ensures forall b :: b in WatchAlerts(Watch(Some(expiry), band), visits)
              <==> FirstStoredCleanly(expiry, visits, b) && (band == 0 || b < band)
    decreases |visits|
  {
    if visits != [] {
      var first, rest := visits[0].check, visits[1..];
      var now := Band(first.now, expiry);
      var next := if Counts(first) then now else band;
      forall i | 0 <= i < |rest| ensures next != 0 ==> 0 < Band(rest[i].check.now, expiry) <= next {
        assert rest[i] == visits[i + 1];
        BandBoundaries(first.now, expiry);
        BandBoundaries(rest[i].check.now, expiry);
      }
      assert Remembered(Some(expiry), first.lookup) == Some(expiry);
      WatchAlertsOncePerBand(expiry, next, rest);
      forall b ensures b in WatchAlerts(Watch(Some(expiry), band), visits)
                 <==> FirstStoredCleanly(expiry, visits, b) && (band == 0 || b < band)
      {
        FirstStoredSplits(expiry, visits, b);
        BandBoundaries(first.now, expiry);
      }
    }
  }

  lemma FirstStoredSplits(expiry: int, visits: seq<Visit>, band: int)
    requires visits != []
    ensures FirstStoredCleanly(expiry, visits, band) <==>
      if StoredIn(expiry, visits[0], band) then band != 0 && visits[0].check.commit.Committed?
      else FirstStoredCleanly(expiry, visits[1..], band)
  {
    var rest := visits[1..];
    if !StoredIn(expiry, visits[0], band) {
      if FirstStoredCleanly(expiry, visits, band) {
        var i :| 0 <= i < |visits| && StoredIn(expiry, visits[i], band) && visits[i].check.commit.Committed?
          && forall j :: 0 <= j < i ==> !StoredIn(expiry, visits[j], band);
        assert rest[i - 1] == visits[i];
      }
      if FirstStoredCleanly(expiry, rest, band) {
        var i :| 0 <= i < |rest| && StoredIn(expiry, rest[i], band) && rest[i].check.commit.Committed?
          && forall j :: 0 <= j < i ==> !StoredIn(expiry, rest[j], band);
        assert visits[i + 1] == rest[i];
        forall j | 0 <= j < i + 1 ensures !StoredIn(expiry, visits[j], band) {
          assert j > 0 ==> visits[j] == rest[j - 1];
        }
      }
    }
  }

  /** How many thresholds are narrower than `band`. */
  function Narrower(band: int): nat {
    if band == 0 || band > 30 then 3 else if band > 15 then 2 else if band > 7 then 1 else 0
  }

  lemma {:induction false} NarrowingIsShort(alerts: seq<int>, band: int)
    requires Narrowing(alerts, band)
    ensures |alerts| <= Narrower(band)
    decreases |alerts|
  {
    if alerts != [] {
      NarrowingIsShort(alerts[1..], alerts[0]);
    }
  }

  /** No lookup answers with any expiry but this one. */
  ghost predicate OnlyExpiry(expiry: int, visits: seq<Visit>) {
    forall i :: 0 <= i < |visits| ==>
      visits[i].check.lookup.Found? ==> visits[i].check.lookup.expiresAt == Some(expiry)
  }

  lemma {:induction false} UnknownExpiryIsLearned(expiry: int, visits: seq<Visit>)
    requires OnlyExpiry(expiry, visits)
    ensures WatchAlerts(Watch(None, 0), visits) == WatchAlerts(Watch(Some(expiry), 0), visits)
    decreases |visits|
  {
    if visits != [] {
      var w := WatchNext(Watch(None, 0), visits[0].check);
      assert w == Watch(None, 0) || w == WatchNext(Watch(Some(expiry), 0), visits[0].check);
      UnknownExpiryIsLearned(expiry, visits[1..]);
    }
  }

  /**
   One alert per band: a domain that is in no band yet, and whose expiry does
   not change, is alerted at most three times, at ever narrower thresholds, and
   exactly for the bands whose first stored success committed cleanly, however
   many lookups fail or go unstored in between.
   */
  lemma OneAlertPerBand(row: Domain, expiry: int, visits: seq<Visit>)
    requires StoredBand(row.expiresAt, row.lastSuccessAt) == 0
    requires row.expiresAt == Some(expiry) || (row.expiresAt == None && OnlyExpiry(expiry, visits))
    requires FixedExpiry(expiry, visits) && VisitsInOrder(visits)
    requires AllKeepExpiry(row, visits) && AllInStep(Watch(row.expiresAt, 0), visits)
    ensures var alerts := ExpiryAlerts(visits);
            && |alerts| <= 3
            && (forall i, j :: 0 <= i < j < |alerts| ==> alerts[j] < alerts[i])
            && (forall b :: b in alerts <==> FirstStoredCleanly(expiry, visits, b))
  {
    AlertsRefineWatch(row, Watch(row.expiresAt, 0), visits);
    if row.expiresAt == None {
      UnknownExpiryIsLearned(expiry, visits);
    }
    WatchAlertsOncePerBand(expiry, 0, visits);
    NarrowingIsShort(WatchAlerts(Watch(Some(expiry), 0), visits), 0);
  }

  lemma {:induction false} StampedUrgentStaysSilent(row: Domain, expiry: int, since: int, visits: seq<Visit>)
    requires row.expiresAt == Some(expiry) && row.lastSuccessAt.Some? && row.lastSuccessAt.value >= since
    requires Band(since, expiry) == 7
    requires FixedExpiry(expiry, visits) && AllHeed(row, visits)
    requires forall i :: 0 <= i < |visits| ==> visits[i].check.dbNow >= since
    ensures ExpiryAlerts(visits) == []
    decreases |visits|
  {
    BandBoundaries(since, expiry);
    BandBoundaries(row.lastSuccessAt.value, expiry);
    if visits != [] {
      assert Remembered(Some(expiry), visits[0].check.lookup) == Some(expiry);
      StampedUrgentStaysSilent(Stored(row, visits[0]), expiry, since, visits[1..]);
    }
  }

  /**
   What the stamp can cost. When a check judged in the 15-day band is stamped,
   off the database clock, in the 7-day band, the urgent alert is never sent: no
   later visit alerts while the expiry stays the same, yet the machine that
   remembers bands would alert at the next stored check.
   */
  lemma LateStampSwallowsUrgentAlert(row: Domain, expiry: int, v: Visit, visits: seq<Visit>)
    requires v.check.lookup.Found? && v.check.lookup.expiresAt == Some(expiry) && v.check.commit.Committed?
    requires Band(v.check.now, expiry) == 15 && Band(v.check.dbNow, expiry) == 7
    requires FixedExpiry(expiry, visits) && AllHeed(Stored(row, v), visits)
    requires forall i :: 0 <= i < |visits| ==> visits[i].check.dbNow >= v.check.dbNow
    ensures ExpiryAlerts(visits) == []
    ensures visits != [] && StoredIn(expiry, visits[0], 7) && visits[0].check.commit.Committed?
      ==> 7 in WatchAlerts(Watch(Some(expiry), 15), visits)
  {
    StampedUrgentStaysSilent(Stored(row, v), expiry, v.check.dbNow, visits);
    assert visits != [] ==> Remembered(Some(expiry), visits[0].check.lookup) == Some(expiry);
  }

  // ---------------------------------------------------------------- nameservers

  /** The flag says whether the latest nameservers differ from the learned baseline. */
  ghost predicate FlagTellsDrift(row: Domain) {
    row.drift <==> row.currentNS.Some? && HasDrifted(row.expectedNS, row.currentNS.value)
  }

  /** The visit stores a nameserver answer. */
  predicate Answers(v: Visit) {
    v.check.ns.Some? && !v.check.commit.RolledBack?
  }

  /** What the first stored answer of a run is, if there is one. */
  function FirstAnswer(visits: seq<Visit>): Option<seq<Host>>
    decreases |visits|
  {
    if visits == [] then None
    else if Answers(visits[0]) then visits[0].check.ns
    else FirstAnswer(visits[1..])
  }

  /** And the last one. */
  function LastAnswer(visits: seq<Visit>): Option<seq<Host>>
    decreases |visits|
  {
    if visits == [] then None
    else
      var later := LastAnswer(visits[1..]);
      if later.None? && Answers(visits[0]) then visits[0].check.ns else later
  }

  /**
   Over any run, however stale the rows the cycle listed: the baseline is the
   first stored answer and never changes again, and the current set is the last.
   */
  lemma {:induction false} BaselineIsWriteOnce(row: Domain, visits: seq<Visit>)
    ensures var end := RunRows(row, visits);
            && end.expectedNS == (if row.expectedNS.Some? then row.expectedNS else FirstAnswer(visits))
            && end.currentNS == (if LastAnswer(visits).Some? then LastAnswer(visits) else row.currentNS)
    decreases |visits|
  {
    if visits != [] {
      BaselineIsWriteOnce(Stored(row, visits[0]), visits[1..]);
    }
  }

  lemma {:induction false} BaselineStays(row: Domain, visits: seq<Visit>, j: nat, i: nat)
    requires j <= i <= |visits| && RowAt(row, visits, j).expectedNS.Some?
    ensures RowAt(row, visits, i).expectedNS == RowAt(row, visits, j).expectedNS
    decreases i - j
  {
    if j < i {
      BaselineStays(row, visits, j, i - 1);
      NextRowAt(row, visits, i - 1);
    }
  }

  /**
   Visit number `i` stores an answer that differs from a non-empty baseline which
   was learned only after its row was listed.
   */
  ghost predicate Overtaken(visits: seq<Visit>, i: nat)
    requires i < |visits|
  {
    var learned := FirstAnswer(visits[..i]);
    && Answers(visits[i]) && visits[i].listed.expectedNS.None?
    && learned.Some? && learned.value != [] && multiset(learned.value) != multiset(visits[i].check.ns.value)
  }

  lemma {:induction false} FlagAfterVisit(row: Domain, visits: seq<Visit>, i: nat)
    requires row.expectedNS.None? <==> row.currentNS.None?
    requires i < |visits| && ListedEarlier(row, visits) && FlagTellsDrift(RowAt(row, visits, i))
    ensures FlagTellsDrift(RowAt(row, visits, i + 1)) <==> !Overtaken(visits, i)
  {
    NextRowAt(row, visits, i);
    BaselineIsWriteOnce(row, visits[..i]);
    assert WasListed(row, visits, i);
    var j: nat :| ListedAt(row, visits, i, j);
    if RowAt(row, visits, j).expectedNS.Some? {
      BaselineStays(row, visits, j, i);
    }
    if row.expectedNS.Some? {
      BaselineIsWriteOnce(row, visits[..j]);
    }
  }

  /**
   Each listed row being one the run stored earlier, however long ago: the drift
   flag compares the last answer with the baseline at every point of the run if
   and only if no stored answer was overtaken by the first one, that is judged
   from a row listed before a non-empty baseline was learned, and different from it.
   */
  lemma {:induction false} FlagTellsDriftExactly(row: Domain, visits: seq<Visit>)
    requires FlagTellsDrift(row) && (row.expectedNS.None? <==> row.currentNS.None?) && ListedEarlier(row, visits)
    ensures (forall n: nat :: n <= |visits| ==> FlagTellsDrift(RowAt(row, visits, n)))
      <==> forall i: nat :: i < |visits| ==> !Overtaken(visits, i)
  {
    assert RowAt(row, visits, 0) == row;
    if forall i: nat :: i < |visits| ==> !Overtaken(visits, i) {
      for n := 0 to |visits|
        invariant forall m: nat :: m <= n ==> FlagTellsDrift(RowAt(row, visits, m))
      {
        FlagAfterVisit(row, visits, n);
      }
    } else {
      var i: nat :| i < |visits| && Overtaken(visits, i);
      if FlagTellsDrift(RowAt(row, visits, i)) {
        FlagAfterVisit(row, visits, i);
      }
    }
  }

  /** A visit whose nameserver lookup failed changes none of the three columns and reports no drift. */
  lemma FailedNSLookupKeepsColumns(row: Domain, v: Visit)
    requires v.check.ns.None?
    ensures var after := Stored(row, v);
            after.expectedNS == row.expectedNS && after.currentNS == row.currentNS && after.drift == row.drift
    ensures DriftAlertOf(v.listed, v.check) == None
  {
  }

  /**
   Drift can be noticed at all exactly when the first stored answer was not
   empty: an empty first answer is kept as the baseline and silences the domain
   for good, since an empty baseline counts as none.
   */
  lemma DriftNoticedOnlyWithBaseline(visits: seq<Visit>, current: seq<Host>, later: Check)
    requires FirstAnswer(visits).Some?
    requires later.ns == Some(current) && multiset(current) != multiset(FirstAnswer(visits).value)
    ensures DriftAlertOf(RunRows(UNCHECKED, visits), later).Some? <==> FirstAnswer(visits) != Some([])
  {
    BaselineIsWriteOnce(UNCHECKED, visits);
  }

  lemma {:induction false} FirstAnswerIsLowerCase(visits: seq<Visit>)
    requires forall i :: 0 <= i < |visits| && Answers(visits[i]) ==> LowerCase(visits[i].check.ns.value)
    ensures FirstAnswer(visits).Some? ==> LowerCase(FirstAnswer(visits).value)
    decreases |visits|
  {
    if visits != [] && !Answers(visits[0]) {
      FirstAnswerIsLowerCase(visits[1..]);
    }
  }

  /** As long as every lookup lower-cases its answer, drift against the learned baseline ignores letter case. */
  lemma DriftIgnoresCase(visits: seq<Visit>, current: seq<Host>)
    requires forall i :: 0 <= i < |visits| && Answers(visits[i]) ==> LowerCase(visits[i].check.ns.value)
    requires LowerCase(current)
    ensures var expected := RunRows(UNCHECKED, visits).expectedNS;
            HasDrifted(expected, current) <==>
              expected.Some? && expected.value != []
              && multiset(AllFolded(expected.value)) != multiset(AllFolded(current))
  {
    BaselineIsWriteOnce(UNCHECKED, visits);
    FirstAnswerIsLowerCase(visits);
    var expected := RunRows(UNCHECKED, visits).expectedNS;
    if expected.Some? {
      ComparesFoldedExactly(expected.value);
      assert ComparesFolded(expected.value, current);
    }
  }
}
