/**
 The poller's lifecycle on one replica: what each critical section of
 PollerManager does to its fields and to the goroutines it owns.
 */
module PollerManager {
  import opened Prelude

  /** A goroutine, numbered in the order they are started. */
  type Go = nat

  /**
   The fields m.mu protects, the leading flag, and the goroutines that have not
   returned yet. `done` stands for the cancel/done pair: both are nil or neither.
   */
  datatype Fields = Fields(
    leading: bool,
    done: Option<Go>,
    manualDone: Option<Go>,
    live: set<Go>,
    manualLive: set<Go>,
    next: Go)

  /** What newPollerFromStoredIntegration returned. */
  datatype Built = Poller | NothingStored | BuildFailed

  function Tracked(done: Option<Go>): set<Go> {
    if done.Some? then {done.value} else {}
  }

  /** Every goroutine that has not returned is the one its manager can cancel. */
  ghost predicate Owned(f: Fields) {
    && f.live <= Tracked(f.done) && f.manualLive <= Tracked(f.manualDone)
    && (f.done.Some? ==> f.done.value < f.next) && (f.manualDone.Some? ==> f.manualDone.value < f.next)
  }

  /** cancel and wait: the tracked poller has returned, and is no longer tracked. */
  function PollerStopped(f: Fields): Fields {
    f.(done := None, live := f.live - Tracked(f.done))
  }

  function ManualStopped(f: Fields): Fields {
    f.(manualDone := None, manualLive := f.manualLive - Tracked(f.manualDone))
  }

  function PollerSpawned(f: Fields): Fields {
    f.(done := Some(f.next), live := f.live + {f.next}, next := f.next + 1)
  }

  function ManualSpawned(f: Fields): Fields {
    if f.manualDone.Some? then f
    else f.(manualDone := Some(f.next), manualLive := f.manualLive + {f.next}, next := f.next + 1)
  }

  function Restarted(f: Fields, built: Built): Fields {
    if !f.leading then f
    else if built.Poller? then PollerSpawned(PollerStopped(f))
    else PollerStopped(f)
  }

  /** Stop, and the block that gives leadership up, differ only in the leading flag. */
  function StoppedAll(f: Fields): Fields {
    ManualStopped(PollerStopped(f))
  }

  function LeadershipLost(f: Fields): Fields {
    StoppedAll(f.(leading := false))
  }

  /** A call another goroutine gets in between two heartbeats. */
  datatype Call = Restarts(built: Built) | Stops

  /**
   What one heartbeat meets: the calls of HTTP handlers and of shutdown since the
   last one, the probe's answer, and what the stored integration builds should it
   be tried.
   */
  datatype Beat = Beat(calls: seq<Call>, healthy: bool, built: Built)

  /** How one attempt on the lock ends. A term lasts until its first unhealthy beat, or until shutdown. */
  datatype Attempt = Unavailable | HeldElsewhere | Acquired(built: Built, beats: seq<Beat>, stopping: bool)

  /**
   What a term did: whether the manual scheduler and a poller ran once it had
   begun, how many beats it served, and whether a poller ran when it ended.
   */
  datatype Term = Term(manual: bool, started: bool, served: nat, poller: bool)

  /** Whether a poller runs after some calls on a leading replica: the last one decides. */
  function RunningSince(running: bool, calls: seq<Call>): bool {
    if calls == [] then running
    else
      var last := calls[|calls| - 1];
      last.Restarts? && last.built.Poller?
  }

  /** Whether beat `k` finds a poller running, if one ran when the term's heartbeat began. */
  function RunningAt(running: bool, beats: seq<Beat>, k: nat): bool
    requires k < |beats|
    decreases k, 1
  {
    RunningSince(RunningAfter(running, beats, k), beats[k].calls)
  }

  /** Whether a poller runs once `k` beats have done their work. */
  function RunningAfter(running: bool, beats: seq<Beat>, k: nat): bool
    requires k <= |beats|
    decreases k, 0
  {
    if k == 0 then running else RunningAt(running, beats, k - 1) || beats[k - 1].built.Poller?
  }

  /** How many beats pass before the session is found dead. */
  function HealthyBeats(beats: seq<Beat>): (n: nat)
    ensures n <= |beats|
    ensures forall k :: 0 <= k < n ==> beats[k].healthy
    ensures n < |beats| ==> !beats[n].healthy
  {
    if beats == [] || !beats[0].healthy then 0 else 1 + HealthyBeats(beats[1..])
  }

  function TermOf(built: Built, beats: seq<Beat>): Term {
    var n := HealthyBeats(beats);
    Term(true, built.Poller?, n, RunningAfter(built.Poller?, beats, n))
  }

  /** The terms among the attempts, up to the one that ends in shutdown, and what each must do. */
  function TermsOf(attempts: seq<Attempt>): seq<Term> {
    if attempts == [] then []
    else match attempts[0]
      case Acquired(built, beats, stopping) =>
        [TermOf(built, beats)] + if stopping then [] else TermsOf(attempts[1..])
      case _ => TermsOf(attempts[1..])
  }

  /** How many pollers the calls start on a leading replica. */
  function Starts(calls: seq<Call>): nat {
    if calls == [] then 0
    else Starts(calls[..|calls| - 1]) + if calls[|calls| - 1] == Restarts(Poller) then 1 else 0
  }

  /** A Stop came in during the first `k` beats. */
  predicate StoppedIn(beats: seq<Beat>, k: nat)
    requires k <= |beats|
  {
    k > 0 && (StoppedIn(beats, k - 1) || Stops in beats[k - 1].calls)
  }

  /** How many pollers are started over the first `k` beats. */
  function StartsIn(running: bool, beats: seq<Beat>, k: nat): nat
    requires k <= |beats|
  {
    if k == 0 then 0
    else
      StartsIn(running, beats, k - 1) + Starts(beats[k - 1].calls)
        + if !RunningAt(running, beats, k - 1) && beats[k - 1].built.Poller? then 1 else 0
  }

  /** How many goroutines one term starts: its manual scheduler, and its pollers. */
  function StartedBy(built: Built, beats: seq<Beat>): nat {
    1 + (if built.Poller? then 1 else 0) + StartsIn(built.Poller?, beats, HealthyBeats(beats))
  }

  function Started(attempts: seq<Attempt>): nat {
    if attempts == [] then 0
    else match attempts[0]
      case Acquired(built, beats, stopping) =>
        StartedBy(built, beats) + if stopping then 0 else Started(attempts[1..])
      case _ => Started(attempts[1..])
  }

  /** Beat `k` tries to start a poller and finds no integration stored. */
  predicate FindsNothing(running: bool, beats: seq<Beat>, k: nat)
    requires k < |beats|
  {
    !RunningAt(running, beats, k) && beats[k].built.NothingStored?
  }

  /** An earlier beat of the same outage, before beat `k`, has found nothing already. */
  ghost predicate OutageKnown(running: bool, beats: seq<Beat>, k: nat)
    requires k <= |beats|
  {
    exists u :: 0 <= u < k && FindsNothing(running, beats, u)
      && forall m :: u + 1 < m <= k ==> !RunningAfter(running, beats, m)
  }

  lemma OutageKnownStep(running: bool, beats: seq<Beat>, k: nat)
    requires k < |beats|
    ensures OutageKnown(running, beats, k + 1) <==>
      FindsNothing(running, beats, k) || (OutageKnown(running, beats, k) && !RunningAfter(running, beats, k + 1))
  {
    if OutageKnown(running, beats, k) && !RunningAfter(running, beats, k + 1) {
      var u :| 0 <= u < k && FindsNothing(running, beats, u)
        && forall m :: u + 1 < m <= k ==> !RunningAfter(running, beats, m);
      assert forall m :: u + 1 < m <= k + 1 ==> !RunningAfter(running, beats, m);
    }
    if OutageKnown(running, beats, k + 1) && !FindsNothing(running, beats, k) {
      var u :| 0 <= u < k + 1 && FindsNothing(running, beats, u)
        && forall m :: u + 1 < m <= k + 1 ==> !RunningAfter(running, beats, m);
      assert u < k;
    }
  }

  class Manager {
    var leading: bool
    var done: Option<Go>
    var manualDone: Option<Go>
    var live: set<Go>
    var manualLive: set<Go>
    var next: Go

    ghost function State(): Fields
      reads this
    {
      Fields(leading, done, manualDone, live, manualLive, next)
    }

    constructor ()
      ensures State() == Fields(false, None, None, {}, {}, 0)
    {
      leading, done, manualDone, live, manualLive, next := false, None, None, {}, {}, 0;
    }

    method StopLocked()
      modifies this
      ensures State() == PollerStopped(old(State()))
    {
      if done.None? { return; }
      // cancel, then wait on the done channel: the goroutine has returned.
      live := live - {done.value};
      done := None;
    }

    method StopManualLocked()
      modifies this
      ensures State() == ManualStopped(old(State()))
    {
      if manualDone.None? { return; }
      manualLive := manualLive - {manualDone.value};
      manualDone := None;
    }

    method StartManualScheduler()
      modifies this
      ensures State() == ManualSpawned(old(State()))
      ensures old(Owned(State())) ==> Owned(State())
    {
      if manualDone.Some? { return; }
      manualDone := Some(next);
      manualLive := manualLive + {next};
      next := next + 1;
    }

    /** Tears the old poller down before the new one starts, and never touches the manual scheduler. */
    method Restart(built: Built) returns (r: Result<bool, ()>)
      modifies this
      ensures State() == Restarted(old(State()), built)
      ensures r == (if !old(leading) || built.NothingStored? then Ok(false)
                    else if built.BuildFailed? then Err(()) else Ok(true))
      ensures old(Owned(State())) ==> Owned(State())
      ensures old(Owned(State())) && r == Ok(true) ==> live == {old(next)} && done == Some(old(next))
    {
      if !leading { return Ok(false); }
      StopLocked();
      match built {
        case BuildFailed => return Err(());
        case NothingStored => return Ok(false);
        case Poller =>
          done := Some(next);
          live := live + {next};
          next := next + 1;
          return Ok(true);
      }
    }

    method Stop()
      modifies this
      ensures State() == StoppedAll(old(State()))
      ensures old(Owned(State())) ==> live == {} && manualLive == {}
    {
      StopLocked();
      StopManualLocked();
    }

    /** The block RunLeaderLoop runs under m.mu when the lock is lost or the process is stopping. */
    method LoseLeadership()
      modifies this
      ensures State() == LeadershipLost(old(State()))
      ensures old(Owned(State())) ==> !leading && live == {} && manualLive == {}
    {
      leading := false;
      StopLocked();
      StopManualLocked();
    }

    /** The calls that come in before a beat, one after the other: each has m.mu to itself. */
    method TakeCalls(calls: seq<Call>)
      requires Owned(State()) && leading
      modifies this
      ensures Owned(State()) && leading
      ensures done.Some? <==> RunningSince(old(done.Some?), calls)
      ensures manualDone == if Stops in calls then None else old(manualDone)
      ensures next == old(next) + Starts(calls)
    {
      for k := 0 to |calls|
        invariant Owned(State()) && leading
        invariant done.Some? <==> RunningSince(old(done.Some?), calls[..k])
        invariant manualDone == if Stops in calls[..k] then None else old(manualDone)
        invariant next == old(next) + Starts(calls[..k])
      {
        assert calls[..k + 1] == calls[..k] + [calls[k]];
        assert calls[..k + 1][..k] == calls[..k];
        match calls[k] {
          case Restarts(built) => var _ := Restart(built);
          case Stops => Stop();
        }
      }
      assert calls[..|calls|] == calls;
    }

    /** One healthy beat: start a poller if none is tracked, and log a missing integration unless that was done. */
    method ServeBeat(beat: Beat, warned: bool) returns (warnedAfter: bool, logged: bool)
      requires Owned(State()) && leading
      modifies this
      ensures Owned(State()) && leading
      ensures manualDone == if Stops in beat.calls then None else old(manualDone)
      ensures var found := RunningSince(old(done.Some?), beat.calls);
              && (done.Some? <==> found || beat.built.Poller?)
              && next == old(next) + Starts(beat.calls) + (if !found && beat.built.Poller? then 1 else 0)
              && (logged <==> !found && beat.built.NothingStored? && !warned)
              && (warnedAfter <==> (!found && beat.built.NothingStored?) || (warned && done.None?))
    {
      TakeCalls(beat.calls);
      if done.Some? { return false, false; }
      var started := Restart(beat.built);
      if started == Ok(true) { return false, false; }
      if started.Ok? && !warned { return true, true; }
      return warned, false;
    }

    /**
     Heartbeats until the session is found dead or the beats run out (shutdown).
     A leader without a poller keeps trying, so one runs at the end exactly when
     the last word was a start; and the missing integration is logged once per
     outage, at its first beat that finds none.
     */
    method HeartbeatUntilLost(beats: seq<Beat>) returns (served: nat, warnings: set<nat>)
      requires Owned(State()) && leading
      modifies this
      ensures Owned(State()) && leading
      ensures served == HealthyBeats(beats)
      ensures manualDone == if StoppedIn(beats, served) then None else old(manualDone)
      ensures done.Some? <==> RunningAfter(old(done.Some?), beats, served)
      ensures next == old(next) + StartsIn(old(done.Some?), beats, served)
      ensures forall k :: 0 <= k < served ==>
        (k in warnings <==>
          FindsNothing(old(done.Some?), beats, k) && !OutageKnown(old(done.Some?), beats, k))
      ensures forall k :: k in warnings ==> k < served
    {
      var warnedNotStarted := false;
      warnings := {};
      served := 0;
      ghost var running := done.Some?;
      for k := 0 to |beats|
        invariant served == k <= HealthyBeats(beats)
        invariant Owned(State()) && leading
        invariant manualDone == if StoppedIn(beats, k) then None else old(manualDone)
        invariant done.Some? <==> RunningAfter(running, beats, k)
        invariant next == old(next) + StartsIn(running, beats, k)
        invariant warnedNotStarted <==> OutageKnown(running, beats, k)
        invariant forall j :: 0 <= j < k ==>
          (j in warnings <==> FindsNothing(running, beats, j) && !OutageKnown(running, beats, j))
        invariant forall j :: j in warnings ==> j < k
      {
        if !beats[k].healthy { return; }
        OutageKnownStep(running, beats, k);
        var logged;
        warnedNotStarted, logged := ServeBeat(beats[k], warnedNotStarted);
        if logged { warnings := warnings + {k}; }
        served := served + 1;
      }
    }

    /** One term, from the lock won to the block that gives leadership up. */
    method RunTerm(built: Built, beats: seq<Beat>) returns (term: Term)
      requires Owned(State()) && !leading && done.None? && manualDone.None?
      modifies this
      ensures Owned(State()) && !leading && done.None? && manualDone.None?
      ensures term == TermOf(built, beats)
      ensures next == old(next) + StartedBy(built, beats)
    {
      leading := true;
      StartManualScheduler();
      var manual := manualDone.Some?;
      var started := Restart(built);
      var served, _ := HeartbeatUntilLost(beats);
      term := Term(manual, started == Ok(true), served, done.Some?);
      LoseLeadership();
    }

    /**
     The leader loop over any finite stretch of lock attempts. Every term starts one
     manual scheduler, tries the poller once and serves its healthy beats; between
     terms, and when it returns, this replica leads nothing and runs nothing,
     however its terms went; it keeps trying until one of them ends in shutdown.
     */
    method RunLeaderLoop(attempts: seq<Attempt>) returns (terms: seq<Term>)
      requires Owned(State()) && !leading && done.None? && manualDone.None?
      modifies this
      ensures Owned(State()) && !leading && live == {} && manualLive == {}
      ensures terms == TermsOf(attempts)
      ensures next == old(next) + Started(attempts)
    {
      terms := [];
      for k := 0 to |attempts|
        invariant Owned(State()) && !leading && done.None? && manualDone.None?
        invariant terms + TermsOf(attempts[k..]) == TermsOf(attempts)
        invariant next + Started(attempts[k..]) == old(next) + Started(attempts)
      {
        assert attempts[k..][1..] == attempts[k + 1..] && attempts[k..][0] == attempts[k];
        if !attempts[k].Acquired? { continue; }
        var term := RunTerm(attempts[k].built, attempts[k].beats);
        terms := terms + [term];
        if attempts[k].stopping { return; }
      }
      assert attempts[|attempts|..] == [];
    }
  }

  /**
   Stop only promises what it has stopped: a Restart that comes after it starts
   a poller again exactly when the replica still leads and there is one to
   build. After leadership is lost no Restart starts anything.
   */
  lemma RestartAfterStop(f: Fields, built: Built)
    requires Owned(f)
    ensures StoppedAll(f).live == {} && StoppedAll(f).manualLive == {}
    ensures Restarted(StoppedAll(f), built).live != {} <==> f.leading && built.Poller?
    ensures Restarted(LeadershipLost(f), built) == LeadershipLost(f)
  {
    if f.leading && built.Poller? {
      assert f.next in Restarted(StoppedAll(f), built).live;
    }
  }
}
