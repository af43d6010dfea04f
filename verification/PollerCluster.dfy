/**
 The leader election protocol over any number of replicas: the leader loop, its
 heartbeat, HTTP-triggered restarts, shutdown, dying lock sessions and crashes,
 interleaved one atomic step at a time.
 */
module PollerCluster {
  import opened Prelude
  import opened PollerManager

  /** Thread 0 of a replica runs RunLeaderLoop; any other may call Restart or Stop. */
  const LEADER_LOOP: Tid := 0

  /** Program counters. The names ending in `In`, `Cancel`, `Join` and `Build` are points under m.mu. */
  datatype Pc =
    | Out                                                      // not in any operation; the loop: about to try the lock
    | Got                                                      // lock taken, leading not stored yet
    | ManualWait | ManualIn                                    // startManualScheduler
    | RestartWait | RestartIn | RestartCancel | RestartJoin | RestartBuild
    | Beat                                                     // heartbeatUntilLost
    | LoseWait | LoseIn                                        // the block that gives leadership up
    | StopWait                                                 // Stop, waiting for m.mu
    | StopCancel | StopJoin | StopManualCancel | StopManualJoin // shared by Stop and the block above
    | Releasing                                                // after the block, before handle.Release
    | Returned                                                 // RunLeaderLoop has returned

  datatype Replica = Replica(fields: Fields, mutex: Option<Tid>, threads: map<Tid, Pc>)

  const BOOTED := Replica(Fields(false, None, None, {}, {}, 0), None, map[])

  function PcOf(r: Replica, t: Tid): Pc {
    if t in r.threads then r.threads[t] else Out
  }

  function Loop(r: Replica): Pc {
    PcOf(r, LEADER_LOOP)
  }

  /** An atomic step of one replica. */
  datatype Local =
    | StoreLeading
    | Enter(t: Tid)
    | StartManual
    | ReadLeading(t: Tid)
    | CancelOld(t: Tid)
    | JoinOld(t: Tid)
    | Build(t: Tid, built: Built)
    | BeatHealthy
    | BeatLost
    | ClearLeading
    | CancelPoller(t: Tid)
    | JoinPoller(t: Tid)
    | CancelManual(t: Tid)
    | JoinManual(t: Tid)
    | PollerReturns(g: Go)
    | ManualReturns(g: Go)
    | CallRestart(t: Tid)
    | CallStop(t: Tid)

  /** The thread that takes the step; a goroutine that returns is not a thread of its own. */
  function Actor(a: Local): Option<Tid> {
    match a
    case PollerReturns(_) => None
    case ManualReturns(_) => None
    case Enter(t) => Some(t)
    case ReadLeading(t) => Some(t)
    case CancelOld(t) => Some(t)
    case JoinOld(t) => Some(t)
    case Build(t, _) => Some(t)
    case CancelPoller(t) => Some(t)
    case JoinPoller(t) => Some(t)
    case CancelManual(t) => Some(t)
    case JoinManual(t) => Some(t)
    case CallRestart(t) => Some(t)
    case CallStop(t) => Some(t)
    case _ => Some(LEADER_LOOP)
  }

  /** Blocked on m.mu. */
  predicate Waiting(pc: Pc) {
    pc.ManualWait? || pc.RestartWait? || pc.LoseWait? || pc.StopWait?
  }

  predicate Can(r: Replica, a: Local) {
    var f := r.fields;
    match a
    case StoreLeading => Loop(r).Got?
    case Enter(t) =>
      r.mutex.None? && Waiting(PcOf(r, t))
    case StartManual => Loop(r).ManualIn?
    case ReadLeading(t) => PcOf(r, t).RestartIn?
    case CancelOld(t) => PcOf(r, t).RestartCancel?
    case JoinOld(t) => PcOf(r, t).RestartJoin? && Tracked(f.done) !! f.live
    case Build(t, built) => PcOf(r, t).RestartBuild?
    case BeatHealthy => Loop(r).Beat? && r.mutex.None?
    case BeatLost => Loop(r).Beat?
    case ClearLeading => Loop(r).LoseIn?
    case CancelPoller(t) => PcOf(r, t).StopCancel?
    case JoinPoller(t) => PcOf(r, t).StopJoin? && Tracked(f.done) !! f.live
    case CancelManual(t) => PcOf(r, t).StopManualCancel?
    case JoinManual(t) => PcOf(r, t).StopManualJoin? && Tracked(f.manualDone) !! f.manualLive
    case PollerReturns(g) => g in f.live
    case ManualReturns(g) => g in f.manualLive
    case CallRestart(t) => t != LEADER_LOOP && PcOf(r, t).Out?
    case CallStop(t) => t != LEADER_LOOP && PcOf(r, t).Out?
  }

  function GoTo(r: Replica, t: Tid, pc: Pc): Replica {
    r.(threads := r.threads[t := pc])
  }

  /** Unlocks m.mu on the way out of Restart: the loop goes back to its heartbeat. */
  function LeaveRestart(r: Replica, t: Tid): Replica {
    GoTo(r.(mutex := None), t, if t == LEADER_LOOP then Pc.Beat else Out)
  }

  function LeaveStop(r: Replica, t: Tid): Replica {
    GoTo(r.(mutex := None), t, if t == LEADER_LOOP then Releasing else Out)
  }

  function Inside(pc: Pc): Pc
    requires Waiting(pc)
  {
    match pc
    case ManualWait => ManualIn
    case RestartWait => RestartIn
    case LoseWait => LoseIn
    case _ => StopCancel
  }

  function Do(r: Replica, a: Local): Replica
    requires Can(r, a)
  {
    var f := r.fields;
    match a
    case StoreLeading => GoTo(r.(fields := f.(leading := true)), LEADER_LOOP, ManualWait)
    case Enter(t) => GoTo(r.(mutex := Some(t)), t, Inside(PcOf(r, t)))
    case StartManual => GoTo(r.(fields := ManualSpawned(f), mutex := None), LEADER_LOOP, RestartWait)
    case ReadLeading(t) => if f.leading then GoTo(r, t, RestartCancel) else LeaveRestart(r, t)
    case CancelOld(t) => GoTo(r, t, if f.done.None? then RestartBuild else RestartJoin)
    case JoinOld(t) => GoTo(r.(fields := f.(done := None)), t, RestartBuild)
    case Build(t, built) => LeaveRestart(r.(fields := if built.Poller? then PollerSpawned(f) else f), t)
    case BeatHealthy => if f.done.Some? then r else GoTo(r, LEADER_LOOP, RestartWait)
    case BeatLost => GoTo(r, LEADER_LOOP, LoseWait)
    case ClearLeading => GoTo(r.(fields := f.(leading := false)), LEADER_LOOP, StopCancel)
    case CancelPoller(t) => GoTo(r, t, if f.done.None? then StopManualCancel else StopJoin)
    case JoinPoller(t) => GoTo(r.(fields := f.(done := None)), t, StopManualCancel)
    case CancelManual(t) => if f.manualDone.None? then LeaveStop(r, t) else GoTo(r, t, StopManualJoin)
    case JoinManual(t) => LeaveStop(r.(fields := f.(manualDone := None)), t)
    case PollerReturns(g) => r.(fields := f.(live := f.live - {g}))
    case ManualReturns(g) => r.(fields := f.(manualLive := f.manualLive - {g}))
    case CallRestart(t) => GoTo(r, t, RestartWait)
    case CallStop(t) => GoTo(r, t, StopWait)
  }

  // ---------------------------------------------------------------- one replica

  predicate InSection(pc: Pc) {
    || pc.ManualIn? || pc.RestartIn? || pc.RestartCancel? || pc.RestartJoin? || pc.RestartBuild? || pc.LoseIn?
    || pc.StopCancel? || pc.StopJoin? || pc.StopManualCancel? || pc.StopManualJoin?
  }

  /** Where the loop is while this replica counts as leading. */
  predicate Leads(pc: Pc) {
    || pc.ManualWait? || pc.ManualIn?
    || pc.RestartWait? || pc.RestartIn? || pc.RestartCancel? || pc.RestartJoin? || pc.RestartBuild?
    || pc.Beat? || pc.LoseWait? || pc.LoseIn?
  }

  /** Inside stopLocked and stopManualLocked, on behalf of Stop or of the loop. */
  predicate Stopping(pc: Pc) {
    pc.StopCancel? || pc.StopJoin? || pc.StopManualCancel? || pc.StopManualJoin?
  }

  predicate LoopOnly(pc: Pc) {
    || pc.Got? || pc.ManualWait? || pc.ManualIn? || pc.Beat?
    || pc.LoseWait? || pc.LoseIn? || pc.Releasing? || pc.Returned?
  }

  /** What the holder of the mutex knows at each point of its critical section. */
  predicate SectionInv(r: Replica, t: Tid) {
    var f := r.fields;
    match PcOf(r, t)
    case RestartCancel => f.leading
    case RestartJoin => f.leading && f.done.Some?
    case RestartBuild => f.leading && f.done.None?
    case StopJoin => f.done.Some?
    case StopManualCancel => f.done.None?
    case StopManualJoin => f.done.None? && f.manualDone.Some?
    case _ => true
  }

  ghost predicate ReplicaInv(r: Replica) {
    var f := r.fields;
    && Owned(f)
    && (forall t: Tid :: InSection(PcOf(r, t)) ==> r.mutex == Some(t))
    && (r.mutex.Some? ==> InSection(PcOf(r, r.mutex.value)) && SectionInv(r, r.mutex.value))
    && (forall t: Tid :: LoopOnly(PcOf(r, t)) ==> t == LEADER_LOOP)
    && !Loop(r).StopWait?
    && (f.leading <==> Leads(Loop(r)))
    && (f.done.Some? ==> f.leading || Loop(r).StopCancel? || Loop(r).StopJoin?)
    && (f.manualDone.Some? ==> f.leading || Stopping(Loop(r)))
  }

  lemma GoroutineReturnKeepsInv(r: Replica, a: Local)
    requires ReplicaInv(r) && Can(r, a) && Actor(a).None?
    ensures ReplicaInv(Do(r, a))
  {
    assert forall t: Tid :: PcOf(Do(r, a), t) == PcOf(r, t);
  }

  lemma RestartStopsKeepInv(r: Replica, a: Local)
    requires ReplicaInv(r) && Can(r, a) && (a.CancelOld? || a.JoinOld?)
    ensures ReplicaInv(Do(r, a))
  {
    assert forall t: Tid :: t != a.t ==> PcOf(Do(r, a), t) == PcOf(r, t);
  }

  lemma RestartEndsKeepInv(r: Replica, a: Local)
    requires ReplicaInv(r) && Can(r, a) && (a.ReadLeading? || a.Build?)
    ensures ReplicaInv(Do(r, a))
  {
    assert forall t: Tid :: t != a.t ==> PcOf(Do(r, a), t) == PcOf(r, t);
  }

  lemma StopPollerStepKeepsInv(r: Replica, a: Local)
    requires ReplicaInv(r) && Can(r, a) && (a.CancelPoller? || a.JoinPoller?)
    ensures ReplicaInv(Do(r, a))
  {
    assert forall t: Tid :: t != a.t ==> PcOf(Do(r, a), t) == PcOf(r, t);
  }

  lemma CancelManualKeepsInv(r: Replica, a: Local)
    requires ReplicaInv(r) && Can(r, a) && a.CancelManual?
    ensures ReplicaInv(Do(r, a))
  {
    assert forall t: Tid :: t != a.t ==> PcOf(Do(r, a), t) == PcOf(r, t);
  }

  lemma JoinManualKeepsInv(r: Replica, a: Local)
    requires ReplicaInv(r) && Can(r, a) && a.JoinManual?
    ensures ReplicaInv(Do(r, a))
  {
    assert forall t: Tid :: t != a.t ==> PcOf(Do(r, a), t) == PcOf(r, t);
  }

  lemma EntryStepKeepsInv(r: Replica, a: Local)
    requires ReplicaInv(r) && Can(r, a)
    requires a.Enter? || a.CallRestart? || a.CallStop?
    ensures ReplicaInv(Do(r, a))
  {
    assert forall t: Tid :: t != a.t ==> PcOf(Do(r, a), t) == PcOf(r, t);
  }

  lemma LoopStepKeepsInv(r: Replica, a: Local)
    requires ReplicaInv(r) && Can(r, a)
    requires a.StoreLeading? || a.StartManual? || a.BeatHealthy? || a.BeatLost? || a.ClearLeading?
    ensures ReplicaInv(Do(r, a))
  {
    assert forall t: Tid :: t != LEADER_LOOP ==> PcOf(Do(r, a), t) == PcOf(r, t);
  }

  lemma LocalStepKeepsInv(r: Replica, a: Local)
    requires ReplicaInv(r) && Can(r, a)
    ensures ReplicaInv(Do(r, a))
  {
    if Actor(a).None? {
      GoroutineReturnKeepsInv(r, a);
    } else if a.CancelOld? || a.JoinOld? {
      RestartStopsKeepInv(r, a);
    } else if a.ReadLeading? || a.Build? {
      RestartEndsKeepInv(r, a);
    } else if a.CancelPoller? || a.JoinPoller? {
      StopPollerStepKeepsInv(r, a);
    } else if a.CancelManual? {
      CancelManualKeepsInv(r, a);
    } else if a.JoinManual? {
      JoinManualKeepsInv(r, a);
    } else if a.Enter? || a.CallRestart? || a.CallStop? {
      EntryStepKeepsInv(r, a);
    } else {
      LoopStepKeepsInv(r, a);
    }
  }

  /** Between the end of the block that gives leadership up and the next time leading is stored. */
  predicate Retired(r: Replica) {
    Loop(r).Releasing? || Loop(r).Returned? || Loop(r).Out? || Loop(r).Got?
  }

  /**
   A live poller means this replica leads, whenever its mutex is free; and a
   replica that has finished the stop block owns no goroutine and cannot be
   brought back by any Restart until it stores leading again.
   */
  lemma LivePollerLeads(r: Replica)
    requires ReplicaInv(r)
    ensures r.mutex.None? && (r.fields.live != {} || r.fields.manualLive != {}) ==> r.fields.leading
    ensures Retired(r) ==>
      !r.fields.leading && r.fields.live == {} && r.fields.manualLive == {} && r.fields.done.None?
    ensures Retired(r) ==> forall t: Tid, built :: !Can(r, Build(t, built))
  {
    if Retired(r) {
      forall t: Tid, built ensures !Can(r, Build(t, built)) {
        assert InSection(PcOf(r, t)) ==> r.mutex == Some(t);
      }
    }
  }

  /** Nobody waits for m.mu forever: its holder can step, or waits for a goroutine that can return. */
  lemma MutexHolderProgresses(r: Replica, t: Tid) returns (a: Local)
    requires ReplicaInv(r) && r.mutex == Some(t)
    ensures Can(r, a)
    ensures Actor(a) == Some(t)
      || (a.PollerReturns? && Some(a.g) == r.fields.done) || (a.ManualReturns? && Some(a.g) == r.fields.manualDone)
  {
    var f := r.fields;
    assert LoopOnly(PcOf(r, t)) ==> t == LEADER_LOOP;
    match PcOf(r, t) {
      case ManualIn => a := StartManual;
      case RestartIn => a := ReadLeading(t);
      case RestartCancel => a := CancelOld(t);
      case RestartJoin => a := if f.done.value in f.live then PollerReturns(f.done.value) else JoinOld(t);
      case RestartBuild => a := Build(t, Poller);
      case LoseIn => a := ClearLeading;
      case StopCancel => a := CancelPoller(t);
      case StopJoin => a := if f.done.value in f.live then PollerReturns(f.done.value) else JoinPoller(t);
      case StopManualCancel => a := CancelManual(t);
      case StopManualJoin =>
        a := if f.manualDone.value in f.manualLive then ManualReturns(f.manualDone.value) else JoinManual(t);
    }
  }

  /**
   While one thread is in its critical section no other step changes what the
   section works on: goroutines may return, and leading may be stored by a
   replica that has just taken the lock, but never cleared.
   */
  lemma SectionUndisturbed(r: Replica, t: Tid, a: Local)
    requires ReplicaInv(r) && r.mutex == Some(t) && Can(r, a) && Actor(a) != Some(t)
    ensures var r' := Do(r, a);
            && r'.mutex == Some(t) && PcOf(r', t) == PcOf(r, t)
            && r'.fields.done == r.fields.done && r'.fields.manualDone == r.fields.manualDone
            && r'.fields.next == r.fields.next
            && r'.fields.live <= r.fields.live && r'.fields.manualLive <= r.fields.manualLive
            && (r.fields.leading ==> r'.fields.leading)
  {
    assert forall u: Tid :: InSection(PcOf(r, u)) ==> u == t;
  }

  /** The steps by which Restart stops the old poller: cancel it and, if there is one, wait for it to return. */
  function StopSteps(f: Fields, t: Tid): seq<Local> {
    if f.done.None? then [CancelOld(t)]
    else if f.done.value in f.live then [CancelOld(t), PollerReturns(f.done.value), JoinOld(t)]
    else [CancelOld(t), JoinOld(t)]
  }

  /** The steps one thread takes through Restart, from holding the mutex to freeing it. */
  function RestartSteps(r: Replica, t: Tid, built: Built): seq<Local> {
    if !r.fields.leading then [ReadLeading(t)]
    else [ReadLeading(t)] + (StopSteps(r.fields, t) + [Build(t, built)])
  }

  ghost predicate Takes(r: Replica, steps: seq<Local>, end: Replica)
    decreases |steps|
  {
    if steps == [] then r == end
    else Can(r, steps[0]) && Takes(Do(r, steps[0]), steps[1..], end)
  }

  lemma {:induction false} TakesBoth(r: Replica, first: seq<Local>, mid: Replica, rest: seq<Local>, end: Replica)
    requires Takes(r, first, mid) && Takes(mid, rest, end)
    ensures Takes(r, first + rest, end)
    decreases |first|
  {
    if first == [] {
      assert first + rest == rest;
    } else {
      TakesBoth(Do(r, first[0]), first[1..], mid, rest, end);
      assert (first + rest)[1..] == first[1..] + rest;
    }
  }

  lemma TakesOne(r: Replica, a: Local)
    requires Can(r, a)
    ensures Takes(r, [a], Do(r, a))
  {
    assert Takes(Do(r, a), [], Do(r, a));
  }

  lemma StopStepsStop(r: Replica, t: Tid) returns (end: Replica)
    requires ReplicaInv(r) && PcOf(r, t).RestartCancel?
    ensures Takes(r, StopSteps(r.fields, t), end)
    ensures end.fields == PollerStopped(r.fields) && PcOf(end, t).RestartBuild?
  {
    var f := r.fields;
    TakesOne(r, CancelOld(t));
    end := Do(r, CancelOld(t));
    if f.done.Some? {
      var cancelled, toJoin := end, [];
      if f.done.value in f.live {
        toJoin := [PollerReturns(f.done.value)];
        TakesOne(cancelled, toJoin[0]);
        end := Do(cancelled, toJoin[0]);
        TakesBoth(r, [CancelOld(t)], cancelled, toJoin, end);
      }
      TakesOne(end, JoinOld(t));
      TakesBoth(r, [CancelOld(t)] + toJoin, end, [JoinOld(t)], Do(end, JoinOld(t)));
      end := Do(end, JoinOld(t));
      assert StopSteps(f, t) == [CancelOld(t)] + toJoin + [JoinOld(t)];
    }
  }

  /** Taken to its end, the section does to the fields exactly what the Restart method does. */
  lemma RestartStepsDoRestart(r: Replica, t: Tid, built: Built) returns (end: Replica)
    requires ReplicaInv(r) && r.mutex == Some(t) && PcOf(r, t).RestartIn?
    ensures Takes(r, RestartSteps(r, t, built), end)
    ensures end.fields == Restarted(r.fields, built) && end.mutex.None?
    ensures PcOf(end, t) == (if t == LEADER_LOOP then Pc.Beat else Out)
  {
    TakesOne(r, ReadLeading(t));
    end := Do(r, ReadLeading(t));
    if r.fields.leading {
      var read := end;
      RestartEndsKeepInv(r, ReadLeading(t));
      var stopped := StopStepsStop(read, t);
      TakesOne(stopped, Build(t, built));
      end := Do(stopped, Build(t, built));
      TakesBoth(read, StopSteps(r.fields, t), stopped, [Build(t, built)], end);
      TakesBoth(r, [ReadLeading(t)], read, StopSteps(r.fields, t) + [Build(t, built)], end);
    }
  }

  /** The steps that stop the manual scheduler, and so end the section. */
  function StopManualSteps(f: Fields, t: Tid): seq<Local> {
    if f.manualDone.None? then [CancelManual(t)]
    else if f.manualDone.value in f.manualLive
      then [CancelManual(t), ManualReturns(f.manualDone.value), JoinManual(t)]
    else [CancelManual(t), JoinManual(t)]
  }

  function StopPollerSteps(f: Fields, t: Tid): seq<Local> {
    if f.done.None? then [CancelPoller(t)]
    else if f.done.value in f.live then [CancelPoller(t), PollerReturns(f.done.value), JoinPoller(t)]
    else [CancelPoller(t), JoinPoller(t)]
  }

  lemma StopPollerStepsStop(r: Replica, t: Tid) returns (end: Replica)
    requires ReplicaInv(r) && PcOf(r, t).StopCancel?
    ensures Takes(r, StopPollerSteps(r.fields, t), end)
    ensures end.fields == PollerStopped(r.fields) && PcOf(end, t).StopManualCancel?
  {
    var f := r.fields;
    TakesOne(r, CancelPoller(t));
    end := Do(r, CancelPoller(t));
    if f.done.Some? {
      var cancelled, toJoin := end, [];
      if f.done.value in f.live {
        toJoin := [PollerReturns(f.done.value)];
        TakesOne(cancelled, toJoin[0]);
        end := Do(cancelled, toJoin[0]);
        TakesBoth(r, [CancelPoller(t)], cancelled, toJoin, end);
      }
      TakesOne(end, JoinPoller(t));
      TakesBoth(r, [CancelPoller(t)] + toJoin, end, [JoinPoller(t)], Do(end, JoinPoller(t)));
      end := Do(end, JoinPoller(t));
      assert StopPollerSteps(f, t) == [CancelPoller(t)] + toJoin + [JoinPoller(t)];
    }
  }

  lemma StopManualStepsStop(r: Replica, t: Tid) returns (end: Replica)
    requires Owned(r.fields) && PcOf(r, t).StopManualCancel?
    ensures Takes(r, StopManualSteps(r.fields, t), end)
    ensures end.fields == ManualStopped(r.fields) && end.mutex.None?
    ensures PcOf(end, t) == (if t == LEADER_LOOP then Releasing else Out)
  {
    var f := r.fields;
    TakesOne(r, CancelManual(t));
    end := Do(r, CancelManual(t));
    if f.manualDone.Some? {
      var cancelled, toJoin := end, [];
      if f.manualDone.value in f.manualLive {
        toJoin := [ManualReturns(f.manualDone.value)];
        TakesOne(cancelled, toJoin[0]);
        end := Do(cancelled, toJoin[0]);
        TakesBoth(r, [CancelManual(t)], cancelled, toJoin, end);
      }
      TakesOne(end, JoinManual(t));
      TakesBoth(r, [CancelManual(t)] + toJoin, end, [JoinManual(t)], Do(end, JoinManual(t)));
      end := Do(end, JoinManual(t));
      assert StopManualSteps(f, t) == [CancelManual(t)] + toJoin + [JoinManual(t)];
    }
  }

  /**
   Taken to its end, a stop does what the Stop method does; entered by the loop
   to give leadership up, what the LoseLeadership method does.
   */
  lemma StopStepsDoStop(r: Replica, t: Tid) returns (steps: seq<Local>, end: Replica)
    requires ReplicaInv(r) && r.mutex == Some(t) && (PcOf(r, t).StopCancel? || PcOf(r, t).LoseIn?)
    ensures Takes(r, steps, end)
    ensures end.fields == (if PcOf(r, t).LoseIn? then LeadershipLost(r.fields) else StoppedAll(r.fields))
    ensures end.mutex.None? && PcOf(end, t) == (if t == LEADER_LOOP then Releasing else Out)
  {
    var opening, cleared := [], r;
    if PcOf(r, t).LoseIn? {
      assert LoopOnly(PcOf(r, t));
      opening, cleared := [ClearLeading], Do(r, ClearLeading);
      TakesOne(r, ClearLeading);
      LoopStepKeepsInv(r, ClearLeading);
    }
    var stopped := StopPollerStepsStop(cleared, t);
    end := StopManualStepsStop(stopped, t);
    var closing := StopPollerSteps(cleared.fields, t) + StopManualSteps(stopped.fields, t);
    TakesBoth(cleared, StopPollerSteps(cleared.fields, t), stopped, StopManualSteps(stopped.fields, t), end);
    TakesBoth(r, opening, cleared, closing, end);
    steps := opening + closing;
  }

  /** A thread that comes to wait for a free mutex can enter its section. */
  lemma OpensSection(r: Replica, a: Local, t: Tid) returns (entered: Replica)
    requires Can(r, a) && ReplicaInv(Do(r, a)) && Do(r, a).mutex.None? && Waiting(PcOf(Do(r, a), t))
    ensures Takes(r, [a] + [Enter(t)], entered) && ReplicaInv(entered) && entered.mutex == Some(t)
    ensures entered.fields == Do(r, a).fields && PcOf(entered, t) == Inside(PcOf(Do(r, a), t))
  {
    var waiting := Do(r, a);
    entered := Do(waiting, Enter(t));
    EntryStepKeepsInv(waiting, Enter(t));
    TakesOne(r, a);
    TakesOne(waiting, Enter(t));
    TakesBoth(r, [a], waiting, [Enter(t)], entered);
  }

  /**
   A leader without a poller is not left without: from its next healthy beat, with
   the mutex free and an integration stored, its own steps start one.
   */
  lemma BeatStartsMissingPoller(r: Replica) returns (steps: seq<Local>, end: Replica)
    requires ReplicaInv(r) && Loop(r).Beat? && r.mutex.None? && r.fields.done.None?
    ensures Takes(r, steps, end) && steps != [] && steps[0] == BeatHealthy
    ensures end.fields.live == {r.fields.next} && Loop(end).Beat? && end.mutex.None? && end.fields.leading
  {
    LoopStepKeepsInv(r, BeatHealthy);
    var entered := OpensSection(r, BeatHealthy, LEADER_LOOP);
    end := RestartStepsDoRestart(entered, LEADER_LOOP, Poller);
    steps := [BeatHealthy] + [Enter(LEADER_LOOP)] + RestartSteps(entered, LEADER_LOOP, Poller);
    TakesBoth(r, [BeatHealthy] + [Enter(LEADER_LOOP)], entered, RestartSteps(entered, LEADER_LOOP, Poller), end);
  }

  /**
   A beat that finds the session lost, with the mutex free, can be followed through
   to the point of release, where nothing runs and the replica no longer leads.
   */
  lemma LostBeatStopsEverything(r: Replica) returns (steps: seq<Local>, end: Replica)
    requires ReplicaInv(r) && Loop(r).Beat? && r.mutex.None?
    ensures Takes(r, steps, end) && steps != [] && steps[0] == BeatLost
    ensures Loop(end).Releasing? && end.mutex.None? && !end.fields.leading
    ensures end.fields.live == {} && end.fields.manualLive == {} && end.fields.next == r.fields.next
  {
    LoopStepKeepsInv(r, BeatLost);
    var entered := OpensSection(r, BeatLost, LEADER_LOOP);
    var closing;
    closing, end := StopStepsDoStop(entered, LEADER_LOOP);
    TakesBoth(r, [BeatLost] + [Enter(LEADER_LOOP)], entered, closing, end);
    steps := [BeatLost] + [Enter(LEADER_LOOP)] + closing;
  }

  /**
   What a call from outside can be followed through to, with the mutex free: on a
   leader a restart leaves exactly one new poller, if one can be built, and touches
   no manual scheduler; off a leader it does nothing. A stop leaves nothing running.
   */
  lemma CallsComplete(r: Replica, t: Tid, call: Call) returns (steps: seq<Local>, end: Replica)
    requires ReplicaInv(r) && r.mutex.None? && t != LEADER_LOOP && PcOf(r, t).Out?
    ensures Takes(r, steps, end) && end.mutex.None? && PcOf(end, t).Out? && end.fields.leading == r.fields.leading
    ensures match call
            case Restarts(built) =>
              && end.fields.manualLive == r.fields.manualLive
              && end.fields.live == (if !r.fields.leading then r.fields.live
                                     else if built == Poller then {r.fields.next} else {})
            case Stops => end.fields.live == {} && end.fields.manualLive == {}
  {
    var opening := if call.Restarts? then CallRestart(t) else CallStop(t);
    EntryStepKeepsInv(r, opening);
    var entered := OpensSection(r, opening, t);
    var closing;
    match call {
      case Restarts(built) =>
        closing := RestartSteps(entered, t, built);
        end := RestartStepsDoRestart(entered, t, built);
      case Stops =>
        closing, end := StopStepsDoStop(entered, t);
    }
    TakesBoth(r, [opening] + [Enter(t)], entered, closing, end);
    steps := [opening] + [Enter(t)] + closing;
  }

  /** Only startManualScheduler and a stop ever write the manual scheduler's fields: Restart never does. */
  lemma ManualSchedulerOutlivesRestart(r: Replica, a: Local)
    requires ReplicaInv(r) && Can(r, a)
    requires Do(r, a).fields.manualDone != r.fields.manualDone
    ensures a.StartManual? || a.JoinManual?
    ensures a.StartManual? ==> r.fields.manualDone.None?
  {
  }

  // ---------------------------------------------------------------- all replicas

  /** The advisory lock's owner, the replicas, and those whose lock session died during their present term. */
  datatype Cluster = Cluster(lock: Option<ReplicaId>, stale: set<ReplicaId>, replicas: map<ReplicaId, Replica>)

  /** A heartbeat may find the session healthy that dies right after, so `BeatHealthy` does not ask for the lock. */
  datatype Action =
    | TryAcquire(i: ReplicaId)
    | Release(i: ReplicaId, stopping: bool)
    | SessionDies(i: ReplicaId)
    | Crash(i: ReplicaId)
    | At(i: ReplicaId, local: Local)

  function ReplicaOf(c: Cluster, i: ReplicaId): Replica {
    if i in c.replicas then c.replicas[i] else BOOTED
  }

  predicate Enabled(c: Cluster, a: Action) {
    var r := ReplicaOf(c, a.i);
    match a
    case TryAcquire(i) => Loop(r).Out? && c.lock.None?
    case Release(i, stopping) => Loop(r).Releasing?
    case SessionDies(i) => c.lock == Some(i)
    case Crash(i) => true
    case At(i, local) => Can(r, local)
  }

  function Unlock(c: Cluster, i: ReplicaId): Option<ReplicaId> {
    if c.lock == Some(i) then None else c.lock
  }

  function Step(c: Cluster, a: Action): Cluster
    requires Enabled(c, a)
  {
    var r := ReplicaOf(c, a.i);
    match a
    case TryAcquire(i) => c.(lock := Some(i), replicas := c.replicas[i := GoTo(r, LEADER_LOOP, Got)])
    case Release(i, stopping) =>
      Cluster(Unlock(c, i), c.stale - {i}, c.replicas[i := GoTo(r, LEADER_LOOP, if stopping then Returned else Out)])
    case SessionDies(i) => c.(lock := None, stale := c.stale + {i})
    case Crash(i) => Cluster(Unlock(c, i), c.stale - {i}, c.replicas[i := BOOTED])
    case At(i, local) => c.(replicas := c.replicas[i := Do(r, local)])
  }

  ghost predicate Runs(c: Cluster, actions: seq<Action>, end: Cluster)
    decreases |actions|
  {
    if actions == [] then c == end
    else Enabled(c, actions[0]) && Runs(Step(c, actions[0]), actions[1..], end)
  }

  const INITIAL := Cluster(None, {}, map[])

  /** A replica between taking the lock and releasing it. */
  predicate InTerm(r: Replica) {
    !Loop(r).Out? && !Loop(r).Returned?
  }

  /** A replica is in its term exactly when it owns the lock or its session died in this term, never both. */
  ghost predicate LockInv(c: Cluster, i: ReplicaId) {
    && (InTerm(ReplicaOf(c, i)) <==> c.lock == Some(i) || i in c.stale)
    && !(c.lock == Some(i) && i in c.stale)
  }

  ghost predicate ClusterInv(c: Cluster) {
    forall i: ReplicaId :: ReplicaInv(ReplicaOf(c, i)) && LockInv(c, i)
  }

  lemma StepKeepsReplicaInv(c: Cluster, a: Action, i: ReplicaId)
    requires ClusterInv(c) && Enabled(c, a)
    ensures ReplicaInv(ReplicaOf(Step(c, a), i))
  {
    var r := ReplicaOf(c, i);
    assert ReplicaInv(r);
    if a.i != i || a.SessionDies? {
      assert ReplicaOf(Step(c, a), i) == r;
    } else if a.At? {
      LocalStepKeepsInv(r, a.local);
    } else if a.Crash? {
      assert ReplicaOf(Step(c, a), i) == BOOTED;
      BootedInv();
    } else {
      LockStepKeepsInv(r, if a.TryAcquire? then Got else if a.stopping then Returned else Out);
    }
  }

  lemma BootedInv()
    ensures ReplicaInv(BOOTED)
  {
  }

  /** Taking and releasing the lock move the loop between points at which the replica does not lead. */
  lemma LockStepKeepsInv(r: Replica, pc: Pc)
    requires ReplicaInv(r) && (Loop(r).Out? || Loop(r).Releasing?) && (pc.Got? || pc.Returned? || pc.Out?)
    ensures ReplicaInv(GoTo(r, LEADER_LOOP, pc))
  {
    assert forall t: Tid :: t != LEADER_LOOP ==> PcOf(GoTo(r, LEADER_LOOP, pc), t) == PcOf(r, t);
  }

  lemma LocalStepKeepsTerm(r: Replica, a: Local)
    requires ReplicaInv(r) && Can(r, a)
    ensures InTerm(Do(r, a)) <==> InTerm(r)
  {
    if Actor(a) != Some(LEADER_LOOP) {
      assert Loop(Do(r, a)) == Loop(r);
    } else {
      assert !Loop(r).StopWait?;
      assert Leads(Loop(Do(r, a))) || Stopping(Loop(Do(r, a))) || Loop(Do(r, a)).Releasing?;
    }
  }

  lemma StepKeepsLockInv(c: Cluster, a: Action, i: ReplicaId)
    requires ClusterInv(c) && Enabled(c, a)
    ensures LockInv(Step(c, a), i)
  {
    assert LockInv(c, i) && LockInv(c, a.i);
    if a.i != i {
      assert ReplicaOf(Step(c, a), i) == ReplicaOf(c, i);
    } else if a.At? {
      assert ReplicaInv(ReplicaOf(c, i));
      LocalStepKeepsTerm(ReplicaOf(c, i), a.local);
      assert ReplicaOf(Step(c, a), i) == Do(ReplicaOf(c, i), a.local);
    } else {
      assert InTerm(ReplicaOf(Step(c, a), i)) <==> a.TryAcquire? || (a.SessionDies? && InTerm(ReplicaOf(c, i)));
    }
  }

  lemma {:induction false} RunKeepsInv(c: Cluster, actions: seq<Action>, end: Cluster)
    requires ClusterInv(c) && Runs(c, actions, end)
    ensures ClusterInv(end)
    decreases |actions|
  {
    if actions != [] {
      var next := Step(c, actions[0]);
      forall i: ReplicaId ensures ReplicaInv(ReplicaOf(next, i)) && LockInv(next, i) {
        StepKeepsReplicaInv(c, actions[0], i);
        StepKeepsLockInv(c, actions[0], i);
      }
      RunKeepsInv(next, actions[1..], end);
    }
  }

  lemma ReachableInv(actions: seq<Action>, c: Cluster)
    requires Runs(INITIAL, actions, c)
    ensures ClusterInv(c)
  {
    RunKeepsInv(INITIAL, actions, c);
  }

  /** A replica that runs a poller or a manual scheduler. */
  predicate Works(r: Replica) {
    r.fields.live != {} || r.fields.manualLive != {}
  }

  /**
   In every reachable state no replica runs two pollers or two manual
   schedulers, and every replica that runs one either owns the lock or lost its
   lock session during this very term. So of the replicas whose session is
   alive, at most one works.
   */
  lemma AtMostOneLiveWorker(actions: seq<Action>, c: Cluster, i: ReplicaId, j: ReplicaId)
    requires Runs(INITIAL, actions, c)
    requires Works(ReplicaOf(c, i)) && Works(ReplicaOf(c, j))
    ensures |ReplicaOf(c, i).fields.live| <= 1 && |ReplicaOf(c, i).fields.manualLive| <= 1
    ensures c.lock == Some(i) || i in c.stale
    ensures i !in c.stale && j !in c.stale ==> i == j
  {
    ReachableInv(actions, c);
    forall k | k in {i, j} ensures c.lock == Some(k) || k in c.stale {
      assert ReplicaInv(ReplicaOf(c, k)) && LockInv(c, k);
      LivePollerLeads(ReplicaOf(c, k));
    }
    var f := ReplicaOf(c, i).fields;
    SubsetSize(f.live, Tracked(f.done));
    SubsetSize(f.manualLive, Tracked(f.manualDone));
  }

  lemma SubsetSize(a: set<Go>, b: set<Go>)
    requires a <= b
    ensures |a| <= |b|
  {
    assert b == a + (b - a);
  }

  ghost predicate NoSessionDies(actions: seq<Action>) {
    forall k :: 0 <= k < |actions| ==> !actions[k].SessionDies?
  }

  lemma {:induction false} NobodyGoesStale(c: Cluster, actions: seq<Action>, end: Cluster)
    requires Runs(c, actions, end) && NoSessionDies(actions) && c.stale == {}
    ensures end.stale == {}
    decreases |actions|
  {
    if actions != [] {
      NobodyGoesStale(Step(c, actions[0]), actions[1..], end);
    }
  }

  /** As long as no lock session dies, at most one replica of the whole cluster works. */
  lemma AtMostOneWorker(actions: seq<Action>, c: Cluster, i: ReplicaId, j: ReplicaId)
    requires Runs(INITIAL, actions, c) && NoSessionDies(actions)
    requires Works(ReplicaOf(c, i)) && Works(ReplicaOf(c, j))
    ensures i == j && c.lock == Some(i)
  {
    NobodyGoesStale(INITIAL, actions, c);
    AtMostOneLiveWorker(actions, c, i, j);
  }

  /** What a replica that takes the lock looks like once its manual scheduler runs. */
  const STARTED := Replica(Fields(true, None, Some(0), {}, {0}, 1), None, map[LEADER_LOOP := RestartWait])

  lemma FreshReplicaStarts(c: Cluster, i: ReplicaId, rest: seq<Action>, end: Cluster) returns (actions: seq<Action>)
    requires c.lock.None? && ReplicaOf(c, i) == BOOTED
    requires Runs(c.(lock := Some(i), replicas := c.replicas[i := STARTED]), rest, end)
    ensures Runs(c, actions, end)
  {
    var c1 := Step(c, TryAcquire(i));
    var c2 := Step(c1, At(i, StoreLeading));
    var c3 := Step(c2, At(i, Enter(LEADER_LOOP)));
    var c4 := Step(c3, At(i, StartManual));
    assert c4.replicas[i] == STARTED;
    assert c4 == c.(lock := Some(i), replicas := c.replicas[i := STARTED]);
    actions := RunsAfter(c3, At(i, StartManual), rest, end);
    actions := RunsAfter(c2, At(i, Enter(LEADER_LOOP)), actions, end);
    actions := RunsAfter(c1, At(i, StoreLeading), actions, end);
    actions := RunsAfter(c, TryAcquire(i), actions, end);
  }

  lemma RunsAfter(c: Cluster, a: Action, rest: seq<Action>, end: Cluster) returns (actions: seq<Action>)
    requires Enabled(c, a) && Runs(Step(c, a), rest, end)
    ensures Runs(c, actions, end)
  {
    actions := [a] + rest;
    assert actions[1..] == rest;
  }

  /** A dying session is all it takes for two replicas to work at once, until the first one's next heartbeat. */
  lemma DeadSessionAllowsTwoWorkers(i: ReplicaId, j: ReplicaId) returns (actions: seq<Action>, end: Cluster)
    requires i != j
    ensures Runs(INITIAL, actions, end)
    ensures Works(ReplicaOf(end, i)) && Works(ReplicaOf(end, j)) && i in end.stale && end.lock == Some(j)
  {
    var led := INITIAL.(lock := Some(i), replicas := INITIAL.replicas[i := STARTED]);
    var lost := Step(led, SessionDies(i));
    end := lost.(lock := Some(j), replicas := lost.replicas[j := STARTED]);
    actions := FreshReplicaStarts(lost, j, [], end);
    actions := RunsAfter(led, SessionDies(i), actions, end);
    actions := FreshReplicaStarts(INITIAL, i, actions, end);
    assert 0 in STARTED.fields.manualLive;
  }

  /** On hand-over, the old goroutines have returned before the lock can change hands. */
  lemma StoppedBeforeRelease(actions: seq<Action>, c: Cluster, a: Action)
    requires Runs(INITIAL, actions, c) && Enabled(c, a) && !a.Crash? && !a.SessionDies?
    requires Step(c, a).lock != c.lock
    ensures !Works(ReplicaOf(c, a.i)) && ReplicaOf(c, a.i).fields.done.None?
  {
    ReachableInv(actions, c);
    assert ReplicaInv(ReplicaOf(c, a.i));
    LivePollerLeads(ReplicaOf(c, a.i));
  }

  ghost predicate NeverStoresLeading(i: ReplicaId, actions: seq<Action>) {
    forall k :: 0 <= k < |actions| ==> actions[k] != At(i, StoreLeading)
  }

  /**
   Once a replica has given leadership up it stays without goroutines through
   every continuation, HTTP restarts included, until its loop takes the lock
   again and stores leading.
   */
  lemma {:induction false} NoRevivalUntilLeadingAgain(c: Cluster, actions: seq<Action>, end: Cluster, i: ReplicaId)
    requires ClusterInv(c) && Runs(c, actions, end) && NeverStoresLeading(i, actions)
    requires Retired(ReplicaOf(c, i))
    ensures Retired(ReplicaOf(end, i)) && !Works(ReplicaOf(end, i))
    decreases |actions|
  {
    assert ReplicaInv(ReplicaOf(c, i));
    LivePollerLeads(ReplicaOf(c, i));
    if actions != [] {
      var next := Step(c, actions[0]);
      forall k: ReplicaId ensures ReplicaInv(ReplicaOf(next, k)) && LockInv(next, k) {
        StepKeepsReplicaInv(c, actions[0], k);
        StepKeepsLockInv(c, actions[0], k);
      }
      assert Retired(ReplicaOf(next, i)) by {
        assert forall t: Tid :: LoopOnly(PcOf(ReplicaOf(c, i), t)) ==> t == LEADER_LOOP;
        assert forall t: Tid :: InSection(PcOf(ReplicaOf(c, i), t)) ==> ReplicaOf(c, i).mutex == Some(t);
      }
      NoRevivalUntilLeadingAgain(next, actions[1..], end, i);
    }
  }
}
