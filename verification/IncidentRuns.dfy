/** What every interleaving of committed and aborted work leaves true of an incident. */
module IncidentRuns {
  import opened Prelude
  import opened Incidents

  /** A unit of work whose transaction committed, or was rolled back after it ran. */
  datatype Request = Request(op: Op, commits: bool)

  function After(i: Incident, req: Request): Incident {
    if req.commits then Apply(i, req.op).0 else i
  }

  function Run(i: Incident, reqs: seq<Request>): Incident
    decreases |reqs|
  {
    if reqs == [] then i else Run(After(i, reqs[0]), reqs[1..])
  }

  // ---------------------------------------------------------------- what one request does

  /** A new incident is open, says nothing yet and proposes nothing. */
  lemma NewIncidentIsOpen(description: Option<string>, autoCreated: bool)
    ensures var i := Created(description, autoCreated);
            && i.status == Investigating && i.resolvedAt == None && i.pending == None && i.timeline == []
            && i.description == description && i.autoCreated == autoCreated
  {
  }

  /** What becomes of the pending proposal, and of the description. */
  lemma WorkOnRow(i: Incident, op: Op)
    ensures var after := Apply(i, op).0;
            && after.pending ==
                 (match op
                  case SetPending(comment) => if i.status == Resolved then i.pending else Some(comment)
                  case Discard => None
                  case ConfirmClose(expected, _) => if i.pending == Some(expected) then None else i.pending
                  case _ => i.pending)
            && after.description ==
                 (match op
                  case SetDescription(text) => if i.status == Resolved then i.description else Some(text)
                  case _ => i.description)
            && after.autoCreated == i.autoCreated
    ensures var after := Apply(i, op).0;
            match op
            case Transition(to, _, _, now, _) =>
              after.status == to
              && after.resolvedAt ==
                   (if i.status == to then i.resolvedAt else if to == Resolved then Some(now) else None)
            case ConfirmClose(expected, now) =>
              if i.pending == Some(expected) then after.status == Resolved && after.resolvedAt == Some(now)
              else after.status == i.status && after.resolvedAt == i.resolvedAt
            case _ => after.status == i.status && after.resolvedAt == i.resolvedAt
  {
  }

  /** What the caller is told. */
  lemma WorkReplies(i: Incident, op: Op)
    ensures Apply(i, op).1 ==
      match op
      case Transition(to, _, _, _, _) => Ok(i.status != to)
      case ConfirmClose(expected, _) =>
        (match i.pending
         case None => Err(NoPendingProposal)
         case Some(comment) => if comment == expected then Ok(true) else Err(CloseProposalChanged))
      case Discard => if i.pending == None then Err(NoPendingProposal) else Ok(true)
      case SetPending(_) => if i.status == Resolved then Err(AlreadyResolved) else Ok(true)
      case SetDescription(_) => if i.status == Resolved then Err(AlreadyResolved) else Ok(true)
      case _ => Ok(true)
  {
  }

  /** Over any run, a description never changes while the incident is resolved. */
  lemma {:induction false} ResolvedDescriptionStays(i: Incident, reqs: seq<Request>)
    requires i.status.Resolved? && forall k :: 0 <= k < |reqs| ==> !reqs[k].op.Transition?
    ensures Run(i, reqs).status.Resolved? && Run(i, reqs).description == i.description
    decreases |reqs|
  {
    if reqs != [] {
      WorkOnRow(i, reqs[0].op);
      ResolvedDescriptionStays(After(i, reqs[0]), reqs[1..]);
    }
  }

  // ---------------------------------------------------------------- every row of the timeline

  /** The rows a request adds to the timeline, told from the request and the incident it finds. */
  function RowsAdded(i: Incident, req: Request): seq<Entry> {
    if !req.commits then []
    else match req.op
      case AddUpdate(body, author, ai, now) => [Entry(body, author, ai, now)]
      case Transition(to, note, author, now, noteAt) =>
        if i.status == to then []
        else
          [Entry("Status changed to " + StatusName(to), None, false, now)]
            + if note == "" then [] else [Entry(note, author, false, noteAt)]
      case ConfirmClose(expected, now) => if i.pending == Some(expected) then [Entry(expected, None, true, now)] else []
      case _ => []
  }

  function AllAdded(i: Incident, reqs: seq<Request>): seq<Entry>
    decreases |reqs|
  {
    if reqs == [] then [] else RowsAdded(i, reqs[0]) + AllAdded(After(i, reqs[0]), reqs[1..])
  }

  lemma RequestAddsRows(i: Incident, req: Request)
    requires !req.op.DeleteUser?
    ensures After(i, req).timeline == i.timeline + RowsAdded(i, req)
  {
  }

  /** Over every run without deletions the timeline grows by exactly the rows its requests add, in commit order. */
  lemma {:induction false} TimelineIsWhatWasAdded(i: Incident, reqs: seq<Request>)
    requires NoDeletion(reqs)
    ensures Run(i, reqs).timeline == i.timeline + AllAdded(i, reqs)
    decreases |reqs|
  {
    if reqs != [] {
      var next, rest := After(i, reqs[0]), reqs[1..];
      TimelineIsWhatWasAdded(next, rest);
      RequestAddsRows(i, reqs[0]);
      RowsJoin(i.timeline, RowsAdded(i, reqs[0]), AllAdded(next, rest));
    }
  }

  /** The signed rows: what people wrote. */
  function Signed(timeline: seq<Entry>): seq<Entry> {
    if timeline == [] then []
    else
      var last := timeline[|timeline| - 1];
      Signed(timeline[..|timeline| - 1]) + if last.author.Some? then [last] else []
  }

  /** The system's rows: neither signed nor a summary. */
  function System(timeline: seq<Entry>): seq<Entry> {
    if timeline == [] then []
    else
      var last := timeline[|timeline| - 1];
      System(timeline[..|timeline| - 1]) + if last.author.None? && !last.isAISummary then [last] else []
  }

  lemma {:induction false} SplitsOver(a: seq<Entry>, b: seq<Entry>)
    ensures Signed(a + b) == Signed(a) + Signed(b) && System(a + b) == System(a) + System(b)
    decreases |b|
  {
    if b == [] {
      assert a + b == a;
    } else {
      SplitsOver(a, b[..|b| - 1]);
      assert (a + b)[..|a + b| - 1] == a + b[..|b| - 1];
    }
  }

  /** What a person's committed request writes: an update, or the note of a transition that changes something. */
  function WrittenBy(i: Incident, req: Request): seq<Entry> {
    match req
    case Request(AddUpdate(body, author, _, now), true) => [Entry(body, author, false, now)]
    case Request(Transition(to, note, author, now, noteAt), true) =>
      if i.status != to && note != "" then [Entry(note, author, false, noteAt)] else []
    case _ => []
  }

  function AllWrittenBy(i: Incident, reqs: seq<Request>): seq<Entry>
    decreases |reqs|
  {
    if reqs == [] then [] else WrittenBy(i, reqs[0]) + AllWrittenBy(After(i, reqs[0]), reqs[1..])
  }

  /** The one system row of a committed transition that changes something. */
  function Announced(i: Incident, req: Request): seq<Entry> {
    match req
    case Request(Transition(to, _, _, now, _), true) =>
      if i.status != to then [Entry("Status changed to " + StatusName(to), None, false, now)] else []
    case _ => []
  }

  function AllAnnounced(i: Incident, reqs: seq<Request>): seq<Entry>
    decreases |reqs|
  {
    if reqs == [] then [] else Announced(i, reqs[0]) + AllAnnounced(After(i, reqs[0]), reqs[1..])
  }

  lemma {:induction false} AddedRowsSplit(i: Incident, req: Request)
    requires AsHandled(req.op)
    ensures Signed(RowsAdded(i, req)) == WrittenBy(i, req) && System(RowsAdded(i, req)) == Announced(i, req)
  {
    var rows := RowsAdded(i, req);
    assert rows == [] || rows == [rows[0]] || rows == [rows[0]] + [rows[1]];
    if rows != [] {
      assert Signed([]) == [] && System([]) == [];
      assert [rows[0]][..0] == [];
      if |rows| == 2 {
        SplitsOver([rows[0]], [rows[1]]);
        assert [rows[1]][..0] == [];
      }
    }
  }

  /**
   Nothing anyone wrote is lost, and nothing is put in anyone's mouth. Over every
   handled run without deletions, the signed rows are those that were there and
   then, in order, with author and stamp, each committed update and the note of
   each committed transition that changed the status; and each such transition
   adds exactly one system row.
   */
  lemma {:induction false} SignedRowsAreWritten(i: Incident, reqs: seq<Request>)
    requires Handled(reqs) && NoDeletion(reqs)
    ensures Signed(Run(i, reqs).timeline) == Signed(i.timeline) + AllWrittenBy(i, reqs)
    ensures System(Run(i, reqs).timeline) == System(i.timeline) + AllAnnounced(i, reqs)
    decreases |reqs|
  {
    if reqs != [] {
      var next, rest := After(i, reqs[0]), reqs[1..];
      SignedRowsAreWritten(next, rest);
      RequestAddsRows(i, reqs[0]);
      SplitsOver(i.timeline, RowsAdded(i, reqs[0]));
      AddedRowsSplit(i, reqs[0]);
      RowsJoin(Signed(i.timeline), WrittenBy(i, reqs[0]), AllWrittenBy(next, rest));
      RowsJoin(System(i.timeline), Announced(i, reqs[0]), AllAnnounced(next, rest));
    }
  }

  /** What a person's transition request writes of theirs: the note of a resolve that changes something, signed. */
  lemma RequestedTransitionSigns(
    i: Incident, to: Status, note: string, actor: Option<UserId>, now: int, noteAt: int, commits: bool)
    requires note == "" || actor.Some?
    ensures WrittenBy(i, Request(TransitionOp(to, note, actor, now, noteAt), commits)) ==
      if commits && i.status != to && to == Resolved && note != "" then [Entry(note, actor, false, noteAt)] else []
    ensures Announced(i, Request(TransitionOp(to, note, actor, now, noteAt), commits)) ==
      if commits && i.status != to then [Entry("Status changed to " + StatusName(to), None, false, now)] else []
    ensures AsHandled(TransitionOp(to, note, actor, now, noteAt))
  {
  }

  lemma RowsJoin(a: seq<Entry>, b: seq<Entry>, c: seq<Entry>)
    ensures (a + b) + c == a + (b + c)
  {
  }

  // ---------------------------------------------------------------- the timeline tells the status

  /** The status a timeline row sets: a system entry the one it announces, an AI summary resolved, any other none. */
  function Sets(e: Entry): Option<Status> {
    if e.isAISummary then Some(Resolved)
    else if e.author.None? then AnnouncedBy(e.body)
    else None
  }

  /** Replays a timeline in the order its rows were committed. */
  function Replay(timeline: seq<Entry>): Status {
    if timeline == [] then Investigating
    else
      var last := timeline[|timeline| - 1];
      if Sets(last).Some? then Sets(last).value else Replay(timeline[..|timeline| - 1])
  }

  /** The work the handlers and the analyzer ask for: an update they append is human-authored. */
  predicate AsHandled(op: Op) {
    && (op.AddUpdate? ==> op.author.Some? && !op.isAISummary)
    && (op.Transition? && op.note != "" ==> op.author.Some?)
  }

  /** No text a human wrote reads as a status line. */
  ghost predicate PlainText(timeline: seq<Entry>) {
    forall i :: 0 <= i < |timeline| && timeline[i].author.Some? ==> AnnouncedBy(timeline[i].body).None?
  }

  predicate WritesPlainText(op: Op) {
    && (op.AddUpdate? ==> AnnouncedBy(op.body).None?)
    && (op.Transition? ==> AnnouncedBy(op.note).None?)
  }

  ghost predicate TimelineInv(i: Incident) {
    && Replay(i.timeline) == i.status
    && (i.resolvedAt.Some? <==> i.status.Resolved?)
    && SummariesUnsigned(i.timeline)
  }

  ghost predicate SummariesUnsigned(timeline: seq<Entry>) {
    forall k :: 0 <= k < |timeline| && timeline[k].isAISummary ==> timeline[k].author.None?
  }

  lemma ReplayAppends(timeline: seq<Entry>, e: Entry)
    ensures Replay(timeline + [e]) == (if Sets(e).Some? then Sets(e).value else Replay(timeline))
  {
    assert (timeline + [e])[..|timeline|] == timeline;
  }

  lemma {:induction false} PlainReplaySurvivesDeletion(timeline: seq<Entry>, user: UserId)
    requires PlainText(timeline)
    ensures Replay(WithoutAuthor(timeline, user)) == Replay(timeline)
    decreases |timeline|
  {
    var n := |timeline|;
    if n > 0 {
      var r := WithoutAuthor(timeline, user);
      PlainReplaySurvivesDeletion(timeline[..n - 1], user);
      assert r[..n - 1] == WithoutAuthor(timeline[..n - 1], user);
    }
  }

  lemma {:induction false} ReplayOfTransition(timeline: seq<Entry>, op: Op)
    requires op.Transition? && AsHandled(op)
    ensures Replay(timeline + TransitionEntries(op)) == op.to
  {
    var line := Entry(StatusLine(op.to), None, false, op.now);
    var note := Entry(op.note, op.author, false, op.noteAt);
    StatusLineAnnounces(op.to);
    ReplayAppends(timeline, line);
    if op.note == "" {
      assert TransitionEntries(op) == [line];
    } else {
      ReplayAppends(timeline + [line], note);
      assert timeline + [line] + [note] == timeline + TransitionEntries(op);
    }
  }

  lemma WorkKeepsTimelineInv(i: Incident, op: Op)
    requires TimelineInv(i) && AsHandled(op)
    requires op.DeleteUser? ==> PlainText(i.timeline)
    ensures TimelineInv(Apply(i, op).0)
  {
    WorkOnReplay(i, op);
    WorkKeepsSummariesUnsigned(i, op);
  }

  lemma WorkKeepsSummariesUnsigned(i: Incident, op: Op)
    requires SummariesUnsigned(i.timeline) && AsHandled(op)
    ensures SummariesUnsigned(Apply(i, op).0.timeline)
  {
  }

  lemma {:induction false} WorkOnReplay(i: Incident, op: Op)
    requires Replay(i.timeline) == i.status && AsHandled(op)
    requires op.DeleteUser? ==> PlainText(i.timeline)
    ensures Replay(Apply(i, op).0.timeline) == Apply(i, op).0.status
  {
    match op {
      case AddUpdate(body, author, ai, now) => ReplayAfterUpdate(i.timeline, Entry(body, author, ai, now));
      case Transition(_, _, _, _, _) => ReplayOfTransition(i.timeline, op);
      case ConfirmClose(expected, now) => ReplayAfterSummary(i.timeline, Entry(expected, None, true, now));
      case DeleteUser(user) =>
        PlainReplaySurvivesDeletion(i.timeline, user);
        assert Apply(i, op).0 == i.(timeline := WithoutAuthor(i.timeline, user));
      case _ => assert Apply(i, op).0.timeline == i.timeline && Apply(i, op).0.status == i.status;
    }
  }

  lemma ReplayAfterUpdate(timeline: seq<Entry>, e: Entry)
    requires e.author.Some? && !e.isAISummary
    ensures Replay(timeline + [e]) == Replay(timeline)
  {
    ReplayAppends(timeline, e);
  }

  lemma ReplayAfterSummary(timeline: seq<Entry>, e: Entry)
    requires e.isAISummary
    ensures Replay(timeline + [e]) == Resolved
  {
    ReplayAppends(timeline, e);
  }

  ghost predicate Handled(reqs: seq<Request>) {
    forall k :: 0 <= k < |reqs| ==> AsHandled(reqs[k].op)
  }

  /**
   Replaying the timeline yields the stored status, and resolved_at is set
   exactly while the incident is resolved, after any interleaving of requests,
   rolled-back ones included. No account is deleted on the way, or else nobody
   ever typed a text that reads as a status line.
   */
  lemma {:induction false} TimelineTellsStatus(i: Incident, reqs: seq<Request>)
    requires TimelineInv(i) && Handled(reqs)
    requires NoDeletion(reqs) || (PlainText(i.timeline) && AllPlain(reqs))
    ensures TimelineInv(Run(i, reqs))
    decreases |reqs|
  {
    if reqs != [] {
      WorkKeepsTimelineInv(i, reqs[0].op);
      if AllPlain(reqs) && PlainText(i.timeline) {
        WorkKeepsPlainText(i, reqs[0].op);
      }
      TimelineTellsStatus(After(i, reqs[0]), reqs[1..]);
    }
  }

  ghost predicate NoDeletion(reqs: seq<Request>) {
    forall k :: 0 <= k < |reqs| ==> !reqs[k].op.DeleteUser?
  }

  ghost predicate AllPlain(reqs: seq<Request>) {
    forall k :: 0 <= k < |reqs| ==> WritesPlainText(reqs[k].op)
  }

  lemma WorkKeepsPlainText(i: Incident, op: Op)
    requires PlainText(i.timeline) && WritesPlainText(op)
    ensures PlainText(Apply(i, op).0.timeline)
  {
  }

  /** The row is the user's, and would announce a status other than `status` once it is unsigned. */
  predicate Forges(e: Entry, user: UserId, status: Status) {
    e.author == Some(user) && AnnouncedBy(e.body).Some? && AnnouncedBy(e.body) != Some(status)
  }

  /** What one row sets once its author's account is gone. */
  lemma Unsigned(e: Entry, user: UserId, status: Status)
    requires e.isAISummary ==> e.author.None?
    ensures var left := Unsign(e, user);
            && (Sets(e).Some? ==> Sets(left) == Sets(e))
            && (Sets(e).None? ==> Sets(left) == if e.author == Some(user) then AnnouncedBy(e.body) else None)
    ensures Forges(e, user, status) ==> Sets(e).None?
  {
  }

  /**
   The exception is real: when the latest entry is a human one that reads as a
   status line for another status, deleting its author's account makes the
   timeline tell that status instead.
   */
  lemma {:induction false} DeletedAuthorForgesStatus(i: Incident, user: UserId, said: Status)
    requires TimelineInv(i) && i.timeline != []
    requires var last := i.timeline[|i.timeline| - 1];
             last.author == Some(user) && last.body == StatusLine(said) && said != i.status
    ensures var after := Apply(i, DeleteUser(user)).0;
            after.status == i.status && Replay(after.timeline) == said
  {
    StatusLineAnnounces(said);
    var n := |i.timeline| - 1;
    Unsigned(i.timeline[n], user, i.status);
    LastSettingRow(WithoutAuthor(i.timeline, user), n);
  }

  /** A later row sets a status, or is the user's own and announces `status`. */
  ghost predicate Overruled(timeline: seq<Entry>, k: nat, user: UserId, status: Status) {
    exists j :: k < j < |timeline|
      && (Sets(timeline[j]).Some?
          || (timeline[j].author == Some(user) && AnnouncedBy(timeline[j].body) == Some(status)))
  }

  ghost predicate ForgeriesOverruled(timeline: seq<Entry>, user: UserId, status: Status) {
    forall k :: 0 <= k < |timeline| && Forges(timeline[k], user, status) ==> Overruled(timeline, k, user, status)
  }

  /**
   Deleting an account keeps the timeline telling the status exactly when every
   text of that user that reads as another status's line is followed by a row
   that sets a status, or by one of the user's own that names the current one.
   */
  lemma {:induction false} DeletionKeepsStatusExactly(i: Incident, user: UserId)
    requires TimelineInv(i)
    ensures Replay(WithoutAuthor(i.timeline, user)) == i.status <==> ForgeriesOverruled(i.timeline, user, i.status)
  {
    var t, left := i.timeline, WithoutAuthor(i.timeline, user);
    if k :| 0 <= k < |left| && Sets(left[k]).Some? {
      var m := LatestSetting(left, k);
      LastSettingRow(left, m);
      LatestDecides(t, left, user, i.status, m);
    } else {
      forall k | 0 <= k < |t| ensures Sets(t[k]).None? && !Forges(t[k], user, i.status) {
        assert Sets(left[k]).None?;
        Unsigned(t[k], user, i.status);
      }
      NothingSet(t);
      NothingSet(left);
    }
  }

  /** Row `m` overrules every forging row, if none comes at it or after it. */
  lemma OverruledByOne(t: seq<Entry>, user: UserId, status: Status, m: nat)
    requires m < |t| && forall k :: m <= k < |t| ==> !Forges(t[k], user, status)
    requires Sets(t[m]).Some? || (t[m].author == Some(user) && AnnouncedBy(t[m].body) == Some(status))
    ensures ForgeriesOverruled(t, user, status)
  {
    forall k | 0 <= k < |t| && Forges(t[k], user, status) ensures Overruled(t, k, user, status) {
      assert k < m;
    }
  }

  /** A row that sets nothing once unsigned neither forged nor announced anything. */
  lemma SilentRow(e: Entry, user: UserId, status: Status)
    requires (e.isAISummary ==> e.author.None?) && Sets(Unsign(e, user)).None?
    ensures Sets(e).None? && !Forges(e, user, status)
    ensures !(e.author == Some(user) && AnnouncedBy(e.body) == Some(status))
  {
    Unsigned(e, user, status);
  }

  lemma {:induction false} LatestDecides(t: seq<Entry>, left: seq<Entry>, user: UserId, status: Status, m: nat)
    requires SummariesUnsigned(t) && Replay(t) == status && m < |t| == |left|
    requires forall k :: 0 <= k < |t| ==> left[k] == Unsign(t[k], user)
    requires Sets(left[m]).Some? && forall j :: m < j < |t| ==> Sets(left[j]).None?
    ensures Sets(left[m]) == Some(status) <==> ForgeriesOverruled(t, user, status)
  {
    Unsigned(t[m], user, status);
    forall k | m < k < |t|
      ensures Sets(t[k]).None? && !Forges(t[k], user, status)
      ensures !(t[k].author == Some(user) && AnnouncedBy(t[k].body) == Some(status))
    {
      SilentRow(t[k], user, status);
    }
    if Sets(t[m]).Some? {
      LastSettingRow(t, m);
    }
    if Sets(left[m]) == Some(status) {
      assert !Forges(t[m], user, status);
      OverruledByOne(t, user, status, m);
    } else {
      assert Forges(t[m], user, status);
      assert !Overruled(t, m, user, status);
    }
  }

  lemma {:induction false} LatestSetting(timeline: seq<Entry>, k: nat) returns (m: nat)
    requires k < |timeline| && Sets(timeline[k]).Some?
    ensures k <= m < |timeline| && Sets(timeline[m]).Some?
    ensures forall j :: m < j < |timeline| ==> Sets(timeline[j]).None?
    decreases |timeline| - k
  {
    m := k;
    if j :| k < j < |timeline| && Sets(timeline[j]).Some? {
      m := LatestSetting(timeline, j);
    }
  }

  lemma {:induction false} NothingSet(timeline: seq<Entry>)
    requires forall k :: 0 <= k < |timeline| ==> Sets(timeline[k]).None?
    ensures Replay(timeline) == Investigating
    decreases |timeline|
  {
    if timeline != [] {
      NothingSet(timeline[..|timeline| - 1]);
    }
  }

  /** Every account deleted on the way leaves no forging text of its user unanswered. */
  ghost predicate DeletionsOverruled(i: Incident, reqs: seq<Request>)
    decreases |reqs|
  {
    if reqs == [] then true
    else
      && (reqs[0].commits && reqs[0].op.DeleteUser? ==> ForgeriesOverruled(i.timeline, reqs[0].op.user, i.status))
      && DeletionsOverruled(After(i, reqs[0]), reqs[1..])
  }

  ghost predicate AlwaysTellsStatus(i: Incident, reqs: seq<Request>)
    decreases |reqs|
  {
    TimelineInv(i) && (reqs == [] || AlwaysTellsStatus(After(i, reqs[0]), reqs[1..]))
  }

  lemma {:induction false} StepTellsStatusExactly(i: Incident, req: Request)
    requires TimelineInv(i) && AsHandled(req.op)
    ensures TimelineInv(After(i, req)) <==>
      (req.commits && req.op.DeleteUser? ==> ForgeriesOverruled(i.timeline, req.op.user, i.status))
  {
    if !req.commits {
      assert After(i, req) == i;
    } else if req.op.DeleteUser? {
      DeletionTellsStatusExactly(i, req.op.user);
      assert After(i, req) == i.(timeline := WithoutAuthor(i.timeline, req.op.user));
    } else {
      WorkKeepsTimelineInv(i, req.op);
    }
  }

  lemma {:induction false} DeletionTellsStatusExactly(i: Incident, user: UserId)
    requires TimelineInv(i)
    ensures TimelineInv(i.(timeline := WithoutAuthor(i.timeline, user)))
      <==> ForgeriesOverruled(i.timeline, user, i.status)
  {
    DeletionKeepsStatusExactly(i, user);
    DeletionKeepsSummariesUnsigned(i.timeline, user);
  }

  lemma DeletionKeepsSummariesUnsigned(timeline: seq<Entry>, user: UserId)
    requires SummariesUnsigned(timeline)
    ensures SummariesUnsigned(WithoutAuthor(timeline, user))
  {
  }

  /**
   Over any run, account deletions included and whatever people typed: the
   timeline tells the stored status at every point if and only if every deletion
   finds each forging text of its user overruled.
   */
  lemma {:induction false} TimelineTellsStatusExactly(i: Incident, reqs: seq<Request>)
    requires TimelineInv(i) && Handled(reqs)
    ensures AlwaysTellsStatus(i, reqs) <==> DeletionsOverruled(i, reqs)
    decreases |reqs|
  {
    if reqs != [] {
      var next := After(i, reqs[0]);
      StepTellsStatusExactly(i, reqs[0]);
      if TimelineInv(next) {
        TimelineTellsStatusExactly(next, reqs[1..]);
      }
    }
  }

  // ---------------------------------------------------------------- created_at order

  /** Position `k` is the latest status-setting row by created_at. */
  ghost predicate NewestShown(timeline: seq<Entry>, k: nat) {
    && k < |timeline| && Sets(timeline[k]).Some?
    && forall j :: 0 <= j < |timeline| && j != k && Sets(timeline[j]).Some? ==> timeline[j].at < timeline[k].at
  }

  /** Status-setting rows were stamped in the order they were committed. */
  ghost predicate StampedInOrder(timeline: seq<Entry>) {
    forall j, k :: 0 <= j < k < |timeline| && Sets(timeline[j]).Some? && Sets(timeline[k]).Some?
      ==> timeline[j].at < timeline[k].at
  }

  /** The newest-first timeline shows the stored status on top as long as stamps follow the commit order. */
  lemma {:induction false} NewestShownIsStatus(i: Incident, k: nat)
    requires TimelineInv(i) && StampedInOrder(i.timeline) && NewestShown(i.timeline, k)
    ensures Sets(i.timeline[k]) == Some(i.status)
  {
    LastSettingRow(i.timeline, k);
  }

  lemma {:induction false} LastSettingRow(timeline: seq<Entry>, k: nat)
    requires k < |timeline| && Sets(timeline[k]).Some?
    requires forall j :: k < j < |timeline| ==> Sets(timeline[j]).None?
    ensures Replay(timeline) == Sets(timeline[k]).value
    decreases |timeline|
  {
    if k < |timeline| - 1 {
      LastSettingRow(timeline[..|timeline| - 1], k);
    }
  }

  /** A status row no other is stamped later than: what a newest-first timeline shows on top, up to ties. */
  ghost predicate TopRow(timeline: seq<Entry>, k: int) {
    && 0 <= k < |timeline| && Sets(timeline[k]).Some?
    && forall j :: 0 <= j < |timeline| && Sets(timeline[j]).Some? ==> timeline[j].at <= timeline[k].at
  }

  /** Whichever status row is shown on top names the stored status. */
  ghost predicate Shows(i: Incident) {
    forall k :: TopRow(i.timeline, k) ==> Sets(i.timeline[k]) == Some(i.status)
  }

  /** The work writes a status row: a transition that changes something, or an accepted confirm. */
  predicate WritesStatus(i: Incident, op: Op) {
    (op.Transition? && i.status != op.to) || (op.ConfirmClose? && Apply(i, op).1.Ok?)
  }

  /** A request that started at `now` started after every one that wrote a status row. */
  ghost predicate LaterThanAll(timeline: seq<Entry>, now: int) {
    forall j :: 0 <= j < |timeline| && Sets(timeline[j]).Some? ==> timeline[j].at < now
  }

  /** No row on top, at `now` or later, names anything but `status`. */
  ghost predicate TopNames(timeline: seq<Entry>, now: int, status: Status) {
    forall k :: TopRow(timeline, k) && timeline[k].at >= now ==> Sets(timeline[k]) == Some(status)
  }

  lemma {:induction false} TopExists(timeline: seq<Entry>, j: nat) returns (k: nat)
    requires j < |timeline| && Sets(timeline[j]).Some?
    ensures TopRow(timeline, k) && timeline[j].at <= timeline[k].at
  {
    k := j;
    for n := 0 to |timeline|
      invariant k < |timeline| && Sets(timeline[k]).Some? && timeline[j].at <= timeline[k].at
      invariant forall m :: 0 <= m < n && Sets(timeline[m]).Some? ==> timeline[m].at <= timeline[k].at
    {
      if Sets(timeline[n]).Some? && timeline[k].at < timeline[n].at { k := n; }
    }
  }

  /** A status row, then rows that set none, join a timeline. */
  lemma TopAfterAppend(timeline: seq<Entry>, row: Entry, rest: seq<Entry>, i: Incident)
    requires i.timeline == timeline + [row] + rest && Sets(row) == Some(i.status)
    requires forall j :: 0 <= j < |rest| ==> Sets(rest[j]).None?
    ensures Shows(i) <==> TopNames(timeline, row.at, i.status)
  {
    var n := |timeline|;
    assert i.timeline[n] == row && forall j :: 0 <= j < n ==> i.timeline[j] == timeline[j];
    assert forall j :: n < j < |i.timeline| ==> i.timeline[j] == rest[j - n - 1];
    if Shows(i) {
      forall k | TopRow(timeline, k) && timeline[k].at >= row.at ensures Sets(timeline[k]) == Some(i.status) {
        assert TopRow(i.timeline, k);
      }
    } else {
      var k :| TopRow(i.timeline, k) && Sets(i.timeline[k]) != Some(i.status);
      assert k < n && row.at <= timeline[k].at;
      assert TopRow(timeline, k);
    }
  }

  /**
   Stamps are transaction starts, so they need not follow the commit order. On
   any incident, with whatever timeline and whatever note: the status shown after
   a change is the stored one exactly when no row that stays on top names another.
   Where it was shown before, that is when the request started after every
   earlier change, or leaves the status as it was.
   */
  lemma NewestShownFollowsStart(i: Incident, op: Op)
    requires AsHandled(op) && WritesStatus(i, op)
    ensures var end := Apply(i, op).0;
            && (Shows(end) <==> TopNames(i.timeline, op.now, end.status))
            && (Shows(i) ==> (Shows(end) <==> LaterThanAll(i.timeline, op.now) || end.status == i.status))
  {
    var end := Apply(i, op).0;
    if op.Transition? {
      StatusLineAnnounces(op.to);
      var rest := if op.note == "" then [] else [Entry(op.note, op.author, false, op.noteAt)];
      assert TransitionEntries(op) == [Entry(StatusLine(op.to), None, false, op.now)] + rest;
      TopAfterAppend(i.timeline, Entry(StatusLine(op.to), None, false, op.now), rest, end);
    } else {
      TopAfterAppend(i.timeline, Entry(op.expected, None, true, op.now), [], end);
    }
    if Shows(i) && !LaterThanAll(i.timeline, op.now) {
      var j :| 0 <= j < |i.timeline| && Sets(i.timeline[j]).Some? && i.timeline[j].at >= op.now;
      var k := TopExists(i.timeline, j);
      assert Sets(i.timeline[k]) == Some(i.status);
    }
  }

  /** The same status rows, stamps included, and possibly more rows that set none. */
  ghost predicate SameStatusRows(t: seq<Entry>, t': seq<Entry>) {
    && |t| <= |t'|
    && (forall k :: 0 <= k < |t| ==> Sets(t'[k]) == Sets(t[k]) && t'[k].at == t[k].at)
    && (forall k :: |t| <= k < |t'| ==> Sets(t'[k]).None?)
  }

  lemma SameRowsSameTop(t: seq<Entry>, t': seq<Entry>, k: int)
    requires SameStatusRows(t, t')
    ensures TopRow(t', k) <==> TopRow(t, k)
  {
  }

  /** Work other than a change or a deletion sets no status. */
  lemma QuietWorkSetsNothing(i: Incident, op: Op)
    requires AsHandled(op) && !WritesStatus(i, op) && !op.DeleteUser?
    ensures SameStatusRows(i.timeline, Apply(i, op).0.timeline) && Apply(i, op).0.status == i.status
  {
  }

  lemma QuietWorkKeepsShown(i: Incident, op: Op)
    requires AsHandled(op) && !WritesStatus(i, op) && !op.DeleteUser?
    ensures Shows(Apply(i, op).0) <==> Shows(i)
  {
    QuietWorkSetsNothing(i, op);
    forall k ensures TopRow(Apply(i, op).0.timeline, k) <==> TopRow(i.timeline, k) {
      SameRowsSameTop(i.timeline, Apply(i, op).0.timeline, k);
    }
  }

  /** A status row, or a text of the user's own that names `status`, is stamped later than `at`. */
  ghost predicate Outstamped(timeline: seq<Entry>, at: int, user: UserId, status: Status) {
    exists j :: 0 <= j < |timeline| && at < timeline[j].at
      && (Sets(timeline[j]).Some?
          || (timeline[j].author == Some(user) && AnnouncedBy(timeline[j].body) == Some(status)))
  }

  ghost predicate ForgeriesOutstamped(timeline: seq<Entry>, user: UserId, status: Status) {
    forall k :: 0 <= k < |timeline| && Forges(timeline[k], user, status)
      ==> Outstamped(timeline, timeline[k].at, user, status)
  }

  /** Deleting an account leaves the stored status shown exactly when none of its forging texts comes out on top. */
  lemma {:induction false} DeletionKeepsShownExactly(i: Incident, user: UserId)
    requires SummariesUnsigned(i.timeline) && Shows(i)
    ensures Shows(i.(timeline := WithoutAuthor(i.timeline, user))) <==> ForgeriesOutstamped(i.timeline, user, i.status)
  {
    var t, left := i.timeline, WithoutAuthor(i.timeline, user);
    var end := i.(timeline := left);
    forall k | 0 <= k < |t|
      ensures left[k].at == t[k].at && (Sets(t[k]).Some? ==> Sets(left[k]) == Sets(t[k]))
      ensures Sets(t[k]).None? ==> Sets(left[k]) == if t[k].author == Some(user) then AnnouncedBy(t[k].body) else None
      ensures Forges(t[k], user, i.status) ==> Sets(t[k]).None?
    {
      Unsigned(t[k], user, i.status);
    }
    if Shows(end) {
      forall k | 0 <= k < |t| && Forges(t[k], user, i.status) ensures Outstamped(t, t[k].at, user, i.status) {
        var top := TopExists(left, k);
        assert Sets(left[top]) == Some(i.status);
        assert TopRow(left, k) <==> t[k].at == t[top].at;
      }
    } else {
      var k :| TopRow(left, k) && Sets(left[k]) != Some(i.status);
      if Sets(t[k]).Some? {
        assert TopRow(t, k);
      } else {
        assert Forges(t[k], user, i.status) && !Outstamped(t, t[k].at, user, i.status);
      }
    }
  }

  /**
   The request leaves the stored status shown: a change started after all the
   changes before it, or changes nothing; a deleted account has no forging text on top.
   */
  ghost predicate ShowsOn(i: Incident, req: Request) {
    && (req.commits && WritesStatus(i, req.op) ==>
          LaterThanAll(i.timeline, req.op.now) || After(i, req).status == i.status)
    && (req.commits && req.op.DeleteUser? ==> ForgeriesOutstamped(i.timeline, req.op.user, i.status))
  }

  ghost predicate AllShowOn(i: Incident, reqs: seq<Request>)
    decreases |reqs|
  {
    reqs == [] || (ShowsOn(i, reqs[0]) && AllShowOn(After(i, reqs[0]), reqs[1..]))
  }

  ghost predicate AlwaysShows(i: Incident, reqs: seq<Request>)
    decreases |reqs|
  {
    Shows(i) && (reqs == [] || AlwaysShows(After(i, reqs[0]), reqs[1..]))
  }

  lemma {:induction false} StepShowsExactly(i: Incident, req: Request)
    requires SummariesUnsigned(i.timeline) && Shows(i) && AsHandled(req.op)
    ensures Shows(After(i, req)) <==> ShowsOn(i, req)
    ensures SummariesUnsigned(After(i, req).timeline)
  {
    WorkKeepsSummariesUnsigned(i, req.op);
    if !req.commits {
      assert After(i, req) == i;
    } else if req.op.DeleteUser? {
      DeletionKeepsShownExactly(i, req.op.user);
      assert After(i, req) == i.(timeline := WithoutAuthor(i.timeline, req.op.user));
    } else if WritesStatus(i, req.op) {
      NewestShownFollowsStart(i, req.op);
    } else {
      QuietWorkKeepsShown(i, req.op);
    }
  }

  /**
   Over any run: the newest status row shown tells the stored status at every
   point if and only if every change that was committed started after all the
   changes committed before it, but for confirms of an incident resolved already,
   and no account was deleted whose texts then came out on top.
   */
  lemma {:induction false} ShownStatusExactly(i: Incident, reqs: seq<Request>)
    requires SummariesUnsigned(i.timeline) && Shows(i) && Handled(reqs)
    ensures AlwaysShows(i, reqs) <==> AllShowOn(i, reqs)
    decreases |reqs|
  {
    if reqs != [] {
      StepShowsExactly(i, reqs[0]);
      if ShowsOn(i, reqs[0]) {
        ShownStatusExactly(After(i, reqs[0]), reqs[1..]);
      }
    }
  }

  // ---------------------------------------------------------------- transitions

  /** The committed request changed the status. */
  predicate Moves(i: Incident, req: Request) {
    After(i, req).status != i.status
  }

  /** The request's transition reported a change to its caller, committed or not. */
  predicate ReportsChange(i: Incident, req: Request) {
    req.op.Transition? && Apply(i, req.op).1 == Ok(true)
  }

  /** How many requests of a run satisfy `p` at the moment they run. */
  function Count(i: Incident, reqs: seq<Request>, p: (Incident, Request) -> bool): nat
    decreases |reqs|
  {
    if reqs == [] then 0
    else (if p(i, reqs[0]) then 1 else 0) + Count(After(i, reqs[0]), reqs[1..], p)
  }

  /**
   Of any number of identical transitions to a status, whatever other work that
   leaves the status alone comes between, exactly one is a committed change, or
   none if the incident was there already or no request commits.
   */
  lemma {:induction false} IdenticalTransitionsChangeOnce(i: Incident, to: Status, reqs: seq<Request>)
    requires forall k :: 0 <= k < |reqs| ==>
      !reqs[k].op.ConfirmClose? && (reqs[k].op.Transition? ==> reqs[k].op.to == to)
    ensures Count(i, reqs, (j: Incident, r: Request) => ReportsChange(j, r) && r.commits)
      == (if i.status != to && (exists k :: 0 <= k < |reqs| && reqs[k].op.Transition? && reqs[k].commits) then 1 else 0)
    decreases |reqs|
  {
    if reqs != [] {
      var rest := reqs[1..];
      IdenticalTransitionsChangeOnce(After(i, reqs[0]), to, rest);
      if exists k :: 0 <= k < |rest| && rest[k].op.Transition? && rest[k].commits {
        var k :| 0 <= k < |rest| && rest[k].op.Transition? && rest[k].commits;
        assert reqs[k + 1] == rest[k];
      }
    }
  }

  predicate MovesIn(i: Incident, req: Request) {
    !i.status.Resolved? && After(i, req).status.Resolved?
  }

  predicate MovesOut(i: Incident, req: Request) {
    i.status.Resolved? && !After(i, req).status.Resolved?
  }

  function Unit(b: bool): int {
    if b then 1 else 0
  }

  /** Moves into resolved and out of it alternate: over any stretch they differ by where it starts and ends. */
  lemma {:induction false} MovesBalance(i: Incident, reqs: seq<Request>)
    ensures Count(i, reqs, MovesIn) - Count(i, reqs, MovesOut)
      == Unit(Run(i, reqs).status.Resolved?) - Unit(i.status.Resolved?)
    decreases |reqs|
  {
    if reqs != [] {
      MovesBalance(After(i, reqs[0]), reqs[1..]);
    }
  }

  /** The incident as request number `k` finds it. */
  function At(i: Incident, reqs: seq<Request>, k: nat): Incident
    requires k <= |reqs|
  {
    Run(i, reqs[..k])
  }

  lemma {:induction false} NextAt(i: Incident, reqs: seq<Request>, k: nat)
    requires k < |reqs|
    ensures At(i, reqs, k + 1) == After(At(i, reqs, k), reqs[k])
    decreases k
  {
    if k > 0 {
      NextAt(After(i, reqs[0]), reqs[1..], k - 1);
      assert reqs[..k + 1][1..] == reqs[1..][..k] && reqs[..k][1..] == reqs[1..][..k - 1];
    } else {
      assert reqs[..1][1..] == [] && reqs[..1][0] == reqs[0];
      assert Run(After(i, reqs[0]), []) == After(i, reqs[0]);
    }
  }

  /** Between any two moves into resolved lies a move out of it. */
  lemma MoveOutBetween(i: Incident, reqs: seq<Request>, j: nat, k: nat) returns (m: nat)
    requires j < k < |reqs|
    requires MovesIn(At(i, reqs, j), reqs[j]) && MovesIn(At(i, reqs, k), reqs[k])
    ensures j < m < k && MovesOut(At(i, reqs, m), reqs[m])
  {
    m := j + 1;
    NextAt(i, reqs, j);
    while !MovesOut(At(i, reqs, m), reqs[m])
      invariant j < m < k && At(i, reqs, m).status.Resolved?
      decreases k - m
    {
      NextAt(i, reqs, m);
      m := m + 1;
    }
  }

  /** A request the handlers answer with a resolve mail: sent before the request's transaction ends. */
  predicate Notifies(i: Incident, req: Request) {
    || (ReportsChange(i, req) && req.op.to.Resolved?)
    || (req.op.ConfirmClose? && Apply(i, req.op).1.Ok?)
  }

  /** A confirm that resolves an incident someone had already resolved. */
  predicate ConfirmsResolved(i: Incident, req: Request) {
    req.op.ConfirmClose? && req.commits && Apply(i, req.op).1.Ok? && i.status.Resolved?
  }

  predicate NotifiesAborted(i: Incident, req: Request) {
    Notifies(i, req) && !req.commits
  }

  /**
   Resolve mails, counted: one per move into resolved, one more per confirm of
   an incident that was resolved already, and one more per notified request
   whose transaction then failed to commit. With neither, mails and moves agree.
   */
  lemma {:induction false} NoticesAreMoves(i: Incident, reqs: seq<Request>)
    ensures Count(i, reqs, Notifies)
      == Count(i, reqs, MovesIn) + Count(i, reqs, ConfirmsResolved) + Count(i, reqs, NotifiesAborted)
    decreases |reqs|
  {
    if reqs != [] {
      NoticesAreMoves(After(i, reqs[0]), reqs[1..]);
    }
  }

  /**
   Resolving by hand leaves a pending proposal in place, so it can still be
   confirmed afterwards: the incident stays resolved, with a later resolved_at
   and a second mail.
   */
  lemma ManualResolveLeavesProposal(i: Incident, resolve: Op, confirm: Op)
    requires resolve.Transition? && resolve.to.Resolved? && !i.status.Resolved?
    requires confirm.ConfirmClose? && i.pending == Some(confirm.expected)
    ensures var resolved := After(i, Request(resolve, true));
            && resolved.pending == i.pending && resolved.resolvedAt == Some(resolve.now)
            && ConfirmsResolved(resolved, Request(confirm, true))
            && After(resolved, Request(confirm, true)).resolvedAt == Some(confirm.now)
            && Count(i, [Request(resolve, true), Request(confirm, true)], Notifies) == 2
            && Count(i, [Request(resolve, true), Request(confirm, true)], MovesIn) == 1
  {
    var reqs := [Request(resolve, true), Request(confirm, true)];
    var resolved := After(i, reqs[0]);
    assert reqs[1..] == [Request(confirm, true)];
    NoticesAreMoves(i, reqs);
    assert Count(resolved, reqs[1..], Notifies) == 1;
    assert Count(resolved, reqs[1..], MovesIn) == 0;
  }

  // ---------------------------------------------------------------- close proposals

  /** An incident with the history of its proposals: numbered as stored, and what became of them. */
  datatype Ledger = Ledger(
    incident: Incident,
    stored: seq<string>,
    current: Option<nat>,
    confirmed: seq<nat>,
    discarded: seq<nat>)

  function Record(l: Ledger, req: Request): Ledger {
    var (after, r) := Apply(l.incident, req.op);
    if !req.commits then l
    else if r != Ok(true) then l.(incident := after)
    else match req.op
      case SetPending(comment) => l.(incident := after, stored := l.stored + [comment], current := Some(|l.stored|))
      case ConfirmClose(_, _) => l.(incident := after, confirmed := l.confirmed + ToSeq(l.current), current := None)
      case Discard => l.(incident := after, discarded := l.discarded + ToSeq(l.current), current := None)
      case _ => l.(incident := after)
  }

  function RecordAll(l: Ledger, reqs: seq<Request>): Ledger
    decreases |reqs|
  {
    if reqs == [] then l else RecordAll(Record(l, reqs[0]), reqs[1..])
  }

  /** The AI summaries of a timeline, in order. */
  function Summaries(timeline: seq<Entry>): seq<string> {
    if timeline == [] then []
    else
      Summaries(timeline[..|timeline| - 1])
        + if timeline[|timeline| - 1].isAISummary then [timeline[|timeline| - 1].body] else []
  }

  /** Of `n` stored proposals each is confirmed or discarded at most once, and the current one is neither. */
  ghost predicate UsedOnce(n: nat, current: Option<nat>, confirmed: seq<nat>, discarded: seq<nat>) {
    && Distinct(confirmed + discarded)
    && (forall k :: 0 <= k < |confirmed| ==> confirmed[k] < n && Some(confirmed[k]) != current)
    && (forall k :: 0 <= k < |discarded| ==> discarded[k] < n && Some(discarded[k]) != current)
    && (current.Some? ==> current.value < n)
  }

  /** The summaries are the confirmed proposals' texts, in order. */
  ghost predicate Quotes(summaries: seq<string>, stored: seq<string>, confirmed: seq<nat>) {
    && |summaries| == |confirmed|
    && forall k :: 0 <= k < |confirmed| ==> confirmed[k] < |stored| && summaries[k] == stored[confirmed[k]]
  }

  predicate PendingIsCurrent(l: Ledger) {
    if l.current.Some? then l.current.value < |l.stored| && l.incident.pending == Some(l.stored[l.current.value])
    else l.incident.pending.None?
  }

  ghost predicate LedgerInv(l: Ledger) {
    && UsedOnce(|l.stored|, l.current, l.confirmed, l.discarded)
    && Quotes(Summaries(l.incident.timeline), l.stored, l.confirmed)
    && PendingIsCurrent(l)
  }

  lemma SummariesAppend(timeline: seq<Entry>, e: Entry)
    ensures Summaries(timeline + [e]) == Summaries(timeline) + if e.isAISummary then [e.body] else []
  {
    assert (timeline + [e])[..|timeline|] == timeline;
  }

  lemma {:induction false} SummariesSurviveDeletion(timeline: seq<Entry>, user: UserId)
    ensures Summaries(WithoutAuthor(timeline, user)) == Summaries(timeline)
    decreases |timeline|
  {
    var n := |timeline|;
    if n > 0 {
      SummariesSurviveDeletion(timeline[..n - 1], user);
      assert WithoutAuthor(timeline, user)[..n - 1] == WithoutAuthor(timeline[..n - 1], user);
    }
  }

  lemma {:induction false} TransitionKeepsSummaries(timeline: seq<Entry>, op: Op)
    requires op.Transition?
    ensures Summaries(timeline + TransitionEntries(op)) == Summaries(timeline)
  {
    var line := Entry(StatusLine(op.to), None, false, op.now);
    var note := Entry(op.note, op.author, false, op.noteAt);
    SummariesAppend(timeline, line);
    SummariesAppend(timeline + [line], note);
    assert timeline + [line] + [note] == timeline + [line, note];
    assert TransitionEntries(op) == (if op.note == "" then [line] else [line, note]);
  }

  lemma {:induction false} WorkOnSummaries(i: Incident, op: Op)
    requires AsHandled(op)
    ensures Summaries(Apply(i, op).0.timeline) == Summaries(i.timeline) +
      if op.ConfirmClose? && Apply(i, op).1.Ok? then [op.expected] else []
  {
    match op {
      case AddUpdate(body, author, ai, now) => SummariesAppend(i.timeline, Entry(body, author, ai, now));
      case Transition(_, _, _, _, _) => TransitionKeepsSummaries(i.timeline, op);
      case ConfirmClose(expected, now) => SummariesAppend(i.timeline, Entry(expected, None, true, now));
      case DeleteUser(user) => SummariesSurviveDeletion(i.timeline, user);
      case _ =>
    }
  }

  lemma ProposalStored(n: nat, current: Option<nat>, confirmed: seq<nat>, discarded: seq<nat>)
    requires UsedOnce(n, current, confirmed, discarded)
    ensures UsedOnce(n + 1, Some(n), confirmed, discarded)
  {
  }

  lemma ProposalConfirmed(n: nat, used: nat, confirmed: seq<nat>, discarded: seq<nat>)
    requires UsedOnce(n, Some(used), confirmed, discarded)
    ensures UsedOnce(n, None, confirmed + [used], discarded)
  {
    var before, after := confirmed + discarded, confirmed + [used] + discarded;
    var m := |confirmed|;
    forall i, j | 0 <= i < j < |after| ensures after[i] != after[j] {
      assert i < m ==> after[i] == before[i];
      assert i > m ==> after[i] == before[i - 1];
      assert j < m ==> after[j] == before[j];
      assert j > m ==> after[j] == before[j - 1];
    }
  }

  lemma ProposalDiscarded(n: nat, used: nat, confirmed: seq<nat>, discarded: seq<nat>)
    requires UsedOnce(n, Some(used), confirmed, discarded)
    ensures UsedOnce(n, None, confirmed, discarded + [used])
  {
    assert confirmed + (discarded + [used]) == (confirmed + discarded) + [used];
  }

  lemma QuotesExtend(summaries: seq<string>, stored: seq<string>, confirmed: seq<nat>, text: string, used: nat)
    requires Quotes(summaries, stored, confirmed)
    ensures Quotes(summaries, stored + [text], confirmed)
    ensures used < |stored| ==> Quotes(summaries + [stored[used]], stored, confirmed + [used])
  {
  }

  lemma {:induction false} SetPendingKeepsLedgerInv(l: Ledger, req: Request)
    requires LedgerInv(l) && req.op.SetPending? && Record(l, req) != l
    ensures LedgerInv(Record(l, req))
  {
    ProposalStored(|l.stored|, l.current, l.confirmed, l.discarded);
    QuotesExtend(Summaries(l.incident.timeline), l.stored, l.confirmed, req.op.comment, 0);
    assert Record(l, req).stored[|l.stored|] == req.op.comment;
  }

  lemma {:induction false} ConfirmKeepsLedgerInv(l: Ledger, req: Request)
    requires LedgerInv(l) && req.op.ConfirmClose? && Record(l, req) != l
    ensures LedgerInv(Record(l, req))
  {
    WorkOnSummaries(l.incident, req.op);
    if Apply(l.incident, req.op).1 == Ok(true) {
      ProposalConfirmed(|l.stored|, l.current.value, l.confirmed, l.discarded);
      QuotesExtend(Summaries(l.incident.timeline), l.stored, l.confirmed, "", l.current.value);
    }
  }

  lemma {:induction false} DiscardKeepsLedgerInv(l: Ledger, req: Request)
    requires LedgerInv(l) && req.op.Discard? && Record(l, req) != l
    ensures LedgerInv(Record(l, req))
  {
    if Apply(l.incident, req.op).1 == Ok(true) {
      ProposalDiscarded(|l.stored|, l.current.value, l.confirmed, l.discarded);
    }
  }

  lemma {:induction false} OtherWorkKeepsLedgerInv(l: Ledger, req: Request)
    requires LedgerInv(l) && AsHandled(req.op)
    requires !req.op.SetPending? && !req.op.ConfirmClose? && !req.op.Discard?
    ensures LedgerInv(Record(l, req))
  {
    var after := Apply(l.incident, req.op).0;
    assert after.pending == l.incident.pending by {
      WorkOnRow(l.incident, req.op);
    }
    assert Summaries(after.timeline) == Summaries(l.incident.timeline) by {
      WorkOnSummaries(l.incident, req.op);
      assert Summaries(l.incident.timeline) + [] == Summaries(l.incident.timeline);
    }
    assert Record(l, req) == l || Record(l, req) == l.(incident := after);
  }

  lemma RecordKeepsLedgerInv(l: Ledger, req: Request)
    requires LedgerInv(l) && AsHandled(req.op)
    ensures LedgerInv(Record(l, req))
  {
    if Record(l, req) != l {
      if req.op.SetPending? {
        SetPendingKeepsLedgerInv(l, req);
      } else if req.op.ConfirmClose? {
        ConfirmKeepsLedgerInv(l, req);
      } else if req.op.Discard? {
        DiscardKeepsLedgerInv(l, req);
      } else {
        OtherWorkKeepsLedgerInv(l, req);
      }
    }
  }

  /**
   Over any interleaving of proposals, confirms, discards and other work: every
   stored proposal is confirmed or discarded at most once and never both, and
   the AI summaries on the timeline are, one for one and in order, the texts of
   the confirmed proposals.
   */
  lemma {:induction false} ProposalsConsumedOnce(l: Ledger, reqs: seq<Request>)
    requires LedgerInv(l) && Handled(reqs)
    ensures LedgerInv(RecordAll(l, reqs))
    decreases |reqs|
  {
    if reqs != [] {
      RecordKeepsLedgerInv(l, reqs[0]);
      ProposalsConsumedOnce(Record(l, reqs[0]), reqs[1..]);
    }
  }

  /**
   A summary is what was both stored and submitted when it was written, and a
   proposal is only ever stored on an incident that is not resolved.
   */
  lemma {:induction false} WorkOnProposals(i: Incident, op: Op)
    requires AsHandled(op)
    ensures var after := Apply(i, op).0;
            && (Summaries(after.timeline) != Summaries(i.timeline) ==>
                  op.ConfirmClose? && i.pending == Some(op.expected) && after.pending == None
                  && Summaries(after.timeline) == Summaries(i.timeline) + [op.expected])
            && (after.pending.Some? && after.pending != i.pending ==>
                  !i.status.Resolved? && op == SetPending(after.pending.value))
  {
    WorkOnSummaries(i, op);
  }
}
