/** An incident's row and timeline, the statements that change them, and the handlers that run those. */
module Incidents {
  import opened Prelude

  type IncidentId = nat

  datatype Status = Investigating | Identified | Monitoring | Resolved

  function StatusName(s: Status): string {
    match s
    case Investigating => "investigating"
    case Identified => "identified"
    case Monitoring => "monitoring"
    case Resolved => "resolved"
  }

  /** The status a request's text names, if it is one of the four accepted. */
  function ParseStatus(name: string): (s: Option<Status>)
    ensures s.Some? ==> StatusName(s.value) == name
    ensures s.None? ==> forall status :: StatusName(status) != name
  {
    if name == "investigating" then Some(Investigating)
    else if name == "identified" then Some(Identified)
    else if name == "monitoring" then Some(Monitoring)
    else if name == "resolved" then Some(Resolved)
    else None
  }

  const STATUS_PREFIX := "Status changed to "

  /** The body of the system entry a transition writes. */
  function StatusLine(s: Status): string {
    STATUS_PREFIX + StatusName(s)
  }

  /** The status a timeline body announces, if it reads as a transition's system entry. */
  function AnnouncedBy(body: string): Option<Status> {
    if STATUS_PREFIX <= body then ParseStatus(body[|STATUS_PREFIX|..]) else None
  }

  lemma StatusLineAnnounces(s: Status)
    ensures AnnouncedBy(StatusLine(s)) == Some(s)
  {
    assert StatusLine(s)[|STATUS_PREFIX|..] == StatusName(s);
    assert "identified"[0] != "monitoring"[0];
  }

  /** A timeline row, in the order rows were committed. `at` is its created_at. */
  datatype Entry = Entry(body: string, author: Option<UserId>, isAISummary: bool, at: int)

  datatype Incident = Incident(
    status: Status,
    resolvedAt: Option<int>,
    pending: Option<string>,
    description: Option<string>,
    autoCreated: bool,
    timeline: seq<Entry>)

  datatype Failure = NotFound | NoPendingProposal | CloseProposalChanged | AlreadyResolved

  /** One committed unit of work on an incident that exists. `now` is its transaction's start. */
  datatype Op =
    | AddUpdate(body: string, author: Option<UserId>, isAISummary: bool, now: int)
    | Transition(to: Status, note: string, author: Option<UserId>, now: int, noteAt: int)
    | ConfirmClose(expected: string, now: int)
    | SetPending(comment: string)
    | Discard
    | SetDescription(text: string)
    | DeleteUser(user: UserId)

  /** ON DELETE SET NULL on author_id, for one row. */
  function Unsign(e: Entry, user: UserId): Entry {
    if e.author == Some(user) then e.(author := None) else e
  }

  function WithoutAuthor(timeline: seq<Entry>, user: UserId): (r: seq<Entry>)
    ensures |r| == |timeline| && forall k :: 0 <= k < |timeline| ==> r[k] == Unsign(timeline[k], user)
  {
    seq(|timeline|, k requires 0 <= k < |timeline| => Unsign(timeline[k], user))
  }

  function TransitionEntries(op: Op): seq<Entry>
    requires op.Transition?
  {
    [Entry(StatusLine(op.to), None, false, op.now)]
      + if op.note == "" then [] else [Entry(op.note, op.author, false, op.noteAt)]
  }

  /** What one unit of work does to the incident, and what its caller learns: whether anything changed. */
  function Apply(i: Incident, op: Op): (Incident, Result<bool, Failure>) {
    match op
    case AddUpdate(body, author, ai, now) => (i.(timeline := i.timeline + [Entry(body, author, ai, now)]), Ok(true))
    case Transition(to, _, _, now, _) =>
      if i.status == to then (i, Ok(false))
      else (i.(status := to,
               resolvedAt := if to.Resolved? then Some(now) else None,
               timeline := i.timeline + TransitionEntries(op)), Ok(true))
    case ConfirmClose(expected, now) =>
      if i.pending.None? then (i, Err(NoPendingProposal))
      else if i.pending.value != expected then (i, Err(CloseProposalChanged))
      else (i.(status := Resolved, resolvedAt := Some(now), pending := None,
               timeline := i.timeline + [Entry(expected, None, true, now)]), Ok(true))
    case SetPending(comment) =>
      if i.status.Resolved? then (i, Err(AlreadyResolved)) else (i.(pending := Some(comment)), Ok(true))
    case Discard => if i.pending.None? then (i, Err(NoPendingProposal)) else (i.(pending := None), Ok(true))
    case SetDescription(text) =>
      if i.status.Resolved? then (i, Err(AlreadyResolved)) else (i.(description := Some(text)), Ok(true))
    case DeleteUser(user) => (i.(timeline := WithoutAuthor(i.timeline, user)), Ok(true))
  }

  function Created(description: Option<string>, autoCreated: bool): Incident {
    Incident(Investigating, None, None, description, autoCreated, [])
  }

  /** The repository, over the rows of one tenant. */
  class IncidentRepository {
    var incidents: map<IncidentId, Incident>

    constructor ()
      ensures incidents == map[]
    {
      incidents := map[];
    }

    /** The contract every statement on an existing incident meets: `Apply` on its row, no other row touched. */
    ghost predicate Did(before: map<IncidentId, Incident>, id: IncidentId, op: Op, r: Result<bool, Failure>)
      reads this
    {
      if id in before
      then incidents == before[id := Apply(before[id], op).0] && r == Apply(before[id], op).1
      else incidents == before && r == Err(NotFound)
    }

    method Insert(id: IncidentId, description: Option<string>, autoCreated: bool)
      requires id !in incidents
      modifies this
      ensures incidents == old(incidents)[id := Created(description, autoCreated)]
    {
      incidents := incidents[id := Incident(Investigating, None, None, description, autoCreated, [])];
    }

    method AppendEntry(id: IncidentId, entry: Entry)
      requires id in incidents
      modifies this
      ensures incidents == old(incidents)[id := old(incidents)[id].(timeline := old(incidents)[id].timeline + [entry])]
    {
      incidents := incidents[id := incidents[id].(timeline := incidents[id].timeline + [entry])];
    }

    method AddUpdate(id: IncidentId, body: string, author: Option<UserId>, isAISummary: bool, now: int)
      returns (r: Result<bool, Failure>)
      modifies this
      ensures Did(old(incidents), id, Op.AddUpdate(body, author, isAISummary, now), r)
    {
      if id !in incidents { return Err(NotFound); }
      AppendEntry(id, Entry(body, author, isAISummary, now));
      return Ok(true);
    }

    method Transition(id: IncidentId, to: Status, note: string, author: Option<UserId>, now: int, noteAt: int)
      returns (r: Result<bool, Failure>)
      modifies this
      ensures Did(old(incidents), id, Op.Transition(to, note, author, now, noteAt), r)
    {
      // UPDATE ... WHERE id = $1 AND status <> $2
      if id in incidents && incidents[id].status != to {
        var resolvedAt := if to.Resolved? then Some(now) else None;
        incidents := incidents[id := incidents[id].(status := to, resolvedAt := resolvedAt)];
      } else if id !in incidents {
        return Err(NotFound);
      } else {
        return Ok(false);
      }
      AppendEntry(id, Entry(StatusLine(to), None, false, now));
      if note != "" {
        AppendEntry(id, Entry(note, author, false, noteAt));
      }
      assert incidents[id].timeline
        == old(incidents[id].timeline) + TransitionEntries(Op.Transition(to, note, author, now, noteAt));
      return Ok(true);
    }

    method ConfirmPendingClose(id: IncidentId, expected: string, now: int) returns (r: Result<bool, Failure>)
      modifies this
      ensures Did(old(incidents), id, ConfirmClose(expected, now), r)
    {
      // SELECT pending_close_comment ... FOR UPDATE
      if id !in incidents { return Err(NotFound); }
      var current := incidents[id].pending;
      if current.None? { return Err(NoPendingProposal); }
      if current.value != expected { return Err(CloseProposalChanged); }
      incidents := incidents[id := incidents[id].(status := Resolved, resolvedAt := Some(now), pending := None)];
      AppendEntry(id, Entry(expected, None, true, now));
      return Ok(true);
    }

    method SetPendingCloseComment(id: IncidentId, comment: string) returns (r: Result<bool, Failure>)
      modifies this
      ensures Did(old(incidents), id, SetPending(comment), r)
    {
      if id !in incidents { return Err(NotFound); }
      if incidents[id].status.Resolved? { return Err(AlreadyResolved); }
      incidents := incidents[id := incidents[id].(pending := Some(comment))];
      return Ok(true);
    }

    method DiscardCloseProposal(id: IncidentId) returns (r: Result<bool, Failure>)
      modifies this
      ensures Did(old(incidents), id, Discard, r)
    {
      if id !in incidents { return Err(NotFound); }
      if incidents[id].pending.None? { return Err(NoPendingProposal); }
      incidents := incidents[id := incidents[id].(pending := None)];
      return Ok(true);
    }

    method SetDescription(id: IncidentId, text: string) returns (r: Result<bool, Failure>)
      modifies this
      ensures Did(old(incidents), id, Op.SetDescription(text), r)
    {
      if id !in incidents { return Err(NotFound); }
      if incidents[id].status.Resolved? { return Err(AlreadyResolved); }
      incidents := incidents[id := incidents[id].(description := Some(text))];
      return Ok(true);
    }

    /** The request's transaction ends: its writes stay, or the rows go back to what they were. */
    method EndRequest(before: map<IncidentId, Incident>, commits: bool)
      modifies this
      ensures incidents == if commits then old(incidents) else before
    {
      if !commits { incidents := before; }
    }
  }

  const MAX_NOTE := 2000

  datatype Reply = Unprocessable | Forbidden | Missing | Conflict | Replied(changed: bool)

  /** The operation a transition request turns into: only a resolve carries its note, and the note its author. */
  function TransitionOp(to: Status, note: string, actor: Option<UserId>, now: int, noteAt: int): Op {
    var kept := if to.Resolved? then note else "";
    Op.Transition(to, kept, if kept == "" then None else actor, now, noteAt)
  }

  /** The admin handlers. `resolveNotices` lists the incidents resolve mails went out for. */
  class IncidentsHandler {
    const repository: IncidentRepository
    var resolveNotices: seq<IncidentId>

    constructor (repository: IncidentRepository)
      ensures this.repository == repository && resolveNotices == []
    {
      this.repository := repository;
      resolveNotices := [];
    }

    /**
     PATCH /api/incidents/{id}. `note` is the trimmed closing note, and `commits`
     whether the request's transaction, which ends after the handler, commits.
     */
    method Transition(id: IncidentId, status: string, note: string, actor: Option<UserId>,
                      now: int, noteAt: int, commits: bool) returns (reply: Reply)
      modifies this, repository
      ensures var to := ParseStatus(status);
              var before := old(repository.incidents);
              if to.None? || (to == Some(Resolved) && (|note| > 2000 || (note != "" && actor.None?))) then
                reply in {Unprocessable, Forbidden}
                && repository.incidents == before && resolveNotices == old(resolveNotices)
              else if id !in before then
                reply == Missing && repository.incidents == before && resolveNotices == old(resolveNotices)
              else
                var (after, r) := Apply(before[id], TransitionOp(to.value, note, actor, now, noteAt));
                && r.Ok? && reply == Replied(r.value)
                && repository.incidents == (if commits then before[id := after] else before)
                && resolveNotices == old(resolveNotices) + if r.value && to == Some(Resolved) then [id] else []
    {
      var before := repository.incidents;
      var to := ParseStatus(status);
      if to.None? { return Unprocessable; }
      var kept, author := "", None;
      if to.value.Resolved? {
        kept := note;
        if |kept| > MAX_NOTE { return Unprocessable; }
      }
      if kept != "" {
        if actor.None? { return Forbidden; }
        author := actor;
      }
      var r := repository.Transition(id, to.value, kept, author, now, noteAt);
      if r.Err? { return Missing; }
      if r.value && to.value.Resolved? {
        resolveNotices := resolveNotices + [id];
      }
      repository.EndRequest(before, commits);
      return Replied(r.value);
    }

    /** POST /api/incidents/{id}/confirm-close. */
    method ConfirmClose(id: IncidentId, comment: string, now: int, commits: bool) returns (reply: Reply)
      modifies this, repository
      ensures var before := old(repository.incidents);
              if comment == "" || id !in before || Apply(before[id], Op.ConfirmClose(comment, now)).1.Err? then
                reply in {Unprocessable, Missing, Conflict}
                && repository.incidents == before && resolveNotices == old(resolveNotices)
              else
                && reply == Replied(true)
                && repository.incidents ==
                   (if commits then before[id := Apply(before[id], Op.ConfirmClose(comment, now)).0] else before)
                && resolveNotices == old(resolveNotices) + [id]
    {
      var before := repository.incidents;
      if comment == "" { return Unprocessable; }
      var r := repository.ConfirmPendingClose(id, comment, now);
      match r {
        case Err(NotFound) => return Missing;
        case Err(CloseProposalChanged) => return Conflict;
        case Err(_) => return Unprocessable;
        case Ok(_) =>
      }
      resolveNotices := resolveNotices + [id];
      repository.EndRequest(before, commits);
      return Replied(true);
    }

    /** POST /api/incidents/{id}/updates: the entry is always attributed to the authenticated actor. */
    method AddUpdate(id: IncidentId, body: string, actor: Option<UserId>, now: int, commits: bool)
      returns (reply: Reply)
      modifies repository
      ensures var before := old(repository.incidents);
              if actor.None? || body == "" || id !in before then
                reply in {Unprocessable, Forbidden, Missing} && repository.incidents == before
              else
                && reply == Replied(true)
                && repository.incidents ==
                   (if commits then before[id := Apply(before[id], Op.AddUpdate(body, actor, false, now)).0]
                    else before)
    {
      var before := repository.incidents;
      if actor.None? { return Forbidden; }
      if body == "" { return Unprocessable; }
      var r := repository.AddUpdate(id, body, actor, false, now);
      if r.Err? { return Missing; }
      repository.EndRequest(before, commits);
      return Replied(true);
    }
  }
}
