/**
  * internal/handler/milestone_handler.go, reduced to what the handler decides
  * itself: the default status on create, and on update the merge of the
  * request into the stored milestone and the completion instant of the
  * milestone it answers with.
  *
  * Body parsing, path parameters and JSON output are not modelled; a due
  * date arrives already classified as blank, parsed or unparseable. The
  * handler's own 400 answers are modelled as `ErrBadRequest` values, which
  * `WriteError` turns into the same status and message.
  */
module MilestoneHandlers {
  import opened Wrappers
  import opened Errors
  import opened Domain
  import opened Storage
  import opened Milestones

  /** A `due_date` string: empty, valid RFC 3339, or anything else. */
  datatype DateInput = Blank | Parsed(instant: Time) | Unparseable

  datatype CreateMilestoneRequest = CreateMilestoneRequest(
    name: string, orderIdx: int, status: string, dueDate: DateInput)

  /** Absent fields of the JSON body are `None`; `name` and `status` are absent when empty. */
  datatype UpdateMilestoneRequest = UpdateMilestoneRequest(
    name: string, orderIdx: Option<int>, status: string, dueDate: Option<DateInput>)

  predicate KnownStatus(s: string)
  {
    s == Pending || s == InProgress || s == Done
  }

  function DueDateOf(d: DateInput): Option<Time>
    requires d != Unparseable
  {
    if d.Parsed? then Some(d.instant) else None
  }

  /**
    * The milestone after the request's fields are applied to the stored
    * `m`: a non-empty name, a present order index, a non-empty known status
    * and a present due date overwrite; a blank due date clears it.
    */
  function Merge(m: Milestone, req: UpdateMilestoneRequest): (r: Result<Milestone>)
    ensures r.Failure? <==> (req.status != "" && !KnownStatus(req.status)) || req.dueDate == Some(Unparseable)
    ensures req.status != "" && !KnownStatus(req.status) ==> r == Failure(ErrBadRequest("invalid status"))
    ensures (req.status == "" || KnownStatus(req.status)) && req.dueDate == Some(Unparseable) ==>
      r == Failure(ErrBadRequest("invalid due date format"))
    ensures r.Success? ==>
      && r.value.(name := m.name, orderIdx := m.orderIdx, status := m.status, dueDate := m.dueDate) == m
      && (req.name == "" ==> r.value.name == m.name)
      && (req.name != "" ==> r.value.name == req.name)
      && (req.orderIdx.None? ==> r.value.orderIdx == m.orderIdx)
      && (req.orderIdx.Some? ==> r.value.orderIdx == req.orderIdx.value)
      && (req.status == "" ==> r.value.status == m.status)
      && (req.status != "" ==> r.value.status == req.status)
      && (req.dueDate.None? ==> r.value.dueDate == m.dueDate)
      && (req.dueDate == Some(Blank) ==> r.value.dueDate == None)
      && (req.dueDate.Some? && req.dueDate.value.Parsed? ==> r.value.dueDate == Some(req.dueDate.value.instant))
  {
    if req.status != "" && !KnownStatus(req.status) then Failure(ErrBadRequest("invalid status"))
    else if req.dueDate == Some(Unparseable) then Failure(ErrBadRequest("invalid due date format"))
    else
      var name := if req.name != "" then req.name else m.name;
      var orderIdx := if req.orderIdx.Some? then req.orderIdx.value else m.orderIdx;
      var status := if req.status != "" then req.status else m.status;
      var dueDate := if req.dueDate.Some? then DueDateOf(req.dueDate.value) else m.dueDate;
      Success(m.(name := name, orderIdx := orderIdx, status := status, dueDate := dueDate))
  }

  /** The completion instant the update answers with: kept or stamped when done, dropped otherwise. */
  function Normalised(m: Milestone, now: Time): (n: Milestone)
    ensures n.completedAt.Some? <==> n.status == Done
    ensures n.(completedAt := m.completedAt) == m
    ensures m.status == Done && m.completedAt.Some? ==> n.completedAt == m.completedAt
  {
    if m.status == Done && m.completedAt.None? then m.(completedAt := Some(now))
    else if m.status != Done then m.(completedAt := None)
    else m
  }

  /**
    * The answer and the stored record can disagree: a done milestone moved
    * back to pending is answered without a completion instant but keeps its
    * old one in the store.
    */
  lemma StoredCompletionOutlivesStatus(stored: Milestone, req: UpdateMilestoneRequest, now: Time)
    requires stored.status == Done && stored.completedAt.Some? && req.status == Pending
    requires Merge(stored, req).Success? && UpdateCheck(Merge(stored, req).value, now).None?
    ensures Merge(stored, req).value.status == Pending
    ensures Stamped(Merge(stored, req).value, now).completedAt == stored.completedAt
    ensures Normalised(Stamped(Merge(stored, req).value, now), now).completedAt == None
  {
  }

  class MilestoneHandler {
    const svc: MilestoneService

    constructor (svc: MilestoneService)
      ensures this.svc == svc
    {
      this.svc := svc;
    }

    /** An empty status is sent to the service as "pending". */
    method CreateMilestone(projectID: Id, req: CreateMilestoneRequest, now: Time) returns (r: Result<Milestone>)
      requires svc.Valid()
      modifies svc.repo`records, svc.repo`nextId
      ensures svc.Valid()
      ensures req.dueDate == Unparseable ==>
        r == Failure(ErrBadRequest("invalid due date format")) && unchanged(svc.repo)
      ensures req.dueDate != Unparseable && req.name == "" ==>
        r == Failure(ErrBadRequest("name required")) && unchanged(svc.repo)
      ensures req.dueDate != Unparseable && req.name != "" && InPast(DueDateOf(req.dueDate), now) ==>
        r == Failure(ErrBadRequest("due date cannot be in the past")) && unchanged(svc.repo)
      ensures r.Failure? ==> svc.repo.records == old(svc.repo.records)
      ensures r.Success? ==>
        && r.value.id != Nil && r.value.id !in old(svc.repo.records)
        && svc.repo.records == old(svc.repo.records)[r.value.id := r.value]
        && r.value.projectID == projectID && r.value.name == req.name && r.value.orderIdx == req.orderIdx
        && r.value.dueDate == DueDateOf(req.dueDate)
        && (req.status == "" ==> r.value.status == Pending)
        && (req.status != "" ==> r.value.status == req.status)
        && (r.value.completedAt.Some? <==> r.value.status == Done)
      ensures r.Failure? <==>
        req.dueDate == Unparseable || req.name == "" || InPast(DueDateOf(req.dueDate), now) || svc.repo.writeFault.Some?
    {
      var dueDate: Option<Time> := None;
      if req.dueDate != Blank {
        if req.dueDate == Unparseable {
          return Failure(ErrBadRequest("invalid due date format"));
        }
        dueDate := Some(req.dueDate.instant);
      }
      var status := req.status;
      if status == "" {
        status := Pending;
      }
      r := svc.CreateMilestone(projectID, req.name, req.orderIdx, status, dueDate, now);
    }

    /** Overwrites the fetched milestone's fields one by one, as the request asks. */
    method ApplyRequest(m: Milestone, req: UpdateMilestoneRequest) returns (r: Result<Milestone>)
      ensures r == Merge(m, req)
    {
      var milestone := m;
      if req.name != "" {
        milestone := milestone.(name := req.name);
      }
      if req.orderIdx.Some? {
        milestone := milestone.(orderIdx := req.orderIdx.value);
      }
      if req.status != "" {
        if req.status == Pending || req.status == InProgress || req.status == Done {
          milestone := milestone.(status := req.status);
        } else {
          return Failure(ErrBadRequest("invalid status"));
        }
      }
      if req.dueDate.Some? {
        match req.dueDate.value
        case Blank =>
          milestone := milestone.(dueDate := None);
        case Parsed(d) =>
          milestone := milestone.(dueDate := Some(d));
        case Unparseable =>
          return Failure(ErrBadRequest("invalid due date format"));
      }
      r := Success(milestone);
    }

    /**
      * Fetches the milestone, applies the request field by field, saves it
      * through the service, and answers with the completion instant
      * normalised to the status. The normalisation happens after the save.
      */
    method UpdateMilestone(id: Id, req: UpdateMilestoneRequest, now: Time) returns (r: Result<Milestone>)
      requires svc.Valid()
      modifies svc.repo`records, svc.repo`nextId
      ensures svc.Valid()
      ensures svc.repo.readFault.Some? ==> r == Failure(Db(svc.repo.readFault.value)) && unchanged(svc.repo)
      ensures svc.repo.readFault.None? && id !in old(svc.repo.records) ==>
        r == Failure(Db(RecordNotFound)) && unchanged(svc.repo)
      ensures svc.repo.readFault.None? && id in old(svc.repo.records) ==>
        var merged := Merge(old(svc.repo.records[id]), req);
        && (merged.Failure? ==> r == Failure(merged.error) && unchanged(svc.repo))
        && (merged.Success? && UpdateCheck(merged.value, now).Some? ==>
              r == Failure(UpdateCheck(merged.value, now).value) && unchanged(svc.repo))
        && (merged.Success? && UpdateCheck(merged.value, now).None? && svc.repo.writeFault.Some? ==>
              r == Failure(Db(svc.repo.writeFault.value)) && svc.repo.records == old(svc.repo.records))
        && (merged.Success? && UpdateCheck(merged.value, now).None? && svc.repo.writeFault.None? ==>
              && svc.repo.records == old(svc.repo.records)[id := Stamped(merged.value, now)]
              && r == Success(Normalised(Stamped(merged.value, now), now)))
      ensures r.Success? ==> (r.value.completedAt.Some? <==> r.value.status == Done)
    {
      var found := svc.GetMilestoneByID(id);
      if found.Failure? {
        return Failure(found.error);
      }
      var merged := ApplyRequest(found.value, req);
      if merged.Failure? {
        return Failure(merged.error);
      }
      var milestone := merged.value;

      var outcome;
      outcome, milestone := svc.UpdateMilestone(milestone, now);
      if outcome.Fail? {
        return Failure(outcome.error);
      }

      if milestone.status == Done && milestone.completedAt.None? {
        milestone := milestone.(completedAt := Some(now));
      }
      if milestone.status != Done {
        milestone := milestone.(completedAt := None);
      }
      r := Success(milestone);
    }
  }
}
