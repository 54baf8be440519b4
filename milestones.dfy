/**
  * internal/service/milestone_service.go: creating, reading, updating and
  * deleting milestones, with the rule tying `CompletedAt` to the "done"
  * status.
  *
  * The milestone store follows GORM's `First` convention: looking up a
  * missing identifier is the error `RecordNotFound`.
  */
module Milestones {
  import opened Wrappers
  import opened Errors
  import opened Domain
  import opened Storage

  /** A done milestone carries the instant it was completed. */
  predicate CompletionRecorded(m: Milestone)
  {
    m.status == Done ==> m.completedAt.Some?
  }

  /**
    * The record `UpdateMilestone` saves: a done milestone without a
    * completion instant gets `now`; any other instant, present or absent,
    * is left as it is, even on a milestone that is no longer done.
    */
  function Stamped(m: Milestone, now: Time): (s: Milestone)
    ensures CompletionRecorded(s)
    ensures s.(completedAt := m.completedAt) == m
    ensures m.completedAt.Some? ==> s.completedAt == m.completedAt
    ensures m.completedAt.None? ==> (s.completedAt.Some? <==> m.status == Done)
    ensures s.completedAt != m.completedAt ==> s.completedAt == Some(now)
  {
    if m.status == Done && m.completedAt.None? then m.(completedAt := Some(now)) else m
  }

  /** Stamping twice is stamping once, whatever the second clock reads. */
  lemma StampedIsIdempotent(m: Milestone, now: Time, later: Time)
    ensures Stamped(Stamped(m, now), later) == Stamped(m, now)
  {
  }

  /** The checks `UpdateMilestone` makes before saving, in order. */
  function UpdateCheck(m: Milestone, now: Time): (e: Option<Error>)
    ensures e.None? <==> m.name != "" && !InPast(m.dueDate, now)
    ensures m.name == "" ==> e == Some(ErrBadRequest("name required"))
    ensures m.name != "" && InPast(m.dueDate, now) ==> e == Some(ErrBadRequest("due date cannot be in the past"))
  {
    if m.name == "" then Some(ErrBadRequest("name required"))
    else if InPast(m.dueDate, now) then Some(ErrBadRequest("due date cannot be in the past"))
    else None
  }

  function MilestoneOfProject(projectID: Id): Milestone -> bool
  {
    (m: Milestone) => m.projectID == projectID
  }

  class MilestoneService {
    const repo: Table<Milestone>

    /**
      * Every milestone sits under its own identifier, and every done
      * milestone has a completion instant: creation sets it together with
      * the status, and an update only ever adds it.
      */
    ghost predicate Valid()
      reads repo
    {
      && repo.Valid()
      && forall k :: k in repo.records ==> repo.records[k].id == k && CompletionRecorded(repo.records[k])
    }

    constructor (repo: Table<Milestone>)
      ensures this.repo == repo
      ensures repo.Valid() && repo.records == map[] ==> Valid()
    {
      this.repo := repo;
    }

    method CreateMilestone(projectID: Id, name: string, orderIdx: int, status: string,
                           dueDate: Option<Time>, now: Time)
      returns (r: Result<Milestone>)
      requires Valid()
      modifies repo`records, repo`nextId
      ensures Valid()
      ensures name == "" ==> r == Failure(ErrBadRequest("name required")) && unchanged(repo)
      ensures name != "" && InPast(dueDate, now) ==>
        r == Failure(ErrBadRequest("due date cannot be in the past")) && unchanged(repo)
      ensures name != "" && !InPast(dueDate, now) && repo.writeFault.Some? ==>
        && r == Failure(CreateFailure(Db(repo.writeFault.value), "milestone with this name already exists"))
        && repo.records == old(repo.records)
      ensures name != "" && !InPast(dueDate, now) && repo.writeFault.None? ==>
        && r.Success?
        && r.value.id != Nil && r.value.id !in old(repo.records)
        && repo.records == old(repo.records)[r.value.id := r.value]
        && r.value == Milestone(r.value.id, projectID, name, orderIdx, status, dueDate, r.value.completedAt, now)
        && (r.value.completedAt.Some? <==> status == Done)
        && (r.value.completedAt.Some? ==> r.value.completedAt.value == now)
    {
      if name == "" {
        return Failure(ErrBadRequest("name required"));
      }
      if dueDate.Some? && dueDate.value < now {
        return Failure(ErrBadRequest("due date cannot be in the past"));
      }
      var completedAt: Option<Time> := None;
      if status == Done {
        completedAt := Some(now);
      }
      var id := repo.NewId();
      var milestone := Milestone(id, projectID, name, orderIdx, status, dueDate, completedAt, now);
      var err := repo.Create(id, milestone);
      if err.Some? {
        if IsUniqueViolation(err.value) {
          return Failure(ErrConflict("milestone with this name already exists"));
        }
        return Failure(err.value);
      }
      r := Success(milestone);
    }

    /** The requesting user is passed in but not checked. */
    method GetMilestonesByProject(userID: Id, projectID: Id) returns (r: Result<seq<Milestone>>)
      ensures repo.readFault.Some? ==> r == Failure(Db(repo.readFault.value))
      ensures repo.readFault.None? ==> r.Success? && Lists(r.value, repo.records, MilestoneOfProject(projectID))
    {
      r := repo.Where(MilestoneOfProject(projectID));
    }

    method GetMilestoneByID(id: Id) returns (r: Result<Milestone>)
      ensures repo.readFault.Some? ==> r == Failure(Db(repo.readFault.value))
      ensures repo.readFault.None? && id !in repo.records ==> r == Failure(Db(RecordNotFound))
      ensures repo.readFault.None? && id in repo.records ==> r == Success(repo.records[id])
    {
      var found := repo.Lookup(id);
      r := Required(found);
    }

    /**
      * Checks `m`, stamps its completion instant and saves it. `updated` is
      * the caller's record after the call, which Go changes in place. GORM's
      * `Save` of a milestone whose identifier is `Nil` inserts it instead,
      * under a key the database generates and writes back into the record
      * once the insert succeeds.
      */
    method UpdateMilestone(m: Milestone, now: Time) returns (r: Outcome, updated: Milestone)
      requires Valid()
      modifies repo`records, repo`nextId
      ensures Valid()
      ensures UpdateCheck(m, now).Some? ==>
        r == Fail(UpdateCheck(m, now).value) && updated == m && unchanged(repo)
      ensures UpdateCheck(m, now).None? ==> updated.(id := m.id) == Stamped(m, now)
      ensures UpdateCheck(m, now).None? && m.id != Nil ==> updated == Stamped(m, now)
      ensures UpdateCheck(m, now).None? && repo.writeFault.Some? ==>
        && r == Fail(Db(repo.writeFault.value)) && updated == Stamped(m, now)
        && repo.records == old(repo.records)
      ensures UpdateCheck(m, now).None? && repo.writeFault.None? ==>
        && r == Pass && updated.id != Nil
        && repo.records == old(repo.records)[updated.id := updated]
      ensures UpdateCheck(m, now).None? && repo.writeFault.None? && m.id == Nil ==>
        updated.id !in old(repo.records)
    {
      updated := m;
      if m.name == "" {
        return Fail(ErrBadRequest("name required")), updated;
      }
      if m.dueDate.Some? && m.dueDate.value < now {
        return Fail(ErrBadRequest("due date cannot be in the past")), updated;
      }
      if m.status == Done && m.completedAt.None? {
        updated := updated.(completedAt := Some(now));
      }
      var err;
      if m.id == Nil {
        var id := repo.NewId();
        err := repo.Create(id, updated.(id := id));
        if err.None? {
          updated := updated.(id := id);
        }
      } else {
        err := repo.Save(m.id, updated);
      }
      if err.Some? {
        return Fail(err.value), updated;
      }
      r := Pass;
    }

    /** Any failure of the store is reported as a missing milestone. */
    method DeleteMilestone(id: Id) returns (r: Outcome)
      requires Valid()
      modifies repo`records, repo`nextId
      ensures Valid()
      ensures repo.writeFault.Some? ==> r == Fail(ErrNotFound("milestone not found")) && unchanged(repo)
      ensures repo.writeFault.None? ==> r == Pass && repo.records == old(repo.records) - {id}
    {
      var err := repo.Delete(id);
      if err.Some? {
        return Fail(ErrNotFound("milestone not found"));
      }
      r := Pass;
    }
  }
}
