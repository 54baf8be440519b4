/**
  * internal/service/project_service.go: projects, named and optionally given
  * a deadline that is not in the past, changed or removed only by their
  * owner.
  *
  * The project store follows the `(nil, nil)` convention: looking up a
  * missing identifier succeeds with no record.
  */
module Projects {
  import opened Wrappers
  import opened Errors
  import opened Domain
  import opened Storage

  /** The checks `UpdateProject` makes before it reads the store, in order. */
  function UpdateCheck(p: Project, now: Time): (e: Option<Error>)
    ensures e.None? <==> p.id != Nil && p.name != "" && !InPast(p.deadline, now)
    ensures e.Some? ==> e.value.App? && e.value.kind == BadRequest
    ensures p.id == Nil ==> e == Some(ErrBadRequest("project ID is required"))
    ensures p.id != Nil && p.name == "" ==> e == Some(ErrBadRequest("name is required"))
    ensures p.id != Nil && p.name != "" && InPast(p.deadline, now) ==>
      e == Some(ErrBadRequest("deadline cannot be in the past"))
  {
    if p.id == Nil then Some(ErrBadRequest("project ID is required"))
    else if p.name == "" then Some(ErrBadRequest("name is required"))
    else if InPast(p.deadline, now) then Some(ErrBadRequest("deadline cannot be in the past"))
    else None
  }

  function ProjectOfUser(userID: Id): Project -> bool
  {
    (p: Project) => p.userID == userID
  }

  class ProjectService {
    const repo: Table<Project>

    /** Every project sits under its own identifier and has a name. */
    ghost predicate Valid()
      reads repo
    {
      && repo.Valid()
      && forall k :: k in repo.records ==> repo.records[k].id == k && repo.records[k].name != ""
    }

    constructor (repo: Table<Project>)
      ensures this.repo == repo
      ensures repo.Valid() && repo.records == map[] ==> Valid()
    {
      this.repo := repo;
    }

    /** A deadline equal to `now` is accepted; only one strictly earlier is refused. */
    method CreateProject(userID: Id, name: string, deadline: Option<Time>, now: Time) returns (r: Result<Project>)
      requires Valid()
      modifies repo`records, repo`nextId
      ensures Valid()
      ensures name == "" ==> r == Failure(ErrBadRequest("name required")) && unchanged(repo)
      ensures name != "" && InPast(deadline, now) ==>
        r == Failure(ErrBadRequest("deadline cannot be in the past")) && unchanged(repo)
      ensures name != "" && !InPast(deadline, now) && repo.writeFault.Some? ==>
        && r == Failure(CreateFailure(Db(repo.writeFault.value), "project with this name already exists"))
        && repo.records == old(repo.records)
      ensures name != "" && !InPast(deadline, now) && repo.writeFault.None? ==>
        && r.Success?
        && r.value.id != Nil && r.value.id !in old(repo.records)
        && repo.records == old(repo.records)[r.value.id := r.value]
        && r.value == Project(r.value.id, userID, name, deadline, ZeroTime)
    {
      if name == "" {
        return Failure(ErrBadRequest("name required"));
      }
      if deadline.Some? && deadline.value < now {
        return Failure(ErrBadRequest("deadline cannot be in the past"));
      }
      var id := repo.NewId();
      var project := Project(id, userID, name, deadline, ZeroTime);
      var err := repo.Create(id, project);
      if err.Some? {
        if IsUniqueViolation(err.value) {
          return Failure(ErrConflict("project with this name already exists"));
        }
        return Failure(err.value);
      }
      r := Success(project);
    }

    method GetProjectByID(id: Id) returns (r: Result<Option<Project>>)
      ensures repo.readFault.Some? ==> r == Failure(Db(repo.readFault.value))
      ensures repo.readFault.None? && id in repo.records ==> r == Success(Some(repo.records[id]))
      ensures repo.readFault.None? && id !in repo.records ==> r == Success(None)
    {
      r := repo.Lookup(id);
    }

    method ListProjectByUser(userID: Id) returns (r: Result<seq<Project>>)
      ensures repo.readFault.Some? ==> r == Failure(Db(repo.readFault.value))
      ensures repo.readFault.None? ==> r.Success? && Lists(r.value, repo.records, ProjectOfUser(userID))
    {
      r := repo.Where(ProjectOfUser(userID));
    }

    /**
      * Saves `p`, owned by `userID` and stamped `now`, when `userID` owns
      * the stored original; `updated` is the caller's record after the call.
      * A failed read is reported as a missing project. Once the checks pass
      * the store must hold the project: a missing one makes the source
      * dereference a nil record.
      */
    method UpdateProject(userID: Id, p: Project, now: Time) returns (r: Outcome, updated: Project)
      requires Valid()
      requires UpdateCheck(p, now).None? && repo.readFault.None? ==> p.id in repo.records
      modifies repo`records, repo`nextId
      ensures Valid()
      ensures UpdateCheck(p, now).Some? ==> r == Fail(UpdateCheck(p, now).value) && updated == p && unchanged(repo)
      ensures UpdateCheck(p, now).None? && repo.readFault.Some? ==>
        r == Fail(ErrNotFound("project not found")) && updated == p && unchanged(repo)
      ensures UpdateCheck(p, now).None? && repo.readFault.None? && old(repo.records[p.id]).userID != userID ==>
        && r == Fail(ErrUnauthorized("you do not have permission to update this project"))
        && updated == p && unchanged(repo)
      ensures UpdateCheck(p, now).None? && repo.readFault.None? && old(repo.records[p.id]).userID == userID ==>
        && updated == p.(userID := userID, updatedAt := now)
        && (repo.writeFault.Some? ==> r == Fail(Db(repo.writeFault.value)) && repo.records == old(repo.records))
        && (repo.writeFault.None? ==> r == Pass && repo.records == old(repo.records)[p.id := updated])
      ensures r == Pass ==> p.id in old(repo.records) && repo.records[p.id].userID == old(repo.records[p.id]).userID
    {
      updated := p;
      if p.id == Nil {
        return Fail(ErrBadRequest("project ID is required")), updated;
      }
      if p.name == "" {
        return Fail(ErrBadRequest("name is required")), updated;
      }
      if p.deadline.Some? && p.deadline.value < now {
        return Fail(ErrBadRequest("deadline cannot be in the past")), updated;
      }
      var found := repo.Lookup(p.id);
      if found.Failure? {
        return Fail(ErrNotFound("project not found")), updated;
      }
      var existing := found.value.value;
      if existing.userID != userID {
        return Fail(ErrUnauthorized("you do not have permission to update this project")), updated;
      }
      updated := updated.(userID := userID, updatedAt := now);
      var err := repo.Save(p.id, updated);
      if err.Some? {
        return Fail(err.value), updated;
      }
      r := Pass;
    }

    /**
      * Removes the project when `userID` owns it. A failed read is reported
      * as a missing project; a project that is simply absent makes the
      * source dereference a nil record, so it must be present.
      */
    method DeleteProject(userID: Id, id: Id) returns (r: Outcome)
      requires Valid()
      requires repo.readFault.None? ==> id in repo.records
      modifies repo`records
      ensures Valid()
      ensures repo.readFault.Some? ==> r == Fail(ErrNotFound("project not found")) && unchanged(repo)
      ensures repo.readFault.None? && old(repo.records[id]).userID != userID ==>
        r == Fail(ErrUnauthorized("you do not have permission to delete this project")) && unchanged(repo)
      ensures repo.readFault.None? && old(repo.records[id]).userID == userID ==>
        && (repo.writeFault.Some? ==> r == Fail(Db(repo.writeFault.value)) && unchanged(repo))
        && (repo.writeFault.None? ==> r == Pass && repo.records == old(repo.records) - {id})
    {
      var found := repo.Lookup(id);
      if found.Failure? {
        return Fail(ErrNotFound("project not found"));
      }
      var project := found.value.value;
      if project.userID != userID {
        return Fail(ErrUnauthorized("you do not have permission to delete this project"));
      }
      var err := repo.Delete(id);
      if err.Some? {
        return Fail(err.value);
      }
      r := Pass;
    }
  }
}
