/**
  * internal/service/log_service.go: work-log entries, checked field by field
  * before they reach the log store, and updatable only by their owner.
  *
  * The log store follows the `(nil, nil)` convention: looking up a missing
  * identifier succeeds with no record.
  */
module Logs {
  import opened Wrappers
  import opened Errors
  import opened Domain
  import opened Folds
  import opened Storage
  import opened Analytics

  /** The checks `CreateLog` makes, in order; the first that fails decides the error. */
  function CreateCheck(projectID: Id, userID: Id, text: string, durationMinutes: int): (e: Option<Error>)
    ensures e.None? <==> projectID != Nil && userID != Nil && text != "" && durationMinutes > 0
    ensures e.Some? ==> e.value.App? && e.value.kind == BadRequest
    ensures projectID == Nil ==> e == Some(ErrBadRequest("project ID is required"))
    ensures projectID != Nil && userID == Nil ==> e == Some(ErrBadRequest("user ID is required"))
    ensures projectID != Nil && userID != Nil && text == "" ==> e == Some(ErrBadRequest("log text is required"))
    ensures projectID != Nil && userID != Nil && text != "" && durationMinutes <= 0 ==>
      e == Some(ErrBadRequest("duration must be greater than zero"))
  {
    if projectID == Nil then Some(ErrBadRequest("project ID is required"))
    else if userID == Nil then Some(ErrBadRequest("user ID is required"))
    else if text == "" then Some(ErrBadRequest("log text is required"))
    else if durationMinutes <= 0 then Some(ErrBadRequest("duration must be greater than zero"))
    else None
  }

  /** The field checks `UpdateLog` makes once ownership is settled. */
  function UpdateCheck(log: Log): (e: Option<Error>)
    ensures e.None? <==> log.id != Nil && log.text != "" && log.durationMinutes > 0
    ensures e.Some? ==> e.value.App? && e.value.kind == BadRequest
    ensures log.id == Nil ==> e == Some(ErrBadRequest("log ID is required"))
    ensures log.id != Nil && log.text == "" ==> e == Some(ErrBadRequest("log text is required"))
    ensures log.id != Nil && log.text != "" && log.durationMinutes <= 0 ==>
      e == Some(ErrBadRequest("duration must be greater than zero"))
  {
    if log.id == Nil then Some(ErrBadRequest("log ID is required"))
    else if log.text == "" then Some(ErrBadRequest("log text is required"))
    else if log.durationMinutes <= 0 then Some(ErrBadRequest("duration must be greater than zero"))
    else None
  }

  predicate PositiveDuration(l: Log)
  {
    l.durationMinutes > 0
  }

  function LogOfUser(userID: Id): Log -> bool
  {
    (l: Log) => l.userID == userID
  }

  /** Whatever a query lists was in the store. */
  lemma ListedAreStored<R(!new)>(rs: seq<R>, m: map<Id, R>, keep: R -> bool, i: int)
    requires Lists(rs, m, keep) && 0 <= i < |rs|
    ensures exists k :: k in m && m[k] == rs[i] && keep(rs[i])
  {
    var x := rs[i];
    assert x in multiset(rs);
    assert |Holders(m, m.Keys, x, keep)| > 0;
    var k :| k in Holders(m, m.Keys, x, keep);
  }

  /** Logs whose durations are all positive total at least one minute each. */
  lemma {:induction false} TotalMinutesAtLeastCount(logs: seq<Log>)
    requires forall i :: 0 <= i < |logs| ==> PositiveDuration(logs[i])
    ensures TotalMinutes(logs) >= |logs|
  {
    if logs != [] {
      TotalMinutesAtLeastCount(logs[..|logs| - 1]);
    }
  }

  class LogService {
    const repo: Table<Log>

    /** Every log sits under its own identifier and has a positive duration. */
    ghost predicate Valid()
      reads repo
    {
      && repo.Valid()
      && forall k :: k in repo.records ==> repo.records[k].id == k && PositiveDuration(repo.records[k])
    }

    constructor (repo: Table<Log>)
      ensures this.repo == repo
      ensures repo.Valid() && repo.records == map[] ==> Valid()
    {
      this.repo := repo;
    }

    /** Any listing of a valid store totals at least one minute per log. */
    lemma ListingTotalsAtLeastCount(logs: seq<Log>, keep: Log -> bool)
      requires Valid() && Lists(logs, repo.records, keep)
      ensures TotalMinutes(logs) >= |logs|
    {
      forall i | 0 <= i < |logs|
        ensures PositiveDuration(logs[i])
      {
        ListedAreStored(logs, repo.records, keep, i);
      }
      TotalMinutesAtLeastCount(logs);
    }

    /** The new log takes the identifier the store hands out next. */
    method CreateLog(projectID: Id, userID: Id, text: string, durationMinutes: int, loggedAt: Time, now: Time)
      returns (r: Outcome)
      requires Valid()
      modifies repo`records, repo`nextId
      ensures Valid()
      ensures CreateCheck(projectID, userID, text, durationMinutes).Some? ==>
        r == Fail(CreateCheck(projectID, userID, text, durationMinutes).value) && unchanged(repo)
      ensures CreateCheck(projectID, userID, text, durationMinutes).None? && repo.writeFault.Some? ==>
        r == Fail(Db(repo.writeFault.value)) && repo.records == old(repo.records)
      ensures CreateCheck(projectID, userID, text, durationMinutes).None? && repo.writeFault.None? ==>
        && r == Pass
        && old(repo.nextId) != Nil && old(repo.nextId) !in old(repo.records)
        && repo.records == old(repo.records)[old(repo.nextId) :=
             Log(old(repo.nextId), projectID, userID, text, durationMinutes, loggedAt, now)]
    {
      if projectID == Nil {
        return Fail(ErrBadRequest("project ID is required"));
      }
      if userID == Nil {
        return Fail(ErrBadRequest("user ID is required"));
      }
      if text == "" {
        return Fail(ErrBadRequest("log text is required"));
      }
      if durationMinutes <= 0 {
        return Fail(ErrBadRequest("duration must be greater than zero"));
      }
      var id := repo.NewId();
      var log := Log(id, projectID, userID, text, durationMinutes, loggedAt, now);
      var err := repo.Create(id, log);
      if err.Some? {
        return Fail(err.value);
      }
      r := Pass;
    }

    method GetLogByID(id: Id) returns (r: Result<Option<Log>>)
      ensures id == Nil ==> r == Failure(ErrBadRequest("log ID is required"))
      ensures id != Nil && repo.readFault.Some? ==> r == Failure(Db(repo.readFault.value))
      ensures id != Nil && repo.readFault.None? && id in repo.records ==> r == Success(Some(repo.records[id]))
      ensures id != Nil && repo.readFault.None? && id !in repo.records ==> r == Success(None)
    {
      if id == Nil {
        return Failure(ErrBadRequest("log ID is required"));
      }
      r := repo.Lookup(id);
    }

    method GetLogsByUser(userID: Id) returns (r: Result<seq<Log>>)
      ensures userID == Nil ==> r == Failure(ErrBadRequest("user ID is required"))
      ensures userID != Nil && repo.readFault.Some? ==> r == Failure(Db(repo.readFault.value))
      ensures userID != Nil && repo.readFault.None? ==> r.Success? && Lists(r.value, repo.records, LogOfUser(userID))
    {
      if userID == Nil {
        return Failure(ErrBadRequest("user ID is required"));
      }
      r := repo.Where(LogOfUser(userID));
    }

    method GetLogsByProject(projectID: Id) returns (r: Result<seq<Log>>)
      ensures projectID == Nil ==> r == Failure(ErrBadRequest("project ID is required"))
      ensures projectID != Nil && repo.readFault.Some? ==> r == Failure(Db(repo.readFault.value))
      ensures projectID != Nil && repo.readFault.None? ==>
        r.Success? && Lists(r.value, repo.records, LogInProject(projectID))
    {
      if projectID == Nil {
        return Failure(ErrBadRequest("project ID is required"));
      }
      r := repo.Where(LogInProject(projectID));
    }

    /**
      * Saves `log` as given when `userID` owns the stored original. The
      * ownership test runs before the field checks. The store must hold
      * the log: a missing one makes the source dereference a nil record.
      */
    method UpdateLog(userID: Id, log: Log) returns (r: Outcome)
      requires Valid()
      requires repo.readFault.None? ==> log.id in repo.records
      modifies repo`records, repo`nextId
      ensures Valid()
      ensures repo.readFault.Some? ==> r == Fail(Db(repo.readFault.value)) && unchanged(repo)
      ensures repo.readFault.None? && old(repo.records[log.id]).userID != userID ==>
        r == Fail(ErrUnauthorized("you do not have permission to update this log")) && unchanged(repo)
      ensures repo.readFault.None? && old(repo.records[log.id]).userID == userID ==>
        && (UpdateCheck(log).Some? ==> r == Fail(UpdateCheck(log).value) && unchanged(repo))
        && (UpdateCheck(log).None? && repo.writeFault.Some? ==>
              r == Fail(Db(repo.writeFault.value)) && repo.records == old(repo.records))
        && (UpdateCheck(log).None? && repo.writeFault.None? ==>
              r == Pass && repo.records == old(repo.records)[log.id := log])
      ensures r == Pass ==> old(repo.records[log.id]).userID == userID && PositiveDuration(log)
    {
      var found := repo.Lookup(log.id);
      if found.Failure? {
        return Fail(found.error);
      }
      var orig := found.value.value;
      if orig.userID != userID {
        return Fail(ErrUnauthorized("you do not have permission to update this log"));
      }
      if log.id == Nil {
        return Fail(ErrBadRequest("log ID is required"));
      }
      if log.text == "" {
        return Fail(ErrBadRequest("log text is required"));
      }
      if log.durationMinutes <= 0 {
        return Fail(ErrBadRequest("duration must be greater than zero"));
      }
      var err := repo.Save(log.id, log);
      if err.Some? {
        return Fail(err.value);
      }
      r := Pass;
    }

    /** No ownership test: anyone may delete any log. */
    method DeleteLog(id: Id) returns (r: Outcome)
      requires Valid()
      modifies repo`records
      ensures Valid()
      ensures id == Nil ==> r == Fail(ErrBadRequest("log ID is required")) && unchanged(repo)
      ensures id != Nil && repo.writeFault.Some? ==> r == Fail(Db(repo.writeFault.value)) && unchanged(repo)
      ensures id != Nil && repo.writeFault.None? ==> r == Pass && repo.records == old(repo.records) - {id}
    {
      if id == Nil {
        return Fail(ErrBadRequest("log ID is required"));
      }
      var err := repo.Delete(id);
      if err.Some? {
        return Fail(err.value);
      }
      r := Pass;
    }
  }
}
