/**
  * internal/service/report_service.go: the PDF reports of a project, each a
  * stored link that must not be empty.
  *
  * The report store follows the `(nil, nil)` convention: looking up a
  * missing identifier succeeds with no record.
  */
module Reports {
  import opened Wrappers
  import opened Errors
  import opened Domain
  import opened Storage

  /** The checks `UpdateReport` makes, in order. */
  function UpdateCheck(report: Report): (e: Option<Error>)
    ensures e.None? <==> report.id != Nil && report.urlPdf != ""
    ensures report.id == Nil ==> e == Some(ErrBadRequest("report ID is required"))
    ensures report.id != Nil && report.urlPdf == "" ==> e == Some(ErrBadRequest("urlPDF is required"))
  {
    if report.id == Nil then Some(ErrBadRequest("report ID is required"))
    else if report.urlPdf == "" then Some(ErrBadRequest("urlPDF is required"))
    else None
  }

  function ReportOfProject(projectID: Id): Report -> bool
  {
    (r: Report) => r.projectID == projectID
  }

  class ReportService {
    const repo: Table<Report>

    /** Every report sits under its own identifier and has a link. */
    ghost predicate Valid()
      reads repo
    {
      && repo.Valid()
      && forall k :: k in repo.records ==> repo.records[k].id == k && repo.records[k].urlPdf != ""
    }

    constructor (repo: Table<Report>)
      ensures this.repo == repo
      ensures repo.Valid() && repo.records == map[] ==> Valid()
    {
      this.repo := repo;
    }

    /** The requesting user is not checked and not recorded; the project is not checked either. */
    method CreateReport(projectID: Id, userID: Id, urlPdf: string, now: Time) returns (r: Result<Report>)
      requires Valid()
      modifies repo`records, repo`nextId
      ensures Valid()
      ensures urlPdf == "" ==> r == Failure(ErrBadRequest("urlPDF is required")) && unchanged(repo)
      ensures urlPdf != "" && repo.writeFault.Some? ==>
        r == Failure(Db(repo.writeFault.value)) && repo.records == old(repo.records)
      ensures urlPdf != "" && repo.writeFault.None? ==>
        && r.Success?
        && r.value.id != Nil && r.value.id !in old(repo.records)
        && repo.records == old(repo.records)[r.value.id := r.value]
        && r.value == Report(r.value.id, projectID, urlPdf, now)
    {
      if urlPdf == "" {
        return Failure(ErrBadRequest("urlPDF is required"));
      }
      var id := repo.NewId();
      var report := Report(id, projectID, urlPdf, now);
      var err := repo.Create(id, report);
      if err.Some? {
        return Failure(err.value);
      }
      r := Success(report);
    }

    /**
      * Creating a report and then asking for it by the identifier it was
      * given finds it again, with the project and link it was created with.
      * A failed creation is answered as it is.
      */
    method CreatedReportIsFound(projectID: Id, userID: Id, urlPdf: string, now: Time)
      returns (created: Result<Report>, found: Result<Option<Report>>)
      requires Valid()
      modifies repo`records, repo`nextId
      ensures Valid()
      ensures created.Success? <==> urlPdf != "" && repo.writeFault.None?
      ensures created.Success? && repo.readFault.None? ==>
        && found == Success(Some(created.value))
        && created.value.projectID == projectID && created.value.urlPdf == urlPdf
      ensures created.Success? && repo.readFault.Some? ==> found == Failure(Db(repo.readFault.value))
      ensures created.Failure? ==> found == Failure(created.error)
    {
      created := CreateReport(projectID, userID, urlPdf, now);
      if created.Failure? {
        return created, Failure(created.error);
      }
      found := GetReportByID(created.value.id);
    }

    method GetReportByID(id: Id) returns (r: Result<Option<Report>>)
      ensures id == Nil ==> r == Failure(ErrBadRequest("report ID is required"))
      ensures id != Nil && repo.readFault.Some? ==> r == Failure(Db(repo.readFault.value))
      ensures id != Nil && repo.readFault.None? && id in repo.records ==> r == Success(Some(repo.records[id]))
      ensures id != Nil && repo.readFault.None? && id !in repo.records ==> r == Success(None)
    {
      if id == Nil {
        return Failure(ErrBadRequest("report ID is required"));
      }
      r := repo.Lookup(id);
    }

    method GetReportsByProject(projectID: Id) returns (r: Result<seq<Report>>)
      ensures projectID == Nil ==> r == Failure(ErrBadRequest("project ID is required"))
      ensures projectID != Nil && repo.readFault.Some? ==> r == Failure(Db(repo.readFault.value))
      ensures projectID != Nil && repo.readFault.None? ==>
        r.Success? && Lists(r.value, repo.records, ReportOfProject(projectID))
    {
      if projectID == Nil {
        return Failure(ErrBadRequest("project ID is required"));
      }
      r := repo.Where(ReportOfProject(projectID));
    }

    /** Saves `report` exactly as passed, with nothing taken from the stored one. */
    method UpdateReport(report: Report) returns (r: Result<Report>)
      requires Valid()
      modifies repo`records, repo`nextId
      ensures Valid()
      ensures UpdateCheck(report).Some? ==> r == Failure(UpdateCheck(report).value) && unchanged(repo)
      ensures UpdateCheck(report).None? && repo.writeFault.Some? ==>
        r == Failure(Db(repo.writeFault.value)) && repo.records == old(repo.records)
      ensures UpdateCheck(report).None? && repo.writeFault.None? ==>
        r == Success(report) && repo.records == old(repo.records)[report.id := report]
    {
      if report.id == Nil {
        return Failure(ErrBadRequest("report ID is required"));
      }
      if report.urlPdf == "" {
        return Failure(ErrBadRequest("urlPDF is required"));
      }
      var err := repo.Save(report.id, report);
      if err.Some? {
        return Failure(err.value);
      }
      r := Success(report);
    }

    method DeleteReport(id: Id) returns (r: Outcome)
      requires Valid()
      modifies repo`records
      ensures Valid()
      ensures id == Nil ==> r == Fail(ErrBadRequest("report ID is required")) && unchanged(repo)
      ensures id != Nil && repo.writeFault.Some? ==> r == Fail(Db(repo.writeFault.value)) && unchanged(repo)
      ensures id != Nil && repo.writeFault.None? ==> r == Pass && repo.records == old(repo.records) - {id}
    {
      if id == Nil {
        return Fail(ErrBadRequest("report ID is required"));
      }
      var err := repo.Delete(id);
      if err.Some? {
        return Fail(err.value);
      }
      r := Pass;
    }
  }
}
