/**
  * internal/service/ai_insight_service.go: turning a trajectory label into
  * an insight, and the guarded create / read / update / delete paths over
  * the insight store.
  *
  * The insight store follows GORM's `First` convention: looking up a missing
  * identifier is the error `RecordNotFound`, not an absent result.
  */
module Insights {
  import opened Wrappers
  import opened Errors
  import opened Domain
  import opened Storage
  import opened Analytics

  /** The status tag a trajectory label is reported with. */
  function StatusFor(verdict: string): (tag: string)
    ensures tag == UnknownTag <==> verdict !in {OnTrack, AtRisk, Delayed}
    ensures tag != UnknownTag ==> LabelFor(tag) == verdict
  {
    if verdict == OnTrack then OnTrackTag
    else if verdict == AtRisk then AtRiskTag
    else if verdict == Delayed then DelayedTag
    else UnknownTag
  }

  /** The trajectory label a status tag stands for ("" for UNKNOWN or anything else). */
  function LabelFor(tag: string): string
  {
    if tag == OnTrackTag then OnTrack
    else if tag == AtRiskTag then AtRisk
    else if tag == DelayedTag then Delayed
    else ""
  }

  /** The message template chosen for the snapshot, with the numbers it shows. */
  function ContentFor(m: ProgressMetrics): (c: Content)
    ensures c == InsufficientData <==> StatusFor(m.predictedCompletion) == UnknownTag
    ensures c.OnTrackNote? <==> m.predictedCompletion == OnTrack
    ensures c.AtRiskNote? <==> m.predictedCompletion == AtRisk
    ensures c.DelayedNote? <==> m.predictedCompletion == Delayed
    ensures c.OnTrackNote? ==>
      c.percent == m.progressPercent && c.completed == m.milestonesCompleted &&
      c.total == m.milestonesTotal && c.hours == m.totalHours
    ensures c.AtRiskNote? || c.DelayedNote? ==>
      c.percent == m.progressPercent && c.daysLeft == m.daysRemaining
  {
    if m.predictedCompletion == OnTrack then
      OnTrackNote(m.progressPercent, m.milestonesCompleted, m.milestonesTotal, m.totalHours)
    else if m.predictedCompletion == AtRisk then
      AtRiskNote(m.progressPercent, m.daysRemaining)
    else if m.predictedCompletion == Delayed then
      DelayedNote(m.progressPercent, m.daysRemaining)
    else
      InsufficientData
  }

  /** Under the trajectory rule, a generated insight is only ever ON_TRACK or AT_RISK. */
  lemma GeneratedStatusIsOnTrackOrAtRisk(project: Project, logs: seq<Log>, milestones: seq<Milestone>, now: Time)
    ensures StatusFor(Metrics(project, logs, milestones, now).predictedCompletion) in {OnTrackTag, AtRiskTag}
    ensures !ContentFor(Metrics(project, logs, milestones, now)).DelayedNote?
  {
  }

  function InsightInProject(projectID: Id): AIInsight -> bool
  {
    (i: AIInsight) => i.projectID == projectID
  }

  /** The `project_id = ? AND type = ? AND DATE(generated_at) = ?` filter. */
  function SameDayInsight(projectID: Id, insightType: string, date: Time): AIInsight -> bool
  {
    (i: AIInsight) => i.projectID == projectID && i.insightType == insightType && Day(i.generatedAt) == Day(date)
  }

  class AIInsightService {
    const repo: Table<AIInsight>
    const analytics: AnalyticsService

    /** Every stored insight sits under its own identifier. */
    ghost predicate Valid()
      reads repo
    {
      repo.Valid() && forall k :: k in repo.records ==> repo.records[k].id == k
    }

    constructor (repo: Table<AIInsight>, analytics: AnalyticsService)
      ensures this.repo == repo && this.analytics == analytics
      ensures repo.Valid() && repo.records == map[] ==> Valid()
    {
      this.repo := repo;
      this.analytics := analytics;
    }

    /**
      * Computes the project's metrics and stores one new progress insight
      * built from them. Nothing is looked up first: two calls store two rows.
      * `GeneratedAt` is not set and keeps the zero time.
      */
    method GenerateProgressInsight(projectID: Id, now: Time)
      returns (r: Result<AIInsight>, ghost metrics: Result<ProgressMetrics>)
      requires Valid()
      modifies repo`records, repo`nextId
      ensures Valid()
      ensures analytics.Computed(projectID, now, metrics)
      ensures metrics.Failure? ==> r == Failure(metrics.error) && unchanged(repo)
      ensures metrics.Success? && repo.writeFault.Some? ==>
        r == Failure(Db(repo.writeFault.value)) && repo.records == old(repo.records)
      ensures metrics.Success? && repo.writeFault.None? ==>
        && r.Success?
        && r.value.id != Nil && r.value.id !in old(repo.records)
        && repo.records == old(repo.records)[r.value.id := r.value]
        && r.value.projectID == projectID
        && r.value.insightType == ProgressInsight
        && r.value.status == StatusFor(metrics.value.predictedCompletion)
        && r.value.status in {OnTrackTag, AtRiskTag}
        && r.value.content == ContentFor(metrics.value)
        && r.value.generatedAt == ZeroTime
    {
      var computed;
      computed := analytics.CalculateProgress(projectID, now);
      metrics := computed;
      if computed.Failure? {
        return Failure(computed.error), metrics;
      }
      var m := computed.value;

      var content: Content;
      var status: string;
      if m.predictedCompletion == OnTrack {
        content := OnTrackNote(m.progressPercent, m.milestonesCompleted, m.milestonesTotal, m.totalHours);
        status := OnTrackTag;
      } else if m.predictedCompletion == AtRisk {
        content := AtRiskNote(m.progressPercent, m.daysRemaining);
        status := AtRiskTag;
      } else if m.predictedCompletion == Delayed {
        content := DelayedNote(m.progressPercent, m.daysRemaining);
        status := DelayedTag;
      } else {
        content := InsufficientData;
        status := UnknownTag;
      }

      var id := repo.NewId();
      var insight := AIInsight(id, projectID, ProgressInsight, content, status, ZeroTime);
      var err := repo.Create(id, insight);
      if err.Some? {
        return Failure(err.value), metrics;
      }
      r := Success(insight);
    }

    method CreateInsight(projectID: Id, insightType: string, content: string, now: Time)
      returns (r: Result<AIInsight>)
      requires Valid()
      modifies repo`records, repo`nextId
      ensures Valid()
      ensures projectID == Nil ==>
        r == Failure(ErrBadRequest("project ID cannot be empty")) && unchanged(repo)
      ensures projectID != Nil && insightType == "" ==>
        r == Failure(ErrBadRequest("insight type cannot be empty")) && unchanged(repo)
      ensures projectID != Nil && insightType != "" && repo.writeFault.Some? ==>
        r == Failure(Db(repo.writeFault.value)) && repo.records == old(repo.records)
      ensures projectID != Nil && insightType != "" && repo.writeFault.None? ==>
        && r.Success?
        && r.value.id != Nil && r.value.id !in old(repo.records)
        && repo.records == old(repo.records)[r.value.id := r.value]
        && r.value.projectID == projectID
        && r.value.insightType == insightType
        && r.value.content == Text(content)
        && r.value.generatedAt == now
    {
      if projectID == Nil {
        return Failure(ErrBadRequest("project ID cannot be empty"));
      }
      if insightType == "" {
        return Failure(ErrBadRequest("insight type cannot be empty"));
      }
      var id := repo.NewId();
      var insight := AIInsight(id, projectID, insightType, Text(content), "", now);
      var err := repo.Create(id, insight);
      if err.Some? {
        return Failure(err.value);
      }
      r := Success(insight);
    }

    /**
      * Creating an insight and then asking for it by the identifier it was
      * given finds it again, with the project, type and content it was
      * created with. A failed creation is answered as it is.
      */
    method CreatedInsightIsFound(projectID: Id, insightType: string, content: string, now: Time)
      returns (created: Result<AIInsight>, found: Result<AIInsight>)
      requires Valid()
      modifies repo`records, repo`nextId
      ensures Valid()
      ensures created.Success? <==> projectID != Nil && insightType != "" && repo.writeFault.None?
      ensures created.Success? && repo.readFault.None? ==>
        && found == created
        && found.value.projectID == projectID && found.value.insightType == insightType
        && found.value.content == Text(content) && found.value.generatedAt == now
      ensures created.Success? && repo.readFault.Some? ==> found == Failure(Db(repo.readFault.value))
      ensures created.Failure? ==> found == created
    {
      created := CreateInsight(projectID, insightType, content, now);
      if created.Failure? {
        return created, created;
      }
      found := GetInsightByID(created.value.id);
    }

    method GetInsightByID(id: Id) returns (r: Result<AIInsight>)
      ensures id == Nil ==> r == Failure(ErrBadRequest("insight ID cannot be empty"))
      ensures id != Nil && repo.readFault.Some? ==> r == Failure(Db(repo.readFault.value))
      ensures id != Nil && repo.readFault.None? && id !in repo.records ==> r == Failure(Db(RecordNotFound))
      ensures id != Nil && repo.readFault.None? && id in repo.records ==> r == Success(repo.records[id])
    {
      if id == Nil {
        return Failure(ErrBadRequest("insight ID cannot be empty"));
      }
      var found := repo.Lookup(id);
      r := Required(found);
    }

    /** Unlike its neighbours, a Nil project is reported with a plain error, not a BadRequest. */
    method GetInsightsByProject(projectID: Id) returns (r: Result<seq<AIInsight>>)
      ensures projectID == Nil ==> r == Failure(Plain("project ID cannot be empty"))
      ensures projectID != Nil && repo.readFault.Some? ==> r == Failure(Db(repo.readFault.value))
      ensures projectID != Nil && repo.readFault.None? ==>
        r.Success? && Lists(r.value, repo.records, InsightInProject(projectID))
    {
      if projectID == Nil {
        return Failure(Plain("project ID cannot be empty"));
      }
      r := repo.Where(InsightInProject(projectID));
    }

    /**
      * The insight of that project and type generated on the same calendar
      * day as `date`, the one with the least identifier when several are.
      */
    method GetInsightByProjectAndTypeAndDate(projectID: Id, insightType: string, date: Time)
      returns (r: Result<AIInsight>)
      ensures projectID == Nil ==> r == Failure(ErrBadRequest("project ID cannot be empty"))
      ensures projectID != Nil && insightType == "" ==>
        r == Failure(ErrBadRequest("insight type cannot be empty"))
      ensures projectID != Nil && insightType != "" && date == ZeroTime ==>
        r == Failure(ErrBadRequest("date cannot be zero value"))
      ensures projectID != Nil && insightType != "" && date != ZeroTime && repo.readFault.Some? ==>
        r == Failure(Db(repo.readFault.value))
      ensures projectID != Nil && insightType != "" && date != ZeroTime && repo.readFault.None? ==>
        && (r.Success? || r == Failure(Db(RecordNotFound)))
        && (r.Success? <==> exists k :: k in repo.records && SameDayInsight(projectID, insightType, date)(repo.records[k]))
      ensures r.Success? ==>
        && r.value in repo.records.Values
        && r.value.projectID == projectID && r.value.insightType == insightType
        && Day(r.value.generatedAt) == Day(date)
    {
      if projectID == Nil {
        return Failure(ErrBadRequest("project ID cannot be empty"));
      }
      if insightType == "" {
        return Failure(ErrBadRequest("insight type cannot be empty"));
      }
      if date == ZeroTime {
        return Failure(ErrBadRequest("date cannot be zero value"));
      }
      var found := repo.FirstWhere(SameDayInsight(projectID, insightType, date));
      r := Required(found);
    }

    /**
      * Saves the caller's record after checking it, with `GeneratedAt` taken
      * from the stored original. The lookup runs before the checks.
      */
    method UpdateInsight(insight: AIInsight) returns (r: Result<AIInsight>)
      requires Valid()
      modifies repo`records, repo`nextId
      ensures Valid()
      ensures repo.readFault.Some? ==> r == Failure(Db(repo.readFault.value)) && unchanged(repo)
      ensures repo.readFault.None? && insight.id !in old(repo.records) ==>
        r == Failure(Db(RecordNotFound)) && unchanged(repo)
      ensures repo.readFault.None? && insight.id in old(repo.records) ==>
        && (UpdateCheck(insight).Some? ==> r == Failure(UpdateCheck(insight).value) && unchanged(repo))
        && (UpdateCheck(insight).None? && repo.writeFault.Some? ==>
              r == Failure(Db(repo.writeFault.value)) && repo.records == old(repo.records))
        && (UpdateCheck(insight).None? && repo.writeFault.None? ==>
              && r == Success(insight.(generatedAt := old(repo.records[insight.id].generatedAt)))
              && repo.records == old(repo.records)[insight.id := r.value])
    {
      var found := repo.Lookup(insight.id);
      var orig := Required(found);
      if orig.Failure? {
        return Failure(orig.error);
      }
      var invalid := UpdateCheck(insight);
      if invalid.Some? {
        return Failure(invalid.value);
      }
      var saved := insight.(generatedAt := orig.value.generatedAt);
      var err := repo.Save(insight.id, saved);
      if err.Some? {
        return Failure(err.value);
      }
      r := Success(saved);
    }

    method DeleteInsight(id: Id) returns (r: Outcome)
      requires Valid()
      modifies repo`records, repo`nextId
      ensures Valid()
      ensures id == Nil ==> r == Fail(ErrBadRequest("insight ID cannot be empty")) && unchanged(repo)
      ensures id != Nil && repo.writeFault.Some? ==> r == Fail(Db(repo.writeFault.value)) && unchanged(repo)
      ensures id != Nil && repo.writeFault.None? ==> r == Pass && repo.records == old(repo.records) - {id}
    {
      if id == Nil {
        return Fail(ErrBadRequest("insight ID cannot be empty"));
      }
      var err := repo.Delete(id);
      if err.Some? {
        return Fail(err.value);
      }
      r := Pass;
    }
  }

  /** The checks `UpdateInsight` makes, in order; the first that fails decides the error. */
  function UpdateCheck(insight: AIInsight): (e: Option<Error>)
    ensures e.None? <==>
      insight.id != Nil && insight.projectID != Nil && insight.insightType != "" && insight.content != Text("")
    ensures e.Some? ==> e.value.App? && e.value.kind == BadRequest
    ensures insight.id == Nil ==> e == Some(ErrBadRequest("insight ID cannot be empty"))
    ensures insight.id != Nil && insight.content == Text("") ==>
      e.Some? && (insight.projectID != Nil && insight.insightType != "" ==>
                  e == Some(ErrBadRequest("content cannot be empty")))
  {
    if insight.id == Nil then Some(ErrBadRequest("insight ID cannot be empty"))
    else if insight.projectID == Nil then Some(ErrBadRequest("project ID cannot be empty"))
    else if insight.insightType == "" then Some(ErrBadRequest("insight type cannot be empty"))
    else if insight.content == Text("") then Some(ErrBadRequest("content cannot be empty"))
    else None
  }
}
