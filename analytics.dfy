/**
  * internal/service/analytics_service.go: folding a project's logs and
  * milestones into a `ProgressMetrics` snapshot.
  *
  * Go's float64 arithmetic is modelled with exact reals; `time.Until` is the
  * difference between the deadline and the `now` the caller passes in.
  */
module Analytics {
  import opened Wrappers
  import opened Errors
  import opened Domain
  import opened Folds
  import opened Storage
  import Milestones

  // Trajectory labels (ProgressMetrics.PredictedCompletion).
  const OnTrack: string := "on-track"
  const AtRisk: string := "at-risk"
  const Delayed: string := "delayed"

  datatype ProgressMetrics = ProgressMetrics(
    totalHours: real,
    weeklyAverage: real,
    daysActive: int,
    daysInactive: int,
    milestonesTotal: int,
    milestonesCompleted: int,
    progressPercent: real,
    daysRemaining: int,
    predictedCompletion: string)

  function Minutes(l: Log): int
  {
    l.durationMinutes
  }

  function DoneWeight(m: Milestone): int
  {
    if m.status == Done then 1 else 0
  }

  /** Minutes logged over all `logs`. */
  function TotalMinutes(logs: seq<Log>): int
  {
    Sum(logs, Minutes)
  }

  /** How many of `ms` have status "done". */
  function CountDone(ms: seq<Milestone>): (n: nat)
    ensures n <= |ms|
  {
    SumOfIndicators(ms, DoneWeight);
    Sum(ms, DoneWeight)
  }

  /** The indices of the milestones that are done. */
  ghost function DoneIndices(ms: seq<Milestone>): set<int>
  {
    set i | 0 <= i < |ms| && ms[i].status == Done
  }

  /** `CountDone` counts exactly the done milestones. */
  lemma {:induction false} CountDoneCountsDone(ms: seq<Milestone>)
    ensures CountDone(ms) == |DoneIndices(ms)|
  {
    if ms != [] {
      var n := |ms| - 1;
      var front := ms[..n];
      CountDoneCountsDone(front);
      if ms[n].status == Done {
        assert DoneIndices(ms) == DoneIndices(front) + {n};
      } else {
        assert DoneIndices(ms) == DoneIndices(front);
      }
    }
  }

  /** Dividing both sides by a positive number keeps the order. */
  lemma DivideLe(x: real, y: real, d: real)
    requires 0.0 < d && x * d <= y * d
    ensures x <= y
  {
  }

  lemma DivideLt(x: real, y: real, d: real)
    requires 0.0 < d && x * d < y * d
    ensures x < y
  {
  }

  /** A ratio of at most one is below one half exactly when twice the numerator is below the denominator. */
  lemma HalfThreshold(c: real, d: real)
    requires 0.0 < d && 0.0 <= c <= d
    ensures 0.0 <= c / d <= 1.0
    ensures c / d < 0.5 <==> 2.0 * c < d
  {
    var q := c / d;
    assert q * d == c;
    if 2.0 * c < d {
      DivideLt(q, 0.5, d);
    } else {
      DivideLe(0.5, q, d);
    }
  }

  /**
    * `completed / max(1, total) * 100`. The threshold the trajectory rule
    * applies to it, `percent < 50`, is stated on integers.
    */
  function Percent(completed: nat, total: nat): (p: real)
    requires completed <= total
    ensures 0.0 <= p <= 100.0
    ensures total == 0 ==> p == 0.0
    ensures 0 < total == completed ==> p == 100.0
    ensures p < 50.0 <==> 2 * completed < Max(1, total)
  {
    var denominator := if total == 0 then 1 else total;
    HalfThreshold(completed as real, denominator as real);
    assert (2 * completed) as real == 2.0 * (completed as real);
    (completed as real) / (denominator as real) * 100.0
  }

  /** Whole days from `now` until the deadline, truncated; 0 when absent or passed. */
  function DaysRemaining(deadline: Option<Time>, now: Time): (d: nat)
    ensures deadline.None? || deadline.value <= now ==> d == 0
    ensures deadline.Some? && now < deadline.value ==>
      d * DayNanos <= deadline.value - now < (d + 1) * DayNanos
  {
    if deadline.Some? && deadline.value - now > 0 then (deadline.value - now) / DayNanos else 0
  }

  /** The trajectory rule: at risk below 50% with under 30 days left. */
  function Trajectory(percent: real, daysRemaining: int): (verdict: string)
    ensures verdict == OnTrack || verdict == AtRisk
    ensures verdict == AtRisk <==> percent < 50.0 && daysRemaining < 30
  {
    if percent < 50.0 && daysRemaining < 30 then AtRisk else OnTrack
  }

  /** The snapshot `CalculateProgress` computes for `project`. */
  function Metrics(project: Project, logs: seq<Log>, milestones: seq<Milestone>, now: Time): (m: ProgressMetrics)
    ensures m.totalHours == (TotalMinutes(logs) as real) / 60.0
    ensures logs == [] ==> m.totalHours == 0.0
    ensures m.milestonesTotal == |milestones|
    ensures 0 <= m.milestonesCompleted <= m.milestonesTotal
    ensures 0.0 <= m.progressPercent <= 100.0
    ensures milestones == [] ==> m.progressPercent == 0.0
    ensures m.daysRemaining >= 0
    ensures m.predictedCompletion == OnTrack || m.predictedCompletion == AtRisk
    ensures m.predictedCompletion == AtRisk <==>
      2 * m.milestonesCompleted < Max(1, m.milestonesTotal) && m.daysRemaining < 30
    ensures m.weeklyAverage == 0.0 && m.daysActive == 0 && m.daysInactive == 0
  {
    var completed := CountDone(milestones);
    var percent := Percent(completed, |milestones|);
    var days := DaysRemaining(project.deadline, now);
    ProgressMetrics(
      (TotalMinutes(logs) as real) / 60.0, 0.0, 0, 0,
      |milestones|, completed, percent, days, Trajectory(percent, days))
  }

  /** The snapshot does not depend on the order in which logs and milestones arrive. */
  lemma MetricsIgnoreOrder(project: Project, logs1: seq<Log>, logs2: seq<Log>,
                           ms1: seq<Milestone>, ms2: seq<Milestone>, now: Time)
    requires multiset(logs1) == multiset(logs2)
    requires multiset(ms1) == multiset(ms2)
    ensures Metrics(project, logs1, ms1, now) == Metrics(project, logs2, ms2, now)
  {
    SumPermutation(logs1, logs2, Minutes);
    SumPermutation(ms1, ms2, DoneWeight);
    assert |ms1| == |multiset(ms1)| == |multiset(ms2)| == |ms2|;
  }

  function LogInProject(projectID: Id): Log -> bool
  {
    (l: Log) => l.projectID == projectID
  }

  /**
    * `rs` is what a `FindByProject` whose error is discarded yields: the
    * matching records in some order, or nothing when the query failed.
    */
  ghost predicate Loaded<R(!new)>(t: Table<R>, rs: seq<R>, keep: R -> bool)
    reads t
  {
    if t.readFault.Some? then rs == [] else Lists(rs, t.records, keep)
  }

  class AnalyticsService {
    const projectRepo: Table<Project>
    const logRepo: Table<Log>
    const milestoneRepo: Table<Milestone>

    constructor (projectRepo: Table<Project>, logRepo: Table<Log>, milestoneRepo: Table<Milestone>)
      ensures this.projectRepo == projectRepo && this.logRepo == logRepo
      ensures this.milestoneRepo == milestoneRepo
    {
      this.projectRepo := projectRepo;
      this.logRepo := logRepo;
      this.milestoneRepo := milestoneRepo;
    }

    /**
      * `r` is what `CalculateProgress(projectID)` returns at `now`: NotFound
      * when the project cannot be read, and otherwise the snapshot of the
      * listings the stores handed back.
      */
    ghost predicate Computed(projectID: Id, now: Time, r: Result<ProgressMetrics>)
      reads projectRepo, logRepo, milestoneRepo
    {
      if projectRepo.readFault.Some? || projectID !in projectRepo.records then
        r == Failure(ErrNotFound("Project not found"))
      else
        exists logs: seq<Log>, milestones: seq<Milestone> ::
          && Loaded(logRepo, logs, LogInProject(projectID))
          && Loaded(milestoneRepo, milestones, Milestones.MilestoneOfProject(projectID))
          && r == Success(Metrics(projectRepo.records[projectID], logs, milestones, now))
    }

    /** The listings a run obtained witness its result. */
    lemma ComputedBy(projectID: Id, now: Time, logs: seq<Log>, milestones: seq<Milestone>)
      requires projectRepo.readFault.None? && projectID in projectRepo.records
      requires Loaded(logRepo, logs, LogInProject(projectID))
      requires Loaded(milestoneRepo, milestones, Milestones.MilestoneOfProject(projectID))
      ensures Computed(projectID, now, Success(Metrics(projectRepo.records[projectID], logs, milestones, now)))
    {
    }

    /** Two computations against the same stores agree, whatever order the rows come in. */
    lemma ComputedIsDeterministic(projectID: Id, now: Time, r1: Result<ProgressMetrics>, r2: Result<ProgressMetrics>)
      requires Computed(projectID, now, r1) && Computed(projectID, now, r2)
      ensures r1 == r2
    {
      if projectRepo.readFault.None? && projectID in projectRepo.records {
        var logs1: seq<Log>, ms1: seq<Milestone> :|
          && Loaded(logRepo, logs1, LogInProject(projectID))
          && Loaded(milestoneRepo, ms1, Milestones.MilestoneOfProject(projectID))
          && r1 == Success(Metrics(projectRepo.records[projectID], logs1, ms1, now));
        var logs2: seq<Log>, ms2: seq<Milestone> :|
          && Loaded(logRepo, logs2, LogInProject(projectID))
          && Loaded(milestoneRepo, ms2, Milestones.MilestoneOfProject(projectID))
          && r2 == Success(Metrics(projectRepo.records[projectID], logs2, ms2, now));
        if logRepo.readFault.None? {
          ListingsArePermutations(logs1, logs2, logRepo.records, LogInProject(projectID));
        }
        if milestoneRepo.readFault.None? {
          ListingsArePermutations(ms1, ms2, milestoneRepo.records, Milestones.MilestoneOfProject(projectID));
        }
        MetricsIgnoreOrder(projectRepo.records[projectID], logs1, logs2, ms1, ms2, now);
      }
    }

    method CalculateProgress(projectID: Id, now: Time) returns (r: Result<ProgressMetrics>)
      ensures Computed(projectID, now, r)
    {
      // The lookup error is discarded: a failing store reads as a missing project.
      var found := projectRepo.Lookup(projectID);
      if found.Failure? || found.value.None? {
        return Failure(ErrNotFound("Project not found"));
      }
      var project := found.value.value;

      var logsFound := logRepo.Where(LogInProject(projectID));
      var projectLogs := if logsFound.Success? then logsFound.value else [];
      var milestonesFound := milestoneRepo.Where(Milestones.MilestoneOfProject(projectID));
      var projectMilestones := if milestonesFound.Success? then milestonesFound.value else [];

      var totalHours := 0.0;
      for i := 0 to |projectLogs|
        invariant totalHours == (TotalMinutes(projectLogs[..i]) as real) / 60.0
      {
        assert projectLogs[..i + 1][..i] == projectLogs[..i];
        totalHours := totalHours + (projectLogs[i].durationMinutes as real) / 60.0;
      }
      assert projectLogs[..|projectLogs|] == projectLogs;

      var completedMilestones := 0;
      for i := 0 to |projectMilestones|
        invariant completedMilestones == CountDone(projectMilestones[..i])
      {
        assert projectMilestones[..i + 1][..i] == projectMilestones[..i];
        if projectMilestones[i].status == Done {
          completedMilestones := completedMilestones + 1;
        }
      }
      assert projectMilestones[..|projectMilestones|] == projectMilestones;

      var milestoneTotal := |projectMilestones|;
      if milestoneTotal == 0 {
        milestoneTotal := 1;
      }
      var progressPercent := (completedMilestones as real) / (milestoneTotal as real) * 100.0;

      var daysRemaining := 0;
      if project.deadline.Some? {
        var duration := project.deadline.value - now;
        if duration > 0 {
          daysRemaining := duration / DayNanos;
        }
      }

      var prediction := OnTrack;
      if progressPercent < 50.0 && daysRemaining < 30 {
        prediction := AtRisk;
      }

      var metrics := ProgressMetrics(
        totalHours, 0.0, 0, 0, |projectMilestones|, completedMilestones,
        progressPercent, daysRemaining, prediction);
      assert metrics == Metrics(project, projectLogs, projectMilestones, now);
      ComputedBy(projectID, now, projectLogs, projectMilestones);
      r := Success(metrics);
    }
  }
}
