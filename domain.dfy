/**
  * The records of internal/domain/model, reduced to the fields the services
  * read or write. Identifiers are naturals with 0 standing for `uuid.Nil`;
  * instants are integers counting nanoseconds, with 0 standing for Go's zero
  * `time.Time`.
  */
module Domain {
  import opened Wrappers

  type Id = nat
  const Nil: Id := 0

  type Time = int
  const ZeroTime: Time := 0
  const DayNanos: int := 86_400 * 1_000_000_000

  /** The calendar day (UTC) an instant falls on, as SQL's DATE() sees it. */
  function Day(t: Time): int
  {
    t / DayNanos
  }

  /** `t.Before(now)` on an optional instant: absent is never in the past. */
  predicate InPast(t: Option<Time>, now: Time)
  {
    t.Some? && t.value < now
  }

  // Milestone statuses (model.MilestoneStatus).
  const Pending: string := "pending"
  const InProgress: string := "in_progress"
  const Done: string := "done"

  // Insight types (model.InsightType).
  const SummaryInsight: string := "summary"
  const ProgressInsight: string := "progress"

  // Insight status tags (model.InsightStatus).
  const OnTrackTag: string := "ON_TRACK"
  const AtRiskTag: string := "AT_RISK"
  const DelayedTag: string := "DELAYED"
  const UnknownTag: string := "UNKNOWN"

  datatype Project = Project(
    id: Id,
    userID: Id,
    name: string,
    deadline: Option<Time>,
    updatedAt: Time)

  datatype Milestone = Milestone(
    id: Id,
    projectID: Id,
    name: string,
    orderIdx: int,
    status: string,
    dueDate: Option<Time>,
    completedAt: Option<Time>,
    createdAt: Time)

  datatype Log = Log(
    id: Id,
    projectID: Id,
    userID: Id,
    text: string,
    durationMinutes: int,
    loggedAt: Time,
    createdAt: Time)

  datatype Report = Report(
    id: Id,
    projectID: Id,
    urlPdf: string,
    generatedAt: Time)

  datatype User = User(
    id: Id,
    name: string,
    email: string,
    passwordHash: string,
    createdAt: Time,
    updatedAt: Time)

  /**
    * Insight content. Free text for insights written through `CreateInsight`
    * and `UpdateInsight`; for generated insights, the template that was
    * chosen together with the numbers it interpolates.
    */
  datatype Content =
    | Text(text: string)
    | OnTrackNote(percent: real, completed: int, total: int, hours: real)
    | AtRiskNote(percent: real, daysLeft: int)
    | DelayedNote(percent: real, daysLeft: int)
    | InsufficientData

  datatype AIInsight = AIInsight(
    id: Id,
    projectID: Id,
    insightType: string,
    content: Content,
    status: string,
    generatedAt: Time)
}
