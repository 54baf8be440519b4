# devtrackr service layer in Dafny

devtrackr is a Go web service with which developers track their projects.
Each project has milestones, work logs, PDF reports and generated "AI
insights". Most of the repository is HTTP, ORM and JWT plumbing. This project
models the part that decides things:

- the **service layer**, meaning every validation, ownership check and error
  mapping, and the one derived computation;
- the **milestone handler's** partial-update merge;
- the **AppError** values in `pkg/util/errors.go`.

Each Postgres repository is replaced by one in-memory class,
`Storage.Table<R>`:

- a map from identifier to record;
- a counter that stands in for `uuid.New()` / `gen_random_uuid()`;
- two fault fields that make every read or write fail with a chosen database
  error.

Identifiers are naturals, with `0` for `uuid.Nil`; no store ever holds a
record under `0`, and every create answers with a non-Nil identifier. Instants are integers
counting nanoseconds, with `0` for Go's zero `time.Time`. The caller passes
`now` to every operation that reads the clock.

The repositories use two not-found conventions, and the model keeps both:

- The project, log, user and report repositories answer a missing row with
  `(nil, nil)`: `Table.Lookup` gives `Success(None)`.
- The milestone and insight repositories answer it with `ErrRecordNotFound`:
  `Storage.Required` turns that `None` into `Failure(Db(RecordNotFound))`.

A query that lists records (`Where(...).Find`) is specified up to order by
`Storage.Lists`: every matching record, as often as it is stored.

Files:

| file | models |
|---|---|
| `errors.dfy` | `AppError` kinds and statuses, `Error()`, `WriteError`, the unique-violation mapping |
| `domain.dfy` | the records of `internal/domain/model`, identifiers, instants, status and type constants |
| `folds.dfy` | sums over sequences; a sum does not depend on order |
| `storage.dfy` | the in-memory repositories |
| `analytics.dfy` | `AnalyticsService.CalculateProgress` (loops), specified by the pure `Metrics` |
| `insights.dfy` | `AIInsightService`: the label-to-status/content switch and the insight store paths |
| `milestones.dfy` | `MilestoneService`: the `CompletedAt` rule, validation, conflict and not-found mapping |
| `milestone_handler.dfy` | `MilestoneHandler`: status default on create; merge and normalisation on update |
| `logs.dfy` | `LogService`: ordered validation, ownership, the positive-duration invariant |
| `projects.dfy` | `ProjectService`: name/deadline validation, ownership |
| `reports.dfy` | `ReportService`: link validation, as-is update |
| `users.dfy` | `UserService`: registration, login, profile; bcrypt and JWT as parameters |

Each service class states its store invariant as `Valid()`, and every
state-changing method keeps it. A service constructed over a fresh, empty
store starts out valid. Every store keys each record under its own
identifier. The other invariants are:

- milestones: a done milestone has a `CompletedAt`;
- logs: every duration is positive;
- projects: every project has a name;
- reports: every report has a link;
- users: no two users share an email.

## Model

| member | source | states |
|---|---|---|
| `Errors.StatusCode` | pkg/util/errors.go:23-49 | Each AppError kind carries a fixed HTTP status (409, 404, 401, 400, 500), and the status identifies the kind again. |
| `Errors.ErrConflict` | pkg/util/errors.go:23-28 | Written out as status 409 with exactly the given message, which is also what `Error()` returns. |
| `Errors.ErrNotFound` | pkg/util/errors.go:30-35 | Written out as 404 with exactly the given message, which `Error()` returns. |
| `Errors.ErrUnauthorized` | pkg/util/errors.go:37-42 | Written out as 401 with exactly the given message, which `Error()` returns. |
| `Errors.ErrBadRequest` | pkg/util/errors.go:44-49 | Written out as 400 with exactly the given message, which `Error()` returns. |
| `Errors.ErrInternalServer` | pkg/util/errors.go:62-64 | Written out as 500 with exactly the given message, which `Error()` returns. |
| `Errors.WriteError` | pkg/util/errors.go:51-60 | Total. An AppError is answered with its own status and message. Any other error is answered with 500 and "internal server error". |
| `Errors.CreateFailure` | internal/service/milestone_service.go:55-60 | A unique violation from an INSERT is reported as a Conflict with the given message. Every other store error passes through unchanged. |
| `Storage.Required` | internal/repository/postgres/ai_insight_pg.go:27-31 | The `First` convention: a missing row is the error `RecordNotFound`. A found row and a read error pass through. |
| `Storage.ListingsArePermutations` | internal/repository/postgres/log_pg.go:53-63 | Two listings of the same query over the same store hold the same records, so they differ at most in order. |
| `Storage.Table.NewId` | internal/service/log_service.go:43 | A fresh identifier is never Nil and never in use. |
| `Storage.Table.Create` | internal/repository/postgres/log_pg.go:23-25 | An INSERT adds exactly one record. A duplicate key is a unique violation. A failing database changes nothing. |
| `Storage.Table.Save` | internal/repository/postgres/log_pg.go:65-67 | GORM `Save` of a record whose key is set writes the whole record under that key, inserting it when absent. A failing database changes nothing. A zero key is the insert shown in `MilestoneService.UpdateMilestone`. |
| `Storage.Table.Delete` | internal/repository/postgres/log_pg.go:69-71 | Removes the key. A missing key is not an error. A failing database changes nothing. |
| `Storage.Table.Lookup` | internal/repository/postgres/project_pg.go:33-45 | `FindByID` gives the stored record, or `(nil, nil)` when the key is absent, or the read error. |
| `Storage.Table.Where` | internal/repository/postgres/log_pg.go:53-63 | `Where(...).Find` gives every record that matches the filter, each as often as it is stored, or the read error. |
| `Storage.Table.FirstWhere` | internal/repository/postgres/user_pg.go:26-39 | `Where(...).First` gives a matching record (the least key), or none when nothing matches, or the read error. |
| `Folds.SumPermutation` | internal/service/analytics_service.go:45-54 | Summing over a reordering of the same elements gives the same total. |
| `Analytics.CountDone` | internal/service/analytics_service.go:49-54 | The number of done milestones never exceeds the number of milestones. |
| `Analytics.CountDoneCountsDone` | internal/service/analytics_service.go:49-54 | The count is exactly the number of positions whose status is "done". |
| `Analytics.Percent` | internal/service/analytics_service.go:56-62 | The percent lies in [0,100]. With no milestones the denominator is floored at 1, so the percent is 0. All done gives 100. `percent < 50` holds exactly when `2*completed < max(1,total)`. |
| `Analytics.DaysRemaining` | internal/service/analytics_service.go:64-71 | 0 when the deadline is absent or not after now. Otherwise the truncated number of whole days until the deadline. |
| `Analytics.Trajectory` | internal/service/analytics_service.go:74-78 | "at-risk" exactly when percent < 50 and fewer than 30 days remain. Otherwise "on-track". Never "delayed". |
| `Analytics.Metrics` | internal/service/analytics_service.go:43-87 | TotalHours is the logged minutes over 60, and 0 with no logs. MilestonesTotal is the unfloored count, and completed never exceeds it. The percent and threshold rule are as above. The label is "at-risk" iff `2*completed < max(1,total)` and days < 30. WeeklyAverage, DaysActive and DaysInactive stay 0. |
| `Analytics.MetricsIgnoreOrder` | internal/service/analytics_service.go:45-54 | The snapshot depends only on which logs and milestones there are, not on their order. |
| `Analytics.AnalyticsService.ComputedIsDeterministic` | internal/service/analytics_service.go:38-54 | Two computations against the same stores agree, whatever order the queries return rows in. |
| `Analytics.AnalyticsService.CalculateProgress` | internal/service/analytics_service.go:30-88 | A missing project, and also a failed project read (the error is discarded), is NotFound "Project not found". Otherwise the loops compute exactly `Metrics` of the project and the listed logs and milestones. A failed list read counts as no rows. |
| `Insights.StatusFor` | internal/service/ai_insight_service.go:42-69 | on-track, at-risk and delayed map to ON_TRACK, AT_RISK and DELAYED, and `LabelFor` recovers the label. Any other label maps to UNKNOWN. |
| `Insights.ContentFor` | internal/service/ai_insight_service.go:42-69 | One template per label, carrying the numbers it interpolates: percent, completed/total and hours for on-track; percent and days left for at-risk and delayed. Any other label gives the fixed "insufficient data" text. |
| `Insights.GeneratedStatusIsOnTrackOrAtRisk` | internal/service/ai_insight_service.go:42-58 | Given the trajectory rule, a generated insight is only ever ON_TRACK or AT_RISK, and never uses the delayed template. |
| `Insights.AIInsightService.GenerateProgressInsight` | internal/service/ai_insight_service.go:31-85 | When the metrics fail, that error is returned and the store is unchanged. Otherwise exactly one new record is added, with no check for an existing one. It has a fresh id, the project, type "progress", and the status and content of the label. GeneratedAt is left at the zero time. |
| `Insights.AIInsightService.CreateInsight` | internal/service/ai_insight_service.go:87-107 | A Nil project gives BadRequest, and so does an empty type, checked in that order with no write. Content is not checked. On success exactly one record is added under a fresh, non-Nil id with the given project, type and content, and GeneratedAt = now. |
| `Insights.AIInsightService.CreatedInsightIsFound` | internal/service/ai_insight_service.go:87-119 | An insight that was created is found by `GetInsightByID` under its new id, with the same project, type, content and GeneratedAt, unless reading fails. |
| `Insights.AIInsightService.GetInsightByID` | internal/service/ai_insight_service.go:109-119 | A Nil id gives BadRequest before the store is read. A missing insight is `RecordNotFound`. Otherwise the stored record. |
| `Insights.AIInsightService.GetInsightsByProject` | internal/service/ai_insight_service.go:121-131 | A Nil project gives a plain (non-AppError) error. Otherwise every insight of the project. |
| `Insights.AIInsightService.GetInsightByProjectAndTypeAndDate` | internal/service/ai_insight_service.go:133-151 | A Nil project, an empty type and a zero date each give BadRequest, in that order. Otherwise an insight of that project and type generated on the same day is returned when one exists, and `RecordNotFound` when none does. |
| `Insights.UpdateCheck` | internal/service/ai_insight_service.go:162-176 | Passes exactly when the id and project are non-Nil and the type and content are non-empty. The first failing check's BadRequest is reported. |
| `Insights.AIInsightService.UpdateInsight` | internal/service/ai_insight_service.go:154-186 | The lookup comes first, and its error wins. A failed check writes nothing. On success the caller's record is saved with GeneratedAt taken from the stored original, whatever the caller passed. |
| `Insights.AIInsightService.DeleteInsight` | internal/service/ai_insight_service.go:189-198 | A Nil id gives BadRequest with no write. Otherwise the key is removed, or the store error is returned. |
| `Milestones.Stamped` | internal/service/milestone_service.go:90-94 | A done milestone without CompletedAt gets now. An existing CompletedAt is kept. A non-done milestone's CompletedAt is not cleared. Nothing else changes. |
| `Milestones.StampedIsIdempotent` | internal/service/milestone_service.go:90-94 | Stamping an already stamped milestone changes nothing. |
| `Milestones.UpdateCheck` | internal/service/milestone_service.go:84-89 | An empty name, then a due date strictly before now, each give BadRequest. Otherwise the check passes. |
| `Milestones.MilestoneService.CreateMilestone` | internal/service/milestone_service.go:26-63 | An empty name, then a past due date, gives BadRequest with nothing stored. A created milestone copies project, name, order, status and due date, has CreatedAt = now, and has CompletedAt (= now) iff its status is done. A unique violation becomes Conflict and other store errors pass through. |
| `Milestones.MilestoneService.GetMilestonesByProject` | internal/service/milestone_service.go:66-72 | Every milestone of the project. The user argument is ignored. |
| `Milestones.MilestoneService.GetMilestoneByID` | internal/service/milestone_service.go:75-81 | The stored milestone, or `RecordNotFound`, or the read error. |
| `Milestones.MilestoneService.UpdateMilestone` | internal/service/milestone_service.go:83-95 | A failed check writes nothing and leaves the record as given. Otherwise the stamped record is saved under its id, and the caller sees the stamp too. A milestone whose id is Nil is inserted instead, under a fresh id that the caller's record receives once the insert succeeds, as GORM's `Save` does for a zero primary key. Done milestones in the store always keep a CompletedAt. |
| `Milestones.MilestoneService.DeleteMilestone` | internal/service/milestone_service.go:98-102 | Any store error is reported as NotFound "milestone not found". Otherwise the key is removed. |
| `MilestoneHandlers.Merge` | internal/handler/milestone_handler.go:182-210 | An empty name and an absent order index keep the stored values, and present values overwrite them. A status outside {pending, in_progress, done} gives BadRequest "invalid status". Due date: absent keeps the stored value, blank clears it, a parsed date replaces it, and an unparseable one gives BadRequest. Other fields are untouched. |
| `MilestoneHandlers.MilestoneHandler.ApplyRequest` | internal/handler/milestone_handler.go:182-210 | The field-by-field overwrites of the fetched milestone, including their early BadRequest exits, compute exactly `Merge`. |
| `MilestoneHandlers.Normalised` | internal/handler/milestone_handler.go:216-222 | The answered milestone has CompletedAt exactly when its status is done. An existing CompletedAt of a done milestone is kept. |
| `MilestoneHandlers.StoredCompletionOutlivesStatus` | internal/handler/milestone_handler.go:212-222 | For every stored done milestone with a CompletedAt and every valid request that moves it back to pending, the store keeps the old CompletedAt while the answer has none. |
| `MilestoneHandlers.MilestoneHandler.CreateMilestone` | internal/handler/milestone_handler.go:39-62 | An unparseable due date gives BadRequest with no write. An empty status reaches the service as "pending", so a created milestone never has an empty status. Otherwise the service's create, with its checks. |
| `MilestoneHandlers.MilestoneHandler.UpdateMilestone` | internal/handler/milestone_handler.go:177-222 | A lookup error is returned. Then the merge and then the service checks run, and either failure means no save. On success the store holds the stamped merge of request and stored milestone, and the answer is that record normalised. |
| `Logs.CreateCheck` | internal/service/log_service.go:27-40 | Checked in order: Nil project, Nil user, empty text, duration <= 0. Each failure gives its BadRequest, and all four passing is exactly the success case. |
| `Logs.UpdateCheck` | internal/service/log_service.go:103-113 | Checked in order: Nil id, empty text, duration <= 0. Each failure gives its BadRequest. |
| `Logs.ListedAreStored` | internal/repository/postgres/log_pg.go:53-63 | Every record a query lists is a stored record that matches the filter. |
| `Logs.TotalMinutesAtLeastCount` | internal/service/log_service.go:38-40 | Logs with positive durations total at least one minute each. |
| `Logs.LogService.ListingTotalsAtLeastCount` | internal/service/analytics_service.go:43-47 | Because stored durations are positive, any listing from a valid log store totals at least one minute per log. |
| `Logs.LogService.CreateLog` | internal/service/log_service.go:26-53 | A failed check writes nothing. Otherwise one log is added under a fresh id, copying project, user, text, duration and loggedAt, with CreatedAt = now. Every stored duration stays positive. |
| `Logs.LogService.GetLogByID` | internal/service/log_service.go:56-66 | A Nil id gives BadRequest before the store is read. Otherwise the stored log, or none, or the read error. |
| `Logs.LogService.GetLogsByUser` | internal/service/log_service.go:68-78 | A Nil user gives BadRequest. Otherwise every log of the user. |
| `Logs.LogService.GetLogsByProject` | internal/service/log_service.go:80-91 | A Nil project gives BadRequest. Otherwise every log of the project. |
| `Logs.LogService.UpdateLog` | internal/service/log_service.go:93-116 | A lookup error is returned first. A caller who is not the stored owner then gets Unauthorized, before any field check. A failed field check writes nothing. Otherwise the log is saved as given. Every stored duration stays positive. |
| `Logs.LogService.DeleteLog` | internal/service/log_service.go:118-124 | A Nil id gives BadRequest with no write. Otherwise the key is removed, or the store error is returned. |
| `Projects.UpdateCheck` | internal/service/project_service.go:73-83 | Checked in order: Nil id, empty name, deadline strictly before now. Each failure gives its BadRequest. |
| `Projects.ProjectService.CreateProject` | internal/service/project_service.go:24-51 | An empty name gives BadRequest, then a deadline strictly before now does (a deadline equal to now is accepted). The created project has a fresh, non-Nil id and carries the given owner, name and deadline. A unique violation becomes Conflict and other errors pass through. |
| `Projects.ProjectService.GetProjectByID` | internal/service/project_service.go:53-60 | The stored project, or none, or the read error. |
| `Projects.ProjectService.ListProjectByUser` | internal/service/project_service.go:62-68 | Every project of the user. |
| `Projects.ProjectService.UpdateProject` | internal/service/project_service.go:72-98 | The checks run before the store is read. A read error is reported as NotFound "project not found", and a non-owner gets Unauthorized, in both cases with no write. On success the project is saved with UserID = caller and UpdatedAt = now, so ownership never changes. |
| `Projects.ProjectService.DeleteProject` | internal/service/project_service.go:100-111 | A read error is reported as NotFound "project not found", and a non-owner gets Unauthorized, in both cases with nothing removed. Otherwise the key is removed, or the store error is returned. |
| `Reports.UpdateCheck` | internal/service/report_service.go:70-75 | A Nil id, then an empty link, gives BadRequest. |
| `Reports.ReportService.CreateReport` | internal/service/report_service.go:25-43 | An empty link gives BadRequest with no write. A created report has a fresh, non-Nil id and carries the given project and link with GeneratedAt = now. The user argument is ignored. |
| `Reports.ReportService.CreatedReportIsFound` | internal/service/report_service.go:25-55 | A report that was created is found by `GetReportByID` under its new id, exactly as it was answered, unless reading fails. |
| `Reports.ReportService.GetReportByID` | internal/service/report_service.go:45-55 | A Nil id gives BadRequest before the store is read. Otherwise the stored report, or none, or the read error. |
| `Reports.ReportService.GetReportsByProject` | internal/service/report_service.go:57-67 | A Nil project gives BadRequest. Otherwise every report of the project. |
| `Reports.ReportService.UpdateReport` | internal/service/report_service.go:69-80 | A failed check writes nothing. Otherwise the passed record is saved as it is, with no merge with the stored one, and returned. |
| `Reports.ReportService.DeleteReport` | internal/service/report_service.go:83-92 | A Nil id gives BadRequest. Store errors pass through. |
| `Users.Public` | internal/service/user_service.go:98-99 | The answered copy of a user has an empty PasswordHash and is otherwise the stored user. |
| `Users.UserService.Register` | internal/service/user_service.go:24-61 | A read error is returned. An email already in the store gives Conflict and creates nothing. A hashing failure gives Internal. Otherwise the store gains the user with the given name and email and hash(password), never the plaintext. A store failure passes through. A token failure gives Internal after the user is stored. Emails stay unique. |
| `Users.UserService.Login` | internal/service/user_service.go:64-86 | An unknown email, a failed read and a wrong password all give Unauthorized "invalid email or password". With a matching password, the stored user and its token are returned, and a token failure gives Internal. |
| `Users.UserService.GetCurrentUser` | internal/service/user_service.go:89-101 | A missing user gives NotFound "user not found". A read error is returned. Otherwise the stored user with the hash blanked. |
| `Users.UserService.UpdateProfile` | internal/service/user_service.go:104-126 | Only Name and UpdatedAt of the stored user change, and the stored hash is kept. The answer is that record with the hash blanked. A missing user gives NotFound. |
| `Users.UserService.DeleteAccount` | internal/service/user_service.go:129-145 | A missing user gives NotFound and nothing is deleted. A read or write error is returned. Otherwise the key is removed. |

## Left out

- HTTP parsing, routing, JSON output and RFC 3339 formatting are not modelled. The milestone handler keeps only its own decisions. A due-date string arrives already classified as blank, parsed or unparseable. The handler's direct 400 answers are modelled as `ErrBadRequest` values with the same status and message. The other handlers, the middleware and JWT parsing are not part of this model.
- bcrypt and JWT signing are not modelled. They become functions fixed when the `UserService` is constructed: hashing and signing may fail, and comparison is a predicate.
- Floating point is not modelled. TotalHours and ProgressPercent are exact reals. DaysRemaining is the Euclidean quotient of the remaining nanoseconds by a day, which matches Go's `int(hours / 24)` for the positive durations it is used on, up to float rounding. The message templates' `%.1f` text is not reproduced: the content is a record of the template chosen and the numbers it shows.
- Context timeouts are not modelled, and neither is `time.Duration` saturation for deadlines more than 292 years away.
- Result order is not modelled. The `ORDER BY` clauses of the list queries (`created_at desc`, `status != 'done', order_idx asc`, `generated_at desc`) are not modelled: a listing is specified up to order. GORM's `First` orders by primary key and so returns the matching row with the least UUID; `FirstWhere` returns the matching record with the least counter key, its counterpart here.
- The `DATE(generated_at) = ?` lookup is modelled as "same day", with days counted as whole multiples of 24 hours from the zero instant; time zones are not modelled.
- GORM's automatic `CreatedAt`/`UpdatedAt` stamping and column defaults (such as the `'pending'` status default of the milestone table) are not modelled. Only the timestamps the services set themselves are.
- Nil-record dereferences are modelled as preconditions rather than panics. `UpdateLog`, `UpdateProject` and `DeleteProject` read the record through a repository that answers a missing row with `(nil, nil)` and then dereference it. So the model's `Logs.LogService.UpdateLog`, `Projects.ProjectService.UpdateProject` and `Projects.ProjectService.DeleteProject` require the record to be present whenever that read succeeds.
- `model.AIInsight` in internal/domain/model/ai_insight.go has no `Status` field, although the service sets one. The model's insight record carries the status the service assigns.
- Two behaviours of the code are modelled as written:
  - `GenerateProgressInsight` never sets `GeneratedAt`, so a generated insight keeps the zero time.
  - The same-day insight lookup fails with `RecordNotFound` when nothing matches; it does not return an empty result.
- The AI insight, log, report, project and user handlers and their DTO conversions are not part of this model. The database connection, configuration and `main` are not part of it either.
