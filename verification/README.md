# Energy IQ verification

A Dafny model of the protocols and the arithmetic behind the Energy IQ backend and its mock inverter server.
`dafny verify dfyconfig.toml` checks everything.

| file | what it models |
|---|---|
| Prelude, Calendar, PeriodRange | instants, ECMA-262 date rollover, and both copies of `getPeriodRange` as code over mutable dates |
| ReportTable, ReportWorker, ReportLifecycle, ReportSeries, ReportResults, ReportRecovery, ReportJob | the report status column under any number of workers, cancellations, crashes and cron runs; recurring series; which reports can still be finished; one job with its three attempts |
| ShareLinks, ShareLinkRuns, ShareLinkJobs, ShareService | the shareable link: row, remote files, delayed delete jobs, uploads, visits, faults; and the upload and delete handlers as code |
| Sessions | refresh-token rotation on one session row |
| PubSub | the reference-counted subscription registry against a FIFO of Redis commands |
| QuietHours, AlertPipeline, AlertRuns | quiet-hours windows on strings, duplicate suppression, deferred delivery, overlapping evaluations and dispatchers |
| Depletion, Simulator, SimulatorModes, BatteryPrediction | the depletion estimate, the battery simulator, and the first checked against the second |
| Poller, PollRuns | tracked inverters, failure counts, offline alerts |
| Savings, Fuel | the savings queries and the money derived from them |

Protocols are state machines. A step is what runs between two awaits, or one SQL statement; a run is any sequence
of steps, so a theorem about all runs covers every interleaving. A label that is not enabled leaves the state alone.
What the code does not decide (outcomes of foreign calls, fresh ids, noise, the weather) is part of the label.
A SELECT and the code that goes on with its result are two steps, and so are taking the clock for a statement and
the statement itself, wherever a theorem depends on the time between them.
Objects that the source updates in place are classes, and their methods are proved against the functions that the
machines are built from.

Conventions. Instants are integers in milliseconds from one non-decreasing clock, except where a method takes the
service's and the database's clock apart. Local time is a fixed offset without daylight saving. Date rollover
follows section 21.4.1 of ECMA-262 and `Math.round` its section 21.3.2.28. Floating-point numbers are exact reals.
Hashes are injective on tokens, and tokens, ids and public ids are fresh. A statement that raises has no effect.

Where the obvious claim is false, the condition under which it holds is proved, with a run in which it fails:

- The workers' claims are respected throughout a run if and only if every cron run in it finds the live claims at
  most 30 minutes old (`ReportLifecycle.RunKeepsExactly`); in `ReportLifecycle.SlowWorkerOverwritesCancel` a slower
  worker turns a CANCELLED report READY.
- A series is numbered and its periods follow each other in every run (`ReportSeries.SeriesNumbered`). An occurrence
  that has a successor is READY if and only if the last result written to it is not a failure
  (`ReportSeries.PredecessorExactly`), hence whenever no worker writes a result after the cron has reset its claim
  (`ReportSeries.PredecessorReady`); in `ReportSeries.StaleFailureSpoilsSeries` it ends FAILED.
- Report by report, and in any run, a READY, FAILED or CANCELLED row is not written again as long as no worker writes
  a result to it after the cron has reset its claim (`ReportSeries.TerminalUntilStaleWrite`).
- The cron queues no job. In every state of every run an unfinished report can still be finished if and only if a
  job, a creator, or a worker that has not delivered yet is left for it (`ReportRecovery.AbandonedExactly`);
  `ReportRecovery.CrashAbandons` reaches one that cannot, and `ReportRecovery.DeliveredWorkerIsNoHelp` one that
  cannot although a worker is left for it.
- An expiry is written off on a row read earlier. That ends a session which is still acceptable if and only if a
  refresh landed since the read, nothing else ended the session, and the new expiry has not passed
  (`Sessions.ExpiryWriteEndsLiveSession`); `Sessions.RefreshedSessionEnded` is such a run. Likewise an access check
  that read the row before a logout may still be granted (`Sessions.StaleGrant`), and only such a one
  (`Sessions.FetchedAfterIsRefused`).
- Issuing a token applies no 30-day cap: it stays within it exactly when it comes within 23 days of the session's
  creation (`Sessions.IssueWithinCap`).
- A resuming subscribe finds no entry if and only if an unsubscribe emptied the channel and nothing created it again
  (`PubSub.ResumeMisses`, `PubSub.SubscribeMissesItsEntry`).
- The 00:00-00:00 sentinel is tested after conversion to UTC; the offsets at which it is lost or appears by accident
  are exactly those of `QuietHours.SentinelAfterConversion`.
- Alerts come too close if and only if one is saved in the middle of the next one's evaluation, between its SELECT
  and INSERT, and that next one is no more severe and is saved within a cooldown of it or before its resolution
  (`AlertRuns.SpacedExactly`); n overlapping evaluations put n alerts into one instant
  (`AlertRuns.OverlapDefeatsSuppression`). The earlier alert had been resolved when the later was saved, but need not
  be resolved still: a dispatcher saves the whole alert it read before delivering
  (src/modules/alerts/jobs/alert-dispatch.processor.ts:63-158), which can take a resolution back.
- Two offline alerts of a user come within an hour if and only if one of the user's checks saves its alert in the
  middle of another's, less than an hour before it (`PollRuns.ApartExactly`); `PollRuns.SweepAlertsTwice` is such a run.
- A live link loses its file if and only if queueing or recording its delete job failed after its upload had
  committed and the catch block deleted the file (`ShareLinkRuns.LiveLinkHasItsFile`,
  `ShareLinkRuns.QueueFailureBreaksTheLink`).
- With no read of it on the way, an inverter with a row of a polled brand is tracked as it was last told if and only
  if neither the last message deregistered it during reads of which one then succeeded, nor the last message
  registered it and its reads have only failed since (`Poller.TrackedAsLastTold`, with the runs
  `Poller.OvertakenRegistration` and `Poller.LostRegistration`).
- The failure count is one too high exactly when marking the inverter online failed at its last fetch
  (`PollRuns.CountIsTrailingRun`), and the offline flag follows the marks that succeed (`PollRuns.OfflineExactly`).
- Active hours of two adjacent ranges add up exactly when no local hour has rows on both sides
  (`Savings.AdjacentRangesAdd`).

Where code and comments disagree, the code is followed: the cron's comment says every 15 minutes and its
decorator every 10 (src/modules/reports/reports.cron.ts:17-21); the poller's comment asks for an unresolved
alert and its query ignores resolution (src/modules/metrics-stream/poller/metrics-poller.service.ts:461-485); the
fuel table's comment speaks of interpolation and its code takes the bracket's value
(src/modules/inverters-metrics/data/fuel.ts:65-104); the simulator's status `standby` is unreachable, since a load
is never below 0.3 kW (mock-inverter-server/src/state.ts:216-223).

## Model

| member | source | states |
|---|---|---|
| Calendar.FormulaCountsDays | src/modules/reports/reports.service.ts:711-723 | the day number of a year, counted year by year with leap years, is the closed formula of ECMA-262 that the dates rely on |
| Calendar.SetDateShifts | src/modules/reports/reports.service.ts:714-717 | setting a date to its day of month plus k moves exactly k days, across months and years |
| Calendar.MonthOfDay | src/modules/reports/reports.service.ts:720-723 | a day has year y and month m if and only if it lies between the first of m and the first of m + 1, December and leap years included |
| Calendar.MonthLengths | src/modules/reports/reports.service.ts:720-723 | from the first of a month to the first of the next lie 31, 30, 28 or, in a leap February, 29 days, by the civil list of months |
| Calendar.DateNamesDay | src/modules/reports/reports.service.ts:714-717 | year, month and date of a day name that day, and the date is one that its month has |
| Calendar.WeekDaysCycle | src/modules/reports/reports.service.ts:710-714 | weekdays follow each other in a cycle of seven that has 1970-01-01 on a Thursday |
| PeriodRange.JsDate.SetDate | src/modules/reports/reports.service.ts:714-717 | the date is replaced with rollover and the local time of day kept |
| PeriodRange.JsDate.SetHoursZero | src/modules/reports/reports.service.ts:715 | the instant becomes the local midnight of its own day |
| PeriodRange.ReportPeriodRange | src/modules/reports/reports.service.ts:695-731 | the reports copy, stepping back by the Sunday-based weekday, returns the Monday-to-Monday week or the month of its date, and throws on any other period |
| PeriodRange.ChartPeriodRange | src/modules/inverters-metrics/inverters-metrics.service.ts:1340-1403 | the metrics copy returns the day, week or month of its date, and the last 24 hours otherwise |
| PeriodRange.CopiesAgree | src/modules/inverters-metrics/inverters-metrics.service.ts:1370-1391 | run on the same date, the two copies return the same week or month, which holds the date |
| PeriodRange.WeekShape | src/modules/reports/reports.service.ts:709-718 | a weekly range holds its instant, starts on a Monday at local midnight and lasts seven days |
| PeriodRange.WeekMembers | src/modules/reports/reports.service.ts:709-718 | an instant lies in t's week if and only if both have the same Monday |
| PeriodRange.MonthMembers | src/modules/reports/reports.service.ts:720-724 | an instant lies in t's monthly range if and only if it has t's local year and month |
| PeriodRange.MonthShape | src/modules/reports/reports.service.ts:720-724 | a monthly range starts at local midnight on a first and lasts as many days as that month has |
| PeriodRange.DayShape | src/modules/inverters-metrics/inverters-metrics.service.ts:1359-1366 | a daily range holds its instant, starts at local midnight and lasts 24 hours |
| PeriodRange.ChartMembers | src/modules/inverters-metrics/inverters-metrics.service.ts:1340-1403 | what a chart shows: the same civil date, the same Monday, the same year and month, or the 24 hours just past |
| PeriodRange.RangesPartition | src/modules/reports/reports.service.ts:695-731 | each instant lies in its own range, and two ranges of one kind are equal or disjoint |
| PeriodRange.RangesAbut | src/modules/reports/reports.service.ts:695-731 | the range that begins where another ends starts exactly there, through leap Februaries and December |
| PeriodRange.LaterRange | src/modules/reports/reports.service.ts:671-693 | an instant after a range's end lies in a range starting no earlier, and in the adjacent one if and only if it comes before that one ends |
| ReportTable.ReportModelAction.Create | src/modules/reports/entities/report.entity.ts:12-13 | a row is inserted exactly when no row has its series and occurrence |
| ReportTable.ReportModelAction.UpdateReport | src/modules/reports/action/report.action.ts:79-96 | status and metrics are written whatever the status was; the delivery date only when one is given |
| ReportTable.ReportModelAction.UpdateReportStatusUnconditional | src/modules/reports/action/report.action.ts:98-103 | the status is written whatever it was |
| ReportTable.ReportModelAction.UpdateReportStatus | src/modules/reports/action/report.action.ts:105-119 | the status changes, and the caller is told so, exactly when the row was PENDING |
| ReportTable.ReportModelAction.ResetStalledProcessingReports | src/modules/reports/action/report.action.ts:121-138 | row by row: those PROCESSING since before the threshold become PENDING, all others stay, and the number of the former is returned |
| ReportWorker.ComputeWorker.Step | src/modules/reports/reports.processor.ts:49-138 | each segment of the handler between two awaits does to the table and to its own progress what the machine's step does: guard, claim, compute, write back, chain, retry or fail |
| ReportLifecycle.StepKeeps | src/modules/reports/reports.processor.ts:49-138 | every step of any worker, user or crash, and every timely cron run, keeps: no two live claimants of a report, claims only on PROCESSING rows, no job before its period ends, series linked backwards; and no terminal row is written |
| ReportLifecycle.CronKeepsExactly | src/modules/reports/reports.cron.ts:7-31 | a cron run keeps the invariant if and only if every live claim is at most 30 minutes old |
| ReportLifecycle.RunKeepsExactly | src/modules/reports/reports.cron.ts:21-31 | over a whole run the invariant holds in every state if and only if every cron run finds the live claims within its threshold |
| ReportLifecycle.TerminalForever | src/modules/reports/action/report.action.ts:79-138 | in such runs READY, FAILED and CANCELLED rows are never written again, in any column |
| ReportLifecycle.WinnerKinds | src/modules/reports/reports.processor.ts:61-75 | only a worker's claim or a user's cancellation takes a report out of PENDING |
| ReportLifecycle.OneWinnerPerEpoch | src/modules/reports/action/report.action.ts:105-119 | a report won twice was first won by a worker, and by the second win nobody holds a claim on it: one winner for each PENDING epoch |
| ReportLifecycle.ClaimIsCurrent | src/modules/reports/reports.processor.ts:61-88 | a live claim was won by its own worker, and the report has been PROCESSING in its hands ever since |
| ReportSeries.SeriesNumbered | src/modules/reports/reports.processor.ts:90-113 | in every state of every run, however late the cron finds a worker, the occurrences of a recurring series are exactly 1..n, one report each; each next period starts at or after the previous one's end, and right there if and only if the next reference date lies within one period of that end |
| ReportSeries.ReadyExactly | src/modules/reports/action/report.action.ts:79-138 | a report is READY if and only if READY was written to it and no failure since, and its delivery date is that of the last READY |
| ReportResults.DeliveredExactly | src/modules/reports/reports.processor.ts:76-88 | in any run a READY report holds metrics x if and only if the worker that last wrote it READY had itself computed x since its claim, and its delivery date is the instant of that computation |
| ReportResults.FailedHolds | src/modules/reports/reports.processor.ts:114-132 | in any run a FAILED report's last result is a failure on a last attempt, and it holds the metrics that the failing worker had read at its start |
| ReportResults.EndsExactly | src/modules/reports/reports.processor.ts:54-75 | a worker throws, for another attempt, exactly when its report is not PENDING at its first read or after dealing with a failure, and ends quietly exactly when it loses the claim or has been through with chaining |
| ReportResults.FailsExactly | src/modules/reports/reports.processor.ts:114-121 | a worker comes to deal with a failure exactly when its computation or its write of READY fails |
| ReportResults.ChainsExactly | src/modules/reports/reports.service.ts:164-188 | a worker that has delivered chains a successor exactly when its report is periodic, recurring and numbered in a series without the next occurrence; the successor is PENDING, empty, and refers to the delivery |
| ReportResults.ChangesAreStamped | src/modules/reports/action/report.action.ts:79-138 | whatever changes a row stamps it with the instant of the change |
| ReportResults.WhoIsLeft | src/modules/reports/reports.processor.ts:49-138 | creators, jobs and workers come and go only by queueing or failing, by removal, and by ending or crashing |
| ReportResults.BornWithCreator | src/modules/reports/reports.service.ts:164-202 | every new row has a creator that is to queue its job |
| ReportResults.JobAvailable | src/modules/reports/reports.service.ts:190-202 | the queued job can be started from the report's due time on, at once if that has passed, and not before |
| ReportResults.DueExactly | src/modules/reports/reports.service.ts:671-693 | a custom report is due at its end date, a periodic one at the first instant after the period of its reference date |
| ReportSeries.PredecessorExactly | src/modules/reports/reports.processor.ts:90-137 | in any run an occurrence with a successor is READY if and only if the last result written to it is not a failure, and was delivered at the successor's reference date if and only if the last READY was |
| ReportSeries.PredecessorReady | src/modules/reports/reports.processor.ts:79-137 | if no worker whose claim the cron has reset writes a result to it, an occurrence with a successor is READY and was delivered at the successor's reference date |
| ReportSeries.TerminalUntilStaleWrite | src/modules/reports/action/report.action.ts:79-138 | in any run, as long as no worker whose claim the cron has reset writes a result to a report, that report is never written again once it is READY, FAILED or CANCELLED, whatever is reset or written elsewhere |
| ReportSeries.SeriesComplete | src/modules/reports/reports.processor.ts:90-113 | in timely runs a series is numbered 1..n, all but the last are READY, and each was delivered at the next one's reference date |
| ReportSeries.StaleFailureSpoilsSeries | src/modules/reports/reports.processor.ts:114-137 | a run from the empty system exists in which a worker whose claim the cron has reset writes its failure after a second worker has delivered and chained: occurrence 1 ends FAILED although occurrence 2 exists |
| ReportRecovery.AbandonedForever | src/modules/reports/reports.cron.ts:21-31 | an unfinished report with no job, no creator, and no worker but those that have delivered never becomes READY or FAILED, however often the cron runs |
| ReportRecovery.AbandonedExactly | src/modules/reports/reports.processor.ts:49-138 | in every state of every run, timely or not, a PENDING or PROCESSING report has a continuation that makes it READY or FAILED if and only if a job, a creator, or a worker that has not delivered yet is left for it |
| ReportRecovery.DeliveredWorkerIsNoHelp | src/modules/reports/reports.processor.ts:90-137 | a run from the empty system exists in which a worker that has delivered is left for a PENDING report, yet no continuation finishes it |
| ReportRecovery.CrashAbandons | src/modules/reports/reports.cron.ts:15-31 | a timely run exists in which a crash after the claim and the cron's reset leave a PENDING report nobody can finish |
| ReportLifecycle.SlowWorkerOverwritesCancel | src/modules/reports/action/report.action.ts:79-96 | a run exists in which a worker slower than the threshold turns a CANCELLED report READY |
| ReportJob.NextConsistent | src/modules/reports/reports.processor.ts:54-137 | each segment of a job, and each cancellation, keeps status, attempts and failed computations in agreement, and each segment gets the job nearer its end |
| ReportJob.JobSettles | src/modules/reports/reports.processor.ts:114-137 | within 18 segments a job with three attempts is over with its report READY, FAILED or CANCELLED, and FAILED if and only if all three computations ran and failed |
| ShareLinks.UploadedReportModelAction.UpsertUploadedReport | src/modules/reports/action/uploaded-report.action.ts:34-89 | on commit the row names the new file and keeps its old delete job; on failure it is unchanged; the row found under the lock is returned |
| ShareLinks.UploadedReportModelAction.DeleteNaming | src/modules/reports/reports.service.ts:802-805 | the row goes exactly when it names the given public id |
| ShareLinks.UploadedReportModelAction.RecordDeleteJob | src/modules/reports/reports.service.ts:607-615 | the job id is recorded exactly when the row still has the upload's token |
| ShareService.UploadRun.Upload | src/modules/reports/reports.service.ts:544-557 | the remote file appears under a fresh public id and the link's expiry is fixed, or the run ends: the machine's step |
| ShareService.UploadRun.Save | src/modules/reports/reports.service.ts:559-573 | the row names the new file with the expiry fixed before, and the replaced row is kept; on failure the catch block follows: the machine's step |
| ShareService.UploadRun.DropJob | src/modules/reports/reports.service.ts:575-581 | the replaced row's delete job leaves the queue if it can: the machine's step |
| ShareService.UploadRun.DestroyOld | src/modules/reports/reports.service.ts:583-586 | the replaced file goes when it is another one and the remote delete succeeds: the machine's step |
| ShareService.UploadRun.QueueDelete | src/modules/reports/reports.service.ts:588-605 | a delete job for the link's expiry, or at once when that has passed, joins the queue; on failure the catch block follows: the machine's step |
| ShareService.UploadRun.RecordJob | src/modules/reports/reports.service.ts:607-618 | the job id is written to the row exactly when the job is delayed: the machine's step |
| ShareService.UploadRun.Undo | src/modules/reports/reports.service.ts:619-630 | the catch block deletes the uploaded file, whether or not the row names it: the machine's step |
| ShareService.DeletionRun.Expire | src/modules/reports/reports.service.ts:474-488 | a visit goes on to the deletion only when the link it read has expired: the machine's step |
| ShareService.DeletionRun.Check | src/modules/reports/reports.service.ts:792-796 | a deletion stops unless the row names its public id: the machine's step |
| ShareService.DeletionRun.Destroy | src/modules/reports/reports.service.ts:798-801 | the remote file goes, or the deletion stops when the remote delete fails: the machine's step |
| ShareService.DeletionRun.Clear | src/modules/reports/reports.service.ts:802-806 | the row goes if it still names the public id: the machine's step |
| ShareLinks.StepKeeps | src/modules/reports/reports.service.ts:517-631 | every step of uploads, deletions, visits and delete jobs, failing or not, keeps each remote file accounted for, each file with one owner, and each deletion no earlier than its link's expiry |
| ShareLinks.RunKeeps | src/modules/reports/reports.service.ts:517-631 | so every state of every run |
| ShareLinks.OnlyItsDeletionRemovesALink | src/modules/reports/reports.service.ts:787-807 | a row is only ever removed by a deletion carrying the public id it names, at or after the link's expiry: a stale job never removes a newer link |
| ShareLinkRuns.BrokenExactly | src/modules/reports/reports.service.ts:619-624 | a saved file has gone without its row if and only if its upload failed after committing and its catch block deleted the file, or a deletion stopped between its two writes |
| ShareLinkRuns.LiveLinkHasItsFile | src/modules/reports/reports.service.ts:588-624 | an unexpired link lacks its file if and only if queueing or recording its delete job failed after its commit and the catch block's delete succeeded |
| ShareLinkRuns.QuietAccounts | src/modules/reports/reports.service.ts:583-586 | with nothing in flight the remote files are the row's file, unless it was lost, and those a failed delete or a crash left behind |
| ShareLinkRuns.RowNamesTheOnlyFile | src/modules/reports/reports.service.ts:517-631 | if the uploads' remote deletes succeed and no upload is cut off, then once nothing is in flight the row names the report's only remote file, unless that row lost its file; without a row there is no file |
| ShareLinkRuns.CompletedUpload | src/modules/reports/reports.service.ts:517-631 | after an upload has committed, and while no other upload commits and no deletion of its public id makes its last write, the row names that id; with nothing in flight, no failed remote delete and no upload cut off, its file is the only one, unless it was lost |
| ShareLinkJobs.JobQueued | src/modules/reports/reports.service.ts:588-605 | an upload queues a delete job for the link's public id, due at the link's expiry or at once when that has passed |
| ShareLinkJobs.JobStays | src/modules/reports/reports.service.ts:588-605 | in any run a queued job stays as it was queued until it is done or an upload that replaces its link drops it |
| ShareLinkJobs.JobOrigin | src/modules/reports/reports.service.ts:588-605 | and every job in the queue was queued by an upload and not taken since |
| ShareLinkJobs.DueJobDeletesLink | src/modules/reports/reports.service.ts:787-807 | from its expiry on, a link whose job was queued and not taken since is deleted by that job, row and file, if the row still names it and the remote delete succeeds |
| ShareLinkJobs.DeletionEnds | src/modules/reports/reports.service.ts:787-807 | a deletion run to its end takes the row and the file if the row names its public id, and changes nothing if not |
| ShareLinkJobs.JobFires | src/modules/reports/reports.processor.ts:39-40 | a job starts its deletion once due and not before |
| ShareLinkJobs.VisitDeletesExpired | src/modules/reports/reports.service.ts:474-488 | a visit to an expired link deletes it the same way, and one before that changes nothing |
| ShareLinkJobs.UploadEndsExactly | src/modules/reports/reports.service.ts:540-630 | an upload ends exactly when its upload fails, its catch block is through, its job is recorded or needs no recording, or it is cut off |
| ShareLinkJobs.RecordedExactly | src/modules/reports/action/uploaded-report.action.ts:34-89 | the row has the id of a delete job if and only if that was the last one written to it since the row has been there; uploads that replace the link keep it |
| ShareLinkJobs.ReplacedJobDropped | src/modules/reports/reports.service.ts:575-581 | an upload that replaces a row takes that row's delete job, and no other, out of the queue |
| ShareLinkJobs.RowOrigin | src/modules/reports/reports.service.ts:540-573 | in any run a row names the file of one upload and the token saved with it, and expires seven days after that upload |
| ShareLinkRuns.QueueFailureBreaksTheLink | src/modules/reports/reports.service.ts:619-624 | a run from the empty state exists in which queueing the delete job fails after the commit and leaves a live row without its file |
| Sessions.SessionRow.constructor | src/modules/users/users.service.ts:92-108 | a new session is active, has no hash and expires seven days from the request |
| Sessions.SessionRow.SetRefreshTokenHash | src/modules/users/users.service.ts:228-246 | a hash extends the session by seven days without a cap; null deactivates it |
| Sessions.SessionRow.CompareAndSwapRefreshTokenHash | src/modules/users/actions/sessions.action.ts:24-63 | the row changes, to the new hash and the capped expiry, exactly when hash, activity and both expiries match |
| Sessions.SessionRow.DeactivateSession | src/modules/users/users.service.ts:267-278 | the session becomes inactive and loses its hash |
| Sessions.ValidateSession | src/modules/users/users.service.ts:117-146 | a session is accepted if and only if it is active and past neither expiry, and is written off exactly when active and past one |
| Sessions.SwapAgainstValidate | src/modules/users/actions/sessions.action.ts:47-59 | a matching swap is accepted by validateSession at the same instant; the converse fails exactly at the two expiry boundaries, for a null expiry, or for another hash |
| Sessions.RunKeeps | src/modules/auth/auth.service.ts:441-490 | in every interleaving of SELECTs, decisions, swaps on their way, expiry writes and logouts the chain of swaps is intact and every expiry bounded |
| Sessions.SwapsFormOneChain | src/modules/auth/auth.service.ts:469-478 | the successful swaps form one chain from the issued token to the stored hash, and no token is consumed twice |
| Sessions.RefreshWinsOrChangesNothing | src/modules/users/actions/sessions.action.ts:33-62 | a refresh wins only if sent before the 30-day cap, and leaves an expiry after that instant, not earlier than before and within the cap; or it changes nothing in the row |
| Sessions.LandsExactly | src/modules/users/actions/sessions.action.ts:47-62 | a refresh wins if and only if the row still holds the token it read, is active, and had neither expired nor reached 30 days when the refresh was sent |
| Sessions.IssuesExactly | src/modules/users/users.service.ts:228-246 | the token is issued once, if it comes within 23 days of the creation, and lasts seven days |
| Sessions.LogoutClearsHash | src/modules/users/users.service.ts:267-278 | in any run, from a logout on the row is inactive and has no hash |
| Sessions.NullHashEndsSession | src/modules/users/users.service.ts:228-246 | storing no hash ends a session for good: no check accepts it and no swap matches it at any time |
| Sessions.LastActivity | src/modules/users/users.service.ts:236-240 | the row's last activity is that of the last issue, logout or landed swap, a swap counting from when it was sent |
| Sessions.ExpiryWithinCap | src/modules/users/actions/sessions.action.ts:30-46 | the expiry never passes 30 days from creation, given that issuing follows creation |
| Sessions.IssueWithinCap | src/modules/users/users.service.ts:239-241 | issuing alone keeps the cap if and only if it comes within 23 days of the creation |
| Sessions.JudgedBySnapshot | src/modules/users/users.service.ts:110-146 | a request is judged by the row at its SELECT and the clock at its decision, exactly |
| Sessions.DeactivatedForever | src/modules/users/actions/sessions.action.ts:47-59 | once inactive a session stays so, and no swap succeeds any more, not even one read or sent before |
| Sessions.FetchedAfterIsRefused | src/modules/auth/strategies/jwt.strategy.ts:32-56 | after a deactivation every request that reads the row is refused, and an access check is granted only if it read the row before |
| Sessions.StaleGrant | src/modules/auth/strategies/jwt.strategy.ts:40 | a run exists in which a check that read the row before a logout is granted after it |
| Sessions.ExpiryWriteEndsLiveSession | src/modules/users/users.service.ts:121-143 | an expiry write ends a session that is still acceptable if and only if a swap landed since its row was read, nothing ended the session since, and the write comes within the expiry of the last such swap |
| Sessions.RefreshedSessionEnded | src/modules/users/users.service.ts:110-143 | a run exists in which a session refreshed just in time is deactivated that way |
| PubSub.MetricsPubSub.Subscribe | src/modules/metrics-stream/pubsub/metrics-pubsub.service.ts:74-83 | up to its await: the first subscriber makes an empty entry and sends one command, any other joins at once |
| PubSub.MetricsPubSub.Resume | src/modules/metrics-stream/pubsub/metrics-pubsub.service.ts:80-82 | after its await the callback joins the entry if there is one, and the call throws if not |
| PubSub.MetricsPubSub.Unsubscribe | src/modules/metrics-stream/pubsub/metrics-pubsub.service.ts:85-97 | the callback goes, and with the last one the entry goes and one command is sent |
| PubSub.ReplayAppend | src/modules/metrics-stream/pubsub/metrics-pubsub.service.ts:74-97 | a command sent last takes effect last on the server |
| PubSub.ServerCatchesUp | src/modules/metrics-stream/pubsub/metrics-pubsub.service.ts:74-124 | in every state of every run, replaying the pending commands over the server's channels gives exactly the map's keys |
| PubSub.EmptyMeansPending | src/modules/metrics-stream/pubsub/metrics-pubsub.service.ts:78-82 | an entry is empty only while the call that created it is pending |
| PubSub.SettledInStep | src/modules/metrics-stream/pubsub/metrics-pubsub.service.ts:74-124 | with nothing pending the server listens to exactly the channels with callbacks |
| PubSub.ResumeMisses | src/modules/metrics-stream/pubsub/metrics-pubsub.service.ts:80-94 | a resuming subscribe finds no entry if and only if an unsubscribe emptied the channel since and nothing created it again |
| PubSub.SubscribeMissesItsEntry | src/modules/metrics-stream/pubsub/metrics-pubsub.service.ts:74-97 | a run exists in which a first subscriber's resume misses the entry it created |
| PubSub.RegisteredUntilUnsubscribed | src/modules/metrics-stream/pubsub/metrics-pubsub.service.ts:85-97 | a registered callback stays registered until it is itself unsubscribed |
| PubSub.RegisteredExactly | src/modules/metrics-stream/pubsub/metrics-pubsub.service.ts:74-97 | in every run a callback is registered if and only if a subscribe that found the entry, or the return of one that had created it and still finds it, registered it, and it has not been unsubscribed since |
| PubSub.PendingOrigin | src/modules/metrics-stream/pubsub/metrics-pubsub.service.ts:78-82 | a waiting call is that of a subscribe which found no entry, for the channel and callback it named |
| PubSub.AllAnswered | src/modules/metrics-stream/pubsub/metrics-pubsub.service.ts:80 | once the server has run every command, each waiting call may return |
| PubSub.ReturnsOnce | src/modules/metrics-stream/pubsub/metrics-pubsub.service.ts:80-82 | a waiting call waits until its answer has come and it returns, once |
| QuietHours.ConvertToUTC | src/modules/alerts/helpers/quiet-hours.ts:15-26 | the result is a well-formed time, the local minute minus the offset modulo 1440, for JavaScript's remainder too |
| QuietHours.ConvertRoundTrip | src/modules/alerts/helpers/quiet-hours.ts:15-26 | converting by an offset and then by its opposite returns the original string |
| QuietHours.ZoneAhead | src/modules/alerts/helpers/quiet-hours.ts:15-26 | an offset of "+t" takes local t to 00:00, and "-t" takes 00:00 to t |
| QuietHours.MinutesOfClock | src/modules/alerts/helpers/quiet-hours.ts:15-20 | the written time h:m is minute 60 h + m |
| QuietHours.WithinIsArc | src/modules/alerts/helpers/quiet-hours.ts:42-67 | for distinct ends the branches test membership in one arc of the 1440-minute circle |
| QuietHours.ConvertedWindow | src/modules/alerts/helpers/quiet-hours.ts:15-67 | testing UTC time against the converted window is testing local time against the local arc, for every offset |
| QuietHours.SentinelAfterConversion | src/modules/alerts/helpers/quiet-hours.ts:55-58 | with equal ends, the exact offsets at which the always-quiet sentinel survives, is lost, or is falsely created |
| QuietHours.DeferredToFirstAudibleInstant | src/modules/alerts/jobs/alert-detection.job.ts:334-345 | the delay is positive and at most the window, everything until then is quiet, and that instant is not |
| QuietHours.QuietEndIsNext | src/modules/alerts/jobs/alert-detection.job.ts:334-345 | for any window the delivery instant lies ahead, within a day, on the window's end minute |
| AlertPipeline.AlertStore.SaveAndDispatch | src/modules/alerts/jobs/alert-detection.job.ts:264-368 | a duplicate or a failing save changes nothing; otherwise one alert is saved and, unless the queue add fails and leaves it without a job, one job queued, deferred exactly when a non-critical alert falls in the user's quiet hours |
| AlertPipeline.DuplicateExactly | src/modules/alerts/helpers/duplicate-suppression.ts:41-104 | an alert is a duplicate if and only if there is a latest alert, no less severe in the order LOW, MEDIUM, HIGH, WARNING, CRITICAL, that lies within a positive cooldown or is unresolved |
| AlertPipeline.DefersExactly | src/modules/alerts/jobs/alert-detection.job.ts:297-306 | delivery waits if and only if the alert is not critical and the local time of day lies in the user's window |
| AlertPipeline.DeferredDelivery | src/modules/alerts/jobs/alert-detection.job.ts:297-358 | the deferred job fires at the first instant outside the user's own quiet hours, after a positive delay no longer than the local window |
| AlertRuns.ConsecutiveAlertsSpaced | src/modules/alerts/helpers/duplicate-suppression.ts:41-87 | in every interleaving in which no alert is saved between an evaluation's own SELECT and INSERT, consecutive alerts rise in severity, or are a cooldown apart with the earlier one having been resolved |
| AlertRuns.SpacedExactly | src/modules/alerts/jobs/alert-detection.job.ts:285-323 | in every run all alerts are so spaced if and only if none is saved in the middle of the evaluation that saves the next, that next one being no more severe and saved within a cooldown of it or before any resolution of it |
| AlertRuns.ResolvedExactly | src/modules/alerts/jobs/alert-dispatch.processor.ts:60-163 | dispatchers, which save the whole alert they read, may take a resolution back but never make one up: an alert has been resolved if and only if somebody resolved it since it was saved |
| AlertRuns.RanksRise | src/modules/alerts/helpers/duplicate-suppression.ts:93-104 | within a cooldown the i-th later alert is at least i ranks more severe |
| AlertRuns.WindowHoldsFew | src/modules/alerts/helpers/duplicate-suppression.ts:41-104 | in any run without such a clash a half-open window of cooldown length holds at most five alerts, and at most two when only WARNING and CRITICAL occur |
| AlertRuns.Origin | src/modules/alerts/jobs/alert-detection.job.ts:285-323 | an evaluation about to save read the table at its own SELECT and found no duplicate there at some instant since |
| AlertRuns.DroppedExactly | src/modules/alerts/helpers/duplicate-suppression.ts:41-87 | in any run an evaluation is dropped if and only if the alert it read at its SELECT is no less severe than its own and lies within the cooldown or was unresolved there; else it goes on to save |
| AlertRuns.SavesExactly | src/modules/alerts/jobs/alert-detection.job.ts:308-323 | a step saves an alert if and only if it is the successful save of an evaluation that has passed, and saves that evaluation's severity |
| AlertRuns.WriteRestores | src/modules/alerts/jobs/alert-dispatch.processor.ts:63-158 | a dispatcher's save brings back the resolution its alert had when it was read, whatever has happened since |
| AlertRuns.OverlapDefeatsSuppression | src/modules/alerts/jobs/alert-detection.job.ts:94 | for every n a run exists in which n overlapping evaluations save n equal alerts at one instant |
| Depletion.PredictionIsEnergyBalance | src/modules/alerts/helpers/depletion-engine.ts:81-120 | while draining, the net load over the predicted minutes is the energy above the threshold, within half a hundredth of a minute |
| Depletion.NetLoadExactly | src/modules/alerts/helpers/depletion-engine.ts:81-84 | the net load is what the load exceeds the solar output by, each counting from zero |
| Depletion.AlarmDecision | src/modules/alerts/helpers/alert-thresholds.ts:27-62 | over all inputs: no alert exactly when nothing drains, the capacity is below the meaningful minimum, or the rounded estimate exceeds an hour; critical exactly below half an hour, a warning exactly in between; an empty or exhausted battery under load has 0 minutes |
| Simulator.Device.Generate | mock-inverter-server/src/state.ts:168-191 | an expired override ends; then solar stays within the panel, the load within 0.3 and 4 kW, and under forced discharge the load exceeds the solar output by at least 2.5 kW |
| Simulator.Device.Tick | mock-inverter-server/src/state.ts:167-223 | one device's tick: expiry of the override, solar and load by mode, charge, derived values and status |
| Simulator.MockServer.Tick | mock-inverter-server/src/state.ts:159-225 | a tick advances every device, each by its own noise and the same time and sun |
| Simulator.MockServer.SetDeviceMode | mock-inverter-server/src/state.ts:254-272 | exactly the first device with the id changes, only in mode and expiry; an unknown id changes nothing |
| Simulator.SafeDuration | mock-inverter-server/src/state.ts:242-267 | whatever duration is passed, the override lasts more than 0 and at most 480 minutes |
| Simulator.TickKeepsRanges | mock-inverter-server/src/state.ts:186-223 | a tick keeps every reading in its physical range, the status a fault exactly below 5 % and never standby |
| Simulator.RunKeeps | mock-inverter-server/src/state.ts:159-272 | every state of every run of ticks and overrides is in range, non-normal exactly while an expiry is set, and that at most 480 minutes ahead |
| Simulator.SeedsInRange | mock-inverter-server/src/state.ts:48-113 | the three seeded devices start in range |
| SimulatorModes.OverrideExactly | mock-inverter-server/src/state.ts:167-172 | in any run an override holds until a tick comes at or past its last minute, and from then on the device is back to normal; the minutes are those asked for, at most 480, or 60 |
| SimulatorModes.NormalStays | mock-inverter-server/src/state.ts:262-264 | setting the normal mode ends an override, and no tick starts one |
| SimulatorModes.NoneOutlastsItsExpiry | mock-inverter-server/src/state.ts:167-172 | no tick at or past its expiry leaves a device in a forced mode |
| SimulatorModes.ModeLevels | mock-inverter-server/src/state.ts:177-190 | up to the noise, charging runs at 95 % of the panel and 0.8 kW of load, discharging at no solar and 3.2 kW, normal at the sun's share of the panel and 1.5 kW |
| SimulatorModes.ReadingsFollow | mock-inverter-server/src/state.ts:195-213 | the voltage follows the charge from 44 to 58 V, the grid stays about 230 V and 50 Hz, temperatures drift, the current carries the net power within 60 A |
| BatteryPrediction.StepEnergy | mock-inverter-server/src/state.ts:196-200 | a tick takes exactly its draw from the stored energy, except where the charge stops at 0 or 100 |
| BatteryPrediction.FirstReachIsPredicted | src/modules/alerts/helpers/depletion-engine.ts:81-120 | if every tick draws between two net loads, the charge first reaches the threshold no sooner than the estimate at the larger less 0.005 minutes and no later than the one at the smaller plus 0.505 |
| BatteryPrediction.ThresholdIsReached | src/modules/alerts/helpers/depletion-engine.ts:107-114 | after more ticks than the estimate at the smallest draw the charge is at or below the threshold |
| BatteryPrediction.NoAlertMeansAnHour | src/modules/alerts/helpers/alert-thresholds.ts:27-62 | no alert on a draining battery means 59.5 minutes above the threshold as long as the draw does not grow |
| BatteryPrediction.CriticalMeansHalfAnHour | src/modules/alerts/helpers/alert-thresholds.ts:35-51 | a critical alert means the threshold is reached within 30.5 minutes as long as the draw does not shrink |
| BatteryPrediction.TimeToGoAgrees | mock-inverter-server/src/state.ts:145-149 | after any tick that drew power the device's own time to go is the depletion estimate down to 0 %, within 0.505 minutes |
| BatteryPrediction.ForcedDischargeEmpties | mock-inverter-server/src/state.ts:179-200 | under forced discharge the charge strictly falls until 0 and is 0 after soc * capacity * 0.48 ticks, rounded up |
| BatteryPrediction.ForcedChargeFills | mock-inverter-server/src/state.ts:177-200 | under forced charging with 95 % of the panel above 1.05 kW the charge rises at every tick until it is 100 |
| BatteryPrediction.ForcedDischargeIsPredicted | mock-inverter-server/src/state.ts:179-200 | under forced discharge the charge first reaches any threshold between the estimates at 4 and 2.5 kW, with the same margins |
| Poller.MetricsPoller.HandleRegistered | src/modules/metrics-stream/poller/metrics-poller.service.ts:138-161 | after the read, an unknown inverter or one already in its brand's array changes nothing; any other is appended there |
| Poller.MetricsPoller.HandleDeregistered | src/modules/metrics-stream/poller/metrics-poller.service.ts:163-180 | the first array holding the id loses it, and its failure count goes exactly then |
| Poller.MetricsPoller.PollOne | src/modules/metrics-stream/poller/metrics-poller.service.ts:247-284 | one poll of one inverter: a failed decryption changes nothing, a fetch resets, a failure counts, and from the third on marks offline and begins a check |
| Poller.OfflineCheck.Look | src/modules/metrics-stream/poller/metrics-poller.service.ts:471-490 | the check goes on exactly when the user's latest alert is at least 60 minutes older than the check's instant |
| Poller.OfflineCheck.Store | src/modules/metrics-stream/poller/metrics-poller.service.ts:494-531 | the alert is saved, or the failure is swallowed |
| Poller.AlertTable.FindLatest | src/modules/metrics-stream/poller/metrics-poller.service.ts:475-481 | the newest alert of the user is found, if there is one |
| Poller.TrackedExactly | src/modules/metrics-stream/poller/metrics-poller.service.ts:73-198 | from whatever was loaded at startup, in every interleaving of messages and reads, failing or not, an inverter is tracked at most once, and if and only if a read for it has succeeded since its last deregistration (or it was loaded and never deregistered), it has a row, and its brand is polled (DEYE is not) |
| Poller.TrackedAsLastTold | src/modules/metrics-stream/poller/metrics-poller.service.ts:73-180 | for an inverter with a row and a polled brand, from whatever was loaded and with no read for it in flight: it is tracked as last told if and only if neither its last message deregistered it during reads of which one then succeeded, nor its last message registered it and, since its last deregistration, reads for it have failed and none succeeded |
| Poller.TrackedUnlessOvertaken | src/modules/metrics-stream/poller/metrics-poller.service.ts:110-180 | as long as no read fails, such an inverter is tracked as last told if and only if its last message did not deregister it during a read |
| Poller.OvertakenRegistration | src/modules/metrics-stream/poller/metrics-poller.service.ts:133-157 | a run exists in which an inverter deregistered during the read ends up tracked |
| Poller.LostRegistration | src/modules/metrics-stream/poller/metrics-poller.service.ts:133-136 | a run exists in which the read of a registration fails and the inverter stays untracked although registered last |
| PollRuns.CountIsTrailingRun | src/modules/metrics-stream/poller/metrics-poller.service.ts:247-284 | in every interleaving the count is the trailing run of fetch failures, plus one exactly when the online mark failed at the last fetch |
| PollRuns.OfflineExactly | src/modules/metrics-stream/poller/metrics-poller.service.ts:266-281 | marks failing or not, an inverter is offline if and only if, since it was last marked online, a fetch failure that found a count of two or more was marked |
| PollRuns.OfflineAfterThree | src/modules/metrics-stream/poller/metrics-poller.service.ts:268-281 | while no mark fails, an inverter is offline if and only if its trailing run of fetch failures is at least three |
| PollRuns.AlertsAnHourApart | src/modules/metrics-stream/poller/metrics-poller.service.ts:466-490 | if no alert of this user is saved between the SELECT and the INSERT of one of the user's own checks, the user's offline alerts are at least 60 minutes apart, whatever else runs |
| PollRuns.ApartExactly | src/modules/metrics-stream/poller/metrics-poller.service.ts:471-525 | in every run, a user's consecutive offline alerts are at least 60 minutes apart if and only if no check of the user saves within an hour after an alert that was saved between its own SELECT and INSERT |
| PollRuns.SweepAlertsTwice | src/modules/metrics-stream/poller/metrics-poller.service.ts:197-227 | a run exists in which two inverters of one user fail a third time in one sweep and the user gets two alerts at one instant |
| PollRuns.OutageAlerts | src/modules/metrics-stream/poller/metrics-poller.service.ts:466-490 | under that condition any stretch of length d holds at most 1 + floor(d / 60 min) offline alerts of the user |
| PollRuns.FiresExactly | src/modules/metrics-stream/poller/metrics-poller.service.ts:268-281 | a poll begins a check if and only if it is a marked fetch failure that brings the count to three or more, and the inverter is offline then |
| PollRuns.OfflineMeansAlerted | src/modules/metrics-stream/poller/metrics-poller.service.ts:471-531 | once the check of such a poll is over, unless its save failed, the user has an alert created less than 60 minutes before the poll, or later |
| PollRuns.CheckEndsExactly | src/modules/metrics-stream/poller/metrics-poller.service.ts:471-531 | a check is over if and only if it has found a recent alert or has tried to save its own |
| Savings.HourDecides | src/modules/inverters-metrics/inverters-metrics.service.ts:1203-1219 | two instants of one local hour share their local day, week and month |
| Savings.BucketMembers | src/modules/inverters-metrics/inverters-metrics.service.ts:1203-1219 | two rows share a bucket if and only if they share the local hour, civil date, Monday, or year and month |
| Savings.GroupingConserves | src/modules/inverters-metrics/inverters-metrics.service.ts:894-945 | for any rows and any granularity, bucket energies add up to the ungrouped energy and per-bucket distinct hours to the distinct hours of the range |
| Savings.GroupedEnergy | src/modules/inverters-metrics/inverters-metrics.service.ts:894-919 | the buckets add up to the sum of the samples' power, each for its share of an hour |
| Savings.GroupingExists | src/modules/inverters-metrics/inverters-metrics.service.ts:894-919 | the grouped query has an answer for every set of rows |
| Savings.Summarise | src/modules/inverters-metrics/inverters-metrics.service.ts:921-961 | the loops over the answer compute its sums, the litres and naira they stand for, and the average over buckets with data |
| Savings.FuelForEnergy | src/modules/inverters-metrics/inverters-metrics.service.ts:1269-1273 | the litres saved would have fed the generator at its rated power for just that energy, and the naira are their price |
| Savings.DaysCounted | src/modules/inverters-metrics/inverters-metrics.service.ts:921-961 | the average is over the buckets with energy |
| Savings.LifetimeSavings | src/modules/inverters-metrics/inverters-metrics.service.ts:1082-1124 | the lifetime total is the sum of the rounded months, rounded once more |
| Savings.WholeKobo | src/modules/inverters-metrics/inverters-metrics.service.ts:1105-1124 | that sum is a whole number of hundredths, so the last rounding changes nothing |
| Savings.LifetimeWithin | src/modules/inverters-metrics/inverters-metrics.service.ts:1060-1124 | the lifetime total over n months is within 0.005 n naira of the exact saving on all the energy |
| Savings.CostAdds | src/modules/inverters-metrics/inverters-metrics.service.ts:1269-1273 | unrounded savings of two energies add up, also for a rated power that is not positive |
| Savings.HoursOfAdjacent | src/modules/inverters-metrics/inverters-metrics.service.ts:1232-1238 | distinct hours of two adjacent ranges add up if and only if no local hour has rows on both sides |
| Savings.AdjacentRangesAdd | src/modules/inverters-metrics/inverters-metrics.service.ts:1195-1273 | custom ranges that meet add up in energy and unrounded savings whatever granularity each is given, and in active hours if and only if no local hour straddles the meeting point |
| Savings.GranularityByLength | src/modules/inverters-metrics/inverters-metrics.service.ts:1196-1219 | a custom range goes by the hour up to two days, by the day up to twenty, by the week up to ninety, else by the month; an empty or reversed one is refused |
| Savings.WholeHourNotStraddled | src/modules/inverters-metrics/inverters-metrics.service.ts:1232-1238 | ranges that meet on a local hour are never straddled |
| Fuel.EstimateFuelConsumptionRate | src/modules/inverters-metrics/data/fuel.ts:94-110 | the search returns the first bracket reaching the power, or the rule of thumb beyond the table |
| Fuel.PetrolRates | src/modules/inverters-metrics/data/fuel.ts:68-110 | the litres per hour of a petrol generator by rated power, bracket by bracket and beyond the table |
| Fuel.DieselRates | src/modules/inverters-metrics/data/fuel.ts:77-110 | and of a diesel generator |
| Fuel.RateIsMonotone | src/modules/inverters-metrics/data/fuel.ts:68-110 | a larger generator never gets a smaller rate, also across the end of the table |

## Left out

- Controllers, DTO validation, guards, modules, configuration, migrations, seeders: wiring or one-branch checks.
- Brand adapters, mail, WhatsApp, push, Cloudinary, PDF, Redis and TypeORM internals: only success, failure and atomic row updates appear.
- Encryption, bcrypt and JWT signing: hashes are injective on fresh tokens; the access-token blacklist is not modelled, so a logged-out token is refused here only because its session is inactive. The strategy's own inactive-session check can never fire after `findSessionById`.
- Chatbot, prompts, LLM streaming, sockets: no decidable property.
- Delivery fallback, role ranks, team membership, health colours, solar and load thresholds, message texts: short branch tables.
- Dashboard and energy-usage SQL: those queries divide integer literals (20 / 600) and are not claimed to agree with the savings queries (20.0 / 600).
- Missing user settings in the savings queries: settings are present; rated power, consumption rate and price arrive as one tariff, and the rounding of the breakdown and of the other reply fields is not modelled.
- Alert report windows: they count days back from the reference date, not calendar periods.
- Report deletion: it is check-then-act against a worker, and the series runs exclude it.
- The re-read of a report after a successful compare-and-set: it is taken together with the update.
- Overflow of the smallint occurrence column, and reports whose dates are missing.
- A statement that raises has no effect in the model; one that raises after taking effect is not modelled.
- What the report service does before an upload (reading the report, rendering the PDF) and the order of jobs inside the queue.
- Quiet-hours strings that are not well-formed: the source computes with NaN there.
- Device-token swaps on sessions (atomicallySwapFid), and sessions other than the one at hand.
- Publishing and message delivery in the pub/sub service, reconnection, and failed (p)subscribe commands.
- Polls of one inverter that overlap, and a deregistration while such a poll is under way; rows that appear, vanish or change brand during the tracking runs; that a failing read there, which nothing awaits, may also end the process, depending on how Node treats unhandled rejections.
- Solar curve of the simulator: a number per tick, since the exponential is not modelled; `Math.random` likewise.
- Latest fuel price and CO2 factors: a table lookup and a constant factor.
- The issuing of tokens is one step with its clock.
- Sessions.ExpiryWithinCap: relies on tokens being issued within 23 days of creation, as they are directly after it; `Sessions.IssueWithinCap` shows that this is needed.
