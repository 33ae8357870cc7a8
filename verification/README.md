# Verified model of Ohana-Agent's coordination core

Ohana-Agent runs a home infrastructure: it queues work for PCs that sleep most of the day, wakes
them and lets them stop again, publishes reserved names, prints the DHCP configuration, runs cron
tasks, pairs workers and phones, and sends them notifications. This project models the parts of it
that are protocols or transformations, and proves what they keep.

| file | what it models |
|---|---|
| `Common.dfy`, `Text.dfy` | options, results, instants; splitting, stripping, decimal numbers |
| `Jobs.dfy`, `JobInvariants.dfy`, `JobTheorems.dfy`, `JobLaws.dfy` | the leased job queue, its invariant over every run, fencing, idempotence, audit trail; what each call means in instants and rows |
| `PowerJournal.dfy`, `Workers.dfy`, `WorkerCycles.dfy`, `WorkerLaws.dfy` | the power journal of a worker, the wake and shutdown cycle, safety of whole runs; what each wake call journals |
| `JobRepository.dfy` | the repository object: its tables, updated call by call |
| `Reservations.dfy` | crash-safe publishing of reserved names to AdGuard |
| `Calendar.dfy`, `CronFields.dfy`, `Cron.dfy`, `CronLaws.dfy` | Gregorian dates, cron fields, the bounded search and polling; what a schedule means in calendar coordinates |
| `Dhcp.dfy`, `DhcpRoundTrip.dfy`, `Leases.dfy`, `DhcpFiles.dfy` | the dnsmasq printer and parser, and the all-or-nothing write |
| `Notifications.dfy` | the notification queue and its self-retiring drainer |
| `Pairings.dfy`, `PairingTheorems.dfy`, `PairingLaws.dfy` | pairing, credentials and push tokens; how long requests and tokens live |
| `PlannedWake.dfy` | timeouts extended to the planned wake |

Stateful components are classes whose methods change their fields as the source changes its tables;
each method's contract gives the whole new state as a function of the old one, and the theorems are
about those functions, over every sequence of calls. The `…Laws` modules say what those functions
mean without them: in instants, statuses, rows, journalled events and calendar dates. Instants are integers in microseconds on one
UTC offset. A call that the source refuses raises inside its transaction, so it leaves the store as
it found it, recovery included. Digests are injective, identifiers and tokens drawn at random are
values never drawn before.

Where the code does not keep a promise one might read into it, the model follows the code, shows a
run that breaks the promise, and states exactly when it holds:

- Resending one create payload is answered by its job exactly when the raw timeout has not elapsed,
  the creation instant is not too far ahead, and the clock raises the timeout alike both times
  (`ResentPayload`). Sent at 00:00 and at 00:01 it is a conflict (`ResentBeforeFiveConflicts`); sent
  again after its timeout it is invalid, because the source checks that before it looks for the job
  (`ResentAfterTimeoutIsRefused`).
- One recovery pass is not a fixpoint; two always are (`RecoveryPasses`).
- The wake statistics bound holds on a complete journal. On the 200 retained events it is off by one
  exactly when the oldest of them belongs to a trimmed wake and every retained wake is directly
  followed by what accounts for it (`RetainedWakesAreAccountedFor`); a run gets there under any
  configuration (`TrimmingOvercounts`).
- A cron search always succeeds exactly when every 366 consecutive days of one 400-year period hold a
  matching day (`SearchAlwaysFinds`): with unrestricted weekdays, when some allowed day exists in
  common years (`SearchBoundSuffices`). A weekday restriction can starve it
  (`WeekdaysMayStarveTheSearch`, `FridayThe13thStarvesTheSearch`).
- Under any clock a poll fires exactly when its minute matches and the latest matching poll before it
  lies in another minute (`DueExactly`); a clock that steps back can fire an occurrence twice.
- A notification queue whose drainer dies while the queue is full is never served again
  (`QueueCanBeStranded`, `RevivableIffNotFull`).
- Work asked for soon after the daily boundary is extended beyond what the contract admits, and
  refused (`RefusedSoonAfterTheBoundary`, `RefusedAtTheBoundary`).
- `upgrade_main_configuration` replaces the main file outside the guarded block and puts back the text
  it read, with plain newlines: a failed upgrade leaves the main file as it was exactly when the file
  was not outdated, was not replaced, or was put back and held no carriage return (`UpgradeMain`,
  `OtherNodeIsOutdated`, `ReturnsAreNotPutBack`).
- Settings read back from the printed main file exactly when the interface begins and ends with no
  character the parser strips (`SettingsRoundTrip`); a document may hold one that ends in U+001F, which
  is lost (`SeparatorIsLost`).

## Model

| member | source | states |
|---|---|---|
| JobInvariants.TransitionInv | src/ohana_agent/jobs/repository.py:762-810 | a legal transition keeps the row invariant: lease exactly while running, end time exactly when ended, TIMEOUT only at or after the deadline, trail a path that counts the attempts |
| JobInvariants.RecoverInv | src/ohana_agent/jobs/repository.py:637-760 | recovery keeps the table invariant and leaves no live job past its deadline and no running job past its lease |
| JobInvariants.CreateInv | src/ohana_agent/jobs/repository.py:123-199 | creation never exceeds the limit on active jobs |
| JobInvariants.LeaseInv | src/ohana_agent/jobs/repository.py:385-480 | leasing the oldest job keeps its attempt within the limit and its lease within its deadline |
| JobInvariants.ApplyInv | src/ohana_agent/jobs/repository.py:123-635 | every call, accepted or refused, keeps the table invariant |
| JobInvariants.EveryRunKeepsTheInvariant | src/ohana_agent/jobs/repository.py:123-860 | the invariant holds after any sequence of calls, under any clock |
| JobTheorems.DeadlineDecidesTimeout | src/ohana_agent/jobs/repository.py:362-383 | in every run an ended job is TIMEOUT exactly when it ended at or after its deadline, whichever call ended it |
| JobTheorems.TrailRefinesTheRow | src/ohana_agent/jobs/repository.py:762-833 | in every run the trail is a path of the transition graph to the current status, its RUNNING entries number the attempt, and it has at most 3 * max_attempts + 2 events |
| JobTheorems.HolderSurvivesRecovery | src/ohana_agent/jobs/repository.py:637-732 | recovery before a call neither creates nor ends a valid hold on a job |
| JobTheorems.HeartbeatIsFenced | src/ohana_agent/jobs/repository.py:525-570 | a heartbeat changes the job only when it names the latest claim strictly before the lease ends; otherwise the call changes nothing beyond recovery |
| JobTheorems.CompletionIsFenced | src/ohana_agent/jobs/repository.py:572-635 | a completion is stored exactly for the latest claim strictly before the lease ends; any other changes nothing beyond recovery |
| JobTheorems.CompletionIsFinal | src/ohana_agent/jobs/repository.py:572-635 | after a stored outcome, until retention drops the job, the same outcome is answered unchanged whoever sends it, and any other readable one is a conflict |
| JobTheorems.TransferIsFenced | src/ohana_agent/jobs/repository.py:503-523 | a transfer is authorized exactly for the latest claim, before its lease ends, on a permitted type |
| JobTheorems.ApplyEvolves | src/ohana_agent/jobs/repository.py:123-635 | what any call may do to any row: trail extended, request kept, endings absorbing, result set at most by a fenced completion |
| JobTheorems.HistoryIsAppendOnly | src/ohana_agent/jobs/repository.py:572-833 | until retention drops it a job keeps request and deadline, never leaves an ending, never loses or replaces a result |
| JobTheorems.CreateIsIdempotent | src/ohana_agent/jobs/repository.py:123-160 | while the job is kept, any request under its id is refused as invalid when the source would refuse it outright, answered by the existing job when its normalized form is the same, and refused as a conflict otherwise |
| JobTheorems.ResentPayload | src/ohana_agent/jobs/repository.py:128-160 | the same payload sent again while its job is kept is answered by that job if and only if its raw timeout has not elapsed, it is not created too far ahead, and the 05:00 floor raises both timeouts alike |
| JobTheorems.ResentAfterTimeoutIsRefused | src/ohana_agent/jobs/repository.py:137-146 | whatever its parameters, a ten-minute payload sent at 06:00 and at 06:11 is refused the second time although its job is still in the table |
| JobTheorems.ResentBeforeFiveConflicts | src/ohana_agent/jobs/repository.py:128-160 | whatever its parameters, a payload sent at 00:00 and at 00:01 conflicts with itself |
| JobTheorems.ProcessedWasMarked | src/ohana_agent/jobs/repository.py:795-810 | in every run an ending of followed work that counts as processed was marked so after the job ended |
| JobTheorems.RecoveryPasses | src/ohana_agent/jobs/repository.py:637-732 | two recovery passes at one instant are a fixpoint; one is, exactly unless it re-queues a job already due to wait |
| JobTheorems.ClaimServesTheOldest | src/ohana_agent/jobs/repository.py:424-446 | a claim finds a job whenever a compatible one waits, and the oldest one is unique |
| JobLaws.ClaimLasts | src/ohana_agent/jobs/repository.py:428-480 | a job claimed at t, whatever other calls come, is kept by recovery at u exactly while u < t + lease and u < its deadline; then it times out, is queued again, or fails when attempts are used |
| JobLaws.RenewalLasts | src/ohana_agent/jobs/repository.py:525-570 | the same from a heartbeat of the holder at t, whose progress is kept unless it brings a new one |
| JobLaws.EndedJobIsKept | src/ohana_agent/jobs/repository.py:734-760 | a job that ended at f survives any calls up to f + retention, and a recovery at u removes it exactly when u is later |
| JobLaws.CreatedJob | src/ohana_agent/jobs/repository.py:155-199 | a new job holds what was asked, waits with attempt 0 and no worker, and its timeout outlives the batch of 05:00 by at most a second |
| JobLaws.InvalidRequest | src/ohana_agent/jobs/repository.py:123-180 | a request is invalid exactly when its fields refuse it or it is new and the queue is full |
| JobLaws.UnclaimedJob | src/ohana_agent/jobs/repository.py:649-732 | a job nobody claims stays queued, then waits for a worker, then times out for want of one, each from its own instant |
| JobLaws.ClaimLeasesTheOldest | src/ohana_agent/jobs/repository.py:385-480 | a claim leases exactly one job whenever one waits, none created earlier, with one attempt more, and changes no other |
| JobLaws.HeartbeatAnswers | src/ohana_agent/jobs/repository.py:525-570 | without a hold: the owner of a cancelled or timed out attempt is told so, anyone else meets a conflict, an unknown job is not found |
| JobLaws.CompletionAnswers | src/ohana_agent/jobs/repository.py:572-635 | without a hold: what already stands is accepted again, an unreadable result is invalid, the rest a conflict |
| JobLaws.CompletionStores | src/ohana_agent/jobs/repository.py:572-635 | the holder ends its job at that instant with what it reported, and exactly four types wait to be processed |
| JobLaws.TransferAnswers | src/ohana_agent/jobs/repository.py:503-523 | a transfer is accepted exactly for the holder and a permitted type, otherwise a conflict or not found |
| JobLaws.CancelEnds | src/ohana_agent/jobs/repository.py:362-383 | a live job ends CANCELLED at that instant, a cancelled one is left alone, another ending is a conflict |
| JobLaws.ReadFinds | src/ohana_agent/jobs/repository.py:201-205 | a job is found exactly until retention after its end |
| JobLaws.MarkingProcesses | src/ohana_agent/jobs/repository.py:496-501 | marking sets the processed bit of that row and changes nothing else, and an unknown job is no error |
| JobRepository.Repository.TransitionLocked | src/ohana_agent/jobs/repository.py:762-833 | the row and its trail after one transition, all other rows unchanged |
| JobRepository.Repository.RecoverOne | src/ohana_agent/jobs/repository.py:649-732 | the loop body of recovery makes of a live row what the specification says |
| JobRepository.Repository.PurgeLocked | src/ohana_agent/jobs/repository.py:734-760 | exactly the ended jobs past their retention are dropped |
| JobRepository.Repository.RecoverLocked | src/ohana_agent/jobs/repository.py:637-760 | the loop over live rows followed by the purge equals recovering every row at once |
| JobRepository.Repository.CreateJob | src/ohana_agent/jobs/repository.py:123-199 | the new table and the answer, or the error and the table found |
| JobRepository.Repository.CancelJob | src/ohana_agent/jobs/repository.py:362-383 | cancellation from any live state, idempotent on CANCELLED, refused on other endings |
| JobRepository.Repository.FindOldest | src/ohana_agent/jobs/repository.py:424-446 | the selected job is the oldest compatible one by creation time then id |
| JobRepository.Repository.PollJob | src/ohana_agent/jobs/repository.py:385-480 | the whole store after a claim: recovery, lease, last-seen, shutdown permission |
| JobRepository.Repository.HeartbeatJob | src/ohana_agent/jobs/repository.py:525-570 | renewed lease and progress, or the refusal with the store unchanged |
| JobRepository.Repository.CompleteJob | src/ohana_agent/jobs/repository.py:572-635 | stored outcome, accepted duplicate, or refusal with the store unchanged |
| JobRepository.Repository.AuthorizeTransfer | src/ohana_agent/jobs/repository.py:503-523 | acceptance notes that the worker is there; refusal changes nothing |
| JobRepository.Repository.MarkCompletionProcessed | src/ohana_agent/jobs/repository.py:496-501 | sets the processed bit of that job only |
| JobRepository.Repository.PendingCompletions | src/ohana_agent/jobs/repository.py:482-494 | after recovery, a page of 16 distinct unprocessed endings, oldest first, nothing unlisted older than what is listed |
| JobRepository.Repository.RefreshFailedJobs | src/ohana_agent/api/service_jobs.py:482-492 | the unbounded loop ends within as many rounds as jobs could still need settling, under any clock, with every failed, cancelled or timed out job processed |
| JobRepository.ListedEndings | src/ohana_agent/jobs/repository.py:482-494 | the endings listed are the unprocessed ones, of any kind or only failed, timed out and cancelled |
| JobRepository.EarlierEndingFirst | src/ohana_agent/jobs/repository.py:482-494 | listed endings are ordered by the instant of their end, then by id |
| PowerJournal.ComputeWakeStats | src/ohana_agent/jobs/workers.py:696-737 | the one-pass counters equal the counts of each kind of event; a late answer takes back one timeout noted since the last connection |
| PowerJournal.CountersCount | src/ohana_agent/jobs/workers.py:696-737 | each counter is the number of journalled events of its sort |
| PowerJournal.UnansweredIsNatural | src/ohana_agent/jobs/workers.py:696-737 | the unanswered counter never becomes negative, on any journal, trimmed or not |
| PowerJournal.WakesAreAccountedFor | src/ohana_agent/jobs/workers.py:602-646 | on a complete journal on time + late + unanswered <= attempts |
| PowerJournal.SlackCountsLostWakes | src/ohana_agent/jobs/workers.py:696-737 | on any stretch of a journal the slack of the counters is that of a trailing wake exactly when every earlier wake is directly accounted for |
| PowerJournal.RetainedWakesAreAccountedFor | src/ohana_agent/jobs/workers.py:696-843 | on the retained events the sum exceeds the attempts by at most one, and does so if and only if the oldest event belongs to a trimmed wake and every retained wake is directly followed by what accounts for it |
| WorkerCycles.TrimmingOvercounts | src/ohana_agent/jobs/workers.py:825-843 | under any configuration a run leaves retained events that show one unanswered wake and no attempt |
| PowerJournal.UnansweredWakes | src/ohana_agent/jobs/workers.py:678-694 | the backward count equals the timeouts of the current cycle |
| PowerJournal.CycleBegins | src/ohana_agent/jobs/workers.py:678-694 | the current cycle is the longest end of the journal without a connection or an abandonment |
| PowerJournal.CycleSurvivesTrimming | src/ohana_agent/jobs/workers.py:678-694 | trimming events older than the cycle does not change the cycle |
| WorkerCycles.StepInv | src/ohana_agent/jobs/workers.py:44-157 | every operation on the joined store keeps the journal grammar, the retry bound and the shutdown rule of every worker |
| WorkerCycles.EveryRunIsSafe | src/ohana_agent/jobs/workers.py:302-353 | so does every run, and its jobs are those of the queue run by itself |
| WorkerCycles.JournalsAccountForWakes | src/ohana_agent/jobs/workers.py:602-646 | in every run each timeout directly follows a wake, each abandonment a timeout, each connection one of the three, and the counters are honest |
| WorkerCycles.RetriesAreBounded | src/ohana_agent/jobs/workers.py:648-694 | any 200 events in a row without a connection or an abandonment hold at most max_attempts - 1 retries |
| WorkerCycles.GrantsNeedAWake | src/ohana_agent/jobs/workers.py:525-559 | each shutdown permission follows a wake with no report of a shutdown started or vetoed between |
| WorkerCycles.ShutdownIsSafe | src/ohana_agent/jobs/workers.py:525-600 | a worker told to stop was woken by the agent, no live job is its own or of its types, and every ending of followed work was marked processed since it ended |
| JobRepository.Repository.PowerEventLocked | src/ohana_agent/jobs/workers.py:825-843 | append then trim keeps exactly the newest 200 events of the full history |
| JobRepository.Repository.RegisterWorker | src/ohana_agent/jobs/workers.py:44-157 | the row and the journalled answer: on time, late within 1800 s, or a manual start |
| JobRepository.Repository.MarkWorkerWaking | src/ohana_agent/jobs/workers.py:302-353 | the wake noted with its attempt number, or nothing for an available worker |
| JobRepository.Repository.RecordWakeFailure | src/ohana_agent/jobs/workers.py:739-747 | a failed send is journalled and nothing else changes |
| JobRepository.Repository.SettleUnansweredWakes | src/ohana_agent/jobs/workers.py:602-646 | worker by worker, a wake that ran out is noted, and given up at the limit while work waits |
| JobRepository.Repository.UnansweredWakeRetry | src/ohana_agent/jobs/workers.py:648-676 | finds a worker to wake again whenever there is one, and only such a worker |
| JobRepository.Repository.RetryUnanswered | src/ohana_agent/api/service_jobs.py:129-173 | the retry step as a whole equals its specification, whether the packet leaves or fails |
| JobRepository.Repository.IdleShutdown | src/ohana_agent/jobs/workers.py:525-559 | permission exactly when nothing keeps the worker on; journalled once |
| JobRepository.Repository.ReportWorkerPower | src/ohana_agent/jobs/workers.py:561-600 | the report is journalled and closes the wake |
| WorkerLaws.WakeThenAnswer | src/ohana_agent/jobs/workers.py:785-823 | woken at t with timeout s and registering at u: one event, on time up to t + s, then late up to half an hour, then manual; the on-time and late counters move accordingly |
| WorkerLaws.RegistrationAnswers | src/ohana_agent/jobs/workers.py:44-157 | an awaited worker journals exactly its answer, to the nearest second, and stays woken only within the timeout |
| WorkerLaws.UnawaitedRegistration | src/ohana_agent/jobs/workers.py:785-823 | a worker with no wake to answer journals nothing |
| WorkerLaws.WakeIsNoted | src/ohana_agent/jobs/workers.py:302-353 | a wake is noted exactly for a worker not seen lately, numbered by the timeouts of its cycle, open until now + timeout |
| WorkerLaws.SilenceIsNoted | src/ohana_agent/jobs/workers.py:602-646 | a wake that ran out unseen is noted at its deadline, and given up exactly when attempts are used and compatible work waits |
| WorkerLaws.RetryIsOffered | src/ohana_agent/jobs/workers.py:648-676 | a retry is offered exactly for a noted timeout older than the delay, with attempts and work left, on a worker neither seen nor waking |
| WorkerLaws.RetryIsSent | src/ohana_agent/api/service_jobs.py:129-173 | the retry step adds one wake numbered next in its cycle, or one failure, to that worker and touches no other |
| WorkerLaws.ReleasedExactly | src/ohana_agent/jobs/workers.py:525-559 | a poll is told to stop exactly when both sides allow it, the worker was woken, no job waits for it and nothing needs it; journalled once |
| WorkerLaws.PollIsSeen | src/ohana_agent/jobs/workers.py:916-920 | a poll makes its worker available until now + the availability period and changes no other |
| WorkerLaws.JobCallsShowTheWorker | src/ohana_agent/jobs/repository.py:503-570 | a heartbeat or transfer of the holder notes that its worker is there; no other job call touches a worker or a journal |
| WorkerLaws.ReportEndsTheWake | src/ohana_agent/jobs/workers.py:561-600 | after a report the worker is not told to stop until it is woken again |
| WorkerCycles.PollIsClaim | src/ohana_agent/jobs/repository.py:385-480 | what a poll does to the jobs is the claim of the job queue |
| Reservations.Client.Reconcile | src/ohana_agent/host/adguard_reservations.py:162-196 | the decision and every place an interruption can leave the file and the remote set; a dry run and a conflict change nothing |
| Reservations.Client.CarryOut | src/ohana_agent/host/adguard_reservations.py:180-196 | journal, additions, removals, confirmation: complete, or stopped with only a prefix done; the read-back never fails without concurrent edits |
| Reservations.RefusedExactly | src/ohana_agent/host/adguard_reservations.py:172-179 | a run is refused exactly when some remote rewrite under a wanted name is neither wanted nor owned |
| Reservations.OwnEntriesNeverRefuse | src/ohana_agent/host/adguard_reservations.py:172-179 | if at the start no foreign entry stood under a wanted name, no sequence of runs, crashed or not, leaves one that refuses a later run |
| Reservations.InterruptionIsHarmless | src/ohana_agent/host/adguard_reservations.py:176-196 | after any interruption a rerun meets no new conflict and ends exactly where an uninterrupted run would |
| Reservations.CrashesConverge | src/ohana_agent/host/adguard_reservations.py:162-196 | so does a rerun after any number of interrupted runs |
| Reservations.FinishedRunIsExact | src/ohana_agent/host/adguard_reservations.py:162-196 | after a finished run the rewrites under reserved names are exactly the desired ones, unowned others untouched, the file owns exactly the desired ones |
| Reservations.RepeatRunDoesNothing | src/ohana_agent/host/adguard_reservations.py:172-195 | a repeat run has nothing to add, remove or write |
| Reservations.DeletesOnlyWhatItOwns | src/ohana_agent/host/adguard_reservations.py:166-191 | whatever crashes and manual edits come between, a run deletes only what an earlier run journalled as desired, never a desired entry |
| Reservations.StepsAreInterruptions | src/ohana_agent/host/adguard_reservations.py:180-196 | a run cut off after any single step leaves a world covered by the interruption predicate |
| Reservations.NothingIsLeaked | src/ohana_agent/host/adguard_reservations.py:180-196 | over any sequence of runs for changing names, what a run published stays owned until it is removed |
| Reservations.FinishedRunClearsTheRest | src/ohana_agent/host/adguard_reservations.py:173-196 | the next finished run removes everything earlier runs left that is no longer wanted |
| CronFields.ParseField | src/ohana_agent/scheduler/cron_trigger.py:101-140 | the loop over parts computes their union or the first error; an accepted field is non-empty and in bounds |
| CronFields.PartReadsBack | src/ohana_agent/scheduler/cron_trigger.py:105-132 | each written part reads back as exactly the values it stands for, for all numbers |
| CronFields.FieldMeansItsParts | src/ohana_agent/scheduler/cron_trigger.py:101-140 | a written list of parts reads back as the union of their meanings, and is refused exactly when that is empty or leaves the bounds |
| CronFields.StepsAreNumbers | src/ohana_agent/scheduler/cron_trigger.py:105-116 | a step that is no number or not positive is refused whatever its base |
| Calendar.DateOfHasOrdinal | src/ohana_agent/scheduler/cron_trigger.py:55-68 | stepping day by day agrees with the closed day count |
| Calendar.OrdinalIsChronological | src/ohana_agent/scheduler/cron_trigger.py:55-68 | day numbers order dates as the calendar does |
| Calendar.EveryCommonDateRecurs | src/ohana_agent/scheduler/cron_trigger.py:55-68 | any 366 consecutive days contain every date that exists in common years |
| Cron.Trigger.NextRunAt | src/ohana_agent/scheduler/cron_trigger.py:55-68 | the answer is the least matching minute after the given one, and None exactly when no minute of the next 366 days matches |
| Cron.Trigger.IsDue | src/ohana_agent/scheduler/cron_trigger.py:70-87 | due exactly in a matching minute that is not the minute of the last run |
| Cron.Trigger.Tick | src/ohana_agent/scheduler/base_trigger.py:34-38 | a due tick runs once and is marked with its instant |
| CronLaws.MatchesAt | src/ohana_agent/scheduler/cron_trigger.py:92-99 | the minute h:m of a date matches exactly when m, h, the day, the month and the weekday are each in their field |
| CronLaws.DueAt | src/ohana_agent/scheduler/cron_trigger.py:70-87 | an instant is due exactly when those coordinates match and its minute is not that of the last run |
| CronLaws.FiresInADay | src/ohana_agent/scheduler/cron_trigger.py:70-99 | one pass over the minutes of a day fires |minutes| * |hours| times on a matching day and never on another |
| Cron.SearchReachesACommonDate | src/ohana_agent/scheduler/cron_trigger.py:55-68 | with unrestricted weekdays and a day that exists in common years every search succeeds |
| Calendar.CalendarRepeats | src/ohana_agent/scheduler/cron_trigger.py:92-99 | date and day of the week repeat every 146 097 days |
| Cron.SearchFromMidnight | src/ohana_agent/scheduler/cron_trigger.py:55-68 | a search begun just before a day finds a run exactly when one of the next 366 days matches |
| Cron.SearchAlwaysFinds | src/ohana_agent/scheduler/cron_trigger.py:55-99 | for every schedule, searches always succeed if and only if every 366 consecutive days of one 400-year period hold a matching day |
| Cron.SearchMissesLeapDays | src/ohana_agent/scheduler/cron_trigger.py:55-68 | without such a day the search begun just before 2001-03-01 finds nothing |
| Cron.SearchBoundSuffices | src/ohana_agent/scheduler/cron_trigger.py:55-99 | with unrestricted weekdays, searches always succeed if and only if some allowed day exists in common years |
| Cron.WeekdaysMayStarveTheSearch | src/ohana_agent/scheduler/cron_trigger.py:92-99 | a search for a Tuesday first of January begun just before 2002-01-02 finds nothing |
| Cron.FridayThe13thStarvesTheSearch | src/ohana_agent/scheduler/cron_trigger.py:92-99 | a search for a Friday the 13th begun just before 1999-08-14 finds nothing |
| Cron.DueAgreesWithNextRun | src/ohana_agent/scheduler/cron_trigger.py:55-99 | nothing is due before the next run, and the next run is due unless already executed |
| Cron.DueExactly | src/ohana_agent/scheduler/cron_trigger.py:70-87 | under any clock a poll fires if and only if its minute matches and the latest matching poll before it lies in another minute |
| Cron.LastIsLatestMatch | src/ohana_agent/scheduler/base_trigger.py:34-38 | under a clock that never steps back the last execution lies in the latest matching minute polled |
| Cron.EachOccurrenceFiresOnce | src/ohana_agent/scheduler/cron_trigger.py:70-99 | under such a clock each polled matching minute fires exactly once and no other minute fires |
| Cron.SteppingBackFiresTwice | src/ohana_agent/scheduler/cron_trigger.py:70-87 | a clock stepping back, after any polls in between, to an occurrence already executed fires it again exactly when the latest matching poll in between lies in another minute |
| Text.SplitJoin | src/ohana_agent/host/dhcp.py:295-308 | splitting what was joined by a separator absent from the parts gives the parts back |
| Text.SplitUnlines | src/ohana_agent/host/dhcp.py:243-255 | the lines of a printed file are the lines printed |
| Text.ReadTextKeeps | src/ohana_agent/host/dhcp.py:146-149 | reading in text mode leaves a text unchanged exactly when it holds no carriage return |
| Text.LinesAsRead | src/ohana_agent/host/dhcp.py:243-247 | translating line ends does not change the lines of a text |
| Text.BreaksSeparate | src/ohana_agent/host/dhcp.py:243-247 | ten characters and no others end a line |
| Text.DigitRunsAreRead | src/ohana_agent/scheduler/cron_trigger.py:101-140 | a number is read exactly from digits with single underscores between digits |
| Dhcp.AddressReadsBack | src/ohana_agent/host/dhcp.py:205-240 | every dotted address reads back as itself |
| Dhcp.AddressesAre | src/ohana_agent/host/dhcp.py:205-240 | an address is read from exactly its canonical dotted form |
| Dhcp.DocumentsAreChecked | src/ohana_agent/contracts/administration.py:44-80 | the settings read are accepted exactly when interface, servers, lease, range order, network and domain are as the document demands |
| Dhcp.SameNetwork | src/ohana_agent/contracts/administration.py:66-80 | under the mask 255.255.255.0 two addresses share a network exactly when their first three octets agree |
| Dhcp.HostNamesAre | src/ohana_agent/contracts/administration.py:16-18 | a host name is exactly a text of at most 253 letters, digits, hyphens and dots with no dot or hyphen first, no empty label and no dot last |
| Dhcp.GatheredRange | src/ohana_agent/host/dhcp.py:205-240 | what was read has one range of exactly four parts, its addresses in dotted form |
| Dhcp.OptionsSay | src/ohana_agent/host/dhcp.py:295-308 | the addresses of an option are exactly those spelled by the first option of that name |
| Dhcp.ReadDirectives | src/ohana_agent/host/dhcp.py:243-255 | the one-pass parser files, under every key, exactly the values of its lines in order |
| DhcpRoundTrip.MainValues | src/ohana_agent/host/dhcp.py:355-397 | the printed file declares each of its six keys exactly with the intended values and every other key not at all |
| DhcpRoundTrip.RangeSays | src/ohana_agent/host/dhcp.py:355-397 | the printed range is start, end, mask and lease, in that order |
| DhcpRoundTrip.SwitchesAreSet | src/ohana_agent/host/dhcp.py:355-397 | the printed file holds each bare switch dnsmasq needs |
| DhcpRoundTrip.OptionsReadBack | src/ohana_agent/host/dhcp.py:295-308 | router, DNS and NTP lists read back whatever their length |
| DhcpRoundTrip.SettingsRoundTrip | src/ohana_agent/host/dhcp.py:205-397 | for any document, server lists, interface and node on one line, parsing the printed main file gives the settings with the interface stripped: the same settings if and only if the interface begins and ends with no character the parser strips |
| DhcpRoundTrip.SeparatorIsLost | src/ohana_agent/host/dhcp.py:243-255 | a document whose interface ends in U+001F reads back without it |
| DhcpRoundTrip.SmallestSettings | src/ohana_agent/contracts/administration.py:44-80 | for any address and mask a document satisfying the constraints exists and survives the round trip |
| DhcpRoundTrip.ReadSettingsAreValid | src/ohana_agent/contracts/administration.py:44-80 | settings read from any file satisfy the document's constraints |
| DhcpRoundTrip.UpgradeIsIdempotent | src/ohana_agent/host/dhcp.py:142-157 | what one upgrade prints means the same and would be printed again unchanged |
| Leases.ReadReservations | src/ohana_agent/host/dhcp.py:311-352 | the parser's loop reads every host line or reports the first bad one |
| Leases.ByAddressSorts | src/ohana_agent/host/dhcp.py:400-422 | the printed order is sorted by address and a permutation |
| Leases.HostReadsBack | src/ohana_agent/host/dhcp.py:311-422 | one host line reads back as its reservation without description |
| Leases.HostLineSays | src/ohana_agent/host/dhcp.py:400-422 | the printed host line is dhcp-host= and the hardware address, address and host name with commas between |
| Leases.HostLinesAre | src/ohana_agent/host/dhcp.py:311-352 | a host line is read exactly from three fields that are a hardware address, a dotted address and a host name, put in upper and lower case |
| Leases.HardwareAddressesAre | src/ohana_agent/contracts/administration.py:15-15 | a hardware address is exactly six pairs of hexadecimal digits with colons between |
| Leases.OtherLinesAreRefused | src/ohana_agent/host/dhcp.py:311-352 | a line that is not blank, a comment or a host line is refused |
| Leases.ReservationsRoundTrip | src/ohana_agent/host/dhcp.py:311-422 | parsing a printed category gives its reservations sorted by address with descriptions emptied |
| DhcpFiles.Repository.Render | src/ohana_agent/host/dhcp.py:101-117 | one printed file for each managed path |
| DhcpFiles.Repository.WriteRendered | src/ohana_agent/host/dhcp.py:119-138 | all files are the rendering, or all are what they were, exactly according to whether every step succeeds |
| DhcpFiles.Repository.Restore | src/ohana_agent/host/dhcp.py:534-546 | files that existed have their contents back, absent ones are absent again |
| DhcpFiles.Repository.Write | src/ohana_agent/host/dhcp.py:101-140 | whichever write, validation or reload fails, before or after its effect, no managed file changes; otherwise each equals its rendering |
| DhcpFiles.Repository.UpgradeMain | src/ohana_agent/host/dhcp.py:142-157 | an outdated file is rewritten exactly when every step succeeds, keeps its meaning, needs no second upgrade, and never passes for up to date; a failed upgrade leaves the main file as it was if and only if the file was not outdated, was not replaced, or was put back and held no carriage return |
| DhcpFiles.OtherNodeIsOutdated | src/ohana_agent/host/dhcp.py:142-157 | a main file printed for one node needs an upgrade on a node exactly when the nodes differ |
| DhcpFiles.LineEndsDoNotMatter | src/ohana_agent/host/dhcp.py:146-149 | a file is outdated exactly when its text with plain newlines is |
| DhcpFiles.ReturnsAreNotPutBack | src/ohana_agent/host/dhcp.py:146-156 | for any document there is an outdated file with a carriage return, which no put-back restores |
| DhcpFiles.WrittenConfigurationReadsBack | src/ohana_agent/host/dhcp.py:82-140 | a written configuration reads back as its sorted reservations and its settings, with the interface stripped |
| Notifications.Publisher.PublishItem | src/ohana_agent/companions/notifications.py:62-86 | an invalid payload is refused; a valid one, cut to length, is accepted exactly when new and the queue has room; a drainer is started exactly when none is alive |
| Notifications.Publisher.TakeItem | src/ohana_agent/companions/notifications.py:97-104 | takes the oldest item, or retires on an empty queue under the same lock |
| Notifications.Publisher.Drain | src/ohana_agent/companions/notifications.py:97-106 | left alone, the drainer delivers the whole queue in order and retires |
| Notifications.TakenInExactly | src/ohana_agent/companions/notifications.py:62-86 | a payload is taken in exactly when it has an id, a known type and a message, its cut id is not remembered and the queue has room; it joins the end with its texts cut |
| Notifications.EveryInterleavingIsSafe | src/ohana_agent/companions/notifications.py:62-106 | in every interleaving items leave once each in acceptance order; if no delivery raises, a waiting item has a living drainer |
| Notifications.AtMostOneDrainer | src/ohana_agent/companions/notifications.py:78-86 | in every interleaving at most one drainer is alive |
| Notifications.RecentIdsAreRefused | src/ohana_agent/companions/notifications.py:68-77 | an id among the last 256 accepted is not accepted again |
| Notifications.NextAcceptedItemRevives | src/ohana_agent/companions/notifications.py:78-86 | after a delivery raised, the next accepted item starts a new drainer |
| Notifications.FullQueueStaysStranded | src/ohana_agent/companions/notifications.py:70-77 | a full queue without a drainer never changes again, whatever happens |
| Notifications.QueueCanBeStranded | src/ohana_agent/companions/notifications.py:62-106 | that state is reached by a run of valid payloads in which one delivery raises |
| Notifications.RevivableIffNotFull | src/ohana_agent/companions/notifications.py:62-86 | a queue without a drainer can be served again, by some valid payload, if and only if it is not full |
| Pairings.Repository.CreatePairing | src/ohana_agent/companions/repository.py:165-225 | expiry, refusal of a second active request, limit on active requests, rollback on refusal |
| Pairings.Repository.ApprovePairing | src/ohana_agent/companions/repository.py:238-255 | approval only from PENDING, idempotent on APPROVED, rollback otherwise |
| Pairings.Repository.RejectPairing | src/ohana_agent/companions/repository.py:257-272 | rejection of an active request, idempotent on REJECTED, rollback otherwise |
| Pairings.Repository.PollPairing | src/ohana_agent/companions/repository.py:274-327 | the credential and the consumed request written together, only for the right secret on an approved request |
| Pairings.Repository.AuthorizeDevice | src/ohana_agent/companions/repository.py:329-348 | accepts a live matching token and notes its use |
| Pairings.Repository.RevokeDevice | src/ohana_agent/companions/repository.py:360-374 | revokes once and disables the push token with it |
| Pairings.Repository.RegisterPushToken | src/ohana_agent/companions/repository.py:376-411 | binds a token to an unrevoked device only |
| Pairings.Repository.DisablePushToken | src/ohana_agent/companions/repository.py:427-433 | disables that device's token and nothing else |
| Pairings.Repository.ExpirePairings | src/ohana_agent/companions/repository.py:493-498 | exactly the active requests at or past their deadline expire |
| PairingLaws.TokenLives | src/ohana_agent/companions/repository.py:274-348 | a token answered at t, with nothing told to its device since, is accepted at u exactly when the policy has no lifetime or u < t + lifetime; the answer says so |
| PairingLaws.OnlyThatToken | src/ohana_agent/companions/repository.py:329-348 | meanwhile no other token is accepted for that device |
| PairingLaws.RevocationHolds | src/ohana_agent/companions/repository.py:360-374 | after a revocation no token is accepted for the device until it is told something else |
| PairingLaws.RevocationEnds | src/ohana_agent/companions/repository.py:360-374 | revocation is for known devices, keeps its first instant, and a second one changes nothing |
| PairingLaws.UseIsNoted | src/ohana_agent/companions/repository.py:329-348 | an accepted token leaves the instant of its use, a refused one nothing |
| PairingLaws.RequestIsOpened | src/ohana_agent/companions/repository.py:165-225 | a request is refused exactly when its device has an unexpired one or as many as allowed are open; otherwise it is open for the lifetime |
| PairingLaws.PairingGrantsAccess | src/ohana_agent/companions/repository.py:165-327 | asked at t, approved at v, polled at w with its secret: a token comes exactly when v and w are before the end, and it is accepted |
| PairingLaws.WrongSecret | src/ohana_agent/companions/repository.py:274-291 | a wrong secret is answered like an unknown request and changes nothing |
| PairingLaws.RequestIsDecided | src/ohana_agent/companions/repository.py:238-272 | which requests approval and rejection accept, what they write, and that a refusal changes nothing |
| PairingLaws.ListingExpires | src/ohana_agent/companions/repository.py:227-236 | listing ends exactly the active requests whose lifetime is over |
| PairingLaws.RegistrationReaches | src/ohana_agent/companions/repository.py:376-433 | a registered token is reached in its environment, in lower case, exactly while access lasts, until disabled or revoked |
| PairingLaws.RegistrationIsRefused | src/ohana_agent/companions/repository.py:376-411 | when a registration is refused, and that nothing reaches a device without an enabled, non-empty token |
| PairingTheorems.PairingsOnlyAdvance | src/ohana_agent/companions/repository.py:238-327 | over any run a request keeps device, secret and deadline, advances only, and a settled one never changes |
| PairingTheorems.ApplyKeeps | src/ohana_agent/companions/repository.py:165-433 | every operation keeps the agreement of requests, credentials and push tokens with what the outside was told |
| PairingTheorems.EveryRunKeeps | src/ohana_agent/jobs/pairings.py:35-217 | so does every run, for workers and companions alike |
| PairingTheorems.RequestsAreBounded | src/ohana_agent/jobs/pairings.py:49-67 | in every run a device has at most one active request and there are at most max_pending in all |
| PairingTheorems.IssuedOnce | src/ohana_agent/jobs/pairings.py:162-208 | two tokens ever issued differ and answer different requests |
| PairingTheorems.IssuedFromApproval | src/ohana_agent/companions/repository.py:290-319 | a token follows an approval of the same request and precedes that request's deadline |
| PairingTheorems.ConsumedMeansIssued | src/ohana_agent/companions/repository.py:292-319 | a request is CONSUMED exactly when a token was issued for it |
| PairingTheorems.SettledRequestsStaySilent | src/ohana_agent/jobs/pairings.py:139-208 | a consumed, rejected or expired request never yields a token again |
| PairingTheorems.AccessIsExact | src/ohana_agent/companions/repository.py:329-374 | in every run access is granted to exactly the token last issued to the device, until revocation or expiry |
| PairingTheorems.PushesFollowAccess | src/ohana_agent/companions/repository.py:360-425 | notifications go only to devices whose access holds; a revoked device has no enabled push token |
| PairingTheorems.RevocationOutlivesPairing | src/ohana_agent/companions/repository.py:300-411 | a device silenced by revocation stays silent through a new pairing until it registers again |
| PlannedWake.WakeIsNextBoundary | src/ohana_agent/api/service_jobs.py:56-72 | the planned wake is the first local end hour strictly after creation, at most a day away |
| PlannedWake.WhichWorkWaits | src/ohana_agent/api/service_jobs.py:56-83 | the four automatic kinds wait from the start hour to the end hour, all of them but backups at any other time |
| PlannedWake.ExtensionReachesPastTheWake | src/ohana_agent/api/service_jobs.py:38-83 | exactly the waiting work is extended, and its deadline leaves timeout and wake timeout after the boundary, within a second |
| PlannedWake.AdmittedWhenTheWaitFits | src/ohana_agent/contracts/administration.py:266-282 | the contract admits extended work exactly when the wait fits the cap of 86 400 s |
| PlannedWake.RefusedSoonAfterTheBoundary | src/ohana_agent/api/service_jobs.py:56-83 | equivalently: exactly when the last boundary is at least timeout and wake timeout old |
| PlannedWake.RefusedAtTheBoundary | src/ohana_agent/api/service_jobs.py:60-83 | an inference asked at 05:00 sharp is refused whatever its timeout |
| PlannedWake.ExtendedWorkOutlivesTheWake | src/ohana_agent/api/service_jobs.py:29-36 | the job an accepted extension creates does not time out before the wake has passed by its timeout and the wake timeout, whatever calls follow |

## Left out

- HTTP, TLS, threads of the web server, APNs requests, magic packets, subprocesses and systemd: where a step depends on them, their success or failure is a parameter.
- SQLite, JSON and pydantic mechanics; field formats not needed by a property; error texts produced by the agent are constructors.
- Time zones and daylight saving: one UTC offset. Some queries compare ISO texts carrying a local offset; the model compares instants, which agrees within one offset. Years beyond 9999.
- Migration of a worker's identity, which renames its rows but not its power journal; the fallback of worker authorization to a previous identity.
- Tsunade incidents, expertise and follow-ups: processing a completion only sets the processed bit, although the source may also create jobs then.
- Read-only queries (latest results, counts, vitals, lists limited to 100 rows), wake candidates and their minimum interval, the daily batch dispatch and its remembered date, the settlement interval.
- The shutdown flag of the legacy claim path, runtimes and host reports of workers, detail maps of power events (pending and executed counts), median and longest wake delays.
- Weekday names and non-ASCII digits in cron fields; lease files and stale-lease releases of DHCP; reading reserved names from the DHCP files.
- Job ids are numbers: canonical UUID texts order like the numbers they spell.
- Workers.RoundSeconds: rounds the exact duration half to even, where the source rounds that duration as a float.
- Cron.EachOccurrenceFiresOnce: assumes a clock that never steps back, because only the last run is remembered; DueExactly and SteppingBackFiresTwice say what happens under any clock.
- Reservations.Client.Reconcile: takes additions and removals in any order instead of the sorted one, which only widens the interruptions covered; a conflict carries the entries instead of a text.
- JobRepository.Repository.FindOldest: orders creation instants to the microsecond; the source orders `julianday` values, whose resolution is a millisecond, so that instants within one millisecond are ordered by id.
- JobRepository.Repository.PendingCompletions: orders finish instants to the microsecond, with the same difference.
- Dhcp.Build: a document strips Unicode white space and the parser strips what Python calls white space, which adds U+001C to U+001F; the model keeps the two apart.
- DhcpFiles.Repository.Restore: assumes the restoring writes succeed, as the source does not handle their failure.
- DhcpFiles.Repository.Write: writes the files in any order instead of the dictionary's, and ends before the final read; each file write is one atomic step with three outcomes. A failing step stands for an OSError or a DHCPConfigurationError, the two the source rolls back for; another error, such as undecodable output of the validation, leaves the new files in place and is not modelled.
- DhcpFiles.Repository.UpgradeMain: assumes that putting the old text back succeeds, as the source does not handle its failure, and that the failing steps are of the same two kinds; files are UTF-8 texts.
- WorkerCycles.RetriesAreBounded: the retry decision and the wake are one step, and the bound is for 200 events at a time, because the source counts only the retained ones.
- Notifications.EveryInterleavingIsSafe: a step is a region run under the lock; a thread that retired counts as ended although it may still be returning.
