/** The leased job queue: rows, audit trail, and what each repository call makes of the table.

    A call that the source refuses raises inside its transaction, so it leaves the table as it
    found it, recovery included: such a call is an Err here. */
module Jobs {
  import opened Common

  // A job id is a UUID. Canonical UUID texts have one length, so their text order, which
  // breaks ties in the dispatch order, is the order of the 128-bit numbers they spell.
  type JobId = nat
  type WorkerId = string

  datatype JobType =
    | SystemHealth | BackupCompress | BackupEncrypt | BackupVerify | BackupInfra
    | LogsHealthCheck | LogsInvestigate | AiInference | TrendsHistoryBackfill
    | Unsupported(name: string)

  predicate AutomaticWake(kind: JobType) {
    kind.BackupInfra? || kind.LogsHealthCheck? || kind.LogsInvestigate? || kind.AiInference?
  }

  // Results Tsunade must record before the job counts as settled.
  predicate CompletionProcessed(kind: JobType) {
    kind.LogsHealthCheck? || kind.LogsInvestigate? || kind.AiInference? || kind.TrendsHistoryBackfill?
  }

  // The types whose every ending, whoever decided it, must be processed.
  predicate Followed(kind: JobType) { kind.AiInference? || kind.LogsInvestigate? }

  datatype Status = Created | Queued | WaitingWorker | Running | Succeeded | Failed | Cancelled | TimedOut

  predicate Terminal(s: Status) { s.Succeeded? || s.Failed? || s.Cancelled? || s.TimedOut? }

  predicate Dispatchable(s: Status) { s.Queued? || s.WaitingWorker? }

  predicate Live(s: Status) { Dispatchable(s) || s.Running? }

  datatype JobError =
    | WorkerUnavailable
    | WorkerInterrupted(attempt: nat)
    | Reported(code: string, message: string, retryable: bool)

  datatype Detail =
    | Accepted
    | Enqueued
    | ClaimedBy(worker: WorkerId, attempt: nat)
    | CompletedBy(worker: WorkerId)
    | CancelledByTsunade
    | NoWorkerBeforeTimeout
    | TimeoutElapsed
    | GaveUp(attempt: nat)
    | LeaseExpired(attempt: nat)
    | NoCompatibleWorker

  datatype Event = Event(previous: Option<Status>, status: Status, at: Time, detail: Detail)

  // A create request; parameters and results are canonical JSON texts.
  datatype Request = Request(id: JobId, kind: JobType, createdAt: Time, parameters: string, timeout: int)

  // One row of distributed_jobs. The request digest is injective, so the row keeps the request.
  datatype Job = Job(
    kind: JobType, createdAt: Time, parameters: string, timeout: int, status: Status,
    startedAt: Option<Time>, finishedAt: Option<Time>, result: Option<string>, error: Option<JobError>,
    worker: Option<WorkerId>, attempt: nat, lease: Option<Time>, request: Request,
    progress: Option<string>, processed: bool, updatedAt: Time)

  // A row together with its distributed_job_events, in event_id order.
  datatype Row = Row(job: Job, trail: seq<Event>)

  type Table = map<JobId, Row>

  datatype Config = Config(
    leaseSeconds: int, waitingAfter: int, retentionDays: int, maxActive: nat, maxAttempts: nat,
    availableSeconds: int, utcOffset: int)
  {
    // The bounds the repository constructor enforces.
    predicate Valid() {
      leaseSeconds >= 10 && waitingAfter >= 0 && retentionDays >= 1 && maxActive >= 1 && 1 <= maxAttempts <= 10
      && 10 <= availableSeconds <= 600
    }
  }

  datatype Refusal = NotFound | Conflict | Invalid

  function Deadline(job: Job): Time { job.createdAt + job.timeout * SECOND }

  // ---------------------------------------------------------------- recovery

  function Transition(row: Row, status: Status, now: Time, detail: Detail, finish: bool,
                      clearLease: bool, clearOwner: bool, error: Option<JobError>): Row
  {
    var job := row.job;
    Row(job.(status := status,
             finishedAt := if finish then Some(now) else job.finishedAt,
             worker := if clearOwner then None else job.worker,
             lease := if clearLease then None else job.lease,
             error := if error.Some? then error else job.error,
             processed := if Terminal(status) && Followed(job.kind) then false else job.processed,
             updatedAt := now),
        row.trail + [Event(Some(job.status), status, now, detail)])
  }

  function RecoverRow(cfg: Config, row: Row, now: Time): Row {
    var job := row.job;
    if !Live(job.status) then row
    else if Deadline(job) <= now then
      if job.attempt == 0
      then Transition(row, TimedOut, now, NoWorkerBeforeTimeout, true, true, false, Some(WorkerUnavailable))
      else Transition(row, TimedOut, now, TimeoutElapsed, true, true, false, None)
    else if job.status.Running? && job.lease.Some? && job.lease.value <= now then
      if job.attempt >= cfg.maxAttempts
      then Transition(row, Failed, now, GaveUp(job.attempt), true, true, false, Some(WorkerInterrupted(job.attempt)))
      else Transition(row, Queued, now, LeaseExpired(job.attempt), false, true, true, None)
    else if job.status.Queued? && job.createdAt + cfg.waitingAfter * SECOND <= now then
      Transition(row, WaitingWorker, now, NoCompatibleWorker, false, false, false, None)
    else row
  }

  predicate Purgeable(cfg: Config, row: Row, now: Time) {
    Terminal(row.job.status) && row.job.finishedAt.Some? && row.job.finishedAt.value < now - cfg.retentionDays * DAY
  }

  // What every call does first: settle each live row, then drop what is past its retention.
  function Recover(cfg: Config, t: Table, now: Time): Table {
    map id | id in t && !Purgeable(cfg, RecoverRow(cfg, t[id], now), now) :: RecoverRow(cfg, t[id], now)
  }

  // ------------------------------------------------------------------- calls

  function TimeOfDay(cfg: Config, now: Time): Time { (now + cfg.utcOffset) % DAY }

  // Work of the automatic batch created before 05:00 local time must outlive the batch.
  function EffectiveTimeout(cfg: Config, req: Request, now: Time): int {
    if AutomaticWake(req.kind) && TimeOfDay(cfg, now) < 5 * HOUR
    then Max(req.timeout, (5 * HOUR - TimeOfDay(cfg, now)) / SECOND + 1)
    else req.timeout
  }

  function Normalized(cfg: Config, req: Request, now: Time): Request {
    req.(timeout := EffectiveTimeout(cfg, req, now))
  }

  predicate Acceptable(req: Request, now: Time) {
    && 1 <= req.timeout <= 86_400
    && !req.kind.Unsupported?
    && req.createdAt <= now + 5 * MINUTE
    && now < req.createdAt + req.timeout * SECOND
  }

  ghost function Active(t: Table): set<JobId> { set id | id in t && !Terminal(t[id].job.status) }

  function NewRow(cfg: Config, req: Request, now: Time): Row {
    var n := Normalized(cfg, req, now);
    Row(Job(req.kind, req.createdAt, req.parameters, n.timeout, Queued, None, None, None, None, None, 0, None, n,
            None, true, now),
        [Event(None, Created, now, Accepted), Event(Some(Created), Queued, now, Enqueued)])
  }

  ghost function Create(cfg: Config, t: Table, req: Request, now: Time): Result<Table, Refusal> {
    if !Acceptable(req, now) then Err(Invalid) else
    var r := Recover(cfg, t, now);
    if req.id in r then
      if r[req.id].job.request == Normalized(cfg, req, now) then Ok(r) else Err(Conflict)
    else if |Active(r)| >= cfg.maxActive then Err(Invalid)
    else Ok(r[req.id := NewRow(cfg, req, now)])
  }

  function Read(cfg: Config, t: Table, id: JobId, now: Time): Result<Table, Refusal> {
    var r := Recover(cfg, t, now);
    if id in r then Ok(r) else Err(NotFound)
  }

  function Cancel(cfg: Config, t: Table, id: JobId, now: Time): Result<Table, Refusal> {
    var r := Recover(cfg, t, now);
    if id !in r then Err(NotFound)
    else if r[id].job.status.Cancelled? then Ok(r)
    else if Terminal(r[id].job.status) then Err(Conflict)
    else Ok(r[id := Transition(r[id], Cancelled, now, CancelledByTsunade, true, true, false, None)])
  }

  predicate Candidate(t: Table, kinds: set<JobType>, id: JobId) {
    id in t && Dispatchable(t[id].job.status) && t[id].job.kind in kinds && !t[id].job.kind.Unsupported?
  }

  predicate Before(t: Table, a: JobId, b: JobId)
    requires a in t && b in t
  {
    t[a].job.createdAt < t[b].job.createdAt || (t[a].job.createdAt == t[b].job.createdAt && a <= b)
  }

  ghost predicate IsOldest(t: Table, kinds: set<JobType>, id: JobId) {
    Candidate(t, kinds, id) && forall other :: Candidate(t, kinds, other) ==> Before(t, id, other)
  }

  ghost function Oldest(t: Table, kinds: set<JobType>): Option<JobId> {
    if exists id :: IsOldest(t, kinds, id) then (var id :| IsOldest(t, kinds, id); Some(id)) else None
  }

  function NewLease(cfg: Config, job: Job, now: Time): Time {
    Min(Deadline(job), now + cfg.leaseSeconds * SECOND)
  }

  function Leased(cfg: Config, row: Row, worker: WorkerId, now: Time): Row {
    var job := row.job;
    Row(job.(status := Running,
             startedAt := if job.startedAt.Some? then job.startedAt else Some(now),
             worker := Some(worker),
             attempt := job.attempt + 1,
             lease := Some(NewLease(cfg, job, now)),
             updatedAt := now),
        row.trail + [Event(Some(job.status), Running, now, ClaimedBy(worker, job.attempt + 1))])
  }

  // The lease decision on an already recovered table.
  ghost function Lease(cfg: Config, r: Table, worker: WorkerId, kinds: set<JobType>, now: Time): Table {
    match Oldest(r, kinds)
    case None => r
    case Some(id) => if id in r then r[id := Leased(cfg, r[id], worker, now)] else r
  }

  predicate Compatible(kinds: set<JobType>) { exists k :: k in kinds && !k.Unsupported? }

  // A claim naming no supported type answers without opening a transaction.
  ghost function Claim(cfg: Config, t: Table, worker: WorkerId, kinds: set<JobType>, now: Time): Table {
    if Compatible(kinds) then Lease(cfg, Recover(cfg, t, now), worker, kinds, now) else t
  }

  predicate AttemptOwner(job: Job, worker: WorkerId, attempt: nat) {
    job.worker == Some(worker) && job.attempt == attempt
  }

  predicate Owns(job: Job, worker: WorkerId, attempt: nat) {
    job.status.Running? && AttemptOwner(job, worker, attempt)
  }

  function Renewed(cfg: Config, row: Row, progress: Option<string>, now: Time): Row {
    row.(job := row.job.(lease := Some(NewLease(cfg, row.job, now)),
                         progress := if progress.Some? then progress else row.job.progress,
                         updatedAt := now))
  }

  function Heartbeat(cfg: Config, t: Table, id: JobId, worker: WorkerId, attempt: nat, progress: Option<string>,
                     now: Time): Result<Table, Refusal>
  {
    var r := Recover(cfg, t, now);
    if id !in r then Err(NotFound)
    else if r[id].job.status.Cancelled? || r[id].job.status.TimedOut? then
      if AttemptOwner(r[id].job, worker, attempt) then Ok(r) else Err(Conflict)
    else if !Owns(r[id].job, worker, attempt) then Err(Conflict)
    else Ok(r[id := Renewed(cfg, r[id], progress, now)])
  }

  // What a worker reports; a result that its type's schema rejects is BadResult.
  datatype Outcome = Success(result: string) | BadResult | Failure(error: JobError)

  function OutcomeStatus(o: Outcome): Status { if o.Failure? then Failed else Succeeded }

  function OutcomeResult(o: Outcome): Option<string> { if o.Success? then Some(o.result) else None }

  function OutcomeError(o: Outcome): Option<JobError> { if o.Failure? then Some(o.error) else None }

  predicate SameCompletion(job: Job, o: Outcome) {
    job.status == OutcomeStatus(o) && job.result == OutcomeResult(o) && job.error == OutcomeError(o)
  }

  function Completed(row: Row, worker: WorkerId, o: Outcome, now: Time): Row {
    Row(row.job.(status := OutcomeStatus(o), finishedAt := Some(now), result := OutcomeResult(o),
                 error := OutcomeError(o), lease := None,
                 processed := if CompletionProcessed(row.job.kind) then false else row.job.processed,
                 updatedAt := now),
        row.trail + [Event(Some(Running), OutcomeStatus(o), now, CompletedBy(worker))])
  }

  function Complete(cfg: Config, t: Table, id: JobId, worker: WorkerId, attempt: nat, o: Outcome,
                    now: Time): Result<Table, Refusal>
  {
    var r := Recover(cfg, t, now);
    if id !in r then Err(NotFound)
    else if o.BadResult? then Err(Invalid)
    else if r[id].job.status.Succeeded? || r[id].job.status.Failed? then
      if SameCompletion(r[id].job, o) then Ok(r) else Err(Conflict)
    else if !Owns(r[id].job, worker, attempt) then Err(Conflict)
    else Ok(r[id := Completed(r[id], worker, o, now)])
  }

  function Authorize(cfg: Config, t: Table, id: JobId, worker: WorkerId, attempt: nat, permitted: set<JobType>,
                     now: Time): Result<Table, Refusal>
  {
    var r := Recover(cfg, t, now);
    if id !in r then Err(NotFound)
    else if !Owns(r[id].job, worker, attempt) || r[id].job.kind !in permitted then Err(Conflict)
    else Ok(r)
  }

  function MarkProcessed(t: Table, id: JobId): Table {
    if id in t then t[id := t[id].(job := t[id].job.(processed := true))] else t
  }

  // -------------------------------------------------------------------- runs

  datatype Call =
    | CreateCall(req: Request)
    | ReadCall(id: JobId)
    | ObserveCall   // the queries that always succeed: pending completions, wake-ready types, latest
    | CancelCall(id: JobId)
    | ClaimCall(worker: WorkerId, kinds: set<JobType>)
    | HeartbeatCall(id: JobId, worker: WorkerId, attempt: nat, progress: Option<string>)
    | CompleteCall(id: JobId, worker: WorkerId, attempt: nat, outcome: Outcome)
    | AuthorizeCall(id: JobId, worker: WorkerId, attempt: nat, permitted: set<JobType>)
    | MarkProcessedCall(id: JobId)

  function OrElse(r: Result<Table, Refusal>, t: Table): Table { if r.Ok? then r.value else t }

  ghost function Apply(cfg: Config, t: Table, call: Call, now: Time): Table {
    match call
    case CreateCall(req) => OrElse(Create(cfg, t, req, now), t)
    case ReadCall(id) => OrElse(Read(cfg, t, id, now), t)
    case ObserveCall => Recover(cfg, t, now)
    case CancelCall(id) => OrElse(Cancel(cfg, t, id, now), t)
    case ClaimCall(worker, kinds) => Claim(cfg, t, worker, kinds, now)
    case HeartbeatCall(id, worker, attempt, progress) =>
      OrElse(Heartbeat(cfg, t, id, worker, attempt, progress, now), t)
    case CompleteCall(id, worker, attempt, outcome) =>
      OrElse(Complete(cfg, t, id, worker, attempt, outcome, now), t)
    case AuthorizeCall(id, worker, attempt, permitted) =>
      OrElse(Authorize(cfg, t, id, worker, attempt, permitted, now), t)
    case MarkProcessedCall(id) => MarkProcessed(t, id)
  }
}
