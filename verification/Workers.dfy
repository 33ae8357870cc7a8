/** Worker rows, their wake and shutdown cycle, and the store that joins them to the job queue. */
module Workers {
  import opened Common
  import opened Jobs
  import opened PowerJournal

  // One row of distributed_workers. A timestamp column is None while it is NULL.
  datatype Worker = Worker(
    capabilities: set<JobType>, mac: Option<string>, registeredAt: Time, lastSeen: Time,
    woken: bool, wakeRequested: Option<Time>, wakeDeadline: Option<Time>)

  datatype Availability = Available | Waking | Unavailable

  function AvailabilityOf(cfg: Config, w: Worker, now: Time): Availability {
    if w.lastSeen + cfg.availableSeconds * SECOND >= now then Available
    else if w.wakeDeadline.Some? && w.wakeDeadline.value >= now then Waking
    else Unavailable
  }

  // The journals are the full histories; the database keeps Retained(history) of each.
  datatype Store = Store(jobs: Table, workers: map<WorkerId, Worker>, journals: map<WorkerId, Journal>)

  function JournalOf(journals: map<WorkerId, Journal>, id: WorkerId): Journal {
    if id in journals then journals[id] else []
  }

  function Log(s: Store, id: WorkerId, e: PowerEvent): Store {
    s.(journals := s.journals[id := JournalOf(s.journals, id) + [e]])
  }

  // Jobs waiting for these capabilities, as the wake logic asks for them.
  predicate Waiting(jobs: Table, kinds: set<JobType>) {
    exists id :: id in jobs && Dispatchable(jobs[id].job.status) && jobs[id].job.kind in kinds
  }

  // ------------------------------------------------------------ registration

  const LATE_ANSWER_SECONDS: int := 1800

  // Seconds of a duration, rounded half to even.
  function RoundSeconds(d: Time): int {
    var q, r := d / SECOND, d % SECOND;
    if 2 * r < SECOND || (2 * r == SECOND && q % 2 == 0) then q else q + 1
  }

  function Elapsed(requested: Time, now: Time): nat { Max(0, RoundSeconds(now - requested)) }

  function AnswerTo(last: PowerEvent, expired: bool, elapsed: nat): Answer {
    if !expired && last.WakeSent? then OnTime(elapsed)
    else if elapsed <= LATE_ANSWER_SECONDS then Late(elapsed)
    else Manual
  }

  function LogOnline(s: Store, id: WorkerId, requested: Time, now: Time, expired: bool): Store {
    var kept := Retained(JournalOf(s.journals, id));
    if kept != [] && AwaitsAnswer(Last(kept))
    then Log(s, id, WorkerOnline(now, AnswerTo(Last(kept), expired, Elapsed(requested, now))))
    else s
  }

  function RegisteredRow(existing: Option<Worker>, caps: set<JobType>, mac: Option<string>, now: Time): Worker {
    match existing
    case None => Worker(caps, mac, now, now, false, None, None)
    case Some(row) =>
      var waking := row.wakeDeadline.Some? && row.wakeDeadline.value >= now;
      var woken := row.woken && waking;
      Worker(caps, if mac.None? then row.mac else mac, row.registeredAt, now, woken,
             if woken then row.wakeRequested else None, if woken then row.wakeDeadline else None)
  }

  function WorkerOf(s: Store, id: WorkerId): Option<Worker> {
    if id in s.workers then Some(s.workers[id]) else None
  }

  function Register(s: Store, id: WorkerId, caps: set<JobType>, mac: Option<string>, now: Time): Result<Store, Refusal> {
    if exists k :: k in caps && k.Unsupported? then Err(Invalid) else
    var before := WorkerOf(s, id);
    var s1 := s.(workers := s.workers[id := RegisteredRow(before, caps, mac, now)]);
    if before.Some? && before.value.wakeRequested.Some?
    then Ok(LogOnline(s1, id, before.value.wakeRequested.value, now,
                      before.value.wakeDeadline.Some? && before.value.wakeDeadline.value < now))
    else Ok(s1)
  }

  // ------------------------------------------------------------------ waking

  // The number of the next wake in its cycle, as far as the retained events tell.
  function NextAttempt(h: Journal): nat { CycleTimeouts(Retained(h)) + 1 }

  function MarkWaking(cfg: Config, s: Store, id: WorkerId, timeout: int, trigger: Trigger, now: Time): Result<Store, Refusal> {
    if !(10 <= timeout <= 1800) then Err(Invalid)
    else if id !in s.workers then Err(NotFound)
    else if AvailabilityOf(cfg, s.workers[id], now).Available? then Ok(s)
    else
      var attempt := NextAttempt(JournalOf(s.journals, id));
      var s1 := s.(workers := s.workers[id := s.workers[id].(woken := true, wakeRequested := Some(now),
                                                            wakeDeadline := Some(now + timeout * SECOND))]);
      Ok(Log(s1, id, WakeSent(now, trigger, attempt, timeout)))
  }

  // The wake of this worker ran out and nobody has noted it yet.
  predicate WakeRanOut(cfg: Config, s: Store, id: WorkerId, now: Time) {
    && id in s.workers && s.workers[id].wakeDeadline.Some? && s.workers[id].wakeDeadline.value < now
    && !AvailabilityOf(cfg, s.workers[id], now).Available?
    && var kept := Retained(JournalOf(s.journals, id)); kept != [] && Last(kept).WakeSent?
  }

  function SettledJournal(cfg: Config, s: Store, id: WorkerId, maxAttempts: nat, now: Time): Journal {
    var h := JournalOf(s.journals, id);
    if !WakeRanOut(cfg, s, id, now) then h else
    var attempt := NextAttempt(h);
    var noted := h + [WakeTimeout(s.workers[id].wakeDeadline.value, attempt)];
    if attempt >= maxAttempts && Waiting(s.jobs, s.workers[id].capabilities)
    then noted + [WakeAbandoned(now, attempt)] else noted
  }

  // Settling looks at each worker by itself.
  function Settle(cfg: Config, s: Store, maxAttempts: nat, now: Time): Store {
    s.(journals := map id | id in s.journals.Keys + s.workers.Keys :: SettledJournal(cfg, s, id, maxAttempts, now))
  }

  // A silent worker that may be woken again.
  predicate RetryCandidate(cfg: Config, s: Store, id: WorkerId, delay: nat, maxAttempts: nat, now: Time) {
    && id in s.workers
    && RetryDue(Retained(JournalOf(s.journals, id)), maxAttempts)
    && Last(Retained(JournalOf(s.journals, id))).at + delay * SECOND <= now
    && Waiting(s.jobs, s.workers[id].capabilities)
    && AvailabilityOf(cfg, s.workers[id], now).Unavailable?
  }

  // Settle, then wake one silent worker again: the packet leaves, or sending it fails. The worker
  // is the one the query returned first; `chosen` is None when no worker or no address was found.
  function RetryUnansweredWake(cfg: Config, s: Store, chosen: Option<WorkerId>, sent: bool, delay: nat,
                               maxAttempts: nat, timeout: int, now: Time): Store
  {
    var s1 := Settle(cfg, s, maxAttempts, now);
    if chosen.None? || !RetryCandidate(cfg, s1, chosen.value, delay, maxAttempts, now) then s1
    else if !sent then Log(s1, chosen.value, WakeFailed(now, Retry))
    else
      var marked := MarkWaking(cfg, s1, chosen.value, timeout, Retry, now);
      if marked.Ok? then marked.value else s1
  }

  // ---------------------------------------------------------------- shutdown

  function Touch(s: Store, id: WorkerId, now: Time): Store {
    if id in s.workers then s.(workers := s.workers[id := s.workers[id].(lastSeen := now)]) else s
  }

  // Work that keeps a worker on: a live job of its types or its own, or any unprocessed ending.
  predicate KeepsOn(row: Row, caps: set<JobType>, id: WorkerId) {
    || (Live(row.job.status) && (row.job.kind in caps || row.job.worker == Some(id)))
    || !row.job.processed
  }

  predicate MayShutDown(s: Store, id: WorkerId) {
    && id in s.workers && s.workers[id].woken
    && forall j :: j in s.jobs ==> !KeepsOn(s.jobs[j], s.workers[id].capabilities, id)
  }

  function GrantShutdown(s: Store, id: WorkerId, now: Time): Store {
    var kept := Retained(JournalOf(s.journals, id));
    if kept != [] && Last(kept).ShutdownGranted? then s else Log(s, id, ShutdownGranted(now))
  }

  // What a poll answers: a leased job, or permission to shut down, or neither.
  datatype PollReply = PollReply(job: Option<JobId>, shutdown: bool)

  ghost function Poll(cfg: Config, s: Store, id: WorkerId, kinds: set<JobType>, settle: bool, allow: bool,
                      now: Time): (Store, PollReply)
  {
    if !Compatible(kinds) then (s, PollReply(None, false)) else
    var r := Recover(cfg, s.jobs, now);
    var s1 := Touch(s, id, now).(jobs := Lease(cfg, r, id, kinds, now));
    if Oldest(r, kinds).Some? then (s1, PollReply(Oldest(r, kinds), false))
    else if settle && allow && MayShutDown(s1, id) then (GrantShutdown(s1, id, now), PollReply(None, true))
    else (s1, PollReply(None, false))
  }

  function ReportPower(s: Store, id: WorkerId, started: bool, now: Time): Result<Store, Refusal> {
    if id !in s.workers then Err(NotFound) else
    var s1 := Log(s, id, if started then ShutdownStarted(now) else ShutdownVetoed(now));
    Ok(s1.(workers := s.workers[id := s.workers[id].(woken := false, wakeRequested := None, wakeDeadline := None)]))
  }

  // -------------------------------------------------------------------- runs

  datatype Op =
    | QueueOp(call: Call)   // every job call but claims
    | PollOp(id: WorkerId, kinds: set<JobType>, settle: bool, allow: bool)
    | RegisterOp(id: WorkerId, caps: set<JobType>, mac: Option<string>)
    | WakeOp(id: WorkerId, timeout: int, trigger: Trigger)
    | SettleOp(maxAttempts: nat)
    | RetryOp(chosen: Option<WorkerId>, sent: bool, delay: nat, timeout: int)
    | ReportOp(id: WorkerId, started: bool)
    | WakeFailureOp(id: WorkerId, trigger: Trigger)

  function StoreOr(r: Result<Store, Refusal>, s: Store): Store { if r.Ok? then r.value else s }

  // A successful heartbeat renewal or transfer authorization also notes that its worker is there.
  ghost predicate Touches(cfg: Config, t: Table, call: Call, now: Time) {
    match call
    case HeartbeatCall(id, worker, attempt, _) =>
      id in Recover(cfg, t, now) && Owns(Recover(cfg, t, now)[id].job, worker, attempt)
    case AuthorizeCall(id, worker, attempt, permitted) => Authorize(cfg, t, id, worker, attempt, permitted, now).Ok?
    case _ => false
  }

  ghost function Step(cfg: Config, maxAttempts: nat, s: Store, op: Op, now: Time): Store {
    match op
    case QueueOp(call) =>
      var s1 := if Touches(cfg, s.jobs, call, now) then Touch(s, call.worker, now) else s;
      if call.ClaimCall? then s else s1.(jobs := Apply(cfg, s.jobs, call, now))
    case PollOp(id, kinds, settle, allow) => Poll(cfg, s, id, kinds, settle, allow, now).0
    case RegisterOp(id, caps, mac) => StoreOr(Register(s, id, caps, mac, now), s)
    case WakeOp(id, timeout, trigger) =>
      // Only the retry step wakes with the retry trigger.
      if trigger.Retry? then s else StoreOr(MarkWaking(cfg, s, id, timeout, trigger, now), s)
    case SettleOp(max) => Settle(cfg, s, max, now)
    case RetryOp(chosen, sent, delay, timeout) =>
      RetryUnansweredWake(cfg, s, chosen, sent, delay, maxAttempts, timeout, now)
    case ReportOp(id, started) => StoreOr(ReportPower(s, id, started, now), s)
    case WakeFailureOp(id, trigger) => Log(s, id, WakeFailed(now, trigger))
  }
}
