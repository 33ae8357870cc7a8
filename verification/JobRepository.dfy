/** The repository itself: one object whose fields are the database tables, updated call by call.

    Each method states the store it leaves as a function of the store it found; the theorems in
    JobTheorems and WorkerCycles are about those functions. */
module JobRepository {
  import opened Common
  import opened Jobs
  import opened PowerJournal
  import opened Workers
  import JobInvariants
  import JobTheorems

  const PAGE: nat := 16

  // Endings nobody reports: the worker is gone, so the agent itself must expose them.
  predicate FailedEnding(s: Status) { s.Failed? || s.TimedOut? || s.Cancelled? }

  predicate Unprocessed(t: Table, failuresOnly: bool, id: JobId) {
    id in t && !t[id].job.processed && (failuresOnly ==> FailedEnding(t[id].job.status))
  }

  // NULL finish times sort first.
  predicate FinishesBefore(t: Table, a: JobId, b: JobId) {
    && a in t && b in t
    && match (t[a].job.finishedAt, t[b].job.finishedAt)
       case (None, None) => a <= b
       case (None, Some(_)) => true
       case (Some(_), None) => false
       case (Some(x), Some(y)) => x < y || (x == y && a <= b)
  }

  // Rows that can still enter the list of failed endings to process, or are in it.
  function Unsettled(t: Table): set<JobId> {
    set id | id in t && (Live(t[id].job.status) || !t[id].job.processed)
  }

  // The endings listed: not processed yet, of any kind or only those nobody reports.
  lemma ListedEndings(t: Table, failuresOnly: bool, id: JobId)
    ensures Unprocessed(t, failuresOnly, id) <==>
              id in t && !t[id].job.processed
              && (failuresOnly ==> t[id].job.status in {Failed, TimedOut, Cancelled})
  {
  }

  // They are listed by the instant of their end, then by id.
  lemma EarlierEndingFirst(t: Table, a: JobId, b: JobId, x: Time, y: Time)
    requires a in t && b in t && t[a].job.finishedAt == Some(x) && t[b].job.finishedAt == Some(y)
    ensures FinishesBefore(t, a, b) <==> x < y || (x == y && a <= b)
  {
  }

  lemma RecoverySettles(cfg: Config, t: Table, now: Time)
    ensures Unsettled(Recover(cfg, t, now)) <= Unsettled(t)
  {
  }

  // Settling one worker reads no other worker's journal.
  lemma SettledJournalIsLocal(cfg: Config, a: Store, b: Store, id: WorkerId, maxAttempts: nat, now: Time)
    requires a.jobs == b.jobs && a.workers == b.workers && JournalOf(a.journals, id) == JournalOf(b.journals, id)
    ensures SettledJournal(cfg, a, id, maxAttempts, now) == SettledJournal(cfg, b, id, maxAttempts, now)
  {
  }

  // The database settled worker by worker looks to a retry like the store settled at once.
  lemma SettleIsPointwise(cfg: Config, before: Store, after: Store, chosen: Option<WorkerId>, delay: nat,
                          maxAttempts: nat, now: Time)
    requires after.jobs == before.jobs && after.workers == before.workers
    requires forall id :: JournalOf(after.journals, id) == SettledJournal(cfg, before, id, maxAttempts, now)
    ensures var s := Settle(cfg, before, maxAttempts, now);
            && (forall id :: JournalOf(after.journals, id) == JournalOf(s.journals, id))
            && (chosen.Some? ==> RetryCandidate(cfg, after, chosen.value, delay, maxAttempts, now)
                                 == RetryCandidate(cfg, s, chosen.value, delay, maxAttempts, now))
  {
  }

  class Repository {
    const cfg: Config
    var jobs: Table
    var workers: map<WorkerId, Worker>
    var journals: map<WorkerId, Journal>
    ghost var histories: map<WorkerId, Journal>   // every power event ever written

    ghost predicate Valid()
      reads this
    {
      && cfg.Valid()
      && journals.Keys == histories.Keys
      && forall id :: id in histories ==> journals[id] == Retained(histories[id])
    }

    ghost function Contents(): Store
      reads this
    {
      Store(jobs, workers, histories)
    }

    constructor (cfg: Config)
      requires cfg.Valid()
      ensures Valid() && this.cfg == cfg && Contents() == Store(map[], map[], map[])
    {
      this.cfg := cfg;
      jobs, workers, journals, histories := map[], map[], map[], map[];
    }

    // ------------------------------------------------------------ recovery

    method TransitionLocked(id: JobId, status: Status, now: Time, detail: Detail, finish: bool,
                            clearLease: bool, clearOwner: bool, error: Option<JobError>)
      requires id in jobs
      modifies this`jobs
      ensures jobs == old(jobs)[id := Transition(old(jobs)[id], status, now, detail, finish, clearLease, clearOwner, error)]
    {
      var job := jobs[id].job;
      var trail := jobs[id].trail + [Event(Some(job.status), status, now, detail)];
      job := job.(status := status, updatedAt := now);
      if finish { job := job.(finishedAt := Some(now)); }
      if clearOwner { job := job.(worker := None); }
      if clearLease { job := job.(lease := None); }
      if error.Some? { job := job.(error := error); }
      if Terminal(status) && Followed(job.kind) { job := job.(processed := false); }
      jobs := jobs[id := Row(job, trail)];
    }

    method RecoverOne(id: JobId, now: Time)
      requires id in jobs && Live(jobs[id].job.status)
      modifies this`jobs
      ensures jobs == old(jobs)[id := RecoverRow(cfg, old(jobs)[id], now)]
    {
      var job := jobs[id].job;
      if Deadline(job) <= now {
        var unclaimed := job.attempt == 0;
        TransitionLocked(id, TimedOut, now, if unclaimed then NoWorkerBeforeTimeout else TimeoutElapsed,
                         true, true, false, if unclaimed then Some(WorkerUnavailable) else None);
        return;
      }
      if job.status.Running? && job.lease.Some? && job.lease.value <= now {
        if job.attempt >= cfg.maxAttempts {
          TransitionLocked(id, Failed, now, GaveUp(job.attempt), true, true, false, Some(WorkerInterrupted(job.attempt)));
          return;
        }
        TransitionLocked(id, Queued, now, LeaseExpired(job.attempt), false, true, true, None);
        return;
      }
      if job.status.Queued? && job.createdAt + cfg.waitingAfter * SECOND <= now {
        TransitionLocked(id, WaitingWorker, now, NoCompatibleWorker, false, false, false, None);
      }
    }

    method PurgeLocked(now: Time)
      modifies this`jobs
      ensures jobs == map id | id in old(jobs) && !Purgeable(cfg, old(jobs)[id], now) :: old(jobs)[id]
    {
      var expired := set id | id in jobs && Purgeable(cfg, jobs[id], now);
      assert forall id :: id in jobs ==> (id in expired <==> Purgeable(cfg, jobs[id], now));
      if expired == {} { return; }
      jobs := jobs - expired;
    }

    method RecoverLocked(now: Time)
      modifies this`jobs
      ensures jobs == Recover(cfg, old(jobs), now)
    {
      ghost var before := jobs;
      var todo := set id | id in jobs && Live(jobs[id].job.status);
      while todo != {}
        invariant todo <= jobs.Keys && jobs.Keys == before.Keys
        invariant forall id :: id in todo ==> Live(before[id].job.status)
        invariant forall id :: id in jobs ==> jobs[id] == if id in todo then before[id] else RecoverRow(cfg, before[id], now)
        decreases todo
      {
        var id :| id in todo;
        RecoverOne(id, now);
        todo := todo - {id};
      }
      PurgeLocked(now);
    }

    // --------------------------------------------------------------- calls

    method CreateJob(req: Request, now: Time) returns (reply: Result<Job, Refusal>)
      requires Valid()
      modifies this`jobs
      ensures Valid()
      ensures var after := Create(cfg, old(jobs), req, now);
              match after
              case Ok(t) => jobs == t && req.id in t && reply == Ok(t[req.id].job)
              case Err(e) => jobs == old(jobs) && reply == Err(e)
    {
      if !Acceptable(req, now) { return Err(Invalid); }
      var saved := jobs;
      RecoverLocked(now);
      if req.id in jobs {
        if jobs[req.id].job.request != Normalized(cfg, req, now) {
          jobs := saved;
          return Err(Conflict);
        }
        return Ok(jobs[req.id].job);
      }
      var active := set id | id in jobs && !Terminal(jobs[id].job.status);
      assert active == Active(jobs);
      if |active| >= cfg.maxActive {
        jobs := saved;
        return Err(Invalid);
      }
      jobs := jobs[req.id := NewRow(cfg, req, now)];
      return Ok(jobs[req.id].job);
    }

    method CancelJob(id: JobId, now: Time) returns (reply: Result<Job, Refusal>)
      requires Valid()
      modifies this`jobs
      ensures Valid()
      ensures match Cancel(cfg, old(jobs), id, now)
              case Ok(t) => jobs == t && id in t && reply == Ok(t[id].job)
              case Err(e) => jobs == old(jobs) && reply == Err(e)
    {
      var saved := jobs;
      RecoverLocked(now);
      if id !in jobs {
        jobs := saved;
        return Err(NotFound);
      }
      if !jobs[id].job.status.Cancelled? {
        if Terminal(jobs[id].job.status) {
          jobs := saved;
          return Err(Conflict);
        }
        TransitionLocked(id, Cancelled, now, CancelledByTsunade, true, true, false, None);
      }
      return Ok(jobs[id].job);
    }

    // The dispatch query: the first candidate by creation instant, then id.
    method FindOldest(kinds: set<JobType>) returns (first: Option<JobId>)
      ensures first == Oldest(jobs, kinds)
    {
      first := None;
      var todo := set id | id in jobs && Candidate(jobs, kinds, id);
      ghost var all := todo;
      while todo != {}
        invariant todo <= all
        invariant first.Some? ==> first.value in all
        invariant first.None? ==> todo == all
        invariant first.Some? ==> forall id :: id in all && id !in todo ==> Before(jobs, first.value, id)
        decreases todo
      {
        var id :| id in todo;
        if first.None? || !Before(jobs, first.value, id) { first := Some(id); }
        todo := todo - {id};
      }
      JobTheorems.ClaimServesTheOldest(jobs, kinds);
      JobInvariants.OldestIsCandidate(jobs, kinds);
      forall id | Candidate(jobs, kinds, id) ensures id in all {}
      if first.Some? {
        assert IsOldest(jobs, kinds, first.value);
      }
    }

    method PollJob(id: WorkerId, kinds: set<JobType>, settle: bool, allow: bool, now: Time) returns (reply: PollReply)
      requires Valid()
      modifies this
      ensures Valid()
      ensures (Contents(), reply) == Poll(cfg, old(Contents()), id, kinds, settle, allow, now)
    {
      if !(exists k :: k in kinds && !k.Unsupported?) { return PollReply(None, false); }
      RecoverLocked(now);
      ghost var recovered := jobs;
      TouchWorker(id, now);
      var first := FindOldest(kinds);
      JobInvariants.OldestIsCandidate(jobs, kinds);
      if first.None? {
        var shutdown := false;
        if settle && allow { shutdown := IdleShutdown(id, now); }
        return PollReply(None, shutdown);
      }
      jobs := jobs[first.value := Leased(cfg, jobs[first.value], id, now)];
      return PollReply(first, false);
    }

    method HeartbeatJob(id: JobId, worker: WorkerId, attempt: nat, progress: Option<string>, now: Time)
      returns (reply: Result<Job, Refusal>)
      requires Valid()
      modifies this`jobs, this`workers
      ensures Valid()
      ensures match Heartbeat(cfg, old(jobs), id, worker, attempt, progress, now)
              case Ok(t) => jobs == t && id in t && reply == Ok(t[id].job)
              case Err(e) => jobs == old(jobs) && reply == Err(e)
      ensures workers == Step(cfg, 0, old(Contents()), QueueOp(HeartbeatCall(id, worker, attempt, progress)), now).workers
    {
      var saved := jobs;
      RecoverLocked(now);
      if id !in jobs {
        jobs := saved;
        return Err(NotFound);
      }
      var job := jobs[id].job;
      if job.status.Cancelled? || job.status.TimedOut? {
        if !AttemptOwner(job, worker, attempt) {
          jobs := saved;
          return Err(Conflict);
        }
        return Ok(job);
      }
      if !Owns(job, worker, attempt) {
        jobs := saved;
        return Err(Conflict);
      }
      TouchWorker(worker, now);
      jobs := jobs[id := Renewed(cfg, jobs[id], progress, now)];
      return Ok(jobs[id].job);
    }

    method CompleteJob(id: JobId, worker: WorkerId, attempt: nat, outcome: Outcome, now: Time)
      returns (reply: Result<Job, Refusal>)
      requires Valid()
      modifies this`jobs
      ensures Valid()
      ensures match Complete(cfg, old(jobs), id, worker, attempt, outcome, now)
              case Ok(t) => jobs == t && id in t && reply == Ok(t[id].job)
              case Err(e) => jobs == old(jobs) && reply == Err(e)
    {
      var saved := jobs;
      RecoverLocked(now);
      if id !in jobs {
        jobs := saved;
        return Err(NotFound);
      }
      if outcome.BadResult? {
        jobs := saved;
        return Err(Invalid);
      }
      var job := jobs[id].job;
      if job.status.Succeeded? || job.status.Failed? {
        if SameCompletion(job, outcome) { return Ok(job); }
        jobs := saved;
        return Err(Conflict);
      }
      if !Owns(job, worker, attempt) {
        jobs := saved;
        return Err(Conflict);
      }
      if CompletionProcessed(job.kind) { job := job.(processed := false); }
      job := job.(status := OutcomeStatus(outcome), finishedAt := Some(now), result := OutcomeResult(outcome),
                  error := OutcomeError(outcome), lease := None, updatedAt := now);
      jobs := jobs[id := Row(job, jobs[id].trail + [Event(Some(Running), OutcomeStatus(outcome), now, CompletedBy(worker))])];
      return Ok(job);
    }

    method AuthorizeTransfer(id: JobId, worker: WorkerId, attempt: nat, permitted: set<JobType>, now: Time)
      returns (reply: Result<Job, Refusal>)
      requires Valid()
      modifies this`jobs, this`workers
      ensures Valid()
      ensures match Authorize(cfg, old(jobs), id, worker, attempt, permitted, now)
              case Ok(t) => jobs == t && id in t && reply == Ok(t[id].job)
              case Err(e) => jobs == old(jobs) && reply == Err(e)
      ensures workers == Step(cfg, 0, old(Contents()), QueueOp(AuthorizeCall(id, worker, attempt, permitted)), now).workers
    {
      var saved := jobs;
      RecoverLocked(now);
      if id !in jobs {
        jobs := saved;
        return Err(NotFound);
      }
      if !Owns(jobs[id].job, worker, attempt) || jobs[id].job.kind !in permitted {
        jobs := saved;
        return Err(Conflict);
      }
      TouchWorker(worker, now);
      return Ok(jobs[id].job);
    }

    method MarkCompletionProcessed(id: JobId)
      modifies this`jobs
      ensures jobs == MarkProcessed(old(jobs), id)
    {
      if id in jobs { jobs := jobs[id := jobs[id].(job := jobs[id].job.(processed := true))]; }
    }

    // ---------------------------------------------------- failed endings

    method NextUnprocessed(failuresOnly: bool, taken: set<JobId>) returns (first: Option<JobId>)
      ensures first.None? ==> forall id :: Unprocessed(jobs, failuresOnly, id) ==> id in taken
      ensures first.Some? ==> Unprocessed(jobs, failuresOnly, first.value) && first.value !in taken
      ensures first.Some? ==> forall id :: Unprocessed(jobs, failuresOnly, id) && id !in taken ==>
                                FinishesBefore(jobs, first.value, id)
    {
      first := None;
      var todo := set id | id in jobs && Unprocessed(jobs, failuresOnly, id) && id !in taken;
      ghost var all := todo;
      while todo != {}
        invariant todo <= all
        invariant first.Some? ==> first.value in all
        invariant first.None? ==> todo == all
        invariant first.Some? ==> forall id :: id in all && id !in todo ==> FinishesBefore(jobs, first.value, id)
        decreases todo
      {
        var id :| id in todo;
        if first.None? || !FinishesBefore(jobs, first.value, id) { first := Some(id); }
        todo := todo - {id};
      }
      forall id | Unprocessed(jobs, failuresOnly, id) && id !in taken ensures id in all {}
    }

    // The first page of endings to process, oldest first; nothing unlisted comes before what is listed.
    method PendingCompletions(failuresOnly: bool, now: Time) returns (page: seq<JobId>)
      requires Valid()
      modifies this`jobs
      ensures Valid()
      ensures jobs == Recover(cfg, old(jobs), now)
      ensures |page| <= 16
      ensures forall id :: id in page ==> Unprocessed(jobs, failuresOnly, id)
      ensures forall i, j :: 0 <= i < j < |page| ==> page[i] != page[j] && FinishesBefore(jobs, page[i], page[j])
      ensures forall id :: Unprocessed(jobs, failuresOnly, id) && id !in page ==>
                |page| == 16 && forall i :: 0 <= i < |page| ==> FinishesBefore(jobs, page[i], id)
    {
      RecoverLocked(now);
      ghost var recovered := jobs;
      page := [];
      var taken: set<JobId> := {};
      while |page| < PAGE
        invariant jobs == recovered && |page| <= PAGE
        invariant forall id :: id in page <==> id in taken
        invariant forall id :: id in page ==> Unprocessed(jobs, failuresOnly, id)
        invariant forall i, j :: 0 <= i < j < |page| ==> page[i] != page[j] && FinishesBefore(jobs, page[i], page[j])
        invariant forall id :: Unprocessed(jobs, failuresOnly, id) && id !in page ==>
                    forall i :: 0 <= i < |page| ==> FinishesBefore(jobs, page[i], id)
        decreases PAGE - |page|
      {
        var first := NextUnprocessed(failuresOnly, taken);
        if first.None? { return; }
        page := page + [first.value];
        taken := taken + {first.value};
      }
    }

    method ProcessPage(page: seq<JobId>)
      modifies this`jobs
      ensures jobs.Keys == old(jobs).Keys
      ensures forall id :: id in jobs ==>
                jobs[id] == old(jobs)[id].(job := old(jobs)[id].job.(processed := old(jobs)[id].job.processed || id in page))
    {
      for i := 0 to |page|
        invariant jobs.Keys == old(jobs).Keys
        invariant forall id :: id in jobs ==>
                    jobs[id] == old(jobs)[id].(job := old(jobs)[id].job.(processed := old(jobs)[id].job.processed || id in page[..i]))
      {
        MarkCompletionProcessed(page[i]);
        assert page[..i + 1] == page[..i] + [page[i]];
      }
      assert page[..|page|] == page;
    }

    // One round: list the oldest failed endings and process them.
    method RefreshRound(now: Time) returns (more: bool)
      requires Valid()
      modifies this`jobs
      ensures Valid()
      ensures jobs.Keys <= old(jobs).Keys
      ensures more ==> Unsettled(jobs) < Unsettled(old(jobs))
      ensures !more ==> jobs == Recover(cfg, old(jobs), now) && forall id :: !Unprocessed(jobs, true, id)
    {
      ghost var before := jobs;
      RecoverySettles(cfg, jobs, now);
      var pending := PendingCompletions(true, now);
      ghost var listed := jobs;
      ProcessPage(pending);
      more := pending != [];
      if more {
        assert pending[0] in pending;
        assert pending[0] in Unsettled(listed) && pending[0] !in Unsettled(jobs);
        assert Unsettled(jobs) <= Unsettled(listed);
      } else {
        assert jobs == listed;
      }
    }

    // Process failed endings round by round until a fresh look finds none. The clock is read once
    // a round; it may show anything.
    method RefreshFailedJobs(clock: nat -> Time) returns (rounds: nat)
      requires Valid()
      modifies this`jobs
      ensures Valid()
      ensures forall id :: id in jobs && jobs[id].job.status in {Failed, TimedOut, Cancelled} ==> jobs[id].job.processed
      ensures 1 <= rounds <= |Unsettled(old(jobs))| + 1
      ensures jobs.Keys <= old(jobs).Keys
    {
      rounds := 0;
      var more := true;
      while more
        invariant Valid() && jobs.Keys <= old(jobs).Keys
        invariant if more then rounds + |Unsettled(jobs)| <= |Unsettled(old(jobs))|
                  else 1 <= rounds <= |Unsettled(old(jobs))| + 1
        invariant !more ==> forall id :: !Unprocessed(jobs, true, id)
        decreases more, Unsettled(jobs)
      {
        ghost var before := Unsettled(jobs);
        more := RefreshRound(clock(rounds));
        rounds := rounds + 1;
        if more { SmallerSet(Unsettled(jobs), before); }
      }
      forall id | id in jobs && jobs[id].job.status in {Failed, TimedOut, Cancelled} ensures jobs[id].job.processed {
        assert !Unprocessed(jobs, true, id);
      }
    }

    // ------------------------------------------------------------- workers

    method TouchWorker(id: WorkerId, now: Time)
      modifies this`workers
      ensures workers == Touch(Store(jobs, old(workers), histories), id, now).workers
    {
      if id in workers { workers := workers[id := workers[id].(lastSeen := now)]; }
    }

    function Kept(id: WorkerId): Journal
      reads this
    {
      JournalOf(journals, id)
    }

    lemma KeptIsRetained(id: WorkerId)
      requires Valid()
      ensures Kept(id) == Retained(JournalOf(histories, id))
    {
    }

    // Append one event, then delete all but the newest.
    method PowerEventLocked(id: WorkerId, e: PowerEvent)
      requires Valid()
      modifies this`journals, this`histories
      ensures Valid()
      ensures Contents() == Log(old(Contents()), id, e)
    {
      LastNAppend(JournalOf(histories, id), e, RETENTION);
      histories := histories[id := JournalOf(histories, id) + [e]];
      journals := journals[id := Kept(id) + [e]];
      if |journals[id]| > RETENTION { journals := journals[id := journals[id][|journals[id]| - RETENTION..]]; }
    }

    method RegisterWorker(id: WorkerId, caps: set<JobType>, mac: Option<string>, now: Time) returns (reply: Result<Worker, Refusal>)
      requires Valid()
      modifies this`workers, this`journals, this`histories
      ensures Valid()
      ensures match Register(old(Contents()), id, caps, mac, now)
              case Ok(s) => Contents() == s && id in s.workers && reply == Ok(s.workers[id])
              case Err(e) => Contents() == old(Contents()) && reply == Err(e)
    {
      if exists k :: k in caps && k.Unsupported? { return Err(Invalid); }
      var existing := if id in workers then Some(workers[id]) else None;
      workers := workers[id := RegisteredRow(existing, caps, mac, now)];
      if existing.Some? && existing.value.wakeRequested.Some? {
        if Kept(id) != [] && AwaitsAnswer(Last(Kept(id))) {
          var expired := existing.value.wakeDeadline.Some? && existing.value.wakeDeadline.value < now;
          var elapsed := Elapsed(existing.value.wakeRequested.value, now);
          PowerEventLocked(id, WorkerOnline(now, AnswerTo(Last(Kept(id)), expired, elapsed)));
        }
      }
      return Ok(workers[id]);
    }

    method AttemptNumber(id: WorkerId) returns (attempt: nat)
      requires Valid()
      ensures attempt == NextAttempt(JournalOf(histories, id))
    {
      KeptIsRetained(id);
      CycleTimeoutsAreCounted(Kept(id));
      var unanswered := UnansweredWakes(Kept(id));
      attempt := unanswered + 1;
    }

    method MarkWorkerWaking(id: WorkerId, timeout: int, trigger: Trigger, now: Time) returns (reply: Result<Worker, Refusal>)
      requires Valid()
      modifies this`workers, this`journals, this`histories
      ensures Valid()
      ensures match MarkWaking(cfg, old(Contents()), id, timeout, trigger, now)
              case Ok(s) => Contents() == s && id in s.workers && reply == Ok(s.workers[id])
              case Err(e) => Contents() == old(Contents()) && reply == Err(e)
    {
      if timeout < 10 || timeout > 1800 { return Err(Invalid); }
      if id !in workers { return Err(NotFound); }
      if AvailabilityOf(cfg, workers[id], now).Available? { return Ok(workers[id]); }
      workers := workers[id := workers[id].(woken := true, wakeRequested := Some(now),
                                            wakeDeadline := Some(now + timeout * SECOND))];
      var attempt := AttemptNumber(id);
      PowerEventLocked(id, WakeSent(now, trigger, attempt, timeout));
      return Ok(workers[id]);
    }

    method RecordWakeFailure(id: WorkerId, trigger: Trigger, now: Time)
      requires Valid()
      modifies this`journals, this`histories
      ensures Valid()
      ensures Contents() == Log(old(Contents()), id, WakeFailed(now, trigger))
    {
      PowerEventLocked(id, WakeFailed(now, trigger));
    }

    method SettleWorker(id: WorkerId, maxAttempts: nat, now: Time)
      requires Valid() && id in workers && workers[id].wakeDeadline.Some?
      modifies this`journals, this`histories
      ensures Valid()
      ensures JournalOf(histories, id) == SettledJournal(cfg, old(Contents()), id, maxAttempts, now)
      ensures forall other :: other != id ==> JournalOf(histories, other) == JournalOf(old(histories), other)
    {
      var deadline := workers[id].wakeDeadline.value;
      if Kept(id) == [] || !Last(Kept(id)).WakeSent? || deadline >= now
         || AvailabilityOf(cfg, workers[id], now).Available? {
        return;
      }
      var attempt := AttemptNumber(id);
      PowerEventLocked(id, WakeTimeout(deadline, attempt));
      if attempt >= maxAttempts && Waiting(jobs, workers[id].capabilities) {
        PowerEventLocked(id, WakeAbandoned(now, attempt));
      }
    }

    method SettleUnansweredWakes(maxAttempts: nat, now: Time)
      requires Valid()
      modifies this`journals, this`histories
      ensures Valid()
      ensures forall id :: JournalOf(histories, id) == SettledJournal(cfg, old(Contents()), id, maxAttempts, now)
    {
      ghost var before := Contents();
      var todo := set id | id in workers && workers[id].wakeDeadline.Some?;
      while todo != {}
        invariant Valid() && todo <= workers.Keys
        invariant forall id :: id in todo ==> workers[id].wakeDeadline.Some?
        invariant forall id :: id in todo ==> JournalOf(histories, id) == JournalOf(before.journals, id)
        invariant forall id :: id !in todo ==> JournalOf(histories, id) == SettledJournal(cfg, before, id, maxAttempts, now)
        decreases todo
      {
        var id :| id in todo;
        SettledJournalIsLocal(cfg, before, Contents(), id, maxAttempts, now);
        SettleWorker(id, maxAttempts, now);
        todo := todo - {id};
      }
    }

    // Note the wakes that ran out, then look for a silent worker that may be woken again.
    method UnansweredWakeRetry(delay: nat, maxAttempts: nat, now: Time) returns (found: Option<WorkerId>)
      requires Valid()
      modifies this`journals, this`histories
      ensures Valid()
      ensures forall id :: JournalOf(histories, id) == SettledJournal(cfg, old(Contents()), id, maxAttempts, now)
      ensures found.Some? ==> RetryCandidate(cfg, Contents(), found.value, delay, maxAttempts, now)
      ensures found.None? ==> forall id :: !RetryCandidate(cfg, Contents(), id, delay, maxAttempts, now)
    {
      SettleUnansweredWakes(maxAttempts, now);
      ghost var settled := Contents();
      var todo := workers.Keys;
      while todo != {}
        invariant Valid() && Contents() == settled && todo <= workers.Keys
        invariant forall id :: id in workers && id !in todo ==> !RetryCandidate(cfg, Contents(), id, delay, maxAttempts, now)
        decreases todo
      {
        var id :| id in todo;
        KeptIsRetained(id);
        if Kept(id) != [] && Last(Kept(id)).WakeTimeout? && Last(Kept(id)).at + delay * SECOND <= now {
          CycleTimeoutsAreCounted(Kept(id));
          var unanswered := UnansweredWakes(Kept(id));
          if unanswered < maxAttempts && Waiting(jobs, workers[id].capabilities)
             && AvailabilityOf(cfg, workers[id], now).Unavailable? {
            return Some(id);
          }
        }
        todo := todo - {id};
      }
      return None;
    }

    // The retry step of the wake task: `addressed` says whether the worker found has an address to
    // wake, `sent` whether the packet left.
    method RetryUnanswered(addressed: bool, sent: bool, delay: nat, maxAttempts: nat, timeout: int, now: Time)
      returns (chosen: Option<WorkerId>)
      requires Valid() && 10 <= timeout <= 1800
      modifies this`workers, this`journals, this`histories
      ensures Valid()
      ensures var after := RetryUnansweredWake(cfg, old(Contents()), chosen, sent, delay, maxAttempts, timeout, now);
              workers == after.workers && forall id :: JournalOf(histories, id) == JournalOf(after.journals, id)
    {
      ghost var before := Contents();
      chosen := UnansweredWakeRetry(delay, maxAttempts, now);
      if !addressed { chosen := None; }
      SettleIsPointwise(cfg, before, Contents(), chosen, delay, maxAttempts, now);
      if chosen.Some? {
        if sent {
          var _ := MarkWorkerWaking(chosen.value, timeout, Retry, now);
        } else {
          RecordWakeFailure(chosen.value, Retry, now);
        }
      }
    }

    // Permission to shut down, journaled once however often it is asked for.
    method IdleShutdown(id: WorkerId, now: Time) returns (granted: bool)
      requires Valid()
      modifies this`journals, this`histories
      ensures Valid()
      ensures granted == MayShutDown(old(Contents()), id)
      ensures Contents() == if granted then GrantShutdown(old(Contents()), id, now) else old(Contents())
    {
      if id !in workers || !workers[id].woken { return false; }
      if exists j :: j in jobs && KeepsOn(jobs[j], workers[id].capabilities, id) { return false; }
      if Kept(id) == [] || !Last(Kept(id)).ShutdownGranted? {
        PowerEventLocked(id, ShutdownGranted(now));
      }
      return true;
    }

    method ReportWorkerPower(id: WorkerId, started: bool, now: Time) returns (reply: Result<Worker, Refusal>)
      requires Valid()
      modifies this`workers, this`journals, this`histories
      ensures Valid()
      ensures match ReportPower(old(Contents()), id, started, now)
              case Ok(s) => Contents() == s && id in s.workers && reply == Ok(s.workers[id])
              case Err(e) => Contents() == old(Contents()) && reply == Err(e)
    {
      if id !in workers { return Err(NotFound); }
      PowerEventLocked(id, if started then ShutdownStarted(now) else ShutdownVetoed(now));
      workers := workers[id := workers[id].(woken := false, wakeRequested := None, wakeDeadline := None)];
      return Ok(workers[id]);
    }
  }
}
