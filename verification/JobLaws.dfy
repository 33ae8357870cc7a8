/** What each job call means, said in instants, statuses and rows rather than through the functions
    that define it: how long a lease and a retention last, what a call stores, what becomes of a job. */
module JobLaws {
  import opened Common
  import opened Jobs
  import opened JobInvariants
  import opened JobTheorems

  // ------------------------------------------------------------------ leases

  // Calls that may change the row of a running job before its lease ends.
  predicate Addresses(call: Call, id: JobId) {
    || (call.HeartbeatCall? && call.id == id)
    || (call.CompleteCall? && call.id == id)
    || (call.CancelCall? && call.id == id)
    || (call.MarkProcessedCall? && call.id == id)
  }

  // Every call leaves this job alone and comes before the instant.
  ghost predicate Elsewhere(calls: seq<(Call, Time)>, id: JobId, until: Time) {
    forall k :: 0 <= k < |calls| ==> !Addresses(calls[k].0, id) && calls[k].1 < until
  }

  ghost predicate HeldBy(t: Table, id: JobId, worker: WorkerId, end: Time) {
    id in t && t[id].job.status.Running? && t[id].job.worker == Some(worker) && t[id].job.lease == Some(end)
  }

  lemma HeldRowRecovers(cfg: Config, t: Table, now: Time, id: JobId, worker: WorkerId, end: Time)
    requires cfg.Valid() && TableInv(cfg, t) && HeldBy(t, id, worker, end) && now < end
    ensures id in Recover(cfg, t, now) && Recover(cfg, t, now)[id] == t[id]
  {
    assert RowInv(cfg, t[id]);
  }

  lemma ClaimsLeaveRunningJobs(cfg: Config, t: Table, claimer: WorkerId, kinds: set<JobType>, now: Time, id: JobId)
    requires id in t && id in Recover(cfg, t, now) && Recover(cfg, t, now)[id] == t[id] && t[id].job.status.Running?
    ensures id in Claim(cfg, t, claimer, kinds, now) && Claim(cfg, t, claimer, kinds, now)[id] == t[id]
  {
    OldestIsCandidate(Recover(cfg, t, now), kinds);
  }

  lemma ReportsLeaveOtherJobs(cfg: Config, t: Table, call: Call, now: Time, id: JobId)
    requires call.HeartbeatCall? || call.CompleteCall? || call.AuthorizeCall?
    requires id in t && id in Recover(cfg, t, now) && Recover(cfg, t, now)[id] == t[id] && !Addresses(call, id)
    ensures id in Apply(cfg, t, call, now) && Apply(cfg, t, call, now)[id] == t[id]
  {
  }

  lemma HeldRowStays(cfg: Config, t: Table, call: Call, now: Time, id: JobId, worker: WorkerId, end: Time)
    requires cfg.Valid() && TableInv(cfg, t) && HeldBy(t, id, worker, end) && now < end && !Addresses(call, id)
    ensures id in Apply(cfg, t, call, now) && Apply(cfg, t, call, now)[id] == t[id]
  {
    HeldRowRecovers(cfg, t, now, id, worker, end);
    if call.ClaimCall? {
      ClaimsLeaveRunningJobs(cfg, t, call.worker, call.kinds, now, id);
    } else if call.HeartbeatCall? || call.CompleteCall? || call.AuthorizeCall? {
      ReportsLeaveOtherJobs(cfg, t, call, now, id);
    }
  }

  lemma {:induction false} HeldThroughCalls(cfg: Config, t: Table, calls: seq<(Call, Time)>, id: JobId, worker: WorkerId,
                                            end: Time)
    requires cfg.Valid() && TableInv(cfg, t) && HeldBy(t, id, worker, end) && Elsewhere(calls, id, end)
    ensures TableInv(cfg, RunFrom(cfg, t, calls))
    ensures id in RunFrom(cfg, t, calls) && RunFrom(cfg, t, calls)[id] == t[id]
  {
    if calls != [] {
      var shorter, last := calls[..|calls| - 1], calls[|calls| - 1];
      assert forall k :: 0 <= k < |shorter| ==> shorter[k] == calls[k];
      HeldThroughCalls(cfg, t, shorter, id, worker, end);
      var before := RunFrom(cfg, t, shorter);
      ApplyInv(cfg, before, last.0, last.1);
      HeldRowStays(cfg, before, last.0, last.1, id, worker, end);
    }
  }

  // What recovery at u makes of a job leased at `start`: its holder keeps it for leaseSeconds, within
  // the job's own deadline; then it is offered again while attempts remain.
  ghost predicate LeasedAt(cfg: Config, row: Row, start: Time, worker: WorkerId, after: Table, id: JobId, u: Time) {
    var job := row.job;
    var deadline := job.createdAt + job.timeout * SECOND;
    var end := start + cfg.leaseSeconds * SECOND;
    && id in after
    && var now := after[id].job;
       && (now.status.Running? && now.worker == Some(worker) <==> u < end && u < deadline)
       && (u < end && u < deadline ==> after[id] == row)
       && (u >= deadline ==> now.finishedAt == Some(u) && Ended(row, after[id], TimedOut, u, TimeoutElapsed, job.error))
       && (end <= u < deadline ==>
             if job.attempt < cfg.maxAttempts
             then now.finishedAt == None && now.worker == None && Ended(row, after[id], Queued, u, LeaseExpired(job.attempt), job.error)
             else now.finishedAt == Some(u)
                  && Ended(row, after[id], Failed, u, GaveUp(job.attempt), Some(WorkerInterrupted(job.attempt))))
  }

  // A running job taken from its holder: one event more, no lease, the rest as it was.
  ghost predicate Ended(before: Row, after: Row, status: Status, at: Time, detail: Detail, error: Option<JobError>) {
    && after.trail == before.trail + [Event(Some(before.job.status), status, at, detail)]
    && after.job.status == status && after.job.lease == None && after.job.error == error && after.job.updatedAt == at
    && after.job.attempt == before.job.attempt && after.job.result == before.job.result
    && after.job.request == before.job.request && after.job.startedAt == before.job.startedAt
    && after.job.progress == before.job.progress
    && after.job.processed == (before.job.processed
         && !(after.job.finishedAt.Some? && before.job.kind in {AiInference, LogsInvestigate}))
  }

  // When a lease begun at `start` is over: after leaseSeconds, and no later than the job's deadline.
  ghost function LeaseEnd(cfg: Config, job: Job, start: Time): Time {
    Min(job.createdAt + job.timeout * SECOND, start + cfg.leaseSeconds * SECOND)
  }

  lemma LeaseRunsOut(cfg: Config, t: Table, row: Row, calls: seq<(Call, Time)>, id: JobId, worker: WorkerId, start: Time,
                     u: Time)
    requires cfg.Valid() && TableInv(cfg, t) && HeldBy(t, id, worker, LeaseEnd(cfg, row.job, start)) && t[id] == row
    requires Elsewhere(calls, id, LeaseEnd(cfg, row.job, start))
    ensures LeasedAt(cfg, row, start, worker, Recover(cfg, RunFrom(cfg, t, calls), u), id, u)
  {
    HeldThroughCalls(cfg, t, calls, id, worker, LeaseEnd(cfg, row.job, start));
    HeldRecovers(cfg, RunFrom(cfg, t, calls), row, id, worker, start, u);
  }

  lemma HeldRecovers(cfg: Config, t: Table, row: Row, id: JobId, worker: WorkerId, start: Time, u: Time)
    requires cfg.Valid() && TableInv(cfg, t) && HeldBy(t, id, worker, LeaseEnd(cfg, row.job, start)) && t[id] == row
    ensures LeasedAt(cfg, row, start, worker, Recover(cfg, t, u), id, u)
  {
    assert RowInv(cfg, row);
    var recovered := RecoverRow(cfg, row, u);
    assert recovered.job.finishedAt.Some? ==> recovered.job.finishedAt.value == u;
    assert !Purgeable(cfg, recovered, u);
  }

  lemma ClaimHolds(cfg: Config, t: Table, worker: WorkerId, kinds: set<JobType>, now: Time, t1: Table, id: JobId)
    requires Compatible(kinds) && Oldest(Recover(cfg, t, now), kinds) == Some(id)
    requires t1 == Claim(cfg, t, worker, kinds, now)
    ensures id in t1 && HeldBy(t1, id, worker, LeaseEnd(cfg, t1[id].job, now))
  {
    OldestIsCandidate(Recover(cfg, t, now), kinds);
  }

  // A job claimed at `now`, whatever calls about other work come before its lease ends.
  lemma ClaimLasts(cfg: Config, t: Table, worker: WorkerId, kinds: set<JobType>, now: Time, t1: Table, id: JobId,
                   calls: seq<(Call, Time)>, u: Time)
    requires cfg.Valid() && TableInv(cfg, t) && Compatible(kinds) && Oldest(Recover(cfg, t, now), kinds) == Some(id)
    requires t1 == Claim(cfg, t, worker, kinds, now)
    requires id in t1 ==> Elsewhere(calls, id, LeaseEnd(cfg, t1[id].job, now))
    ensures id in t1 && LeasedAt(cfg, t1[id], now, worker, Recover(cfg, RunFrom(cfg, t1, calls), u), id, u)
  {
    ClaimInv(cfg, t, worker, kinds, now);
    ClaimHolds(cfg, t, worker, kinds, now, t1, id);
    LeaseRunsOut(cfg, t1, t1[id], calls, id, worker, now, u);
  }

  // The same of a job renewed at `now`; the renewal keeps the progress unless it brings a new one.
  lemma RenewalLasts(cfg: Config, t: Table, id: JobId, worker: WorkerId, attempt: nat, progress: Option<string>,
                     now: Time, calls: seq<(Call, Time)>, u: Time)
    requires cfg.Valid() && TableInv(cfg, t) && Holds(t, id, worker, attempt, now)
    requires Elsewhere(calls, id, LeaseEnd(cfg, t[id].job, now))
    ensures var reply := Heartbeat(cfg, t, id, worker, attempt, progress, now);
            && reply.Ok? && id in reply.value
            && reply.value[id].job.progress == (if progress.Some? then progress else t[id].job.progress)
            && reply.value[id].job.updatedAt == now && reply.value[id].trail == t[id].trail
            && reply.value[id].job.attempt == attempt && reply.value[id].job.status.Running?
            && LeasedAt(cfg, reply.value[id], now, worker, Recover(cfg, RunFrom(cfg, reply.value, calls), u), id, u)
  {
    HeartbeatIsFenced(cfg, t, id, worker, attempt, progress, now);
    HolderSurvivesRecovery(cfg, t, id, worker, attempt, now);
    HeartbeatInv(cfg, t, id, worker, attempt, progress, now);
    var t1 := OrElse(Heartbeat(cfg, t, id, worker, attempt, progress, now), t);
    LeaseRunsOut(cfg, t1, t1[id], calls, id, worker, now, u);
  }

  // --------------------------------------------------------------- retention

  lemma LiveJobIsNeverDropped(cfg: Config, t: Table, id: JobId, u: Time)
    requires cfg.Valid() && TableInv(cfg, t) && id in t && t[id].job.finishedAt == None
    ensures id in Recover(cfg, t, u)
  {
    assert RowInv(cfg, t[id]);
  }

  lemma EndedRow(cfg: Config, t: Table, id: JobId, ended: Time, u: Time)
    requires cfg.Valid() && TableInv(cfg, t) && id in t && t[id].job.finishedAt == Some(ended)
    ensures Terminal(t[id].job.status)
    ensures id in Recover(cfg, t, u) <==> u <= ended + cfg.retentionDays * DAY
    ensures Dropped(cfg, t, id, u) <==> u > ended + cfg.retentionDays * DAY
  {
    assert RowInv(cfg, t[id]);
  }

  // An ended job stays, whatever calls come up to retentionDays after its end, and the first recovery
  // later removes it.
  lemma {:induction false} EndedJobIsKept(cfg: Config, t: Table, calls: seq<(Call, Time)>, id: JobId, ended: Time, u: Time)
    requires cfg.Valid() && TableInv(cfg, t) && id in t && t[id].job.finishedAt == Some(ended)
    requires forall k :: 0 <= k < |calls| ==> calls[k].1 <= ended + cfg.retentionDays * DAY
    ensures TableInv(cfg, RunFrom(cfg, t, calls))
    ensures id in RunFrom(cfg, t, calls) && SameButProcessed(t[id], RunFrom(cfg, t, calls)[id])
    ensures id in Recover(cfg, RunFrom(cfg, t, calls), u) <==> u <= ended + cfg.retentionDays * DAY
  {
    if calls != [] {
      var shorter, last := calls[..|calls| - 1], calls[|calls| - 1];
      assert forall k :: 0 <= k < |shorter| ==> shorter[k] == calls[k];
      EndedJobIsKept(cfg, t, shorter, id, ended, last.1);
      var before := RunFrom(cfg, t, shorter);
      EndedRow(cfg, before, id, ended, last.1);
      ApplyInv(cfg, before, last.0, last.1);
      ApplyEvolves(cfg, before, last.0, last.1, id);
    }
    EndedRow(cfg, RunFrom(cfg, t, calls), id, ended, u);
  }

  // ---------------------------------------------------------------- creation

  predicate OfTheBatch(kind: JobType) { kind in {BackupInfra, LogsHealthCheck, LogsInvestigate, AiInference} }

  // A new job: what was asked for, waiting, with time to outlive the batch of 05:00 local time, and no
  // second more than that or than asked for.
  lemma CreatedJob(cfg: Config, t: Table, req: Request, now: Time)
    requires cfg.Valid() && Create(cfg, t, req, now).Ok? && req.id !in Recover(cfg, t, now)
    ensures var after := Create(cfg, t, req, now).value;
            && after.Keys == Recover(cfg, t, now).Keys + {req.id}
            && (forall id :: id in after && id != req.id ==> after[id] == Recover(cfg, t, now)[id])
            && var job := after[req.id].job;
               && job.kind == req.kind && job.createdAt == req.createdAt && job.parameters == req.parameters
               && job.status.Queued? && job.worker == None && job.attempt == 0 && job.lease == None
               && job.startedAt == None && job.finishedAt == None && job.result == None && job.error == None
               && job.processed && job.updatedAt == now && job.progress == None
               && after[req.id].trail == [Event(None, Created, now, Accepted), Event(Some(Created), Queued, now, Enqueued)]
               && var left := 5 * HOUR - (now + cfg.utcOffset) % DAY;
                  if OfTheBatch(req.kind) && left > 0
                  then job.timeout >= req.timeout && job.timeout * SECOND > left
                       && (job.timeout == req.timeout || (job.timeout - 1) * SECOND <= left)
                  else job.timeout == req.timeout
  {
  }

  ghost function Unended(t: Table): set<JobId> { set id | id in t && t[id].job.finishedAt.None? }

  // A request is invalid exactly when its own fields refuse it, or it is new and the queue is full.
  lemma InvalidRequest(cfg: Config, t: Table, req: Request, now: Time)
    requires cfg.Valid() && TableInv(cfg, t)
    ensures Create(cfg, t, req, now) == Err(Invalid) <==>
              || req.timeout < 1 || req.timeout > 86_400 || req.kind.Unsupported?
              || req.createdAt > now + 300 * SECOND || req.createdAt + req.timeout * SECOND <= now
              || (req.id !in Recover(cfg, t, now) && |Unended(Recover(cfg, t, now))| >= cfg.maxActive)
  {
    RecoverInv(cfg, t, now);
    var r := Recover(cfg, t, now);
    forall id | id in r ensures r[id].job.finishedAt.None? <==> !Terminal(r[id].job.status) { assert RowInv(cfg, r[id]); }
    assert Unended(r) == Active(r);
    assert 5 * MINUTE == 300 * SECOND;
  }

  // A job nobody claims is queued, then waits for a worker, then times out for want of one.
  lemma UnclaimedJob(cfg: Config, t: Table, req: Request, now: Time, u: Time)
    requires cfg.Valid() && Create(cfg, t, req, now).Ok? && req.id !in Recover(cfg, t, now)
    ensures var created := Create(cfg, t, req, now).value;
            var after := Recover(cfg, created, u);
            var deadline := req.createdAt + created[req.id].job.timeout * SECOND;
            && req.id in after
            && var job := after[req.id].job;
               if u >= deadline then
                 && job.finishedAt == Some(u)
                 && Ended(created[req.id], after[req.id], TimedOut, u, NoWorkerBeforeTimeout, Some(WorkerUnavailable))
               else if u >= req.createdAt + cfg.waitingAfter * SECOND then
                 && job.finishedAt == None
                 && Ended(created[req.id], after[req.id], WaitingWorker, u, NoCompatibleWorker, None)
               else after[req.id] == created[req.id]
  {
    var created := Create(cfg, t, req, now).value;
    assert created[req.id] == NewRow(cfg, req, now);
    assert !Purgeable(cfg, RecoverRow(cfg, NewRow(cfg, req, now), u), u);
  }

  // ------------------------------------------------------------------- claims

  // Waiting work of these types.
  predicate Waits(t: Table, kinds: set<JobType>, id: JobId) {
    && id in t && (t[id].job.status == Queued || t[id].job.status == WaitingWorker)
    && t[id].job.kind in kinds && !t[id].job.kind.Unsupported?
  }

  // A claim leases one job whenever one waits: the one created first, the least id among equals. It
  // runs under its worker with one attempt more, and no other job changes.
  lemma ClaimLeasesTheOldest(cfg: Config, t: Table, worker: WorkerId, kinds: set<JobType>, now: Time)
    returns (chosen: Option<JobId>)
    ensures chosen.None? <==> forall id :: !Waits(Recover(cfg, t, now), kinds, id)
    ensures var r := Recover(cfg, t, now);
            var after := Claim(cfg, t, worker, kinds, now);
            match chosen
            case None => after == r || after == t
            case Some(id) =>
              && Waits(r, kinds, id) && after.Keys == r.Keys
              && (forall other :: other in r && other != id ==> after[other] == r[other])
              && (forall other :: Waits(r, kinds, other) ==>
                    r[id].job.createdAt < r[other].job.createdAt
                    || (r[id].job.createdAt == r[other].job.createdAt && id <= other))
              && after[id].job.status.Running? && after[id].job.worker == Some(worker)
              && after[id].job.attempt == r[id].job.attempt + 1
              && after[id].job.startedAt == (if r[id].job.startedAt.Some? then r[id].job.startedAt else Some(now))
              && after[id].trail == r[id].trail
                   + [Event(Some(r[id].job.status), Running, now, ClaimedBy(worker, r[id].job.attempt + 1))]
              && after[id].job.request == r[id].job.request && after[id].job.kind == r[id].job.kind
              && after[id].job.updatedAt == now && after[id].job.finishedAt == r[id].job.finishedAt
  {
    var r := Recover(cfg, t, now);
    forall id ensures Waits(r, kinds, id) <==> Candidate(r, kinds, id) {}
    ClaimServesTheOldest(r, kinds);
    OldestIsCandidate(r, kinds);
    chosen := Oldest(r, kinds);
    if chosen.Some? { assert Compatible(kinds) by { assert r[chosen.value].job.kind in kinds; } }
    if chosen.None? {
      forall id ensures !Waits(r, kinds, id) { assert !Candidate(r, kinds, id); }
    }
  }

  // The answer to a heartbeat that holds nothing: the owner of an attempt that was cancelled or timed
  // out is told so with nothing changed beyond recovery, anyone else meets a conflict.
  lemma HeartbeatAnswers(cfg: Config, t: Table, id: JobId, worker: WorkerId, attempt: nat, progress: Option<string>,
                         now: Time)
    requires cfg.Valid() && TableInv(cfg, t) && !Holds(t, id, worker, attempt, now)
    ensures var r := Recover(cfg, t, now);
            Heartbeat(cfg, t, id, worker, attempt, progress, now) ==
              if id !in r then Err(NotFound)
              else if r[id].job.status in {Cancelled, TimedOut} && r[id].job.worker == Some(worker)
                      && r[id].job.attempt == attempt
              then Ok(r)
              else Err(Conflict)
  {
    HolderSurvivesRecovery(cfg, t, id, worker, attempt, now);
  }

  // The answer to a completion that holds nothing: what already stands is accepted again, anything
  // unreadable is invalid, anything else a conflict.
  lemma CompletionAnswers(cfg: Config, t: Table, id: JobId, worker: WorkerId, attempt: nat, o: Outcome, now: Time)
    requires cfg.Valid() && TableInv(cfg, t) && !Holds(t, id, worker, attempt, now)
    ensures var r := Recover(cfg, t, now);
            Complete(cfg, t, id, worker, attempt, o, now) ==
              if id !in r then Err(NotFound)
              else if o.BadResult? then Err(Invalid)
              else if (o.Success? && r[id].job.status.Succeeded? && r[id].job.result == Some(o.result)
                         && r[id].job.error == None)
                   || (o.Failure? && r[id].job.status.Failed? && r[id].job.error == Some(o.error)
                         && r[id].job.result == None)
              then Ok(r)
              else Err(Conflict)
  {
    HolderSurvivesRecovery(cfg, t, id, worker, attempt, now);
  }

  // The answer to a transfer, in full.
  lemma TransferAnswers(cfg: Config, t: Table, id: JobId, worker: WorkerId, attempt: nat, permitted: set<JobType>, now: Time)
    requires cfg.Valid() && TableInv(cfg, t)
    ensures var r := Recover(cfg, t, now);
            Authorize(cfg, t, id, worker, attempt, permitted, now) ==
              if id !in r then Err(NotFound)
              else if Holds(t, id, worker, attempt, now) && r[id].job.kind in permitted then Ok(r)
              else Err(Conflict)
  {
    HolderSurvivesRecovery(cfg, t, id, worker, attempt, now);
  }

  // ------------------------------------------------------------------ endings

  // A live job is cancelled there and then; a cancelled one again changes nothing beyond recovery;
  // other endings refuse.
  lemma CancelEnds(cfg: Config, t: Table, id: JobId, now: Time)
    requires cfg.Valid() && TableInv(cfg, t)
    ensures var r := Recover(cfg, t, now);
            var reply := Cancel(cfg, t, id, now);
            if id !in r then reply == Err(NotFound)
            else if r[id].job.finishedAt.None? then
              && reply.Ok? && reply.value.Keys == r.Keys
              && (forall other :: other in r && other != id ==> reply.value[other] == r[other])
              && var job := reply.value[id].job;
                 && job.status.Cancelled? && job.finishedAt == Some(now) && job.lease == None && job.result == None
                 && job.worker == r[id].job.worker && job.request == r[id].job.request && job.updatedAt == now
                 && job.attempt == r[id].job.attempt && job.error == r[id].job.error
                 && reply.value[id].trail
                      == r[id].trail + [Event(Some(r[id].job.status), Cancelled, now, CancelledByTsunade)]
                 && job.processed == (job.kind !in {AiInference, LogsInvestigate} && r[id].job.processed)
            else if r[id].job.status.Cancelled? then reply == Ok(r)
            else reply == Err(Conflict)
  {
    RecoverInv(cfg, t, now);
    var r := Recover(cfg, t, now);
    if id in r { assert RowInv(cfg, r[id]); }
  }

  // The holder's completion ends its job there and then with what it reported; results the agent must
  // act on wait to be processed.
  lemma CompletionStores(cfg: Config, t: Table, id: JobId, worker: WorkerId, attempt: nat, o: Outcome, now: Time)
    requires cfg.Valid() && TableInv(cfg, t) && Holds(t, id, worker, attempt, now) && !o.BadResult?
    ensures var r := Recover(cfg, t, now);
            var reply := Complete(cfg, t, id, worker, attempt, o, now);
            && reply.Ok? && reply.value.Keys == r.Keys && id in r
            && (forall other :: other in r && other != id ==> reply.value[other] == r[other])
            && var job := reply.value[id].job;
               && job.finishedAt == Some(now) && job.lease == None && job.worker == Some(worker)
               && job.attempt == attempt && job.request == t[id].job.request && job.updatedAt == now
               && reply.value[id].trail == t[id].trail + [Event(Some(Running), job.status, now, CompletedBy(worker))]
               && (o.Success? ==> job.status.Succeeded? && job.result == Some(o.result) && job.error == None)
               && (o.Failure? ==> job.status.Failed? && job.result == None && job.error == Some(o.error))
               && job.processed == (job.kind !in {LogsHealthCheck, LogsInvestigate, AiInference, TrendsHistoryBackfill}
                                    && t[id].job.processed)
  {
    CompletionIsFenced(cfg, t, id, worker, attempt, o, now);
    HolderSurvivesRecovery(cfg, t, id, worker, attempt, now);
    assert RowInv(cfg, t[id]);
  }

  // --------------------------------------------------------- reading, marking

  // A job is found exactly while it is kept: from its creation to retentionDays after its end.
  lemma ReadFinds(cfg: Config, t: Table, id: JobId, now: Time)
    requires cfg.Valid() && TableInv(cfg, t)
    ensures Read(cfg, t, id, now) ==
              if id in t && (t[id].job.finishedAt == None || now <= t[id].job.finishedAt.value + cfg.retentionDays * DAY)
              then Ok(Recover(cfg, t, now)) else Err(NotFound)
  {
    if id in t {
      if t[id].job.finishedAt.Some? { EndedRow(cfg, t, id, t[id].job.finishedAt.value, now); }
      else { LiveJobIsNeverDropped(cfg, t, id, now); }
    }
  }

  // Marking an ending processed answers for it and for nothing else; an unknown one is no error.
  lemma MarkingProcesses(cfg: Config, t: Table, id: JobId, now: Time)
    ensures var after := Apply(cfg, t, MarkProcessedCall(id), now);
            && after.Keys == t.Keys
            && (forall other :: other in t && other != id ==> after[other] == t[other])
            && (id in t ==> after[id].job.processed && SameButProcessed(t[id], after[id]))
  {
  }
}
