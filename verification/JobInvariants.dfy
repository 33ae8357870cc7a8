/** What every reachable job table satisfies, and what one call may do to a job. */
module JobInvariants {
  import opened Common
  import opened Jobs

  // ------------------------------------------------------------- audit trail

  // The transition graph of one job.
  predicate Edge(a: Status, b: Status) {
    match a
    case Created => b.Queued?
    case Queued => b.WaitingWorker? || b.Running? || b.Cancelled? || b.TimedOut?
    case WaitingWorker => b.Running? || b.Cancelled? || b.TimedOut?
    case Running => b.Queued? || Terminal(b)
    case _ => false
  }

  predicate Linked(trail: seq<Event>, i: nat)
    requires 0 < i < |trail|
  {
    trail[i].previous == Some(trail[i - 1].status) && Edge(trail[i - 1].status, trail[i].status)
  }

  ghost predicate IsPath(trail: seq<Event>) {
    && |trail| >= 2
    && trail[0].previous == None && trail[0].status == Created
    && forall i :: 0 < i < |trail| ==> Linked(trail, i)
  }

  function Last(trail: seq<Event>): Event
    requires |trail| > 0
  {
    trail[|trail| - 1]
  }

  // How many times the trail enters a status.
  ghost function Entries(trail: seq<Event>, s: Status): nat {
    if trail == [] then 0
    else Entries(trail[..|trail| - 1], s) + if Last(trail).status == s then 1 else 0
  }

  lemma EntriesAppend(trail: seq<Event>, e: Event, s: Status)
    ensures Entries(trail + [e], s) == Entries(trail, s) + if e.status == s then 1 else 0
  {
    assert (trail + [e])[..|trail|] == trail;
  }

  lemma PathAppend(trail: seq<Event>, e: Event)
    requires IsPath(trail) && e.previous == Some(Last(trail).status) && Edge(Last(trail).status, e.status)
    ensures IsPath(trail + [e])
  {
    var longer := trail + [e];
    forall i | 0 < i < |longer| ensures Linked(longer, i) {
      if i < |trail| { assert Linked(trail, i); }
    }
  }

  // ------------------------------------------------------------ row invariant

  // An upper bound on the events a job can still write.
  function Remaining(cfg: Config, job: Job): int {
    match job.status
    case Queued => 3 * (cfg.maxAttempts - job.attempt)
    case WaitingWorker => 3 * (cfg.maxAttempts - job.attempt) - 1
    case Running => 3 * (cfg.maxAttempts - job.attempt) + 1
    case _ => 0
  }

  ghost predicate TrailInv(cfg: Config, row: Row) {
    && IsPath(row.trail)
    && Last(row.trail).status == row.job.status
    && row.job.attempt == Entries(row.trail, Running)
    && (row.job.status.Running? ==>
          row.job.worker.Some? && Last(row.trail).detail == ClaimedBy(row.job.worker.value, row.job.attempt))
    && (Terminal(row.job.status) ==> row.job.finishedAt == Some(Last(row.trail).at))
    && |row.trail| + Remaining(cfg, row.job) <= 3 * cfg.maxAttempts + 2
  }

  ghost predicate JobInv(cfg: Config, job: Job) {
    && (job.lease.Some? <==> job.status.Running?)
    && (Dispatchable(job.status) ==> job.worker == None && job.attempt < cfg.maxAttempts)
    && (job.status.Running? ==>
          job.worker.Some? && 1 <= job.attempt <= cfg.maxAttempts && job.lease.value <= Deadline(job))
    && (job.startedAt.Some? <==> job.attempt > 0)
    && (job.finishedAt.Some? <==> Terminal(job.status))
    && (job.result.Some? <==> job.status.Succeeded?)
    && (Terminal(job.status) ==> (job.status.TimedOut? <==> job.finishedAt.value >= Deadline(job)))
    && !job.status.Created?
    && job.attempt <= cfg.maxAttempts
  }

  ghost predicate RowInv(cfg: Config, row: Row) { TrailInv(cfg, row) && JobInv(cfg, row.job) }

  ghost predicate TableInv(cfg: Config, t: Table) {
    && (forall id {:trigger id in t} :: id in t ==> RowInv(cfg, t[id]))
    && |Active(t)| <= cfg.maxActive
  }

  // After recovery at `now` nothing is overdue: deadlines lie ahead and so do leases.
  ghost predicate Settled(row: Row, now: Time) {
    && (Live(row.job.status) ==> now < Deadline(row.job))
    && (row.job.status.Running? ==> row.job.lease.Some? && now < row.job.lease.value)
  }

  // --------------------------------------------------------- per-row preservation

  lemma TransitionInv(cfg: Config, row: Row, status: Status, now: Time, detail: Detail, finish: bool,
                      clearLease: bool, clearOwner: bool, error: Option<JobError>)
    requires cfg.Valid() && RowInv(cfg, row) && Edge(row.job.status, status) && !status.Succeeded? && !status.Running?
    requires finish <==> Terminal(status)
    requires clearLease || !row.job.status.Running?
    requires clearOwner || !Dispatchable(status) || row.job.worker == None
    requires Dispatchable(status) ==> row.job.attempt < cfg.maxAttempts
    requires status.TimedOut? ==> Deadline(row.job) <= now
    requires status.Cancelled? || status.Failed? ==> now < Deadline(row.job)
    ensures RowInv(cfg, Transition(row, status, now, detail, finish, clearLease, clearOwner, error))
  {
    var e := Event(Some(row.job.status), status, now, detail);
    PathAppend(row.trail, e);
    EntriesAppend(row.trail, e, Running);
  }

  lemma RecoverRowInv(cfg: Config, row: Row, now: Time)
    requires cfg.Valid() && RowInv(cfg, row)
    ensures RowInv(cfg, RecoverRow(cfg, row, now))
    ensures Settled(RecoverRow(cfg, row, now), now)
    ensures Terminal(row.job.status) ==> RecoverRow(cfg, row, now) == row
    ensures RecoverRow(cfg, row, now).job.result == row.job.result
    ensures RecoverRow(cfg, row, now).job.request == row.job.request
  {
    var job := row.job;
    if Live(job.status) {
      if Deadline(job) <= now {
        TransitionInv(cfg, row, TimedOut, now, NoWorkerBeforeTimeout, true, true, false, Some(WorkerUnavailable));
        TransitionInv(cfg, row, TimedOut, now, TimeoutElapsed, true, true, false, None);
      } else if job.status.Running? && job.lease.value <= now {
        if job.attempt >= cfg.maxAttempts {
          TransitionInv(cfg, row, Failed, now, GaveUp(job.attempt), true, true, false, Some(WorkerInterrupted(job.attempt)));
        } else {
          TransitionInv(cfg, row, Queued, now, LeaseExpired(job.attempt), false, true, true, None);
        }
      } else if job.status.Queued? && job.createdAt + cfg.waitingAfter * SECOND <= now {
        TransitionInv(cfg, row, WaitingWorker, now, NoCompatibleWorker, false, false, false, None);
      }
    }
  }

  lemma RecoverInv(cfg: Config, t: Table, now: Time)
    requires cfg.Valid() && TableInv(cfg, t)
    ensures TableInv(cfg, Recover(cfg, t, now))
    ensures Active(Recover(cfg, t, now)) <= Active(t)
    ensures forall id {:trigger id in Recover(cfg, t, now)} :: id in Recover(cfg, t, now) ==>
              id in t && Recover(cfg, t, now)[id] == RecoverRow(cfg, t[id], now) && Settled(Recover(cfg, t, now)[id], now)
  {
    var r := Recover(cfg, t, now);
    forall id | id in r
      ensures id in t && r[id] == RecoverRow(cfg, t[id], now) && RowInv(cfg, r[id]) && Settled(r[id], now)
      ensures !Terminal(r[id].job.status) ==> !Terminal(t[id].job.status)
    {
      RecoverRowInv(cfg, t[id], now);
    }
    SubsetSize(Active(r), Active(t));
  }

  // Replacing a row by one that is no more active keeps the table invariant.
  lemma UpdateInv(cfg: Config, t: Table, id: JobId, row: Row)
    requires TableInv(cfg, t) && id in t && RowInv(cfg, row)
    requires !Terminal(row.job.status) ==> !Terminal(t[id].job.status)
    ensures TableInv(cfg, t[id := row])
  {
    SubsetSize(Active(t[id := row]), Active(t));
  }

  lemma LeasedInv(cfg: Config, row: Row, worker: WorkerId, now: Time)
    requires cfg.Valid() && RowInv(cfg, row) && Dispatchable(row.job.status)
    ensures RowInv(cfg, Leased(cfg, row, worker, now))
  {
    var e := Event(Some(row.job.status), Running, now, ClaimedBy(worker, row.job.attempt + 1));
    PathAppend(row.trail, e);
    EntriesAppend(row.trail, e, Running);
  }

  lemma CompletedInv(cfg: Config, row: Row, worker: WorkerId, o: Outcome, now: Time)
    requires cfg.Valid() && RowInv(cfg, row) && row.job.status.Running? && !o.BadResult? && now < Deadline(row.job)
    ensures RowInv(cfg, Completed(row, worker, o, now))
  {
    var e := Event(Some(Running), OutcomeStatus(o), now, CompletedBy(worker));
    PathAppend(row.trail, e);
    EntriesAppend(row.trail, e, Running);
  }

  lemma NewRowInv(cfg: Config, req: Request, now: Time)
    requires cfg.Valid()
    ensures RowInv(cfg, NewRow(cfg, req, now))
  {
    var first := [Event(None, Created, now, Accepted)];
    EntriesAppend([], first[0], Running);
    EntriesAppend(first, Event(Some(Created), Queued, now, Enqueued), Running);
    assert NewRow(cfg, req, now).trail == first + [Event(Some(Created), Queued, now, Enqueued)];
    assert [] + first == first;
  }

  lemma OldestIsCandidate(t: Table, kinds: set<JobType>)
    ensures match Oldest(t, kinds) case None => true case Some(id) => IsOldest(t, kinds, id)
  {
  }

  // ------------------------------------------------------------ whole runs

  lemma InsertInv(cfg: Config, r: Table, id: JobId, row: Row)
    requires TableInv(cfg, r) && id !in r && RowInv(cfg, row) && |Active(r)| < cfg.maxActive
    ensures TableInv(cfg, r[id := row])
  {
    SubsetSize(Active(r[id := row]), Active(r) + {id});
  }

  lemma CreateInv(cfg: Config, t: Table, req: Request, now: Time)
    requires cfg.Valid() && TableInv(cfg, t)
    ensures TableInv(cfg, OrElse(Create(cfg, t, req, now), t))
  {
    RecoverInv(cfg, t, now);
    NewRowInv(cfg, req, now);
    var r := Recover(cfg, t, now);
    if req.id !in r && |Active(r)| < cfg.maxActive {
      InsertInv(cfg, r, req.id, NewRow(cfg, req, now));
    }
  }

  lemma CancelInv(cfg: Config, t: Table, id: JobId, now: Time)
    requires cfg.Valid() && TableInv(cfg, t)
    ensures TableInv(cfg, OrElse(Cancel(cfg, t, id, now), t))
  {
    RecoverInv(cfg, t, now);
    var r := Recover(cfg, t, now);
    if id in r && Live(r[id].job.status) {
      TransitionInv(cfg, r[id], Cancelled, now, CancelledByTsunade, true, true, false, None);
      UpdateInv(cfg, r, id, Transition(r[id], Cancelled, now, CancelledByTsunade, true, true, false, None));
    }
  }

  lemma LeaseInv(cfg: Config, r: Table, worker: WorkerId, kinds: set<JobType>, now: Time)
    requires cfg.Valid() && TableInv(cfg, r)
    ensures TableInv(cfg, Lease(cfg, r, worker, kinds, now))
  {
    OldestIsCandidate(r, kinds);
    var chosen := Oldest(r, kinds);
    if chosen.Some? {
      LeasedInv(cfg, r[chosen.value], worker, now);
      UpdateInv(cfg, r, chosen.value, Leased(cfg, r[chosen.value], worker, now));
    }
  }

  lemma HeartbeatInv(cfg: Config, t: Table, id: JobId, worker: WorkerId, attempt: nat, progress: Option<string>, now: Time)
    requires cfg.Valid() && TableInv(cfg, t)
    ensures TableInv(cfg, OrElse(Heartbeat(cfg, t, id, worker, attempt, progress, now), t))
  {
    RecoverInv(cfg, t, now);
    var r := Recover(cfg, t, now);
    if id in r && r[id].job.status.Running? {
      RenewedInv(cfg, r[id], progress, now);
      UpdateInv(cfg, r, id, Renewed(cfg, r[id], progress, now));
    }
  }

  lemma RenewedInv(cfg: Config, row: Row, progress: Option<string>, now: Time)
    requires RowInv(cfg, row) && row.job.status.Running?
    ensures RowInv(cfg, Renewed(cfg, row, progress, now))
  {
  }

  lemma CompleteInv(cfg: Config, t: Table, id: JobId, worker: WorkerId, attempt: nat, o: Outcome, now: Time)
    requires cfg.Valid() && TableInv(cfg, t)
    ensures TableInv(cfg, OrElse(Complete(cfg, t, id, worker, attempt, o, now), t))
  {
    RecoverInv(cfg, t, now);
    var r := Recover(cfg, t, now);
    var done := Complete(cfg, t, id, worker, attempt, o, now);
    if done.Ok? && !(r[id].job.status.Succeeded? || r[id].job.status.Failed?) {
      CompletedInv(cfg, r[id], worker, o, now);
      UpdateInv(cfg, r, id, Completed(r[id], worker, o, now));
    }
  }

  lemma ClaimInv(cfg: Config, t: Table, worker: WorkerId, kinds: set<JobType>, now: Time)
    requires cfg.Valid() && TableInv(cfg, t)
    ensures TableInv(cfg, Claim(cfg, t, worker, kinds, now))
  {
    RecoverInv(cfg, t, now);
    LeaseInv(cfg, Recover(cfg, t, now), worker, kinds, now);
  }

  lemma MarkInv(cfg: Config, t: Table, id: JobId)
    requires cfg.Valid() && TableInv(cfg, t)
    ensures TableInv(cfg, MarkProcessed(t, id))
  {
    if id in t {
      assert RowInv(cfg, t[id]);
      UpdateInv(cfg, t, id, t[id].(job := t[id].job.(processed := true)));
    }
  }

  // Every call, accepted or refused, keeps the table invariant.
  lemma ApplyInv(cfg: Config, t: Table, call: Call, now: Time)
    requires cfg.Valid() && TableInv(cfg, t)
    ensures TableInv(cfg, Apply(cfg, t, call, now))
  {
    match call
    case CreateCall(req) => CreateInv(cfg, t, req, now);
    case CancelCall(id) => CancelInv(cfg, t, id, now);
    case ClaimCall(worker, kinds) => ClaimInv(cfg, t, worker, kinds, now);
    case HeartbeatCall(id, worker, attempt, progress) => HeartbeatInv(cfg, t, id, worker, attempt, progress, now);
    case CompleteCall(id, worker, attempt, o) => CompleteInv(cfg, t, id, worker, attempt, o, now);
    case MarkProcessedCall(id) => MarkInv(cfg, t, id);
    case _ => RecoverInv(cfg, t, now);
  }

  // The table after a sequence of calls, each at the instant its clock showed. Nothing is
  // assumed of the clock: it may stand still or step back.
  ghost function Run(cfg: Config, calls: seq<(Call, Time)>): Table {
    if calls == [] then map[]
    else
      var last := calls[|calls| - 1];
      Apply(cfg, Run(cfg, calls[..|calls| - 1]), last.0, last.1)
  }

  lemma {:induction false} EveryRunKeepsTheInvariant(cfg: Config, calls: seq<(Call, Time)>)
    requires cfg.Valid()
    ensures TableInv(cfg, Run(cfg, calls))
  {
    if calls == [] {
      assert Active(map[]) == {};
    } else {
      var last := calls[|calls| - 1];
      EveryRunKeepsTheInvariant(cfg, calls[..|calls| - 1]);
      ApplyInv(cfg, Run(cfg, calls[..|calls| - 1]), last.0, last.1);
    }
  }
}
