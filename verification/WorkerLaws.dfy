/** What the wake and shutdown calls mean, said in instants and journalled events rather than through
    the functions that define them. */
module WorkerLaws {
  import opened Common
  import opened Jobs
  import opened PowerJournal
  import opened Workers
  import JobInvariants
  import JobTheorems

  ghost predicate Seen(cfg: Config, w: Worker, now: Time) { now <= w.lastSeen + cfg.availableSeconds * SECOND }

  // Nothing changed but this worker's journal and row.
  ghost predicate OnlyWorker(a: Store, b: Store, id: WorkerId) {
    && a.jobs == b.jobs
    && forall other :: other != id ==>
         JournalOf(a.journals, other) == JournalOf(b.journals, other)
         && WorkerOf(a, other) == WorkerOf(b, other)
  }

  // -------------------------------------------------------------------- wakes

  // A wake is noted for a worker not seen lately, numbered by the timeouts of its cycle, and gives it
  // the timeout to answer; one seen lately is left alone.
  lemma WakeIsNoted(cfg: Config, s: Store, id: WorkerId, timeout: int, trigger: Trigger, now: Time)
    requires 10 <= timeout <= 1800 && id in s.workers
    ensures var r := MarkWaking(cfg, s, id, timeout, trigger, now);
            && r.Ok? && id in r.value.workers && OnlyWorker(s, r.value, id)
            && if Seen(cfg, s.workers[id], now) then r.value == s
               else
                 var h := JournalOf(s.journals, id);
                 && JournalOf(r.value.journals, id)
                      == h + [WakeSent(now, trigger, Count(Cycle(Retained(h)), RanOut) + 1, timeout)]
                 && r.value.workers[id] == s.workers[id].(woken := true, wakeRequested := Some(now),
                                                          wakeDeadline := Some(now + timeout * SECOND))
  {
    var h := JournalOf(s.journals, id);
    CycleTimeoutsAreCounted(Retained(h));
    if !Seen(cfg, s.workers[id], now) {
      var s1 := s.(workers := s.workers[id := s.workers[id].(woken := true, wakeRequested := Some(now),
                                                            wakeDeadline := Some(now + timeout * SECOND))]);
      LogChangesOnly(s, s1, id, WakeSent(now, trigger, NextAttempt(h), timeout));
    }
  }

  lemma LogChangesOnly(s: Store, s1: Store, id: WorkerId, e: PowerEvent)
    requires s1.jobs == s.jobs && s1.journals == s.journals
    requires forall other :: other != id ==> WorkerOf(s1, other) == WorkerOf(s, other)
    ensures OnlyWorker(s, Log(s1, id, e), id)
    ensures JournalOf(Log(s1, id, e).journals, id) == JournalOf(s.journals, id) + [e]
    ensures Log(s1, id, e).workers == s1.workers
  {
  }

  lemma WakeIsRefused(cfg: Config, s: Store, id: WorkerId, timeout: int, trigger: Trigger, now: Time)
    ensures MarkWaking(cfg, s, id, timeout, trigger, now).Err? <==> timeout < 10 || timeout > 1800 || id !in s.workers
  {
  }

  // ------------------------------------------------------------ registrations

  // The seconds journalled are the nearest to the time the worker took.
  ghost predicate Nearest(seconds: nat, taken: Time) {
    if taken < 0 then seconds == 0 else -SECOND <= 2 * (seconds * SECOND - taken) <= SECOND
  }

  lemma ElapsedIsNearest(requested: Time, now: Time)
    ensures Nearest(Elapsed(requested, now), now - requested)
    ensures Elapsed(requested, now) <= 1800 <==> 2 * (now - requested) <= 3601 * SECOND
  {
    var d := now - requested;
    assert d == d / SECOND * SECOND + d % SECOND;
  }

  // The answer a registration at u is to a wake sent at `sent` with this timeout: on time within the
  // timeout unless it was already noted as run out; then late for half an hour, to the nearest second;
  // then a manual start.
  ghost predicate AnswersWake(answer: Answer, sent: Time, timeout: int, noted: bool, u: Time) {
    if u <= sent + timeout * SECOND && !noted then answer.OnTime? && Nearest(answer.afterSeconds, u - sent)
    else if 2 * (u - sent) <= 3601 * SECOND then answer.Late? && Nearest(answer.afterSeconds, u - sent)
    else answer.Manual?
  }

  // A worker with a wake to answer: its row remembers the wake, its last event is the wake or, once
  // noted, its timeout or its abandonment.
  ghost predicate Awaited(s: Store, id: WorkerId, sent: Time, timeout: int, noted: bool) {
    && id in s.workers && s.workers[id].wakeRequested == Some(sent)
    && s.workers[id].wakeDeadline == Some(sent + timeout * SECOND)
    && JournalOf(s.journals, id) != []
    && var last := Last(JournalOf(s.journals, id));
       if noted then last.WakeTimeout? || last.WakeAbandoned? else last.WakeSent?
  }

  lemma RetainedEnd(h: Journal)
    ensures Retained(h) != [] <==> h != []
    ensures h != [] ==> Last(Retained(h)) == Last(h)
  {
  }

  // Registering journals exactly one event for an awaited worker, its answer; the row keeps what it was
  // not told anew and stays woken only within the timeout.
  lemma RegistrationAnswers(s: Store, id: WorkerId, caps: set<JobType>, mac: Option<string>, u: Time, sent: Time,
                            timeout: int, noted: bool) returns (answer: Answer)
    requires Awaited(s, id, sent, timeout, noted) && forall k :: k in caps ==> !k.Unsupported?
    ensures AnswersWake(answer, sent, timeout, noted, u)
    ensures var r := Register(s, id, caps, mac, u);
            && r.Ok? && id in r.value.workers && OnlyWorker(s, r.value, id)
            && JournalOf(r.value.journals, id) == JournalOf(s.journals, id) + [WorkerOnline(u, answer)]
            && var w := r.value.workers[id];
               && w.capabilities == caps && w.lastSeen == u && w.registeredAt == s.workers[id].registeredAt
               && w.mac == (if mac.Some? then mac else s.workers[id].mac)
               && w.woken == (s.workers[id].woken && u <= sent + timeout * SECOND)
               && w.wakeRequested == (if w.woken then Some(sent) else None)
               && w.wakeDeadline == (if w.woken then Some(sent + timeout * SECOND) else None)
  {
    RetainedEnd(JournalOf(s.journals, id));
    ElapsedIsNearest(sent, u);
    answer := AnswerTo(Last(JournalOf(s.journals, id)), sent + timeout * SECOND < u, Elapsed(sent, u));
  }

  // A worker that comes without a wake to answer journals nothing.
  lemma UnawaitedRegistration(s: Store, id: WorkerId, caps: set<JobType>, mac: Option<string>, u: Time)
    requires forall k :: k in caps ==> !k.Unsupported?
    requires (id in s.workers && s.workers[id].wakeRequested.Some?) ==>
               var h := JournalOf(s.journals, id);
               h == [] || !(Last(h).WakeSent? || Last(h).WakeTimeout? || Last(h).WakeAbandoned?)
    ensures var r := Register(s, id, caps, mac, u);
            && r.Ok? && id in r.value.workers && OnlyWorker(s, r.value, id) && r.value.journals == s.journals
            && r.value.workers[id].capabilities == caps && r.value.workers[id].lastSeen == u
            && (id !in s.workers ==> r.value.workers[id] == Worker(caps, mac, u, u, false, None, None))
  {
    RetainedEnd(JournalOf(s.journals, id));
  }

  // Woken at t and registering at u with nothing journalled between: the operator's counters move by
  // exactly one answer.
  lemma WakeThenAnswer(cfg: Config, s: Store, id: WorkerId, timeout: int, trigger: Trigger, t: Time,
                       caps: set<JobType>, mac: Option<string>, u: Time)
    requires 10 <= timeout <= 1800 && id in s.workers && !Seen(cfg, s.workers[id], t)
    requires forall k :: k in caps ==> !k.Unsupported?
    ensures var woken := StoreOr(MarkWaking(cfg, s, id, timeout, trigger, t), s);
            var after := StoreOr(Register(woken, id, caps, mac, u), woken);
            var h, k := JournalOf(s.journals, id), JournalOf(after.journals, id);
            && |k| == |h| + 2 && k[..|h|] == h
            && Count(k, Sent) == Count(h, Sent) + 1
            && k[|h| + 1].WorkerOnline? && k[|h| + 1].at == u && AnswersWake(k[|h| + 1].answer, t, timeout, false, u)
            && Count(k, AnsweredOnTime) == Count(h, AnsweredOnTime) + (if u <= t + timeout * SECOND then 1 else 0)
            && Count(k, AnsweredLate) == Count(h, AnsweredLate)
                 + (if t + timeout * SECOND < u && 2 * (u - t) <= 3601 * SECOND then 1 else 0)
  {
    WakeIsNoted(cfg, s, id, timeout, trigger, t);
    var woken := StoreOr(MarkWaking(cfg, s, id, timeout, trigger, t), s);
    var answer := RegistrationAnswers(woken, id, caps, mac, u, t, timeout, false);
    var h := JournalOf(s.journals, id);
    InitAppend(h, Last(JournalOf(woken.journals, id)));
    InitAppend(JournalOf(woken.journals, id), WorkerOnline(u, answer));
  }

  lemma RegistrationIsRefused(s: Store, id: WorkerId, caps: set<JobType>, mac: Option<string>, u: Time)
    ensures Register(s, id, caps, mac, u).Err? <==> exists k :: k in caps && k.Unsupported?
  {
  }

  // -------------------------------------------------------------- settlement

  ghost predicate WorkFor(jobs: Table, kinds: set<JobType>) {
    exists id :: id in jobs && (jobs[id].job.status == Queued || jobs[id].job.status == WaitingWorker)
                 && jobs[id].job.kind in kinds
  }

  // Once a wake has run out on a worker not seen since, settling notes it at its deadline, and gives up
  // when the attempts are used and compatible work waits; until then settling notes nothing.
  lemma SilenceIsNoted(cfg: Config, s: Store, id: WorkerId, sent: Time, timeout: int, maxAttempts: nat, now: Time)
    requires Awaited(s, id, sent, timeout, false)
    ensures var h := JournalOf(s.journals, id);
            var attempt := Count(Cycle(Retained(h)), RanOut) + 1;
            var deadline := sent + timeout * SECOND;
            JournalOf(Settle(cfg, s, maxAttempts, now).journals, id) ==
              if now <= deadline || Seen(cfg, s.workers[id], now) then h
              else if attempt >= maxAttempts && WorkFor(s.jobs, s.workers[id].capabilities)
              then h + [WakeTimeout(deadline, attempt), WakeAbandoned(now, attempt)]
              else h + [WakeTimeout(deadline, attempt)]
  {
    RetainedEnd(JournalOf(s.journals, id));
    CycleTimeoutsAreCounted(Retained(JournalOf(s.journals, id)));
    assert WorkFor(s.jobs, s.workers[id].capabilities) <==> Waiting(s.jobs, s.workers[id].capabilities);
    assert JournalOf(Settle(cfg, s, maxAttempts, now).journals, id) == SettledJournal(cfg, s, id, maxAttempts, now);
  }

  // A worker with no wake to note is left alone, and so are all jobs and rows.
  lemma SettlingTouchesNothingElse(cfg: Config, s: Store, id: WorkerId, maxAttempts: nat, now: Time)
    ensures Settle(cfg, s, maxAttempts, now).jobs == s.jobs && Settle(cfg, s, maxAttempts, now).workers == s.workers
    ensures JournalOf(s.journals, id) == [] || !Last(JournalOf(s.journals, id)).WakeSent? ==>
              JournalOf(Settle(cfg, s, maxAttempts, now).journals, id) == JournalOf(s.journals, id)
  {
    RetainedEnd(JournalOf(s.journals, id));
  }

  // A noted timeout is retried once the delay has passed, while attempts and compatible work remain and
  // the worker is neither seen nor within a wake's timeout.
  lemma RetryIsOffered(cfg: Config, s: Store, id: WorkerId, delay: nat, maxAttempts: nat, now: Time)
    requires id in s.workers && JournalOf(s.journals, id) != []
    ensures var h := JournalOf(s.journals, id);
            RetryCandidate(cfg, s, id, delay, maxAttempts, now) <==>
              && Last(h).WakeTimeout? && Last(h).at + delay * SECOND <= now
              && Count(Cycle(Retained(h)), RanOut) < maxAttempts
              && WorkFor(s.jobs, s.workers[id].capabilities)
              && !Seen(cfg, s.workers[id], now)
              && !(s.workers[id].wakeDeadline.Some? && now <= s.workers[id].wakeDeadline.value)
  {
    RetainedEnd(JournalOf(s.journals, id));
    CycleTimeoutsAreCounted(Retained(JournalOf(s.journals, id)));
    assert WorkFor(s.jobs, s.workers[id].capabilities) <==> Waiting(s.jobs, s.workers[id].capabilities);
  }

  lemma RetryStep(cfg: Config, s: Store, settled: Store, id: WorkerId, sent: bool, delay: nat, maxAttempts: nat,
                  timeout: int, now: Time)
    requires settled == Settle(cfg, s, maxAttempts, now) && RetryCandidate(cfg, settled, id, delay, maxAttempts, now)
    ensures RetryUnansweredWake(cfg, s, Some(id), sent, delay, maxAttempts, timeout, now) ==
              if sent then StoreOr(MarkWaking(cfg, settled, id, timeout, Retry, now), settled)
              else Log(settled, id, WakeFailed(now, Retry))
    ensures id in settled.workers && !Seen(cfg, settled.workers[id], now)
  {
  }

  // The retry step sends that worker one more wake, or notes that sending failed, after settling.
  lemma RetryIsSent(cfg: Config, s: Store, id: WorkerId, sent: bool, delay: nat, maxAttempts: nat, timeout: int, now: Time)
    requires 10 <= timeout <= 1800 && RetryCandidate(cfg, Settle(cfg, s, maxAttempts, now), id, delay, maxAttempts, now)
    ensures var settled := Settle(cfg, s, maxAttempts, now);
            var after := RetryUnansweredWake(cfg, s, Some(id), sent, delay, maxAttempts, timeout, now);
            var h := JournalOf(settled.journals, id);
            && OnlyWorker(settled, after, id)
            && JournalOf(after.journals, id) == h + [
                 if sent then WakeSent(now, Retry, Count(Cycle(Retained(h)), RanOut) + 1, timeout)
                 else WakeFailed(now, Retry)]
  {
    var settled := Settle(cfg, s, maxAttempts, now);
    RetryStep(cfg, s, settled, id, sent, delay, maxAttempts, timeout, now);
    if sent {
      WakeIsNoted(cfg, settled, id, timeout, Retry, now);
    } else {
      LogChangesOnly(settled, settled, id, WakeFailed(now, Retry));
    }
  }

  // ---------------------------------------------------------------- shutdown

  // Work or results that keep this worker on.
  ghost predicate Needed(jobs: Table, caps: set<JobType>, id: WorkerId) {
    exists j :: j in jobs
      && ((jobs[j].job.finishedAt.None? && (jobs[j].job.kind in caps || jobs[j].job.worker == Some(id)))
          || !jobs[j].job.processed)
  }

  lemma NeededKeepsOn(cfg: Config, jobs: Table, caps: set<JobType>, id: WorkerId)
    requires JobInvariants.TableInv(cfg, jobs)
    ensures Needed(jobs, caps, id) <==> exists j :: j in jobs && KeepsOn(jobs[j], caps, id)
  {
    forall j | j in jobs ensures jobs[j].job.finishedAt.None? <==> Live(jobs[j].job.status) {
      assert JobInvariants.RowInv(cfg, jobs[j]);
    }
    if j :| j in jobs && KeepsOn(jobs[j], caps, id) {
      assert Needed(jobs, caps, id);
    }
    if Needed(jobs, caps, id) {
      var j :| j in jobs
        && ((jobs[j].job.finishedAt.None? && (jobs[j].job.kind in caps || jobs[j].job.worker == Some(id)))
            || !jobs[j].job.processed);
      assert KeepsOn(jobs[j], caps, id);
    }
  }

  // A poll is told to shut down exactly when it names a supported type, finds no job, both sides allow
  // it, the worker was woken, and nothing needs it; that is journalled once however often it is asked.
  lemma ReleasedExactly(cfg: Config, s: Store, id: WorkerId, kinds: set<JobType>, settle: bool, allow: bool, now: Time)
    requires cfg.Valid() && JobInvariants.TableInv(cfg, s.jobs)
    ensures var r := Recover(cfg, s.jobs, now);
            var (after, reply) := Poll(cfg, s, id, kinds, settle, allow, now);
            var h := JournalOf(s.journals, id);
            && (reply.shutdown <==>
                  && (exists k :: k in kinds && !k.Unsupported?)
                  && (forall j :: j in r && (r[j].job.status == Queued || r[j].job.status == WaitingWorker) ==>
                        r[j].job.kind !in kinds || r[j].job.kind.Unsupported?)
                  && settle && allow && id in s.workers && s.workers[id].woken
                  && !Needed(r, s.workers[id].capabilities, id))
            && JournalOf(after.journals, id) ==
                 (if reply.shutdown && !(h != [] && Last(h).ShutdownGranted?) then h + [ShutdownGranted(now)] else h)
  {
    JobInvariants.RecoverInv(cfg, s.jobs, now);
    var r := Recover(cfg, s.jobs, now);
    RetainedEnd(JournalOf(s.journals, id));
    NoneWaits(r, kinds);
    if Oldest(r, kinds).None? {
      MayStopExactly(cfg, Touch(s, id, now).(jobs := r), id);
    }
  }

  lemma MayStopExactly(cfg: Config, s: Store, id: WorkerId)
    requires JobInvariants.TableInv(cfg, s.jobs)
    ensures MayShutDown(s, id) <==> id in s.workers && s.workers[id].woken && !Needed(s.jobs, s.workers[id].capabilities, id)
  {
    if id in s.workers { NeededKeepsOn(cfg, s.jobs, s.workers[id].capabilities, id); }
  }

  lemma NoneWaits(r: Table, kinds: set<JobType>)
    ensures Oldest(r, kinds).None? <==>
              forall j :: j in r && (r[j].job.status == Queued || r[j].job.status == WaitingWorker) ==>
                r[j].job.kind !in kinds || r[j].job.kind.Unsupported?
  {
    JobTheorems.ClaimServesTheOldest(r, kinds);
    forall j ensures Candidate(r, kinds, j) <==>
                       && j in r && (r[j].job.status == Queued || r[j].job.status == WaitingWorker)
                       && r[j].job.kind in kinds && !r[j].job.kind.Unsupported? {}
  }

  // A poll that names a supported type notes that the worker is there: it counts as available for
  // availableSeconds.
  lemma PollIsSeen(cfg: Config, s: Store, id: WorkerId, kinds: set<JobType>, settle: bool, allow: bool, now: Time, u: Time)
    requires id in s.workers && exists k :: k in kinds && !k.Unsupported?
    ensures var after := Poll(cfg, s, id, kinds, settle, allow, now).0;
            && after.workers == s.workers[id := s.workers[id].(lastSeen := now)]
            && (AvailabilityOf(cfg, after.workers[id], u).Available? <==> u <= now + cfg.availableSeconds * SECOND)
  {
  }

  // The calls that show a worker is there: a heartbeat or a transfer of the job it holds.
  ghost predicate Shows(t: Table, call: Call, now: Time, id: WorkerId) {
    || (call.HeartbeatCall? && call.worker == id && JobTheorems.Holds(t, call.id, id, call.attempt, now))
    || (call.AuthorizeCall? && call.worker == id && JobTheorems.Holds(t, call.id, id, call.attempt, now)
        && t[call.id].job.kind in call.permitted)
  }

  lemma TouchesShow(cfg: Config, t: Table, call: Call, now: Time)
    requires cfg.Valid() && JobInvariants.TableInv(cfg, t)
    ensures Touches(cfg, t, call, now) <==> (call.HeartbeatCall? || call.AuthorizeCall?) && Shows(t, call, now, call.worker)
  {
    if call.HeartbeatCall? || call.AuthorizeCall? {
      JobTheorems.HolderSurvivesRecovery(cfg, t, call.id, call.worker, call.attempt, now);
    }
  }

  lemma QueueStep(cfg: Config, maxAttempts: nat, s: Store, call: Call, now: Time)
    requires call.ClaimCall? ==> !Touches(cfg, s.jobs, call, now)
    ensures var after := Step(cfg, maxAttempts, s, QueueOp(call), now);
            && after.journals == s.journals
            && after.workers == if Touches(cfg, s.jobs, call, now) then Touch(s, call.worker, now).workers else s.workers
  {
  }

  // A renewed heartbeat or an accepted transfer shows that its worker is there; no other job call
  // touches a worker, and none writes to a journal.
  lemma JobCallsShowTheWorker(cfg: Config, maxAttempts: nat, s: Store, call: Call, now: Time, id: WorkerId)
    requires cfg.Valid() && JobInvariants.TableInv(cfg, s.jobs) && id in s.workers
    ensures var after := Step(cfg, maxAttempts, s, QueueOp(call), now);
            && after.journals == s.journals && after.workers.Keys == s.workers.Keys
            && after.workers[id] ==
                 if Shows(s.jobs, call, now, id) then s.workers[id].(lastSeen := now) else s.workers[id]
  {
    TouchesShow(cfg, s.jobs, call, now);
    QueueStep(cfg, maxAttempts, s, call, now);
  }

  // A report of what the worker did with a shutdown is journalled and ends the wake: until the next one
  // it is not told to shut down, and a registration answers nothing.
  lemma ReportEndsTheWake(s: Store, id: WorkerId, started: bool, now: Time)
    ensures ReportPower(s, id, started, now).Err? <==> id !in s.workers
    ensures id in s.workers ==>
              var after := StoreOr(ReportPower(s, id, started, now), s);
              && id in after.workers && OnlyWorker(s, after, id)
              && JournalOf(after.journals, id)
                   == JournalOf(s.journals, id) + [if started then ShutdownStarted(now) else ShutdownVetoed(now)]
              && after.workers[id] == s.workers[id].(woken := false, wakeRequested := None, wakeDeadline := None)
              && !MayShutDown(after, id)
  {
  }
}
