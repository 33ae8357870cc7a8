/** Wake and shutdown safety over whole runs of the joined store. */
module WorkerCycles {
  import opened Common
  import opened Jobs
  import opened PowerJournal
  import opened Workers
  import JobInvariants
  import JobTheorems

  ghost predicate WorkerInv(s: Store, maxAttempts: nat, id: WorkerId) {
    var h := JournalOf(s.journals, id);
    && WellFormed(h)
    && RetriesWereDue(h, maxAttempts)
    && GrantsFollowWakes(h)
    && (id in s.workers && s.workers[id].woken ==> OpenWake(h))
  }

  ghost predicate StoreInv(cfg: Config, maxAttempts: nat, s: Store) {
    && JobInvariants.TableInv(cfg, s.jobs)
    && forall id :: WorkerInv(s, maxAttempts, id)
  }

  // ----------------------------------------------------- journal bookkeeping

  lemma RetainedLast(h: Journal)
    ensures Retained(h) != [] <==> h != []
    ensures h != [] ==> Last(Retained(h)) == Last(h)
  {
  }

  // Writing one event that fits the journal keeps a worker's invariant, whatever its row becomes.
  lemma LogInv(s: Store, maxAttempts: nat, id: WorkerId, e: PowerEvent, after: Store)
    requires WorkerInv(s, maxAttempts, id)
    requires JournalOf(after.journals, id) == JournalOf(s.journals, id) + [e]
    requires MayAppend(JournalOf(s.journals, id), e)
    requires IsRetry(e) ==> RetryDue(Retained(JournalOf(s.journals, id)), maxAttempts)
    requires e.ShutdownGranted? ==> OpenWake(JournalOf(s.journals, id))
    requires id in after.workers && after.workers[id].woken ==>
               !Settles(e) && (e.WakeSent? || (id in s.workers && s.workers[id].woken))
    ensures WorkerInv(after, maxAttempts, id)
  {
    var h := JournalOf(s.journals, id);
    AppendWellFormed(h, e);
    AppendKeepsRetriesDue(h, e, maxAttempts);
    AppendOpenWake(h, e);
    AppendGrantsFollowWakes(h, e);
  }

  // Rows may change freely as long as no worker becomes woken.
  lemma RowsInv(s: Store, maxAttempts: nat, after: Store)
    requires forall id :: WorkerInv(s, maxAttempts, id)
    requires after.journals == s.journals
    requires forall id :: id in after.workers && after.workers[id].woken ==> id in s.workers && s.workers[id].woken
    ensures forall id :: WorkerInv(after, maxAttempts, id)
  {
    forall id ensures WorkerInv(after, maxAttempts, id) {
      assert WorkerInv(s, maxAttempts, id);
    }
  }

  // Logging for one worker leaves the others alone.
  lemma LogOneInv(s: Store, maxAttempts: nat, id: WorkerId, e: PowerEvent, after: Store)
    requires forall w :: WorkerInv(s, maxAttempts, w)
    requires after.journals == s.journals[id := JournalOf(s.journals, id) + [e]]
    requires forall w :: w != id && w in after.workers ==> w in s.workers && after.workers[w] == s.workers[w]
    requires MayAppend(JournalOf(s.journals, id), e)
    requires IsRetry(e) ==> RetryDue(Retained(JournalOf(s.journals, id)), maxAttempts)
    requires e.ShutdownGranted? ==> OpenWake(JournalOf(s.journals, id))
    requires id in after.workers && after.workers[id].woken ==>
               !Settles(e) && (e.WakeSent? || (id in s.workers && s.workers[id].woken))
    ensures forall w :: WorkerInv(after, maxAttempts, w)
  {
    forall w ensures WorkerInv(after, maxAttempts, w) {
      assert WorkerInv(s, maxAttempts, w);
      if w == id {
        LogInv(s, maxAttempts, id, e, after);
      } else {
        assert JournalOf(after.journals, w) == JournalOf(s.journals, w);
      }
    }
  }

  // ---------------------------------------------------------------- each step

  lemma RegisterInv(s: Store, maxAttempts: nat, id: WorkerId, caps: set<JobType>, mac: Option<string>, now: Time)
    requires forall w :: WorkerInv(s, maxAttempts, w)
    ensures forall w :: WorkerInv(StoreOr(Register(s, id, caps, mac, now), s), maxAttempts, w)
    ensures StoreOr(Register(s, id, caps, mac, now), s).jobs == s.jobs
  {
    var r := Register(s, id, caps, mac, now);
    if r.Ok? {
      var before := WorkerOf(s, id);
      var s1 := s.(workers := s.workers[id := RegisteredRow(before, caps, mac, now)]);
      RowsInv(s, maxAttempts, s1);
      RetainedLast(JournalOf(s.journals, id));
      if r.value != s1 {
        var e := Last(JournalOf(r.value.journals, id));
        LogOneInv(s1, maxAttempts, id, e, r.value);
      }
    }
  }

  lemma MarkWakingInv(cfg: Config, s: Store, maxAttempts: nat, id: WorkerId, timeout: int, trigger: Trigger, now: Time)
    requires forall w :: WorkerInv(s, maxAttempts, w)
    requires trigger.Retry? ==> RetryDue(Retained(JournalOf(s.journals, id)), maxAttempts)
    ensures forall w :: WorkerInv(StoreOr(MarkWaking(cfg, s, id, timeout, trigger, now), s), maxAttempts, w)
    ensures StoreOr(MarkWaking(cfg, s, id, timeout, trigger, now), s).jobs == s.jobs
  {
    var r := MarkWaking(cfg, s, id, timeout, trigger, now);
    if r.Ok? && r.value != s {
      var e := Last(JournalOf(r.value.journals, id));
      LogOneInv(s, maxAttempts, id, e, r.value);
    }
  }

  lemma SettleInv(cfg: Config, s: Store, maxAttempts: nat, max: nat, now: Time)
    requires forall w :: WorkerInv(s, maxAttempts, w)
    ensures forall w :: WorkerInv(Settle(cfg, s, max, now), maxAttempts, w)
  {
    var after := Settle(cfg, s, max, now);
    forall w ensures WorkerInv(after, maxAttempts, w) {
      assert WorkerInv(s, maxAttempts, w);
      var h := JournalOf(s.journals, w);
      RetainedLast(h);
      assert JournalOf(after.journals, w) == SettledJournal(cfg, s, w, max, now);
      if WakeRanOut(cfg, s, w, now) {
        var attempt := NextAttempt(h);
        var noted := WakeTimeout(s.workers[w].wakeDeadline.value, attempt);
        var s1 := s.(journals := s.journals[w := h + [noted]]);
        LogInv(s, maxAttempts, w, noted, s1);
        if JournalOf(after.journals, w) != h + [noted] {
          LogInv(s1, maxAttempts, w, WakeAbandoned(now, attempt), after);
        }
      }
    }
  }

  lemma RetryInv(cfg: Config, s: Store, maxAttempts: nat, chosen: Option<WorkerId>, sent: bool, delay: nat,
                 timeout: int, now: Time)
    requires forall w :: WorkerInv(s, maxAttempts, w)
    ensures forall w :: WorkerInv(RetryUnansweredWake(cfg, s, chosen, sent, delay, maxAttempts, timeout, now), maxAttempts, w)
    ensures RetryUnansweredWake(cfg, s, chosen, sent, delay, maxAttempts, timeout, now).jobs == s.jobs
  {
    SettleInv(cfg, s, maxAttempts, maxAttempts, now);
    var s1 := Settle(cfg, s, maxAttempts, now);
    if chosen.Some? && RetryCandidate(cfg, s1, chosen.value, delay, maxAttempts, now) {
      if sent {
        MarkWakingInv(cfg, s1, maxAttempts, chosen.value, timeout, Retry, now);
      } else {
        LogOneInv(s1, maxAttempts, chosen.value, WakeFailed(now, Retry), Log(s1, chosen.value, WakeFailed(now, Retry)));
      }
    }
  }

  lemma PollInv(cfg: Config, s: Store, maxAttempts: nat, id: WorkerId, kinds: set<JobType>, settle: bool, allow: bool,
                now: Time)
    requires forall w :: WorkerInv(s, maxAttempts, w)
    ensures forall w :: WorkerInv(Poll(cfg, s, id, kinds, settle, allow, now).0, maxAttempts, w)
    ensures Poll(cfg, s, id, kinds, settle, allow, now).0.jobs == Claim(cfg, s.jobs, id, kinds, now)
  {
    if Compatible(kinds) {
      var s1 := Touch(s, id, now).(jobs := Lease(cfg, Recover(cfg, s.jobs, now), id, kinds, now));
      RowsInv(s, maxAttempts, s1);
      if MayShutDown(s1, id) {
        assert WorkerInv(s1, maxAttempts, id);
        LogOneInv(s1, maxAttempts, id, ShutdownGranted(now), Log(s1, id, ShutdownGranted(now)));
      }
    }
  }

  lemma ReportInv(s: Store, maxAttempts: nat, id: WorkerId, started: bool, now: Time)
    requires forall w :: WorkerInv(s, maxAttempts, w)
    ensures forall w :: WorkerInv(StoreOr(ReportPower(s, id, started, now), s), maxAttempts, w)
    ensures StoreOr(ReportPower(s, id, started, now), s).jobs == s.jobs
  {
    var r := ReportPower(s, id, started, now);
    if r.Ok? {
      LogOneInv(s, maxAttempts, id, if started then ShutdownStarted(now) else ShutdownVetoed(now), r.value);
    }
  }

  // The job call a step makes, if any: everything proved of the queue alone holds of its jobs.
  function CallOf(op: Op): Option<Call> {
    match op
    case QueueOp(call) => if call.ClaimCall? then None else Some(call)
    case PollOp(id, kinds, _, _) => Some(ClaimCall(id, kinds))
    case _ => None
  }

  // What a step owes: the joint invariant, and the jobs the queue by itself would hold.
  ghost predicate StepOk(cfg: Config, maxAttempts: nat, s: Store, op: Op, now: Time) {
    var after := Step(cfg, maxAttempts, s, op, now);
    && StoreInv(cfg, maxAttempts, after)
    && after.jobs == match CallOf(op) case None => s.jobs case Some(call) => Apply(cfg, s.jobs, call, now)
  }

  lemma QueueInv(cfg: Config, maxAttempts: nat, s: Store, call: Call, now: Time)
    requires cfg.Valid() && StoreInv(cfg, maxAttempts, s)
    ensures StepOk(cfg, maxAttempts, s, QueueOp(call), now)
  {
    if !call.ClaimCall? {
      JobInvariants.ApplyInv(cfg, s.jobs, call, now);
      RowsInv(s, maxAttempts, Step(cfg, maxAttempts, s, QueueOp(call), now));
    }
  }

  lemma PollStepInv(cfg: Config, maxAttempts: nat, s: Store, id: WorkerId, kinds: set<JobType>, settle: bool,
                    allow: bool, now: Time)
    requires cfg.Valid() && StoreInv(cfg, maxAttempts, s)
    ensures StepOk(cfg, maxAttempts, s, PollOp(id, kinds, settle, allow), now)
  {
    JobInvariants.ClaimInv(cfg, s.jobs, id, kinds, now);
    PollInv(cfg, s, maxAttempts, id, kinds, settle, allow, now);
  }

  lemma WakeStepInv(cfg: Config, maxAttempts: nat, s: Store, id: WorkerId, timeout: int, trigger: Trigger, now: Time)
    requires cfg.Valid() && StoreInv(cfg, maxAttempts, s)
    ensures StepOk(cfg, maxAttempts, s, WakeOp(id, timeout, trigger), now)
  {
    if !trigger.Retry? { MarkWakingInv(cfg, s, maxAttempts, id, timeout, trigger, now); }
  }

  lemma WorkerStepInv(cfg: Config, maxAttempts: nat, s: Store, op: Op, now: Time)
    requires cfg.Valid() && StoreInv(cfg, maxAttempts, s) && !op.QueueOp? && !op.PollOp? && !op.WakeOp?
    ensures StepOk(cfg, maxAttempts, s, op, now)
  {
    match op
    case RegisterOp(id, caps, mac) => RegisterInv(s, maxAttempts, id, caps, mac, now);
    case SettleOp(max) => SettleInv(cfg, s, maxAttempts, max, now);
    case RetryOp(chosen, sent, delay, timeout) => RetryInv(cfg, s, maxAttempts, chosen, sent, delay, timeout, now);
    case ReportOp(id, started) => ReportInv(s, maxAttempts, id, started, now);
    case WakeFailureOp(id, trigger) =>
      LogOneInv(s, maxAttempts, id, WakeFailed(now, trigger), Step(cfg, maxAttempts, s, op, now));
  }

  lemma StepInv(cfg: Config, maxAttempts: nat, s: Store, op: Op, now: Time)
    requires cfg.Valid() && StoreInv(cfg, maxAttempts, s)
    ensures StepOk(cfg, maxAttempts, s, op, now)
  {
    match op
    case QueueOp(call) => QueueInv(cfg, maxAttempts, s, call, now);
    case PollOp(id, kinds, settle, allow) => PollStepInv(cfg, maxAttempts, s, id, kinds, settle, allow, now);
    case WakeOp(id, timeout, trigger) => WakeStepInv(cfg, maxAttempts, s, id, timeout, trigger, now);
    case _ => WorkerStepInv(cfg, maxAttempts, s, op, now);
  }

  // --------------------------------------------------------------- whole runs

  const EMPTY: Store := Store(map[], map[], map[])

  ghost function RunStore(cfg: Config, maxAttempts: nat, ops: seq<(Op, Time)>): Store {
    if ops == [] then EMPTY
    else
      var last := ops[|ops| - 1];
      Step(cfg, maxAttempts, RunStore(cfg, maxAttempts, ops[..|ops| - 1]), last.0, last.1)
  }

  // The job calls of a run, in order.
  function CallsOf(ops: seq<(Op, Time)>): seq<(Call, Time)> {
    if ops == [] then []
    else
      var last := ops[|ops| - 1];
      var before := CallsOf(ops[..|ops| - 1]);
      match CallOf(last.0) case None => before case Some(call) => before + [(call, last.1)]
  }

  // Every run keeps the joint invariant, and its jobs are those of the queue run by itself.
  lemma {:induction false} EveryRunIsSafe(cfg: Config, maxAttempts: nat, ops: seq<(Op, Time)>)
    requires cfg.Valid()
    ensures StoreInv(cfg, maxAttempts, RunStore(cfg, maxAttempts, ops))
    ensures RunStore(cfg, maxAttempts, ops).jobs == JobInvariants.Run(cfg, CallsOf(ops))
  {
    if ops == [] {
      assert Active(map[]) == {};
    } else {
      var shorter, last := ops[..|ops| - 1], ops[|ops| - 1];
      EveryRunIsSafe(cfg, maxAttempts, shorter);
      StepInv(cfg, maxAttempts, RunStore(cfg, maxAttempts, shorter), last.0, last.1);
      var before := CallsOf(shorter);
      if CallOf(last.0).Some? {
        assert (before + [(CallOf(last.0).value, last.1)])[..|before|] == before;
      }
    }
  }

  // What any run leaves in the journal of any worker: well-ordered, with honest counters.
  lemma JournalsAccountForWakes(cfg: Config, maxAttempts: nat, ops: seq<(Op, Time)>, id: WorkerId)
    requires cfg.Valid()
    ensures var h := JournalOf(RunStore(cfg, maxAttempts, ops).journals, id);
            && WellFormed(h)
            && Unanswered(h) >= 0
            && Count(h, AnsweredOnTime) + Count(h, AnsweredLate) + Unanswered(h) <= Count(h, Sent)
            && var kept := Retained(h);
               && Unanswered(kept) >= 0
               && var sum := Count(kept, AnsweredOnTime) + Count(kept, AnsweredLate) + Unanswered(kept);
               sum <= Count(kept, Sent) + 1 && (sum > Count(kept, Sent) <==> Orphaned(kept) && AllClosed(kept))
  {
    EveryRunIsSafe(cfg, maxAttempts, ops);
    assert WorkerInv(RunStore(cfg, maxAttempts, ops), maxAttempts, id);
    WakesAreAccountedFor(JournalOf(RunStore(cfg, maxAttempts, ops).journals, id));
    RetainedWakesAreAccountedFor(JournalOf(RunStore(cfg, maxAttempts, ops).journals, id));
  }

  // Any 200 events in a row without a connection or an abandonment hold at most maxAttempts - 1
  // retries: so does the whole stretch between two of those as long as it is no longer than that.
  lemma RetriesAreBounded(cfg: Config, maxAttempts: nat, ops: seq<(Op, Time)>, id: WorkerId, j: nat, k: nat)
    requires cfg.Valid() && maxAttempts >= 1
    requires NoneCloses(JournalOf(RunStore(cfg, maxAttempts, ops).journals, id), j, k) && k - j <= RETENTION
    ensures Retries(JournalOf(RunStore(cfg, maxAttempts, ops).journals, id)[j..k]) <= maxAttempts - 1
  {
    EveryRunIsSafe(cfg, maxAttempts, ops);
    assert WorkerInv(RunStore(cfg, maxAttempts, ops), maxAttempts, id);
    RetriesInWindow(JournalOf(RunStore(cfg, maxAttempts, ops).journals, id), maxAttempts, j, k);
  }

  // -------------------------------------------------- a run that overcounts

  lemma RunThen(cfg: Config, maxAttempts: nat, ops: seq<(Op, Time)>, op: Op, now: Time)
    ensures RunStore(cfg, maxAttempts, ops + [(op, now)]) == Step(cfg, maxAttempts, RunStore(cfg, maxAttempts, ops), op, now)
  {
    assert (ops + [(op, now)])[..|ops|] == ops;
  }

  lemma {:induction false} RunFailures(cfg: Config, maxAttempts: nat, ops: seq<(Op, Time)>, id: WorkerId, n: nat, now: Time)
    returns (more: seq<(Op, Time)>)
    ensures JournalOf(RunStore(cfg, maxAttempts, more).journals, id) ==
              JournalOf(RunStore(cfg, maxAttempts, ops).journals, id) + Failures(n, now)
  {
    if n == 0 {
      more := ops;
    } else {
      var before := RunFailures(cfg, maxAttempts, ops, id, n - 1, now);
      RunThen(cfg, maxAttempts, before, WakeFailureOp(id, ManualTest), now);
      more := before + [(WakeFailureOp(id, ManualTest), now)];
      LogAppends(RunStore(cfg, maxAttempts, before), id, WakeFailed(now, ManualTest));
      var h := JournalOf(RunStore(cfg, maxAttempts, ops).journals, id);
      assert h + Failures(n, now) == h + Failures(n - 1, now) + [WakeFailed(now, ManualTest)];
    }
  }

  lemma LogAppends(s: Store, id: WorkerId, e: PowerEvent)
    ensures JournalOf(Log(s, id, e).journals, id) == JournalOf(s.journals, id) + [e]
  {
  }

  // A worker that registers, is woken once it is no longer seen, and stays silent.
  lemma RunSilentWake(cfg: Config, maxAttempts: nat, id: WorkerId) returns (ops: seq<(Op, Time)>)
    requires cfg.Valid()
    ensures var h := JournalOf(RunStore(cfg, maxAttempts, ops).journals, id);
            |h| == 2 && h[0].WakeSent? && h[1].WakeTimeout?
  {
    var wake := (cfg.availableSeconds + 1) * SECOND;
    var late := wake + 181 * SECOND;
    var one := [(RegisterOp(id, {}, None), 0)];
    var two := one + [(WakeOp(id, 180, ManualTest), wake)];
    ops := two + [(SettleOp(maxAttempts), late)];
    assert [] + one == one;
    RunThen(cfg, maxAttempts, [], RegisterOp(id, {}, None), 0);
    RunThen(cfg, maxAttempts, one, WakeOp(id, 180, ManualTest), wake);
    RunThen(cfg, maxAttempts, two, SettleOp(maxAttempts), late);
    var s1 := RunStore(cfg, maxAttempts, one);
    assert s1 == Store(map[], map[id := Worker({}, None, 0, 0, false, None, None)], map[]);
    var s2 := RunStore(cfg, maxAttempts, two);
    WakeOnce(cfg, s1, s2, id, wake);
    SettleOnce(cfg, s2, RunStore(cfg, maxAttempts, ops), id, maxAttempts, late);
  }

  lemma WakeOnce(cfg: Config, s1: Store, s2: Store, id: WorkerId, wake: Time)
    requires cfg.Valid() && wake == (cfg.availableSeconds + 1) * SECOND
    requires s1 == Store(map[], map[id := Worker({}, None, 0, 0, false, None, None)], map[])
    requires s2 == StoreOr(MarkWaking(cfg, s1, id, 180, ManualTest, wake), s1)
    ensures id in s2.workers && s2.workers[id].wakeDeadline == Some(wake + 180 * SECOND) && s2.workers[id].lastSeen == 0
    ensures s2.jobs == map[]
    ensures var h := JournalOf(s2.journals, id); |h| == 1 && h[0].WakeSent?
  {
    LogAppends(s1, id, WakeSent(wake, ManualTest, NextAttempt([]), 180));
  }

  lemma SettleOnce(cfg: Config, s2: Store, s3: Store, id: WorkerId, maxAttempts: nat, late: Time)
    requires id in s2.workers && s2.workers[id].wakeDeadline.Some? && s2.workers[id].wakeDeadline.value < late
    requires s2.workers[id].lastSeen + cfg.availableSeconds * SECOND < late && s2.jobs == map[]
    requires var h := JournalOf(s2.journals, id); |h| == 1 && h[0].WakeSent?
    requires s3 == Settle(cfg, s2, maxAttempts, late)
    ensures var h := JournalOf(s3.journals, id);
            |h| == 2 && h[0] == JournalOf(s2.journals, id)[0] && h[1].WakeTimeout?
  {
    assert !Waiting(s2.jobs, s2.workers[id].capabilities);
    assert WakeRanOut(cfg, s2, id, late);
  }

  // Under any configuration a run of the agent leaves retained events that show one unanswered wake
  // out of no attempt.
  lemma TrimmingOvercounts(cfg: Config, maxAttempts: nat, id: WorkerId) returns (ops: seq<(Op, Time)>)
    requires cfg.Valid()
    ensures var r := Retained(JournalOf(RunStore(cfg, maxAttempts, ops).journals, id));
            Unanswered(r) == 1 && Count(r, Sent) == 0
  {
    var before := RunSilentWake(cfg, maxAttempts, id);
    var h := JournalOf(RunStore(cfg, maxAttempts, before).journals, id);
    var later := (cfg.availableSeconds + 200) * SECOND;
    ops := RunFailures(cfg, maxAttempts, before, id, 199, later);
    assert h == [h[0], h[1]];
    FailuresHideTheWake(h[0], h[1], later);
  }

  // Each shutdown permission in a journal follows a wake that no report has closed since.
  lemma GrantsNeedAWake(cfg: Config, maxAttempts: nat, ops: seq<(Op, Time)>, id: WorkerId, i: nat)
    requires cfg.Valid()
    requires var h := JournalOf(RunStore(cfg, maxAttempts, ops).journals, id); i < |h| && h[i].ShutdownGranted?
    ensures var h := JournalOf(RunStore(cfg, maxAttempts, ops).journals, id);
            exists j :: 0 <= j < i && h[j].WakeSent? && forall m :: j < m < i ==> !Settles(h[m])
  {
    EveryRunIsSafe(cfg, maxAttempts, ops);
    assert WorkerInv(RunStore(cfg, maxAttempts, ops), maxAttempts, id);
    var h := JournalOf(RunStore(cfg, maxAttempts, ops).journals, id);
    assert OpenWake(h[..i]);
    var j :| 0 <= j < |h[..i]| && h[..i][j].WakeSent? && forall m :: j < m < |h[..i]| ==> !Settles(h[..i][m]);
    assert h[j].WakeSent?;
    forall m | j < m < i ensures !Settles(h[m]) { assert !Settles(h[..i][m]); }
  }

  // The grant itself: on the store the poll leaves, nothing keeps the worker on.
  lemma GrantStep(cfg: Config, maxAttempts: nat, before: Store, id: WorkerId, kinds: set<JobType>,
                  settle: bool, allow: bool, now: Time)
    requires forall w :: WorkerInv(before, maxAttempts, w)
    requires Poll(cfg, before, id, kinds, settle, allow, now).1.shutdown
    ensures var s := Poll(cfg, before, id, kinds, settle, allow, now).0;
            && settle && allow && MayShutDown(s, id)
            && OpenWake(JournalOf(s.journals, id))
            && JournalOf(s.journals, id) != [] && Last(JournalOf(s.journals, id)).ShutdownGranted?
  {
    PollInv(cfg, before, maxAttempts, id, kinds, settle, allow, now);
    var s := Poll(cfg, before, id, kinds, settle, allow, now).0;
    assert WorkerInv(s, maxAttempts, id);
    RetainedLast(JournalOf(before.journals, id));
  }

  // Nothing keeps a worker on, spelled out: no live job is its own or of its types, and every
  // ending of followed work still in the table was marked processed after it ended.
  ghost predicate NothingLeft(cfg: Config, jobs: Table, calls: seq<(Call, Time)>, caps: set<JobType>, id: WorkerId) {
    && (forall j :: j in jobs && Live(jobs[j].job.status) ==> jobs[j].job.kind !in caps && jobs[j].job.worker != Some(id))
    && (forall j :: j in jobs && Terminal(jobs[j].job.status) && Followed(jobs[j].job.kind) ==>
          JobTheorems.MarkedSinceEnd(cfg, calls, j))
  }

  lemma IdleMeansDone(cfg: Config, calls: seq<(Call, Time)>, s: Store, id: WorkerId)
    requires cfg.Valid() && s.jobs == JobInvariants.Run(cfg, calls) && MayShutDown(s, id)
    ensures NothingLeft(cfg, s.jobs, calls, s.workers[id].capabilities, id)
  {
    forall j | j in s.jobs
      ensures Live(s.jobs[j].job.status) ==>
                s.jobs[j].job.kind !in s.workers[id].capabilities && s.jobs[j].job.worker != Some(id)
      ensures s.jobs[j].job.processed
    {
      assert !KeepsOn(s.jobs[j], s.workers[id].capabilities, id);
    }
    forall j | j in s.jobs && Terminal(s.jobs[j].job.status) && Followed(s.jobs[j].job.kind)
      ensures JobTheorems.MarkedSinceEnd(cfg, calls, j)
    {
      JobTheorems.ProcessedWasMarked(cfg, calls, j);
    }
  }

  // What a permission to shut down promises about the store it leaves behind.
  ghost predicate SafeToStop(cfg: Config, s: Store, calls: seq<(Call, Time)>, id: WorkerId) {
    && id in s.workers
    && OpenWake(JournalOf(s.journals, id))
    && JournalOf(s.journals, id) != [] && Last(JournalOf(s.journals, id)).ShutdownGranted?
    && s.jobs == JobInvariants.Run(cfg, calls)
    && NothingLeft(cfg, s.jobs, calls, s.workers[id].capabilities, id)
  }

  lemma RunOneCallMore(cfg: Config, calls: seq<(Call, Time)>, call: Call, now: Time)
    ensures JobInvariants.Run(cfg, calls + [(call, now)]) == Apply(cfg, JobInvariants.Run(cfg, calls), call, now)
  {
    assert (calls + [(call, now)])[..|calls|] == calls;
  }

  lemma PollRunsOn(cfg: Config, maxAttempts: nat, ops: seq<(Op, Time)>, id: WorkerId, kinds: set<JobType>,
                   settle: bool, allow: bool, now: Time)
    requires cfg.Valid()
    ensures Poll(cfg, RunStore(cfg, maxAttempts, ops), id, kinds, settle, allow, now).0.jobs
              == JobInvariants.Run(cfg, CallsOf(ops) + [(ClaimCall(id, kinds), now)])
  {
    EveryRunIsSafe(cfg, maxAttempts, ops);
    PollIsClaim(cfg, maxAttempts, RunStore(cfg, maxAttempts, ops), CallsOf(ops), id, kinds, settle, allow, now);
  }

  lemma PollIsClaim(cfg: Config, maxAttempts: nat, s: Store, calls: seq<(Call, Time)>, id: WorkerId, kinds: set<JobType>,
                    settle: bool, allow: bool, now: Time)
    requires StoreInv(cfg, maxAttempts, s) && s.jobs == JobInvariants.Run(cfg, calls)
    ensures Poll(cfg, s, id, kinds, settle, allow, now).0.jobs
              == JobInvariants.Run(cfg, calls + [(ClaimCall(id, kinds), now)])
  {
    RunOneCallMore(cfg, calls, ClaimCall(id, kinds), now);
    PollInv(cfg, s, maxAttempts, id, kinds, settle, allow, now);
  }

  // A worker told to shut down was woken by the agent and has nothing left to do.
  lemma ShutdownIsSafe(cfg: Config, maxAttempts: nat, ops: seq<(Op, Time)>, id: WorkerId, kinds: set<JobType>,
                       settle: bool, allow: bool, now: Time)
    requires cfg.Valid()
    requires Poll(cfg, RunStore(cfg, maxAttempts, ops), id, kinds, settle, allow, now).1.shutdown
    ensures settle && allow
    ensures SafeToStop(cfg, Poll(cfg, RunStore(cfg, maxAttempts, ops), id, kinds, settle, allow, now).0,
                       CallsOf(ops) + [(ClaimCall(id, kinds), now)], id)
  {
    EveryRunIsSafe(cfg, maxAttempts, ops);
    PollRunsOn(cfg, maxAttempts, ops, id, kinds, settle, allow, now);
    GrantIsSafe(cfg, maxAttempts, RunStore(cfg, maxAttempts, ops), CallsOf(ops) + [(ClaimCall(id, kinds), now)],
                id, kinds, settle, allow, now);
  }

  lemma GrantIsSafe(cfg: Config, maxAttempts: nat, before: Store, calls: seq<(Call, Time)>, id: WorkerId,
                    kinds: set<JobType>, settle: bool, allow: bool, now: Time)
    requires cfg.Valid() && forall w :: WorkerInv(before, maxAttempts, w)
    requires Poll(cfg, before, id, kinds, settle, allow, now).1.shutdown
    requires Poll(cfg, before, id, kinds, settle, allow, now).0.jobs == JobInvariants.Run(cfg, calls)
    ensures settle && allow
    ensures SafeToStop(cfg, Poll(cfg, before, id, kinds, settle, allow, now).0, calls, id)
  {
    GrantStep(cfg, maxAttempts, before, id, kinds, settle, allow, now);
    IdleMeansDone(cfg, calls, Poll(cfg, before, id, kinds, settle, allow, now).0, id);
  }
}
