/** The promises of the job queue: fencing, absorbing endings, one result, idempotent creation. */
module JobTheorems {
  import opened Common
  import opened Jobs
  import opened JobInvariants

  // --------------------------------------------------------- read off the invariant

  // A job timed out exactly when it ended at or after its deadline, whichever call ended it.
  lemma DeadlineDecidesTimeout(cfg: Config, calls: seq<(Call, Time)>, id: JobId)
    requires cfg.Valid() && id in Run(cfg, calls) && Terminal(Run(cfg, calls)[id].job.status)
    ensures var job := Run(cfg, calls)[id].job;
            job.finishedAt.Some? && (job.status.TimedOut? <==> job.createdAt + job.timeout * SECOND <= job.finishedAt.value)
  {
    EveryRunKeepsTheInvariant(cfg, calls);
  }

  // The trail of a job is a path to its status, counts its attempts and has bounded length.
  lemma TrailRefinesTheRow(cfg: Config, calls: seq<(Call, Time)>, id: JobId)
    requires cfg.Valid() && id in Run(cfg, calls)
    ensures var row := Run(cfg, calls)[id];
            && IsPath(row.trail)
            && Last(row.trail).status == row.job.status
            && Entries(row.trail, Running) == row.job.attempt <= cfg.maxAttempts
            && |row.trail| <= 3 * cfg.maxAttempts + 2
  {
    EveryRunKeepsTheInvariant(cfg, calls);
    assert RowInv(cfg, Run(cfg, calls)[id]);
  }

  // ----------------------------------------------------------------- fencing

  // The trail's latest entry is the claim of this worker and attempt, and its lease still runs.
  ghost predicate Holds(t: Table, id: JobId, worker: WorkerId, attempt: nat, now: Time) {
    && id in t && |t[id].trail| > 0
    && Last(t[id].trail).status == Running
    && Last(t[id].trail).detail == ClaimedBy(worker, attempt)
    && t[id].job.lease.Some? && now < t[id].job.lease.value
  }

  lemma HolderSurvivesRecovery(cfg: Config, t: Table, id: JobId, worker: WorkerId, attempt: nat, now: Time)
    requires cfg.Valid() && TableInv(cfg, t)
    ensures Holds(t, id, worker, attempt, now) <==>
              id in Recover(cfg, t, now) && Owns(Recover(cfg, t, now)[id].job, worker, attempt)
    ensures Holds(t, id, worker, attempt, now) ==> Recover(cfg, t, now)[id] == t[id] && now < Deadline(t[id].job)
  {
    RecoverInv(cfg, t, now);
    if id in t {
      assert RowInv(cfg, t[id]);
      RecoverRowInv(cfg, t[id], now);
    }
  }

  // A heartbeat renews exactly the lease its sender holds; any other heartbeat is refused, or
  // acknowledges an ended attempt and changes nothing beyond recovery.
  lemma HeartbeatIsFenced(cfg: Config, t: Table, id: JobId, worker: WorkerId, attempt: nat,
                          progress: Option<string>, now: Time)
    requires cfg.Valid() && TableInv(cfg, t)
    ensures var r := Recover(cfg, t, now);
            var reply := Heartbeat(cfg, t, id, worker, attempt, progress, now);
            if Holds(t, id, worker, attempt, now)
            then reply == Ok(r[id := Renewed(cfg, t[id], progress, now)])
                 && now < reply.value[id].job.lease.value <= Deadline(t[id].job)
            else reply == Ok(r) || reply.Err?
  {
    HolderSurvivesRecovery(cfg, t, id, worker, attempt, now);
  }

  // A completion is recorded exactly for the holder of the lease, strictly before the deadline.
  lemma CompletionIsFenced(cfg: Config, t: Table, id: JobId, worker: WorkerId, attempt: nat, o: Outcome, now: Time)
    requires cfg.Valid() && TableInv(cfg, t)
    ensures var r := Recover(cfg, t, now);
            var reply := Complete(cfg, t, id, worker, attempt, o, now);
            if Holds(t, id, worker, attempt, now) && !o.BadResult?
            then reply == Ok(r[id := Completed(t[id], worker, o, now)]) && now < Deadline(t[id].job)
            else reply == Ok(r) || reply.Err?
  {
    HolderSurvivesRecovery(cfg, t, id, worker, attempt, now);
  }

  // A transfer is authorized for the holder of a lease on a permitted type, and for nobody else.
  lemma TransferIsFenced(cfg: Config, t: Table, id: JobId, worker: WorkerId, attempt: nat, permitted: set<JobType>,
                         now: Time)
    requires cfg.Valid() && TableInv(cfg, t)
    ensures Authorize(cfg, t, id, worker, attempt, permitted, now).Ok? <==>
              Holds(t, id, worker, attempt, now) && t[id].job.kind in permitted
  {
    HolderSurvivesRecovery(cfg, t, id, worker, attempt, now);
  }

  // Immediate from what a hold is; by HolderSurvivesRecovery, then, at most one (worker, attempt)
  // pair can act on a job at any instant.
  lemma OneHolder(t: Table, id: JobId, w1: WorkerId, a1: nat, w2: WorkerId, a2: nat, now: Time)
    requires Holds(t, id, w1, a1, now) && Holds(t, id, w2, a2, now)
    ensures w1 == w2 && a1 == a2
  {
    assert ClaimedBy(w1, a1) == ClaimedBy(w2, a2);
  }

  // ------------------------------------------------------- one step, one job

  ghost predicate Dropped(cfg: Config, t: Table, id: JobId, now: Time) {
    id in t && Purgeable(cfg, RecoverRow(cfg, t[id], now), now)
  }

  ghost predicate SameButProcessed(a: Row, b: Row) {
    b == a.(job := a.job.(processed := b.job.processed))
  }

  // What a call may do to the row it finds under id, unless retention drops that row.
  ghost predicate Evolves(t: Table, call: Call, now: Time, id: JobId, a: Row, b: Row) {
    && a.trail <= b.trail
    && b.job.request == a.job.request && b.job.createdAt == a.job.createdAt && b.job.timeout == a.job.timeout
    && (Terminal(a.job.status) ==> SameButProcessed(a, b))
    && (b.job.result == a.job.result ||
          (call.CompleteCall? && call.id == id && call.outcome.Success?
           && Holds(t, id, call.worker, call.attempt, now)
           && a.job.result == None && b.job.result == Some(call.outcome.result)))
  }

  lemma RecoveryEvolves(cfg: Config, t: Table, call: Call, now: Time, id: JobId)
    requires cfg.Valid() && TableInv(cfg, t) && id in t && !Dropped(cfg, t, id, now)
    ensures id in Recover(cfg, t, now) && Evolves(t, call, now, id, t[id], Recover(cfg, t, now)[id])
  {
    assert RowInv(cfg, t[id]);
    RecoverRowInv(cfg, t[id], now);
  }

  // Replacing the recovered row by one that evolves it is an evolution of the original row.
  lemma UpdateEvolves(cfg: Config, t: Table, call: Call, now: Time, id: JobId, at: JobId, row: Row)
    requires cfg.Valid() && TableInv(cfg, t) && id in t && !Dropped(cfg, t, id, now)
    requires at in Recover(cfg, t, now)
    requires at == id ==> Evolves(t, call, now, id, t[id], row)
    ensures id in Recover(cfg, t, now)[at := row]
    ensures Evolves(t, call, now, id, t[id], Recover(cfg, t, now)[at := row][id])
  {
    RecoveryEvolves(cfg, t, call, now, id);
  }

  lemma LeaseEvolves(cfg: Config, t: Table, call: Call, now: Time, id: JobId, worker: WorkerId, kinds: set<JobType>)
    requires cfg.Valid() && TableInv(cfg, t) && id in t && !Dropped(cfg, t, id, now)
    ensures var after := Lease(cfg, Recover(cfg, t, now), worker, kinds, now);
            id in after && Evolves(t, call, now, id, t[id], after[id])
  {
    RecoveryEvolves(cfg, t, call, now, id);
    var r := Recover(cfg, t, now);
    OldestIsCandidate(r, kinds);
    var chosen := Oldest(r, kinds);
    if chosen.Some? {
      RecoverInv(cfg, t, now);
      assert chosen.value == id ==> !Terminal(t[id].job.status);
      UpdateEvolves(cfg, t, call, now, id, chosen.value, Leased(cfg, r[chosen.value], worker, now));
    }
  }

  lemma CancelEvolves(cfg: Config, t: Table, call: Call, now: Time, id: JobId, cid: JobId)
    requires cfg.Valid() && TableInv(cfg, t) && id in t && !Dropped(cfg, t, id, now)
    ensures var after := OrElse(Cancel(cfg, t, cid, now), t);
            id in after && Evolves(t, call, now, id, t[id], after[id])
  {
    RecoveryEvolves(cfg, t, call, now, id);
  }

  lemma HeartbeatEvolves(cfg: Config, t: Table, call: Call, now: Time, id: JobId)
    requires cfg.Valid() && TableInv(cfg, t) && id in t && !Dropped(cfg, t, id, now) && call.HeartbeatCall?
    ensures id in Apply(cfg, t, call, now) && Evolves(t, call, now, id, t[id], Apply(cfg, t, call, now)[id])
  {
    RecoveryEvolves(cfg, t, call, now, id);
    HeartbeatIsFenced(cfg, t, call.id, call.worker, call.attempt, call.progress, now);
    HolderSurvivesRecovery(cfg, t, call.id, call.worker, call.attempt, now);
    if Holds(t, call.id, call.worker, call.attempt, now) {
      UpdateEvolves(cfg, t, call, now, id, call.id, Renewed(cfg, t[call.id], call.progress, now));
    }
  }

  lemma CompleteEvolves(cfg: Config, t: Table, call: Call, now: Time, id: JobId)
    requires cfg.Valid() && TableInv(cfg, t) && id in t && !Dropped(cfg, t, id, now) && call.CompleteCall?
    ensures id in Apply(cfg, t, call, now) && Evolves(t, call, now, id, t[id], Apply(cfg, t, call, now)[id])
  {
    RecoveryEvolves(cfg, t, call, now, id);
    CompletionIsFenced(cfg, t, call.id, call.worker, call.attempt, call.outcome, now);
    HolderSurvivesRecovery(cfg, t, call.id, call.worker, call.attempt, now);
    if Holds(t, call.id, call.worker, call.attempt, now) && !call.outcome.BadResult? {
      assert RowInv(cfg, t[call.id]);
      UpdateEvolves(cfg, t, call, now, id, call.id, Completed(t[call.id], call.worker, call.outcome, now));
    }
  }

  // Creation touches no row it finds; the remaining calls recover or leave the table alone.
  lemma OtherEvolves(cfg: Config, t: Table, call: Call, now: Time, id: JobId)
    requires cfg.Valid() && TableInv(cfg, t) && id in t && !Dropped(cfg, t, id, now)
    requires call.CreateCall? || call.ReadCall? || call.ObserveCall? || call.AuthorizeCall?
    ensures id in Apply(cfg, t, call, now) && Evolves(t, call, now, id, t[id], Apply(cfg, t, call, now)[id])
  {
    RecoveryEvolves(cfg, t, call, now, id);
    if call.CreateCall? { CreateEvolves(cfg, t, call, now, id); }
  }

  lemma CreateEvolves(cfg: Config, t: Table, call: Call, now: Time, id: JobId)
    requires cfg.Valid() && TableInv(cfg, t) && id in t && !Dropped(cfg, t, id, now) && call.CreateCall?
    ensures id in Apply(cfg, t, call, now) && Evolves(t, call, now, id, t[id], Apply(cfg, t, call, now)[id])
  {
    RecoveryEvolves(cfg, t, call, now, id);
    var after, r := Apply(cfg, t, call, now), Recover(cfg, t, now);
    assert after == t || after == r || (after == r[call.req.id := NewRow(cfg, call.req, now)] && call.req.id !in r);
  }

  lemma ApplyEvolves(cfg: Config, t: Table, call: Call, now: Time, id: JobId)
    requires cfg.Valid() && TableInv(cfg, t) && id in t && !Dropped(cfg, t, id, now)
    ensures id in Apply(cfg, t, call, now) && Evolves(t, call, now, id, t[id], Apply(cfg, t, call, now)[id])
  {
    match call
    case ClaimCall(worker, kinds) =>
      RecoveryEvolves(cfg, t, call, now, id);
      LeaseEvolves(cfg, t, call, now, id, worker, kinds);
    case CancelCall(cid) => CancelEvolves(cfg, t, call, now, id, cid);
    case HeartbeatCall(_, _, _, _) => HeartbeatEvolves(cfg, t, call, now, id);
    case CompleteCall(_, _, _, _) => CompleteEvolves(cfg, t, call, now, id);
    case MarkProcessedCall(_) =>
    case _ => OtherEvolves(cfg, t, call, now, id);
  }

  // ------------------------------------------------------------- longer runs

  ghost function RunFrom(cfg: Config, t: Table, calls: seq<(Call, Time)>): Table {
    if calls == [] then t
    else
      var last := calls[|calls| - 1];
      Apply(cfg, RunFrom(cfg, t, calls[..|calls| - 1]), last.0, last.1)
  }

  ghost predicate Kept(cfg: Config, t: Table, calls: seq<(Call, Time)>, id: JobId) {
    forall k :: 0 <= k < |calls| ==> !Dropped(cfg, RunFrom(cfg, t, calls[..k]), id, calls[k].1)
  }

  lemma KeptPrefix(cfg: Config, t: Table, calls: seq<(Call, Time)>, id: JobId)
    requires Kept(cfg, t, calls, id) && calls != []
    ensures Kept(cfg, t, calls[..|calls| - 1], id)
    ensures !Dropped(cfg, RunFrom(cfg, t, calls[..|calls| - 1]), id, calls[|calls| - 1].1)
  {
    var shorter := calls[..|calls| - 1];
    forall k | 0 <= k < |shorter| ensures !Dropped(cfg, RunFrom(cfg, t, shorter[..k]), id, shorter[k].1) {
      assert shorter[..k] == calls[..k];
    }
  }

  // Until retention drops it, a job keeps its request, only ever adds to its trail, never leaves
  // an ending, and never loses or replaces a stored result.
  lemma {:induction false} HistoryIsAppendOnly(cfg: Config, t: Table, calls: seq<(Call, Time)>, id: JobId)
    requires cfg.Valid() && TableInv(cfg, t) && id in t && Kept(cfg, t, calls, id)
    ensures TableInv(cfg, RunFrom(cfg, t, calls)) && id in RunFrom(cfg, t, calls)
    ensures var row := RunFrom(cfg, t, calls)[id];
            && t[id].trail <= row.trail
            && row.job.request == t[id].job.request && Deadline(row.job) == Deadline(t[id].job)
            && (Terminal(t[id].job.status) ==> SameButProcessed(t[id], row))
            && (t[id].job.result.Some? ==> row.job.result == t[id].job.result)
  {
    assert RowInv(cfg, t[id]);
    if calls != [] {
      var shorter, last := calls[..|calls| - 1], calls[|calls| - 1];
      KeptPrefix(cfg, t, calls, id);
      HistoryIsAppendOnly(cfg, t, shorter, id);
      ApplyInv(cfg, RunFrom(cfg, t, shorter), last.0, last.1);
      ApplyEvolves(cfg, RunFrom(cfg, t, shorter), last.0, last.1, id);
    }
  }

  // While the job is kept, creating under its id again is answered by the clock and the request
  // alone: refused as invalid when the source would refuse the request outright, which it decides
  // before it looks for the job; otherwise answered by the existing job, with nothing changed beyond
  // recovery, when the normalized requests are equal, and refused as a conflict when they differ.
  lemma CreateIsIdempotent(cfg: Config, t: Table, req: Request, now: Time, calls: seq<(Call, Time)>,
                           again: Request, later: Time)
    requires cfg.Valid() && TableInv(cfg, t) && Create(cfg, t, req, now).Ok? && again.id == req.id
    requires var t1 := Create(cfg, t, req, now).value;
             Kept(cfg, t1, calls, req.id) && !Dropped(cfg, RunFrom(cfg, t1, calls), req.id, later)
    ensures var t2 := RunFrom(cfg, Create(cfg, t, req, now).value, calls);
            Create(cfg, t2, again, later) ==
              if !Acceptable(again, later) then Err(Invalid)
              else if Normalized(cfg, again, later) == Normalized(cfg, req, now) then Ok(Recover(cfg, t2, later))
              else Err(Conflict)
  {
    CreateInv(cfg, t, req, now);
    var t1 := Create(cfg, t, req, now).value;
    HistoryIsAppendOnly(cfg, t1, calls, req.id);
    RecoveryEvolves(cfg, RunFrom(cfg, t1, calls), ObserveCall, later, req.id);
  }

  // A stored outcome is final: until retention drops the job, whoever sends that outcome again is
  // answered with nothing changed beyond recovery, and any other readable outcome is a conflict.
  lemma CompletionIsFinal(cfg: Config, t: Table, id: JobId, worker: WorkerId, attempt: nat, o: Outcome, now: Time,
                          calls: seq<(Call, Time)>, sender: WorkerId, claimed: nat, again: Outcome, later: Time)
    requires cfg.Valid() && TableInv(cfg, t) && Holds(t, id, worker, attempt, now) && !o.BadResult?
    requires var t1 := OrElse(Complete(cfg, t, id, worker, attempt, o, now), t);
             Kept(cfg, t1, calls, id) && !Dropped(cfg, RunFrom(cfg, t1, calls), id, later)
    ensures Complete(cfg, t, id, worker, attempt, o, now).Ok?
    ensures var t2 := RunFrom(cfg, OrElse(Complete(cfg, t, id, worker, attempt, o, now), t), calls);
            Complete(cfg, t2, id, sender, claimed, again, later) ==
              if again.BadResult? then Err(Invalid) else if again == o then Ok(Recover(cfg, t2, later)) else Err(Conflict)
  {
    CompletionIsFenced(cfg, t, id, worker, attempt, o, now);
    CompleteInv(cfg, t, id, worker, attempt, o, now);
    var t1 := OrElse(Complete(cfg, t, id, worker, attempt, o, now), t);
    assert Terminal(t1[id].job.status) && SameCompletion(t1[id].job, o);
    HistoryIsAppendOnly(cfg, t1, calls, id);
    var t2 := RunFrom(cfg, t1, calls);
    EndingSurvivesRecovery(cfg, t2, id, later);
    if !again.BadResult? { OutcomesDiffer(t2[id].job, o, again); }
  }

  lemma EndingSurvivesRecovery(cfg: Config, t: Table, id: JobId, now: Time)
    requires id in t && Terminal(t[id].job.status) && !Dropped(cfg, t, id, now)
    ensures id in Recover(cfg, t, now) && Recover(cfg, t, now)[id] == t[id]
  {
  }

  lemma OutcomesDiffer(job: Job, o: Outcome, other: Outcome)
    requires SameCompletion(job, o) && !o.BadResult? && !other.BadResult?
    ensures SameCompletion(job, other) <==> other == o
  {
  }

  // The least timeout the clock imposes on work of the automatic batch; none from 05:00 on.
  function Floor(cfg: Config, now: Time): int {
    if TimeOfDay(cfg, now) >= 5 * HOUR then 0 else (5 * HOUR - TimeOfDay(cfg, now)) / SECOND + 1
  }

  // The clock makes the same of the timeout at both instants.
  predicate RaisedAlike(cfg: Config, req: Request, now: Time, later: Time) {
    || !AutomaticWake(req.kind)
    || Floor(cfg, now) == Floor(cfg, later)
    || (Floor(cfg, now) <= req.timeout && Floor(cfg, later) <= req.timeout)
  }

  // Two sendings of one payload are one request exactly when the clock raises both timeouts alike.
  lemma SamePayload(cfg: Config, req: Request, now: Time, later: Time)
    requires Acceptable(req, now)
    ensures Normalized(cfg, req, later) == Normalized(cfg, req, now) <==> RaisedAlike(cfg, req, now, later)
  {
    assert Normalized(cfg, req, now).timeout == EffectiveTimeout(cfg, req, now);
    assert Normalized(cfg, req, later).timeout == EffectiveTimeout(cfg, req, later);
  }

  // One payload sent again while its job is kept is answered by that job exactly when the raw
  // timeout has not elapsed, the creation instant is not too far ahead, and the clock raises both
  // timeouts alike.
  lemma ResentPayload(cfg: Config, t: Table, req: Request, now: Time, calls: seq<(Call, Time)>, later: Time)
    requires cfg.Valid() && TableInv(cfg, t) && Create(cfg, t, req, now).Ok?
    requires var t1 := Create(cfg, t, req, now).value;
             Kept(cfg, t1, calls, req.id) && !Dropped(cfg, RunFrom(cfg, t1, calls), req.id, later)
    ensures var t2 := RunFrom(cfg, Create(cfg, t, req, now).value, calls);
            (Create(cfg, t2, req, later) == Ok(Recover(cfg, t2, later))) <==>
              (Acceptable(req, later) && RaisedAlike(cfg, req, now, later))
  {
    CreateIsIdempotent(cfg, t, req, now, calls, req, later);
    SamePayload(cfg, req, now, later);
  }

  // Whatever its parameters, one payload sent at 06:00 and again at 06:11 with a timeout of ten minutes, is refused the
  // second time although its job is still there and both normalized requests are equal.
  lemma ResentAfterTimeoutIsRefused(parameters: string)
    ensures exists cfg: Config, req: Request, now: Time, later: Time ::
              && req.parameters == parameters && cfg.Valid() && Create(cfg, map[], req, now).Ok? && RaisedAlike(cfg, req, now, later)
              && req.id in Recover(cfg, Create(cfg, map[], req, now).value, later)
              && Create(cfg, Create(cfg, map[], req, now).value, req, later) == Err(Invalid)
  {
    var cfg := Config(60, 30, 30, 1000, 3, 30, 0);
    var now, later := 6 * HOUR, 6 * HOUR + 11 * MINUTE;
    var req := Request(1, BackupInfra, now, parameters, 600);
    assert Active(Recover(cfg, map[], now)) == {};
    var t := Create(cfg, map[], req, now).value;
    assert Recover(cfg, map[], now) == map[];
    assert t == map[1 := NewRow(cfg, req, now)];
    assert Floor(cfg, now) == 0 == Floor(cfg, later);
    assert RecoverRow(cfg, t[1], later).job.finishedAt == Some(later);
    assert 1 in Recover(cfg, t, later);
    assert req.parameters == parameters && cfg.Valid() && Create(cfg, map[], req, now).Ok? && RaisedAlike(cfg, req, now, later)
           && req.id in Recover(cfg, t, later) && Create(cfg, t, req, later) == Err(Invalid);
  }

  // Whatever its parameters, one payload sent at 00:00 and again at 00:01 is refused the second time.
  lemma ResentBeforeFiveConflicts(parameters: string)
    ensures exists cfg: Config, req: Request, now: Time, later: Time ::
              req.parameters == parameters && cfg.Valid() && Create(cfg, map[], req, now).Ok? && Acceptable(req, later) &&
              Create(cfg, Create(cfg, map[], req, now).value, req, later) == Err(Conflict)
  {
    var cfg := Config(60, 30, 30, 1000, 3, 30, 0);
    var req := Request(1, BackupInfra, 0, parameters, 600);
    assert Active(Recover(cfg, map[], 0)) == {};
    var t := Create(cfg, map[], req, 0).value;
    assert Recover(cfg, map[], 0) == map[];
    assert t == map[1 := NewRow(cfg, req, 0)];
    assert EffectiveTimeout(cfg, req, 0) == 18_001 && EffectiveTimeout(cfg, req, MINUTE) == 17_941;
    assert 1 in Recover(cfg, t, MINUTE);
    assert Create(cfg, map[], req, 0).Ok? && Create(cfg, t, req, MINUTE) == Err(Conflict);
    assert req.parameters == parameters && cfg.Valid() && Create(cfg, map[], req, 0).Ok? && Acceptable(req, MINUTE)
           && Create(cfg, Create(cfg, map[], req, 0).value, req, MINUTE) == Err(Conflict);
  }

  // ------------------------------------------------------ processed endings

  // Some call marked this job processed while it stood in the ending it still stands in.
  ghost predicate MarkedSinceEnd(cfg: Config, calls: seq<(Call, Time)>, id: JobId) {
    exists k :: 0 <= k < |calls| && calls[k].0 == MarkProcessedCall(id) && EndedThroughout(cfg, calls, id, k)
  }

  ghost predicate EndedThroughout(cfg: Config, calls: seq<(Call, Time)>, id: JobId, k: nat)
    requires k <= |calls|
  {
    forall m :: k <= m <= |calls| ==> EndedAs(cfg, calls, id, m)
  }

  ghost predicate EndedAs(cfg: Config, calls: seq<(Call, Time)>, id: JobId, m: nat)
    requires m <= |calls|
  {
    && id in Run(cfg, calls) && id in Run(cfg, calls[..m])
    && Terminal(Run(cfg, calls[..m])[id].job.status)
    && Run(cfg, calls[..m])[id].trail == Run(cfg, calls)[id].trail
  }

  ghost predicate ProcessedEnding(t: Table, id: JobId) {
    id in t && Terminal(t[id].job.status) && Followed(t[id].job.kind) && t[id].job.processed
  }

  // Recovery never produces a processed ending of followed work: it can only find one.
  lemma RecoveredEnding(cfg: Config, t: Table, now: Time, id: JobId)
    requires ProcessedEnding(Recover(cfg, t, now), id)
    ensures ProcessedEnding(t, id) && t[id] == Recover(cfg, t, now)[id]
  {
  }

  // Nor does any call on the recovered table.
  lemma CalledEnding(cfg: Config, t: Table, call: Call, now: Time, id: JobId)
    requires !call.MarkProcessedCall? && ProcessedEnding(Apply(cfg, t, call, now), id)
    ensures ProcessedEnding(t, id) && t[id] == Apply(cfg, t, call, now)[id]
  {
    var r := Recover(cfg, t, now);
    var after := Apply(cfg, t, call, now);
    if after != t {
      assert ProcessedEnding(r, id) && r[id] == after[id] by {
        match call
        case CreateCall(req) =>
        case ReadCall(_) =>
        case ObserveCall =>
        case CancelCall(_) =>
        case ClaimCall(worker, kinds) => OldestIsCandidate(r, kinds);
        case HeartbeatCall(_, _, _, _) =>
        case CompleteCall(_, _, _, _) =>
        case AuthorizeCall(_, _, _, _) =>
      }
      RecoveredEnding(cfg, t, now, id);
    }
  }

  // What the last step of a run can do to a processed ending of followed work.
  lemma ProcessedStep(cfg: Config, t: Table, call: Call, now: Time, id: JobId)
    requires ProcessedEnding(Apply(cfg, t, call, now), id)
    ensures id in t && Terminal(t[id].job.status) && Followed(t[id].job.kind)
    ensures t[id].trail == Apply(cfg, t, call, now)[id].trail
    ensures t[id].job.processed || call == MarkProcessedCall(id)
  {
    if !call.MarkProcessedCall? { CalledEnding(cfg, t, call, now, id); }
  }

  lemma EndedExtends(cfg: Config, calls: seq<(Call, Time)>, id: JobId, k: nat)
    requires calls != [] && k < |calls|
    requires EndedThroughout(cfg, calls[..|calls| - 1], id, k)
    requires id in Run(cfg, calls) && Terminal(Run(cfg, calls)[id].job.status)
    requires Run(cfg, calls[..|calls| - 1])[id].trail == Run(cfg, calls)[id].trail
    ensures EndedThroughout(cfg, calls, id, k)
  {
    var shorter := calls[..|calls| - 1];
    forall m | k <= m <= |calls| ensures EndedAs(cfg, calls, id, m) {
      if m < |calls| {
        assert EndedAs(cfg, shorter, id, m);
        assert shorter[..m] == calls[..m];
      } else {
        assert calls[..m] == calls;
      }
    }
  }

  lemma MarkedExtends(cfg: Config, calls: seq<(Call, Time)>, id: JobId, k: nat)
    requires calls != [] && k < |calls| && calls[k].0 == MarkProcessedCall(id)
    requires EndedThroughout(cfg, calls[..|calls| - 1], id, k)
    requires id in Run(cfg, calls) && Terminal(Run(cfg, calls)[id].job.status)
    requires Run(cfg, calls[..|calls| - 1])[id].trail == Run(cfg, calls)[id].trail
    ensures MarkedSinceEnd(cfg, calls, id)
  {
    EndedExtends(cfg, calls, id, k);
    assert calls[k].0 == MarkProcessedCall(id);
  }

  // It was marked by an earlier call, and has stood in that ending since.
  lemma MarkStands(cfg: Config, calls: seq<(Call, Time)>, id: JobId)
    requires calls != [] && MarkedSinceEnd(cfg, calls[..|calls| - 1], id)
    requires id in Run(cfg, calls) && Terminal(Run(cfg, calls)[id].job.status)
    requires id in Run(cfg, calls[..|calls| - 1])
    requires Run(cfg, calls[..|calls| - 1])[id].trail == Run(cfg, calls)[id].trail
    ensures MarkedSinceEnd(cfg, calls, id)
  {
    var shorter := calls[..|calls| - 1];
    var k :| 0 <= k < |shorter| && shorter[k].0 == MarkProcessedCall(id) && EndedThroughout(cfg, shorter, id, k);
    assert shorter[k] == calls[k];
    MarkedExtends(cfg, calls, id, k);
  }

  lemma EndedNow(cfg: Config, calls: seq<(Call, Time)>, id: JobId)
    requires id in Run(cfg, calls) && Terminal(Run(cfg, calls)[id].job.status)
    ensures EndedThroughout(cfg, calls, id, |calls|)
  {
    assert calls[..|calls|] == calls;
    assert EndedAs(cfg, calls, id, |calls|);
  }

  // A followed job that counts as processed was marked so after it ended, and not before.
  lemma {:induction false} ProcessedWasMarked(cfg: Config, calls: seq<(Call, Time)>, id: JobId)
    requires cfg.Valid() && ProcessedEnding(Run(cfg, calls), id)
    ensures MarkedSinceEnd(cfg, calls, id)
  {
    var shorter, last := calls[..|calls| - 1], calls[|calls| - 1];
    ProcessedStep(cfg, Run(cfg, shorter), last.0, last.1, id);
    if Run(cfg, shorter)[id].job.processed {
      ProcessedWasMarked(cfg, shorter, id);
      MarkStands(cfg, calls, id);
    } else {
      EndedNow(cfg, shorter, id);
      MarkedExtends(cfg, calls, id, |shorter|);
    }
  }

  // ------------------------------------------------------- recovery passes

  // A lease that ran out while the job is already old enough to wait: one pass re-queues it and
  // only the next one marks it waiting.
  predicate Requeued(cfg: Config, job: Job, now: Time) {
    && job.status.Running? && now < Deadline(job) && job.lease.Some? && job.lease.value <= now
    && job.attempt < cfg.maxAttempts && job.createdAt + cfg.waitingAfter * SECOND <= now
  }

  lemma RecoverRowPasses(cfg: Config, row: Row, now: Time)
    requires cfg.Valid() && RowInv(cfg, row)
    ensures var one := RecoverRow(cfg, row, now);
            var two := RecoverRow(cfg, one, now);
            && RecoverRow(cfg, two, now) == two
            && (two == one <==> !Requeued(cfg, row.job, now))
            && (Purgeable(cfg, one, now) <==> Purgeable(cfg, two, now))
            && (Requeued(cfg, row.job, now) ==> !Purgeable(cfg, one, now))
  {
    RecoverRowInv(cfg, row, now);
    var one := RecoverRow(cfg, row, now);
    RecoverRowInv(cfg, one, now);
    if Requeued(cfg, row.job, now) {
      assert one.job.status.Queued?;
      assert RecoverRow(cfg, one, now).job.status.WaitingWorker?;
    }
  }

  // The fate of one row over three passes.
  lemma RowPasses(cfg: Config, t: Table, id: JobId, now: Time)
    requires cfg.Valid() && TableInv(cfg, t) && id in t
    ensures var one := Recover(cfg, t, now);
            var two := Recover(cfg, one, now);
            var three := Recover(cfg, two, now);
            && (id in one <==> id in two) && (id in two <==> id in three)
            && (id in two ==> three[id] == two[id])
            && (Requeued(cfg, t[id].job, now) ==> id in one && two[id] != one[id])
            && (id in one && !Requeued(cfg, t[id].job, now) ==> two[id] == one[id])
  {
    assert RowInv(cfg, t[id]);
    RecoverRowPasses(cfg, t[id], now);
  }

  // Two passes at one instant always reach the fixpoint of recovery; one pass does unless it
  // re-queues a job that is already due to wait.
  lemma RecoveryPasses(cfg: Config, t: Table, now: Time)
    requires cfg.Valid() && TableInv(cfg, t)
    ensures var one := Recover(cfg, t, now);
            var two := Recover(cfg, one, now);
            && Recover(cfg, two, now) == two
            && (two == one <==> forall id :: id in t ==> !Requeued(cfg, t[id].job, now))
  {
    var one := Recover(cfg, t, now);
    var two := Recover(cfg, one, now);
    var three := Recover(cfg, two, now);
    forall id | id in t
      ensures (id in one <==> id in two) && (id in two <==> id in three)
      ensures id in two ==> three[id] == two[id]
      ensures Requeued(cfg, t[id].job, now) ==> id in one && two[id] != one[id]
      ensures id in one && !Requeued(cfg, t[id].job, now) ==> two[id] == one[id]
    {
      RowPasses(cfg, t, id, now);
    }
    RecoveryKeepsIds(cfg, t, now);
    RecoveryKeepsIds(cfg, one, now);
    RecoveryKeepsIds(cfg, two, now);
    SameTables(t.Keys, three, two);
    if forall id :: id in t ==> !Requeued(cfg, t[id].job, now) { SameTables(t.Keys, two, one); }
  }

  lemma RecoveryKeepsIds(cfg: Config, t: Table, now: Time)
    ensures Recover(cfg, t, now).Keys <= t.Keys
  {
  }

  lemma SameTables(ids: set<JobId>, a: Table, b: Table)
    requires a.Keys <= ids && b.Keys <= ids
    requires forall id :: id in ids ==> (id in a <==> id in b) && (id in a && id in b ==> a[id] == b[id])
    ensures a == b
  {
  }

  // ------------------------------------------------------------ dispatch order

  lemma {:induction false} OldestExists(t: Table, ids: set<JobId>) returns (first: JobId)
    requires ids != {} && ids <= t.Keys
    ensures first in ids && forall id :: id in ids ==> Before(t, first, id)
    decreases ids
  {
    first :| first in ids;
    if ids != {first} {
      var rest := OldestExists(t, ids - {first});
      if !Before(t, first, rest) { first := rest; }
      forall id | id in ids ensures Before(t, first, id) {
        if id in ids - {first} { assert Before(t, first, id); }
      }
    }
  }

  // A claim leases the one oldest waiting job of its types whenever there is one.
  lemma ClaimServesTheOldest(t: Table, kinds: set<JobType>)
    ensures Oldest(t, kinds).Some? <==> exists id :: Candidate(t, kinds, id)
    ensures forall a, b :: IsOldest(t, kinds, a) && IsOldest(t, kinds, b) ==> a == b
  {
    OldestIsCandidate(t, kinds);
    if id :| Candidate(t, kinds, id) {
      var ids := set other | other in t && Candidate(t, kinds, other);
      assert id in ids;
      var first := OldestExists(t, ids);
      assert IsOldest(t, kinds, first);
    }
  }
}
