/** Grouped work waits for the planned wake: a create request is given the time to reach it. */
module PlannedWake {
  import opened Common
  import opened Jobs
  import JobInvariants
  import JobTheorems

  // Work of the batch that may also be asked for in the daytime and then waits for the next wake.
  predicate DeferredToBatch(kind: JobType) { kind.LogsHealthCheck? || kind.LogsInvestigate? || kind.AiInference? }

  datatype Policy = Policy(enabled: bool, startHour: nat, endHour: nat, wakeTimeout: nat, utcOffset: int)
  {
    // The bounds the service constructor enforces.
    predicate Valid() { startHour < endHour <= 24 }
  }

  // A create payload before validation: a field that is missing or unreadable is None.
  datatype Payload = Payload(kind: JobType, createdAt: Option<Time>, timeout: Option<int>)

  function LocalDay(policy: Policy, t: Time): int { (t + policy.utcOffset) / DAY }

  function LocalHour(policy: Policy, t: Time): int { (t + policy.utcOffset) % DAY / HOUR }

  predicate InWindow(policy: Policy, t: Time) { policy.startHour <= LocalHour(policy, t) < policy.endHour }

  // Whole seconds covering a duration.
  function CeilSeconds(d: Time): int { -(-d / SECOND) }

  // The wake of the batch this instant belongs to.
  function PlannedWake(policy: Policy, t: Time): Time {
    var today := LocalDay(policy, t);
    var day := if InWindow(policy, t) || LocalHour(policy, t) < policy.startHour then today else today + 1;
    day * DAY + policy.endHour * HOUR - policy.utcOffset
  }

  function Extend(policy: Policy, p: Payload): Payload {
    if !policy.enabled || policy.endHour >= 24 || !AutomaticWake(p.kind) then p
    else if p.createdAt.None? || p.timeout.None? then p
    else if !InWindow(policy, p.createdAt.value) && !DeferredToBatch(p.kind) then p
    else
      var seconds := CeilSeconds(PlannedWake(policy, p.createdAt.value) - p.createdAt.value);
      if seconds <= 0 then p else p.(timeout := Some(p.timeout.value + seconds + policy.wakeTimeout))
  }

  // The bounds of the timeout in the create contract.
  predicate Admits(timeout: int) { 1 <= timeout <= 86_400 }

  // ---------------------------------------------------------------- boundary

  // A wake boundary: the end hour, to the microsecond, of some local day.
  predicate IsBoundary(policy: Policy, t: Time) { (t + policy.utcOffset) % DAY == policy.endHour * HOUR }

  // The planned wake is the first boundary strictly after the instant, at most one day away.
  lemma WakeIsNextBoundary(policy: Policy, t: Time, other: Time)
    requires policy.Valid() && policy.endHour < 24
    ensures var wake := PlannedWake(policy, t); IsBoundary(policy, wake) && t < wake <= t + DAY
    ensures t < other && IsBoundary(policy, other) ==> PlannedWake(policy, t) <= other
  {
    var local, wake := t + policy.utcOffset, PlannedWake(policy, t);
    var today := local / DAY;
    assert local == today * DAY + local % DAY;
    var day := if wake + policy.utcOffset == today * DAY + policy.endHour * HOUR then today else today + 1;
    OnDay(day, policy.endHour * HOUR);
    if t < other < wake && IsBoundary(policy, other) { BoundariesApart(policy, other, wake); }
  }

  lemma BoundariesApart(policy: Policy, a: Time, b: Time)
    requires IsBoundary(policy, a) && IsBoundary(policy, b) && a < b
    ensures a + DAY <= b
  {
    var m, n := (a + policy.utcOffset) / DAY, (b + policy.utcOffset) / DAY;
    assert a + policy.utcOffset == m * DAY + policy.endHour * HOUR;
    assert b + policy.utcOffset == n * DAY + policy.endHour * HOUR;
    DaysApart(n, m);
    DaysApart(m + 1, n);
  }

  lemma OnDay(day: int, time: Time)
    requires 0 <= time < DAY
    ensures (day * DAY + time) % DAY == time && (day * DAY + time) / DAY == day
  {
  }

  lemma DaysApart(a: int, b: int)
    ensures a <= b ==> a * DAY <= b * DAY
  {
  }

  lemma CeilCovers(d: Time)
    ensures (CeilSeconds(d) - 1) * SECOND < d <= CeilSeconds(d) * SECOND
  {
  }

  // --------------------------------------------------------------- extension

  // The work that is made to wait: enabled, readable, and of a kind that waits at that hour.
  predicate Waits(policy: Policy, p: Payload) {
    && policy.enabled && policy.endHour < 24 && p.createdAt.Some? && p.timeout.Some?
    && AutomaticWake(p.kind) && (InWindow(policy, p.createdAt.value) || DeferredToBatch(p.kind))
  }

  // Which work waits, by the clock on the wall: the four automatic kinds from the start hour to the end
  // hour, and all of them but backups at any other time.
  lemma WhichWorkWaits(policy: Policy, kind: JobType, createdAt: Time, timeout: int)
    requires policy.Valid()
    ensures var clock := (createdAt + policy.utcOffset) % DAY;
            Waits(policy, Payload(kind, Some(createdAt), Some(timeout))) <==>
              && policy.enabled && policy.endHour < 24
              && (kind in {LogsHealthCheck, LogsInvestigate, AiInference}
                  || (kind == BackupInfra && policy.startHour * HOUR <= clock < policy.endHour * HOUR))
  {
    HourOfClock((createdAt + policy.utcOffset) % DAY, policy.startHour);
    HourOfClock((createdAt + policy.utcOffset) % DAY, policy.endHour);
  }

  lemma HourOfClock(clock: Time, hour: nat)
    ensures clock / HOUR < hour <==> clock < hour * HOUR
  {
  }

  // Waiting work, and no other, is extended; its deadline leaves its whole timeout and the wake
  // timeout after the boundary, and less than one second more.
  lemma ExtensionReachesPastTheWake(policy: Policy, p: Payload)
    requires policy.Valid()
    ensures Extend(policy, p) != p <==> Waits(policy, p)
    ensures Waits(policy, p) ==>
              var deadline := p.createdAt.value + Extend(policy, p).timeout.value * SECOND;
              var least := PlannedWake(policy, p.createdAt.value) + (p.timeout.value + policy.wakeTimeout) * SECOND;
              Extend(policy, p).timeout.Some? && least <= deadline < least + SECOND
  {
    if Waits(policy, p) {
      var wait := PlannedWake(policy, p.createdAt.value) - p.createdAt.value;
      WakeIsNextBoundary(policy, p.createdAt.value, 0);
      CeilCovers(wait);
    }
  }

  // The contract admits extended work exactly when the wait it is given fits the cap.
  lemma AdmittedWhenTheWaitFits(policy: Policy, p: Payload)
    requires policy.Valid() && Waits(policy, p) && Admits(p.timeout.value)
    ensures var wake := PlannedWake(policy, p.createdAt.value);
            Admits(Extend(policy, p).timeout.value) <==>
              wake - p.createdAt.value <= (86_400 - p.timeout.value - policy.wakeTimeout) * SECOND
  {
    WakeIsNextBoundary(policy, p.createdAt.value, 0);
    CeilCovers(PlannedWake(policy, p.createdAt.value) - p.createdAt.value);
  }

  lemma WakeIsDayAfter(policy: Policy, t: Time, last: Time)
    requires policy.Valid() && policy.endHour < 24 && IsBoundary(policy, last) && last <= t < last + DAY
    ensures PlannedWake(policy, t) == last + DAY
  {
    NextDayIsBoundary(policy, last);
    WakeIsNextBoundary(policy, t, last + DAY);
    BoundariesApart(policy, last, PlannedWake(policy, t));
  }

  lemma NextDayIsBoundary(policy: Policy, last: Time)
    requires policy.endHour < 24 && IsBoundary(policy, last)
    ensures IsBoundary(policy, last + DAY)
  {
    var day := (last + policy.utcOffset) / DAY;
    assert last + DAY + policy.utcOffset == (day + 1) * DAY + policy.endHour * HOUR;
    OnDay(day + 1, policy.endHour * HOUR);
  }

  // Said by the clock on the wall: work is admitted exactly when the last boundary is already at
  // least its timeout and the wake timeout away.
  lemma RefusedSoonAfterTheBoundary(policy: Policy, p: Payload, last: Time)
    requires policy.Valid() && Waits(policy, p) && Admits(p.timeout.value)
    requires IsBoundary(policy, last) && last <= p.createdAt.value < last + DAY
    ensures Admits(Extend(policy, p).timeout.value) <==>
              (p.timeout.value + policy.wakeTimeout) * SECOND <= p.createdAt.value - last
  {
    WakeIsDayAfter(policy, p.createdAt.value, last);
    AdmittedWhenTheWaitFits(policy, p);
  }

  // With the default hours, an inference asked at 05:00 sharp is refused whatever its timeout.
  lemma RefusedAtTheBoundary(timeout: int)
    requires Admits(timeout)
    ensures var policy := Policy(true, 0, 5, 180, 0);
            var p := Payload(AiInference, Some(5 * HOUR), Some(timeout));
            Waits(policy, p) && !Admits(Extend(policy, p).timeout.value)
  {
    RefusedSoonAfterTheBoundary(Policy(true, 0, 5, 180, 0), Payload(AiInference, Some(5 * HOUR), Some(timeout)), 5 * HOUR);
  }

  // ----------------------------------------------------------------- lifetime

  // The work an accepted extension creates does not time out before the planned wake has passed
  // by its own timeout and the wake timeout, whatever calls follow.
  lemma ExtendedWorkOutlivesTheWake(policy: Policy, p: Payload, cfg: Config, t: Table, req: Request, now: Time,
                                    calls: seq<(Call, Time)>)
    requires policy.Valid() && Waits(policy, p) && cfg.Valid() && JobInvariants.TableInv(cfg, t)
    requires req.createdAt == p.createdAt.value && Some(req.timeout) == Extend(policy, p).timeout
    requires Create(cfg, t, req, now).Ok? && req.id !in Recover(cfg, t, now)
    requires JobTheorems.Kept(cfg, Create(cfg, t, req, now).value, calls, req.id)
    ensures var after := JobTheorems.RunFrom(cfg, Create(cfg, t, req, now).value, calls);
            && req.id in after
            && var job := after[req.id].job;
               job.status.TimedOut? ==>
                 job.finishedAt.Some? && PlannedWake(policy, p.createdAt.value)
                   + (p.timeout.value + policy.wakeTimeout) * SECOND <= job.finishedAt.value
  {
    ExtensionReachesPastTheWake(policy, p);
    JobInvariants.CreateInv(cfg, t, req, now);
    var created := Create(cfg, t, req, now).value;
    assert created[req.id] == NewRow(cfg, req, now);
    assert Deadline(created[req.id].job) >= req.createdAt + req.timeout * SECOND;
    JobTheorems.HistoryIsAppendOnly(cfg, created, calls, req.id);
    var after := JobTheorems.RunFrom(cfg, created, calls);
    assert JobInvariants.RowInv(cfg, after[req.id]);
  }
}
