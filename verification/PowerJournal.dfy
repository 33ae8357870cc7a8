/** The per-worker power journal: what may follow what, and what the counters drawn from it mean. */
module PowerJournal {
  import opened Common

  datatype Trigger = QueuedJobs | Retry | ManualTest | ManualCheck

  // How a worker's registration answers a wake; a manual start is not counted as an answer.
  datatype Answer = OnTime(afterSeconds: nat) | Late(afterSeconds: nat) | Manual

  datatype PowerEvent =
    | WakeSent(at: Time, trigger: Trigger, attempt: nat, timeoutSeconds: int)
    | WakeFailed(at: Time, trigger: Trigger)
    | WakeTimeout(at: Time, attempt: nat)
    | WakeAbandoned(at: Time, attempts: nat)
    | WorkerOnline(at: Time, answer: Answer)
    | ShutdownGranted(at: Time)
    | ShutdownStarted(at: Time)
    | ShutdownVetoed(at: Time)

  type Journal = seq<PowerEvent>

  // Only the newest events of a worker stay in the table.
  const RETENTION: nat := 200

  function Retained(h: Journal): Journal { LastN(h, RETENTION) }

  function Last(h: Journal): PowerEvent
    requires h != []
  {
    h[|h| - 1]
  }

  function Init(h: Journal): Journal
    requires h != []
  {
    h[..|h| - 1]
  }

  // ---------------------------------------------------------------- grammar

  predicate AwaitsAnswer(e: PowerEvent) { e.WakeSent? || e.WakeTimeout? || e.WakeAbandoned? }

  // What event e may directly follow.
  predicate MayFollow(before: PowerEvent, e: PowerEvent) {
    && (e.WakeTimeout? ==> before.WakeSent?)
    && (e.WakeAbandoned? ==> before.WakeTimeout?)
    && (e.WorkerOnline? ==> AwaitsAnswer(before) && (e.answer.OnTime? ==> before.WakeSent?))
  }

  predicate MayStart(e: PowerEvent) { !e.WakeTimeout? && !e.WakeAbandoned? && !e.WorkerOnline? }

  predicate InPlace(h: Journal, i: nat)
    requires 0 < i < |h|
  {
    MayFollow(h[i - 1], h[i])
  }

  // A stretch of a journal whose beginning may have been trimmed away.
  ghost predicate Stretch(h: Journal) { forall i :: 0 < i < |h| ==> InPlace(h, i) }

  // A complete journal.
  ghost predicate WellFormed(h: Journal) { Stretch(h) && (h != [] ==> MayStart(h[0])) }

  predicate MayAppend(h: Journal, e: PowerEvent) { if h == [] then MayStart(e) else MayFollow(Last(h), e) }

  lemma AppendWellFormed(h: Journal, e: PowerEvent)
    requires WellFormed(h) && MayAppend(h, e)
    ensures WellFormed(h + [e])
  {
    var longer := h + [e];
    forall i | 0 < i < |longer| ensures InPlace(longer, i) {
      if i < |h| { assert InPlace(h, i); }
    }
  }

  lemma SuffixIsStretch(h: Journal, k: nat)
    requires Stretch(h) && k <= |h|
    ensures Stretch(h[k..])
  {
    forall i | 0 < i < |h[k..]| ensures InPlace(h[k..], i) { assert InPlace(h, k + i); }
  }

  // -------------------------------------------------------------- statistics

  datatype Kind = Sent | SendFailed | RanOut | Abandoned | AnsweredOnTime | AnsweredLate | StartedManually | Other

  function KindOf(e: PowerEvent): Kind {
    match e
    case WakeSent(_, _, _, _) => Sent
    case WakeFailed(_, _) => SendFailed
    case WakeTimeout(_, _) => RanOut
    case WakeAbandoned(_, _) => Abandoned
    case WorkerOnline(_, OnTime(_)) => AnsweredOnTime
    case WorkerOnline(_, Late(_)) => AnsweredLate
    case WorkerOnline(_, Manual) => StartedManually
    case _ => Other
  }

  function Count(h: Journal, k: Kind): nat {
    if h == [] then 0 else Count(Init(h), k) + if KindOf(Last(h)) == k then 1 else 0
  }

  // Has a wake run out since the worker last connected?
  predicate TimedOutSinceAnswer(h: Journal) {
    h != [] && (Last(h).WakeTimeout? || (!Last(h).WorkerOnline? && TimedOutSinceAnswer(Init(h))))
  }

  // Late answers that settle a wake already counted as unanswered.
  function Redeemed(h: Journal): nat {
    if h == [] then 0
    else Redeemed(Init(h)) + if KindOf(Last(h)) == AnsweredLate && TimedOutSinceAnswer(Init(h)) then 1 else 0
  }

  function Unanswered(h: Journal): int { Count(h, RanOut) - Redeemed(h) }

  lemma InitAppend(h: Journal, e: PowerEvent)
    ensures Init(h + [e]) == h && Last(h + [e]) == e
  {
  }

  lemma {:induction false} CountWhere(h: Journal, k: Kind, where: set<nat>)
    requires forall i: nat :: i in where <==> i < |h| && KindOf(h[i]) == k
    ensures Count(h, k) == |where|
  {
    if h == [] {
      assert where == {};
    } else {
      var n := |h| - 1;
      CountWhere(Init(h), k, where - {n});
      assert where == where - {n} + if KindOf(h[n]) == k then {n} else {};
    }
  }

  // What each counter counts.
  lemma CountersCount(h: Journal)
    ensures Count(h, Sent) == |set i: nat | i < |h| && h[i].WakeSent?|
    ensures Count(h, SendFailed) == |set i: nat | i < |h| && h[i].WakeFailed?|
    ensures Count(h, RanOut) == |set i: nat | i < |h| && h[i].WakeTimeout?|
    ensures Count(h, Abandoned) == |set i: nat | i < |h| && h[i].WakeAbandoned?|
    ensures Count(h, AnsweredOnTime) == |set i: nat | i < |h| && h[i].WorkerOnline? && h[i].answer.OnTime?|
    ensures Count(h, AnsweredLate) == |set i: nat | i < |h| && h[i].WorkerOnline? && h[i].answer.Late?|
  {
    CountWhere(h, Sent, set i: nat | i < |h| && h[i].WakeSent?);
    CountWhere(h, SendFailed, set i: nat | i < |h| && h[i].WakeFailed?);
    CountWhere(h, RanOut, set i: nat | i < |h| && h[i].WakeTimeout?);
    CountWhere(h, Abandoned, set i: nat | i < |h| && h[i].WakeAbandoned?);
    CountWhere(h, AnsweredOnTime, set i: nat | i < |h| && h[i].WorkerOnline? && h[i].answer.OnTime?);
    CountWhere(h, AnsweredLate, set i: nat | i < |h| && h[i].WorkerOnline? && h[i].answer.Late?);
  }

  datatype WakeStats = WakeStats(attempts: nat, sendFailures: nat, unanswered: int, abandoned: nat,
                                 onTime: nat, late: nat, since: Option<Time>)

  // The counters shown to the operator, drawn from the retained events in one pass.
  method ComputeWakeStats(h: Journal) returns (stats: WakeStats)
    ensures stats.attempts == Count(h, Sent)
    ensures stats.sendFailures == Count(h, SendFailed)
    ensures stats.unanswered == Unanswered(h)
    ensures stats.abandoned == Count(h, Abandoned)
    ensures stats.onTime == Count(h, AnsweredOnTime)
    ensures stats.late == Count(h, AnsweredLate)
    ensures stats.since == if h == [] then None else Some(h[0].at)
  {
    stats := WakeStats(0, 0, 0, 0, 0, 0, None);
    var timedOutSinceAnswer := false;
    for i := 0 to |h|
      invariant stats == WakeStats(Count(h[..i], Sent), Count(h[..i], SendFailed), Unanswered(h[..i]),
                                   Count(h[..i], Abandoned), Count(h[..i], AnsweredOnTime),
                                   Count(h[..i], AnsweredLate), if i == 0 then None else Some(h[0].at))
      invariant timedOutSinceAnswer == TimedOutSinceAnswer(h[..i])
    {
      assert h[..i + 1] == h[..i] + [h[i]];
      InitAppend(h[..i], h[i]);
      if stats.since.None? { stats := stats.(since := Some(h[i].at)); }
      match h[i]
      case WakeSent(_, _, _, _) => stats := stats.(attempts := stats.attempts + 1);
      case WakeFailed(_, _) => stats := stats.(sendFailures := stats.sendFailures + 1);
      case WakeTimeout(_, _) =>
        stats := stats.(unanswered := stats.unanswered + 1);
        timedOutSinceAnswer := true;
      case WakeAbandoned(_, _) => stats := stats.(abandoned := stats.abandoned + 1);
      case WorkerOnline(_, answer) =>
        var answeredAfterTimeout := timedOutSinceAnswer;
        timedOutSinceAnswer := false;
        if answer.Late? {
          stats := stats.(late := stats.late + 1);
          if answeredAfterTimeout { stats := stats.(unanswered := stats.unanswered - 1); }
        } else if answer.OnTime? {
          stats := stats.(onTime := stats.onTime + 1);
        }
      case _ =>
    }
    assert h[..|h|] == h;
  }

  // The first retained event answers, or settles, a wake that was trimmed away.
  predicate Orphaned(h: Journal) { h != [] && !MayStart(h[0]) && KindOf(h[0]) != StartedManually }

  lemma {:induction false} UnansweredIsNatural(h: Journal)
    ensures Unanswered(h) >= if TimedOutSinceAnswer(h) then 1 else 0
  {
    if h != [] { UnansweredIsNatural(Init(h)); }
  }

  // Sent wakes not yet accounted for by an answer or a timeout.
  ghost function Slack(h: Journal): int {
    Count(h, Sent) + (if Orphaned(h) then 1 else 0)
    - Count(h, AnsweredOnTime) - Count(h, AnsweredLate) - Unanswered(h)
  }

  // An event that leaves a wake to account for: a wake, or an abandonment whose wake was trimmed.
  predicate Opens(h: Journal, i: nat)
    requires i < |h|
  {
    h[i].WakeSent? || (i == 0 && h[0].WakeAbandoned?)
  }

  // An event that accounts for the wake left just before it: its timeout, its answer in time, or a
  // late answer that no timeout since the last connection has announced.
  predicate Closes(before: Journal, e: PowerEvent) {
    e.WakeTimeout? || KindOf(e) == AnsweredOnTime || (KindOf(e) == AnsweredLate && !TimedOutSinceAnswer(before))
  }

  predicate ClosedAt(h: Journal, i: nat)
    requires i < |h|
  {
    Opens(h, i) ==> i + 1 < |h| && Closes(h[..i + 1], h[i + 1])
  }

  // Every wake is directly accounted for.
  ghost predicate AllClosed(h: Journal) { forall i :: 0 <= i < |h| ==> ClosedAt(h, i) }

  // So is every wake but one the journal ends with.
  ghost predicate ClosedBefore(h: Journal) { forall i :: 0 <= i < |h| - 1 ==> ClosedAt(h, i) }

  function Pending(h: Journal): int { if h != [] && Opens(h, |h| - 1) then 1 else 0 }

  // What one event adds to the slack.
  lemma SlackStep(p: Journal, e: PowerEvent)
    requires p != []
    ensures Slack(p + [e]) == Slack(p) + if e.WakeSent? then 1 else if Closes(p, e) then -1 else 0
  {
    InitAppend(p, e);
    assert Orphaned(p + [e]) == Orphaned(p);
  }

  lemma SlackOfOne(e: PowerEvent)
    ensures Slack([e]) == Pending([e])
  {
    InitAppend([], e);
    assert [] + [e] == [e];
    assert forall k :: Count([e], k) == if KindOf(e) == k then 1 else 0;
    assert Redeemed([e]) == 0;
  }

  // Only the event that follows a wake can account for it.
  lemma ClosingFollowsOpening(p: Journal, e: PowerEvent)
    requires p != [] && Stretch(p + [e]) && Closes(p, e)
    ensures Opens(p, |p| - 1)
  {
    assert InPlace(p + [e], |p|);
    AbandonmentFollowsTimeout(p, e);
  }

  lemma AbandonmentFollowsTimeout(p: Journal, e: PowerEvent)
    requires Stretch(p + [e])
    ensures |p| > 1 && Last(p).WakeAbandoned? ==> TimedOutSinceAnswer(p)
  {
    if |p| > 1 && Last(p).WakeAbandoned? {
      assert InPlace(p + [e], |p| - 1);
      assert Last(Init(p)).WakeTimeout?;
    }
  }

  lemma ClosedBeforeStep(p: Journal, e: PowerEvent)
    requires p != []
    ensures ClosedBefore(p + [e]) <==> ClosedBefore(p) && (Opens(p, |p| - 1) ==> Closes(p, e))
  {
    var h := p + [e];
    assert h[..|p|] == p;
    forall i | 0 <= i < |p| - 1 ensures ClosedAt(h, i) <==> ClosedAt(p, i) {
      assert h[..i + 1] == p[..i + 1];
    }
    assert ClosedAt(h, |p| - 1) <==> (Opens(p, |p| - 1) ==> Closes(p, e));
  }

  // Beside the wake a journal may end with, its slack counts the wakes nothing accounted for.
  lemma {:induction false} SlackCountsLostWakes(h: Journal)
    requires Stretch(h) && h != []
    ensures Slack(h) >= Pending(h)
    ensures Slack(h) == Pending(h) <==> ClosedBefore(h)
  {
    if |h| == 1 {
      SlackOfOne(h[0]);
      assert h == [h[0]];
    } else {
      var p, e := h[..|h| - 1], h[|h| - 1];
      assert h == p + [e];
      forall i | 0 < i < |p| ensures InPlace(p, i) { assert InPlace(h, i); }
      SlackCountsLostWakes(p);
      SlackStep(p, e);
      ClosedBeforeStep(p, e);
      if Closes(p, e) { ClosingFollowsOpening(p, e); }
    }
  }

  lemma SlackIsNatural(h: Journal)
    requires Stretch(h)
    ensures Slack(h) >= 0
    ensures Slack(h) == 0 <==> AllClosed(h)
  {
    if h != [] {
      SlackCountsLostWakes(h);
      assert AllClosed(h) <==> ClosedBefore(h) && ClosedAt(h, |h| - 1);
    }
  }

  // On a complete journal every wake is accounted for at most once.
  lemma WakesAreAccountedFor(h: Journal)
    requires WellFormed(h)
    ensures Unanswered(h) >= 0
    ensures Count(h, AnsweredOnTime) + Count(h, AnsweredLate) + Unanswered(h) <= Count(h, Sent)
  {
    UnansweredIsNatural(h);
    SlackIsNatural(h);
  }

  // On the retained events the sum exceeds the attempts by one at most, and it does so exactly when
  // the oldest retained event belongs to a trimmed wake and every retained wake is directly
  // followed by what accounts for it.
  lemma RetainedWakesAreAccountedFor(h: Journal)
    requires WellFormed(h)
    ensures Unanswered(Retained(h)) >= 0
    ensures var r := Retained(h);
            var sum := Count(r, AnsweredOnTime) + Count(r, AnsweredLate) + Unanswered(r);
            && sum <= Count(r, Sent) + (if Orphaned(r) then 1 else 0)
            && (sum > Count(r, Sent) <==> Orphaned(r) && AllClosed(r))
  {
    var r := Retained(h);
    SuffixIsStretch(h, |h| - |r|);
    assert r == h[|h| - |r|..];
    UnansweredIsNatural(r);
    SlackIsNatural(r);
  }

  // So many failed sends, all at one instant.
  function Failures(n: nat, at: Time): (h: Journal)
    ensures |h| == n && forall i :: 0 <= i < n ==> h[i] == WakeFailed(at, ManualTest)
  {
    seq(n, i => WakeFailed(at, ManualTest))
  }

  lemma {:induction false} FailuresOnly(h: Journal, failures: Journal)
    requires forall e :: e in failures ==> e.WakeFailed?
    ensures Count(h + failures, Sent) == Count(h, Sent) && Unanswered(h + failures) == Unanswered(h)
  {
    if failures == [] {
      assert h + failures == h;
    } else {
      var n := |failures| - 1;
      var before, e := h + failures[..n], failures[n];
      FailuresOnly(h, failures[..n]);
      FailureCountsNothing(before, e);
      assert h + failures == before + [e];
    }
  }

  lemma FailureCountsNothing(h: Journal, e: PowerEvent)
    requires e.WakeFailed?
    ensures Count(h + [e], Sent) == Count(h, Sent) && Unanswered(h + [e]) == Unanswered(h)
  {
    InitAppend(h, e);
  }

  // After a wake, its timeout and 199 failed sends the wake is trimmed, its timeout is not, and the
  // operator reads one unanswered wake out of no attempt at all.
  lemma FailuresHideTheWake(sent: PowerEvent, timeout: PowerEvent, at: Time)
    requires sent.WakeSent? && timeout.WakeTimeout?
    ensures var r := Retained([sent, timeout] + Failures(199, at)); Unanswered(r) == 1 && Count(r, Sent) == 0
  {
    FailuresOnly([timeout], Failures(199, at));
    assert Retained([sent, timeout] + Failures(199, at)) == [timeout] + Failures(199, at);
    InitAppend([], timeout);
    assert [] + [timeout] == [timeout];
    assert forall k :: Count([timeout], k) == if KindOf(timeout) == k then 1 else 0;
    assert Redeemed([timeout]) == 0;
  }

  // ------------------------------------------------------------------ cycles

  // A cycle of wakes ends when the worker connects or the wakes are given up.
  predicate Closing(e: PowerEvent) { e.WorkerOnline? || e.WakeAbandoned? }

  function CycleLength(h: Journal): nat {
    if h == [] || Closing(Last(h)) then 0 else CycleLength(Init(h)) + 1
  }

  // The events of the current cycle.
  function Cycle(h: Journal): (c: Journal)
    ensures |c| == CycleLength(h) <= |h|
    ensures c == h[|h| - CycleLength(h)..]
  {
    if h == [] || Closing(Last(h)) then [] else Cycle(Init(h)) + [Last(h)]
  }

  // The cycle begins after the last connection or abandonment.
  lemma {:induction false} CycleBegins(h: Journal)
    ensures Cycle(h) <= h[|h| - |Cycle(h)|..]
    ensures forall e :: e in Cycle(h) ==> !e.WorkerOnline? && !e.WakeAbandoned?
    ensures |Cycle(h)| < |h| ==>
              var before := h[|h| - |Cycle(h)| - 1]; before.WorkerOnline? || before.WakeAbandoned?
  {
    if h != [] && !Closing(Last(h)) { CycleBegins(Init(h)); }
  }

  lemma CycleAppend(h: Journal, e: PowerEvent)
    ensures Cycle(h + [e]) == if Closing(e) then [] else Cycle(h) + [e]
    ensures Count(Cycle(h + [e]), RanOut) ==
              if Closing(e) then 0 else Count(Cycle(h), RanOut) + if e.WakeTimeout? then 1 else 0
  {
    InitAppend(h, e);
    InitAppend(Cycle(h), e);
  }

  // The timeouts of the current cycle, without forming the cycle.
  function CycleTimeouts(h: Journal): nat {
    if h == [] || Closing(Last(h)) then 0 else CycleTimeouts(Init(h)) + if Last(h).WakeTimeout? then 1 else 0
  }

  lemma {:induction false} CycleTimeoutsAreCounted(h: Journal)
    ensures CycleTimeouts(h) == Count(Cycle(h), RanOut)
  {
    if h != [] && !Closing(Last(h)) {
      CycleTimeoutsAreCounted(Init(h));
      InitAppend(Cycle(Init(h)), Last(h));
    }
  }

  // Timeouts of the current cycle, counted newest first until the cycle's beginning.
  method UnansweredWakes(h: Journal) returns (count: nat)
    ensures count == Count(Cycle(h), RanOut)
  {
    CycleTimeoutsAreCounted(h);
    count := 0;
    var i := |h|;
    assert h[..i] == h;
    while i > 0
      invariant 0 <= i <= |h|
      invariant count + CycleTimeouts(h[..i]) == CycleTimeouts(h)
    {
      assert Init(h[..i]) == h[..i - 1] && Last(h[..i]) == h[i - 1];
      if Closing(h[i - 1]) { return; }
      if h[i - 1].WakeTimeout? { count := count + 1; }
      i := i - 1;
    }
  }

  // As long as the whole cycle is retained, trimming does not change what is counted in it.
  lemma {:induction false} CycleSurvivesTrimming(h: Journal, k: nat)
    requires k <= |h| - CycleLength(h)
    ensures Cycle(h[k..]) == Cycle(h)
  {
    if h != [] && !Closing(Last(h)) {
      CycleSurvivesTrimming(Init(h), k);
      assert Init(h)[k..] == Init(h[k..]);
    } else if h != [] && k < |h| {
      assert Last(h[k..]) == Last(h);
    }
  }

  predicate IsRetry(e: PowerEvent) { e.WakeSent? && e.trigger.Retry? }

  function Retries(h: Journal): nat {
    if h == [] then 0 else Retries(Init(h)) + if IsRetry(Last(h)) then 1 else 0
  }

  // The state in which the agent decides to wake a silent worker again.
  predicate RetryDue(retained: Journal, maxAttempts: nat) {
    retained != [] && Last(retained).WakeTimeout? && CycleTimeouts(retained) < maxAttempts
  }

  // Each retry was due on the events retained when it was sent.
  ghost predicate RetriesWereDue(h: Journal, maxAttempts: nat) {
    forall i :: 0 <= i < |h| && IsRetry(h[i]) ==> RetryDue(Retained(h[..i]), maxAttempts)
  }

  lemma AppendKeepsRetriesDue(h: Journal, e: PowerEvent, maxAttempts: nat)
    requires RetriesWereDue(h, maxAttempts) && (IsRetry(e) ==> RetryDue(Retained(h), maxAttempts))
    ensures RetriesWereDue(h + [e], maxAttempts)
  {
    var longer := h + [e];
    forall i | 0 <= i < |longer| && IsRetry(longer[i]) ensures RetryDue(Retained(longer[..i]), maxAttempts) {
      assert longer[..i] == h[..i];
      if i == |h| { assert h[..i] == h; } else { assert IsRetry(h[i]); }
    }
  }

  // No event from j to k ends a cycle.
  ghost predicate NoneCloses(h: Journal, j: nat, k: nat) {
    j <= k <= |h| && forall m :: j <= m < k ==> !Closing(h[m])
  }

  lemma RetryFollowsTimeout(h: Journal, i: nat, maxAttempts: nat)
    requires RetriesWereDue(h, maxAttempts) && i < |h| && IsRetry(h[i])
    ensures i > 0 && h[i - 1].WakeTimeout?
  {
    var r := Retained(h[..i]);
    assert Last(r) == h[..i][i - 1];
  }

  // Counted from an event a that no retry's timeout precedes, each retry since j has its own timeout,
  // and a timeout at the end still waits for its retry.
  lemma {:induction false} TimeoutsCoverRetries(h: Journal, maxAttempts: nat, a: nat, j: nat, m: nat)
    requires RetriesWereDue(h, maxAttempts) && NoneCloses(h, j, m) && (a < j || a == j == 0)
    ensures CycleTimeouts(h[a..m]) >= Retries(h[j..m]) + if m > a && h[m - 1].WakeTimeout? then 1 else 0
    decreases m - j
  {
    if m > a { assert Init(h[a..m]) == h[a..m - 1] && Last(h[a..m]) == h[m - 1]; }
    if m > j {
      assert Init(h[j..m]) == h[j..m - 1] && Last(h[j..m]) == h[m - 1];
      TimeoutsCoverRetries(h, maxAttempts, a, j, m - 1);
      if IsRetry(h[m - 1]) { RetryFollowsTimeout(h, m - 1, maxAttempts); }
    }
  }

  // The last of several retries was due although the timeouts of all of them were counted.
  lemma {:induction false} RetriesInWindow(h: Journal, maxAttempts: nat, j: nat, k: nat)
    requires RetriesWereDue(h, maxAttempts) && NoneCloses(h, j, k) && k - j <= RETENTION && maxAttempts >= 1
    ensures Retries(h[j..k]) <= maxAttempts - 1
    decreases k - j
  {
    if j < k {
      var i := k - 1;
      assert Init(h[j..k]) == h[j..i] && Last(h[j..k]) == h[i];
      if IsRetry(h[i]) {
        RetryFollowsTimeout(h, i, maxAttempts);
        var a := i - |Retained(h[..i])|;
        assert Retained(h[..i]) == h[a..i];
        TimeoutsCoverRetries(h, maxAttempts, a, j, i);
      } else {
        RetriesInWindow(h, maxAttempts, j, i);
      }
    }
  }

  // ---------------------------------------------------------------- shutdown

  predicate Settles(e: PowerEvent) { e.ShutdownStarted? || e.ShutdownVetoed? }

  // A wake was sent, and the worker has not yet reported what it did with a shutdown since.
  ghost predicate OpenWake(h: Journal) {
    exists j :: 0 <= j < |h| && h[j].WakeSent? && forall m :: j < m < |h| ==> !Settles(h[m])
  }

  ghost predicate GrantsFollowWakes(h: Journal) {
    forall i :: 0 <= i < |h| && h[i].ShutdownGranted? ==> OpenWake(h[..i])
  }

  lemma AppendOpenWake(h: Journal, e: PowerEvent)
    ensures e.WakeSent? ==> OpenWake(h + [e])
    ensures OpenWake(h) && !Settles(e) ==> OpenWake(h + [e])
  {
    var longer := h + [e];
    if e.WakeSent? { assert longer[|h|].WakeSent?; }
    if OpenWake(h) && !Settles(e) {
      var j :| 0 <= j < |h| && h[j].WakeSent? && forall m :: j < m < |h| ==> !Settles(h[m]);
      assert longer[j].WakeSent?;
    }
  }

  lemma AppendGrantsFollowWakes(h: Journal, e: PowerEvent)
    requires GrantsFollowWakes(h) && (e.ShutdownGranted? ==> OpenWake(h))
    ensures GrantsFollowWakes(h + [e])
  {
    var longer := h + [e];
    forall i | 0 <= i < |longer| && longer[i].ShutdownGranted? ensures OpenWake(longer[..i]) {
      assert longer[..i] == h[..i];
      if i < |h| { assert h[i].ShutdownGranted?; } else { assert h[..i] == h; }
    }
  }
}
