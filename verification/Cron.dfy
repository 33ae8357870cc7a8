/** Cron triggers on one fixed UTC offset: local time is counted in whole minutes from 0001-01-01 00:00. */
module Cron {
  import opened Common
  import opened Calendar

  datatype Schedule = Schedule(minutes: set<int>, hours: set<int>, days: set<int>, months: set<int>, weekdays: set<int>) {
    // What parsing the five fields guarantees.
    predicate Valid() {
      && minutes != {} && hours != {} && days != {} && months != {} && weekdays != {}
      && (forall x :: x in minutes ==> 0 <= x <= 59)
      && (forall x :: x in hours ==> 0 <= x <= 23)
      && (forall x :: x in days ==> 1 <= x <= 31)
      && (forall x :: x in months ==> 1 <= x <= 12)
      && (forall x :: x in weekdays ==> 0 <= x <= 6)
    }

    // Days are numbered from 1.
    predicate MatchesDay(n: nat)
      requires n >= 1
    {
      DateOf(n).day in days && DateOf(n).month in months && Weekday(n) in weekdays
    }

    predicate Matches(minute: nat) {
      minute % 60 in minutes && minute / 60 % 24 in hours && MatchesDay(minute / 1440 + 1)
    }
  }

  const SEARCH: nat := 366 * 24 * 60

  // What a search beginning after minute `after` must answer.
  ghost predicate IsNextRun(s: Schedule, after: nat, answer: Option<nat>) {
    match answer
    case Some(m) => after < m <= after + SEARCH && s.Matches(m) && forall j :: after < j < m ==> !s.Matches(j)
    case None => forall j :: after < j <= after + SEARCH ==> !s.Matches(j)
  }

  // An instant of local time, in microseconds.
  type Instant = nat

  predicate Due(s: Schedule, last: Option<Instant>, now: Instant) {
    s.Matches(now / MINUTE) && !(last.Some? && last.value / MINUTE == now / MINUTE)
  }

  class Trigger {
    const schedule: Schedule
    var fireCount: nat
    var lastExecuted: Option<Instant>

    constructor (schedule: Schedule)
      requires schedule.Valid()
      ensures this.schedule == schedule && fireCount == 0 && lastExecuted == None
    {
      this.schedule := schedule;
      fireCount, lastExecuted := 0, None;
    }

    method NextRunAt(after: Instant) returns (answer: Option<nat>)
      ensures IsNextRun(schedule, after / MINUTE, answer)
    {
      var candidate: nat := after / MINUTE + 1;
      for i := 0 to SEARCH
        invariant candidate == after / MINUTE + 1 + i
        invariant forall j :: after / MINUTE < j < candidate ==> !schedule.Matches(j)
      {
        if schedule.Matches(candidate) { return Some(candidate); }
        candidate := candidate + 1;
      }
      return None;
    }

    method IsDue(now: Instant) returns (due: bool)
      ensures due == Due(schedule, lastExecuted, now)
    {
      var normalized := now / MINUTE;
      var alreadyExecuted := false;
      if lastExecuted.Some? { alreadyExecuted := lastExecuted.value / MINUTE == normalized; }
      return schedule.Matches(normalized) && !alreadyExecuted;
    }

    method MarkExecuted(at: Instant)
      modifies this
      ensures fireCount == old(fireCount) + 1 && lastExecuted == Some(at)
    {
      fireCount, lastExecuted := fireCount + 1, Some(at);
    }

    // One tick of the scheduler: run the task when it is due and mark it with the tick's instant.
    method Tick(now: Instant) returns (fired: bool)
      modifies this
      ensures fired == Due(schedule, old(lastExecuted), now)
      ensures lastExecuted == if fired then Some(now) else old(lastExecuted)
      ensures fireCount == old(fireCount) + if fired then 1 else 0
    {
      fired := IsDue(now);
      if fired { MarkExecuted(now); }
    }
  }

  // ------------------------------------------------------------ search bound

  // Some allowed day exists in every year.
  predicate HasCommonDate(s: Schedule) {
    exists month, day :: month in s.months && day in s.days && CommonDate(month, day)
  }

  predicate CommonDate(month: int, day: int) { 1 <= month <= 12 && 1 <= day <= DaysInMonth(2001, month) }

  ghost predicate AllWeekdays(s: Schedule) { forall x :: 0 <= x <= 6 ==> x in s.weekdays }

  ghost predicate AlwaysFinds(s: Schedule) { forall after: nat :: !IsNextRun(s, after, None) }

  lemma MinuteOf(day: nat, hour: nat, minute: nat)
    requires hour < 24 && minute < 60
    ensures var m := day * 1440 + hour * 60 + minute;
            m / 1440 == day && m % 60 == minute && m / 60 % 24 == hour
  {
    HourOf(day * 24 + hour, minute);
    DayOf(day, hour * 60 + minute);
  }

  lemma HourOf(hours: nat, minute: nat)
    requires minute < 60
    ensures (hours * 60 + minute) % 60 == minute && (hours * 60 + minute) / 60 == hours
  {
  }

  lemma DayOf(day: nat, rest: nat)
    requires rest < 1440
    ensures (day * 1440 + rest) / 1440 == day
  {
  }

  lemma InOrder(a: Instant, b: Instant)
    requires a <= b
    ensures a / MINUTE <= b / MINUTE
  {
  }

  // Some day of the 366 that begin with day n matches.
  predicate DayWithinYear(s: Schedule, n: nat)
    requires n >= 1
  {
    exists k: nat :: n <= k <= n + 365 && s.MatchesDay(k)
  }

  // The check to make of a schedule: every 366 consecutive days of one period of the calendar hold
  // a day that matches.
  predicate EveryYearHasADay(s: Schedule) { forall n: nat :: 1 <= n <= PERIOD ==> DayWithinYear(s, n) }

  // A search finds a run when a matching day comes soon enough.
  lemma DayIsFound(s: Schedule, after: nat)
    requires s.Valid() && forall n: nat :: n >= 1 ==> DayWithinYear(s, n)
    ensures exists m :: after < m <= after + SEARCH && s.Matches(m)
  {
    var hour := AnElement(s.hours);
    var minute := AnElement(s.minutes);
    var x := hour * 60 + minute;
    var first := if after % 1440 < x then after / 1440 else after / 1440 + 1;
    assert DayWithinYear(s, first + 1);
    var k: nat :| first + 1 <= k <= first + 1 + 365 && s.MatchesDay(k);
    var m := (k - 1) * 1440 + x;
    MinuteOf(k - 1, hour, minute);
    assert s.Matches(m);
  }

  // A search begun in the last minute before day n finds a run exactly when one of the 366 days
  // from n on matches.
  lemma SearchFromMidnight(s: Schedule, n: nat)
    requires s.Valid() && n >= 2
    ensures IsNextRun(s, (n - 1) * 1440 - 1, None) <==> !DayWithinYear(s, n)
  {
    var after := (n - 1) * 1440 - 1;
    if DayWithinYear(s, n) {
      var k: nat :| n <= k <= n + 365 && s.MatchesDay(k);
      var hour := AnElement(s.hours);
      var minute := AnElement(s.minutes);
      MinuteOf(k - 1, hour, minute);
      var m := (k - 1) * 1440 + hour * 60 + minute;
      assert s.Matches(m) && after < m <= after + SEARCH;
    } else {
      forall j | after < j <= after + SEARCH ensures !s.Matches(j) {
        DayInRange(n, j);
        assert !s.MatchesDay(j / 1440 + 1);
      }
    }
  }

  lemma DayInRange(n: nat, j: nat)
    requires n >= 1 && (n - 1) * 1440 <= j < (n - 1) * 1440 + SEARCH
    ensures n <= j / 1440 + 1 <= n + 365
  {
  }

  lemma YearsRepeat(s: Schedule, n: nat)
    requires n >= 1
    ensures DayWithinYear(s, n + PERIOD) <==> DayWithinYear(s, n)
  {
    if DayWithinYear(s, n) {
      var k: nat :| n <= k <= n + 365 && s.MatchesDay(k);
      CalendarRepeats(k);
      assert s.MatchesDay(k + PERIOD);
    }
    if DayWithinYear(s, n + PERIOD) {
      var k: nat :| n + PERIOD <= k <= n + PERIOD + 365 && s.MatchesDay(k);
      CalendarRepeats(k - PERIOD);
      assert s.MatchesDay(k - PERIOD);
    }
  }

  lemma {:induction false} OnePeriodDecides(s: Schedule, n: nat)
    requires n >= 1 && EveryYearHasADay(s)
    ensures DayWithinYear(s, n)
  {
    if n > PERIOD {
      OnePeriodDecides(s, n - PERIOD);
      YearsRepeat(s, n - PERIOD);
    }
  }

  // Every search finds a run exactly when every 366 consecutive days of one period of the calendar
  // hold a day that matches.
  lemma SearchAlwaysFinds(s: Schedule)
    requires s.Valid()
    ensures AlwaysFinds(s) <==> EveryYearHasADay(s)
  {
    if EveryYearHasADay(s) {
      forall n: nat | n >= 1 ensures DayWithinYear(s, n) { OnePeriodDecides(s, n); }
      forall after: nat ensures !IsNextRun(s, after, None) { DayIsFound(s, after); }
    }
    if AlwaysFinds(s) {
      forall n: nat | 1 <= n <= PERIOD ensures DayWithinYear(s, n) {
        SearchFromMidnight(s, n + PERIOD);
        YearsRepeat(s, n);
      }
    }
  }

  lemma CommonDatesComeEveryYear(s: Schedule, n: nat)
    requires s.Valid() && AllWeekdays(s) && HasCommonDate(s) && n >= 1
    ensures DayWithinYear(s, n)
  {
    var month, day :| month in s.months && day in s.days && CommonDate(month, day);
    var k := EveryCommonDateRecurs(n, month, day);
    assert s.MatchesDay(k);
  }

  lemma SearchReachesACommonDate(s: Schedule, after: nat)
    requires s.Valid() && AllWeekdays(s) && HasCommonDate(s)
    ensures exists m :: after < m <= after + SEARCH && s.Matches(m)
  {
    forall n: nat | n >= 1 ensures DayWithinYear(s, n) { CommonDatesComeEveryYear(s, n); }
    DayIsFound(s, after);
  }

  // The first minute of 2001-03-01 and what lies within the search from there.
  lemma OnlyCommonYearsAfterMarch2001(n: nat)
    requires Ordinal(Date(2001, 3, 1)) <= n <= Ordinal(Date(2001, 3, 1)) + 366
    ensures n >= 1 && !Leap(DateOf(n).year)
  {
    var lo, hi := Date(2001, 3, 1), Date(2002, 12, 31);
    MonthTable(2001, 3);
    MonthTable(2002, 12);
    DateOfHasOrdinal(n);
    var d := DateOf(n);
    if Earlier(hi, d) { OrdinalIsChronological(hi, d); }
    if Earlier(d, lo) { OrdinalIsChronological(d, lo); }
    assert d.year == 2001 || d.year == 2002;
  }

  lemma SearchMissesLeapDays(s: Schedule)
    requires s.Valid() && !HasCommonDate(s)
    ensures IsNextRun(s, (Ordinal(Date(2001, 3, 1)) - 1) * 1440 - 1, None)
  {
    var n := Ordinal(Date(2001, 3, 1));
    forall k: nat | n <= k <= n + 365 ensures !s.MatchesDay(k) {
      OnlyCommonYearsAfterMarch2001(k);
      if s.MatchesDay(k) { assert CommonDate(DateOf(k).month, DateOf(k).day); }
    }
    SearchFromMidnight(s, n);
  }

  // With an unrestricted weekday field this comes down to one allowed day that exists in common
  // years; without one, a search begun before 2001-03-01 finds none.
  lemma SearchBoundSuffices(s: Schedule)
    requires s.Valid() && AllWeekdays(s)
    ensures AlwaysFinds(s) <==> HasCommonDate(s)
  {
    if HasCommonDate(s) {
      forall n: nat | 1 <= n <= PERIOD ensures DayWithinYear(s, n) { CommonDatesComeEveryYear(s, n); }
      SearchAlwaysFinds(s);
    } else {
      SearchMissesLeapDays(s);
    }
  }

  lemma OneNewYearsDayIn2002To2003(k: nat)
    requires Ordinal(Date(2002, 1, 2)) <= k <= Ordinal(Date(2002, 1, 2)) + 366
    ensures k >= 1 && (DateOf(k).month == 1 && DateOf(k).day == 1 ==> k == Ordinal(Date(2003, 1, 1)))
  {
    var lo, only, hi := Date(2002, 1, 2), Date(2003, 1, 1), Date(2003, 12, 31);
    MonthTable(2003, 12);
    var date := DateOf(k);
    DateOfHasOrdinal(k);
    if Earlier(date, lo) { OrdinalIsChronological(date, lo); }
    if Earlier(hi, date) { OrdinalIsChronological(hi, date); }
    if date.month == 1 && date.day == 1 { assert date == only; }
  }

  // A weekday restriction can make a search fail although the date exists every year: no first of
  // January within a year of 2002-01-02 is a Tuesday.
  lemma WeekdaysMayStarveTheSearch(s: Schedule)
    requires s.Valid() && s.days == {1} && s.months == {1} && s.weekdays == {1}
    ensures HasCommonDate(s) && IsNextRun(s, (Ordinal(Date(2002, 1, 2)) - 1) * 1440 - 1, None)
  {
    assert 1 in s.months && 1 in s.days && CommonDate(1, 1);
    var n := Ordinal(Date(2002, 1, 2));
    assert Weekday(Ordinal(Date(2003, 1, 1))) == 2;
    forall k: nat | n <= k <= n + 365 ensures !s.MatchesDay(k) { OneNewYearsDayIn2002To2003(k); }
    SearchFromMidnight(s, n);
  }

  lemma ThirteenthsOf1999And2000(y: nat, m: nat)
    requires (y == 1999 && 9 <= m <= 12) || (y == 2000 && 1 <= m <= 8)
    ensures Weekday(Ordinal(Date(y, m, 13))) != 4
  {
    MonthTable(y, m);
    assert DaysBeforeYear(1999) == 729_754 && DaysBeforeYear(2000) == 730_119;
  }

  // Nor does a common schedule escape: no 13th between 1999-08-14 and 2000-08-13 is a Friday.
  lemma FridayThe13thStarvesTheSearch(s: Schedule)
    requires s.Valid() && s.days == {13} && s.weekdays == {4}
    ensures IsNextRun(s, (Ordinal(Date(1999, 8, 14)) - 1) * 1440 - 1, None)
  {
    var lo, hi := Date(1999, 8, 14), Date(2000, 8, 13);
    MonthTable(1999, 8);
    MonthTable(2000, 8);
    var n := Ordinal(lo);
    assert Ordinal(hi) == n + 365;
    forall k: nat | n <= k <= n + 365 ensures !s.MatchesDay(k) {
      var d := DateOf(k);
      DateOfHasOrdinal(k);
      if Earlier(d, lo) { OrdinalIsChronological(d, lo); }
      if Earlier(hi, d) { OrdinalIsChronological(hi, d); }
      if d.day == 13 { ThirteenthsOf1999And2000(d.year, d.month); }
    }
    SearchFromMidnight(s, n);
  }

  // ------------------------------------------------- agreement with polling

  // Between an instant and its next run no minute is due; the next run is, unless already executed.
  lemma DueAgreesWithNextRun(s: Schedule, last: Option<Instant>, t: Instant, next: nat, now: Instant)
    requires IsNextRun(s, t / MINUTE, Some(next)) && now / MINUTE > t / MINUTE
    ensures now / MINUTE < next ==> !Due(s, last, now)
    ensures now / MINUTE == next ==> (Due(s, last, now) <==> !(last.Some? && last.value / MINUTE == next))
  {
  }

  // The last execution after a sequence of ticks, starting from a fresh trigger.
  ghost function LastAfter(s: Schedule, polls: seq<Instant>): Option<Instant>
  {
    if polls == [] then None
    else
      var before := LastAfter(s, polls[..|polls| - 1]);
      if Due(s, before, polls[|polls| - 1]) then Some(polls[|polls| - 1]) else before
  }

  // How many of these ticks fire within one minute.
  ghost function FiresIn(s: Schedule, polls: seq<Instant>, minute: nat): nat
  {
    if polls == [] then 0
    else
      var shorter, p := polls[..|polls| - 1], polls[|polls| - 1];
      FiresIn(s, shorter, minute) + if Due(s, LastAfter(s, shorter), p) && p / MINUTE == minute then 1 else 0
  }

  ghost predicate Monotone(polls: seq<Instant>) {
    forall i, j :: 0 <= i < j < |polls| ==> polls[i] <= polls[j]
  }

  ghost predicate Polled(polls: seq<Instant>, minute: nat) { exists p :: p in polls && p / MINUTE == minute }

  lemma OnePollMore(s: Schedule, polls: seq<Instant>, p: Instant, minute: nat)
    ensures LastAfter(s, polls + [p]) == if Due(s, LastAfter(s, polls), p) then Some(p) else LastAfter(s, polls)
    ensures FiresIn(s, polls + [p], minute) ==
              FiresIn(s, polls, minute) + if Due(s, LastAfter(s, polls), p) && p / MINUTE == minute then 1 else 0
    ensures Polled(polls + [p], minute) <==> Polled(polls, minute) || p / MINUTE == minute
  {
    var more := polls + [p];
    assert more[..|more| - 1] == polls;
    assert p in more;
    if Polled(polls, minute) {
      var q :| q in polls && q / MINUTE == minute;
      assert q in more;
    }
  }

  // The last execution is one of the polls, in the latest matching minute polled.
  lemma {:induction false} LastIsLatestMatch(s: Schedule, polls: seq<Instant>)
    requires Monotone(polls)
    ensures LastAfter(s, polls).Some? ==> LastAfter(s, polls).value in polls && s.Matches(LastAfter(s, polls).value / MINUTE)
    ensures forall p :: p in polls && s.Matches(p / MINUTE) ==>
              LastAfter(s, polls).Some? && p / MINUTE <= LastAfter(s, polls).value / MINUTE
  {
    if polls != [] {
      var shorter, p := polls[..|polls| - 1], polls[|polls| - 1];
      LastIsLatestMatch(s, shorter);
      assert forall q :: q in polls <==> q in shorter || q == p;
      forall q | q in shorter ensures q / MINUTE <= p / MINUTE {
        var i :| 0 <= i < |shorter| && shorter[i] == q;
        assert polls[i] <= polls[|polls| - 1];
      }
    }
  }

  // The latest poll whose minute matches, whether it fired or not.
  ghost function LatestMatch(s: Schedule, polls: seq<Instant>): Option<Instant> {
    if polls == [] then None
    else
      var p := polls[|polls| - 1];
      if s.Matches(p / MINUTE) then Some(p) else LatestMatch(s, polls[..|polls| - 1])
  }

  ghost predicate SameMinute(a: Option<Instant>, b: Option<Instant>) {
    (a.Some? <==> b.Some?) && (a.Some? && b.Some? ==> a.value / MINUTE == b.value / MINUTE)
  }

  lemma {:induction false} LastIsInLatestMatch(s: Schedule, polls: seq<Instant>)
    ensures SameMinute(LastAfter(s, polls), LatestMatch(s, polls))
  {
    if polls != [] { LastIsInLatestMatch(s, polls[..|polls| - 1]); }
  }

  // Under any clock a poll fires exactly when its minute matches and the latest matching poll before
  // it lies in another minute.
  lemma DueExactly(s: Schedule, polls: seq<Instant>, p: Instant)
    ensures Due(s, LastAfter(s, polls), p) <==>
              s.Matches(p / MINUTE)
              && (LatestMatch(s, polls).None? || LatestMatch(s, polls).value / MINUTE != p / MINUTE)
  {
    LastIsInLatestMatch(s, polls);
  }

  // A matching minute already polled is the minute of the latest match as long as it lasts.
  lemma AlreadyPolled(s: Schedule, polls: seq<Instant>, p: Instant)
    requires Monotone(polls + [p]) && s.Matches(p / MINUTE)
    ensures Polled(polls, p / MINUTE) <==>
              LatestMatch(s, polls).Some? && LatestMatch(s, polls).value / MINUTE == p / MINUTE
  {
    var more := polls + [p];
    forall i, j | 0 <= i < j < |polls| ensures polls[i] <= polls[j] { assert more[i] <= more[j]; }
    LastIsLatestMatch(s, polls);
    LastIsInLatestMatch(s, polls);
    var last := LastAfter(s, polls);
    if last.Some? {
      var i :| 0 <= i < |polls| && polls[i] == last.value;
      assert more[i] <= more[|polls|];
      InOrder(last.value, p);
    }
    if Polled(polls, p / MINUTE) {
      var q :| q in polls && q / MINUTE == p / MINUTE;
      assert s.Matches(q / MINUTE);
    }
  }

  // Under a clock that never steps back, each matching minute that is polled fires exactly once,
  // and no other minute fires.
  lemma {:induction false} EachOccurrenceFiresOnce(s: Schedule, polls: seq<Instant>, minute: nat)
    requires Monotone(polls)
    ensures FiresIn(s, polls, minute) == if s.Matches(minute) && Polled(polls, minute) then 1 else 0
  {
    if polls != [] {
      var shorter, p := polls[..|polls| - 1], polls[|polls| - 1];
      assert polls == shorter + [p];
      EachOccurrenceFiresOnce(s, shorter, minute);
      OnePollMore(s, shorter, p, minute);
      DueExactly(s, shorter, p);
      if p / MINUTE == minute && s.Matches(minute) { AlreadyPolled(s, shorter, p); }
    }
  }

  lemma {:induction false} LatestMatchOfBoth(s: Schedule, a: seq<Instant>, b: seq<Instant>)
    ensures LatestMatch(s, a + b) == if LatestMatch(s, b).Some? then LatestMatch(s, b) else LatestMatch(s, a)
  {
    if b == [] {
      assert a + b == a;
    } else {
      LatestMatchOfBoth(s, a, b[..|b| - 1]);
      assert (a + b)[..|a + b| - 1] == a + b[..|b| - 1];
    }
  }

  // A clock that steps back, after any polls in between, to an occurrence already executed fires it
  // again exactly when the latest matching poll in between lies in another minute: only the last run
  // is kept.
  lemma SteppingBackFiresTwice(s: Schedule, polls: seq<Instant>, between: seq<Instant>, again: Instant)
    requires LastAfter(s, polls).Some? && LastAfter(s, polls).value / MINUTE == again / MINUTE
    requires s.Matches(again / MINUTE)
    ensures Due(s, LastAfter(s, polls + between), again) <==>
              LatestMatch(s, between).Some? && LatestMatch(s, between).value / MINUTE != again / MINUTE
  {
    LastIsInLatestMatch(s, polls);
    LatestMatchOfBoth(s, polls, between);
    DueExactly(s, polls + between, again);
  }
}
