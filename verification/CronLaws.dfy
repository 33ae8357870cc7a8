/** What a schedule means in calendar coordinates, and how often it fires in a day. */
module CronLaws {
  import opened Common
  import opened Calendar
  import opened Cron

  // A minute of a day matches exactly when each of its five coordinates is in its field.
  lemma MatchesAt(s: Schedule, d: Date, h: nat, m: nat)
    requires d.Valid() && h < 24 && m < 60
    ensures Ordinal(d) >= 1
    ensures s.Matches((Ordinal(d) - 1) * 1440 + h * 60 + m) <==>
              && m in s.minutes && h in s.hours && d.day in s.days && d.month in s.months
              && Weekday(Ordinal(d)) in s.weekdays
  {
    DateOfOrdinal(d);
    MatchesOnDay(s, Ordinal(d), h, m);
  }

  lemma MatchesOnDay(s: Schedule, n: nat, h: nat, m: nat)
    requires n >= 1 && h < 24 && m < 60
    ensures s.Matches((n - 1) * 1440 + h * 60 + m) <==>
              && m in s.minutes && h in s.hours && DateOf(n).day in s.days && DateOf(n).month in s.months
              && Weekday(n) in s.weekdays
  {
    MinuteOf(n - 1, h, m);
    MatchesWhen(s, (n - 1) * 1440 + h * 60 + m, n, h, m);
  }

  lemma MatchesWhen(s: Schedule, k: nat, n: nat, h: nat, m: nat)
    requires n >= 1 && k / 1440 == n - 1 && k / 60 % 24 == h && k % 60 == m
    ensures s.Matches(k) <==>
              && m in s.minutes && h in s.hours && DateOf(n).day in s.days && DateOf(n).month in s.months
              && Weekday(n) in s.weekdays
  {
  }

  // Days of the week follow each other from a known Monday, which is 0.
  lemma WeekdaysFollow(n: nat)
    ensures Weekday(Ordinal(Date(2001, 1, 1))) == 0 && 0 <= Weekday(n) <= 6
    ensures Weekday(n + 1) == (Weekday(n) + 1) % 7
  {
  }

  // A trigger is due at an instant exactly when the calendar coordinates of its minute match and that
  // minute is not the one of its last run.
  lemma DueAt(s: Schedule, last: Option<Instant>, d: Date, h: nat, m: nat, minute: nat, now: Instant)
    requires d.Valid() && h < 24 && m < 60 && minute == (Ordinal(d) - 1) * 1440 + h * 60 + m
    requires minute * MINUTE <= now < minute * MINUTE + MINUTE
    ensures Due(s, last, now) <==>
              && m in s.minutes && h in s.hours && d.day in s.days && d.month in s.months
              && Weekday(Ordinal(d)) in s.weekdays
              && (last.None? || last.value / MINUTE != minute)
  {
    MatchesAt(s, d, h, m);
    MinuteIn(minute, now - minute * MINUTE);
  }

  lemma MinuteIn(minute: nat, inMinute: nat)
    requires inMinute < MINUTE
    ensures (minute * MINUTE + inMinute) / MINUTE == minute
  {
  }

  // --------------------------------------------------------- a day of polls

  // Polls that fire among `more`, polled after `before`.
  ghost function FiresDuring(s: Schedule, before: seq<Instant>, more: seq<Instant>): nat {
    if more == [] then 0
    else
      var n := |more| - 1;
      FiresDuring(s, before, more[..n]) + if Due(s, LastAfter(s, before + more[..n]), more[n]) then 1 else 0
  }

  // The first k minutes from one on, each polled once.
  function EachMinute(start: nat, k: nat): (polls: seq<Instant>)
    ensures |polls| == k && forall i :: 0 <= i < k ==> polls[i] == (start + i) * MINUTE
  {
    seq(k, i requires 0 <= i < k => (start + i) * MINUTE)
  }

  ghost predicate AllBefore(polls: seq<Instant>, minute: nat) { forall p :: p in polls ==> p / MINUTE < minute }

  lemma {:induction false} LatestMatchIsBefore(s: Schedule, polls: seq<Instant>, minute: nat)
    requires AllBefore(polls, minute)
    ensures LatestMatch(s, polls).Some? ==> LatestMatch(s, polls).value / MINUTE < minute
  {
    if polls != [] {
      var shorter := polls[..|polls| - 1];
      assert polls[|polls| - 1] in polls;
      forall p | p in shorter ensures p / MINUTE < minute { assert p in polls; }
      LatestMatchIsBefore(s, shorter, minute);
    }
  }

  function Matching(s: Schedule, start: nat, k: nat): nat {
    if k == 0 then 0 else Matching(s, start, k - 1) + if s.Matches(start + k - 1) then 1 else 0
  }

  lemma {:induction false} PollsFireOnMatches(s: Schedule, before: seq<Instant>, start: nat, k: nat)
    requires AllBefore(before, start)
    ensures FiresDuring(s, before, EachMinute(start, k)) == Matching(s, start, k)
  {
    if k > 0 {
      var polls := EachMinute(start, k);
      assert polls[..k - 1] == EachMinute(start, k - 1);
      PollsFireOnMatches(s, before, start, k - 1);
      var sofar := before + polls[..k - 1];
      PolledMinutes(start, k);
      forall p | p in sofar ensures p / MINUTE < start + k - 1 {
        if p !in before {
          var i :| 0 <= i < k - 1 && polls[i] == p;
        }
      }
      LatestMatchIsBefore(s, sofar, start + k - 1);
      DueExactly(s, sofar, polls[k - 1]);
    }
  }

  lemma PolledMinutes(start: nat, k: nat)
    ensures forall i :: 0 <= i < k ==> EachMinute(start, k)[i] / MINUTE == start + i
  {
    forall i | 0 <= i < k ensures EachMinute(start, k)[i] / MINUTE == start + i { MinuteIn(start + i, 0); }
  }

  function Below(values: set<int>, n: int): set<int> { set x | x in values && x < n }

  lemma BelowNext(values: set<int>, n: int)
    ensures |Below(values, n + 1)| == |Below(values, n)| + if n in values then 1 else 0
  {
    if n in values {
      assert Below(values, n + 1) == Below(values, n) + {n};
    } else {
      assert Below(values, n + 1) == Below(values, n);
    }
  }

  // Up to minute m of hour h of a matching day, every allowed minute of every allowed hour has matched.
  lemma {:induction false} MatchingSoFar(s: Schedule, day: nat, h: nat, m: nat)
    requires s.Valid() && h < 24 && m <= 60
    ensures Matching(s, day * 1440, h * 60 + m) ==
              if s.MatchesDay(day + 1)
              then |s.minutes| * |Below(s.hours, h)| + (if h in s.hours then |Below(s.minutes, m)| else 0)
              else 0
    decreases h, m
  {
    if m > 0 {
      MatchingSoFar(s, day, h, m - 1);
      MinuteOf(day, h, m - 1);
      BelowNext(s.minutes, m - 1);
    } else if h > 0 {
      MatchingSoFar(s, day, h - 1, 60);
      BelowNext(s.hours, h - 1);
      assert Below(s.minutes, 60) == s.minutes && Below(s.minutes, 0) == {};
      Product(|s.minutes|, |Below(s.hours, h - 1)|);
    } else {
      assert Below(s.hours, 0) == {} && Below(s.minutes, 0) == {};
    }
  }

  lemma Product(a: nat, b: nat)
    ensures a * (b + 1) == a * b + a
  {
  }

  // One pass over the minutes of a day, after any polls of earlier days, fires once for every allowed
  // minute of every allowed hour of a matching day, and never on another day.
  lemma FiresInADay(s: Schedule, before: seq<Instant>, day: nat)
    requires s.Valid() && AllBefore(before, day * 1440)
    ensures FiresDuring(s, before, EachMinute(day * 1440, 1440)) ==
              if DateOf(day + 1).day in s.days && DateOf(day + 1).month in s.months && Weekday(day + 1) in s.weekdays
              then |s.minutes| * |s.hours| else 0
  {
    PollsFireOnMatches(s, before, day * 1440, 1440);
    MatchingSoFar(s, day, 23, 60);
    BelowNext(s.hours, 23);
    assert Below(s.hours, 24) == s.hours && Below(s.minutes, 60) == s.minutes;
    Product(|s.minutes|, |Below(s.hours, 23)|);
  }
}
