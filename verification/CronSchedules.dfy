/**
 Cron schedules in one fixed offset: the jumping search for the next match, against the plain
 second-by-second meaning of a schedule.
 */
module CronSchedules {
  import opened Results
  import opened Calendars
  import opened Arithmetic

  /** Clock and calendar fields of a whole second. */
  function DayOf(t: int): int { t / DAY }
  function HourOf(t: int): int { t % DAY / 3600 }
  function MinuteOf(t: int): int { t % 3600 / 60 }
  function SecondOf(t: int): int { t % 60 }
  function MonthNumber(t: int): int { Civil(DayOf(t)).month }
  function DayInMonth(t: int): int { Civil(DayOf(t)).day }
  function WeekdayOf(t: int): int { Weekday(DayOf(t)) }

  /** Midnight of the first of the following month, `time.Date(y, m+1, 1, 0, 0, 0, 0, loc)`. */
  function NextMonth(t: int): int {
    var d := Civil(DayOf(t));
    DayNumber(d.year, d.month + 1, 1) * DAY
  }

  /** Midnight of the following day: `AddDate(0, 0, 1)` and then `time.Date` of its date. */
  function NextDay(t: int): int {
    var d := Civil(DayOf(t));
    var e := Civil(DayNumber(d.year, d.month, d.day + 1));
    DayNumber(e.year, e.month, e.day) * DAY
  }

  /** The first whole second after `t` nanoseconds. */
  function FirstSecond(t: int): int {
    (t + NANOS - t % NANOS) / NANOS
  }

  datatype CronSchedule = CronSchedule(second: set<int>, minute: set<int>, hour: set<int>,
                                       dayOfMonth: set<int>, month: set<int>, dayOfWeek: set<int>)
  {
    predicate DayMatches(t: int) {
      DayInMonth(t) in dayOfMonth || WeekdayOf(t) in dayOfWeek
    }

    /** What the schedule means: day of month and weekday are alternatives, the rest must all hold. */
    predicate Matches(t: int) {
      MonthNumber(t) in month && DayMatches(t)
      && HourOf(t) in hour && MinuteOf(t) in minute && SecondOf(t) in second
    }

    /** Some month of the schedule has one of its days, and every clock field can be met. */
    ghost predicate Satisfiable() {
      && (exists s :: 0 <= s < 60 && s in second)
      && (exists m :: 0 <= m < 60 && m in minute)
      && (exists h :: 0 <= h < 24 && h in hour)
      && (exists m :: 1 <= m <= 12 && m in month &&
            ((exists w :: 0 <= w < 7 && w in dayOfWeek)
             || (exists d :: 1 <= d <= LongestMonth(m) && d in dayOfMonth)))
    }

    /** One turn of the search loop: where it jumps to, or `t` itself when it returns. */
    function Jump(t: int): int {
      if MonthNumber(t) !in month then NextMonth(t)
      else if !DayMatches(t) then NextDay(t)
      else if HourOf(t) !in hour then t + 3600 - MinuteOf(t) * 60 - SecondOf(t)
      else if MinuteOf(t) !in minute then t + 60 - SecondOf(t)
      else if SecondOf(t) !in second then t + 1
      else t
    }

    /** Where the loop is after `k` turns. */
    function Jumps(t: int, k: nat): int {
      if k == 0 then t else Jump(Jumps(t, k - 1))
    }

    /** `t` is in nanoseconds, the result in whole seconds.  Without a satisfiable schedule the search
        would go on for ever. */
    method Next(t: int) returns (next: int)
      requires Satisfiable()
      ensures next * NANOS > t && Matches(next)
      ensures var date := Civil(DayOf(next));
              date.month in month && (date.day in dayOfMonth || DayOfWeek(date) in dayOfWeek)
      ensures forall u :: u * NANOS > t && Matches(u) ==> next <= u
      ensures exists k :: next == Jumps(FirstSecond(t), k)
    {
      next := (t + NANOS - t % NANOS) / NANOS;
      ghost var first, turns := next, 0;
      AfterStart(t);
      ghost var hit := FutureMatch(this, first);
      assert Jumps(first, 0) == first && first == FirstSecond(t);
      hide *;

      while true
        invariant first <= next <= hit
        invariant next == Jumps(first, turns)
        invariant forall u :: first <= u < next ==> !Matches(u)
        decreases hit - next
      {
        OneJump(this, first, turns);
        turns := turns + 1;
        if MonthNumber(next) !in month {
          next := NextMonth(next);
          continue;
        }

        if DayInMonth(next) !in dayOfMonth && WeekdayOf(next) !in dayOfWeek {
          next := NextDay(next);
          continue;
        }

        if HourOf(next) !in hour {
          next := next + 3600 - MinuteOf(next) * 60 - SecondOf(next);
          continue;
        }

        if MinuteOf(next) !in minute {
          next := next + 60 - SecondOf(next);
          continue;
        }

        if SecondOf(next) !in second {
          next := next + 1;
          continue;
        }

        OnDate(this, next);
        return;
      }
    }
  }

  function LongestMonth(m: int): int {
    if m == 2 then 29 else if m == 4 || m == 6 || m == 9 || m == 11 then 30 else 31
  }

  // ----- No jump skips a match -----

  /** A match has one of the schedule's months, and one of its days or weekdays. */
  lemma OnDate(c: CronSchedule, t: int)
    requires c.Matches(t)
    ensures var date := Civil(DayOf(t));
            date.month in c.month && (date.day in c.dayOfMonth || DayOfWeek(date) in c.dayOfWeek)
  {
    hide Civil, DayOfWeek, Weekday, DayNumber;
    WeekdayOfDate(Civil(DayOf(t)));
  }

  lemma AllFieldsMatch(c: CronSchedule, t: int)
    requires MonthNumber(t) in c.month
    requires DayInMonth(t) in c.dayOfMonth || WeekdayOf(t) in c.dayOfWeek
    requires HourOf(t) in c.hour && MinuteOf(t) in c.minute && SecondOf(t) in c.second
    ensures c.Matches(t)
  {
  }

  lemma AfterStart(t: int)
    ensures FirstSecond(t) * NANOS > t && forall u :: u * NANOS > t ==> FirstSecond(t) <= u
  {
    assert t + NANOS - t % NANOS == (t / NANOS + 1) * NANOS;
  }

  lemma SkipMonth(c: CronSchedule, t: int)
    requires MonthNumber(t) !in c.month
    ensures NextMonth(t) > t
    ensures forall u :: t <= u < NextMonth(t) ==> !c.Matches(u)
  {
    hide Civil, DayNumber, YearStart, MonthStart;
    var d := Civil(DayOf(t));
    NoCarry(d.year, d.month, d.day);
    NoCarry(d.year, d.month, 1);
    MonthEnd(d.year, d.month);
    forall u | t <= u < NextMonth(t) ensures !c.Matches(u) {
      assert DayOf(t) <= DayOf(u) < DayNumber(d.year, d.month + 1, 1);
      SameMonth(DayOf(t), DayOf(u));
    }
  }

  lemma NextDayIsMidnight(t: int)
    ensures NextDay(t) == (DayOf(t) + 1) * DAY
  {
    hide Civil, YearStart, MonthStart;
  }

  lemma SkipDay(c: CronSchedule, t: int)
    requires !c.DayMatches(t)
    ensures NextDay(t) > t
    ensures forall u :: t <= u < NextDay(t) ==> !c.Matches(u)
  {
    NextDayIsMidnight(t);
    hide Civil, NextDay, Weekday;
    forall u | t <= u < NextDay(t) ensures !c.Matches(u) {
      assert DayOf(u) == DayOf(t);
    }
  }

  /** The clock, counted in whole hours and whole minutes. */
  lemma HoursAndMinutes(t: int)
    ensures HourOf(t) == t / 3600 % 24
    ensures MinuteOf(t) == t / 60 % 60
    ensures t - MinuteOf(t) * 60 - SecondOf(t) == t / 3600 * 3600
    ensures t - SecondOf(t) == t / 60 * 60
  {
    var s, m, h, n := t % 60, t / 60 % 60, t / 60 / 60 % 24, t / 60 / 60 / 24;
    ClockFields(n, h, m, s);
    Quotient(t, 3600, 24 * n + h, 60 * m + s);
  }

  lemma SkipHour(c: CronSchedule, t: int)
    requires HourOf(t) !in c.hour
    ensures t + 3600 - MinuteOf(t) * 60 - SecondOf(t) > t
    ensures forall u :: t <= u < t + 3600 - MinuteOf(t) * 60 - SecondOf(t) ==> !c.Matches(u)
  {
    hide Civil, Weekday;
    HoursAndMinutes(t);
    hide HourOf, MinuteOf, SecondOf;
    forall u | t <= u < t + 3600 - MinuteOf(t) * 60 - SecondOf(t) ensures !c.Matches(u) {
      HoursAndMinutes(u);
      assert u / 3600 == t / 3600;
    }
  }

  lemma SkipMinute(c: CronSchedule, t: int)
    requires MinuteOf(t) !in c.minute
    ensures t + 60 - SecondOf(t) > t
    ensures forall u :: t <= u < t + 60 - SecondOf(t) ==> !c.Matches(u)
  {
    hide Civil, Weekday;
    HoursAndMinutes(t);
    hide HourOf, MinuteOf, SecondOf;
    forall u | t <= u < t + 60 - SecondOf(t) ensures !c.Matches(u) {
      HoursAndMinutes(u);
      assert u / 60 == t / 60;
    }
  }

  lemma SkipSecond(c: CronSchedule, t: int)
    requires SecondOf(t) !in c.second
    ensures forall u :: t <= u < t + 1 ==> !c.Matches(u)
  {
    hide Civil, Weekday;
  }

  /** A turn that does not return goes forward and passes no match. */
  lemma JumpSkips(c: CronSchedule, t: int)
    ensures c.Jump(t) == t <==> c.Matches(t)
    ensures c.Jump(t) >= t && forall u :: t <= u < c.Jump(t) ==> !c.Matches(u)
  {
    if MonthNumber(t) !in c.month {
      SkipMonth(c, t);
    } else if !c.DayMatches(t) {
      SkipDay(c, t);
    } else if HourOf(t) !in c.hour {
      SkipHour(c, t);
    } else if MinuteOf(t) !in c.minute {
      SkipMinute(c, t);
    } else if SecondOf(t) !in c.second {
      SkipSecond(c, t);
    }
    hide MonthNumber, DayInMonth, WeekdayOf, HourOf, MinuteOf, SecondOf, NextMonth, NextDay;
  }

  lemma OneJump(c: CronSchedule, first: int, turns: nat)
    ensures var t := c.Jumps(first, turns);
            && c.Jumps(first, turns + 1) == c.Jump(t)
            && (c.Jump(t) == t <==> c.Matches(t))
            && c.Jump(t) >= t && (forall u :: t <= u < c.Jump(t) ==> !c.Matches(u))
            && c.Jump(t) == if MonthNumber(t) !in c.month then NextMonth(t)
                            else if DayInMonth(t) !in c.dayOfMonth && WeekdayOf(t) !in c.dayOfWeek then NextDay(t)
                            else if HourOf(t) !in c.hour then t + 3600 - MinuteOf(t) * 60 - SecondOf(t)
                            else if MinuteOf(t) !in c.minute then t + 60 - SecondOf(t)
                            else if SecondOf(t) !in c.second then t + 1
                            else t
  {
    JumpSkips(c, c.Jumps(first, turns));
    hide MonthNumber, DayInMonth, WeekdayOf, HourOf, MinuteOf, SecondOf, NextMonth, NextDay;
  }

  // ----- When the search ends -----

  /** Midnight of 1 January of the year 400k, far enough in the future. */
  lemma FarYear(t: int, k: int)
    requires k == (if t > 0 then t else 0) + 5
    ensures YearStart(400 * k) >= t && YearStart(400 * k) >= 0
    ensures Leap(400 * k)
  {
    assert (400 * k) % 4 == 0 && (400 * k) % 400 == 0;
    assert (400 * k - 1) / 4 == 100 * k - 1;
    assert (400 * k - 1) / 100 == 4 * k - 1;
    assert (400 * k - 1) / 400 == k - 1;
  }

  /** A day in month `m` of that year on which the schedule's day fields hold. */
  lemma FittingDay(c: CronSchedule, y: int, m: int) returns (d: int)
    requires Leap(y) && 1 <= m <= 12
    requires (exists w :: 0 <= w < 7 && w in c.dayOfWeek)
             || (exists d :: 1 <= d <= LongestMonth(m) && d in c.dayOfMonth)
    ensures Valid(Date(y, m, d))
    ensures d in c.dayOfMonth || Weekday(DayNumber(y, m, d)) in c.dayOfWeek
  {
    hide YearStart, MonthStart;
    if w :| 0 <= w < 7 && w in c.dayOfWeek {
      d := 1 + (w - Weekday(DayNumber(y, m, 1))) % 7;
      NoCarry(y, m, 1);
      NoCarry(y, m, d);
      assert Weekday(DayNumber(y, m, d)) == w;
    } else {
      d :| 1 <= d <= LongestMonth(m) && d in c.dayOfMonth;
    }
  }

  lemma ClockFields(n: int, h: int, m: int, s: int)
    requires 0 <= h < 24 && 0 <= m < 60 && 0 <= s < 60
    ensures var t := n * DAY + h * 3600 + m * 60 + s;
            DayOf(t) == n && HourOf(t) == h && MinuteOf(t) == m && SecondOf(t) == s
  {
    var t := n * DAY + h * 3600 + m * 60 + s;
    Quotient(t, DAY, n, h * 3600 + m * 60 + s);
    Quotient(t, 3600, 24 * n + h, m * 60 + s);
    Quotient(t, 60, 1440 * n + 60 * h + m, s);
    Quotient(h * 3600 + m * 60 + s, 3600, h, m * 60 + s);
    Quotient(m * 60 + s, 60, m, s);
  }

  lemma MatchOn(c: CronSchedule, d: Date, hour: int, min: int, sec: int)
    requires Valid(d) && d.month in c.month
    requires d.day in c.dayOfMonth || Weekday(DayNumber(d.year, d.month, d.day)) in c.dayOfWeek
    requires 0 <= hour < 24 && 0 <= min < 60 && 0 <= sec < 60
    requires hour in c.hour && min in c.minute && sec in c.second
    ensures c.Matches(DayNumber(d.year, d.month, d.day) * DAY + hour * 3600 + min * 60 + sec)
  {
    hide Civil, DayNumber, Weekday, DayOf, HourOf, MinuteOf, SecondOf, c.Matches, YearStart, MonthStart;
    var n := DayNumber(d.year, d.month, d.day);
    CivilUnique(d);
    ClockFields(n, hour, min, sec);
    AllFieldsMatch(c, n * DAY + hour * 3600 + min * 60 + sec);
  }

  /** What the schedule means, from dates and clock times: a moment matches exactly if its month, its day or
      weekday, its hour, its minute and its second are in their sets. */
  lemma MatchesIff(c: CronSchedule, d: Date, hour: int, min: int, sec: int)
    requires Valid(d) && 0 <= hour < 24 && 0 <= min < 60 && 0 <= sec < 60
    ensures c.Matches(DayNumber(d.year, d.month, d.day) * 86400 + hour * 3600 + min * 60 + sec) <==>
              && d.month in c.month && (d.day in c.dayOfMonth || DayOfWeek(d) in c.dayOfWeek)
              && hour in c.hour && min in c.minute && sec in c.second
  {
    hide Civil, DayNumber, Weekday, DayOf, HourOf, MinuteOf, SecondOf, DayOfWeek, YearStart, MonthStart;
    var n := DayNumber(d.year, d.month, d.day);
    CivilUnique(d);
    WeekdayOfDate(d);
    ClockFields(n, hour, min, sec);
  }

  lemma FirstDays()
    ensures Valid(Date(1970, 1, 4)) && DayNumber(1970, 1, 4) == 3 && DayOfWeek(Date(1970, 1, 4)) == 0
    ensures Valid(Date(1970, 1, 5)) && DayNumber(1970, 1, 5) == 4 && DayOfWeek(Date(1970, 1, 5)) == 1
  {
  }

  /** Mondays at midnight: the first after the epoch is 5 January 1970, and the Sunday before is none. */
  lemma FirstMonday()
    ensures var mondays := CronSchedule({0}, {0}, {0}, {}, {1, 2, 3, 4, 5, 6, 7, 8, 9, 10, 11, 12}, {1});
            mondays.Matches(345600) && !mondays.Matches(259200)
  {
    var mondays := CronSchedule({0}, {0}, {0}, {}, {1, 2, 3, 4, 5, 6, 7, 8, 9, 10, 11, 12}, {1});
    hide *;
    FirstDays();
    MatchesIff(mondays, Date(1970, 1, 5), 0, 0, 0);
    MatchesIff(mondays, Date(1970, 1, 4), 0, 0, 0);
  }

  /** A satisfiable schedule matches again after every moment. */
  lemma FutureMatch(c: CronSchedule, t: int) returns (hit: int)
    requires c.Satisfiable()
    ensures hit >= t && c.Matches(hit)
  {
    hide YearStart, MonthStart, Civil, DayNumber, Leap, Weekday;
    var sec :| 0 <= sec < 60 && sec in c.second;
    var min :| 0 <= min < 60 && min in c.minute;
    var hour :| 0 <= hour < 24 && hour in c.hour;
    var m :| 1 <= m <= 12 && m in c.month &&
             ((exists w :: 0 <= w < 7 && w in c.dayOfWeek)
              || (exists d :: 1 <= d <= LongestMonth(m) && d in c.dayOfMonth));
    var k := (if t > 0 then t else 0) + 5;
    var y := 400 * k;
    FarYear(t, k);
    var d := FittingDay(c, y, m);
    WithinYear(y, m, d);
    MatchOn(c, Date(y, m, d), hour, min, sec);
    hit := DayNumber(y, m, d) * DAY + hour * 3600 + min * 60 + sec;
  }

  /** There is a match after every moment, or there is none at all. */
  lemma MatchIffSatisfiable(c: CronSchedule, t: int)
    ensures c.Satisfiable() <==> exists u :: u > t && c.Matches(u)
  {
    hide Civil, DayNumber, YearStart, MonthStart;
    if c.Satisfiable() {
      hide c.Matches, c.Satisfiable;
      var hit := FutureMatch(c, t + 1);
      assert hit > t;
    } else if u :| u > t && c.Matches(u) {
      MatchSatisfies(c, u);
    }
  }

  lemma MatchSatisfies(c: CronSchedule, u: int)
    requires c.Matches(u)
    ensures c.Satisfiable()
  {
    hide Civil, DayNumber, YearStart, MonthStart;
    var d := Civil(DayOf(u));
    assert 0 <= SecondOf(u) < 60 && SecondOf(u) in c.second;
    assert 0 <= MinuteOf(u) < 60 && MinuteOf(u) in c.minute;
    assert 0 <= HourOf(u) < 24 && HourOf(u) in c.hour;
    assert 1 <= d.day <= LongestMonth(d.month);
    assert 0 <= WeekdayOf(u) < 7;
    assert d.month in c.month;
  }

  /** The search that starts at `t` gets to a match after some number of turns. */
  ghost predicate Ends(c: CronSchedule, t: int) {
    exists k: nat :: c.Matches(c.Jumps(t, k))
  }

  lemma {:induction false} JumpsReach(c: CronSchedule, t: int, k: nat, hit: int) returns (n: nat)
    requires c.Jumps(t, k) <= hit && c.Matches(hit)
    ensures c.Matches(c.Jumps(t, n))
    decreases hit - c.Jumps(t, k)
  {
    JumpSkips(c, c.Jumps(t, k));
    hide c.Matches, c.Jump;
    if c.Matches(c.Jumps(t, k)) {
      n := k;
    } else {
      n := JumpsReach(c, t, k + 1, hit);
    }
  }

  /** The search ends exactly when the schedule is satisfiable; otherwise no number of turns gets to a
      match, which is the only way out of the loop. */
  lemma EndsIffSatisfiable(c: CronSchedule, t: int)
    ensures Ends(c, t) <==> c.Satisfiable()
  {
    if c.Satisfiable() {
      var hit := FutureMatch(c, t);
      assert c.Jumps(t, 0) == t;
      var n := JumpsReach(c, t, 0, hit);
    }
    if k :| c.Matches(c.Jumps(t, k)) {
      MatchIffSatisfiable(c, c.Jumps(t, k) - 1);
    }
  }

  /** A schedule for 30 February alone sends the search on for ever. */
  lemma ThirtiethOfFebruary(t: int)
    ensures !Ends(CronSchedule({0}, {0}, {0}, {30}, {2}, {}), t)
  {
    var c := CronSchedule({0}, {0}, {0}, {30}, {2}, {});
    assert !c.Satisfiable();
    EndsIffSatisfiable(c, t);
  }
}
