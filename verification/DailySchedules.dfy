/** Daily schedules: one time of day, in one fixed offset. */
module DailySchedules {
  import opened Calendars
  import opened Arithmetic
  import opened CronSchedules

  datatype DailySchedule = DailySchedule(hour: int, minute: int) {
    /** The time of day in seconds; the constructor does not check its range. */
    function TimeOfDay(): int {
      hour * 3600 + minute * 60
    }

    /** `t` is in nanoseconds, the result in seconds. */
    function Next(t: int): int {
      var d := Civil(t / NANOS / DAY);
      var next := DayNumber(d.year, d.month, d.day) * DAY + TimeOfDay();
      if next * NANOS > t then next else next + DAY
    }

    /** `u` is a moment with the schedule's time of day. */
    ghost predicate Due(u: int) {
      (u - TimeOfDay()) % DAY == 0
    }

    ghost predicate NextIsLeast() {
      forall t :: IsLeastAfter(t)
    }

    ghost predicate IsLeastAfter(t: int) {
      && Next(t) * NANOS > t && Due(Next(t))
      && forall u :: u * NANOS > t && Due(u) ==> Next(t) <= u
    }
  }

  lemma LeastAfter(s: DailySchedule, t: int)
    requires 0 <= s.TimeOfDay() <= DAY
    ensures s.IsLeastAfter(t)
  {
    hide Civil, DayNumber;
    var sec, tod := t / NANOS, s.TimeOfDay();
    var day := sec / DAY;
    var next := day * DAY + tod;
    assert s.Next(t) == if next * NANOS > t then next else next + DAY;
    Quotient(next - tod, DAY, day, 0);
    Quotient(next + DAY - tod, DAY, day + 1, 0);
    var least := if next * NANOS > t then day else day + 1;
    forall u | u * NANOS > t && s.Due(u) ensures s.Next(t) <= u {
      var k := (u - tod) / DAY;
      assert u == k * DAY + tod;
      assert k <= least - 1 ==> u * NANOS <= t;
    }
  }

  lemma OutOfRange(s: DailySchedule) returns (t: int)
    requires !(0 <= s.TimeOfDay() <= DAY)
    ensures !s.IsLeastAfter(t)
  {
    hide Civil, DayNumber;
    var tod := s.TimeOfDay();
    t := if -DAY <= tod < 0 then (DAY + tod) * NANOS else 0;
    if tod > DAY {
      assert s.Next(t) == tod;
      assert s.Due(tod - DAY) by { Quotient(-DAY, DAY, -1, 0); }
    } else {
      Quotient(t, NANOS, t / NANOS, 0);
      assert s.Next(t) == tod + DAY;
    }
  }

  /** `Next` is the least due moment after every `t` exactly when the time of day is within the day
      (24:00 included).  Outside that range it can lie in the past or skip a day. */
  lemma LeastIffTimeInRange(s: DailySchedule)
    ensures s.NextIsLeast() <==> 0 <= s.TimeOfDay() <= DAY
  {
    if 0 <= s.TimeOfDay() <= DAY {
      forall t ensures s.IsLeastAfter(t) {
        LeastAfter(s, t);
      }
    } else {
      var t := OutOfRange(s);
    }
  }

  /** For an hour and a minute of the clock, the result shows them, and second 0, on the day of `t` or the
      one after. */
  lemma ShowsTheTime(s: DailySchedule, t: int)
    requires 0 <= s.hour < 24 && 0 <= s.minute < 60
    ensures HourOf(s.Next(t)) == s.hour && MinuteOf(s.Next(t)) == s.minute && SecondOf(s.Next(t)) == 0
    ensures DayOf(s.Next(t)) == t / 1_000_000_000 / 86400 || DayOf(s.Next(t)) == t / 1_000_000_000 / 86400 + 1
  {
    hide Civil, DayNumber, HourOf, MinuteOf, SecondOf, DayOf;
    var day := t / NANOS / DAY;
    ClockFields(day, s.hour, s.minute, 0);
    ClockFields(day + 1, s.hour, s.minute, 0);
    assert s.Next(t) == day * DAY + s.TimeOfDay() || s.Next(t) == (day + 1) * DAY + s.TimeOfDay();
  }
}
