/**
 * The calendar columns derived from `DATETIME` (minutes since 1970-01-01,
 * read as a naive wall-clock time): the half-hour slot of the day, the day
 * of the week, and the sine encoding of periodic values.
 */
module Calendar {

  /** The day number of `t` (day 0 is 1970-01-01, a day has 1440 minutes); floor division, also before 1970. */
  function Day(t: int): int
  {
    t / 1440
  }

  /** `DATETIME.hour`. */
  function Hour(t: int): (h: int)
    ensures 0 <= h < 24
  {
    (t % 1440) / 60
  }

  /** `DATETIME.minute`. */
  function Minute(t: int): (m: int)
    ensures 0 <= m < 60
  {
    t % 60
  }

  /** The half-hour slot of the day: the number of whole half-hours since midnight. */
  function PeriodSlot(t: int): (p: int)
    ensures 0 <= p < 48
  {
    (t % 1440) / 30
  }

  /** The slot is `hour * 2 + minute // 30`, the formula the feature is computed with. */
  lemma {:induction false} PeriodSlotFormula(t: int)
    ensures PeriodSlot(t) == Hour(t) * 2 + Minute(t) / 30
  {
    var m := t % 1440;
    assert t % 60 == m % 60 by {
      assert t == ((t / 1440) * 24) * 60 + m;
    }
    assert m == (m / 60) * 60 + m % 60;
  }

  /** Moving `k` minutes forward within the same day moves the time of day by `k`. */
  lemma {:induction false} TimeOfDayShift(t: int, k: int)
    requires 0 <= t % 1440 + k < 1440
    ensures (t + k) % 1440 == t % 1440 + k
  {
    assert t + k == (t / 1440) * 1440 + (t % 1440 + k);
  }

  /** A day later is the same time of day. */
  lemma {:induction false} TimeOfDayDaily(t: int)
    ensures (t + 1440) % 1440 == t % 1440
  {
    assert t + 1440 == (t / 1440 + 1) * 1440 + t % 1440;
  }

  /** A reading a day later falls in the same slot. */
  lemma {:induction false} PeriodSlotDaily(t: int)
    ensures PeriodSlot(t + 1440) == PeriodSlot(t)
  {
    TimeOfDayDaily(t);
  }

  /** Half-hourly readings on the half-hour walk through the slots in turn, wrapping at midnight. */
  lemma {:induction false} PeriodSlotNext(t: int)
    requires t % 30 == 0
    ensures PeriodSlot(t + 30) == (PeriodSlot(t) + 1) % 48
  {
    var m := t % 1440;
    assert m % 30 == 0 by {
      assert t == ((t / 1440) * 48) * 30 + m;
    }
    if m < 1410 {
      TimeOfDayShift(t, 30);
      assert (m + 30) / 30 == m / 30 + 1;
    } else {
      assert m == 1410;
      TimeOfDayDaily(t - 1410);
      TimeOfDayShift(t, -1410);
    }
  }

  /** `DATETIME.dayofweek`: Monday is 0 and Sunday 6; 1970-01-01 was a Thursday. */
  function DayOfWeek(t: int): (d: int)
    ensures 0 <= d < 7
  {
    (Day(t) + 3) % 7
  }

  /** The next day is the next weekday, Sunday wrapping to Monday. */
  lemma {:induction false} DayOfWeekNext(t: int)
    ensures DayOfWeek(t + 1440) == (DayOfWeek(t) + 1) % 7
  {
    assert Day(t + 1440) == Day(t) + 1;
  }

  /** `m.sin(2 * m.pi * value / period)`, with the sine and pi as parameters. */
  function TransformPeriodic(sin: real -> real, pi: real, value: int, period: int): real
    requires period != 0
  {
    sin(2.0 * pi * (value as real) / (period as real))
  }

  /** A sine never leaves [-1, 1]. */
  ghost predicate BoundedSine(sin: real -> real)
  {
    forall x :: -1.0 <= sin(x) <= 1.0
  }

  /** Under a bounded sine the encoding lies in [-1, 1]. */
  lemma {:induction false} TransformPeriodicRange(sin: real -> real, pi: real, value: int, period: int)
    requires period != 0 && BoundedSine(sin)
    ensures -1.0 <= TransformPeriodic(sin, pi, value, period) <= 1.0
  {
  }

  /** `is_weekday` as written: the already sine-encoded `day_of_week` compared with 5. */
  function IsWeekdayAsWritten(sin: real -> real, pi: real, t: int): bool
  {
    TransformPeriodic(sin, pi, DayOfWeek(t), 7) < 5.0
  }

  /** Whatever the instant, the encoded day is below 5: `is_weekday` holds on every row. */
  lemma {:induction false} IsWeekdayAlwaysTrue(sin: real -> real, pi: real, t: int)
    requires BoundedSine(sin)
    ensures IsWeekdayAsWritten(sin, pi, t)
  {
    TransformPeriodicRange(sin, pi, DayOfWeek(t), 7);
  }

  /** `is_weekday` as intended: the day of the week, before encoding, is Monday .. Friday. */
  function IsWeekday(t: int): bool
  {
    DayOfWeek(t) < 5
  }

  /** `k` days later the day of the week has moved on by `k`, modulo 7. */
  lemma {:induction false} DayOfWeekAfter(t: int, k: nat)
    ensures DayOfWeek(t + k * 1440) == (DayOfWeek(t) + k) % 7
  {
    if k > 0 {
      DayOfWeekAfter(t, k - 1);
      assert t + k * 1440 == (t + (k - 1) * 1440) + 1440;
      DayOfWeekNext(t + (k - 1) * 1440);
    }
  }

  /** Under the intended flag, any seven consecutive days hold exactly five weekdays. */
  lemma {:induction false} WeekdaysPerWeek(t: int)
    ensures |set k | 0 <= k < 7 && IsWeekday(t + k * 1440)| == 5
  {
    var d := DayOfWeek(t);
    forall k | 0 <= k < 7 ensures IsWeekday(t + k * 1440) <==> LandsOnWeekday(d, k) {
      DayOfWeekAfter(t, k);
    }
    assert (set k | 0 <= k < 7 && IsWeekday(t + k * 1440)) == WeekFrom(d);
    WeekFromSize(d);
  }

  /** Counting on `k` days from day of week `d` (both in 0 .. 6) lands on Monday .. Friday. */
  predicate LandsOnWeekday(d: int, k: int)
  {
    d + k < 5 || 7 <= d + k < 12
  }

  /** The offsets 0 .. 6 that land on Monday .. Friday when counting from day of week `d`. */
  function WeekFrom(d: int): set<int>
  {
    set k | 0 <= k < 7 && LandsOnWeekday(d, k)
  }

  /** Whatever the starting day, five of the seven offsets are weekdays. */
  lemma {:induction false} WeekFromSize(d: int)
    requires 0 <= d < 7
    ensures |WeekFrom(d)| == 5
  {
    if d == 0 {
      assert WeekFrom(d) == {0, 1, 2, 3, 4};
    } else if d == 1 {
      assert WeekFrom(d) == {0, 1, 2, 3, 6};
    } else if d == 2 {
      assert WeekFrom(d) == {0, 1, 2, 5, 6};
    } else if d == 3 {
      assert WeekFrom(d) == {0, 1, 4, 5, 6};
    } else if d == 4 {
      assert WeekFrom(d) == {0, 3, 4, 5, 6};
    } else if d == 5 {
      assert WeekFrom(d) == {2, 3, 4, 5, 6};
    } else {
      assert WeekFrom(d) == {1, 2, 3, 4, 5};
    }
  }

  /** 1970-01-03, a Saturday: the written test says weekday, the intended one does not. */
  lemma {:induction false} IsWeekdaySaturday(sin: real -> real, pi: real)
    requires BoundedSine(sin)
    ensures DayOfWeek(2 * 1440) == 5
    ensures IsWeekdayAsWritten(sin, pi, 2 * 1440) && !IsWeekday(2 * 1440)
  {
    IsWeekdayAlwaysTrue(sin, pi, 2 * 1440);
  }
}
