/**
 * Whether a reading falls in daylight: the reading's instant is converted to
 * the state's time zone, the sun times of that local date are looked up, and
 * the instant is compared with them. The time zone database and the solar
 * computation are parameters (a `Clock`); the comparison, the state table and
 * the choice of date are modelled.
 */
module Daylight {
  import opened Wrappers
  import Calendar

  /** The time zone of each state whose readings the pipeline handles. */
  const StateTimezones: map<string, string> := map[
    "NSW" := "Australia/Sydney",
    "QLD" := "Australia/Brisbane",
    "SA" := "Australia/Adelaide",
    "VIC" := "Australia/Melbourne"
  ]

  /** The states the table knows. */
  const KnownStates: set<string> := {"NSW", "QLD", "SA", "VIC"}

  /**
   * The sunrise and sunset of one local date, as instants in minutes since
   * 1970-01-01 UTC (fractions of a minute allowed).
   */
  datatype SunTimes = SunTimes(sunrise: real, sunset: real)

  /**
   * The outside world `is_daylight` consults: the offset from UTC, in minutes,
   * of a time zone at an instant, and the sun times of a time zone's local date.
   */
  datatype Clock = Clock(utcOffset: (string, int) -> int, sun: (string, int) -> SunTimes)

  /** A state's time zone; a state outside the table is a `KeyError`. */
  function Timezone(state: string): (r: Result<string, string>)
    ensures r.Success? <==> state in KnownStates
    ensures r.Success? ==> |r.value| > 10 && r.value[..10] == "Australia/"
    ensures r.Failure? ==> r.error == state
  {
    if state in StateTimezones then Success(StateTimezones[state]) else Failure(state)
  }

  /** No two states share a time zone. */
  lemma {:induction false} TimezoneInjective(a: string, b: string)
    requires Timezone(a).Success? && Timezone(b).Success? && a != b
    ensures Timezone(a).value != Timezone(b).value
  {
    assert a in KnownStates && b in KnownStates;
  }

  /** The date, in zone `tz`, of the instant `t`: the local wall clock's day number. */
  function LocalDay(clock: Clock, tz: string, t: int): int
  {
    Calendar.Day(t + clock.utcOffset(tz, t))
  }

  /** The sun times for the local date of `t` in zone `tz`. */
  function SunOf(clock: Clock, tz: string, t: int): SunTimes
  {
    clock.sun(tz, LocalDay(clock, tz, t))
  }

  /** `t` lies strictly between sunrise and sunset. */
  predicate Between(s: SunTimes, t: int)
  {
    s.sunrise < t as real < s.sunset
  }

  /** `is_daylight`: the instant lies strictly between the sunrise and sunset of its local date. */
  function IsDaylight(clock: Clock, state: string, t: int): (r: Result<bool, string>)
    ensures r.Failure? <==> state !in KnownStates
    ensures r.Success? ==> (r.value <==> Between(SunOf(clock, StateTimezones[state], t), t))
  {
    match Timezone(state)
    case Failure(e) => Failure(e)
    case Success(tz) =>
      var s := SunOf(clock, tz, t);
      Success(s.sunrise < t as real < s.sunset)
  }

  /** The `is_daylight` variant of the exploration script: not strictly between sunset and sunrise. */
  function IsDaylightScratch(clock: Clock, state: string, t: int): (r: Result<bool, string>)
    ensures r.Failure? <==> state !in KnownStates
  {
    match Timezone(state)
    case Failure(e) => Failure(e)
    case Success(tz) =>
      var s := SunOf(clock, tz, t);
      Success(!(s.sunset < t as real < s.sunrise))
  }

  /** Two clocks that agree on the zone's offset at `t` and on that local date's sun times give the same answer. */
  lemma {:induction false} IsDaylightLocalDate(c1: Clock, c2: Clock, state: string, t: int)
    requires state in KnownStates
    requires c1.utcOffset(StateTimezones[state], t) == c2.utcOffset(StateTimezones[state], t)
    requires c1.sun(StateTimezones[state], LocalDay(c1, StateTimezones[state], t))
          == c2.sun(StateTimezones[state], LocalDay(c1, StateTimezones[state], t))
    ensures IsDaylight(c1, state, t) == IsDaylight(c2, state, t)
  {
    var tz := StateTimezones[state];
    assert LocalDay(c1, tz, t) == LocalDay(c2, tz, t);
    assert SunOf(c1, tz, t) == SunOf(c2, tz, t);
  }

  /** When sunset is not after sunrise, no instant of that date is daylight. */
  lemma {:induction false} IsDaylightEmptyDay(clock: Clock, state: string, t: int)
    requires state in KnownStates
    requires SunOf(clock, StateTimezones[state], t).sunset <= SunOf(clock, StateTimezones[state], t).sunrise
    ensures IsDaylight(clock, state, t) == Success(false)
  {
  }

  /** When sunrise comes no later than sunset, the script's test holds for every instant. */
  lemma {:induction false} ScratchAlwaysTrue(clock: Clock, state: string, t: int)
    requires state in KnownStates
    requires SunOf(clock, StateTimezones[state], t).sunrise <= SunOf(clock, StateTimezones[state], t).sunset
    ensures IsDaylightScratch(clock, state, t) == Success(true)
  {
    var s := SunOf(clock, StateTimezones[state], t);
    assert !(s.sunset < t as real < s.sunrise);
  }

  /**
   * On an ordinary date (sunrise before sunset) the two variants agree exactly
   * on the daylight instants and disagree on every other one.
   */
  lemma {:induction false} VariantsAgree(clock: Clock, state: string, t: int)
    requires state in KnownStates
    requires SunOf(clock, StateTimezones[state], t).sunrise <= SunOf(clock, StateTimezones[state], t).sunset
    ensures IsDaylight(clock, state, t) == IsDaylightScratch(clock, state, t)
        <==> Between(SunOf(clock, StateTimezones[state], t), t)
  {
    ScratchAlwaysTrue(clock, state, t);
  }

  /** A reading at 20:00 UTC on 1970-01-01 with sunrise at 06:00 and sunset at 18:00 UTC: night, yet the script says daylight. */
  lemma {:induction false} ScratchNightCounterexample()
    ensures var clock := Clock((tz, t) => 0, (tz, d) => SunTimes(360.0, 1080.0));
      IsDaylight(clock, "NSW", 1200) == Success(false) && IsDaylightScratch(clock, "NSW", 1200) == Success(true)
  {
    var clock := Clock((tz, t) => 0, (tz, d) => SunTimes(360.0, 1080.0));
    assert LocalDay(clock, "Australia/Sydney", 1200) == 0;
  }

  /**
   * A zone ahead of UTC moves late-evening UTC readings to the next local
   * date: the sun times looked up are the next day's.
   */
  lemma {:induction false} LocalDayAhead(clock: Clock, tz: string, t: int)
    requires 0 <= clock.utcOffset(tz, t) < 1440
    requires t % 1440 + clock.utcOffset(tz, t) >= 1440
    ensures LocalDay(clock, tz, t) == Calendar.Day(t) + 1
  {
    var off := clock.utcOffset(tz, t);
    assert t + off == (t / 1440 + 1) * 1440 + (t % 1440 + off - 1440);
  }

  /** A zone at or ahead of UTC keeps earlier readings on their UTC date. */
  lemma {:induction false} LocalDaySame(clock: Clock, tz: string, t: int)
    requires 0 <= clock.utcOffset(tz, t)
    requires t % 1440 + clock.utcOffset(tz, t) < 1440
    ensures LocalDay(clock, tz, t) == Calendar.Day(t)
  {
    var off := clock.utcOffset(tz, t);
    assert t + off == (t / 1440) * 1440 + (t % 1440 + off);
  }
}
