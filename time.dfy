/**
 * Instants as integers. An instant is a whole number of milliseconds since a
 * local midnight, the epoch, which begins a Thursday (as 1 January 1970 does).
 * Every day has exactly DayMs milliseconds: time zones and daylight-saving
 * shifts are not modelled. The functions below are the date operations the
 * scheduler and the calendar use, with JavaScript's overflow behaviour
 * (setting hour 25 moves to the next day) kept.
 */
module Time {
  const MinuteMs: int := 60_000
  const QuarterMs: int := 900_000
  const HourMs: int := 3_600_000
  const DayMs: int := 86_400_000
  /** The weekday (0 = Sunday .. 6 = Saturday) of the day that begins at instant 0. */
  const EpochWeekday: int := 4

  function Max(a: int, b: int): (r: int)
    ensures r >= a && r >= b && (r == a || r == b)
  {
    if a >= b then a else b
  }

  /** startOfDay: the midnight that begins the day containing t. */
  function StartOfDay(t: int): (r: int)
    ensures r % DayMs == 0
    ensures r <= t < r + DayMs
  {
    t - t % DayMs
  }

  /** The start of the minute containing t (seconds and milliseconds cleared). */
  function StartOfMinute(t: int): (r: int)
    ensures r % MinuteMs == 0
    ensures r <= t < r + MinuteMs
  {
    t - t % MinuteMs
  }

  /** addDays: the same time of day, n days later (or earlier). */
  function AddDays(t: int, n: int): int
  {
    t + n * DayMs
  }

  /** getDay: the weekday of the day containing t, 0 = Sunday. */
  function Weekday(t: int): (d: int)
    ensures 0 <= d < 7
  {
    (t / DayMs + EpochWeekday) % 7
  }

  /** getHours: the hour of the day. */
  function Hours(t: int): (h: int)
    ensures 0 <= h < 24
  {
    (t % DayMs) / HourMs
  }

  /** getMinutes: the minute of the hour. */
  function Minutes(t: int): (m: int)
    ensures 0 <= m < 60
  {
    (t % HourMs) / MinuteMs
  }

  /** setHours(t, h): the same minutes, seconds and milliseconds at hour h of t's day;
      an hour outside 0..23 carries into a neighbouring day. */
  function SetHours(t: int, h: int): int
  {
    StartOfDay(t) + h * HourMs + t % HourMs
  }

  /** setMinutes(t, m): the same hour, seconds and milliseconds at minute m;
      a minute outside 0..59 carries into a neighbouring hour. */
  function SetMinutes(t: int, m: int): int
  {
    t - t % HourMs + m * MinuteMs + t % MinuteMs
  }

  /** An instant splits into its day, hour, minute and sub-minute parts. */
  lemma Decompose(t: int)
    ensures t == StartOfDay(t) + Hours(t) * HourMs + Minutes(t) * MinuteMs + t % MinuteMs
    ensures t % HourMs == Minutes(t) * MinuteMs + t % MinuteMs
  {
    var d, r := t / DayMs, t % DayMs;
    var h, rh := r / HourMs, r % HourMs;
    assert t == (d * 24 + h) * HourMs + rh;
    assert t / HourMs == d * 24 + h;
    var m, rm := rh / MinuteMs, rh % MinuteMs;
    assert t == ((d * 24 + h) * 60 + m) * MinuteMs + rm;
    assert t / MinuteMs == (d * 24 + h) * 60 + m;
  }

  /** Moving by whole days keeps the time of day and advances the weekday. */
  lemma ShiftByDays(t: int, n: int)
    ensures StartOfDay(AddDays(t, n)) == AddDays(StartOfDay(t), n)
    ensures Weekday(AddDays(t, n)) == (Weekday(t) + n) % 7
  {
  }

  /** getDay is a property of the day: every instant of a day has the weekday
      of its midnight, the epoch's day is a Thursday, and each next day is the
      next weekday. */
  lemma WeekdayOfDay(t: int)
    ensures Weekday(t) == Weekday(StartOfDay(t))
    ensures Weekday(StartOfDay(t)) == (StartOfDay(t) / DayMs + EpochWeekday) % 7
    ensures Weekday(AddDays(StartOfDay(t), 1)) == (Weekday(t) + 1) % 7
  {
    assert StartOfDay(t) / DayMs == t / DayMs;
    assert AddDays(StartOfDay(t), 1) / DayMs == t / DayMs + 1;
  }

  /** A midnight is also a whole hour, quarter hour and minute. */
  lemma MidnightAligned(t: int)
    requires t % DayMs == 0
    ensures t % HourMs == 0 && t % QuarterMs == 0 && t % MinuteMs == 0
  {
    var k := t / DayMs;
    assert t == (k * 96) * QuarterMs;
    assert t == (k * 24) * HourMs;
    assert t == (k * 1440) * MinuteMs;
  }

  /** A whole minute at or before c is at or before the start of c's minute. */
  lemma FloorToMinute(a: int, c: int)
    requires a % MinuteMs == 0 && a <= c
    ensures a <= StartOfMinute(c)
  {
    var k := a / MinuteMs;
    var q := c / MinuteMs;
    assert a == k * MinuteMs;
    assert StartOfMinute(c) == q * MinuteMs;
    assert k < q + 1;
  }

  /** The instant t into day number d lies on that day. */
  lemma DayOf(d: int, t: int)
    requires 0 <= t < DayMs
    ensures StartOfDay(AddDays(t, d)) == AddDays(0, d)
  {
    var x := AddDays(t, d);
    assert x == d * DayMs + t;
    assert x / DayMs == d;
  }
}
