/**
 * The calendar's time arithmetic: the seven days of a week, and the mapping
 * between an instant and its vertical position in the day grid, measured in
 * minutes below the grid's first hour `startHour`.
 */
module DateUtils {
  import opened Time

  /** startOfWeek with weekStartsOn = 0: the Sunday midnight that begins the
      week containing date. */
  function StartOfWeek(date: int): (r: int)
    ensures r % DayMs == 0 && Weekday(r) == 0
    ensures r <= date < AddDays(r, 7)
  {
    var sod := StartOfDay(date);
    ShiftByDays(sod, -Weekday(date));
    AddDays(sod, -Weekday(date))
  }

  /** getWeekDays: the seven days of date's week, Sunday first. */
  function GetWeekDays(date: int): (days: seq<int>)
    ensures |days| == 7
    ensures forall i :: 0 <= i < 7 ==> days[i] % DayMs == 0 && Weekday(days[i]) == i
    ensures forall i :: 0 <= i < 6 ==> days[i + 1] == AddDays(days[i], 1)
    ensures days[0] <= date < AddDays(days[6], 1)
  {
    var start := StartOfWeek(date);
    var days := seq(7, i requires 0 <= i < 7 => AddDays(start, i));
    assert forall i :: 0 <= i < 7 ==> days[i] % DayMs == 0 && Weekday(days[i]) == i by {
      forall i | 0 <= i < 7
        ensures days[i] % DayMs == 0 && Weekday(days[i]) == i
      {
        ShiftByDays(start, i);
      }
    }
    days
  }

  /** timeToPosition: minutes from startHour o'clock to date on date's own day;
      negative before startHour. */
  function TimeToPosition(date: int, startHour: int): (r: int)
    ensures r == (date % DayMs) / MinuteMs - startHour * 60
    ensures r < 0 <==> Hours(date) < startHour
  {
    Decompose(date);
    (Hours(date) - startHour) * 60 + Minutes(date)
  }

  /** Math.round(total / 15): the nearest whole number, halves upwards; for a
      whole total the nearest multiple of 15 is never more than 7 away. */
  function RoundToQuarters(total: int): (q: int)
    ensures q * 15 - 7 <= total <= q * 15 + 7
  {
    (2 * total + 15) / 30
  }

  /** JavaScript's `a % 60`: the remainder takes the sign of the dividend. */
  function JsRemainder60(a: int): (r: int)
    ensures (a - r) % 60 == 0
    ensures -60 < r < 60
    ensures a >= 0 ==> r >= 0
    ensures a <= 0 ==> r <= 0
  {
    if a >= 0 then a % 60 else -((-a) % 60)
  }

  /** The minute positionToTime sets: Math.round(total / 15) * 15 % 60. */
  function SnappedMinute(total: int): (m: int)
    ensures m % 15 == 0
    ensures total >= -7 ==> 0 <= m <= 45
    ensures total < -7 ==> -45 <= m <= 0
  {
    var q := RoundToQuarters(total);
    var r := JsRemainder60(q * 15);
    assert r == 15 * (q - 4 * ((q * 15 - r) / 60));
    r
  }

  /** positionToTime, as written: the hour comes from the unrounded total, the
      minute from the rounded one. */
  function PositionToTime(position: int, day: int, startHour: int): (r: int)
    ensures var total := position + startHour * 60;
      total >= -7 ==>
        var hourStart := StartOfDay(day) + total / 60 * HourMs + day % MinuteMs;
        hourStart <= r < hourStart + HourMs && (r - hourStart) % QuarterMs == 0
  {
    var total := position + startHour * 60;
    var m := SnappedMinute(total);
    SetTimeOfDay(day, total / 60, m);
    assert m * MinuteMs == (m / 15) * QuarterMs;
    SetMinutes(SetHours(day, total / 60), m)
  }

  /** positionToTime as evidently intended: the hour and the minute both come
      from the total rounded to the nearest quarter hour. */
  function PositionToTimeCorrected(position: int, day: int, startHour: int): (r: int)
    ensures var total := position + startHour * 60;
      r == StartOfDay(day) + RoundToQuarters(total) * QuarterMs + day % MinuteMs
  {
    var rounded := RoundToQuarters(position + startHour * 60) * 15;
    var r := SetMinutes(SetHours(day, rounded / 60), rounded % 60);
    SetTimeOfDay(day, rounded / 60, rounded % 60);
    r
  }

  /** Setting hour and minute keeps day's date and its seconds. */
  lemma SetTimeOfDay(day: int, h: int, m: int)
    ensures SetMinutes(SetHours(day, h), m) == StartOfDay(day) + h * HourMs + m * MinuteMs + day % MinuteMs
  {
    Decompose(day);
    var t := SetHours(day, h);
    MidnightAligned(StartOfDay(day));
    var k := StartOfDay(day) / HourMs + h;
    assert t == k * HourMs + day % HourMs;
    assert t % HourMs == day % HourMs;
    assert t == (k * 60 + Minutes(day)) * MinuteMs + day % MinuteMs;
  }

  /** What positionToTime does, against what it evidently means to do: the two
      agree except when the total is 53 to 59 minutes past an hour, where the
      minute rounds up to 60, wraps to 0, and the hour is not advanced, so the
      result is one hour early: the start of the same hour instead of the next. */
  lemma PositionToTimeWrapsBack(position: int, day: int, startHour: int)
    requires position + startHour * 60 >= -7
    ensures var total := position + startHour * 60;
      PositionToTime(position, day, startHour) ==
        PositionToTimeCorrected(position, day, startHour) - (if total % 60 >= 53 then HourMs else 0)
    ensures var total := position + startHour * 60;
      total % 60 >= 53 ==>
        PositionToTime(position, day, startHour) == StartOfDay(day) + total / 60 * HourMs + day % MinuteMs
  {
    var total := position + startHour * 60;
    var h, q := total / 60, RoundToQuarters(total);
    SetTimeOfDay(day, h, SnappedMinute(total));
    assert q >= 0;
    if total % 60 >= 53 {
      assert q * 15 == 60 * h + 60;
      assert SnappedMinute(total) == 0;
    } else {
      assert 60 * h <= q * 15 <= 60 * h + 45;
      assert SnappedMinute(total) == q * 15 - 60 * h;
    }
  }

  /** The input that shows it: position 58 below a 06:00 grid start (06:58)
      is snapped to 06:00, where the nearest quarter hour is 07:00. */
  lemma PositionToTimeWrapExample()
    ensures PositionToTime(58, 0, 6) == 6 * HourMs
    ensures PositionToTimeCorrected(58, 0, 6) == 7 * HourMs
  {
    PositionToTimeWrapsBack(58, 0, 6);
  }

  /** Round trip: a position on the quarter-hour grid within the day maps to an
      instant whose position is the same. */
  lemma PositionRoundTrip(position: int, day: int, startHour: int)
    requires var total := position + startHour * 60; 0 <= total < 24 * 60 && total % 15 == 0
    ensures TimeToPosition(PositionToTime(position, day, startHour), startHour) == position
  {
    OnGridNoWrap(position, day, startHour);
    CorrectedPosition(position, day, startHour);
  }

  /** On the quarter-hour grid nothing is rounded, so nothing wraps. */
  lemma OnGridNoWrap(position: int, day: int, startHour: int)
    requires var total := position + startHour * 60; total >= 0 && total % 15 == 0
    ensures RoundToQuarters(position + startHour * 60) * 15 == position + startHour * 60
    ensures PositionToTime(position, day, startHour) == PositionToTimeCorrected(position, day, startHour)
  {
    var total := position + startHour * 60;
    assert total % 60 < 53 by {
      assert total % 60 == 15 * ((total % 60) / 15);
    }
    PositionToTimeWrapsBack(position, day, startHour);
  }

  /** The corrected conversion lands on the nearest quarter hour: converting
      back gives the position of that quarter hour, on the same day. */
  lemma CorrectedPosition(position: int, day: int, startHour: int)
    requires var total := position + startHour * 60; 0 <= RoundToQuarters(total) * 15 < 24 * 60
    ensures var r := PositionToTimeCorrected(position, day, startHour);
      StartOfDay(r) == StartOfDay(day) &&
      TimeToPosition(r, startHour) == RoundToQuarters(position + startHour * 60) * 15 - startHour * 60
  {
    var rounded := RoundToQuarters(position + startHour * 60) * 15;
    var r := PositionToTimeCorrected(position, day, startHour);
    var x := rounded * MinuteMs + day % MinuteMs;
    var k := StartOfDay(day) / DayMs;
    assert r == k * DayMs + x;
    assert 0 <= x < DayMs;
    assert r / DayMs == k;
    assert r % DayMs == x;
    assert x / MinuteMs == rounded;
  }
}
