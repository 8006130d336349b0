/**
 * The earliest-fit slot finder of the auto-scheduler (findAvailableSlot).
 *
 * The search walks a cursor over the horizon one calendar day at a time. On a
 * work day it fixes an origin (the start of the working hours, or the cursor
 * rounded up to a quarter hour when the cursor is already past that start)
 * and tries the candidates origin, origin + 15 min, origin + 30 min, ... as
 * long as the candidate still ends within the working hours. The first
 * candidate that overlaps no busy interval is the answer.
 *
 * Candidates are named by two numbers: i, the outer iteration (the i-th day
 * the cursor visits), and j, the grid step on that day. The specification
 * IsFirstFit speaks of these names only; the method is proved against it.
 */
module SlotFinder {
  import opened Optional
  import opened Time

  /** A half-open interval [start, end): a busy interval or a candidate placement. */
  datatype TimeSlot = TimeSlot(start: int, end: int)

  /** The arguments of one search: the horizon, the clock reading, the length of
      the task in milliseconds, the work days (0 = Sunday) and the working hours
      as minutes after midnight. */
  datatype Search = Search(rangeStart: int, rangeEnd: int, now: int, durationMs: int,
                           workDays: seq<int>, workStart: int, workEnd: int)

  /** The strict overlap test: intervals that only touch do not overlap. */
  predicate Overlaps(a: TimeSlot, b: TimeSlot)
  {
    a.start < b.end && a.end > b.start
  }

  /** busySlots.some(busy => overlaps) */
  predicate HasConflict(slot: TimeSlot, busy: seq<TimeSlot>)
  {
    exists b :: b in busy && Overlaps(slot, b)
  }

  /** The cursor after it leaves the day containing t: the next midnight. */
  function NextDay(t: int): (r: int)
    ensures r % DayMs == 0
    ensures t < r <= t + DayMs
  {
    AddDays(StartOfDay(t), 1)
  }

  /** The cursor at the start of the i-th outer iteration. */
  function Cursor(s: Search, i: nat): int
  {
    if i == 0 then Max(s.rangeStart, s.now) else NextDay(Cursor(s, i - 1))
  }

  predicate IsWorkDay(s: Search, c: int)
  {
    Weekday(c) in s.workDays
  }

  /** Start and end of the working hours on the day containing c. */
  function DayStart(s: Search, c: int): int
  {
    StartOfDay(c) + s.workStart * MinuteMs
  }

  function DayEnd(s: Search, c: int): int
  {
    StartOfDay(c) + s.workEnd * MinuteMs
  }

  /** The clamp: minutes rounded up to the next multiple of 15 (60 carries into
      the next hour), seconds and milliseconds cleared. The result is the first
      quarter hour at or after the start of t's minute. */
  function RoundUpToQuarter(t: int): (r: int)
    ensures r % QuarterMs == 0
    ensures StartOfMinute(t) <= r < StartOfMinute(t) + QuarterMs
  {
    var hour := t - t % HourMs;
    var q := (Minutes(t) + 14) / 15;
    Decompose(t);
    QuarterGrid(hour / QuarterMs, q);
    hour + q * 15 * MinuteMs
  }

  lemma QuarterGrid(a: int, b: int)
    ensures (a * QuarterMs + b * QuarterMs) % QuarterMs == 0
  {
    assert a * QuarterMs + b * QuarterMs == (a + b) * QuarterMs;
  }

  /** The first candidate start tried on the day the cursor c is in. */
  function Origin(s: Search, c: int): int
  {
    if c > DayStart(s, c) then RoundUpToQuarter(c) else DayStart(s, c)
  }

  /** The j-th candidate of the i-th outer iteration. */
  function Candidate(s: Search, i: nat, j: nat): TimeSlot
  {
    var start := Origin(s, Cursor(s, i)) + j * QuarterMs;
    TimeSlot(start, start + s.durationMs)
  }

  /** Whether the scan examines candidate (i, j): the cursor is still inside the
      horizon, its day is a work day, and the candidate ends within the hours. */
  predicate IsCandidate(s: Search, i: nat, j: nat)
  {
    Cursor(s, i) < s.rangeEnd && IsWorkDay(s, Cursor(s, i)) &&
    Candidate(s, i, j).end <= DayEnd(s, Cursor(s, i))
  }

  /** The scan order: days in order, grid steps in order within a day. */
  predicate ScannedBefore(i': nat, j': nat, i: nat, j: nat)
  {
    i' < i || (i' == i && j' < j)
  }

  /** What findAvailableSlot promises: Some(slot) when slot is the first examined
      candidate without a conflict, None when every examined candidate conflicts. */
  ghost predicate IsFirstFit(s: Search, busy: seq<TimeSlot>, r: Option<TimeSlot>)
  {
    match r
    case None =>
      forall i: nat, j: nat :: IsCandidate(s, i, j) ==> HasConflict(Candidate(s, i, j), busy)
    case Some(slot) =>
      exists i: nat, j: nat ::
        IsCandidate(s, i, j) && Candidate(s, i, j) == slot && !HasConflict(slot, busy) &&
        forall i': nat, j': nat :: ScannedBefore(i', j', i, j) && IsCandidate(s, i', j') ==>
          HasConflict(Candidate(s, i', j'), busy)
  }

  /** findAvailableSlot: two nested loops, days outside and grid steps inside. */
  method FindAvailableSlot(s: Search, busySlots: seq<TimeSlot>) returns (r: Option<TimeSlot>)
    ensures IsFirstFit(s, busySlots, r)
  {
    var current := Max(s.rangeStart, s.now);
    ghost var i: nat := 0;
    while current < s.rangeEnd
      invariant current == Cursor(s, i)
      invariant forall i': nat, j': nat :: i' < i && IsCandidate(s, i', j') ==>
        HasConflict(Candidate(s, i', j'), busySlots)
      decreases s.rangeEnd - current
    {
      var day := Weekday(current);
      if day !in s.workDays {
        current := AddDays(StartOfDay(current), 1);
        i := i + 1;
        continue;
      }
      var dayStart := StartOfDay(current) + s.workStart * MinuteMs;
      var dayEnd := StartOfDay(current) + s.workEnd * MinuteMs;
      if current > dayStart {
        dayStart := RoundUpToQuarter(current);
      }
      var slotStart := dayStart;
      ghost var j: nat := 0;
      CandidateStep(s, i, 0);
      while slotStart + s.durationMs <= dayEnd
        invariant slotStart == Candidate(s, i, j).start
        invariant forall j': nat :: j' < j ==> HasConflict(Candidate(s, i, j'), busySlots)
        decreases dayEnd - s.durationMs - slotStart
      {
        var slotEnd := slotStart + s.durationMs;
        var hasConflict := HasConflict(TimeSlot(slotStart, slotEnd), busySlots);
        if !hasConflict {
          assert IsCandidate(s, i, j) && Candidate(s, i, j) == TimeSlot(slotStart, slotEnd);
          return Some(TimeSlot(slotStart, slotEnd));
        }
        CandidateStep(s, i, j);
        slotStart := slotStart + QuarterMs;
        j := j + 1;
      }
      PastDayEnd(s, i, j);
      current := AddDays(StartOfDay(current), 1);
      i := i + 1;
    }
    CursorAfterHorizon(s, i);
    return None;
  }

  /** The grid: the first candidate starts at the origin, each next one a quarter hour later. */
  lemma CandidateStep(s: Search, i: nat, j: nat)
    ensures Candidate(s, i, 0).start == Origin(s, Cursor(s, i))
    ensures Candidate(s, i, j + 1).start == Candidate(s, i, j).start + QuarterMs
    ensures Candidate(s, i, j).end == Candidate(s, i, j).start + s.durationMs
  {
    assert (j + 1) * QuarterMs == j * QuarterMs + QuarterMs;
  }

  /** Once a candidate ends after the working hours, so does every later one on that day. */
  lemma PastDayEnd(s: Search, i: nat, j: nat)
    requires Candidate(s, i, j).end > DayEnd(s, Cursor(s, i))
    ensures forall j': nat :: j' >= j ==> !IsCandidate(s, i, j')
  {
    forall j': nat | j' >= j
      ensures !IsCandidate(s, i, j')
    {
      assert j' * QuarterMs >= j * QuarterMs;
    }
  }

  /** A first fit is a free slot of the task's length. */
  lemma FirstFitIsFree(s: Search, busy: seq<TimeSlot>, slot: TimeSlot)
    requires IsFirstFit(s, busy, Some(slot))
    ensures !HasConflict(slot, busy)
    ensures slot.end - slot.start == s.durationMs
  {
  }

  /** Later outer iterations have later cursors. */
  lemma {:induction false} CursorIncreasing(s: Search, a: nat, b: nat)
    requires a <= b
    ensures Cursor(s, a) <= Cursor(s, b)
    ensures a < b ==> Cursor(s, a) < Cursor(s, b)
    decreases b
  {
    if a < b {
      CursorIncreasing(s, a, b - 1);
    }
  }

  /** Once the cursor reaches the end of the horizon, no later day is examined. */
  lemma CursorAfterHorizon(s: Search, n: nat)
    requires Cursor(s, n) >= s.rangeEnd
    ensures forall i: nat, j: nat :: i >= n ==> !IsCandidate(s, i, j)
  {
    forall i: nat, j: nat | i >= n
      ensures !IsCandidate(s, i, j)
    {
      CursorIncreasing(s, n, i);
    }
  }

  /** After the first iteration the cursor is the midnight i days after the
      day the scan starts on: every calendar day is visited once, in order. */
  lemma {:induction false} CursorIsDay(s: Search, i: nat)
    requires i >= 1
    ensures Cursor(s, i) == AddDays(StartOfDay(Cursor(s, 0)), i)
  {
    if i > 1 {
      CursorIsDay(s, i - 1);
      ShiftByDays(StartOfDay(Cursor(s, 0)), i - 1);
    }
  }

  /** The origin is never before the working hours start, nor before the
      minute the cursor is in. */
  lemma OriginBounds(s: Search, c: int)
    ensures Origin(s, c) >= DayStart(s, c)
    ensures Origin(s, c) >= StartOfMinute(c)
  {
    MidnightAligned(StartOfDay(c));
    assert DayStart(s, c) % MinuteMs == 0 by {
      assert DayStart(s, c) == (StartOfDay(c) / MinuteMs + s.workStart) * MinuteMs;
    }
    if c > DayStart(s, c) {
      FloorToMinute(DayStart(s, c), c);
    }
  }

  /** An examined candidate is a slot of the task's length on a work day,
      inside that day's working hours. */
  lemma CandidateInWorkHours(s: Search, i: nat, j: nat)
    requires IsCandidate(s, i, j)
    ensures Candidate(s, i, j).end - Candidate(s, i, j).start == s.durationMs
    ensures IsWorkDay(s, Cursor(s, i))
    ensures DayStart(s, Cursor(s, i)) <= Candidate(s, i, j).start
    ensures Candidate(s, i, j).end <= DayEnd(s, Cursor(s, i))
    ensures s.durationMs <= (s.workEnd - s.workStart) * MinuteMs
  {
    OriginBounds(s, Cursor(s, i));
  }

  /** No examined candidate starts before the minute the scan started in: never
      in the past, except for the seconds the clamp clears. */
  lemma CandidateNotBeforeNow(s: Search, i: nat, j: nat)
    ensures Candidate(s, i, j).start >= StartOfMinute(Cursor(s, 0))
  {
    var c, c0 := Cursor(s, i), Cursor(s, 0);
    OriginBounds(s, c);
    CursorIncreasing(s, 0, i);
    FloorToMinute(StartOfMinute(c0), c);
    assert Candidate(s, i, j).start >= Origin(s, c);
  }

  /** Candidates lie on a 15-minute grid: aligned to the quarter hour when the
      origin was clamped, at workStart + 15 k minutes otherwise. */
  lemma CandidateOnGrid(s: Search, i: nat, j: nat)
    ensures Cursor(s, i) > DayStart(s, Cursor(s, i)) ==> Candidate(s, i, j).start % QuarterMs == 0
    ensures Cursor(s, i) <= DayStart(s, Cursor(s, i)) ==>
      Candidate(s, i, j).start == DayStart(s, Cursor(s, i)) + j * QuarterMs
  {
    var c := Cursor(s, i);
    if c > DayStart(s, c) {
      QuarterGrid(RoundUpToQuarter(c) / QuarterMs, j);
    }
  }

  /** A task longer than the working hours never fits. */
  lemma NoRoomNoSlot(s: Search, busy: seq<TimeSlot>, r: Option<TimeSlot>)
    requires IsFirstFit(s, busy, r)
    requires s.durationMs > (s.workEnd - s.workStart) * MinuteMs
    ensures r == None
  {
    if r.Some? {
      var i: nat, j: nat :| IsCandidate(s, i, j) && Candidate(s, i, j) == r.value;
      CandidateInWorkHours(s, i, j);
    }
  }

  /** With the working hours inside one day, every candidate ends by the first
      midnight at or after the end of the horizon. */
  lemma CandidateWithinHorizon(s: Search, i: nat, j: nat)
    requires IsCandidate(s, i, j)
    requires s.workEnd <= 24 * 60
    requires s.rangeEnd % DayMs == 0
    ensures Candidate(s, i, j).end <= s.rangeEnd
  {
    var c := Cursor(s, i);
    assert StartOfDay(c) + DayMs <= s.rangeEnd;
  }

  /** With positive length and working hours inside one day, the scan examines
      candidates in strictly increasing order of start time. */
  lemma ScanOrderIsTimeOrder(s: Search, i': nat, j': nat, i: nat, j: nat)
    requires IsCandidate(s, i', j') && IsCandidate(s, i, j)
    requires ScannedBefore(i', j', i, j)
    requires s.durationMs > 0 && s.workEnd <= 24 * 60
    ensures Candidate(s, i', j').start < Candidate(s, i, j).start
  {
    if i' < i {
      var c', c := Cursor(s, i'), Cursor(s, i);
      assert Candidate(s, i', j').end <= NextDay(c');
      CursorIncreasing(s, i' + 1, i);
      assert NextDay(c') <= c;
      MidnightAligned(c);
      OriginBounds(s, c);
      assert StartOfMinute(c) == c;
    }
  }

  /** The specification fixes the answer: there is at most one first fit. */
  lemma FirstFitUnique(s: Search, busy: seq<TimeSlot>, r1: Option<TimeSlot>, r2: Option<TimeSlot>)
    requires IsFirstFit(s, busy, r1) && IsFirstFit(s, busy, r2)
    ensures r1 == r2
  {
    match r1
    case None =>
    case Some(a) =>
      var i1: nat, j1: nat :| IsCandidate(s, i1, j1) && Candidate(s, i1, j1) == a && !HasConflict(a, busy) &&
        forall i': nat, j': nat :: ScannedBefore(i', j', i1, j1) && IsCandidate(s, i', j') ==>
          HasConflict(Candidate(s, i', j'), busy);
      match r2
      case None =>
      case Some(b) =>
        var i2: nat, j2: nat :| IsCandidate(s, i2, j2) && Candidate(s, i2, j2) == b && !HasConflict(b, busy) &&
          forall i': nat, j': nat :: ScannedBefore(i', j', i2, j2) && IsCandidate(s, i', j') ==>
            HasConflict(Candidate(s, i', j'), busy);
        assert !ScannedBefore(i1, j1, i2, j2) && !ScannedBefore(i2, j2, i1, j1);
  }

  /** First fit is earliest in time: with positive length and working hours
      inside one day, no conflict-free candidate starts before the answer. */
  lemma FirstFitIsEarliest(s: Search, busy: seq<TimeSlot>, slot: TimeSlot, i: nat, j: nat)
    requires IsFirstFit(s, busy, Some(slot))
    requires s.durationMs > 0 && s.workEnd <= 24 * 60
    requires IsCandidate(s, i, j) && !HasConflict(Candidate(s, i, j), busy)
    ensures slot.start <= Candidate(s, i, j).start
  {
    var a: nat, b: nat :| IsCandidate(s, a, b) && Candidate(s, a, b) == slot && !HasConflict(slot, busy) &&
      forall i': nat, j': nat :: ScannedBefore(i', j', a, b) && IsCandidate(s, i', j') ==>
        HasConflict(Candidate(s, i', j'), busy);
    if ScannedBefore(a, b, i, j) {
      ScanOrderIsTimeOrder(s, a, b, i, j);
    } else if !ScannedBefore(i, j, a, b) {
      assert i == a && j == b;
    }
  }

  /** A Monday at 08:00 (the epoch is a Thursday, so day 4 is a Monday), work
      hours 09:00 to 17:00 on weekdays, a task of the given minutes, a 14-day horizon. */
  function MondayMorningSearch(minutes: int): Search
  {
    Search(4 * DayMs, 18 * DayMs, 4 * DayMs + 8 * HourMs, minutes * MinuteMs, [1, 2, 3, 4, 5], 9 * 60, 17 * 60)
  }

  /** On an empty calendar the task goes at the start of the working hours. */
  lemma EmptyCalendarExample(minutes: int, r: Option<TimeSlot>)
    requires 0 < minutes <= 8 * 60
    requires IsFirstFit(MondayMorningSearch(minutes), [], r)
    ensures r == Some(TimeSlot(4 * DayMs + 9 * HourMs, 4 * DayMs + 9 * HourMs + minutes * MinuteMs))
  {
    var s := MondayMorningSearch(minutes);
    assert IsCandidate(s, 0, 0);
    assert IsFirstFit(s, [], Some(Candidate(s, 0, 0)));
    FirstFitUnique(s, [], r, Some(Candidate(s, 0, 0)));
  }

  /** With 09:00 to 10:00 busy, the task goes right after it, at 10:00: the
      candidates from 09:00 to 09:45 overlap, and touching at 10:00 is allowed. */
  lemma BusyMorningExample(minutes: int, r: Option<TimeSlot>)
    requires 0 < minutes <= 7 * 60
    requires IsFirstFit(MondayMorningSearch(minutes), [TimeSlot(4 * DayMs + 9 * HourMs, 4 * DayMs + 10 * HourMs)], r)
    ensures r == Some(TimeSlot(4 * DayMs + 10 * HourMs, 4 * DayMs + 10 * HourMs + minutes * MinuteMs))
  {
    var s := MondayMorningSearch(minutes);
    var busy := [TimeSlot(4 * DayMs + 9 * HourMs, 4 * DayMs + 10 * HourMs)];
    assert IsCandidate(s, 0, 4);
    assert !HasConflict(Candidate(s, 0, 4), busy);
    forall i': nat, j': nat | ScannedBefore(i', j', 0, 4) && IsCandidate(s, i', j')
      ensures HasConflict(Candidate(s, i', j'), busy)
    {
      assert Overlaps(Candidate(s, 0, j'), busy[0]);
    }
    assert IsFirstFit(s, busy, Some(Candidate(s, 0, 4)));
    FirstFitUnique(s, busy, r, Some(Candidate(s, 0, 4)));
  }
}
