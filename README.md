# Auto-scheduler of a personal time-management dashboard, in Dafny

This project models the one algorithmic part of the dashboard: the greedy
auto-scheduler that places unscheduled tasks into free time on the calendar,
and the small time arithmetic the weekly calendar view uses.

- **Task selection** (`TaskOrder`): keep the tasks that are not done and have no
  `scheduledStart`, then sort them stably by priority rank (critical 0, high 1,
  medium 2, low 3, any other ordinary name 2) and, within a rank, tasks with a deadline
  first, earliest deadline first. The sort is modelled as an insertion sort.
  `StableSortUnique` proves that a stable sort by this comparator has only one
  possible result, so any engine's stable sort gives the same list.
- **Slot finder** (`SlotFinder`): `FindAvailableSlot` is the nested `while`
  loop of the source. The outer loop walks the cursor one calendar day at a
  time. The inner loop tries 15-minute steps inside the working hours. The
  method is proved against `IsFirstFit`. That predicate names every candidate
  by its day index `i` and grid step `j` and says:
  - the answer is the first examined candidate without a conflict, or
  - the answer is `None` when every examined candidate conflicts.
  Lemmas derive the rest: the slot's length, containment in a work day's
  hours, the quarter-hour grid, not before the clock, within the horizon,
  uniqueness of the answer, and that it is the earliest free candidate in time.
- **Orchestration** (`Scheduler`): `AutoScheduleTasks` is the run. Storage reads
  (tasks, stored settings, existing time blocks) are arguments. Storage calls
  are returned as an ordered log. The placement loop `PlaceTasks` appends each
  placed slot to the busy list, so later tasks avoid it. `IsRun` specifies a
  run task by task. `RunNoOverlap` proves that a run never double-books.
- **Calendar arithmetic** (`DateUtils`): `getWeekDays`, `timeToPosition` and
  `positionToTime`, with JavaScript's `Math.round` and sign-of-dividend `%`.

Time is modelled as integer milliseconds since a local midnight that begins a
Thursday (as 1 January 1970 does), with fixed 24-hour days (module `Time`).
Milliseconds rather than minutes keep the clamp's clearing of seconds visible.
Working hours are minutes after midnight. The clock reading is the parameter
`now`.

Three behaviours of the code are easy to miss:

- Placements are guaranteed to be on a quarter-hour boundary only when the
  search origin was clamped to the clock, or when `workStart` is itself a
  quarter hour. Otherwise they are at `workStart + 15k` minutes. So a
  `workStart` such as 09:10 gives 09:10, 09:25, ... (`CandidateOnGrid`).
- "Never in the past" holds only to the minute. The clamp clears seconds, so
  a slot can start up to 59.999 s before `now` (`CandidateNotBeforeNow`).
- Placements are guaranteed to end within the 14-day horizon only when the
  working hours end by midnight (`CandidateWithinHorizon`, `RunWithinHorizon`).
  With later hours, a slot on the horizon's last day can end past it.

## Model

| member | source | states |
|---|---|---|
| `Time.StartOfDay` | server/scheduler.ts:105 | startOfDay is the midnight at or before t, less than a day before it |
| `Time.StartOfMinute` | server/scheduler.ts:116 | clearing seconds and milliseconds gives the whole minute at or before t |
| `Time.FloorToMinute` | server/scheduler.ts:112-117 | helper for the clamp's proofs (`OriginBounds`, `CandidateNotBeforeNow`), not a model of these lines: a whole minute not after c is not after the start of c's minute |
| `Time.DayOf` | server/scheduler.ts:46 | helper that computes `today` in the example run (`ExampleRun`), not a model of this line: an instant t into day d has that day's midnight as its start of day |
| `Time.Weekday` | server/scheduler.ts:103 | getDay: a weekday number from 0 (Sunday) to 6 |
| `Time.WeekdayOfDay` | server/scheduler.ts:103 | every instant of a day has the weekday of its midnight, and the next day has the next weekday (mod 7) |
| `TaskOrder.PriorityRank` | server/scheduler.ts:14-21 | critical, high and low rank 0, 1 and 3; every other priority ranks 2, which the source does only for names that Object.prototype does not supply (see "## Left out") |
| `TaskOrder.Compare` | server/scheduler.ts:13-28 | the comparator as written (rank difference, then deadline difference, a deadline before none, else 0): negative exactly when b may not go before a, positive exactly when a may not go before b |
| `TaskOrder.CompareMeaning` | server/scheduler.ts:13-28 | the comparator is non-positive exactly when a is lower rank, or same rank and (b has no deadline or a's is no later); it is antisymmetric; it is zero exactly for same rank and same deadline |
| `TaskOrder.CompareTransitive` | server/scheduler.ts:13-28 | the comparator's order is transitive |
| `TaskOrder.Unscheduled` | server/scheduler.ts:11-12 | the kept tasks are exactly those not done and without scheduledStart, with their multiplicities |
| `TaskOrder.UnscheduledAppend` | server/scheduler.ts:11-12 | the filter keeps input order: filtering a concatenation is the concatenation of the filtered parts |
| `TaskOrder.UnscheduledByClass` | server/scheduler.ts:11-12 | within each comparator class, the kept tasks are that class's eligible tasks in input order |
| `TaskOrder.Insert` | server/scheduler.ts:13-28 | inserting keeps a sorted list sorted, adds exactly one task, and puts it before the tasks of its own class |
| `TaskOrder.SortTasks` | server/scheduler.ts:13-28 | the sorted list is ordered by the comparator, is a permutation of the input, and keeps the input order within each class |
| `TaskOrder.SelectTasks` | server/scheduler.ts:10-28 | the work list holds exactly the eligible tasks; it is ordered by rank, then deadline-first and ascending deadline; within each class the tasks are that class's eligible tasks in the order of allTasks |
| `TaskOrder.StableSortUnique` | server/scheduler.ts:13-28 | two sorted lists with the same tasks in the same order within every class are equal: the stable sort's result is unique |
| `SlotFinder.NextDay` | server/scheduler.ts:105 | the cursor moves to the first midnight strictly after it, at most a day later |
| `SlotFinder.RoundUpToQuarter` | server/scheduler.ts:112-117 | the clamp gives the first quarter hour at or after the start of the cursor's minute; minute 60 carries into the next hour |
| `SlotFinder.FindAvailableSlot` | server/scheduler.ts:89-139 | the result is the first examined candidate free of conflict, or null when every examined candidate conflicts; both loops terminate |
| `SlotFinder.FirstFitIsFree` | server/scheduler.ts:121-130 | a returned slot has the task's length and overlaps no busy interval under the strict test |
| `SlotFinder.CursorIncreasing` | server/scheduler.ts:102-107 | the cursor strictly increases from one outer iteration to the next |
| `SlotFinder.CursorIsDay` | server/scheduler.ts:100-136 | after the first iteration the cursor is the midnight i days after the starting day |
| `SlotFinder.CursorAfterHorizon` | server/scheduler.ts:102-138 | once the cursor reaches rangeEnd no later day is examined |
| `SlotFinder.OriginBounds` | server/scheduler.ts:109-119 | the first candidate of a day is not before workStart and not before the cursor's minute |
| `SlotFinder.CandidateInWorkHours` | server/scheduler.ts:103-122 | a candidate lies in a work day's [workStart, workEnd], has the task's length, and exists only if the task fits in the working hours |
| `SlotFinder.CandidateNotBeforeNow` | server/scheduler.ts:100-119 | no candidate starts before the minute of max(rangeStart, now) |
| `SlotFinder.CandidateOnGrid` | server/scheduler.ts:112-132 | on the clamped path a candidate is on a quarter hour; otherwise it is at workStart + 15 min × j |
| `SlotFinder.NoRoomNoSlot` | server/scheduler.ts:121-138 | a task longer than workEnd - workStart always gets null |
| `SlotFinder.CandidateWithinHorizon` | server/scheduler.ts:102-121 | with working hours ending by midnight and rangeEnd a midnight, a candidate ends by rangeEnd |
| `SlotFinder.ScanOrderIsTimeOrder` | server/scheduler.ts:102-135 | for positive lengths and hours ending by midnight, the scan tries candidates in increasing start time |
| `SlotFinder.FirstFitUnique` | server/scheduler.ts:119-135 | the first-fit specification admits exactly one answer |
| `SlotFinder.FirstFitIsEarliest` | server/scheduler.ts:119-135 | no conflict-free candidate starts earlier than the returned slot |
| `SlotFinder.EmptyCalendarExample` | server/scheduler.ts:100-129 | on an empty calendar, Monday 08:00, hours 09:00-17:00, the task is placed at 09:00 |
| `SlotFinder.BusyMorningExample` | server/scheduler.ts:119-132 | with 09:00-10:00 busy the task is placed at 10:00, touching the busy block |
| `Scheduler.AutoScheduleTasks` | server/scheduler.ts:9-87 | an empty work list makes only the task read; otherwise the run reads settings (writing defaults when absent) and blocks, then commits each placement; placements are eligible tasks, pairwise disjoint and disjoint from the existing blocks |
| `Scheduler.PlaceTasks` | server/scheduler.ts:55-86 | each task gets the first fit among the initial busy slots plus the earlier placements; the writes are exactly the placements' commits |
| `Scheduler.RunNoOverlap` | server/scheduler.ts:55-86 | the placements of a run overlap neither each other nor the initial busy slots |
| `Scheduler.CommitAllShape` | server/scheduler.ts:69-85 | per placement, in order, one task update with the slot and one "task" block referring to the task |
| `Scheduler.RunWithinHorizon` | server/scheduler.ts:46-67 | every placement has the task's length, starts no earlier than the minute of now and ends within today + 14 days |
| `Scheduler.PriorityOrderExample` | server/scheduler.ts:9-86 | critical and high one-hour tasks on an empty Monday: critical at 09:00, high at 10:00 |
| `DateUtils.StartOfWeek` | client/src/lib/date-utils.ts:17 | the Sunday midnight beginning the week that contains the date |
| `DateUtils.GetWeekDays` | client/src/lib/date-utils.ts:16-19 | seven consecutive midnights, weekdays 0 to 6, the first week day at or before the date and the last one covering it |
| `DateUtils.TimeToPosition` | client/src/lib/date-utils.ts:44-48 | minutes from startHour o'clock on the date's day; negative exactly when the hour is before startHour |
| `DateUtils.RoundToQuarters` | client/src/lib/date-utils.ts:53 | Math.round(total/15) is within 7 minutes of total after multiplying by 15 |
| `DateUtils.JsRemainder60` | client/src/lib/date-utils.ts:53 | JavaScript's % 60: a remainder with the dividend's sign |
| `DateUtils.SnappedMinute` | client/src/lib/date-utils.ts:53 | the minute set is 0, 15, 30 or 45 for totals from -7 up, and 0 to -45 below |
| `DateUtils.SetTimeOfDay` | client/src/lib/date-utils.ts:54-55 | setHours then setMinutes keeps the day and its seconds, and carries out-of-range values |
| `DateUtils.PositionToTime` | client/src/lib/date-utils.ts:50-57 | as written (hour from floor(total/60), minute from the snapped, wrapped minute): for totals from -7 up the result is a quarter hour within the hour floor(total/60), keeping the day's seconds; it never moves to the next hour |
| `DateUtils.PositionToTimeCorrected` | client/src/lib/date-utils.ts:50-57 | the instant is the day's midnight plus the quarter hour nearest to the total minutes |
| `DateUtils.PositionToTimeWrapsBack` | client/src/lib/date-utils.ts:50-57 | as written equals corrected, except when the total is 53-59 minutes past an hour: then it is one hour early |
| `DateUtils.PositionToTimeWrapExample` | client/src/lib/date-utils.ts:51-53 | 06:58 on a 06:00 grid gives 06:00, where the corrected version gives 07:00 |
| `DateUtils.PositionRoundTrip` | client/src/lib/date-utils.ts:44-57 | a quarter-hour position within the day converts to a time and back to itself |
| `DateUtils.CorrectedPosition` | client/src/lib/date-utils.ts:44-57 | the corrected conversion stays on the day and converts back to the nearest quarter-hour position |

## Left out

- Storage (server/storage.ts), HTTP routes, the seed data and every React component: reads are arguments, writes are the returned call log.
- Storage failures partway through a run, and two runs at once: these are about I/O and races, not the algorithm.
- Parsing "HH:MM" with `split(":").map(Number)` (server/scheduler.ts:42-43), and NaN from malformed settings: working hours are integer minutes after midnight.
- The `workDays || [1, 2, 3, 4, 5]` fallback (server/scheduler.ts:44): the stored column is never null, so the fallback never applies.
- `minBlockMinutes`: kept in `Settings` but unused, as in the source.
- Time zones, daylight saving, and date-fns beyond the arithmetic above: days are fixed 86 400 000 ms.
- The clock: `Date.now()` is read once per `findAvailableSlot` call in the source. The model uses one `now` for the whole run, and `today` is its day.
- JavaScript number precision: integers are unbounded. Millisecond timestamps are exact in doubles.
- Positions given to `positionToTime` are whole minutes. The source accepts any number.
- `getWeekRange` and the formatting wrappers in client/src/lib/date-utils.ts:21-42: these are library calls with no logic of their own.
- TaskOrder.PriorityRank: ranks every unknown priority 2. The source does so only when the lookup in the object literal gives `undefined` (server/scheduler.ts:20-21). Priority is free text. For a name that Object.prototype supplies, such as "constructor", "toString", "valueOf" or "__proto__", the lookup gives a function or an object, so `?? 2` does not apply. `pA - pB` is then NaN, the sort treats it as 0, and the comparator is inconsistent: the order of such tasks depends on the JavaScript engine. The model does not capture this.
- DateUtils.TimeToPosition and DateUtils.PositionToTime: `startHour` is a required argument. The source defaults it to 6 (client/src/lib/date-utils.ts:44 and :50). The calendar passes its start hour to `timeToPosition`, and `positionToTime` has no caller.
- DateUtils.PositionToTimeWrapsBack: relates the as-written and corrected conversions only when position + 60 × startHour is at least -7. Below that, the sign-of-dividend `%` gives negative minutes. Those positions lie above the grid's first hour.
- SlotFinder.FirstFitIsEarliest: "earliest in time" is proved for positive durations with working hours that end by midnight. Without those assumptions, scan order and time order can differ. Scan-order minimality holds for all inputs (`FindAvailableSlot`).
- Scheduler.RunWithinHorizon: the horizon bound assumes working hours that end by midnight. Later hours can run past the horizon, as in the source.

## Findings

| source | as written | input that shows it | evidently intended | confidence | as-written member | corrected member |
|---|---|---|---|---|---|---|
| client/src/lib/date-utils.ts:51-53 | the hour is `floor(total / 60)` of the unrounded total, while the minute is `round(total / 15) * 15 % 60`; when rounding reaches 60 the minute wraps to 0 and the hour stays | position 58 with startHour 6 (06:58) gives 06:00 | the nearest quarter hour, 07:00: take both hour and minute from the rounded total. The defect is latent: no client file calls `positionToTime`, so the calendar shows no symptom of it | high; not executed | `DateUtils.PositionToTimeWrapExample` | `DateUtils.PositionToTimeCorrected` |
