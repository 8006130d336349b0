/**
 * The orchestration of one auto-scheduling run (autoScheduleTasks).
 *
 * Storage is not modelled: what the run reads (the tasks, the stored
 * settings, the time blocks in the horizon) is given as arguments, and what it
 * does to storage is returned as the list of calls it makes, in order. The
 * clock is the argument `now`.
 */
module Scheduler {
  import opened Optional
  import opened Time
  import opened TaskOrder
  import opened SlotFinder

  /** The user's settings; the working hours are minutes after midnight. */
  datatype Settings = Settings(workStart: int, workEnd: int, workDays: seq<int>, minBlockMinutes: int)

  /** A calendar entry: a placed task or a habit occurrence. */
  datatype TimeBlock = TimeBlock(title: string, startTime: int, endTime: int, blockType: string,
                                 referenceId: Option<string>, color: string)

  /** The storage operations a run performs. */
  datatype StorageCall =
    | GetTasks
    | GetSettings
    | UpsertSettings(settings: Settings)
    | GetTimeBlocks(rangeStart: int, rangeEnd: int)
    | UpdateTask(id: string, scheduledStart: int, scheduledEnd: int)
    | CreateTimeBlock(block: TimeBlock)

  /** A task and the slot the run gave it. */
  datatype Placement = Placement(task: Task, slot: TimeSlot)

  /** The settings written when none are stored: 09:00 to 17:00, Monday to Friday. */
  const DefaultSettings: Settings := Settings(9 * 60, 17 * 60, [1, 2, 3, 4, 5], 15)

  /** The run searches today and the 13 days after it. */
  const HorizonDays: int := 14

  function EffectiveSettings(stored: Option<Settings>): Settings
  {
    if stored.None? then DefaultSettings else stored.value
  }

  /** The findAvailableSlot arguments for one task of the run started at now. */
  function SearchFor(task: Task, settings: Settings, now: int): Search
  {
    var today := StartOfDay(now);
    Search(today, AddDays(today, HorizonDays), now, task.duration * MinuteMs,
           settings.workDays, settings.workStart, settings.workEnd)
  }

  function BusyOf(blocks: seq<TimeBlock>): seq<TimeSlot>
  {
    seq(|blocks|, k requires 0 <= k < |blocks| => TimeSlot(blocks[k].startTime, blocks[k].endTime))
  }

  function SlotsOf(ps: seq<Placement>): seq<TimeSlot>
  {
    seq(|ps|, k requires 0 <= k < |ps| => ps[k].slot)
  }

  /** The placements of a run: each task of the work list that got a slot, in
      work-list order. */
  function Placements(work: seq<Task>, outcomes: seq<Option<TimeSlot>>): seq<Placement>
    requires |work| == |outcomes|
  {
    if work == [] then []
    else
      var n := |work| - 1;
      Placements(work[..n], outcomes[..n]) +
      (if outcomes[n].Some? then [Placement(work[n], outcomes[n].value)] else [])
  }

  /** The two writes that commit one placement. */
  function Commit(p: Placement): seq<StorageCall>
  {
    [UpdateTask(p.task.id, p.slot.start, p.slot.end),
     CreateTimeBlock(TimeBlock(p.task.title, p.slot.start, p.slot.end, "task", Some(p.task.id), p.task.color))]
  }

  function CommitAll(ps: seq<Placement>): seq<StorageCall>
  {
    if ps == [] then [] else CommitAll(ps[..|ps| - 1]) + Commit(ps[|ps| - 1])
  }

  /** The calls made before the first placement of a run with a non-empty work list. */
  function SetupCalls(stored: Option<Settings>, now: int): seq<StorageCall>
  {
    [GetTasks, GetSettings] +
    (if stored.None? then [UpsertSettings(DefaultSettings)] else []) +
    [GetTimeBlocks(StartOfDay(now), AddDays(StartOfDay(now), HorizonDays))]
  }

  /** What one run does: task k of the work list gets the first fit among the
      initial busy intervals and the slots of the tasks placed before it, or
      nothing when there is none. */
  ghost predicate IsRun(work: seq<Task>, settings: Settings, now: int, busy: seq<TimeSlot>,
                        outcomes: seq<Option<TimeSlot>>)
  {
    |outcomes| == |work| &&
    forall k :: 0 <= k < |work| ==>
      IsFirstFit(SearchFor(work[k], settings, now), busy + SlotsOf(Placements(work[..k], outcomes[..k])), outcomes[k])
  }

  /** autoScheduleTasks. The ghost result `outcomes` says, for each task of the
      work list in order, which slot it got, if any. */
  method AutoScheduleTasks(allTasks: seq<Task>, storedSettings: Option<Settings>,
                           existingBlocks: seq<TimeBlock>, now: int)
    returns (calls: seq<StorageCall>, placements: seq<Placement>, ghost outcomes: seq<Option<TimeSlot>>)
    ensures SelectTasks(allTasks) == [] ==> calls == [GetTasks] && placements == []
    ensures SelectTasks(allTasks) != [] ==> calls == SetupCalls(storedSettings, now) + CommitAll(placements)
    ensures IsRun(SelectTasks(allTasks), EffectiveSettings(storedSettings), now, BusyOf(existingBlocks), outcomes)
    ensures placements == Placements(SelectTasks(allTasks), outcomes)
    ensures forall p :: p in placements ==> p.task in allTasks && Eligible(p.task)
    ensures forall a, b :: 0 <= a < b < |placements| ==> !Overlaps(placements[a].slot, placements[b].slot)
    ensures forall a, x :: 0 <= a < |placements| && x in existingBlocks ==>
      !Overlaps(placements[a].slot, TimeSlot(x.startTime, x.endTime))
  {
    calls := [GetTasks];
    placements := [];
    outcomes := [];
    var work := SelectTasks(allTasks);
    if |work| == 0 {
      return;
    }
    calls := calls + [GetSettings];
    var settings: Settings;
    if storedSettings.None? {
      settings := DefaultSettings;
      calls := calls + [UpsertSettings(DefaultSettings)];
    } else {
      settings := storedSettings.value;
    }
    var today := StartOfDay(now);
    var scheduleEnd := AddDays(today, HorizonDays);
    calls := calls + [GetTimeBlocks(today, scheduleEnd)];
    assert calls == SetupCalls(storedSettings, now);
    var commits;
    commits, placements, outcomes := PlaceTasks(work, settings, now, BusyOf(existingBlocks));
    calls := calls + commits;
    RunNoOverlap(work, settings, now, BusyOf(existingBlocks), outcomes);
    PlacedTasksFromWork(work, outcomes);
    forall x | x in existingBlocks
      ensures TimeSlot(x.startTime, x.endTime) in BusyOf(existingBlocks)
    {
      var k :| 0 <= k < |existingBlocks| && existingBlocks[k] == x;
      assert BusyOf(existingBlocks)[k] == TimeSlot(x.startTime, x.endTime);
    }
  }

  /** The placement loop of autoScheduleTasks: each task in turn gets the first
      fit, is committed, and becomes busy for the tasks after it. */
  method PlaceTasks(work: seq<Task>, settings: Settings, now: int, busy: seq<TimeSlot>)
    returns (commits: seq<StorageCall>, placements: seq<Placement>, ghost outcomes: seq<Option<TimeSlot>>)
    ensures IsRun(work, settings, now, busy, outcomes)
    ensures placements == Placements(work, outcomes)
    ensures commits == CommitAll(placements)
  {
    var today := StartOfDay(now);
    var scheduleEnd := AddDays(today, HorizonDays);
    var busySlots := busy;
    commits, placements, outcomes := [], [], [];
    for k := 0 to |work|
      invariant IsRun(work[..k], settings, now, busy, outcomes)
      invariant placements == Placements(work[..k], outcomes)
      invariant busySlots == busy + SlotsOf(placements)
      invariant commits == CommitAll(placements)
    {
      var task := work[k];
      var slot := FindAvailableSlot(Search(today, scheduleEnd, now, task.duration * MinuteMs,
                                           settings.workDays, settings.workStart, settings.workEnd), busySlots);
      RunStep(work, k, settings, now, busy, outcomes, slot);
      PlacementStep(work, k, outcomes, slot);
      if slot.Some? {
        var p := Placement(task, slot.value);
        CommitStep(placements, p);
        commits := commits + Commit(p);
        placements := placements + [p];
        busySlots := busySlots + [slot.value];
      }
      outcomes := outcomes + [slot];
    }
    assert work[..|work|] == work;
  }

  /** One iteration of the run's loop extends the run by one task. */
  lemma RunStep(work: seq<Task>, k: nat, settings: Settings, now: int, busy: seq<TimeSlot>,
                outcomes: seq<Option<TimeSlot>>, slot: Option<TimeSlot>)
    requires k < |work|
    requires IsRun(work[..k], settings, now, busy, outcomes)
    requires IsFirstFit(SearchFor(work[k], settings, now), busy + SlotsOf(Placements(work[..k], outcomes)), slot)
    ensures IsRun(work[..k + 1], settings, now, busy, outcomes + [slot])
  {
    var w, o := work[..k + 1], outcomes + [slot];
    assert w[..k] == work[..k] && o[..k] == outcomes;
    forall k' | 0 <= k' < k + 1
      ensures IsFirstFit(SearchFor(w[k'], settings, now), busy + SlotsOf(Placements(w[..k'], o[..k'])), o[k'])
    {
      if k' < k {
        assert w[..k'] == work[..k][..k'] && o[..k'] == outcomes[..k'];
      }
    }
  }

  /** The placements and busy slots after one more task. */
  lemma PlacementStep(work: seq<Task>, k: nat, outcomes: seq<Option<TimeSlot>>, slot: Option<TimeSlot>)
    requires k < |work| && |outcomes| == k
    ensures Placements(work[..k + 1], outcomes + [slot]) ==
      Placements(work[..k], outcomes) + (if slot.Some? then [Placement(work[k], slot.value)] else [])
    ensures slot.Some? ==>
      SlotsOf(Placements(work[..k], outcomes) + [Placement(work[k], slot.value)]) ==
      SlotsOf(Placements(work[..k], outcomes)) + [slot.value]
  {
    var w, o := work[..k + 1], outcomes + [slot];
    assert w[..k] == work[..k] && o[..k] == outcomes;
    if slot.Some? {
      var ps := Placements(work[..k], outcomes);
      assert (ps + [Placement(work[k], slot.value)])[..|ps|] == ps;
    }
  }

  lemma CommitStep(ps: seq<Placement>, p: Placement)
    ensures CommitAll(ps + [p]) == CommitAll(ps) + Commit(p)
  {
    assert (ps + [p])[..|ps|] == ps;
  }

  lemma {:induction false} PlacedTasksFromWork(work: seq<Task>, outcomes: seq<Option<TimeSlot>>)
    requires |work| == |outcomes|
    ensures forall p :: p in Placements(work, outcomes) ==> p.task in work
  {
    if work != [] {
      var n := |work| - 1;
      PlacedTasksFromWork(work[..n], outcomes[..n]);
    }
  }

  /** A run never double-books: its placements overlap neither each other nor
      any interval that was busy when it started. */
  lemma {:induction false} RunNoOverlap(work: seq<Task>, settings: Settings, now: int,
                                        busy: seq<TimeSlot>, outcomes: seq<Option<TimeSlot>>)
    requires IsRun(work, settings, now, busy, outcomes)
    ensures forall a, b :: 0 <= a < b < |Placements(work, outcomes)| ==>
      !Overlaps(Placements(work, outcomes)[a].slot, Placements(work, outcomes)[b].slot)
    ensures forall a, x :: 0 <= a < |Placements(work, outcomes)| && x in busy ==>
      !Overlaps(Placements(work, outcomes)[a].slot, x)
  {
    if work != [] {
      var n := |work| - 1;
      var w', o' := work[..n], outcomes[..n];
      assert IsRun(w', settings, now, busy, o') by {
        forall k | 0 <= k < n
          ensures IsFirstFit(SearchFor(w'[k], settings, now), busy + SlotsOf(Placements(w'[..k], o'[..k])), o'[k])
        {
          assert w'[..k] == work[..k] && o'[..k] == outcomes[..k];
        }
      }
      RunNoOverlap(w', settings, now, busy, o');
      var earlier := Placements(w', o');
      if outcomes[n].Some? {
        var slot := outcomes[n].value;
        assert IsFirstFit(SearchFor(work[n], settings, now), busy + SlotsOf(earlier), outcomes[n]);
        var ps := Placements(work, outcomes);
        assert ps == earlier + [Placement(work[n], slot)];
        FirstFitIsFree(SearchFor(work[n], settings, now), busy + SlotsOf(earlier), slot);
        forall a | 0 <= a < |earlier|
          ensures !Overlaps(earlier[a].slot, slot)
        {
          assert (busy + SlotsOf(earlier))[|busy| + a] == earlier[a].slot;
          assert earlier[a].slot in busy + SlotsOf(earlier);
          assert !Overlaps(slot, earlier[a].slot);
        }
        forall x | x in busy
          ensures !Overlaps(slot, x)
        {
          assert x in busy + SlotsOf(earlier);
        }
      }
    }
  }

  /** The writes of a run: for each placement, in order, exactly one task
      update with the slot and one "task" block that refers to the task. */
  lemma {:induction false} CommitAllShape(ps: seq<Placement>)
    ensures |CommitAll(ps)| == 2 * |ps|
    ensures forall a :: 0 <= a < |ps| ==>
      CommitAll(ps)[2 * a] == UpdateTask(ps[a].task.id, ps[a].slot.start, ps[a].slot.end) &&
      CommitAll(ps)[2 * a + 1].CreateTimeBlock? &&
      CommitAll(ps)[2 * a + 1].block.blockType == "task" &&
      CommitAll(ps)[2 * a + 1].block.referenceId == Some(ps[a].task.id) &&
      CommitAll(ps)[2 * a + 1].block.startTime == ps[a].slot.start &&
      CommitAll(ps)[2 * a + 1].block.endTime == ps[a].slot.end
  {
    if ps != [] {
      CommitAllShape(ps[..|ps| - 1]);
    }
  }

  /** Every placement of a run is a slot of the task's length that starts no
      earlier than the minute the run started in and, when the working hours
      end by midnight, ends within the 14-day horizon. */
  lemma {:induction false} RunWithinHorizon(work: seq<Task>, settings: Settings, now: int,
                                            busy: seq<TimeSlot>, outcomes: seq<Option<TimeSlot>>)
    requires IsRun(work, settings, now, busy, outcomes)
    requires settings.workEnd <= 24 * 60
    ensures forall p :: p in Placements(work, outcomes) ==>
      p.slot.end - p.slot.start == p.task.duration * MinuteMs &&
      StartOfMinute(now) <= p.slot.start &&
      p.slot.end <= AddDays(StartOfDay(now), HorizonDays)
  {
    if work != [] {
      var n := |work| - 1;
      var w', o' := work[..n], outcomes[..n];
      assert IsRun(w', settings, now, busy, o') by {
        forall k | 0 <= k < n
          ensures IsFirstFit(SearchFor(w'[k], settings, now), busy + SlotsOf(Placements(w'[..k], o'[..k])), o'[k])
        {
          assert w'[..k] == work[..k] && o'[..k] == outcomes[..k];
        }
      }
      RunWithinHorizon(w', settings, now, busy, o');
      if outcomes[n].Some? {
        var search := SearchFor(work[n], settings, now);
        assert IsFirstFit(search, busy + SlotsOf(Placements(w', o')), outcomes[n]);
        var i: nat, j: nat :| IsCandidate(search, i, j) && Candidate(search, i, j) == outcomes[n].value;
        CandidateInWorkHours(search, i, j);
        CandidateNotBeforeNow(search, i, j);
        ShiftByDays(StartOfDay(now), HorizonDays);
        CandidateWithinHorizon(search, i, j);
      }
    }
  }

  /** Two one-hour tasks without deadlines, "high" first in the input and
      "critical" second, run on an empty calendar on a Monday at 08:00 with the
      default settings: the critical one gets 09:00 to 10:00 and the high one
      the hour after it. */
  lemma PriorityOrderExample(outcomes: seq<Option<TimeSlot>>)
    requires IsRun(SelectTasks([ExampleHigh(), ExampleCritical()]), DefaultSettings,
                   4 * DayMs + 8 * HourMs, [], outcomes)
    ensures Placements(SelectTasks([ExampleHigh(), ExampleCritical()]), outcomes) ==
      [Placement(ExampleCritical(), TimeSlot(4 * DayMs + 9 * HourMs, 4 * DayMs + 10 * HourMs)),
       Placement(ExampleHigh(), TimeSlot(4 * DayMs + 10 * HourMs, 4 * DayMs + 11 * HourMs))]
  {
    ExampleSelection();
    ExampleRun(outcomes);
  }

  lemma ExampleSelection()
    ensures SelectTasks([ExampleHigh(), ExampleCritical()]) == [ExampleCritical(), ExampleHigh()]
  {
    ExampleFilter();
    ExampleSort();
  }

  lemma ExampleFilter()
    ensures Unscheduled([ExampleHigh(), ExampleCritical()]) == [ExampleHigh(), ExampleCritical()]
  {
  }

  lemma ExampleSort()
    ensures SortTasks([ExampleHigh(), ExampleCritical()]) == [ExampleCritical(), ExampleHigh()]
  {
    var x, y := ExampleHigh(), ExampleCritical();
    assert SortTasks([y]) == [y];
    assert Compare(x, y) > 0;
    assert Insert(x, [y]) == [y, x];
  }

  lemma ExampleRun(outcomes: seq<Option<TimeSlot>>)
    requires IsRun([ExampleCritical(), ExampleHigh()], DefaultSettings, 4 * DayMs + 8 * HourMs, [], outcomes)
    ensures Placements([ExampleCritical(), ExampleHigh()], outcomes) ==
      [Placement(ExampleCritical(), TimeSlot(4 * DayMs + 9 * HourMs, 4 * DayMs + 10 * HourMs)),
       Placement(ExampleHigh(), TimeSlot(4 * DayMs + 10 * HourMs, 4 * DayMs + 11 * HourMs))]
  {
    var x, y := ExampleHigh(), ExampleCritical();
    var work := [y, x];
    var now := 4 * DayMs + 8 * HourMs;
    assert StartOfDay(now) == 4 * DayMs by {
      DayOf(4, 8 * HourMs);
    }
    assert SearchFor(y, DefaultSettings, now) == MondayMorningSearch(60);
    assert SearchFor(x, DefaultSettings, now) == MondayMorningSearch(60);
    assert work[..0] == [] && outcomes[..0] == [];
    assert IsFirstFit(MondayMorningSearch(60), [] + SlotsOf([]), outcomes[0]);
    EmptyCalendarExample(60, outcomes[0]);
    var first := TimeSlot(4 * DayMs + 9 * HourMs, 4 * DayMs + 10 * HourMs);
    var second := TimeSlot(4 * DayMs + 10 * HourMs, 4 * DayMs + 11 * HourMs);
    assert work[..1] == [y] && outcomes[..1] == [Some(first)];
    assert Placements([y], [Some(first)]) == [Placement(y, first)];
    assert IsFirstFit(MondayMorningSearch(60), [] + SlotsOf([Placement(y, first)]), outcomes[1]);
    assert [] + SlotsOf([Placement(y, first)]) == [first];
    BusyMorningExample(60, outcomes[1]);
    assert Placements(work, outcomes) == Placements([y], [Some(first)]) + [Placement(x, second)];
  }

  function ExampleHigh(): Task
  {
    Task("x", "Write report", "high", 60, None, None, None, "todo", "#3B82F6")
  }

  function ExampleCritical(): Task
  {
    Task("y", "Fix outage", "critical", 60, None, None, None, "todo", "#EF4444")
  }
}
