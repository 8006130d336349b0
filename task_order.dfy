/**
 * The task selector of the auto-scheduler: the filter and the sort comparator
 * at the head of autoScheduleTasks. Tasks that are not done and not yet
 * scheduled are kept and put in priority order (critical, high, medium, low;
 * an unknown priority counts as medium); within one priority, tasks with a
 * deadline come first, earliest deadline first. The sort is stable, so tasks
 * the comparator calls equal keep their input order.
 */
module TaskOrder {
  import opened Optional

  /** A task as stored: times are instants in milliseconds, the duration is in minutes. */
  datatype Task = Task(id: string, title: string, priority: string, duration: int,
                       deadline: Option<int>, scheduledStart: Option<int>,
                       scheduledEnd: Option<int>, status: string, color: string)

  /** The priority rank; any other name ranks as "medium". The names that
      JavaScript's Object.prototype supplies ("constructor", "toString", ...)
      are not modelled: in the object literal they do not give this rank. */
  function PriorityRank(priority: string): (r: int)
    ensures 0 <= r <= 3
    ensures r == 0 <==> priority == "critical"
    ensures r == 1 <==> priority == "high"
    ensures r == 3 <==> priority == "low"
  {
    if priority == "critical" then 0
    else if priority == "high" then 1
    else if priority == "medium" then 2
    else if priority == "low" then 3
    else 2
  }

  /** The comparator as written: negative when a goes first, positive when b
      goes first, zero when it does not matter. */
  function Compare(a: Task, b: Task): (r: int)
    ensures r < 0 <==> !GoesNoLaterThan(b, a)
    ensures r > 0 <==> !GoesNoLaterThan(a, b)
  {
    var pA, pB := PriorityRank(a.priority), PriorityRank(b.priority);
    if pA != pB then pA - pB
    else if a.deadline.Some? && b.deadline.Some? then a.deadline.value - b.deadline.value
    else if a.deadline.Some? then -1
    else if b.deadline.Some? then 1
    else 0
  }

  /** The order the comparator describes, in words: lower rank first; within a
      rank, a task with a deadline before one without, earlier deadline first. */
  predicate GoesNoLaterThan(a: Task, b: Task)
  {
    var pA, pB := PriorityRank(a.priority), PriorityRank(b.priority);
    pA < pB ||
    (pA == pB && (b.deadline.None? || (a.deadline.Some? && a.deadline.value <= b.deadline.value)))
  }

  /** The comparator agrees with that order, is antisymmetric, and calls two
      tasks equal exactly when they have the same rank and the same deadline. */
  lemma CompareMeaning(a: Task, b: Task)
    ensures Compare(a, b) <= 0 <==> GoesNoLaterThan(a, b)
    ensures Compare(a, b) == -Compare(b, a)
    ensures Compare(a, b) == 0 <==>
      PriorityRank(a.priority) == PriorityRank(b.priority) && a.deadline == b.deadline
  {
  }

  lemma CompareTransitive(a: Task, b: Task, c: Task)
    requires Compare(a, b) <= 0 && Compare(b, c) <= 0
    ensures Compare(a, c) <= 0
  {
    CompareMeaning(a, b);
    CompareMeaning(b, c);
    CompareMeaning(a, c);
  }

  predicate Eligible(t: Task)
  {
    t.status != "done" && t.scheduledStart.None?
  }

  /** allTasks.filter(t => t.status !== "done" && !t.scheduledStart) */
  function Unscheduled(tasks: seq<Task>): (r: seq<Task>)
    ensures forall t :: t in r <==> t in tasks && Eligible(t)
    ensures forall t :: multiset(r)[t] == if Eligible(t) then multiset(tasks)[t] else 0
  {
    if tasks == [] then []
    else
      assert tasks == [tasks[0]] + tasks[1..];
      (if Eligible(tasks[0]) then [tasks[0]] else []) + Unscheduled(tasks[1..])
  }

  /** The filter keeps the order of its input: filtering a concatenation
      filters each part. */
  lemma {:induction false} UnscheduledAppend(a: seq<Task>, b: seq<Task>)
    ensures Unscheduled(a + b) == Unscheduled(a) + Unscheduled(b)
  {
    if a == [] {
      assert a + b == b;
    } else {
      assert (a + b)[0] == a[0] && (a + b)[1..] == a[1..] + b;
      UnscheduledAppend(a[1..], b);
    }
  }

  /** Within one class of the comparator, the kept tasks are those of the class
      that the filter keeps, in the order of the input. */
  lemma {:induction false} UnscheduledByClass(s: seq<Task>, rank: int, deadline: Option<int>)
    ensures SameKey(Unscheduled(s), rank, deadline) == Unscheduled(SameKey(s, rank, deadline))
  {
    if s != [] {
      var h := if Eligible(s[0]) then [s[0]] else [];
      var k := if PriorityRank(s[0].priority) == rank && s[0].deadline == deadline then [s[0]] else [];
      SameKeyAppend(h, Unscheduled(s[1..]), rank, deadline);
      UnscheduledAppend(k, SameKey(s[1..], rank, deadline));
      SameKeyClass(h, rank, deadline);
      UnscheduledClass(k);
      UnscheduledByClass(s[1..], rank, deadline);
    }
  }

  lemma SameKeyClass(h: seq<Task>, rank: int, deadline: Option<int>)
    requires |h| <= 1
    ensures SameKey(h, rank, deadline) ==
      if h != [] && PriorityRank(h[0].priority) == rank && h[0].deadline == deadline then h else []
  {
    if h != [] {
      assert h[1..] == [];
    }
  }

  lemma UnscheduledClass(k: seq<Task>)
    requires |k| <= 1
    ensures Unscheduled(k) == if k != [] && Eligible(k[0]) then k else []
  {
    if k != [] {
      assert k[1..] == [];
    }
  }

  predicate Sorted(s: seq<Task>)
  {
    forall i, j :: 0 <= i < j < |s| ==> Compare(s[i], s[j]) <= 0
  }

  /** The tasks of s in one equivalence class of the comparator (one rank and
      one deadline), in the order s has them. */
  function SameKey(s: seq<Task>, rank: int, deadline: Option<int>): seq<Task>
  {
    if s == [] then []
    else
      (if PriorityRank(s[0].priority) == rank && s[0].deadline == deadline then [s[0]] else [])
      + SameKey(s[1..], rank, deadline)
  }

  /** The first task of s is the first of its class. */
  lemma SameKeyHead(s: seq<Task>)
    requires s != []
    ensures SameKey(s, PriorityRank(s[0].priority), s[0].deadline)
      == [s[0]] + SameKey(s[1..], PriorityRank(s[0].priority), s[0].deadline)
  {
  }

  lemma {:induction false} SameKeyMembers(s: seq<Task>, t: Task)
    requires t in SameKey(s, PriorityRank(t.priority), t.deadline)
    ensures t in s
  {
    if s != [] && t != s[0] {
      SameKeyMembers(s[1..], t);
    }
  }

  lemma {:induction false} SameKeyAppend(a: seq<Task>, b: seq<Task>, rank: int, deadline: Option<int>)
    ensures SameKey(a + b, rank, deadline) == SameKey(a, rank, deadline) + SameKey(b, rank, deadline)
  {
    if a == [] {
      assert a + b == b;
    } else {
      assert (a + b)[1..] == a[1..] + b;
      SameKeyAppend(a[1..], b, rank, deadline);
    }
  }

  /** Inserts t before the first element it does not sort after. */
  function Insert(t: Task, s: seq<Task>): (r: seq<Task>)
    ensures multiset(r) == multiset(s) + multiset{t}
    ensures Sorted(s) ==> Sorted(r)
    ensures forall rank, deadline ::
      SameKey(r, rank, deadline) == SameKey([t], rank, deadline) + SameKey(s, rank, deadline)
  {
    if s == [] then [t]
    else if Compare(t, s[0]) <= 0 then
      assert [t] + s == [t] + s[..0] + s;
      InsertFrontSorted(t, s);
      [t] + s
    else
      var rest := Insert(t, s[1..]);
      assert s == [s[0]] + s[1..];
      InsertLaterSorted(t, s, rest);
      InsertLaterKeys(t, s, rest);
      [s[0]] + rest
  }

  lemma InsertFrontSorted(t: Task, s: seq<Task>)
    requires s != [] && Compare(t, s[0]) <= 0
    ensures Sorted(s) ==> Sorted([t] + s)
    ensures forall rank, deadline ::
      SameKey([t] + s, rank, deadline) == SameKey([t], rank, deadline) + SameKey(s, rank, deadline)
  {
    if Sorted(s) {
      forall j | 0 < j < |[t] + s|
        ensures Compare(t, ([t] + s)[j]) <= 0
      {
        if j > 1 { CompareTransitive(t, s[0], s[j - 1]); }
      }
    }
    forall rank, deadline
      ensures SameKey([t] + s, rank, deadline) == SameKey([t], rank, deadline) + SameKey(s, rank, deadline)
    {
      SameKeyAppend([t], s, rank, deadline);
    }
  }

  lemma InsertLaterSorted(t: Task, s: seq<Task>, rest: seq<Task>)
    requires s != [] && Compare(t, s[0]) > 0
    requires multiset(rest) == multiset(s[1..]) + multiset{t}
    requires Sorted(s[1..]) ==> Sorted(rest)
    ensures Sorted(s) ==> Sorted([s[0]] + rest)
  {
    if Sorted(s) {
      forall j | 0 <= j < |rest|
        ensures Compare(s[0], rest[j]) <= 0
      {
        assert rest[j] in multiset(rest);
        if rest[j] == t {
          CompareMeaning(t, s[0]);
        } else {
          assert rest[j] in multiset(s[1..]);
          var k :| 0 <= k < |s[1..]| && s[1..][k] == rest[j];
          assert s[k + 1] == rest[j];
        }
      }
    }
  }

  lemma InsertLaterKeys(t: Task, s: seq<Task>, rest: seq<Task>)
    requires s != [] && Compare(t, s[0]) > 0
    requires forall rank, deadline ::
      SameKey(rest, rank, deadline) == SameKey([t], rank, deadline) + SameKey(s[1..], rank, deadline)
    ensures forall rank, deadline ::
      SameKey([s[0]] + rest, rank, deadline) == SameKey([t], rank, deadline) + SameKey(s, rank, deadline)
  {
    CompareMeaning(t, s[0]);
    forall rank, deadline
      ensures SameKey([s[0]] + rest, rank, deadline) == SameKey([t], rank, deadline) + SameKey(s, rank, deadline)
    {
      InsertLaterKey(t, s, rest, rank, deadline);
    }
  }

  /** One class at a time: t and s[0] lie in different classes, so putting s[0]
      in front of t does not change the order within any class. */
  lemma InsertLaterKey(t: Task, s: seq<Task>, rest: seq<Task>, rank: int, deadline: Option<int>)
    requires s != []
    requires PriorityRank(t.priority) != PriorityRank(s[0].priority) || t.deadline != s[0].deadline
    requires SameKey(rest, rank, deadline) == SameKey([t], rank, deadline) + SameKey(s[1..], rank, deadline)
    ensures SameKey([s[0]] + rest, rank, deadline) == SameKey([t], rank, deadline) + SameKey(s, rank, deadline)
  {
    assert s == [s[0]] + s[1..];
    SameKeyAppend([s[0]], rest, rank, deadline);
    SameKeyAppend([s[0]], s[1..], rank, deadline);
    SameKeySingle(s[0], rank, deadline);
    SameKeySingle(t, rank, deadline);
    var a, b := SameKey([s[0]], rank, deadline), SameKey([t], rank, deadline);
    var tail := SameKey(s[1..], rank, deadline);
    if a == [] {
      assert a + (b + tail) == b + (a + tail);
    } else {
      assert b == [];
      assert a + (b + tail) == b + (a + tail);
    }
  }

  lemma SameKeySingle(x: Task, rank: int, deadline: Option<int>)
    ensures SameKey([x], rank, deadline) ==
      if PriorityRank(x.priority) == rank && x.deadline == deadline then [x] else []
  {
    assert [x][1..] == [];
  }

  /** The stable sort: insertion sort, each task going in front of the tasks
      after it in the input that it does not sort after. */
  function SortTasks(s: seq<Task>): (r: seq<Task>)
    ensures Sorted(r)
    ensures multiset(r) == multiset(s)
    ensures forall rank, deadline :: SameKey(r, rank, deadline) == SameKey(s, rank, deadline)
  {
    if s == [] then []
    else
      assert s == [s[0]] + s[1..];
      var r := Insert(s[0], SortTasks(s[1..]));
      assert forall rank, deadline :: SameKey(s, rank, deadline) == SameKey([s[0]], rank, deadline) + SameKey(s[1..], rank, deadline) by {
        forall rank, deadline
          ensures SameKey(s, rank, deadline) == SameKey([s[0]], rank, deadline) + SameKey(s[1..], rank, deadline)
        {
          SameKeyAppend([s[0]], s[1..], rank, deadline);
        }
      }
      r
  }

  /** The ordered work list of one scheduling run. */
  function SelectTasks(allTasks: seq<Task>): (r: seq<Task>)
    ensures forall t :: t in r <==> t in allTasks && Eligible(t)
    ensures forall t :: multiset(r)[t] == if Eligible(t) then multiset(allTasks)[t] else 0
    ensures forall i, j :: 0 <= i < j < |r| ==> GoesNoLaterThan(r[i], r[j])
    ensures forall rank, deadline ::
      SameKey(r, rank, deadline) == SameKey(Unscheduled(allTasks), rank, deadline)
    ensures forall rank, deadline ::
      SameKey(r, rank, deadline) == Unscheduled(SameKey(allTasks, rank, deadline))
  {
    var r := SortTasks(Unscheduled(allTasks));
    forall rank, deadline
      ensures SameKey(Unscheduled(allTasks), rank, deadline) == Unscheduled(SameKey(allTasks, rank, deadline))
    {
      UnscheduledByClass(allTasks, rank, deadline);
    }
    assert forall t :: t in r <==> t in multiset(r);
    assert forall i, j :: 0 <= i < j < |r| ==> GoesNoLaterThan(r[i], r[j]) by {
      forall i, j | 0 <= i < j < |r|
        ensures GoesNoLaterThan(r[i], r[j])
      {
        CompareMeaning(r[i], r[j]);
      }
    }
    r
  }

  /** A stable sort by this comparator has exactly one possible result: two
      sorted sequences that hold the same tasks of every rank and deadline in
      the same order are equal. So the insertion sort above gives the same
      list as any other stable sort, the engine's included. */
  lemma {:induction false} StableSortUnique(r1: seq<Task>, r2: seq<Task>)
    requires Sorted(r1) && Sorted(r2)
    requires forall rank, deadline :: SameKey(r1, rank, deadline) == SameKey(r2, rank, deadline)
    ensures r1 == r2
    decreases |r1|
  {
    if r1 == [] || r2 == [] {
      if r1 != [] {
        SameKeyHead(r1);
      } else if r2 != [] {
        SameKeyHead(r2);
      }
    } else {
      var a, b := r1[0], r2[0];
      HeadNotAfter(r1, r2);
      HeadNotAfter(r2, r1);
      CompareMeaning(a, b);
      var rank, deadline := PriorityRank(a.priority), a.deadline;
      SameKeyHead(r1);
      SameKeyHead(r2);
      assert Compare(a, b) == 0;
      assert PriorityRank(b.priority) == rank && b.deadline == deadline;
      assert SameKey(r1, rank, deadline) == SameKey(r2, rank, deadline);
      assert SameKey(r1, rank, deadline)[0] == a && SameKey(r2, rank, deadline)[0] == b;
      forall rank, deadline
        ensures SameKey(r1[1..], rank, deadline) == SameKey(r2[1..], rank, deadline)
      {
        SameKeyTail(r1, rank, deadline);
        SameKeyTail(r2, rank, deadline);
        var k := |SameKey([a], rank, deadline)|;
        assert SameKey(r1[1..], rank, deadline) == SameKey(r1, rank, deadline)[k..];
        assert SameKey(r2[1..], rank, deadline) == SameKey(r2, rank, deadline)[k..];
      }
      StableSortUnique(r1[1..], r2[1..]);
      assert r1 == [a] + r1[1..] && r2 == [b] + r2[1..];
    }
  }

  /** The head of a sorted sequence sorts no later than any task of another
      sequence with the same class of that task. */
  lemma HeadNotAfter(r1: seq<Task>, r2: seq<Task>)
    requires r1 != [] && r2 != [] && Sorted(r2)
    requires SameKey(r1, PriorityRank(r1[0].priority), r1[0].deadline)
      == SameKey(r2, PriorityRank(r1[0].priority), r1[0].deadline)
    ensures Compare(r2[0], r1[0]) <= 0
  {
    var a := r1[0];
    SameKeyHead(r1);
    SameKeyMembers(r2, a);
    var m :| 0 <= m < |r2| && r2[m] == a;
    if m == 0 { CompareMeaning(a, a); }
  }

  lemma SameKeyTail(s: seq<Task>, rank: int, deadline: Option<int>)
    requires s != []
    ensures SameKey(s, rank, deadline) == SameKey([s[0]], rank, deadline) + SameKey(s[1..], rank, deadline)
  {
    assert s == [s[0]] + s[1..];
    SameKeyAppend([s[0]], s[1..], rank, deadline);
  }


}
