/** What the agenda operations promise, proved about the functions of `AgendaSpec`. */
module AgendaLaws {
  import opened Wrappers
  import opened Dates
  import opened AgendaSpec

  // ---------------------------------------------------------------------
  // _add_days and refresh_today_date

  /** Filling a range that is already tracked changes nothing. */
  lemma {:induction false} AddDaysNoop(a: AgendaData, from: Date, to: Date)
    requires forall d :: from <= d <= to ==> d in a.days
    ensures AddDaysSpec(a, from, to) == a
    decreases if to < from then 0 else to - from + 1
  {
    if from <= to {
      AddDaysNoop(a, from, to - 1);
    }
  }

  /** Refreshing twice with the same `today` is the same as refreshing once. */
  lemma RefreshIdempotent(a: AgendaData, today: Date)
    ensures RefreshSpec(RefreshSpec(a, today), today) == RefreshSpec(a, today)
  {
    var r := RefreshSpec(a, today);
    assert Track(r, today) == r;
    if r.farthest > today {
      AddDaysNoop(r, today, r.farthest);
    }
  }

  /** Refreshing keeps the tracked range gap-free when `farthest` is at most one
      day behind `today`. */
  lemma RefreshKeepsContiguity(a: AgendaData, today: Date)
    requires WellFormed(a) && Contiguous(a) && a.farthest >= today - 1
    ensures Contiguous(RefreshSpec(a, today))
  {
    var r := RefreshSpec(a, today);
    forall d | r.earliest <= d <= r.farthest ensures d in r.days {
      if d <= a.farthest {
        assert d in a.days;
      } else {
        assert d == today;
      }
    }
  }

  /** When the agenda has been idle for more than a day, refreshing moves `farthest`
      up to `today` without filling the days in between: the day after the old
      `farthest` stays untracked, inside the new range. */
  lemma RefreshLeavesGap(a: AgendaData, today: Date)
    requires WellFormed(a) && a.farthest < today - 1
    ensures var r := RefreshSpec(a, today);
      && r.earliest <= a.farthest + 1 <= r.farthest
      && a.farthest + 1 !in r.days
      && !Contiguous(r)
  {
    var r := RefreshSpec(a, today);
    var g := a.farthest + 1;
    assert g !in a.days;
    assert g !in r.days;
  }

  // ---------------------------------------------------------------------
  // add_task

  /** A new description is appended to the day's list; the range grows forward to
      `day` and then to `today`; other days keep their lists; `earliest` stays. */
  lemma AddTaskSucceeds(a: AgendaData, day: Date, description: string, status: TaskStatus, today: Date)
    requires !(day in a.days && description in Descriptions(a.days[day]))
    ensures var r := AddTaskSpec(a, day, description, status, today);
      && r.Success?
      && r.value.days[day] == (if day in a.days then a.days[day] else []) + [Task(description, status)]
      && (forall k :: k in a.days && k != day ==> k in r.value.days && r.value.days[k] == a.days[k])
      && (forall k :: k in r.value.days && k !in a.days && k != day ==> r.value.days[k] == [])
      && r.value.earliest == a.earliest
      && r.value.farthest == Max(Max(a.farthest, day), today)
      && (day > a.farthest ==> forall d :: a.farthest <= d <= day ==> d in r.value.days)
      && today in r.value.days
      && (forall k :: k in r.value.days <==>
            || k in a.days || k == day || k == today
            || (day > a.farthest && a.farthest <= k <= day)
            || (today < Max(a.farthest, day) && today <= k <= Max(a.farthest, day)))
  {
  }

  /** Adding keeps the bounds tracked, the key order exact and every key at or
      before `farthest`. */
  lemma AddTaskKeepsWellFormed(a: AgendaData, day: Date, description: string, status: TaskStatus, today: Date)
    requires WellFormed(a)
    requires AddTaskSpec(a, day, description, status, today).Success?
    ensures WellFormed(AddTaskSpec(a, day, description, status, today).value)
  {
    var a3 := Appended(a, day, Task(description, status));
    assert AddTaskSpec(a, day, description, status, today).value == RefreshSpec(a3, today);
    AppendedKeepsWellFormed(a, day, Task(description, status));
    RefreshKeepsWellFormed(a3, today);
  }

  /** The agenda after the append and the forward extension of `add_task`, before
      its refresh. */
  function Appended(a: AgendaData, day: Date, t: Task): (r: AgendaData)
    ensures day in r.days
  {
    ExtendForward(AppendTask(Track(a, day), day, t), day)
  }

  lemma AppendedKeepsWellFormed(a: AgendaData, day: Date, t: Task)
    requires WellFormed(a)
    ensures WellFormed(Appended(a, day, t))
  {
    var a1 := Track(a, day);
    TrackKeepsIndexed(a, day);
    var a2 := AppendTask(a1, day, t);
    assert Indexed(a2);
    ExtendForwardKeepsIndexed(a2, day);
  }

  lemma AppendedKeepsContiguity(a: AgendaData, day: Date, t: Task)
    requires WellFormed(a) && Contiguous(a)
    ensures Contiguous(Appended(a, day, t))
  {
    var a2 := AppendTask(Track(a, day), day, t);
    assert Contiguous(a2);
  }

  /** A description already present on that day is rejected. */
  lemma AddTaskRejectsDuplicate(a: AgendaData, day: Date, i: int, status: TaskStatus, today: Date)
    requires day in a.days && 0 <= i < |a.days[day]|
    ensures AddTaskSpec(a, day, a.days[day][i].description, status, today) == Failure(DuplicateTask)
  {
    assert Descriptions(a.days[day])[i] == a.days[day][i].description;
  }

  /** A day before `earliest` gets tracked, but `earliest` is not moved back to it:
      afterwards `earliest` is no longer the oldest tracked date. */
  lemma AddTaskBeforeEarliest(a: AgendaData, day: Date, description: string, status: TaskStatus, today: Date)
    requires day !in a.days && day < a.earliest
    ensures var r := AddTaskSpec(a, day, description, status, today);
      r.Success? && day in r.value.days && day < r.value.earliest == a.earliest
  {
    AddTaskSucceeds(a, day, description, status, today);
  }

  /** Adding keeps descriptions unique per day. */
  lemma AddTaskKeepsUnique(a: AgendaData, day: Date, description: string, status: TaskStatus, today: Date)
    requires AllUnique(a)
    requires AddTaskSpec(a, day, description, status, today).Success?
    ensures AllUnique(AddTaskSpec(a, day, description, status, today).value)
  {
    AddTaskSucceeds(a, day, description, status, today);
    var r := AddTaskSpec(a, day, description, status, today).value;
    var old_ := if day in a.days then a.days[day] else [];
    var ts := r.days[day];
    assert ts == old_ + [Task(description, status)];
    forall i, j | 0 <= i < j < |ts| ensures ts[i].description != ts[j].description {
      if j == |ts| - 1 {
        assert Descriptions(old_)[i] == ts[i].description;
      }
    }
  }

  /** Adding keeps the range gap-free as long as the refresh at its end does not
      skip days, that is, unless `today` is more than a day past both `farthest` and `day`. */
  lemma AddTaskKeepsContiguity(a: AgendaData, day: Date, description: string, status: TaskStatus, today: Date)
    requires WellFormed(a) && Contiguous(a) && Max(a.farthest, day) >= today - 1
    requires AddTaskSpec(a, day, description, status, today).Success?
    ensures Contiguous(AddTaskSpec(a, day, description, status, today).value)
  {
    var a3 := Appended(a, day, Task(description, status));
    assert AddTaskSpec(a, day, description, status, today).value == RefreshSpec(a3, today);
    AppendedKeepsWellFormed(a, day, Task(description, status));
    AppendedKeepsContiguity(a, day, Task(description, status));
    RefreshKeepsContiguity(a3, today);
  }

  // ---------------------------------------------------------------------
  // remove_task

  /** With unique descriptions, removing the first task equal to `ts[i]` removes
      exactly position `i`. */
  lemma {:induction false} RemoveFirstAt(ts: seq<Task>, i: int)
    requires UniqueDescriptions(ts) && 0 <= i < |ts|
    ensures RemoveFirst(ts, ts[i]) == ts[..i] + ts[i + 1..]
  {
    if i > 0 {
      var tail := ts[1..];
      assert ts[0].description != ts[i].description;
      assert tail[i - 1] == ts[i];
      RemoveFirstSkips(ts, ts[i]);
      UniqueTail(ts);
      RemoveFirstAt(tail, i - 1);
      DropAtTail(ts, i);
    }
  }

  /** Dropping position `i > 0` keeps the head and drops position `i - 1` of the tail. */
  lemma DropAtTail(ts: seq<Task>, i: int)
    requires 0 < i < |ts|
    ensures ts[..i] + ts[i + 1..] == [ts[0]] + (ts[1..][..i - 1] + ts[1..][i..])
  {
    assert ts[1..][..i - 1] == ts[1..i];
    assert ts[1..][i..] == ts[i + 1..];
    assert ts[..i] == [ts[0]] + ts[1..i];
  }

  /** Removal passes over a first element that differs from the one removed. */
  lemma RemoveFirstSkips(ts: seq<Task>, t: Task)
    requires ts != [] && t in ts[1..] && ts[0] != t
    ensures RemoveFirst(ts, t) == [ts[0]] + RemoveFirst(ts[1..], t)
  {
  }

  /** The tail of a list with unique descriptions has unique descriptions. */
  lemma UniqueTail(ts: seq<Task>)
    requires UniqueDescriptions(ts) && ts != []
    ensures UniqueDescriptions(ts[1..])
  {
    var tail := ts[1..];
    forall p, q | 0 <= p < q < |tail| ensures tail[p].description != tail[q].description {
      assert tail[p] == ts[p + 1] && tail[q] == ts[q + 1];
    }
  }

  /** Without unique descriptions, removal by value can take out another position:
      in `[x, y, x]`, removing the task at index 2 leaves `[y, x]`, not `[x, y]`. */
  lemma RemoveFirstNotPositional(x: Task, y: Task)
    requires x != y
    ensures var ts := [x, y, x]; RemoveFirst(ts, ts[2]) == [y, x] != ts[..2] + ts[3..]
  {
    var ts := [x, y, x];
    assert ts[..2] + ts[3..] == [x, y];
    assert [y, x][0] != [x, y][0];
  }

  /** The removed task is `old[i]`, the list becomes `old[..i] + old[i+1..]`, and
      nothing else changes. */
  lemma RemoveTaskSucceeds(a: AgendaData, day: Date, i: int)
    requires day in a.days && 0 <= i < |a.days[day]| && UniqueDescriptions(a.days[day])
    ensures var r := RemoveTaskSpec(a, day, i);
      && r.Success?
      && r.value.1 == a.days[day][i]
      && r.value.0 == a.(days := a.days[day := a.days[day][..i] + a.days[day][i + 1..]])
  {
    RemoveFirstAt(a.days[day], i);
  }

  /** Replacing the list of a tracked day keeps the shape invariants. */
  lemma ReplaceDayKeepsShape(a: AgendaData, day: Date, ts: seq<Task>)
    requires day in a.days
    ensures var r := a.(days := a.days[day := ts]);
      && (WellFormed(a) ==> WellFormed(r))
      && (Contiguous(a) ==> Contiguous(r))
  {
    var r := a.(days := a.days[day := ts]);
    assert r.days.Keys == a.days.Keys;
  }

  /** Replacing the list of a day by one with unique descriptions keeps `AllUnique`. */
  lemma ReplaceDayKeepsUnique(a: AgendaData, day: Date, ts: seq<Task>)
    requires AllUnique(a) && UniqueDescriptions(ts)
    ensures AllUnique(a.(days := a.days[day := ts]))
  {
  }

  /** Dropping one position keeps descriptions unique. */
  lemma DropKeepsUnique(ts: seq<Task>, i: int)
    requires UniqueDescriptions(ts) && 0 <= i < |ts|
    ensures UniqueDescriptions(ts[..i] + ts[i + 1..])
  {
    var us := ts[..i] + ts[i + 1..];
    forall p, q | 0 <= p < q < |us| ensures us[p].description != us[q].description {
      var p' := if p < i then p else p + 1;
      var q' := if q < i then q else q + 1;
      assert us[p] == ts[p'] && us[q] == ts[q'];
    }
  }

  /** Removing keeps every invariant. */
  lemma RemoveTaskKeepsInvariants(a: AgendaData, day: Date, i: int)
    requires RemoveTaskSpec(a, day, i).Success?
    ensures var r := RemoveTaskSpec(a, day, i).value.0;
      && (WellFormed(a) ==> WellFormed(r))
      && (Contiguous(a) ==> Contiguous(r))
      && (AllUnique(a) ==> AllUnique(r))
  {
    var ts := a.days[day];
    ReplaceDayKeepsShape(a, day, RemoveFirst(ts, ts[i]));
    if AllUnique(a) {
      RemoveTaskSucceeds(a, day, i);
      DropKeepsUnique(ts, i);
      ReplaceDayKeepsUnique(a, day, ts[..i] + ts[i + 1..]);
    }
  }

  lemma {:induction false} RemoveFirstAppended(ts: seq<Task>, t: Task)
    requires t !in ts
    ensures RemoveFirst(ts + [t], t) == ts
  {
    if ts != [] {
      assert (ts + [t])[1..] == ts[1..] + [t];
      RemoveFirstAppended(ts[1..], t);
      assert [ts[0]] + ts[1..] == ts;
    }
  }

  /** Adding a task and then removing it at the index it was given restores the
      day's list and returns the task. */
  lemma AddThenRemove(a: AgendaData, day: Date, description: string, status: TaskStatus, today: Date)
    requires AddTaskSpec(a, day, description, status, today).Success?
    ensures var before := if day in a.days then a.days[day] else [];
      var b := AddTaskSpec(a, day, description, status, today).value;
      var r := RemoveTaskSpec(b, day, |before|);
      r.Success? && r.value.1 == Task(description, status) && r.value.0.days[day] == before
  {
    AddTaskSucceeds(a, day, description, status, today);
    var before := if day in a.days then a.days[day] else [];
    var t := Task(description, status);
    forall k | 0 <= k < |before| ensures before[k] != t {
      assert Descriptions(before)[k] == before[k].description;
    }
    RemoveFirstAppended(before, t);
  }

  // ---------------------------------------------------------------------
  // modify_task and update_task_status

  /** Renaming replaces the description of entry `i` only, keeps its status, and
      returns the old description. */
  lemma ModifyTaskSucceeds(a: AgendaData, day: Date, i: int, description: string)
    requires ModifyTaskSpec(a, day, i, description).Success?
    ensures var ts := a.days[day];
      var r := ModifyTaskSpec(a, day, i, description).value;
      && r.1 == ts[i].description
      && r.0.days == a.days[day := ts[i := Task(description, ts[i].status)]]
      && r.0.order == a.order && r.0.earliest == a.earliest && r.0.farthest == a.farthest
      && (WellFormed(a) ==> WellFormed(r.0))
      && (Contiguous(a) ==> Contiguous(r.0))
      && (AllUnique(a) ==> AllUnique(r.0))
  {
    var ts := a.days[day];
    var r := ModifyTaskSpec(a, day, i, description).value.0;
    assert r.days.Keys == a.days.Keys;
    var us := r.days[day];
    forall p, q | 0 <= p < q < |us| && UniqueDescriptions(ts) ensures us[p].description != us[q].description {
      if p == i {
        assert Descriptions(ts)[q] == ts[q].description;
      } else if q == i {
        assert Descriptions(ts)[p] == ts[p].description;
      }
    }
  }

  /** Renaming a task to its own current description is rejected: the duplicate
      check counts the task itself. */
  lemma ModifyToSameRejected(a: AgendaData, day: Date, i: int)
    requires day in a.days && 0 <= i < |a.days[day]|
    ensures ModifyTaskSpec(a, day, i, a.days[day][i].description) == Failure(DuplicateTask)
  {
    assert Descriptions(a.days[day])[i] == a.days[day][i].description;
  }

  /** A status change replaces the status of entry `i` only, keeps its description,
      and returns the old status. */
  lemma UpdateStatusSucceeds(a: AgendaData, day: Date, i: int, status: TaskStatus)
    requires UpdateStatusSpec(a, day, i, status).Success?
    ensures var ts := a.days[day];
      var r := UpdateStatusSpec(a, day, i, status).value;
      && r.1 == ts[i].status
      && r.0.days == a.days[day := ts[i := Task(ts[i].description, status)]]
      && r.0.order == a.order && r.0.earliest == a.earliest && r.0.farthest == a.farthest
      && (WellFormed(a) ==> WellFormed(r.0))
      && (Contiguous(a) ==> Contiguous(r.0))
      && (AllUnique(a) ==> AllUnique(r.0))
  {
    var r := UpdateStatusSpec(a, day, i, status).value.0;
    assert r.days.Keys == a.days.Keys;
  }
}
