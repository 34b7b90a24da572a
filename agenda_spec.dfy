/** The agenda store as values: its state, its invariants, and what each of
    its operations does to the state. The `Agenda` class proves its methods
    against these functions. */
module AgendaSpec {
  import opened Wrappers
  import opened Dates

  datatype TaskStatus = NotStarted | InProgress | Done

  /** `status.value`, the token a task line starts with in the agenda file. */
  function StatusName(s: TaskStatus): string {
    match s
    case NotStarted => "NOT_STARTED"
    case InProgress => "IN_PROGRESS"
    case Done => "DONE"
  }

  /** `TaskStatus(token)`: the status whose value is `token`, if any. */
  function ParseStatus(tok: string): (r: Option<TaskStatus>)
    ensures r.Some? ==> StatusName(r.value) == tok
  {
    if tok == "NOT_STARTED" then Some(NotStarted)
    else if tok == "IN_PROGRESS" then Some(InProgress)
    else if tok == "DONE" then Some(Done)
    else None
  }

  /** Every status token reads back as its status: `TaskStatus(s.value) == s`. */
  lemma ParseStatusName(s: TaskStatus)
    ensures ParseStatus(StatusName(s)) == Some(s)
  {
  }

  datatype Task = Task(description: string, status: TaskStatus)

  /** The failures the store and its callers signal by raising. */
  datatype Error =
    | UnknownDate       // `assert(day in self.agenda)` or a `KeyError` on an untracked date
    | IndexOutOfRange   // the task-index assertion, or an `IndexError` on a task list
    | DuplicateTask     // raised by `_check_not_duplicate`
    | BadDate           // `date.fromisoformat` rejects the text
    | BadNumber         // `int(...)` rejects the text
    | MissingArgument   // an `IndexError` on a command's argument list
    | BadStatus         // `TaskStatus(...)` rejects a token of the agenda file
    | MissingStatus     // an `IndexError` on a blank task line of the agenda file
    | EmptyCommand      // an `IndexError` on the words of a whitespace-only command line

  /** The state of an `Agenda`: the dictionary from date to task list, the order in
      which its keys were inserted (Python dictionaries iterate in that order, and
      `save` writes the days in it), and the two cached bounds. */
  datatype AgendaData = AgendaData(days: map<Date, seq<Task>>, order: seq<Date>, earliest: Date, farthest: Date)

  ghost predicate Distinct(s: seq<Date>) {
    forall i, j :: 0 <= i < j < |s| ==> s[i] != s[j]
  }

  /** `order` lists every key of the dictionary exactly once. */
  ghost predicate Indexed(a: AgendaData) {
    && (forall d :: d in a.days <==> d in a.order)
    && Distinct(a.order)
  }

  /** What every operation keeps: the key order is exact, both bounds are tracked,
      and no tracked date lies beyond `farthest`. */
  ghost predicate WellFormed(a: AgendaData) {
    && Indexed(a)
    && a.earliest in a.days && a.farthest in a.days
    && a.earliest <= a.farthest
    && (forall d :: d in a.days ==> d <= a.farthest)
  }

  /** Every date from `earliest` to `farthest` is tracked. */
  ghost predicate Contiguous(a: AgendaData) {
    forall d :: a.earliest <= d <= a.farthest ==> d in a.days
  }

  /** The descriptions of a task list, in order. */
  function Descriptions(ts: seq<Task>): (r: seq<string>)
    ensures |r| == |ts|
    ensures forall i :: 0 <= i < |ts| ==> r[i] == ts[i].description
  {
    if ts == [] then [] else [ts[0].description] + Descriptions(ts[1..])
  }

  /** No description occurs twice in a day. */
  ghost predicate UniqueDescriptions(ts: seq<Task>) {
    forall i, j :: 0 <= i < j < |ts| ==> ts[i].description != ts[j].description
  }

  ghost predicate AllUnique(a: AgendaData) {
    forall d :: d in a.days ==> UniqueDescriptions(a.days[d])
  }

  /** The agenda of a missing file: only today, with no tasks. */
  function Blank(today: Date): (a: AgendaData)
    ensures WellFormed(a) && Contiguous(a) && AllUnique(a)
    ensures a.days == map[today := []] && a.earliest == today == a.farthest
  {
    AgendaData(map[today := []], [today], today, today)
  }

  /** `if d not in self.agenda: self.agenda[d] = []` */
  function Track(a: AgendaData, d: Date): (r: AgendaData)
    ensures d in r.days && r.days.Keys == a.days.Keys + {d}
    ensures forall k :: k in a.days ==> r.days[k] == a.days[k]
    ensures d !in a.days ==> r.days[d] == []
    ensures r.earliest == a.earliest && r.farthest == a.farthest
  {
    if d in a.days then a else a.(days := a.days[d := []], order := a.order + [d])
  }

  /** `_add_days(from_day, to_day)`: tracks every date of the range, oldest first,
      with an empty list; tracked dates keep their lists. */
  function AddDaysSpec(a: AgendaData, from: Date, to: Date): (r: AgendaData)
    ensures forall d :: from <= d <= to ==> d in r.days
    ensures forall k :: k in r.days <==> k in a.days || from <= k <= to
    ensures forall k :: k in a.days ==> r.days[k] == a.days[k]
    ensures forall k :: k in r.days && k !in a.days ==> r.days[k] == []
    ensures r.earliest == a.earliest && r.farthest == a.farthest
    decreases if to < from then 0 else to - from + 1
  {
    if to < from then a else Track(AddDaysSpec(a, from, to - 1), to)
  }

  /** `refresh_today_date()` with `date.today()` passed in as `today`. */
  function RefreshSpec(a: AgendaData, today: Date): (r: AgendaData)
    ensures today in r.days
    ensures forall k :: k in r.days <==> k in a.days || k == today || (today < a.farthest && today <= k <= a.farthest)
    ensures r.farthest == (if a.farthest < today then today else a.farthest)
    ensures r.earliest == a.earliest
    ensures forall k :: k in a.days ==> k in r.days && r.days[k] == a.days[k]
    ensures forall k :: k in r.days && k !in a.days ==> r.days[k] == [] && (k == today || today <= k <= a.farthest)
    ensures a.farthest > today ==> forall d :: today <= d <= r.farthest ==> d in r.days
  {
    var a1 := Track(a, today);
    if a1.farthest < today then a1.(farthest := today)
    else if a1.farthest > today then AddDaysSpec(a1, today, a1.farthest)
    else a1
  }

  lemma TrackKeepsIndexed(a: AgendaData, d: Date)
    requires Indexed(a)
    ensures Indexed(Track(a, d))
  {
  }

  lemma {:induction false} AddDaysKeepsIndexed(a: AgendaData, from: Date, to: Date)
    requires Indexed(a)
    ensures Indexed(AddDaysSpec(a, from, to))
    decreases if to < from then 0 else to - from + 1
  {
    if to >= from {
      AddDaysKeepsIndexed(a, from, to - 1);
      TrackKeepsIndexed(AddDaysSpec(a, from, to - 1), to);
    }
  }

  /** Refreshing keeps the key order exact, the bounds tracked and no key beyond `farthest`. */
  lemma RefreshKeepsWellFormed(a: AgendaData, today: Date)
    requires WellFormed(a)
    ensures WellFormed(RefreshSpec(a, today))
  {
    var a1 := Track(a, today);
    TrackKeepsIndexed(a, today);
    if a1.farthest > today {
      AddDaysKeepsIndexed(a1, today, a1.farthest);
    }
  }

  /** `add_task(day, description, status)`, which ends by refreshing today. */
  function AddTaskSpec(a: AgendaData, day: Date, description: string, status: TaskStatus, today: Date)
    : (r: Result<AgendaData, Error>)
    ensures r.Failure? <==> day in a.days && description in Descriptions(a.days[day])
    ensures r.Failure? ==> r.error == DuplicateTask
  {
    var a1 := Track(a, day);
    if description in Descriptions(a1.days[day]) then Failure(DuplicateTask)
    else Success(RefreshSpec(ExtendForward(AppendTask(a1, day, Task(description, status)), day), today))
  }

  /** `self.agenda[day].append(t)` on a tracked day. */
  function AppendTask(a: AgendaData, day: Date, t: Task): (r: AgendaData)
    requires day in a.days
    ensures r.days.Keys == a.days.Keys
    ensures r.days[day] == a.days[day] + [t]
    ensures forall k :: k in a.days && k != day ==> r.days[k] == a.days[k]
    ensures r.order == a.order && r.earliest == a.earliest && r.farthest == a.farthest
  {
    a.(days := a.days[day := a.days[day] + [t]])
  }

  /** `if day > self.farthest_date: self._add_days(self.farthest_date, day); self.farthest_date = day` */
  function ExtendForward(a: AgendaData, day: Date): (r: AgendaData)
    ensures forall k :: k in r.days <==> k in a.days || (day > a.farthest && a.farthest <= k <= day)
    ensures forall k :: k in a.days ==> r.days[k] == a.days[k]
    ensures forall k :: k in r.days && k !in a.days ==> r.days[k] == []
    ensures r.earliest == a.earliest
    ensures r.farthest == if day > a.farthest then day else a.farthest
  {
    if day > a.farthest then AddDaysSpec(a, a.farthest, day).(farthest := day) else a
  }

  lemma ExtendForwardKeepsIndexed(a: AgendaData, day: Date)
    requires Indexed(a)
    ensures Indexed(ExtendForward(a, day))
  {
    if day > a.farthest {
      AddDaysKeepsIndexed(a, a.farthest, day);
    }
  }

  /** `list.remove(t)`: drops the first element equal to `t`. */
  function RemoveFirst(ts: seq<Task>, t: Task): (r: seq<Task>)
    requires t in ts
    ensures |r| == |ts| - 1
    ensures multiset(r) == multiset(ts) - multiset{t}
  {
    if ts[0] == t then
      assert ts == [ts[0]] + ts[1..];
      ts[1..]
    else
      assert ts == [ts[0]] + ts[1..];
      [ts[0]] + RemoveFirst(ts[1..], t)
  }

  /** `list.remove(t)` takes out the first occurrence of `t` and keeps the other
      tasks in their order: `k` is the index it removes. */
  lemma {:induction false} RemoveFirstIsFirst(ts: seq<Task>, t: Task) returns (k: nat)
    requires t in ts
    ensures k < |ts| && ts[k] == t && forall i :: 0 <= i < k ==> ts[i] != t
    ensures RemoveFirst(ts, t) == ts[..k] + ts[k + 1..]
  {
    if ts[0] == t {
      k := 0;
    } else {
      var j := RemoveFirstIsFirst(ts[1..], t);
      k := j + 1;
      DropAfterHead(ts, j);
    }
  }

  /** Dropping position `j` of the tail, behind the head, drops position `j + 1`. */
  lemma DropAfterHead<T>(ts: seq<T>, j: nat)
    requires j + 1 < |ts|
    ensures [ts[0]] + (ts[1..][..j] + ts[1..][j + 1..]) == ts[..j + 1] + ts[j + 2..]
    ensures forall i :: 0 < i <= j + 1 ==> ts[i] == ts[1..][i - 1]
  {
    assert ts[..j + 1] == [ts[0]] + ts[1..][..j];
    assert ts[j + 2..] == ts[1..][j + 1..];
  }

  /** `remove_task(day, task_index)`: the new state and the removed task. */
  function RemoveTaskSpec(a: AgendaData, day: Date, i: int): (r: Result<(AgendaData, Task), Error>)
    ensures r.Failure? <==> day !in a.days || !(0 <= i < |a.days[day]|)
    ensures r.Failure? ==> r.error == (if day !in a.days then UnknownDate else IndexOutOfRange)
    ensures r.Success? ==> r.value.1 == a.days[day][i]
  {
    if day !in a.days then Failure(UnknownDate)
    else if !(0 <= i < |a.days[day]|) then Failure(IndexOutOfRange)
    else
      var t := a.days[day][i];
      Success((a.(days := a.days[day := RemoveFirst(a.days[day], t)]), t))
  }

  /** `modify_task(day, task_index, new_description)`: the new state and the old description. */
  function ModifyTaskSpec(a: AgendaData, day: Date, i: int, description: string): (r: Result<(AgendaData, string), Error>)
    ensures r.Failure? <==> day !in a.days || !(0 <= i < |a.days[day]|) || description in Descriptions(a.days[day])
    ensures r.Success? ==> r.value.1 == a.days[day][i].description
  {
    if day !in a.days then Failure(UnknownDate)
    else if !(0 <= i < |a.days[day]|) then Failure(IndexOutOfRange)
    else if description in Descriptions(a.days[day]) then Failure(DuplicateTask)
    else
      var ts := a.days[day];
      Success((a.(days := a.days[day := ts[i := Task(description, ts[i].status)]]), ts[i].description))
  }

  /** `update_task_status(day, task_index, new_status)`: the new state and the old status. */
  function UpdateStatusSpec(a: AgendaData, day: Date, i: int, status: TaskStatus): (r: Result<(AgendaData, TaskStatus), Error>)
    ensures r.Failure? <==> day !in a.days || !(0 <= i < |a.days[day]|)
    ensures r.Success? ==> r.value.1 == a.days[day][i].status
  {
    if day !in a.days then Failure(UnknownDate)
    else if !(0 <= i < |a.days[day]|) then Failure(IndexOutOfRange)
    else
      var ts := a.days[day];
      Success((a.(days := a.days[day := ts[i := Task(ts[i].description, status)]]), ts[i].status))
  }
}
