/** The `Agenda` class: the dictionary from date to task list and the two cached
    bounds, updated in place. Every method is proved against the function of
    `AgendaSpec` (or `AgendaFormat`) that says what it does to the state. */
module AgendaStore {
  import opened Wrappers
  import opened Text
  import opened Dates
  import opened AgendaSpec
  import opened AgendaFormat
  import opened AgendaLaws

  /** The text of one day, appended piece by piece as `save` does. */
  lemma SaveDayAssoc(before: string, date: string, lines: string)
    ensures before + (date + "\n") + lines + "\n" == before + (date + "\n" + lines + "\n")
  {
  }

  /** One turn of `_add_days`'s loop tracks one more date. */
  lemma AddDaysStep(a: AgendaData, from: Date, day: Date)
    requires from <= day
    ensures AddDaysSpec(a, from, day) == Track(AddDaysSpec(a, from, day - 1), day)
  {
  }

  /** Emptying a day's list and then filling it is the same as filling it. */
  lemma MapUpdateTwice<K, V>(m: map<K, V>, k: K, v: V, w: V)
    ensures m[k := v][k := w] == m[k := w]
  {
  }

  /** Writing back the value a key already holds changes nothing. */
  lemma MapUpdateSame<K, V>(m: map<K, V>, k: K)
    requires k in m
    ensures m[k := m[k]] == m
  {
  }

  class Agenda {
    /** `self.agenda`, as a map together with the order in which its keys were inserted. */
    var days: map<Date, seq<Task>>
    var order: seq<Date>
    /** `self.earliest_date` and `self.farthest_date`. */
    var earliestDate: Date
    var farthestDate: Date

    /** The state of the object, as a value. */
    function Data(): AgendaData
      reads this
    {
      AgendaData(days, order, earliestDate, farthestDate)
    }

    ghost predicate Valid()
      reads this
    {
      WellFormed(Data())
    }

    /** The start of the loading constructor: an empty dictionary and both bounds at today. */
    constructor Empty(today: Date)
      ensures Data() == AgendaData(map[], [], today, today)
    {
      days := map[];
      order := [];
      earliestDate := today;
      farthestDate := today;
    }

    /** The loading constructor: `None` stands for a missing file, `Some(text)` for
        the text of an existing one. */
    static method Load(file: Option<string>, today: Date, fmt: DateFormat) returns (r: Result<Agenda, Error>)
      ensures r.Success? ==> fresh(r.value) && LoadSpec(file, today, fmt) == Success(r.value.Data())
      ensures r.Success? ==> r.value.Valid() && Contiguous(r.value.Data())
      ensures r.Success? ==> Savable(r.value.Data())
      ensures r.Failure? ==> LoadSpec(file, today, fmt) == Failure(r.error)
    {
      var agenda := new Agenda.Empty(today);
      if file.None? {
        agenda.TrackDay(today);
        assert agenda.order == [today];
        LoadIsSavable(file, today, fmt);
        return Success(agenda);
      }
      var blocks := Split(Strip(file.value), "\n\n");
      var err := agenda.LoadBlocks(blocks, fmt, today);
      if err.Some? {
        return Failure(err.value);
      }
      ghost var c := agenda.Data();
      LoadSpecOfBlocks(file.value, today, fmt);
      FilledShape(c, today);
      agenda.AddDays(agenda.earliestDate, agenda.farthestDate);
      LoadIsSavable(file, today, fmt);
      return Success(agenda);
    }

    /** The block loop of the loading constructor, from the empty dictionary. */
    method LoadBlocks(blocks: seq<string>, fmt: DateFormat, today: Date) returns (err: Option<Error>)
      requires Data() == AgendaData(map[], [], today, today)
      modifies this
      ensures err.Some? ==> ParseBlocks(blocks, fmt) == Failure(err.value)
      ensures err.None? ==> ParseBlocks(blocks, fmt).Success? && Data() == Collect(ParseBlocks(blocks, fmt).value, today)
    {
      var i := 0;
      assert blocks[..0] == [];
      while i < |blocks|
        invariant 0 <= i <= |blocks|
        invariant ParseBlocks(blocks[..i], fmt).Success?
        invariant Data() == Collect(ParseBlocks(blocks[..i], fmt).value, today)
      {
        CollectBlocksStep(blocks, fmt, i, today);
        err := LoadBlock(blocks[i], fmt);
        if err.Some? {
          ParseBlocksPrefixFailure(blocks, fmt, i + 1);
          return;
        }
        i := i + 1;
      }
      assert blocks[..i] == blocks;
      return None;
    }

    /** One turn of the loading loop: a block with no task line is skipped; otherwise
        its date gets an empty list, each task line is appended to it, and the
        bounds move out to cover the date. */
    method LoadBlock(block: string, fmt: DateFormat) returns (err: Option<Error>)
      modifies this
      ensures err.Some? <==> ParseBlock(block, fmt).Failure?
      ensures err.Some? ==> ParseBlock(block, fmt) == Failure(err.value)
      ensures err.None? ==> Data() == Absorb(old(Data()), ParseBlock(block, fmt).value)
    {
      var lines := Split(block, "\n");
      if |lines| == 1 {
        return None;
      }
      var parsed := fmt.parse(lines[0]);
      if parsed.None? {
        return Some(BadDate);
      }
      var d := parsed.value;
      ghost var a := Data();
      if d !in days {
        order := order + [d];
      }
      days := days[d := []];
      assert order == if d in a.days then a.order else a.order + [d];
      ghost var started := days;
      ParseDatedBlock(block, fmt, d);
      err := ReadTasks(d, lines[1..]);
      if err.Some? {
        return;
      }
      ghost var ts := ParseTaskLines(lines[1..]).value;
      assert days == started[d := ts];
      MapUpdateTwice(a.days, d, [], ts);
      if d > farthestDate {
        farthestDate := d;
      }
      if d < earliestDate {
        earliestDate := d;
      }
      assert Data() == Absorb(a, Some((d, ts)));
      return None;
    }

    /** The task lines of one block, appended one by one to the list of `d`. */
    method ReadTasks(d: Date, tasks: seq<string>) returns (err: Option<Error>)
      requires d in days && days[d] == []
      modifies this
      ensures err.Some? <==> ParseTaskLines(tasks).Failure?
      ensures err.Some? ==> ParseTaskLines(tasks) == Failure(err.value)
      ensures err.None? ==> Data() == old(Data()).(days := old(days)[d := ParseTaskLines(tasks).value])
    {
      var j := 0;
      ghost var acc: seq<Task> := [];
      MapUpdateSame(days, d);
      while j < |tasks|
        invariant 0 <= j <= |tasks|
        invariant ParseTaskLines(tasks[..j]) == Success(acc)
        invariant days == old(days)[d := acc]
        invariant order == old(order) && earliestDate == old(earliestDate) && farthestDate == old(farthestDate)
      {
        TaskLinesStep(tasks, j);
        var line := ParseTaskLine(tasks[j]);
        if line.Failure? {
          ParseTaskLinesPrefixFailure(tasks, j + 1);
          return Some(line.error);
        }
        var t := line.value;
        MapUpdateTwice(old(days), d, acc, acc + [t]);
        days := days[d := days[d] + [t]];
        acc := acc + [t];
        j := j + 1;
      }
      assert tasks[..j] == tasks;
      return None;
    }

    /** `save`: the text written to the file. */
    method Save(fmt: DateFormat) returns (text: string)
      requires Indexed(Data())
      ensures text == SaveText(Data(), fmt)
    {
      var acc := "";
      for i := 0 to |order|
        invariant acc == DaysText(fmt, days, order[..i])
      {
        DaysTextStep(fmt, days, order, i);
        var d := order[i];
        acc := acc + (fmt.render(d) + "\n");
        ghost var head := acc;
        var ts := days[d];
        for j := 0 to |ts|
          invariant acc == head + TaskLines(ts[..j])
        {
          TaskLinesTextStep(ts, j);
          ghost var lines := TaskLines(ts[..j]);
          acc := acc + (StatusName(ts[j].status) + " " + ts[j].description + "\n");
          AppendAssoc(head, lines, TaskLine(ts[j]) + "\n");
          AppendAssoc(lines, TaskLine(ts[j]), "\n");
        }
        assert ts[..|ts|] == ts;
        SaveDayAssoc(DaysText(fmt, days, order[..i]), fmt.render(d), TaskLines(ts));
        acc := acc + "\n";
      }
      assert order[..|order|] == order;
      text := Strip(acc);
    }

    /** `if day not in self.agenda: self.agenda[day] = []` */
    method TrackDay(day: Date)
      modifies this
      ensures Data() == Track(old(Data()), day)
    {
      if day !in days {
        days := days[day := []];
        order := order + [day];
      }
    }

    /** `_add_days(from_day, to_day)`, whose assertion demands `from <= to`. */
    method AddDays(from: Date, to: Date)
      requires from <= to
      modifies this
      ensures Data() == AddDaysSpec(old(Data()), from, to)
    {
      ghost var a := Data();
      ghost var acc := a;
      var day := from;
      while day <= to
        invariant from <= day <= to + 1
        invariant acc == AddDaysSpec(a, from, day - 1)
        invariant Data() == acc
      {
        AddDaysStep(a, from, day);
        TrackDay(day);
        acc := Track(acc, day);
        day := day + 1;
      }
    }

    /** `get_tasks(day)`: a copy of the day's list; an untracked day raises `KeyError`. */
    method GetTasks(day: Date) returns (r: Result<seq<Task>, Error>)
      ensures day in days ==> r == Success(days[day])
      ensures day !in days ==> r == Failure(UnknownDate)
    {
      if day !in days {
        return Failure(UnknownDate);
      }
      var list: seq<Task> := [];
      var ts := days[day];
      for i := 0 to |ts|
        invariant list == ts[..i]
      {
        list := list + [ts[i]];
      }
      assert ts[..|ts|] == ts;
      return Success(list);
    }

    /** `_check_not_duplicate(day, description)`: fails when a task of the day already
        has that description. */
    method CheckNotDuplicate(day: Date, description: string) returns (err: Option<Error>)
      ensures err.None? <==> day in days && description !in Descriptions(days[day])
      ensures err.Some? ==> err.value == (if day in days then DuplicateTask else UnknownDate)
    {
      if day !in days {
        return Some(UnknownDate);
      }
      if description in Descriptions(days[day]) {
        return Some(DuplicateTask);
      }
      return None;
    }

    /** `add_task(day, description, status)`. */
    method AddTask(day: Date, description: string, status: TaskStatus, today: Date) returns (err: Option<Error>)
      modifies this
      ensures err.None? ==> AddTaskSpec(old(Data()), day, description, status, today) == Success(Data())
      ensures err.Some? ==> AddTaskSpec(old(Data()), day, description, status, today) == Failure(err.value)
      ensures err.Some? ==> Data() == old(Data())
      ensures err.None? && old(Valid()) ==> Valid()
    {
      ghost var a := Data();
      if day !in days {
        days := days[day := []];
        order := order + [day];
      }
      ghost var tracked := Track(a, day);
      assert Data() == tracked;
      err := CheckNotDuplicate(day, description);
      if err.Some? {
        return;
      }
      days := days[day := days[day] + [Task(description, status)]];
      ghost var appended := AppendTask(tracked, day, Task(description, status));
      assert Data() == appended;
      if day > farthestDate {
        AddDays(farthestDate, day);
        farthestDate := day;
      }
      ghost var extended := ExtendForward(appended, day);
      assert Data() == extended;
      RefreshTodayDate(today);
      assert AddTaskSpec(a, day, description, status, today) == Success(RefreshSpec(extended, today));
      if WellFormed(a) {
        AddTaskKeepsWellFormed(a, day, description, status, today);
      }
    }

    /** `remove_task(day, task_index)`: the removed task. */
    method RemoveTask(day: Date, index: int) returns (r: Result<Task, Error>)
      modifies this
      ensures r.Success? ==> RemoveTaskSpec(old(Data()), day, index) == Success((Data(), r.value))
      ensures r.Failure? ==> RemoveTaskSpec(old(Data()), day, index) == Failure(r.error)
      ensures r.Failure? ==> Data() == old(Data())
    {
      if day !in days {
        return Failure(UnknownDate);
      }
      if !(0 <= index < |days[day]|) {
        return Failure(IndexOutOfRange);
      }
      var t := days[day][index];
      days := days[day := RemoveFirst(days[day], t)];
      return Success(t);
    }

    /** `modify_task(day, task_index, new_description)`: the old description. */
    method ModifyTask(day: Date, index: int, description: string) returns (r: Result<string, Error>)
      modifies this
      ensures r.Success? ==> ModifyTaskSpec(old(Data()), day, index, description) == Success((Data(), r.value))
      ensures r.Failure? ==> ModifyTaskSpec(old(Data()), day, index, description) == Failure(r.error)
      ensures r.Failure? ==> Data() == old(Data())
    {
      if day !in days {
        return Failure(UnknownDate);
      }
      if !(0 <= index < |days[day]|) {
        return Failure(IndexOutOfRange);
      }
      var dup := CheckNotDuplicate(day, description);
      if dup.Some? {
        return Failure(dup.value);
      }
      var current := days[day][index];
      days := days[day := days[day][index := Task(description, current.status)]];
      return Success(current.description);
    }

    /** `update_task_status(day, task_index, new_status)`: the old status. */
    method UpdateTaskStatus(day: Date, index: int, status: TaskStatus) returns (r: Result<TaskStatus, Error>)
      modifies this
      ensures r.Success? ==> UpdateStatusSpec(old(Data()), day, index, status) == Success((Data(), r.value))
      ensures r.Failure? ==> UpdateStatusSpec(old(Data()), day, index, status) == Failure(r.error)
      ensures r.Failure? ==> Data() == old(Data())
    {
      if day !in days {
        return Failure(UnknownDate);
      }
      if !(0 <= index < |days[day]|) {
        return Failure(IndexOutOfRange);
      }
      var current := days[day][index];
      days := days[day := days[day][index := Task(current.description, status)]];
      return Success(current.status);
    }

    /** `get_latest_date()`: in a valid agenda, the latest tracked date. */
    function LatestDate(): (d: Date)
      reads this
      ensures Valid() ==> d in days && forall k :: k in days ==> k <= d
    {
      farthestDate
    }

    /** `get_earliest_date()`: in a valid agenda, a tracked date no later than the latest one. */
    function EarliestDate(): (d: Date)
      reads this
      ensures Valid() ==> d in days && d <= LatestDate()
    {
      earliestDate
    }

    /** `refresh_today_date()`, with `date.today()` passed in. */
    method RefreshTodayDate(today: Date)
      modifies this
      ensures Data() == RefreshSpec(old(Data()), today)
      ensures old(Valid()) ==> Valid()
    {
      ghost var a := Data();
      if WellFormed(a) {
        RefreshKeepsWellFormed(a, today);
      }
      if today !in days {
        days := days[today := []];
        order := order + [today];
      }
      if farthestDate < today {
        farthestDate := today;
      } else if farthestDate > today {
        AddDays(today, farthestDate);
      }
    }
  }
}
