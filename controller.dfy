/** The `AgendaCommandLineController` class: each command handler and one turn of
    the `go` loop, run against an `Agenda` object and proved against the functions
    of `ControllerSpec`. What the views print is left out; what they read and the
    error they raise are kept. */
module AgendaController {
  import opened Wrappers
  import opened Text
  import opened Dates
  import opened AgendaSpec
  import opened AgendaFormat
  import opened AgendaStore
  import opened ControllerSpec
  import opened ControllerLaws

  class Controller {
    /** The agenda the controller changes, and how it renders and reads dates. */
    const agenda: Agenda
    const fmt: DateFormat

    constructor(agenda: Agenda, fmt: DateFormat)
      ensures this.agenda == agenda && this.fmt == fmt
    {
      this.agenda := agenda;
      this.fmt := fmt;
    }

    /** The loop `for day_date in date_range_inclusive(from, to): get_tasks(day_date)`
        of a view: it stops at the first untracked date. */
    method WalkRange(from: Date, to: Date) returns (o: Outcome)
      ensures o == VisitRange(agenda.Data(), from, to)
    {
      var range := DateRangeInclusive(from, to);
      for k := 0 to |range|
        invariant forall j :: 0 <= j < k ==> range[j] in agenda.days
      {
        var r := agenda.GetTasks(range[k]);
        if r.Failure? {
          assert Min(from, to) <= range[k] <= Max(from, to);
          return Failed(UnknownDate);
        }
      }
      forall d | Min(from, to) <= d <= Max(from, to)
        ensures d in agenda.days
      {
        var j := if from <= to then d - from else from - d;
        assert range[j] == d;
      }
      return Shown;
    }

    /** `view_upcoming`: refresh, then walk from today to the latest date. */
    method ViewUpcoming(today: Date) returns (o: Outcome)
      modifies agenda
      ensures Reply(agenda.Data(), o) == ViewUpcomingSpec(old(agenda.Data()), today)
    {
      agenda.RefreshTodayDate(today);
      o := WalkRange(today, agenda.LatestDate());
    }

    /** `view_past`: refresh, then walk from today back to the earliest date. */
    method ViewPast(today: Date) returns (o: Outcome)
      modifies agenda
      ensures Reply(agenda.Data(), o) == ViewPastSpec(old(agenda.Data()), today)
    {
      agenda.RefreshTodayDate(today);
      o := WalkRange(today, agenda.EarliestDate());
    }

    /** `view_overdue`: refresh; nothing to walk when the earliest date is today. */
    method ViewOverdue(today: Date) returns (o: Outcome)
      modifies agenda
      ensures Reply(agenda.Data(), o) == ViewOverdueSpec(old(agenda.Data()), today)
    {
      agenda.RefreshTodayDate(today);
      if agenda.EarliestDate() == today {
        return Shown;
      }
      o := WalkRange(agenda.EarliestDate(), today - 1);
    }

    /** `view_agenda`: the upcoming days, then the overdue items. */
    method ViewAgenda(today: Date) returns (o: Outcome)
      modifies agenda
      ensures Reply(agenda.Data(), o) == ViewAgendaSpec(old(agenda.Data()), today)
    {
      o := ViewUpcoming(today);
      if o != Shown {
        return;
      }
      o := ViewOverdue(today);
    }

    /** `save_agenda`: the text written to the agenda file. */
    method SaveAgenda() returns (text: string)
      requires Indexed(agenda.Data())
      ensures text == SaveText(agenda.Data(), fmt)
    {
      text := agenda.Save(fmt);
    }

    /** `add_item(args)`. */
    method AddItem(args: seq<string>, today: Date) returns (o: Outcome)
      modifies agenda
      ensures Reply(agenda.Data(), o) == Changed(old(agenda.Data()), AddItemSpec(old(agenda.Data()), args, today, fmt))
    {
      if args == [] {
        return Failed(MissingArgument);
      }
      var day := ParseDate(args[0], today, fmt);
      if day.Failure? {
        return Failed(day.error);
      }
      var err := agenda.AddTask(day.value, Join(args[1..], " "), NotStarted, today);
      if err.Some? {
        return Failed(err.value);
      }
      return Shown;
    }

    /** `remove_item(args)`. */
    method RemoveItem(args: seq<string>, today: Date) returns (o: Outcome)
      modifies agenda
      ensures Reply(agenda.Data(), o) == Changed(old(agenda.Data()), RemoveItemSpec(old(agenda.Data()), args, today, fmt))
    {
      var parsed := DayAndIndex(args, today, fmt);
      if parsed.Failure? {
        return Failed(parsed.error);
      }
      var (day, index) := parsed.value;
      var r := agenda.RemoveTask(day, index);
      if r.Failure? {
        return Failed(r.error);
      }
      return Shown;
    }

    /** `update_description_item(args)`. */
    method ModifyItem(args: seq<string>, today: Date) returns (o: Outcome)
      modifies agenda
      ensures Reply(agenda.Data(), o) == Changed(old(agenda.Data()), ModifyItemSpec(old(agenda.Data()), args, today, fmt))
    {
      var parsed := DayAndIndex(args, today, fmt);
      if parsed.Failure? {
        return Failed(parsed.error);
      }
      var (day, index) := parsed.value;
      var r := agenda.ModifyTask(day, index, Join(args[2..], " "));
      if r.Failure? {
        return Failed(r.error);
      }
      return Shown;
    }

    /** `update_status_item(args)`: the old status is read with Python indexing, and
        the task moves to the next status of the cycle. */
    method UpdateItem(args: seq<string>, today: Date) returns (o: Outcome)
      modifies agenda
      ensures Reply(agenda.Data(), o) == Changed(old(agenda.Data()), UpdateItemSpec(old(agenda.Data()), args, today, fmt))
    {
      var parsed := DayAndIndex(args, today, fmt);
      if parsed.Failure? {
        return Failed(parsed.error);
      }
      var (day, index) := parsed.value;
      var tasks := agenda.GetTasks(day);
      if tasks.Failure? {
        return Failed(tasks.error);
      }
      var ts := tasks.value;
      if !(-|ts| <= index < |ts|) {
        return Failed(IndexOutOfRange);
      }
      var prior := ts[PyIndex(ts, index)].status;
      var r := agenda.UpdateTaskStatus(day, index, NextStatus(prior));
      if r.Failure? {
        return Failed(r.error);
      }
      return Shown;
    }

    /** `self.commands[name](args)`. */
    method Dispatch(name: string, args: seq<string>, today: Date) returns (o: Outcome)
      requires agenda.Valid() && name in Commands
      modifies agenda
      ensures Reply(agenda.Data(), o) == HandlerSpec(old(agenda.Data()), name, args, today, fmt)
    {
      if name == "" {
        o := ViewAgenda(today);
      } else if name == "vu" {
        o := ViewUpcoming(today);
      } else if name == "vp" {
        o := ViewPast(today);
      } else if name == "vl" {
        o := ViewOverdue(today);
      } else if name == "help" {
        o := Shown;
      } else if name == "s" {
        var text := SaveAgenda();
        o := Saved(text);
      } else if name == "a" {
        o := AddItem(args, today);
      } else if name == "r" {
        o := RemoveItem(args, today);
      } else if name == "m" {
        o := ModifyItem(args, today);
      } else {
        o := UpdateItem(args, today);
      }
    }

    /** One turn of `go` on the input line `line`; the agenda stays well formed, and
        what it saves stays readable. */
    method Step(line: string, today: Date) returns (o: Outcome)
      requires agenda.Valid()
      modifies agenda
      ensures Reply(agenda.Data(), o) == StepSpec(old(agenda.Data()), line, today, fmt)
      ensures agenda.Valid()
      ensures AllUnique(old(agenda.Data())) ==> AllUnique(agenda.Data())
      ensures Savable(old(agenda.Data())) ==> Savable(agenda.Data())
    {
      StepKeepsInvariants(agenda.Data(), line, today, fmt);
      if Savable(agenda.Data()) {
        StepKeepsSavable(agenda.Data(), line, today, fmt);
      }
      if line == "" {
        o := ViewAgenda(today);
        if o.Failed? {
          o := Crash(o.error);
        }
        return;
      }
      if line == "sq" {
        var text := SaveAgenda();
        return SaveAndQuit(text);
      }
      if line == "quit" {
        return AskQuit;
      }
      var words := SplitWs(line);
      if words == [] {
        return Crash(EmptyCommand);
      }
      if words[0] !in Commands {
        return Invalid;
      }
      o := Dispatch(words[0], words[1..], today);
    }
  }
}
