/** The command-line controller without its terminal: how a date argument is read,
    what each command does to the agenda, and what one input line leads to. The
    `Controller` class proves its methods against these functions. */
module ControllerSpec {
  import opened Wrappers
  import opened Text
  import opened Dates
  import opened AgendaSpec
  import opened AgendaFormat

  // ---------------------------------------------------------------------
  // _parse_date and next_enum

  /** The text after the first `+` of `s`, up to the next `+` or the end. */
  function PlusOperand(s: string): string
    requires '+' in s
  {
    UpTo(s[|UpTo(s, '+')| + 1..], '+')
  }

  /** `date_string.split('+')[1]` is the operand: the text between the first `+`
      and the next one. */
  lemma PlusOperandIsSplit(s: string)
    requires '+' in s
    ensures |Split(s, "+")| >= 2 && Split(s, "+")[1] == PlusOperand(s)
  {
    SplitAtChar(s, '+');
    SplitAtChar(s[|UpTo(s, '+')| + 1..], '+');
  }

  /** The words `_parse_date` reads as today's date. */
  predicate TodayWord(s: string) {
    s == "today" || s == "now"
  }

  /** The date `int(operand)` days after `today`, or the error `int()` raises. */
  function OffsetDate(operand: string, today: Date): Result<Date, Error> {
    match ParseInt(operand)
    case None => Failure(BadNumber)
    case Some(n) => Success(today + n)
  }

  /** `_parse_date(date_string)`: `today` and `now` first, then `+N` anywhere in
      the text, then an ISO date. */
  function ParseDate(s: string, today: Date, fmt: DateFormat): (r: Result<Date, Error>)
    ensures TodayWord(s) ==> r == Success(today)
    ensures !TodayWord(s) && '+' in s ==>
      && (r.Success? <==> ParseInt(PlusOperand(s)).Some?)
      && (r.Success? ==> r.value == today + ParseInt(PlusOperand(s)).value)
      && (r.Failure? ==> r.error == BadNumber)
    ensures !TodayWord(s) && '+' !in s ==>
      && (r.Success? <==> fmt.parse(s).Some?)
      && (r.Success? ==> r.value == fmt.parse(s).value)
      && (r.Failure? ==> r.error == BadDate)
  {
    if TodayWord(s) then Success(today)
    else if '+' in s then OffsetDate(PlusOperand(s), today)
    else
      match fmt.parse(s)
      case None => Failure(BadDate)
      case Some(d) => Success(d)
  }

  /** `next_enum[status]`: the status the `u` command moves a task to. */
  function NextStatus(s: TaskStatus): (r: TaskStatus)
    ensures r != s
  {
    match s
    case NotStarted => InProgress
    case InProgress => Done
    case Done => NotStarted
  }

  // ---------------------------------------------------------------------
  // The views

  /** What a command line leads to. */
  datatype Outcome =
    | Shown              // the command ran: a view, the help, or a successful change
    | Saved(text: string)        // `s`: the text written to the agenda file
    | Invalid            // the first word is not a command
    | Failed(error: Error)       // the handler raised; the error is reported and the loop goes on
    | Crash(error: Error)        // raised outside the `try`: the program ends with the error
    | SaveAndQuit(text: string)  // `sq`: the text written, then the loop ends
    | AskQuit            // `quit`: the confirmation prompt follows

  /** The agenda after a command, and what the command led to. */
  datatype Reply = Reply(state: AgendaData, outcome: Outcome)

  /** Every date from `lo` to `hi` is tracked. */
  ghost predicate TracksRange(a: AgendaData, lo: Date, hi: Date) {
    forall d :: lo <= d <= hi ==> d in a.days
  }

  /** Walking `date_range_inclusive(from, to)` with `get_tasks` on each date: a
      `KeyError` on the first untracked one. */
  ghost function VisitRange(a: AgendaData, from: Date, to: Date): (o: Outcome)
    ensures o == Shown || o == Failed(UnknownDate)
  {
    if TracksRange(a, Min(from, to), Max(from, to)) then Shown else Failed(UnknownDate)
  }

  /** `print_upcoming_days`: refresh, then the days from today to the latest date. */
  ghost function ViewUpcomingSpec(a: AgendaData, today: Date): (r: Reply)
    ensures r.state == RefreshSpec(a, today)
  {
    var b := RefreshSpec(a, today);
    Reply(b, VisitRange(b, today, b.farthest))
  }

  /** `print_past_days`: refresh, then the days from today back to the earliest date. */
  ghost function ViewPastSpec(a: AgendaData, today: Date): (r: Reply)
    ensures r.state == RefreshSpec(a, today)
  {
    var b := RefreshSpec(a, today);
    Reply(b, VisitRange(b, today, b.earliest))
  }

  /** `print_overdue`: refresh; nothing is overdue when the earliest date is today,
      otherwise the days from the earliest date to yesterday. */
  ghost function ViewOverdueSpec(a: AgendaData, today: Date): (r: Reply)
    ensures r.state == RefreshSpec(a, today)
  {
    var b := RefreshSpec(a, today);
    Reply(b, if b.earliest == today then Shown else VisitRange(b, b.earliest, today - 1))
  }

  /** `print_agenda`: the upcoming days, then the overdue items. */
  ghost function ViewAgendaSpec(a: AgendaData, today: Date): (r: Reply)
    ensures r.outcome == Shown || r.outcome == Failed(UnknownDate)
  {
    var u := ViewUpcomingSpec(a, today);
    if u.outcome != Shown then u else ViewOverdueSpec(u.state, today)
  }

  // ---------------------------------------------------------------------
  // The changing commands

  /** `add_item(args)`: `a DATE WORDS...`, a new `NOT_STARTED` task. */
  function AddItemSpec(a: AgendaData, args: seq<string>, today: Date, fmt: DateFormat): (r: Result<AgendaData, Error>)
    ensures args == [] ==> r == Failure(MissingArgument)
  {
    if args == [] then Failure(MissingArgument)
    else
      match ParseDate(args[0], today, fmt)
      case Failure(e) => Failure(e)
      case Success(d) => AddTaskSpec(a, d, Join(args[1..], " "), NotStarted, today)
  }

  /** The date and `int(args[1])` the `r`, `m` and `u` commands start with, read in
      that order. */
  function DayAndIndex(args: seq<string>, today: Date, fmt: DateFormat): (r: Result<(Date, int), Error>)
    ensures r.Success? <==> |args| >= 2 && ParseDate(args[0], today, fmt).Success? && ParseInt(args[1]).Some?
    ensures r.Success? ==> r.value == (ParseDate(args[0], today, fmt).value, ParseInt(args[1]).value)
  {
    if args == [] then Failure(MissingArgument)
    else
      match ParseDate(args[0], today, fmt)
      case Failure(e) => Failure(e)
      case Success(d) =>
        if |args| < 2 then Failure(MissingArgument)
        else
          match ParseInt(args[1])
          case None => Failure(BadNumber)
          case Some(i) => Success((d, i))
  }

  /** `remove_item(args)`: `r DATE INDEX`. */
  function RemoveItemSpec(a: AgendaData, args: seq<string>, today: Date, fmt: DateFormat): Result<AgendaData, Error> {
    match DayAndIndex(args, today, fmt)
    case Failure(e) => Failure(e)
    case Success((d, i)) =>
      match RemoveTaskSpec(a, d, i)
      case Failure(e) => Failure(e)
      case Success((b, _)) => Success(b)
  }

  /** `update_description_item(args)`: `m DATE INDEX WORDS...`. */
  function ModifyItemSpec(a: AgendaData, args: seq<string>, today: Date, fmt: DateFormat): Result<AgendaData, Error> {
    match DayAndIndex(args, today, fmt)
    case Failure(e) => Failure(e)
    case Success((d, i)) =>
      match ModifyTaskSpec(a, d, i, Join(args[2..], " "))
      case Failure(e) => Failure(e)
      case Success((b, _)) => Success(b)
  }

  /** Python's `ts[i]`: a negative index counts from the end. */
  function PyIndex(ts: seq<Task>, i: int): int {
    if i < 0 then i + |ts| else i
  }

  /** `update_status_item(args)`: `u DATE INDEX`. The old status is read with
      Python indexing first, so a negative index only fails at the assertion of
      `update_task_status`. */
  function UpdateItemSpec(a: AgendaData, args: seq<string>, today: Date, fmt: DateFormat): Result<AgendaData, Error> {
    match DayAndIndex(args, today, fmt)
    case Failure(e) => Failure(e)
    case Success((d, i)) =>
      if d !in a.days then Failure(UnknownDate)
      else if !(-|a.days[d]| <= i < |a.days[d]|) then Failure(IndexOutOfRange)
      else
        var prior := a.days[d][PyIndex(a.days[d], i)].status;
        match UpdateStatusSpec(a, d, i, NextStatus(prior))
        case Failure(e) => Failure(e)
        case Success((b, _)) => Success(b)
  }

  /** A change that either fails, leaving the agenda as it was, or succeeds. */
  function Changed(a: AgendaData, r: Result<AgendaData, Error>): Reply {
    match r
    case Failure(e) => Reply(a, Failed(e))
    case Success(b) => Reply(b, Shown)
  }

  // ---------------------------------------------------------------------
  // The command table and `go`

  /** The keys of `self.commands`. */
  const Commands: set<string> := {"", "vu", "vp", "vl", "help", "s", "a", "r", "m", "u"}

  /** `self.commands[name](args)` inside the `try`. */
  ghost function HandlerSpec(a: AgendaData, name: string, args: seq<string>, today: Date, fmt: DateFormat): Reply
    requires Indexed(a) && name in Commands
  {
    if name == "" then ViewAgendaSpec(a, today)
    else if name == "vu" then ViewUpcomingSpec(a, today)
    else if name == "vp" then ViewPastSpec(a, today)
    else if name == "vl" then ViewOverdueSpec(a, today)
    else if name == "help" then Reply(a, Shown)
    else if name == "s" then Reply(a, Saved(SaveText(a, fmt)))
    else if name == "a" then Changed(a, AddItemSpec(a, args, today, fmt))
    else if name == "r" then Changed(a, RemoveItemSpec(a, args, today, fmt))
    else if name == "m" then Changed(a, ModifyItemSpec(a, args, today, fmt))
    else Changed(a, UpdateItemSpec(a, args, today, fmt))
  }

  /** One turn of the `go` loop on the input line `line`. */
  ghost function StepSpec(a: AgendaData, line: string, today: Date, fmt: DateFormat): Reply
    requires Indexed(a)
  {
    if line == "" then
      var v := ViewAgendaSpec(a, today);
      Reply(v.state, if v.outcome.Failed? then Crash(v.outcome.error) else v.outcome)
    else if line == "sq" then Reply(a, SaveAndQuit(SaveText(a, fmt)))
    else if line == "quit" then Reply(a, AskQuit)
    else
      var words := SplitWs(line);
      if words == [] then Reply(a, Crash(EmptyCommand))
      else if words[0] !in Commands then Reply(a, Invalid)
      else HandlerSpec(a, words[0], words[1..], today, fmt)
  }
}
