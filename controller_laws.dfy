/** What the controller promises, proved about the functions of `ControllerSpec`. */
module ControllerLaws {
  import opened Wrappers
  import opened Text
  import opened Dates
  import opened AgendaSpec
  import opened AgendaLaws
  import opened AgendaFormat
  import opened ControllerSpec

  // ---------------------------------------------------------------------
  // _parse_date and next_enum

  /** A date argument with a `+` is never `today` or `now`, nor read as an ISO date:
      only its operand counts. */
  lemma ParseDateOfPlus(s: string, today: Date, fmt: DateFormat)
    requires '+' in s
    ensures ParseDate(s, today, fmt) == OffsetDate(PlusOperand(s), today)
  {
    assert '+' !in "today" && '+' !in "now";
  }

  /** The operand `N` puts the date N days after today, and `-N` N days before it. */
  lemma OffsetDateOfNumber(n: nat, today: Date)
    ensures OffsetDate(ShowNat(n), today) == Success(today + n)
    ensures OffsetDate("-" + ShowNat(n), today) == Success(today - n)
  {
    ParseIntShowNat(n);
  }

  /** An empty operand, a bare sign, or any character after the sign that is not a
      digit, is the value error of `int()`. */
  lemma OffsetDateRejects(operand: string, k: int, today: Date)
    requires 0 <= k < |operand| && !IsDigit(operand[k])
    requires k == 0 ==> operand[0] != '-' && operand[0] != '+'
    ensures OffsetDate(operand, today) == Failure(BadNumber)
    ensures OffsetDate("", today) == Failure(BadNumber)
    ensures OffsetDate("-", today) == Failure(BadNumber) && OffsetDate("+", today) == Failure(BadNumber)
  {
    if operand[0] == '-' || operand[0] == '+' {
      assert !AllDigits(operand[1..]) by { assert operand[1..][k - 1] == operand[k]; }
    }
  }

  /** Two date arguments with a `+` and the same operand read alike. */
  lemma ParseDateSameOperand(s: string, t: string, today: Date, fmt: DateFormat)
    requires '+' in s && '+' in t && PlusOperand(s) == PlusOperand(t)
    ensures ParseDate(s, today, fmt) == ParseDate(t, today, fmt)
  {
    ParseDateOfPlus(s, today, fmt);
    ParseDateOfPlus(t, today, fmt);
  }

  /** `X+Y`, for `X` and `Y` without a `+`, is read as the offset `Y` from today. */
  lemma ParseDateOfPrefixed(x: string, y: string, today: Date, fmt: DateFormat)
    requires '+' !in x && '+' !in y
    ensures ParseDate(x + "+" + y, today, fmt) == OffsetDate(y, today)
  {
    var s := x + "+" + y;
    PlusOperandOf(x, y);
    assert PlusOperand(s) == y;
    ParseDateOfPlus(s, today, fmt);
  }

  /** `+N` counts N days on from today, whatever comes before the `+`. */
  lemma ParseDatePlusNumber(x: string, n: nat, today: Date, fmt: DateFormat)
    requires '+' !in x
    ensures ParseDate(x + "+" + ShowNat(n), today, fmt) == Success(today + n)
  {
    var y := ShowNat(n);
    ParseIntShowNat(n);
    assert ParseInt(y) == Some(n as int);
    ShowNatHasNoPlus(n);
    assert '+' !in y;
    ParseDateOfPrefixed(x, y, today, fmt);
    OffsetDateOfNumber(n, today);
  }

  /** `+-N` counts N days back from today. */
  lemma ParseDatePlusNegative(x: string, n: nat, today: Date, fmt: DateFormat)
    requires '+' !in x
    ensures ParseDate(x + "+" + ("-" + ShowNat(n)), today, fmt) == Success(today - n)
  {
    var y := "-" + ShowNat(n);
    ParseIntShowNat(n);
    assert ParseInt(y) == Some(-(n as int));
    ShowNatHasNoPlus(n);
    assert '+' !in y;
    assert today - n == today + -(n as int);
    ParseDateOfPrefixed(x, y, today, fmt);
    OffsetDateOfNumber(n, today);
  }

  /** The operand of `x + "+" + y`, for `x` without a `+`, is `y` up to its first `+`. */
  lemma PlusOperandOf(x: string, y: string)
    requires '+' !in x
    ensures '+' in x + "+" + y
    ensures PlusOperand(x + "+" + y) == UpTo(y, '+')
  {
    var s := x + "+" + y;
    assert s[|x|] == '+';
    UpToPrefix(x, '+', y);
    assert s[|x| + 1..] == y;
  }

  /** Only the text between the first `+` and the next one counts: what comes before
      the first `+` and after the second is ignored. */
  lemma ParseDateReadsFirstOperand(x: string, y: string, z: string, today: Date, fmt: DateFormat)
    requires '+' !in x && '+' !in y
    ensures ParseDate(x + "+" + y, today, fmt) == ParseDate("+" + y, today, fmt)
    ensures ParseDate(x + "+" + (y + "+" + z), today, fmt) == ParseDate("+" + y, today, fmt)
  {
    PlusOperandOf(x, y);
    PlusOperandOf([], y);
    assert [] + "+" + y == "+" + y;
    PlusOperandOf(x, y + "+" + z);
    UpToPrefix(y, '+', z);
    ParseDateSameOperand(x + "+" + y, "+" + y, today, fmt);
    ParseDateSameOperand(x + "+" + (y + "+" + z), "+" + y, today, fmt);
  }

  /** `next_enum` is a cycle of length three: NOT_STARTED, IN_PROGRESS, DONE. */
  lemma NextStatusCycle(s: TaskStatus)
    ensures NextStatus(NextStatus(s)) != s
    ensures NextStatus(NextStatus(NextStatus(s))) == s
  {
  }

  // ---------------------------------------------------------------------
  // The views

  /** Refreshing adds only empty days, so descriptions stay unique. */
  lemma RefreshKeepsUnique(a: AgendaData, today: Date)
    requires AllUnique(a)
    ensures AllUnique(RefreshSpec(a, today))
  {
    var r := RefreshSpec(a, today);
    forall d | d in r.days ensures UniqueDescriptions(r.days[d]) {
      if d !in a.days {
        assert r.days[d] == [];
      }
    }
  }

  /** `vu` never fails: after the refresh every day from today to the latest date is tracked. */
  lemma UpcomingNeverFails(a: AgendaData, today: Date)
    ensures ViewUpcomingSpec(a, today).outcome == Shown
  {
    var b := RefreshSpec(a, today);
    assert Min(today, b.farthest) == today && Max(today, b.farthest) == b.farthest;
    if a.farthest <= today {
      assert b.farthest == today;
    }
  }

  /** In an agenda whose range has no holes and reaches at least yesterday, and
      which starts no later than today, every view succeeds. */
  lemma ContiguousViewsSucceed(a: AgendaData, today: Date)
    requires WellFormed(a) && Contiguous(a) && a.earliest <= today && a.farthest >= today - 1
    ensures ViewPastSpec(a, today).outcome == Shown
    ensures ViewOverdueSpec(a, today).outcome == Shown
    ensures ViewAgendaSpec(a, today).outcome == Shown
  {
    var b := RefreshSpec(a, today);
    RefreshKeepsContiguity(a, today);
    assert Min(today, b.earliest) == b.earliest && Max(today, b.earliest) == today;
    UpcomingNeverFails(a, today);
    RefreshIdempotent(a, today);
  }

  /** When the agenda was last refreshed more than a day ago, the refresh leaves a
      hole after the old latest date, so `vl` fails with a `KeyError` and the bare
      ENTER, which runs outside the `try`, crashes the program. */
  lemma GapBreaksOverview(a: AgendaData, today: Date, fmt: DateFormat)
    requires WellFormed(a) && a.farthest < today - 1
    ensures ViewOverdueSpec(a, today).outcome == Failed(UnknownDate)
    ensures StepSpec(a, "", today, fmt) == Reply(RefreshSpec(a, today), Crash(UnknownDate))
  {
    var b := RefreshSpec(a, today);
    RefreshLeavesGap(a, today);
    var g := a.farthest + 1;
    assert b.earliest <= g <= today - 1 && g !in b.days;
    assert !TracksRange(b, Min(b.earliest, today - 1), Max(b.earliest, today - 1));
    UpcomingNeverFails(a, today);
    RefreshIdempotent(a, today);
  }

  // ---------------------------------------------------------------------
  // One line of `go`

  /** A non-empty line of only whitespace has no first word: the `IndexError` is
      raised outside the `try` and ends the program. */
  lemma WhitespaceLineCrashes(a: AgendaData, line: string, today: Date, fmt: DateFormat)
    requires Indexed(a) && line != [] && AllSpace(line)
    ensures StepSpec(a, line, today, fmt) == Reply(a, Crash(EmptyCommand))
  {
    SplitWsSpaces([], line);
    assert [] + line == line;
    assert IsSpace(line[0]);
  }

  /** `q` is not a quit command: it is reported as unrecognised. */
  lemma QuitAliasIsInvalid(a: AgendaData, today: Date, fmt: DateFormat)
    requires Indexed(a)
    ensures StepSpec(a, "q", today, fmt) == Reply(a, Invalid)
  {
    SplitWsLeadingWord("q", "");
    assert "q" + "" == "q";
  }

  /** `sq ` with a trailing blank is not `sq`: its first word `sq` is not in the
      command table, so it is reported as unrecognised and nothing is saved. */
  lemma SaveQuitWithBlankIsInvalid(a: AgendaData, today: Date, fmt: DateFormat)
    requires Indexed(a)
    ensures StepSpec(a, "sq ", today, fmt) == Reply(a, Invalid)
  {
    SplitWsLeadingWord("sq", " ");
    assert SplitWs(" ") == SplitWs(" "[1..]) == [];
    assert "sq" + " " == "sq ";
  }

  /** `a DATE WORDS...` appends a `NOT_STARTED` task whose description is the words
      joined by single spaces, and fails only when that day already has it. */
  lemma AddItemAppends(a: AgendaData, args: seq<string>, today: Date, fmt: DateFormat)
    requires args != [] && ParseDate(args[0], today, fmt).Success?
    ensures var d := ParseDate(args[0], today, fmt).value;
      var t := Task(Join(args[1..], " "), NotStarted);
      var r := AddItemSpec(a, args, today, fmt);
      && (r.Failure? <==> d in a.days && t.description in Descriptions(a.days[d]))
      && (r.Failure? ==> r.error == DuplicateTask)
      && (r.Success? ==> r.value.days[d] == (if d in a.days then a.days[d] else []) + [t])
  {
    var d := ParseDate(args[0], today, fmt).value;
    var desc := Join(args[1..], " ");
    assert AddItemSpec(a, args, today, fmt) == AddTaskSpec(a, d, desc, NotStarted, today);
    if !(d in a.days && desc in Descriptions(a.days[d])) {
      AddTaskSucceeds(a, d, desc, NotStarted, today);
    }
  }

  /** Every date tracked in `a` is tracked in `b` with the same task list, and every
      date `b` adds has no task. */
  ghost predicate KeepsTasks(a: AgendaData, b: AgendaData) {
    && (forall d :: d in a.days ==> d in b.days && b.days[d] == a.days[d])
    && (forall d :: d in b.days && d !in a.days ==> b.days[d] == [])
  }

  /** Whatever a view shows, it changes no task list. */
  lemma ViewsKeepTasks(a: AgendaData, today: Date)
    ensures KeepsTasks(a, ViewUpcomingSpec(a, today).state)
    ensures KeepsTasks(a, ViewPastSpec(a, today).state)
    ensures KeepsTasks(a, ViewOverdueSpec(a, today).state)
    ensures KeepsTasks(a, ViewAgendaSpec(a, today).state)
  {
    var b := RefreshSpec(a, today);
    assert KeepsTasks(a, b);
    assert KeepsTasks(b, RefreshSpec(b, today));
  }

  /** A handler that does not succeed changes no task list, and saving changes nothing. */
  lemma HandlerKeepsTasks(a: AgendaData, name: string, args: seq<string>, today: Date, fmt: DateFormat)
    requires Indexed(a) && name in Commands
    ensures !HandlerSpec(a, name, args, today, fmt).outcome.Shown? ==> KeepsTasks(a, HandlerSpec(a, name, args, today, fmt).state)
    ensures HandlerSpec(a, name, args, today, fmt).outcome.Saved? ==> HandlerSpec(a, name, args, today, fmt).state == a
  {
    var r := HandlerSpec(a, name, args, today, fmt);
    if name == "" || name == "vu" || name == "vp" || name == "vl" {
      ViewsKeepTasks(a, today);
    } else if name == "help" || name == "s" {
      assert r.state == a;
    } else if name == "a" {
      assert r == Changed(a, AddItemSpec(a, args, today, fmt));
    } else if name == "r" {
      assert r == Changed(a, RemoveItemSpec(a, args, today, fmt));
    } else if name == "m" {
      assert r == Changed(a, ModifyItemSpec(a, args, today, fmt));
    } else {
      assert r == Changed(a, UpdateItemSpec(a, args, today, fmt));
    }
  }

  /** A line that fails, crashes, is not recognised or asks to quit changes no task
      list: at most the refresh of a view has tracked more empty days. Saving,
      quitting and unrecognised lines change nothing at all. */
  lemma NoTaskChangesUnlessShown(a: AgendaData, line: string, today: Date, fmt: DateFormat)
    requires Indexed(a)
    ensures !StepSpec(a, line, today, fmt).outcome.Shown? ==> KeepsTasks(a, StepSpec(a, line, today, fmt).state)
    ensures var r := StepSpec(a, line, today, fmt);
      (r.outcome.Invalid? || r.outcome.AskQuit? || r.outcome.SaveAndQuit? || r.outcome.Saved?) ==> r.state == a
  {
    if line == "" {
      ViewsKeepTasks(a, today);
    } else if line != "sq" && line != "quit" {
      var words := SplitWs(line);
      if words != [] && words[0] in Commands {
        assert StepSpec(a, line, today, fmt) == HandlerSpec(a, words[0], words[1..], today, fmt);
        HandlerKeepsTasks(a, words[0], words[1..], today, fmt);
      }
    }
  }

  // ---------------------------------------------------------------------
  // What every line keeps

  lemma ViewsKeepInvariants(a: AgendaData, today: Date)
    requires WellFormed(a)
    ensures WellFormed(RefreshSpec(a, today))
    ensures WellFormed(ViewAgendaSpec(a, today).state)
    ensures AllUnique(a) ==> AllUnique(RefreshSpec(a, today))
    ensures AllUnique(a) ==> AllUnique(ViewAgendaSpec(a, today).state)
  {
    var b := RefreshSpec(a, today);
    RefreshKeepsWellFormed(a, today);
    RefreshKeepsWellFormed(b, today);
    if AllUnique(a) {
      RefreshKeepsUnique(a, today);
      RefreshKeepsUnique(b, today);
    }
  }

  lemma AddItemKeepsInvariants(a: AgendaData, args: seq<string>, today: Date, fmt: DateFormat)
    requires WellFormed(a) && AddItemSpec(a, args, today, fmt).Success?
    ensures WellFormed(AddItemSpec(a, args, today, fmt).value)
    ensures AllUnique(a) ==> AllUnique(AddItemSpec(a, args, today, fmt).value)
  {
    var d := ParseDate(args[0], today, fmt).value;
    var desc := Join(args[1..], " ");
    assert AddItemSpec(a, args, today, fmt) == AddTaskSpec(a, d, desc, NotStarted, today);
    AddTaskKeepsWellFormed(a, d, desc, NotStarted, today);
    if AllUnique(a) {
      AddTaskKeepsUnique(a, d, desc, NotStarted, today);
    }
  }

  lemma RemoveItemKeepsInvariants(a: AgendaData, args: seq<string>, today: Date, fmt: DateFormat)
    requires WellFormed(a) && RemoveItemSpec(a, args, today, fmt).Success?
    ensures WellFormed(RemoveItemSpec(a, args, today, fmt).value)
    ensures AllUnique(a) ==> AllUnique(RemoveItemSpec(a, args, today, fmt).value)
  {
    var (d, i) := DayAndIndex(args, today, fmt).value;
    assert RemoveItemSpec(a, args, today, fmt).value == RemoveTaskSpec(a, d, i).value.0;
    RemoveTaskKeepsInvariants(a, d, i);
  }

  lemma ModifyItemKeepsInvariants(a: AgendaData, args: seq<string>, today: Date, fmt: DateFormat)
    requires WellFormed(a) && ModifyItemSpec(a, args, today, fmt).Success?
    ensures WellFormed(ModifyItemSpec(a, args, today, fmt).value)
    ensures AllUnique(a) ==> AllUnique(ModifyItemSpec(a, args, today, fmt).value)
  {
    var (d, i) := DayAndIndex(args, today, fmt).value;
    var desc := Join(args[2..], " ");
    assert ModifyItemSpec(a, args, today, fmt).value == ModifyTaskSpec(a, d, i, desc).value.0;
    ModifyTaskSucceeds(a, d, i, desc);
  }

  lemma UpdateItemKeepsInvariants(a: AgendaData, args: seq<string>, today: Date, fmt: DateFormat)
    requires WellFormed(a) && UpdateItemSpec(a, args, today, fmt).Success?
    ensures WellFormed(UpdateItemSpec(a, args, today, fmt).value)
    ensures AllUnique(a) ==> AllUnique(UpdateItemSpec(a, args, today, fmt).value)
  {
    var (d, i) := DayAndIndex(args, today, fmt).value;
    var status := NextStatus(a.days[d][PyIndex(a.days[d], i)].status);
    assert UpdateItemSpec(a, args, today, fmt).value == UpdateStatusSpec(a, d, i, status).value.0;
    UpdateStatusSucceeds(a, d, i, status);
  }

  /** Every handler keeps the agenda well formed and descriptions unique within each day. */
  lemma HandlerKeepsInvariants(a: AgendaData, name: string, args: seq<string>, today: Date, fmt: DateFormat)
    requires WellFormed(a) && name in Commands
    ensures WellFormed(HandlerSpec(a, name, args, today, fmt).state)
    ensures AllUnique(a) ==> AllUnique(HandlerSpec(a, name, args, today, fmt).state)
  {
    var r := HandlerSpec(a, name, args, today, fmt);
    if name == "" {
      ViewsKeepInvariants(a, today);
    } else if name == "vu" || name == "vp" || name == "vl" {
      assert r.state == RefreshSpec(a, today);
      ViewsKeepInvariants(a, today);
    } else if name == "help" || name == "s" {
      assert r.state == a;
    } else if name == "a" {
      assert r == Changed(a, AddItemSpec(a, args, today, fmt));
      if AddItemSpec(a, args, today, fmt).Success? {
        AddItemKeepsInvariants(a, args, today, fmt);
      }
    } else if name == "r" {
      assert r == Changed(a, RemoveItemSpec(a, args, today, fmt));
      if RemoveItemSpec(a, args, today, fmt).Success? {
        RemoveItemKeepsInvariants(a, args, today, fmt);
      }
    } else if name == "m" {
      assert r == Changed(a, ModifyItemSpec(a, args, today, fmt));
      if ModifyItemSpec(a, args, today, fmt).Success? {
        ModifyItemKeepsInvariants(a, args, today, fmt);
      }
    } else {
      assert r == Changed(a, UpdateItemSpec(a, args, today, fmt));
      if UpdateItemSpec(a, args, today, fmt).Success? {
        UpdateItemKeepsInvariants(a, args, today, fmt);
      }
    }
  }

  /** Every line keeps the agenda well formed, and keeps descriptions unique within
      each day. */
  lemma StepKeepsInvariants(a: AgendaData, line: string, today: Date, fmt: DateFormat)
    requires WellFormed(a)
    ensures WellFormed(StepSpec(a, line, today, fmt).state)
    ensures AllUnique(a) ==> AllUnique(StepSpec(a, line, today, fmt).state)
  {
    if line == "" {
      ViewsKeepInvariants(a, today);
    } else if line != "sq" && line != "quit" {
      var words := SplitWs(line);
      if words != [] && words[0] in Commands {
        assert StepSpec(a, line, today, fmt) == HandlerSpec(a, words[0], words[1..], today, fmt);
        HandlerKeepsInvariants(a, words[0], words[1..], today, fmt);
      }
    }
  }

  // ---------------------------------------------------------------------
  // Every description stays savable

  /** Refreshing adds only empty days, so every description stays savable. */
  lemma RefreshKeepsSavable(a: AgendaData, today: Date)
    requires Savable(a)
    ensures Savable(RefreshSpec(a, today))
  {
  }

  /** `a` stores the words after the date joined by single spaces: a savable description. */
  lemma AddItemKeepsSavable(a: AgendaData, args: seq<string>, today: Date, fmt: DateFormat)
    requires Savable(a) && Words(args) && AddItemSpec(a, args, today, fmt).Success?
    ensures Savable(AddItemSpec(a, args, today, fmt).value)
  {
    var d := ParseDate(args[0], today, fmt).value;
    var desc := Join(args[1..], " ");
    assert AddItemSpec(a, args, today, fmt) == AddTaskSpec(a, d, desc, NotStarted, today);
    JoinedWordsNormalized(args[1..]);
    AddTaskSucceeds(a, d, desc, NotStarted, today);
  }

  /** `r` keeps only tasks that were there. */
  lemma RemoveItemKeepsSavable(a: AgendaData, args: seq<string>, today: Date, fmt: DateFormat)
    requires Savable(a) && RemoveItemSpec(a, args, today, fmt).Success?
    ensures Savable(RemoveItemSpec(a, args, today, fmt).value)
  {
    var (d, i) := DayAndIndex(args, today, fmt).value;
    var ts := a.days[d];
    var us := RemoveFirst(ts, ts[i]);
    assert RemoveItemSpec(a, args, today, fmt).value == a.(days := a.days[d := us]);
    forall t | t in us ensures t in ts {
      assert multiset(us)[t] > 0;
    }
  }

  /** `m` stores the words after the index joined by single spaces. */
  lemma ModifyItemKeepsSavable(a: AgendaData, args: seq<string>, today: Date, fmt: DateFormat)
    requires Savable(a) && Words(args) && ModifyItemSpec(a, args, today, fmt).Success?
    ensures Savable(ModifyItemSpec(a, args, today, fmt).value)
  {
    var (d, i) := DayAndIndex(args, today, fmt).value;
    var desc := Join(args[2..], " ");
    assert ModifyItemSpec(a, args, today, fmt).value == ModifyTaskSpec(a, d, i, desc).value.0;
    ModifyTaskSucceeds(a, d, i, desc);
    JoinedWordsNormalized(args[2..]);
    var ts := a.days[d];
    var us := ts[i := Task(desc, ts[i].status)];
    forall t | t in us ensures Normalized(t.description) {
      var j :| 0 <= j < |us| && us[j] == t;
      if j != i {
        assert us[j] in ts;
      }
    }
  }

  /** `u` changes a status and keeps every description. */
  lemma UpdateItemKeepsSavable(a: AgendaData, args: seq<string>, today: Date, fmt: DateFormat)
    requires Savable(a) && UpdateItemSpec(a, args, today, fmt).Success?
    ensures Savable(UpdateItemSpec(a, args, today, fmt).value)
  {
    var (d, i) := DayAndIndex(args, today, fmt).value;
    var ts := a.days[d];
    var status := NextStatus(ts[PyIndex(ts, i)].status);
    assert UpdateItemSpec(a, args, today, fmt).value == UpdateStatusSpec(a, d, i, status).value.0;
    UpdateStatusSucceeds(a, d, i, status);
    var us := ts[i := Task(ts[i].description, status)];
    forall t | t in us ensures Normalized(t.description) {
      var j :| 0 <= j < |us| && us[j] == t;
      assert ts[j] in ts;
    }
  }

  /** Every handler, given the words of a command line, keeps every description savable. */
  lemma HandlerKeepsSavable(a: AgendaData, name: string, args: seq<string>, today: Date, fmt: DateFormat)
    requires Indexed(a) && name in Commands && Savable(a) && Words(args)
    ensures Savable(HandlerSpec(a, name, args, today, fmt).state)
  {
    var r := HandlerSpec(a, name, args, today, fmt);
    if name == "" {
      RefreshKeepsSavable(a, today);
      RefreshKeepsSavable(RefreshSpec(a, today), today);
    } else if name == "vu" || name == "vp" || name == "vl" {
      assert r.state == RefreshSpec(a, today);
      RefreshKeepsSavable(a, today);
    } else if name == "help" || name == "s" {
      assert r.state == a;
    } else if name == "a" {
      assert r == Changed(a, AddItemSpec(a, args, today, fmt));
      if AddItemSpec(a, args, today, fmt).Success? {
        AddItemKeepsSavable(a, args, today, fmt);
      }
    } else if name == "r" {
      assert r == Changed(a, RemoveItemSpec(a, args, today, fmt));
      if RemoveItemSpec(a, args, today, fmt).Success? {
        RemoveItemKeepsSavable(a, args, today, fmt);
      }
    } else if name == "m" {
      assert r == Changed(a, ModifyItemSpec(a, args, today, fmt));
      if ModifyItemSpec(a, args, today, fmt).Success? {
        ModifyItemKeepsSavable(a, args, today, fmt);
      }
    } else {
      assert r == Changed(a, UpdateItemSpec(a, args, today, fmt));
      if UpdateItemSpec(a, args, today, fmt).Success? {
        UpdateItemKeepsSavable(a, args, today, fmt);
      }
    }
  }

  /** Every line keeps every description savable, so the agenda `sq` or `s` writes
      always reads back. */
  lemma StepKeepsSavable(a: AgendaData, line: string, today: Date, fmt: DateFormat)
    requires Indexed(a) && Savable(a)
    ensures Savable(StepSpec(a, line, today, fmt).state)
  {
    if line == "" {
      RefreshKeepsSavable(a, today);
      RefreshKeepsSavable(RefreshSpec(a, today), today);
    } else if line != "sq" && line != "quit" {
      var words := SplitWs(line);
      if words != [] && words[0] in Commands {
        assert StepSpec(a, line, today, fmt) == HandlerSpec(a, words[0], words[1..], today, fmt);
        HandlerKeepsSavable(a, words[0], words[1..], today, fmt);
      }
    }
  }

  /** `sq` writes a text from which the loading constructor restores every day
      that has tasks, with its tasks in order. */
  lemma SaveAndQuitRestores(a: AgendaData, today: Date, later: Date, fmt: DateFormat)
    requires WellFormed(a) && IsoLike(fmt) && Savable(a)
    ensures StepSpec(a, "sq", today, fmt).outcome.SaveAndQuit?
    ensures var text := StepSpec(a, "sq", today, fmt).outcome.text;
      && LoadSpec(Some(text), later, fmt).Success?
      && forall d :: d in a.days && a.days[d] != [] ==>
           d in LoadSpec(Some(text), later, fmt).value.days && LoadSpec(Some(text), later, fmt).value.days[d] == a.days[d]
  {
    SaveLoadRoundTrip(a, fmt, later);
  }
}
