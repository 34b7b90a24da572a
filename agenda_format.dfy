/** The agenda file: what `save` writes and what the loading constructor reads
    back, as functions over strings, and the round trip between them.

    A file is a sequence of day blocks separated by an empty line; a block is a
    date line followed by one `STATUS description` line per task. */
module AgendaFormat {
  import opened Wrappers
  import opened Text
  import opened Dates
  import opened AgendaSpec

  // ---------------------------------------------------------------------
  // save

  /** A task as `save` writes it: `status.value + ' ' + task`. */
  function TaskLine(t: Task): string {
    StatusName(t.status) + " " + t.description
  }

  /** The task lines of a day, each ended by a newline, as `save`'s inner loop appends them. */
  function TaskLines(ts: seq<Task>): string {
    if ts == [] then [] else TaskLines(ts[..|ts| - 1]) + TaskLine(ts[|ts| - 1]) + "\n"
  }

  /** A day as `save` appends it: its date, a newline, its task lines, one more newline. */
  function DayText(fmt: DateFormat, d: Date, ts: seq<Task>): string {
    fmt.render(d) + "\n" + TaskLines(ts) + "\n"
  }

  /** The days listed in `order`, as `save`'s outer loop accumulates them. */
  function DaysText(fmt: DateFormat, days: map<Date, seq<Task>>, order: seq<Date>): string
    requires forall d :: d in order ==> d in days
  {
    if order == [] then []
    else DaysText(fmt, days, order[..|order| - 1]) + DayText(fmt, order[|order| - 1], days[order[|order| - 1]])
  }

  /** One more day appended to the text of the days before it. */
  lemma DaysTextStep(fmt: DateFormat, days: map<Date, seq<Task>>, order: seq<Date>, i: int)
    requires forall d :: d in order ==> d in days
    requires 0 <= i < |order|
    ensures order[i] in days
    ensures DaysText(fmt, days, order[..i + 1]) == DaysText(fmt, days, order[..i]) + DayText(fmt, order[i], days[order[i]])
  {
    assert order[i] in order;
    var prefix := order[..i + 1];
    assert prefix[..|prefix| - 1] == order[..i];
    assert prefix[|prefix| - 1] == order[i];
  }

  /** One more task line appended to the lines before it. */
  lemma TaskLinesTextStep(ts: seq<Task>, j: int)
    requires 0 <= j < |ts|
    ensures TaskLines(ts[..j + 1]) == TaskLines(ts[..j]) + TaskLine(ts[j]) + "\n"
  {
    assert ts[..j + 1][..j] == ts[..j];
    assert ts[..j + 1][j] == ts[j];
  }

  /** The text `save` writes: every day in dictionary order, then `strip()`. */
  function SaveText(a: AgendaData, fmt: DateFormat): string
    requires Indexed(a)
  {
    Strip(DaysText(fmt, a.days, a.order))
  }

  // ---------------------------------------------------------------------
  // load

  /** One task line: `task.split()`; the status is the first word, the description
      the other words joined by single spaces. */
  function ParseTaskLine(line: string): (r: Result<Task, Error>)
    ensures SplitWs(line) == [] <==> r == Failure(MissingStatus)
    ensures r.Success? ==> StatusName(r.value.status) == SplitWs(line)[0]
    ensures r.Success? ==> r.value.description == Join(SplitWs(line)[1..], " ")
  {
    var words := SplitWs(line);
    if words == [] then Failure(MissingStatus)
    else match ParseStatus(words[0])
      case None => Failure(BadStatus)
      case Some(status) => Success(Task(Join(words[1..], " "), status))
  }

  /** The task lines of a block, read in order; the first bad line fails the load. */
  function ParseTaskLines(lines: seq<string>): (r: Result<seq<Task>, Error>)
    ensures r.Success? <==> forall j :: 0 <= j < |lines| ==> ParseTaskLine(lines[j]).Success?
    ensures r.Success? ==> |r.value| == |lines| && forall j :: 0 <= j < |lines| ==> ParseTaskLine(lines[j]) == Success(r.value[j])
  {
    if lines == [] then Success([])
    else
      var init := lines[..|lines| - 1];
      assert forall j :: 0 <= j < |init| ==> init[j] == lines[j];
      match ParseTaskLines(init)
      case Failure(e) => Failure(e)
      case Success(ts) =>
        match ParseTaskLine(lines[|lines| - 1])
        case Failure(e) => Failure(e)
        case Success(t) =>
          assert forall j :: 0 <= j < |init| ==> (ts + [t])[j] == ts[j];
          Success(ts + [t])
  }

  /** One block: nothing when it has no task line (such days are skipped);
      otherwise its date and its tasks. */
  function ParseBlock(block: string, fmt: DateFormat): (r: Result<Option<(Date, seq<Task>)>, Error>)
    ensures |Split(block, "\n")| == 1 ==> r == Success(None)
    ensures |Split(block, "\n")| > 1 && fmt.parse(Split(block, "\n")[0]).None? ==> r == Failure(BadDate)
    ensures |Split(block, "\n")| > 1 && r.Success? ==> r.value.Some?
    ensures r.Success? && r.value.Some? ==>
      var lines := Split(block, "\n");
      && fmt.parse(lines[0]) == Some(r.value.value.0)
      && |r.value.value.1| == |lines| - 1 > 0
      && forall j :: 1 <= j < |lines| ==> ParseTaskLine(lines[j]) == Success(r.value.value.1[j - 1])
  {
    var lines := Split(block, "\n");
    if |lines| == 1 then Success(None)
    else match fmt.parse(lines[0])
      case None => Failure(BadDate)
      case Some(d) =>
        match ParseTaskLines(lines[1..])
        case Failure(e) => Failure(e)
        case Success(ts) => Success(Some((d, ts)))
  }

  /** All blocks, read in order; the first bad block fails the load. */
  function ParseBlocks(blocks: seq<string>, fmt: DateFormat): (r: Result<seq<(Date, seq<Task>)>, Error>)
    ensures r.Success? <==> forall k :: 0 <= k < |blocks| ==> ParseBlock(blocks[k], fmt).Success?
  {
    if blocks == [] then Success([])
    else
      var init := blocks[..|blocks| - 1];
      assert forall k :: 0 <= k < |init| ==> init[k] == blocks[k];
      match ParseBlocks(init, fmt)
      case Failure(e) => Failure(e)
      case Success(ps) =>
        match ParseBlock(blocks[|blocks| - 1], fmt)
        case Failure(e) => Failure(e)
        case Success(None) => Success(ps)
        case Success(Some(p)) => Success(ps + [p])
  }

  /** One block read into the state: its date gets its list (a repeated date keeps
      its place in the key order), and the bounds move out to cover it. */
  function Absorb(r: AgendaData, p: Option<(Date, seq<Task>)>): AgendaData {
    match p
    case None => r
    case Some((d, ts)) =>
      AgendaData(r.days[d := ts], if d in r.days then r.order else r.order + [d],
                 if d < r.earliest then d else r.earliest, if d > r.farthest then d else r.farthest)
  }

  /** The state the loading loop leaves before its final `_add_days`: each block
      replaces its date's list, and the bounds start at `today`. */
  function Collect(ps: seq<(Date, seq<Task>)>, today: Date): (r: AgendaData)
    ensures Indexed(r)
    ensures r.earliest <= today <= r.farthest
    ensures r.days.Keys == set k | 0 <= k < |ps| :: ps[k].0
    ensures forall d :: d in r.days ==> r.earliest <= d <= r.farthest
  {
    if ps == [] then AgendaData(map[], [], today, today)
    else
      var r := Collect(ps[..|ps| - 1], today);
      assert forall k :: 0 <= k < |ps| - 1 ==> ps[..|ps| - 1][k] == ps[k];
      Absorb(r, Some(ps[|ps| - 1]))
  }

  /** One more block of the loading loop: a bad block fails the load, a good one is absorbed. */
  lemma CollectBlocksStep(blocks: seq<string>, fmt: DateFormat, i: int, today: Date)
    requires 0 <= i < |blocks| && ParseBlocks(blocks[..i], fmt).Success?
    ensures ParseBlock(blocks[i], fmt).Failure? ==>
      ParseBlocks(blocks[..i + 1], fmt) == Failure(ParseBlock(blocks[i], fmt).error)
    ensures ParseBlock(blocks[i], fmt).Success? ==>
      && ParseBlocks(blocks[..i + 1], fmt).Success?
      && Collect(ParseBlocks(blocks[..i + 1], fmt).value, today)
         == Absorb(Collect(ParseBlocks(blocks[..i], fmt).value, today), ParseBlock(blocks[i], fmt).value)
  {
    assert blocks[..i + 1][..i] == blocks[..i];
    var ps := ParseBlocks(blocks[..i], fmt).value;
    if ParseBlock(blocks[i], fmt).Success? && ParseBlock(blocks[i], fmt).value.Some? {
      var p := ParseBlock(blocks[i], fmt).value.value;
      assert (ps + [p])[..|ps|] == ps;
    }
  }

  /** A block with a readable date line is read as its task lines. */
  lemma ParseDatedBlock(block: string, fmt: DateFormat, d: Date)
    requires |Split(block, "\n")| > 1 && fmt.parse(Split(block, "\n")[0]) == Some(d)
    ensures ParseTaskLines(Split(block, "\n")[1..]).Failure? ==>
      ParseBlock(block, fmt) == Failure(ParseTaskLines(Split(block, "\n")[1..]).error)
    ensures ParseTaskLines(Split(block, "\n")[1..]).Success? ==>
      ParseBlock(block, fmt) == Success(Some((d, ParseTaskLines(Split(block, "\n")[1..]).value)))
  {
  }

  /** One more task line of a block. */
  lemma TaskLinesStep(tasks: seq<string>, j: int)
    requires 0 <= j < |tasks| && ParseTaskLines(tasks[..j]).Success?
    ensures ParseTaskLine(tasks[j]).Failure? ==> ParseTaskLines(tasks[..j + 1]) == Failure(ParseTaskLine(tasks[j]).error)
    ensures ParseTaskLine(tasks[j]).Success? ==>
      ParseTaskLines(tasks[..j + 1]) == Success(ParseTaskLines(tasks[..j]).value + [ParseTaskLine(tasks[j]).value])
  {
    assert tasks[..j + 1][..j] == tasks[..j];
  }

  /** Loading an existing file whose blocks all read: the collected dates, filled. */
  lemma LoadSpecOfBlocks(text: string, today: Date, fmt: DateFormat)
    requires ParseBlocks(Split(Strip(text), "\n\n"), fmt).Success?
    ensures var c := Collect(ParseBlocks(Split(Strip(text), "\n\n"), fmt).value, today);
      LoadSpec(Some(text), today, fmt) == Success(AddDaysSpec(c, c.earliest, c.farthest))
  {
  }

  /** Filling the collected range gives a well-formed, contiguous agenda whose keys
      all lie in the range. */
  lemma FilledShape(c: AgendaData, today: Date)
    requires Indexed(c) && c.earliest <= today <= c.farthest
    requires forall d :: d in c.days ==> c.earliest <= d <= c.farthest
    ensures var r := AddDaysSpec(c, c.earliest, c.farthest);
      && WellFormed(r) && Contiguous(r)
      && r.earliest <= today <= r.farthest
      && forall d :: d in r.days ==> r.earliest <= d <= r.farthest
  {
    AddDaysKeepsIndexed(c, c.earliest, c.farthest);
  }

  /** The loading constructor: a missing file gives today alone; otherwise the
      stripped text is cut into blocks, the blocks are read, and the range from
      `earliest` to `farthest` is filled. */
  function LoadSpec(file: Option<string>, today: Date, fmt: DateFormat): (r: Result<AgendaData, Error>)
    ensures r.Success? ==> WellFormed(r.value) && Contiguous(r.value)
    ensures r.Success? ==> r.value.earliest <= today <= r.value.farthest
    ensures r.Success? ==> forall d :: d in r.value.days ==> r.value.earliest <= d <= r.value.farthest
    ensures file.Some? ==> (r.Success? <==> ParseBlocks(Split(Strip(file.value), "\n\n"), fmt).Success?)
  {
    match file
    case None => Success(Blank(today))
    case Some(text) =>
      match ParseBlocks(Split(Strip(text), "\n\n"), fmt)
      case Failure(e) => Failure(e)
      case Success(ps) =>
        var c := Collect(ps, today);
        FilledShape(c, today);
        Success(AddDaysSpec(c, c.earliest, c.farthest))
  }

  // ---------------------------------------------------------------------
  // Loading rejects bad lines

  /** A line whose first word is not a status fails the whole load with `BadStatus`,
      rather than being skipped. */
  lemma LoadRejectsBadStatus(text: string, today: Date, fmt: DateFormat, k: int, j: int)
    requires var blocks := Split(Strip(text), "\n\n");
      && 0 <= k < |blocks|
      && var lines := Split(blocks[k], "\n");
      && 1 <= j < |lines|
      && SplitWs(lines[j]) != []
      && ParseStatus(SplitWs(lines[j])[0]).None?
    ensures LoadSpec(Some(text), today, fmt).Failure?
  {
    var blocks := Split(Strip(text), "\n\n");
    BadLineFailsBlock(blocks[k], fmt, j);
    assert !ParseBlocks(blocks, fmt).Success?;
  }

  /** A block with task lines whose date line does not read as a date fails the
      whole load with `BadDate`, rather than being skipped. */
  lemma LoadRejectsBadDate(text: string, today: Date, fmt: DateFormat, k: int)
    requires var blocks := Split(Strip(text), "\n\n");
      && 0 <= k < |blocks|
      && fmt.parse(Split(blocks[k], "\n")[0]).None?
      && Split(blocks[k], "\n")[1..] != []
    ensures LoadSpec(Some(text), today, fmt).Failure?
  {
    var blocks := Split(Strip(text), "\n\n");
    assert ParseBlock(blocks[k], fmt) == Failure(BadDate);
    assert !ParseBlocks(blocks, fmt).Success?;
  }

  /** A task line whose first word is not a status name fails its block. */
  lemma BadLineFailsBlock(block: string, fmt: DateFormat, j: int)
    requires var lines := Split(block, "\n");
      && 1 <= j < |lines|
      && SplitWs(lines[j]) != []
      && ParseStatus(SplitWs(lines[j])[0]).None?
    ensures ParseBlock(block, fmt).Failure?
  {
    var lines := Split(block, "\n");
    assert lines[1..][j - 1] == lines[j];
    assert ParseTaskLine(lines[j]) == Failure(BadStatus);
  }

  /** Once the lines read so far have failed, the rest of the block does not matter:
      the first bad line decides the error. */
  lemma {:induction false} ParseTaskLinesPrefixFailure(lines: seq<string>, m: int)
    requires 0 <= m <= |lines| && ParseTaskLines(lines[..m]).Failure?
    ensures ParseTaskLines(lines) == ParseTaskLines(lines[..m])
    decreases |lines| - m
  {
    if m < |lines| {
      var init := lines[..|lines| - 1];
      assert init[..m] == lines[..m];
      ParseTaskLinesPrefixFailure(init, m);
    } else {
      assert lines[..m] == lines;
    }
  }

  /** Once the blocks read so far have failed, the rest of the file does not matter:
      the first bad block decides the error. */
  lemma {:induction false} ParseBlocksPrefixFailure(blocks: seq<string>, fmt: DateFormat, m: int)
    requires 0 <= m <= |blocks| && ParseBlocks(blocks[..m], fmt).Failure?
    ensures ParseBlocks(blocks, fmt) == ParseBlocks(blocks[..m], fmt)
    decreases |blocks| - m
  {
    if m < |blocks| {
      var init := blocks[..|blocks| - 1];
      assert init[..m] == blocks[..m];
      ParseBlocksPrefixFailure(init, fmt, m);
    } else {
      assert blocks[..m] == blocks;
    }
  }

  // ---------------------------------------------------------------------
  // The round trip

  /** Every description can be written on one line and read back unchanged: it is
      `' '.join(d.split())`, as the command line builds descriptions. */
  ghost predicate Savable(a: AgendaData) {
    forall d :: d in a.days ==> forall t :: t in a.days[d] ==> Normalized(t.description)
  }

  /** The task lines of a block, without their newlines. */
  function Lines(ts: seq<Task>): (ls: seq<string>)
    ensures |ls| == |ts| && forall k :: 0 <= k < |ts| ==> ls[k] == TaskLine(ts[k])
  {
    if ts == [] then [] else Lines(ts[..|ts| - 1]) + [TaskLine(ts[|ts| - 1])]
  }

  /** A day's block without the empty line that follows it. */
  function Block(fmt: DateFormat, d: Date, ts: seq<Task>): string {
    Join([fmt.render(d)] + Lines(ts), "\n")
  }

  function Blocks(fmt: DateFormat, days: map<Date, seq<Task>>, order: seq<Date>): (bs: seq<string>)
    requires forall d :: d in order ==> d in days
    ensures |bs| == |order| && forall k :: 0 <= k < |order| ==> bs[k] == Block(fmt, order[k], days[order[k]])
  {
    if order == [] then []
    else Blocks(fmt, days, order[..|order| - 1]) + [Block(fmt, order[|order| - 1], days[order[|order| - 1]])]
  }

  /** The last line with its trailing whitespace removed, as `strip()` leaves it. */
  function TrimLast(ls: seq<string>): (r: seq<string>)
    ensures |r| == |ls|
    ensures forall k :: 0 <= k < |ls| - 1 ==> r[k] == ls[k]
    ensures |ls| > 0 ==> r[|ls| - 1] == TrimRight(ls[|ls| - 1])
  {
    if ls == [] then [] else ls[..|ls| - 1] + [TrimRight(ls[|ls| - 1])]
  }

  /** A block with one more task is the shorter block, a newline and the task's line. */
  lemma BlockLast(fmt: DateFormat, d: Date, ts: seq<Task>)
    requires ts != []
    ensures Block(fmt, d, ts) == Block(fmt, d, ts[..|ts| - 1]) + "\n" + TaskLine(ts[|ts| - 1])
  {
    var init := ts[..|ts| - 1];
    var ls := [fmt.render(d)] + Lines(ts);
    assert Lines(ts) == Lines(init) + [TaskLine(ts[|ts| - 1])];
    assert ls[..|ls| - 1] == [fmt.render(d)] + Lines(init);
    JoinLast(ls, "\n");
  }

  /** A date line and the task lines after it, as `save` appends them, are the
      block followed by one newline. */
  lemma {:induction false} DayLinesIsBlock(fmt: DateFormat, d: Date, ts: seq<Task>)
    ensures fmt.render(d) + "\n" + TaskLines(ts) == Block(fmt, d, ts) + "\n"
  {
    var r := fmt.render(d);
    if ts == [] {
      assert TaskLines(ts) == [];
      assert [r] + Lines(ts) == [r];
    } else {
      var init := ts[..|ts| - 1];
      var line := TaskLine(ts[|ts| - 1]);
      DayLinesIsBlock(fmt, d, init);
      BlockLast(fmt, d, ts);
      var x := TaskLines(init);
      assert TaskLines(ts) == x + line + "\n";
      AppendAssoc(x, line, "\n");
      AppendAssoc(r + "\n", x, line + "\n");
      assert r + "\n" + TaskLines(ts) == (r + "\n" + x) + (line + "\n");
    }
  }

  lemma DayTextIsBlock(fmt: DateFormat, d: Date, ts: seq<Task>)
    ensures DayText(fmt, d, ts) == Block(fmt, d, ts) + "\n\n"
    ensures fmt.render(d) + "\n" + TaskLines(ts) == Block(fmt, d, ts) + "\n"
  {
    DayLinesIsBlock(fmt, d, ts);
  }

  lemma {:induction false} DaysTextIsJoin(fmt: DateFormat, days: map<Date, seq<Task>>, order: seq<Date>)
    requires forall d :: d in order ==> d in days
    requires order != []
    ensures DaysText(fmt, days, order) == Join(Blocks(fmt, days, order), "\n\n") + "\n\n"
  {
    var n := |order|;
    var last := order[n - 1];
    DayTextIsBlock(fmt, last, days[last]);
    if n > 1 {
      var init := order[..n - 1];
      DaysTextIsJoin(fmt, days, init);
      var bs := Blocks(fmt, days, order);
      assert bs[..n - 1] == Blocks(fmt, days, init);
      JoinLast(bs, "\n\n");
    }
  }

  /** A status name is one word. */
  lemma StatusNameIsWord(s: TaskStatus)
    ensures StatusName(s) != [] && NoSpace(StatusName(s)) && '\n' !in StatusName(s)
  {
  }

  /** A task line is a non-empty line with a visible first character. */
  lemma TaskLineShape(t: Task)
    requires Normalized(t.description)
    ensures var l := TaskLine(t); l != [] && !IsSpace(l[0]) && HasInk(l) && '\n' !in l
  {
    var name := StatusName(t.status);
    var l := TaskLine(t);
    StatusNameIsWord(t.status);
    NormalizedNoNewline(t.description);
    assert l[0] == name[0];
    forall i | 0 <= i < |l| ensures l[i] != '\n' {
      if i < |name| {
        assert l[i] == name[i] && name[i] in name;
      } else if i > |name| {
        assert l[i] == t.description[i - |name| - 1];
        assert t.description[i - |name| - 1] in t.description;
      }
    }
  }

  /** A task line reads back as its task. */
  lemma TaskLineParses(t: Task)
    requires Normalized(t.description)
    ensures ParseTaskLine(TaskLine(t)) == Success(t)
  {
    var name := StatusName(t.status);
    var rest := " " + t.description;
    StatusNameIsWord(t.status);
    assert TaskLine(t) == name + rest;
    SplitWsLeadingWord(name, rest);
    assert IsSpace(rest[0]) && rest[1..] == t.description;
    assert SplitWs(rest) == SplitWs(t.description);
    ParseStatusName(t.status);
  }

  /** A line with a visible character keeps it, and its reading, under `rstrip()`. */
  lemma TrimRightLine(l: string)
    requires HasInk(l) && '\n' !in l
    ensures TrimRight(l) != [] && '\n' !in TrimRight(l)
    ensures ParseTaskLine(TrimRight(l)) == ParseTaskLine(l)
  {
    var r := TrimRight(l);
    var i :| 0 <= i < |l| && !IsSpace(l[i]);
    assert forall j :: |r| <= j < |l| ==> IsSpace(l[j]) by {
      forall j | |r| <= j < |l| ensures IsSpace(l[j]) {
        assert l[|r|..][j - |r|] == l[j];
      }
    }
    assert i < |r|;
    forall i | 0 <= i < |r| ensures r[i] != '\n' {
      assert r[i] == l[i] && l[i] in l;
    }
    SplitWsTrimRight(l);
  }

  /** A task line of a savable task is a non-empty line that reads back as the task,
      with or without its trailing whitespace. */
  lemma TaskLineReadsBack(t: Task)
    requires Normalized(t.description)
    ensures var l := TaskLine(t);
      && l != [] && '\n' !in l && HasInk(l)
      && TrimRight(l) != [] && '\n' !in TrimRight(l)
      && ParseTaskLine(l) == Success(t)
      && ParseTaskLine(TrimRight(l)) == Success(t)
  {
    TaskLineShape(t);
    TaskLineParses(t);
    TrimRightLine(TaskLine(t));
  }

  /** `rstrip()` of a block trims only its last line. */
  lemma TrimRightBlock(fmt: DateFormat, d: Date, ts: seq<Task>)
    requires IsoLike(fmt)
    requires forall t :: t in ts ==> Normalized(t.description)
    ensures TrimRight(Block(fmt, d, ts)) == Join([fmt.render(d)] + TrimLast(Lines(ts)), "\n")
  {
    var r := fmt.render(d);
    var ls := Lines(ts);
    if ts == [] {
      assert [r] + ls == [r] && TrimLast(ls) == [];
      assert Join([r], "\n") == r;
      assert r != [] && !IsSpace(r[|r| - 1]);
    } else {
      assert ts[|ts| - 1] in ts;
      TaskLineShape(ts[|ts| - 1]);
      assert ls[|ls| - 1] == TaskLine(ts[|ts| - 1]);
      TrimRightJoinTail(r, ls, "\n");
    }
  }

  /** A block built from the date and lines that read back as `ts` holds no empty
      line and reads back as `ts` (or as nothing, when `ts` is empty). */
  lemma BlockReadsBack(fmt: DateFormat, d: Date, ts: seq<Task>, ls: seq<string>)
    requires IsoLike(fmt)
    requires |ls| == |ts|
    requires forall k :: 0 <= k < |ls| ==> ls[k] != [] && '\n' !in ls[k] && ParseTaskLine(ls[k]) == Success(ts[k])
    ensures var b := Join([fmt.render(d)] + ls, "\n");
      && NoBlankLine(b)
      && ParseBlock(b, fmt) == Success(if ts == [] then None else Some((d, ts)))
  {
    var all := [fmt.render(d)] + ls;
    BlockLinesSplit(fmt, d, ls);
    assert all[1..] == ls;
    if ts != [] {
      var p := ParseTaskLines(ls);
      assert p.Success?;
      assert p.value == ts;
    }
  }

  /** The lines of a block, none empty and none holding a newline, are what
      `split('\n')` cuts the block back into. */
  lemma BlockLinesSplit(fmt: DateFormat, d: Date, ls: seq<string>)
    requires IsoLike(fmt)
    requires forall k :: 0 <= k < |ls| ==> ls[k] != [] && '\n' !in ls[k]
    ensures var all := [fmt.render(d)] + ls;
      NoBlankLine(Join(all, "\n")) && Split(Join(all, "\n"), "\n") == all
  {
    var r := fmt.render(d);
    var all := [r] + ls;
    assert '\n' !in r by { assert NoSpace(r); }
    forall k | 0 <= k < |all| ensures all[k] != [] && '\n' !in all[k] {
      if k > 0 { assert all[k] == ls[k - 1]; }
    }
    JoinLinesNoBlankLine(all);
    forall k | 0 <= k < |all| ensures CutsCleanly(all[k], "\n") {
      assert forall i :: 0 <= i < |all[k]| ==> all[k][i] in all[k];
      CharFreeCutsCleanly(all[k], '\n');
    }
    SplitJoin(all, "\n");
  }

  /** The dated entries of the days whose list is not empty, in key order. */
  function NonEmptyEntries(days: map<Date, seq<Task>>, order: seq<Date>): (ps: seq<(Date, seq<Task>)>)
    requires forall d :: d in order ==> d in days
    ensures forall k :: 0 <= k < |ps| ==> ps[k].0 in days && ps[k].1 == days[ps[k].0] != []
  {
    if order == [] then []
    else
      var init := order[..|order| - 1];
      var d := order[|order| - 1];
      assert forall k :: 0 <= k < |init| ==> init[k] == order[k];
      var ps := NonEmptyEntries(days, init);
      if days[d] == [] then ps else ps + [(d, days[d])]
  }

  lemma {:induction false} NonEmptyEntriesFrom(days: map<Date, seq<Task>>, order: seq<Date>)
    requires forall d :: d in order ==> d in days
    ensures forall k :: 0 <= k < |NonEmptyEntries(days, order)| ==> NonEmptyEntries(days, order)[k].0 in order
  {
    if order != [] {
      var init := order[..|order| - 1];
      NonEmptyEntriesFrom(days, init);
      var ps := NonEmptyEntries(days, init);
      forall k | 0 <= k < |ps| ensures ps[k].0 in order {
        assert ps[k].0 in init;
        assert order == init + [order[|order| - 1]];
      }
    }
  }

  /** Every day with tasks has its entry. */
  lemma {:induction false} NonEmptyEntriesComplete(days: map<Date, seq<Task>>, order: seq<Date>, i: int) returns (j: int)
    requires forall d :: d in order ==> d in days
    requires 0 <= i < |order| && order[i] in days && days[order[i]] != []
    ensures 0 <= j < |NonEmptyEntries(days, order)| && NonEmptyEntries(days, order)[j].0 == order[i]
  {
    var init := order[..|order| - 1];
    if i < |order| - 1 {
      j := NonEmptyEntriesComplete(days, init, i);
    } else {
      var ps := NonEmptyEntries(days, init);
      assert NonEmptyEntries(days, order) == ps + [(order[i], days[order[i]])];
      j := |ps|;
    }
  }

  /** Distinct keys give entries with distinct dates. */
  lemma {:induction false} NonEmptyEntriesDistinct(days: map<Date, seq<Task>>, order: seq<Date>)
    requires forall d :: d in order ==> d in days
    requires Distinct(order)
    ensures forall i, j :: 0 <= i < j < |NonEmptyEntries(days, order)| ==>
      NonEmptyEntries(days, order)[i].0 != NonEmptyEntries(days, order)[j].0
  {
    if order != [] {
      var init := order[..|order| - 1];
      var d := order[|order| - 1];
      NonEmptyEntriesDistinct(days, init);
      NonEmptyEntriesFrom(days, init);
      var ps := NonEmptyEntries(days, init);
      assert forall k :: 0 <= k < |ps| ==> ps[k].0 != d by {
        assert d !in init;
      }
    }
  }

  lemma {:induction false} ParseBlocksOf(bs: seq<string>, fmt: DateFormat, days: map<Date, seq<Task>>, order: seq<Date>)
    requires |bs| == |order| && forall d :: d in order ==> d in days
    requires forall k :: 0 <= k < |bs| ==> order[k] in days
    requires forall k :: 0 <= k < |bs| ==>
      ParseBlock(bs[k], fmt) == Success(if days[order[k]] == [] then None else Some((order[k], days[order[k]])))
    ensures ParseBlocks(bs, fmt) == Success(NonEmptyEntries(days, order))
  {
    if bs != [] {
      var n := |bs|;
      ParseBlocksOf(bs[..n - 1], fmt, days, order[..n - 1]);
    }
  }

  /** With distinct dates, the state collected from the entries maps each date to its list. */
  lemma {:induction false} CollectValue(ps: seq<(Date, seq<Task>)>, today: Date, k: int)
    requires 0 <= k < |ps|
    requires forall i, j :: 0 <= i < j < |ps| ==> ps[i].0 != ps[j].0
    ensures Collect(ps, today).days[ps[k].0] == ps[k].1
  {
    if k < |ps| - 1 {
      var init := ps[..|ps| - 1];
      CollectValue(init, today, k);
    }
  }

  /** A block starts with its date, which is not whitespace. */
  lemma BlockStart(fmt: DateFormat, d: Date, ts: seq<Task>)
    requires IsoLike(fmt)
    ensures Block(fmt, d, ts) != [] && Block(fmt, d, ts)[0] == fmt.render(d)[0]
    ensures !IsSpace(Block(fmt, d, ts)[0]) && HasInk(Block(fmt, d, ts))
  {
    JoinStartsWithFirst([fmt.render(d)] + Lines(ts), "\n");
    assert Block(fmt, d, ts)[..|fmt.render(d)|] == fmt.render(d);
    assert Block(fmt, d, ts)[0] == fmt.render(d)[0];
  }

  /** The separator between blocks is whitespace. */
  lemma BlankLineIsSpace()
    ensures AllSpace("\n\n")
  {
    assert "\n\n"[0] == '\n' && "\n\n"[1] == '\n';
  }

  /** The text `save` writes, cut into its blocks: the last block loses its trailing
      whitespace to `strip()`. */
  lemma SaveTextBlocks(a: AgendaData, fmt: DateFormat)
    requires Indexed(a) && IsoLike(fmt) && a.order != []
    ensures SaveText(a, fmt) ==
      Join(Blocks(fmt, a.days, a.order)[..|a.order| - 1] + [TrimRight(Blocks(fmt, a.days, a.order)[|a.order| - 1])], "\n\n")
  {
    var bs := Blocks(fmt, a.days, a.order);
    var n := |bs|;
    DaysTextIsJoin(fmt, a.days, a.order);
    BlockStart(fmt, a.order[0], a.days[a.order[0]]);
    BlockStart(fmt, a.order[n - 1], a.days[a.order[n - 1]]);
    BlankLineIsSpace();
    StripJoinEnded(bs, "\n\n");
  }

  /** The text `save` writes is already stripped, so the loader's `strip()` keeps it. */
  lemma SaveTextIsStripped(a: AgendaData, fmt: DateFormat)
    requires Indexed(a)
    ensures Strip(SaveText(a, fmt)) == SaveText(a, fmt)
  {
    StripStripped(DaysText(fmt, a.days, a.order));
  }

  /** The lines of a day's block read back as its tasks. */
  lemma LinesReadBack(ts: seq<Task>)
    requires forall t :: t in ts ==> Normalized(t.description)
    ensures forall j :: 0 <= j < |ts| ==>
      Lines(ts)[j] != [] && '\n' !in Lines(ts)[j] && ParseTaskLine(Lines(ts)[j]) == Success(ts[j])
  {
    forall j | 0 <= j < |ts|
      ensures Lines(ts)[j] != [] && '\n' !in Lines(ts)[j] && ParseTaskLine(Lines(ts)[j]) == Success(ts[j])
    {
      assert ts[j] in ts;
      TaskLineReadsBack(ts[j]);
    }
  }

  /** The lines of the last block, its last line trimmed, read back as its tasks. */
  lemma TrimmedLinesReadBack(ts: seq<Task>)
    requires forall t :: t in ts ==> Normalized(t.description)
    ensures forall j :: 0 <= j < |ts| ==>
      TrimLast(Lines(ts))[j] != [] && '\n' !in TrimLast(Lines(ts))[j] && ParseTaskLine(TrimLast(Lines(ts))[j]) == Success(ts[j])
  {
    var ls := Lines(ts);
    var ls' := TrimLast(ls);
    forall j | 0 <= j < |ts|
      ensures ls'[j] != [] && '\n' !in ls'[j] && ParseTaskLine(ls'[j]) == Success(ts[j])
    {
      assert ts[j] in ts;
      TaskLineReadsBack(ts[j]);
      if j < |ts| - 1 {
        assert ls'[j] == TaskLine(ts[j]);
      } else {
        assert ls'[j] == TrimRight(TaskLine(ts[j]));
      }
    }
  }

  /** Block `k` of the saved text (the last one trimmed) reads back as day `order[k]`. */
  lemma SavedBlockReadsBack(a: AgendaData, fmt: DateFormat, k: int)
    requires Indexed(a) && IsoLike(fmt) && Savable(a)
    requires 0 <= k < |a.order|
    ensures a.order[k] in a.days
    ensures NoBlankLine(SavedBlock(a, fmt, k))
    ensures ParseBlock(SavedBlock(a, fmt, k), fmt)
      == Success(if a.days[a.order[k]] == [] then None else Some((a.order[k], a.days[a.order[k]])))
  {
    var d := a.order[k];
    assert d in a.order;
    var ts := a.days[d];
    LinesReadBack(ts);
    if k < |a.order| - 1 {
      BlockReadsBack(fmt, d, ts, Lines(ts));
    } else {
      TrimmedLinesReadBack(ts);
      TrimRightBlock(fmt, d, ts);
      BlockReadsBack(fmt, d, ts, TrimLast(Lines(ts)));
    }
  }

  /** Block `k` of the saved text: the last block loses its trailing whitespace. */
  function SavedBlock(a: AgendaData, fmt: DateFormat, k: int): string
    requires Indexed(a) && 0 <= k < |a.order|
  {
    var b := Blocks(fmt, a.days, a.order)[k];
    if k == |a.order| - 1 then TrimRight(b) else b
  }

  /** The saved text of an agenda without days is empty, and it reads back as no entry. */
  lemma EmptySavedTextParses(a: AgendaData, fmt: DateFormat)
    requires Indexed(a) && a.order == []
    ensures ParseBlocks(Split(Strip(SaveText(a, fmt)), "\n\n"), fmt) == Success([])
  {
    assert SaveText(a, fmt) == [];
    assert Strip([]) == [];
    assert Split([], "\n\n") == [[]];
    assert Split([], "\n") == [[]];
    assert ParseBlock([], fmt) == Success(None);
    assert ParseBlocks([[]], fmt) == Success([]);
  }

  /** The blocks of the saved text. */
  function SavedBlocks(a: AgendaData, fmt: DateFormat): (bs: seq<string>)
    requires Indexed(a) && a.order != []
    ensures |bs| == |a.order| && forall k :: 0 <= k < |a.order| ==> bs[k] == SavedBlock(a, fmt, k)
  {
    var bs := Blocks(fmt, a.days, a.order);
    bs[..|bs| - 1] + [TrimRight(bs[|bs| - 1])]
  }

  /** The saved text, cut at its empty lines, gives back its blocks. */
  lemma SavedTextSplits(a: AgendaData, fmt: DateFormat)
    requires Indexed(a) && IsoLike(fmt) && Savable(a) && a.order != []
    ensures Split(Strip(SaveText(a, fmt)), "\n\n") == SavedBlocks(a, fmt)
  {
    var bs' := SavedBlocks(a, fmt);
    SaveTextBlocks(a, fmt);
    SaveTextIsStripped(a, fmt);
    forall k | 0 <= k < |bs'| ensures CutsCleanly(bs'[k], "\n\n") {
      SavedBlockReadsBack(a, fmt, k);
      NoBlankLineCutsCleanly(bs'[k]);
    }
    SplitJoin(bs', "\n\n");
  }

  /** The blocks of the saved text read back as the entries of the days that have tasks. */
  lemma SavedBlocksParse(a: AgendaData, fmt: DateFormat)
    requires Indexed(a) && IsoLike(fmt) && Savable(a) && a.order != []
    ensures ParseBlocks(SavedBlocks(a, fmt), fmt) == Success(NonEmptyEntries(a.days, a.order))
  {
    var bs' := SavedBlocks(a, fmt);
    forall k | 0 <= k < |bs'|
      ensures a.order[k] in a.days
      ensures ParseBlock(bs'[k], fmt) == Success(if a.days[a.order[k]] == [] then None else Some((a.order[k], a.days[a.order[k]])))
    {
      SavedBlockReadsBack(a, fmt, k);
    }
    ParseBlocksOf(bs', fmt, a.days, a.order);
  }

  /** Loading the saved text reads back the entries of the days that have tasks, in key order. */
  lemma SavedTextParses(a: AgendaData, fmt: DateFormat)
    requires Indexed(a) && IsoLike(fmt) && Savable(a)
    ensures ParseBlocks(Split(Strip(SaveText(a, fmt)), "\n\n"), fmt) == Success(NonEmptyEntries(a.days, a.order))
  {
    if a.order == [] {
      EmptySavedTextParses(a, fmt);
    } else {
      SavedTextSplits(a, fmt);
      SavedBlocksParse(a, fmt);
    }
  }

  /** Saving and loading gives back every day that has tasks, with the same tasks in
      the same order; every other date the loaded agenda tracks has no tasks. */
  lemma SaveLoadRoundTrip(a: AgendaData, fmt: DateFormat, today: Date)
    requires Indexed(a) && IsoLike(fmt) && Savable(a)
    ensures LoadSpec(Some(SaveText(a, fmt)), today, fmt).Success?
    ensures forall d :: d in a.days && a.days[d] != [] ==>
      d in LoadSpec(Some(SaveText(a, fmt)), today, fmt).value.days &&
      LoadSpec(Some(SaveText(a, fmt)), today, fmt).value.days[d] == a.days[d]
    ensures forall d :: d in LoadSpec(Some(SaveText(a, fmt)), today, fmt).value.days && !(d in a.days && a.days[d] != []) ==>
      LoadSpec(Some(SaveText(a, fmt)), today, fmt).value.days[d] == []
  {
    SavedTextParses(a, fmt);
    LoadSpecOfBlocks(SaveText(a, fmt), today, fmt);
    CollectedKeepsNonEmpty(a, today);
    CollectedOnlyNonEmpty(a, today);
  }

  /** Collecting the non-empty days of `a` gives each of them its list back. */
  lemma CollectedKeepsNonEmpty(a: AgendaData, today: Date)
    requires Indexed(a)
    ensures var c := Collect(NonEmptyEntries(a.days, a.order), today);
      forall d :: d in a.days && a.days[d] != [] ==> d in c.days && c.days[d] == a.days[d]
  {
    var expected := NonEmptyEntries(a.days, a.order);
    NonEmptyEntriesDistinct(a.days, a.order);
    forall d | d in a.days && a.days[d] != [] ensures d in Collect(expected, today).days && Collect(expected, today).days[d] == a.days[d] {
      var i :| 0 <= i < |a.order| && a.order[i] == d;
      var j := NonEmptyEntriesComplete(a.days, a.order, i);
      CollectValue(expected, today, j);
    }
  }

  /** Collecting the non-empty days of `a` tracks no other date. */
  lemma CollectedOnlyNonEmpty(a: AgendaData, today: Date)
    requires Indexed(a)
    ensures forall d :: d in Collect(NonEmptyEntries(a.days, a.order), today).days ==> d in a.days && a.days[d] != []
  {
    var expected := NonEmptyEntries(a.days, a.order);
    forall d | d in Collect(expected, today).days ensures d in a.days && a.days[d] != [] {
      var j :| 0 <= j < |expected| && expected[j].0 == d;
    }
  }

  // ---------------------------------------------------------------------
  // Loaded descriptions are savable

  /** Every task of every entry has a normalized description. */
  ghost predicate EntriesSavable(ps: seq<(Date, seq<Task>)>) {
    forall k :: 0 <= k < |ps| ==> forall t :: t in ps[k].1 ==> Normalized(t.description)
  }

  /** A task read from a line has the words after its status, joined by single
      spaces, as its description: it is savable. */
  lemma ParsedLinesSavable(lines: seq<string>)
    requires ParseTaskLines(lines).Success?
    ensures forall t :: t in ParseTaskLines(lines).value ==> Normalized(t.description)
  {
    var ts := ParseTaskLines(lines).value;
    forall t | t in ts ensures Normalized(t.description) {
      var j :| 0 <= j < |ts| && ts[j] == t;
      JoinedWordsNormalized(SplitWs(lines[j])[1..]);
    }
  }

  /** The entries read from the blocks of a file hold savable tasks only. */
  lemma {:induction false} ParsedBlocksSavable(blocks: seq<string>, fmt: DateFormat)
    requires ParseBlocks(blocks, fmt).Success?
    ensures EntriesSavable(ParseBlocks(blocks, fmt).value)
  {
    if blocks != [] {
      var init := blocks[..|blocks| - 1];
      var last := blocks[|blocks| - 1];
      ParsedBlocksSavable(init, fmt);
      var p := ParseBlock(last, fmt).value;
      if p.Some? {
        ParsedLinesSavable(Split(last, "\n")[1..]);
        assert ParseBlocks(blocks, fmt).value == ParseBlocks(init, fmt).value + [p.value];
      }
    }
  }

  /** Collecting savable entries gives a savable state. */
  lemma {:induction false} CollectedSavable(ps: seq<(Date, seq<Task>)>, today: Date)
    requires EntriesSavable(ps)
    ensures Savable(Collect(ps, today))
  {
    if ps != [] {
      var init := ps[..|ps| - 1];
      assert forall k :: 0 <= k < |init| ==> init[k] == ps[k];
      CollectedSavable(init, today);
    }
  }

  /** Every agenda the loading constructor builds is savable, so the round trip
      applies to it. */
  lemma LoadIsSavable(file: Option<string>, today: Date, fmt: DateFormat)
    requires LoadSpec(file, today, fmt).Success?
    ensures Savable(LoadSpec(file, today, fmt).value)
  {
    if file.Some? {
      var blocks := Split(Strip(file.value), "\n\n");
      ParsedBlocksSavable(blocks, fmt);
      var c := Collect(ParseBlocks(blocks, fmt).value, today);
      CollectedSavable(ParseBlocks(blocks, fmt).value, today);
      assert LoadSpec(file, today, fmt).value == AddDaysSpec(c, c.earliest, c.farthest);
    }
  }
}
