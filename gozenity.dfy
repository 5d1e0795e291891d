/**
 * The dialog wrappers of gozenity.go. Each wrapper builds the argument
 * vector of one zenity dialog, runs it, and reads the result back from the
 * process's output and exit status.
 *
 * The operating system is not modelled. The path that exec.LookPath
 * resolves is the parameter `program`. Running the dialog is the oracle
 * `exec`: given the command and the text written to its standard input, it
 * tells what the process printed and how it ended.
 */
module Gozenity {
  import opened Wrappers
  import opened GoStrings
  import opened Errors
  import opened TextInfoOptions

  /** A resolved dialog program and the arguments it is started with. */
  datatype Gozenity = Gozenity(command: string, arguments: seq<string>)

  /** Runs a command with the given standard input to completion. */
  type Exec = (Gozenity, string) -> Run

  // ---------------------------------------------------------------------
  // Reading an argument vector back
  // ---------------------------------------------------------------------

  /** The token that follows the first occurrence of `flag`, if any token does. */
  function FlagValue(args: seq<string>, flag: string): Option<string> {
    if |args| < 2 then None
    else if args[0] == flag then Some(args[1])
    else FlagValue(args[1..], flag)
  }

  /** Tokens that do not contain `flag` cannot change what is read for it. */
  lemma {:induction false} FlagValueSkips(front: seq<string>, back: seq<string>, flag: string)
    requires flag !in front
    ensures FlagValue(front + back, flag) == FlagValue(back, flag)
  {
    if front != [] {
      assert (front + back)[1..] == front[1..] + back;
      FlagValueSkips(front[1..], back, flag);
    } else {
      assert front + back == back;
    }
  }

  /** The integer a `--name=N` token carries, read back with strconv.Atoi. */
  function IntFlagValue(token: string, name: string): Option<int> {
    match CutPrefix(token, "--" + name + "=")
    case Some(digits) => Atoi(digits)
    case None => None
  }

  /** The `--name=N` token that fmt.Sprintf("--name=%d", n) produces. */
  function IntFlag(name: string, n: GoInt): string {
    "--" + name + "=" + FormatInt(n)
  }

  /** The integer can be read back from its `--name=N` token. */
  lemma IntFlagReadsBack(name: string, n: GoInt)
    ensures IntFlagValue(IntFlag(name, n), name) == Some(n)
  {
    CutPrefixOfConcat("--" + name + "=", FormatInt(n));
    AtoiFormatInt(n);
  }

  // ---------------------------------------------------------------------
  // Building commands
  // ---------------------------------------------------------------------

  /** New: every dialog is titled and labelled with its prompt, followed by the dialog's own tokens in order. */
  function New(program: string, prompt: string, extra: seq<string>): (g: Gozenity)
    ensures g.command == program
    ensures |g.arguments| == 4 + |extra| && g.arguments[4..] == extra
    ensures g.arguments[..4] == ["--title", prompt, "--text", prompt]
    ensures FlagValue(g.arguments, "--title") == Some(prompt)
    ensures FlagValue(g.arguments, "--text") == Some(prompt)
  {
    var arguments := ["--title", prompt, "--text", prompt] + extra;
    assert arguments[1..][1..] == arguments[2..];
    assert arguments[2..][0] == "--text" && arguments[2..][1] == prompt;
    assert FlagValue(arguments[2..], "--text") == Some(prompt);
    assert FlagValue(arguments[1..], "--text") == Some(prompt);
    Gozenity(program, arguments)
  }

  /** The tokens of a list dialog: a single hidden column headed by the prompt, then the options unchanged. */
  function ListFlags(prompt: string, options: seq<string>): (r: seq<string>)
    ensures |r| == 4 + |options| && r[4..] == options
    ensures r[..4] == ["--list", "--hide-header", "--column", prompt]
  {
    ["--list", "--hide-header", "--column", prompt] + options
  }

  /** The column of a list dialog is headed by the prompt (unless the prompt itself is the word "--column"). */
  lemma {:induction false} ListColumnIsPrompt(program: string, prompt: string, options: seq<string>)
    requires prompt != "--column"
    ensures FlagValue(New(program, prompt, ListFlags(prompt, options)).arguments, "--column") == Some(prompt)
  {
    var front := ["--title", prompt, "--text", prompt, "--list", "--hide-header"];
    var back := ["--column", prompt] + options;
    assert New(program, prompt, ListFlags(prompt, options)).arguments == front + back;
    FlagValueSkips(front, back, "--column");
  }

  /**
   * The tokens of a calendar dialog preselecting a date, with the date
   * printed as month/day/year. Day, month and year travel as `--name=N`
   * tokens, from which each integer can be read back (IntFlag).
   */
  function CalendarFlags(day: GoInt, month: GoInt, year: GoInt): (r: seq<string>)
    ensures |r| == 6 && r[0] == "--calendar" && r[4] == "--date-format" && r[5] == "%m/%d/%Y"
    ensures r[1] == IntFlag("day", day) && r[2] == IntFlag("month", month) && r[3] == IntFlag("year", year)
  {
    var d := IntFlag("day", day);
    var m := IntFlag("month", month);
    var y := IntFlag("year", year);
    var r := ["--calendar", d, m, y, "--date-format", "%m/%d/%Y"];
    assert r[1] == d && r[2] == m && r[3] == y;
    r
  }

  /** The preselected day, month and year can each be read back from the calendar's tokens. */
  lemma CalendarDateReadsBack(day: GoInt, month: GoInt, year: GoInt)
    ensures var r := CalendarFlags(day, month, year);
      && IntFlagValue(r[1], "day") == Some(day)
      && IntFlagValue(r[2], "month") == Some(month)
      && IntFlagValue(r[3], "year") == Some(year)
  {
    IntFlagReadsBack("day", day);
    IntFlagReadsBack("month", month);
    IntFlagReadsBack("year", year);
  }

  /** The options of a scale dialog. */
  datatype ScaleArgs = ScaleArgs(initial: GoInt, step: GoInt, min: GoInt, max: GoInt, partial: bool)

  /**
   * The tokens of a scale dialog: the initial value, the minimum, the
   * maximum and the step in that order as `--name=N` tokens (IntFlag), then
   * `--print-partial` when partial values are asked for.
   */
  function ScaleFlags(args: ScaleArgs): (r: seq<string>)
    ensures |r| == (if args.partial then 6 else 5) && r[0] == "--scale"
    ensures r[1] == IntFlag("value", args.initial) && r[2] == IntFlag("min-value", args.min)
    ensures r[3] == IntFlag("max-value", args.max) && r[4] == IntFlag("step", args.step)
    ensures args.partial ==> r[5] == "--print-partial"
  {
    var v := IntFlag("value", args.initial);
    var lo := IntFlag("min-value", args.min);
    var hi := IntFlag("max-value", args.max);
    var st := IntFlag("step", args.step);
    var flags := ["--scale", v, lo, hi, st];
    assert flags[1] == v && flags[2] == lo && flags[3] == hi && flags[4] == st;
    if args.partial then
      var r := flags + ["--print-partial"];
      assert r[..5] == flags;
      r
    else flags
  }

  /** The initial value, minimum, maximum and step can each be read back from the scale's tokens. */
  lemma ScaleValuesReadBack(args: ScaleArgs)
    ensures var r := ScaleFlags(args);
      && IntFlagValue(r[1], "value") == Some(args.initial)
      && IntFlagValue(r[2], "min-value") == Some(args.min)
      && IntFlagValue(r[3], "max-value") == Some(args.max)
      && IntFlagValue(r[4], "step") == Some(args.step)
  {
    IntFlagReadsBack("value", args.initial);
    IntFlagReadsBack("min-value", args.min);
    IntFlagReadsBack("max-value", args.max);
    IntFlagReadsBack("step", args.step);
  }

  /** The tokens of a color-selection dialog: the initial color, then `--show-palette` exactly when asked for. */
  function ColorSelectionFlags(initial: string, showPalette: bool): (r: seq<string>)
    ensures |r| == (if showPalette then 4 else 3)
    ensures r[..2] == ["--color-selection", "--color"] && r[2] == initial
    ensures showPalette ==> r[3] == "--show-palette"
  {
    var args := ["--color-selection", "--color", initial];
    if showPalette then args + ["--show-palette"] else args
  }

  /** The initial color reaches the dialog as the value of `--color` (unless the prompt itself is the word "--color"). */
  lemma {:induction false} ColorIsInitial(program: string, prompt: string, initial: string, showPalette: bool)
    requires prompt != "--color"
    ensures FlagValue(New(program, prompt, ColorSelectionFlags(initial, showPalette)).arguments, "--color")
            == Some(initial)
  {
    var front := ["--title", prompt, "--text", prompt, "--color-selection"];
    var back := ColorSelectionFlags(initial, showPalette)[1..];
    assert ColorSelectionFlags(initial, showPalette) == ["--color-selection"] + back;
    assert New(program, prompt, ColorSelectionFlags(initial, showPalette)).arguments == front + back;
    FlagValueSkips(front, back, "--color");
  }

  // ---------------------------------------------------------------------
  // File filters
  // ---------------------------------------------------------------------

  /** `order` lists every key of `filters` exactly once: the order in which a Go map happens to be ranged over. */
  predicate IsIterationOrder(filters: map<string, seq<string>>, order: seq<string>) {
    (forall i, j :: 0 <= i < j < |order| ==> order[i] != order[j])
    && filters.Keys == set name | name in order
  }

  /** The value of one `--file-filter`: the filter's name, a bar, and its patterns separated by single spaces. */
  function FilterToken(name: string, patterns: seq<string>): string {
    name + "|" + Join(patterns, ' ')
  }

  /** The filter tokens for the entries visited in `order`: a `--file-filter` flag and a value per entry. */
  function FileFilterTokens(filters: map<string, seq<string>>, order: seq<string>): seq<string>
    requires forall name :: name in order ==> name in filters
  {
    if order == [] then []
    else
      var last := order[|order| - 1];
      FileFilterTokens(filters, order[..|order| - 1]) + ["--file-filter", FilterToken(last, filters[last])]
  }

  lemma {:induction false} FileFilterTokensAt(filters: map<string, seq<string>>, order: seq<string>, i: nat)
    requires forall name :: name in order ==> name in filters
    requires i < |order|
    ensures |FileFilterTokens(filters, order)| == 2 * |order|
    ensures FileFilterTokens(filters, order)[2 * i] == "--file-filter"
    ensures FileFilterTokens(filters, order)[2 * i + 1] == FilterToken(order[i], filters[order[i]])
  {
    var init := order[..|order| - 1];
    if i < |init| {
      FileFilterTokensAt(filters, init, i);
    } else if init != [] {
      FileFilterTokensAt(filters, init, 0);
    }
  }

  /** A list without repetitions has as many distinct elements as it is long. */
  lemma {:induction false} DistinctCardinality(order: seq<string>)
    requires forall i, j :: 0 <= i < j < |order| ==> order[i] != order[j]
    ensures |set name | name in order| == |order|
  {
    if order != [] {
      var init := order[..|order| - 1];
      var last := order[|order| - 1];
      DistinctCardinality(init);
      assert (set name | name in order) == (set name | name in init) + {last};
      assert last !in init;
    }
  }

  lemma IterationOrderLength(filters: map<string, seq<string>>, order: seq<string>)
    requires IsIterationOrder(filters, order)
    ensures |order| == |filters|
  {
    DistinctCardinality(order);
    assert (set name | name in order) == filters.Keys;
  }

  /**
   * buildFileFilter: two tokens per map entry, a `--file-filter` flag and
   * then the entry's filter, in the order the map is ranged over; nothing
   * for an empty map.
   */
  method BuildFileFilter(filters: map<string, seq<string>>, order: seq<string>) returns (args: seq<string>)
    requires IsIterationOrder(filters, order)
    ensures |args| == 2 * |order| && |order| == |filters|
    ensures forall i :: 0 <= i < |order| ==>
      args[2 * i] == "--file-filter" && args[2 * i + 1] == FilterToken(order[i], filters[order[i]])
    ensures args == FileFilterTokens(filters, order)
  {
    IterationOrderLength(filters, order);
    args := [];
    if |filters| > 0 {
      var i := 0;
      while i < |order|
        invariant 0 <= i <= |order|
        invariant args == FileFilterTokens(filters, order[..i])
      {
        var name := order[i];
        args := args + ["--file-filter"];
        var filter := FilterToken(name, filters[name]);
        args := args + [filter];
        assert order[..i + 1][..i] == order[..i];
        i := i + 1;
      }
      assert order[..i] == order;
    }
    if order != [] {
      FileFilterTokensAt(filters, order, 0);
    }
    forall i | 0 <= i < |order|
      ensures args[2 * i] == "--file-filter" && args[2 * i + 1] == FilterToken(order[i], filters[order[i]])
    {
      FileFilterTokensAt(filters, order, i);
    }
  }

  // ---------------------------------------------------------------------
  // Running a dialog and reading its result
  // ---------------------------------------------------------------------

  /**
   * execute: runs the command with nothing on standard input and returns
   * its output without surrounding white space, together with the error
   * (nil exactly when the dialog exited with status 0). Exit status 1 is
   * passed on as an error here.
   */
  function Execute(exec: Exec, g: Gozenity): (r: Reply<string>)
    ensures Trimmed(r.value) && |r.value| <= |exec(g, "").stdout|
    ensures r.err == None <==> exec(g, "").termination == Exited(0)
    ensures r.err == ErrorOf(exec(g, "").termination)
  {
    var run := exec(g, "");
    Reply(TrimSpace(run.stdout), ErrorOf(run.termination))
  }

  /** Whatever white space the dialog prints around its answer, execute returns the answer itself. */
  lemma ExecuteReadsAnswer(exec: Exec, g: Gozenity, before: string, answer: string, after: string)
    requires AllSpace(before) && AllSpace(after) && Trimmed(answer)
    requires exec(g, "").stdout == before + answer + after
    ensures Execute(exec, g).value == answer
  {
    TrimSpaceOfPadded(before, answer, after);
  }

  /**
   * List pops up a menu and returns the chosen line; cancelling it (exit
   * status 1) is reported as an error.
   */
  function List(program: string, prompt: string, options: seq<string>, exec: Exec): (r: Reply<string>)
    ensures r == Execute(exec, New(program, prompt, ListFlags(prompt, options)))
    ensures r.err == ErrorOf(exec(New(program, prompt, ListFlags(prompt, options)), "").termination)
  {
    Execute(exec, New(program, prompt, ListFlags(prompt, options)))
  }

  /** Calendar picks a date, printed as month/day/year; cancelling it is reported as an error. */
  function Calendar(program: string, prompt: string, day: GoInt, month: GoInt, year: GoInt, exec: Exec): (r: Reply<string>)
    ensures r == Execute(exec, New(program, prompt, CalendarFlags(day, month, year)))
    ensures r.err == ErrorOf(exec(New(program, prompt, CalendarFlags(day, month, year)), "").termination)
  {
    Execute(exec, New(program, prompt, CalendarFlags(day, month, year)))
  }

  /** ColorSelection returns the chosen color as zenity prints it; cancelling it is reported as an error. */
  function ColorSelection(program: string, prompt: string, initial: string, showPalette: bool, exec: Exec): (r: Reply<string>)
    ensures r == Execute(exec, New(program, prompt, ColorSelectionFlags(initial, showPalette)))
    ensures r.err == ErrorOf(exec(New(program, prompt, ColorSelectionFlags(initial, showPalette)), "").termination)
  {
    Execute(exec, New(program, prompt, ColorSelectionFlags(initial, showPalette)))
  }

  /** The command of a file-selection dialog with the given filters. */
  function FileSelectionCommand(program: string, prompt: string, filters: map<string, seq<string>>, order: seq<string>): Gozenity
    requires IsIterationOrder(filters, order)
  {
    New(program, prompt, ["--file-selection", "--multiple"] + FileFilterTokens(filters, order))
  }

  /**
   * FileSelection: the selected paths are the trimmed output cut at every
   * bar, empty pieces kept; joined back with bars they give the output.
   */
  method FileSelection(program: string, prompt: string, filters: map<string, seq<string>>,
                       order: seq<string>, exec: Exec)
    returns (files: seq<string>, err: Option<Error>)
    requires IsIterationOrder(filters, order)
    ensures var run := exec(FileSelectionCommand(program, prompt, filters, order), "");
      && Join(files, '|') == TrimSpace(run.stdout)
      && |files| == Count(TrimSpace(run.stdout), '|') + 1
      && (forall i :: 0 <= i < |files| ==> '|' !in files[i])
      && err == ErrorOf(run.termination)
  {
    var args := ["--file-selection", "--multiple"];
    var filterArgs := BuildFileFilter(filters, order);
    args := args + filterArgs;
    var g := New(program, prompt, args);
    var result := Execute(exec, g);
    files := Split(result.value, '|');
    err := result.err;
    JoinSplit(result.value, '|');
  }

  /** The command of a directory-selection dialog. */
  function DirectorySelectionCommand(program: string, prompt: string): Gozenity {
    New(program, prompt, ["--file-selection", "--multiple", "--directory"])
  }

  /** DirectorySelection: the selected directories are the trimmed output cut at every bar, empty pieces kept. */
  function DirectorySelection(program: string, prompt: string, exec: Exec): (r: Reply<seq<string>>)
    ensures var run := exec(DirectorySelectionCommand(program, prompt), "");
      && Join(r.value, '|') == TrimSpace(run.stdout)
      && |r.value| == Count(TrimSpace(run.stdout), '|') + 1
      && r.err == ErrorOf(run.termination)
  {
    var result := Execute(exec, DirectorySelectionCommand(program, prompt));
    JoinSplit(result.value, '|');
    Reply(Split(result.value, '|'), result.err)
  }

  /** An empty answer is one empty selection, not an empty list. */
  lemma DirectorySelectionOfNothing(program: string, prompt: string, exec: Exec)
    requires AllSpace(exec(DirectorySelectionCommand(program, prompt), "").stdout)
    ensures DirectorySelection(program, prompt, exec).value == [""]
  {
    var out := exec(DirectorySelectionCommand(program, prompt), "").stdout;
    assert out == [] + [] + out;
    TrimSpaceOfPadded([], [], out);
  }

  /** The command of a question dialog. */
  function QuestionCommand(program: string, prompt: string): Gozenity {
    New(program, prompt, ["--question"])
  }

  /** What cmd.Wait reports for a command that never started. */
  const NotStartedReason := "exec: not started"

  /**
   * Question asks a yes/no question: yes on exit status 0; no, and no
   * error, on status 1 (declining is an answer); otherwise no with the
   * error. The command is started with Start and awaited with Wait; when
   * Start fails, only Wait's error is kept, and Wait on a command that
   * never started reports "exec: not started".
   */
  function Question(program: string, prompt: string, exec: Exec): (r: Reply<bool>)
    ensures var t := exec(QuestionCommand(program, prompt), "").termination;
      && (r.value <==> t == Exited(0))
      && (r.err == None <==> t == Exited(0) || t == Exited(1))
      && (r.err != None && t.Exited? ==> r.err == Some(ExitError(t.status)))
      && (t.NotStarted? ==> r.err == Some(StartError(NotStartedReason)))
  {
    var t := exec(QuestionCommand(program, prompt), "").termination;
    match t
    case Exited(status) =>
      if status == 0 then Reply(true, None)
      else if status == 1 then Reply(false, None)
      else Reply(false, ErrorOf(t))
    case NotStarted(_) => Reply(false, Some(StartError(NotStartedReason)))
  }

  /**
   * A scale's answer when partial values are not streamed: the trimmed
   * output read as a decimal integer; no output gives -1 with the error
   * the run reported. A non-numeric answer ends the program (log.Fatalf).
   * Because the inner `err :=` shadows the result, a numeric answer is
   * returned with a nil error whatever the exit status was.
   */
  function ScaleAnswer(run: Run): (r: Outcome<int>)
    ensures TrimSpace(run.stdout) == [] ==> r == Returned(Reply(-1, ErrorOf(run.termination)))
    ensures r.Aborted? <==> TrimSpace(run.stdout) != [] && Atoi(TrimSpace(run.stdout)) == None
    ensures Atoi(TrimSpace(run.stdout)).Some? ==> r == Returned(Reply(Atoi(TrimSpace(run.stdout)).value, None))
    ensures r.Returned? && r.reply.err != None ==> r.reply.value == -1
    ensures r.Returned? ==> Int64Min <= r.reply.value <= Int64Max
  {
    var ans := TrimSpace(run.stdout);
    if ans == [] then
      Returned(Reply(-1, ErrorOf(run.termination)))
    else
      match Atoi(ans)
      case None => Aborted("Error converting to int")
      case Some(v) => Returned(Reply(v, None))
  }

  /** The scale returns whatever integer the dialog printed, white space around it notwithstanding. */
  lemma ScaleReadsPrintedValue(n: GoInt, before: string, after: string, t: Termination)
    requires AllSpace(before) && AllSpace(after)
    ensures ScaleAnswer(Run(before + FormatInt(n) + after, t)) == Returned(Reply(n, None))
  {
    FormatIntTrimmed(n);
    TrimSpaceOfPadded(before, FormatInt(n), after);
    AtoiFormatInt(n);
  }

  /**
   * Scale: with partial values the dialog's output is read line by line,
   * each line converted with strconv.Atoi and sent on the caller's Stream
   * channel (a line that is not a number ends the program); that reader is
   * not modelled. Once the dialog has ended, the call returns 0 and no
   * error whatever its exit status. Otherwise the answer is read from the
   * output.
   */
  function Scale(program: string, prompt: string, args: ScaleArgs, exec: Exec): (r: Outcome<int>)
    ensures args.partial ==> r == Returned(Reply(0, None))
    ensures !args.partial ==> r == ScaleAnswer(exec(New(program, prompt, ScaleFlags(args)), ""))
    ensures !args.partial && TrimSpace(exec(New(program, prompt, ScaleFlags(args)), "").stdout) == [] ==>
      r == Returned(Reply(-1, ErrorOf(exec(New(program, prompt, ScaleFlags(args)), "").termination)))
  {
    if args.partial then Returned(Reply(0, None))
    else ScaleAnswer(exec(New(program, prompt, ScaleFlags(args)), ""))
  }

  /** The scale example: initial 30 of 0..100, step left at 0, the dialog prints 23 and a newline. */
  lemma ScaleExample(program: string, prompt: string, exec: Exec)
    requires exec(New(program, prompt, ScaleFlags(ScaleArgs(30, 0, 0, 100, false))), "") == Run("23\n", Exited(0))
    ensures Scale(program, prompt, ScaleArgs(30, 0, 0, 100, false), exec) == Returned(Reply(23, None))
  {
    assert FormatInt(23) == "23";
    assert "23\n" == [] + FormatInt(23) + "\n";
    ScaleReadsPrintedValue(23, [], "\n", Exited(0));
  }

  /** A text-info dialog's result: the output as printed on success, empty with no error on status 1, otherwise empty with the error. */
  function TextInfoAnswer(run: Run): (r: Reply<string>)
    ensures run.termination == Exited(0) ==> r == Reply(run.stdout, None)
    ensures run.termination != Exited(0) ==> r.value == ""
    ensures r.err == None <==> run.termination == Exited(0) || run.termination == Exited(1)
    ensures r.err != None ==> r.err == ErrorOf(run.termination)
  {
    match run.termination
    case Exited(status) =>
      if status == 0 then Reply(run.stdout, None)
      else if status == 1 then Reply("", None)
      else Reply("", ErrorOf(run.termination))
    case NotStarted(_) => Reply("", ErrorOf(run.termination))
  }

  /**
   * TextInfo: validates the options, then shows the text (an inline text
   * is written to the dialog's standard input) and returns what the user
   * left in it.
   */
  function TextInfo(program: string, prompt: string, tia: TextInfoArgs,
                    stat: string -> Option<string>, exec: Exec): (r: Reply<string>)
    ensures Parse(tia, stat).err.Some? ==> r == Reply("", Parse(tia, stat).err)
    ensures Parse(tia, stat).err.None? ==>
      r == TextInfoAnswer(exec(New(program, prompt, ["--text-info"] + Parse(tia, stat).value), tia.text))
  {
    var parsed := Parse(tia, stat);
    if parsed.err.Some? then Reply("", parsed.err)
    else TextInfoAnswer(exec(New(program, prompt, ["--text-info"] + parsed.value), tia.text))
  }

  /** Invalid options are reported before any dialog runs: the result does not depend on the dialog at all. */
  lemma TextInfoValidatesFirst(program: string, prompt: string, tia: TextInfoArgs,
                               stat: string -> Option<string>, exec1: Exec, exec2: Exec)
    requires SourceCount(tia) != 1 || (tia.filename != "" && stat(tia.filename).Some?)
    ensures TextInfo(program, prompt, tia, stat, exec1) == TextInfo(program, prompt, tia, stat, exec2)
    ensures TextInfo(program, prompt, tia, stat, exec1) == Reply("", Parse(tia, stat).err)
    ensures TextInfo(program, prompt, tia, stat, exec1).err.Some?
  {
  }

  /** With valid options, the dialog gets the validated tokens after `--text-info`, and the inline text on standard input. */
  lemma TextInfoRunsDialog(program: string, prompt: string, tia: TextInfoArgs,
                           stat: string -> Option<string>, exec: Exec)
    requires SourceCount(tia) == 1 && (tia.filename != "" ==> stat(tia.filename) == None)
    ensures TextInfo(program, prompt, tia, stat, exec)
         == TextInfoAnswer(exec(New(program, prompt, ["--text-info"] + OptionFlags(tia) + SourceFlags(tia)), tia.text))
  {
    assert ["--text-info"] + (OptionFlags(tia) + SourceFlags(tia)) == ["--text-info"] + OptionFlags(tia) + SourceFlags(tia);
  }

  // ---------------------------------------------------------------------
  // Username and password
  // ---------------------------------------------------------------------

  /** The command of a username-and-password dialog. */
  function CredentialsCommand(program: string, prompt: string): Gozenity {
    New(program, prompt, ["--password", "--username"])
  }

  /**
   * How UsernameAndPassword reads execute's answer, as written: the answer
   * is cut at every bar and the first two pieces are taken as (username,
   * password). With no bar in the answer, str[1] is out of range and the
   * program panics. The pair returned is (password, username), the order
   * of the Go results: the username is the text before the first bar, and
   * the password the text from there up to the next bar or the end.
   */
  function SplitCredentials(answer: Reply<string>): (r: Outcome<(string, string)>)
    ensures r.Aborted? <==> '|' !in answer.value
    ensures r.Returned? ==> r.reply.err == answer.err && '|' !in r.reply.value.0 && '|' !in r.reply.value.1
    ensures r.Returned? ==> var credentials := r.reply.value.1 + "|" + r.reply.value.0;
      answer.value == credentials || credentials + "|" <= answer.value
  {
    var str := Split(answer.value, '|');
    CountZero(answer.value, '|');
    JoinSplit(answer.value, '|');
    if |str| < 2 then Aborted("index out of range")
    else
      JoinPrefix(str);
      Returned(Reply((str[1], str[0]), answer.err))
  }

  /** The first two pieces of a bar join are a prefix of it: all of it, or followed by a bar. */
  lemma {:induction false} JoinPrefix(parts: seq<string>)
    requires |parts| >= 2
    ensures var front := parts[0] + "|" + parts[1];
      Join(parts, '|') == front || front + "|" <= Join(parts, '|')
  {
    var front := parts[0] + "|" + parts[1];
    var rest := parts[1..];
    if |parts| == 2 {
      assert Join(rest, '|') == parts[1];
    } else {
      var head := front + "|";
      var tail := Join(parts[2..], '|');
      assert Join(rest, '|') == parts[1] + "|" + tail by {
        assert rest[1..] == parts[2..];
      }
      assert Join(parts, '|') == head + tail;
      assert (head + tail)[..|head|] == head;
    }
  }

  /** UsernameAndPassword as written: shows the dialog and splits its trimmed answer. */
  function UsernameAndPassword(program: string, prompt: string, exec: Exec): (r: Outcome<(string, string)>)
    ensures var answer := Execute(exec, CredentialsCommand(program, prompt));
      && (r.Aborted? <==> '|' !in answer.value)
      && (r.Returned? ==> r.reply.err == answer.err && '|' !in r.reply.value.0 && '|' !in r.reply.value.1)
      && (r.Returned? ==> var credentials := r.reply.value.1 + "|" + r.reply.value.0;
            answer.value == credentials || credentials + "|" <= answer.value)
  {
    SplitCredentials(Execute(exec, CredentialsCommand(program, prompt)))
  }

  /** An answer with exactly one bar is read as the username before it and the password after it. */
  lemma {:induction false} SplitCredentialsReadsPair(user: string, pass: string, err: Option<Error>)
    requires '|' !in user && '|' !in pass
    ensures SplitCredentials(Reply(user + "|" + pass, err)) == Returned(Reply((pass, user), err))
  {
    assert Join([user, pass], '|') == user + "|" + pass;
    SplitJoin([user, pass], '|');
  }

  /** Cancelling the dialog (no output, exit status 1) makes the call panic. */
  lemma UsernameAndPasswordPanicsOnCancel(program: string, prompt: string, exec: Exec)
    requires exec(CredentialsCommand(program, prompt), "") == Run("", Exited(1))
    ensures UsernameAndPassword(program, prompt, exec).Aborted?
  {
  }

  /**
   * A password containing a bar loses everything from that bar on: when
   * the answer is the username, then the password `pass|rest`, only `pass`
   * comes back.
   */
  lemma {:induction false} SplitCredentialsTruncates(user: string, pass: string, rest: string, err: Option<Error>)
    requires '|' !in user && '|' !in pass && '|' !in rest
    ensures SplitCredentials(Reply(Join([user, pass, rest], '|'), err)) == Returned(Reply((pass, user), err))
  {
    SplitJoin([user, pass, rest], '|');
  }

  /** In a bar-free head, a bar and a tail, the first bar is right after the head. */
  lemma FirstBarAt(head: string, tail: string)
    requires '|' !in head
    ensures (head + "|" + tail)[|head|] == '|'
    ensures forall i :: 0 <= i < |head| ==> (head + "|" + tail)[i] != '|'
  {
  }

  /** Two ways of writing a string as a bar-free head, a bar and a tail agree. */
  lemma FirstBarIsUnique(head1: string, tail1: string, head2: string, tail2: string)
    requires '|' !in head1 && '|' !in head2
    requires head1 + "|" + tail1 == head2 + "|" + tail2
    ensures head1 == head2 && tail1 == tail2
  {
    var s := head1 + "|" + tail1;
    FirstBarAt(head1, tail1);
    FirstBarAt(head2, tail2);
    assert |head1| == |head2|;
    assert head1 == s[..|head1|] == head2;
    assert tail1 == s[|head1| + 1..] == tail2;
  }

  /**
   * UsernameAndPassword as evidently intended: the username is what comes
   * before the first bar and the password is everything after it; without
   * a bar the call fails with the run's error, or with EmptySelectionError
   * when the run reported none, instead of panicking.
   */
  function UsernameAndPasswordChecked(program: string, prompt: string, exec: Exec): (r: Reply<(string, string)>)
    ensures var answer := Execute(exec, CredentialsCommand(program, prompt));
      && ('|' in answer.value ==>
            answer.value == r.value.1 + "|" + r.value.0 && '|' !in r.value.1 && r.err == answer.err)
      && ('|' !in answer.value ==>
            r.value == ("", "") && r.err == (if answer.err.Some? then answer.err else Some(EmptySelection)))
  {
    var answer := Execute(exec, CredentialsCommand(program, prompt));
    var str := Split(answer.value, '|');
    CountZero(answer.value, '|');
    JoinSplit(answer.value, '|');
    if |str| < 2 then
      Reply(("", ""), if answer.err.Some? then answer.err else Some(EmptySelection))
    else
      assert Join(str, '|') == str[0] + "|" + Join(str[1..], '|');
      Reply((Join(str[1..], '|'), str[0]), answer.err)
  }

  /** The corrected reading gives back exactly the username and password the dialog printed. */
  lemma CredentialsRoundTrip(program: string, prompt: string, exec: Exec, user: string, password: string)
    requires '|' !in user && Trimmed(user + "|" + password)
    requires exec(CredentialsCommand(program, prompt), "") == Run(user + "|" + password + "\n", Exited(0))
    ensures UsernameAndPasswordChecked(program, prompt, exec) == Reply((password, user), None)
  {
    var out := user + "|" + password;
    assert out + "\n" == [] + out + "\n";
    TrimSpaceOfPadded([], out, "\n");
    assert '|' in out by { assert out[|user|] == '|'; }
    var r := UsernameAndPasswordChecked(program, prompt, exec);
    FirstBarIsUnique(r.value.1, r.value.0, user, password);
  }
}
