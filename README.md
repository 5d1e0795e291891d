# gozenity, modelled in Dafny

gozenity is a Go library that shows desktop dialogs by running the `zenity`
program. Each wrapper (List, Calendar, Scale, FileSelection, Question,
TextInfo, ...) builds zenity's argument vector, runs it, and turns the
process's standard output and exit status into a Go result pair.
Exit status 1 means "declined", and where a wrapper treats it that way it
is not an error.

This project models the pure logic around the subprocess:

- the validation of the text-info options (`text_info_args.go`);
- the argument vectors of the dialogs;
- how each wrapper reads the output and the exit status.

The subprocess is an oracle parameter `exec: (Gozenity, string) -> Run`.
It receives the command and the text written to standard input, and it
returns the captured output and how the process ended: `Exited(status)` or
`NotStarted(reason)`.

Files:

- `wrappers.dfy`: `Option`.
- `gostrings.dfy` (module `GoStrings`): the Go library behaviour the
  wrappers depend on.
  - `strings.TrimSpace` with `unicode.IsSpace`.
  - `strings.Split` and `strings.Join` with a one-rune separator.
  - The `%d` verb.
  - `strconv.Atoi` on a 64-bit platform.
- `errors.dfy` (module `Errors`):
  - the errors and their `Error()` texts;
  - the result pair `Reply` (value, possibly nil error);
  - `Outcome`, which adds `Aborted` for `log.Fatalf` and run-time panics;
  - `Termination` and `Run`, and `ErrorOf`, the error that `exec.Cmd`
    reports for a termination.
- `text_info_args.dfy` (module `TextInfoOptions`): `TextInfoArgs`,
  `tooManyArguments`, `notEnoughArguments` and `Parse`. `os.Stat` is the
  parameter `stat`. It returns None when the path exists and
  Some(reason) otherwise.
- `gozenity.dfy` (module `Gozenity`): `New`, the per-dialog argument
  builders, `buildFileFilter` (a method with a loop), `execute`, and the
  result handling of each wrapper in scope.

Three points of the code's behaviour shape the model:

- `execute` (gozenity.go:356-365) passes every non-zero exit status on as
  an error, status 1 included. So a cancelled `List`, `Calendar`,
  `ColorSelection`, `FileSelection` or `DirectorySelection` returns an
  error. Only `Question` and `TextInfo` treat status 1 as "declined".
- `TextInfo` returns the output untrimmed (gozenity.go:307). The wrappers
  that go through `execute` trim it.
- In non-partial `Scale`, `byteOut, err :=` (gozenity.go:247) declares a
  new `err` that shadows the result. So when the output is a number, the
  call returns it with a nil error whatever the exit status was. Only an
  empty output returns the run's error (with -1).

## Model

| member | source | states |
|---|---|---|
| TextInfoOptions.TooManyArguments | text_info_args.go:17-21 | true exactly when at least two of Filename, Text and URL are non-empty |
| TextInfoOptions.NotEnoughArguments | text_info_args.go:23-25 | true exactly when Filename, Text and URL are all empty |
| TextInfoOptions.Parse | text_info_args.go:28-58 | two or more sources give no tokens and TooManySources, whatever the file system says; no source gives no tokens and NoSource; success exactly when there is one source and, for a file, stat succeeds; a failed stat returns the stat error with the checkbox/editable tokens already built; on success the tokens are checkbox, then editable, then `--filename f` or `--html --url u` or nothing for text, and their number is 2·[checkbox] + [editable] + 2/3/0 |
| TextInfoOptions.ParseMessages | text_info_args.go:36-48 | the three validation failures read "Only one of Filename, Text and URL can be supplied", "One of Filename, Text or URL need to be supplied" and "stat PATH: REASON" |
| Gozenity.New | gozenity.go:29-40 | the command is the resolved program; the arguments are exactly `--title prompt --text prompt` followed by the caller's tokens in order, so both `--title` and `--text` read back as the prompt |
| Gozenity.IntFlagReadsBack | gozenity.go:229-232 | a `--name=%d` token carries its integer: cutting `--name=` off it and parsing the rest with Atoi gives the integer back |
| Gozenity.ListFlags | gozenity.go:50-53 | a list dialog's tokens are `--list --hide-header --column prompt` followed by the options unchanged and in order |
| Gozenity.List | gozenity.go:50-56 | the list dialog is run through execute with the list tokens; its error is the run's, so a cancelled list (exit status 1) is an ExitError and not an empty answer |
| Gozenity.ListColumnIsPrompt | gozenity.go:50-53 | in a list dialog's full argument vector the value after `--column` is the prompt |
| Gozenity.CalendarFlags | gozenity.go:67-75 | six tokens: `--calendar`, then the `--day=`, `--month=` and `--year=` tokens in that order, then `--date-format %m/%d/%Y` |
| Gozenity.Calendar | gozenity.go:67-80 | the calendar dialog is run through execute with the calendar tokens; its error is the run's, so cancelling is an ExitError |
| Gozenity.CalendarDateReadsBack | gozenity.go:70-73 | the preselected day, month and year can each be read back from the calendar's tokens |
| Gozenity.ScaleFlags | gozenity.go:227-237 | `--scale`, then the `--value=` (initial), `--min-value=`, `--max-value=` and `--step=` tokens in that order; then `--print-partial` as a sixth token when partial is set, and five tokens otherwise |
| Gozenity.ScaleValuesReadBack | gozenity.go:228-233 | the initial value, minimum, maximum and step can each be read back from the scale's tokens |
| Gozenity.ColorSelectionFlags | gozenity.go:313-317 | `--color-selection --color initial`, followed by `--show-palette` only when it is asked for |
| Gozenity.ColorSelection | gozenity.go:313-322 | the color dialog is run through execute with the color tokens; its error is the run's, so cancelling is an ExitError |
| Gozenity.ColorIsInitial | gozenity.go:313-318 | in a color dialog's full argument vector the value after `--color` is the initial color |
| Gozenity.BuildFileFilter | gozenity.go:344-354 | two tokens per map entry, 2·size in all and none for an empty map: a `--file-filter` flag, then `name\|` followed by the patterns joined with single spaces, in the order the map is ranged over |
| Gozenity.Execute | gozenity.go:356-365 | the output is returned without white space at either end, and the error is the run's (ErrorOf): nil exactly when the dialog exited with status 0 |
| Gozenity.ExecuteReadsAnswer | gozenity.go:359-362 | whatever white space surrounds the dialog's answer, exactly the answer is returned |
| Gozenity.FileSelection | gozenity.go:98-107 | the files joined back with bars are the trimmed output; there is one more file than there are bars; no file contains a bar; the error is the run's |
| Gozenity.DirectorySelection | gozenity.go:110-115 | the directories joined back with bars are the trimmed output, one more than there are bars, with the run's error |
| Gozenity.DirectorySelectionOfNothing | gozenity.go:112-113 | an empty (or all-white-space) answer gives the one-element list `[""]` |
| Gozenity.Question | gozenity.go:152-173 | the answer is yes exactly on exit status 0; the error is nil exactly on status 0 or 1; any other status is an ExitError with that status; when the command could not start, the error is Wait's "exec: not started", not the start failure |
| Gozenity.ScaleAnswer | gozenity.go:246-261 | empty trimmed output gives -1 with the run's error; a trimmed output that Atoi accepts gives its value with a nil error, whatever the exit status; any other output aborts; an error is only ever returned with -1; a returned value fits in 64 bits |
| Gozenity.ScaleReadsPrintedValue | gozenity.go:247-256 | if the dialog prints the decimal form of n, with any white space around it, the scale returns n with a nil error |
| Gozenity.Scale | gozenity.go:226-264 | with partial values the call returns 0 and no error once the dialog has ended, whatever its exit status; otherwise the scale dialog runs with no input and its output is read as ScaleAnswer reads it |
| Gozenity.ScaleExample | gozenity_test.go:172-184 | the dialog printing "23" and a newline makes the scale return 23 with no error |
| Gozenity.TextInfoAnswer | gozenity.go:294-309 | exit status 0 returns the output untrimmed; any other status returns an empty string; the error is nil exactly on status 0 or 1, and otherwise it is the run's error |
| Gozenity.TextInfo | gozenity.go:267-310 | invalid options return an empty text with the Parse error; valid ones run the dialog with `--text-info` and the validated tokens, the inline text on standard input, and read the run as TextInfoAnswer does |
| Gozenity.TextInfoValidatesFirst | gozenity.go:267-273 | when the options are invalid, the result is an empty string with the Parse error, and it is the same whatever the dialog would do |
| Gozenity.TextInfoRunsDialog | gozenity.go:268-294 | with valid options the dialog runs with `--text-info` followed by the validated tokens, and gets the inline text on standard input |
| Gozenity.SplitCredentials | gozenity.go:337-339 | as written: reading the answer panics exactly when it contains no bar; otherwise the error is the answer's, and the username and password are bar-free, with `username\|password` being the whole answer or followed by a bar in it: the username is the text before the first bar and the password the text up to the next bar |
| Gozenity.SplitCredentialsReadsPair | gozenity.go:337-339 | an answer `user\|pass` with bar-free parts yields exactly that username and password |
| Gozenity.UsernameAndPassword | gozenity.go:333-342 | as written: the call panics exactly when the trimmed output contains no bar; otherwise it returns the run's error, the username before the first bar and the password up to the next bar or the end |
| Gozenity.UsernameAndPasswordPanicsOnCancel | gozenity.go:335-339 | a cancelled dialog (no output, exit status 1) makes the call panic at `str[1]` |
| Gozenity.SplitCredentialsTruncates | gozenity.go:337-339 | an answer `user\|pass\|rest` with bar-free pieces yields the password `pass`: whatever followed a bar in the typed password is lost |
| Gozenity.UsernameAndPasswordChecked | gozenity.go:333-342 | corrected: the username is what comes before the first bar and the password everything after it; with no bar, the result is empty and carries the run's error, or EmptySelectionError when there was none |
| Gozenity.CredentialsRoundTrip | gozenity.go:333-342 | corrected: if the dialog prints a bar-free username, a bar and any password, both come back unchanged |
| GoStrings.TrimSpace | gozenity.go:362 | the result has no white space (unicode.IsSpace) at either end and is no longer than the input |
| GoStrings.TrimSpaceOfPadded | gozenity.go:362 | trimming a trimmed string padded with white space gives it back |
| GoStrings.TrimSpaceSplitsInput | gozenity.go:362 | every input is its trimmed form with white space before and after |
| GoStrings.Split | gozenity.go:105 | one more piece than there are separators (so `""` gives one empty piece), and no piece contains the separator |
| GoStrings.JoinSplit | gozenity.go:105 | joining the pieces back with the separator gives the original string |
| GoStrings.SplitJoin | gozenity.go:113 | splitting a join of one or more separator-free pieces gives back those pieces |
| GoStrings.FormatInt | gozenity.go:229-232 | `%d` prints a minus sign exactly for negatives, and otherwise only digits |
| GoStrings.Atoi | gozenity.go:256 | a value is returned exactly when the input is an optional sign followed by one or more digits whose signed value fits in 64 bits, and it is that signed value |
| GoStrings.AtoiExamples | gozenity.go:256 | a plus sign and leading zeros are accepted (`+007` is 7, `-0` is 0); trailing white space and the empty string are not |
| GoStrings.AtoiFormatInt | gozenity.go:256 | Atoi reads back every 64-bit integer that `%d` prints |
| Errors.ErrorOf | gozenity.go:359 | the run's error is nil exactly on exit status 0; a non-zero status is an ExitError with that status, and a process that did not start is a StartError |

## Findings

| source | as written | input that shows it | evidently intended | confidence | as-written member | corrected member |
|---|---|---|---|---|---|---|
| gozenity.go:337-339 | `str[1]` is read however many pieces the split gave | the user cancels: output "" with exit status 1, so the split is `[""]` and indexing panics | return an error instead of panicking (the package defines EmptySelectionError for this) | high; not executed | Gozenity.UsernameAndPasswordPanicsOnCancel | Gozenity.UsernameAndPasswordChecked |
| gozenity.go:337-339 | the password is only the second piece of the split | output `user\|pa\|ss`: the password comes back as `pa` | the password is everything after the first bar (proved in Gozenity.CredentialsRoundTrip) | medium; not executed | Gozenity.SplitCredentialsTruncates | Gozenity.UsernameAndPasswordChecked |

## Left out

- Process creation, pipes and waiting (`exec.Command`, `Output`, `Run`,
  `Start`/`Wait`, `StdinPipe`/`StdoutPipe`) are operating-system calls. They
  are replaced by the `exec` oracle: one call gives the output and how the
  process ended.
- `exec.LookPath` and the `log.Fatalf` when zenity is missing
  (gozenity.go:33-37) are replaced by the `program` parameter, which is
  taken as already resolved.
- `Progress` (gozenity.go:125-149) is left out because its whole point is
  the goroutine that feeds standard input. That loop also never notices a
  closed channel: a closed channel yields zeros forever.
- Partial `Scale` (`runScaleWithPartialUpdates`, gozenity.go:193-223) is a
  concurrent reader of the output stream. The model only states that the
  call itself returns 0 with no error.
- The goroutine that writes TextInfo's inline text (gozenity.go:288-291)
  is not modelled as concurrency. The text is simply what the oracle
  receives on standard input.
- `Question` prints a message when `Start` fails (gozenity.go:157-159).
  The print is left out. The error returned is the one `Wait` gives for a
  command that never started, "exec: not started"; the start failure's own
  reason is only printed.
- `Password`, `Error`, `Info`, `Warning` and `Notification` only pass
  fixed argument lists to `execute`, and `Entry` passes `--entry
  --entry-text` followed by the caller's placeholder (gozenity.go:59-64).
  They add no logic beyond `New` and `execute`.
- `time.Time` in `Calendar`: day, month and year are passed as integers.
- Go map iteration order in `buildFileFilter` is unspecified. It is the
  parameter `order`, which must list every key exactly once. No claim is
  made about which order occurs.
- Output is modelled as a sequence of runes. Decoding invalid UTF-8 is not
  modelled.
- A process killed by a signal is `Exited(-1)`, which is what Go's
  `ExitStatus()` reports for it. The signal itself is not modelled.
- Gozenity.ScaleFlags: states `--print-partial` as the sixth token when
  partial is set, and five tokens otherwise. It does not say separately
  that no other token equals `--print-partial`.
