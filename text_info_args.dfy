/**
 * The options of the text-info dialog and their validation
 * (text_info_args.go). Exactly one content source among a file name, an
 * inline text and a URL must be supplied; a file name must name something
 * that exists. The file-system check is the parameter `stat`: None when the
 * path can be stat'ed, Some(reason) with the operating system's complaint
 * otherwise.
 */
module TextInfoOptions {
  import opened Wrappers
  import opened Errors

  datatype TextInfoArgs = TextInfoArgs(
    checkbox: string,
    editable: bool,
    filename: string,
    text: string,
    url: string)

  /** How many of the three content sources are supplied (non-empty). */
  function SourceCount(tia: TextInfoArgs): nat {
    (if tia.filename != "" then 1 else 0)
    + (if tia.text != "" then 1 else 0)
    + (if tia.url != "" then 1 else 0)
  }

  /** True exactly when at least two content sources are supplied. */
  function TooManyArguments(tia: TextInfoArgs): (r: bool)
    ensures r <==> SourceCount(tia) >= 2
  {
    (tia.filename != "" && tia.text != "")
    || (tia.filename != "" && tia.url != "")
    || (tia.text != "" && tia.url != "")
  }

  /** True exactly when no content source is supplied. */
  function NotEnoughArguments(tia: TextInfoArgs): (r: bool)
    ensures r <==> SourceCount(tia) == 0
  {
    tia.filename == "" && tia.text == "" && tia.url == ""
  }

  /** The tokens for the checkbox and editable options, in that order. */
  function OptionFlags(tia: TextInfoArgs): seq<string> {
    (if tia.checkbox != "" then ["--checkbox", tia.checkbox] else [])
    + (if tia.editable then ["--editable"] else [])
  }

  /** The tokens naming the content: a file, an HTML page at a URL, or nothing for inline text (which goes to standard input). */
  function SourceFlags(tia: TextInfoArgs): seq<string>
    requires SourceCount(tia) == 1
  {
    if tia.filename != "" then ["--filename", tia.filename]
    else if tia.url != "" then ["--html", "--url", tia.url]
    else []
  }

  /**
   * Validates the options and builds the dialog's tokens. Too many sources
   * is reported before too few, and both before the file is looked at; a
   * failed stat keeps the option tokens already built.
   */
  function Parse(tia: TextInfoArgs, stat: string -> Option<string>): (r: Reply<seq<string>>)
    ensures SourceCount(tia) >= 2 ==> r == Reply([], Some(TooManySources))
    ensures SourceCount(tia) == 0 ==> r == Reply([], Some(NoSource))
    ensures r.err == None <==>
      SourceCount(tia) == 1 && (tia.filename != "" ==> stat(tia.filename) == None)
    ensures SourceCount(tia) == 1 && tia.filename != "" && stat(tia.filename).Some? ==>
      r == Reply(OptionFlags(tia), Some(PathError("stat", tia.filename, stat(tia.filename).value)))
    ensures r.err == None ==> r.value == OptionFlags(tia) + SourceFlags(tia)
    ensures r.err == None ==>
      |r.value| == (if tia.checkbox != "" then 2 else 0) + (if tia.editable then 1 else 0)
                   + (if tia.filename != "" then 2 else if tia.url != "" then 3 else 0)
  {
    var withCheckbox := if tia.checkbox != "" then ["--checkbox", tia.checkbox] else [];
    var withEditable := if tia.editable then withCheckbox + ["--editable"] else withCheckbox;
    assert withEditable == OptionFlags(tia);
    if TooManyArguments(tia) then
      Reply([], Some(TooManySources))
    else if NotEnoughArguments(tia) then
      Reply([], Some(NoSource))
    else if tia.filename != "" && stat(tia.filename).Some? then
      Reply(withEditable, Some(PathError("stat", tia.filename, stat(tia.filename).value)))
    else
      var withFile := if tia.filename != "" then withEditable + ["--filename", tia.filename] else withEditable;
      var withUrl := if tia.url != "" then withFile + ["--html", "--url", tia.url] else withFile;
      Reply(withUrl, None)
  }

  /** The error texts a caller sees for the three ways validation can fail. */
  lemma ParseMessages(tia: TextInfoArgs, stat: string -> Option<string>)
    ensures SourceCount(tia) >= 2 ==>
      Message(Parse(tia, stat).err.value) == "Only one of Filename, Text and URL can be supplied"
    ensures SourceCount(tia) == 0 ==>
      Message(Parse(tia, stat).err.value) == "One of Filename, Text or URL need to be supplied"
    ensures SourceCount(tia) == 1 && tia.filename != "" && stat(tia.filename).Some? ==>
      Message(Parse(tia, stat).err.value) == "stat " + tia.filename + ": " + stat(tia.filename).value
  {
  }
}
