/** The browser side of the context builder (the `ContextGenerator` class of
    static/js/app.js): loading a directory and naming the project after it,
    collecting the files chosen in the file rows, formatting the custom
    instructions, assembling the text put on the clipboard, and the
    lines-of-code counter with its per-file cache and colour band.

    Every server reply is a parameter, typed as the server model produces
    it; the page's rows are a sequence of checkbox/select pairs. */
module ContextGenerator {
  import opened Strings
  import DirectoryScanner
  import LineCounter
  import ContextAssembler

  // ---------------------------------------------------------------------
  // Project name

  /** The project name shown after a directory loads: backslashes become
      slashes, the path is split on `/`, and the last part is taken, the one
      before it when the last is empty (a trailing slash), and `Project` when
      that is empty or missing too. */
  function FolderName(fullPath: string): (name: string)
    ensures name != "" && '/' !in name
  {
    var parts := Split(ReplaceChar(fullPath, '\\', '/'), '/');
    var last := parts[|parts| - 1];
    if last != "" then last
    else if |parts| >= 2 && parts[|parts| - 2] != "" then parts[|parts| - 2]
    else "Project"
  }

  lemma ReplaceAroundName(dir: string, sep: char, name: string)
    requires sep == '/' || sep == '\\'
    requires '\\' !in name
    ensures ReplaceChar(dir + [sep] + name, '\\', '/') == ReplaceChar(dir, '\\', '/') + "/" + name
  {
    var lhs := ReplaceChar(dir + [sep] + name, '\\', '/');
    var rhs := ReplaceChar(dir, '\\', '/') + "/" + name;
    assert |lhs| == |rhs|;
    forall i | 0 <= i < |lhs| ensures lhs[i] == rhs[i] {
      if i > |dir| {
        assert (dir + [sep] + name)[i] == name[i - |dir| - 1];
        assert name[i - |dir| - 1] in name;
      }
    }
  }

  /** The project name of `dir/name`, `dir\name` and `dir/name/` is `name`. */
  lemma FolderNameOfPath(dir: string, name: string)
    requires name != "" && '/' !in name && '\\' !in name
    ensures FolderName(dir + "/" + name) == name
    ensures FolderName(dir + "\\" + name) == name
    ensures FolderName(dir + "/" + name + "/") == name
  {
    var d := ReplaceChar(dir, '\\', '/');
    ReplaceAroundName(dir, '/', name);
    ReplaceAroundName(dir, '\\', name);
    SplitConcat(d, name, '/');
    SplitNoSep(name, '/');
    assert Split(d + "/" + name, '/') == Split(d, '/') + [name];
    var withName := dir + "/" + name;
    ReplaceAroundName(withName, '/', "");
    assert withName + "/" + "" == dir + "/" + name + "/";
    var w := ReplaceChar(withName, '\\', '/');
    SplitConcat(w, "", '/');
    assert Split(w + "/" + "", '/') == Split(d, '/') + [name] + [""];
  }

  /** A path made only of separators names no project. */
  lemma FolderNameOfRoot()
    ensures FolderName("/") == "Project"
  {
    assert Split("/", '/') == [""] + Split("", '/');
  }

  // ---------------------------------------------------------------------
  // Selected files

  /** A file row of the page: its checkbox and the value of its select, the
      empty string for "Select a file...". */
  datatype Row = Row(checked: bool, value: string)

  /** The values of the checked rows with a chosen file, in row order. */
  function SelectedValues(rows: seq<Row>): seq<string>
    decreases |rows|
  {
    if rows == [] then []
    else
      var row := rows[|rows| - 1];
      SelectedValues(rows[..|rows| - 1]) + (if row.checked && row.value != "" then [row.value] else [])
  }

  /** `getSelectedFiles`. */
  method GetSelectedFiles(rows: seq<Row>) returns (selectedFiles: seq<string>)
    ensures selectedFiles == SelectedValues(rows)
  {
    selectedFiles := [];
    var index := 0;
    while index < |rows|
      invariant 0 <= index <= |rows|
      invariant selectedFiles == SelectedValues(rows[..index])
    {
      assert rows[..index + 1][..index] == rows[..index];
      if rows[index].checked && rows[index].value != "" {
        selectedFiles := selectedFiles + [rows[index].value];
      }
      index := index + 1;
    }
    assert rows[..|rows|] == rows;
  }

  /** `idx` lists, in increasing order, exactly the rows that are checked
      and have a file chosen, and `vals` holds their values. */
  predicate Selection(rows: seq<Row>, vals: seq<string>, idx: seq<nat>)
  {
    SelectedAt(rows, vals, idx) && Increasing(idx) && OthersUnselected(rows, idx)
  }

  /** `vals` holds the values of the rows `idx`, each checked with a file. */
  predicate SelectedAt(rows: seq<Row>, vals: seq<string>, idx: seq<nat>)
  {
    && |idx| == |vals|
    && (forall k :: 0 <= k < |idx| ==> idx[k] < |rows| && vals[k] == rows[idx[k]].value)
    && (forall k :: 0 <= k < |idx| ==> rows[idx[k]].checked && rows[idx[k]].value != "")
  }

  predicate Increasing(idx: seq<nat>)
  {
    forall k, l :: 0 <= k < l < |idx| ==> idx[k] < idx[l]
  }

  /** Every row not in `idx` is unchecked or has no file chosen. */
  predicate OthersUnselected(rows: seq<Row>, idx: seq<nat>)
  {
    forall i :: 0 <= i < |rows| && i !in idx ==> !rows[i].checked || rows[i].value == ""
  }

  /** The selection is exactly the rows that are checked and have a file
      chosen, in row order: `idx` lists those rows in increasing order, the
      selection holds their values, and every row left out is unchecked or
      has no file chosen. */
  lemma {:induction false} SelectedRows(rows: seq<Row>) returns (idx: seq<nat>)
    ensures |idx| == |SelectedValues(rows)|
    ensures forall k :: 0 <= k < |idx| ==> idx[k] < |rows| && SelectedValues(rows)[k] == rows[idx[k]].value
    ensures forall k :: 0 <= k < |idx| ==> rows[idx[k]].checked && rows[idx[k]].value != ""
    ensures forall k, l :: 0 <= k < l < |idx| ==> idx[k] < idx[l]
    ensures forall i :: 0 <= i < |rows| && i !in idx ==> !rows[i].checked || rows[i].value == ""
    decreases |rows|
  {
    if rows == [] {
      idx := [];
    } else {
      var init := rows[..|rows| - 1];
      var before := SelectedRows(init);
      assert rows == init + [rows[|rows| - 1]];
      idx := SelectionStep(init, SelectedValues(init), before, rows[|rows| - 1]);
    }
  }

  /** One more row extends the selection by its value when it is checked and
      has a file chosen. */
  lemma SelectionStep(init: seq<Row>, vals: seq<string>, before: seq<nat>, row: Row) returns (idx: seq<nat>)
    requires Selection(init, vals, before)
    ensures Selection(init + [row], vals + (if row.checked && row.value != "" then [row.value] else []), idx)
  {
    var chosen := row.checked && row.value != "";
    idx := if chosen then before + [|init|] else before;
    StepValues(init, vals, before, row);
    StepOrder(init, vals, before, row);
    StepComplete(init, before, row);
  }

  lemma StepValues(init: seq<Row>, vals: seq<string>, before: seq<nat>, row: Row)
    requires SelectedAt(init, vals, before)
    ensures var chosen := row.checked && row.value != "";
      SelectedAt(init + [row], vals + (if chosen then [row.value] else []), if chosen then before + [|init|] else before)
  {
    var chosen := row.checked && row.value != "";
    var idx := if chosen then before + [|init|] else before;
    var vals' := vals + (if chosen then [row.value] else []);
    var rows := init + [row];
    forall k | 0 <= k < |idx|
      ensures idx[k] < |rows| && vals'[k] == rows[idx[k]].value
      ensures rows[idx[k]].checked && rows[idx[k]].value != ""
    {
      if k < |before| {
        assert idx[k] == before[k] && vals'[k] == vals[k] && rows[before[k]] == init[before[k]];
      }
    }
  }

  lemma StepOrder(init: seq<Row>, vals: seq<string>, before: seq<nat>, row: Row)
    requires SelectedAt(init, vals, before) && Increasing(before)
    ensures Increasing(if row.checked && row.value != "" then before + [|init|] else before)
  {
    var idx := if row.checked && row.value != "" then before + [|init|] else before;
    forall k, l | 0 <= k < l < |idx| ensures idx[k] < idx[l] {
      assert idx[k] == before[k];
    }
  }

  lemma StepComplete(init: seq<Row>, before: seq<nat>, row: Row)
    requires OthersUnselected(init, before)
    ensures OthersUnselected(init + [row], if row.checked && row.value != "" then before + [|init|] else before)
  {
    var idx := if row.checked && row.value != "" then before + [|init|] else before;
    var rows := init + [row];
    forall i | 0 <= i < |rows| && i !in idx ensures !rows[i].checked || rows[i].value == "" {
      if i < |init| {
        assert i !in before;
        assert rows[i] == init[i];
      }
    }
  }

  // ---------------------------------------------------------------------
  // Refreshing the file selectors

  /** Some file of `files` has the path `path`. */
  predicate Listed(path: string, files: seq<DirectoryScanner.FileDescriptor>)
  {
    exists f :: f in files && f.path == path
  }

  /** `updateFileSelectorsForRow`: the select's options are rebuilt from
      `files`, and its previous value is kept only when some file still has
      that path; otherwise it falls back to "Select a file...". The
      checkbox is untouched. */
  function RefreshRow(row: Row, files: seq<DirectoryScanner.FileDescriptor>): Row
  {
    Row(row.checked, if row.value != "" && Listed(row.value, files) then row.value else "")
  }

  /** Every row refreshed against `files`. */
  function RefreshRows(rows: seq<Row>, files: seq<DirectoryScanner.FileDescriptor>): seq<Row>
  {
    seq(|rows|, i requires 0 <= i < |rows| => RefreshRow(rows[i], files))
  }

  /** The values of `vals` that some file of `files` has as its path, in
      their order. */
  function KeepListed(vals: seq<string>, files: seq<DirectoryScanner.FileDescriptor>): (kept: seq<string>)
    ensures |kept| <= |vals|
    ensures forall v :: v in kept ==> v in vals && Listed(v, files)
    decreases |vals|
  {
    if vals == [] then []
    else
      var v := vals[|vals| - 1];
      KeepListed(vals[..|vals| - 1], files) + (if Listed(v, files) then [v] else [])
  }

  /** After the selectors are refreshed, the selection is the earlier
      selection without the paths that are no longer listed, in the same
      order. */
  lemma {:induction false} RefreshedSelection(rows: seq<Row>, files: seq<DirectoryScanner.FileDescriptor>)
    ensures SelectedValues(RefreshRows(rows, files)) == KeepListed(SelectedValues(rows), files)
    decreases |rows|
  {
    if rows != [] {
      var init := rows[..|rows| - 1];
      var row := rows[|rows| - 1];
      var refreshed := RefreshRows(rows, files);
      RefreshedSelection(init, files);
      assert refreshed[..|refreshed| - 1] == RefreshRows(init, files);
      var vals := SelectedValues(init);
      var last := RefreshRow(row, files);
      assert refreshed[|refreshed| - 1] == last;
      assert SelectedValues(refreshed)
          == KeepListed(vals, files) + (if last.checked && last.value != "" then [last.value] else []);
      if row.checked && row.value != "" {
        assert SelectedValues(rows) == vals + [row.value];
        assert (vals + [row.value])[..|vals|] == vals;
      } else {
        assert SelectedValues(rows) == vals;
      }
    }
  }

  // ---------------------------------------------------------------------
  // Custom instructions

  /** What `/api/custom-instructions` gives: no usable reply (a failed
      request or a status other than 2xx), or the stored instructions, absent
      when there are none. */
  datatype InstructionsReply = InstructionsUnavailable | InstructionsReply(instructions: Option<string>)

  datatype FormattedInstructions =
    FormattedInstructions(fullText: string, header: string, userInstructions: string, rawInstructions: string, error: bool)

  const InstructionsHeader := "Custom Instructions for LLM"

  /** `getFormattedCustomInstructions`. */
  function FormatInstructions(reply: InstructionsReply): (r: FormattedInstructions)
    ensures r.rawInstructions != "" <==>
      reply.InstructionsReply? && reply.instructions.Some? && !AllWhitespace(reply.instructions.value)
    ensures r.rawInstructions != "" ==>
      && r.rawInstructions == Trim(reply.instructions.value)
      && r.userInstructions == "User Instructions: " + r.rawInstructions
      && r.fullText == InstructionsHeader + "\n" + r.userInstructions + "\n\n---\n\n"
      && r.header == InstructionsHeader && !r.error
    ensures r.rawInstructions == "" ==>
      r == FormattedInstructions("", "", "", "", reply.InstructionsUnavailable?)
  {
    match reply
    case InstructionsUnavailable => FormattedInstructions("", "", "", "", true)
    case InstructionsReply(instructions) =>
      var text := if instructions.Some? then instructions.value else "";
      TrimEmptyIff(text);
      if instructions.Some? && Trim(text) != "" then
        var raw := Trim(text);
        var user := "User Instructions: " + raw;
        FormattedInstructions(InstructionsHeader + "\n" + user + "\n\n---\n\n", InstructionsHeader, user, raw, false)
      else
        FormattedInstructions("", "", "", "", false)
  }

  // ---------------------------------------------------------------------
  // Clipboard text

  /** What `copyContext` does: puts `text` on the clipboard and shows the
      toast `toast`, or shows an error. */
  datatype CopyOutcome = Copied(text: string, toast: string) | CopyError(message: string)

  const NoInstructionsMessage := "Failed to load custom instructions. No files selected to copy."
  const NoContentMessage := "No content selected or available to copy."

  /** One file's block of the clipboard text. */
  function FileBlock(e: ContextAssembler.ContextEntry): (block: string)
    ensures StartsWith(block, "File: ") && EndsWith(block, "```\n")
  {
    "File: " + e.path + "\n```\n" + e.content + "\n```\n"
  }

  /** The blocks of `files`, in order. */
  function FileBlocks(files: seq<ContextAssembler.ContextEntry>): seq<string>
  {
    seq(|files|, i requires 0 <= i < |files| => FileBlock(files[i]))
  }

  /** The files' blocks, separated by newlines. */
  function FilesText(files: seq<ContextAssembler.ContextEntry>): string
  {
    Join(FileBlocks(files), '\n')
  }

  /** The decimal digits of `n`. */
  function NatToString(n: nat): (s: string)
    ensures s != []
    decreases n
  {
    var digit := ["0123456789"[n % 10]];
    if n < 10 then digit else NatToString(n / 10) + digit
  }

  /** The parts named in the toast. */
  function MessageParts(instructions: bool, filesCopied: bool, fileCount: nat): seq<string>
  {
    (if instructions then ["custom instructions"] else []) + (if filesCopied then [NatToString(fileCount) + " file(s)"] else [])
  }

  /** `parts.join(' and ')`. */
  function JoinAnd(parts: seq<string>): string
    decreases |parts|
  {
    if parts == [] then "" else if |parts| == 1 then parts[0] else parts[0] + " and " + JoinAnd(parts[1..])
  }

  function Toast(parts: seq<string>): string
  {
    if parts == [] then "Context copied to clipboard!" else "Copied " + JoinAnd(parts) + " to clipboard!"
  }

  /** Whether file blocks go into the text: files were selected and the
      server returned some. */
  predicate FilesCopied(selected: seq<string>, reply: ContextAssembler.ContextResponse)
  {
    selected != [] && reply.ContextFiles? && reply.files != []
  }

  /** The text before trimming: the instructions (the header and the
      instructions alone when no file is selected, the full block with its
      trailing separator otherwise), then the file blocks. */
  function Draft(instr: FormattedInstructions, selected: seq<string>, reply: ContextAssembler.ContextResponse): string
  {
    (if instr.rawInstructions == "" then ""
     else if selected == [] then instr.header + "\n" + instr.userInstructions
     else instr.fullText)
    + (if FilesCopied(selected, reply) then FilesText(reply.files) else "")
  }

  /** The outcome of `copyContext` for the formatted instructions, the
      selected files and, when files are selected, the reply of
      `/api/get-context`. */
  function Copy(instr: FormattedInstructions, selected: seq<string>, reply: ContextAssembler.ContextResponse): CopyOutcome
  {
    if instr.rawInstructions == "" && instr.error && selected == [] then CopyError(NoInstructionsMessage)
    else if selected != [] && reply.ContextError? then
      CopyError("Failed to copy context: " + (if reply.message != "" then reply.message else "Failed to generate context for copy"))
    else
      var text := Draft(instr, selected, reply);
      if Trim(text) == "" then CopyError(NoContentMessage)
      else Copied(Trim(text), Toast(MessageParts(instr.rawInstructions != "", FilesCopied(selected, reply), |selected|)))
  }

  /** `copyContext`, building the text and the toast's parts step by step. */
  method CopyContext(instr: FormattedInstructions, selected: seq<string>, reply: ContextAssembler.ContextResponse)
    returns (outcome: CopyOutcome)
    ensures outcome == Copy(instr, selected, reply)
  {
    var contextToCopy := "";
    var messageParts: seq<string> := [];
    if instr.rawInstructions != "" {
      if |selected| == 0 {
        contextToCopy := instr.header + "\n" + instr.userInstructions;
      } else {
        contextToCopy := instr.fullText;
      }
      messageParts := messageParts + ["custom instructions"];
    } else if instr.error && |selected| == 0 {
      return CopyError(NoInstructionsMessage);
    }
    if |selected| > 0 {
      match reply
      case ContextError(_, message) =>
        var error := if message != "" then message else "Failed to generate context for copy";
        return CopyError("Failed to copy context: " + error);
      case ContextFiles(files) =>
        if |files| > 0 {
          contextToCopy := contextToCopy + FilesText(files);
          messageParts := messageParts + [NatToString(|selected|) + " file(s)"];
        }
    }
    assert contextToCopy == Draft(instr, selected, reply);
    assert messageParts == MessageParts(instr.rawInstructions != "", FilesCopied(selected, reply), |selected|);
    var trimmed := Trim(contextToCopy);
    if trimmed == "" {
      return CopyError(NoContentMessage);
    }
    outcome := Copied(trimmed, Toast(messageParts));
  }

  /** The file blocks start with `File: ` and end with a newline preceded by
      the closing fence. */
  lemma FilesTextShape(files: seq<ContextAssembler.ContextEntry>)
    requires files != []
    ensures var t := FilesText(files); |t| >= 4 && t[0] == 'F' && t[|t| - 1] == '\n' && t[|t| - 2] == '`'
  {
    var blocks := FileBlocks(files);
    var last := blocks[|blocks| - 1];
    JoinEndsWithLast(blocks, '\n');
    var t := FilesText(files);
    assert t[|t| - |last|..] == last;
    assert last[|last| - 4..] == "```\n";
    assert t[|t| - 1] == last[|last| - 1] && t[|t| - 2] == last[|last| - 2];
    if |blocks| > 1 {
      assert t == blocks[0] + "\n" + Join(blocks[1..], '\n');
    }
    assert t[0] == blocks[0][0];
  }

  /** The draft with files returned: the instructions block, if any, then
      the file blocks. */
  lemma DraftWithFiles(instr: FormattedInstructions, selected: seq<string>, files: seq<ContextAssembler.ContextEntry>)
    requires selected != [] && files != []
    ensures Draft(instr, selected, ContextAssembler.ContextFiles(files))
            == (if instr.rawInstructions != "" then instr.fullText else "") + FilesText(files)
  {
  }

  /** Trimming text made of an optional block starting with `C` and the file
      blocks drops only the final newline. */
  lemma TrimFilesText(prefix: string, files: seq<ContextAssembler.ContextEntry>)
    requires files != []
    requires prefix != "" ==> prefix[0] == 'C'
    ensures Trim(prefix + FilesText(files)) + "\n" == prefix + FilesText(files)
  {
    FilesTextShape(files);
    TrimAfterStart(prefix, FilesText(files));
  }

  lemma TrimAfterStart(prefix: string, text: string)
    requires |text| >= 4 && text[0] == 'F' && text[|text| - 1] == '\n' && text[|text| - 2] == '`'
    requires prefix != "" ==> prefix[0] == 'C'
    ensures Trim(prefix + text) + "\n" == prefix + text
  {
    TrimDropsFinalNewline(prefix + text);
  }

  /** Where the formatted instructions are set, their blocks start with the
      header. */
  lemma FormattedStart(reply: InstructionsReply)
    ensures var instr := FormatInstructions(reply);
      instr.rawInstructions != "" ==>
        instr.header == InstructionsHeader && instr.fullText != "" && instr.fullText[0] == 'C'
  {
  }

  /** The untrimmed text is empty exactly when there are no instructions and
      no file blocks, and otherwise starts with a character trim keeps. */
  lemma DraftStart(instr: FormattedInstructions, selected: seq<string>, reply: ContextAssembler.ContextResponse)
    requires instr.rawInstructions != "" ==>
      instr.header == InstructionsHeader && instr.fullText != "" && instr.fullText[0] == 'C'
    ensures var d := Draft(instr, selected, reply);
      && (d == "" <==> instr.rawInstructions == "" && !FilesCopied(selected, reply))
      && (d != "" ==> !IsJsWhitespace(d[0]))
  {
    if FilesCopied(selected, reply) {
      FilesTextShape(reply.files);
    }
  }

  /** With instructions and no file selected, the clipboard gets the header
      line and the instructions line, and the toast names the instructions. */
  lemma CopyInstructionsOnly(reply: InstructionsReply, contextReply: ContextAssembler.ContextResponse)
    requires FormatInstructions(reply).rawInstructions != ""
    ensures var instr := FormatInstructions(reply);
      Copy(instr, [], contextReply)
      == Copied(InstructionsHeader + "\n" + instr.userInstructions, Toast(["custom instructions"]))
  {
    var instr := FormatInstructions(reply);
    InstructionsLineTrimmed(reply);
    assert Draft(instr, [], contextReply) == InstructionsHeader + "\n" + instr.userInstructions;
    assert MessageParts(true, false, 0) == ["custom instructions"];
  }

  /** The header and instructions lines have nothing for trim to remove. */
  lemma InstructionsLineTrimmed(reply: InstructionsReply)
    requires FormatInstructions(reply).rawInstructions != ""
    ensures var text := InstructionsHeader + "\n" + FormatInstructions(reply).userInstructions;
      Trim(text) == text
  {
    var raw := FormatInstructions(reply).rawInstructions;
    TrimSpec(reply.instructions.value);
    var text := InstructionsHeader + "\n" + FormatInstructions(reply).userInstructions;
    assert text[|text| - 1] == raw[|raw| - 1];
    TrimUnchanged(text);
  }

  /** When the server returns files, the clipboard gets the instructions
      block (if any) and every file block in order, and trimming removes only
      the final newline. */
  lemma CopyWithFiles(reply: InstructionsReply, selected: seq<string>, files: seq<ContextAssembler.ContextEntry>)
    requires selected != [] && files != []
    ensures var instr := FormatInstructions(reply);
      var outcome := Copy(instr, selected, ContextAssembler.ContextFiles(files));
      && outcome.Copied?
      && outcome.text + "\n" == (if instr.rawInstructions != "" then instr.fullText else "") + FilesText(files)
  {
    FormattedStart(reply);
    CopyFilesText(FormatInstructions(reply), selected, files);
  }

  /** `CopyWithFiles` for any formatted instructions whose block starts with
      the header. */
  lemma CopyFilesText(instr: FormattedInstructions, selected: seq<string>, files: seq<ContextAssembler.ContextEntry>)
    requires selected != [] && files != []
    requires instr.rawInstructions != "" ==> instr.fullText != "" && instr.fullText[0] == 'C'
    ensures var outcome := Copy(instr, selected, ContextAssembler.ContextFiles(files));
      && outcome.Copied?
      && outcome.text + "\n" == (if instr.rawInstructions != "" then instr.fullText else "") + FilesText(files)
  {
    var prefix := if instr.rawInstructions != "" then instr.fullText else "";
    var d := Draft(instr, selected, ContextAssembler.ContextFiles(files));
    DraftWithFiles(instr, selected, files);
    FilesTextShape(files);
    TrimFilesText(prefix, files);
    assert |Trim(d)| + 1 == |d| && |d| >= 4;
    CopyOfDraft(instr, selected, ContextAssembler.ContextFiles(files));
  }

  /** Past the two error cases, whatever trimming leaves of the text is
      copied when it is not empty. */
  lemma CopyOfDraft(instr: FormattedInstructions, selected: seq<string>, reply: ContextAssembler.ContextResponse)
    requires selected != [] && reply.ContextFiles?
    requires Trim(Draft(instr, selected, reply)) != ""
    ensures Copy(instr, selected, reply).Copied?
    ensures Copy(instr, selected, reply).text == Trim(Draft(instr, selected, reply))
  {
  }

  /** Nothing is copied for lack of content exactly when there are no
      instructions, the instruction fetch did not fail with no file selected,
      and either no file is selected or the server returned none. */
  lemma NothingToCopyIff(reply: InstructionsReply, selected: seq<string>, contextReply: ContextAssembler.ContextResponse)
    ensures var instr := FormatInstructions(reply);
      Copy(instr, selected, contextReply) == CopyError(NoContentMessage)
      <==> && instr.rawInstructions == ""
           && !(instr.error && selected == [])
           && (selected == [] || contextReply == ContextAssembler.ContextFiles([]))
  {
    var instr := FormatInstructions(reply);
    if instr.rawInstructions == "" && instr.error && selected == [] {
      assert |NoContentMessage| != |NoInstructionsMessage|;
    } else if selected != [] && contextReply.ContextError? {
      var m := "Failed to copy context: " + (if contextReply.message != "" then contextReply.message else "Failed to generate context for copy");
      assert m[0] == 'F';
    } else {
      FormattedStart(reply);
      DraftStart(instr, selected, contextReply);
      var d := Draft(instr, selected, contextReply);
      TrimEmptyIff(d);
    }
  }

  // ---------------------------------------------------------------------
  // Lines of code

  /** The colour of the lines-of-code display. */
  datatype Band = Green | Yellow | Red

  /** `updateLinesOfCodeDisplay`: exactly one band, by the total. */
  function BandOf(total: int): (b: Band)
    ensures b == Red <==> total > 8000
    ensures b == Yellow <==> 4000 < total <= 8000
    ensures b == Green <==> total <= 4000
  {
    if total > 8000 then Red else if total > 4000 then Yellow else Green
  }

  function Rank(b: Band): nat
  {
    match b
    case Green => 0
    case Yellow => 1
    case Red => 2
  }

  /** More lines never give a milder colour. */
  lemma BandMonotone(a: int, b: int)
    requires a <= b
    ensures Rank(BandOf(a)) <= Rank(BandOf(b))
  {
  }

  /** The count `fetchLineCount` takes from a reply of `/api/get-line-count`:
      the line count of a successful reply, 0 for an error reply or a failed
      request (`None`). */
  function ReplyCount(reply: Option<LineCounter.LineCountResponse>): int
  {
    match reply
    case Some(LineCount(count)) => count
    case _ => 0
  }

  /** The sum of the cached counts of `files`, each file counted as often as
      it occurs. */
  function SumCounts(files: seq<string>, cache: map<string, int>): int
    requires forall f :: f in files ==> f in cache
    decreases |files|
  {
    if files == [] then 0
    else SumCounts(files[..|files| - 1], cache) + cache[files[|files| - 1]]
  }

  /** The sum depends only on the cached counts of the files summed. */
  lemma {:induction false} SumCountsStable(files: seq<string>, c1: map<string, int>, c2: map<string, int>)
    requires forall f :: f in files ==> f in c1 && f in c2 && c1[f] == c2[f]
    ensures SumCounts(files, c1) == SumCounts(files, c2)
    decreases |files|
  {
    if files != [] {
      SumCountsStable(files[..|files| - 1], c1, c2);
    }
  }

  /** `after` keeps every count of `start`, and each count it adds is the
      server's for one of `files`. */
  predicate CacheGrows(start: map<string, int>, after: map<string, int>, files: seq<string>,
                       server: string -> Option<LineCounter.LineCountResponse>)
  {
    && (forall f :: f in start ==> f in after && after[f] == start[f])
    && (forall f :: f in after && f !in start ==> f in files && after[f] == ReplyCount(server(f)))
  }

  /** One fetch of `f` keeps the cache growing as it should, caches `f`, and
      adds the cached count of `f` to the sum. */
  lemma FetchStep(start: map<string, int>, before: map<string, int>, after: map<string, int>,
                  files: seq<string>, f: string, server: string -> Option<LineCounter.LineCountResponse>)
    requires CacheGrows(start, before, files, server)
    requires forall g :: g in files ==> g in before
    requires after == if f in before then before else before[f := ReplyCount(server(f))]
    ensures CacheGrows(start, after, files + [f], server)
    ensures forall g :: g in files + [f] ==> g in after
    ensures SumCounts(files + [f], after) == SumCounts(files, before) + after[f]
  {
    assert forall g :: g in files + [f] <==> g in files || g == f;
    SumCountsStable(files, before, after);
    assert (files + [f])[..|files|] == files;
  }

  datatype BrowseOutcome = Loaded(toast: string) | BrowseFailed(message: string)

  /** The page's controller: the files of the loaded directory, the
      directory typed by the user, the per-file line-count cache and the
      total shown, and the project name shown (`None` before any directory
      has loaded). */
  class ContextGenerator {
    var availableFiles: seq<DirectoryScanner.FileDescriptor>
    var selectedDirectory: string
    var fileLineCounts: map<string, int>
    var totalLinesOfCode: int
    var projectName: Option<string>

    constructor ()
      ensures availableFiles == [] && selectedDirectory == ""
      ensures fileLineCounts == map[] && totalLinesOfCode == 0 && projectName == None
    {
      availableFiles := [];
      selectedDirectory := "";
      fileLineCounts := map[];
      totalLinesOfCode := 0;
      projectName := None;
    }

    /** `fetchLineCount`: a cached count is returned without a request;
        otherwise the reply's count, 0 for a failure, is cached and
        returned. */
    method FetchLineCount(filePath: string, reply: Option<LineCounter.LineCountResponse>) returns (count: int)
      modifies this`fileLineCounts
      ensures filePath in old(fileLineCounts) ==>
        count == old(fileLineCounts)[filePath] && fileLineCounts == old(fileLineCounts)
      ensures filePath !in old(fileLineCounts) ==>
        count == ReplyCount(reply) && fileLineCounts == old(fileLineCounts)[filePath := count]
    {
      if filePath in fileLineCounts {
        return fileLineCounts[filePath];
      }
      match reply {
        case Some(LineCount(lineCount)) =>
          fileLineCounts := fileLineCounts[filePath := lineCount];
          count := lineCount;
        case _ =>
          fileLineCounts := fileLineCounts[filePath := 0];
          count := 0;
      }
    }

    /** `recalculateTotalLines`: the count of every selected file is fetched,
        `server` giving the reply for each path, and the total becomes their
        sum. Cached counts are kept, every selected file ends up cached, and
        a newly cached count is the server's. */
    method RecalculateTotalLines(rows: seq<Row>, server: string -> Option<LineCounter.LineCountResponse>)
      modifies this`fileLineCounts, this`totalLinesOfCode
      ensures CacheGrows(old(fileLineCounts), fileLineCounts, SelectedValues(rows), server)
      ensures forall f :: f in SelectedValues(rows) ==> f in fileLineCounts
      ensures totalLinesOfCode == SumCounts(SelectedValues(rows), fileLineCounts)
    {
      var selectedFiles := GetSelectedFiles(rows);
      var total := FetchAll(selectedFiles, server);
      totalLinesOfCode := total;
    }

    /** `Promise.all(selectedFiles.map(fetchLineCount))` followed by the sum
        of the counts: the files are fetched one after another, which gives
        the same cache, since the server answers each path the same way. */
    method FetchAll(files: seq<string>, server: string -> Option<LineCounter.LineCountResponse>) returns (total: int)
      modifies this`fileLineCounts
      ensures CacheGrows(old(fileLineCounts), fileLineCounts, files, server)
      ensures forall f :: f in files ==> f in fileLineCounts
      ensures total == SumCounts(files, fileLineCounts)
    {
      ghost var start := fileLineCounts;
      total := 0;
      var i := 0;
      while i < |files|
        invariant 0 <= i <= |files|
        invariant CacheGrows(start, fileLineCounts, files[..i], server)
        invariant forall f :: f in files[..i] ==> f in fileLineCounts
        invariant total == SumCounts(files[..i], fileLineCounts)
      {
        var f := files[i];
        ghost var before := fileLineCounts;
        var count := FetchLineCount(f, server(f));
        assert files[..i + 1] == files[..i] + [f];
        FetchStep(start, before, fileLineCounts, files[..i], f, server);
        total := total + count;
        i := i + 1;
      }
      assert files[..|files|] == files;
    }

    /** `updateFileSelectors`: every row's select is rebuilt from the
        available files. */
    method UpdateFileSelectors(rows: seq<Row>) returns (refreshed: seq<Row>)
      ensures refreshed == RefreshRows(rows, availableFiles)
    {
      refreshed := [];
      var index := 0;
      while index < |rows|
        invariant 0 <= index <= |rows|
        invariant refreshed == RefreshRows(rows[..index], availableFiles)
      {
        refreshed := refreshed + [RefreshRow(rows[index], availableFiles)];
        index := index + 1;
      }
      assert rows[..|rows|] == rows;
    }

    /** `promptForDirectory`: `input` is what the prompt returns, `None`
        when it is cancelled. A cancel changes nothing; a blank answer is
        refused; otherwise the trimmed answer becomes the directory and is
        browsed, `reply` being the server's answer and `rows` the page's
        file rows. */
    method PromptForDirectory(input: Option<string>, reply: DirectoryScanner.BrowseResponse, rows: seq<Row>)
      returns (outcome: Option<BrowseOutcome>, refreshed: seq<Row>)
      modifies this`selectedDirectory, this`fileLineCounts, this`totalLinesOfCode, this`availableFiles, this`projectName
      ensures input == None ==> outcome == None && refreshed == rows && unchanged(this)
      ensures input.Some? && Trim(input.value) == "" ==>
        outcome == Some(BrowseFailed("Directory path cannot be empty.")) && refreshed == rows && unchanged(this)
      ensures input.Some? && Trim(input.value) != "" ==>
        && selectedDirectory == Trim(input.value)
        && fileLineCounts == map[] && totalLinesOfCode == 0
        && refreshed == RefreshRows(rows, availableFiles)
      ensures input.Some? && Trim(input.value) != "" && reply.Files? ==>
        && availableFiles == reply.files
        && projectName == Some(FolderName(Trim(input.value)))
        && outcome == Some(Loaded("Directory loaded successfully!"))
      ensures input.Some? && Trim(input.value) != "" && reply.BrowseError? ==>
        && availableFiles == [] && projectName == old(projectName)
        && outcome == Some(BrowseFailed(if reply.message != "" then reply.message else "Failed to browse directory"))
    {
      match input {
        case None =>
          outcome, refreshed := None, rows;
        case Some(path) =>
          var trimmed := Trim(path);
          if trimmed != "" {
            selectedDirectory := trimmed;
            var browsed;
            browsed, refreshed := BrowseDirectory(reply, rows);
            outcome := Some(browsed);
          } else {
            outcome, refreshed := Some(BrowseFailed("Directory path cannot be empty.")), rows;
          }
      }
    }

    /** `browseDirectory`: with a directory set, the line-count cache and
        total are reset before the request; a listing replaces the available
        files and names the project, an error clears the files. Either way
        the file rows are refreshed against the new files. */
    method BrowseDirectory(reply: DirectoryScanner.BrowseResponse, rows: seq<Row>)
      returns (outcome: BrowseOutcome, refreshed: seq<Row>)
      modifies this`fileLineCounts, this`totalLinesOfCode, this`availableFiles, this`projectName
      ensures selectedDirectory == "" ==>
        outcome == BrowseFailed("Please enter a directory path") && refreshed == rows && unchanged(this)
      ensures selectedDirectory != "" ==>
        fileLineCounts == map[] && totalLinesOfCode == 0 && refreshed == RefreshRows(rows, availableFiles)
      ensures selectedDirectory != "" && reply.Files? ==>
        && availableFiles == reply.files
        && projectName == Some(FolderName(selectedDirectory))
        && outcome == Loaded("Directory loaded successfully!")
      ensures selectedDirectory != "" && reply.BrowseError? ==>
        && availableFiles == [] && projectName == old(projectName)
        && outcome == BrowseFailed(if reply.message != "" then reply.message else "Failed to browse directory")
    {
      if selectedDirectory == "" {
        return BrowseFailed("Please enter a directory path"), rows;
      }
      fileLineCounts := map[];
      totalLinesOfCode := 0;
      match reply {
        case Files(files) =>
          availableFiles := files;
          projectName := Some(FolderName(selectedDirectory));
          outcome := Loaded("Directory loaded successfully!");
        case BrowseError(_, message) =>
          availableFiles := [];
          outcome := BrowseFailed(if message != "" then message else "Failed to browse directory");
      }
      refreshed := UpdateFileSelectors(rows);
    }
  }
}
