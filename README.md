# FlaskContextBuilder, modelled in Dafny

FlaskContextBuilder is a small web tool. It turns a chosen set of files from a
local project into one block of text for a language model. The server is Flask
and does four jobs:

- it walks a directory and skips excluded directories and files;
- it counts the lines of a file, but only inside the selected directory;
- it reads the selected files and gives each one a display path;
- it keeps the exclusion rules in a JSON file.

The browser side is in JavaScript:

- it collects the selected files;
- it formats the custom instructions;
- it builds the clipboard text;
- it caches line counts and colours the line total;
- an exclusion editor adds and removes rules.

This project models that core and proves properties about it:

| module | file | models |
|---|---|---|
| `Strings` | strings.dfy | `str.split` and `join` on one separator, JavaScript's `trim`, and replacing one character |
| `Fnmatch` | fnmatch.dfy | POSIX `fnmatch.fnmatch` (case-sensitive): `*`, `?`, `[...]`, `[!...]`, ranges, and an unclosed `[` as a literal |
| `PosixPath` | posix_path.dfy | `posixpath` on strings: `normpath`, `abspath` against a working directory, `commonpath`, `relpath`, `basename`, `join` |
| `FileSystem` | file_system.dfy | a filesystem keyed by normalised absolute path, for the file endpoints |
| `Exclusions` | exclusions.dfy | `is_excluded` |
| `DirectoryScanner` | directory_scanner.dfy | `browse_directory` over a directory tree |
| `LineCounter` | line_counter.dfy | `get_line_count`, with text-mode reading (universal newlines) and line iteration |
| `ContextAssembler` | context_assembler.dfy | `get_context`, including the `display_path` that carries over from one loop iteration to the next |
| `ExclusionRoutes` | exclusion_routes.dfy | `load_exclusions` and `set_exclusions` on decoded JSON values |
| `ExclusionManager` | exclusion_manager.dfy | the exclusion editor of `exclusion_manager.js`, as a class over its rule lists and input boxes |
| `ContextGenerator` | context_generator.dfy | the `ContextGenerator` class of `app.js` |

Where a source function loops, the model does too. Each such method is proved
equal to a function that specifies it:

- `browse_directory` walks top-down the way `os.walk` does. For each directory
  it prunes the subdirectories, lists the files, then descends into the
  survivors in listing order. The methods are `VisitDir`, `VisitAll`,
  `PruneDirs` and `ListFiles`. Their specification is the pre-order function
  `Walk`. The main properties of `Walk`:
  - `ScanMembership`: a descriptor is reported if and only if its file can be
    reached through surviving directories and is not excluded itself;
  - `WalkDistinct`: reported paths are distinct;
  - `ScanRespectsRules`: no reported file matches a rule, and no directory on
    its way does.
- `get_context` loops over the requested paths and carries `display_path`
  along. Its specification is `Assemble`.
- `set_exclusions` loops over the three rule keys. Its specification is
  `Normalise`.
- `recalculateTotalLines` fetches the count of every selected file and sums
  the counts.

The JavaScript objects become classes, with fields that their methods update:

- `ExclusionEditor` holds the three rule lists and the three input boxes;
- `ContextGenerator` holds the line-count cache, the total, the available files
  and the project name.

Inputs from outside the program become parameters:

- the filesystem;
- the server's replies to the browser;
- the working directory;
- the contents of the rules file.

## Model

| member | source | states |
|---|---|---|
| Strings.JoinSplit | app.py:31 | splitting a string on a separator and joining the parts again gives back the string |
| Strings.SplitJoin | app.py:31 | joining parts that hold no separator and splitting again gives back the parts |
| Strings.SplitConcat | app.py:31 | splitting `a + sep + b` gives the parts of `a` followed by the parts of `b` |
| Strings.TrimSpec | static/js/exclusion_manager.js:68 | `trim` removes exactly a whitespace prefix and a whitespace suffix, and the result neither starts nor ends with whitespace |
| Strings.TrimEmptyIff | static/js/app.js:200 | a string trims to empty exactly when it is all whitespace |
| Strings.TrimIdempotent | static/js/exclusion_manager.js:68 | trimming twice is trimming once |
| Fnmatch.LiteralMatchesItself | app.py:37-38 | a pattern with no wildcard matches exactly the name equal to it |
| Fnmatch.StarMatchesEverything | app.py:37-38 | `*` matches every name |
| Fnmatch.StarSuffixMatchesEndings | app.py:37-38 | `*` followed by a literal suffix matches exactly the names that end with that suffix |
| Fnmatch.QuestionMarksMatchLength | app.py:37-38 | a pattern of `?` only matches exactly the names of its length |
| Exclusions.DirRuleFiresIff | app.py:30-32 | the directory-rule loop fires exactly when some non-empty rule is a component of `rel_root` |
| Exclusions.PatternFiresIff | app.py:37-39 | the pattern loop fires exactly when some pattern matches the file name |
| Exclusions.IsExcludedIff | app.py:28-40 | a name is excluded exactly when a non-empty directory rule is a component of `rel_root`, the name is a file rule, or a pattern matches it |
| Exclusions.LiteralPatternIsFilenameRule | app.py:34-38 | adding a wildcard-free pattern equal to the name excludes it, as a file rule would |
| PosixPath.NormPathIdempotent | app.py:156-157 | `normpath` of a normalised path changes nothing |
| PosixPath.NormPathKeepsAbs | app.py:156-157 | `normpath` keeps a path absolute or relative |
| PosixPath.AbsPathShape | app.py:121-122 | `abspath` gives one or two leading slashes followed by clean components joined with `/` |
| PosixPath.CommonPathOfAbsPaths | app.py:124 | `commonpath` of two absolute paths is `/` followed by their longest common component prefix |
| PosixPath.CommonPathIsDirIff | app.py:121-124 | `commonpath([file, dir]) == dir` exactly when the directory has a single leading slash and its components are a prefix of the file's |
| PosixPath.RelNormPath | app.py:156-157 | `normpath` of a non-empty relative path is its normal components joined with `/`, or `.` when none are left; it stays relative, and `commonpath` reads those components back |
| PosixPath.RelCommonIsDirIff | app.py:158 | for relative normal forms, the joined common components equal the directory's normal path exactly when the directory has components and they start the file's |
| PosixPath.RelPathBelow | app.py:159 | `relpath` of a path below a start directory is its remaining components joined with `/`, or `.` when there are none |
| PosixPath.TraversalEscapes | app.py:121-124 | `/a/b/../../etc/passwd` normalises to `/etc/passwd`, whose components `etc`, `passwd` do not start with `a`, `b`, so the file is outside `/a/b` |
| DirectoryScanner.BrowseDirectory | app.py:46-83 | an empty or missing directory gives the 400 error; otherwise the response lists exactly the files of `Walk` under the server's exclusion test |
| DirectoryScanner.VisitDir | app.py:58-76 | visiting a directory, then its surviving subdirectories in order, gives `Walk` of that directory |
| DirectoryScanner.VisitAll | app.py:58 | visiting a list of surviving subdirectories in order gives the concatenation of their walks |
| DirectoryScanner.PruneDirs | app.py:61 | the in-place filter of `dirs` keeps, in listing order, the subdirectories whose joined relative path is not excluded |
| DirectoryScanner.ListFiles | app.py:62-76 | the file loop reports, in listing order, every file that is not excluded and whose size can be read |
| DirectoryScanner.Describe | app.py:65-74 | a descriptor holds the name, the joined path, the path relative to the selected directory, and the size |
| DirectoryScanner.RelativePathOfFile | app.py:66 | `relpath` of a reported file against the selected directory is the subdirectories walked through joined with its name |
| DirectoryScanner.WalkSound | app.py:58-76 | every reported descriptor belongs to a file reached only through directories that survived pruning, and the file is not excluded itself |
| DirectoryScanner.WalkComplete | app.py:58-76 | every such file is reported |
| DirectoryScanner.ScanMembership | app.py:58-76 | a descriptor is in the response if and only if it is reachable as above |
| DirectoryScanner.WalkDistinct | app.py:58-76 | no relative path is reported twice |
| DirectoryScanner.ScanRespectsRules | app.py:28-40 | no reported file is a file rule or matches a pattern, and no directory on its relative path is a directory rule, a file rule, or matches a pattern |
| DirectoryScanner.SurvivorNamedByNoRule | app.py:61 | a directory that survives pruning is named by no rule |
| DirectoryScanner.DotRuleHidesEverything | app.py:31 | a directory rule `.` empties the listing, because every joined relative path starts with `.` |
| LineCounter.CountLines | app.py:129-130 | counting the lines of the file's text as iteration yields them gives the number of lines |
| LineCounter.LinesConcat | app.py:130 | the lines of a text put back together give the text |
| LineCounter.LinesShape | app.py:130 | no line is empty, every line but the last ends with its only newline |
| LineCounter.LinesCount | app.py:130 | the number of lines is the number of newlines, plus one for an unterminated tail |
| LineCounter.TranslateWithoutCR | app.py:129 | text-mode reading leaves text without carriage returns unchanged |
| LineCounter.GetLineCount | app.py:112-135 | a missing path gives 400; a file outside the directory gives 403; a missing or non-regular file gives 404; a read failure gives 500; otherwise the reply is the line count |
| LineCounter.InsideIff | app.py:121-124 | the access check passes exactly when the directory has a single leading slash and its components are a prefix of the file's |
| LineCounter.TraversalRefused | app.py:124-125 | `/a/b/../../etc/passwd` is refused for the directory `/a/b` |
| LineCounter.DoubleSlashDirectoryRefusesAll | app.py:121-125 | a directory given with exactly two leading slashes refuses every file |
| ContextAssembler.GetContext | app.py:137-191 | the response is the entries of `Assemble` over all requested paths, or the 500 error when the first existing file cannot be read |
| ContextAssembler.ReadEntry | app.py:150-184 | one iteration's entry: the display path and content, or an error text that carries the display path in force |
| ContextAssembler.DisplayPath | app.py:154-161 | a successfully computed display path never holds a backslash; when `commonpath` raises, the raw base name is kept, as `ReadEntry` models |
| ContextAssembler.Existing | app.py:146-148 | only existing requested paths are visited, and in order |
| ContextAssembler.AssembleEntries | app.py:146-184 | the response holds one entry per existing path, in order, each built with the previous entry's path as the carried display path |
| ContextAssembler.AssembleAbortsIff | app.py:150-191 | the request fails exactly when the first existing file cannot be read, because `display_path` is then unbound in the handler |
| ContextAssembler.FailedReadRepeatsPreviousPath | app.py:169-184 | a later file that cannot be read gets a placeholder with the previous entry's path, not its own |
| ContextAssembler.DisplayPathOfAbsolute | app.py:154-161 | for absolute paths, the display path is the path relative to the directory when the file is inside it, and the base name otherwise |
| ContextAssembler.DisplayPathRelative | app.py:154-161 | for a relative directory and a relative file, the display path is `relpath` when the directory's normal components are non-empty and start the file's, and the base name otherwise |
| ContextAssembler.DotDirectoryShowsBaseNames | app.py:155-159 | with the directory `.`, every relative file is shown by its base name, because `commonpath` gives the empty string and never `.` |
| ContextAssembler.DisplayPathWithoutDirectory | app.py:154-155 | without a selected directory, every file is shown by its base name |
| ContextAssembler.DisplayPathMixed | app.py:156-158 | an absolute file with a relative directory, or the reverse, makes `commonpath` raise its error |
| FileSystem.ResolveAbsPath | app.py:121-126 | the `abspath` of a non-empty path names the same entry as the path itself, so `isfile` on the normalised path tests the requested file |
| ExclusionRoutes.LoadExclusions | exclusion_manager_routes.py:8-12 | without a rules file the result is the three rule keys, each an empty list; otherwise it is the file's contents |
| ExclusionRoutes.SetExclusions | exclusion_manager_routes.py:22-32 | a non-object body gives the 400 error and saves nothing; an object is saved with its rule keys normalised, and the reply is the success message |
| ExclusionRoutes.NormaliseKeysSpec | exclusion_manager_routes.py:28-30 | after the loop, a visited key that held a list keeps it, any other visited key holds the empty list, and other keys are untouched |
| ExclusionRoutes.NormaliseRuleKeysAreLists | exclusion_manager_routes.py:27-30 | after the loop all three rule keys exist and are lists |
| ExclusionRoutes.NormaliseKeepsLists | exclusion_manager_routes.py:29-30 | a rule key that held a list keeps it; otherwise it becomes the empty list |
| ExclusionRoutes.NormalisePassesThrough | exclusion_manager_routes.py:28-31 | the saved object has the posted keys plus the rule keys, and keys that are not rule keys pass through unchanged |
| ExclusionRoutes.NormaliseIdempotent | exclusion_manager_routes.py:28-30 | saving a saved object again changes nothing |
| ExclusionRoutes.SaveDefaultUnchanged | exclusion_manager_routes.py:8-10 | the default rules pass the save normalisation unchanged |
| ExclusionManager.ExclusionEditor.constructor | static/js/exclusion_manager.js:21-25 | all three rule lists and all three input boxes start empty |
| ExclusionManager.ExclusionEditor.Type | static/js/exclusion_manager.js:68 | typing into one input box changes only that box |
| ExclusionManager.ExclusionEditor.Add | static/js/exclusion_manager.js:67-90 | an add handler applies `AddRule` to its own list and input box, and leaves the other two kinds unchanged |
| ExclusionManager.ExclusionEditor.Remove | static/js/exclusion_manager.js:36-38 | a Remove button splices its rule out of its own list, and nothing else changes |
| ExclusionManager.AddRuleIff | static/js/exclusion_manager.js:67-74 | the trimmed input is appended and the box cleared exactly when it is non-empty and not yet listed; otherwise nothing changes |
| ExclusionManager.AddRuleKeepsNoDuplicates | static/js/exclusion_manager.js:69-70 | adding keeps a rule list free of duplicates |
| ExclusionManager.AddRuleKeepsTrimmed | static/js/exclusion_manager.js:68-70 | adding keeps every rule trimmed |
| ExclusionManager.AddAllKeepsNoDuplicates | static/js/exclusion_manager.js:67-90 | any sequence of adds keeps the list duplicate-free and keeps the earlier rules as a prefix |
| ExclusionManager.RemoveAtElements | static/js/exclusion_manager.js:37 | `splice(idx, 1)` drops exactly the rule at `idx` and shifts the rest down |
| ExclusionManager.RemoveAtKeepsNoDuplicates | static/js/exclusion_manager.js:37 | removing keeps the list duplicate-free, and the removed rule is gone |
| ExclusionManager.RemoveUndoesAdd | static/js/exclusion_manager.js:36-38 | removing the last rule right after an add restores the list |
| ExclusionManager.PayloadIsNormal | exclusion_manager_routes.py:27-31 | what the editor posts passes the server's normalisation unchanged |
| ContextGenerator.FolderName | static/js/app.js:75-80 | the project name is never empty and holds no slash |
| ContextGenerator.FolderNameOfPath | static/js/app.js:75-80 | the project name of a directory path is its last name, with either separator and with a trailing slash |
| ContextGenerator.FolderNameOfRoot | static/js/app.js:79 | the root directory is named `Project` |
| ContextGenerator.GetSelectedFiles | static/js/app.js:180-190 | the selected files are `SelectedValues` of the rows |
| ContextGenerator.SelectedRows | static/js/app.js:184-188 | the selected files are the values of exactly the checked rows with a non-empty value, in row order |
| ContextGenerator.FormatInstructions | static/js/app.js:192-212 | instructions are present exactly when the reply has non-whitespace text; then they are the trimmed text with the header and separator; otherwise all fields are empty and `error` records a failed fetch |
| ContextGenerator.CopyContext | static/js/app.js:214-271 | the outcome is `Copy` of the formatted instructions, the selection and the server's reply |
| ContextGenerator.CopyInstructionsOnly | static/js/app.js:221-227 | with instructions and no file selected, the clipboard gets the header and instructions lines, and the toast names the instructions |
| ContextGenerator.CopyWithFiles | static/js/app.js:234-261 | when the server returns files, the clipboard gets the instructions block, if any, then every file block in order; trimming removes only the final newline |
| ContextGenerator.NothingToCopyIff | static/js/app.js:228-259 | "nothing to copy" is shown exactly when there are no instructions, the instructions fetch did not fail with no file selected, and either no file is selected or the server returned none |
| ContextGenerator.BandOf | static/js/app.js:424-437 | the total is red above 8000, yellow above 4000 up to 8000, and green otherwise |
| ContextGenerator.BandMonotone | static/js/app.js:429-435 | a larger total never gets a lower band |
| ContextGenerator.SumCountsStable | static/js/app.js:418-419 | the sum depends only on the cached counts of the files summed |
| ContextGenerator.ContextGenerator.constructor | static/js/app.js:60-61 | the line-count cache starts empty, the total at 0, and there are no files and no project name |
| ContextGenerator.ContextGenerator.FetchLineCount | static/js/app.js:391-413 | a cached count is returned with no request; otherwise the reply's count, or 0 on a failure, is cached and returned |
| ContextGenerator.ContextGenerator.FetchAll | static/js/app.js:418-419 | every file ends up cached, cached counts are kept, new counts are the server's, and the result is the sum over the files |
| ContextGenerator.ContextGenerator.RecalculateTotalLines | static/js/app.js:415-422 | the total becomes the sum of the cached counts of the selected files, all of which are cached |
| ContextGenerator.ContextGenerator.BrowseDirectory | static/js/app.js:50-90 | with no directory entered, an error and no change; otherwise the cache and total are reset, a listing replaces the files and names the project, an error clears the files, and the file rows are refreshed against the new files |
| ContextGenerator.ContextGenerator.PromptForDirectory | static/js/app.js:33-41 | a cancelled prompt changes nothing; a blank answer is refused with 'Directory path cannot be empty.' and changes nothing; otherwise the trimmed answer becomes the directory and is browsed |
| ContextGenerator.ContextGenerator.UpdateFileSelectors | static/js/app.js:148-168 | the loop over the rows gives `RefreshRows`: each row keeps its checkbox, and keeps its chosen path only while some available file has it |
| ContextGenerator.KeepListed | static/js/app.js:163 | the kept values are among the given ones, each the path of some available file |
| ContextGenerator.RefreshedSelection | static/js/app.js:148-168 | after the rows are refreshed, the selected files are the earlier selection without the paths no longer listed, in the same order |

## Left out

- The server is modelled on a POSIX host: `posixpath`, `os.sep` as `/`, and
  case-sensitive `fnmatch`. Windows path handling is not modelled. On Windows,
  `ntpath` handles `\`, drive letters and `normcase`, and `fnmatch` folds
  case.
- ContextAssembler.DisplayPathRelative: inside the directory, the display
  path is stated as `relpath` of the two normalised paths, not as the
  remaining components. When the directory's components are all `..`,
  `relpath` then depends on the working directory.
- The filesystem is an input. Symbolic links, permissions that change during a
  request, and decoding of file bytes (`encoding='utf-8', errors='ignore'`) are
  not modelled: a file's text is given as a string, or as unreadable.
- The file endpoints key the filesystem by the lexically normalised absolute
  path. The operating system's own path resolution is not modelled, including
  `..` across symbolic links.
- `browse_directory`: an error raised while walking (`PermissionError`, which
  would give 403) is not modelled. A directory that cannot be listed is
  skipped, as `os.walk` does without an `onerror` handler. The general 500
  handler is not modelled.
- `load_exclude_patterns` in app.py and reading the rules file: the rules are
  given to the scan as a `Rules` value. Malformed JSON, and rule values that
  are not lists of strings, are not modelled.
- DirectoryScanner.Walk is stated for any exclusion test. The server's test is
  `RuleTest`, which is `is_excluded`.
- A request body that is not JSON, or is missing a key: a missing
  `file_path`, `selected_directory` or `directory` is the empty string, and a
  missing `file_paths` is the empty list.
- ContextAssembler.GetContext: the 500 reply carries a fixed text. In
  CPython, the `UnboundLocalError` message text depends on the version.
- The `print` calls in `get_context`, and the `index` and `read_file`
  endpoints.
- custom_instructions_routes.py, prompt_builder_routes.py, run.py and
  setup.py. The custom instructions reach the browser as an
  `InstructionsReply` value.
- JavaScript `fetch`, `async` and the DOM:
  - the server's replies are parameters;
  - the file rows are checkbox and select-value pairs;
  - rendering, toasts shown, and the clipboard write are left out, but the
    clipboard text and the toast text are modelled.
- ContextGenerator.ContextGenerator.FetchAll: `Promise.all` starts every fetch
  at once. The model fetches one file after another. The resulting cache is the
  same when the server answers each path the same way.
- `previewContext` and `formatFileSize`: they only render what the modelled
  members compute. Likewise the option labels and the bold style that
  `updateFileSelectorsForRow` sets, and the prompt's default text in
  `promptForDirectory`.
- ExclusionManager.ExclusionEditor: `fetchExclusions` replaces the editor's
  whole state with the object the server sends, and the save button posts
  that object back. The model holds only the three rule lists, and `Payload`
  posts only the three rule keys. Other keys of the rules file, which the
  source would keep through a load and a save, are not modelled.
