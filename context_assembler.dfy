/** The context endpoint of the server (`get_context` in app.py): for each
    requested path that exists, in request order, one entry holding a
    display path and the file's text, or a placeholder when the file cannot
    be read.

    The display path is a local variable that keeps its value from one
    iteration to the next and is assigned only after a successful read. A
    failed read therefore reports the display path of the entry before it.
    When the first existing file cannot be read, the variable has never been
    assigned: the resulting `UnboundLocalError` escapes the per-file handler
    and the whole request ends in the 500 handler. */
module ContextAssembler {
  import opened Strings
  import opened PosixPath
  import opened FileSystem

  datatype ContextEntry = ContextEntry(path: string, content: string)

  datatype ContextResponse =
    | ContextFiles(files: seq<ContextEntry>)
    | ContextError(status: nat, message: string)

  /** `str(e)` of the `UnboundLocalError` raised when a failed read refers to
      the display path before any was assigned (the wording of Python 3.11
      and later). */
  const UnboundDisplayPath: string := "cannot access local variable 'display_path' where it is not associated with a value"

  /** The display path of a file that was read: its path relative to the
      selected directory when it lies inside it, otherwise its base name;
      then backslashes become slashes. An `Err` is the `ValueError` of
      `commonpath` when one path is absolute and the other relative. */
  function DisplayPath(cwd: string, selectedDirectory: string, filePath: string): (r: Result<string>)
    ensures r.Ok? ==> '\\' !in r.value
  {
    var base := BaseName(filePath);
    if selectedDirectory == "" then Ok(ReplaceChar(base, '\\', '/'))
    else
      var normDir := NormPath(selectedDirectory);
      var normFile := NormPath(filePath);
      match CommonPath(normFile, normDir)
      case Err(message) => Err(message)
      case Ok(common) =>
        Ok(ReplaceChar(if common == normDir then RelPath(cwd, normFile, normDir) else base, '\\', '/'))
  }

  /** The entry appended for an existing path, given the display path left
      by the previous iteration; `None` when the request aborts. */
  function Entry(fs: Fs, cwd: string, selectedDirectory: string, filePath: string, previous: Option<string>)
    : Option<ContextEntry>
    requires Exists(fs, cwd, filePath)
  {
    match Resolve(fs, cwd, filePath).value.read
    case Text(content) =>
      (match DisplayPath(cwd, selectedDirectory, filePath)
       case Ok(display) => Some(ContextEntry(display, content))
       case Err(message) =>
         // the base name was already assigned when commonpath raised
         var base := BaseName(filePath);
         Some(ContextEntry(base, "Error: Could not read file " + base + ". " + message)))
    case Denied(_) =>
      (match previous
       case None => None
       case Some(display) => Some(ContextEntry(display, "Error: Could not read file " + display + " due to permissions.")))
    case Failed(message) =>
      (match previous
       case None => None
       case Some(display) => Some(ContextEntry(display, "Error: Could not read file " + display + ". " + message)))
  }

  /** The entries for `paths`, the display path before the first of them
      being `previous`; `None` when the request aborts. The display path
      after an entry is always that entry's path. */
  function Assemble(fs: Fs, cwd: string, selectedDirectory: string, paths: seq<string>, previous: Option<string>)
    : Option<seq<ContextEntry>>
    decreases |paths|
  {
    if paths == [] then Some([])
    else if !Exists(fs, cwd, paths[0]) then Assemble(fs, cwd, selectedDirectory, paths[1..], previous)
    else
      match Entry(fs, cwd, selectedDirectory, paths[0], previous)
      case None => None
      case Some(e) =>
        match Assemble(fs, cwd, selectedDirectory, paths[1..], Some(e.path))
        case None => None
        case Some(rest) => Some([e] + rest)
  }

  /** The paths of the request that exist, in request order. */
  function Existing(fs: Fs, cwd: string, paths: seq<string>): (r: seq<string>)
    ensures |r| <= |paths|
    ensures forall p :: p in r ==> p in paths && Exists(fs, cwd, p)
  {
    if paths == [] then []
    else (if Exists(fs, cwd, paths[0]) then [paths[0]] else []) + Existing(fs, cwd, paths[1..])
  }

  function Prepend(done: seq<ContextEntry>, rest: Option<seq<ContextEntry>>): Option<seq<ContextEntry>>
  {
    match rest
    case None => None
    case Some(r) => Some(done + r)
  }

  /** `get_context`: the entries of all existing paths, or the 500 error the
      request ends in. An absent `selected_directory` is the empty string. */
  method GetContext(fs: Fs, cwd: string, filePaths: seq<string>, selectedDirectory: string)
    returns (r: ContextResponse)
    ensures Assemble(fs, cwd, selectedDirectory, filePaths, None).Some? ==>
      r == ContextFiles(Assemble(fs, cwd, selectedDirectory, filePaths, None).value)
    ensures Assemble(fs, cwd, selectedDirectory, filePaths, None).None? ==>
      r == ContextError(500, UnboundDisplayPath)
  {
    var filesData: seq<ContextEntry> := [];
    var displayPath: Option<string> := None;
    var i := 0;
    assert filePaths[0..] == filePaths;
    match Assemble(fs, cwd, selectedDirectory, filePaths, None) {
      case None =>
      case Some(all) => assert [] + all == all;
    }
    while i < |filePaths|
      invariant 0 <= i <= |filePaths|
      invariant Assemble(fs, cwd, selectedDirectory, filePaths, None)
             == Prepend(filesData, Assemble(fs, cwd, selectedDirectory, filePaths[i..], displayPath))
    {
      var filePath := filePaths[i];
      assert filePaths[i..][1..] == filePaths[i + 1..];
      if !Exists(fs, cwd, filePath) {
        i := i + 1;
        continue;
      }
      var entry := ReadEntry(fs, cwd, selectedDirectory, filePath, displayPath);
      AssembleStep(fs, cwd, selectedDirectory, filePaths[i..], displayPath, filesData);
      if entry.None? {
        return ContextError(500, UnboundDisplayPath);
      }
      filesData := filesData + [entry.value];
      displayPath := Some(entry.value.path);
      i := i + 1;
    }
    assert filePaths[|filePaths|..] == [];
    return ContextFiles(filesData);
  }

  /** The body of the loop of app.py:146-184 for an existing path: read the
      file and build its entry; `None` when the handler itself raises. */
  method ReadEntry(fs: Fs, cwd: string, selectedDirectory: string, filePath: string, displayPath: Option<string>)
    returns (e: Option<ContextEntry>)
    requires Exists(fs, cwd, filePath)
    ensures e == Entry(fs, cwd, selectedDirectory, filePath, displayPath)
  {
    match Resolve(fs, cwd, filePath).value.read {
      case Text(content) =>
        var display := BaseName(filePath);
        if selectedDirectory != "" {
          var normDir := NormPath(selectedDirectory);
          var normFile := NormPath(filePath);
          match CommonPath(normFile, normDir) {
            case Err(message) =>
              return Some(ContextEntry(display, "Error: Could not read file " + display + ". " + message));
            case Ok(common) =>
              if common == normDir {
                display := RelPath(cwd, normFile, normDir);
              }
          }
        }
        display := ReplaceChar(display, '\\', '/');
        e := Some(ContextEntry(display, content));
      case Denied(_) =>
        if displayPath.None? {
          return None;
        }
        e := Some(ContextEntry(displayPath.value, "Error: Could not read file " + displayPath.value + " due to permissions."));
      case Failed(message) =>
        if displayPath.None? {
          return None;
        }
        e := Some(ContextEntry(displayPath.value, "Error: Could not read file " + displayPath.value + ". " + message));
    }
  }

  lemma AssembleStep(fs: Fs, cwd: string, selectedDirectory: string, paths: seq<string>, previous: Option<string>,
                     done: seq<ContextEntry>)
    requires paths != [] && Exists(fs, cwd, paths[0])
    ensures var e := Entry(fs, cwd, selectedDirectory, paths[0], previous);
      && (e.None? ==> Prepend(done, Assemble(fs, cwd, selectedDirectory, paths, previous)).None?)
      && (e.Some? ==>
            Prepend(done, Assemble(fs, cwd, selectedDirectory, paths, previous))
            == Prepend(done + [e.value], Assemble(fs, cwd, selectedDirectory, paths[1..], Some(e.value.path))))
  {
    var e := Entry(fs, cwd, selectedDirectory, paths[0], previous);
    if e.Some? {
      match Assemble(fs, cwd, selectedDirectory, paths[1..], Some(e.value.path)) {
        case None =>
        case Some(rest) => assert done + ([e.value] + rest) == done + [e.value] + rest;
      }
    }
  }

  // ---------------------------------------------------------------------
  // Properties

  /** `entries` are the entries for `paths` in order, each one made with
      the previous entry's path as the carried display path. */
  predicate Chained(fs: Fs, cwd: string, selectedDirectory: string, paths: seq<string>, previous: Option<string>,
                    entries: seq<ContextEntry>)
    requires forall p :: p in paths ==> Exists(fs, cwd, p)
    decreases |paths|
  {
    if paths == [] then entries == []
    else
      && entries != []
      && Entry(fs, cwd, selectedDirectory, paths[0], previous) == Some(entries[0])
      && Chained(fs, cwd, selectedDirectory, paths[1..], Some(entries[0].path), entries[1..])
  }

  /** The `j`-th entry of a chain is the `j`-th path's entry, made with the
      path of the entry before it. */
  lemma {:induction false} ChainedAt(fs: Fs, cwd: string, selectedDirectory: string, paths: seq<string>,
                                     previous: Option<string>, entries: seq<ContextEntry>, j: nat)
    requires forall p :: p in paths ==> Exists(fs, cwd, p)
    requires Chained(fs, cwd, selectedDirectory, paths, previous, entries)
    ensures |entries| == |paths|
    ensures j < |paths| ==>
      Entry(fs, cwd, selectedDirectory, paths[j], if j == 0 then previous else Some(entries[j - 1].path))
      == Some(entries[j])
    decreases |paths|
  {
    if paths != [] {
      assert forall p :: p in paths[1..] ==> p in paths;
      ChainedAt(fs, cwd, selectedDirectory, paths[1..], Some(entries[0].path), entries[1..], if j == 0 then 0 else j - 1);
      if 1 < j < |paths| {
        assert paths[1..][j - 1] == paths[j] && entries[1..][j - 1] == entries[j];
        assert entries[1..][j - 2] == entries[j - 1];
      }
    }
  }

  /** One entry per existing path, in request order; each entry is the one
      its path gives with the previous entry's path as the carried display
      path. */
  lemma {:induction false} AssembleEntries(fs: Fs, cwd: string, selectedDirectory: string, paths: seq<string>,
                                           previous: Option<string>)
    ensures Assemble(fs, cwd, selectedDirectory, paths, previous).Some? ==>
      Chained(fs, cwd, selectedDirectory, Existing(fs, cwd, paths), previous,
              Assemble(fs, cwd, selectedDirectory, paths, previous).value)
    decreases |paths|
  {
    if paths != [] && Assemble(fs, cwd, selectedDirectory, paths, previous).Some? {
      if !Exists(fs, cwd, paths[0]) {
        AssembleEntries(fs, cwd, selectedDirectory, paths[1..], previous);
        assert Existing(fs, cwd, paths) == Existing(fs, cwd, paths[1..]) by {
          assert Existing(fs, cwd, paths) == [] + Existing(fs, cwd, paths[1..]);
        }
        assert Assemble(fs, cwd, selectedDirectory, paths, previous)
               == Assemble(fs, cwd, selectedDirectory, paths[1..], previous);
      } else {
        var x := Entry(fs, cwd, selectedDirectory, paths[0], previous).value;
        AssembleEntries(fs, cwd, selectedDirectory, paths[1..], Some(x.path));
        var rest := Assemble(fs, cwd, selectedDirectory, paths[1..], Some(x.path)).value;
        var existing := Existing(fs, cwd, paths);
        assert existing == [paths[0]] + Existing(fs, cwd, paths[1..]);
        assert existing[1..] == Existing(fs, cwd, paths[1..]);
        assert ([x] + rest)[1..] == rest;
      }
    }
  }

  /** The path names an entry that opens and reads as text. */
  predicate ReadsAsText(fs: Fs, cwd: string, p: string)
  {
    match Resolve(fs, cwd, p)
    case Some(e) => e.read.Text?
    case None => false
  }

  /** Once a display path has been assigned the request never aborts. */
  lemma {:induction false} AssembleCompletesOnceAssigned(fs: Fs, cwd: string, selectedDirectory: string,
                                                         paths: seq<string>, display: string)
    ensures Assemble(fs, cwd, selectedDirectory, paths, Some(display)).Some?
    decreases |paths|
  {
    if paths != [] {
      if !Exists(fs, cwd, paths[0]) {
        AssembleCompletesOnceAssigned(fs, cwd, selectedDirectory, paths[1..], display);
      } else {
        var e := Entry(fs, cwd, selectedDirectory, paths[0], Some(display));
        AssembleCompletesOnceAssigned(fs, cwd, selectedDirectory, paths[1..], e.value.path);
      }
    }
  }

  /** The request ends in the 500 handler exactly when the first existing
      file cannot be read. */
  lemma {:induction false} AssembleAbortsIff(fs: Fs, cwd: string, selectedDirectory: string, paths: seq<string>)
    ensures var existing := Existing(fs, cwd, paths);
      Assemble(fs, cwd, selectedDirectory, paths, None).None?
      <==> existing != [] && !ReadsAsText(fs, cwd, existing[0])
    decreases |paths|
  {
    if paths != [] {
      if !Exists(fs, cwd, paths[0]) {
        AssembleAbortsIff(fs, cwd, selectedDirectory, paths[1..]);
      } else {
        var e := Entry(fs, cwd, selectedDirectory, paths[0], None);
        if e.Some? {
          AssembleCompletesOnceAssigned(fs, cwd, selectedDirectory, paths[1..], e.value.path);
        }
      }
    }
  }

  /** A file that cannot be read after another was listed gets a placeholder
      that carries the previous entry's path, not its own. */
  lemma FailedReadRepeatsPreviousPath(fs: Fs, cwd: string, selectedDirectory: string, paths: seq<string>, j: nat)
    requires Assemble(fs, cwd, selectedDirectory, paths, None).Some?
    requires 0 < j < |Existing(fs, cwd, paths)| == |Assemble(fs, cwd, selectedDirectory, paths, None).value|
    requires !ReadsAsText(fs, cwd, Existing(fs, cwd, paths)[j])
    ensures var f := Assemble(fs, cwd, selectedDirectory, paths, None).value;
      && f[j].path == f[j - 1].path
      && StartsWith(f[j].content, "Error: Could not read file " + f[j - 1].path)
  {
    AssembleEntries(fs, cwd, selectedDirectory, paths, None);
    var f := Assemble(fs, cwd, selectedDirectory, paths, None).value;
    ChainedAt(fs, cwd, selectedDirectory, Existing(fs, cwd, paths), None, f, j);
    var p := Existing(fs, cwd, paths)[j];
    var prefix := "Error: Could not read file " + f[j - 1].path;
    assert Entry(fs, cwd, selectedDirectory, p, Some(f[j - 1].path)) == Some(f[j]);
    match Resolve(fs, cwd, p).value.read {
      case Denied(_) =>
        assert f[j].content == prefix + " due to permissions.";
      case Failed(message) =>
        assert f[j].content == prefix + ". " + message;
    }
  }

  /** For absolute paths, the display path is the file's path relative to
      the selected directory when the directory's components lead the
      file's (and the directory is not written with the special leading
      `//`), and the file's base name otherwise; backslashes then become
      slashes. */
  lemma DisplayPathOfAbsolute(cwd: string, selectedDirectory: string, filePath: string)
    requires IsAbs(cwd) && IsAbs(selectedDirectory) && IsAbs(filePath)
    ensures var dirSegs := AbsSegments(cwd, selectedDirectory);
      var fileSegs := AbsSegments(cwd, filePath);
      var inside := LeadingSlashes(selectedDirectory) == 1 && IsPrefix(dirSegs, fileSegs);
      var rest := if inside then fileSegs[|dirSegs|..] else [];
      DisplayPath(cwd, selectedDirectory, filePath)
      == Ok(ReplaceChar(if !inside then BaseName(filePath) else if rest == [] then "." else Join(rest, '/'), '\\', '/'))
  {
    var normDir := NormPath(selectedDirectory);
    var normFile := NormPath(filePath);
    assert normDir == AbsPath(cwd, selectedDirectory) && normFile == AbsPath(cwd, filePath);
    CommonPathIsDirIff(cwd, filePath, selectedDirectory);
    AbsPathShape(cwd, filePath);
    AbsPathShape(cwd, selectedDirectory);
    CommonPathOfAbsPaths(cwd, filePath, selectedDirectory);
    if LeadingSlashes(selectedDirectory) == 1 && IsPrefix(AbsSegments(cwd, selectedDirectory), AbsSegments(cwd, filePath)) {
      AbsSegmentsOfAbsPath(cwd, filePath);
      AbsSegmentsOfAbsPath(cwd, selectedDirectory);
      assert normFile != "" by { assert normFile[0] == '/'; }
      RelPathBelow(cwd, normFile, normDir);
    }
  }

  /** A relative path under an absolute selected directory, or the reverse,
      makes `commonpath` raise. */
  lemma DisplayPathMixed(cwd: string, selectedDirectory: string, filePath: string)
    requires selectedDirectory != "" && filePath != ""
    requires IsAbs(selectedDirectory) != IsAbs(filePath)
    ensures DisplayPath(cwd, selectedDirectory, filePath) == Err("Can't mix absolute and relative paths")
  {
    NormPathKeepsAbs(selectedDirectory);
    NormPathKeepsAbs(filePath);
  }

  /** For a relative directory and a relative file, `commonpath` compares
      their normal components: the file is inside exactly when the
      directory keeps at least one component and its components start the
      file's. Inside, the display path is `relpath`; otherwise the base
      name. */
  lemma DisplayPathRelative(cwd: string, selectedDirectory: string, filePath: string)
    requires selectedDirectory != "" && filePath != ""
    requires !IsAbs(selectedDirectory) && !IsAbs(filePath)
    ensures var dirSegs := NormComps(Split(selectedDirectory, '/'), false);
      var fileSegs := NormComps(Split(filePath, '/'), false);
      var inside := dirSegs != [] && IsPrefix(dirSegs, fileSegs);
      DisplayPath(cwd, selectedDirectory, filePath)
      == Ok(ReplaceChar(if inside then RelPath(cwd, NormPath(filePath), NormPath(selectedDirectory))
                        else BaseName(filePath), '\\', '/'))
  {
    RelNormPath(selectedDirectory);
    RelNormPath(filePath);
    var dirSegs := NormComps(Split(selectedDirectory, '/'), false);
    var fileSegs := NormComps(Split(filePath, '/'), false);
    var common := Join(Lcp(fileSegs, dirSegs), '/');
    assert CommonPath(NormPath(filePath), NormPath(selectedDirectory)) == Ok(common) by {
      assert "" + common == common;
    }
    RelCommonIsDirIff(fileSegs, dirSegs);
    assert common == NormPath(selectedDirectory) <==> dirSegs != [] && IsPrefix(dirSegs, fileSegs);
    DisplayPathByCommon(cwd, selectedDirectory, filePath, common);
  }

  /** Past the empty-directory case, the display path follows what
      `commonpath` returned. */
  lemma DisplayPathByCommon(cwd: string, selectedDirectory: string, filePath: string, common: string)
    requires selectedDirectory != "" && filePath != ""
    requires CommonPath(NormPath(filePath), NormPath(selectedDirectory)) == Ok(common)
    ensures DisplayPath(cwd, selectedDirectory, filePath)
      == Ok(ReplaceChar(if common == NormPath(selectedDirectory)
                        then RelPath(cwd, NormPath(filePath), NormPath(selectedDirectory))
                        else BaseName(filePath), '\\', '/'))
  {
  }

  /** The directory `.` (or anything normalising to it) contains no
      relative file: `commonpath` gives the empty string, never `.`, so every
      file is shown by its base name. */
  lemma DotDirectoryShowsBaseNames(cwd: string, filePath: string)
    requires filePath != "" && !IsAbs(filePath)
    ensures DisplayPath(cwd, ".", filePath) == Ok(ReplaceChar(BaseName(filePath), '\\', '/'))
  {
    SplitNoSep(".", '/');
    assert NormComps(Split(".", '/'), false) == [];
    DisplayPathRelative(cwd, ".", filePath);
  }

  /** Without a selected directory every file is shown by its base name. */
  lemma DisplayPathWithoutDirectory(cwd: string, filePath: string)
    ensures DisplayPath(cwd, "", filePath) == Ok(ReplaceChar(BaseName(filePath), '\\', '/'))
  {
  }
}
