/** The line-count endpoint of the server (`get_line_count` in app.py): a
    file path and the selected directory are made absolute and normalised,
    the file must lie inside the directory, must be a regular file, and is
    then read as text and its lines counted. */
module LineCounter {
  import opened Strings
  import opened PosixPath
  import opened FileSystem

  datatype LineCountResponse =
    | LineCount(count: nat)
    | LineCountError(status: nat, message: string)

  // ---------------------------------------------------------------------
  // Text-mode reading

  /** The universal-newline translation of a file opened in text mode:
      `\r\n` and a lone `\r` both become `\n`. Defined on the last character,
      the way a reader meets them. */
  function Translate(s: string): (t: string)
    ensures '\r' !in t
    decreases |s|
  {
    if s == [] then []
    else
      var init := s[..|s| - 1];
      var c := s[|s| - 1];
      if c == '\n' && init != [] && init[|init| - 1] == '\r' then Translate(init)
      else if c == '\r' then Translate(init) + "\n"
      else Translate(init) + [c]
  }

  /** The lines iterating over a text file yields: each ends with its `\n`,
      and a non-empty unterminated tail is a last line of its own. */
  function Lines(t: string): (lines: seq<string>)
  {
    var parts := Split(t, '\n');
    var m := |parts| - 1;
    seq(m, i requires 0 <= i < m => parts[i] + "\n") + (if parts[m] == "" then [] else [parts[m]])
  }

  function Concat(lines: seq<string>): string
  {
    if lines == [] then "" else lines[0] + Concat(lines[1..])
  }

  function CountChar(s: string, c: char): nat
  {
    if s == [] then 0 else (if s[0] == c then 1 else 0) + CountChar(s[1..], c)
  }

  /** What `sum(1 for _ in f)` counts: one per newline, plus one for a
      non-empty unterminated tail. */
  function LineTotal(t: string): nat
  {
    CountChar(t, '\n') + (if t != [] && t[|t| - 1] != '\n' then 1 else 0)
  }

  /** `sum(1 for _ in f)` over the decoded `text`, read character by
      character. */
  method CountLines(text: string) returns (count: nat)
    ensures count == |Lines(Translate(text))|
  {
    var newlines := 0;
    var prevCR := false;
    var inLine := false;
    var i := 0;
    while i < |text|
      invariant 0 <= i <= |text|
      invariant newlines == CountChar(Translate(text[..i]), '\n')
      invariant prevCR == (i > 0 && text[i - 1] == '\r')
      invariant inLine == (Translate(text[..i]) != [] && Translate(text[..i])[|Translate(text[..i])| - 1] != '\n')
    {
      var c := text[i];
      ghost var before := Translate(text[..i]);
      assert text[..i + 1][..i] == text[..i] && text[..i + 1][i] == c;
      if c == '\n' && prevCR {
        assert Translate(text[..i + 1]) == before;
        inLine := false;
      } else if c == '\r' || c == '\n' {
        assert Translate(text[..i + 1]) == before + "\n";
        CountCharAppend(before, '\n', '\n');
        newlines := newlines + 1;
        inLine := false;
      } else {
        assert Translate(text[..i + 1]) == before + [c];
        CountCharAppend(before, c, '\n');
        inLine := true;
      }
      prevCR := c == '\r';
      i := i + 1;
    }
    assert text[..|text|] == text;
    count := newlines + (if inLine then 1 else 0);
    LinesCount(Translate(text));
  }

  lemma {:induction false} CountCharAppend(s: string, x: char, c: char)
    ensures CountChar(s + [x], c) == CountChar(s, c) + (if x == c then 1 else 0)
  {
    if s != [] {
      assert (s + [x])[1..] == s[1..] + [x];
      CountCharAppend(s[1..], x, c);
    }
  }

  /** A split has one more part than there are separators. */
  lemma {:induction false} SplitLength(s: string, sep: char)
    ensures |Split(s, sep)| == CountChar(s, sep) + 1
  {
    if s != [] {
      SplitLength(s[1..], sep);
    }
  }

  /** The part after the last separator is empty exactly when the string is
      empty or ends with the separator. */
  lemma {:induction false} SplitLastEmpty(s: string, sep: char)
    ensures var parts := Split(s, sep); parts[|parts| - 1] == "" <==> s == [] || s[|s| - 1] == sep
  {
    if s != [] {
      SplitLastEmpty(s[1..], sep);
      var rest := Split(s[1..], sep);
      if s[0] != sep && |rest| == 1 {
        SplitLength(s[1..], sep);
        if s[1..] != [] && s[|s| - 1] == sep {
          CountPositive(s[1..], sep);
        }
      }
    }
  }

  lemma {:induction false} CountPositive(s: string, c: char)
    requires s != [] && s[|s| - 1] == c
    ensures CountChar(s, c) > 0
  {
    if s[0] != c {
      CountPositive(s[1..], c);
    }
  }

  /** The number of lines iteration yields is the newline count plus one for
      an unterminated tail. */
  lemma LinesCount(t: string)
    ensures |Lines(t)| == LineTotal(t)
  {
    SplitLength(t, '\n');
    SplitLastEmpty(t, '\n');
  }

  /** The lines put back together are the text. */
  lemma LinesConcat(t: string)
    ensures Concat(Lines(t)) == t
  {
    var parts := Split(t, '\n');
    var m := |parts| - 1;
    JoinSplit(t, '\n');
    ConcatTerminated(parts, '\n');
    var head := seq(m, i requires 0 <= i < m => parts[i] + "\n");
    ConcatAppend(head, if parts[m] == "" then [] else [parts[m]]);
  }

  lemma {:induction false} ConcatAppend(a: seq<string>, b: seq<string>)
    ensures Concat(a + b) == Concat(a) + Concat(b)
  {
    if a == [] {
      assert a + b == b;
    } else {
      assert (a + b)[1..] == a[1..] + b;
      ConcatAppend(a[1..], b);
    }
  }

  /** Joining with a separator is writing each part but the last with the
      separator after it, then the last part. */
  lemma {:induction false} ConcatTerminated(parts: seq<string>, sep: char)
    requires |parts| >= 1
    ensures var m := |parts| - 1;
      Concat(seq(m, i requires 0 <= i < m => parts[i] + [sep])) + parts[m] == Join(parts, sep)
  {
    var m := |parts| - 1;
    if m > 0 {
      ConcatTerminated(parts[1..], sep);
      var head := seq(m, i requires 0 <= i < m => parts[i] + [sep]);
      var tail := seq(m - 1, i requires 0 <= i < m - 1 => parts[1..][i] + [sep]);
      assert head[1..] == tail;
    }
  }

  /** Each line but the last ends with its newline and holds no other; the
      last may lack one. No line is empty. */
  lemma LinesShape(t: string)
    ensures forall k :: 0 <= k < |Lines(t)| ==> Lines(t)[k] != ""
    ensures forall k :: 0 <= k < |Lines(t)| - 1 ==> Lines(t)[k][|Lines(t)[k]| - 1] == '\n'
    ensures forall k :: 0 <= k < |Lines(t)| ==> '\n' !in Lines(t)[k][..|Lines(t)[k]| - 1]
  {
    var parts := Split(t, '\n');
    var lines := Lines(t);
    var m := |parts| - 1;
    forall k | 0 <= k < |lines| ensures '\n' !in lines[k][..|lines[k]| - 1] {
      if k < m {
        assert lines[k] == parts[k] + "\n";
        assert lines[k][..|lines[k]| - 1] == parts[k];
      } else {
        assert lines[k] == parts[m];
        assert lines[k][..|lines[k]| - 1] == parts[m][..|parts[m]| - 1];
        assert forall j :: 0 <= j < |parts[m]| - 1 ==> parts[m][..|parts[m]| - 1][j] == parts[m][j];
      }
    }
  }

  /** Text without carriage returns reads back unchanged. */
  lemma {:induction false} TranslateWithoutCR(s: string)
    requires '\r' !in s
    ensures Translate(s) == s
    decreases |s|
  {
    if s != [] {
      var init := s[..|s| - 1];
      assert '\r' !in init by {
        forall j | 0 <= j < |init| ensures init[j] != '\r' { assert init[j] == s[j]; }
      }
      TranslateWithoutCR(init);
      assert s[|s| - 1] in s;
      assert init + [s[|s| - 1]] == s;
    }
  }

  // ---------------------------------------------------------------------
  // The endpoint

  /** The security check of app.py:124: the common path of the file and the
      directory, both made absolute, is the directory. */
  predicate Inside(cwd: string, filePath: string, selectedDirectory: string)
  {
    CommonPath(AbsPath(cwd, filePath), AbsPath(cwd, selectedDirectory)) == Ok(AbsPath(cwd, selectedDirectory))
  }

  /** `get_line_count`. A missing key of the request is the empty string here.
      The working directory is absolute, as `os.getcwd` returns it. */
  method GetLineCount(fs: Fs, cwd: string, filePath: string, selectedDirectory: string)
    returns (r: LineCountResponse)
    requires IsAbs(cwd)
    ensures filePath == "" || selectedDirectory == "" ==>
      r == LineCountError(400, "Missing file_path or selected_directory")
    ensures filePath != "" && selectedDirectory != "" && !Inside(cwd, filePath, selectedDirectory) ==>
      r == LineCountError(403, "Unauthorized file access")
    ensures filePath != "" && selectedDirectory != "" && Inside(cwd, filePath, selectedDirectory) ==>
      var normFile := AbsPath(cwd, filePath);
      if !IsFile(fs, cwd, normFile) then r == LineCountError(404, "File does not exist")
      else match Resolve(fs, cwd, normFile).value.read
        case Text(text) => r == LineCount(|Lines(Translate(text))|)
        case Denied(message) => r == LineCountError(500, message)
        case Failed(message) => r == LineCountError(500, message)
  {
    if filePath == "" || selectedDirectory == "" {
      return LineCountError(400, "Missing file_path or selected_directory");
    }
    var normFile := AbsPath(cwd, filePath);
    var normDir := AbsPath(cwd, selectedDirectory);
    if CommonPath(normFile, normDir) != Ok(normDir) {
      return LineCountError(403, "Unauthorized file access");
    }
    if !IsFile(fs, cwd, normFile) {
      return LineCountError(404, "File does not exist");
    }
    match Resolve(fs, cwd, normFile).value.read {
      case Text(text) =>
        var count := CountLines(text);
        r := LineCount(count);
      case Denied(message) =>
        r := LineCountError(500, message);
      case Failed(message) =>
        r := LineCountError(500, message);
    }
  }

  /** The check passes exactly for files whose normalised components extend
      the directory's, the directory not being written with the special
      leading `//`; it looks neither at the filesystem nor at links. */
  lemma InsideIff(cwd: string, filePath: string, selectedDirectory: string)
    requires IsAbs(cwd)
    ensures Inside(cwd, filePath, selectedDirectory) <==>
      && LeadingSlashes(AbsInput(cwd, selectedDirectory)) == 1
      && IsPrefix(AbsSegments(cwd, selectedDirectory), AbsSegments(cwd, filePath))
  {
    CommonPathIsDirIff(cwd, filePath, selectedDirectory);
  }

  /** `/a/b/../../etc/passwd` is refused for the directory `/a/b`: the check
      is made after normalisation, before the file is looked up. */
  lemma TraversalRefused(cwd: string)
    requires IsAbs(cwd)
    ensures !Inside(cwd, Join(["", "a", "b", "..", "..", "etc", "passwd"], '/'), Join(["", "a", "b"], '/'))
  {
    TraversalEscapes(cwd);
    InsideIff(cwd, Join(["", "a", "b", "..", "..", "etc", "passwd"], '/'), Join(["", "a", "b"], '/'));
  }

  /** A directory written with exactly two leading slashes keeps them under
      `abspath`, while `commonpath` rebuilds its result with one: no file is
      ever inside such a directory. */
  lemma DoubleSlashDirectoryRefusesAll(cwd: string, filePath: string, selectedDirectory: string)
    requires IsAbs(cwd)
    requires StartsWith(selectedDirectory, "//") && !StartsWith(selectedDirectory, "///")
    ensures !Inside(cwd, filePath, selectedDirectory)
  {
    assert IsAbs(selectedDirectory);
    InsideIff(cwd, filePath, selectedDirectory);
  }
}
