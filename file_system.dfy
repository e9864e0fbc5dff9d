/** The part of the filesystem the server's file endpoints consult: whether
    a path names something, whether that is a regular file, and what opening
    it as UTF-8 text (undecodable bytes dropped) gives. Paths are resolved
    lexically against the working directory, so `a/../b` and `b` name the
    same entry; symbolic links are not part of this model. */
module FileSystem {
  import opened Strings
  import opened PosixPath

  /** What `open(path, 'r', encoding='utf-8', errors='ignore').read()` gives:
      the decoded text, a `PermissionError`, or another exception with the
      text `str(e)`. */
  datatype ReadOutcome =
    | Text(text: string)
    | Denied(message: string)
    | Failed(message: string)

  datatype FsEntry = FsEntry(isRegular: bool, read: ReadOutcome)

  /** Entries keyed by the components of their absolute, normalised path. */
  type Fs = map<seq<string>, FsEntry>

  /** The entry a path names, resolved against `cwd`; the empty path names
      nothing. */
  function Resolve(fs: Fs, cwd: string, p: string): (r: Option<FsEntry>)
    ensures r.Some? ==> p != "" && AbsSegments(cwd, p) in fs && r.value == fs[AbsSegments(cwd, p)]
    ensures r.None? ==> p == "" || AbsSegments(cwd, p) !in fs
  {
    if p != "" && AbsSegments(cwd, p) in fs then Some(fs[AbsSegments(cwd, p)]) else None
  }

  /** The `abspath` of a path names the same entry as the path itself, so
      testing the normalised path tests the requested one. */
  lemma ResolveAbsPath(fs: Fs, cwd: string, p: string)
    requires IsAbs(cwd) && p != ""
    ensures Resolve(fs, cwd, AbsPath(cwd, p)) == Resolve(fs, cwd, p)
  {
    AbsPathShape(cwd, p);
    AbsSegmentsOfAbsPath(cwd, p);
  }

  /** `os.path.exists(p)`. */
  predicate Exists(fs: Fs, cwd: string, p: string)
  {
    Resolve(fs, cwd, p).Some?
  }

  /** `os.path.isfile(p)`. */
  predicate IsFile(fs: Fs, cwd: string, p: string)
  {
    Resolve(fs, cwd, p).Some? && Resolve(fs, cwd, p).value.isRegular
  }
}
