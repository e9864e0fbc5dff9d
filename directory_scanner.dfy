/** The directory scan of the server (`browse_directory` in app.py): a
    top-down walk of the selected directory that prunes excluded
    subdirectories before descending into them, skips excluded files, and
    reports every remaining file with its path, its path relative to the
    selected directory and its size.

    The filesystem is a tree of `Node`s. Listing order is the order of a
    directory's `children`. A directory that cannot be listed yields nothing,
    as `os.walk` does when it is given no error handler; a file whose size
    cannot be read has size `None` and is skipped. */
module DirectoryScanner {
  import opened Strings
  import opened PosixPath
  import opened Exclusions
  import opened Fnmatch

  datatype Node =
    | File(name: string, size: Option<nat>)
    | Dir(name: string, listable: bool, children: seq<Node>)

  /** One entry of the `files` list of the response. */
  datatype FileDescriptor = FileDescriptor(name: string, path: string, relativePath: string, size: nat)

  datatype BrowseResponse =
    | Files(files: seq<FileDescriptor>)
    | BrowseError(status: nat, message: string)

  /** A name a directory listing can contain. */
  predicate NameOk(name: string)
  {
    Clean(name) && name != ".."
  }

  predicate NamesOk(ds: seq<string>)
  {
    forall i :: 0 <= i < |ds| ==> NameOk(ds[i])
  }

  /** Listings hold proper names, and siblings have distinct names. */
  predicate WellFormed(n: Node)
    decreases n
  {
    match n
    case File(_, _) => true
    case Dir(_, _, ch) =>
      && (forall i :: 0 <= i < |ch| ==> NameOk(ch[i].name))
      && (forall i, j :: 0 <= i < j < |ch| ==> ch[i].name != ch[j].name)
      && (forall i :: 0 <= i < |ch| ==> WellFormed(ch[i]))
  }

  /** `os.path.relpath(root, directory)` for the directory reached through the
      subdirectories `ds`: `.` for the selected directory itself. */
  function RelRoot(ds: seq<string>): string
  {
    if ds == [] then "." else Join(ds, '/')
  }

  /** The exclusion test the walk applies, `excluded(name, relRoot)`. The
      walk is stated for any test; the server's is `RuleTest`. */
  type ExclusionTest = (string, string) -> bool

  /** `is_excluded` with the loaded rules, as the scan calls it. */
  function RuleTest(rules: Rules): ExclusionTest
  {
    (name: string, relRoot: string) => IsExcluded(name, relRoot, rules)
  }

  /** The pruning test of app.py:61: a subdirectory `d` is tested as a file
      named `d` whose relative root is `rel_root/d`. */
  predicate Survives(excluded: ExclusionTest, relRoot: string, d: string)
  {
    !excluded(d, PathJoin(relRoot, d))
  }

  /** The subdirectories left in `dirs` after pruning, in listing order. */
  function Survivors(excluded: ExclusionTest, relRoot: string, ch: seq<Node>): (r: seq<Node>)
    ensures forall c :: c in r ==> c in ch && c.Dir? && Survives(excluded, relRoot, c.name)
    decreases |ch|
  {
    if ch == [] then []
    else
      var c := ch[|ch| - 1];
      Survivors(excluded, relRoot, ch[..|ch| - 1]) + (if c.Dir? && Survives(excluded, relRoot, c.name) then [c] else [])
  }

  /** The descriptor for file `name` of the directory at `root`. */
  function Descriptor(root: string, ds: seq<string>, name: string, size: nat): FileDescriptor
  {
    FileDescriptor(name, PathJoin(root, name), Join(ds + [name], '/'), size)
  }

  /** What the file loop of app.py:62-76 appends for one entry. */
  function Emit(excluded: ExclusionTest, root: string, ds: seq<string>, c: Node): seq<FileDescriptor>
  {
    if c.File? && !excluded(c.name, RelRoot(ds)) && c.size.Some?
    then [Descriptor(root, ds, c.name, c.size.value)]
    else []
  }

  /** The files of one directory listing that the scan reports, in order. */
  function DirFiles(excluded: ExclusionTest, root: string, ds: seq<string>, ch: seq<Node>): seq<FileDescriptor>
    decreases |ch|
  {
    if ch == [] then []
    else DirFiles(excluded, root, ds, ch[..|ch| - 1]) + Emit(excluded, root, ds, ch[|ch| - 1])
  }

  /** The scan of the tree `n` found at `root`, reached from the selected
      directory through `ds`: its own files first, then each surviving
      subdirectory in listing order. */
  function Walk(excluded: ExclusionTest, root: string, ds: seq<string>, n: Node): seq<FileDescriptor>
    decreases n, 1
  {
    match n
    case File(_, _) => []
    case Dir(_, listable, ch) =>
      if !listable then []
      else DirFiles(excluded, root, ds, ch) + WalkSeq(excluded, root, ds, n, Survivors(excluded, RelRoot(ds), ch))
  }

  /** The scans of the subdirectories `ns` of `parent`, one after another. */
  function WalkSeq(excluded: ExclusionTest, root: string, ds: seq<string>, parent: Node, ns: seq<Node>): seq<FileDescriptor>
    requires parent.Dir? && forall c :: c in ns ==> c in parent.children
    decreases parent, 0, |ns|
  {
    if ns == [] then []
    else
      var c := ns[|ns| - 1];
      assert c in parent.children;
      WalkSeq(excluded, root, ds, parent, ns[..|ns| - 1]) + ChildWalk(excluded, root, ds, c)
  }

  /** The scan of the subdirectory `c` of the directory at `root`. */
  function ChildWalk(excluded: ExclusionTest, root: string, ds: seq<string>, c: Node): seq<FileDescriptor>
    decreases c, 2
  {
    Walk(excluded, PathJoin(root, c.name), ds + [c.name], c)
  }

  // ---------------------------------------------------------------------
  // The scan

  /** `browse_directory`: an empty or missing directory is a 400 error;
      otherwise the walk of the directory `target` the path names. The
      working directory is absolute, as `os.getcwd` returns it. */
  method BrowseDirectory(rules: Rules, cwd: string, directory: string, target: Option<Node>)
    returns (r: BrowseResponse)
    requires IsAbs(cwd)
    requires target.Some? ==> WellFormed(target.value)
    ensures directory == "" || target.None? ==> r == BrowseError(400, "Directory does not exist")
    ensures directory != "" && target.Some? ==> r == Files(Walk(RuleTest(rules), directory, [], target.value))
  {
    if directory == "" || target.None? {
      return BrowseError(400, "Directory does not exist");
    }
    var files := VisitDir(RuleTest(rules), cwd, directory, directory, [], target.value);
    return Files(files);
  }

  /** One directory yielded by `os.walk` and everything below it: prune the
      subdirectories, report the files, then descend into the survivors. */
  method VisitDir(excluded: ExclusionTest, cwd: string, directory: string, root: string, ds: seq<string>, n: Node)
    returns (out: seq<FileDescriptor>)
    requires IsAbs(cwd) && directory != "" && root != ""
    requires NamesOk(ds)
    requires AbsSegments(cwd, root) == AbsSegments(cwd, directory) + ds
    requires WellFormed(n)
    ensures out == Walk(excluded, root, ds, n)
    decreases n, 1
  {
    out := [];
    if !n.Dir? || !n.listable {
      return;
    }
    var ch := n.children;
    var relRoot := RelPath(cwd, root, directory);
    RelRootIsRelPath(cwd, directory, root, ds);

    var dirs := PruneDirs(excluded, relRoot, ch);
    out := ListFiles(excluded, cwd, directory, root, ds, relRoot, ch);

    // os.walk then descends into what is left of dirs
    var below := VisitAll(excluded, cwd, directory, root, ds, n, dirs);
    out := out + below;
    WalkOfListable(excluded, root, ds, n);
  }

  /** The descent of `os.walk` into the surviving subdirectories `dirs` of
      `n`, one after another in listing order. */
  method VisitAll(excluded: ExclusionTest, cwd: string, directory: string, root: string, ds: seq<string>, n: Node,
                  dirs: seq<Node>)
    returns (out: seq<FileDescriptor>)
    requires IsAbs(cwd) && directory != "" && root != ""
    requires NamesOk(ds)
    requires AbsSegments(cwd, root) == AbsSegments(cwd, directory) + ds
    requires n.Dir? && WellFormed(n) && forall c :: c in dirs ==> c in n.children
    ensures out == WalkSeq(excluded, root, ds, n, dirs)
    decreases n, 0
  {
    out := [];
    var i := 0;
    while i < |dirs|
      invariant 0 <= i <= |dirs|
      invariant out == WalkSeq(excluded, root, ds, n, dirs[..i])
    {
      assert dirs[..i + 1][..i] == dirs[..i];
      var d := dirs[i];
      ChildOk(n, d);
      ChildRoot(cwd, directory, root, ds, d.name);
      NamesOkAppend(ds, d.name);
      var sub := VisitDir(excluded, cwd, directory, PathJoin(root, d.name), ds + [d.name], d);
      out := out + sub;
      i := i + 1;
    }
    assert dirs[..|dirs|] == dirs;
  }

  /** `dirs[:] = [d for d in dirs if not is_excluded(...)]` (app.py:61). */
  method PruneDirs(excluded: ExclusionTest, relRoot: string, ch: seq<Node>) returns (dirs: seq<Node>)
    ensures dirs == Survivors(excluded, relRoot, ch)
  {
    dirs := [];
    var i := 0;
    while i < |ch|
      invariant 0 <= i <= |ch|
      invariant dirs == Survivors(excluded, relRoot, ch[..i])
    {
      assert ch[..i + 1][..i] == ch[..i];
      if ch[i].Dir? && !excluded(ch[i].name, PathJoin(relRoot, ch[i].name)) {
        dirs := dirs + [ch[i]];
      }
      i := i + 1;
    }
    assert ch[..|ch|] == ch;
  }

  /** The file loop of app.py:62-76 over one listing whose relative root is
      `relRoot`. */
  method ListFiles(excluded: ExclusionTest, cwd: string, directory: string, root: string, ds: seq<string>,
                   relRoot: string, ch: seq<Node>)
    returns (out: seq<FileDescriptor>)
    requires IsAbs(cwd) && root != "" && relRoot == RelRoot(ds)
    requires forall i :: 0 <= i < |ch| ==> NameOk(ch[i].name)
    requires AbsSegments(cwd, root) == AbsSegments(cwd, directory) + ds
    ensures out == DirFiles(excluded, root, ds, ch)
  {
    out := [];
    var i := 0;
    while i < |ch|
      invariant 0 <= i <= |ch|
      invariant out == DirFiles(excluded, root, ds, ch[..i])
    {
      assert ch[..i + 1][..i] == ch[..i];
      var c := ch[i];
      if c.File? && !excluded(c.name, relRoot) {
        match c.size {
          case Some(size) =>
            var fd := Describe(cwd, directory, root, ds, c.name, size);
            out := out + [fd];
          case None =>
        }
      }
      i := i + 1;
    }
    assert ch[..|ch|] == ch;
  }

  /** The descriptor of app.py:64-74 for the file `name` of the directory at
      `root`: its path, and its path relative to the selected directory. */
  method Describe(cwd: string, directory: string, root: string, ds: seq<string>, name: string, size: nat)
    returns (fd: FileDescriptor)
    requires IsAbs(cwd) && root != "" && NameOk(name)
    requires AbsSegments(cwd, root) == AbsSegments(cwd, directory) + ds
    ensures fd == Descriptor(root, ds, name, size)
  {
    var filePath := PathJoin(root, name);
    RelativePathOfFile(cwd, directory, root, ds, name);
    var relativePath := RelPath(cwd, filePath, directory);
    fd := FileDescriptor(name, filePath, relativePath, size);
  }

  lemma ChildOk(n: Node, c: Node)
    requires n.Dir? && WellFormed(n) && c in n.children
    ensures WellFormed(c) && NameOk(c.name)
  {
    var i :| 0 <= i < |n.children| && n.children[i] == c;
  }

  lemma NamesOkAppend(ds: seq<string>, name: string)
    requires NamesOk(ds) && NameOk(name)
    ensures NamesOk(ds + [name])
  {
  }

  lemma WalkOfListable(excluded: ExclusionTest, root: string, ds: seq<string>, n: Node)
    requires n.Dir? && n.listable
    ensures Walk(excluded, root, ds, n)
         == DirFiles(excluded, root, ds, n.children) + WalkSeq(excluded, root, ds, n, Survivors(excluded, RelRoot(ds), n.children))
  {
  }

  lemma RelRootIsRelPath(cwd: string, directory: string, root: string, ds: seq<string>)
    requires IsAbs(cwd) && root != ""
    requires AbsSegments(cwd, root) == AbsSegments(cwd, directory) + ds
    ensures RelPath(cwd, root, directory) == RelRoot(ds)
  {
    var s := AbsSegments(cwd, directory);
    assert (s + ds)[..|s|] == s;
    assert (s + ds)[|s|..] == ds;
    RelPathBelow(cwd, root, directory);
  }

  lemma ChildSegments(cwd: string, root: string, name: string)
    requires IsAbs(cwd) && root != "" && NameOk(name)
    ensures PathJoin(root, name) != ""
    ensures AbsSegments(cwd, PathJoin(root, name)) == AbsSegments(cwd, root) + [name]
  {
    AbsSegmentsJoinName(cwd, root, name);
  }

  lemma ChildRoot(cwd: string, directory: string, root: string, ds: seq<string>, name: string)
    requires IsAbs(cwd) && root != "" && NameOk(name)
    requires AbsSegments(cwd, root) == AbsSegments(cwd, directory) + ds
    ensures PathJoin(root, name) != ""
    ensures AbsSegments(cwd, PathJoin(root, name)) == AbsSegments(cwd, directory) + (ds + [name])
  {
    ChildSegments(cwd, root, name);
  }

  lemma RelativePathOfFile(cwd: string, directory: string, root: string, ds: seq<string>, name: string)
    requires IsAbs(cwd) && root != "" && NameOk(name)
    requires AbsSegments(cwd, root) == AbsSegments(cwd, directory) + ds
    ensures PathJoin(root, name) != ""
    ensures RelPath(cwd, PathJoin(root, name), directory) == Join(ds + [name], '/')
  {
    ChildSegments(cwd, root, name);
    var s := AbsSegments(cwd, directory);
    var q := s + ds + [name];
    assert q[..|s|] == s;
    assert q[|s|..] == ds + [name];
    RelPathBelow(cwd, PathJoin(root, name), directory);
  }

  // ---------------------------------------------------------------------
  // What the scan reports

  /** The first child called `name`. */
  function Child(ch: seq<Node>, name: string): (r: Option<Node>)
    ensures r.Some? ==> r.value in ch && r.value.name == name
    ensures r.None? ==> forall i :: 0 <= i < |ch| ==> ch[i].name != name
  {
    if ch == [] then None
    else if ch[0].name == name then Some(ch[0])
    else Child(ch[1..], name)
  }

  /** The node reached from `n` through the names `segs`, every directory on
      the way being listable. */
  function Lookup(n: Node, segs: seq<string>): Option<Node>
    decreases |segs|
  {
    if segs == [] then Some(n)
    else if n.Dir? && n.listable then
      match Child(n.children, segs[0])
      case None => None
      case Some(c) => Lookup(c, segs[1..])
    else None
  }

  /** The path `os.walk` builds for the entry reached through `segs`. */
  function PathOf(root: string, segs: seq<string>): string
    decreases |segs|
  {
    if segs == [] then root else PathOf(PathJoin(root, segs[0]), segs[1..])
  }

  /** The reference description of one reported file of the tree `n` at
      `root`, itself reached through `ds`: the file lies at the relative path
      below `n`, every directory on the way survived pruning, the file itself
      passed the exclusion test, and its size could be read. */
  predicate Reported(excluded: ExclusionTest, root: string, ds: seq<string>, n: Node, fd: FileDescriptor)
  {
    var segs := Split(fd.relativePath, '/');
    && |segs| > |ds| && segs[..|ds|] == ds
    && Lookup(n, segs[|ds|..]) == Some(File(fd.name, Some(fd.size)))
    && PathSurvives(excluded, segs, |ds|)
    && !excluded(fd.name, RelRoot(segs[..|segs| - 1]))
    && fd.path == PathOf(root, segs[|ds|..])
  }

  /** Every directory on the way from component `from` of `segs` to the
      file survived pruning. */
  predicate PathSurvives(excluded: ExclusionTest, segs: seq<string>, from: nat)
  {
    forall k :: from <= k < |segs| - 1 ==> Survives(excluded, RelRoot(segs[..k]), segs[k])
  }

  lemma {:induction false} DirFilesMember(excluded: ExclusionTest, root: string, ds: seq<string>, ch: seq<Node>, fd: FileDescriptor)
    ensures fd in DirFiles(excluded, root, ds, ch) <==>
      exists i :: 0 <= i < |ch| && ch[i].File? && ch[i].size.Some? && !excluded(ch[i].name, RelRoot(ds))
                  && fd == Descriptor(root, ds, ch[i].name, ch[i].size.value)
    decreases |ch|
  {
    if ch != [] {
      var m := |ch| - 1;
      DirFilesMember(excluded, root, ds, ch[..m], fd);
      forall i | 0 <= i < m ensures ch[..m][i] == ch[i] { }
    }
  }

  /** A file in the scans of the subdirectories `ns` comes from the scan of
      one of them. */
  lemma {:induction false} WalkSeqSource(excluded: ExclusionTest, root: string, ds: seq<string>, parent: Node, ns: seq<Node>, fd: FileDescriptor)
    returns (i: nat)
    requires parent.Dir? && forall c :: c in ns ==> c in parent.children
    requires fd in WalkSeq(excluded, root, ds, parent, ns)
    ensures i < |ns| && fd in ChildWalk(excluded, root, ds, ns[i])
    decreases |ns|
  {
    var m := |ns| - 1;
    var pre := ns[..m];
    assert forall x :: x in pre ==> x in ns;
    if fd in WalkSeq(excluded, root, ds, parent, pre) {
      i := WalkSeqSource(excluded, root, ds, parent, pre, fd);
      assert pre[i] == ns[i];
    } else {
      i := m;
    }
  }

  /** The scan of each subdirectory in `ns` is part of their joint scan. */
  lemma {:induction false} WalkSeqIncludes(excluded: ExclusionTest, root: string, ds: seq<string>, parent: Node, ns: seq<Node>, i: nat, fd: FileDescriptor)
    requires parent.Dir? && forall c :: c in ns ==> c in parent.children
    requires i < |ns| && fd in ChildWalk(excluded, root, ds, ns[i])
    ensures fd in WalkSeq(excluded, root, ds, parent, ns)
    decreases |ns|
  {
    var m := |ns| - 1;
    var pre := ns[..m];
    assert forall x :: x in pre ==> x in ns;
    var front := WalkSeq(excluded, root, ds, parent, pre);
    var back := ChildWalk(excluded, root, ds, ns[m]);
    assert WalkSeq(excluded, root, ds, parent, ns) == front + back;
    if i < m {
      assert pre[i] == ns[i];
      WalkSeqIncludes(excluded, root, ds, parent, pre, i, fd);
      assert fd in front;
    } else {
      assert fd in back;
    }
  }

  lemma {:induction false} SurvivorsMember(excluded: ExclusionTest, relRoot: string, ch: seq<Node>, c: Node)
    ensures c in Survivors(excluded, relRoot, ch) <==> c in ch && c.Dir? && Survives(excluded, relRoot, c.name)
    decreases |ch|
  {
    if ch != [] {
      var m := |ch| - 1;
      SurvivorsMember(excluded, relRoot, ch[..m], c);
      assert ch == ch[..m] + [ch[m]];
    }
  }

  /** In a well-formed listing, looking a child up by its own name finds it. */
  lemma ChildOfWellFormed(n: Node, i: nat)
    requires n.Dir? && WellFormed(n) && i < |n.children|
    ensures Child(n.children, n.children[i].name) == Some(n.children[i])
  {
    ChildAt(n.children, i);
  }

  lemma {:induction false} ChildAt(ch: seq<Node>, i: nat)
    requires i < |ch|
    requires forall a, b :: 0 <= a < b < |ch| ==> ch[a].name != ch[b].name
    ensures Child(ch, ch[i].name) == Some(ch[i])
  {
    if i > 0 {
      assert ch[0].name != ch[i].name;
      ChildAt(ch[1..], i - 1);
    }
  }

  /** The relative path of a file reached through `ds` splits back into its
      components. */
  lemma SegmentsOfDescriptor(ds: seq<string>, name: string)
    requires NamesOk(ds) && NameOk(name)
    ensures Split(Join(ds + [name], '/'), '/') == ds + [name]
  {
    var q := ds + [name];
    assert forall i :: 0 <= i < |q| ==> '/' !in q[i] by {
      forall i | 0 <= i < |q| ensures '/' !in q[i] {
        if i < |ds| { assert q[i] == ds[i]; } else { assert q[i] == name; }
      }
    }
    SplitJoin(q, '/');
  }

  /** Soundness: every file the scan of `n` reports is described by
      `Reported`. */
  lemma {:induction false} WalkSound(excluded: ExclusionTest, root: string, ds: seq<string>, n: Node, fd: FileDescriptor)
    requires WellFormed(n) && NamesOk(ds)
    requires fd in Walk(excluded, root, ds, n)
    ensures Reported(excluded, root, ds, n, fd)
    decreases n
  {
    var ch := n.children;
    var surv := Survivors(excluded, RelRoot(ds), ch);
    WalkOfListable(excluded, root, ds, n);
    if fd in DirFiles(excluded, root, ds, ch) {
      DirFilesMember(excluded, root, ds, ch, fd);
      var i :| 0 <= i < |ch| && ch[i].File? && ch[i].size.Some? && !excluded(ch[i].name, RelRoot(ds))
               && fd == Descriptor(root, ds, ch[i].name, ch[i].size.value);
      DirFileReported(excluded, root, ds, n, i, fd);
    } else {
      assert fd in WalkSeq(excluded, root, ds, n, surv);
      var i := WalkSeqSource(excluded, root, ds, n, surv, fd);
      var c := surv[i];
      assert c in ch && c.Dir? && Survives(excluded, RelRoot(ds), c.name);
      var j :| 0 <= j < |ch| && ch[j] == c;
      ChildOk(n, c);
      NamesOkAppend(ds, c.name);
      WalkSound(excluded, PathJoin(root, c.name), ds + [c.name], c, fd);
      ChildOfWellFormed(n, j);
      ReportedFromChild(excluded, root, ds, n, c, fd);
    }
  }

  lemma DirFileReported(excluded: ExclusionTest, root: string, ds: seq<string>, n: Node, i: nat, fd: FileDescriptor)
    requires n.Dir? && n.listable && WellFormed(n) && NamesOk(ds) && i < |n.children|
    requires n.children[i].File? && n.children[i].size.Some?
    requires !excluded(n.children[i].name, RelRoot(ds))
    requires fd == Descriptor(root, ds, n.children[i].name, n.children[i].size.value)
    ensures Reported(excluded, root, ds, n, fd)
  {
    var c := n.children[i];
    SegmentsOfDescriptor(ds, c.name);
    var segs := ds + [c.name];
    assert segs[..|ds|] == ds && segs[|ds|..] == [c.name];
    ChildOfWellFormed(n, i);
    assert Lookup(c, []) == Some(c);
    assert Lookup(n, [c.name]) == Some(c);
    assert PathOf(root, [c.name]) == PathJoin(root, c.name);
  }

  lemma ReportedFromChild(excluded: ExclusionTest, root: string, ds: seq<string>, n: Node, c: Node, fd: FileDescriptor)
    requires n.Dir? && n.listable && c.Dir?
    requires Child(n.children, c.name) == Some(c)
    requires Survives(excluded, RelRoot(ds), c.name)
    requires Reported(excluded, PathJoin(root, c.name), ds + [c.name], c, fd)
    ensures Reported(excluded, root, ds, n, fd)
  {
    var segs := Split(fd.relativePath, '/');
    var ds' := ds + [c.name];
    assert segs[..|ds'|] == ds';
    assert segs[..|ds|] == ds by { assert segs[..|ds|] == ds'[..|ds|]; }
    assert segs[|ds|] == c.name by { assert segs[|ds|] == ds'[|ds|]; }
    var rest := segs[|ds'|..];
    SliceAt(segs, |ds|);
    LookupStep(n, c, rest);
    PathOfStep(root, c.name, rest);
    PathSurvivesStep(excluded, segs, |ds|);
  }

  lemma SliceAt<T>(s: seq<T>, i: nat)
    requires i < |s|
    ensures s[i..] == [s[i]] + s[i + 1..]
  {
  }

  lemma LookupStep(n: Node, c: Node, rest: seq<string>)
    requires n.Dir? && n.listable && Child(n.children, c.name) == Some(c)
    ensures Lookup(n, [c.name] + rest) == Lookup(c, rest)
  {
    assert ([c.name] + rest)[1..] == rest;
  }

  lemma PathOfStep(root: string, name: string, rest: seq<string>)
    ensures PathOf(root, [name] + rest) == PathOf(PathJoin(root, name), rest)
  {
    assert ([name] + rest)[1..] == rest;
  }

  lemma PathSurvivesStep(excluded: ExclusionTest, segs: seq<string>, from: nat)
    requires from < |segs|
    requires Survives(excluded, RelRoot(segs[..from]), segs[from])
    requires PathSurvives(excluded, segs, from + 1)
    ensures PathSurvives(excluded, segs, from)
  {
  }

  /** Completeness: every file described by `Reported` is in the scan of
      `n`. */
  lemma {:induction false} WalkComplete(excluded: ExclusionTest, root: string, ds: seq<string>, n: Node, fd: FileDescriptor)
    requires WellFormed(n) && NamesOk(ds)
    requires Reported(excluded, root, ds, n, fd)
    ensures fd in Walk(excluded, root, ds, n)
    decreases n
  {
    var segs := Split(fd.relativePath, '/');
    var rest := segs[|ds|..];
    assert rest != [];
    assert n.Dir? && n.listable;
    var ch := n.children;
    var c := Child(ch, rest[0]).value;
    assert Lookup(n, rest) == Lookup(c, rest[1..]);
    var j :| 0 <= j < |ch| && ch[j] == c;
    ChildOk(n, c);
    WalkOfListable(excluded, root, ds, n);
    if |rest| == 1 {
      DirFileComplete(excluded, root, ds, n, j, fd);
      DirFilesMember(excluded, root, ds, ch, fd);
    } else {
      assert c.Dir?;
      ChildReported(excluded, root, ds, n, c, fd);
      NamesOkAppend(ds, c.name);
      WalkComplete(excluded, PathJoin(root, c.name), ds + [c.name], c, fd);
      var surv := Survivors(excluded, RelRoot(ds), ch);
      SurvivorsMember(excluded, RelRoot(ds), ch, c);
      var i :| 0 <= i < |surv| && surv[i] == c;
      WalkSeqIncludes(excluded, root, ds, n, surv, i, fd);
    }
  }

  lemma DirFileComplete(excluded: ExclusionTest, root: string, ds: seq<string>, n: Node, j: nat, fd: FileDescriptor)
    requires n.Dir? && n.listable && WellFormed(n) && NamesOk(ds) && j < |n.children|
    requires Reported(excluded, root, ds, n, fd)
    requires var segs := Split(fd.relativePath, '/');
      |segs| == |ds| + 1 && Child(n.children, segs[|ds|]) == Some(n.children[j])
    ensures n.children[j].File? && n.children[j].size.Some?
    ensures !excluded(n.children[j].name, RelRoot(ds))
    ensures fd == Descriptor(root, ds, n.children[j].name, n.children[j].size.value)
  {
    var segs := Split(fd.relativePath, '/');
    var c := n.children[j];
    var rest := segs[|ds|..];
    assert rest == [segs[|ds|]];
    assert Lookup(n, rest) == Lookup(c, []);
    assert segs == ds + [c.name];
    assert segs[..|segs| - 1] == ds;
    JoinSplit(fd.relativePath, '/');
    assert PathOf(root, rest) == PathJoin(root, c.name);
  }

  lemma ChildReported(excluded: ExclusionTest, root: string, ds: seq<string>, n: Node, c: Node, fd: FileDescriptor)
    requires n.Dir? && n.listable && c.Dir?
    requires Reported(excluded, root, ds, n, fd)
    requires var segs := Split(fd.relativePath, '/');
      |segs| > |ds| + 1 && Child(n.children, segs[|ds|]) == Some(c)
    ensures Survives(excluded, RelRoot(ds), c.name)
    ensures Reported(excluded, PathJoin(root, c.name), ds + [c.name], c, fd)
  {
    var segs := Split(fd.relativePath, '/');
    var ds' := ds + [c.name];
    assert segs[|ds|] == c.name;
    assert segs[..|ds'|] == ds' by {
      assert segs[..|ds'|] == segs[..|ds|] + [segs[|ds|]];
    }
    SliceAt(segs, |ds|);
    LookupStep(n, c, segs[|ds'|..]);
    PathOfStep(root, c.name, segs[|ds'|..]);
    PathSurvivesFrom(excluded, segs, |ds|);
  }

  /** The first step of a surviving path survived, and so does the rest. */
  lemma PathSurvivesFrom(excluded: ExclusionTest, segs: seq<string>, from: nat)
    requires from < |segs| - 1 && PathSurvives(excluded, segs, from)
    ensures Survives(excluded, RelRoot(segs[..from]), segs[from])
    ensures PathSurvives(excluded, segs, from + 1)
  {
  }

  /** A file appears in the scan of the selected directory exactly when it
      is described by `Reported`: soundness and completeness together. */
  lemma ScanMembership(excluded: ExclusionTest, directory: string, n: Node, fd: FileDescriptor)
    requires WellFormed(n)
    ensures fd in Walk(excluded, directory, [], n) <==> Reported(excluded, directory, [], n, fd)
  {
    if fd in Walk(excluded, directory, [], n) {
      WalkSound(excluded, directory, [], n, fd);
    }
    if Reported(excluded, directory, [], n, fd) {
      WalkComplete(excluded, directory, [], n, fd);
    }
  }

  // ---------------------------------------------------------------------
  // No file is reported twice

  predicate DistinctPaths(w: seq<FileDescriptor>)
  {
    forall i, j :: 0 <= i < j < |w| ==> w[i].relativePath != w[j].relativePath
  }

  predicate DistinctNames(ns: seq<Node>)
  {
    forall i, j :: 0 <= i < j < |ns| ==> ns[i].name != ns[j].name
  }

  lemma DistinctConcat(a: seq<FileDescriptor>, b: seq<FileDescriptor>)
    requires DistinctPaths(a) && DistinctPaths(b)
    requires forall x, y :: x in a && y in b ==> x.relativePath != y.relativePath
    ensures DistinctPaths(a + b)
  {
    var w := a + b;
    forall i, j | 0 <= i < j < |w| ensures w[i].relativePath != w[j].relativePath {
      if j < |a| {
        assert w[i] == a[i] && w[j] == a[j];
      } else if i >= |a| {
        assert w[i] == b[i - |a|] && w[j] == b[j - |a|];
      } else {
        assert w[i] in a && w[j] in b;
      }
    }
  }

  /** The components of the relative path of a file listed directly in a
      directory reached through `ds`. */
  lemma DirFileSegments(excluded: ExclusionTest, root: string, ds: seq<string>, ch: seq<Node>, fd: FileDescriptor)
    returns (i: nat)
    requires NamesOk(ds) && forall k :: 0 <= k < |ch| ==> NameOk(ch[k].name)
    requires fd in DirFiles(excluded, root, ds, ch)
    ensures i < |ch| && Split(fd.relativePath, '/') == ds + [ch[i].name]
  {
    DirFilesMember(excluded, root, ds, ch, fd);
    i :| 0 <= i < |ch| && ch[i].File? && ch[i].size.Some? && !excluded(ch[i].name, RelRoot(ds))
         && fd == Descriptor(root, ds, ch[i].name, ch[i].size.value);
    SegmentsOfDescriptor(ds, ch[i].name);
  }

  lemma {:induction false} DirFilesDistinct(excluded: ExclusionTest, root: string, ds: seq<string>, ch: seq<Node>)
    requires NamesOk(ds) && DistinctNames(ch) && forall k :: 0 <= k < |ch| ==> NameOk(ch[k].name)
    ensures DistinctPaths(DirFiles(excluded, root, ds, ch))
    decreases |ch|
  {
    if ch != [] {
      var m := |ch| - 1;
      var pre := ch[..m];
      DirFilesDistinct(excluded, root, ds, pre);
      var e := Emit(excluded, root, ds, ch[m]);
      forall x, y | x in DirFiles(excluded, root, ds, pre) && y in e
        ensures x.relativePath != y.relativePath
      {
        var i := DirFileSegments(excluded, root, ds, pre, x);
        SegmentsOfDescriptor(ds, ch[m].name);
        assert pre[i] == ch[i];
        assert (ds + [ch[i].name])[|ds|] != (ds + [ch[m].name])[|ds|];
      }
      DistinctConcat(DirFiles(excluded, root, ds, pre), e);
    }
  }

  /** Every file found below the subdirectory `c` has `c`'s name as its
      component after `ds`, and lies at least one level below `c`. */
  lemma ChildWalkSegments(excluded: ExclusionTest, root: string, ds: seq<string>, c: Node, fd: FileDescriptor)
    requires WellFormed(c) && NamesOk(ds) && NameOk(c.name)
    requires fd in ChildWalk(excluded, root, ds, c)
    ensures var segs := Split(fd.relativePath, '/'); |segs| > |ds| + 1 && segs[|ds|] == c.name
  {
    NamesOkAppend(ds, c.name);
    WalkSound(excluded, PathJoin(root, c.name), ds + [c.name], c, fd);
    var segs := Split(fd.relativePath, '/');
    assert segs[|ds|] == segs[..|ds| + 1][|ds|];
  }

  lemma {:induction false} SurvivorsDistinct(excluded: ExclusionTest, relRoot: string, ch: seq<Node>)
    requires DistinctNames(ch)
    ensures DistinctNames(Survivors(excluded, relRoot, ch))
    decreases |ch|
  {
    if ch != [] {
      var m := |ch| - 1;
      var pre := ch[..m];
      SurvivorsDistinct(excluded, relRoot, pre);
      var r := Survivors(excluded, relRoot, pre);
      var kept := ch[m].Dir? && Survives(excluded, relRoot, ch[m].name);
      assert Survivors(excluded, relRoot, ch) == r + (if kept then [ch[m]] else []);
      if kept {
        SurvivorsNamedBefore(excluded, relRoot, ch);
        DistinctNamesAppend(r, ch[m]);
      }
    }
  }

  /** The survivors of all but the last entry of a listing with distinct
      names are named differently from the last entry. */
  lemma SurvivorsNamedBefore(excluded: ExclusionTest, relRoot: string, ch: seq<Node>)
    requires ch != [] && DistinctNames(ch)
    ensures var r := Survivors(excluded, relRoot, ch[..|ch| - 1]);
      forall k :: 0 <= k < |r| ==> r[k].name != ch[|ch| - 1].name
  {
    var m := |ch| - 1;
    var pre := ch[..m];
    var r := Survivors(excluded, relRoot, pre);
    forall k | 0 <= k < |r| ensures r[k].name != ch[m].name {
      assert r[k] in r;
      var j :| 0 <= j < m && pre[j] == r[k];
      assert pre[j] == ch[j];
    }
  }

  lemma DistinctNamesAppend(ns: seq<Node>, c: Node)
    requires DistinctNames(ns) && forall k :: 0 <= k < |ns| ==> ns[k].name != c.name
    ensures DistinctNames(ns + [c])
  {
  }

  /** The scan of `n` never reports two files with the same relative path, so
      each file is reported once. */
  lemma {:induction false} WalkDistinct(excluded: ExclusionTest, root: string, ds: seq<string>, n: Node)
    requires WellFormed(n) && NamesOk(ds)
    ensures DistinctPaths(Walk(excluded, root, ds, n))
    decreases n, 1
  {
    if n.Dir? && n.listable {
      var ch := n.children;
      var surv := Survivors(excluded, RelRoot(ds), ch);
      WalkOfListable(excluded, root, ds, n);
      DirFilesDistinct(excluded, root, ds, ch);
      SurvivorsDistinct(excluded, RelRoot(ds), ch);
      WalkSeqDistinct(excluded, root, ds, n, surv);
      var a := DirFiles(excluded, root, ds, ch);
      var b := WalkSeq(excluded, root, ds, n, surv);
      forall x, y | x in a && y in b ensures x.relativePath != y.relativePath {
        var i := DirFileSegments(excluded, root, ds, ch, x);
        var j := WalkSeqSource(excluded, root, ds, n, surv, y);
        ChildOk(n, surv[j]);
        ChildWalkSegments(excluded, root, ds, surv[j], y);
      }
      DistinctConcat(a, b);
    }
  }

  lemma {:induction false} WalkSeqDistinct(excluded: ExclusionTest, root: string, ds: seq<string>, parent: Node, ns: seq<Node>)
    requires parent.Dir? && WellFormed(parent) && NamesOk(ds)
    requires (forall c :: c in ns ==> c in parent.children) && DistinctNames(ns)
    ensures DistinctPaths(WalkSeq(excluded, root, ds, parent, ns))
    decreases parent, 0, |ns|
  {
    if ns != [] {
      var m := |ns| - 1;
      var pre := ns[..m];
      var c := ns[m];
      assert forall x :: x in pre ==> x in ns;
      WalkSeqDistinct(excluded, root, ds, parent, pre);
      ChildOk(parent, c);
      NamesOkAppend(ds, c.name);
      WalkDistinct(excluded, PathJoin(root, c.name), ds + [c.name], c);
      var a := WalkSeq(excluded, root, ds, parent, pre);
      var b := ChildWalk(excluded, root, ds, c);
      forall x, y | x in a && y in b ensures x.relativePath != y.relativePath {
        var i := WalkSeqSource(excluded, root, ds, parent, pre, x);
        ChildOk(parent, pre[i]);
        ChildWalkSegments(excluded, root, ds, pre[i], x);
        ChildWalkSegments(excluded, root, ds, c, y);
        assert pre[i] == ns[i];
      }
      DistinctConcat(a, b);
    }
  }

  // ---------------------------------------------------------------------
  // The rules, read off a reported file

  lemma {:induction false} LookupName(n: Node, segs: seq<string>, x: Node)
    requires segs != [] && Lookup(n, segs) == Some(x)
    ensures x.name == segs[|segs| - 1]
    decreases |segs|
  {
    var c := Child(n.children, segs[0]).value;
    if |segs| > 1 {
      LookupName(c, segs[1..], x);
    }
  }

  /** A name without `/` is the last component of any path it is joined
      onto. */
  lemma NameInJoinedPath(relRoot: string, d: string)
    requires '/' !in d
    ensures d in Split(PathJoin(relRoot, d), '/')
  {
    SplitNoSep(d, '/');
    assert !IsAbs(d) by { if d != [] { assert d[0] in d; } }
    if relRoot == "" {
      assert PathJoin(relRoot, d) == d;
      assert Split(d, '/')[0] == d;
    } else if relRoot[|relRoot| - 1] == '/' {
      var x := relRoot[..|relRoot| - 1];
      assert PathJoin(relRoot, d) == x + "/" + d;
      SplitConcat(x, d, '/');
    } else {
      SplitConcat(relRoot, d, '/');
    }
  }

  /** A directory that survives pruning is not named by any rule: it is not
      a directory rule, not a filename rule, and no pattern matches it. */
  lemma SurvivorNamedByNoRule(rules: Rules, relRoot: string, d: string)
    requires '/' !in d && d != ""
    requires Survives(RuleTest(rules), relRoot, d)
    ensures d !in rules.excludeDirs && d !in rules.excludeFiles
    ensures forall p :: p in rules.excludePatterns ==> !Match(d, p)
  {
    NameInJoinedPath(relRoot, d);
    IsExcludedIff(d, PathJoin(relRoot, d), rules);
  }

  /** Every reported file passed the file rules, and none of the directories
      it lies in is named by a directory rule, a filename rule or a pattern:
      nothing below a pruned directory is reported. */
  lemma ScanRespectsRules(rules: Rules, directory: string, n: Node, fd: FileDescriptor)
    requires WellFormed(n) && fd in Walk(RuleTest(rules), directory, [], n)
    ensures var segs := Split(fd.relativePath, '/');
      && segs[|segs| - 1] == fd.name
      && fd.name !in rules.excludeFiles
      && (forall p :: p in rules.excludePatterns ==> !Match(fd.name, p))
      && forall k :: 0 <= k < |segs| - 1 ==>
           && segs[k] !in rules.excludeDirs && segs[k] !in rules.excludeFiles
           && forall p :: p in rules.excludePatterns ==> !Match(segs[k], p)
  {
    WalkSound(RuleTest(rules), directory, [], n, fd);
    var segs := Split(fd.relativePath, '/');
    assert segs[0..] == segs;
    LookupName(n, segs, File(fd.name, Some(fd.size)));
    var fileRoot := RelRoot(segs[..|segs| - 1]);
    IsExcludedIff(fd.name, fileRoot, rules);
    forall k | 0 <= k < |segs| - 1
      ensures segs[k] !in rules.excludeDirs && segs[k] !in rules.excludeFiles
      ensures forall p :: p in rules.excludePatterns ==> !Match(segs[k], p)
    {
      assert segs[k] != "" by {
        LookupPrefixName(n, segs, k);
      }
      SurvivorNamedByNoRule(rules, RelRoot(segs[..k]), segs[k]);
    }
    forall p | p in rules.excludePatterns ensures !Match(fd.name, p) {
      var i :| 0 <= i < |rules.excludePatterns| && rules.excludePatterns[i] == p;
    }
  }

  /** The components a successful lookup goes through are names of entries
      of a well-formed tree, hence not empty. */
  lemma {:induction false} LookupPrefixName(n: Node, segs: seq<string>, k: nat)
    requires WellFormed(n) && k < |segs| && Lookup(n, segs).Some?
    ensures segs[k] != ""
    decreases |segs|
  {
    var c := Child(n.children, segs[0]).value;
    ChildOk(n, c);
    if k > 0 {
      LookupPrefixName(c, segs[1..], k - 1);
    }
  }

  // ---------------------------------------------------------------------
  // The relative root of the selected directory is "."

  /** Because the selected directory's relative root is `.`, a directory
      rule `.` excludes every file of the selected directory and prunes
      every one of its subdirectories: the scan reports nothing. */
  lemma DotRuleHidesEverything(rules: Rules, directory: string, n: Node)
    requires WellFormed(n) && "." in rules.excludeDirs
    ensures Walk(RuleTest(rules), directory, [], n) == []
  {
    if n.Dir? && n.listable {
      var ch := n.children;
      var i :| 0 <= i < |rules.excludeDirs| && rules.excludeDirs[i] == ".";
      SplitNoSep(".", '/');
      assert "." in Split(".", '/');
      DirRuleFiresIff(rules.excludeDirs, Split(".", '/'));
      var excluded := RuleTest(rules);
      forall name ensures excluded(name, ".") {
        assert IsExcluded(name, ".", rules);
      }
      NoFilesUnderDot(excluded, directory, ch);
      forall c | c in ch ensures !Survives(excluded, ".", c.name) {
        var j :| 0 <= j < |ch| && ch[j] == c;
        ChildOk(n, c);
        assert !IsAbs(c.name) by { assert c.name[0] in c.name; }
        assert PathJoin(".", c.name) == "." + "/" + c.name;
        SplitConcat(".", c.name, '/');
        assert "." in Split(PathJoin(".", c.name), '/');
        DirRuleFiresIff(rules.excludeDirs, Split(PathJoin(".", c.name), '/'));
      }
      NothingSurvives(excluded, ".", ch);
      WalkOfListable(excluded, directory, [], n);
    }
  }

  lemma {:induction false} NoFilesUnderDot(excluded: ExclusionTest, root: string, ch: seq<Node>)
    requires forall name :: excluded(name, ".")
    ensures DirFiles(excluded, root, [], ch) == []
    decreases |ch|
  {
    if ch != [] {
      NoFilesUnderDot(excluded, root, ch[..|ch| - 1]);
    }
  }

  lemma {:induction false} NothingSurvives(excluded: ExclusionTest, relRoot: string, ch: seq<Node>)
    requires forall c :: c in ch ==> !Survives(excluded, relRoot, c.name)
    ensures Survivors(excluded, relRoot, ch) == []
    decreases |ch|
  {
    if ch != [] {
      var m := |ch| - 1;
      assert forall c :: c in ch[..m] ==> c in ch;
      assert ch[m] in ch;
      NothingSurvives(excluded, relRoot, ch[..m]);
    }
  }
}
