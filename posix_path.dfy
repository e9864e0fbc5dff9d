/** The lexical path functions of Python's `posixpath` that the server uses:
    `join`, `normpath`, `abspath`, `commonpath`, `relpath` and `basename`.
    All of them work on the text of a path only; none of them looks at the
    filesystem, so symbolic links are never resolved. The working directory
    that `abspath` consults is a parameter, `cwd`. */
module PosixPath {
  import opened Strings

  predicate IsAbs(p: string)
  {
    |p| > 0 && p[0] == '/'
  }

  /** `os.path.join(a, b)`: an absolute `b` replaces `a`; otherwise a `/` is
      put between them unless `a` is empty or already ends with one. */
  function PathJoin(a: string, b: string): string
  {
    if IsAbs(b) then b
    else if a == "" || a[|a| - 1] == '/' then a + b
    else a + "/" + b
  }

  /** One turn of the component loop of `normpath`: empty and `.` components
      vanish, `..` removes the previous component (or is kept when nothing can
      be removed in a relative path), anything else is appended. */
  function NormStep(acc: seq<string>, comp: string, rooted: bool): seq<string>
  {
    if comp == "" || comp == "." then acc
    else if comp != ".." || (!rooted && acc == []) || (acc != [] && acc[|acc| - 1] == "..") then acc + [comp]
    else if acc != [] then acc[..|acc| - 1]
    else acc
  }

  /** The component loop of `normpath`, run left to right over `comps`. */
  function NormComps(comps: seq<string>, rooted: bool): seq<string>
    decreases |comps|
  {
    if comps == [] then []
    else NormStep(NormComps(comps[..|comps| - 1], rooted), comps[|comps| - 1], rooted)
  }

  /** How many slashes `normpath` keeps at the start: POSIX lets exactly two
      leading slashes mean something special, so two are kept and three or
      more become one. */
  function LeadingSlashes(p: string): nat
  {
    if StartsWith(p, "//") && !StartsWith(p, "///") then 2
    else if IsAbs(p) then 1
    else 0
  }

  function Slashes(n: nat): (r: string)
    ensures |r| == n && forall i :: 0 <= i < n ==> r[i] == '/'
  {
    if n == 0 then "" else "/" + Slashes(n - 1)
  }

  /** `os.path.normpath(p)`. */
  function NormPath(p: string): string
  {
    if p == "" then "."
    else
      var n := LeadingSlashes(p);
      var r := Slashes(n) + Join(NormComps(Split(p, '/'), n > 0), '/');
      if r == "" then "." else r
  }

  /** The path `abspath` normalises: `p` itself when absolute, else `p` joined
      to the working directory. */
  function AbsInput(cwd: string, p: string): string
  {
    if IsAbs(p) then p else PathJoin(cwd, p)
  }

  /** `os.path.abspath(p)` with `os.getcwd()` returning `cwd`. */
  function AbsPath(cwd: string, p: string): string
  {
    NormPath(AbsInput(cwd, p))
  }

  /** `[c for c in parts if c and c != '.']` */
  function Parts(parts: seq<string>): (r: seq<string>)
    ensures |r| <= |parts|
    ensures forall i :: 0 <= i < |r| ==> r[i] != "" && r[i] != "." && r[i] in parts
  {
    if parts == [] then []
    else (if parts[0] != "" && parts[0] != "." then [parts[0]] else []) + Parts(parts[1..])
  }

  /** `[x for x in parts if x]` */
  function NonEmpty(parts: seq<string>): (r: seq<string>)
    ensures |r| <= |parts|
    ensures forall i :: 0 <= i < |r| ==> r[i] != "" && r[i] in parts
  {
    if parts == [] then []
    else (if parts[0] != "" then [parts[0]] else []) + NonEmpty(parts[1..])
  }

  predicate IsPrefix(p: seq<string>, s: seq<string>)
  {
    |p| <= |s| && s[..|p|] == p
  }

  /** The longest common prefix of two component lists, as `commonpath` and
      `commonprefix` compute it. */
  function Lcp(a: seq<string>, b: seq<string>): (r: seq<string>)
    ensures IsPrefix(r, a) && IsPrefix(r, b)
    ensures |r| < |a| && |r| < |b| ==> a[|r|] != b[|r|]
  {
    if a == [] || b == [] || a[0] != b[0] then []
    else [a[0]] + Lcp(a[1..], b[1..])
  }

  /** `os.path.commonpath([a, b])`: the longest common leading run of
      components, or the ValueError raised when one path is absolute and the
      other relative. */
  function CommonPath(a: string, b: string): Result<string>
  {
    if IsAbs(a) != IsAbs(b) then Err("Can't mix absolute and relative paths")
    else
      var common := Lcp(Parts(Split(a, '/')), Parts(Split(b, '/')));
      Ok((if IsAbs(a) then "/" else "") + Join(common, '/'))
  }

  function Repeat(s: string, n: nat): (r: seq<string>)
    ensures |r| == n && forall i :: 0 <= i < n ==> r[i] == s
  {
    if n == 0 then [] else [s] + Repeat(s, n - 1)
  }

  /** `os.path.relpath(path, start)`; `relpath` raises on an empty `path`,
      which no caller here passes. */
  function RelPath(cwd: string, path: string, start: string): string
    requires path != ""
  {
    var startList := NonEmpty(Split(AbsPath(cwd, start), '/'));
    var pathList := NonEmpty(Split(AbsPath(cwd, path), '/'));
    var i := |Lcp(startList, pathList)|;
    var rel := Repeat("..", |startList| - i) + pathList[i..];
    if rel == [] then "." else Join(rel, '/')
  }

  /** `os.path.basename(p)`: what follows the last `/`. */
  function BaseName(p: string): (r: string)
    ensures '/' !in r
    ensures EndsWith(p, r)
  {
    if p == [] || p[|p| - 1] == '/' then []
    else BaseName(p[..|p| - 1]) + [p[|p| - 1]]
  }

  // ---------------------------------------------------------------------
  // Normal forms

  /** A component that `normpath` can leave in its result. */
  predicate Clean(c: string)
  {
    c != "" && c != "." && '/' !in c
  }

  /** The components `normpath` produces: clean ones; `..` only in a leading
      run, and never under the root. */
  predicate Normal(segs: seq<string>, rooted: bool)
  {
    && (forall i :: 0 <= i < |segs| ==> Clean(segs[i]))
    && (rooted ==> forall i :: 0 <= i < |segs| ==> segs[i] != "..")
    && (forall i, j :: 0 <= i < j < |segs| && segs[j] == ".." ==> segs[i] == "..")
  }

  predicate NoSep(comps: seq<string>)
  {
    forall i :: 0 <= i < |comps| ==> '/' !in comps[i]
  }

  /** Whatever the input, the component loop of `normpath` yields normal
      components; under the root no `..` survives. */
  lemma {:induction false} NormCompsNormal(comps: seq<string>, rooted: bool)
    requires NoSep(comps)
    ensures Normal(NormComps(comps, rooted), rooted)
  {
    if comps != [] {
      var init := comps[..|comps| - 1];
      assert NoSep(init) by {
        forall i | 0 <= i < |init| ensures '/' !in init[i] { assert init[i] == comps[i]; }
      }
      NormCompsNormal(init, rooted);
      var acc := NormComps(init, rooted);
      var c := comps[|comps| - 1];
      if c == "" || c == "." {
      } else if c != ".." || (!rooted && acc == []) || (acc != [] && acc[|acc| - 1] == "..") {
        var r := acc + [c];
        forall i, j | 0 <= i < j < |r| && r[j] == ".." ensures r[i] == ".." {
          if j == |r| - 1 {
            assert acc != [] && acc[|acc| - 1] == "..";
            if i < |acc| - 1 { assert acc[i] == ".."; }
          } else {
            assert acc[j] == "..";
          }
        }
      } else if acc != [] {
        var r := acc[..|acc| - 1];
        assert forall i :: 0 <= i < |r| ==> r[i] == acc[i];
      }
    }
  }

  /** The component loop leaves normal components as they are. */
  lemma {:induction false} NormCompsOfNormal(segs: seq<string>, rooted: bool)
    requires Normal(segs, rooted)
    ensures NormComps(segs, rooted) == segs
  {
    if segs != [] {
      var init := segs[..|segs| - 1];
      assert Normal(init, rooted) by {
        assert forall i :: 0 <= i < |init| ==> init[i] == segs[i];
      }
      NormCompsOfNormal(init, rooted);
      var c := segs[|segs| - 1];
      assert segs == init + [c];
      if c == ".." {
        assert !rooted;
        assert init == [] || init[|init| - 1] == "..";
      }
    }
  }

  /** Appending a clean, non-`..` component to the input appends it to the
      output. */
  lemma NormCompsAppendName(comps: seq<string>, name: string, rooted: bool)
    requires Clean(name) && name != ".."
    ensures NormComps(comps + [name], rooted) == NormComps(comps, rooted) + [name]
  {
    assert (comps + [name])[..|comps|] == comps;
  }

  /** A trailing empty component (from a trailing `/`) changes nothing. */
  lemma NormCompsAppendEmpty(comps: seq<string>, rooted: bool)
    ensures NormComps(comps + [""], rooted) == NormComps(comps, rooted)
  {
    assert (comps + [""])[..|comps|] == comps;
  }

  lemma SplitLeadingSep(s: string)
    ensures Split("/" + s, '/') == [""] + Split(s, '/')
  {
    assert ("/" + s)[1..] == s;
  }

  /** The components of a normal-form path `///…` + `a/b/c` are its segments. */
  lemma PartsOfNormalForm(n: nat, segs: seq<string>)
    requires forall i :: 0 <= i < |segs| ==> Clean(segs[i])
    ensures Parts(Split(Slashes(n) + Join(segs, '/'), '/')) == segs
    ensures NonEmpty(Split(Slashes(n) + Join(segs, '/'), '/')) == segs
  {
    PartsAfterSlashes(n, Join(segs, '/'));
    PartsOfJoin(segs);
  }

  /** Leading slashes add only empty components, which both filters drop. */
  lemma {:induction false} PartsAfterSlashes(n: nat, s: string)
    ensures Parts(Split(Slashes(n) + s, '/')) == Parts(Split(s, '/'))
    ensures NonEmpty(Split(Slashes(n) + s, '/')) == NonEmpty(Split(s, '/'))
  {
    if n == 0 {
      assert Slashes(0) + s == s;
    } else {
      var rest := Slashes(n - 1) + s;
      PartsAfterSlashes(n - 1, s);
      SlashesStep(n, s);
      PartsAfterSlash(rest);
    }
  }

  /** Splitting joined clean segments gives them back, and both filters keep
      them all. */
  lemma PartsOfJoin(segs: seq<string>)
    requires forall i :: 0 <= i < |segs| ==> Clean(segs[i])
    ensures Parts(Split(Join(segs, '/'), '/')) == segs
    ensures NonEmpty(Split(Join(segs, '/'), '/')) == segs
  {
    if segs != [] {
      SplitJoin(segs, '/');
      CleanPartsKept(segs);
    }
  }

  lemma SlashesStep(n: nat, s: string)
    requires n > 0
    ensures Slashes(n) + s == "/" + (Slashes(n - 1) + s)
  {
    assert Slashes(n) == "/" + Slashes(n - 1);
  }

  /** A leading slash adds only an empty component, which both filters
      drop. */
  lemma PartsAfterSlash(s: string)
    ensures Parts(Split("/" + s, '/')) == Parts(Split(s, '/'))
    ensures NonEmpty(Split("/" + s, '/')) == NonEmpty(Split(s, '/'))
  {
    SplitLeadingSep(s);
    PartsAfterEmpty(Split(s, '/'));
  }

  /** A leading empty component is dropped by both filters. */
  lemma PartsAfterEmpty(parts: seq<string>)
    ensures Parts([""] + parts) == Parts(parts)
    ensures NonEmpty([""] + parts) == NonEmpty(parts)
  {
    assert ([""] + parts)[1..] == parts;
  }

  lemma {:induction false} CleanPartsKept(segs: seq<string>)
    requires forall i :: 0 <= i < |segs| ==> Clean(segs[i])
    ensures Parts(segs) == segs && NonEmpty(segs) == segs
  {
    if segs != [] {
      CleanPartsKept(segs[1..]);
      assert [segs[0]] + segs[1..] == segs;
    }
  }

  /** The components `abspath` ends up with. */
  function AbsSegments(cwd: string, p: string): seq<string>
  {
    NormComps(Split(AbsInput(cwd, p), '/'), true)
  }

  /** With an absolute working directory, `abspath` gives one or two slashes
      followed by the normal components of `AbsSegments`. */
  lemma AbsPathShape(cwd: string, p: string)
    requires IsAbs(cwd)
    ensures IsAbs(AbsInput(cwd, p))
    ensures LeadingSlashes(AbsInput(cwd, p)) in {1, 2}
    ensures Normal(AbsSegments(cwd, p), true)
    ensures AbsPath(cwd, p) == Slashes(LeadingSlashes(AbsInput(cwd, p))) + Join(AbsSegments(cwd, p), '/')
  {
    var q := AbsInput(cwd, p);
    assert q[0] == '/';
    NormCompsNormal(Split(q, '/'), true);
  }

  /** `abspath` results split back into exactly `AbsSegments`, whether the
      empty components or also the `.` components are dropped. */
  lemma AbsPathParts(cwd: string, p: string)
    requires IsAbs(cwd)
    ensures Parts(Split(AbsPath(cwd, p), '/')) == AbsSegments(cwd, p)
    ensures NonEmpty(Split(AbsPath(cwd, p), '/')) == AbsSegments(cwd, p)
  {
    AbsPathShape(cwd, p);
    PartsOfNormalForm(LeadingSlashes(AbsInput(cwd, p)), AbsSegments(cwd, p));
  }

  /** `abspath` of an `abspath` result changes nothing about its
      components. */
  lemma AbsSegmentsOfAbsPath(cwd: string, p: string)
    requires IsAbs(cwd)
    ensures AbsSegments(cwd, AbsPath(cwd, p)) == AbsSegments(cwd, p)
  {
    AbsPathShape(cwd, p);
    var n := LeadingSlashes(AbsInput(cwd, p));
    var q := AbsPath(cwd, p);
    assert q[0] == '/';
    assert AbsInput(cwd, q) == q;
    NormCompsOfSplitNormalForm(n, AbsSegments(cwd, p));
  }

  /** `normpath` of a non-empty relative path: the normal components joined
      with `/`, or `.` when none are left; `commonpath` reads exactly those
      components back from it. */
  lemma RelNormPath(p: string)
    requires p != "" && !IsAbs(p)
    ensures var segs := NormComps(Split(p, '/'), false);
      && Normal(segs, false)
      && NormPath(p) == (if segs == [] then "." else Join(segs, '/'))
      && !IsAbs(NormPath(p))
      && Parts(Split(NormPath(p), '/')) == segs
  {
    var segs := NormComps(Split(p, '/'), false);
    NormCompsNormal(Split(p, '/'), false);
    assert LeadingSlashes(p) == 0;
    assert Slashes(0) + Join(segs, '/') == Join(segs, '/');
    JoinHead(segs);
    if segs == [] {
      SplitNoSep(".", '/');
    } else {
      JoinNonEmpty(segs);
      PartsOfNormalForm(0, segs);
    }
  }

  /** For relative normal forms, the joined common components equal the
      directory's normal path exactly when the directory has components and
      they start the file's; a directory normalising to `.` never matches. */
  lemma RelCommonIsDirIff(fileSegs: seq<string>, dirSegs: seq<string>)
    requires Normal(fileSegs, false) && Normal(dirSegs, false)
    ensures Join(Lcp(fileSegs, dirSegs), '/') == (if dirSegs == [] then "." else Join(dirSegs, '/'))
      <==> dirSegs != [] && IsPrefix(dirSegs, fileSegs)
  {
    var lcp := Lcp(fileSegs, dirSegs);
    if dirSegs != [] {
      assert forall i :: 0 <= i < |lcp| ==> lcp[i] == dirSegs[i];
      PrefixIffLcp(dirSegs, fileSegs);
      if Join(lcp, '/') == Join(dirSegs, '/') {
        JoinOfCleanInjective(lcp, dirSegs);
      }
    }
  }

  /** `normpath` keeps a non-empty path absolute or relative. */
  lemma NormPathKeepsAbs(p: string)
    requires p != ""
    ensures IsAbs(NormPath(p)) <==> IsAbs(p)
  {
    var n := LeadingSlashes(p);
    var segs := NormComps(Split(p, '/'), n > 0);
    NormCompsNormal(Split(p, '/'), n > 0);
    JoinHead(segs);
    var r := Slashes(n) + Join(segs, '/');
    SlashesHead(n, Join(segs, '/'));
    assert NormPath(p) == (if r == "" then "." else r);
    assert IsAbs(p) <==> n > 0;
  }

  /** Slashes in front of a string that does not start with one make it
      absolute exactly when there is at least one. */
  lemma SlashesHead(n: nat, t: string)
    requires t == "" || t[0] != '/'
    ensures IsAbs(Slashes(n) + t) <==> n > 0
  {
    if n > 0 {
      assert (Slashes(n) + t)[0] == Slashes(n)[0];
    } else {
      assert Slashes(0) + t == t;
    }
  }

  // ---------------------------------------------------------------------
  // Properties

  /** `normpath` is idempotent: a normalised path is its own normal form. */
  lemma NormPathIdempotent(p: string)
    ensures NormPath(NormPath(p)) == NormPath(p)
  {
    NormPathOfDot();
    if p != "" {
      var n := LeadingSlashes(p);
      var segs := NormComps(Split(p, '/'), n > 0);
      NormCompsNormal(Split(p, '/'), n > 0);
      var r := Slashes(n) + Join(segs, '/');
      if r == "" {
        assert NormPath(p) == ".";
        NormPathOfDot();
      } else {
        assert NormPath(p) == r;
        NormalFormIsFixed(n, segs);
      }
    }
  }

  lemma NormPathOfDot()
    ensures NormPath(".") == "."
  {
    SplitNoSep(".", '/');
    assert NormComps(["."], false) == [];
  }

  lemma NormalFormIsFixed(n: nat, segs: seq<string>)
    requires n <= 2 && Normal(segs, n > 0)
    requires Slashes(n) + Join(segs, '/') != ""
    ensures NormPath(Slashes(n) + Join(segs, '/')) == Slashes(n) + Join(segs, '/')
  {
    JoinHead(segs);
    LeadingSlashesOf(n, Join(segs, '/'));
    NormCompsOfSplitNormalForm(n, segs);
  }

  /** Up to two slashes before a string that does not start with one are
      counted exactly. */
  lemma LeadingSlashesOf(n: nat, s: string)
    requires n <= 2 && (s == "" || s[0] != '/')
    ensures LeadingSlashes(Slashes(n) + s) == n
  {
    var r := Slashes(n) + s;
    if n == 2 {
      assert StartsWith(r, "//");
      assert |r| > 2 ==> r[2] == s[0];
    } else if n == 1 {
      assert |r| > 1 ==> r[1] == s[0];
    } else {
      assert r == s;
    }
  }

  /** A join of clean components does not start with `/`. */
  lemma JoinHead(segs: seq<string>)
    requires forall i :: 0 <= i < |segs| ==> Clean(segs[i])
    ensures Join(segs, '/') == [] || Join(segs, '/')[0] != '/'
  {
    if |segs| >= 1 {
      assert segs[0] != [] && '/' !in segs[0];
      assert segs[0][0] in segs[0];
      if |segs| > 1 {
        assert Join(segs, '/')[0] == segs[0][0];
      }
    }
  }

  /** Running the component loop again over a normal form gives back its
      components. */
  lemma NormCompsOfSplitNormalForm(n: nat, segs: seq<string>)
    requires Normal(segs, n > 0)
    ensures NormComps(Split(Slashes(n) + Join(segs, '/'), '/'), n > 0) == segs
  {
    var parts := Split(Slashes(n) + Join(segs, '/'), '/');
    SplitNormalForm(n, segs);
    if segs == [] {
      NormCompsSkipEmpty(parts, |parts|, n > 0);
      assert parts[..|parts|] == parts;
    } else {
      assert parts[n..] == segs;
      NormCompsOfNormalAfterEmpty(parts, n, n > 0);
    }
  }

  /** A normal form splits into one empty component per leading slash, then
      its components (or one more empty component when there are none). */
  lemma {:induction false} SplitNormalForm(n: nat, segs: seq<string>)
    requires forall i :: 0 <= i < |segs| ==> Clean(segs[i])
    ensures Split(Slashes(n) + Join(segs, '/'), '/') == Repeat("", n) + (if segs == [] then [""] else segs)
  {
    if n == 0 {
      assert Slashes(0) + Join(segs, '/') == Join(segs, '/');
      if segs != [] {
        SplitJoin(segs, '/');
      }
    } else {
      SplitNormalForm(n - 1, segs);
      var rest := Slashes(n - 1) + Join(segs, '/');
      assert Slashes(n) + Join(segs, '/') == "/" + rest;
      SplitLeadingSep(rest);
    }
  }

  lemma {:induction false} NormCompsSkipEmpty(parts: seq<string>, k: nat, rooted: bool)
    requires k <= |parts| && forall i :: 0 <= i < k ==> parts[i] == ""
    ensures NormComps(parts[..k], rooted) == []
  {
    if k > 0 {
      assert parts[..k][..k - 1] == parts[..k - 1];
      NormCompsSkipEmpty(parts, k - 1, rooted);
    }
  }

  /** After a run of empty components, the loop over normal components
      reproduces them. */
  lemma {:induction false} NormCompsOfNormalAfterEmpty(parts: seq<string>, k: nat, rooted: bool)
    requires k <= |parts| && forall i :: 0 <= i < k ==> parts[i] == ""
    requires Normal(parts[k..], rooted)
    ensures NormComps(parts, rooted) == parts[k..]
    decreases |parts|
  {
    if |parts| == k {
      NormCompsSkipEmpty(parts, k, rooted);
      assert parts[..k] == parts;
    } else {
      var init := parts[..|parts| - 1];
      var c := parts[|parts| - 1];
      var segs := parts[k..];
      assert init[k..] == segs[..|segs| - 1];
      NormalDropLast(segs, rooted);
      assert forall i :: 0 <= i < k ==> init[i] == "";
      NormCompsOfNormalAfterEmpty(init, k, rooted);
      assert segs == init[k..] + [c];
      NormStepAppends(init[k..], c, rooted);
    }
  }

  /** Dropping the last component keeps components normal. */
  lemma NormalDropLast(segs: seq<string>, rooted: bool)
    requires segs != [] && Normal(segs, rooted)
    ensures Normal(segs[..|segs| - 1], rooted)
  {
  }

  /** The loop appends a component that keeps the components normal. */
  lemma NormStepAppends(segs: seq<string>, c: string, rooted: bool)
    requires Normal(segs + [c], rooted)
    ensures NormStep(segs, c, rooted) == segs + [c]
  {
    assert c == (segs + [c])[|segs|];
    if c == ".." && segs != [] {
      assert (segs + [c])[|segs| - 1] == "..";
    }
  }

  /** `commonpath` of two `abspath` results: a slash and the common leading
      components. */
  lemma CommonPathOfAbsPaths(cwd: string, file: string, dir: string)
    requires IsAbs(cwd)
    ensures CommonPath(AbsPath(cwd, file), AbsPath(cwd, dir))
         == Ok("/" + Join(Lcp(AbsSegments(cwd, file), AbsSegments(cwd, dir)), '/'))
  {
    AbsPathShape(cwd, file);
    AbsPathShape(cwd, dir);
    AbsPathParts(cwd, file);
    AbsPathParts(cwd, dir);
  }

  /** The containment test of the server. For the `abspath` forms of a file
      and a directory, `commonpath` of the two equals the directory exactly
      when the directory's components are a leading run of the file's and the
      directory is not written with the special leading `//`. */
  lemma CommonPathIsDirIff(cwd: string, file: string, dir: string)
    requires IsAbs(cwd)
    ensures var nf := AbsPath(cwd, file); var nd := AbsPath(cwd, dir);
      CommonPath(nf, nd) == Ok(nd)
      <==> (LeadingSlashes(AbsInput(cwd, dir)) == 1 && IsPrefix(AbsSegments(cwd, dir), AbsSegments(cwd, file)))
  {
    CommonPathOfAbsPaths(cwd, file, dir);
    AbsPathShape(cwd, file);
    AbsPathShape(cwd, dir);
    LcpIsDirIff(AbsSegments(cwd, file), AbsSegments(cwd, dir), LeadingSlashes(AbsInput(cwd, dir)));
  }

  /** On component lists: one slash and the common leading components spell
      the directory written with `k` slashes exactly when `k` is 1 and the
      directory's components lead the file's. */
  lemma LcpIsDirIff(sf: seq<string>, sd: seq<string>, k: nat)
    requires Normal(sf, true) && Normal(sd, true) && k in {1, 2}
    ensures "/" + Join(Lcp(sf, sd), '/') == Slashes(k) + Join(sd, '/') <==> k == 1 && IsPrefix(sd, sf)
  {
    var common := Lcp(sf, sd);
    assert forall i :: 0 <= i < |common| ==> Clean(common[i]) by {
      assert forall i :: 0 <= i < |common| ==> common[i] == sf[i];
    }
    if k == 1 {
      assert Slashes(1) == "/";
      SameAfterSlash(common, sd);
      PrefixIffLcp(sd, sf);
    } else {
      assert Slashes(2) == "//";
      SlashNotDoubleSlash(common, sd);
    }
  }

  /** One slash before clean components never spells two slashes before
      anything. */
  lemma SlashNotDoubleSlash(a: seq<string>, b: seq<string>)
    requires forall i :: 0 <= i < |a| ==> Clean(a[i])
    ensures "/" + Join(a, '/') != "//" + Join(b, '/')
  {
    JoinHead(a);
    assert |"/" + Join(a, '/')| > 1 ==> ("/" + Join(a, '/'))[1] != '/';
  }

  lemma SameAfterSlash(a: seq<string>, b: seq<string>)
    requires forall i :: 0 <= i < |a| ==> Clean(a[i])
    requires forall i :: 0 <= i < |b| ==> Clean(b[i])
    ensures "/" + Join(a, '/') == "/" + Join(b, '/') <==> a == b
  {
    if "/" + Join(a, '/') == "/" + Join(b, '/') {
      assert ("/" + Join(a, '/'))[1..] == Join(a, '/');
      assert ("/" + Join(b, '/'))[1..] == Join(b, '/');
      JoinOfCleanInjective(a, b);
    }
  }

  /** `d` is a leading run of `f` exactly when it is their longest common
      prefix. */
  lemma PrefixIffLcp(d: seq<string>, f: seq<string>)
    ensures IsPrefix(d, f) <==> Lcp(f, d) == d
  {
    if IsPrefix(d, f) {
      LcpOfPrefix(d, f);
      LcpSymmetric(d, f);
    }
  }

  lemma {:induction false} LcpSymmetric(a: seq<string>, b: seq<string>)
    ensures Lcp(a, b) == Lcp(b, a)
  {
    if a != [] && b != [] && a[0] == b[0] {
      LcpSymmetric(a[1..], b[1..]);
    }
  }

  /** Joins of clean component lists, including the empty list, are equal
      only if the lists are. */
  lemma JoinOfCleanInjective(a: seq<string>, b: seq<string>)
    requires forall i :: 0 <= i < |a| ==> Clean(a[i])
    requires forall i :: 0 <= i < |b| ==> Clean(b[i])
    requires Join(a, '/') == Join(b, '/')
    ensures a == b
  {
    if a == [] || b == [] {
      JoinNonEmpty(a);
      JoinNonEmpty(b);
    } else {
      JoinInjective(a, b, '/');
    }
  }

  lemma JoinNonEmpty(a: seq<string>)
    requires forall i :: 0 <= i < |a| ==> Clean(a[i])
    ensures a != [] ==> Join(a, '/') != []
  {
    if |a| >= 1 {
      assert a[0] != [];
    }
  }

  /** `relpath` of a path below `start` is the rest of its components joined
      with `/` (`.` for `start` itself). */
  lemma RelPathBelow(cwd: string, path: string, start: string)
    requires IsAbs(cwd) && path != ""
    requires IsPrefix(AbsSegments(cwd, start), AbsSegments(cwd, path))
    ensures var rest := AbsSegments(cwd, path)[|AbsSegments(cwd, start)|..];
      RelPath(cwd, path, start) == if rest == [] then "." else Join(rest, '/')
  {
    AbsPathParts(cwd, path);
    AbsPathParts(cwd, start);
    var s := AbsSegments(cwd, start);
    var q := AbsSegments(cwd, path);
    LcpOfPrefix(s, q);
    assert Repeat("..", 0) + q[|s|..] == q[|s|..];
  }

  lemma {:induction false} LcpOfPrefix(s: seq<string>, q: seq<string>)
    requires IsPrefix(s, q)
    ensures Lcp(s, q) == s
  {
    if s != [] {
      assert q[0] == s[0];
      assert IsPrefix(s[1..], q[1..]) by { assert q[1..][..|s| - 1] == s[1..]; }
      LcpOfPrefix(s[1..], q[1..]);
      assert [s[0]] + s[1..] == s;
    }
  }

  /** Joining a clean, non-`..` name onto a non-empty path appends exactly
      that name to the `abspath` components. */
  lemma AbsSegmentsJoinName(cwd: string, p: string, name: string)
    requires IsAbs(cwd) && p != ""
    requires Clean(name) && name != ".."
    ensures AbsSegments(cwd, PathJoin(p, name)) == AbsSegments(cwd, p) + [name]
  {
    AbsInputJoinName(cwd, p, name);
    SplitJoinName(AbsInput(cwd, p), name);
  }

  /** Joining a relative name commutes with making the path absolute. */
  lemma AbsInputJoinName(cwd: string, p: string, name: string)
    requires IsAbs(cwd) && p != "" && name != "" && '/' !in name
    ensures AbsInput(cwd, p) != ""
    ensures AbsInput(cwd, PathJoin(p, name)) == PathJoin(AbsInput(cwd, p), name)
  {
    assert !IsAbs(name) by { assert name[0] in name; }
    if IsAbs(p) {
      assert PathJoin(p, name)[0] == p[0];
    } else {
      PathJoinAssoc(cwd, p, name);
    }
  }

  /** Joining `b` then `c` onto `a` is joining `c` onto `a` joined with `b`,
      for non-empty relative `b` and `c`. */
  lemma PathJoinAssoc(a: string, b: string, c: string)
    requires a != "" && b != "" && c != "" && !IsAbs(b) && !IsAbs(c)
    ensures !IsAbs(PathJoin(b, c))
    ensures PathJoin(a, PathJoin(b, c)) == PathJoin(PathJoin(a, b), c)
  {
    PathJoinRelative(a, b);
    PathJoinRelative(b, c);
    ConcatAround(a, JoinSep(a), b, JoinSep(b), c);
    PathJoinRelative(a, PathJoin(b, c));
    PathJoinRelative(PathJoin(a, b), c);
  }

  /** The separator `join` puts after a non-empty path. */
  function JoinSep(a: string): string
    requires a != ""
  {
    if a[|a| - 1] == '/' then "" else "/"
  }

  lemma PathJoinRelative(a: string, b: string)
    requires a != "" && !IsAbs(b)
    ensures PathJoin(a, b) == a + JoinSep(a) + b
  {
    if JoinSep(a) == "" {
      assert a + "" + b == a + b;
    }
  }

  lemma ConcatAround(a: string, sa: string, b: string, sb: string, c: string)
    requires b != ""
    ensures (b + sb + c)[0] == b[0]
    ensures (a + sa + b)[|a + sa + b| - 1] == b[|b| - 1]
    ensures a + sa + (b + sb + c) == (a + sa + b) + sb + c
  {
  }

  lemma SplitJoinName(q: string, name: string)
    requires q != "" && Clean(name) && name != ".."
    ensures NormComps(Split(PathJoin(q, name), '/'), true) == NormComps(Split(q, '/'), true) + [name]
  {
    assert !IsAbs(name) by { assert name[0] in name; }
    SplitNoSep(name, '/');
    if q[|q| - 1] == '/' {
      var q' := q[..|q| - 1];
      assert q == q' + "/" + "";
      assert PathJoin(q, name) == q' + "/" + name;
      SplitConcat(q', "", '/');
      SplitConcat(q', name, '/');
      NormCompsAppendEmpty(Split(q', '/'), true);
      NormCompsAppendName(Split(q', '/'), name, true);
    } else {
      assert PathJoin(q, name) == q + "/" + name;
      SplitConcat(q, name, '/');
      NormCompsAppendName(Split(q, '/'), name, true);
    }
  }

  // The example of the server's security check, computed step by step:
  // `/a/b/../../etc/passwd` normalises to `/etc/passwd`.

  lemma NormCompsTraversal()
    ensures NormComps(["", "a", "b", "..", "..", "etc", "passwd"], true) == ["etc", "passwd"]
    ensures NormComps(["", "a", "b"], true) == ["a", "b"]
  {
    var c := ["", "a", "b", "..", "..", "etc", "passwd"];
    assert c[..1] == [""];
    assert NormComps(c[..1], true) == [];
    assert c[..2][..1] == c[..1];
    assert NormComps(c[..2], true) == ["a"];
    assert c[..3][..2] == c[..2];
    assert NormComps(c[..3], true) == ["a", "b"];
    assert c[..4][..3] == c[..3];
    assert NormComps(c[..4], true) == ["a"];
    assert c[..5][..4] == c[..4];
    assert NormComps(c[..5], true) == [];
    assert c[..6][..5] == c[..5];
    assert NormComps(c[..6], true) == ["etc"];
    assert c[..6] == c[..|c| - 1];
    assert c[..3] == ["", "a", "b"];
  }

  /** `/a/b/../../etc/passwd` (written here as the join of its components)
      climbs out of `/a/b`: its `abspath` components are `etc`, `passwd`,
      which do not start with `a`, `b`. */
  lemma TraversalEscapes(cwd: string)
    ensures var file := Join(["", "a", "b", "..", "..", "etc", "passwd"], '/');
      var dir := Join(["", "a", "b"], '/');
      && AbsSegments(cwd, file) == ["etc", "passwd"]
      && AbsSegments(cwd, dir) == ["a", "b"]
      && LeadingSlashes(dir) == 1
      && !IsPrefix(AbsSegments(cwd, dir), AbsSegments(cwd, file))
  {
    TraversalFileSegments(cwd);
    TraversalDirSegments(cwd);
    assert ["etc", "passwd"][..2] != ["a", "b"];
  }

  lemma TraversalFileSegments(cwd: string)
    ensures AbsSegments(cwd, Join(["", "a", "b", "..", "..", "etc", "passwd"], '/')) == ["etc", "passwd"]
  {
    var c := ["", "a", "b", "..", "..", "etc", "passwd"];
    SplitJoin(c, '/');
    assert IsAbs(Join(c, '/'));
    NormCompsTraversal();
  }

  lemma TraversalDirSegments(cwd: string)
    ensures AbsSegments(cwd, Join(["", "a", "b"], '/')) == ["a", "b"]
    ensures LeadingSlashes(Join(["", "a", "b"], '/')) == 1
  {
    var d := ["", "a", "b"];
    SplitJoin(d, '/');
    var dir := Join(d, '/');
    assert dir == "/" + Join(["a", "b"], '/');
    assert Join(["a", "b"], '/') == "a" + "/" + "b";
    assert IsAbs(dir);
    assert d[..2][..1] == d[..1] && d[..1][..0] == [];
    assert NormComps(d[..1], true) == [];
    assert NormComps(d[..2], true) == ["a"];
  }
}
