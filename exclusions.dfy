/** The exclusion test the server applies to every directory and file it
    meets while scanning (`is_excluded` in app.py). Three rule lists are
    consulted in order; the first rule that fires excludes the entry. */
module Exclusions {
  import opened Strings
  import opened Fnmatch

  /** The three rule lists of `file_exclude_patterns.json`; a key missing
      from the file reads as an empty list. */
  datatype Rules = Rules(excludeDirs: seq<string>, excludeFiles: seq<string>, excludePatterns: seq<string>)

  /** The first loop of `is_excluded`: some non-empty directory rule equals
      a segment of the relative root. */
  predicate DirRuleFires(dirRules: seq<string>, segments: seq<string>)
    decreases |dirRules|
  {
    if dirRules == [] then false
    else if dirRules[0] != "" && dirRules[0] in segments then true
    else DirRuleFires(dirRules[1..], segments)
  }

  /** The last loop of `is_excluded`: some glob pattern matches the name. */
  predicate PatternFires(patterns: seq<string>, filename: string)
    decreases |patterns|
  {
    if patterns == [] then false
    else if Match(filename, patterns[0]) then true
    else PatternFires(patterns[1..], filename)
  }

  /** `is_excluded(path, filename, rel_root, patterns)`: the `path` argument
      is never consulted, so it is not a parameter here. `rel_root` is split
      on `/`, the separator of a POSIX host. */
  predicate IsExcluded(filename: string, relRoot: string, rules: Rules)
  {
    DirRuleFires(rules.excludeDirs, Split(relRoot, '/'))
    || filename in rules.excludeFiles
    || PatternFires(rules.excludePatterns, filename)
  }

  lemma {:induction false} DirRuleFiresIff(dirRules: seq<string>, segments: seq<string>)
    ensures DirRuleFires(dirRules, segments)
        <==> exists i :: 0 <= i < |dirRules| && dirRules[i] != "" && dirRules[i] in segments
  {
    if dirRules != [] {
      DirRuleFiresIff(dirRules[1..], segments);
      if exists i :: 0 <= i < |dirRules| && dirRules[i] != "" && dirRules[i] in segments {
        var i :| 0 <= i < |dirRules| && dirRules[i] != "" && dirRules[i] in segments;
        if i > 0 {
          assert dirRules[1..][i - 1] == dirRules[i];
        }
      }
    }
  }

  lemma {:induction false} PatternFiresIff(patterns: seq<string>, filename: string)
    ensures PatternFires(patterns, filename) <==> exists i :: 0 <= i < |patterns| && Match(filename, patterns[i])
  {
    if patterns != [] {
      PatternFiresIff(patterns[1..], filename);
      if exists i :: 0 <= i < |patterns| && Match(filename, patterns[i]) {
        var i :| 0 <= i < |patterns| && Match(filename, patterns[i]);
        if i > 0 {
          assert patterns[1..][i - 1] == patterns[i];
        }
      }
    }
  }

  /** An entry is excluded exactly when a non-empty directory rule names a
      segment of its relative root, its name is a filename rule, or a glob
      pattern matches its name; empty directory rules never fire. */
  lemma IsExcludedIff(filename: string, relRoot: string, rules: Rules)
    ensures IsExcluded(filename, relRoot, rules) <==>
      || (exists i :: 0 <= i < |rules.excludeDirs| && rules.excludeDirs[i] != ""
                      && rules.excludeDirs[i] in Split(relRoot, '/'))
      || filename in rules.excludeFiles
      || (exists i :: 0 <= i < |rules.excludePatterns| && Match(filename, rules.excludePatterns[i]))
  {
    DirRuleFiresIff(rules.excludeDirs, Split(relRoot, '/'));
    PatternFiresIff(rules.excludePatterns, filename);
  }

  /** A pattern without wildcards acts like a filename rule. */
  lemma LiteralPatternIsFilenameRule(filename: string, relRoot: string, rules: Rules, pat: string)
    requires Literal(pat)
    ensures IsExcluded(filename, relRoot, rules.(excludePatterns := rules.excludePatterns + [pat]))
        <==> IsExcluded(filename, relRoot, rules.(excludeFiles := rules.excludeFiles + [pat]))
  {
    var withPat := rules.(excludePatterns := rules.excludePatterns + [pat]);
    var withFile := rules.(excludeFiles := rules.excludeFiles + [pat]);
    IsExcludedIff(filename, relRoot, rules);
    IsExcludedIff(filename, relRoot, withPat);
    IsExcludedIff(filename, relRoot, withFile);
    LiteralMatchesItself(filename, pat);
    if filename == pat {
      assert withPat.excludePatterns[|rules.excludePatterns|] == pat;
      assert withFile.excludeFiles[|rules.excludeFiles|] == pat;
    } else {
      assert filename in withFile.excludeFiles <==> filename in rules.excludeFiles;
      if exists i :: 0 <= i < |withPat.excludePatterns| && Match(filename, withPat.excludePatterns[i]) {
        var i :| 0 <= i < |withPat.excludePatterns| && Match(filename, withPat.excludePatterns[i]);
        assert i < |rules.excludePatterns|;
        assert rules.excludePatterns[i] == withPat.excludePatterns[i];
      }
      if exists i :: 0 <= i < |rules.excludePatterns| && Match(filename, rules.excludePatterns[i]) {
        var i :| 0 <= i < |rules.excludePatterns| && Match(filename, rules.excludePatterns[i]);
        assert rules.excludePatterns[i] == withPat.excludePatterns[i];
      }
    }
  }
}
