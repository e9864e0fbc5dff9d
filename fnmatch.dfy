/** Shell-style filename matching as Python's `fnmatch.fnmatch` does it on a
    POSIX host (where `os.path.normcase` changes nothing, so matching is
    case-sensitive). The pattern is matched against the whole name:
    `*` matches any run of characters, `?` any one character, `[seq]` one
    character of the set and `[!seq]` one character outside it. */
module Fnmatch {
  import opened Strings

  /** Position of the `]` that closes the bracket expression opened by
      `pat[0] == '['`, found as `fnmatch.translate` finds it: a `!` right after
      the `[`, and then a `]` right after that, belong to the set. None when no
      `]` follows, in which case the `[` is an ordinary character. */
  function ClassEnd(pat: string): (r: Option<nat>)
    requires |pat| >= 1 && pat[0] == '['
    ensures r.Some? ==> 1 < r.value < |pat| && pat[r.value] == ']'
  {
    var j := if |pat| > 1 && pat[1] == '!' then 2 else 1;
    var j' := if j < |pat| && pat[j] == ']' then j + 1 else j;
    FindClose(pat, j')
  }

  function FindClose(pat: string, j: nat): (r: Option<nat>)
    ensures r.Some? ==> j <= r.value < |pat| && pat[r.value] == ']'
    ensures r.None? ==> forall k :: j <= k < |pat| ==> pat[k] != ']'
    decreases |pat| - j
  {
    if j >= |pat| then None
    else if pat[j] == ']' then Some(j)
    else FindClose(pat, j + 1)
  }

  /** Membership in the items of a set, read left to right: `a-z` is the
      range from `a` to `z` (empty when reversed), any other character
      stands for itself. A `-` first or last in the set is an ordinary
      character. */
  predicate InItems(c: char, items: string)
    decreases |items|
  {
    if items == [] then false
    else if |items| >= 3 && items[1] == '-' then (items[0] <= c <= items[2]) || InItems(c, items[3..])
    else c == items[0] || InItems(c, items[1..])
  }

  /** Membership in the set written between `[` and `]`. */
  predicate InClass(c: char, body: string)
  {
    if |body| > 0 && body[0] == '!' then !InItems(c, body[1..]) else InItems(c, body)
  }

  /** `fnmatch.fnmatch(name, pat)`. */
  predicate Match(name: string, pat: string)
    decreases |pat|, |name|
  {
    if pat == [] then name == []
    else if pat[0] == '*' then Match(name, pat[1..]) || (name != [] && Match(name[1..], pat))
    else if pat[0] == '?' then name != [] && Match(name[1..], pat[1..])
    else if pat[0] == '[' then
      match ClassEnd(pat)
      case None => name != [] && name[0] == '[' && Match(name[1..], pat[1..])
      case Some(j) => name != [] && InClass(name[0], pat[1..j]) && Match(name[1..], pat[j + 1..])
    else name != [] && name[0] == pat[0] && Match(name[1..], pat[1..])
  }

  predicate IsMeta(c: char)
  {
    c == '*' || c == '?' || c == '['
  }

  predicate Literal(pat: string)
  {
    forall i :: 0 <= i < |pat| ==> !IsMeta(pat[i])
  }

  /** A pattern without `*`, `?` or `[` matches exactly the name it spells:
      an exclusion pattern such as `package-lock.json` acts like a filename
      rule. */
  lemma {:induction false} LiteralMatchesItself(name: string, pat: string)
    requires Literal(pat)
    ensures Match(name, pat) <==> name == pat
  {
    if pat != [] && name != [] {
      assert Literal(pat[1..]) by {
        forall i | 0 <= i < |pat| - 1 ensures !IsMeta(pat[1..][i]) { assert pat[1..][i] == pat[i + 1]; }
      }
      LiteralMatchesItself(name[1..], pat[1..]);
      assert name == [name[0]] + name[1..];
      assert pat == [pat[0]] + pat[1..];
    }
  }

  /** `*` alone matches every name. */
  lemma {:induction false} StarMatchesEverything(name: string)
    ensures Match(name, "*")
  {
    if name == [] {
      assert Match(name, "*"[1..]);
    } else {
      StarMatchesEverything(name[1..]);
    }
  }

  /** `*` followed by a literal suffix (`*.pyc`, `*.log`) matches exactly the
      names that end with that suffix. */
  lemma {:induction false} StarSuffixMatchesEndings(name: string, suffix: string)
    requires Literal(suffix)
    ensures Match(name, "*" + suffix) <==> EndsWith(name, suffix)
  {
    var pat := "*" + suffix;
    assert pat[1..] == suffix;
    LiteralMatchesItself(name, suffix);
    if name == [] {
    } else {
      StarSuffixMatchesEndings(name[1..], suffix);
      assert Match(name, pat) == (name == suffix || Match(name[1..], pat));
      if |suffix| <= |name| - 1 {
        assert name[1..][|name| - 1 - |suffix|..] == name[|name| - |suffix|..];
      }
      assert EndsWith(name, suffix) == (name == suffix || EndsWith(name[1..], suffix));
    }
  }

  /** A pattern of `n` question marks matches exactly the names of length `n`. */
  lemma {:induction false} QuestionMarksMatchLength(name: string, pat: string)
    requires forall i :: 0 <= i < |pat| ==> pat[i] == '?'
    ensures Match(name, pat) <==> |name| == |pat|
  {
    if pat != [] && name != [] {
      assert forall i :: 0 <= i < |pat| - 1 ==> pat[1..][i] == pat[i + 1];
      QuestionMarksMatchLength(name[1..], pat[1..]);
    }
  }
}
