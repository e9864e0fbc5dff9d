/** String helpers shared by the server (Python) and the browser (JavaScript)
    parts of the context builder: splitting and joining on a one-character
    separator, replacing one character by another, and JavaScript's trim. */
module Strings {

  datatype Option<T> = None | Some(value: T)

  /** The outcome of an operation that may raise: the value, or the text of
      the exception. */
  datatype Result<T> = Ok(value: T) | Err(message: string)

  /** Splits `s` at every occurrence of `sep`, as Python's `str.split(sep)` and
      JavaScript's `String.prototype.split(sep)` do for a one-character
      separator: there is always at least one part, and adjacent or
      leading/trailing separators give empty parts. */
  function Split(s: string, sep: char): (parts: seq<string>)
    ensures |parts| >= 1
    ensures forall i :: 0 <= i < |parts| ==> sep !in parts[i]
  {
    if s == [] then [""]
    else if s[0] == sep then [""] + Split(s[1..], sep)
    else
      var rest := Split(s[1..], sep);
      [[s[0]] + rest[0]] + rest[1..]
  }

  /** Joins `parts` with `sep` between consecutive parts (`sep.join(parts)`). */
  function Join(parts: seq<string>, sep: char): string
  {
    if |parts| == 0 then ""
    else if |parts| == 1 then parts[0]
    else parts[0] + [sep] + Join(parts[1..], sep)
  }

  /** Joining the parts of a split gives the original string back. */
  lemma {:induction false} JoinSplit(s: string, sep: char)
    ensures Join(Split(s, sep), sep) == s
  {
    if s == [] {
    } else if s[0] == sep {
      JoinSplit(s[1..], sep);
      var rest := Split(s[1..], sep);
      assert Split(s, sep) == [""] + rest;
      assert Join([""] + rest, sep) == [sep] + Join(rest, sep) by {
        if |rest| == 1 {
        } else {
          assert ([""] + rest)[1..] == rest;
        }
      }
      assert s == [sep] + s[1..];
    } else {
      JoinSplit(s[1..], sep);
      var rest := Split(s[1..], sep);
      var parts := [[s[0]] + rest[0]] + rest[1..];
      assert Split(s, sep) == parts;
      if |rest| == 1 {
        assert Join(parts, sep) == [s[0]] + rest[0];
        assert Join(rest, sep) == rest[0];
      } else {
        assert parts[1..] == rest[1..];
        assert Join(rest, sep) == rest[0] + [sep] + Join(rest[1..], sep);
        assert Join(parts, sep) == [s[0]] + rest[0] + [sep] + Join(rest[1..], sep);
      }
      assert s == [s[0]] + s[1..];
    }
  }

  /** A string without the separator is a single part. */
  lemma {:induction false} SplitNoSep(s: string, sep: char)
    requires sep !in s
    ensures Split(s, sep) == [s]
  {
    if s != [] {
      assert s[0] != sep by { assert s[0] in s; }
      assert sep !in s[1..] by {
        forall i | 0 <= i < |s| - 1 ensures s[1..][i] != sep { assert s[1..][i] == s[i + 1]; }
      }
      SplitNoSep(s[1..], sep);
      assert [s[0]] + s[1..] == s;
    }
  }

  /** Splitting at one separator splits both sides independently. */
  lemma {:induction false} SplitConcat(a: string, b: string, sep: char)
    ensures Split(a + [sep] + b, sep) == Split(a, sep) + Split(b, sep)
  {
    var s := a + [sep] + b;
    var B := Split(b, sep);
    if a == [] {
      assert s == [sep] + b;
      assert s[1..] == b;
    } else {
      assert s[0] == a[0];
      assert s[1..] == a[1..] + [sep] + b;
      SplitConcat(a[1..], b, sep);
      var r := Split(a[1..], sep);
      var R := Split(s[1..], sep);
      assert R == r + B;
      if a[0] == sep {
        assert Split(s, sep) == [""] + R;
        assert Split(a, sep) == [""] + r;
      } else {
        assert Split(s, sep) == [[a[0]] + R[0]] + R[1..];
        assert Split(a, sep) == [[a[0]] + r[0]] + r[1..];
        assert R[0] == r[0];
        assert R[1..] == r[1..] + B;
      }
    }
  }

  /** Splitting `a + sep + b`, where `a` holds no separator, gives `a` followed
      by the parts of `b`. */
  lemma SplitAfterPart(a: string, b: string, sep: char)
    requires sep !in a
    ensures Split(a + [sep] + b, sep) == [a] + Split(b, sep)
  {
    SplitConcat(a, b, sep);
    SplitNoSep(a, sep);
  }

  /** Splitting a join of separator-free parts gives the parts back: the
      inverse of `JoinSplit`, and the reason `Join` is injective on them. */
  lemma {:induction false} SplitJoin(parts: seq<string>, sep: char)
    requires |parts| >= 1
    requires forall i :: 0 <= i < |parts| ==> sep !in parts[i]
    ensures Split(Join(parts, sep), sep) == parts
  {
    if |parts| == 1 {
      SplitNoSep(parts[0], sep);
    } else {
      SplitJoin(parts[1..], sep);
      SplitAfterPart(parts[0], Join(parts[1..], sep), sep);
      assert [parts[0]] + parts[1..] == parts;
    }
  }

  /** Two joins of separator-free parts are equal only if the parts are. */
  lemma JoinInjective(a: seq<string>, b: seq<string>, sep: char)
    requires |a| >= 1 && |b| >= 1
    requires forall i :: 0 <= i < |a| ==> sep !in a[i]
    requires forall i :: 0 <= i < |b| ==> sep !in b[i]
    requires Join(a, sep) == Join(b, sep)
    ensures a == b
  {
    SplitJoin(a, sep);
    SplitJoin(b, sep);
  }

  /** Every occurrence of `from` replaced by `to`: Python's
      `s.replace('\\', '/')` and JavaScript's `s.replace(/\\/g, '/')`. */
  function ReplaceChar(s: string, from: char, to: char): (r: string)
    ensures |r| == |s|
    ensures forall i :: 0 <= i < |s| ==> r[i] == (if s[i] == from then to else s[i])
  {
    if s == [] then [] else [if s[0] == from then to else s[0]] + ReplaceChar(s[1..], from, to)
  }

  /** The characters JavaScript's `String.prototype.trim` removes: the
      WhiteSpace and LineTerminator code points of ECMAScript. */
  predicate IsJsWhitespace(c: char)
  {
    c == '\t' || c == '\n' || c == '\U{B}' || c == '\U{C}' || c == '\r' || c == ' '
    || c == '\U{A0}' || c == '\U{1680}' || ('\U{2000}' <= c <= '\U{200A}')
    || c == '\U{2028}' || c == '\U{2029}' || c == '\U{202F}' || c == '\U{205F}'
    || c == '\U{3000}' || c == '\U{FEFF}'
  }

  predicate AllWhitespace(s: string)
  {
    forall i :: 0 <= i < |s| ==> IsJsWhitespace(s[i])
  }

  /** JavaScript's `s.trimStart()`. */
  function TrimStart(s: string): string
  {
    if s != [] && IsJsWhitespace(s[0]) then TrimStart(s[1..]) else s
  }

  /** JavaScript's `s.trimEnd()`. */
  function TrimEnd(s: string): string
  {
    if s != [] && IsJsWhitespace(s[|s| - 1]) then TrimEnd(s[..|s| - 1]) else s
  }

  /** `trimStart` drops exactly the leading whitespace. */
  lemma {:induction false} TrimStartSpec(s: string)
    ensures var r := TrimStart(s);
      && |r| <= |s| && r == s[|s| - |r|..]
      && (r == [] || !IsJsWhitespace(r[0]))
      && AllWhitespace(s[..|s| - |r|])
  {
    if s != [] && IsJsWhitespace(s[0]) {
      TrimStartSpec(s[1..]);
      var r := TrimStart(s);
      assert s[1..][|s| - 1 - |r|..] == s[|s| - |r|..];
      forall i | 0 <= i < |s| - |r| ensures IsJsWhitespace(s[i]) {
        if i > 0 {
          assert s[1..][..|s| - 1 - |r|][i - 1] == s[i];
        }
      }
    }
  }

  /** `trimEnd` drops exactly the trailing whitespace. */
  lemma {:induction false} TrimEndSpec(s: string)
    ensures var r := TrimEnd(s);
      && |r| <= |s| && r == s[..|r|]
      && (r == [] || !IsJsWhitespace(r[|r| - 1]))
      && AllWhitespace(s[|r|..])
  {
    if s != [] && IsJsWhitespace(s[|s| - 1]) {
      var init := s[..|s| - 1];
      TrimEndSpec(init);
      var r := TrimEnd(s);
      assert init[..|r|] == s[..|r|];
      forall i | |r| <= i < |s| ensures IsJsWhitespace(s[i]) {
        if i < |s| - 1 {
          assert init[|r|..][i - |r|] == s[i];
        }
      }
    }
  }

  /** JavaScript's `s.trim()`. */
  function Trim(s: string): string
  {
    TrimEnd(TrimStart(s))
  }

  /** `trim` removes whitespace at both ends and nothing else: the result is
      the piece of the input that starts after the leading whitespace, only
      whitespace surrounds it, and it neither starts nor ends with whitespace. */
  lemma TrimSpec(s: string)
    ensures |TrimStart(s)| <= |s|
    ensures var k := |s| - |TrimStart(s)|;
      && k + |Trim(s)| <= |s|
      && Trim(s) == s[k..k + |Trim(s)|]
      && AllWhitespace(s[..k]) && AllWhitespace(s[k + |Trim(s)|..])
    ensures Trim(s) == [] || (!IsJsWhitespace(Trim(s)[0]) && !IsJsWhitespace(Trim(s)[|Trim(s)| - 1]))
  {
    var t := TrimStart(s);
    var k := |s| - |t|;
    var r := TrimEnd(t);
    TrimStartSpec(s);
    TrimEndSpec(t);
    assert t == s[k..];
    assert r == t[..|r|];
    assert s[k + |r|..] == t[|r|..];
  }

  /** A string trims to the empty string exactly when it is all whitespace. */
  lemma TrimEmptyIff(s: string)
    ensures Trim(s) == [] <==> AllWhitespace(s)
  {
    var t := TrimStart(s);
    var k := |s| - |t|;
    TrimStartSpec(s);
    TrimEndSpec(t);
    if Trim(s) == [] {
      assert t == [];
      assert s[..k] == s;
    }
  }

  /** Trimming twice is trimming once. */
  lemma TrimIdempotent(s: string)
    ensures Trim(Trim(s)) == Trim(s)
  {
    var r := Trim(s);
    if r != [] {
      TrimSpec(s);
      assert TrimStart(r) == r;
      assert TrimEnd(r) == r;
    }
  }

  /** A string that neither starts nor ends with whitespace trims to
      itself. */
  lemma TrimUnchanged(s: string)
    requires s != [] && !IsJsWhitespace(s[0]) && !IsJsWhitespace(s[|s| - 1])
    ensures Trim(s) == s
  {
    assert TrimStart(s) == s;
  }

  /** Of a string whose only trailing whitespace is a final newline, trim
      drops exactly that newline. */
  lemma TrimDropsFinalNewline(s: string)
    requires |s| >= 2 && s[|s| - 1] == '\n'
    requires !IsJsWhitespace(s[0]) && !IsJsWhitespace(s[|s| - 2])
    ensures Trim(s) == s[..|s| - 1]
  {
    assert TrimStart(s) == s;
    assert TrimEnd(s) == TrimEnd(s[..|s| - 1]);
    assert s[..|s| - 1][|s| - 2] == s[|s| - 2];
  }

  /** A join ends with its last part. */
  lemma {:induction false} JoinEndsWithLast(parts: seq<string>, sep: char)
    requires |parts| >= 1
    ensures EndsWith(Join(parts, sep), parts[|parts| - 1])
    decreases |parts|
  {
    if |parts| > 1 {
      JoinEndsWithLast(parts[1..], sep);
      var last := parts[|parts| - 1];
      var tail := Join(parts[1..], sep);
      var j := parts[0] + [sep] + tail;
      assert j[|j| - |last|..] == tail[|tail| - |last|..];
    }
  }

  predicate StartsWith(s: string, prefix: string)
  {
    |prefix| <= |s| && s[..|prefix|] == prefix
  }

  predicate EndsWith(s: string, suffix: string)
  {
    |suffix| <= |s| && s[|s| - |suffix|..] == suffix
  }
}
