/** The rule editor of the browser (static/js/exclusion_manager.js): three
    rule lists shown in a dialog, an input box and an Add button per list,
    and a Remove button per rule. The lists are changed in place, by `push`
    and by `splice`. */
module ExclusionManager {
  import opened Strings
  import opened ExclusionRoutes

  datatype RuleKind = ExcludeDirs | ExcludeFiles | ExcludePatterns

  predicate NoDuplicates(rules: seq<string>)
  {
    forall i, j :: 0 <= i < j < |rules| ==> rules[i] != rules[j]
  }

  /** Non-empty, and neither starting nor ending with whitespace. */
  predicate Trimmed(s: string)
  {
    s != "" && !IsJsWhitespace(s[0]) && !IsJsWhitespace(s[|s| - 1])
  }

  /** Every rule is trimmed and non-empty, as the Add buttons store them. */
  predicate AllTrimmed(rules: seq<string>)
  {
    forall i :: 0 <= i < |rules| ==> Trimmed(rules[i])
  }

  /** An Add button: the list and the input box afterwards. The trimmed input
      is appended, and the box cleared, only when the trimmed input is
      non-empty and not in the list yet. */
  function AddRule(rules: seq<string>, input: string): (seq<string>, string)
  {
    var val := Trim(input);
    if val != "" && val !in rules then (rules + [val], "") else (rules, input)
  }

  /** Adds each input in turn, as clicking Add after typing each one. */
  function AddAll(rules: seq<string>, inputs: seq<string>): seq<string>
    decreases |inputs|
  {
    if inputs == [] then rules
    else AddRule(AddAll(rules, inputs[..|inputs| - 1]), inputs[|inputs| - 1]).0
  }

  /** `rules.splice(idx, 1)`: the rule at `idx` taken out, nothing when there
      is none. */
  function RemoveAt(rules: seq<string>, idx: nat): seq<string>
  {
    if idx < |rules| then rules[..idx] + rules[idx + 1..] else rules
  }

  /** The object the Save button posts. */
  function Payload(dirs: seq<string>, files: seq<string>, patterns: seq<string>): Json
  {
    JObject(map["exclude_dirs" := StringArray(dirs), "exclude_files" := StringArray(files), "exclude_patterns" := StringArray(patterns)])
  }

  /** A JSON array of the strings `xs`, in order. */
  function StringArray(xs: seq<string>): Json
  {
    JArray(seq(|xs|, i requires 0 <= i < |xs| => JString(xs[i])))
  }

  class ExclusionEditor {
    var excludeDirs: seq<string>
    var excludeFiles: seq<string>
    var excludePatterns: seq<string>
    /** The text in the three input boxes. */
    var newExcludeDir: string
    var newExcludeFile: string
    var newExcludePattern: string

    function Rules(kind: RuleKind): seq<string>
      reads this
    {
      match kind
      case ExcludeDirs => excludeDirs
      case ExcludeFiles => excludeFiles
      case ExcludePatterns => excludePatterns
    }

    function Input(kind: RuleKind): string
      reads this
    {
      match kind
      case ExcludeDirs => newExcludeDir
      case ExcludeFiles => newExcludeFile
      case ExcludePatterns => newExcludePattern
    }

    /** The editor as the page sets it up: three empty lists. */
    constructor ()
      ensures excludeDirs == [] && excludeFiles == [] && excludePatterns == []
      ensures newExcludeDir == "" && newExcludeFile == "" && newExcludePattern == ""
    {
      excludeDirs := [];
      excludeFiles := [];
      excludePatterns := [];
      newExcludeDir := "";
      newExcludeFile := "";
      newExcludePattern := "";
    }

    /** The user edits the input box of one list. */
    method Type(kind: RuleKind, text: string)
      modifies this
      ensures Input(kind) == text
      ensures forall k :: k != kind ==> Input(k) == old(Input(k))
      ensures forall k :: Rules(k) == old(Rules(k))
    {
      match kind
      case ExcludeDirs => newExcludeDir := text;
      case ExcludeFiles => newExcludeFile := text;
      case ExcludePatterns => newExcludePattern := text;
    }

    /** The Add button of one list; the other two lists and boxes are left
        alone. */
    method Add(kind: RuleKind)
      modifies this
      ensures (Rules(kind), Input(kind)) == AddRule(old(Rules(kind)), old(Input(kind)))
      ensures kind != ExcludeDirs ==> excludeDirs == old(excludeDirs) && newExcludeDir == old(newExcludeDir)
      ensures kind != ExcludeFiles ==> excludeFiles == old(excludeFiles) && newExcludeFile == old(newExcludeFile)
      ensures kind != ExcludePatterns ==>
        excludePatterns == old(excludePatterns) && newExcludePattern == old(newExcludePattern)
    {
      match kind
      case ExcludeDirs => excludeDirs, newExcludeDir := AddRule(excludeDirs, newExcludeDir).0, AddRule(excludeDirs, newExcludeDir).1;
      case ExcludeFiles => excludeFiles, newExcludeFile := AddRule(excludeFiles, newExcludeFile).0, AddRule(excludeFiles, newExcludeFile).1;
      case ExcludePatterns =>
        excludePatterns, newExcludePattern := AddRule(excludePatterns, newExcludePattern).0, AddRule(excludePatterns, newExcludePattern).1;
    }

    /** The Remove button of the rule at `idx`; the other two lists and all
        boxes are left alone. */
    method Remove(kind: RuleKind, idx: nat)
      modifies this
      ensures Rules(kind) == RemoveAt(old(Rules(kind)), idx)
      ensures forall k :: k != kind ==> Rules(k) == old(Rules(k))
      ensures forall k :: Input(k) == old(Input(k))
    {
      match kind
      case ExcludeDirs => excludeDirs := RemoveAt(excludeDirs, idx);
      case ExcludeFiles => excludeFiles := RemoveAt(excludeFiles, idx);
      case ExcludePatterns => excludePatterns := RemoveAt(excludePatterns, idx);
    }

    /** The body of the Save request. */
    function SavePayload(): Json
      reads this
    {
      Payload(excludeDirs, excludeFiles, excludePatterns)
    }
  }

  // ---------------------------------------------------------------------
  // Properties

  /** The rule is added exactly when its trimmed text is non-empty and new,
      and then it is appended at the end and the box is cleared; otherwise
      list and box are unchanged. */
  lemma AddRuleIff(rules: seq<string>, input: string)
    ensures var (after, box) := AddRule(rules, input);
      && (after != rules <==> Trim(input) != "" && Trim(input) !in rules)
      && (after != rules ==> after == rules + [Trim(input)] && box == "")
      && (after == rules ==> box == input)
  {
    var (after, box) := AddRule(rules, input);
    if Trim(input) != "" && Trim(input) !in rules {
      assert |after| == |rules| + 1;
    }
  }

  /** Adding keeps a list free of duplicates. */
  lemma AddRuleKeepsNoDuplicates(rules: seq<string>, input: string)
    requires NoDuplicates(rules)
    ensures NoDuplicates(AddRule(rules, input).0)
  {
    var after := AddRule(rules, input).0;
    if after != rules {
      forall i, j | 0 <= i < j < |after| ensures after[i] != after[j] {
        if j == |rules| {
          assert after[i] == rules[i];
        }
      }
    }
  }

  /** Adding keeps every rule trimmed and non-empty. */
  lemma AddRuleKeepsTrimmed(rules: seq<string>, input: string)
    requires AllTrimmed(rules)
    ensures AllTrimmed(AddRule(rules, input).0)
  {
    var after := AddRule(rules, input).0;
    if after != rules {
      TrimSpec(input);
      forall i | 0 <= i < |after| ensures Trimmed(after[i]) {
        if i < |rules| {
          assert after[i] == rules[i];
        }
      }
    }
  }

  /** A duplicate-free list stays duplicate-free under any sequence of adds,
      and only ever grows at its end. */
  lemma {:induction false} AddAllKeepsNoDuplicates(rules: seq<string>, inputs: seq<string>)
    requires NoDuplicates(rules)
    ensures NoDuplicates(AddAll(rules, inputs))
    ensures |rules| <= |AddAll(rules, inputs)| && AddAll(rules, inputs)[..|rules|] == rules
    decreases |inputs|
  {
    if inputs != [] {
      var before := AddAll(rules, inputs[..|inputs| - 1]);
      AddAllKeepsNoDuplicates(rules, inputs[..|inputs| - 1]);
      AddRuleKeepsNoDuplicates(before, inputs[|inputs| - 1]);
      var after := AddAll(rules, inputs);
      if after != before {
        assert after[..|rules|] == before[..|rules|];
      }
    }
  }

  /** Remove deletes exactly the rule at `idx` and keeps the others in
      order. */
  lemma RemoveAtElements(rules: seq<string>, idx: nat)
    requires idx < |rules|
    ensures |RemoveAt(rules, idx)| == |rules| - 1
    ensures forall i :: 0 <= i < idx ==> RemoveAt(rules, idx)[i] == rules[i]
    ensures forall i :: idx <= i < |rules| - 1 ==> RemoveAt(rules, idx)[i] == rules[i + 1]
    ensures multiset(RemoveAt(rules, idx)) + multiset{rules[idx]} == multiset(rules)
  {
    assert rules == rules[..idx] + [rules[idx]] + rules[idx + 1..];
  }

  /** Removing keeps a list free of duplicates, and in a duplicate-free list
      the removed rule is gone. */
  lemma RemoveAtKeepsNoDuplicates(rules: seq<string>, idx: nat)
    requires NoDuplicates(rules) && idx < |rules|
    ensures NoDuplicates(RemoveAt(rules, idx))
    ensures rules[idx] !in RemoveAt(rules, idx)
  {
    var r := RemoveAt(rules, idx);
    RemoveAtElements(rules, idx);
    forall i, j | 0 <= i < j < |r| ensures r[i] != r[j] {
      var i' := if i < idx then i else i + 1;
      var j' := if j < idx then j else j + 1;
      assert r[i] == rules[i'] && r[j] == rules[j'];
    }
    forall i | 0 <= i < |r| ensures r[i] != rules[idx] {
      var i' := if i < idx then i else i + 1;
      assert r[i] == rules[i'];
    }
  }

  /** Removing the rule just added gives the list back. */
  lemma RemoveUndoesAdd(rules: seq<string>, input: string)
    ensures RemoveAt(AddRule(rules, input).0, |rules|) == rules
  {
    var after := AddRule(rules, input).0;
    if after != rules {
      assert after[..|rules|] == rules;
    }
  }

  /** What the Save button posts is already in the form `set_exclusions`
      writes: normalising it changes nothing. */
  lemma PayloadIsNormal(dirs: seq<string>, files: seq<string>, patterns: seq<string>)
    ensures Normalise(Payload(dirs, files, patterns).fields) == Payload(dirs, files, patterns).fields
  {
    var fields := Payload(dirs, files, patterns).fields;
    NormaliseKeysSpec(fields, RuleKeys);
    assert fields.Keys + (set k | k in RuleKeys) == fields.Keys;
  }
}
