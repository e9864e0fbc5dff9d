/** The server side of the exclusion manager (exclusion_manager_routes.py):
    reading the rules file, with a default when there is none, and saving a
    posted rules object after forcing its three rule keys to be lists. The
    rules file itself is a parameter: what `load_exclusions` finds on disk,
    and what `save_exclusions` would write. */
module ExclusionRoutes {
  import opened Strings

  /** A decoded JSON value. */
  datatype Json =
    | JNull
    | JBool(b: bool)
    | JNumber(n: int)
    | JString(s: string)
    | JArray(items: seq<Json>)
    | JObject(fields: map<string, Json>)

  /** The keys the loop of `set_exclusions` visits, in its order. */
  const RuleKeys: seq<string> := ["exclude_dirs", "exclude_files", "exclude_patterns"]

  datatype Response = Response(status: nat, body: Json)

  /** `load_exclusions`: the decoded file when there is one, otherwise three
      empty rule lists. */
  function LoadExclusions(file: Option<Json>): (r: Json)
    ensures file.None? ==> r.JObject? && r.fields.Keys == set k | k in RuleKeys
    ensures file.None? ==> forall k :: k in RuleKeys ==> r.fields[k] == JArray([])
    ensures file.Some? ==> r == file.value
  {
    match file
    case None => JObject(map["exclude_dirs" := JArray([]), "exclude_files" := JArray([]), "exclude_patterns" := JArray([])])
    case Some(data) => data
  }

  /** The object after the loop has visited `keys`, in order: a visited key
      that is missing or not a list is set to the empty list. */
  function NormaliseKeys(fields: map<string, Json>, keys: seq<string>): map<string, Json>
    decreases |keys|
  {
    if keys == [] then fields
    else
      var m := NormaliseKeys(fields, keys[..|keys| - 1]);
      var k := keys[|keys| - 1];
      if k !in m || !m[k].JArray? then m[k := JArray([])] else m
  }

  /** The object `set_exclusions` hands to `save_exclusions`. */
  function Normalise(fields: map<string, Json>): map<string, Json>
  {
    NormaliseKeys(fields, RuleKeys)
  }

  /** `set_exclusions` for the decoded request body `data`. `saved` is what
      is written to the rules file, `None` when nothing is written. */
  method SetExclusions(data: Json) returns (response: Response, saved: Option<Json>)
    ensures !data.JObject? ==>
      response == Response(400, JObject(map["error" := JString("Invalid data")])) && saved == None
    ensures data.JObject? ==>
      && response == Response(200, JObject(map["message" := JString("Exclusions updated successfully.")]))
      && saved == Some(JObject(Normalise(data.fields)))
  {
    if !data.JObject? {
      return Response(400, JObject(map["error" := JString("Invalid data")])), None;
    }
    var fields := data.fields;
    var i := 0;
    while i < |RuleKeys|
      invariant 0 <= i <= |RuleKeys|
      invariant fields == NormaliseKeys(data.fields, RuleKeys[..i])
    {
      var k := RuleKeys[i];
      assert RuleKeys[..i + 1][..i] == RuleKeys[..i];
      if k !in fields || !fields[k].JArray? {
        fields := fields[k := JArray([])];
      }
      i := i + 1;
    }
    assert RuleKeys[..|RuleKeys|] == RuleKeys;
    saved := Some(JObject(fields));
    response := Response(200, JObject(map["message" := JString("Exclusions updated successfully.")]));
  }

  /** What visiting `keys` does: visited keys become present and lists, a
      visited key that already held a list keeps it, any other visited key
      holds the empty list, and unvisited keys pass through unchanged. */
  lemma {:induction false} NormaliseKeysSpec(fields: map<string, Json>, keys: seq<string>)
    ensures var r := NormaliseKeys(fields, keys);
      && r.Keys == fields.Keys + (set k | k in keys)
      && (forall k :: k in keys && k in fields && fields[k].JArray? ==> r[k] == fields[k])
      && (forall k :: k in keys && (k !in fields || !fields[k].JArray?) ==> r[k] == JArray([]))
      && (forall k :: k in fields && k !in keys ==> r[k] == fields[k])
    decreases |keys|
  {
    if keys != [] {
      var init := keys[..|keys| - 1];
      var last := keys[|keys| - 1];
      NormaliseKeysSpec(fields, init);
      assert forall k :: k in keys <==> k in init || k == last;
    }
  }

  /** After `set_exclusions` each of the three rule keys is present and holds
      a list. */
  lemma NormaliseRuleKeysAreLists(fields: map<string, Json>)
    ensures forall k :: k in RuleKeys ==> k in Normalise(fields) && Normalise(fields)[k].JArray?
  {
    NormaliseKeysSpec(fields, RuleKeys);
  }

  /** A rule key that already held a list keeps that very list; one that was
      missing or held anything else becomes the empty list. */
  lemma NormaliseKeepsLists(fields: map<string, Json>, k: string)
    requires k in RuleKeys
    ensures k in Normalise(fields)
    ensures k in fields && fields[k].JArray? ==> Normalise(fields)[k] == fields[k]
    ensures !(k in fields && fields[k].JArray?) ==> Normalise(fields)[k] == JArray([])
  {
    NormaliseKeysSpec(fields, RuleKeys);
  }

  /** Keys other than the three pass through unchanged, and no key is added
      besides the three. */
  lemma NormalisePassesThrough(fields: map<string, Json>)
    ensures Normalise(fields).Keys == fields.Keys + (set k | k in RuleKeys)
    ensures forall k :: k in fields && k !in RuleKeys ==> Normalise(fields)[k] == fields[k]
  {
    NormaliseKeysSpec(fields, RuleKeys);
  }

  /** Normalising an already normalised object changes nothing. */
  lemma NormaliseIdempotent(fields: map<string, Json>)
    ensures Normalise(Normalise(fields)) == Normalise(fields)
  {
    var once := Normalise(fields);
    NormaliseKeysSpec(fields, RuleKeys);
    NormaliseKeysSpec(once, RuleKeys);
    assert once.Keys + (set k | k in RuleKeys) == once.Keys;
  }

  /** Saving the default that loading gives without a file writes it back
      unchanged. */
  lemma SaveDefaultUnchanged()
    ensures var d := LoadExclusions(None); Normalise(d.fields) == d.fields
  {
    var d := LoadExclusions(None);
    NormaliseKeysSpec(d.fields, RuleKeys);
  }
}
