/** The parts of a Recipe that decide which App Definitions it refers to, and the authored reference grammar. */
module RecipeModel {
  import opened Wrappers

  datatype Entry<V> = Entry(key: string, value: V)

  datatype Json =
    | JsonNull
    | JsonBool(flag: bool)
    | JsonNumber(text: string)
    | JsonString(text: string)
    | JsonArray(items: seq<Json>)
    | JsonObject(fields: seq<JsonField>)

  datatype JsonField = JsonField(key: string, value: Json)

  datatype ParamValue =
    | Ref(reference: string)
    | AppTarget(targetId: string)
    | Literal(value: Json)

  datatype Condition = Condition(typeName: string, params: seq<JsonField>)

  datatype Step = Step(
    id: string,
    typeName: string,
    appRef: Option<string>,
    skipIf: seq<Condition>,
    verify: seq<Condition>,
    params: seq<Entry<ParamValue>>)

  datatype Artifact =
    | RemoteFile
    | AppArtifact(appRef: string, artifact: string)

  datatype Configuration = Configuration(appRef: string, target: string)

  datatype Recipe = Recipe(
    id: string,
    config: Option<Configuration>,
    artifacts: seq<Entry<Artifact>>,
    artifactGroups: seq<Entry<seq<string>>>,
    steps: seq<Step>)

  function Get<V>(entries: seq<Entry<V>>, key: string): Option<V> {
    if entries == [] then None
    else if entries[0].key == key then Some(entries[0].value)
    else Get(entries[1..], key)
  }

  // ---- References ---------------------------------------------------------------------

  datatype RuntimeRef =
    | InputRef(targetId: string)
    | ArtifactField(targetId: string, field: string)
    | StepShorthand(targetId: string)
    | StepOutput(targetId: string, field: string)

  function StripPrefix(s: string, prefix: string): Option<string> {
    if prefix <= s then Some(s[|prefix|..]) else None
  }

  /** Split at the first occurrence of the separator. */
  function SplitOnce(s: string, separator: string): Option<(string, string)>
    requires separator != ""
  {
    if separator <= s then Some(("", s[|separator|..]))
    else if s == "" then None
    else
      var rest := SplitOnce(s[1..], separator);
      if rest.None? then None else Some(([s[0]] + rest.value.0, rest.value.1))
  }

  /** Split at the last dot. */
  function SplitLastDot(s: string): Option<(string, string)> {
    if s == "" then None
    else if s[|s| - 1] == '.' then Some((s[..|s| - 1], ""))
    else
      var rest := SplitLastDot(s[..|s| - 1]);
      if rest.None? then None else Some((rest.value.0, rest.value.1 + [s[|s| - 1]]))
  }

  function ParsedStep(rest: string): Option<RuntimeRef> {
    var output := SplitOnce(rest, ".outputs.");
    if output.Some? then
      if output.value.0 != "" && output.value.1 != "" then Some(StepOutput(output.value.0, output.value.1)) else None
    else if rest != "" then Some(StepShorthand(rest))
    else None
  }
  function ParsedArtifact(rest: string): Option<RuntimeRef> {
    var field := SplitLastDot(rest);
    if field.Some? && field.value.0 != "" && field.value.1 != ""
    then Some(ArtifactField(field.value.0, field.value.1))
    else None
  }
  function ParseReference(value: string): Option<RuntimeRef> {
    var input, step := StripPrefix(value, "inputs."), StripPrefix(value, "steps.");
    var artifact := StripPrefix(value, "artifacts.");
    if input.Some? then
      if input.value != "" then Some(InputRef(input.value)) else None
    else if step.Some? then ParsedStep(step.value)
    else if artifact.Some? then ParsedArtifact(artifact.value)
    else None
  }

  /** The step a reference names, if it names one. */
  function StepTarget(reference: string): Option<string> {
    match ParseReference(reference)
    case Some(StepShorthand(id)) => Some(id)
    case Some(StepOutput(id, _)) => Some(id)
    case _ => None
  }

  // ---- What a step selects ---------------------------------------------------------------

  /** The literal string members of a list parameter; other shapes and members are skipped. */
  function StringsIn(items: seq<Json>): seq<string> {
    if items == [] then []
    else if items[0].JsonString? then [items[0].text] + StringsIn(items[1..])
    else StringsIn(items[1..])
  }

  function LiteralStrings(step: Step, name: string): seq<string> {
    var param: Option<ParamValue> := Get(step.params, name);
    match param
    case Some(Literal(JsonArray(items))) => StringsIn(items)
    case _ => []
  }

  function GroupMembers(recipe: Recipe, groups: seq<string>): seq<string> {
    if groups == [] then []
    else
      var members := Get(recipe.artifactGroups, groups[0]);
      (if members.Some? then members.value else []) + GroupMembers(recipe, groups[1..])
  }

  function SelectedArtifacts(recipe: Recipe, step: Step): seq<string> {
    LiteralStrings(step, "artifacts") + GroupMembers(recipe, LiteralStrings(step, "artifact_groups"))
  }

  /** The references among a step's parameters, in order. */
  function References(params: seq<Entry<ParamValue>>): seq<string> {
    if params == [] then []
    else if params[0].value.Ref? then [params[0].value.reference] + References(params[1..])
    else References(params[1..])
  }

  /** Whether a JSON value contains an `app_target` key at any depth. */
  predicate ContainsAppTargetKey(value: Json) {
    match value
    case JsonObject(fields) => exists f :: f in fields && (f.key == "app_target" || ContainsAppTargetKey(f.value))
    case JsonArray(items) => exists i :: i in items && ContainsAppTargetKey(i)
    case _ => false
  }

  // ---- What the grammar accepts, as writing ----------------------------------------------------

  /** The text of a reference. */
  function Written(r: RuntimeRef): string {
    match r
    case InputRef(id) => "inputs." + id
    case StepShorthand(id) => "steps." + id
    case StepOutput(id, field) => "steps." + id + ".outputs." + field
    case ArtifactField(id, field) => "artifacts." + id + "." + field
  }

  predicate OccursAt(s: string, part: string, i: nat) {
    i + |part| <= |s| && s[i..i + |part|] == part
  }

  /** The references that have a text of their own: no empty part, and no earlier separator. */
  ghost predicate IsWritable(r: RuntimeRef) {
    match r
    case InputRef(id) => id != ""
    case StepShorthand(id) => id != "" && forall i: nat :: !OccursAt(id, ".outputs.", i)
    case StepOutput(id, field) =>
      id != "" && field != "" && forall i: nat :: i < |id| ==> !OccursAt(id + ".outputs." + field, ".outputs.", i)
    case ArtifactField(id, field) => id != "" && field != "" && '.' !in field
  }

  lemma OccursInRest(s: string, part: string, i: nat)
    requires s != "" && i > 0
    ensures OccursAt(s, part, i) <==> OccursAt(s[1..], part, i - 1)
  {
    if i + |part| <= |s| {
      assert s[1..][i - 1..i - 1 + |part|] == s[i..i + |part|];
    }
  }

  lemma {:induction false} SplitOnceMeans(s: string, separator: string)
    requires separator != ""
    ensures SplitOnce(s, separator).None? ==> forall i: nat :: !OccursAt(s, separator, i)
    ensures SplitOnce(s, separator).Some? ==>
              var (a, b) := SplitOnce(s, separator).value;
              s == a + separator + b && forall i: nat :: i < |a| ==> !OccursAt(s, separator, i)
  {
    if separator <= s {
      assert s == "" + separator + s[|separator|..];
    } else if s != "" {
      SplitOnceMeans(s[1..], separator);
      assert !OccursAt(s, separator, 0);
      forall i: nat | 0 < i ensures OccursAt(s, separator, i) <==> OccursAt(s[1..], separator, i - 1) {
        OccursInRest(s, separator, i);
      }
      if SplitOnce(s[1..], separator).Some? { SplitGrows(s, separator); }
    }
  }

  lemma SplitGrows(s: string, separator: string)
    requires separator != "" && s != "" && SplitOnce(s[1..], separator).Some?
    requires var (a, b) := SplitOnce(s[1..], separator).value; s[1..] == a + separator + b
    ensures var (a, b) := SplitOnce(s[1..], separator).value; s == [s[0]] + a + separator + b
  {
    var (a, b) := SplitOnce(s[1..], separator).value;
    HeadJoins(s, a, separator, b);
  }

  lemma HeadJoins(s: string, a: string, separator: string, b: string)
    requires s != "" && s[1..] == a + separator + b
    ensures s == [s[0]] + a + separator + b
  {
    assert s == [s[0]] + s[1..];
  }

  /** Only one split has no earlier separator. */
  lemma SplitOnceIsUnique(s: string, separator: string, a: string, b: string)
    requires separator != "" && s == a + separator + b
    requires forall i: nat :: i < |a| ==> !OccursAt(s, separator, i)
    ensures SplitOnce(s, separator) == Some((a, b))
  {
    SplitOnceMeans(s, separator);
    assert s[|a|..|a| + |separator|] == separator;
    assert OccursAt(s, separator, |a|);
    var (c, d) := SplitOnce(s, separator).value;
    assert s[|c|..|c| + |separator|] == separator;
    assert OccursAt(s, separator, |c|);
    assert |a| == |c|;
    assert a == s[..|a|] == c && b == s[|a| + |separator|..] == d;
  }

  lemma {:induction false} SplitLastDotMeans(s: string)
    ensures SplitLastDot(s).None? ==> '.' !in s
    ensures SplitLastDot(s).Some? ==>
              var (a, b) := SplitLastDot(s).value; s == a + "." + b && '.' !in b
  {
    if s != "" {
      var init, last := s[..|s| - 1], s[|s| - 1];
      assert s == init + [last];
      if last == '.' {
        assert s == init + "." + "";
      } else {
        SplitLastDotMeans(init);
      }
    }
  }

  lemma SplitLastDotIsUnique(s: string, a: string, b: string)
    requires s == a + "." + b && '.' !in b
    ensures SplitLastDot(s) == Some((a, b))
  {
    SplitLastDotMeans(s);
    assert s[|a|] == '.';
    var (c, d) := SplitLastDot(s).value;
    assert s[|c|] == '.';
    assert forall k :: |a| < k < |s| ==> s[k] == b[k - |a| - 1] && s[k] in b;
    assert forall k :: |c| < k < |s| ==> s[k] == d[k - |c| - 1] && s[k] in d;
    assert |a| == |c|;
    assert a == s[..|a|] == c && b == s[|a| + 1..] == d;
  }

  lemma StripPrefixMeans(value: string, prefix: string)
    ensures StripPrefix(value, prefix).None? ==> forall rest :: value != prefix + rest
    ensures StripPrefix(value, prefix).Some? ==> value == prefix + StripPrefix(value, prefix).value
    ensures forall rest :: value == prefix + rest ==> StripPrefix(value, prefix) == Some(rest)
  {
  }

  /** The families of references start differently. */
  lemma FamiliesDiffer(a: string, b: string, c: string)
    ensures "inputs." + a != "steps." + b && "inputs." + a != "artifacts." + c && "steps." + b != "artifacts." + c
  {
    assert ("inputs." + a)[0] == 'i' && ("steps." + b)[0] == 's' && ("artifacts." + c)[0] == 'a';
  }

  /** What the text says after its family. */
  function AfterFamily(r: RuntimeRef): string {
    match r
    case InputRef(id) => id
    case StepShorthand(id) => id
    case StepOutput(id, field) => id + ".outputs." + field
    case ArtifactField(id, field) => id + "." + field
  }

  lemma WrittenInFamily(r: RuntimeRef)
    ensures r.InputRef? ==> Written(r) == "inputs." + AfterFamily(r)
    ensures r.StepShorthand? || r.StepOutput? ==> Written(r) == "steps." + AfterFamily(r)
    ensures r.ArtifactField? ==> Written(r) == "artifacts." + AfterFamily(r)
  {
  }


  lemma ParsedStepMeans(rest: string, r: RuntimeRef)
    ensures ParsedStep(rest) == Some(r) <==>
            (r.StepShorthand? || r.StepOutput?) && rest == AfterFamily(r) && IsWritable(r)
  {
    SplitOnceMeans(rest, ".outputs.");
    if r.StepOutput? && rest == AfterFamily(r) && IsWritable(r) {
      SplitOnceIsUnique(rest, ".outputs.", r.targetId, r.field);
    }
    if r.StepShorthand? && rest == AfterFamily(r) && IsWritable(r) && SplitOnce(rest, ".outputs.").Some? {
      var (a, b) := SplitOnce(rest, ".outputs.").value;
      SeparatorOccurs(rest, a, ".outputs.", b);
    }
  }

  lemma SeparatorOccurs(s: string, a: string, separator: string, b: string)
    requires s == a + separator + b
    ensures OccursAt(s, separator, |a|)
  {
    assert s[|a|..|a| + |separator|] == separator;
  }


  lemma ParsedArtifactMeans(rest: string, r: RuntimeRef)
    ensures ParsedArtifact(rest) == Some(r) <==> r.ArtifactField? && rest == AfterFamily(r) && IsWritable(r)
  {
    SplitLastDotMeans(rest);
    if r.ArtifactField? && rest == AfterFamily(r) && IsWritable(r) {
      SplitLastDotIsUnique(rest, r.targetId, r.field);
    }
  }

  /** Parsing is the exact inverse of writing: a text parses to the one reference it writes, or to none. */
  lemma ParseReferenceIff(value: string, r: RuntimeRef)
    ensures ParseReference(value) == Some(r) <==> value == Written(r) && IsWritable(r)
  {
    WrittenInFamily(r);
    StripPrefixMeans(value, "inputs.");
    StripPrefixMeans(value, "steps.");
    StripPrefixMeans(value, "artifacts.");
    var input, step := StripPrefix(value, "inputs."), StripPrefix(value, "steps.");
    var artifact := StripPrefix(value, "artifacts.");
    if input.Some? {
      FamiliesDiffer(input.value, AfterFamily(r), AfterFamily(r));
    } else if step.Some? {
      FamiliesDiffer(AfterFamily(r), step.value, AfterFamily(r));
      ParsedStepMeans(step.value, r);
    } else if artifact.Some? {
      FamiliesDiffer(AfterFamily(r), AfterFamily(r), artifact.value);
      ParsedArtifactMeans(artifact.value, r);
    }
  }

  // ---- What the other readers find ---------------------------------------------------------------

  /** The first entry under a key. */
  ghost predicate IsFirst<V>(entries: seq<Entry<V>>, key: string, value: V) {
    exists i :: 0 <= i < |entries| && entries[i] == Entry(key, value)
                && forall j :: 0 <= j < i ==> entries[j].key != key
  }

  lemma {:induction false} GetIsFirst<V(!new)>(entries: seq<Entry<V>>, key: string, value: V)
    ensures Get(entries, key) == Some(value) <==> IsFirst(entries, key, value)
    ensures Get(entries, key).None? <==> forall e :: e in entries ==> e.key != key
  {
    if entries != [] {
      var rest := entries[1..];
      GetIsFirst(rest, key, value);
      assert entries == [entries[0]] + rest;
      if entries[0].key != key {
        if IsFirst(rest, key, value) {
          var i :| 0 <= i < |rest| && rest[i] == Entry(key, value) && forall j :: 0 <= j < i ==> rest[j].key != key;
          assert entries[i + 1] == Entry(key, value);
          assert forall j :: 0 <= j < i + 1 ==> entries[j].key != key;
        }
        if IsFirst(entries, key, value) {
          var i :| 0 <= i < |entries| && entries[i] == Entry(key, value)
                   && forall j :: 0 <= j < i ==> entries[j].key != key;
          assert rest[i - 1] == Entry(key, value);
          assert forall j :: 0 <= j < i - 1 ==> rest[j].key != key by {
            forall j | 0 <= j < i - 1 ensures rest[j].key != key { assert rest[j] == entries[j + 1]; }
          }
        }
      }
    }
  }

  lemma {:induction false} StringsInMeans(items: seq<Json>, text: string)
    ensures text in StringsIn(items) <==> JsonString(text) in items
  {
    if items != [] {
      StringsInMeans(items[1..], text);
      assert items == [items[0]] + items[1..];
    }
  }

  lemma {:induction false} GroupMembersMean(recipe: Recipe, groups: seq<string>, id: string)
    ensures id in GroupMembers(recipe, groups) <==>
            exists group, members :: group in groups && IsFirst(recipe.artifactGroups, group, members) && id in members
  {
    if groups != [] {
      GroupMembersMean(recipe, groups[1..], id);
      assert groups == [groups[0]] + groups[1..];
      var found := Get(recipe.artifactGroups, groups[0]);
      if found.Some? { GetIsFirst(recipe.artifactGroups, groups[0], found.value); }
      forall members | IsFirst(recipe.artifactGroups, groups[0], members) ensures found == Some(members) {
        GetIsFirst(recipe.artifactGroups, groups[0], members);
      }
    }
  }

  /** A literal list parameter holds this string. */
  ghost predicate ListsText(step: Step, name: string, text: string) {
    exists items :: IsFirst(step.params, name, Literal(JsonArray(items))) && JsonString(text) in items
  }

  lemma LiteralStringsMean(step: Step, name: string, text: string)
    ensures text in LiteralStrings(step, name) <==> ListsText(step, name, text)
  {
    var param := Get(step.params, name);
    if param.Some? {
      GetIsFirst(step.params, name, param.value);
    }
    forall items | IsFirst(step.params, name, Literal(JsonArray(items)))
      ensures param == Some(Literal(JsonArray(items)))
    {
      GetIsFirst(step.params, name, Literal(JsonArray(items)));
    }
    if param.Some? && param.value.Literal? && param.value.value.JsonArray? {
      StringsInMeans(param.value.value.items, text);
    }
  }

  /** A step selects an artifact by listing it, or by listing a group whose first definition holds it. */
  ghost predicate Selects(recipe: Recipe, step: Step, id: string) {
    || ListsText(step, "artifacts", id)
    || exists group, members ::
         ListsText(step, "artifact_groups", group) && IsFirst(recipe.artifactGroups, group, members) && id in members
  }

  lemma SelectedArtifactsMean(recipe: Recipe, step: Step, id: string)
    ensures id in SelectedArtifacts(recipe, step) <==> Selects(recipe, step, id)
  {
    LiteralStringsMean(step, "artifacts", id);
    GroupMembersMean(recipe, LiteralStrings(step, "artifact_groups"), id);
    forall group
      ensures group in LiteralStrings(step, "artifact_groups") <==> ListsText(step, "artifact_groups", group)
    {
      LiteralStringsMean(step, "artifact_groups", group);
    }
  }

  lemma {:induction false} ReferencesMean(params: seq<Entry<ParamValue>>, reference: string)
    ensures reference in References(params) <==> exists p :: p in params && p.value == Ref(reference)
  {
    if params != [] {
      ReferencesMean(params[1..], reference);
      assert params == [params[0]] + params[1..];
    }
  }

  /** What stands at a place inside a JSON value: each number picks a member or a field. */
  function Inside(value: Json, place: seq<nat>): Option<Json>
    decreases |place|
  {
    if place == [] then Some(value)
    else
      match value
      case JsonArray(items) => if place[0] < |items| then Inside(items[place[0]], place[1..]) else None
      case JsonObject(fields) => if place[0] < |fields| then Inside(fields[place[0]].value, place[1..]) else None
      case _ => None
  }

  ghost predicate HasField(value: Json, key: string) {
    value.JsonObject? && exists f :: f in value.fields && f.key == key
  }

  /** At some depth there is an object with that key. */
  ghost predicate HasKeyInside(value: Json, key: string) {
    exists place, found :: Inside(value, place) == Some(found) && HasField(found, key)
  }

  lemma {:induction false} AppTargetKeyIsInside(value: Json)
    ensures ContainsAppTargetKey(value) <==> HasKeyInside(value, "app_target")
    decreases value
  {
    match value
    case JsonObject(fields) =>
      forall f | f in fields ensures ContainsAppTargetKey(f.value) <==> HasKeyInside(f.value, "app_target") {
        AppTargetKeyIsInside(f.value);
      }
      ObjectInside(fields, "app_target");
    case JsonArray(items) =>
      forall i | i in items ensures ContainsAppTargetKey(i) <==> HasKeyInside(i, "app_target") {
        AppTargetKeyIsInside(i);
      }
      ArrayInside(items, "app_target");
    case _ =>
      ScalarInside(value, "app_target");
  }

  lemma ObjectInside(fields: seq<JsonField>, key: string)
    ensures HasKeyInside(JsonObject(fields), key) <==>
            exists f :: f in fields && (f.key == key || HasKeyInside(f.value, key))
  {
    var value := JsonObject(fields);
    if HasKeyInside(value, key) {
      var place, found :| Inside(value, place) == Some(found) && HasField(found, key);
      if place != [] {
        var f := fields[place[0]];
        assert Inside(f.value, place[1..]) == Some(found);
        assert f in fields && HasKeyInside(f.value, key);
      }
    }
    if exists f :: f in fields && (f.key == key || HasKeyInside(f.value, key)) {
      var k :| 0 <= k < |fields| && (fields[k].key == key || HasKeyInside(fields[k].value, key));
      if fields[k].key == key {
        assert Inside(value, []) == Some(value) && fields[k] in fields;
      } else {
        var place, found :| Inside(fields[k].value, place) == Some(found) && HasField(found, key);
        assert ([k] + place)[1..] == place;
        assert Inside(value, [k] + place) == Some(found);
      }
    }
  }

  lemma ArrayInside(items: seq<Json>, key: string)
    ensures HasKeyInside(JsonArray(items), key) <==> exists i :: i in items && HasKeyInside(i, key)
  {
    var value := JsonArray(items);
    if HasKeyInside(value, key) {
      var place, found :| Inside(value, place) == Some(found) && HasField(found, key);
      var i := items[place[0]];
      assert Inside(i, place[1..]) == Some(found);
      assert i in items && HasKeyInside(i, key);
    }
    if exists i :: i in items && HasKeyInside(i, key) {
      var k :| 0 <= k < |items| && HasKeyInside(items[k], key);
      var place, found :| Inside(items[k], place) == Some(found) && HasField(found, key);
      assert ([k] + place)[1..] == place;
      assert Inside(value, [k] + place) == Some(found);
    }
  }

  lemma ScalarInside(value: Json, key: string)
    requires !value.JsonObject? && !value.JsonArray?
    ensures !HasKeyInside(value, key)
  {
  }
}
