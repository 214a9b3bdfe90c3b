/**
 Save admission of `app_definition_admission.rs`: classifying every captured
 Recipe, indexing the App entries it refers to, and deciding whether a complete
 snapshot exists. Parsing is a parameter; the captured directories are values.
 */
module Admission {
  import opened Wrappers
  import opened RecipeModel
  import opened AppSources

  datatype AppHeader = AppHeader(id: string, packageId: string)

  /** One captured catalog file: its path, exact bytes and filesystem identity. */
  datatype CapturedFile = CapturedFile(path: string, bytes: string, identity: nat)

  /** The YAML parsers, which are not part of this model. */
  datatype Parsers = Parsers(app: string -> Option<AppHeader>, recipe: string -> Option<Recipe>)

  // ---- Safe App ids -------------------------------------------------------------------

  predicate IsSegmentCharacter(c: char) {
    'a' <= c <= 'z' || '0' <= c <= '9'
  }

  predicate IsSeparator(c: char) {
    c == '.' || c == '_' || c == '-'
  }

  /** Lowercase alphanumeric segments joined by single separators. */
  ghost predicate IsSafeId(s: string) {
    && s != ""
    && (forall i :: 0 <= i < |s| ==> IsSegmentCharacter(s[i]) || IsSeparator(s[i]))
    && IsSegmentCharacter(s[0])
    && IsSegmentCharacter(s[|s| - 1])
    && forall i :: 0 < i < |s| && IsSeparator(s[i]) ==> !IsSeparator(s[i - 1])
  }

  method IsSafeAppId(value: string) returns (safe: bool)
    ensures safe <==> IsSafeId(value)
  {
    var segmentHasCharacter := false;
    for i := 0 to |value|
      invariant forall j :: 0 <= j < i ==> IsSegmentCharacter(value[j]) || IsSeparator(value[j])
      invariant i > 0 ==> IsSegmentCharacter(value[0])
      invariant forall j :: 0 < j < i && IsSeparator(value[j]) ==> !IsSeparator(value[j - 1])
      invariant segmentHasCharacter <==> i > 0 && IsSegmentCharacter(value[i - 1])
    {
      var character := value[i];
      if IsSegmentCharacter(character) {
        segmentHasCharacter := true;
      } else if IsSeparator(character) && segmentHasCharacter {
        segmentHasCharacter := false;
      } else {
        return false;
      }
    }
    safe := segmentHasCharacter;
  }

  // ---- Typed references, by direct scan -------------------------------------------------

  predicate NamesArtifact(a: Artifact, app: string, id: string) {
    a.AppArtifact? && a.appRef == app && a.artifact == id
  }

  /** An artifact of the App is bound by the Recipe. */
  ghost predicate ReferencesArtifact(recipe: Recipe, app: string, id: string) {
    exists e :: e in recipe.artifacts && NamesArtifact(e.value, app, id)
  }

  /** The target a condition operand names: an object whose only key is `app_target` with a string. */
  function OperandTarget(value: Json): Option<string> {
    if value.JsonObject? && |value.fields| == 1 && value.fields[0].key == "app_target"
       && value.fields[0].value.JsonString?
    then Some(value.fields[0].value.text)
    else None
  }

  predicate ConditionNames(c: Condition, id: string) {
    exists f :: f in c.params && OperandTarget(f.value) == Some(id)
  }

  /** A step names a target in a parameter or in a skip or verification condition. */
  ghost predicate StepNamesTarget(step: Step, id: string) {
    || (exists p :: p in step.params && p.value == AppTarget(id))
    || (exists c :: c in step.skipIf + step.verify && ConditionNames(c, id))
  }

  ghost predicate ReferencesTarget(recipe: Recipe, app: string, id: string) {
    || (recipe.config.Some? && recipe.config.value == Configuration(app, id))
    || (exists s :: s in recipe.steps && s.appRef == Some(app) && StepNamesTarget(s, id))
  }

  // ---- Classification -----------------------------------------------------------------------

  predicate ParamHasTarget(value: ParamValue) {
    match value
    case AppTarget(_) => true
    case Literal(json) => ContainsAppTargetKey(json)
    case Ref(_) => false
  }

  predicate HasAppTarget(step: Step) {
    || (exists p :: p in step.params && ParamHasTarget(p.value))
    || (exists c :: c in step.skipIf + step.verify && exists f :: f in c.params && ContainsAppTargetKey(f.value))
  }

  predicate SelectsPermissionSet(step: Step) {
    step.typeName == "grant_permissions" && Get(step.params, "permission_set").Some?
  }

  /** The owner of every App Target and permission set in the step is named. */
  predicate StepIsClassifiable(step: Step) {
    step.appRef.Some? || (!HasAppTarget(step) && !SelectsPermissionSet(step))
  }

  ghost predicate IsClassifiable(recipe: Recipe) {
    forall s :: s in recipe.steps ==> StepIsClassifiable(s)
  }

  ghost predicate StepAffects(recipe: Recipe, step: Step, app: string) {
    step.appRef == Some(app) || (step.typeName == "copy_files" && CopiesFrom(recipe, step, app))
  }

  predicate BindsArtifactOf(a: Artifact, app: string) {
    a.AppArtifact? && a.appRef == app
  }

  ghost predicate IsAffected(recipe: Recipe, app: string) {
    || (exists e :: e in recipe.artifacts && BindsArtifactOf(e.value, app))
    || (recipe.config.Some? && recipe.config.value.appRef == app)
    || (exists s :: s in recipe.steps && StepAffects(recipe, s, app))
  }

  /** The scan itself; `None` is the source's refusal to classify. */
  method ScanRecipe(recipe: Recipe, app: string) returns (affected: Option<bool>)
    ensures affected.Some? <==> IsClassifiable(recipe)
    ensures affected.Some? ==> (affected.value <==> IsAffected(recipe, app))
  {
    var found := (exists e :: e in recipe.artifacts && BindsArtifactOf(e.value, app))
                 || (recipe.config.Some? && recipe.config.value.appRef == app);
    for i := 0 to |recipe.steps|
      invariant forall j :: 0 <= j < i ==> StepIsClassifiable(recipe.steps[j])
      invariant found <==>
                || (exists e :: e in recipe.artifacts && BindsArtifactOf(e.value, app))
                || (recipe.config.Some? && recipe.config.value.appRef == app)
                || (exists j :: 0 <= j < i && StepAffects(recipe, recipe.steps[j], app))
    {
      var step := recipe.steps[i];
      if step.typeName == "copy_files" {
        var apps := CopySourceAppRefs(recipe, step);
        if app in apps {
          found := true;
        }
      }
      assert step in recipe.steps;
      if HasAppTarget(step) && step.appRef.None? {
        assert !StepIsClassifiable(step);
        return None;
      }
      if SelectsPermissionSet(step) && step.appRef.None? {
        assert !StepIsClassifiable(step);
        return None;
      }
      if step.appRef == Some(app) {
        found := true;
      }
    }
    affected := Some(found);
  }

  /** In terms of the Recipe's own entries. */
  method RecipeReferencesApp(recipe: Recipe, app: string) returns (affected: Option<bool>)
    ensures affected.Some? <==> IsClassifiable(recipe)
    ensures affected.Some? ==> (affected.value <==> IsAffected(recipe, app))
    ensures affected.Some? <==> OwnersAreNamed(recipe)
    ensures affected.Some? ==> (affected.value <==> Involves(recipe, app))
  {
    ClassifiableMeans(recipe);
    AffectedMeans(recipe, app);
    affected := ScanRecipe(recipe, app);
  }

  /** An unaffected Recipe has nothing for the index. */
  lemma UnaffectedRecipeRefersToNothing(recipe: Recipe, app: string, id: string)
    requires !IsAffected(recipe, app)
    ensures !ReferencesArtifact(recipe, app, id) && !ReferencesTarget(recipe, app, id)
  {
    forall s | s in recipe.steps ensures s.appRef != Some(app) {
      assert !StepAffects(recipe, s, app);
    }
    forall e | e in recipe.artifacts ensures !NamesArtifact(e.value, app, id) {
      assert !BindsArtifactOf(e.value, app);
    }
  }

  /** In a classified Recipe no target reference is left without an owner. */
  lemma ClassifiedTargetsHaveOwners(recipe: Recipe, step: Step, id: string)
    requires IsClassifiable(recipe) && step in recipe.steps && StepNamesTarget(step, id)
    ensures step.appRef.Some?
  {
    assert StepIsClassifiable(step);
    if exists p :: p in step.params && p.value == AppTarget(id) {
      var p :| p in step.params && p.value == AppTarget(id);
      assert ParamHasTarget(p.value);
    } else {
      var c :| c in step.skipIf + step.verify && ConditionNames(c, id);
      var f :| f in c.params && OperandTarget(f.value) == Some(id);
      assert f.value.fields[0] in f.value.fields;
      assert ContainsAppTargetKey(f.value);
    }
  }

  // ---- The reference index ---------------------------------------------------------------

  datatype References = References(artifacts: set<string>, targets: set<string>)

  /** What the index must hold once `recipe` has been added to it. */
  ghost predicate IndexAdds(before: References, after: References, recipe: Recipe, app: string) {
    && (forall id :: id in after.artifacts <==> id in before.artifacts || ReferencesArtifact(recipe, app, id))
    && (forall id :: id in after.targets <==> id in before.targets || ReferencesTarget(recipe, app, id))
  }

  method CaptureArtifacts(recipe: Recipe, app: string, before: set<string>) returns (artifacts: set<string>)
    ensures forall id :: id in artifacts <==> id in before || ReferencesArtifact(recipe, app, id)
  {
    artifacts := before;
    for i := 0 to |recipe.artifacts|
      invariant forall id :: id in artifacts <==>
                  id in before || exists j :: 0 <= j < i && NamesArtifact(recipe.artifacts[j].value, app, id)
    {
      var artifact := recipe.artifacts[i].value;
      if artifact.AppArtifact? && artifact.appRef == app {
        artifacts := artifacts + {artifact.artifact};
      }
    }
  }

  function TargetParams(params: seq<Entry<ParamValue>>): (ids: set<string>)
    ensures forall id :: id in ids <==> exists p :: p in params && p.value == AppTarget(id)
  {
    var ids := set p | p in params && p.value.AppTarget? :: p.value.targetId;
    assert forall id :: (exists p :: p in params && p.value == AppTarget(id)) ==> id in ids by {
      forall id | exists p :: p in params && p.value == AppTarget(id) ensures id in ids {
        var p :| p in params && p.value == AppTarget(id);
        assert p.value.targetId in ids;
      }
    }
    ids
  }

  function ConditionTargets(conditions: seq<Condition>): (ids: set<string>)
    ensures forall id :: id in ids <==> exists c :: c in conditions && ConditionNames(c, id)
  {
    set c, f | c in conditions && f in c.params && OperandTarget(f.value).Some? :: OperandTarget(f.value).value
  }

  method CaptureTargets(recipe: Recipe, app: string, before: set<string>) returns (targets: set<string>)
    ensures forall id :: id in targets <==> id in before || ReferencesTarget(recipe, app, id)
  {
    targets := before;
    if recipe.config.Some? && recipe.config.value.appRef == app {
      targets := targets + {recipe.config.value.target};
    }
    ghost var configured := targets;
    for i := 0 to |recipe.steps|
      invariant forall id :: id in targets <==>
                  id in configured
                  || exists j :: 0 <= j < i && recipe.steps[j].appRef == Some(app)
                                 && StepNamesTarget(recipe.steps[j], id)
    {
      var step := recipe.steps[i];
      if step.appRef == Some(app) {
        targets := targets + TargetParams(step.params) + ConditionTargets(step.skipIf + step.verify);
      }
    }
    assert forall id :: id in configured <==>
             id in before || (recipe.config.Some? && recipe.config.value == Configuration(app, id));
  }

  method CaptureDependentReferences(recipe: Recipe, app: string, before: References) returns (after: References)
    ensures IndexAdds(before, after, recipe, app)
  {
    var artifacts := CaptureArtifacts(recipe, app, before.artifacts);
    var targets := CaptureTargets(recipe, app, before.targets);
    after := References(artifacts, targets);
  }

  // ---- The whole inventory ----------------------------------------------------------------

  ghost predicate FileIsClassified(parsers: Parsers, file: CapturedFile) {
    parsers.recipe(file.bytes).Some? && IsClassifiable(parsers.recipe(file.bytes).value)
  }

  /** A captured Recipe, found by scanning every file, refers to the artifact or target. */
  ghost predicate SomeFileReferencesArtifact(parsers: Parsers, recipes: seq<CapturedFile>, app: string, id: string) {
    exists f :: f in recipes && parsers.recipe(f.bytes).Some?
                && ReferencesArtifact(parsers.recipe(f.bytes).value, app, id)
  }

  ghost predicate SomeFileReferencesTarget(parsers: Parsers, recipes: seq<CapturedFile>, app: string, id: string) {
    exists f :: f in recipes && parsers.recipe(f.bytes).Some?
                && ReferencesTarget(parsers.recipe(f.bytes).value, app, id)
  }

  ghost predicate IndexEqualsScan(parsers: Parsers, recipes: seq<CapturedFile>, app: string, index: References) {
    && (forall id :: id in index.artifacts <==> SomeFileReferencesArtifact(parsers, recipes, app, id))
    && (forall id :: id in index.targets <==> SomeFileReferencesTarget(parsers, recipes, app, id))
  }

  lemma ScanGrows(
      parsers: Parsers, seen: seq<CapturedFile>, file: CapturedFile, app: string, before: References, after: References)
    requires IndexEqualsScan(parsers, seen, app, before)
    requires parsers.recipe(file.bytes).Some?
    requires IndexAdds(before, after, parsers.recipe(file.bytes).value, app)
    ensures IndexEqualsScan(parsers, seen + [file], app, after)
  {
    var all := seen + [file];
    assert forall f :: f in all <==> f in seen || f == file;
    forall id ensures id in after.artifacts <==> SomeFileReferencesArtifact(parsers, all, app, id) {
      assert file in all;
    }
    forall id ensures id in after.targets <==> SomeFileReferencesTarget(parsers, all, app, id) {
      assert file in all;
    }
  }

  lemma UnaffectedAddsNothing(recipe: Recipe, app: string, index: References)
    requires !IsAffected(recipe, app)
    ensures IndexAdds(index, index, recipe, app)
  {
    forall id ensures !ReferencesArtifact(recipe, app, id) && !ReferencesTarget(recipe, app, id) {
      UnaffectedRecipeRefersToNothing(recipe, app, id);
    }
  }

  /**
   The inventory is complete exactly when every other App parses and every
   Recipe parses and is classified; the index then equals a direct scan of all
   captured Recipes, although only affected ones were visited.
   */
  method ValidateRecipeInventory(
      parsers: Parsers, app: string, apps: seq<CapturedFile>, openedPath: string, recipes: seq<CapturedFile>)
    returns (complete: bool, index: References)
    ensures complete <==>
            && (forall f :: f in apps && f.path != openedPath ==> parsers.app(f.bytes).Some?)
            && (forall f :: f in recipes ==> FileIsClassified(parsers, f))
    ensures complete <==>
            && (forall f :: f in apps && f.path != openedPath ==> parsers.app(f.bytes).Some?)
            && RecipesNameOwners(parsers, recipes)
    ensures complete ==> IndexEqualsScan(parsers, recipes, app, index)
  {
    ClassifiedFilesMean(parsers, recipes);
    index := References({}, {});
    for i := 0 to |apps|
      invariant forall j :: 0 <= j < i && apps[j].path != openedPath ==> parsers.app(apps[j].bytes).Some?
    {
      if apps[i].path != openedPath && parsers.app(apps[i].bytes).None? {
        return false, index;
      }
    }
    complete := true;
    for i := 0 to |recipes|
      invariant complete <==> forall j :: 0 <= j < i ==> FileIsClassified(parsers, recipes[j])
      invariant complete ==> IndexEqualsScan(parsers, recipes[..i], app, index)
    {
      var file := recipes[i];
      assert recipes[..i + 1] == recipes[..i] + [file];
      var recipe := parsers.recipe(file.bytes);
      if recipe.None? {
        complete := false;
        continue;
      }
      var affected := RecipeReferencesApp(recipe.value, app);
      if affected.None? {
        complete := false;
        continue;
      }
      ghost var before := index;
      if affected.value {
        index := CaptureDependentReferences(recipe.value, app, index);
      } else {
        UnaffectedAddsNothing(recipe.value, app, index);
      }
      if complete {
        ScanGrows(parsers, recipes[..i], file, app, before, index);
      }
    }
    assert recipes[..|recipes|] == recipes;
  }

  // ---- The save snapshot ---------------------------------------------------------------------

  datatype Context = Context(
    openedFile: CapturedFile,
    catalogIdentity: Option<AppHeader>,
    newCatalogApp: bool)

  /** One reading of the authored root; `None` is a directory that could not be captured. */
  datatype Disk = Disk(rootUsable: bool, apps: Option<seq<CapturedFile>>, recipes: Option<seq<CapturedFile>>,
                       openedFile: Option<CapturedFile>)

  datatype Snapshot = Snapshot(
    catalog: Option<(seq<CapturedFile>, seq<CapturedFile>)>,
    index: References)

  function AppPath(id: string): string {
    "apps/" + id + ".yaml"
  }

  predicate NeedsCatalog(context: Context) {
    context.catalogIdentity.Some? || context.newCatalogApp
  }

  /** What a snapshot establishes: nothing for a standalone file, all of this for a catalog document. */
  ghost predicate SnapshotIsExact(parsers: Parsers, app: string, context: Context, disk: Disk, snapshot: Snapshot) {
    if NeedsCatalog(context) then
      && disk.apps.Some? && disk.recipes.Some?
      && snapshot.catalog == Some((disk.apps.value, disk.recipes.value))
      && (context.catalogIdentity.Some? ==> context.openedFile in disk.apps.value)
      && (forall f :: f in disk.recipes.value ==> FileIsClassified(parsers, f))
      && IndexEqualsScan(parsers, disk.recipes.value, app, snapshot.index)
    else snapshot == Snapshot(None, References({}, {}))
  }

  function FileAt(files: seq<CapturedFile>, path: string): (r: Option<CapturedFile>)
    ensures r.Some? ==> r.value in files && r.value.path == path
  {
    if files == [] then None
    else if files[0].path == path then Some(files[0])
    else FileAt(files[1..], path)
  }

  /** The opened file is the catalog's own current file, every other App parses, and every Recipe is classified. */
  ghost predicate CatalogIsAdmissible(parsers: Parsers, context: Context, disk: Disk)
    requires context.catalogIdentity.Some?
  {
    var identity, file := context.catalogIdentity.value, context.openedFile;
    && disk.rootUsable && disk.apps.Some? && disk.recipes.Some?
    && file.path == AppPath(identity.id)
    && parsers.app(file.bytes) == Some(identity)
    && FileAt(disk.apps.value, file.path) == Some(file)
    && (forall f :: f in disk.apps.value && f.path != file.path ==> parsers.app(f.bytes).Some?)
    && (forall f :: f in disk.recipes.value ==> FileIsClassified(parsers, f))
  }

  /** A new catalog App needs a safe id, and a catalog whose Apps all parse and whose Recipes are all classified. */
  ghost predicate CreationIsAdmissible(parsers: Parsers, candidate: AppHeader, disk: Disk) {
    && disk.rootUsable && disk.apps.Some? && disk.recipes.Some?
    && IsSafeId(candidate.id)
    && (forall f :: f in disk.apps.value ==> parsers.app(f.bytes).Some?)
    && (forall f :: f in disk.recipes.value ==> FileIsClassified(parsers, f))
  }

  /** A catalog document cannot be saved as another one; a standalone file is always admitted. */
  ghost predicate SaveIsAdmissible(parsers: Parsers, candidate: AppHeader, context: Context, disk: Disk) {
    if context.catalogIdentity.Some? then !context.newCatalogApp && CatalogIsAdmissible(parsers, context, disk)
    else if context.newCatalogApp then CreationIsAdmissible(parsers, candidate, disk)
    else true
  }

  /** The opened file must be the one the catalog holds at its canonical path, with the captured identity. */
  method ConfirmOpenedFile(parsers: Parsers, identity: AppHeader, file: CapturedFile, apps: seq<CapturedFile>)
    returns (confirmed: bool)
    ensures confirmed <==>
              && file.path == AppPath(identity.id)
              && parsers.app(file.bytes) == Some(identity)
              && FileAt(apps, file.path) == Some(file)
  {
    if file.path != AppPath(identity.id) {
      return false;
    }
    if parsers.app(file.bytes) != Some(identity) {
      return false;
    }
    confirmed := FileAt(apps, file.path) == Some(file);
  }

  /** `check_competing_app_identities`: complete if every App but the opened one can be identified. */
  method CheckCompetingApps(parsers: Parsers, apps: seq<CapturedFile>, own: Option<string>) returns (complete: bool)
    ensures complete <==> forall f :: f in apps && own != Some(f.path) ==> parsers.app(f.bytes).Some?
  {
    complete := true;
    for i := 0 to |apps|
      invariant complete <==> forall j :: 0 <= j < i && own != Some(apps[j].path) ==> parsers.app(apps[j].bytes).Some?
    {
      if own != Some(apps[i].path) && parsers.app(apps[i].bytes).None? {
        complete := false;
      }
    }
  }

  /** Every destination and kind of document; the diagnostics pushed beside each refusal are left out. */
  method PrepareSaveSnapshot(parsers: Parsers, candidate: AppHeader, context: Context, disk: Disk)
    returns (snapshot: Option<Snapshot>)
    ensures snapshot.Some? <==> SaveIsAdmissible(parsers, candidate, context, disk)
    ensures snapshot.Some? ==> SnapshotIsExact(parsers, candidate.id, context, disk, snapshot.value)
    ensures snapshot.Some? <==> MayBeSaved(parsers, candidate, context, disk)
    ensures snapshot.Some? ==> SnapshotStates(parsers, candidate.id, context, disk, snapshot.value)
  {
    AdmissionMeans(parsers, candidate, context, disk);
    if context.newCatalogApp && context.catalogIdentity.Some? {
      return None;
    }
    if !NeedsCatalog(context) {
      return Some(Snapshot(None, References({}, {})));
    }
    if !disk.rootUsable || disk.apps.None? || disk.recipes.None? {
      return None;
    }
    var apps, recipes := disk.apps.value, disk.recipes.value;
    var file := context.openedFile;
    if context.catalogIdentity.Some? {
      var confirmed := ConfirmOpenedFile(parsers, context.catalogIdentity.value, file, apps);
      if !confirmed {
        return None;
      }
    } else {
      var safe := IsSafeAppId(candidate.id);
      if !safe {
        return None;
      }
    }
    var own := if context.catalogIdentity.Some? then Some(file.path) else None;
    var identified := CheckCompetingApps(parsers, apps, own);
    if !identified {
      return None;
    }
    var complete, index := ValidateRecipeInventory(parsers, candidate.id, apps, file.path, recipes);
    if !complete {
      return None;
    }
    snapshot := Some(Snapshot(Some((apps, recipes)), index));
    SnapshotMeans(parsers, candidate.id, context, disk, snapshot.value);
  }

  /** `verify_admission_snapshot`: a second reading must equal the captured one. */
  predicate DiskIsUnchanged(context: Context, snapshot: Snapshot, now: Disk) {
    && now.openedFile == Some(context.openedFile)
    && (snapshot.catalog.Some? ==>
          && now.apps == Some(snapshot.catalog.value.0)
          && now.recipes == Some(snapshot.catalog.value.1))
  }

  /** Admission of a save: capture, classify, then confirm that nothing moved meanwhile. */
  method AdmitSave(parsers: Parsers, candidate: AppHeader, context: Context, disk: Disk, again: Disk)
    returns (snapshot: Option<Snapshot>)
    ensures snapshot.Some? <==>
              && MayBeSaved(parsers, candidate, context, disk)
              && again.openedFile == Some(context.openedFile)
              && (NeedsCatalog(context) ==> again.apps == disk.apps && again.recipes == disk.recipes)
    ensures snapshot.Some? ==> SaveIsAdmissible(parsers, candidate, context, disk)
    ensures snapshot.Some? ==> SnapshotIsExact(parsers, candidate.id, context, disk, snapshot.value)
    ensures snapshot.Some? ==> SnapshotStates(parsers, candidate.id, context, disk, snapshot.value)
  {
    AdmissionMeans(parsers, candidate, context, disk);
    snapshot := PrepareSaveSnapshot(parsers, candidate, context, disk);
    if snapshot.Some? && !DiskIsUnchanged(context, snapshot.value, again) {
      snapshot := None;
    }
  }

  // ---- What admission decides, in terms of the Recipes' own entries ---------------------------

  /** An operand that is the object `{ "app_target": id }` and nothing else. */
  function TargetOperand(id: string): Json {
    JsonObject([JsonField("app_target", JsonString(id))])
  }

  ghost predicate MentionsTarget(step: Step, id: string) {
    || (exists p :: p in step.params && p.value == AppTarget(id))
    || (exists c, f :: (c in step.skipIf || c in step.verify) && f in c.params && f.value == TargetOperand(id))
  }

  ghost predicate RefersToTarget(recipe: Recipe, app: string, id: string) {
    || recipe.config == Some(Configuration(app, id))
    || exists step :: step in recipe.steps && step.appRef == Some(app) && MentionsTarget(step, id)
  }

  ghost predicate RefersToArtifact(recipe: Recipe, app: string, id: string) {
    exists e :: e in recipe.artifacts && e.value == AppArtifact(app, id)
  }

  /** A step that speaks of targets or permission sets, at whatever depth, has to say of which App. */
  ghost predicate NeedsOwner(step: Step) {
    || (exists p, id :: p in step.params && p.value == AppTarget(id))
    || (exists p, json :: p in step.params && p.value == Literal(json) && HasKeyInside(json, "app_target"))
    || (exists c, f :: (c in step.skipIf || c in step.verify) && f in c.params && HasKeyInside(f.value, "app_target"))
    || (step.typeName == "grant_permissions" && exists p :: p in step.params && p.key == "permission_set")
  }

  ghost predicate OwnersAreNamed(recipe: Recipe) {
    forall step :: step in recipe.steps && NeedsOwner(step) ==> step.appRef.Some?
  }

  /** The Recipe has to do with the App. */
  ghost predicate Involves(recipe: Recipe, app: string) {
    || (exists id :: RefersToArtifact(recipe, app, id))
    || (exists id :: recipe.config == Some(Configuration(app, id)))
    || (exists step :: step in recipe.steps && step.appRef == Some(app))
    || (exists step, reference ::
          step in recipe.steps && step.typeName == "copy_files"
          && IsFirst(step.params, "source", Ref(reference)) && ComesFrom(recipe, reference, app))
  }

  lemma OperandTargetMeans(value: Json, id: string)
    ensures OperandTarget(value) == Some(id) <==> value == TargetOperand(id)
  {
    if OperandTarget(value) == Some(id) {
      assert value.fields == [JsonField("app_target", JsonString(id))];
    }
  }

  lemma StepNamesTargetMeans(step: Step, id: string)
    ensures StepNamesTarget(step, id) <==> MentionsTarget(step, id)
  {
    forall value ensures OperandTarget(value) == Some(id) <==> value == TargetOperand(id) {
      OperandTargetMeans(value, id);
    }
    assert forall c :: c in step.skipIf + step.verify <==> c in step.skipIf || c in step.verify;
    if MentionsTarget(step, id) && !exists p :: p in step.params && p.value == AppTarget(id) {
      var c, f :| (c in step.skipIf || c in step.verify) && f in c.params && f.value == TargetOperand(id);
      assert ConditionNames(c, id);
    }
  }

  lemma ReferencesMean(recipe: Recipe, app: string, id: string)
    ensures ReferencesArtifact(recipe, app, id) <==> RefersToArtifact(recipe, app, id)
    ensures ReferencesTarget(recipe, app, id) <==> RefersToTarget(recipe, app, id)
  {
    forall step ensures StepNamesTarget(step, id) <==> MentionsTarget(step, id) {
      StepNamesTargetMeans(step, id);
    }
  }

  lemma AppTargetKeysMean(step: Step)
    ensures HasAppTarget(step) <==>
            || (exists p, id :: p in step.params && p.value == AppTarget(id))
            || (exists p, json :: p in step.params && p.value == Literal(json) && HasKeyInside(json, "app_target"))
            || (exists c, f ::
                  (c in step.skipIf || c in step.verify) && f in c.params && HasKeyInside(f.value, "app_target"))
  {
    forall value ensures ContainsAppTargetKey(value) <==> HasKeyInside(value, "app_target") {
      AppTargetKeyIsInside(value);
    }
    forall p: Entry<ParamValue>
      ensures ParamHasTarget(p.value) <==>
              || (exists id :: p.value == AppTarget(id))
              || (exists json :: p.value == Literal(json) && HasKeyInside(json, "app_target"))
    {
      assert p.value.AppTarget? ==> p.value == AppTarget(p.value.targetId);
      assert p.value.Literal? ==> p.value == Literal(p.value.value);
    }
    assert forall c :: c in step.skipIf + step.verify <==> c in step.skipIf || c in step.verify;
  }

  lemma PermissionSetMeans(step: Step)
    ensures SelectsPermissionSet(step) <==>
            step.typeName == "grant_permissions" && exists p :: p in step.params && p.key == "permission_set"
  {
    var found: Option<ParamValue> := Get(step.params, "permission_set");
    GetIsFirst(step.params, "permission_set", if found.Some? then found.value else AppTarget(""));
  }

  /** A Recipe is classified exactly if every step that needs an owner names one. */
  lemma ClassifiableMeans(recipe: Recipe)
    ensures IsClassifiable(recipe) <==> OwnersAreNamed(recipe)
  {
    forall step | step in recipe.steps
      ensures StepIsClassifiable(step) <==> (NeedsOwner(step) ==> step.appRef.Some?)
    {
      AppTargetKeysMean(step);
      PermissionSetMeans(step);
    }
  }

  lemma AffectedMeans(recipe: Recipe, app: string)
    ensures IsAffected(recipe, app) <==> Involves(recipe, app)
  {
    forall e: Entry<Artifact> ensures BindsArtifactOf(e.value, app) <==> exists id :: e.value == AppArtifact(app, id) {
      assert e.value.AppArtifact? ==> e.value == AppArtifact(e.value.appRef, e.value.artifact);
    }
    if exists e :: e in recipe.artifacts && BindsArtifactOf(e.value, app) {
      var e :| e in recipe.artifacts && BindsArtifactOf(e.value, app);
      assert RefersToArtifact(recipe, app, e.value.artifact);
    }
    if recipe.config.Some? {
      assert recipe.config.value == Configuration(recipe.config.value.appRef, recipe.config.value.target);
    }
    forall step ensures CopiesFrom(recipe, step, app) <==>
      exists reference :: IsFirst(step.params, "source", Ref(reference)) && ComesFrom(recipe, reference, app)
    {
      CopiesFromMeans(recipe, step, app);
    }
  }

  const SEGMENT_CHARACTERS: string := "abcdefghijklmnopqrstuvwxyz0123456789"

  /** Segments over that alphabet with single dots, underscores or hyphens between them. */
  ghost predicate IsJoinedSegments(s: string) {
    && s != "" && s[0] in SEGMENT_CHARACTERS
    && (|s| == 1
        || IsJoinedSegments(s[1..])
        || (|s| > 2 && s[1] in "._-" && IsJoinedSegments(s[2..])))
  }

  lemma CharactersMean(c: char)
    ensures IsSegmentCharacter(c) <==> c in SEGMENT_CHARACTERS
    ensures IsSeparator(c) <==> c in "._-"
  {
    LettersInOrder();
    if 'a' <= c <= 'z' {
      assert SEGMENT_CHARACTERS[c as int - 'a' as int] == c;
    } else if '0' <= c <= '9' {
      assert SEGMENT_CHARACTERS[26 + c as int - '0' as int] == c;
    }
  }

  lemma LettersInOrder()
    ensures |SEGMENT_CHARACTERS| == 36
    ensures forall i :: 0 <= i < 26 ==> SEGMENT_CHARACTERS[i] as int == 'a' as int + i
    ensures forall i :: 26 <= i < 36 ==> SEGMENT_CHARACTERS[i] as int == '0' as int + i - 26
  {
  }

  lemma {:induction false} SafeIdMeans(s: string)
    ensures IsSafeId(s) <==> IsJoinedSegments(s)
    decreases |s|
  {
    if s != "" {
      CharactersMean(s[0]);
      if |s| > 1 {
        CharactersMean(s[1]);
        SafeIdMeans(s[1..]);
        SafeIdStep(s);
        if |s| > 2 {
          SafeIdMeans(s[2..]);
        }
      }
    }
  }

  lemma SafeIdStep(s: string)
    requires |s| > 1
    ensures IsSafeId(s) <==>
            IsSegmentCharacter(s[0]) && (IsSafeId(s[1..]) || (|s| > 2 && IsSeparator(s[1]) && IsSafeId(s[2..])))
  {
    assert forall i :: 0 <= i < |s| - 1 ==> s[1..][i] == s[i + 1];
    assert |s| > 2 ==> forall i :: 0 <= i < |s| - 2 ==> s[2..][i] == s[i + 2];
    assert forall i :: 1 <= i < |s| ==> s[i] == s[1..][i - 1];
    assert |s| > 2 ==> forall i :: 2 <= i < |s| ==> s[i] == s[2..][i - 2];
  }

  /** The catalog holds this very file as its first one under its path. */
  ghost predicate IsFirstFile(files: seq<CapturedFile>, file: CapturedFile) {
    exists i :: 0 <= i < |files| && files[i] == file && forall j :: 0 <= j < i ==> files[j].path != file.path
  }

  lemma FirstFileOfRest(files: seq<CapturedFile>, file: CapturedFile)
    requires files != [] && files[0].path != file.path
    ensures IsFirstFile(files, file) <==> IsFirstFile(files[1..], file)
  {
    var rest := files[1..];
    if IsFirstFile(rest, file) {
      var i :| 0 <= i < |rest| && rest[i] == file && forall j :: 0 <= j < i ==> rest[j].path != file.path;
      assert files[i + 1] == file && forall j :: 0 < j < i + 1 ==> files[j] == rest[j - 1];
    }
    if IsFirstFile(files, file) {
      var i :| 0 <= i < |files| && files[i] == file && forall j :: 0 <= j < i ==> files[j].path != file.path;
      assert rest[i - 1] == file && forall j :: 0 <= j < i - 1 ==> rest[j] == files[j + 1];
    }
  }

  lemma {:induction false} FileAtMeans(files: seq<CapturedFile>, file: CapturedFile)
    ensures FileAt(files, file.path) == Some(file) <==> IsFirstFile(files, file)
  {
    if files != [] && files[0].path != file.path {
      FileAtMeans(files[1..], file);
      FirstFileOfRest(files, file);
    }
  }

  /** Every captured Recipe parses, and names the owner of every target and permission set it speaks of. */
  ghost predicate RecipesNameOwners(parsers: Parsers, recipes: seq<CapturedFile>) {
    forall f :: f in recipes ==> parsers.recipe(f.bytes).Some? && OwnersAreNamed(parsers.recipe(f.bytes).value)
  }

  /** Which saves are admitted. */
  ghost predicate MayBeSaved(parsers: Parsers, candidate: AppHeader, context: Context, disk: Disk) {
    var file := context.openedFile;
    match (context.catalogIdentity, context.newCatalogApp)
    case (None, false) => true
    case (Some(_), true) => false
    case (Some(identity), false) =>
      && disk.rootUsable && disk.apps.Some? && disk.recipes.Some?
      && file.path == "apps/" + identity.id + ".yaml" && parsers.app(file.bytes) == Some(identity)
      && IsFirstFile(disk.apps.value, file)
      && (forall f :: f in disk.apps.value && f.path != file.path ==> parsers.app(f.bytes).Some?)
      && RecipesNameOwners(parsers, disk.recipes.value)
    case (None, true) =>
      && disk.rootUsable && disk.apps.Some? && disk.recipes.Some?
      && IsJoinedSegments(candidate.id)
      && (forall f :: f in disk.apps.value ==> parsers.app(f.bytes).Some?)
      && RecipesNameOwners(parsers, disk.recipes.value)
  }

  /** What the snapshot of an admitted save holds. */
  ghost predicate SnapshotStates(parsers: Parsers, app: string, context: Context, disk: Disk, snapshot: Snapshot) {
    if context.catalogIdentity.None? && !context.newCatalogApp then snapshot == Snapshot(None, References({}, {}))
    else
      && disk.apps.Some? && disk.recipes.Some?
      && snapshot.catalog == Some((disk.apps.value, disk.recipes.value))
      && (forall id :: id in snapshot.index.artifacts <==>
            exists f :: f in disk.recipes.value && parsers.recipe(f.bytes).Some?
                        && RefersToArtifact(parsers.recipe(f.bytes).value, app, id))
      && (forall id :: id in snapshot.index.targets <==>
            exists f :: f in disk.recipes.value && parsers.recipe(f.bytes).Some?
                        && RefersToTarget(parsers.recipe(f.bytes).value, app, id))
  }

  lemma ClassifiedFilesMean(parsers: Parsers, recipes: seq<CapturedFile>)
    ensures (forall f :: f in recipes ==> FileIsClassified(parsers, f)) <==> RecipesNameOwners(parsers, recipes)
  {
    forall recipe ensures IsClassifiable(recipe) <==> OwnersAreNamed(recipe) {
      ClassifiableMeans(recipe);
    }
  }

  lemma AdmissionMeans(parsers: Parsers, candidate: AppHeader, context: Context, disk: Disk)
    ensures SaveIsAdmissible(parsers, candidate, context, disk) <==> MayBeSaved(parsers, candidate, context, disk)
  {
    SafeIdMeans(candidate.id);
    if disk.recipes.Some? { ClassifiedFilesMean(parsers, disk.recipes.value); }
    if disk.apps.Some? { FileAtMeans(disk.apps.value, context.openedFile); }
    if context.catalogIdentity.Some? {
      var id := context.catalogIdentity.value.id;
      assert AppPath(id) == "apps/" + id + ".yaml";
    }
  }

  lemma SnapshotMeans(parsers: Parsers, app: string, context: Context, disk: Disk, snapshot: Snapshot)
    requires SnapshotIsExact(parsers, app, context, disk, snapshot)
    ensures SnapshotStates(parsers, app, context, disk, snapshot)
  {
    forall recipe, id
      ensures ReferencesArtifact(recipe, app, id) <==> RefersToArtifact(recipe, app, id)
      ensures ReferencesTarget(recipe, app, id) <==> RefersToTarget(recipe, app, id)
    {
      ReferencesMean(recipe, app, id);
    }
  }
}
