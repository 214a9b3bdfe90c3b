/**
 The editable App Definition document of `app_definition_document.rs`: its
 undo and redo stacks, its fixed catalog identity, and the deletion guard that
 rests on save admission. Emission, validation and parsing are parameters.
 */
module AppDocument {
  import opened Wrappers
  import opened AppModel
  import opened EditHistory
  import opened Admission

  datatype Content = Content(app: App, yaml: string, diagnostics: seq<string>)

  datatype CatalogIdentity = CatalogIdentity(id: string, packageId: string, path: string, authoredRoot: string)

  /** The YAML emitter, validators and parsers, which are not part of this model. */
  datatype Editor = Editor(
    emit: App -> Option<string>,
    diagnose: App -> seq<string>,
    changedFieldIsValid: (App, Command) -> bool,
    parse: string -> Option<App>,
    parsers: Parsers)

  predicate MatchesIdentity(c: Content, identity: CatalogIdentity) {
    c.app.id == identity.id && c.app.packageId == identity.packageId
  }

  function Matching(stack: seq<Content>, identity: CatalogIdentity): (r: seq<Content>)
    ensures forall c :: c in r ==> MatchesIdentity(c, identity)
    ensures (forall c :: c in stack ==> MatchesIdentity(c, identity)) ==> r == stack
  {
    if stack == [] then []
    else
      var init, last := stack[..|stack| - 1], stack[|stack| - 1];
      assert stack == init + [last];
      if MatchesIdentity(last, identity) then Matching(init, identity) + [last] else Matching(init, identity)
  }

  /** Filtering drops exactly the snapshots of other identities. */
  lemma {:induction false} MatchingIsExact(stack: seq<Content>, identity: CatalogIdentity, c: Content)
    ensures c in Matching(stack, identity) <==>
            c in stack && c.app.id == identity.id && c.app.packageId == identity.packageId
  {
    if stack != [] {
      var init, last := stack[..|stack| - 1], stack[|stack| - 1];
      assert stack == init + [last];
      MatchingIsExact(init, identity, c);
    }
  }

  /** The stack from its first restorable snapshot down. */
  function Usable(stack: seq<Content>, identity: Option<CatalogIdentity>): (r: seq<Content>)
    ensures r != [] && identity.Some? ==> MatchesIdentity(r[|r| - 1], identity.value)
  {
    if stack == [] || identity.None? || MatchesIdentity(stack[|stack| - 1], identity.value) then stack
    else Usable(stack[..|stack| - 1], identity)
  }

  /** Only snapshots of another id or package id are dropped, from the top, and none below one that can be restored. */
  lemma {:induction false} UsableDropsOnlyForeign(stack: seq<Content>, identity: Option<CatalogIdentity>)
    ensures var left := Usable(stack, identity);
            && left <= stack && (identity.None? ==> left == stack)
            && (forall i :: |left| <= i < |stack| ==>
                  stack[i].app.id != identity.value.id || stack[i].app.packageId != identity.value.packageId)
            && (identity.Some? && left != [] ==>
                  var top := left[|left| - 1].app;
                  top.id == identity.value.id && top.packageId == identity.value.packageId)
  {
    if stack != [] {
      UsableDropsOnlyForeign(stack[..|stack| - 1], identity);
    }
  }

  function BackSkipping(c: Cursor<Content>, identity: Option<CatalogIdentity>): Cursor<Content> {
    Back(c.(past := Usable(c.past, identity)))
  }

  function ForwardSkipping(c: Cursor<Content>, identity: Option<CatalogIdentity>): Cursor<Content> {
    Forward(c.(future := Usable(c.future, identity)))
  }

  /** Nothing is skipped in a stack whose snapshots all carry the identity. */
  lemma AllMatchingIsUsable(stack: seq<Content>, identity: Option<CatalogIdentity>)
    requires identity.Some? ==> forall c :: c in stack ==> MatchesIdentity(c, identity.value)
    ensures Usable(stack, identity) == stack
  {
    assert stack != [] ==> stack[|stack| - 1] in stack;
  }

  datatype Outcome = Changed | Unchanged | Rejected

  class Document {
    const editor: Editor
    var path: string
    var authoredRoot: Option<string>
    var catalogIdentity: Option<CatalogIdentity>
    var app: App
    var currentYaml: string
    var savedYaml: string
    var openedFile: CapturedFile
    var diagnostics: seq<string>
    var undoStack: seq<Content>
    var redoStack: seq<Content>

    ghost function History(): Cursor<Content>
      reads this
    {
      Cursor(undoStack, Content(app, currentYaml, diagnostics), redoStack)
    }

    /** A catalog document carries its fixed identity now and in every stacked snapshot. */
    ghost predicate Valid()
      reads this
    {
      catalogIdentity.Some? ==>
        && app.id == catalogIdentity.value.id && app.packageId == catalogIdentity.value.packageId
        && (forall c :: c in undoStack ==> MatchesIdentity(c, catalogIdentity.value))
        && (forall c :: c in redoStack ==> MatchesIdentity(c, catalogIdentity.value))
    }

    predicate CanUndo()
      reads this
    {
      undoStack != []
    }

    predicate CanRedo()
      reads this
    {
      redoStack != []
    }

    predicate IsDirty()
      reads this
    {
      currentYaml != savedYaml
    }

    constructor (
        editor: Editor, file: CapturedFile, app: App, yaml: string,
        chosenRoot: Option<string>, physicalRoot: Option<string>)
      requires editor.emit(app) == Some(yaml)
      ensures Valid() && this.editor == editor && this.app == app && path == file.path && openedFile == file
      ensures History() == Cursor([], Content(app, yaml, editor.diagnose(app)), []) && !IsDirty()
      ensures authoredRoot == if chosenRoot.Some? then chosenRoot else physicalRoot
      ensures catalogIdentity == if physicalRoot.None? then None
                                 else Some(CatalogIdentity(app.id, app.packageId, file.path, physicalRoot.value))
    {
      this.editor := editor;
      path, authoredRoot := file.path, if chosenRoot.Some? then chosenRoot else physicalRoot;
      catalogIdentity := if physicalRoot.None? then None
                         else Some(CatalogIdentity(app.id, app.packageId, file.path, physicalRoot.value));
      this.app, currentYaml, savedYaml := app, yaml, yaml;
      openedFile, diagnostics := file, editor.diagnose(app);
      undoStack, redoStack := [], [];
    }

    ghost function SaveContext(): Context
      reads this
      requires catalogIdentity.Some?
    {
      Context(openedFile, Some(AppHeader(catalogIdentity.value.id, catalogIdentity.value.packageId)), false)
    }

    /** The catalog admits a save, did not move between two readings, and nowhere refers to the removed entry. */
    ghost predicate DeletionIsSafe(c: Command, disk: Disk, again: Disk)
      reads this
      requires catalogIdentity.Some?
    {
      var identity := catalogIdentity.value;
      && MayBeSaved(editor.parsers, AppHeader(identity.id, identity.packageId), SaveContext(), disk)
      && again.openedFile == Some(openedFile) && again.apps == disk.apps && again.recipes == disk.recipes
      && NoRecipeRefersTo(editor.parsers, disk, identity.id, c)
    }

    /** The guard before a deletion in a catalog document. */
    method AdmitDeletion(header: AppHeader, c: Command, disk: Disk, again: Disk) returns (admitted: bool)
      requires catalogIdentity.Some? && header.id == catalogIdentity.value.id && (c.RemoveArtifact? || c.RemoveTarget?)
      ensures admitted <==> DeletionIsSafe(c, disk, again)
    {
      var identity := catalogIdentity.value;
      var context := Context(openedFile, Some(AppHeader(identity.id, identity.packageId)), false);
      var snapshot := AdmitSave(editor.parsers, header, context, disk, again);
      if snapshot.None? {
        return false;
      }
      UnreferencedMeansFree(editor.parsers, context, disk, c);
      if c.RemoveArtifact? {
        return c.artifactId !in snapshot.value.index.artifacts;
      }
      return c.targetId !in snapshot.value.index.targets;
    }

    /** The content a command proposes: none when the identity is fixed, the command fails or emission does. */
    ghost function Proposal(c: Command): Option<(App, string)>
      reads this
    {
      if catalogIdentity.Some? && ChangesIdentity(c) then None
      else
        var candidate := ApplyCommand(app, c);
        if candidate.None? then None
        else
          var yaml := editor.emit(candidate.value);
          if yaml.None? then None else Some((candidate.value, yaml.value))
    }

    /**
     A command changes the document exactly when it proposes a different valid
     content and, for a deletion in a catalog document, the deletion is safe.
     It then extends the history by one; otherwise nothing changes.
     */
    method ApplyTypedCommand(c: Command, disk: Disk, again: Disk) returns (outcome: Outcome)
      requires Valid()
      modifies this
      ensures Valid()
      ensures outcome.Changed? <==>
                && old(Proposal(c)).Some?
                && old(Proposal(c)).value.1 != old(currentYaml)
                && (c.RemoveArtifact? || c.RemoveTarget? || c.RemoveMetadataEntry? || c.ReorderArtifact?
                    || c.ReorderTarget? || editor.changedFieldIsValid(old(Proposal(c)).value.0, c))
                && (old(catalogIdentity).Some? && (c.RemoveArtifact? || c.RemoveTarget?) ==>
                      old(DeletionIsSafe(c, disk, again)))
      ensures outcome.Changed? ==>
                var candidate := old(Proposal(c)).value;
                History() == Change(old(History()), Content(candidate.0, candidate.1, editor.diagnose(candidate.0)))
      ensures outcome.Changed? && old(catalogIdentity).Some? ==>
                NoRecipeRefersTo(editor.parsers, disk, old(catalogIdentity).value.id, c)
      ensures outcome.Unchanged? <==> old(Proposal(c)).Some? && old(Proposal(c)).value.1 == old(currentYaml)
      ensures !outcome.Changed? ==> History() == old(History())
      ensures catalogIdentity == old(catalogIdentity) && savedYaml == old(savedYaml) && openedFile == old(openedFile)
    {
      if catalogIdentity.Some? && ChangesIdentity(c) {
        return Rejected;
      }
      var applied := ApplyCommand(app, c);
      if applied.None? {
        return Rejected;
      }
      var candidate := applied.value;
      var emitted := editor.emit(candidate);
      if emitted.None? {
        return Rejected;
      }
      var yaml := emitted.value;
      if yaml == currentYaml {
        return Unchanged;
      }
      var unscoped := c.RemoveArtifact? || c.RemoveTarget? || c.RemoveMetadataEntry? || c.ReorderArtifact?
                      || c.ReorderTarget?;
      if !unscoped && !editor.changedFieldIsValid(candidate, c) {
        return Rejected;
      }
      if catalogIdentity.Some? && (c.RemoveArtifact? || c.RemoveTarget?) {
        var admitted := AdmitDeletion(AppHeader(candidate.id, candidate.packageId), c, disk, again);
        if !admitted {
          return Rejected;
        }
      }
      undoStack := undoStack + [Content(app, currentYaml, diagnostics)];
      redoStack := [];
      app, currentYaml, diagnostics := candidate, yaml, editor.diagnose(candidate);
      outcome := Changed;
    }

    /** The pop loop: snapshots of another identity are dropped until one can be restored. */
    method Undo() returns (undone: bool)
      modifies this
      ensures History() == old(BackSkipping(History(), catalogIdentity))
      ensures undone <==> old(Usable(undoStack, catalogIdentity)) != []
      ensures old(Valid()) ==> Valid() && History() == Back(old(History())) && (undone <==> old(CanUndo()))
      ensures catalogIdentity == old(catalogIdentity) && savedYaml == old(savedYaml) && openedFile == old(openedFile)
    {
      ghost var history := History();
      if Valid() {
        AllMatchingIsUsable(undoStack, catalogIdentity);
      }
      while undoStack != []
        invariant History() == history.(past := undoStack)
        invariant Usable(undoStack, catalogIdentity) == old(Usable(undoStack, catalogIdentity))
        invariant catalogIdentity == old(catalogIdentity)
        invariant savedYaml == old(savedYaml) && openedFile == old(openedFile)
        decreases |undoStack|
      {
        var previous := undoStack[|undoStack| - 1];
        if catalogIdentity.Some? && !MatchesIdentity(previous, catalogIdentity.value) {
          undoStack := undoStack[..|undoStack| - 1];
          continue;
        }
        undoStack := undoStack[..|undoStack| - 1];
        redoStack := redoStack + [Content(app, currentYaml, diagnostics)];
        app, currentYaml, diagnostics := previous.app, previous.yaml, previous.diagnostics;
        return true;
      }
      undone := false;
    }

    method Redo() returns (redone: bool)
      modifies this
      ensures History() == old(ForwardSkipping(History(), catalogIdentity))
      ensures redone <==> old(Usable(redoStack, catalogIdentity)) != []
      ensures old(Valid()) ==> Valid() && History() == Forward(old(History())) && (redone <==> old(CanRedo()))
      ensures catalogIdentity == old(catalogIdentity) && savedYaml == old(savedYaml) && openedFile == old(openedFile)
    {
      ghost var history := History();
      if Valid() {
        AllMatchingIsUsable(redoStack, catalogIdentity);
      }
      while redoStack != []
        invariant History() == history.(future := redoStack)
        invariant Usable(redoStack, catalogIdentity) == old(Usable(redoStack, catalogIdentity))
        invariant catalogIdentity == old(catalogIdentity)
        invariant savedYaml == old(savedYaml) && openedFile == old(openedFile)
        decreases |redoStack|
      {
        var next := redoStack[|redoStack| - 1];
        if catalogIdentity.Some? && !MatchesIdentity(next, catalogIdentity.value) {
          redoStack := redoStack[..|redoStack| - 1];
          continue;
        }
        redoStack := redoStack[..|redoStack| - 1];
        undoStack := undoStack + [Content(app, currentYaml, diagnostics)];
        app, currentYaml, diagnostics := next.app, next.yaml, next.diagnostics;
        return true;
      }
      redone := false;
    }

    /** After a successful publication the present content is the saved one; the stacks are untouched. */
    method MarkSaved(file: CapturedFile, yaml: string)
      requires Valid()
      modifies this
      ensures Valid() && !IsDirty() && savedYaml == yaml && openedFile == file && path == file.path
      ensures History() == old(History()).(present := Content(app, yaml, editor.diagnose(app))) && app == old(app)
      ensures catalogIdentity == old(catalogIdentity)
    {
      path, openedFile := file.path, file;
      currentYaml, savedYaml := yaml, yaml;
      diagnostics := editor.diagnose(app);
    }

    /** Save As fixes the identity the content has now and drops every snapshot of another one. */
    method SetSavedPath(newPath: string, root: string)
      requires Valid()
      modifies this
      ensures Valid() && path == newPath && authoredRoot == Some(root)
      ensures catalogIdentity == Some(CatalogIdentity(app.id, app.packageId, newPath, root))
      ensures History() == Cursor(Matching(old(undoStack), catalogIdentity.value), old(History()).present,
                                  Matching(old(redoStack), catalogIdentity.value))
      ensures savedYaml == old(savedYaml) && openedFile == old(openedFile)
    {
      path, authoredRoot := newPath, Some(root);
      var identity := CatalogIdentity(app.id, app.packageId, newPath, root);
      catalogIdentity := Some(identity);
      undoStack := Matching(undoStack, identity);
      redoStack := Matching(redoStack, identity);
    }

    /** Adopt a newer published revision of the same App, or refuse it and stay as before. */
    method RefreshAfterGeneratorPublication(file: CapturedFile) returns (refreshed: bool)
      requires Valid()
      modifies this
      ensures Valid() && catalogIdentity == old(catalogIdentity) && path == old(path)
      ensures refreshed <==>
                && file.path == old(path)
                && editor.parse(file.bytes).Some?
                && editor.emit(editor.parse(file.bytes).value).Some?
                && (old(catalogIdentity).Some? ==>
                      MatchesIdentity(Content(editor.parse(file.bytes).value, "", []), old(catalogIdentity).value))
      ensures refreshed ==>
                && app == editor.parse(file.bytes).value && Some(currentYaml) == editor.emit(app)
                && History() == Cursor([], Content(app, currentYaml, editor.diagnose(app)), [])
                && !IsDirty() && openedFile == file
      ensures !refreshed ==> History() == old(History()) && savedYaml == old(savedYaml) && openedFile == old(openedFile)
    {
      if file.path != path {
        return false;
      }
      var candidate := editor.parse(file.bytes);
      if candidate.None? {
        return false;
      }
      if catalogIdentity.Some?
         && (catalogIdentity.value.id != candidate.value.id
             || catalogIdentity.value.packageId != candidate.value.packageId)
      {
        return false;
      }
      var yaml := editor.emit(candidate.value);
      if yaml.None? {
        return false;
      }
      app, openedFile := candidate.value, file;
      currentYaml, savedYaml := yaml.value, yaml.value;
      undoStack, redoStack := [], [];
      diagnostics := editor.diagnose(app);
      refreshed := true;
    }

    method SetDiagnostics(next: seq<string>)
      requires Valid()
      modifies this`diagnostics
      ensures Valid()
      ensures History() == old(History()).(present := old(History()).present.(diagnostics := next))
    {
      diagnostics := next;
    }
  }

  // ---- Over any editing session ---------------------------------------------------------

  /**
   Opening a captured file: it must parse and be emitted again. The identity
   comes from where the file physically lies, the root offered for pickers from
   the caller's choice first.
   */
  method OpenDocument(
      editor: Editor, file: CapturedFile, chosenRoot: Option<string>, physicalRoot: Option<string>)
    returns (document: Option<Document>)
    ensures document.Some? <==> editor.parse(file.bytes).Some? && editor.emit(editor.parse(file.bytes).value).Some?
    ensures document.Some? ==>
              var d, parsed := document.value, editor.parse(file.bytes).value;
              && fresh(d) && d.Valid() && d.editor == editor && d.openedFile == file && d.path == file.path
              && d.History() == Cursor([], Content(parsed, editor.emit(parsed).value, editor.diagnose(parsed)), [])
              && !d.IsDirty()
              && d.authoredRoot == (if chosenRoot.Some? then chosenRoot else physicalRoot)
              && (d.catalogIdentity.Some? <==> physicalRoot.Some?)
  {
    var parsed := editor.parse(file.bytes);
    if parsed.None? {
      return None;
    }
    var yaml := editor.emit(parsed.value);
    if yaml.None? {
      return None;
    }
    var opening := new Document(editor, file, parsed.value, yaml.value, chosenRoot, physicalRoot);
    document := Some(opening);
  }

  /**
   From a saved content, any changes, as many undos, and then any undos and
   redos: the document is clean exactly where the history holds the saved YAML,
   and in particular back at the saved point.
   */
  lemma UndoingToTheSavedPointIsClean(saved: Cursor<Content>, nexts: seq<Content>, moves: seq<Move>)
    ensures BackTimes(ChangeAll(saved, nexts), |nexts|).present == saved.present
    ensures var moved := MoveAll(ChangeAll(saved, nexts), moves);
            && Line(moved) == Line(ChangeAll(saved, nexts))
            && (moved.present.yaml == saved.present.yaml
                <==> Line(ChangeAll(saved, nexts))[|moved.past|].yaml == saved.present.yaml)
            && (|moved.past| == |saved.past| ==> moved.present == saved.present)
  {
    ChangesUndoneAndRedone(saved, nexts);
    MovesStayOnTheLine(ChangeAll(saved, nexts), moves);
    ChangesKeepThePrefix(saved, nexts);
  }

  lemma {:induction false} ChangesKeepThePrefix(c: Cursor<Content>, nexts: seq<Content>)
    ensures var all := ChangeAll(c, nexts);
            |Line(all)| > |c.past| && Line(all)[..|c.past| + 1] == c.past + [c.present]
    decreases |nexts|
  {
    if nexts == [] {
      assert Line(c)[..|c.past| + 1] == c.past + [c.present];
    } else {
      var next := Change(c, nexts[0]);
      ChangesKeepThePrefix(next, nexts[1..]);
      var line := Line(ChangeAll(c, nexts));
      assert line[..|c.past| + 1] == line[..|next.past| + 1][..|c.past| + 1];
      assert next.past == c.past + [c.present];
    }
  }

  /** The Recipe names the owner of all it speaks of, and nowhere refers to what the command removes. */
  ghost predicate RecipeIsFree(parsers: Parsers, file: CapturedFile, owner: string, c: Command) {
    parsers.recipe(file.bytes).Some?
    && var recipe := parsers.recipe(file.bytes).value;
       && OwnersAreNamed(recipe)
       && (forall id :: c == RemoveArtifact(id) ==> !RefersToArtifact(recipe, owner, id))
       && (forall id :: c == RemoveTarget(id) ==>
             && !RefersToTarget(recipe, owner, id)
             && forall step :: step in recipe.steps && MentionsTarget(step, id) ==>
                  step.appRef.Some? && step.appRef != Some(owner))
  }

  ghost predicate NoRecipeRefersTo(parsers: Parsers, disk: Disk, owner: string, c: Command) {
    c.RemoveArtifact? || c.RemoveTarget? ==>
      disk.recipes.Some? && forall file :: file in disk.recipes.value ==> RecipeIsFree(parsers, file, owner, c)
  }

  /**
   With every owner named, a Recipe is free of the entry exactly if it has no
   reference to it that names this App: a step that speaks of a target of that
   id says of which App.
   */
  lemma FreeMeans(parsers: Parsers, file: CapturedFile, owner: string, c: Command)
    requires parsers.recipe(file.bytes).Some? && OwnersAreNamed(parsers.recipe(file.bytes).value)
    ensures RecipeIsFree(parsers, file, owner, c) <==>
            var recipe := parsers.recipe(file.bytes).value;
            && (c.RemoveArtifact? ==> !RefersToArtifact(recipe, owner, c.artifactId))
            && (c.RemoveTarget? ==> !RefersToTarget(recipe, owner, c.targetId))
  {
    var recipe := parsers.recipe(file.bytes).value;
    if c.RemoveTarget? && !RefersToTarget(recipe, owner, c.targetId) {
      forall step | step in recipe.steps && MentionsTarget(step, c.targetId)
        ensures step.appRef.Some? && step.appRef != Some(owner)
      {
        ClassifiableMeans(recipe);
        StepNamesTargetMeans(step, c.targetId);
        ClassifiedTargetsHaveOwners(recipe, step, c.targetId);
      }
    }
  }

  /** The guard's look at the index is a look at every captured Recipe. */
  lemma UnreferencedMeansFree(parsers: Parsers, context: Context, disk: Disk, c: Command)
    requires context.catalogIdentity.Some? && MayBeSaved(parsers, context.catalogIdentity.value, context, disk)
    requires c.RemoveArtifact? || c.RemoveTarget?
    ensures var recipes, owner := disk.recipes.value, context.catalogIdentity.value.id;
            NoRecipeRefersTo(parsers, disk, owner, c) <==>
            forall f :: f in recipes && parsers.recipe(f.bytes).Some? ==>
              && (c.RemoveArtifact? ==> !RefersToArtifact(parsers.recipe(f.bytes).value, owner, c.artifactId))
              && (c.RemoveTarget? ==> !RefersToTarget(parsers.recipe(f.bytes).value, owner, c.targetId))
  {
    forall f | f in disk.recipes.value
      ensures RecipeIsFree(parsers, f, context.catalogIdentity.value.id, c) <==>
              var recipe, owner := parsers.recipe(f.bytes).value, context.catalogIdentity.value.id;
              && (c.RemoveArtifact? ==> !RefersToArtifact(recipe, owner, c.artifactId))
              && (c.RemoveTarget? ==> !RefersToTarget(recipe, owner, c.targetId))
    {
      FreeMeans(parsers, f, context.catalogIdentity.value.id, c);
    }
  }

  predicate HasEntry(app: App, c: Command) {
    || (c.RemoveArtifact? && Lookup(app.artifacts, c.artifactId).Some?)
    || (c.RemoveTarget? && Lookup(app.targets, c.targetId).Some?)
  }

  /**
   The guard stands before commands only. Once a document has accepted a removal,
   undo brings the entry back and redo removes it again; neither reads a
   catalog, so they do so whatever the Recipes refer to by then.
   */
  lemma RedoRepeatsTheRemoval(d: Document, c: Command)
    requires RegistriesAreSound(d.app) && (c.RemoveArtifact? || c.RemoveTarget?) && d.Proposal(c).Some?
    ensures var proposal := d.Proposal(c).value;
            var removed := Change(d.History(), Content(proposal.0, proposal.1, d.editor.diagnose(proposal.0)));
            && HasEntry(d.app, c) && !HasEntry(removed.present.app, c)
            && HasEntry(Back(removed).present.app, c) && Back(removed).present == d.History().present
            && !HasEntry(Forward(Back(removed)).present.app, c) && Forward(Back(removed)) == removed
  {
    var proposal := d.Proposal(c).value;
    ForwardUndoesBack(Change(d.History(), Content(proposal.0, proposal.1, d.editor.diagnose(proposal.0))));
    OnlyDeletionsRemoveEntries(d.app, c, if c.RemoveArtifact? then c.artifactId else c.targetId);
  }
}
