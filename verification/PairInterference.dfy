/**
 The windows between a check and the rename or removal it guards: what the
 rename replaces and what the removal takes is what was checked exactly when no
 other program changed that file in between.
 */
module PairInterference {
  import opened Wrappers
  import opened DigestFraming
  import opened CatalogFiles
  import opened CatalogJournal
  import opened PairPublication
  import opened PairSafety
  import opened PairGuarantees
  import opened PairProgress

  /** Only other programs act. */
  ghost predicate OnlyOthers(choices: seq<Choice>) {
    forall c :: c in choices ==> c.External?
  }

  lemma {:induction false} OthersChangeFilesOnly(s: State, choices: seq<Choice>)
    requires OnlyOthers(choices)
    ensures Run(s, choices) == s.(fs := Run(s, choices).fs)
    decreases |choices|
  {
    if choices != [] {
      assert choices[0] in choices && forall c :: c in choices[1..] ==> c in choices;
      OthersChangeFilesOnly(Step(s, choices[0]), choices[1..]);
    }
  }

  ghost predicate LastEntryIs(s: State, s': State, e: Event) {
    s.call.Active? && s'.call.Active? && s'.call.log == s.call.log + [e]
  }

  /** From the first check on, both staged files are on record with what they replace. */
  lemma BothAreWritten(s: State)
    requires Reachable(s) && s.call.Active?
    requires s.call.pc.AtRecipePhase? || s.call.pc.AtCommit? || s.call.pc.AtRollback?
    ensures var r := s.call.request;
            RecipeWritten(s.journal, r) && Written(s.journal, AppChild(r), r.app, ExpectedApp(r), r.appBytes)
  {
    ReachableIsSound(s);
    var r := s.call.request;
    assert RecipePhaseAt(s, r) || CommitAt(s, r) || RollbackAt(s, r);
  }

  // ---- The Recipe's rename --------------------------------------------------------------------

  lemma CheckedRecipe(s: State, r: Request, p: Progress)
    requires s.call.Active? && s.call.request == r && RecipeWritten(s.journal, r)
    requires CheckRecipe(s, p).call.pc == AtRecipePhase(RecipeRename)
    ensures FileAt(s.fs, r.recipe) == None && CheckRecipe(s, p).fs == s.fs && CheckRecipe(s, p).call.request == r
  {
  }

  lemma RecipeRenameReplaces(s: State, p: Progress, k: nat, e: Event)
    requires s.call.Active? && s.call.pc == AtRecipePhase(RecipeRename)
    requires LastEntryIs(s, Step(s, Proceed(p, k)), e)
    ensures e.RecipePlaced? && e.renamed && e.replaced == FileAt(s.fs, s.call.request.recipe)
  {
    assert Step(s, Proceed(p, k)).call.log[|s.call.log|] == e;
  }

  /** The Recipe's rename replaces nothing exactly when its destination is still as it was checked: absent. */
  lemma RecipeRenameReplacesTheCheckedIff(
      s: State, p: Progress, k: nat, others: seq<Choice>, q: Progress, k': nat, e: Event)
    requires Reachable(s) && s.call.Active? && s.call.pc == AtRecipePhase(RecipeCheck) && OnlyOthers(others)
    requires Step(s, Proceed(p, k)).call.pc == AtRecipePhase(RecipeRename)
    requires var before := Run(Step(s, Proceed(p, k)), others);
             LastEntryIs(before, Step(before, Proceed(q, k')), e)
    ensures var before, recipe := Run(Step(s, Proceed(p, k)), others), s.call.request.recipe;
            && e.RecipePlaced? && e.renamed
            && (e.replaced == None <==> FileAt(before.fs, recipe) == FileAt(s.fs, recipe))
  {
    BothAreWritten(s);
    CheckedRecipe(s, s.call.request, p);
    OthersChangeFilesOnly(Step(s, Proceed(p, k)), others);
    RecipeRenameReplaces(Run(Step(s, Proceed(p, k)), others), q, k', e);
  }

  // ---- The App's rename -----------------------------------------------------------------------

  lemma CheckedApp(s: State, r: Request, f: File, p: Progress)
    requires s.call.Active? && s.call.request == r
    requires Written(s.journal, AppChild(r), r.app, ExpectedApp(r), r.appBytes)
    requires CheckApp(s, f, p).call.pc == AtCommit(AppRename(f))
    ensures FileAt(s.fs, r.app) == ExpectedApp(r) && CheckApp(s, f, p).fs == s.fs && CheckApp(s, f, p).call.request == r
  {
  }

  lemma AppRenameReplaces(s: State, f: File, p: Progress, k: nat, e: Event)
    requires s.call.Active? && s.call.pc == AtCommit(AppRename(f))
    requires LastEntryIs(s, Step(s, Proceed(p, k)), e)
    ensures e.AppPlaced? && e.renamed && e.replaced == FileAt(s.fs, s.call.request.app)
  {
    assert Step(s, Proceed(p, k)).call.log[|s.call.log|] == e;
  }

  /** The App's rename replaces the reviewed App exactly when its destination is still as it was checked. */
  lemma AppRenameReplacesTheCheckedIff(
      s: State, f: File, p: Progress, k: nat, others: seq<Choice>, q: Progress, k': nat, e: Event)
    requires Reachable(s) && s.call.Active? && s.call.pc == AtCommit(AppCheck(f)) && OnlyOthers(others)
    requires Step(s, Proceed(p, k)).call.pc == AtCommit(AppRename(f))
    requires var before := Run(Step(s, Proceed(p, k)), others);
             LastEntryIs(before, Step(before, Proceed(q, k')), e)
    ensures var before, app := Run(Step(s, Proceed(p, k)), others), s.call.request.app;
            && e.AppPlaced? && e.renamed
            && (e.replaced == ExpectedApp(s.call.request) <==> FileAt(before.fs, app) == FileAt(s.fs, app))
  {
    BothAreWritten(s);
    CheckedApp(s, s.call.request, f, p);
    OthersChangeFilesOnly(Step(s, Proceed(p, k)), others);
    AppRenameReplaces(Run(Step(s, Proceed(p, k)), others), f, q, k', e);
  }

  // ---- The removal of the Recipe --------------------------------------------------------------

  /** The file this call staged for the Recipe. */
  ghost predicate IsStagedRecipe(j: Journal, r: Request, f: File) {
    RecipeWritten(j, r) && f == j[RecipeChild(r)].write.value.staged
  }

  lemma VerifiedRecipe(s: State, r: Request, was: bool, p: Progress)
    requires s.call.Active? && s.call.request == r && RecipeWritten(s.journal, r)
    requires Verify(s, was, p).call.pc == AtRollback(RollbackRemove(was))
    ensures FileAt(s.fs, r.recipe).Some? && IsStagedRecipe(s.journal, r, FileAt(s.fs, r.recipe).value)
    ensures Verify(s, was, p).fs == s.fs && Verify(s, was, p).call.request == r
  {
  }

  lemma RemovalTakes(s: State, was: bool, p: Progress, k: nat, e: Event)
    requires s.call.Active? && s.call.pc == AtRollback(RollbackRemove(was))
    requires LastEntryIs(s, Step(s, Proceed(p, k)), e)
    ensures e.RecipeUndone? && (e.undo.NotUndone? || e.undo.Removed? || e.undo.RemovedUnsynced?)
    ensures !e.undo.NotUndone? ==> FileAt(s.fs, s.call.request.recipe) == Some(e.undo.file)
  {
    assert Step(s, Proceed(p, k)).call.log[|s.call.log|] == e;
  }

  /** What a rollback removes is the staged Recipe exactly when the destination is still as it was verified. */
  lemma RemovalTakesTheVerifiedIff(
      s: State, was: bool, p: Progress, k: nat, others: seq<Choice>, q: Progress, k': nat, e: Event)
    requires Reachable(s) && s.call.Active? && s.call.pc == AtRollback(RollbackVerify(was)) && OnlyOthers(others)
    requires Step(s, Proceed(p, k)).call.pc == AtRollback(RollbackRemove(was))
    requires var before := Run(Step(s, Proceed(p, k)), others);
             LastEntryIs(before, Step(before, Proceed(q, k')), e) && e.RecipeUndone? && !e.undo.NotUndone?
    ensures var before, r := Run(Step(s, Proceed(p, k)), others), s.call.request;
            && !e.undo.AlreadyGone?
            && (IsStagedRecipe(s.journal, r, e.undo.file) <==> FileAt(before.fs, r.recipe) == FileAt(s.fs, r.recipe))
  {
    BothAreWritten(s);
    VerifiedRecipe(s, s.call.request, was, p);
    OthersChangeFilesOnly(Step(s, Proceed(p, k)), others);
    RemovalTakes(Run(Step(s, Proceed(p, k)), others), was, q, k', e);
  }

  // ---- The foreign file ------------------------------------------------------------------------

  lemma OwnRecipeIsVerified(s: State, r: Request, k: Identities, fs: Fs)
    requires IsAt(s, r, AtRollback(RollbackVerify(true))) && RecipeSaved(s, r, k, fs, Publishing)
    ensures IsAt(Go(s, Succeeds, k), r, AtRollback(RollbackRemove(true))) && Go(s, Succeeds, k).fs == s.fs
  {
    assert Go(s, Succeeds, k) == Verify(s, true, Succeeds);
  }

  /** The state in which a failed App rename has been looked at and the Recipe verified as this call's own. */
  lemma VerifyAfterFailure(s: State, r: Request, k: Identities, fs: Fs) returns (verified: State)
    requires IsAt(s, r, AtCommit(AppRename(RecipeFile(r, k))))
    requires RecipeSaved(s, r, k, fs, Publishing)
    ensures verified == Go(Go(Go(s, Fails, k), Succeeds, k), Succeeds, k)
    ensures IsAt(verified, r, AtRollback(RollbackRemove(true)))
    ensures verified.fs == WithFile(fs, r.recipe, RecipeFile(r, k))
  {
    LookAfterFailure(s, r, k, fs);
    var looked := Go(Go(s, Fails, k), Succeeds, k);
    OwnRecipeIsVerified(looked, r, k, fs);
    verified := Go(looked, Succeeds, k);
  }

  lemma ForeignRemoval(s: State, r: Request, k: Identities)
    requires IsAt(s, r, AtRollback(RollbackRemove(true)))
    requires r.recipe in s.fs.files
    ensures var removing, s' := Go(s, Succeeds, k), Quiet(s, k, 4);
            && removing == UndoNoted(s.(fs := s.fs.(files := s.fs.files - {r.recipe})), true,
                                     Removed(s.fs.files[r.recipe]))
            && s'.call.Returned? && s'.call.outcome == RecipeCommitted(true, false)
            && s'.fs == s.fs.(files := s.fs.files - {r.recipe})
  {
    var removing := Go(s, Succeeds, k);
    assert Quiet(s, k, 4) == Quiet(removing, k, 3);
    QuietReport(removing, r, k, true, true);
  }

  /**
   External edits can be overwritten during rollback: whenever a call could
   succeed, if the App's rename fails and another program puts its own file at
   the Recipe's destination right after the rollback verified it, that file is
   removed, and the report is that of an ordinary removal.
   */
  lemma ForeignFileIsRemoved(s: State, r: Request, k: Identities, foreign: File)
    requires Admissible(s, r, k) && AdmittedFrom(r, s.fs, 0)
    ensures var renaming := Quiet(Step(s, Begin(r)), k, StepsToRename(r));
            var verified := Go(Go(Go(renaming, Fails, k), Succeeds, k), Succeeds, k);
            var replaced := Step(verified, External(WithFile(verified.fs, r.recipe, foreign)));
            var removing, s' := Go(replaced, Succeeds, k), Quiet(replaced, k, 4);
            && LastEntryIs(replaced, removing, RecipeUndone(Removed(foreign)))
            && s'.call.Returned? && s'.call.outcome == RecipeCommitted(true, false)
            && s'.fs == s.fs
  {
    var renaming := AdmissibleReachesTheRename(s, r, k);
    assert AdmitCheckHolds(r, |r.directories| + 2, s.fs);
    var verified := VerifyAfterFailure(renaming, r, k, s.fs);
    var replaced := Step(verified, External(WithFile(verified.fs, r.recipe, foreign)));
    ForeignRemoval(replaced, r, k);
    NewFileGoesAway(s.fs, r.recipe, RecipeFile(r, k), foreign);
  }

  lemma NewFileGoesAway(fs: Fs, p: CatalogPath, f: File, g: File)
    requires p !in fs.files
    ensures var both := WithFile(WithFile(fs, p, f), p, g); both.(files := both.files - {p}) == fs
  {
  }
}
