/**
 What the pair publication does when nothing interferes, and what single
 interferences do to its report.
 */
module PairProgress {
  import opened Wrappers
  import opened DigestFraming
  import opened CatalogFiles
  import opened CatalogJournal
  import opened PairPublication
  import opened PairSafety
  import opened PairGuarantees

  /** The identities the file system gives the two files a call stages. */
  datatype Identities = Identities(recipe: nat, app: nat)

  function RecipeFile(r: Request, k: Identities): File { File(r.recipeBytes, k.recipe) }

  function AppFile(r: Request, k: Identities): File { File(r.appBytes, k.app) }

  /** One step of the call; a file staged by it gets its own identity. */
  ghost function Go(s: State, p: Progress, k: Identities): State {
    var stagesApp := s.call.Active? && s.call.pc.AtPreparation? && s.call.pc.preparation.StageApp?;
    Step(s, Proceed(p, if stagesApp then k.app else k.recipe))
  }

  /** `n` steps of the call, all succeeding. */
  ghost function Quiet(s: State, k: Identities, n: nat): State
    decreases n, k
  {
    if n == 0 then s else Quiet(Go(s, Succeeds, k), k, n - 1)
  }

  lemma {:induction false} QuietAdds(s: State, k: Identities, m: nat, n: nat)
    ensures Quiet(s, k, m + n) == Quiet(Quiet(s, k, m), k, n)
    decreases m
  {
    if m > 0 {
      QuietAdds(Go(s, Succeeds, k), k, m - 1, n);
    }
  }

  /** Two stretches make one; `mid` is where the first ends. */
  lemma QuietThen(s: State, k: Identities, m: nat, mid: State, n: nat)
    requires Quiet(s, k, m) == mid
    ensures Quiet(s, k, m + n) == Quiet(mid, k, n)
  {
    QuietAdds(s, k, m, n);
  }

  lemma QuietJoins(s: State, k: Identities, m: nat, mid: State, n: nat, end: State)
    requires Quiet(s, k, m) == mid && Quiet(mid, k, n) == end
    ensures Quiet(s, k, m + n) == end
  {
    QuietAdds(s, k, m, n);
  }

  lemma {:induction false} ReturnedStays(s: State, k: Identities, n: nat)
    requires !s.call.Active?
    ensures Quiet(s, k, n) == s
    decreases n
  {
    if n > 0 { ReturnedStays(s, k, n - 1); }
  }

  ghost predicate IsAt(s: State, r: Request, pc: Pc) {
    s.call.Active? && s.call.request == r && s.call.pc == pc
  }

  lemma QuietTwo(s: State, k: Identities, s1: State, s2: State)
    requires Go(s, Succeeds, k) == s1 && Go(s1, Succeeds, k) == s2
    ensures Quiet(s, k, 2) == s2
  {
    assert Quiet(s, k, 2) == Quiet(s1, k, 1) == Quiet(s2, k, 0);
  }

  lemma QuietThree(s: State, k: Identities, s1: State, s2: State, s3: State)
    requires Go(s, Succeeds, k) == s1 && Go(s1, Succeeds, k) == s2
    requires Go(s2, Succeeds, k) == s3
    ensures Quiet(s, k, 3) == s3
  {
    QuietTwo(s1, k, s2, s3);
    assert Quiet(s, k, 3) == Quiet(s1, k, 2);
  }

  // ---- Admission -----------------------------------------------------------------------------

  ghost predicate AdmittedFrom(r: Request, fs: Fs, i: nat) {
    forall j :: i <= j < AdmitChecks(r) ==> AdmitCheckHolds(r, j, fs)
  }

  lemma {:induction false} QuietAdmission(s: State, r: Request, k: Identities, i: nat)
    requires s.call == Active(r, AtAdmission(AdmitCheck(i)), []) && i < AdmitChecks(r)
    ensures Quiet(s, k, AdmitChecks(r) - i)
            == if AdmittedFrom(r, s.fs, i) then Goto(s, AtAdmission(SnapApp)) else Return(s, Refused)
    decreases AdmitChecks(r) - i
  {
    var s' := Go(s, Succeeds, k);
    var rest := AdmitChecks(r) - i - 1;
    if !AdmitCheckHolds(r, i, s.fs) {
      ReturnedStays(s', k, rest);
    } else if i + 1 < AdmitChecks(r) {
      QuietAdmission(s', r, k, i + 1);
      assert AdmittedFrom(r, s.fs, i) <==> AdmittedFrom(r, s.fs, i + 1);
    } else {
      assert s' == Goto(s, AtAdmission(SnapApp));
      assert Quiet(s', k, 0) == s';
    }
  }

  /** The gate, the lookup, admission and the two snapshots. */
  lemma QuietEntry(s: State, r: Request, k: Identities)
    requires s.call == Active(r, AtEntry(Gate), []) && AllTerminal(s.journal) && Parent(r.op) !in s.journal
    ensures Quiet(s, k, AdmitChecks(r) + 4)
            == if AdmittedFrom(r, s.fs, 0) then Goto(s.(staging := map[]), AtPreparation(BeginParent(ExpectedApp(r))))
               else Return(s.(staging := map[]), Refused)
  {
    var s1 := Go(s, Succeeds, k);
    var s2 := Go(s1, Succeeds, k);
    assert s2 == Goto(s.(staging := map[]), AtAdmission(AdmitCheck(0)));
    assert Quiet(s, k, AdmitChecks(r) + 4) == Quiet(s1, k, AdmitChecks(r) + 3) == Quiet(s2, k, AdmitChecks(r) + 2);
    QuietAdmission(s2, r, k, 0);
    QuietAdds(s2, k, AdmitChecks(r), 2);
    var s3 := Quiet(s2, k, AdmitChecks(r));
    if AdmittedFrom(r, s.fs, 0) {
      QuietSnapshots(s3, r, k);
    } else {
      ReturnedStays(s3, k, 2);
    }
  }

  lemma QuietSnapshots(s: State, r: Request, k: Identities)
    requires s.call == Active(r, AtAdmission(SnapApp), []) && AdmittedFrom(r, s.fs, 0)
    ensures Quiet(s, k, 2) == Goto(s, AtPreparation(BeginParent(ExpectedApp(r))))
  {
    assert AdmitCheckHolds(r, 0, s.fs) && AdmitCheckHolds(r, |r.directories| + 2, s.fs);
    var s1 := Go(s, Succeeds, k);
    assert s1 == Goto(s, AtAdmission(SnapRecipe(ExpectedApp(r))));
    var s2 := Go(s1, Succeeds, k);
    QuietTwo(s, k, s1, s2);
  }

  // ---- Staging -------------------------------------------------------------------------------

  /** Record `id` is in `phase` and carries `write`. */
  ghost predicate Stands(j: Journal, id: JournalId, phase: Phase, write: Option<Write>) {
    id in j && j[id].phase == phase && j[id].write == write
  }

  /** Both files staged, nothing published. */
  ghost predicate StagedBoth(s: State, r: Request, k: Identities, fs: Fs) {
    && s.fs == fs && Parent(r.op) in s.journal
    && Stands(s.journal, RecipeChild(r), Staged, Some(RecipeWrite(r, k.recipe)))
    && Stands(s.journal, AppChild(r), Staged, Some(AppWrite(r, ExpectedApp(r), k.app)))
    && RecipeChild(r) in s.staging && s.staging[RecipeChild(r)] == RecipeFile(r, k)
    && AppChild(r) in s.staging && s.staging[AppChild(r)] == AppFile(r, k)
  }

  lemma QuietStaging(s: State, r: Request, k: Identities)
    requires s.call == Active(r, AtPreparation(BeginParent(ExpectedApp(r))), []) && ValidRequest(r)
    requires s.staging == map[]
    requires Parent(r.op) !in s.journal && RecipeChild(r) !in s.journal && AppChild(r) !in s.journal
    requires AppMatches(r, s.fs) && r.recipe !in s.fs.files
    ensures var s' := Quiet(s, k, 3);
            && s'.call == Active(r, AtPreparation(ParentStaged), []) && StagedBoth(s', r, k, s.fs)
            && s'.journal[Parent(r.op)].phase == Prepared
  {
    var s1 := Go(s, Succeeds, k);
    assert s1 == Goto(Begun(s), AtPreparation(StageRecipe(ExpectedApp(r))));
    var s2 := Go(s1, Succeeds, k);
    QuietStageRecipe(s1, r, k);
    var s3 := Go(s2, Succeeds, k);
    QuietStageApp(s2, r, k);
    QuietThree(s, k, s1, s2, s3);
  }

  lemma QuietStageRecipe(s: State, r: Request, k: Identities)
    requires s.call == Active(r, AtPreparation(StageRecipe(ExpectedApp(r))), []) && s.staging == map[]
    requires RecipeChild(r) !in s.journal && r.recipe !in s.fs.files
    ensures var s' := Go(s, Succeeds, k);
            var record := Record(r.recipeBytes, Staged, Some(RecipeWrite(r, k.recipe)));
            && s' == s.(journal := s.journal[RecipeChild(r) := record],
                        staging := map[RecipeChild(r) := RecipeFile(r, k)],
                        call := Active(r, AtPreparation(StageApp(ExpectedApp(r))), []))
  {
  }

  lemma QuietStageApp(s: State, r: Request, k: Identities)
    requires s.call == Active(r, AtPreparation(StageApp(ExpectedApp(r))), [])
    requires AppChild(r) !in s.journal && AppMatches(r, s.fs) && AppChild(r) !in s.staging
    ensures var s' := Go(s, Succeeds, k);
            var record := Record(r.appBytes, Staged, Some(AppWrite(r, ExpectedApp(r), k.app)));
            && s' == s.(journal := s.journal[AppChild(r) := record],
                        staging := s.staging[AppChild(r) := AppFile(r, k)],
                        call := Active(r, AtPreparation(ParentStaged), []))
  {
  }

  // ---- The Recipe ------------------------------------------------------------------------------

  function WithFile(fs: Fs, p: CatalogPath, f: File): Fs { fs.(files := fs.files[p := f]) }

  /** The Recipe published, the App still staged and its record in `phase`. */
  ghost predicate RecipeSaved(s: State, r: Request, k: Identities, fs: Fs, phase: Phase) {
    && s.fs == WithFile(fs, r.recipe, RecipeFile(r, k))
    && Parent(r.op) in s.journal && s.journal[Parent(r.op)].phase == Publishing
    && Stands(s.journal, RecipeChild(r), Published, Some(RecipeWrite(r, k.recipe)))
    && Stands(s.journal, AppChild(r), phase, Some(AppWrite(r, ExpectedApp(r), k.app)))
    && RecipeChild(r) !in s.staging && AppChild(r) in s.staging && s.staging[AppChild(r)] == AppFile(r, k)
  }

  lemma QuietAdvance(s: State, r: Request, to: Phase, next: Pc)
    requires s.call.Active? && s.call.request == r && Parent(r.op) in s.journal
    requires ValidTransition(s.journal[Parent(r.op)].phase, to)
    ensures Advance(s, Parent(r.op), to, Succeeds, next)
            == Goto(s.(journal := WithPhase(s.journal, Parent(r.op), to)), next)
  {
  }

  lemma QuietParent(s: State, r: Request, k: Identities)
    requires s.call == Active(r, AtPreparation(ParentStaged), []) && StagedBoth(s, r, k, s.fs)
    requires s.journal[Parent(r.op)].phase == Prepared
    ensures var s' := Quiet(s, k, 2);
            && s'.call == Active(r, AtRecipePhase(RecipeCheck), []) && StagedBoth(s', r, k, s.fs)
            && s'.journal[Parent(r.op)].phase == Publishing
  {
    QuietAdvance(s, r, Staged, AtPreparation(ParentPublishing));
    var s1 := Goto(s.(journal := WithPhase(s.journal, Parent(r.op), Staged)), AtPreparation(ParentPublishing));
    QuietAdvance(s1, r, Publishing, AtRecipePhase(RecipeCheck));
    var s2 := Goto(s1.(journal := WithPhase(s1.journal, Parent(r.op), Publishing)), AtRecipePhase(RecipeCheck));
    QuietTwo(s, k, s1, s2);
  }

  lemma QuietRecipeCheck(s: State, r: Request, k: Identities)
    requires s.call == Active(r, AtRecipePhase(RecipeCheck), []) && StagedBoth(s, r, k, s.fs) && r.recipe !in s.fs.files
    ensures Go(s, Succeeds, k)
            == Goto(s.(journal := WithPhase(s.journal, RecipeChild(r), Publishing)), AtRecipePhase(RecipeRename))
  {
  }

  lemma QuietRecipeRename(s: State, r: Request, k: Identities)
    requires s.call == Active(r, AtRecipePhase(RecipeRename), []) && ValidRequest(r) && r.recipe !in s.fs.files
    requires Parent(r.op) in s.journal && s.journal[Parent(r.op)].phase == Publishing
    requires Stands(s.journal, RecipeChild(r), Publishing, Some(RecipeWrite(r, k.recipe)))
    requires Stands(s.journal, AppChild(r), Staged, Some(AppWrite(r, ExpectedApp(r), k.app)))
    requires RecipeChild(r) in s.staging && s.staging[RecipeChild(r)] == RecipeFile(r, k)
    requires AppChild(r) in s.staging && s.staging[AppChild(r)] == AppFile(r, k)
    ensures var s' := Go(s, Succeeds, k);
            && s'.call == Active(r, AtRecipePhase(CaptureRecipe), [RecipePlaced(RecipeFile(r, k), true, None)])
            && RecipeSaved(s', r, k, s.fs, Staged)
  {
  }

  lemma QuietRecipeCapture(s: State, r: Request, k: Identities, fs: Fs)
    requires s.call == Active(r, AtRecipePhase(CaptureRecipe), [RecipePlaced(RecipeFile(r, k), true, None)])
    requires RecipeSaved(s, r, k, fs, Staged)
    ensures var s', f := Go(s, Succeeds, k), RecipeFile(r, k);
            && s'.call == Active(r, AtCommit(FinalCheck(f, 0)), [RecipePlaced(f, true, None), RecipeCaptured(f)])
            && RecipeSaved(s', r, k, fs, Staged)
  {
    assert Go(s, Succeeds, k) == CaptureCommitted(s, Succeeds);
  }

  lemma QuietRecipe(s: State, r: Request, k: Identities)
    requires s.call == Active(r, AtRecipePhase(RecipeCheck), []) && StagedBoth(s, r, k, s.fs) && ValidRequest(r)
    requires s.journal[Parent(r.op)].phase == Publishing && r.recipe !in s.fs.files
    ensures var s', f := Quiet(s, k, 3), RecipeFile(r, k);
            && s'.call == Active(r, AtCommit(FinalCheck(f, 0)), [RecipePlaced(f, true, None), RecipeCaptured(f)])
            && RecipeSaved(s', r, k, s.fs, Staged)
  {
    QuietRecipeCheck(s, r, k);
    var s1 := Goto(s.(journal := WithPhase(s.journal, RecipeChild(r), Publishing)), AtRecipePhase(RecipeRename));
    QuietRecipeRename(s1, r, k);
    var s2 := Go(s1, Succeeds, k);
    QuietRecipeCapture(s2, r, k, s.fs);
    QuietThree(s, k, s1, s2, Go(s2, Succeeds, k));
  }

  // ---- The final checks ------------------------------------------------------------------------

  /** What held at admission still holds for the final checks: the Recipe is the only addition. */
  lemma AdmittedPassesFinally(r: Request, k: Identities, fs: Fs, i: nat)
    requires AdmittedFrom(r, fs, 0) && ValidRequest(r) && i < FinalChecks(r)
    ensures FinalCheckHolds(r, RecipeFile(r, k), i, WithFile(fs, r.recipe, RecipeFile(r, k)))
  {
    var fs' := WithFile(fs, r.recipe, RecipeFile(r, k));
    assert AdmitCheckHolds(r, 0, fs) && AdmitCheckHolds(r, |r.directories| + 2, fs);
    if i >= 2 {
      var d := r.directories[i - 2];
      assert AdmitCheckHolds(r, i - 1, fs);
      assert Listing(fs', d.directory) - {r.recipe} == Listing(fs, d.directory);
    }
  }

  /** One successful check notes what it saw and changes nothing else. */
  lemma QuietFinalCheck(s: State, r: Request, f: File, k: Identities, i: nat)
    requires IsAt(s, r, AtCommit(FinalCheck(f, i))) && i < FinalChecks(r) && FinalCheckHolds(r, f, i, s.fs)
    ensures Go(s, Succeeds, k)
            == Goto(Note(s, CheckPassed(i, s.fs)),
                    AtCommit(if i + 1 == FinalChecks(r) then AppCheck(f) else FinalCheck(f, i + 1)))
  {
    assert Go(s, Succeeds, k) == Recheck(s, f, i, Succeeds);
  }

  ghost predicate PassesFrom(r: Request, f: File, fs: Fs, i: nat) {
    forall j :: i <= j < FinalChecks(r) ==> FinalCheckHolds(r, f, j, fs)
  }

  lemma {:induction false} QuietFinalChecks(s: State, r: Request, f: File, k: Identities, i: nat)
    requires IsAt(s, r, AtCommit(FinalCheck(f, i))) && i < FinalChecks(r) && PassesFrom(r, f, s.fs, i)
    ensures var s' := Quiet(s, k, FinalChecks(r) - i);
            IsAt(s', r, AtCommit(AppCheck(f)))
            && s'.fs == s.fs && s'.journal == s.journal && s'.staging == s.staging
    decreases FinalChecks(r) - i
  {
    QuietFinalCheck(s, r, f, k, i);
    var s' := Go(s, Succeeds, k);
    if i + 1 < FinalChecks(r) {
      QuietFinalChecks(s', r, f, k, i + 1);
    } else {
      assert Quiet(s', k, 0) == s';
    }
  }

  lemma AdmittedPasses(r: Request, k: Identities, fs: Fs)
    requires AdmittedFrom(r, fs, 0) && ValidRequest(r)
    ensures PassesFrom(r, RecipeFile(r, k), WithFile(fs, r.recipe, RecipeFile(r, k)), 0)
  {
    forall i: nat | i < FinalChecks(r)
      ensures FinalCheckHolds(r, RecipeFile(r, k), i, WithFile(fs, r.recipe, RecipeFile(r, k)))
    {
      AdmittedPassesFinally(r, k, fs, i);
    }
  }

  // ---- The App and completion --------------------------------------------------------------------

  ghost predicate BothSaved(s: State, r: Request, k: Identities, fs: Fs) {
    && s.fs == WithFile(WithFile(fs, r.recipe, RecipeFile(r, k)), r.app, AppFile(r, k))
    && Parent(r.op) in s.journal
    && Stands(s.journal, RecipeChild(r), Published, Some(RecipeWrite(r, k.recipe)))
    && Stands(s.journal, AppChild(r), Published, Some(AppWrite(r, ExpectedApp(r), k.app)))
  }

  lemma QuietCheckApp(s: State, r: Request, k: Identities, fs: Fs)
    requires s.call.Active? && s.call.request == r
    requires RecipeSaved(s, r, k, fs, Staged) && ValidRequest(r) && AppMatches(r, fs)
    requires r.creates || r.reviewed.identity != k.app
    ensures CheckApp(s, RecipeFile(r, k), Succeeds)
            == Goto(s.(journal := WithPhase(s.journal, AppChild(r), Publishing)),
                    AtCommit(AppRename(RecipeFile(r, k))))
  {
    assert FileAt(s.fs, r.app) == ExpectedApp(r);
  }

  lemma QuietAppCheck(s: State, r: Request, k: Identities, fs: Fs)
    requires IsAt(s, r, AtCommit(AppCheck(RecipeFile(r, k))))
    requires RecipeSaved(s, r, k, fs, Staged) && ValidRequest(r) && AppMatches(r, fs)
    requires r.creates || r.reviewed.identity != k.app
    ensures var s' := Go(s, Succeeds, k);
            IsAt(s', r, AtCommit(AppRename(RecipeFile(r, k)))) && RecipeSaved(s', r, k, fs, Publishing)
  {
    QuietCheckApp(s, r, k, fs);
    assert Go(s, Succeeds, k) == CheckApp(s, RecipeFile(r, k), Succeeds);
  }

  lemma QuietAppRename(s: State, r: Request, k: Identities, fs: Fs)
    requires IsAt(s, r, AtCommit(AppRename(RecipeFile(r, k))))
    requires RecipeSaved(s, r, k, fs, Publishing) && ValidRequest(r)
    ensures var s' := Go(s, Succeeds, k);
            && IsAt(s', r, AtCompletion(ParentPublished(RecipeFile(r, k))))
            && BothSaved(s', r, k, fs) && s'.journal[Parent(r.op)].phase == Publishing
  {
  }

  lemma QuietCaptureApp(s: State, r: Request, k: Identities, f: File)
    requires IsAt(s, r, AtCompletion(CaptureApp(f))) && f.bytes == r.recipeBytes
    requires r.app in s.fs.files && s.fs.files[r.app].bytes == r.appBytes
    ensures Go(s, Succeeds, k) == Goto(Note(s, AppCaptured(s.fs.files[r.app])), AtCompletion(Reconcile))
  {
    assert Go(s, Succeeds, k) == CaptureSaved(s, f, Succeeds);
  }

  lemma QuietCapture(s: State, r: Request, k: Identities, fs: Fs)
    requires IsAt(s, r, AtCompletion(ParentPublished(RecipeFile(r, k))))
    requires BothSaved(s, r, k, fs) && s.journal[Parent(r.op)].phase == Publishing
    ensures var s' := Quiet(s, k, 3);
            && IsAt(s', r, AtCompletion(CompleteRecipe))
            && BothSaved(s', r, k, fs) && s'.journal[Parent(r.op)].phase == Published
  {
    var f := RecipeFile(r, k);
    QuietAdvance(s, r, Published, AtCompletion(CaptureApp(f)));
    var s1 := Goto(s.(journal := WithPhase(s.journal, Parent(r.op), Published)), AtCompletion(CaptureApp(f)));
    QuietCaptureApp(s1, r, k, f);
    var s2 := Goto(Note(s1, AppCaptured(s1.fs.files[r.app])), AtCompletion(Reconcile));
    QuietThree(s, k, s1, s2, Goto(s2, AtCompletion(CompleteRecipe)));
  }

  lemma QuietCompleteRecipe(s: State, r: Request, k: Identities, fs: Fs)
    requires IsAt(s, r, AtCompletion(CompleteRecipe))
    requires BothSaved(s, r, k, fs)
    ensures var s' := Go(s, Succeeds, k);
            s' == Goto(s.(journal := WithPhase(s.journal, RecipeChild(r), Completed),
                          staging := s.staging - {RecipeChild(r)}), AtCompletion(CompleteApp))
  {
  }

  lemma QuietCompleteApp(s: State, r: Request, k: Identities)
    requires IsAt(s, r, AtCompletion(CompleteApp))
    requires AppChild(r) in s.journal && s.journal[AppChild(r)].phase == Published
    ensures var s' := Go(s, Succeeds, k);
            s' == Goto(s.(journal := WithPhase(s.journal, AppChild(r), Completed),
                          staging := s.staging - {AppChild(r)}), AtCompletion(CompleteParent))
  {
  }

  lemma QuietCompleteParent(s: State, r: Request, k: Identities)
    requires IsAt(s, r, AtCompletion(CompleteParent))
    requires Parent(r.op) in s.journal && s.journal[Parent(r.op)].phase == Published
    ensures var s' := Go(s, Succeeds, k);
            s'.call.Returned? && s'.call.outcome == Done(false) && s'.fs == s.fs
  {
  }

  lemma QuietCompletion(s: State, r: Request, k: Identities, fs: Fs)
    requires IsAt(s, r, AtCompletion(CompleteRecipe)) && ValidRequest(r)
    requires BothSaved(s, r, k, fs) && s.journal[Parent(r.op)].phase == Published
    ensures var s' := Quiet(s, k, 3);
            && s'.call.Returned? && s'.call.outcome == Done(false) && s'.fs == s.fs
  {
    QuietCompleteRecipe(s, r, k, fs);
    var s1 := Go(s, Succeeds, k);
    QuietCompleteApp(s1, r, k);
    var s2 := Go(s1, Succeeds, k);
    QuietCompleteParent(s2, r, k);
    QuietThree(s, k, s1, s2, Go(s2, Succeeds, k));
  }

  // ---- The whole undisturbed call ------------------------------------------------------------------

  lemma QuietFirstHalf(s: State, r: Request, k: Identities)
    requires s.call == Active(r, AtPreparation(BeginParent(ExpectedApp(r))), []) && ValidRequest(r)
    requires s.staging == map[]
    requires Parent(r.op) !in s.journal && RecipeChild(r) !in s.journal && AppChild(r) !in s.journal
    requires AdmittedFrom(r, s.fs, 0)
    ensures var s' := Quiet(s, k, 8);
            && IsAt(s', r, AtCommit(FinalCheck(RecipeFile(r, k), 0)))
            && RecipeSaved(s', r, k, s.fs, Staged)
  {
    assert AdmitCheckHolds(r, 0, s.fs) && AdmitCheckHolds(r, |r.directories| + 2, s.fs);
    QuietStaging(s, r, k);
    var s1 := Quiet(s, k, 3);
    QuietParent(s1, r, k);
    QuietRecipe(Quiet(s1, k, 2), r, k);
    QuietAdds(s1, k, 2, 3);
    QuietAdds(s, k, 3, 5);
  }

  lemma QuietSecondHalf(s: State, r: Request, k: Identities, fs: Fs)
    requires IsAt(s, r, AtCommit(AppRename(RecipeFile(r, k))))
    requires RecipeSaved(s, r, k, fs, Publishing) && ValidRequest(r)
    ensures var s' := Quiet(s, k, 7);
            && s'.call.Returned? && s'.call.outcome == Done(false)
            && s'.fs == WithFile(WithFile(fs, r.recipe, RecipeFile(r, k)), r.app, AppFile(r, k))
  {
    QuietAppRename(s, r, k, fs);
    var s1 := Go(s, Succeeds, k);
    assert Quiet(s, k, 7) == Quiet(s1, k, 6);
    QuietCapture(s1, r, k, fs);
    QuietCompletion(Quiet(s1, k, 3), r, k, fs);
    QuietAdds(s1, k, 3, 3);
  }

  /** From the start of the operation to the moment before the App's rename. */
  lemma QuietUntilRename(s: State, r: Request, k: Identities)
    requires s.call == Active(r, AtPreparation(BeginParent(ExpectedApp(r))), []) && ValidRequest(r)
    requires s.staging == map[]
    requires Parent(r.op) !in s.journal && RecipeChild(r) !in s.journal && AppChild(r) !in s.journal
    requires AdmittedFrom(r, s.fs, 0) && (r.creates || r.reviewed.identity != k.app)
    ensures var s' := Quiet(s, k, FinalChecks(r) + 9);
            && IsAt(s', r, AtCommit(AppRename(RecipeFile(r, k))))
            && RecipeSaved(s', r, k, s.fs, Publishing)
  {
    var fs, n := s.fs, FinalChecks(r);
    QuietFirstHalf(s, r, k);
    var s1 := Quiet(s, k, 8);
    AdmittedPasses(r, k, fs);
    QuietFinalChecks(s1, r, RecipeFile(r, k), k, 0);
    assert AdmitCheckHolds(r, 0, fs);
    var s2 := Quiet(s1, k, n);
    QuietAppCheck(s2, r, k, fs);
    var s3 := Go(s2, Succeeds, k);
    assert Quiet(s2, k, 1) == Quiet(s3, k, 0) == s3;
    QuietAdds(s1, k, n, 1);
    QuietAdds(s, k, 8, n + 1);
  }

  /** A new operation on a journal with nothing unresolved; a new file never has the identity of the App it replaces. */
  ghost predicate Admissible(s: State, r: Request, k: Identities) {
    && Reachable(s) && s.call.Idle? && ValidRequest(r)
    && AllTerminal(s.journal) && Parent(r.op) !in s.journal && (r.creates || r.reviewed.identity != k.app)
  }

  function StepsToRename(r: Request): nat { AdmitChecks(r) + FinalChecks(r) + 13 }

  lemma NoOldChildren(s: State, r: Request)
    requires Reachable(s) && Parent(r.op) !in s.journal
    ensures RecipeChild(r) !in s.journal && AppChild(r) !in s.journal
  {
    ReachableIsSound(s);
  }

  lemma StartEnters(started: State, r: Request, k: Identities) returns (entered: State)
    requires started.call == Active(r, AtEntry(Gate), []) && AllTerminal(started.journal)
    requires Parent(r.op) !in started.journal && AdmittedFrom(r, started.fs, 0)
    ensures entered == Quiet(started, k, AdmitChecks(r) + 4)
    ensures entered.call == Active(r, AtPreparation(BeginParent(ExpectedApp(r))), [])
    ensures entered.staging == map[] && entered.journal == started.journal && entered.fs == started.fs
  {
    QuietEntry(started, r, k);
    entered := Quiet(started, k, AdmitChecks(r) + 4);
  }

  lemma StartReachesTheRename(started: State, r: Request, k: Identities) returns (renaming: State)
    requires started.call == Active(r, AtEntry(Gate), []) && ValidRequest(r) && AllTerminal(started.journal)
    requires Parent(r.op) !in started.journal && RecipeChild(r) !in started.journal && AppChild(r) !in started.journal
    requires AdmittedFrom(r, started.fs, 0) && (r.creates || r.reviewed.identity != k.app)
    ensures renaming == Quiet(started, k, StepsToRename(r))
    ensures IsAt(renaming, r, AtCommit(AppRename(RecipeFile(r, k))))
    ensures RecipeSaved(renaming, r, k, started.fs, Publishing)
  {
    var entered := StartEnters(started, r, k);
    renaming := EnteredReachesTheRename(entered, r, k);
    RenamingIsReached(started, entered, renaming, r, k);
  }

  lemma RenamingIsReached(started: State, entered: State, renaming: State, r: Request, k: Identities)
    requires Quiet(started, k, AdmitChecks(r) + 4) == entered && Quiet(entered, k, FinalChecks(r) + 9) == renaming
    ensures Quiet(started, k, StepsToRename(r)) == renaming
  {
    QuietJoins(started, k, AdmitChecks(r) + 4, entered, FinalChecks(r) + 9, renaming);
  }

  lemma EnteredReachesTheRename(entered: State, r: Request, k: Identities) returns (renaming: State)
    requires entered.call == Active(r, AtPreparation(BeginParent(ExpectedApp(r))), []) && entered.staging == map[]
    requires Parent(r.op) !in entered.journal && RecipeChild(r) !in entered.journal && AppChild(r) !in entered.journal
    requires ValidRequest(r) && AdmittedFrom(r, entered.fs, 0) && (r.creates || r.reviewed.identity != k.app)
    ensures Quiet(entered, k, FinalChecks(r) + 9) == renaming
    ensures IsAt(renaming, r, AtCommit(AppRename(RecipeFile(r, k))))
    ensures RecipeSaved(renaming, r, k, entered.fs, Publishing)
  {
    QuietUntilRename(entered, r, k);
    renaming := Quiet(entered, k, FinalChecks(r) + 9);
  }

  lemma AdmissibleReachesTheRename(s: State, r: Request, k: Identities) returns (renaming: State)
    requires Admissible(s, r, k) && AdmittedFrom(r, s.fs, 0)
    ensures renaming == Quiet(Step(s, Begin(r)), k, StepsToRename(r))
    ensures IsAt(renaming, r, AtCommit(AppRename(RecipeFile(r, k))))
    ensures RecipeSaved(renaming, r, k, s.fs, Publishing)
  {
    NoOldChildren(s, r);
    renaming := StartReachesTheRename(Step(s, Begin(r)), r, k);
  }

  lemma RenamingSucceeds(renaming: State, r: Request, k: Identities, fs: Fs) returns (end: State)
    requires IsAt(renaming, r, AtCommit(AppRename(RecipeFile(r, k)))) && ValidRequest(r)
    requires RecipeSaved(renaming, r, k, fs, Publishing)
    ensures Quiet(renaming, k, 7) == end
    ensures end.call.Returned? && end.call.outcome == Done(false)
    ensures end.fs == WithFile(WithFile(fs, r.recipe, RecipeFile(r, k)), r.app, AppFile(r, k))
  {
    QuietSecondHalf(renaming, r, k, fs);
    end := Quiet(renaming, k, 7);
  }

  lemma EndIsReached(started: State, renaming: State, end: State, r: Request, k: Identities)
    requires Quiet(started, k, StepsToRename(r)) == renaming && Quiet(renaming, k, 7) == end
    ensures Quiet(started, k, StepsToRename(r) + 7) == end
  {
    QuietJoins(started, k, StepsToRename(r), renaming, 7, end);
  }

  lemma UndisturbedCallSucceeds(s: State, r: Request, k: Identities)
    requires Admissible(s, r, k) && AdmittedFrom(r, s.fs, 0)
    ensures var s' := Quiet(Step(s, Begin(r)), k, StepsToRename(r) + 7);
            && s'.call.Returned? && s'.call.outcome == Done(false)
            && s'.fs == WithFile(WithFile(s.fs, r.recipe, RecipeFile(r, k)), r.app, AppFile(r, k))
  {
    var renaming := AdmissibleReachesTheRename(s, r, k);
    var end := RenamingSucceeds(renaming, r, k, s.fs);
    EndIsReached(Step(s, Begin(r)), renaming, end, r, k);
  }

  lemma UndisturbedCallIsRefused(s: State, r: Request, k: Identities)
    requires Admissible(s, r, k) && !AdmittedFrom(r, s.fs, 0)
    ensures var s' := Quiet(Step(s, Begin(r)), k, StepsToRename(r) + 7);
            s'.call.Returned? && s'.call.outcome == Refused && s'.fs == s.fs
  {
    var started := Step(s, Begin(r));
    QuietEntry(started, r, k);
    ReturnedStays(Quiet(started, k, AdmitChecks(r) + 4), k, FinalChecks(r) + 16);
    QuietAdds(started, k, AdmitChecks(r) + 4, FinalChecks(r) + 16);
  }

  /**
   A new operation left alone saves exactly the two files if every admission
   check holds, and otherwise is refused and touches no file.
   */
  lemma UndisturbedCallSucceedsIff(s: State, r: Request, k: Identities)
    requires Admissible(s, r, k)
    ensures var s' := Quiet(Step(s, Begin(r)), k, StepsToRename(r) + 7);
            && s'.call.Returned?
            && s'.call.outcome == (if AdmittedFrom(r, s.fs, 0) then Done(false) else Refused)
            && s'.fs == if AdmittedFrom(r, s.fs, 0)
                        then WithFile(WithFile(s.fs, r.recipe, RecipeFile(r, k)), r.app, AppFile(r, k))
                        else s.fs
  {
    if AdmittedFrom(r, s.fs, 0) {
      UndisturbedCallSucceeds(s, r, k);
    } else {
      UndisturbedCallIsRefused(s, r, k);
    }
  }

  // ---- Repeating a finished operation --------------------------------------------------------------

  predicate FilesHold(r: Request, fs: Fs) {
    && r.app in fs.files && fs.files[r.app].bytes == r.appBytes
    && r.recipe in fs.files && fs.files[r.recipe].bytes == r.recipeBytes
  }

  /**
   Repeating a finished operation, left alone: another request under its id, or
   a rejected operation, is refused; a completed one succeeds exactly if both
   files still hold the published bytes. No file is touched either way.
   */
  lemma UndisturbedReplayAnswersIff(s: State, r: Request, k: Identities)
    requires s.call.Idle? && ValidRequest(r) && AllTerminal(s.journal) && Parent(r.op) in s.journal
    ensures var s' := Quiet(Step(s, Begin(r)), k, 4);
            var record := s.journal[Parent(r.op)];
            && s'.fs == s.fs && s'.journal == s.journal && s'.placements == s.placements
            && s'.call.Returned?
            && s'.call.outcome ==
                 if record.digest != DigestOf(r) || record.phase.Rejected? then Refused
                 else if FilesHold(r, s.fs) then Done(true) else Unsynchronized
  {
    var s0 := Step(s, Begin(r));
    var s1 := Go(s0, Succeeds, k);
    assert s1 == Goto(s0.(staging := map[]), AtEntry(Lookup));
    assert Quiet(s0, k, 4) == Quiet(s1, k, 3);
    assert IsTerminal(s.journal[Parent(r.op)].phase);
    QuietAnswer(s1, r, k);
  }

  lemma QuietAnswer(s: State, r: Request, k: Identities)
    requires s.call == Active(r, AtEntry(Lookup), []) && Parent(r.op) in s.journal
    requires IsTerminal(s.journal[Parent(r.op)].phase)
    ensures var s' := Quiet(s, k, 3);
            var record := s.journal[Parent(r.op)];
            && s'.fs == s.fs && s'.journal == s.journal && s'.placements == s.placements
            && s'.call.Returned?
            && s'.call.outcome ==
                 if record.digest != DigestOf(r) || record.phase.Rejected? then Refused
                 else if FilesHold(r, s.fs) then Done(true) else Unsynchronized
  {
    var s1 := Go(s, Succeeds, k);
    assert s1 == AnswerFromRecord(s);
    var s2 := Go(s1, Succeeds, k);
    var s3 := Go(s2, Succeeds, k);
    QuietThree(s, k, s1, s2, s3);
  }

  // ---- What single faults do to the answer ------------------------------------------------------------

  /** From its first look, an undisturbed rollback of a Recipe this call still owns removes it. */
  lemma QuietRollback(s: State, r: Request, k: Identities)
    requires IsAt(s, r, AtRollback(RollbackLook))
    requires Parent(r.op) in s.journal && RecipeWritten(s.journal, r)
    requires FileAt(s.fs, r.recipe) == Some(s.journal[RecipeChild(r)].write.value.staged)
    requires RecipeChild(r) !in s.staging
    ensures var s' := Quiet(s, k, 6);
            && s'.call.Returned? && s'.call.outcome == RecipeCommitted(true, false)
            && s'.fs == s.fs.(files := s.fs.files - {r.recipe})
  {
    var s1 := Go(s, Succeeds, k);
    assert s1 == Goto(Note(s, RecipeLooked(true, true)), AtRollback(RollbackVerify(true)));
    var s2 := Go(s1, Succeeds, k);
    assert s2.call.pc == AtRollback(RollbackRemove(true)) && s2.fs == s.fs;
    var s3 := Go(s2, Succeeds, k);
    assert s3.call.pc == AtRollback(RollbackChild(true, true)) && s3.fs == s.fs.(files := s.fs.files - {r.recipe});
    assert Quiet(s, k, 6) == Quiet(s1, k, 5) == Quiet(s2, k, 4) == Quiet(s3, k, 3);
    QuietReport(s3, r, k, true, true);
  }

  /** The last three steps of a rollback: two flags, one look, the report. */
  lemma QuietReport(s: State, r: Request, k: Identities, was: bool, undone: bool)
    requires IsAt(s, r, AtRollback(RollbackChild(was, undone)))
    ensures var s' := Quiet(s, k, 3);
            var present := r.recipe in s.fs.files;
            && s'.call.Returned? && s'.fs == s.fs
            && s'.call.outcome == RecipeCommitted(undone && was && !present, !undone || present)
  {
    var s1 := Go(s, Succeeds, k);
    assert s1.call.pc == AtRollback(RollbackParent(was, undone)) && s1.fs == s.fs;
    var s2 := Go(s1, Succeeds, k);
    assert s2.call.pc == AtRollback(RollbackReport(was, undone)) && s2.fs == s.fs;
    var s3 := Go(s2, Succeeds, k);
    QuietThree(s, k, s1, s2, s3);
  }

  /**
   `RecipeCommitted` does not mean that the App was not saved. Whenever a call
   could succeed, a fault right after the App's rename makes it report that the
   Recipe was committed and removed again, with the new App in place.
   */
  lemma FaultAfterTheRenameLeavesTheAppAlone(s: State, r: Request, k: Identities, p: Progress)
    requires Admissible(s, r, k) && AdmittedFrom(r, s.fs, 0) && (p.Halfway? || p.FailsAfterEffect?)
    ensures var renaming := Quiet(Step(s, Begin(r)), k, StepsToRename(r));
            var s' := Quiet(Go(renaming, p, k), k, 6);
            && s'.call.Returned? && s'.call.outcome == RecipeCommitted(true, false)
            && s'.fs == WithFile(s.fs, r.app, AppFile(r, k))
  {
    var renaming := AdmissibleReachesTheRename(s, r, k);
    assert AdmitCheckHolds(r, |r.directories| + 2, s.fs);
    FaultyRename(renaming, r, k, s.fs, p);
  }

  lemma FaultyRename(s: State, r: Request, k: Identities, fs: Fs, p: Progress)
    requires IsAt(s, r, AtCommit(AppRename(RecipeFile(r, k))))
    requires RecipeSaved(s, r, k, fs, Publishing) && ValidRequest(r) && (p.Halfway? || p.FailsAfterEffect?)
    requires r.recipe !in fs.files
    ensures var s' := Quiet(Go(s, p, k), k, 6);
            && s'.call.Returned? && s'.call.outcome == RecipeCommitted(true, false)
            && s'.fs == WithFile(fs, r.app, AppFile(r, k))
  {
    FaultyRenameStep(s, r, k, fs, p);
    RollbackAfterBoth(Go(s, p, k), r, k, fs);
  }

  lemma RollbackAfterBoth(s: State, r: Request, k: Identities, fs: Fs)
    requires IsAt(s, r, AtRollback(RollbackLook)) && ValidRequest(r) && r.recipe !in fs.files
    requires Parent(r.op) in s.journal && RecipeChild(r) !in s.staging
    requires Stands(s.journal, RecipeChild(r), Published, Some(RecipeWrite(r, k.recipe)))
    requires s.fs == WithFile(WithFile(fs, r.recipe, RecipeFile(r, k)), r.app, AppFile(r, k))
    ensures var s' := Quiet(s, k, 6);
            && s'.call.Returned? && s'.call.outcome == RecipeCommitted(true, false)
            && s'.fs == WithFile(fs, r.app, AppFile(r, k))
  {
    QuietRollback(s, r, k);
    RecipeGoesAway(fs, r, RecipeFile(r, k), AppFile(r, k));
  }

  lemma RecipeGoesAway(fs: Fs, r: Request, f: File, g: File)
    requires r.recipe !in fs.files && ValidRequest(r)
    ensures var both := WithFile(WithFile(fs, r.recipe, f), r.app, g);
            both.(files := both.files - {r.recipe}) == WithFile(fs, r.app, g)
  {
  }

  lemma FaultyRenameStep(s: State, r: Request, k: Identities, fs: Fs, p: Progress)
    requires IsAt(s, r, AtCommit(AppRename(RecipeFile(r, k))))
    requires RecipeSaved(s, r, k, fs, Publishing) && ValidRequest(r) && (p.Halfway? || p.FailsAfterEffect?)
    ensures var s' := Go(s, p, k);
            && IsAt(s', r, AtRollback(RollbackLook))
            && Parent(r.op) in s'.journal && s'.journal[Parent(r.op)] == s.journal[Parent(r.op)]
            && Stands(s'.journal, RecipeChild(r), Published, Some(RecipeWrite(r, k.recipe)))
            && RecipeChild(r) !in s'.staging
            && s'.fs == WithFile(WithFile(fs, r.recipe, RecipeFile(r, k)), r.app, AppFile(r, k))
  {
  }

  /**
   `removed` does not mean that this call removed the Recipe: if another program
   deletes it right after the rollback's first look, the report is the same.
   */
  lemma ExternalDeletionIsReportedAsRemoved(s: State, r: Request, k: Identities)
    requires Admissible(s, r, k) && AdmittedFrom(r, s.fs, 0)
    ensures var renaming := Quiet(Step(s, Begin(r)), k, StepsToRename(r));
            var looked := Go(Go(renaming, Fails, k), Succeeds, k);
            var deleted := Step(looked, External(looked.fs.(files := looked.fs.files - {r.recipe})));
            var verified, s' := Go(deleted, Succeeds, k), Quiet(deleted, k, 4);
            && looked.call.Active? && verified == UndoNoted(deleted, true, AlreadyGone)
            && s'.call.Returned? && s'.call.outcome == RecipeCommitted(true, false)
  {
    var renaming := AdmissibleReachesTheRename(s, r, k);
    LookAfterFailure(renaming, r, k, s.fs);
    var looked := Go(Go(renaming, Fails, k), Succeeds, k);
    GoneIsReported(looked.(fs := looked.fs.(files := looked.fs.files - {r.recipe})), r, k);
  }

  lemma GoneIsReported(s: State, r: Request, k: Identities)
    requires IsAt(s, r, AtRollback(RollbackVerify(true))) && RecipeWritten(s.journal, r) && r.recipe !in s.fs.files
    ensures Go(s, Succeeds, k) == UndoNoted(s, true, AlreadyGone)
    ensures var s' := Quiet(s, k, 4);
            s'.call.Returned? && s'.call.outcome == RecipeCommitted(true, false)
  {
    var verified := Go(s, Succeeds, k);
    assert verified == Verify(s, true, Succeeds) == UndoNoted(s, true, AlreadyGone);
    assert Quiet(s, k, 4) == Quiet(verified, k, 3);
    QuietReport(verified, r, k, true, true);
  }

  lemma LookAfterFailure(s: State, r: Request, k: Identities, fs: Fs)
    requires IsAt(s, r, AtCommit(AppRename(RecipeFile(r, k)))) && RecipeSaved(s, r, k, fs, Publishing)
    ensures var s' := Go(Go(s, Fails, k), Succeeds, k);
            IsAt(s', r, AtRollback(RollbackVerify(true))) && s'.journal == s.journal && s'.fs == s.fs
            && s'.staging == s.staging
  {
    assert Go(s, Fails, k) == Goto(s, AtRollback(RollbackLook));
  }

  /** `Unsynchronized` does not mean that anything was saved: the parent's first transition may fail. */
  lemma UnsynchronizedMaySaveNothing(s: State, r: Request, k: Identities)
    requires Admissible(s, r, k) && AdmittedFrom(r, s.fs, 0)
    ensures var staged := Quiet(Step(s, Begin(r)), k, AdmitChecks(r) + 7);
            var s' := Go(staged, Fails, k);
            s'.call == Returned(r, Unsynchronized, []) && s'.fs == s.fs
  {
    NoOldChildren(s, r);
    var started := Step(s, Begin(r));
    QuietEntry(started, r, k);
    var entered := Goto(started.(staging := map[]), AtPreparation(BeginParent(ExpectedApp(r))));
    QuietThen(started, k, AdmitChecks(r) + 4, entered, 3);
    StagedThenFailed(entered, r, k);
  }

  lemma StagedThenFailed(s: State, r: Request, k: Identities)
    requires s.call == Active(r, AtPreparation(BeginParent(ExpectedApp(r))), []) && ValidRequest(r)
    requires s.staging == map[]
    requires Parent(r.op) !in s.journal && RecipeChild(r) !in s.journal && AppChild(r) !in s.journal
    requires AdmittedFrom(r, s.fs, 0)
    ensures var s' := Go(Quiet(s, k, 3), Fails, k);
            s'.call == Returned(r, Unsynchronized, []) && s'.fs == s.fs
  {
    assert AdmitCheckHolds(r, 0, s.fs) && AdmitCheckHolds(r, |r.directories| + 2, s.fs);
    QuietStaging(s, r, k);
    ParentMayFail(Quiet(s, k, 3), r, k);
  }

  lemma ParentMayFail(s: State, r: Request, k: Identities)
    requires s.call == Active(r, AtPreparation(ParentStaged), [])
    ensures Go(s, Fails, k) == Return(s, Unsynchronized)
  {
  }
}
