/**
 What a caller of the pair publication may rely on: the meaning of each
 outcome, over every run from an empty journal.
 */
module PairGuarantees {
  import opened Wrappers
  import opened DigestFraming
  import opened CatalogFiles
  import opened CatalogJournal
  import opened PairPublication
  import opened PairSafety

  /** The catalog may start with any files; the journal starts empty. */
  ghost predicate Reachable(s: State) {
    exists fs: Fs, choices: seq<Choice> :: s == Run(Init(fs), choices)
  }

  lemma ReachableIsSound(s: State)
    requires Reachable(s)
    ensures Inv(s)
  {
    var fs: Fs, choices: seq<Choice> :| s == Run(Init(fs), choices);
    RunKeeps(Init(fs), choices);
  }

  lemma OutcomeIsSound(s: State)
    requires Reachable(s) && s.call.Returned?
    ensures OutcomeInv(s, s.call.request, s.call.outcome, s.call.log) && Books(s, s.call.request)
  {
    ReachableIsSound(s);
    assert ReturnedAt(s, s.call.request);
  }

  // ---- Success -----------------------------------------------------------------------------

  /**
   A first success: the Recipe was saved and captured, then the App destination,
   the Recipe and every captured directory were found unchanged, and only then
   the App was saved; all three records are completed.
   */
  lemma FirstSuccessMeans(s: State)
    requires Reachable(s) && s.call.Returned? && s.call.outcome == Done(false)
    ensures PairPublished(s.call.request, s.call.log) && AllCompleted(s.journal, s.call.request)
    ensures FinalChecksPassed(s.call.request, s.call.log)
  {
    OutcomeIsSound(s);
    FinalChecksSpelledOut(s.call.request, s.call.log);
  }

  /** What the final checks saw, one by one, between the capture of the Recipe and the save of the App. */
  ghost predicate FinalChecksPassed(r: Request, log: seq<Event>) {
    && |log| == |r.directories| + 6
    && log[0].RecipePlaced? && log[1].RecipeCaptured? && log[|log| - 2].AppPlaced? && log[|log| - 1].AppCaptured?
    && log[2].CheckPassed? && AppIsAsReviewed(r, log[2].fs)
    && log[3].CheckPassed? && r.recipe in log[3].fs.files && log[3].fs.files[r.recipe] == log[1].file
    && forall i :: 0 <= i < |r.directories| ==> DirectoryPassed(r, log, i)
  }

  /** A new App's destination is free; an existing App has the reviewed bytes and identity. */
  ghost predicate AppIsAsReviewed(r: Request, fs: Fs) {
    if r.creates then r.app !in fs.files else r.app in fs.files && fs.files[r.app] == r.reviewed
  }

  ghost predicate Holds(files: map<CatalogPath, File>, p: CatalogPath, f: File) {
    p in files && files[p] == f
  }

  ghost predicate IsListed(fs: Fs, directory: string, p: CatalogPath, f: File) {
    Holds(fs.files, p, f) && p.directory == directory && HasYamlExtension(p.name)
  }

  /** The directory itself and its YAML files are the captured ones, by bytes and identity. */
  ghost predicate DirectoryIsAsCaptured(d: DirectoryCapture, fs: Fs) {
    && d.directory in fs.directories && fs.directories[d.directory] == d.identity
    && forall p, f :: IsListed(fs, d.directory, p, f) <==> Holds(d.files, p, f)
  }

  /** The same, but for the owned Recipe, which was not captured and may be there with its prepared bytes. */
  ghost predicate DirectoryGainedAtMost(d: DirectoryCapture, fs: Fs, recipe: CatalogPath, prepared: string) {
    && d.directory in fs.directories && fs.directories[d.directory] == d.identity && recipe !in d.files
    && (forall p, f :: p != recipe ==> (IsListed(fs, d.directory, p, f) <==> Holds(d.files, p, f)))
    && (forall f :: IsListed(fs, d.directory, recipe, f) ==> f.bytes == prepared)
  }

  lemma ListingMeans(fs: Fs, directory: string, p: CatalogPath, f: File)
    ensures Holds(Listing(fs, directory), p, f) <==> IsListed(fs, directory, p, f)
  {
    YamlMeans(p.name);
  }

  lemma SameMaps(a: map<CatalogPath, File>, b: map<CatalogPath, File>)
    ensures a == b <==> forall p, f :: Holds(a, p, f) <==> Holds(b, p, f)
  {
    if forall p, f :: Holds(a, p, f) <==> Holds(b, p, f) {
      forall p | p in a ensures p in b && b[p] == a[p] {
        assert Holds(a, p, a[p]);
      }
      forall p | p in b ensures p in a {
        assert Holds(b, p, b[p]);
      }
    }
  }

  lemma DirectoriesMean(d: DirectoryCapture, fs: Fs, recipe: CatalogPath, prepared: string)
    ensures DirectoryEquals(d, fs) <==> DirectoryIsAsCaptured(d, fs)
    ensures DirectoryUnchangedExcept(d, fs, recipe, prepared) <==> DirectoryGainedAtMost(d, fs, recipe, prepared)
  {
    var listing := Listing(fs, d.directory);
    forall p, f ensures Holds(listing, p, f) <==> IsListed(fs, d.directory, p, f) {
      ListingMeans(fs, d.directory, p, f);
    }
    SameMaps(listing, d.files);
    SameMaps(listing - {recipe}, d.files);
    assert forall p, f :: Holds(listing - {recipe}, p, f) <==> p != recipe && Holds(listing, p, f);
    OneMissingMeans(listing, d.files, recipe);
    assert recipe in listing ==> Holds(listing, recipe, listing[recipe]);
  }

  lemma OneMissingMeans(all: map<CatalogPath, File>, kept: map<CatalogPath, File>, recipe: CatalogPath)
    ensures (forall p, f :: Holds(all - {recipe}, p, f) <==> Holds(kept, p, f)) <==>
            recipe !in kept && forall p, f :: p != recipe ==> (Holds(all, p, f) <==> Holds(kept, p, f))
  {
    assert forall p, f :: Holds(all - {recipe}, p, f) <==> p != recipe && Holds(all, p, f);
    if recipe in kept {
      assert Holds(kept, recipe, kept[recipe]);
    }
  }

  lemma AppMatchesMeans(r: Request, fs: Fs)
    ensures AppMatches(r, fs) <==> AppIsAsReviewed(r, fs)
  {
  }

  /** Directory `i`, at its check, held what the review captured and at most the owned Recipe besides. */
  ghost predicate DirectoryPassed(r: Request, log: seq<Event>, i: nat)
    requires i < |r.directories| && i + 4 < |log|
  {
    log[i + 4].CheckPassed? && DirectoryGainedAtMost(r.directories[i], log[i + 4].fs, r.recipe, r.recipeBytes)
  }

  lemma FinalChecksSpelledOut(r: Request, log: seq<Event>)
    requires PairPublished(r, log)
    ensures FinalChecksPassed(r, log)
  {
    assert PassedCheck(r, log, 0) && FinalCheckHolds(r, log[1].file, 0, log[2].fs);
    AppMatchesMeans(r, log[2].fs);
    assert PassedCheck(r, log, 1) && FinalCheckHolds(r, log[1].file, 1, log[3].fs);
    forall i | 0 <= i < |r.directories|
      ensures DirectoryPassed(r, log, i)
    {
      assert PassedCheck(r, log, i + 2) && FinalCheckHolds(r, log[1].file, i + 2, log[i + 4].fs);
      DirectoriesMean(r.directories[i], log[i + 4].fs, r.recipe, r.recipeBytes);
    }
  }

  // ---- Replay ------------------------------------------------------------------------------

  /** The two requests ask for the same: files, bytes, reviewed App and captured directories, by what is digested. */
  ghost predicate AsksTheSame(q: Request, r: Request) {
    && q.app == r.app && q.appBytes == r.appBytes && q.recipe == r.recipe && q.recipeBytes == r.recipeBytes
    && q.reviewed.bytes == r.reviewed.bytes && q.reviewedIdentity == r.reviewedIdentity
    && q.directoriesText == r.directoriesText
  }

  lemma SameFieldsAskTheSame(q: Request, r: Request)
    requires ValidRequest(q) && ValidRequest(r)
    ensures DigestOf(q) == DigestOf(r) <==> AsksTheSame(q, r)
  {
    var a, b := DigestFields(q), DigestFields(r);
    if DigestOf(q) == DigestOf(r) {
      DigestInputIsInjective(a, b);
      assert a[0] == b[0] && a[1] == b[1] && a[2] == b[2] && a[3] == b[3];
      assert a[4] == b[4] && a[5] == b[5] && a[6] == b[6];
      PathTextMeans("apps", q.app.name, r.app.name);
      PathTextMeans("recipes", q.recipe.name, r.recipe.name);
    }
  }

  lemma PathTextMeans(directory: string, a: string, b: string)
    requires PathText(CatalogPath(directory, a)) == PathText(CatalogPath(directory, b))
    ensures a == b
  {
    var prefix := directory + "/";
    assert a == (prefix + a)[|prefix|..] && b == (prefix + b)[|prefix|..];
    assert PathText(CatalogPath(directory, a)) == prefix + a;
    assert PathText(CatalogPath(directory, b)) == prefix + b;
  }

  /** A replayed success repeats a recorded request, saw both files holding its bytes, and wrote nothing. */
  lemma ReplayedSuccessMeans(s: State)
    requires Reachable(s) && s.call.Returned? && s.call.outcome == Done(true)
    ensures ReplayConfirmed(s, s.call.request, s.call.log)
    ensures var r, log := s.call.request, s.call.log;
            && AsksTheSame(s.recorded[r.op], r)
            && log == [ReplayedApp(log[0].file), ReplayedRecipe(log[1].file)]
            && log[0].file.bytes == r.appBytes && log[1].file.bytes == r.recipeBytes
    ensures forall w :: w in s.placements ==> w.call != s.calls
  {
    OutcomeIsSound(s);
    SameFieldsAskTheSame(s.recorded[s.call.request.op], s.call.request);
  }

  /** However often an operation id is used, one call publishes for it, and each destination once. */
  lemma OneCallPublishes(s: State)
    requires Reachable(s)
    ensures OneWriter(s.placements)
  {
    ReachableIsSound(s);
  }

  // ---- Refusal -----------------------------------------------------------------------------

  lemma RefusedWroteNothing(s: State)
    requires Reachable(s) && s.call.Returned? && s.call.outcome.Refused?
    ensures s.call.log == [] && forall w :: w in s.placements ==> w.call != s.calls
  {
    OutcomeIsSound(s);
  }

  /**
   What the two flags of a report say, exactly: each follows from the two looks
   and from what was undone between them, and they are never both set.
   */
  lemma RecipeCommittedMeans(s: State)
    requires Reachable(s) && s.call.Returned? && s.call.outcome.RecipeCommitted?
    ensures var log, report := s.call.log, s.call.outcome;
            var m := |log| - 3;
            && m >= 2 && log[0].RecipePlaced? && log[0].file.bytes == s.call.request.recipeBytes
            && log[m].RecipeLooked? && log[m + 1].RecipeUndone? && log[m + 2].RecipeLooked?
            && var undone := log[m + 1].undo.AlreadyGone? || log[m + 1].undo.Removed?;
               var present := log[m + 2].readable && log[m + 2].present;
               && (report.removed <==> undone && log[m].readable && log[m].present && !present)
               && (report.recoveryRequired <==> !undone || present)
               && !(report.removed && report.recoveryRequired)
               && (!report.removed && !report.recoveryRequired <==>
                     undone && !present && !(log[m].readable && log[m].present))
  {
    OutcomeIsSound(s);
  }

  /**
   When a removal is reported of a Recipe this call renamed into place, the call
   did remove a file there if and only if the Recipe's staged file is back;
   otherwise it found the Recipe already gone.
   */
  lemma StagingTellsWhoRemovedTheRecipe(s: State)
    requires Reachable(s) && s.call.Returned? && s.call.outcome.RecipeCommitted? && s.call.outcome.removed
    requires Placement(s.calls, s.call.request.op, s.call.request.recipe) in s.placements
    ensures |s.call.log| >= 2 &&
            var entry := s.call.log[|s.call.log| - 2];
            && entry.RecipeUndone? && (entry.undo.Removed? || entry.undo.AlreadyGone?)
            && (entry.undo.Removed? <==> RecipeChild(s.call.request) in s.staging)
  {
    OutcomeIsSound(s);
  }

  /** Nothing is ever removed before an unsynchronized answer. */
  lemma UnsynchronizedRemovedNothing(s: State)
    requires Reachable(s) && s.call.Returned? && s.call.outcome.Unsynchronized?
    ensures forall e :: e in s.call.log ==> !e.RecipeUndone?
  {
    OutcomeIsSound(s);
    forall i | 0 <= i < |s.call.log| ensures !s.call.log[i].RecipeUndone? {
      NothingUndoneAt(s.call.request, s.call.log, i);
    }
  }

  lemma NothingUndoneAt(r: Request, log: seq<Event>, i: nat)
    requires UnsynchronizedLog(r, log) && i < |log|
    ensures !log[i].RecipeUndone?
  {
    if 2 <= i < FinalChecks(r) + 2 && ChecksUpTo(r, log, i - 1) {
      assert PassedCheck(r, log, i - 2);
    }
  }

  /**
   After `RecipeCommitted`, and after `Unsynchronized` unless the operation or
   the App's own record is completed, this call renamed the App into place
   exactly if the App's staged file is gone: the outcome alone does not tell.
   */
  lemma StagingTellsWhetherTheAppWasSaved(s: State)
    requires Reachable(s) && s.call.Returned?
    requires s.call.outcome.RecipeCommitted?
             || (s.call.outcome.Unsynchronized? && !IsCompleted(s.journal, Parent(s.call.request.op))
                 && !IsCompleted(s.journal, AppChild(s.call.request)))
    ensures AppChild(s.call.request) !in s.staging
            <==> Placement(s.calls, s.call.request.op, s.call.request.app) in s.placements
  {
    OutcomeIsSound(s);
    var r, log := s.call.request, s.call.log;
    PlacedIffRenamed(s, r);
    if s.call.outcome.Unsynchronized? {
      assert Unfinished(s, r, log) && ChildTells(s, AppChild(r), AppRenamed(r, log));
    } else {
      assert StagingTells(s, r, log);
    }
  }

  /** The renames of a call that has returned are those in its log. */
  lemma PlacedIffRenamed(s: State, r: Request)
    requires Books(s, r)
    ensures Placement(s.calls, r.op, r.recipe) in s.placements <==> RecipeRenamed(s.call.log)
    ensures Placement(s.calls, r.op, r.app) in s.placements <==> AppRenamed(r, s.call.log)
    ensures (forall w :: w in s.placements ==> w.call != s.calls)
            <==> !RecipeRenamed(s.call.log) && !AppRenamed(r, s.call.log)
  {
  }

  /**
   An unsynchronized answer of an operation not recorded as completed. Once one
   of the two files has a completed record, the whole pair was published. Until
   then the staged files tell: each file was renamed into place by this call if
   and only if its staged file is gone; the App only after the Recipe was placed.
   */
  lemma UnsynchronizedMeans(s: State)
    requires Reachable(s) && s.call.Returned? && s.call.outcome.Unsynchronized?
    requires !IsCompleted(s.journal, Parent(s.call.request.op))
    ensures var r, log := s.call.request, s.call.log;
            if IsCompleted(s.journal, RecipeChild(r)) || IsCompleted(s.journal, AppChild(r))
            then PairPublished(r, log) && FinalChecksPassed(r, log)
            else
              && (RecipeChild(r) !in s.staging <==> Placement(s.calls, r.op, r.recipe) in s.placements)
              && (AppChild(r) !in s.staging <==> Placement(s.calls, r.op, r.app) in s.placements)
              && (AppChild(r) !in s.staging <==> PairPlaced(r, log) && log[FinalChecks(r) + 2].renamed)
              && (RecipeChild(r) in s.staging && AppChild(r) in s.staging <==>
                    forall w :: w in s.placements ==> w.call != s.calls)
  {
    OutcomeIsSound(s);
    var r, log := s.call.request, s.call.log;
    assert Unfinished(s, r, log);
    PlacedIffRenamed(s, r);
    if PairPublished(r, log) {
      FinalChecksSpelledOut(r, log);
    }
    if AppRenamed(r, log) {
      RenamedMeansPlaced(r, log);
    }
  }

  lemma RenamedMeansPlaced(r: Request, log: seq<Event>)
    requires UnsynchronizedLog(r, log) && AppRenamed(r, log)
    ensures PairPlaced(r, log)
  {
  }

  /**
   An unsynchronized answer of a completed operation: either a repetition that
   could not read a file or saw other bytes, and renamed nothing; or the very
   call that published the pair, whose last journal write took effect and then
   failed.
   */
  lemma UnsynchronizedAfterCompletionMeans(s: State)
    requires Reachable(s) && s.call.Returned? && s.call.outcome.Unsynchronized?
    requires IsCompleted(s.journal, Parent(s.call.request.op))
    ensures var r, log := s.call.request, s.call.log;
            || (ReplayFailed(r, log) && forall w :: w in s.placements ==> w.call != s.calls)
            || (PairPublished(r, log) && FinalChecksPassed(r, log) && AllCompleted(s.journal, r))
  {
    OutcomeIsSound(s);
    if PairPublished(s.call.request, s.call.log) {
      FinalChecksSpelledOut(s.call.request, s.call.log);
    }
  }

  // ---- The log is what the call does to the files ---------------------------------------------

  /** What one entry says was done to the files. */
  function Effect(fs: Fs, r: Request, e: Event): Fs {
    match e
    case RecipePlaced(f, renamed, _) => if renamed then fs.(files := fs.files[r.recipe := f]) else fs
    case AppPlaced(f, renamed, _) => if renamed then fs.(files := fs.files[r.app := f]) else fs
    case RecipeUndone(u) => if u.Removed? || u.RemovedUnsynced? then fs.(files := fs.files - {r.recipe}) else fs
    case _ => fs
  }

  function Effects(fs: Fs, r: Request, log: seq<Event>): Fs {
    if log == [] then fs else Effect(Effects(fs, r, log[..|log| - 1]), r, log[|log| - 1])
  }

  /** From `s` to `s'` the call logged at most one entry, and did to the files what the entry says. */
  ghost predicate WritesItsEntry(s: State, s': State) {
    && !s.call.Idle? && !s'.call.Idle? && s'.call.request == s.call.request
    && var log, log' := s.call.log, s'.call.log;
       || (log' == log && s'.fs == s.fs)
       || (|log'| == |log| + 1 && log' == log + [log'[|log|]] && s'.fs == Effect(s.fs, s.call.request, log'[|log|]))
  }

  lemma EnterWrites(s: State, p: Progress)
    requires s.call.Active? && s.call.pc.AtEntry?
    ensures WritesItsEntry(s, Enter(s, p))
  {
  }

  lemma AdmitWrites(s: State, p: Progress)
    requires s.call.Active? && s.call.pc.AtAdmission?
    ensures WritesItsEntry(s, Admit(s, p))
  {
  }

  lemma BeginWrites(s: State, current: Option<File>, p: Progress)
    requires s.call.Active?
    ensures WritesItsEntry(s, BeginOperation(s, current, p))
  {
  }

  lemma StageFileWrites(s: State, id: JournalId, write: Write, p: Progress, next: Pc)
    requires s.call.Active?
    ensures WritesItsEntry(s, StageFile(s, id, write, p, next))
  {
  }

  lemma PrepareWrites(s: State, p: Progress, identity: nat)
    requires s.call.Active? && s.call.pc.AtPreparation?
    ensures WritesItsEntry(s, Prepare(s, p, identity))
  {
    var r := s.call.request;
    match s.call.pc.preparation
    case BeginParent(current) => BeginWrites(s, current, p);
    case StageRecipe(current) =>
      StageFileWrites(s, RecipeChild(r), RecipeWrite(r, identity), p, AtPreparation(StageApp(current)));
    case StageApp(current) =>
      StageFileWrites(s, AppChild(r), AppWrite(r, current, identity), p, AtPreparation(ParentStaged));
    case _ =>
  }

  lemma CheckRecipeWrites(s: State, p: Progress)
    requires s.call.Active?
    ensures WritesItsEntry(s, CheckRecipe(s, p))
  {
  }

  lemma RenameRecipeWrites(s: State, p: Progress)
    requires s.call.Active?
    ensures WritesItsEntry(s, RenameRecipe(s, p))
  {
  }

  lemma CaptureCommittedWrites(s: State, p: Progress)
    requires s.call.Active?
    ensures WritesItsEntry(s, CaptureCommitted(s, p))
  {
  }

  lemma RecipeStepWrites(s: State, p: Progress)
    requires s.call.Active? && s.call.pc.AtRecipePhase?
    ensures WritesItsEntry(s, PublishRecipe(s, p))
  {
    match s.call.pc.publication
    case RecipeCheck => CheckRecipeWrites(s, p);
    case RecipeRename => RenameRecipeWrites(s, p);
    case Abandon =>
    case CaptureRecipe => CaptureCommittedWrites(s, p);
  }

  lemma RecheckWrites(s: State, f: File, i: nat, p: Progress)
    requires s.call.Active?
    ensures WritesItsEntry(s, Recheck(s, f, i, p))
  {
  }

  lemma CheckAppWrites(s: State, f: File, p: Progress)
    requires s.call.Active?
    ensures WritesItsEntry(s, CheckApp(s, f, p))
  {
  }

  lemma RenameAppWrites(s: State, f: File, p: Progress)
    requires s.call.Active?
    ensures WritesItsEntry(s, RenameApp(s, f, p))
  {
  }

  lemma CommitStepWrites(s: State, p: Progress)
    requires s.call.Active? && s.call.pc.AtCommit?
    ensures WritesItsEntry(s, PublishApp(s, p))
  {
    match s.call.pc.commit
    case FinalCheck(f, i) => RecheckWrites(s, f, i, p);
    case AppCheck(f) => CheckAppWrites(s, f, p);
    case AppRename(f) => RenameAppWrites(s, f, p);
  }

  lemma VerifyWrites(s: State, was: bool, p: Progress)
    requires s.call.Active?
    ensures WritesItsEntry(s, Verify(s, was, p))
  {
  }

  lemma RemoveWrites(s: State, was: bool, p: Progress)
    requires s.call.Active?
    ensures WritesItsEntry(s, Remove(s, was, p))
  {
  }

  lemma ReportWrites(s: State, was: bool, undone: bool, p: Progress)
    requires s.call.Active?
    ensures WritesItsEntry(s, Report(s, was, undone, p))
  {
  }

  lemma RollbackStepWrites(s: State, p: Progress)
    requires s.call.Active? && s.call.pc.AtRollback?
    ensures WritesItsEntry(s, UndoRecipe(s, p))
  {
    match s.call.pc.rollback
    case RollbackLook =>
    case RollbackVerify(was) => VerifyWrites(s, was, p);
    case RollbackRemove(was) => RemoveWrites(s, was, p);
    case RollbackChild(_, _) =>
    case RollbackParent(_, _) =>
    case RollbackReport(was, undone) => ReportWrites(s, was, undone, p);
  }

  lemma CaptureSavedWrites(s: State, f: File, p: Progress)
    requires s.call.Active?
    ensures WritesItsEntry(s, CaptureSaved(s, f, p))
  {
  }

  lemma CompleteChildWrites(s: State, id: JournalId, p: Progress, next: Pc)
    requires s.call.Active?
    ensures WritesItsEntry(s, CompleteChild(s, id, p, next))
  {
  }

  lemma CompletionStepWrites(s: State, p: Progress)
    requires s.call.Active? && s.call.pc.AtCompletion?
    ensures WritesItsEntry(s, Finish(s, p))
  {
    match s.call.pc.completion
    case CaptureApp(f) => CaptureSavedWrites(s, f, p);
    case CompleteRecipe => CompleteChildWrites(s, RecipeChild(s.call.request), p, AtCompletion(CompleteApp));
    case CompleteApp => CompleteChildWrites(s, AppChild(s.call.request), p, AtCompletion(CompleteParent));
    case _ =>
  }

  /** Whatever step a call takes, and however it fails, it changes the files exactly as it logs. */
  lemma StepWritesItsEntry(s: State, p: Progress, identity: nat)
    requires s.call.Active?
    ensures WritesItsEntry(s, Step(s, Proceed(p, identity)))
  {
    match s.call.pc
    case AtRecipePhase(_) => RecipeStepWrites(s, p);
    case AtCommit(_) => CommitStepWrites(s, p);
    case AtRollback(_) => RollbackStepWrites(s, p);
    case AtCompletion(_) => CompletionStepWrites(s, p);
    case AtEntry(_) => EnterWrites(s, p);
    case AtAdmission(_) => AdmitWrites(s, p);
    case AtPreparation(_) => PrepareWrites(s, p, identity);
  }

  lemma {:induction false} StepsWriteTheirLog(s: State, r: Request, fs: Fs, choices: seq<Choice>)
    requires !s.call.Idle? && s.call.request == r && s.fs == Effects(fs, r, s.call.log)
    requires forall c :: c in choices ==> c.Proceed?
    ensures var s' := Run(s, choices);
            !s'.call.Idle? && s'.call.request == r && s'.fs == Effects(fs, r, s'.call.log)
    decreases |choices|
  {
    if choices != [] {
      var c := choices[0];
      assert c in choices && c.Proceed?;
      var next := Step(s, c);
      if s.call.Active? {
        StepWritesItsEntry(s, c.progress, c.identity);
        if next.call.log != s.call.log {
          assert next.call.log[..|next.call.log| - 1] == s.call.log;
        }
      }
      assert forall d :: d in choices[1..] ==> d in choices;
      StepsWriteTheirLog(next, r, fs, choices[1..]);
    }
  }

  /**
   While no other program writes, the catalog differs from what the call found
   by exactly what its log says, whatever fails and wherever the call stands; so
   a refused call leaves every file as it was.
   */
  lemma CallWritesItsLog(s: State, r: Request, choices: seq<Choice>)
    requires s.call.Idle? && ValidRequest(r) && forall c :: c in choices ==> c.Proceed?
    ensures var s' := Run(Step(s, Begin(r)), choices);
            && !s'.call.Idle? && s'.fs == Effects(s.fs, r, s'.call.log)
            && (Reachable(s) && s'.call.Returned? && s'.call.outcome.Refused? ==> s'.fs == s.fs)
  {
    StepsWriteTheirLog(Step(s, Begin(r)), r, s.fs, choices);
    var s' := Run(Step(s, Begin(r)), choices);
    if Reachable(s) && s'.call.Returned? && s'.call.outcome.Refused? {
      ReachableIsSound(s);
      RunKeeps(Step(s, Begin(r)), choices);
    }
  }

  // ---- The recovery gate and the journal -----------------------------------------------------

  lemma GateRefuses(s: State, id: JournalId, p: Progress)
    requires s.call.Active? && id in s.journal && !IsTerminal(s.journal[id].phase)
    ensures var s' := PassGate(s, p);
            && s' == s.(call := Returned(s.call.request, Refused, s.call.log), staging := s'.staging)
            && (forall i :: i in s'.staging ==> i in s.staging && s'.staging[i] == s.staging[i])
            && (forall i :: i in s.staging && i in s.journal && !IsTerminal(s.journal[i].phase) ==> i in s'.staging)
            && (p.Succeeds? ==> forall i :: i in s'.staging ==> i in s.journal && !IsTerminal(s.journal[i].phase))
  {
  }

  /**
   While any operation is unresolved, every new call is refused at once: files
   and journal stay, and of the staged files only those of finished operations
   and orphans may go.
   */
  lemma UnresolvedOperationBlocks(s: State, id: JournalId, r: Request, p: Progress, identity: nat)
    requires s.call.Idle? && ValidRequest(r) && id in s.journal && !IsTerminal(s.journal[id].phase)
    ensures var s' := Run(s, [Begin(r), Proceed(p, identity)]);
            && s' == s.(call := Returned(r, Refused, []), calls := s.calls + 1, staging := s'.staging)
            && (forall i :: i in s'.staging ==> i in s.staging && s'.staging[i] == s.staging[i])
            && (forall i :: i in s.staging && i in s.journal && !IsTerminal(s.journal[i].phase) ==> i in s'.staging)
            && (p.Succeeds? ==> forall i :: i in s'.staging ==> i in s.journal && !IsTerminal(s.journal[i].phase))
  {
    var started := Step(s, Begin(r));
    assert [Begin(r), Proceed(p, identity)][1..] == [Proceed(p, identity)];
    assert [Proceed(p, identity)][1..] == [];
    assert Run(started, [Proceed(p, identity)]) == Run(Step(started, Proceed(p, identity)), []);
    GateRefuses(started, id, p);
  }

  /**
   The gate makes two branches of the replay code unreachable: an operation that
   is looked up has always ended, and an id found new stays new until it is recorded.
   */
  lemma ReplayOnlySeesFinishedOperations(s: State)
    requires Reachable(s) && s.call.Active?
    ensures s.call.pc == AtEntry(Lookup) && Parent(s.call.request.op) in s.journal ==>
              var s' := AnswerFromRecord(s);
              s'.call.Returned? ==> s'.call.outcome.Refused?
    ensures s.call.pc.AtPreparation? && s.call.pc.preparation.BeginParent? ==> Parent(s.call.request.op) !in s.journal
  {
    ReachableIsSound(s);
    if s.call.pc == AtEntry(Lookup) {
      assert EntryAt(s, s.call.request);
      FinishedIsAnswered(s);
    } else if s.call.pc.AtPreparation? {
      assert PreparationAt(s, s.call.request);
    }
  }

  lemma FinishedIsAnswered(s: State)
    requires s.call.Active? && AllTerminal(s.journal)
    ensures Parent(s.call.request.op) in s.journal && AnswerFromRecord(s).call.Returned? ==>
              AnswerFromRecord(s).call.outcome.Refused?
  {
    if Parent(s.call.request.op) in s.journal {
      assert IsTerminal(s.journal[Parent(s.call.request.op)].phase);
    }
  }

  /** No record disappears, and a finished one keeps its contents. */
  ghost predicate Advances(j: Journal, j': Journal) {
    forall id :: id in j ==> id in j' && (IsTerminal(j[id].phase) ==> j'[id] == j[id])
  }

  lemma TransitionAdvances(j: Journal, id: JournalId, to: Phase, p: Progress)
    ensures Advances(j, Transition(j, id, to, p).journal)
  {
  }

  lemma AdvanceAdvances(s: State, id: JournalId, to: Phase, p: Progress, next: Pc)
    requires s.call.Active?
    ensures Advances(s.journal, Advance(s, id, to, p, next).journal)
  {
    TransitionAdvances(s.journal, id, to, p);
  }

  lemma StagingAdvances(s: State, id: JournalId, write: Write, p: Progress)
    ensures Advances(s.journal, StageWrite(s, id, write, p).journal)
  {
    var record := Record(write.staged.bytes, Prepared, Some(write));
    var begun := if id in s.journal then s.journal else s.journal[id := record];
    assert Advances(s.journal, begun);
    TransitionAdvances(begun, id, Staged, p);
  }

  lemma RejectionAdvances(j: Journal, op: string, p: Progress)
    ensures Advances(j, RejectGroup(j, op, p))
  {
  }

  lemma BeginAdvances(s: State, current: Option<File>, p: Progress)
    requires s.call.Active?
    ensures Advances(s.journal, BeginOperation(s, current, p).journal)
  {
  }

  lemma PreparationAdvances(s: State, p: Progress, identity: nat)
    requires s.call.Active? && s.call.pc.AtPreparation?
    ensures Advances(s.journal, Prepare(s, p, identity).journal)
  {
    var r := s.call.request;
    match s.call.pc.preparation
    case BeginParent(current) => BeginAdvances(s, current, p);
    case StageRecipe(_) => StagingAdvances(s, RecipeChild(r), RecipeWrite(r, identity), p);
    case StageApp(current) => StagingAdvances(s, AppChild(r), AppWrite(r, current, identity), p);
    case RejectStaged => RejectionAdvances(s.journal, r.op, p);
    case ParentStaged => AdvanceAdvances(s, Parent(r.op), Staged, p, AtPreparation(ParentPublishing));
    case ParentPublishing => AdvanceAdvances(s, Parent(r.op), Publishing, p, AtRecipePhase(RecipeCheck));
  }

  lemma CheckRecipeAdvances(s: State, p: Progress)
    requires s.call.Active?
    ensures Advances(s.journal, CheckRecipe(s, p).journal)
  {
  }

  lemma PublicationAdvances(s: State, p: Progress)
    requires s.call.Active? && s.call.pc.AtRecipePhase?
    ensures Advances(s.journal, PublishRecipe(s, p).journal)
  {
    match s.call.pc.publication
    case RecipeCheck => CheckRecipeAdvances(s, p);
    case RecipeRename => TransitionAdvances(s.journal, RecipeChild(s.call.request), Published, p);
    case Abandon => TransitionAdvances(s.journal, Parent(s.call.request.op), RecoveryRequired, p);
    case CaptureRecipe =>
  }

  lemma CheckAppAdvances(s: State, f: File, p: Progress)
    requires s.call.Active?
    ensures Advances(s.journal, CheckApp(s, f, p).journal)
  {
  }

  lemma CommitAdvances(s: State, p: Progress)
    requires s.call.Active? && s.call.pc.AtCommit?
    ensures Advances(s.journal, PublishApp(s, p).journal)
  {
    match s.call.pc.commit
    case FinalCheck(f, i) =>
    case AppCheck(f) => CheckAppAdvances(s, f, p);
    case AppRename(f) => TransitionAdvances(s.journal, AppChild(s.call.request), Published, p);
  }

  lemma FlagAdvances(j: Journal, id: JournalId, p: Progress)
    ensures Advances(j, Flag(j, id, p))
  {
    TransitionAdvances(j, id, RecoveryRequired, p);
  }

  lemma RollbackAdvances(s: State, p: Progress)
    requires s.call.Active? && s.call.pc.AtRollback?
    ensures Advances(s.journal, UndoRecipe(s, p).journal)
  {
    var pc := s.call.pc.rollback;
    if pc.RollbackVerify? { assert Verify(s, pc.was, p).journal == s.journal; }
    else if pc.RollbackRemove? { assert Remove(s, pc.was, p).journal == s.journal; }
    else if pc.RollbackChild? { FlagAdvances(s.journal, RecipeChild(s.call.request), p); }
    else if pc.RollbackParent? { FlagAdvances(s.journal, Parent(s.call.request.op), p); }
  }

  lemma CompletionAdvances(s: State, p: Progress)
    requires s.call.Active? && s.call.pc.AtCompletion?
    ensures Advances(s.journal, Finish(s, p).journal)
  {
    var r := s.call.request;
    match s.call.pc.completion
    case ParentPublished(f) => AdvanceAdvances(s, Parent(r.op), Published, p, AtCompletion(CaptureApp(f)));
    case CaptureApp(_) =>
    case Reconcile =>
    case CompleteRecipe => AdvanceAdvances(s, RecipeChild(r), Completed, p, AtCompletion(CompleteApp));
    case CompleteApp => AdvanceAdvances(s, AppChild(r), Completed, p, AtCompletion(CompleteParent));
    case CompleteParent => TransitionAdvances(s.journal, Parent(r.op), Completed, p);
  }

  lemma EarlyAdvances(s: State, p: Progress)
    requires s.call.Active? && (s.call.pc.AtEntry? || s.call.pc.AtAdmission?)
    ensures Advances(s.journal, Continue(s, p, 0).journal)
  {
  }

  lemma StepAdvances(s: State, c: Choice)
    ensures Advances(s.journal, Step(s, c).journal)
  {
    if c.Proceed? && s.call.Active? {
      match s.call.pc
      case AtEntry(_) => EarlyAdvances(s, c.progress);
      case AtAdmission(_) => EarlyAdvances(s, c.progress);
      case AtPreparation(_) => PreparationAdvances(s, c.progress, c.identity);
      case AtRecipePhase(_) => PublicationAdvances(s, c.progress);
      case AtCommit(_) => CommitAdvances(s, c.progress);
      case AtRollback(_) => RollbackAdvances(s, c.progress);
      case AtCompletion(_) => CompletionAdvances(s, c.progress);
    } else if c.Recover? {
      TransitionAdvances(s.journal, c.id, c.phase, Succeeds);
    }
  }

  /** Over any run, a recorded operation is never forgotten and a finished one never changes. */
  lemma {:induction false} RecordsOnlyAdvance(s: State, choices: seq<Choice>)
    ensures Advances(s.journal, Run(s, choices).journal)
    decreases |choices|
  {
    if choices != [] {
      StepAdvances(s, choices[0]);
      RecordsOnlyAdvance(Step(s, choices[0]), choices[1..]);
    }
  }
}
