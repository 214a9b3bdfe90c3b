/**
 What a call of the pair publication leaves behind when it is left alone:
 a refusal leaves nothing open, so the next call is admitted; every other
 failure leaves its records for recovery.
 */
module PairEndings {
  import opened Wrappers
  import opened DigestFraming
  import opened CatalogFiles
  import opened CatalogJournal
  import opened PairPublication
  import opened PairSafety
  import opened PairGuarantees
  import opened PairProgress

  // ---- What admission asks of the catalog ----------------------------------------------------

  /** The catalog is the one the review captured, and the Recipe's destination is a free YAML name. */
  ghost predicate CatalogIsAsReviewed(r: Request, fs: Fs) {
    && AppIsAsReviewed(r, fs) && HasYamlExtension(r.recipe.name) && r.recipe !in fs.files
    && forall d :: d in r.directories ==> DirectoryIsAsCaptured(d, fs)
  }

  lemma AdmissionMeans(r: Request, fs: Fs)
    ensures AdmittedFrom(r, fs, 0) <==> CatalogIsAsReviewed(r, fs)
  {
    var n := |r.directories|;
    AppMatchesMeans(r, fs);
    YamlMeans(r.recipe.name);
    forall d ensures DirectoryEquals(d, fs) <==> DirectoryIsAsCaptured(d, fs) {
      DirectoriesMean(d, fs, r.recipe, "");
    }
    if AdmittedFrom(r, fs, 0) {
      assert AdmitCheckHolds(r, 0, fs) && AdmitCheckHolds(r, n + 2, fs);
      forall d | d in r.directories ensures DirectoryIsAsCaptured(d, fs) {
        var i :| 0 <= i < n && r.directories[i] == d;
        assert AdmitCheckHolds(r, i + 1, fs);
      }
    }
    if CatalogIsAsReviewed(r, fs) {
      forall j | 0 <= j < AdmitChecks(r) ensures AdmitCheckHolds(r, j, fs) {
        if 0 < j <= n { assert r.directories[j - 1] in r.directories; }
      }
    }
  }

  /** A new operation left alone succeeds exactly on the reviewed catalog, and saves exactly the two files. */
  lemma UndisturbedCallSavesThePair(s: State, r: Request, k: Identities)
    requires Admissible(s, r, k)
    ensures var s' := Quiet(Step(s, Begin(r)), k, StepsToRename(r) + 7);
            && s'.call.Returned?
            && s'.call.outcome == (if CatalogIsAsReviewed(r, s.fs) then Done(false) else Refused)
            && s'.fs == if CatalogIsAsReviewed(r, s.fs)
                        then s.fs.(files := s.fs.files[r.recipe := File(r.recipeBytes, k.recipe)]
                                                      [r.app := File(r.appBytes, k.app)])
                        else s.fs
  {
    UndisturbedCallSucceedsIff(s, r, k);
    AdmissionMeans(r, s.fs);
  }

  // ---- A refusal after staging began ---------------------------------------------------------------

  ghost predicate NothingIsOpen(s: State) {
    forall id :: id in s.journal ==> s.journal[id].phase == Completed || s.journal[id].phase == Rejected
  }

  lemma FailedStagingIsRejectable(s: State, r: Request)
    requires Reachable(s) && s.call == Active(r, AtPreparation(RejectStaged), [])
    ensures Owns(s, r) && Rejectable(s, r)
  {
    ReachableIsSound(s);
    assert PreparationAt(s, r);
  }

  /** A call whose staging failed closes its whole group, removes what it staged and is refused. */
  lemma FailedStagingIsClosed(s: State, r: Request, k: Identities)
    requires Reachable(s) && s.call == Active(r, AtPreparation(RejectStaged), [])
    ensures var s' := Go(s, Succeeds, k);
            && s'.call == Returned(r, Refused, []) && s'.fs == s.fs
            && NothingIsOpen(s') && IsRejected(s'.journal, Parent(r.op)) && s'.staging == map[]
  {
    FailedStagingIsRejectable(s, r);
    RejectingCloses(s, r);
    assert Go(s, Succeeds, k) == Reject(s, Succeeds);
  }

  ghost predicate IsRejected(j: Journal, id: JournalId) {
    id in j && j[id].phase == Rejected
  }

  lemma RejectingCloses(s: State, r: Request)
    requires s.call == Active(r, AtPreparation(RejectStaged), []) && Owns(s, r) && Rejectable(s, r)
    ensures var s' := Reject(s, Succeeds);
            && s'.call == Returned(r, Refused, []) && s'.fs == s.fs
            && NothingIsOpen(s') && IsRejected(s'.journal, Parent(r.op)) && s'.staging == map[]
  {
    ClosingClosesAll(s.journal, r.op);
    var j := RejectGroup(s.journal, r.op, Succeeds);
    assert forall id :: id in s.journal && id.op != r.op ==> IsTerminal(j[id].phase);
    NothingStays(s.staging, j);
  }

  lemma NothingStays(staging: map<JournalId, File>, j: Journal)
    requires forall id :: id in staging ==> id in j && IsTerminal(j[id].phase)
    ensures WithoutTerminal(staging, j) == map[]
  {
  }

  lemma ClosingClosesAll(j: Journal, op: string)
    requires IsPrepared(j, Parent(op))
    requires forall id :: id in j && id.op == op && id.Child? ==> j[id].phase.Prepared? || j[id].phase.Staged?
    ensures var after := RejectGroup(j, op, Succeeds);
            && after.Keys == j.Keys
            && (forall id :: id in j && id.op == op ==> after[id].phase == Rejected)
            && (forall id :: id in j && id.op != op ==> after[id] == j[id])
  {
    assert forall id: JournalId :: id.op == op && id.Parent? ==> id == Parent(op);
  }

  /** A destination that is not the snapshotted one fails the staging. */
  lemma MovedDestinationFailsStaging(s: State, r: Request, k: Identities)
    requires s.call.Active? && s.call.request == r && s.call.log == [] && s.call.pc.AtPreparation?
    requires match s.call.pc.preparation
             case StageRecipe(_) => r.recipe in s.fs.files
             case StageApp(current) => FileAt(s.fs, r.app) != current
             case _ => false
    ensures Go(s, Succeeds, k) == s.(call := Active(r, AtPreparation(RejectStaged), []))
  {
  }

  lemma ReachableStep(s: State, c: Choice)
    requires Reachable(s)
    ensures Reachable(Step(s, c))
  {
    var fs: Fs, choices: seq<Choice> :| s == Run(Init(fs), choices);
    RunAppends(Init(fs), choices, c);
  }

  lemma {:induction false} RunAppends(s: State, choices: seq<Choice>, c: Choice)
    ensures Run(s, choices + [c]) == Step(Run(s, choices), c)
    decreases |choices|
  {
    if choices == [] {
      assert ([] + [c])[1..] == [];
      assert Run(s, [c]) == Run(Step(s, c), [c][1..]);
    } else {
      assert (choices + [c])[1..] == choices[1..] + [c];
      RunAppends(Step(s, choices[0]), choices[1..], c);
    }
  }

  /**
   A file that moved between the snapshot and its staging refuses the call, and
   the refusal leaves no file changed, no record open and nothing staged.
   */
  lemma MovedDestinationIsRefusedCleanly(s: State, r: Request, k: Identities)
    requires Reachable(s)
    requires s.call.Active? && s.call.request == r && s.call.log == [] && s.call.pc.AtPreparation?
    requires match s.call.pc.preparation
             case StageRecipe(_) => r.recipe in s.fs.files
             case StageApp(current) => FileAt(s.fs, r.app) != current
             case _ => false
    ensures var s' := Quiet(s, k, 2);
            && s'.call == Returned(r, Refused, []) && s'.fs == s.fs
            && NothingIsOpen(s') && s'.staging == map[]
  {
    MovedDestinationFailsStaging(s, r, k);
    var failed := Go(s, Succeeds, k);
    ReachableStep(s, Proceed(Succeeds, if s.call.pc.preparation.StageApp? then k.app else k.recipe));
    FailedStagingIsClosed(failed, r, k);
    QuietTwo(s, k, failed, Go(failed, Succeeds, k));
  }

  /** So the next operation is admitted as if nothing had happened: on the catalog it reviewed it succeeds. */
  lemma NextCallAfterRefusalSucceedsIff(s: State, r: Request, k: Identities, r': Request, k': Identities)
    requires Reachable(s) && s.call == Active(r, AtPreparation(RejectStaged), [])
    requires ValidRequest(r') && Parent(r'.op) !in s.journal && (r'.creates || r'.reviewed.identity != k'.app)
    ensures var left := Step(Go(s, Succeeds, k), Leave);
            var s' := Quiet(Step(left, Begin(r')), k', StepsToRename(r') + 7);
            s'.call.Returned?
            && s'.call.outcome == if CatalogIsAsReviewed(r', s.fs) then Done(false) else Refused
  {
    var left := RefusalLeaves(s, r, k);
    UndisturbedCallSavesThePair(left, r', k');
  }

  lemma RefusalLeaves(s: State, r: Request, k: Identities) returns (left: State)
    requires Reachable(s) && s.call == Active(r, AtPreparation(RejectStaged), [])
    ensures left == Step(Go(s, Succeeds, k), Leave) && Reachable(left) && left.call.Idle? && left.fs == s.fs
    ensures AllTerminal(left.journal) && left.journal.Keys == s.journal.Keys
  {
    FailedStagingIsClosed(s, r, k);
    FailedStagingKeepsIds(s, r, k);
    var closed := Go(s, Succeeds, k);
    ReachableStep(s, Proceed(Succeeds, k.recipe));
    ReachableStep(closed, Leave);
    left := Step(closed, Leave);
  }

  lemma FailedStagingKeepsIds(s: State, r: Request, k: Identities)
    requires s.call == Active(r, AtPreparation(RejectStaged), [])
    ensures Go(s, Succeeds, k).journal.Keys == s.journal.Keys
  {
    assert Go(s, Succeeds, k) == Reject(s, Succeeds);
  }

  // ---- The other endings leave their records for recovery --------------------------------------------

  ghost predicate AwaitsRecovery(j: Journal, id: JournalId) {
    id in j && j[id].phase == RecoveryRequired
  }

  /** The last three steps of an undisturbed rollback mark the Recipe's record and the parent's. */
  lemma RollbackAwaitsRecovery(s: State, r: Request, k: Identities, was: bool, undone: bool)
    requires Reachable(s) && IsAt(s, r, AtRollback(RollbackChild(was, undone)))
    ensures var s' := Quiet(s, k, 3);
            && s'.call.Returned? && s'.call.outcome.RecipeCommitted?
            && AwaitsRecovery(s'.journal, RecipeChild(r)) && AwaitsRecovery(s'.journal, Parent(r.op))
  {
    ReachableIsSound(s);
    assert RollbackAt(s, r);
    OpenIsMarked(s, r, k, was, undone);
  }

  lemma OpenIsMarked(s: State, r: Request, k: Identities, was: bool, undone: bool)
    requires IsAt(s, r, AtRollback(RollbackChild(was, undone)))
    requires IsOpen(s.journal, RecipeChild(r)) && IsOpen(s.journal, Parent(r.op))
    ensures var s' := Quiet(s, k, 3);
            && s'.call.Returned? && s'.call.outcome.RecipeCommitted?
            && AwaitsRecovery(s'.journal, RecipeChild(r)) && AwaitsRecovery(s'.journal, Parent(r.op))
  {
    var s1 := Go(s, Succeeds, k);
    RecordIsMarked(s, r, k, was, undone);
    var s2 := Go(s1, Succeeds, k);
    ParentIsMarked(s1, r, k, was, undone);
    var s3 := Go(s2, Succeeds, k);
    ReportKeepsTheJournal(s2, r, k, was, undone);
    QuietThree(s, k, s1, s2, s3);
  }

  lemma RecordIsMarked(s: State, r: Request, k: Identities, was: bool, undone: bool)
    requires IsAt(s, r, AtRollback(RollbackChild(was, undone))) && IsOpen(s.journal, RecipeChild(r))
    ensures Go(s, Succeeds, k) == Goto(s.(journal := WithPhase(s.journal, RecipeChild(r), RecoveryRequired)),
                                       AtRollback(RollbackParent(was, undone)))
  {
    FlagMarks(s.journal, RecipeChild(r));
  }

  lemma ParentIsMarked(s: State, r: Request, k: Identities, was: bool, undone: bool)
    requires IsAt(s, r, AtRollback(RollbackParent(was, undone))) && IsOpen(s.journal, Parent(r.op))
    ensures Go(s, Succeeds, k) == Goto(s.(journal := WithPhase(s.journal, Parent(r.op), RecoveryRequired)),
                                       AtRollback(RollbackReport(was, undone)))
  {
    FlagMarks(s.journal, Parent(r.op));
  }

  lemma ReportKeepsTheJournal(s: State, r: Request, k: Identities, was: bool, undone: bool)
    requires IsAt(s, r, AtRollback(RollbackReport(was, undone)))
    ensures Go(s, Succeeds, k).journal == s.journal
    ensures Go(s, Succeeds, k).call.Returned? && Go(s, Succeeds, k).call.outcome.RecipeCommitted?
  {
  }

  lemma FlagMarks(j: Journal, id: JournalId)
    requires IsOpen(j, id)
    ensures Flag(j, id, Succeeds) == WithPhase(j, id, RecoveryRequired)
  {
    assert j == WithPhase(j, id, j[id].phase);
  }

  lemma AbandonedIsOpen(s: State, r: Request)
    requires Reachable(s) && IsAt(s, r, AtRecipePhase(Abandon))
    ensures IsOpen(s.journal, Parent(r.op))
  {
    ReachableIsSound(s);
    assert RecipePhaseAt(s, r);
  }

  /** Giving up marks the parent. */
  lemma GivingUpAwaitsRecovery(s: State, r: Request, k: Identities)
    requires Reachable(s) && IsAt(s, r, AtRecipePhase(Abandon))
    ensures var s' := Go(s, Succeeds, k);
            && s'.call == Returned(r, Unsynchronized, s.call.log) && s'.fs == s.fs
            && AwaitsRecovery(s'.journal, Parent(r.op))
  {
    AbandonedIsOpen(s, r);
    assert Go(s, Succeeds, k) == GiveUp(s, Succeeds);
  }

  /** The check before a removal puts the Recipe's staged file back only if it is gone, from the Recipe in place. */
  lemma OnlyALostFileIsLinkedBack(s: State, r: Request, was: bool, p: Progress, k: nat)
    requires IsAt(s, r, AtRollback(RollbackVerify(was)))
    ensures var s' := Step(s, Proceed(p, k));
            && s'.fs == s.fs && s'.journal == s.journal
            && (|| s'.staging == s.staging
                || (RecipeChild(r) !in s.staging && r.recipe in s.fs.files
                    && s'.staging == s.staging[RecipeChild(r) := s.fs.files[r.recipe]]))
  {
    assert Step(s, Proceed(p, k)) == Verify(s, was, p);
  }

  lemma RecipeIsOpen(s: State, r: Request)
    requires Reachable(s) && IsAt(s, r, AtRecipePhase(RecipeCheck))
    ensures IsOpen(s.journal, RecipeChild(r))
  {
    ReachableIsSound(s);
    assert RecipePhaseAt(s, r);
  }

  lemma AppIsOpen(s: State, r: Request)
    requires Reachable(s) && s.call.Active? && s.call.request == r && s.call.pc.AtCommit?
    ensures IsOpen(s.journal, AppChild(r))
  {
    ReachableIsSound(s);
    assert CommitAt(s, r);
  }

  /** A Recipe that is already in place is as good as renamed: the call goes on, with its record caught up. */
  lemma PlacedRecipeCatchesUp(s: State, r: Request, k: Identities)
    requires Reachable(s) && IsAt(s, r, AtRecipePhase(RecipeCheck)) && RecipeWritten(s.journal, r)
    requires FileAt(s.fs, r.recipe) == Some(s.journal[RecipeChild(r)].write.value.staged)
    ensures var s' := Go(s, Succeeds, k);
            && IsAt(s', r, AtRecipePhase(CaptureRecipe)) && s'.fs == s.fs
            && s'.journal == WithPhase(s.journal, RecipeChild(r), Published)
  {
    RecipeIsOpen(s, r);
    UndisturbedPublishCheck(s.journal, s.staging, FileAt(s.fs, r.recipe), RecipeChild(r));
    assert Go(s, Succeeds, k) == CheckRecipe(s, Succeeds);
  }

  lemma CheckCatchesUp(s: State, r: Request, f: File)
    requires s.call.Active? && s.call.request == r && IsOpen(s.journal, AppChild(r))
    requires s.journal[AppChild(r)].write.Some?
    requires FileAt(s.fs, r.app) == Some(s.journal[AppChild(r)].write.value.staged)
    ensures CheckApp(s, f, Succeeds)
            == Goto(Note(s.(journal := WithPhase(s.journal, AppChild(r), Published)),
                         AppPlaced(s.fs.files[r.app], false, None)), AtCompletion(ParentPublished(f)))
  {
    UndisturbedPublishCheck(s.journal, s.staging, FileAt(s.fs, r.app), AppChild(r));
  }

  lemma GoChecksTheApp(s: State, r: Request, f: File, k: Identities)
    requires IsAt(s, r, AtCommit(AppCheck(f)))
    ensures Go(s, Succeeds, k) == CheckApp(s, f, Succeeds)
  {
  }

  /** And so is an App. */
  lemma PlacedAppCatchesUp(s: State, r: Request, f: File, k: Identities)
    requires Reachable(s) && IsAt(s, r, AtCommit(AppCheck(f)))
    requires Written(s.journal, AppChild(r), r.app, ExpectedApp(r), r.appBytes)
    requires FileAt(s.fs, r.app) == Some(s.journal[AppChild(r)].write.value.staged)
    ensures var s' := Go(s, Succeeds, k);
            && IsAt(s', r, AtCompletion(ParentPublished(f))) && s'.fs == s.fs
            && s'.journal == WithPhase(s.journal, AppChild(r), Published)
  {
    AppIsOpen(s, r);
    CheckCatchesUp(s, r, f);
    GoChecksTheApp(s, r, f, k);
  }

  // ---- What the checks before a rename find ----------------------------------------------------------

  /** A foreign file at the Recipe's destination: its record awaits recovery, and the call gives up. */
  lemma ForeignRecipeIsMarked(s: State, r: Request, k: Identities)
    requires Reachable(s) && IsAt(s, r, AtRecipePhase(RecipeCheck)) && RecipeWritten(s.journal, r)
    requires r.recipe in s.fs.files && s.fs.files[r.recipe] != s.journal[RecipeChild(r)].write.value.staged
    ensures var s' := Go(s, Succeeds, k);
            && IsAt(s', r, AtRecipePhase(Abandon)) && s'.fs == s.fs && s'.staging == s.staging
            && s'.journal == WithPhase(s.journal, RecipeChild(r), RecoveryRequired)
  {
    RecipeIsOpen(s, r);
    UndisturbedPublishCheck(s.journal, s.staging, FileAt(s.fs, r.recipe), RecipeChild(r));
    assert Go(s, Succeeds, k) == CheckRecipe(s, Succeeds);
  }

  /** A foreign file at the App's: its record awaits recovery, and the Recipe is rolled back. */
  lemma ForeignAppIsMarked(s: State, r: Request, f: File, k: Identities)
    requires Reachable(s) && IsAt(s, r, AtCommit(AppCheck(f)))
    requires Written(s.journal, AppChild(r), r.app, ExpectedApp(r), r.appBytes)
    requires FileAt(s.fs, r.app) != ExpectedApp(r)
    requires FileAt(s.fs, r.app) != Some(s.journal[AppChild(r)].write.value.staged)
    ensures var s' := Go(s, Succeeds, k);
            && IsAt(s', r, AtRollback(RollbackLook)) && s'.fs == s.fs && s'.staging == s.staging
            && s'.journal == WithPhase(s.journal, AppChild(r), RecoveryRequired)
  {
    AppIsOpen(s, r);
    CheckMarks(s, r, f);
    GoChecksTheApp(s, r, f, k);
  }

  lemma CheckMarks(s: State, r: Request, f: File)
    requires s.call.Active? && s.call.request == r && IsOpen(s.journal, AppChild(r))
    requires s.journal[AppChild(r)].write.Some?
    requires var write := s.journal[AppChild(r)].write.value;
             FileAt(s.fs, r.app) != write.expected && FileAt(s.fs, r.app) != Some(write.staged)
    ensures CheckApp(s, f, Succeeds)
            == Goto(s.(journal := WithPhase(s.journal, AppChild(r), RecoveryRequired)), AtRollback(RollbackLook))
  {
    UndisturbedPublishCheck(s.journal, s.staging, FileAt(s.fs, r.app), AppChild(r));
  }

  /** With everything as expected the App goes on to its rename, its record publishing. */
  lemma CheckedAppIsPublishing(s: State, r: Request, f: File)
    requires s.call.Active? && s.call.request == r && IsOpen(s.journal, AppChild(r))
    requires s.journal[AppChild(r)].write.Some?
    requires var write := s.journal[AppChild(r)].write.value;
             && FileAt(s.fs, r.app) == write.expected && write.expected != Some(write.staged)
             && AppChild(r) in s.staging && s.staging[AppChild(r)] == write.staged
    ensures CheckApp(s, f, Succeeds)
            == Goto(s.(journal := WithPhase(s.journal, AppChild(r), Publishing)), AtCommit(AppRename(f)))
  {
    UndisturbedPublishCheck(s.journal, s.staging, FileAt(s.fs, r.app), AppChild(r));
  }
}
