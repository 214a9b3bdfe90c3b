/**
 Where a fault leads: for every step of the pair publication, what a primitive
 that fails before, midway through or just after its effect leaves behind, and
 where the call goes from there.
 */
module PairFaults {
  import opened Wrappers
  import opened DigestFraming
  import opened CatalogFiles
  import opened CatalogJournal
  import opened PairPublication
  import opened PairSafety
  import opened PairGuarantees
  import opened PairProgress

  // ---- A primitive that fails outright -------------------------------------------------------

  /** Where the call goes when the step at `pc` fails without any effect. */
  datatype Turn = Ends(outcome: Outcome) | GoesTo(pc: Pc)

  function TurnAt(pc: Pc): Turn {
    match pc
    case AtEntry(Gate) => Ends(Refused)
    case AtEntry(Lookup) => Ends(Refused)
    case AtEntry(_) => Ends(Unsynchronized)
    case AtAdmission(_) => Ends(Refused)
    case AtPreparation(BeginParent(_)) => Ends(Refused)
    case AtPreparation(StageRecipe(_)) => GoesTo(AtPreparation(RejectStaged))
    case AtPreparation(StageApp(_)) => GoesTo(AtPreparation(RejectStaged))
    case AtPreparation(RejectStaged) => Ends(Refused)
    case AtPreparation(_) => Ends(Unsynchronized)
    case AtRecipePhase(Abandon) => Ends(Unsynchronized)
    case AtRecipePhase(_) => GoesTo(AtRecipePhase(Abandon))
    case AtCommit(_) => GoesTo(AtRollback(RollbackLook))
    case AtRollback(RollbackLook) => GoesTo(AtRollback(RollbackVerify(false)))
    case AtRollback(RollbackVerify(was)) => GoesTo(AtRollback(RollbackChild(was, false)))
    case AtRollback(RollbackRemove(was)) => GoesTo(AtRollback(RollbackChild(was, false)))
    case AtRollback(RollbackChild(was, undone)) => GoesTo(AtRollback(RollbackParent(was, undone)))
    case AtRollback(RollbackParent(was, undone)) => GoesTo(AtRollback(RollbackReport(was, undone)))
    case AtRollback(RollbackReport(was, undone)) => Ends(RecipeCommitted(undone && was, !undone))
    case AtCompletion(Reconcile) => GoesTo(AtRecipePhase(Abandon))
    case AtCompletion(_) => Ends(Unsynchronized)
  }

  ghost predicate Turns(s: State, s': State, turn: Turn) {
    && s'.fs == s.fs && s'.journal == s.journal && s'.staging == s.staging && s'.placements == s.placements
    && match turn
       case Ends(outcome) => s'.call.Returned? && s'.call.outcome == outcome
       case GoesTo(pc) => s'.call.Active? && s'.call.pc == pc
  }

  lemma EarlyFailureTurns(s: State, k: nat)
    requires s.call.Active? && (s.call.pc.AtEntry? || s.call.pc.AtAdmission?)
    ensures Turns(s, Continue(s, Fails, k), TurnAt(s.call.pc))
  {
  }

  lemma PreparationFailureTurns(s: State, k: nat)
    requires s.call.Active? && s.call.pc.AtPreparation?
    requires s.call.pc == AtPreparation(RejectStaged) ==> WithoutTerminal(s.staging, s.journal) == s.staging
    ensures Turns(s, Prepare(s, Fails, k), TurnAt(s.call.pc))
  {
  }

  lemma RecipeFailureTurns(s: State)
    requires s.call.Active? && s.call.pc.AtRecipePhase?
    ensures Turns(s, PublishRecipe(s, Fails), TurnAt(s.call.pc))
  {
  }

  lemma CommitFailureTurns(s: State)
    requires s.call.Active? && s.call.pc.AtCommit?
    ensures Turns(s, PublishApp(s, Fails), TurnAt(s.call.pc))
  {
  }

  lemma UndoFailureTurns(s: State)
    requires s.call.Active? && s.call.pc.AtRollback?
    requires var at := s.call.pc.rollback; at.RollbackLook? || at.RollbackVerify? || at.RollbackRemove?
    ensures Turns(s, UndoRecipe(s, Fails), TurnAt(s.call.pc))
  {
  }

  lemma MarkFailureTurns(s: State)
    requires s.call.Active? && s.call.pc.AtRollback?
    requires s.call.pc.rollback.RollbackChild? || s.call.pc.rollback.RollbackParent?
    ensures Turns(s, UndoRecipe(s, Fails), TurnAt(s.call.pc))
  {
  }

  lemma ReportFailureTurns(s: State)
    requires s.call.Active? && s.call.pc.AtRollback? && s.call.pc.rollback.RollbackReport?
    ensures Turns(s, UndoRecipe(s, Fails), TurnAt(s.call.pc))
  {
  }

  lemma CompletionFailureTurns(s: State)
    requires s.call.Active? && s.call.pc.AtCompletion?
    ensures Turns(s, Finish(s, Fails), TurnAt(s.call.pc))
  {
  }

  /** A step that fails outright changes no file, record or staged file, and sends the call where the table says. */
  lemma FailureTurnsTheCall(s: State, k: nat)
    requires s.call.Active?
    requires s.call.pc == AtPreparation(RejectStaged) ==> WithoutTerminal(s.staging, s.journal) == s.staging
    ensures Turns(s, Step(s, Proceed(Fails, k)), TurnAt(s.call.pc))
  {
    match s.call.pc
    case AtEntry(_) => EarlyFailureTurns(s, k);
    case AtAdmission(_) => EarlyFailureTurns(s, k);
    case AtPreparation(_) => PreparationFailureTurns(s, k);
    case AtRecipePhase(_) => RecipeFailureTurns(s);
    case AtCommit(_) => CommitFailureTurns(s);
    case AtRollback(RollbackReport(_, _)) => ReportFailureTurns(s);
    case AtRollback(RollbackChild(_, _)) => MarkFailureTurns(s);
    case AtRollback(RollbackParent(_, _)) => MarkFailureTurns(s);
    case AtRollback(_) => UndoFailureTurns(s);
    case AtCompletion(_) => CompletionFailureTurns(s);
  }

  // ---- Reads have no effect to fail after ---------------------------------------------------------

  predicate IsRead(pc: Pc) {
    || (pc.AtEntry? && pc.entry != Gate) || pc.AtAdmission? || pc == AtRecipePhase(CaptureRecipe)
    || (pc.AtCommit? && pc.commit.FinalCheck?)
    || pc == AtRollback(RollbackLook) || (pc.AtRollback? && pc.rollback.RollbackReport?)
    || (pc.AtCompletion? && (pc.completion.CaptureApp? || pc.completion.Reconcile?))
  }

  lemma ReadsFailAlike(s: State, p: Progress, k: nat)
    requires s.call.Active? && IsRead(s.call.pc) && !p.Succeeds?
    ensures Step(s, Proceed(p, k)) == Step(s, Proceed(Fails, k))
  {
  }

  // ---- Writes that fail midway or just after their effect ------------------------------------------

  /** The gate: the call is refused, and what was cleaned up stays so. */
  lemma GateFaults(s: State, p: Progress, k: nat)
    requires s.call.Active? && s.call.pc == AtEntry(Gate) && (p.Halfway? || p.FailsAfterEffect?)
    ensures var s' := Step(s, Proceed(p, k));
            && s'.call.Returned? && s'.call.outcome == Refused && s'.fs == s.fs && s'.journal == s.journal
            && forall id :: id in s'.staging <==>
                 && id in s.staging && (id in s.journal ==> !IsTerminal(s.journal[id].phase))
                 && (p.FailsAfterEffect? ==> id in s.journal)
  {
  }

  /** The parent's record: the call is refused; after the effect the record is there, and open. */
  lemma BeginFaults(s: State, current: Option<File>, p: Progress, k: nat)
    requires s.call.Active? && s.call.pc == AtPreparation(BeginParent(current)) && (p.Halfway? || p.FailsAfterEffect?)
    requires Parent(s.call.request.op) !in s.journal
    ensures var s', id := Step(s, Proceed(p, k)), Parent(s.call.request.op);
            && s'.call.Returned? && s'.call.outcome == Refused && s'.fs == s.fs && s'.staging == s.staging
            && (if p.FailsAfterEffect?
                then s'.journal == s.journal[id := Record(DigestOf(s.call.request), Prepared, None)]
                else s'.journal == s.journal)
  {
  }

  /** A staged file: midway the file and its first record are there, just after the effect the record is staged. */
  lemma StagingFaults(s: State, id: JournalId, write: Write, p: Progress, next: Pc)
    requires s.call.Active? && (p.Halfway? || p.FailsAfterEffect?)
    requires FileAt(s.fs, write.destination) == write.expected && id !in s.staging && id !in s.journal
    ensures var s' := StageFile(s, id, write, p, next);
            && s'.call.Active? && s'.call.pc == AtPreparation(RejectStaged) && s'.fs == s.fs
            && s'.staging == s.staging[id := write.staged]
            && s'.journal ==
                 s.journal[id := Record(write.staged.bytes, if p.Halfway? then Prepared else Staged, Some(write))]
  {
  }

  /** Closing the group: midway the undecided children are closed and the parent is not. */
  lemma RejectionFaults(j: Journal, op: string)
    requires IsPrepared(j, Parent(op))
    ensures var after := RejectGroup(j, op, Halfway);
            && after.Keys == j.Keys && after[Parent(op)] == j[Parent(op)]
            && forall id :: id in j && id != Parent(op) ==>
                 after[id] == if id.Child? && id.op == op && (j[id].phase == Prepared || j[id].phase == Staged)
                              then j[id].(phase := Rejected) else j[id]
  {
  }

  /** A rename: midway the file is in place under its old record; the call goes where a failed rename goes. */
  lemma RecipeRenameFaults(s: State, p: Progress, k: nat)
    requires s.call.Active? && s.call.pc == AtRecipePhase(RecipeRename) && (p.Halfway? || p.FailsAfterEffect?)
    requires var id := RecipeChild(s.call.request);
             id in s.staging && id in s.journal && s.journal[id].phase == Publishing
    ensures var r := s.call.request;
            var id, s' := RecipeChild(r), Step(s, Proceed(p, k));
            && s'.call.Active? && s'.call.pc == AtRecipePhase(Abandon)
            && s'.fs == s.fs.(files := s.fs.files[r.recipe := s.staging[id]]) && s'.staging == s.staging - {id}
            && s'.journal == if p.Halfway? then s.journal else WithPhase(s.journal, id, Published)
  {
  }

  lemma AppRenameFaults(s: State, f: File, p: Progress, k: nat)
    requires s.call.Active? && s.call.pc == AtCommit(AppRename(f)) && (p.Halfway? || p.FailsAfterEffect?)
    requires var id := AppChild(s.call.request); id in s.staging && id in s.journal && s.journal[id].phase == Publishing
    ensures var r := s.call.request;
            var id, s' := AppChild(r), Step(s, Proceed(p, k));
            && s'.call.Active? && s'.call.pc == AtRollback(RollbackLook)
            && s'.fs == s.fs.(files := s.fs.files[r.app := s.staging[id]]) && s'.staging == s.staging - {id}
            && s'.journal == if p.Halfway? then s.journal else WithPhase(s.journal, id, Published)
  {
  }

  /** A removal: midway the Recipe stays; just after the effect it is gone, but not reported as undone. */
  lemma RemovalFaults(s: State, was: bool, p: Progress, k: nat)
    requires s.call.Active? && s.call.pc == AtRollback(RollbackRemove(was)) && (p.Halfway? || p.FailsAfterEffect?)
    requires s.call.request.recipe in s.fs.files
    ensures var r, s' := s.call.request, Step(s, Proceed(p, k));
            && s'.call.Active? && s'.call.pc == AtRollback(RollbackChild(was, false))
            && s'.fs == if p.Halfway? then s.fs else s.fs.(files := s.fs.files - {r.recipe})
  {
  }

  /** Completing a child: midway its record is completed and its staged file is still there. */
  lemma CompletionFaults(s: State, id: JournalId, p: Progress, next: Pc)
    requires s.call.Active? && id in s.journal && s.journal[id].phase == Published
    requires p.Halfway? || p.FailsAfterEffect?
    ensures var s' := CompleteChild(s, id, p, next);
            && s'.call.Returned? && s'.call.outcome == Unsynchronized && s'.fs == s.fs
            && s'.journal == WithPhase(s.journal, id, Completed)
            && s'.staging == if p.Halfway? then s.staging else s.staging - {id}
  {
  }

  // ---- The second looks before anything is written ---------------------------------------------------

  /** A destination that changed after its admission check is noticed when it is snapshotted. */
  lemma LateChangesAreRefused(s: State, k: nat)
    requires s.call.Active? && s.call.pc.AtAdmission?
    requires match s.call.pc.admission
             case SnapApp => !AppIsAsReviewed(s.call.request, s.fs)
             case SnapRecipe(_) => s.call.request.recipe in s.fs.files
             case AdmitCheck(_) => false
    ensures var s' := Step(s, Proceed(Succeeds, k));
            s' == s.(call := Returned(s.call.request, Refused, s.call.log))
  {
    AppMatchesMeans(s.call.request, s.fs);
  }
}
