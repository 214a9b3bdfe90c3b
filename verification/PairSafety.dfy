/**
 What every run of the pair publication keeps, whatever other programs do to
 the catalog, wherever a call fails, and however often it is repeated.
 */
module PairSafety {
  import opened Wrappers
  import opened DigestFraming
  import opened CatalogFiles
  import opened CatalogJournal
  import opened PairPublication

  // ---- Logs ------------------------------------------------------------------------------

  ghost predicate RecipeRenamed(log: seq<Event>) {
    log != [] && log[0].RecipePlaced? && log[0].renamed
  }

  /** The App is placed right after the last final check, or not at all. */
  ghost predicate AppRenamed(r: Request, log: seq<Event>) {
    FinalChecks(r) + 2 < |log| && log[FinalChecks(r) + 2].AppPlaced? && log[FinalChecks(r) + 2].renamed
  }

  ghost predicate PassedCheck(r: Request, log: seq<Event>, k: nat)
    requires k + 2 < |log| && log[1].RecipeCaptured?
  {
    var e := log[k + 2];
    k < FinalChecks(r) && e.CheckPassed? && e.index == k && FinalCheckHolds(r, log[1].file, k, e.fs)
  }

  /** The Recipe was placed and captured, and then the first `n` final checks passed, in order. */
  ghost predicate ChecksUpTo(r: Request, log: seq<Event>, n: nat) {
    && n + 2 <= |log| && n <= FinalChecks(r)
    && log[0].RecipePlaced? && log[0].file.bytes == r.recipeBytes
    && log[1].RecipeCaptured?
    && forall k :: 0 <= k < n ==> PassedCheck(r, log, k)
  }

  /** All final checks passed and then the App was placed. */
  ghost predicate PairPlaced(r: Request, log: seq<Event>) {
    && ChecksUpTo(r, log, FinalChecks(r))
    && FinalChecks(r) + 2 < |log|
    && log[FinalChecks(r) + 2].AppPlaced? && log[FinalChecks(r) + 2].file.bytes == r.appBytes
  }

  /** The first `m` entries are a publication that got as far as capturing the Recipe. */
  ghost predicate PublishedPart(r: Request, log: seq<Event>, m: int) {
    || (2 <= m <= FinalChecks(r) + 2 && m <= |log| && ChecksUpTo(r, log, m - 2))
    || (m == FinalChecks(r) + 3 && PairPlaced(r, log))
  }

  /** A whole successful publication. */
  ghost predicate PairPublished(r: Request, log: seq<Event>) {
    && |log| == FinalChecks(r) + 4 && PairPlaced(r, log)
    && log[1].file.bytes == r.recipeBytes
    && log[FinalChecks(r) + 3].AppCaptured? && log[FinalChecks(r) + 3].file.bytes == r.appBytes
  }

  ghost predicate Replaying(log: seq<Event>) {
    && |log| <= 2
    && (|log| > 0 ==> log[0].ReplayedApp?)
    && (|log| > 1 ==> log[1].ReplayedRecipe?)
  }

  ghost predicate UnsynchronizedLog(r: Request, log: seq<Event>) {
    || Replaying(log)
    || (|log| == 1 && log[0].RecipePlaced?)
    || PublishedPart(r, log, |log|)
    || (|log| == FinalChecks(r) + 4 && PairPlaced(r, log) && log[FinalChecks(r) + 3].AppCaptured?)
  }

  /** A replay that ended without an answer could not read a file, or saw other bytes than the operation published. */
  ghost predicate ReplayFailed(r: Request, log: seq<Event>) {
    && Replaying(log)
    && (|log| < 2 || log[0].file.bytes != r.appBytes || log[1].file.bytes != r.recipeBytes)
  }

  ghost predicate UndoneLog(r: Request, log: seq<Event>, m: int, was: bool, undone: bool) {
    && m + 2 <= |log| && PublishedPart(r, log, m)
    && log[m].RecipeLooked? && was == (log[m].readable && log[m].present)
    && log[m + 1].RecipeUndone? && undone == (log[m + 1].undo.AlreadyGone? || log[m + 1].undo.Removed?)
  }

  // ---- The invariant -----------------------------------------------------------------------

  /** Every record belongs to a recorded request, and a parent's digest is that request's. */
  ghost predicate RecordsSound(j: Journal, recorded: map<string, Request>) {
    && (forall id :: id in j ==> Parent(id.op) in j)
    && (forall op :: Parent(op) in j ==>
          && op in recorded && recorded[op].op == op && ValidRequest(recorded[op])
          && j[Parent(op)].digest == DigestOf(recorded[op]))
  }

  /** An operation id is placed by one call only, and each destination once. */
  ghost predicate OneWriter(placements: seq<Placement>) {
    forall i, j :: 0 <= i < j < |placements| && placements[i].op == placements[j].op ==>
      placements[i].call == placements[j].call && placements[i].destination != placements[j].destination
  }

  ghost predicate PlacementsRecorded(placements: seq<Placement>, j: Journal, calls: nat) {
    forall w :: w in placements ==> Parent(w.op) in j && w.call <= calls
  }

  /** The current call's renames are exactly those in its log. */
  ghost predicate PlacementsLogged(placements: seq<Placement>, calls: nat, r: Request, log: seq<Event>) {
    && (forall w :: w in placements && w.call == calls ==>
          && w.op == r.op
          && ((w.destination == r.recipe && RecipeRenamed(log)) || (w.destination == r.app && AppRenamed(r, log))))
    && (RecipeRenamed(log) ==> Placement(calls, r.op, r.recipe) in placements)
    && (AppRenamed(r, log) ==> Placement(calls, r.op, r.app) in placements)
  }

  /** The parts of the invariant that do not depend on the current call. */
  ghost predicate Sound(j: Journal, recorded: map<string, Request>, placements: seq<Placement>, calls: nat) {
    RecordsSound(j, recorded) && OneWriter(placements) && PlacementsRecorded(placements, j, calls)
  }

  ghost predicate Untouched(j: Journal, staging: map<JournalId, File>) {
    AllTerminal(j) && staging == map[]
  }

  /** The call has recorded its operation; whatever was placed for it, this call placed. */
  ghost predicate Owning(
      j: Journal, recorded: map<string, Request>, placements: seq<Placement>, calls: nat, r: Request)
  {
    && Parent(r.op) in j && r.op in recorded && recorded[r.op] == r
    && (forall id :: id in j && id.op != r.op ==> IsTerminal(j[id].phase))
    && (forall w :: w in placements && w.op == r.op ==> w.call == calls)
  }

  ghost predicate Owns(s: State, r: Request) {
    Owning(s.journal, s.recorded, s.placements, s.calls, r)
  }

  ghost predicate Written(j: Journal, id: JournalId, destination: CatalogPath, expected: Option<File>, bytes: string) {
    && id in j && j[id].write.Some?
    && var write := j[id].write.value;
       write.destination == destination && write.expected == expected && write.staged.bytes == bytes
  }

  ghost predicate RecipeWritten(j: Journal, r: Request) {
    Written(j, RecipeChild(r), r.recipe, None, r.recipeBytes)
  }

  ghost predicate InStaging(j: Journal, staging: map<JournalId, File>, id: JournalId) {
    id in j && j[id].write.Some? && id in staging && staging[id] == j[id].write.value.staged
  }

  ghost predicate RecipeStaged(j: Journal, staging: map<JournalId, File>, r: Request) {
    RecipeWritten(j, r) && InStaging(j, staging, RecipeChild(r))
  }

  ghost predicate IsOpen(j: Journal, id: JournalId) {
    id in j && !IsTerminal(j[id].phase)
  }

  /** An open operation with both files journalled; the App's staged file is gone exactly if this call renamed it. */
  ghost predicate Grouped(j: Journal, staging: map<JournalId, File>, r: Request, appRenamed: bool) {
    && IsOpen(j, Parent(r.op)) && IsOpen(j, RecipeChild(r)) && IsOpen(j, AppChild(r)) && RecipeWritten(j, r)
    && Written(j, AppChild(r), r.app, ExpectedApp(r), r.appBytes)
    && (if appRenamed then AppChild(r) !in staging else InStaging(j, staging, AppChild(r)))
  }

  /** The Recipe's staged file is gone exactly if this call renamed it; so until a rollback puts it back. */
  ghost predicate RecipeTells(staging: map<JournalId, File>, r: Request, log: seq<Event>) {
    RecipeChild(r) in staging <==> !RecipeRenamed(log)
  }

  /** A removed Recipe is kept in staging; one found gone was not put back there. */
  ghost predicate UndoTells(staging: map<JournalId, File>, r: Request, log: seq<Event>, u: Undo) {
    && (u.Removed? || u.RemovedUnsynced? ==> RecipeChild(r) in staging)
    && (u.AlreadyGone? ==> RecipeTells(staging, r, log))
  }

  /** The operation is recorded as completed, for this very request. */
  ghost predicate Answering(s: State, r: Request) {
    IsCompleted(s.journal, Parent(r.op)) && s.journal[Parent(r.op)].digest == DigestOf(r)
  }

  ghost predicate IsCompleted(j: Journal, id: JournalId) {
    id in j && j[id].phase.Completed?
  }

  ghost predicate EntryInv(s: State, r: Request, pc: EntryPc, log: seq<Event>)
  {
    match pc
    case Gate => log == []
    case Lookup => Untouched(s.journal, s.staging) && log == []
    case ReplayApp => Answering(s, r) && log == []
    case ReplayRecipe(seen) => Answering(s, r) && log == [ReplayedApp(seen)]
  }

  ghost predicate AdmissionInv(s: State, r: Request, pc: AdmissionPc, log: seq<Event>)
  {
    && log == [] && Untouched(s.journal, s.staging) && Parent(r.op) !in s.journal
    && (pc.SnapRecipe? ==> pc.current == ExpectedApp(r))
  }

  ghost predicate IsPrepared(j: Journal, id: JournalId) {
    id in j && j[id].phase.Prepared?
  }

  /** Nothing of the operation is published, and every staged file has its record. */
  ghost predicate Rejectable(s: State, r: Request) {
    && IsPrepared(s.journal, Parent(r.op))
    && (forall id :: id in s.journal && id.op == r.op && id.Child? ==>
          s.journal[id].phase.Prepared? || s.journal[id].phase.Staged?)
    && (forall id :: id in s.staging ==> id in s.journal && id.op == r.op && id.Child?)
  }

  ghost predicate PreparationInv(s: State, r: Request, pc: PreparationPc, log: seq<Event>)
  {
    && log == []
    && match pc
       case BeginParent(current) =>
         Untouched(s.journal, s.staging) && Parent(r.op) !in s.journal && current == ExpectedApp(r)
       case StageRecipe(current) =>
         && Owns(s, r) && IsPrepared(s.journal, Parent(r.op)) && s.staging == map[] && current == ExpectedApp(r)
         && (forall id :: id in s.journal && id.op == r.op ==> id.Parent?)
       case StageApp(current) =>
         && Owns(s, r) && IsPrepared(s.journal, Parent(r.op)) && IsOpen(s.journal, RecipeChild(r))
         && RecipeStaged(s.journal, s.staging, r) && current == ExpectedApp(r)
         && AppChild(r) !in s.journal && AppChild(r) !in s.staging
         && Rejectable(s, r)
       case RejectStaged => Owns(s, r) && Rejectable(s, r)
       case _ => Owns(s, r) && Grouped(s.journal, s.staging, r, false) && RecipeStaged(s.journal, s.staging, r)
  }

  ghost predicate RecipePhaseInv(s: State, r: Request, pc: RecipePc, log: seq<Event>)
  {
    && Owns(s, r) && Grouped(s.journal, s.staging, r, AppRenamed(r, log)) && RecipeTells(s.staging, r, log)
    && match pc
       case RecipeCheck => log == [] && RecipeStaged(s.journal, s.staging, r)
       case RecipeRename => log == [] && RecipeStaged(s.journal, s.staging, r)
       case Abandon => UnsynchronizedLog(r, log) && !(Replaying(log) && log != [])
       case CaptureRecipe => |log| == 1 && log[0].RecipePlaced? && log[0].file.bytes == r.recipeBytes
  }

  ghost predicate CommitInv(s: State, r: Request, pc: CommitPc, log: seq<Event>)
  {
    && Owns(s, r) && Grouped(s.journal, s.staging, r, false) && RecipeTells(s.staging, r, log)
    && match pc
       case FinalCheck(f, i) => |log| == i + 2 && i < FinalChecks(r) && ChecksUpTo(r, log, i) && f == log[1].file
       case AppCheck(f) => |log| == FinalChecks(r) + 2 && ChecksUpTo(r, log, FinalChecks(r)) && f == log[1].file
       case AppRename(f) => |log| == FinalChecks(r) + 2 && ChecksUpTo(r, log, FinalChecks(r)) && f == log[1].file
  }

  ghost predicate RollbackInv(s: State, r: Request, pc: RollbackPc, log: seq<Event>)
  {
    && Owns(s, r) && Grouped(s.journal, s.staging, r, AppRenamed(r, log))
    && match pc
       case RollbackLook => PublishedPart(r, log, |log|) && RecipeTells(s.staging, r, log)
       case RollbackVerify(was) => Looked(r, log, was) && RecipeTells(s.staging, r, log)
       case RollbackRemove(was) => Looked(r, log, was) && RecipeChild(r) in s.staging
       case RollbackChild(was, undone) => Undone(s.staging, r, log, was, undone)
       case RollbackParent(was, undone) => Undone(s.staging, r, log, was, undone)
       case RollbackReport(was, undone) => Undone(s.staging, r, log, was, undone)
  }

  ghost predicate Undone(staging: map<JournalId, File>, r: Request, log: seq<Event>, was: bool, undone: bool) {
    UndoneLog(r, log, |log| - 2, was, undone) && UndoTells(staging, r, log, log[|log| - 1].undo)
  }

  ghost predicate Looked(r: Request, log: seq<Event>, was: bool) {
    && PublishedPart(r, log, |log| - 1) && log[|log| - 1].RecipeLooked?
    && was == (log[|log| - 1].readable && log[|log| - 1].present)
  }

  ghost predicate CompletionInv(s: State, r: Request, pc: CompletionPc, log: seq<Event>)
  {
    if pc.CompleteApp? || pc.CompleteParent?
    then Closing(s, r, log) && (pc.CompleteParent? ==> IsCompleted(s.journal, AppChild(r)))
    else
      && Owns(s, r) && Grouped(s.journal, s.staging, r, AppRenamed(r, log)) && RecipeTells(s.staging, r, log)
      && (pc.ParentPublished? || pc.CaptureApp? ==>
            |log| == FinalChecks(r) + 3 && PairPlaced(r, log) && pc.committed == log[1].file)
      && (pc.Reconcile? || pc.CompleteRecipe? ==> PairPublished(r, log))
  }

  /** A published pair of which the Recipe's record is completed. */
  ghost predicate Closing(s: State, r: Request, log: seq<Event>) {
    && Owns(s, r) && IsOpen(s.journal, Parent(r.op)) && AppChild(r) in s.journal
    && IsCompleted(s.journal, RecipeChild(r)) && PairPublished(r, log) && FilesTell(s, r, log)
  }

  /** A staged file is gone if its file was renamed into place, and else only if its record is completed. */
  ghost predicate ChildTells(s: State, id: JournalId, renamed: bool) {
    && (renamed ==> id !in s.staging)
    && (id !in s.staging ==> renamed || IsCompleted(s.journal, id))
  }

  ghost predicate FilesTell(s: State, r: Request, log: seq<Event>) {
    ChildTells(s, RecipeChild(r), RecipeRenamed(log)) && ChildTells(s, AppChild(r), AppRenamed(r, log))
  }

  /** What an unsynchronized end leaves of an operation not recorded as completed. */
  ghost predicate Unfinished(s: State, r: Request, log: seq<Event>) {
    && FilesTell(s, r, log)
    && (IsCompleted(s.journal, RecipeChild(r)) || IsCompleted(s.journal, AppChild(r)) ==> PairPublished(r, log))
  }

  /** A replay that succeeded saw, in both files, the bytes of the request first recorded under its id. */
  ghost predicate ReplayConfirmed(s: State, r: Request, log: seq<Event>) {
    && |log| == 2 && log[0].ReplayedApp? && log[1].ReplayedRecipe?
    && r.op in s.recorded && ValidRequest(s.recorded[r.op]) && DigestFields(s.recorded[r.op]) == DigestFields(r)
    && log[0].file.bytes == s.recorded[r.op].appBytes && log[1].file.bytes == s.recorded[r.op].recipeBytes
  }

  ghost predicate AllCompleted(j: Journal, r: Request) {
    IsCompleted(j, Parent(r.op)) && IsCompleted(j, RecipeChild(r)) && IsCompleted(j, AppChild(r))
  }

  ghost predicate StagingTells(s: State, r: Request, log: seq<Event>) {
    AppChild(r) in s.staging <==> !AppRenamed(r, log)
  }

  ghost predicate OutcomeInv(s: State, r: Request, outcome: Outcome, log: seq<Event>) {
    match outcome
    case Done(true) => ReplayConfirmed(s, r, log)
    case Done(false) => PairPublished(r, log) && AllCompleted(s.journal, r)
    case Refused => log == []
    case RecipeCommitted(removed, recoveryRequired) =>
      && CommittedReport(r, log, removed, recoveryRequired) && StagingTells(s, r, log)
      && UndoTells(s.staging, r, log, log[|log| - 2].undo)
    case Unsynchronized =>
      && UnsynchronizedLog(r, log)
      && if IsCompleted(s.journal, Parent(r.op))
         then ReplayFailed(r, log) || (PairPublished(r, log) && AllCompleted(s.journal, r))
         else Unfinished(s, r, log)
  }

  /** How a report follows from what the rollback saw and did. */
  ghost predicate CommittedReport(r: Request, log: seq<Event>, removed: bool, recoveryRequired: bool) {
    var m := |log| - 3;
    && m >= 0 && PublishedPart(r, log, m)
    && log[m].RecipeLooked? && log[m + 1].RecipeUndone? && log[m + 2].RecipeLooked?
    && var was := log[m].readable && log[m].present;
       var undone := log[m + 1].undo.AlreadyGone? || log[m + 1].undo.Removed?;
       var present := log[m + 2].readable && log[m + 2].present;
       removed == (undone && was && !present) && recoveryRequired == (!undone || present)
  }

  ghost predicate EntryAt(s: State, r: Request) {
    && s.call.Active? && s.call.request == r && s.call.pc.AtEntry?
    && EntryInv(s, r, s.call.pc.entry, s.call.log)
  }

  ghost predicate AdmissionAt(s: State, r: Request) {
    && s.call.Active? && s.call.request == r && s.call.pc.AtAdmission?
    && AdmissionInv(s, r, s.call.pc.admission, s.call.log)
  }

  ghost predicate PreparationAt(s: State, r: Request) {
    && s.call.Active? && s.call.request == r && s.call.pc.AtPreparation?
    && PreparationInv(s, r, s.call.pc.preparation, s.call.log)
  }

  ghost predicate RecipePhaseAt(s: State, r: Request) {
    && s.call.Active? && s.call.request == r && s.call.pc.AtRecipePhase?
    && RecipePhaseInv(s, r, s.call.pc.publication, s.call.log)
  }

  ghost predicate CommitAt(s: State, r: Request) {
    && s.call.Active? && s.call.request == r && s.call.pc.AtCommit?
    && CommitInv(s, r, s.call.pc.commit, s.call.log)
  }

  ghost predicate RollbackAt(s: State, r: Request) {
    && s.call.Active? && s.call.request == r && s.call.pc.AtRollback?
    && RollbackInv(s, r, s.call.pc.rollback, s.call.log)
  }

  ghost predicate CompletionAt(s: State, r: Request) {
    && s.call.Active? && s.call.request == r && s.call.pc.AtCompletion?
    && CompletionInv(s, r, s.call.pc.completion, s.call.log)
  }

  ghost predicate ReturnedAt(s: State, r: Request) {
    s.call.Returned? && s.call.request == r && OutcomeInv(s, r, s.call.outcome, s.call.log)
  }

  ghost predicate Books(s: State, r: Request) {
    && Sound(s.journal, s.recorded, s.placements, s.calls)
    && !s.call.Idle? && s.call.request == r && ValidRequest(r)
    && PlacementsLogged(s.placements, s.calls, r, s.call.log)
  }

  ghost predicate At(s: State, r: Request) {
    || EntryAt(s, r) || AdmissionAt(s, r) || PreparationAt(s, r) || RecipePhaseAt(s, r)
    || CommitAt(s, r) || RollbackAt(s, r) || CompletionAt(s, r) || ReturnedAt(s, r)
  }

  ghost predicate Inv(s: State) {
    if s.call.Idle? then Sound(s.journal, s.recorded, s.placements, s.calls)
    else Books(s, s.call.request) && At(s, s.call.request)
  }

  // ---- What journal changes, log entries and renames leave alone -------------------------------

  /** `j'` differs from `j` only in the phases of one operation's records. */
  ghost predicate SameRecords(j: Journal, j': Journal, op: string) {
    && j'.Keys == j.Keys
    && forall id :: id in j ==>
         && (id.op != op ==> j'[id] == j[id])
         && j'[id].write == j[id].write && j'[id].digest == j[id].digest
  }

  /** The same, and no record ends. */
  ghost predicate Steady(j: Journal, j': Journal, op: string) {
    SameRecords(j, j', op) && forall id :: IsOpen(j, id) ==> IsOpen(j', id)
  }

  lemma TransitionKeepsRecords(j: Journal, id: JournalId, to: Phase, p: Progress)
    ensures SameRecords(j, Transition(j, id, to, p).journal, id.op)
  {
  }

  lemma TransitionIsSteady(j: Journal, id: JournalId, to: Phase, p: Progress)
    requires !IsTerminal(to)
    ensures Steady(j, Transition(j, id, to, p).journal, id.op)
  {
    TransitionKeepsRecords(j, id, to, p);
  }

  lemma SoundKept(s: State, j: Journal, op: string)
    requires SameRecords(s.journal, j, op) && Sound(s.journal, s.recorded, s.placements, s.calls)
    ensures Sound(j, s.recorded, s.placements, s.calls)
  {
  }

  lemma OwningKept(s: State, j: Journal, r: Request)
    requires SameRecords(s.journal, j, r.op) && Owns(s, r)
    ensures Owning(j, s.recorded, s.placements, s.calls, r)
  {
  }

  lemma GroupedKept(j: Journal, j': Journal, staging: map<JournalId, File>, r: Request, appRenamed: bool)
    requires Steady(j, j', r.op) && Grouped(j, staging, r, appRenamed)
    ensures Grouped(j', staging, r, appRenamed)
  {
  }

  lemma StagedKept(j: Journal, j': Journal, staging: map<JournalId, File>, r: Request)
    requires SameRecords(j, j', r.op) && RecipeStaged(j, staging, r)
    ensures RecipeStaged(j', staging, r)
  {
  }

  lemma {:induction false} ChecksKept(r: Request, log: seq<Event>, e: Event, n: nat)
    requires ChecksUpTo(r, log, n)
    ensures ChecksUpTo(r, log + [e], n)
  {
    forall k | 0 <= k < n ensures PassedCheck(r, log + [e], k) {
      assert PassedCheck(r, log, k);
    }
  }

  lemma PublishedPartKept(r: Request, log: seq<Event>, e: Event, m: int)
    requires PublishedPart(r, log, m)
    ensures PublishedPart(r, log + [e], m)
  {
    ChecksKept(r, log, e, if m == FinalChecks(r) + 3 then FinalChecks(r) else m - 2);
  }

  /** An entry that renames nothing keeps the log in step with the placements. */
  lemma LoggedKept(s: State, r: Request, log: seq<Event>, e: Event)
    requires PlacementsLogged(s.placements, s.calls, r, log)
    requires !e.RecipePlaced? || !e.renamed
    requires !e.AppPlaced? || !e.renamed
    ensures PlacementsLogged(s.placements, s.calls, r, log + [e])
    ensures AppRenamed(r, log + [e]) == AppRenamed(r, log)
  {
    assert RecipeRenamed(log + [e]) == RecipeRenamed(log);
    assert AppRenamed(r, log + [e]) == AppRenamed(r, log);
  }

  lemma PlacingKeepsOneWriter(placements: seq<Placement>, w: Placement)
    requires OneWriter(placements)
    requires forall v :: v in placements && v.op == w.op ==> v.call == w.call && v.destination != w.destination
    ensures OneWriter(placements + [w])
  {
    forall i | 0 <= i < |placements| ensures placements[i] in placements {}
  }

  lemma PlacingKeeps(s: State, r: Request, destination: CatalogPath)
    requires Sound(s.journal, s.recorded, s.placements, s.calls) && Owns(s, r)
    requires forall w :: w in s.placements && w.op == r.op ==> w.destination != destination
    ensures var placements := s.placements + [Placement(s.calls, r.op, destination)];
            Sound(s.journal, s.recorded, placements, s.calls) && Owning(s.journal, s.recorded, placements, s.calls, r)
  {
    PlacingKeepsOneWriter(s.placements, Placement(s.calls, r.op, destination));
  }

  lemma RecipeLogged(placements: seq<Placement>, calls: nat, r: Request, f: File, replaced: Option<File>)
    requires PlacementsLogged(placements, calls, r, []) && ValidRequest(r)
    ensures var after := placements + [Placement(calls, r.op, r.recipe)];
            PlacementsLogged(after, calls, r, [RecipePlaced(f, true, replaced)])
  {
  }

  lemma AppLogged(placements: seq<Placement>, calls: nat, r: Request, log: seq<Event>, e: Event)
    requires PlacementsLogged(placements, calls, r, log) && ValidRequest(r) && |log| == FinalChecks(r) + 2
    requires e.AppPlaced? && e.renamed
    ensures PlacementsLogged(placements + [Placement(calls, r.op, r.app)], calls, r, log + [e])
  {
    assert RecipeRenamed(log + [e]) == RecipeRenamed(log);
    assert !AppRenamed(r, log);
  }

  /** An entry that renames nothing keeps the books. */
  lemma NotedBooks(s: State, s': State, r: Request, e: Event)
    requires Books(s, r) && !s'.call.Idle? && s'.call.request == r && s'.call.log == s.call.log + [e]
    requires s'.journal == s.journal && s'.recorded == s.recorded
    requires s'.placements == s.placements && s'.calls == s.calls
    requires !e.RecipePlaced? || !e.renamed
    requires !e.AppPlaced? || !e.renamed
    ensures Books(s', r) && AppRenamed(r, s'.call.log) == AppRenamed(r, s.call.log)
    ensures !e.RecipePlaced? ==> RecipeRenamed(s'.call.log) == RecipeRenamed(s.call.log)
  {
    LoggedKept(s, r, s.call.log, e);
  }

  /** So does a change of phases. */
  lemma SteadyBooks(s: State, s': State, r: Request)
    requires Books(s, r) && !s'.call.Idle? && s'.call.request == r && s'.call.log == s.call.log
    requires SameRecords(s.journal, s'.journal, r.op)
    requires s'.recorded == s.recorded && s'.placements == s.placements && s'.calls == s.calls
    ensures Books(s', r)
  {
    SoundKept(s, s'.journal, r.op);
  }

  /** Only phases and the program point changed. */
  ghost predicate Moved(s: State, s': State, r: Request)
    requires !s.call.Idle?
  {
    && !s'.call.Idle? && s'.call.request == r && s.call.request == r && s'.call.log == s.call.log
    && s'.recorded == s.recorded && s'.placements == s.placements && s'.calls == s.calls && s'.staging == s.staging
    && Steady(s.journal, s'.journal, r.op)
  }

  lemma MovedKeeps(s: State, s': State, r: Request, appRenamed: bool)
    requires !s.call.Idle? && Moved(s, s', r) && Books(s, r) && Owns(s, r)
    requires Grouped(s.journal, s.staging, r, appRenamed)
    ensures Books(s', r) && Owns(s', r) && Grouped(s'.journal, s'.staging, r, appRenamed)
  {
    SteadyBooks(s, s', r);
    OwningKept(s, s'.journal, r);
    GroupedKept(s.journal, s'.journal, s.staging, r, appRenamed);
  }

  // ---- Entry and admission -----------------------------------------------------------------------

  lemma ReplayIsConfirmed(s: State, r: Request)
    requires RecordsSound(s.journal, s.recorded) && ValidRequest(r) && Parent(r.op) in s.journal
    requires s.journal[Parent(r.op)].digest == DigestOf(r)
    ensures r.op in s.recorded && DigestFields(s.recorded[r.op]) == DigestFields(r)
    ensures s.recorded[r.op].appBytes == r.appBytes && s.recorded[r.op].recipeBytes == r.recipeBytes
  {
    var a, b := DigestFields(s.recorded[r.op]), DigestFields(r);
    DigestInputIsInjective(a, b);
    assert a[0] == b[0] && a[1] == b[1];
  }

  lemma AnswerKeeps(s: State, r: Request)
    requires s.call.Active? && s.call.log == [] && Books(s, r) && Parent(r.op) in s.journal && AllTerminal(s.journal)
    ensures Books(AnswerFromRecord(s), r)
    ensures EntryAt(AnswerFromRecord(s), r) || ReturnedAt(AnswerFromRecord(s), r)
  {
    assert IsTerminal(s.journal[Parent(r.op)].phase);
  }

  lemma ReadReplayedRecipeKeeps(s: State, r: Request, seen: File, p: Progress)
    requires s.call == Active(r, AtEntry(ReplayRecipe(seen)), [ReplayedApp(seen)]) && Books(s, r) && EntryAt(s, r)
    ensures Books(ReadReplayedRecipe(s, seen, p), r)
    ensures ReturnedAt(ReadReplayedRecipe(s, seen, p), r)
  {
    ReplayIsConfirmed(s, r);
    if r.recipe in s.fs.files {
      LoggedKept(s, r, s.call.log, ReplayedRecipe(s.fs.files[r.recipe]));
    }
  }

  lemma ReadReplayedAppKeeps(s: State, r: Request, p: Progress)
    requires s.call == Active(r, AtEntry(ReplayApp), []) && Books(s, r) && EntryAt(s, r)
    ensures Books(ReadReplayedApp(s, p), r)
    ensures EntryAt(ReadReplayedApp(s, p), r) || ReturnedAt(ReadReplayedApp(s, p), r)
  {
    var s' := ReadReplayedApp(s, p);
    if s'.call.Active? {
      NotedBooks(s, s', r, ReplayedApp(s.fs.files[r.app]));
      assert EntryAt(s', r);
    } else {
      assert Replaying(s'.call.log);
      assert ReturnedAt(s', r);
    }
  }

  lemma NothingStaysStaged(staging: map<JournalId, File>, j: Journal)
    requires AllTerminal(j)
    ensures Cleaned(staging, j) == map[]
  {
  }

  lemma PassGateKeeps(s: State, r: Request, p: Progress)
    requires s.call == Active(r, AtEntry(Gate), []) && Books(s, r)
    ensures Books(PassGate(s, p), r)
    ensures EntryAt(PassGate(s, p), r) || ReturnedAt(PassGate(s, p), r)
  {
    var s' := PassGate(s, p);
    if s'.call.Active? {
      NothingStaysStaged(s.staging, s.journal);
      assert EntryAt(s', r);
    } else {
      assert ReturnedAt(s', r);
    }
  }

  lemma LookUpKeeps(s: State, r: Request, p: Progress)
    requires s.call == Active(r, AtEntry(Lookup), []) && Books(s, r) && EntryAt(s, r)
    ensures Books(LookUp(s, p), r)
    ensures EntryAt(LookUp(s, p), r) || AdmissionAt(LookUp(s, p), r) || ReturnedAt(LookUp(s, p), r)
  {
    if Parent(r.op) in s.journal {
      AnswerKeeps(s, r);
    }
  }

  lemma EnterKeeps(s: State, r: Request, p: Progress)
    requires Books(s, r) && EntryAt(s, r)
    ensures Books(Enter(s, p), r) && At(Enter(s, p), r)
  {
    match s.call.pc.entry
    case Gate => PassGateKeeps(s, r, p);
    case Lookup => LookUpKeeps(s, r, p);
    case ReplayApp => ReadReplayedAppKeeps(s, r, p);
    case ReplayRecipe(seen) => ReadReplayedRecipeKeeps(s, r, seen, p);
  }

  lemma RefusalKeeps(s: State, r: Request)
    requires s.call.Active? && s.call.log == [] && Books(s, r)
    ensures Books(Return(s, Refused), r) && ReturnedAt(Return(s, Refused), r)
  {
  }

  lemma AdmissionGoesOn(s: State, r: Request, pc: AdmissionPc)
    requires Books(s, r) && AdmissionAt(s, r) && !pc.SnapRecipe?
    ensures Books(Goto(s, AtAdmission(pc)), r) && AdmissionAt(Goto(s, AtAdmission(pc)), r)
  {
  }

  lemma CheckAdmissionKeeps(s: State, r: Request, i: nat, p: Progress)
    requires s.call == Active(r, AtAdmission(AdmitCheck(i)), []) && Books(s, r) && AdmissionAt(s, r)
    ensures Books(CheckAdmission(s, i, p), r)
    ensures AdmissionAt(CheckAdmission(s, i, p), r) || ReturnedAt(CheckAdmission(s, i, p), r)
  {
    RefusalKeeps(s, r);
    AdmissionGoesOn(s, r, AdmitCheck(i + 1));
    AdmissionGoesOn(s, r, SnapApp);
  }

  lemma SnapshotAppKeeps(s: State, r: Request, p: Progress)
    requires s.call == Active(r, AtAdmission(SnapApp), []) && Books(s, r) && AdmissionAt(s, r)
    ensures Books(SnapshotApp(s, p), r)
    ensures AdmissionAt(SnapshotApp(s, p), r) || ReturnedAt(SnapshotApp(s, p), r)
  {
  }

  lemma SnapshotRecipeKeeps(s: State, r: Request, current: Option<File>, p: Progress)
    requires s.call == Active(r, AtAdmission(SnapRecipe(current)), []) && Books(s, r) && AdmissionAt(s, r)
    ensures Books(SnapshotRecipe(s, current, p), r)
    ensures PreparationAt(SnapshotRecipe(s, current, p), r) || ReturnedAt(SnapshotRecipe(s, current, p), r)
  {
  }

  lemma AdmitKeeps(s: State, r: Request, p: Progress)
    requires s.call.Active? && Books(s, r) && AdmissionAt(s, r)
    ensures Books(Admit(s, p), r) && At(Admit(s, p), r)
  {
    match s.call.pc.admission
    case AdmitCheck(i) => CheckAdmissionKeeps(s, r, i, p);
    case SnapApp => SnapshotAppKeeps(s, r, p);
    case SnapRecipe(current) => SnapshotRecipeKeeps(s, r, current, p);
  }

  // ---- Preparation -------------------------------------------------------------------------------

  lemma BegunKeeps(s: State, r: Request)
    requires s.call.Active? && s.call.log == [] && Books(s, r) && Parent(r.op) !in s.journal
    requires AllTerminal(s.journal)
    ensures Books(Begun(s), r) && Owns(Begun(s), r)
    ensures forall id :: id in Begun(s).journal && id.op == r.op ==> id.Parent?
  {
  }

  lemma BeginKeeps(s: State, r: Request, current: Option<File>, p: Progress)
    requires s.call == Active(r, AtPreparation(BeginParent(current)), []) && Books(s, r) && PreparationAt(s, r)
    ensures Books(BeginOperation(s, current, p), r)
    ensures var s' := BeginOperation(s, current, p);
            EntryAt(s', r) || PreparationAt(s', r) || ReturnedAt(s', r)
  {
    BegunKeeps(s, r);
    var s' := BeginOperation(s, current, p);
    if s'.call.Active? { assert PreparationAt(s', r); } else { assert ReturnedAt(s', r); }
  }

  lemma ChildAddedIsSound(j: Journal, id: JournalId, record: Record, recorded: map<string, Request>)
    requires RecordsSound(j, recorded) && Parent(id.op) in j && id.Child?
    ensures RecordsSound(j[id := record], recorded)
  {
  }

  lemma ChildAddedIsOwned(s: State, r: Request, id: JournalId, record: Record)
    requires id.op == r.op && id.Child? && Owns(s, r)
    ensures Owning(s.journal[id := record], s.recorded, s.placements, s.calls, r)
  {
  }

  lemma ChildAdded(s: State, r: Request, id: JournalId, record: Record)
    requires id !in s.journal && id.op == r.op && id.Child? && Owns(s, r)
    requires Sound(s.journal, s.recorded, s.placements, s.calls)
    ensures Sound(s.journal[id := record], s.recorded, s.placements, s.calls)
    ensures Owning(s.journal[id := record], s.recorded, s.placements, s.calls, r)
  {
    ChildAddedIsSound(s.journal, id, record, s.recorded);
    ChildAddedIsOwned(s, r, id, record);
  }

  /** Staging adds one record, whatever happens to it next. */
  lemma StageKeepsSound(s: State, r: Request, id: JournalId, write: Write, p: Progress)
    requires id !in s.journal && id.op == r.op && id.Child? && Owns(s, r)
    requires Sound(s.journal, s.recorded, s.placements, s.calls)
    ensures var t := StageWrite(s, id, write, p);
            && Sound(t.journal, s.recorded, s.placements, s.calls)
            && Owning(t.journal, s.recorded, s.placements, s.calls, r)
  {
    var t, record := StageWrite(s, id, write, p), Record(write.staged.bytes, Prepared, Some(write));
    StageAddsOneRecord(s, id, write, p);
    if t.journal != s.journal {
      var begun := s.(journal := s.journal[id := record]);
      ChildAdded(s, r, id, record);
      SoundKept(begun, t.journal, r.op);
      OwningKept(begun, t.journal, r);
    }
  }

  lemma StageAddsOneRecord(s: State, id: JournalId, write: Write, p: Progress)
    requires id !in s.journal
    ensures var t := StageWrite(s, id, write, p);
            t.journal == s.journal
            || SameRecords(s.journal[id := Record(write.staged.bytes, Prepared, Some(write))], t.journal, id.op)
  {
    TransitionKeepsRecords(s.journal[id := Record(write.staged.bytes, Prepared, Some(write))], id, Staged, p);
  }

  lemma StageRecords(s: State, r: Request, id: JournalId, write: Write, p: Progress)
    requires id !in s.journal
    ensures var t := StageWrite(s, id, write, p);
            && (forall other :: other in s.journal ==> other in t.journal && t.journal[other] == s.journal[other])
            && (forall other :: other in t.journal && other != id ==> other in s.journal)
            && (t.ok ==>
                  && t.staging == s.staging[id := write.staged]
                  && InStaging(t.journal, t.staging, id) && t.journal[id].write == Some(write)
                  && IsOpen(t.journal, id))
            && (id in t.journal ==> t.journal[id].phase.Prepared? || t.journal[id].phase.Staged?)
            && (forall other :: other in t.staging ==> other in s.staging || (other == id && id in t.journal))
  {
  }

  lemma StageFileBooks(s: State, r: Request, id: JournalId, write: Write, p: Progress, next: Pc)
    requires s.call.Active? && Books(s, r) && Owns(s, r) && id !in s.journal && id.op == r.op && id.Child?
    ensures Books(StageFile(s, id, write, p, next), r) && Owns(StageFile(s, id, write, p, next), r)
  {
    StageKeepsSound(s, r, id, write, p);
  }

  lemma StagingStaysRejectable(s: State, r: Request, id: JournalId, write: Write, p: Progress, next: Pc)
    requires s.call.Active? && Rejectable(s, r) && id !in s.journal && id.op == r.op && id.Child?
    ensures Rejectable(StageFile(s, id, write, p, next), r)
  {
    StageRecords(s, r, id, write, p);
  }

  lemma StagedRecipeIsNext(s: State, r: Request, current: Option<File>, p: Progress, write: Write)
    requires s.call == Active(r, AtPreparation(StageRecipe(current)), []) && PreparationAt(s, r) && ValidRequest(r)
    requires write.destination == r.recipe && write.expected == None && write.staged.bytes == r.recipeBytes
    requires Owns(StageFile(s, RecipeChild(r), write, p, AtPreparation(StageApp(current))), r)
    ensures PreparationAt(StageFile(s, RecipeChild(r), write, p, AtPreparation(StageApp(current))), r)
  {
    StageRecords(s, r, RecipeChild(r), write, p);
    StagingStaysRejectable(s, r, RecipeChild(r), write, p, AtPreparation(StageApp(current)));
    var t := StageWrite(s, RecipeChild(r), write, p);
    if t.ok {
      assert RecipeStaged(t.journal, t.staging, r);
      assert AppChild(r) !in t.journal && AppChild(r) !in t.staging;
    }
  }

  lemma StageRecipeKeeps(s: State, r: Request, current: Option<File>, p: Progress, identity: nat)
    requires s.call == Active(r, AtPreparation(StageRecipe(current)), []) && Books(s, r) && PreparationAt(s, r)
    ensures var s' := StageFile(s, RecipeChild(r), RecipeWrite(r, identity), p, AtPreparation(StageApp(current)));
            Books(s', r) && PreparationAt(s', r)
  {
    StageFileBooks(s, r, RecipeChild(r), RecipeWrite(r, identity), p, AtPreparation(StageApp(current)));
    StagedRecipeIsNext(s, r, current, p, RecipeWrite(r, identity));
  }

  lemma StagedAppIsGrouped(s: State, r: Request, current: Option<File>, p: Progress, identity: nat)
    requires s.call == Active(r, AtPreparation(StageApp(current)), []) && PreparationAt(s, r)
    requires StageWrite(s, AppChild(r), AppWrite(r, current, identity), p).ok
    ensures var s' := StageFile(s, AppChild(r), AppWrite(r, current, identity), p, AtPreparation(ParentStaged));
            && s'.call == Active(r, AtPreparation(ParentStaged), [])
            && RecipeStaged(s'.journal, s'.staging, r) && Grouped(s'.journal, s'.staging, r, false)
  {
    StageRecords(s, r, AppChild(r), AppWrite(r, current, identity), p);
  }

  lemma StageAppKeeps(s: State, r: Request, current: Option<File>, p: Progress, identity: nat)
    requires s.call == Active(r, AtPreparation(StageApp(current)), []) && Books(s, r) && PreparationAt(s, r)
    ensures var s' := StageFile(s, AppChild(r), AppWrite(r, current, identity), p, AtPreparation(ParentStaged));
            Books(s', r) && PreparationAt(s', r)
  {
    var id, write, next := AppChild(r), AppWrite(r, current, identity), AtPreparation(ParentStaged);
    var t, s' := StageWrite(s, id, write, p), StageFile(s, id, write, p, next);
    StageFileBooks(s, r, id, write, p, next);
    if t.ok {
      StagedAppIsGrouped(s, r, current, p, identity);
    } else {
      StagingStaysRejectable(s, r, id, write, p, next);
      assert s'.call == Active(r, AtPreparation(RejectStaged), []);
    }
  }

  lemma RejectKeepsRecords(j: Journal, op: string, p: Progress)
    ensures SameRecords(j, RejectGroup(j, op, p), op)
  {
  }

  lemma RejectKeeps(s: State, r: Request, p: Progress)
    requires s.call == Active(r, AtPreparation(RejectStaged), []) && Books(s, r)
    ensures Books(Reject(s, p), r)
    ensures ReturnedAt(Reject(s, p), r)
  {
    RejectKeepsRecords(s.journal, r.op, p);
    SoundKept(s, RejectGroup(s.journal, r.op, p), r.op);
  }

  lemma AdvanceMoves(s: State, id: JournalId, to: Phase, p: Progress, next: Pc)
    requires s.call.Active? && !IsTerminal(to) && id.op == s.call.request.op
    ensures Moved(s, Advance(s, id, to, p, next), s.call.request)
  {
    TransitionIsSteady(s.journal, id, to, p);
  }

  lemma AdvanceLands(s: State, id: JournalId, to: Phase, p: Progress, next: Pc)
    requires s.call.Active?
    ensures var s' := Advance(s, id, to, p, next);
            if s'.call.Active? then s'.call.pc == next && id in s'.journal && s'.journal[id].phase == to
            else s'.call.Returned? && s'.call.outcome.Unsynchronized?
  {
  }

  /** One phase change of one of the operation's records. */
  lemma AdvanceKeeps(s: State, r: Request, id: JournalId, to: Phase, p: Progress, next: Pc)
    requires s.call.Active? && Books(s, r) && id.op == r.op && Owns(s, r) && !IsTerminal(to)
    requires Grouped(s.journal, s.staging, r, AppRenamed(r, s.call.log))
    ensures var s' := Advance(s, id, to, p, next);
            && Books(s', r) && Owns(s', r) && Grouped(s'.journal, s'.staging, r, AppRenamed(r, s.call.log))
  {
    AdvanceMoves(s, id, to, p, next);
    MovedKeeps(s, Advance(s, id, to, p, next), r, AppRenamed(r, s.call.log));
  }

  /** A group still open ends as unfinished. */
  lemma OpenEndsUnsynchronized(s: State, r: Request)
    requires s.call.Returned? && s.call.request == r && s.call.outcome.Unsynchronized?
    requires Grouped(s.journal, s.staging, r, AppRenamed(r, s.call.log)) && RecipeTells(s.staging, r, s.call.log)
    requires UnsynchronizedLog(r, s.call.log)
    ensures ReturnedAt(s, r)
  {
    assert FilesTell(s, r, s.call.log);
    assert Unfinished(s, r, s.call.log);
  }

  lemma ParentStagedKeeps(s: State, r: Request, p: Progress)
    requires s.call == Active(r, AtPreparation(ParentStaged), []) && Books(s, r) && PreparationAt(s, r)
    ensures var s' := Advance(s, Parent(r.op), Staged, p, AtPreparation(ParentPublishing));
            Books(s', r) && (PreparationAt(s', r) || ReturnedAt(s', r))
  {
    AdvanceMoves(s, Parent(r.op), Staged, p, AtPreparation(ParentPublishing));
    AdvanceLands(s, Parent(r.op), Staged, p, AtPreparation(ParentPublishing));
    AdvanceKeeps(s, r, Parent(r.op), Staged, p, AtPreparation(ParentPublishing));
    var s' := Advance(s, Parent(r.op), Staged, p, AtPreparation(ParentPublishing));
    StagedKept(s.journal, s'.journal, s.staging, r);
    if s'.call.Active? { assert PreparationAt(s', r); } else { OpenEndsUnsynchronized(s', r); }
  }

  lemma ParentPublishingKeeps(s: State, r: Request, p: Progress)
    requires s.call == Active(r, AtPreparation(ParentPublishing), []) && Books(s, r) && PreparationAt(s, r)
    ensures var s' := Advance(s, Parent(r.op), Publishing, p, AtRecipePhase(RecipeCheck));
            Books(s', r) && (RecipePhaseAt(s', r) || ReturnedAt(s', r))
  {
    AdvanceMoves(s, Parent(r.op), Publishing, p, AtRecipePhase(RecipeCheck));
    AdvanceLands(s, Parent(r.op), Publishing, p, AtRecipePhase(RecipeCheck));
    AdvanceKeeps(s, r, Parent(r.op), Publishing, p, AtRecipePhase(RecipeCheck));
    var s' := Advance(s, Parent(r.op), Publishing, p, AtRecipePhase(RecipeCheck));
    StagedKept(s.journal, s'.journal, s.staging, r);
    if s'.call.Active? { assert RecipePhaseAt(s', r); } else { OpenEndsUnsynchronized(s', r); }
  }

  lemma PrepareKeeps(s: State, r: Request, p: Progress, identity: nat)
    requires Books(s, r) && PreparationAt(s, r)
    ensures Books(Prepare(s, p, identity), r) && At(Prepare(s, p, identity), r)
  {
    match s.call.pc.preparation
    case BeginParent(current) => BeginKeeps(s, r, current, p);
    case StageRecipe(current) => StageRecipeKeeps(s, r, current, p, identity);
    case StageApp(current) => StageAppKeeps(s, r, current, p, identity);
    case RejectStaged => RejectKeeps(s, r, p);
    case ParentStaged => ParentStagedKeeps(s, r, p);
    case ParentPublishing => ParentPublishingKeeps(s, r, p);
  }

  // ---- The Recipe --------------------------------------------------------------------------------

  /** The destination already is the staged file. */
  lemma FoundRecipeKeeps(s: State, r: Request, f: File)
    requires s.call == Active(r, AtRecipePhase(RecipeCheck), []) && Books(s, r) && Owns(s, r)
    requires Grouped(s.journal, s.staging, r, false) && RecipeStaged(s.journal, s.staging, r)
    requires f.bytes == r.recipeBytes
    ensures var s' := Goto(Note(s, RecipePlaced(f, false, None)), AtRecipePhase(CaptureRecipe));
            Books(s', r) && RecipePhaseAt(s', r)
  {
    NotedBooks(s, Goto(Note(s, RecipePlaced(f, false, None)), AtRecipePhase(CaptureRecipe)), r,
               RecipePlaced(f, false, None));
  }

  lemma CheckIsSteady(
      j: Journal, staging: map<JournalId, File>, current: Option<File>, id: JournalId, p: Progress)
    ensures Steady(j, PublishCheck(j, staging, current, id, p).journal, id.op)
  {
  }

  lemma CheckRecipeKeeps(s: State, r: Request, p: Progress)
    requires s.call == Active(r, AtRecipePhase(RecipeCheck), []) && Books(s, r) && RecipePhaseAt(s, r)
    ensures Books(CheckRecipe(s, p), r)
    ensures RecipePhaseAt(CheckRecipe(s, p), r)
  {
    var current := FileAt(s.fs, r.recipe);
    var d := PublishCheck(s.journal, s.staging, current, RecipeChild(r), p);
    var checked := s.(journal := d.journal);
    CheckIsSteady(s.journal, s.staging, current, RecipeChild(r), p);
    MovedKeeps(s, checked, r, false);
    StagedKept(s.journal, d.journal, s.staging, r);
    if d.AlreadyPublished? {
      FoundRecipeKeeps(checked, r, current.value);
    } else {
      CheckedRecipeGoesOn(checked, r, if d.Stop? then Abandon else RecipeRename);
    }
  }

  lemma CheckedRecipeGoesOn(s: State, r: Request, pc: RecipePc)
    requires s.call.Active? && s.call.request == r && s.call.log == [] && Books(s, r) && Owns(s, r)
    requires Grouped(s.journal, s.staging, r, false) && RecipeStaged(s.journal, s.staging, r)
    requires pc.Abandon? || pc.RecipeRename?
    ensures Books(Goto(s, AtRecipePhase(pc)), r) && RecipePhaseAt(Goto(s, AtRecipePhase(pc)), r)
  {
    assert Replaying(s.call.log);
  }

  /** The Recipe's rename, before its record is advanced. */
  lemma PlacedRecipeKeeps(s: State, r: Request, placed: State)
    requires s.call == Active(r, AtRecipePhase(RecipeRename), []) && Books(s, r) && RecipePhaseAt(s, r)
    requires var f := s.staging[RecipeChild(r)];
             placed == Place(s, RecipeChild(r), r.recipe, RecipePlaced(f, true, FileAt(s.fs, r.recipe)))
    ensures Books(placed, r) && Owns(placed, r) && Grouped(placed.journal, placed.staging, r, false)
    ensures |placed.call.log| == 1 && placed.call.log[0].RecipePlaced? && placed.call.log[0].renamed
    ensures placed.call.log[0].file.bytes == r.recipeBytes
  {
    PlacingKeeps(s, r, r.recipe);
    assert placed.journal == s.journal && placed.staging == s.staging - {RecipeChild(r)};
    RecipeLogged(s.placements, s.calls, r, s.staging[RecipeChild(r)], FileAt(s.fs, r.recipe));
  }

  lemma RenameRecipeMoves(s: State, r: Request, p: Progress, placed: State)
    requires s.call == Active(r, AtRecipePhase(RecipeRename), []) && !p.Fails? && RecipeChild(r) in s.staging
    requires placed == Place(s, RecipeChild(r), r.recipe,
                             RecipePlaced(s.staging[RecipeChild(r)], true, FileAt(s.fs, r.recipe)))
    ensures Moved(placed, RenameRecipe(s, p), r) && RenameRecipe(s, p).call.Active?
    ensures var pc := RenameRecipe(s, p).call.pc; pc == AtRecipePhase(CaptureRecipe) || pc == AtRecipePhase(Abandon)
  {
    TransitionIsSteady(s.journal, RecipeChild(r), Published, p);
  }

  lemma RenamedRecipeKeeps(s: State, r: Request, p: Progress, placed: State)
    requires s.call == Active(r, AtRecipePhase(RecipeRename), []) && Books(s, r) && RecipePhaseAt(s, r) && !p.Fails?
    requires placed == Place(s, RecipeChild(r), r.recipe,
                             RecipePlaced(s.staging[RecipeChild(r)], true, FileAt(s.fs, r.recipe)))
    ensures Books(RenameRecipe(s, p), r)
    ensures RecipePhaseAt(RenameRecipe(s, p), r)
  {
    PlacedRecipeKeeps(s, r, placed);
    RenameRecipeMoves(s, r, p, placed);
    MovedKeeps(placed, RenameRecipe(s, p), r, false);
  }

  lemma RenameRecipeKeeps(s: State, r: Request, p: Progress)
    requires s.call == Active(r, AtRecipePhase(RecipeRename), []) && Books(s, r) && RecipePhaseAt(s, r)
    ensures Books(RenameRecipe(s, p), r)
    ensures RecipePhaseAt(RenameRecipe(s, p), r)
  {
    if p.Fails? {
      assert Replaying(s.call.log);
      assert RecipePhaseAt(Goto(s, AtRecipePhase(Abandon)), r);
    } else {
      var e := RecipePlaced(s.staging[RecipeChild(r)], true, FileAt(s.fs, r.recipe));
      RenamedRecipeKeeps(s, r, p, Place(s, RecipeChild(r), r.recipe, e));
    }
  }

  lemma GiveUpKeeps(s: State, r: Request, p: Progress)
    requires Books(s, r) && RecipePhaseAt(s, r) && s.call.pc.publication.Abandon?
    ensures Books(GiveUp(s, p), r)
    ensures ReturnedAt(GiveUp(s, p), r)
  {
    TransitionIsSteady(s.journal, Parent(r.op), RecoveryRequired, p);
    assert Moved(s, GiveUp(s, p), r);
    MovedKeeps(s, GiveUp(s, p), r, AppRenamed(r, s.call.log));
    OpenEndsUnsynchronized(GiveUp(s, p), r);
  }

  lemma CaptureCommittedKeeps(s: State, r: Request, p: Progress)
    requires Books(s, r) && RecipePhaseAt(s, r) && s.call.pc.publication.CaptureRecipe?
    ensures Books(CaptureCommitted(s, p), r)
    ensures RecipePhaseAt(CaptureCommitted(s, p), r) || CommitAt(CaptureCommitted(s, p), r)
  {
    var s' := CaptureCommitted(s, p);
    if s'.call.pc.AtCommit? {
      NotedBooks(s, s', r, RecipeCaptured(s.fs.files[r.recipe]));
      assert CommitAt(s', r);
    } else {
      assert RecipePhaseAt(s', r);
    }
  }

  lemma PublishRecipeKeeps(s: State, r: Request, p: Progress)
    requires Books(s, r) && RecipePhaseAt(s, r)
    ensures Books(PublishRecipe(s, p), r) && At(PublishRecipe(s, p), r)
  {
    match s.call.pc.publication
    case RecipeCheck => CheckRecipeKeeps(s, r, p);
    case RecipeRename => RenameRecipeKeeps(s, r, p);
    case Abandon => GiveUpKeeps(s, r, p);
    case CaptureRecipe => CaptureCommittedKeeps(s, r, p);
  }

  // ---- The re-check and the App --------------------------------------------------------------------

  lemma CheckLogged(r: Request, log: seq<Event>, i: nat, fs: Fs)
    requires |log| == i + 2 && ChecksUpTo(r, log, i) && i < FinalChecks(r) && FinalCheckHolds(r, log[1].file, i, fs)
    ensures ChecksUpTo(r, log + [CheckPassed(i, fs)], i + 1)
  {
    ChecksKept(r, log, CheckPassed(i, fs), i);
    assert PassedCheck(r, log + [CheckPassed(i, fs)], i);
  }

  lemma RecheckKeeps(s: State, r: Request, f: File, i: nat, p: Progress)
    requires s.call.Active? && s.call.pc == AtCommit(FinalCheck(f, i)) && Books(s, r) && CommitAt(s, r)
    ensures Books(Recheck(s, f, i, p), r)
    ensures CommitAt(Recheck(s, f, i, p), r) || RollbackAt(Recheck(s, f, i, p), r)
  {
    var s' := Recheck(s, f, i, p);
    if s'.call.pc.AtCommit? {
      NotedBooks(s, s', r, CheckPassed(i, s.fs));
      CheckLogged(r, s.call.log, i, s.fs);
      assert CommitAt(s', r);
    } else {
      assert RollbackAt(s', r);
    }
  }

  lemma AppPlacedLogged(r: Request, log: seq<Event>, e: Event)
    requires |log| == FinalChecks(r) + 2 && ChecksUpTo(r, log, FinalChecks(r))
    requires e.AppPlaced? && e.file.bytes == r.appBytes
    ensures PairPlaced(r, log + [e]) && PublishedPart(r, log + [e], |log| + 1)
    ensures AppRenamed(r, log + [e]) == e.renamed
  {
    ChecksKept(r, log, e, FinalChecks(r));
  }

  /** The destination already is the staged file. */
  lemma FoundAppKeeps(s: State, r: Request, f: File, g: File)
    requires s.call.Active? && s.call.pc == AtCommit(AppCheck(f)) && Books(s, r) && CommitAt(s, r)
    requires g.bytes == r.appBytes
    ensures var s' := Goto(Note(s, AppPlaced(g, false, None)), AtCompletion(ParentPublished(f)));
            Books(s', r) && CompletionAt(s', r)
  {
    var e := AppPlaced(g, false, None);
    NotedBooks(s, Goto(Note(s, e), AtCompletion(ParentPublished(f))), r, e);
    AppPlacedLogged(r, s.call.log, e);
  }

  /** The check failed, or found the destination as expected. */
  lemma CheckedAppGoesOn(s: State, r: Request, f: File)
    requires s.call.Active? && s.call.pc == AtCommit(AppCheck(f)) && Books(s, r) && CommitAt(s, r)
    ensures Books(Goto(s, AtRollback(RollbackLook)), r) && RollbackAt(Goto(s, AtRollback(RollbackLook)), r)
    ensures Books(Goto(s, AtCommit(AppRename(f))), r) && CommitAt(Goto(s, AtCommit(AppRename(f))), r)
  {
    assert PublishedPart(r, s.call.log, |s.call.log|);
  }

  lemma CheckAppKeeps(s: State, r: Request, f: File, p: Progress)
    requires s.call.Active? && s.call.pc == AtCommit(AppCheck(f)) && Books(s, r) && CommitAt(s, r)
    ensures Books(CheckApp(s, f, p), r)
    ensures CommitAt(CheckApp(s, f, p), r) || RollbackAt(CheckApp(s, f, p), r) || CompletionAt(CheckApp(s, f, p), r)
  {
    var current := FileAt(s.fs, r.app);
    var d := PublishCheck(s.journal, s.staging, current, AppChild(r), p);
    var checked := s.(journal := d.journal);
    CheckIsSteady(s.journal, s.staging, current, AppChild(r), p);
    MovedKeeps(s, checked, r, false);
    assert CommitAt(checked, r);
    if d.AlreadyPublished? {
      FoundAppKeeps(checked, r, f, current.value);
    } else {
      CheckedAppGoesOn(checked, r, f);
      assert CheckApp(s, f, p) == Goto(checked, if d.Stop? then AtRollback(RollbackLook) else AtCommit(AppRename(f)));
    }
  }

  /** The App's rename, before its record is advanced. */
  lemma PlacedAppKeeps(s: State, r: Request, f: File, placed: State)
    requires s.call.Active? && s.call.pc == AtCommit(AppRename(f)) && Books(s, r) && CommitAt(s, r)
    requires var f := s.staging[AppChild(r)];
             placed == Place(s, AppChild(r), r.app, AppPlaced(f, true, FileAt(s.fs, r.app)))
    ensures Books(placed, r) && Owns(placed, r) && Grouped(placed.journal, placed.staging, r, true)
    ensures RecipeTells(placed.staging, r, placed.call.log)
    ensures |placed.call.log| == FinalChecks(r) + 3 && PairPlaced(r, placed.call.log) && AppRenamed(r, placed.call.log)
    ensures PublishedPart(r, placed.call.log, |placed.call.log|) && placed.call.log[1] == s.call.log[1]
  {
    var e := AppPlaced(s.staging[AppChild(r)], true, FileAt(s.fs, r.app));
    PlacingKeeps(s, r, r.app);
    AppLogged(s.placements, s.calls, r, s.call.log, e);
    AppPlacedLogged(r, s.call.log, e);
  }

  lemma RenameAppMoves(s: State, r: Request, f: File, p: Progress, placed: State)
    requires s.call.Active? && s.call.request == r && !p.Fails? && AppChild(r) in s.staging
    requires placed == Place(s, AppChild(r), r.app, AppPlaced(s.staging[AppChild(r)], true, FileAt(s.fs, r.app)))
    ensures Moved(placed, RenameApp(s, f, p), r) && RenameApp(s, f, p).call.Active?
    ensures var pc := RenameApp(s, f, p).call.pc;
            pc == AtCompletion(ParentPublished(f)) || pc == AtRollback(RollbackLook)
  {
    TransitionIsSteady(s.journal, AppChild(r), Published, p);
  }

  lemma RenameAppKeeps(s: State, r: Request, f: File, p: Progress)
    requires s.call.Active? && s.call.pc == AtCommit(AppRename(f)) && Books(s, r) && CommitAt(s, r)
    ensures Books(RenameApp(s, f, p), r)
    ensures RollbackAt(RenameApp(s, f, p), r) || CompletionAt(RenameApp(s, f, p), r)
  {
    var id, s' := AppChild(r), RenameApp(s, f, p);
    if p.Fails? {
      assert RollbackAt(s', r);
    } else {
      var placed := Place(s, id, r.app, AppPlaced(s.staging[id], true, FileAt(s.fs, r.app)));
      PlacedAppKeeps(s, r, f, placed);
      RenameAppMoves(s, r, f, p, placed);
      MovedKeeps(placed, s', r, true);
      if s'.call.pc.AtRollback? { assert RollbackAt(s', r); } else { assert CompletionAt(s', r); }
    }
  }

  lemma CommitKeeps(s: State, r: Request, p: Progress)
    requires Books(s, r) && CommitAt(s, r)
    ensures Books(PublishApp(s, p), r) && At(PublishApp(s, p), r)
  {
    match s.call.pc.commit
    case FinalCheck(f, i) => RecheckKeeps(s, r, f, i, p);
    case AppCheck(f) => CheckAppKeeps(s, r, f, p);
    case AppRename(f) => RenameAppKeeps(s, r, f, p);
  }

  // ---- Rollback ------------------------------------------------------------------------------------

  lemma LookKeeps(s: State, r: Request, p: Progress)
    requires Books(s, r) && RollbackAt(s, r) && s.call.pc.rollback.RollbackLook?
    ensures Books(Look(s, p), r)
    ensures RollbackAt(Look(s, p), r)
  {
    var e := RecipeLooked(p.Succeeds?, r.recipe in s.fs.files);
    NotedBooks(s, Look(s, p), r, e);
    PublishedPartKept(r, s.call.log, e, |s.call.log|);
  }

  lemma UndoneLogged(r: Request, log: seq<Event>, was: bool, u: Undo)
    requires Looked(r, log, was)
    ensures UndoneLog(r, log + [RecipeUndone(u)], |log| - 1, was, u.AlreadyGone? || u.Removed?)
  {
    PublishedPartKept(r, log, RecipeUndone(u), |log| - 1);
  }

  /** Logging what was undone. */
  lemma UndoneKeeps(s: State, r: Request, was: bool, u: Undo)
    requires s.call.Active? && Books(s, r) && Looked(r, s.call.log, was) && UndoTells(s.staging, r, s.call.log, u)
    requires Owns(s, r) && Grouped(s.journal, s.staging, r, AppRenamed(r, s.call.log))
    ensures Books(UndoNoted(s, was, u), r) && RollbackAt(UndoNoted(s, was, u), r)
  {
    NotedBooks(s, UndoNoted(s, was, u), r, RecipeUndone(u));
    UndoneIsNext(s, r, was, u);
  }

  lemma UndoneIsNext(s: State, r: Request, was: bool, u: Undo)
    requires s.call.Active? && s.call.request == r
    requires Looked(r, s.call.log, was) && UndoTells(s.staging, r, s.call.log, u)
    requires Owns(s, r) && Grouped(s.journal, s.staging, r, AppRenamed(r, s.call.log))
    requires AppRenamed(r, UndoNoted(s, was, u).call.log) == AppRenamed(r, s.call.log)
    ensures RollbackAt(UndoNoted(s, was, u), r)
  {
    UndoneLogged(r, s.call.log, was, u);
    UndoTellsKept(s.staging, r, s.call.log, u);
  }

  lemma UndoTellsKept(staging: map<JournalId, File>, r: Request, log: seq<Event>, u: Undo)
    requires UndoTells(staging, r, log, u) && log != []
    ensures UndoTells(staging, r, log + [RecipeUndone(u)], u)
  {
  }

  lemma VerifyKeeps(s: State, r: Request, was: bool, p: Progress)
    requires s.call.Active? && s.call.pc == AtRollback(RollbackVerify(was)) && Books(s, r) && RollbackAt(s, r)
    ensures Books(Verify(s, was, p), r)
    ensures RollbackAt(Verify(s, was, p), r)
  {
    var d := RollbackCheck(s.journal, s.staging, FileAt(s.fs, r.recipe), RecipeChild(r), p);
    if d.NotOwned? { UndoneKeeps(s, r, was, NotUndone); }
    else if d.LinkedOnly? { UndoneKeeps(LinkBack(s), r, was, NotUndone); }
    else if d.NothingToUndo? { UndoneKeeps(s, r, was, AlreadyGone); }
    else { OwnedKeeps(s, r, was, p); }
  }

  /** The staged file is put back before the Recipe is removed. */
  lemma OwnedKeeps(s: State, r: Request, was: bool, p: Progress)
    requires s.call.Active? && s.call.pc == AtRollback(RollbackVerify(was)) && Books(s, r) && RollbackAt(s, r)
    requires RollbackCheck(s.journal, s.staging, FileAt(s.fs, r.recipe), RecipeChild(r), p).Owned?
    ensures Books(Verify(s, was, p), r)
    ensures RollbackAt(Verify(s, was, p), r)
  {
    var s' := Verify(s, was, p);
    assert s'.call.pc == AtRollback(RollbackRemove(was)) && RecipeChild(r) in s'.staging;
    assert RollbackAt(s', r);
  }

  lemma RemoveKeeps(s: State, r: Request, was: bool, p: Progress)
    requires s.call.Active? && s.call.pc == AtRollback(RollbackRemove(was)) && Books(s, r) && RollbackAt(s, r)
    ensures Books(Remove(s, was, p), r)
    ensures RollbackAt(Remove(s, was, p), r)
  {
    if p.Fails? || p.Halfway? || r.recipe !in s.fs.files {
      UndoneKeeps(s, r, was, NotUndone);
    } else {
      var f := s.fs.files[r.recipe];
      var s' := s.(fs := s.fs.(files := s.fs.files - {r.recipe}));
      UndoneKeeps(s', r, was, if p.Succeeds? then Removed(f) else RemovedUnsynced(f));
    }
  }

  lemma FlagMoves(s: State, r: Request, id: JournalId, p: Progress, next: Pc)
    requires s.call.Active? && s.call.request == r && id.op == r.op
    ensures Moved(s, FlagRecord(s, id, p, next), r)
  {
    TransitionIsSteady(s.journal, id, RecoveryRequired, p);
  }

  lemma FlagKeeps(s: State, r: Request, id: JournalId, p: Progress, was: bool, undone: bool, next: RollbackPc)
    requires s.call.Active? && Books(s, r) && id.op == r.op && Undone(s.staging, r, s.call.log, was, undone)
    requires Owns(s, r) && Grouped(s.journal, s.staging, r, AppRenamed(r, s.call.log))
    requires next == RollbackParent(was, undone) || next == RollbackReport(was, undone)
    ensures Books(FlagRecord(s, id, p, AtRollback(next)), r)
    ensures RollbackAt(FlagRecord(s, id, p, AtRollback(next)), r)
  {
    FlagMoves(s, r, id, p, AtRollback(next));
    MovedKeeps(s, FlagRecord(s, id, p, AtRollback(next)), r, AppRenamed(r, s.call.log));
  }

  lemma ReportLogged(r: Request, log: seq<Event>, was: bool, undone: bool, readable: bool, present: bool)
    requires UndoneLog(r, log, |log| - 2, was, undone)
    ensures var seen := readable && present;
            CommittedReport(r, log + [RecipeLooked(readable, present)], undone && was && !seen, !undone || seen)
  {
    PublishedPartKept(r, log, RecipeLooked(readable, present), |log| - 2);
  }

  lemma ReportKeepsBooks(s: State, r: Request, was: bool, undone: bool, p: Progress)
    requires s.call.Active? && Books(s, r)
    ensures Books(Report(s, was, undone, p), r)
    ensures AppRenamed(r, Report(s, was, undone, p).call.log) == AppRenamed(r, s.call.log)
  {
    NotedBooks(s, Report(s, was, undone, p), r, RecipeLooked(p.Succeeds?, r.recipe in s.fs.files));
  }

  lemma ReportReturns(s: State, was: bool, undone: bool, p: Progress)
    requires s.call.Active?
    ensures var s', present := Report(s, was, undone, p), s.call.request.recipe in s.fs.files;
            var seen := p.Succeeds? && present;
            && s'.call == Returned(s.call.request, RecipeCommitted(undone && was && !seen, !undone || seen),
                                   s.call.log + [RecipeLooked(p.Succeeds?, present)])
            && s'.staging == s.staging
  {
  }

  lemma ReportAnswers(s: State, r: Request, was: bool, undone: bool, p: Progress)
    requires s.call.Active? && s.call.request == r && Undone(s.staging, r, s.call.log, was, undone)
    requires StagingTells(s, r, s.call.log)
    requires AppRenamed(r, Report(s, was, undone, p).call.log) == AppRenamed(r, s.call.log)
    ensures ReturnedAt(Report(s, was, undone, p), r)
  {
    var s', log := Report(s, was, undone, p), s.call.log;
    ReportReturns(s, was, undone, p);
    ReportLogged(r, log, was, undone, p.Succeeds?, r.recipe in s.fs.files);
    assert s'.call.log[|s'.call.log| - 2] == log[|log| - 1];
    assert UndoTells(s'.staging, r, s'.call.log, log[|log| - 1].undo);
    assert StagingTells(s', r, s'.call.log);
  }

  lemma ReportKeeps(s: State, r: Request, was: bool, undone: bool, p: Progress)
    requires s.call.Active? && s.call.pc == AtRollback(RollbackReport(was, undone)) && Books(s, r) && RollbackAt(s, r)
    ensures Books(Report(s, was, undone, p), r)
    ensures ReturnedAt(Report(s, was, undone, p), r)
  {
    ReportKeepsBooks(s, r, was, undone, p);
    ReportAnswers(s, r, was, undone, p);
  }

  lemma RollbackKeeps(s: State, r: Request, p: Progress)
    requires Books(s, r) && RollbackAt(s, r)
    ensures Books(UndoRecipe(s, p), r) && At(UndoRecipe(s, p), r)
  {
    match s.call.pc.rollback
    case RollbackLook => LookKeeps(s, r, p);
    case RollbackVerify(was) => VerifyKeeps(s, r, was, p);
    case RollbackRemove(was) => RemoveKeeps(s, r, was, p);
    case RollbackChild(was, undone) => FlagKeeps(s, r, RecipeChild(r), p, was, undone, RollbackParent(was, undone));
    case RollbackParent(was, undone) => FlagKeeps(s, r, Parent(r.op), p, was, undone, RollbackReport(was, undone));
    case RollbackReport(was, undone) => ReportKeeps(s, r, was, undone, p);
  }

  // ---- Completion ------------------------------------------------------------------------------------

  lemma CaptureLogged(r: Request, log: seq<Event>, g: File)
    requires PairPlaced(r, log) && |log| == FinalChecks(r) + 3
    ensures var log' := log + [AppCaptured(g)];
            && PairPlaced(r, log') && UnsynchronizedLog(r, log') && !Replaying(log')
            && (log[1].file.bytes == r.recipeBytes && g.bytes == r.appBytes ==> PairPublished(r, log'))
  {
    ChecksKept(r, log, AppCaptured(g), FinalChecks(r));
  }

  lemma CaptureSavedKeeps(s: State, r: Request, f: File, p: Progress)
    requires s.call.Active? && s.call.pc == AtCompletion(CaptureApp(f)) && Books(s, r) && CompletionAt(s, r)
    ensures Books(CaptureSaved(s, f, p), r)
    ensures var s' := CaptureSaved(s, f, p);
            RecipePhaseAt(s', r) || CompletionAt(s', r) || ReturnedAt(s', r)
  {
    UnfinishedIsUnsynchronized(s, r);
    var s' := CaptureSaved(s, f, p);
    if !p.Succeeds? || r.app !in s.fs.files {
      assert ReturnedAt(s', r);
    } else {
      var e := AppCaptured(s.fs.files[r.app]);
      NotedBooks(s, s', r, e);
      CaptureLogged(r, s.call.log, e.file);
      if s'.call.pc.AtRecipePhase? {
        assert RecipePhaseAt(s', r);
      } else {
        assert CompletionAt(s', r);
      }
    }
  }

  lemma UnfinishedIsUnsynchronized(s: State, r: Request)
    requires CompletionAt(s, r)
    ensures UnsynchronizedLog(r, s.call.log) && Owns(s, r) && Unfinished(s, r, s.call.log)
    ensures IsOpen(s.journal, Parent(r.op))
  {
  }

  lemma ParentPublishedKeeps(s: State, r: Request, f: File, p: Progress)
    requires s.call.Active? && s.call.pc == AtCompletion(ParentPublished(f)) && Books(s, r) && CompletionAt(s, r)
    ensures var s' := Advance(s, Parent(r.op), Published, p, AtCompletion(CaptureApp(f)));
            Books(s', r) && (CompletionAt(s', r) || ReturnedAt(s', r))
  {
    UnfinishedIsUnsynchronized(s, r);
    AdvanceMoves(s, Parent(r.op), Published, p, AtCompletion(CaptureApp(f)));
    AdvanceLands(s, Parent(r.op), Published, p, AtCompletion(CaptureApp(f)));
    AdvanceKeeps(s, r, Parent(r.op), Published, p, AtCompletion(CaptureApp(f)));
    var s' := Advance(s, Parent(r.op), Published, p, AtCompletion(CaptureApp(f)));
    if s'.call.Active? { assert CompletionAt(s', r); } else { OpenEndsUnsynchronized(s', r); }
  }

  /** At most the staged file of `id` went, because its record is completed. */
  ghost predicate Dropped(s: State, s': State, id: JournalId) {
    && (forall other :: other != id ==> (other in s'.staging <==> other in s.staging))
    && (id in s'.staging ==> id in s.staging)
    && (id in s.staging && id !in s'.staging ==> IsCompleted(s'.journal, id))
    && (forall other :: IsCompleted(s.journal, other) ==> IsCompleted(s'.journal, other))
    && (forall other :: other in s.journal && other != id ==>
          other in s'.journal && s'.journal[other] == s.journal[other])
  }

  lemma TransitionCompletes(j: Journal, id: JournalId, p: Progress)
    ensures var after := Transition(j, id, Completed, p).journal;
            && (after != j ==> IsCompleted(after, id))
            && (forall other :: IsCompleted(j, other) ==> IsCompleted(after, other))
            && (forall other :: other in j && other != id ==> other in after && after[other] == j[other])
  {
  }

  lemma CompletingDrops(s: State, id: JournalId, p: Progress, next: Pc)
    requires s.call.Active?
    ensures Dropped(s, CompleteChild(s, id, p, next), id)
  {
    TransitionCompletes(s.journal, id, if p.Halfway? then FailsAfterEffect else p);
  }

  lemma CompletingKeepsBooks(s: State, r: Request, id: JournalId, p: Progress, next: Pc)
    requires s.call.Active? && s.call.request == r && id.op == r.op && Books(s, r) && Owns(s, r)
    ensures Books(CompleteChild(s, id, p, next), r) && Owns(CompleteChild(s, id, p, next), r)
  {
    TransitionKeepsRecords(s.journal, id, Completed, if p.Halfway? then FailsAfterEffect else p);
    var s' := CompleteChild(s, id, p, next);
    SteadyBooks(s, s', r);
    OwningKept(s, s'.journal, r);
  }

  lemma CompleteChildLands(s: State, id: JournalId, p: Progress, next: Pc)
    requires s.call.Active?
    ensures var s' := CompleteChild(s, id, p, next);
            if s'.call.Active? then s'.call == Active(s.call.request, next, s.call.log) && IsCompleted(s'.journal, id)
            else s'.call == Returned(s.call.request, Unsynchronized, s.call.log)
  {
  }

  /** So the staged files still tell what was renamed. */
  lemma DroppingTells(s: State, s': State, r: Request, id: JournalId, log: seq<Event>)
    requires Dropped(s, s', id) && FilesTell(s, r, log)
    ensures FilesTell(s', r, log)
  {
  }

  lemma CompleteRecipeKeeps(s: State, r: Request, p: Progress)
    requires s.call.Active? && s.call.pc == AtCompletion(CompleteRecipe) && Books(s, r) && CompletionAt(s, r)
    ensures var s' := CompleteChild(s, RecipeChild(r), p, AtCompletion(CompleteApp));
            Books(s', r) && (CompletionAt(s', r) || ReturnedAt(s', r))
  {
    var next, s' := AtCompletion(CompleteApp), CompleteChild(s, RecipeChild(r), p, AtCompletion(CompleteApp));
    UnfinishedIsUnsynchronized(s, r);
    CompletingDrops(s, RecipeChild(r), p, next);
    CompletingKeepsBooks(s, r, RecipeChild(r), p, next);
    CompleteChildLands(s, RecipeChild(r), p, next);
    DroppingTells(s, s', r, RecipeChild(r), s.call.log);
    if s'.call.Active? { assert CompletionAt(s', r); } else { assert ReturnedAt(s', r); }
  }

  lemma CompleteAppKeeps(s: State, r: Request, p: Progress)
    requires s.call.Active? && s.call.pc == AtCompletion(CompleteApp) && Books(s, r) && CompletionAt(s, r)
    ensures var s' := CompleteChild(s, AppChild(r), p, AtCompletion(CompleteParent));
            Books(s', r) && (CompletionAt(s', r) || ReturnedAt(s', r))
  {
    var next, s' := AtCompletion(CompleteParent), CompleteChild(s, AppChild(r), p, AtCompletion(CompleteParent));
    UnfinishedIsUnsynchronized(s, r);
    CompletingDrops(s, AppChild(r), p, next);
    CompletingKeepsBooks(s, r, AppChild(r), p, next);
    CompleteChildLands(s, AppChild(r), p, next);
    DroppingTells(s, s', r, AppChild(r), s.call.log);
    if s'.call.Active? { assert CompletionAt(s', r); } else { assert ReturnedAt(s', r); }
  }

  lemma CompleteKeeps(s: State, r: Request, p: Progress)
    requires Books(s, r) && CompletionAt(s, r) && s.call.pc.completion.CompleteParent?
    ensures Books(Complete(s, p), r)
    ensures ReturnedAt(Complete(s, p), r)
  {
    UnfinishedIsUnsynchronized(s, r);
    TransitionKeepsRecords(s.journal, Parent(r.op), Completed, p);
    SteadyBooks(s, Complete(s, p), r);
  }

  lemma ReconcileKeeps(s: State, r: Request, p: Progress)
    requires Books(s, r) && CompletionAt(s, r) && s.call.pc.completion.Reconcile?
    ensures var s' := Goto(s, if p.Succeeds? then AtCompletion(CompleteRecipe) else AtRecipePhase(Abandon));
            Books(s', r) && (CompletionAt(s', r) || RecipePhaseAt(s', r))
  {
    UnfinishedIsUnsynchronized(s, r);
    if p.Succeeds? {
      assert CompletionAt(Goto(s, AtCompletion(CompleteRecipe)), r);
    } else {
      assert RecipePhaseAt(Goto(s, AtRecipePhase(Abandon)), r);
    }
  }

  lemma FinishKeeps(s: State, r: Request, p: Progress)
    requires Books(s, r) && CompletionAt(s, r)
    ensures Books(Finish(s, p), r) && At(Finish(s, p), r)
  {
    match s.call.pc.completion
    case ParentPublished(f) => ParentPublishedKeeps(s, r, f, p);
    case CaptureApp(f) => CaptureSavedKeeps(s, r, f, p);
    case Reconcile => ReconcileKeeps(s, r, p);
    case CompleteRecipe => CompleteRecipeKeeps(s, r, p);
    case CompleteApp => CompleteAppKeeps(s, r, p);
    case CompleteParent => CompleteKeeps(s, r, p);
  }

  // ---- Every step, every run ---------------------------------------------------------------------------

  lemma EarlyStepKeeps(s: State, r: Request, p: Progress, identity: nat)
    requires Books(s, r) && At(s, r) && s.call.Active?
    requires s.call.pc.AtEntry? || s.call.pc.AtAdmission? || s.call.pc.AtPreparation?
    ensures Books(Continue(s, p, identity), r) && At(Continue(s, p, identity), r)
  {
    match s.call.pc
    case AtEntry(_) => EnterKeeps(s, r, p);
    case AtAdmission(_) => AdmitKeeps(s, r, p);
    case AtPreparation(_) => PrepareKeeps(s, r, p, identity);
  }

  lemma RecipeStepKeeps(s: State, r: Request, p: Progress, identity: nat)
    requires Books(s, r) && At(s, r) && s.call.Active? && s.call.pc.AtRecipePhase?
    ensures Books(Continue(s, p, identity), r) && At(Continue(s, p, identity), r)
  {
    assert RecipePhaseAt(s, r) && Continue(s, p, identity) == PublishRecipe(s, p);
    PublishRecipeKeeps(s, r, p);
  }

  lemma CommitStepKeeps(s: State, r: Request, p: Progress, identity: nat)
    requires Books(s, r) && At(s, r) && s.call.Active? && s.call.pc.AtCommit?
    ensures Books(Continue(s, p, identity), r) && At(Continue(s, p, identity), r)
  {
    assert CommitAt(s, r) && Continue(s, p, identity) == PublishApp(s, p);
    CommitKeeps(s, r, p);
  }

  lemma RollbackStepKeeps(s: State, r: Request, p: Progress, identity: nat)
    requires Books(s, r) && At(s, r) && s.call.Active? && s.call.pc.AtRollback?
    ensures Books(Continue(s, p, identity), r) && At(Continue(s, p, identity), r)
  {
    assert RollbackAt(s, r) && Continue(s, p, identity) == UndoRecipe(s, p);
    RollbackKeeps(s, r, p);
  }

  lemma InCompletion(s: State, r: Request)
    requires At(s, r) && s.call.Active? && s.call.pc.AtCompletion?
    ensures CompletionAt(s, r)
  {
  }

  lemma FinishContinues(s: State, p: Progress, identity: nat)
    requires s.call.Active? && s.call.pc.AtCompletion?
    ensures Continue(s, p, identity) == Finish(s, p)
  {
  }

  lemma CompletionStepKeeps(s: State, r: Request, p: Progress, identity: nat)
    requires Books(s, r) && At(s, r) && s.call.Active? && s.call.pc.AtCompletion?
    ensures Books(Continue(s, p, identity), r) && At(Continue(s, p, identity), r)
  {
    InCompletion(s, r);
    FinishKeeps(s, r, p);
    FinishContinues(s, p, identity);
  }

  lemma RecoverKeeps(s: State, id: JournalId, phase: Phase, discard: bool)
    requires Inv(s) && s.call.Idle?
    ensures Inv(Step(s, Recover(id, phase, discard)))
  {
    var t := Transition(s.journal, id, phase, Succeeds);
    TransitionKeepsRecords(s.journal, id, phase, Succeeds);
    SoundKept(s, t.journal, id.op);
  }

  lemma StartKeeps(s: State, r: Request)
    requires Inv(s) && s.call.Idle? && ValidRequest(r)
    ensures Inv(Step(s, Begin(r)))
  {
    var s' := Step(s, Begin(r));
    assert PlacementsLogged(s'.placements, s'.calls, r, []);
    assert EntryAt(s', r);
  }

  lemma ExternalKeepsBooks(s: State, r: Request, fs: Fs)
    requires Books(s, r)
    ensures Books(s.(fs := fs), r)
  {
  }

  lemma ExternalKeepsPlace(s: State, r: Request, fs: Fs)
    requires At(s, r)
    ensures At(s.(fs := fs), r)
  {
    var s' := s.(fs := fs);
    if EntryAt(s, r) { assert EntryAt(s', r); }
    else if AdmissionAt(s, r) { assert AdmissionAt(s', r); }
    else if PreparationAt(s, r) { assert PreparationAt(s', r); }
    else if RecipePhaseAt(s, r) { assert RecipePhaseAt(s', r); }
    else if CommitAt(s, r) { assert CommitAt(s', r); }
    else if RollbackAt(s, r) { assert RollbackAt(s', r); }
    else if CompletionAt(s, r) { assert CompletionAt(s', r); }
    else { assert ReturnedAt(s', r); }
  }

  lemma StepKeeps(s: State, c: Choice)
    requires Inv(s)
    ensures Inv(Step(s, c))
  {
    if c.Proceed? {
      if s.call.Active? {
        if s.call.pc.AtEntry? || s.call.pc.AtAdmission? || s.call.pc.AtPreparation? {
          EarlyStepKeeps(s, s.call.request, c.progress, c.identity);
        } else if s.call.pc.AtRecipePhase? {
          RecipeStepKeeps(s, s.call.request, c.progress, c.identity);
        } else if s.call.pc.AtCommit? {
          CommitStepKeeps(s, s.call.request, c.progress, c.identity);
        } else if s.call.pc.AtRollback? {
          RollbackStepKeeps(s, s.call.request, c.progress, c.identity);
        } else {
          CompletionStepKeeps(s, s.call.request, c.progress, c.identity);
        }
      }
    } else if c.Recover? {
      if s.call.Idle? { RecoverKeeps(s, c.id, c.phase, c.discard); }
    } else if c.Begin? {
      if s.call.Idle? && ValidRequest(c.request) { StartKeeps(s, c.request); }
    } else if c.External? {
      if !s.call.Idle? {
        ExternalKeepsBooks(s, s.call.request, c.fs);
        ExternalKeepsPlace(s, s.call.request, c.fs);
      }
    }
  }

  lemma {:induction false} RunKeeps(s: State, choices: seq<Choice>)
    requires Inv(s)
    ensures Inv(Run(s, choices))
    decreases |choices|
  {
    if choices != [] {
      StepKeeps(s, choices[0]);
      RunKeeps(Step(s, choices[0]), choices[1..]);
    }
  }
}
