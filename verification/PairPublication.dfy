/**
 The publication of one generated App/Recipe pair of
 `app_definition_persistence.rs`, as a machine whose steps are the protocol's
 individual reads, journal writes and renames. Between any two steps another
 program may change the catalog, the process may die, and any primitive may
 fail before, midway through or just after its effect. Calls hold the catalog's
 publication lock, so one call runs at a time; recovery runs between calls.
 */
module PairPublication {
  import opened Wrappers
  import opened DigestFraming
  import opened CatalogFiles
  import opened CatalogJournal

  /** The reviewed pair. `reviewed` is the App Definition the review was made from. */
  datatype Request = Request(
    op: string,
    app: CatalogPath,
    appBytes: string,
    recipe: CatalogPath,
    recipeBytes: string,
    creates: bool,
    reviewed: File,
    reviewedIdentity: string,
    directories: seq<DirectoryCapture>,
    directoriesText: string)

  function PathText(p: CatalogPath): string { p.directory + "/" + p.name }

  function DigestFields(r: Request): seq<string> {
    [r.appBytes, r.recipeBytes, PathText(r.app), PathText(r.recipe),
     r.reviewed.bytes, r.reviewedIdentity, r.directoriesText]
  }

  function DigestOf(r: Request): string {
    DigestInput(DigestFields(r))
  }

  /** Apps and Recipes live in different directories, and every field's length fits in 64 bits. */
  ghost predicate ValidRequest(r: Request) {
    r.app.directory == "apps" && r.recipe.directory == "recipes" && Encodable(DigestFields(r))
  }

  function AppChild(r: Request): JournalId { Child(r.op, r.app) }

  function RecipeChild(r: Request): JournalId { Child(r.op, r.recipe) }

  // ---- What a call saw and did -----------------------------------------------------------

  datatype Undo = NotUndone | AlreadyGone | Removed(file: File) | RemovedUnsynced(file: File)

  /** `renamed` tells a rename, over `replaced`, from a destination that already was the staged file. */
  datatype Event =
    | ReplayedApp(file: File)
    | ReplayedRecipe(file: File)
    | RecipePlaced(file: File, renamed: bool, replaced: Option<File>)
    | RecipeCaptured(file: File)
    | CheckPassed(index: nat, fs: Fs)
    | AppPlaced(file: File, renamed: bool, replaced: Option<File>)
    | AppCaptured(file: File)
    | RecipeLooked(readable: bool, present: bool)
    | RecipeUndone(undo: Undo)

  datatype Outcome =
    | Done(replayed: bool)
    | Refused
    | RecipeCommitted(removed: bool, recoveryRequired: bool)
    | Unsynchronized

  // ---- Program points ----------------------------------------------------------------------

  datatype EntryPc = Gate | Lookup | ReplayApp | ReplayRecipe(seenApp: File)

  datatype AdmissionPc = AdmitCheck(index: nat) | SnapApp | SnapRecipe(current: Option<File>)

  datatype PreparationPc =
    | BeginParent(current: Option<File>) | StageRecipe(current: Option<File>) | StageApp(current: Option<File>)
    | RejectStaged | ParentStaged | ParentPublishing

  datatype RecipePc = RecipeCheck | RecipeRename | Abandon | CaptureRecipe

  datatype CommitPc = FinalCheck(committed: File, index: nat) | AppCheck(committed: File) | AppRename(committed: File)

  datatype RollbackPc =
    | RollbackLook | RollbackVerify(was: bool) | RollbackRemove(was: bool)
    | RollbackChild(was: bool, undone: bool) | RollbackParent(was: bool, undone: bool)
    | RollbackReport(was: bool, undone: bool)

  datatype CompletionPc =
    | ParentPublished(committed: File) | CaptureApp(committed: File) | Reconcile
    | CompleteRecipe | CompleteApp | CompleteParent

  datatype Pc =
    | AtEntry(entry: EntryPc) | AtAdmission(admission: AdmissionPc) | AtPreparation(preparation: PreparationPc)
    | AtRecipePhase(publication: RecipePc) | AtCommit(commit: CommitPc)
    | AtRollback(rollback: RollbackPc) | AtCompletion(completion: CompletionPc)

  datatype Call =
    | Idle
    | Active(request: Request, pc: Pc, log: seq<Event>)
    | Returned(request: Request, outcome: Outcome, log: seq<Event>)

  /** One rename over a destination, by one call. */
  datatype Placement = Placement(call: nat, op: string, destination: CatalogPath)

  datatype State = State(
    fs: Fs,
    journal: Journal,
    staging: map<JournalId, File>,
    call: Call,
    calls: nat,
    placements: seq<Placement>,
    recorded: map<string, Request>)

  /** `Leave`: the caller takes its answer, or the process dies wherever it is. */
  datatype Choice =
    | Begin(request: Request)
    | External(fs: Fs)
    | Proceed(progress: Progress, identity: nat)
    | Leave
    | Recover(id: JournalId, phase: Phase, discard: bool)

  function Goto(s: State, pc: Pc): State
    requires s.call.Active?
  {
    s.(call := s.call.(pc := pc))
  }

  function Note(s: State, e: Event): State
    requires s.call.Active?
  {
    s.(call := Active(s.call.request, s.call.pc, s.call.log + [e]))
  }

  function Return(s: State, outcome: Outcome): State
    requires s.call.Active?
  {
    s.(call := Returned(s.call.request, outcome, s.call.log))
  }

  // ---- Entry: the recovery gate, and replay of a known operation ---------------------------

  predicate AllTerminal(j: Journal) {
    forall id | id in j :: IsTerminal(j[id].phase)
  }

  /** An operation id that is already recorded is answered from its record. */
  function AnswerFromRecord(s: State): State
    requires s.call.Active? && Parent(s.call.request.op) in s.journal
  {
    var record := s.journal[Parent(s.call.request.op)];
    if record.digest != DigestOf(s.call.request) then Return(s, Refused)
    else if record.phase.Completed? then Goto(s, AtEntry(ReplayApp))
    else if record.phase.Rejected? then Return(s, Refused)
    else Return(s, Unsynchronized)
  }

  function WithoutTerminal(staging: map<JournalId, File>, j: Journal): map<JournalId, File> {
    map id | id in staging && !(id in j && IsTerminal(j[id].phase)) :: staging[id]
  }

  /** What stays staged after the clean-up on acquiring the lock: the files of unresolved operations. */
  function Cleaned(staging: map<JournalId, File>, j: Journal): map<JournalId, File> {
    map id | id in staging && id in j && !IsTerminal(j[id].phase) :: staging[id]
  }

  /** Terminal files go first, then orphans; only then does an unresolved operation refuse the call. */
  function PassGate(s: State, p: Progress): State
    requires s.call.Active?
  {
    var cleaned := s.(staging := Cleaned(s.staging, s.journal));
    if p.Fails? then Return(s, Refused)
    else if p.Halfway? then Return(s.(staging := WithoutTerminal(s.staging, s.journal)), Refused)
    else if p.FailsAfterEffect? || !AllTerminal(s.journal) then Return(cleaned, Refused)
    else Goto(cleaned, AtEntry(Lookup))
  }

  function LookUp(s: State, p: Progress): State
    requires s.call.Active?
  {
    if !p.Succeeds? then Return(s, Refused)
    else if Parent(s.call.request.op) in s.journal then AnswerFromRecord(s)
    else Goto(s, AtAdmission(AdmitCheck(0)))
  }

  function ReadReplayedApp(s: State, p: Progress): State
    requires s.call.Active?
  {
    var r := s.call.request;
    if !p.Succeeds? || r.app !in s.fs.files then Return(s, Unsynchronized)
    else
      var seen := s.fs.files[r.app];
      Goto(Note(s, ReplayedApp(seen)), AtEntry(ReplayRecipe(seen)))
  }

  function ReadReplayedRecipe(s: State, seenApp: File, p: Progress): State
    requires s.call.Active?
  {
    var r := s.call.request;
    if !p.Succeeds? || r.recipe !in s.fs.files then Return(s, Unsynchronized)
    else
      var seen := s.fs.files[r.recipe];
      Return(Note(s, ReplayedRecipe(seen)),
             if seenApp.bytes != r.appBytes || seen.bytes != r.recipeBytes then Unsynchronized else Done(true))
  }

  function Enter(s: State, p: Progress): State
    requires s.call.Active? && s.call.pc.AtEntry?
  {
    match s.call.pc.entry
    case Gate => PassGate(s, p)
    case Lookup => LookUp(s, p)
    case ReplayApp => ReadReplayedApp(s, p)
    case ReplayRecipe(seenApp) => ReadReplayedRecipe(s, seenApp, p)
  }

  // ---- Admission: the catalog must still be the one the review captured --------------------

  function ExpectedApp(r: Request): Option<File> {
    if r.creates then None else Some(r.reviewed)
  }

  predicate AppMatches(r: Request, fs: Fs) {
    FileAt(fs, r.app) == ExpectedApp(r)
  }

  /** The App, then each captured directory, then the two destinations. */
  function AdmitChecks(r: Request): nat { |r.directories| + 3 }

  predicate AdmitCheckHolds(r: Request, i: nat, fs: Fs) {
    if i == 0 then AppMatches(r, fs)
    else if i <= |r.directories| then DirectoryEquals(r.directories[i - 1], fs)
    else if i == |r.directories| + 1 then (r.app in fs.files) != r.creates
    else IsYaml(r.recipe.name) && r.recipe !in fs.files
  }

  function CheckAdmission(s: State, i: nat, p: Progress): State
    requires s.call.Active?
  {
    var r := s.call.request;
    if !p.Succeeds? || !AdmitCheckHolds(r, i, s.fs) then Return(s, Refused)
    else if i + 1 < AdmitChecks(r) then Goto(s, AtAdmission(AdmitCheck(i + 1)))
    else Goto(s, AtAdmission(SnapApp))
  }

  function SnapshotApp(s: State, p: Progress): State
    requires s.call.Active?
  {
    var r := s.call.request;
    if !p.Succeeds? || !AppMatches(r, s.fs) then Return(s, Refused)
    else Goto(s, AtAdmission(SnapRecipe(FileAt(s.fs, r.app))))
  }

  function SnapshotRecipe(s: State, current: Option<File>, p: Progress): State
    requires s.call.Active?
  {
    if !p.Succeeds? || s.call.request.recipe in s.fs.files then Return(s, Refused)
    else Goto(s, AtPreparation(BeginParent(current)))
  }

  function Admit(s: State, p: Progress): State
    requires s.call.Active? && s.call.pc.AtAdmission?
  {
    match s.call.pc.admission
    case AdmitCheck(i) => CheckAdmission(s, i, p)
    case SnapApp => SnapshotApp(s, p)
    case SnapRecipe(current) => SnapshotRecipe(s, current, p)
  }

  // ---- Preparation: the parent record, the two staged files --------------------------------

  datatype StageResult = StageResult(journal: Journal, staging: map<JournalId, File>, ok: bool)

  function StageWrite(s: State, id: JournalId, write: Write, p: Progress): StageResult {
    if p.Fails? || FileAt(s.fs, write.destination) != write.expected || id in s.staging then
      StageResult(s.journal, s.staging, false)
    else
      var staging := s.staging[id := write.staged];
      if id in s.journal && s.journal[id].digest != write.staged.bytes then StageResult(s.journal, staging, false)
      else
        var begun :=
          if id in s.journal then s.journal else s.journal[id := Record(write.staged.bytes, Prepared, Some(write))];
        if p.Halfway? then StageResult(begun, staging, false)
        else
          var moved := Transition(begun, id, Staged, p);
          StageResult(moved.journal, staging, moved.ok)
  }

  predicate Undecided(phase: Phase) { phase.Prepared? || phase.Staged? }

  /** Close a group whose publication has not begun, children first. */
  function RejectGroup(j: Journal, op: string, p: Progress): Journal {
    if p.Fails? || Parent(op) !in j || !Undecided(j[Parent(op)].phase) then j
    else
      var closed := map id | id in j ::
        if id.Child? && id.op == op && Undecided(j[id].phase) then j[id].(phase := Rejected) else j[id];
      if p.Halfway? || exists id | id in closed :: id.Child? && id.op == op && !IsTerminal(closed[id].phase) then closed
      else WithPhase(closed, Parent(op), Rejected)
  }

  function Begun(s: State): State
    requires s.call.Active?
  {
    var r := s.call.request;
    s.(journal := s.journal[Parent(r.op) := Record(DigestOf(r), Prepared, None)], recorded := s.recorded[r.op := r])
  }

  function BeginOperation(s: State, current: Option<File>, p: Progress): State
    requires s.call.Active?
  {
    if p.Fails? || p.Halfway? then Return(s, Refused)
    else if Parent(s.call.request.op) in s.journal then AnswerFromRecord(s)
    else if p.FailsAfterEffect? then Return(Begun(s), Refused)
    else Goto(Begun(s), AtPreparation(StageRecipe(current)))
  }

  function RecipeWrite(r: Request, identity: nat): Write { Write(r.recipe, None, File(r.recipeBytes, identity)) }

  function AppWrite(r: Request, current: Option<File>, identity: nat): Write {
    Write(r.app, current, File(r.appBytes, identity))
  }

  function StageFile(s: State, id: JournalId, write: Write, p: Progress, next: Pc): State
    requires s.call.Active?
  {
    var t := StageWrite(s, id, write, p);
    Goto(s.(journal := t.journal, staging := t.staging), if t.ok then next else AtPreparation(RejectStaged))
  }

  function Reject(s: State, p: Progress): State
    requires s.call.Active?
  {
    var j := RejectGroup(s.journal, s.call.request.op, p);
    Return(s.(journal := j, staging := WithoutTerminal(s.staging, j)), Refused)
  }

  /** Advance one record; once the parent is staged, a failure here reports the pair as unsynchronized. */
  function Advance(s: State, id: JournalId, to: Phase, p: Progress, next: Pc): State
    requires s.call.Active?
  {
    var t := Transition(s.journal, id, to, p);
    var s' := s.(journal := t.journal);
    if t.ok then Goto(s', next) else Return(s', Unsynchronized)
  }

  function Prepare(s: State, p: Progress, identity: nat): State
    requires s.call.Active? && s.call.pc.AtPreparation?
  {
    var r := s.call.request;
    match s.call.pc.preparation
    case BeginParent(current) => BeginOperation(s, current, p)
    case StageRecipe(current) =>
      StageFile(s, RecipeChild(r), RecipeWrite(r, identity), p, AtPreparation(StageApp(current)))
    case StageApp(current) =>
      StageFile(s, AppChild(r), AppWrite(r, current, identity), p, AtPreparation(ParentStaged))
    case RejectStaged => Reject(s, p)
    case ParentStaged => Advance(s, Parent(r.op), Staged, p, AtPreparation(ParentPublishing))
    case ParentPublishing => Advance(s, Parent(r.op), Publishing, p, AtRecipePhase(RecipeCheck))
  }

  // ---- The first rename --------------------------------------------------------------------

  /** Rename a staged file over its destination, whatever stands there now. */
  function Place(s: State, id: JournalId, destination: CatalogPath, e: Event): State
    requires s.call.Active? && id in s.staging
  {
    Note(s, e).(
      fs := s.fs.(files := s.fs.files[destination := s.staging[id]]),
      staging := s.staging - {id},
      placements := s.placements + [Placement(s.calls, s.call.request.op, destination)])
  }

  function CheckRecipe(s: State, p: Progress): State
    requires s.call.Active?
  {
    var r := s.call.request;
    var current := FileAt(s.fs, r.recipe);
    match PublishCheck(s.journal, s.staging, current, RecipeChild(r), p)
    case Stop(j) => Goto(s.(journal := j), AtRecipePhase(Abandon))
    case AlreadyPublished(j) =>
      Goto(Note(s.(journal := j), RecipePlaced(current.value, false, None)), AtRecipePhase(CaptureRecipe))
    case ReadyToRename(j) => Goto(s.(journal := j), AtRecipePhase(RecipeRename))
  }

  function RenameRecipe(s: State, p: Progress): State
    requires s.call.Active?
  {
    var r := s.call.request;
    var id := RecipeChild(r);
    if p.Fails? || id !in s.staging then Goto(s, AtRecipePhase(Abandon))
    else
      var placed := Place(s, id, r.recipe, RecipePlaced(s.staging[id], true, FileAt(s.fs, r.recipe)));
      var t := Transition(s.journal, id, Published, p);
      Goto(placed.(journal := t.journal), if t.ok then AtRecipePhase(CaptureRecipe) else AtRecipePhase(Abandon))
  }

  function GiveUp(s: State, p: Progress): State
    requires s.call.Active?
  {
    Return(s.(journal := Transition(s.journal, Parent(s.call.request.op), RecoveryRequired, p).journal), Unsynchronized)
  }

  function CaptureCommitted(s: State, p: Progress): State
    requires s.call.Active?
  {
    var r := s.call.request;
    if !p.Succeeds? || r.recipe !in s.fs.files then Goto(s, AtRecipePhase(Abandon))
    else
      var f := s.fs.files[r.recipe];
      Goto(Note(s, RecipeCaptured(f)), AtCommit(FinalCheck(f, 0)))
  }

  function PublishRecipe(s: State, p: Progress): State
    requires s.call.Active? && s.call.pc.AtRecipePhase?
  {
    match s.call.pc.publication
    case RecipeCheck => CheckRecipe(s, p)
    case RecipeRename => RenameRecipe(s, p)
    case Abandon => GiveUp(s, p)
    case CaptureRecipe => CaptureCommitted(s, p)
  }

  // ---- The re-check of the whole catalog, then the second rename -----------------------------

  /** The App, the committed Recipe, then each captured directory. */
  function FinalChecks(r: Request): nat { |r.directories| + 2 }

  predicate FinalCheckHolds(r: Request, committed: File, i: nat, fs: Fs)
    requires i < FinalChecks(r)
  {
    if i == 0 then AppMatches(r, fs)
    else if i == 1 then
      r.recipe in fs.files && fs.files[r.recipe].bytes == r.recipeBytes
      && fs.files[r.recipe].identity == committed.identity
    else DirectoryUnchangedExcept(r.directories[i - 2], fs, r.recipe, r.recipeBytes)
  }

  function Recheck(s: State, f: File, i: nat, p: Progress): State
    requires s.call.Active?
  {
    var r := s.call.request;
    if p.Succeeds? && i < FinalChecks(r) && FinalCheckHolds(r, f, i, s.fs)
    then
      var next := if i + 1 == FinalChecks(r) then AppCheck(f) else FinalCheck(f, i + 1);
      Goto(Note(s, CheckPassed(i, s.fs)), AtCommit(next))
    else Goto(s, AtRollback(RollbackLook))
  }

  function CheckApp(s: State, f: File, p: Progress): State
    requires s.call.Active?
  {
    var r := s.call.request;
    var current := FileAt(s.fs, r.app);
    match PublishCheck(s.journal, s.staging, current, AppChild(r), p)
    case Stop(j) => Goto(s.(journal := j), AtRollback(RollbackLook))
    case AlreadyPublished(j) =>
      Goto(Note(s.(journal := j), AppPlaced(current.value, false, None)), AtCompletion(ParentPublished(f)))
    case ReadyToRename(j) => Goto(s.(journal := j), AtCommit(AppRename(f)))
  }

  function RenameApp(s: State, f: File, p: Progress): State
    requires s.call.Active?
  {
    var r := s.call.request;
    var id := AppChild(r);
    if p.Fails? || id !in s.staging then Goto(s, AtRollback(RollbackLook))
    else
      var placed := Place(s, id, r.app, AppPlaced(s.staging[id], true, FileAt(s.fs, r.app)));
      var t := Transition(s.journal, id, Published, p);
      Goto(placed.(journal := t.journal), if t.ok then AtCompletion(ParentPublished(f)) else AtRollback(RollbackLook))
  }

  function PublishApp(s: State, p: Progress): State
    requires s.call.Active? && s.call.pc.AtCommit?
  {
    match s.call.pc.commit
    case FinalCheck(f, i) => Recheck(s, f, i, p)
    case AppCheck(f) => CheckApp(s, f, p)
    case AppRename(f) => RenameApp(s, f, p)
  }

  // ---- Rollback of the Recipe ------------------------------------------------------------------

  /** Mark a record for recovery, best effort. */
  function Flag(j: Journal, id: JournalId, p: Progress): Journal {
    if id in j && !IsTerminal(j[id].phase) then Transition(j, id, RecoveryRequired, p).journal else j
  }

  function Look(s: State, p: Progress): State
    requires s.call.Active?
  {
    var present := s.call.request.recipe in s.fs.files;
    Goto(Note(s, RecipeLooked(p.Succeeds?, present)), AtRollback(RollbackVerify(p.Succeeds? && present)))
  }

  function UndoNoted(s: State, was: bool, u: Undo): State
    requires s.call.Active?
  {
    Goto(Note(s, RecipeUndone(u)), AtRollback(RollbackChild(was, u.AlreadyGone? || u.Removed?)))
  }

  /** Keep the published Recipe in staging before it is removed. */
  function LinkBack(s: State): State
    requires s.call.Active?
  {
    var r := s.call.request;
    var id := RecipeChild(r);
    if r.recipe !in s.fs.files || id in s.staging then s
    else s.(staging := s.staging[id := s.fs.files[r.recipe]])
  }

  function Verify(s: State, was: bool, p: Progress): State
    requires s.call.Active?
  {
    var r := s.call.request;
    var id := RecipeChild(r);
    match RollbackCheck(s.journal, s.staging, FileAt(s.fs, r.recipe), id, p)
    case NotOwned => UndoNoted(s, was, NotUndone)
    case NothingToUndo => UndoNoted(s, was, AlreadyGone)
    case LinkedOnly => UndoNoted(LinkBack(s), was, NotUndone)
    case Owned => Goto(LinkBack(s), AtRollback(RollbackRemove(was)))
  }

  /** Remove the destination, whatever stands there now. */
  function Remove(s: State, was: bool, p: Progress): State
    requires s.call.Active?
  {
    var r := s.call.request;
    if p.Fails? || p.Halfway? || r.recipe !in s.fs.files then UndoNoted(s, was, NotUndone)
    else
      var f := s.fs.files[r.recipe];
      UndoNoted(s.(fs := s.fs.(files := s.fs.files - {r.recipe})), was,
                if p.Succeeds? then Removed(f) else RemovedUnsynced(f))
  }

  function FlagRecord(s: State, id: JournalId, p: Progress, next: Pc): State
    requires s.call.Active?
  {
    Goto(s.(journal := Flag(s.journal, id, p)), next)
  }

  function Report(s: State, was: bool, undone: bool, p: Progress): State
    requires s.call.Active?
  {
    var present := s.call.request.recipe in s.fs.files;
    var seen := p.Succeeds? && present;
    Return(Note(s, RecipeLooked(p.Succeeds?, present)), RecipeCommitted(undone && was && !seen, !undone || seen))
  }

  function UndoRecipe(s: State, p: Progress): State
    requires s.call.Active? && s.call.pc.AtRollback?
  {
    var r := s.call.request;
    match s.call.pc.rollback
    case RollbackLook => Look(s, p)
    case RollbackVerify(was) => Verify(s, was, p)
    case RollbackRemove(was) => Remove(s, was, p)
    case RollbackChild(was, undone) => FlagRecord(s, RecipeChild(r), p, AtRollback(RollbackParent(was, undone)))
    case RollbackParent(was, undone) => FlagRecord(s, Parent(r.op), p, AtRollback(RollbackReport(was, undone)))
    case RollbackReport(was, undone) => Report(s, was, undone, p)
  }

  // ---- Completion ------------------------------------------------------------------------------

  function CaptureSaved(s: State, f: File, p: Progress): State
    requires s.call.Active?
  {
    var r := s.call.request;
    if !p.Succeeds? || r.app !in s.fs.files then Return(s, Unsynchronized)
    else
      var g := s.fs.files[r.app];
      var same := g.bytes == r.appBytes && f.bytes == r.recipeBytes;
      Goto(Note(s, AppCaptured(g)), if same then AtCompletion(Reconcile) else AtRecipePhase(Abandon))
  }

  /** Completing a child writes its record and then drops its staged file; a fault can fall between the two. */
  function CompleteChild(s: State, id: JournalId, p: Progress, next: Pc): State
    requires s.call.Active?
  {
    var t := Transition(s.journal, id, Completed, if p.Halfway? then FailsAfterEffect else p);
    var dropped := t.journal != s.journal && !p.Halfway?;
    var s' := s.(journal := t.journal, staging := if dropped then s.staging - {id} else s.staging);
    if t.ok && !p.Halfway? then Goto(s', next) else Return(s', Unsynchronized)
  }

  function Complete(s: State, p: Progress): State
    requires s.call.Active?
  {
    var t := Transition(s.journal, Parent(s.call.request.op), Completed, p);
    Return(s.(journal := t.journal), if t.ok then Done(false) else Unsynchronized)
  }

  function Finish(s: State, p: Progress): State
    requires s.call.Active? && s.call.pc.AtCompletion?
  {
    var r := s.call.request;
    match s.call.pc.completion
    case ParentPublished(f) => Advance(s, Parent(r.op), Published, p, AtCompletion(CaptureApp(f)))
    case CaptureApp(f) => CaptureSaved(s, f, p)
    case Reconcile => Goto(s, if p.Succeeds? then AtCompletion(CompleteRecipe) else AtRecipePhase(Abandon))
    case CompleteRecipe => CompleteChild(s, RecipeChild(r), p, AtCompletion(CompleteApp))
    case CompleteApp => CompleteChild(s, AppChild(r), p, AtCompletion(CompleteParent))
    case CompleteParent => Complete(s, p)
  }

  // ---- The machine -----------------------------------------------------------------------------

  function Continue(s: State, p: Progress, identity: nat): State
    requires s.call.Active?
  {
    match s.call.pc
    case AtEntry(_) => Enter(s, p)
    case AtAdmission(_) => Admit(s, p)
    case AtPreparation(_) => Prepare(s, p, identity)
    case AtRecipePhase(_) => PublishRecipe(s, p)
    case AtCommit(_) => PublishApp(s, p)
    case AtRollback(_) => UndoRecipe(s, p)
    case AtCompletion(_) => Finish(s, p)
  }

  ghost function Step(s: State, c: Choice): State {
    match c
    case Begin(r) =>
      if !s.call.Idle? || !ValidRequest(r) then s else s.(call := Active(r, AtEntry(Gate), []), calls := s.calls + 1)
    case External(fs) => s.(fs := fs)
    case Proceed(p, identity) => if s.call.Active? then Continue(s, p, identity) else s
    case Leave => s.(call := Idle)
    case Recover(id, phase, discard) =>
      if !s.call.Idle? then s
      else
        s.(journal := Transition(s.journal, id, phase, Succeeds).journal,
           staging := if discard then s.staging - {id} else s.staging)
  }

  function Init(fs: Fs): State {
    State(fs, map[], map[], Idle, 0, [], map[])
  }

  ghost function Run(s: State, choices: seq<Choice>): State
    decreases |choices|
  {
    if choices == [] then s else Run(Step(s, choices[0]), choices[1..])
  }
}
