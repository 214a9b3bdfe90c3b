# Emuchef: a verified model

Emuchef plans and edits setups for Android handhelds. This project models the
parts of it whose correctness depends on order, failure or exact bytes, and
proves what they promise. `dafny verify dfyconfig.toml` checks everything.

**Publishing a generated App/Recipe pair** (`CatalogFiles`, `CatalogJournal`,
`PairPublication`, `PairSafety`, `PairGuarantees`, `PairProgress`,
`PairEndings`, `PairFaults`, `PairInterference`). Two files are saved under
one durable operation record, the Recipe first, the App second. The model is a
machine whose steps are the protocol's individual directory reads, journal
writes, renames and deletions. Between any two steps another program may
change any file; any primitive may fail before, midway through or just after
its effect; the process may die anywhere; an operation id may be used again
with any request. The journal, the ownership checks before a rename and the
ones before a rollback are those of `catalog_change.rs`. A call keeps a log of
what it saw and did; one inductive invariant over all steps (`PairSafety`)
gives the meaning of each outcome (`PairGuarantees`), `PairProgress` says
exactly when an undisturbed call succeeds, `PairEndings` what the other
undisturbed endings leave behind, `PairFaults` where each fault leads, and
`PairInterference` what other programs can do between a check and the rename
or removal it guards.

**Editing an App Definition** (`EditHistory`, `AppModel`, `AppDocument`,
`RecipeModel`, `AppSources`, `Admission`). A document with undo and redo
stacks, a catalog identity that never changes, ordered registries, and a
deletion guard that rests on an index of every reference in every Recipe.
Parsing, emitting and validating are arbitrary functions.

**The setup workflow** (`RecipeClosure`, `EventLog`, `Workflow`,
`WorkflowFields`, `Qualification`). The reducer with its request and execution
generations, the event log that polling fills, the recipe closure, and the
qualification adapter, whose responses arrive in any order.

**Bytes and permissions** (`DecimalText`, `Sorting`, `DigestFraming`,
`ApkManifest`, `Permissions`), and the one-at-a-time dialog owner
(`DialogOwner`).

## Where the code does not do what its comments say

Each has a lemma with the input that shows it, and what does hold instead.

- `RecipeCommitted` is documented as a failed App commit. When the App's rename
  succeeds and only the directory sync or the journal write after it fails, the
  Recipe is rolled back and the new App stays
  (`FaultAfterTheRenameLeavesTheAppAlone`). Whether the App was saved is told
  exactly by whether its staged file is gone (`StagingTellsWhetherTheAppWasSaved`).
- `recipe_removed` is documented as a removal by this publication; a deletion by
  another program during the rollback is reported the same way
  (`ExternalDeletionIsReportedAsRemoved`). `RecipeCommittedMeans` says exactly
  when each flag is set, and the Recipe's staged file tells exactly which of the
  two happened (`StagingTellsWhoRemovedTheRecipe`).
- External edits are documented as never overwritten during rollback. A file
  another program puts in the Recipe's place after the check is removed
  (`ForeignFileIsRemoved`). What is removed, and what a rename replaces, is what
  was checked exactly when nobody changed that file in between
  (`RemovalTakesTheVerifiedIff`, `RecipeRenameReplacesTheCheckedIff`,
  `AppRenameReplacesTheCheckedIff`).
- `PublishedButUnsynchronized` is documented as both files published; it is also
  returned when nothing was (`UnsynchronizedMaySaveNothing`). Until one
  of the two records is completed, the two staged files tell exactly which files
  were renamed, and from then on the whole pair was published
  (`UnsynchronizedMeans`); for an operation already recorded as completed it has
  two meanings of its own (`UnsynchronizedAfterCompletionMeans`).
- The execution generation restarts at zero when the workflow is reset, so a
  start response from before the reset can be taken for a later execution's own
  (`LateStartResponseAdoptedAfterReset`). A response goes to another start
  exactly when a start with its number is pending on arrival and there was a
  reset since its own (`StartResponseTakenByAnotherIff`). Looking ahead instead,
  a start made from now on can be given the response numbered g, without a
  further reset, exactly while the counter stands below g
  (`LateStartResponseAdoptableIff`); the counter falls exactly at resets
  (`GenerationFallsIffReset`).
- The qualification session does not depend on delivery order, but the device
  lock can. With a restored session shown, a checkpoint's response and the
  status that first reports the device leave it locked or not depending on which
  arrives first (`UndecidedLockDependsOnOrder`). The order of the outstanding
  responses is harmless exactly when the newest of them decides the lock or none
  of them sets it to anything else than is shown (`LockConfluenceIff`).

## Model

| member | source | states |
|---|---|---|
| PairGuarantees.FirstSuccessMeans | crates/emuchef-rust-backend/src/app_definition_persistence.rs:862-959 | over every run, with any outside writes between steps: a first Ok means the Recipe was saved and captured, then the App destination, the Recipe (same bytes and identity) and every captured directory were each found unchanged, and only then the App was saved and read back; parent and both child records are Completed |
| PairGuarantees.FinalChecksSpelledOut | crates/emuchef-rust-backend/src/app_definition_persistence.rs:1065-1082 | the log of passed checks is, one by one, the reviewed App's bytes and identity or its absence, the committed Recipe's file, and for each captured directory its identity and each YAML file by bytes and identity, with at most the owned Recipe besides |
| PairGuarantees.ReplayedSuccessMeans | crates/emuchef-rust-backend/src/app_definition_persistence.rs:995-1019 | a replayed Ok repeats the recorded request in destinations, bytes, reviewed App and captured directories, saw both files holding its bytes, and renamed nothing |
| PairGuarantees.SameFieldsAskTheSame | crates/emuchef-rust-backend/src/app_definition_persistence.rs:971-993 | two valid requests have one digest input if and only if destinations, bytes, reviewed App and directories agree |
| PairGuarantees.OneCallPublishes | crates/emuchef-rust-backend/src/app_definition_persistence.rs:699-725 | over any sequence of calls, all renames for one operation id were made by one call, each destination at most once |
| PairGuarantees.RefusedWroteNothing | crates/emuchef-rust-backend/src/app_definition_persistence.rs:489-490 | a refused call touched neither destination, in every run |
| PairGuarantees.StepWritesItsEntry | crates/emuchef-rust-backend/src/app_definition_persistence.rs:726-959 | whatever step a call takes and however it fails, it changes the files exactly as the at most one entry it logs says |
| PairGuarantees.CallWritesItsLog | crates/emuchef-rust-backend/src/app_definition_persistence.rs:489-490 | while no other program writes, the catalog differs from what the call found by exactly its log, at every point and whatever fails; a refused call leaves every file as it was |
| PairGuarantees.RecipeCommittedMeans | crates/emuchef-rust-backend/src/app_definition_persistence.rs:1021-1051 | the Recipe was placed; removal is reported if and only if the first look saw the Recipe, undoing succeeded and the last look saw none; recovery is reported if and only if undoing failed or the last look saw a file; never both, and neither exactly when neither look saw a Recipe and undoing succeeded |
| PairGuarantees.StagingTellsWhoRemovedTheRecipe | crates/emuchef-rust-backend/src/app_definition_persistence.rs:477-484 | when a removal is reported of a Recipe this call renamed into place, the call itself removed a file there if and only if the Recipe's staged file is back; otherwise it found the Recipe gone |
| PairGuarantees.UnsynchronizedRemovedNothing | crates/emuchef-rust-backend/src/app_definition_persistence.rs:852-885 | a call that ends unsynchronized never began to remove the Recipe |
| PairGuarantees.UnsynchronizedMeans | crates/emuchef-rust-backend/src/app_definition_persistence.rs:496-500 | an unsynchronized end of an operation not recorded as completed: if the record of one of the two files is completed, the whole pair was published with every final check passed; otherwise each file was renamed by this call if and only if its staged file is gone, the App's is gone if and only if the Recipe was placed, every final check passed and then the App was renamed, and both are there if and only if nothing was renamed |
| PairGuarantees.UnsynchronizedAfterCompletionMeans | crates/emuchef-rust-backend/src/app_definition_persistence.rs:953-957 | for a completed operation it is either a repetition that could not read a file or saw other bytes, and renamed nothing, or the publishing call itself, whose last journal write took effect and then failed |
| PairGuarantees.StagingTellsWhetherTheAppWasSaved | crates/emuchef-rust-backend/src/app_definition_persistence.rs:900-930 | after RecipeCommitted, and after an unsynchronized end unless the operation's or the App's own record is completed, this call renamed the App into place if and only if the App's staged file is gone |
| PairGuarantees.UnresolvedOperationBlocks | crates/emuchef-rust-backend/src/catalog_change.rs:510-523 | while any record is unresolved every new call is refused at once; files and journal stay as they were, and of the staged files only those of finished operations and orphans may go |
| PairGuarantees.ReplayOnlySeesFinishedOperations | crates/emuchef-rust-backend/src/app_definition_persistence.rs:710-724 | because of that gate the unresolved branch of the replay code is unreachable, and an id found new is still new when it is recorded |
| PairGuarantees.RecordsOnlyAdvance | crates/emuchef-rust-backend/src/catalog_change.rs:2036-2061 | over any run no record is lost and a Completed or Rejected record never changes again |
| PairSafety.RunKeeps | crates/emuchef-rust-backend/src/app_definition_persistence.rs:664-959 | the invariant (sound journal, one writer per operation, placements equal to the log, log shape at every program point) holds after every run |
| PairSafety.ReplayIsConfirmed | crates/emuchef-rust-backend/src/app_definition_persistence.rs:704-711 | equal digests of the recorded and the repeated request mean equal App and Recipe bytes |
| PairProgress.UndisturbedCallSucceedsIff | crates/emuchef-rust-backend/src/app_definition_persistence.rs:726-959 | a new operation left alone, whatever identities its two new files get, ends in Ok with exactly the two files written if all admission checks hold, and otherwise in a refusal with no file touched |
| PairEndings.AdmissionMeans | crates/emuchef-rust-backend/src/app_definition_persistence.rs:1021-1064 | the admission checks are exactly these: the App as reviewed or absent, every captured directory the same by identity and by each YAML file, and the Recipe a free YAML name |
| PairEndings.UndisturbedCallSavesThePair | crates/emuchef-rust-backend/src/app_definition_persistence.rs:726-959 | a new operation left alone ends in Ok with exactly the two files written if the catalog is as reviewed, and otherwise in a refusal with no file touched |
| PairEndings.MovedDestinationIsRefusedCleanly | crates/emuchef-rust-backend/src/app_definition_persistence.rs:827-851 | a destination that moved between its snapshot and its staging ends in a refusal that leaves no file changed, no record open and nothing staged |
| PairEndings.FailedStagingIsClosed | crates/emuchef-rust-backend/src/catalog_change.rs:1043-1068 | however staging failed, the undisturbed refusal closes every record of the operation and removes what it staged |
| PairEndings.NextCallAfterRefusalSucceedsIff | crates/emuchef-rust-backend/src/app_definition_persistence.rs:826-851 | after such a refusal the next operation left alone succeeds if and only if the catalog is the one it reviewed |
| PairEndings.RollbackAwaitsRecovery | crates/emuchef-rust-backend/src/app_definition_persistence.rs:1021-1051 | an undisturbed rollback leaves the Recipe's record and the parent's for recovery |
| PairEndings.GivingUpAwaitsRecovery | crates/emuchef-rust-backend/src/app_definition_persistence.rs:864-875 | giving up answers unsynchronized, changes no file and leaves the parent for recovery |
| PairEndings.PlacedRecipeCatchesUp | crates/emuchef-rust-backend/src/catalog_change.rs:1261-1272 | a Recipe found already in place is taken as published, with its record caught up |
| PairEndings.PlacedAppCatchesUp | crates/emuchef-rust-backend/src/catalog_change.rs:1261-1272 | and so is an App |
| PairEndings.ForeignRecipeIsMarked | crates/emuchef-rust-backend/src/catalog_change.rs:1273-1280 | a foreign file at the Recipe's destination is left alone, its record awaits recovery, and the call gives up |
| PairEndings.ForeignAppIsMarked | crates/emuchef-rust-backend/src/catalog_change.rs:1273-1280 | a foreign file at the App's destination is left alone, its record awaits recovery, and the Recipe is rolled back |
| PairEndings.OnlyALostFileIsLinkedBack | crates/emuchef-rust-backend/src/catalog_change.rs:1417-1433 | the check before a removal changes no file or record, and puts a staged file back only if it is gone |
| PairFaults.FailureTurnsTheCall | crates/emuchef-rust-backend/src/app_definition_persistence.rs:699-959 | a step that fails outright changes no file, record or staged file, and sends the call exactly to the refusal, the rollback, the recovery mark or the unsynchronized answer that belongs to it |
| PairFaults.StagingFaults | crates/emuchef-rust-backend/src/catalog_change.rs:1070-1218 | a fault midway through or just after staging leaves the staged file and its record, and the call rejects the group |
| PairFaults.RejectionFaults | crates/emuchef-rust-backend/src/catalog_change.rs:1043-1068 | a fault midway through closing a group leaves its undecided children rejected and the parent open |
| PairFaults.RecipeRenameFaults | crates/emuchef-rust-backend/src/catalog_change.rs:1315-1326 | a fault midway through or just after the Recipe's rename leaves the file in place and goes where a failed rename goes |
| PairFaults.AppRenameFaults | crates/emuchef-rust-backend/src/catalog_change.rs:1315-1326 | and so it is with the App's, which goes to the rollback of the Recipe |
| PairFaults.RemovalFaults | crates/emuchef-rust-backend/src/catalog_change.rs:1455-1468 | a fault after the Recipe's removal is not reported as undone, and one before it keeps the file |
| PairFaults.CompletionFaults | crates/emuchef-rust-backend/src/catalog_change.rs:1658-1682 | a fault between a completed record and its clean-up leaves the staged file, and either way the answer is unsynchronized |
| PairFaults.LateChangesAreRefused | crates/emuchef-rust-backend/src/app_definition_persistence.rs:741-768 | a destination that changed between its admission check and its snapshot is refused |
| PairProgress.UndisturbedReplayAnswersIff | crates/emuchef-rust-backend/src/app_definition_persistence.rs:699-725 | repeating a finished operation left alone: refused for another request or a rejected operation; Ok if and only if both files hold the published bytes, else unsynchronized; no file, record or placement changes |
| PairProgress.AdmittedPassesFinally | crates/emuchef-rust-backend/src/app_definition_persistence.rs:1065-1082 | what held at admission still passes every final check once the owned Recipe is the only addition |
| PairProgress.FaultAfterTheRenameLeavesTheAppAlone | crates/emuchef-rust-backend/src/catalog_change.rs:1316-1322 | whenever a call could succeed, a fault right after the App's rename yields RecipeCommitted with the Recipe removed and the new App in place |
| PairProgress.ExternalDeletionIsReportedAsRemoved | crates/emuchef-rust-backend/src/app_definition_persistence.rs:1028-1050 | an outside deletion between the rollback's first look and its check is reported as removed by the publication |
| PairProgress.UnsynchronizedMaySaveNothing | crates/emuchef-rust-backend/src/app_definition_persistence.rs:852-856 | a fault at the parent's first transition yields the unsynchronized outcome with no file touched |
| PairInterference.RecipeRenameReplacesTheCheckedIff | crates/emuchef-rust-backend/src/catalog_change.rs:1250-1316 | whatever other programs do between check and rename, the Recipe's rename replaces nothing if and only if its destination is still as it was checked |
| PairInterference.AppRenameReplacesTheCheckedIff | crates/emuchef-rust-backend/src/catalog_change.rs:1250-1316 | the App's rename replaces the reviewed App, or nothing for a new one, if and only if its destination is still as it was checked |
| PairInterference.RemovalTakesTheVerifiedIff | crates/emuchef-rust-backend/src/catalog_change.rs:1408-1457 | the file a rollback removes is the one this call staged if and only if the destination is still as it was verified |
| PairInterference.ForeignFileIsRemoved | crates/emuchef-rust-backend/src/catalog_change.rs:1392-1457 | whenever a call could succeed, another program's file put in the Recipe's place right after that verification is removed, and the report is that of an ordinary removal |
| CatalogJournal.Transition | crates/emuchef-rust-backend/src/catalog_change.rs:644-668 | changes the phase of at most one record, only along a valid transition, and success means the record is in the requested phase |
| CatalogJournal.TransitionsGoOnByOne | crates/emuchef-rust-backend/src/catalog_change.rs:2036-2061 | an unfinished record goes on by one phase, falls into recovery, comes back from there to any phase but the first, or is rejected before publication; nothing else is valid |
| CatalogJournal.FaultsStopOnTheWay | crates/emuchef-rust-backend/src/catalog_change.rs:644-668 | a fault leaves the record before or after its one write, and only the undisturbed transition reports success |
| CatalogJournal.PublishCheck | crates/emuchef-rust-backend/src/catalog_change.rs:1227-1315 | a rename is reached only with the destination as expected, the staged file intact and the record Publishing; success without a rename only if the destination already is the staged file; a finished record is left alone |
| CatalogJournal.UndisturbedPublishCheck | crates/emuchef-rust-backend/src/catalog_change.rs:1249-1314 | without a fault: taken as published if and only if the destination already is the staged file, up for the rename if and only if destination, staged file and record allow it, and marked for recovery exactly when the destination or the staged file is foreign |
| CatalogJournal.RollbackCheck | crates/emuchef-rust-backend/src/catalog_change.rs:1395-1433 | a file is up for removal, or linked back into staging, only while it is the one this operation staged; a fault after the link alone arises only when the staged file was gone; there is nothing to undo only if the destination is as expected |
| CatalogJournal.UndisturbedRollbackCheck | crates/emuchef-rust-backend/src/catalog_change.rs:1408-1433 | without a fault: removed if and only if the destination is the staged file and a copy in staging has its bytes |
| CatalogFiles.IsUnchangedExceptOwnedRecipe | crates/emuchef-rust-backend/src/app_definition_persistence.rs:1123-1157 | the loop over its `matched` vector is true exactly when path, identity and the files without the owned Recipe, as a map from path to bytes and identity, are the captured ones and the Recipe, if there, has the prepared bytes |
| AppDocument.Document.ApplyTypedCommand | crates/emuchef-rust-backend/src/app_definition_document.rs:254-325 | a command changes the document if and only if it proposes different, valid content and, for a deletion in a catalog document, the catalog is fully classified, unmoved and free of references; then every captured Recipe, scanned directly, refers nowhere to what was removed; a change truncates and extends the history by one, anything else leaves it |
| AppDocument.Document.AdmitDeletion | crates/emuchef-rust-backend/src/app_definition_document.rs:289-315 | a deletion is admitted if and only if the catalog may be saved, did not move between two readings, and no captured Recipe refers to the entry |
| AppDocument.Document.Undo | crates/emuchef-rust-backend/src/app_definition_document.rs:327-342 | the loop is one step back past foreign snapshots; in every valid document it is exactly one step back and `can_undo` predicts its result |
| AppDocument.Document.Redo | crates/emuchef-rust-backend/src/app_definition_document.rs:344-359 | the same forward, predicted by `can_redo` |
| AppDocument.UsableDropsOnlyForeign | crates/emuchef-rust-backend/src/app_definition_document.rs:327-359 | what a step back or forward skips is exactly the snapshots of another id or package id above the first that can be restored |
| AppDocument.Document.MarkSaved | crates/emuchef-rust-backend/src/app_definition_document.rs:468-474 | the document becomes clean and its stacks stay |
| AppDocument.Document.SetSavedPath | crates/emuchef-rust-backend/src/app_definition_document.rs:514-531 | fixes the identity to the current content and keeps the validity of both stacks by filtering them |
| AppDocument.MatchingIsExact | crates/emuchef-rust-backend/src/app_definition_document.rs:527-530 | the filter keeps a snapshot if and only if it carries the identity |
| AppDocument.Document.RefreshAfterGeneratorPublication | crates/emuchef-rust-backend/src/app_definition_document.rs:483-512 | succeeds exactly for the same path, a parseable and emittable file and the fixed identity; then model, YAML and file are replaced together with an empty history, otherwise nothing changes |
| AppDocument.OpenDocument | crates/emuchef-rust-backend/src/app_definition_document.rs:194-247 | a captured file opens if and only if it parses and is emitted again; the document is clean, without history, offers the chosen root before the physical one, and has a catalog identity exactly if it lies in a catalog |
| AppDocument.Document.constructor | crates/emuchef-rust-backend/src/app_definition_document.rs:220-246 | the identity is the parsed App's under the physical root, and the document keeps its invariant from the start |
| AppDocument.UndoingToTheSavedPointIsClean | crates/emuchef-rust-backend/src/app_definition_document.rs:446-448 | k undos after k changes are back at the saved content, and however one moves along the line, the document is clean exactly where the line holds the saved YAML |
| AppDocument.UnreferencedMeansFree | crates/emuchef-rust-backend/src/app_definition_document.rs:290-315 | where every owner is named, no captured Recipe refers to the entry under this App exactly if none speaks of it at all: a target of that id in a step belongs to another, named App |
| AppDocument.RedoRepeatsTheRemoval | crates/emuchef-rust-backend/src/app_definition_document.rs:344-359 | once a document has accepted a removal, undo brings the entry back and redo removes it again; both are functions of the document alone, with no catalog to guard them |
| EditHistory.ChangeTruncatesThenExtends | crates/emuchef-rust-backend/src/app_definition_document.rs:318-324 | on the line undo ++ current ++ reversed redo, a change cuts after the current point and appends |
| EditHistory.MovesStayOnTheLine | crates/emuchef-rust-backend/src/app_definition_document.rs:327-359 | any sequence of undos and redos keeps the line and only moves the cursor |
| EditHistory.UndosRestore | crates/emuchef-rust-backend/src/app_definition_document.rs:327-342 | k undos after k changes restore content and undo stack |
| EditHistory.RedosRestore | crates/emuchef-rust-backend/src/app_definition_document.rs:344-359 | n redos after n undos restore everything |
| EditHistory.ChangesUndoneAndRedone | crates/emuchef-rust-backend/src/app_definition_document.rs:254-359 | k changes, k undos, k redos: the undos restore the start, the redos bring the changes back |
| AppModel.ReorderMovesOneEntry | crates/emuchef-rust-backend/src/app_definition_document.rs:871-893 | reordering puts the entry at the index, keeps the order of all others, and is undone by the opposite reordering |
| AppModel.CommandEffect | crates/emuchef-rust-backend/src/app_definition_document.rs:749-869 | every command keeps the keys of all registries distinct, is rejected exactly when its entry is missing, already there or out of range, and changes the entry it names and no other |
| AppModel.FieldEffect | crates/emuchef-rust-backend/src/app_definition_document.rs:749-777 | each plain field is the command's if the command sets it and the old one otherwise |
| AppModel.PermissionSetEffect | crates/emuchef-rust-backend/src/app_definition_document.rs:811-830 | the named permission set is replaced, the other stays, and without either there are none |
| AppModel.ArtifactOrderEffect | crates/emuchef-rust-backend/src/app_definition_document.rs:778-810 | new artifacts go last, a removal closes the gap, and only a reordering moves an entry |
| AppModel.TargetOrderEffect | crates/emuchef-rust-backend/src/app_definition_document.rs:831-857 | the same of targets |
| AppModel.MetadataOrderEffect | crates/emuchef-rust-backend/src/app_definition_document.rs:858-867 | a new metadata key goes last, and an existing one keeps its place |
| AppModel.IdentityCommands | crates/emuchef-rust-backend/src/app_definition_document.rs:259-268 | the commands a catalog document refuses are exactly those that can change an id or a package id |
| AppModel.OnlyDeletionsRemoveEntries | crates/emuchef-rust-backend/src/app_definition_document.rs:289-291 | a command loses an artifact or target if and only if it is its removal, so the guard stands before every command that does |
| AppSources.SourceAppRefs | crates/emuchef-rust-backend/src/app_definition_admission.rs:1345-1387 | with any visited set the search, on cyclic graphs too, visits exactly the unvisited steps reachable from its reference and returns exactly what they contribute |
| AppSources.ExploredInSequence | crates/emuchef-rust-backend/src/app_definition_admission.rs:1359-1373 | two searches sharing one visited set explore what one search from both roots would, although revisits return nothing |
| AppSources.FullSearchIsExact | crates/emuchef-rust-backend/src/app_definition_admission.rs:1345-1387 | from an empty visited set the result is exactly the App ids of artifacts reachable through step references and extract selections |
| AppSources.CopySourceAppRefs | crates/emuchef-rust-backend/src/app_definition_admission.rs:1389-1394 | a copy step's App ids are exactly those reachable from its source reference |
| AppSources.SourceAppMeans | crates/emuchef-rust-backend/src/app_definition_admission.rs:1345-1387 | the Apps are those the Recipe's own texts lead to: an artifact reference whose first definition binds it to the App, or a chain of step references to a first step that names or extracts such an artifact |
| AppSources.CopiesFromMeans | crates/emuchef-rust-backend/src/app_definition_admission.rs:1389-1394 | a copy step takes from exactly the Apps its first `source` parameter, a reference, leads to |
| RecipeModel.ParseReferenceIff | crates/emuchef-rust-backend/src/runtime_refs.rs:36-73 | parsing is the exact inverse of writing: a text parses to a reference if and only if it is that reference's text, which has no empty part and no earlier separator |
| RecipeModel.SelectedArtifactsMean | crates/emuchef-rust-backend/src/app_definition_admission.rs:1398-1414 | a step selects an artifact if it lists it literally or lists a group whose first definition holds it |
| RecipeModel.AppTargetKeyIsInside | crates/emuchef-rust-backend/src/app_definition_admission.rs:1047-1055 | the recursive scan finds an `app_target` key if and only if some place at some depth holds an object with it |
| Admission.IsSafeAppId | crates/emuchef-rust-backend/src/app_definition_admission.rs:804-816 | accepts exactly lowercase alphanumeric segments joined by single separators |
| Admission.SafeIdMeans | crates/emuchef-rust-backend/src/app_definition_admission.rs:804-816 | a safe id is segments over the 36 lowercase letters and digits with single dots, underscores or hyphens between them |
| Admission.RecipeReferencesApp | crates/emuchef-rust-backend/src/app_definition_admission.rs:987-1044 | answers if and only if every step that speaks of a target or a permission set names its App, and then exactly whether the Recipe involves the App by an artifact, its configuration, a step or the source of a copy |
| Admission.ClassifiableMeans | crates/emuchef-rust-backend/src/app_definition_admission.rs:1004-1037 | a Recipe is classified if and only if each step names its App that has an App Target parameter, an `app_target` key at any depth of a literal or condition operand, or, granting permissions, a parameter `permission_set` |
| Admission.AffectedMeans | crates/emuchef-rust-backend/src/app_definition_admission.rs:992-1002 | involving an App means binding one of its artifacts, configuring it, a step of it, or copying from it |
| Admission.UnaffectedRecipeRefersToNothing | crates/emuchef-rust-backend/src/app_definition_admission.rs:930-933 | a Recipe classified as unaffected holds no artifact or target reference to the App, so skipping it loses nothing |
| Admission.ClassifiedTargetsHaveOwners | crates/emuchef-rust-backend/src/app_definition_admission.rs:1004-1024 | in a classifiable Recipe every step naming a target says which App owns it |
| Admission.CaptureArtifacts | crates/emuchef-rust-backend/src/app_definition_admission.rs:945-951 | adds exactly the artifacts a scan finds |
| Admission.CaptureTargets | crates/emuchef-rust-backend/src/app_definition_admission.rs:952-984 | adds exactly the targets a scan finds |
| Admission.ValidateRecipeInventory | crates/emuchef-rust-backend/src/app_definition_admission.rs:876-936 | complete if and only if every other App parses and every Recipe parses and names its owners, and then the index equals a scan of all captured Recipes |
| Admission.PrepareSaveSnapshot | crates/emuchef-rust-backend/src/app_definition_admission.rs:198-440 | for a catalog document, a new catalog App and a standalone file alike: a snapshot exists if and only if root, opened file, safe id, Apps and Recipes are as that destination needs, in terms of the files and their entries, and its index then holds exactly the artifacts and targets some captured Recipe refers to |
| Admission.AdmitSave | crates/emuchef-rust-backend/src/app_definition_admission.rs:165-196 | admitted if and only if that holds and a second reading finds the same file and, for a catalog, the same directories |
| Admission.ConfirmOpenedFile | crates/emuchef-rust-backend/src/app_definition_admission.rs:296-391 | confirmed if and only if the opened file lies at its canonical path, carries the identity and is the file the catalog holds there |
| Workflow.StepFencesRequests | apps/emuchef-app/src/workflow.ts:175-516 | no action lowers requestGeneration, and one that keeps it keeps device, bindings and re-entry list |
| Workflow.RunFencesRequests | apps/emuchef-app/src/workflow.ts:175-516 | along any run those three values are a function of requestGeneration |
| Workflow.AcceptedDescriptionIsCurrent | apps/emuchef-app/src/workflow.ts:247-257 | a description that is accepted after any run was requested for the values now held |
| Workflow.ChangedIntentClearsReview | apps/emuchef-app/src/workflow.ts:258-318 | every action that changes device, bindings or recipes leaves no review, and only the review action puts one there |
| Workflow.ShownReviewDescribesTheIntent | apps/emuchef-app/src/workflow.ts:320-321 | a review still shown after any run is the original one and the intent is unchanged since |
| Workflow.ReachableExecutionIsFenced | apps/emuchef-app/src/workflow.ts:322-405 | in every reachable state a non-idle execution carries the current generation and its log is sorted below its cursor |
| Workflow.LiveStep | apps/emuchef-app/src/workflow.ts:347-368 | one step of a shown execution keeps handle and generation, never leaves terminal, and lowers the sequence only at a runtime loss that ends it |
| Workflow.LiveRun | apps/emuchef-app/src/workflow.ts:347-368 | over a run that happens at most once, and not at all from a terminal state |
| WorkflowFields.ReducerMeans | apps/emuchef-app/src/workflow.ts:204-463 | every field after every action: when the action takes effect and what the field then is, in one table of fields, and nothing changes otherwise |
| WorkflowFields.ShownSnapshotIsLastAccepted | apps/emuchef-app/src/workflow.ts:353-367 | while an execution is shown its snapshot is the last accepted one: not older than what was shown unless the runtime was lost, and never back from terminal; and it is terminal if that snapshot is |
| Workflow.ShownLogIsTheServerLog | apps/emuchef-app/src/workflow.ts:369-382 | along any run with batches requested from reached cursors the shown log is the server log up to the shown cursor |
| Workflow.GenerationFallsIffReset | apps/emuchef-app/src/workflow.ts:513-514 | executionGeneration falls exactly at a reset to the initial state from a positive generation; a start always raises it |
| Workflow.StartResponseTakenByAnotherIff | apps/emuchef-app/src/workflow.ts:329-343 | a start response, arriving after any actions, is shown as another start's execution if and only if a start with its number is pending then and one of the actions was a reset |
| Workflow.LateStartResponseAdoptableIff | apps/emuchef-app/src/workflow.ts:329-343 | from any state, some reset-free continuation whose starts are numbered as the hook numbers them shows the late response of a start numbered g as the own of a start made in it, if and only if executionGeneration is below g now |
| Workflow.StartResponseIsOwnWithoutReset | apps/emuchef-app/src/workflow.ts:322-343 | without a reset, equal generations mean no other execution was started in between |
| Workflow.LateStartResponseAdoptedAfterReset | apps/emuchef-app/src/workflow.ts:329-343 | with one, the first execution's start response is shown as the second's |
| Workflow.SetRecipesKeepsReachableBindings | apps/emuchef-app/src/workflow.ts:258-275 | with a description present, a binding is kept if and only if its input belongs to a recipe reachable from the selection |
| Workflow.LargerSelectionKeepsMore | apps/emuchef-app/src/workflow.ts:159-173 | a larger selection never drops a binding a smaller one keeps |
| RecipeClosure.ActiveRecipeIdsForSelection | apps/emuchef-app/src/workflow.ts:141-157 | the worklist loop terminates on cycles and computes the closure function |
| RecipeClosure.WorklistIsClosure | apps/emuchef-app/src/workflow.ts:149-155 | from any intermediate worklist the result is closed, holds what was pending and only reachable recipes |
| RecipeClosure.ActiveRecipesAreLeastClosure | apps/emuchef-app/src/workflow.ts:141-157 | it is exactly the reachable set and the least set that holds the selection and is closed under dependencies |
| RecipeClosure.LargerSelectionActivatesMore | apps/emuchef-app/src/workflow.ts:141-157 | it grows with the selection |
| EventLog.MergeExecutionEvents | apps/emuchef-app/src/workflow.ts:566-582 | the merge loop computes the merge function |
| EventLog.MergeMeans | apps/emuchef-app/src/workflow.ts:566-582 | on any log and batch: sorted, one event for each number, the last new one of the batch or else the last of the log, new meaning beyond the cursor and within 2^53 - 1 |
| EventLog.MergeExtendsTheRestriction | apps/emuchef-app/src/workflow.ts:566-582 | merging any batch requested from a reached cursor turns the server log up to the cursor into the server log up to the new cursor |
| EventLog.LogIsAlwaysTheRestriction | apps/emuchef-app/src/workflow.ts:566-582 | so after any deliveries, overlapping, repeated or reordered, the log is the server log up to the cursor |
| EventLog.MergeIsIdempotent | apps/emuchef-app/src/workflow.ts:571-581 | merging a batch twice equals merging it once |
| EventLog.ExecutionPoller.HandleBatch | apps/emuchef-app/src/useExecution.ts:184-185 | a response moves the log by the merge and the poller's cursor by its own rule |
| EventLog.PollCursorAgreesIff | apps/emuchef-app/src/useExecution.ts:185 | the two cursors agree if and only if no sequence outside the safe integers exceeds the merged cursor |
| EventLog.PollingFollowsTheServer | apps/emuchef-app/src/useExecution.ts:164-188 | over any polls of a server log the poller's cursor is the log's, the log is the server log up to it, and nothing the server had written at the last poll is missing |
| Qualification.QualificationAdapter.MergeLifecycleProjection | apps/emuchef-app/src/useDeviceQualificationMode.ts:189-213 | the refs and setters change as one delivery of a status |
| Qualification.QualificationAdapter.ApplyAuthoritativeSessionSnapshot | apps/emuchef-app/src/useDeviceQualificationMode.ts:228-241 | the refs and setters change as one delivery of a command response |
| Qualification.StaleResponsesChangeNothing | apps/emuchef-app/src/useDeviceQualificationMode.ts:195-196 | the applied revision never falls and an older response changes nothing |
| Qualification.StatusDelivery | apps/emuchef-app/src/useDeviceQualificationMode.ts:189-213 | a status that is stamped and not older replaces session and lock, lists exactly the run candidates in order and keeps the shown target while it is listed, else takes the first that can be shown; any other status changes nothing |
| Qualification.CommandDelivery | apps/emuchef-app/src/useDeviceQualificationMode.ts:228-241 | a command response that is not older replaces the session and sets or releases the pending association, and nothing else |
| Qualification.PresentedLockMeans | apps/emuchef-app/src/useDeviceQualificationMode.ts:416-418 | the device is shown locked unless the session is closed or nothing holds it |
| Qualification.NewestResponseIsShown | apps/emuchef-app/src/useDeviceQualificationMode.ts:184-241 | after any delivery of newer responses with distinct revisions, from any client, the state shown is the newest response's own, and if that is a status, so are lock and run candidates |
| Qualification.SessionIsConfluent | apps/emuchef-app/src/useDeviceQualificationMode.ts:184-241 | from any client, any two delivery orders of the same newer responses show the same session |
| Qualification.LockIsDecidedByNewest | apps/emuchef-app/src/useDeviceQualificationMode.ts:416-418 | if the newest response decides the lock, the lock presented is its own |
| Qualification.UndecidedLockDependsOnOrder | apps/emuchef-app/src/useDeviceQualificationMode.ts:355-364 | once a restored session is shown unlocked, the status that reports its device and the response of a checkpoint asked for before it leave the device locked or not depending on which arrives first |
| Qualification.LockConfluenceIff | apps/emuchef-app/src/useDeviceQualificationMode.ts:184-241 | from any client, and for any newer responses whose checkpoints and abandonments were asked for with the session it shows, the presented lock is the same in all delivery orders if and only if the newest response decides it or no response sets it to anything else than is shown |
| Qualification.UnrevisedCommandCommutesIff | apps/emuchef-app/src/useDeviceQualificationMode.ts:232-235 | a command response without a revision, which the reducer accepts though the backend always stamps one, would commute with a status if and only if the status shows the same session |
| DigestFraming.ComputeCatalogStream | crates/emuchef-rust-backend/src/catalog_source.rs:191-237 | succeeds if and only if every listed YAML file can be read, and feeds the stream of the sorted files |
| DigestFraming.CatalogStreamMeans | crates/emuchef-rust-backend/src/catalog_source.rs:191-237 | the bytes hashed: for each YAML file of the listing, by directory and then name, the decimal length and text of its path and the decimal length and bytes of its content |
| DigestFraming.YamlMeans | crates/emuchef-rust-backend/src/catalog_source.rs:196-206 | a YAML file has a stem and one of the two extensions |
| DigestFraming.FeedCatalogFiles | crates/emuchef-rust-backend/src/catalog_source.rs:210-231 | the feeding loop produces the framed encoding of its files, or fails exactly when one is gone |
| DigestFraming.DecodeInvertsEncode | crates/emuchef-rust-backend/src/catalog_source.rs:225-230 | decoding the stream of any records gives the records back |
| DigestFraming.NormalizationIsInjective | crates/emuchef-rust-backend/src/catalog_source.rs:212-218 | replacing separators never identifies two catalog paths |
| DigestFraming.StreamDeterminesCatalog | crates/emuchef-rust-backend/src/catalog_source.rs:191-237 | two catalogs give the same stream if and only if they hold the same YAML files with the same contents, in whatever order they were read |
| DigestFraming.FeedDigest | crates/emuchef-rust-backend/src/app_definition_persistence.rs:971-988 | the loop feeds eight little-endian length bytes and the bytes of each field |
| DigestFraming.DigestLayout | crates/emuchef-rust-backend/src/app_definition_persistence.rs:984-987 | the eight bytes before a field are its length, least significant first |
| DigestFraming.DecodeInvertsDigestInput | crates/emuchef-rust-backend/src/app_definition_persistence.rs:984-987 | the framing is uniquely decodable for lengths below 2^64 |
| DigestFraming.DigestInputIsInjective | crates/emuchef-rust-backend/src/app_definition_persistence.rs:971-993 | equal digest inputs come from equal fields |
| DecimalText.CanonicalTextIsPrinted | crates/emuchef-rust-backend/src/apk_manifest.rs:306-314 | printing a parsed digit string gives it back if and only if it has no superfluous leading zero |
| DecimalText.PrintedU32IsCanonical | crates/emuchef-rust-backend/src/apk_manifest.rs:301-303 | printing a u32 gives canonical text that parses to it |
| DecimalText.ParseU32Iff | crates/emuchef-rust-backend/src/apk_manifest.rs:306-308 | parsing a u32 gives n if and only if the text writes n in base ten, perhaps after one plus sign, and n is below 2^32 |
| DecimalText.ParseHexU32Iff | crates/emuchef-rust-backend/src/apk_manifest.rs:301 | the same in base sixteen, in either letter case |
| ApkManifest.DeclaredZipEntryCount | crates/emuchef-rust-backend/src/apk_manifest.rs:115-146 | searching the last 22 + 65535 bytes backwards gives what searching the whole file would: the last record whose comment reaches exactly to the end decides count or rejection (section 4.3.16 of PKWARE APPNOTE.TXT) |
| ApkManifest.RecordMeans | crates/emuchef-rust-backend/src/apk_manifest.rs:128-143 | a record and its count byte by byte: the signature, the little-endian comment length, and two equal little-endian entry counts below 65535 |
| ApkManifest.NormalizedIsCanonical | crates/emuchef-rust-backend/src/apk_manifest.rs:291-327 | a normalized value is a canonical u32 or, where allowed, a codename |
| ApkManifest.NormalizationMeans | crates/emuchef-rust-backend/src/apk_manifest.rs:291-327 | a text normalizes to the decimal number its compiled form encodes in base sixteen, to itself if it is a printed u32, or to itself if it is a codename where one is allowed, and to nothing else |
| ApkManifest.CompiledIntegerNormalizes | crates/emuchef-rust-backend/src/apk_manifest.rs:295-304 | every u32, compiled under either type marker in any letter case and padding, normalizes to its decimal text |
| ApkManifest.NormalizeIsIdempotent | crates/emuchef-rust-backend/src/apk_manifest.rs:291-327 | normalizing again changes nothing |
| ApkManifest.ExtractManifestFacts | crates/emuchef-rust-backend/src/apk_manifest.rs:210-261 | succeeds exactly for extractable children; the facts are theirs and the permissions strictly ascending |
| ApkManifest.ExtractionMeans | crates/emuchef-rust-backend/src/apk_manifest.rs:228-260 | in terms of the attribute texts alone: extraction succeeds if and only if every SDK version and maximum normalizes, every permission has a name that is not blank, and there is at most one `uses-sdk`; the facts are its versions and exactly the declared permissions |
| ApkManifest.TrimmingMeans | crates/emuchef-rust-backend/src/apk_manifest.rs:267-270 | trimming leaves exactly what stands between the Unicode blanks at both ends |
| ApkManifest.DeclarationOrderMeans | crates/emuchef-rust-backend/src/apk_manifest.rs:251 | declarations are ordered by name, kind and maximum, none first |
| Sorting.DedupOfSortedIsStrict | crates/emuchef-rust-backend/src/apk_manifest.rs:251-252 | dropping adjacent repeats of a sorted list leaves no repeats at all |
| ApkManifest.ExtractedMaximumParses | crates/emuchef-rust-backend/src/apk_manifest.rs:263-278 | every extracted maximum is a canonical u32 |
| Permissions.GatesPassIffInRange | crates/emuchef-rust-backend/src/android_permissions.rs:423-503 | the target SDK gates pass exactly when a numeric target in range is there where one is required |
| Permissions.IntervalIsExact | crates/emuchef-rust-backend/src/android_permissions.rs:505-528 | the bounds hold exactly the device APIs satisfying every constraint, and there are none exactly when no API does |
| Permissions.BoundsAreExactlySatisfyingApis | crates/emuchef-rust-backend/src/android_permissions.rs:367-393 | bounds reported for a declaration are exactly the satisfying APIs, and not empty |
| Permissions.MaximumExceededIffNoApi | crates/emuchef-rust-backend/src/android_permissions.rs:512-522 | a maximum is reported exceeded if and only if the gates pass and no API satisfies the constraints |
| Permissions.AutomationOfferedIff | crates/emuchef-rust-backend/src/android_permissions.rs:377-383 | automation is offered if and only if the entry has one, the gates pass and some API satisfies the constraints |
| Permissions.InspectedMaximumIsNeverInvalid | crates/emuchef-rust-backend/src/android_permissions.rs:404-417 | a declaration from an inspected manifest is never indeterminate for its maximum |
| Permissions.ClassificationMeans | crates/emuchef-rust-backend/src/android_permissions.rs:367-528 | every field of a classified permission, in terms of its declaration, the first catalog entry of its name, the target SDK as a number and the device APIs |
| Permissions.ClassifiedCandidateMeans | crates/emuchef-rust-backend/src/apk_authoring_inspection.rs:309-340 | a candidate is offered if and only if the entry has that automation, the target SDK is served, and its minimum and maximum span exactly the devices that may ask |
| Permissions.ClassifiedPermissionReview | crates/emuchef-rust-backend/src/apk_authoring_inspection.rs:291-348 | all classified permissions are listed; the candidate and warning lists hold exactly the candidates offered and warnings drawn, in terms of declarations, entries, target SDK and device APIs, in the order of the declarations; and over a reviewed catalog candidates, warnings and install-time permissions add up |
| Permissions.FillReview | crates/emuchef-rust-backend/src/apk_authoring_inspection.rs:301-345 | the loop puts what each permission gives right after what the earlier ones give, and over accounted-for permissions drops nothing |
| Permissions.EntryIsGiven | crates/emuchef-rust-backend/src/apk_authoring_inspection.rs:301-345 | every entry of such a list is given by a permission of that rank |
| Permissions.EveryPermissionIsAccountedFor | crates/emuchef-rust-backend/src/apk_authoring_inspection.rs:485-529 | with a reviewed catalog every permission is exactly one of a candidate, a warning or an ordinary install-time permission |
| Permissions.ReviewIgnoresDeclarationOrder | crates/emuchef-rust-backend/src/android_permissions.rs:349-364 | the order of declarations does not matter |
| DialogOwner.EveryRunIsAccounted | apps/emuchef-app/src/accessibility.ts:42-115 | over any actions ids count up from one, accepted requests are the resolved ones plus at most one pending, and each resolution was made by one action while its request was pending: a settle of its id with that value, or a cancellation or teardown with the request's own safe result |
| DialogOwner.ResolvedExactlyOnce | apps/emuchef-app/src/accessibility.ts:82-90 | no promise is resolved twice and no resolution is ever withdrawn |
| DialogOwner.StepNotifies | apps/emuchef-app/src/accessibility.ts:42-115 | listeners are told once of every change of the pending dialog but a teardown, with the id then pending, and a new listener at once |
| DialogOwner.DisposeSettlesEverything | apps/emuchef-app/src/accessibility.ts:98-109 | after dispose nothing is pending and nobody is notified |
| DialogOwner.DialogController.RequestDialog | apps/emuchef-app/src/accessibility.ts:61-80 | accepted with a new id exactly when nothing is pending, otherwise answered with its own safe result |
| DialogOwner.DialogController.SettleDialog | apps/emuchef-app/src/accessibility.ts:82-90 | true exactly when one promise was resolved by it |
| DialogOwner.DialogController.CancelActiveDialog | apps/emuchef-app/src/accessibility.ts:92-95 | settles the pending dialog with its safe result |
| DialogOwner.DialogController.DisposeDialog | apps/emuchef-app/src/accessibility.ts:98-109 | settles without notifying and forgets the listeners |

## Left out

- Parsing and emitting YAML, the authored-model validator, the planner, AXML and ZIP library parsing, SHA-256: arbitrary functions, or the bytes that would be hashed. Digests are taken to be as distinguishing as their input.
- Symbolic links, canonical paths, permission bits, OS locks and the poisoned-lock exit: a file is its bytes and an identity, and calls hold the lock. `to_string_lossy` changes no path.
- The pair protocol is a machine on values rather than a class because other programs write between its steps; a directory is captured in one step.
- Recovery of interrupted operations appears between calls as arbitrary valid phase changes and dropped staged files, beside arbitrary file changes; what a retry itself guarantees is not stated. Records of other operation kinds and the test-only interruption after the Recipe are not modelled.
- `persist_with_guard`, the single-file save: its checks are the pair's admission checks and its publication the same primitives, without the group.
- The text, severity and order of diagnostics, and error codes: only which branch is taken.
- App configuration templates and planner overlays of proposed Recipes in save admission.
- AppDocument.OpenDocument: the rejections of symbolic links, other document kinds and text that is no UTF-8 are part of the arbitrary parser, and how the two roots are found is not modelled.
- AppDocument.Document.Redo: a redo can bring a removal back, and an undo take an addition away, without the deletion guard, as in the code.
- The document's own JSON command decoding, and path queries such as `owning_authored_root`.
- `reviewReady`, repair filtering and portable bindings: single expressions over one state. The review action carries no generation, so nothing fences it.
- The qualification hook's discard, which clears the session locally, its busy counter, and the presentation half of a status.
- Listeners that call back into the dialog controller while being notified; focus and announcements.
- DTO renaming in the APK review, package and version attributes, and the literal permission catalog: any catalog passing the integrity rules is allowed.
- React rendering, IPC, timers and the poller's error exits.
