/**
 The durable journal of `catalog_change.rs` and the single-file publication
 primitives the pair protocol calls: phase transitions, the ownership checks
 before a rename, and the checks before a rollback. SHA-256 digests are taken
 to be as distinguishing as the bytes they are computed from.
 */
module CatalogJournal {
  import opened Wrappers
  import opened DigestFraming
  import opened CatalogFiles

  datatype Phase = Prepared | Staged | Publishing | Published | RecoveryRequired | Completed | Rejected

  predicate IsTerminal(phase: Phase) {
    phase.Completed? || phase.Rejected?
  }

  predicate ValidTransition(from: Phase, to: Phase) {
    match from
    case Prepared => to.Staged? || to.Rejected? || to.RecoveryRequired?
    case Staged => to.Publishing? || to.RecoveryRequired? || to.Rejected?
    case Publishing => to.Published? || to.RecoveryRequired?
    case Published => to.Completed? || to.RecoveryRequired?
    case RecoveryRequired => to.Staged? || to.Publishing? || to.Published? || to.Completed?
    case Completed => false
    case Rejected => false
  }

  /** How far a publication has come. */
  function Progressed(phase: Phase): Option<nat> {
    match phase
    case Prepared => Some(0)
    case Staged => Some(1)
    case Publishing => Some(2)
    case Published => Some(3)
    case Completed => Some(4)
    case _ => None
  }

  /**
   An unfinished record goes on by one, falls into recovery, comes back from
   there to any point but the start, or is given up while nothing is published.
   */
  lemma TransitionsGoOnByOne(from: Phase, to: Phase)
    ensures ValidTransition(from, to) <==>
            && from != to && from != Completed && from != Rejected
            && (|| to == RecoveryRequired
                || (Progressed(from).Some? && Progressed(to) == Some(Progressed(from).value + 1))
                || (from == RecoveryRequired && Progressed(to).Some? && to != Prepared)
                || (to == Rejected && (from == Prepared || from == Staged)))
  {
  }

  /** A parent is named by its caller; a child's id is derived from its parent and its destination. */
  datatype JournalId = Parent(op: string) | Child(op: string, destination: CatalogPath)

  /** Ownership evidence of one staged replacement. */
  datatype Write = Write(destination: CatalogPath, expected: Option<File>, staged: File)

  datatype Record = Record(digest: string, phase: Phase, write: Option<Write>)

  type Journal = map<JournalId, Record>

  /** How far a primitive gets: a failure can strike before, midway through, or just after its durable effects. */
  datatype Progress = Fails | Halfway | FailsAfterEffect | Succeeds

  datatype Transitioned = Transitioned(journal: Journal, ok: bool)

  function WithPhase(j: Journal, id: JournalId, phase: Phase): Journal
    requires id in j
  {
    j[id := j[id].(phase := phase)]
  }

  /** Advance one record; repeating the current phase is safe and writes nothing. */
  function Transition(j: Journal, id: JournalId, to: Phase, p: Progress): (t: Transitioned)
    ensures t.ok ==> id in j && t.journal == WithPhase(j, id, to)
    ensures t.journal.Keys == j.Keys
    ensures forall other :: other in j && other != id ==> t.journal[other] == j[other]
    ensures id in j ==>
              || t.journal[id] == j[id]
              || (ValidTransition(j[id].phase, to) && t.journal[id] == j[id].(phase := to))
  {
    if p.Fails? || p.Halfway? || id !in j then Transitioned(j, false)
    else if j[id].phase == to then
      assert WithPhase(j, id, to) == j;
      Transitioned(j, true)
    else if !ValidTransition(j[id].phase, to) then Transitioned(j, false)
    else Transitioned(WithPhase(j, id, to), p.Succeeds?)
  }

  // ---- Publication -----------------------------------------------------------------------

  /** The decision taken before the rename. */
  datatype PublishDecision =
    | Stop(journal: Journal)
    | AlreadyPublished(journal: Journal)
    | ReadyToRename(journal: Journal)

  /** Every record but `id` is as before, and `id` kept its write and digest and did not end. */
  ghost predicate OnlyPhaseOf(id: JournalId, before: Journal, after: Journal) {
    && after.Keys == before.Keys
    && (forall other :: other in before && other != id ==> after[other] == before[other])
    && (id in before ==>
          && after[id].write == before[id].write && after[id].digest == before[id].digest
          && (IsTerminal(after[id].phase) ==> IsTerminal(before[id].phase)))
  }

  /** The destination already holds the staged file: only the record has to catch up. */
  function FinishPublished(j: Journal, id: JournalId, p: Progress): (d: PublishDecision)
    requires id in j
    ensures OnlyPhaseOf(id, j, d.journal) && !d.ReadyToRename?
  {
    var phase := j[id].phase;
    if phase.Rejected? then Stop(j)
    else if phase.Completed? || phase.Published? then AlreadyPublished(j)
    else if p.Succeeds? then AlreadyPublished(WithPhase(j, id, Published))
    else if p.FailsAfterEffect? then Stop(WithPhase(j, id, Published))
    else if p.Halfway? && !phase.RecoveryRequired? then Stop(WithPhase(j, id, Publishing))
    else Stop(j)
  }

  function EnterPublishing(j: Journal, id: JournalId, p: Progress): (d: PublishDecision)
    requires id in j
    ensures OnlyPhaseOf(id, j, d.journal)
    ensures d.ReadyToRename? ==> d.journal[id].phase.Publishing?
    ensures !d.AlreadyPublished?
  {
    var phase := j[id].phase;
    if phase.Rejected? || phase.Completed? then Stop(j)
    else if phase.Publishing? then ReadyToRename(j)
    else if p.Succeeds? then ReadyToRename(WithPhase(j, id, Publishing))
    else if p.FailsAfterEffect? then Stop(WithPhase(j, id, Publishing))
    else if p.Halfway? && phase.Prepared? then Stop(WithPhase(j, id, Staged))
    else if p.Halfway? && phase.Published? then Stop(WithPhase(j, id, RecoveryRequired))
    else Stop(j)
  }

  function PublishCheck(j: Journal, staging: map<JournalId, File>, current: Option<File>, id: JournalId, p: Progress)
    : (d: PublishDecision)
    ensures OnlyPhaseOf(id, j, d.journal)
    ensures id in j && IsTerminal(j[id].phase) ==> d.journal == j
    ensures d.ReadyToRename? ==>
              && id in j && j[id].write.Some? && id in staging
              && staging[id] == j[id].write.value.staged
              && current == j[id].write.value.expected
              && d.journal[id].phase.Publishing?
    ensures d.AlreadyPublished? ==> id in j && j[id].write.Some? && current == Some(j[id].write.value.staged)
  {
    if p.Fails? || id !in j || j[id].write.None? then Stop(j)
    else
      var write := j[id].write.value;
      if current == Some(write.staged) then FinishPublished(j, id, p)
      else if j[id].phase.Completed? then Stop(j)
      else if current != write.expected then Stop(Transition(j, id, RecoveryRequired, p).journal)
      else if id !in staging then Stop(j)
      else if staging[id] != write.staged then Stop(Transition(j, id, RecoveryRequired, p).journal)
      else EnterPublishing(j, id, p)
  }

  /** A fault leaves the record at a point on its way: nothing written, the last write done, or one write of two. */
  lemma FaultsStopOnTheWay(j: Journal, id: JournalId, to: Phase)
    requires id in j && j[id].phase != to && ValidTransition(j[id].phase, to)
    ensures Transition(j, id, to, Fails) == Transition(j, id, to, Halfway) == Transitioned(j, false)
    ensures Transition(j, id, to, FailsAfterEffect) == Transitioned(WithPhase(j, id, to), false)
    ensures Transition(j, id, to, Succeeds) == Transitioned(WithPhase(j, id, to), true)
  {
  }

  /** Repeating the present phase writes nothing and succeeds; an invalid transition fails. */
  lemma OtherTransitionsWriteNothing(j: Journal, id: JournalId, to: Phase, p: Progress)
    requires id !in j || j[id].phase == to || !ValidTransition(j[id].phase, to)
    ensures Transition(j, id, to, p)
            == Transitioned(j, (p.Succeeds? || p.FailsAfterEffect?) && id in j && j[id].phase == to)
  {
  }

  /** A record that is already there needs no write that could fail. */
  lemma NoWriteNoFault(j: Journal, id: JournalId, p: Progress)
    requires id in j
    ensures j[id].phase == Publishing ==> EnterPublishing(j, id, p) == ReadyToRename(j)
    ensures j[id].phase == Published ==> FinishPublished(j, id, p) == AlreadyPublished(j)
  {
  }

  lemma FaultsStopPublishing(j: Journal, id: JournalId)
    requires id in j && !IsTerminal(j[id].phase) && j[id].phase != Publishing
    ensures EnterPublishing(j, id, Fails) == Stop(j)
    ensures EnterPublishing(j, id, FailsAfterEffect) == Stop(WithPhase(j, id, Publishing))
    ensures EnterPublishing(j, id, Halfway) ==
            Stop(if j[id].phase == Prepared then WithPhase(j, id, Staged)
                 else if j[id].phase == Published then WithPhase(j, id, RecoveryRequired) else j)
  {
  }

  lemma FaultsStopFinishing(j: Journal, id: JournalId)
    requires id in j && !IsTerminal(j[id].phase) && j[id].phase != Published
    ensures FinishPublished(j, id, Fails) == Stop(j)
    ensures FinishPublished(j, id, FailsAfterEffect) == Stop(WithPhase(j, id, Published))
    ensures FinishPublished(j, id, Halfway) ==
            Stop(if j[id].phase == RecoveryRequired then j else WithPhase(j, id, Publishing))
  {
  }

  /** Without a fault, the decision follows from the destination, the staged file and the record. */
  lemma UndisturbedPublishCheck(j: Journal, staging: map<JournalId, File>, current: Option<File>, id: JournalId)
    requires id in j && j[id].write.Some?
    ensures var d, write, phase := PublishCheck(j, staging, current, id, Succeeds), j[id].write.value, j[id].phase;
            var intact := id in staging && staging[id] == write.staged;
            && (d.AlreadyPublished? <==> current == Some(write.staged) && phase != Rejected)
            && (d.AlreadyPublished? ==>
                  d.journal == WithPhase(j, id, if phase == Completed then Completed else Published))
            && (d.ReadyToRename? <==>
                  current != Some(write.staged) && current == write.expected && intact
                  && phase != Completed && phase != Rejected)
            && (d.ReadyToRename? ==> d.journal == WithPhase(j, id, Publishing))
            && (d.Stop? ==>
                  var foreign := current != write.expected || (id in staging && !intact);
                  d.journal ==
                    if phase != Completed && phase != Rejected && foreign then WithPhase(j, id, RecoveryRequired)
                    else j)
  {
    assert j == j[id := j[id]];
  }

  // ---- Rollback ------------------------------------------------------------------------------

  /**
   What `rollback_staged_file_write` finds at the destination of a file that had
   none before. A staged file that is gone is first linked back; `LinkedOnly` is
   a fault between that and the removal.
   */
  datatype RollbackDecision = NotOwned | NothingToUndo | LinkedOnly | Owned

  function RollbackCheck(j: Journal, staging: map<JournalId, File>, current: Option<File>, id: JournalId, p: Progress)
    : (d: RollbackDecision)
    ensures d.Owned? || d.LinkedOnly? ==> id in j && j[id].write.Some? && current == Some(j[id].write.value.staged)
    ensures d.LinkedOnly? ==> id !in staging
    ensures d.NothingToUndo? ==> id in j && j[id].write.Some? && current == j[id].write.value.expected
  {
    if p.Fails? || id !in j || j[id].write.None? then NotOwned
    else
      var write := j[id].write.value;
      if current == write.expected then NothingToUndo
      else if current != Some(write.staged) then NotOwned
      else if id in staging && staging[id].bytes != write.staged.bytes then NotOwned
      else if id !in staging && p.Halfway? then NotOwned
      else if id !in staging && p.FailsAfterEffect? then LinkedOnly
      else Owned
  }

  /** Linking a lost staged file back can fail before the link or after it. */
  lemma FaultsStopLinking(j: Journal, staging: map<JournalId, File>, current: Option<File>, id: JournalId)
    requires RollbackCheck(j, staging, current, id, Succeeds) == Owned
    ensures RollbackCheck(j, staging, current, id, Fails) == NotOwned
    ensures RollbackCheck(j, staging, current, id, Halfway) == if id in staging then Owned else NotOwned
    ensures RollbackCheck(j, staging, current, id, FailsAfterEffect) == if id in staging then Owned else LinkedOnly
  {
  }

  /** Without a fault, a file is removed exactly while it is the staged one and its copy in staging is not another. */
  lemma UndisturbedRollbackCheck(j: Journal, staging: map<JournalId, File>, current: Option<File>, id: JournalId)
    requires id in j && j[id].write.Some?
    ensures var d, write := RollbackCheck(j, staging, current, id, Succeeds), j[id].write.value;
            && (d.NothingToUndo? <==> current == write.expected)
            && (d.Owned? <==> current != write.expected && current == Some(write.staged)
                              && (id in staging ==> staging[id].bytes == write.staged.bytes))
            && !d.LinkedOnly?
  {
  }
}
