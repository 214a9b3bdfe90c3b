/**
 The qualification lifecycle merge of `useDeviceQualificationMode.ts`.

 Status and command responses arrive in any order; the backend revision each
 carries is the only ordering. The class holds the adapter's refs and state,
 `Deliver` is the step it is proved against, and the results are about any
 finite sequence of deliveries.
 */
module Qualification {
  import opened Wrappers
  import opened Sorting

  datatype Session = Session(
    sessionHandle: string,
    phase: string,
    devicePlan: string,
    requiredRecipes: seq<string>,
    lifecycleRevision: Option<int>)

  datatype CandidateKind = TargetRegistration | QualificationRun

  datatype Candidate = Candidate(candidateHandle: string, kind: CandidateKind, target: Option<string>)

  datatype Preview = Preview(candidateHandle: string, target: string)

  datatype Status = Status(
    lifecycleRevision: Option<int>,
    deviceSelectionLocked: bool,
    resumableSession: Option<Session>,
    resumableCandidates: seq<Candidate>)

  /** A command response says whether it was a begin, whose device lock is projected only later. */
  datatype Response =
    | StatusRead(status: Status)
    | CommandDone(session: Session, pendingAssociation: bool)

  datatype Client = Client(
    appliedRevision: int,
    session: Option<Session>,
    deviceSelectionLocked: bool,
    beginAssociationPending: bool,
    runCandidates: seq<Candidate>,
    targetCandidate: Option<Preview>)

  /** Only a finite positive revision carries an ordering claim; `None` stands for a missing or unusable number. */
  function OrderingRevision(value: Option<int>): (r: int)
    ensures r >= 0
  {
    if value.Some? && value.value > 0 then value.value else 0
  }

  function PreviewOf(c: Candidate): Option<Preview> {
    if c.kind != TargetRegistration || c.target.None? then None
    else Some(Preview(c.candidateHandle, c.target.value))
  }

  function RunsOf(candidates: seq<Candidate>): seq<Candidate> {
    if candidates == [] then []
    else if candidates[0].kind == QualificationRun then [candidates[0]] + RunsOf(candidates[1..])
    else RunsOf(candidates[1..])
  }

  function FindByHandle(candidates: seq<Candidate>, handle: string): Option<Candidate> {
    if candidates == [] then None
    else if candidates[0].candidateHandle == handle then Some(candidates[0])
    else FindByHandle(candidates[1..], handle)
  }

  function FirstPreview(candidates: seq<Candidate>): Option<Preview> {
    if candidates == [] then None
    else if PreviewOf(candidates[0]).Some? then PreviewOf(candidates[0])
    else FirstPreview(candidates[1..])
  }

  function NextTarget(current: Option<Preview>, candidates: seq<Candidate>): Option<Preview> {
    var retained := if current.None? then None else FindByHandle(candidates, current.value.candidateHandle);
    if retained.Some? && PreviewOf(retained.value).Some? then PreviewOf(retained.value)
    else FirstPreview(candidates)
  }

  predicate IsClosed(session: Session) {
    session.phase == "closed"
  }

  function Deliver(c: Client, r: Response): Client {
    match r
    case StatusRead(status) =>
      var revision := OrderingRevision(status.lifecycleRevision);
      if revision == 0 || revision < c.appliedRevision then c
      else
        Client(revision, status.resumableSession, status.deviceSelectionLocked, false,
               RunsOf(status.resumableCandidates), NextTarget(c.targetCandidate, status.resumableCandidates))
    case CommandDone(session, pendingAssociation) =>
      var revision := OrderingRevision(session.lifecycleRevision);
      if revision != 0 && revision < c.appliedRevision then c
      else
        var applied := if revision != 0 then c.(appliedRevision := revision) else c;
        applied.(session := Some(session),
                 beginAssociationPending :=
                   if IsClosed(session) then false
                   else if pendingAssociation then true
                   else c.beginAssociationPending)
  }

  function DeliverAll(c: Client, rs: seq<Response>): Client {
    if rs == [] then c
    else Deliver(DeliverAll(c, rs[..|rs| - 1]), rs[|rs| - 1])
  }

  /** The device lock shown to the operator. */
  predicate PresentedLock(c: Client) {
    if c.session.Some? && IsClosed(c.session.value) then false
    else c.beginAssociationPending || c.deviceSelectionLocked
  }

  class QualificationAdapter {
    var appliedLifecycleRevision: int
    var session: Option<Session>
    var deviceSelectionLocked: bool
    var beginAssociationPending: bool
    var runCandidates: seq<Candidate>
    var targetCandidate: Option<Preview>

    ghost function Abstract(): Client
      reads this
    {
      Client(appliedLifecycleRevision, session, deviceSelectionLocked, beginAssociationPending, runCandidates,
             targetCandidate)
    }

    method MergeLifecycleProjection(next: Status)
      modifies this
      ensures Abstract() == Deliver(old(Abstract()), StatusRead(next))
    {
      var revision := OrderingRevision(next.lifecycleRevision);
      if revision == 0 || revision < appliedLifecycleRevision {
        return;
      }
      appliedLifecycleRevision := revision;
      beginAssociationPending := false;
      deviceSelectionLocked := next.deviceSelectionLocked;
      session := next.resumableSession;
      runCandidates := RunsOf(next.resumableCandidates);
      targetCandidate := NextTarget(targetCandidate, next.resumableCandidates);
    }

    method ApplyAuthoritativeSessionSnapshot(next: Session, pendingAssociation: bool)
      modifies this
      ensures Abstract() == Deliver(old(Abstract()), CommandDone(next, pendingAssociation))
    {
      var revision := OrderingRevision(next.lifecycleRevision);
      if revision != 0 && revision < appliedLifecycleRevision {
        return;
      }
      if revision != 0 {
        appliedLifecycleRevision := revision;
      }
      session := Some(next);
      if IsClosed(next) {
        beginAssociationPending := false;
        return;
      }
      if pendingAssociation {
        beginAssociationPending := true;
      }
    }
  }

  function RevisionOf(r: Response): int {
    match r
    case StatusRead(status) => OrderingRevision(status.lifecycleRevision)
    case CommandDone(session, _) => OrderingRevision(session.lifecycleRevision)
  }

  function SessionOf(r: Response): Option<Session> {
    match r
    case StatusRead(status) => status.resumableSession
    case CommandDone(session, _) => Some(session)
  }

  /** The applied revision never decreases, and a superseded response changes nothing at all. */
  lemma StaleResponsesChangeNothing(c: Client, r: Response)
    ensures Deliver(c, r).appliedRevision >= c.appliedRevision
    ensures 0 < RevisionOf(r) < c.appliedRevision ==> Deliver(c, r) == c
  {
  }

  /** Distinct positive revisions: the responses of one backend's serialized transitions. */
  ghost predicate Ordered(rs: seq<Response>) {
    && (forall k :: 0 <= k < |rs| ==> RevisionOf(rs[k]) > 0)
    && (forall j, k :: 0 <= j < k < |rs| ==> RevisionOf(rs[j]) != RevisionOf(rs[k]))
  }

  /** Deliveries continue from `c`, from the start or from any later point. */
  ghost predicate NewerThan(c: Client, rs: seq<Response>) {
    c.appliedRevision >= 0 && forall r :: r in rs ==> RevisionOf(r) > c.appliedRevision
  }

  ghost predicate IsNewest(rs: seq<Response>, r: Response) {
    r in rs && forall q :: q in rs ==> RevisionOf(q) <= RevisionOf(r)
  }

  ghost predicate TargetBelongs(target: Option<Preview>, candidates: seq<Candidate>) {
    match target
    case None => forall c :: c in candidates ==> PreviewOf(c).None?
    case Some(_) => exists c :: c in candidates && PreviewOf(c) == target
  }

  /** What the client shows when `r` is the last response it applied. */
  ghost predicate Reflects(c: Client, r: Response) {
    && c.session == SessionOf(r)
    && match r
       case StatusRead(status) =>
         && c.deviceSelectionLocked == status.deviceSelectionLocked
         && !c.beginAssociationPending
         && c.runCandidates == RunsOf(status.resumableCandidates)
         && TargetBelongs(c.targetCandidate, status.resumableCandidates)
       case CommandDone(session, pendingAssociation) =>
         && (IsClosed(session) ==> !c.beginAssociationPending)
         && (!IsClosed(session) && pendingAssociation ==> c.beginAssociationPending)
  }

  lemma {:induction false} FirstPreviewBelongs(candidates: seq<Candidate>)
    ensures TargetBelongs(FirstPreview(candidates), candidates)
  {
    if candidates != [] {
      FirstPreviewBelongs(candidates[1..]);
      assert candidates == [candidates[0]] + candidates[1..];
    }
  }

  lemma {:induction false} FoundIsMember(candidates: seq<Candidate>, handle: string)
    ensures FindByHandle(candidates, handle).Some? ==> FindByHandle(candidates, handle).value in candidates
  {
    if candidates != [] {
      FoundIsMember(candidates[1..], handle);
    }
  }

  lemma AppliedResponseIsReflected(c: Client, r: Response)
    requires RevisionOf(r) > c.appliedRevision >= 0
    ensures Reflects(Deliver(c, r), r) && Deliver(c, r).appliedRevision == RevisionOf(r)
  {
    if r.StatusRead? {
      FirstPreviewBelongs(r.status.resumableCandidates);
      if c.targetCandidate.Some? {
        FoundIsMember(r.status.resumableCandidates, c.targetCandidate.value.candidateHandle);
      }
    }
  }

  lemma {:induction false} LastAppliedIsNewest(c: Client, rs: seq<Response>)
    requires NewerThan(c, rs) && Ordered(rs)
    ensures var final := DeliverAll(c, rs);
            && final.appliedRevision >= c.appliedRevision
            && (rs == [] ==> final == c)
            && (forall k :: 0 <= k < |rs| ==> RevisionOf(rs[k]) <= final.appliedRevision)
            && (rs != [] ==> exists k :: 0 <= k < |rs| && RevisionOf(rs[k]) == final.appliedRevision)
            && (forall k :: 0 <= k < |rs| && RevisionOf(rs[k]) == final.appliedRevision ==> Reflects(final, rs[k]))
  {
    if rs != [] {
      var n := |rs| - 1;
      var before := DeliverAll(c, rs[..n]);
      LastAppliedIsNewest(c, rs[..n]);
      if RevisionOf(rs[n]) > before.appliedRevision {
        AppliedResponseIsReflected(before, rs[n]);
      } else {
        var k :| 0 <= k < n && RevisionOf(rs[..n][k]) == before.appliedRevision;
        assert rs[..n][k] == rs[k];
        StaleResponsesChangeNothing(before, rs[n]);
        forall j | 0 <= j < |rs| && RevisionOf(rs[j]) == before.appliedRevision ensures Reflects(before, rs[j]) {
          assert j < n && rs[..n][j] == rs[j];
        }
      }
    }
  }

  /**
   Whatever the delivery order, the client ends up showing the newest response:
   its session, and when it is a status its lock, run candidates and target too.
   */
  lemma NewestResponseIsShown(c: Client, rs: seq<Response>, newest: Response)
    requires NewerThan(c, rs) && Ordered(rs) && IsNewest(rs, newest)
    ensures Reflects(DeliverAll(c, rs), newest)
    ensures DeliverAll(c, rs).appliedRevision == RevisionOf(newest)
  {
    LastAppliedIsNewest(c, rs);
    var final := DeliverAll(c, rs);
    var k :| 0 <= k < |rs| && rs[k] == newest;
    var j :| 0 <= j < |rs| && RevisionOf(rs[j]) == final.appliedRevision;
    assert rs[j] in rs;
  }

  lemma {:induction false} NewestExists(rs: seq<Response>)
    requires rs != []
    ensures exists r :: IsNewest(rs, r)
  {
    var n := |rs| - 1;
    if n == 0 {
      assert IsNewest(rs, rs[0]);
    } else {
      NewestExists(rs[..n]);
      var r :| IsNewest(rs[..n], r);
      assert rs == rs[..n] + [rs[n]];
      assert IsNewest(rs, if RevisionOf(r) < RevisionOf(rs[n]) then rs[n] else r);
    }
  }

  /** Any two delivery orders of the same responses present the same session and revision. */
  lemma SessionIsConfluent(c: Client, rs: seq<Response>, reordered: seq<Response>)
    requires NewerThan(c, rs) && Ordered(rs) && Ordered(reordered)
    requires multiset(rs) == multiset(reordered)
    ensures DeliverAll(c, rs).session == DeliverAll(c, reordered).session
    ensures DeliverAll(c, rs).appliedRevision == DeliverAll(c, reordered).appliedRevision
  {
    assert |rs| == |multiset(rs)| && |reordered| == |multiset(reordered)|;
    if rs != [] {
      NewestExists(rs);
      var newest :| IsNewest(rs, newest);
      assert forall q :: q in rs <==> q in multiset(rs);
      assert forall q :: q in reordered <==> q in multiset(reordered);
      assert IsNewest(reordered, newest);
      NewestResponseIsShown(c, rs, newest);
      NewestResponseIsShown(c, reordered, newest);
    }
  }

  // ---- The device lock is confluent only when the newest response decides it -------

  /** A status carries the lock; a closed session has none; a begin owns it until the next status. */
  predicate DecidesLock(r: Response) {
    r.StatusRead? || IsClosed(r.session) || r.pendingAssociation
  }

  function DecidedLock(r: Response): bool
    requires DecidesLock(r)
  {
    match r
    case StatusRead(status) =>
      if status.resumableSession.Some? && IsClosed(status.resumableSession.value) then false
      else status.deviceSelectionLocked
    case CommandDone(session, _) => !IsClosed(session)
  }

  lemma LockIsDecidedByNewest(c: Client, rs: seq<Response>, newest: Response)
    requires NewerThan(c, rs) && Ordered(rs) && IsNewest(rs, newest) && DecidesLock(newest)
    ensures PresentedLock(DeliverAll(c, rs)) == DecidedLock(newest)
  {
    NewestResponseIsShown(c, rs, newest);
  }

  /** The lock kept beneath the shown session: a status sets it, and a begin owns it until the next status. */
  predicate KeptLock(c: Client) {
    c.beginAssociationPending || c.deviceSelectionLocked
  }

  predicate SetsLock(r: Response) {
    r.StatusRead? || (r.pendingAssociation && !IsClosed(r.session))
  }

  predicate LockSetBy(r: Response)
    requires SetsLock(r)
  {
    r.CommandDone? || r.status.deviceSelectionLocked
  }

  /**
   Checkpoints and abandonments are asked for only while a session is shown, and
   for that session; a session found closed is not found open later.
   */
  ghost predicate AskedFor(c: Client, rs: seq<Response>) {
    && (forall r :: r in rs && !SetsLock(r) ==>
          && c.session.Some? && r.session.sessionHandle == c.session.value.sessionHandle
          && (IsClosed(c.session.value) ==> IsClosed(r.session)))
    && (forall p, q :: p in rs && q in rs && !SetsLock(p) && !SetsLock(q) && RevisionOf(p) < RevisionOf(q) ==>
          IsClosed(p.session) ==> IsClosed(q.session))
  }

  ghost predicate OrdersAgree(c: Client, rs: seq<Response>) {
    forall one: seq<Response>, other: seq<Response> ::
      multiset(one) == multiset(rs) && multiset(other) == multiset(rs) ==>
        PresentedLock(DeliverAll(c, one)) == PresentedLock(DeliverAll(c, other))
  }

  /** Whatever response sets the lock, sets it to what is shown anyway. */
  ghost predicate SetsWhatIsShown(c: Client, rs: seq<Response>) {
    forall r :: r in rs && SetsLock(r) ==> LockSetBy(r) == PresentedLock(c)
  }

  lemma ReorderedAlike(c: Client, rs: seq<Response>, reordered: seq<Response>, newest: Response)
    requires Ordered(rs) && NewerThan(c, rs) && IsNewest(rs, newest) && multiset(reordered) == multiset(rs)
    ensures Ordered(reordered) && NewerThan(c, reordered) && IsNewest(reordered, newest)
    ensures forall r :: r in reordered <==> r in rs
  {
    assert forall q :: q in rs <==> q in multiset(rs);
    assert forall q :: q in reordered <==> q in multiset(reordered);
    OrderedMeansOnce(rs);
    forall j, k | 0 <= j < k < |reordered| ensures RevisionOf(reordered[j]) != RevisionOf(reordered[k]) {
      if RevisionOf(reordered[j]) == RevisionOf(reordered[k]) {
        assert reordered[j] == reordered[k] by { SameRevisionIsSame(rs, reordered[j], reordered[k]); }
        TwiceCountsTwo(reordered, j, k);
        assert false;
      }
    }
  }

  lemma SameRevisionIsSame(rs: seq<Response>, p: Response, q: Response)
    requires Ordered(rs) && p in rs && q in rs && RevisionOf(p) == RevisionOf(q)
    ensures p == q
  {
  }

  lemma {:induction false} OrderedMeansOnce(rs: seq<Response>)
    requires Ordered(rs)
    ensures forall r :: multiset(rs)[r] <= 1
  {
    if rs != [] {
      var n := |rs| - 1;
      OrderedMeansOnce(rs[..n]);
      assert rs == rs[..n] + [rs[n]];
      assert rs[n] !in rs[..n];
    }
  }

  lemma TwiceCountsTwo(rs: seq<Response>, j: nat, k: nat)
    requires j < k < |rs| && rs[j] == rs[k]
    ensures multiset(rs)[rs[j]] >= 2
  {
    assert rs == rs[..k] + [rs[k]] + rs[k + 1..];
    assert rs[..k][j] == rs[j];
  }

  /** Agreeing setters leave the lock as it is shown. */
  lemma {:induction false} AgreeingSettersKeepTheLock(c: Client, rs: seq<Response>)
    requires SetsWhatIsShown(c, rs) && KeptLock(c) == PresentedLock(c)
    requires forall r :: r in rs && !SetsLock(r) ==> !IsClosed(r.session)
    ensures KeptLock(DeliverAll(c, rs)) == PresentedLock(c)
  {
    if rs != [] {
      var n := |rs| - 1;
      assert rs[n] in rs && forall r :: r in rs[..n] ==> r in rs;
      AgreeingSettersKeepTheLock(c, rs[..n]);
    }
  }

  lemma AgreeingSettersAreConfluent(c: Client, rs: seq<Response>, newest: Response)
    requires Ordered(rs) && NewerThan(c, rs) && AskedFor(c, rs) && IsNewest(rs, newest)
    requires !DecidesLock(newest) && SetsWhatIsShown(c, rs)
    ensures PresentedLock(DeliverAll(c, rs)) == PresentedLock(c)
  {
    assert !SetsLock(newest) && !IsClosed(c.session.value);
    forall r | r in rs && !SetsLock(r) ensures !IsClosed(r.session) {
      if RevisionOf(r) == RevisionOf(newest) { SameRevisionIsSame(rs, r, newest); }
    }
    AgreeingSettersKeepTheLock(c, rs);
    NewestResponseIsShown(c, rs, newest);
  }

  lemma {:induction false} DeliveriesCompose(c: Client, first: seq<Response>, more: seq<Response>)
    ensures DeliverAll(c, first + more) == DeliverAll(DeliverAll(c, first), more)
    decreases |more|
  {
    if more == [] {
      assert first + more == first;
    } else {
      var n := |more| - 1;
      assert (first + more)[..|first + more| - 1] == first + more[..n];
      DeliveriesCompose(c, first, more[..n]);
    }
  }

  lemma {:induction false} SupersededChangesNothing(c: Client, rs: seq<Response>)
    requires forall r :: r in rs ==> 0 < RevisionOf(r) < c.appliedRevision
    ensures DeliverAll(c, rs) == c
  {
    if rs != [] {
      var n := |rs| - 1;
      assert rs[n] in rs && forall r :: r in rs[..n] ==> r in rs;
      SupersededChangesNothing(c, rs[..n]);
      StaleResponsesChangeNothing(c, rs[n]);
    }
  }

  lemma WithoutIndex(rs: seq<Response>, k: nat, rest: seq<Response>)
    requires Ordered(rs) && k < |rs| && rest == rs[..k] + rs[k + 1..]
    ensures Ordered(rest) && forall q :: q in rest <==> q in rs && q != rs[k]
  {
    forall i | 0 <= i < |rest| ensures rest[i] == rs[if i < k then i else i + 1] {}
    forall q | q in rs && q != rs[k] ensures q in rest {
      var i :| 0 <= i < |rs| && rs[i] == q;
      assert rest[if i < k then i else i - 1] == q;
    }
  }

  lemma Without(rs: seq<Response>, r: Response) returns (rest: seq<Response>)
    requires Ordered(rs) && r in rs
    ensures multiset(rs) == multiset([r]) + multiset(rest)
    ensures Ordered(rest) && forall q :: q in rest <==> q in rs && q != r
  {
    var k :| 0 <= k < |rs| && rs[k] == r;
    rest := rs[..k] + rs[k + 1..];
    WithoutIndex(rs, k, rest);
    assert rs == rs[..k] + [r] + rs[k + 1..];
  }

  lemma BothInFront(rs: seq<Response>, p: Response, q: Response) returns (rest: seq<Response>)
    requires Ordered(rs) && p in rs && q in rs && p != q
    ensures multiset([p, q] + rest) == multiset(rs) && multiset([q, p] + rest) == multiset(rs)
    ensures forall r :: r in rest ==> r in rs && r != q
  {
    var others := Without(rs, q);
    rest := Without(others, p);
    assert multiset([p, q]) == multiset([p]) + multiset([q]) == multiset([q, p]);
  }

  /** A response older than `newest` that sets another lock than is shown, delivered just before it or just after. */
  lemma DisagreeingSetterDecides(
      c: Client, rs: seq<Response>, newest: Response, setter: Response, rest: seq<Response>)
    requires Ordered(rs) && NewerThan(c, rs) && AskedFor(c, rs) && IsNewest(rs, newest) && !DecidesLock(newest)
    requires setter in rs && SetsLock(setter) && LockSetBy(setter) != PresentedLock(c)
    requires forall r :: r in rest ==> r in rs && r != newest
    ensures PresentedLock(DeliverAll(c, [setter, newest] + rest)) == LockSetBy(setter)
    ensures PresentedLock(DeliverAll(c, [newest, setter] + rest)) == PresentedLock(c)
  {
    assert !SetsLock(newest) && !IsClosed(c.session.value);
    if RevisionOf(setter) == RevisionOf(newest) { SameRevisionIsSame(rs, setter, newest); }
    forall r | r in rest ensures 0 < RevisionOf(r) < RevisionOf(newest) {
      if RevisionOf(r) == RevisionOf(newest) { SameRevisionIsSame(rs, r, newest); }
    }
    var first := Deliver(Deliver(c, setter), newest);
    TwoDeliveries(c, setter, newest);
    DeliveriesCompose(c, [setter, newest], rest);
    SupersededChangesNothing(first, rest);
    var second := Deliver(Deliver(c, newest), setter);
    TwoDeliveries(c, newest, setter);
    DeliveriesCompose(c, [newest, setter], rest);
    SupersededChangesNothing(second, rest);
  }

  lemma TwoDeliveries(c: Client, p: Response, q: Response)
    ensures DeliverAll(c, [p, q]) == Deliver(Deliver(c, p), q)
  {
    assert [p, q][..1] == [p] && [p][..0] == [];
    assert DeliverAll(c, [p]) == Deliver(DeliverAll(c, []), p);
  }

  lemma DisagreeingSetterDependsOnOrder(c: Client, rs: seq<Response>, newest: Response, setter: Response)
    requires Ordered(rs) && NewerThan(c, rs) && AskedFor(c, rs) && IsNewest(rs, newest) && !DecidesLock(newest)
    requires setter in rs && SetsLock(setter) && LockSetBy(setter) != PresentedLock(c)
    ensures !OrdersAgree(c, rs)
  {
    var rest := BothInFront(rs, setter, newest);
    DisagreeingSetterDecides(c, rs, newest, setter, rest);
  }

  /**
   From any client and for any newer responses asked for from it, the shown lock
   is the same in every delivery order if and only if the newest response
   decides it, or no response sets it to anything else than is shown.
   */
  lemma LockConfluenceIff(c: Client, rs: seq<Response>, newest: Response)
    requires Ordered(rs) && NewerThan(c, rs) && AskedFor(c, rs) && IsNewest(rs, newest)
    ensures OrdersAgree(c, rs) <==> DecidesLock(newest) || SetsWhatIsShown(c, rs)
  {
    if DecidesLock(newest) || SetsWhatIsShown(c, rs) {
      forall one: seq<Response>, other: seq<Response> |
        multiset(one) == multiset(rs) && multiset(other) == multiset(rs)
        ensures PresentedLock(DeliverAll(c, one)) == PresentedLock(DeliverAll(c, other))
      {
        LockInAnyOrder(c, rs, newest, one);
        LockInAnyOrder(c, rs, newest, other);
      }
    } else {
      var setter :| setter in rs && SetsLock(setter) && LockSetBy(setter) != PresentedLock(c);
      DisagreeingSetterDependsOnOrder(c, rs, newest, setter);
    }
  }

  lemma LockInAnyOrder(c: Client, rs: seq<Response>, newest: Response, order: seq<Response>)
    requires Ordered(rs) && NewerThan(c, rs) && AskedFor(c, rs) && IsNewest(rs, newest)
    requires multiset(order) == multiset(rs)
    requires DecidesLock(newest) || SetsWhatIsShown(c, rs)
    ensures PresentedLock(DeliverAll(c, order)) == if DecidesLock(newest) then DecidedLock(newest) else PresentedLock(c)
  {
    ReorderedAlike(c, rs, order, newest);
    if DecidesLock(newest) {
      LockIsDecidedByNewest(c, order, newest);
    } else {
      AgreeingSettersAreConfluent(c, order, newest);
    }
  }

  function Untouched(): Client {
    Client(0, None, false, false, [], None)
  }

  /** A status of the attempt, read at `revision`. */
  function AttemptStatus(session: Session, revision: int, locked: bool): Response {
    StatusRead(Status(Some(revision), locked, Some(session.(lifecycleRevision := Some(revision))), []))
  }

  /**
   A restored session, first without and then with its device: the checkpoint
   asked for when only the first status was there leaves the device locked or
   not, depending on whether the second status arrives before its response.
   */
  lemma UndecidedLockDependsOnOrder(newest: Response, m: int, n: int)
    requires !DecidesLock(newest) && 0 < m < n < RevisionOf(newest)
    ensures var restored, associated := AttemptStatus(newest.session, m, false), AttemptStatus(newest.session, n, true);
            var shown := Deliver(Untouched(), restored);
            && Ordered([associated, newest]) && NewerThan(shown, [associated, newest])
            && AskedFor(shown, [associated, newest])
            && PresentedLock(DeliverAll(shown, [associated, newest]))
            && !PresentedLock(DeliverAll(shown, [newest, associated]))
  {
    var restored, associated := AttemptStatus(newest.session, m, false), AttemptStatus(newest.session, n, true);
    TwoDeliveries(Deliver(Untouched(), restored), associated, newest);
    TwoDeliveries(Deliver(Untouched(), restored), newest, associated);
  }

  /**
   The reducer also takes a command response without a revision, which the
   backend never sends: its order with a status would be harmless if and only
   if the status showed the very same session.
   */
  lemma UnrevisedCommandCommutesIff(c: Client, unrevised: Session, pending: bool, status: Status)
    requires OrderingRevision(unrevised.lifecycleRevision) == 0
    requires OrderingRevision(status.lifecycleRevision) > 0
    requires OrderingRevision(status.lifecycleRevision) >= c.appliedRevision
    ensures var command := CommandDone(unrevised, pending);
            Deliver(Deliver(c, command), StatusRead(status)).session
            == Deliver(Deliver(c, StatusRead(status)), command).session
            <==> status.resumableSession == Some(unrevised)
  {
  }

  // ---- Deliveries in terms of their own texts and numbers --------------------------------------

  /** The response is stamped, and not older than what was applied. */
  ghost predicate IsCurrent(c: Client, revision: Option<int>) {
    exists n :: revision == Some(n) && 0 < n && c.appliedRevision <= n
  }

  /** The run candidates are those of that kind, each as often and in the same order. */
  ghost predicate AreTheRuns(candidates: seq<Candidate>, runs: seq<Candidate>) {
    && IsSubsequence(runs, candidates)
    && forall c :: multiset(runs)[c] == if c.kind == QualificationRun then multiset(candidates)[c] else 0
  }

  lemma {:induction false} RunsMean(candidates: seq<Candidate>)
    ensures AreTheRuns(candidates, RunsOf(candidates))
  {
    if candidates != [] {
      RunsMean(candidates[1..]);
      assert candidates == [candidates[0]] + candidates[1..];
    }
  }

  /** The candidate can be shown as a target. */
  ghost predicate Shows(candidate: Candidate, preview: Preview) {
    && candidate.kind == TargetRegistration && candidate.target == Some(preview.target)
    && candidate.candidateHandle == preview.candidateHandle
  }

  ghost predicate IsFirstWith(candidates: seq<Candidate>, i: nat, handle: string) {
    && i < |candidates| && candidates[i].candidateHandle == handle
    && forall j :: 0 <= j < i ==> candidates[j].candidateHandle != handle
  }

  ghost predicate IsFirstShown(candidates: seq<Candidate>, preview: Preview) {
    exists i :: 0 <= i < |candidates| && Shows(candidates[i], preview)
                && forall j, other :: 0 <= j < i ==> !Shows(candidates[j], other)
  }

  /** The target now shown is still a listed one: the first candidate of its handle can be shown as `preview`. */
  ghost predicate IsRetainedAs(current: Option<Preview>, candidates: seq<Candidate>, preview: Preview) {
    current.Some? &&
    exists i: nat :: IsFirstWith(candidates, i, current.value.candidateHandle) && Shows(candidates[i], preview)
  }

  lemma PreviewMeans(candidate: Candidate, preview: Preview)
    ensures PreviewOf(candidate) == Some(preview) <==> Shows(candidate, preview)
    ensures PreviewOf(candidate).None? <==> forall other :: !Shows(candidate, other)
  {
    if PreviewOf(candidate).Some? {
      assert Shows(candidate, PreviewOf(candidate).value);
    }
  }

  lemma {:induction false} FindMeans(candidates: seq<Candidate>, handle: string)
    ensures var found := FindByHandle(candidates, handle);
            if found.Some? then exists i: nat :: IsFirstWith(candidates, i, handle) && candidates[i] == found.value
            else forall c :: c in candidates ==> c.candidateHandle != handle
  {
    if candidates != [] {
      if candidates[0].candidateHandle == handle {
        assert IsFirstWith(candidates, 0, handle);
      } else {
        FindMeans(candidates[1..], handle);
        if FindByHandle(candidates[1..], handle).Some? {
          var i: nat :| IsFirstWith(candidates[1..], i, handle)
                   && candidates[1..][i] == FindByHandle(candidates[1..], handle).value;
          assert candidates[i + 1] == candidates[1..][i];
          assert forall j :: 0 < j < i + 1 ==> candidates[j] == candidates[1..][j - 1];
          assert IsFirstWith(candidates, i + 1, handle);
        }
      }
    }
  }

  lemma {:induction false} FirstPreviewMeans(candidates: seq<Candidate>)
    ensures var found := FirstPreview(candidates);
            if found.Some? then IsFirstShown(candidates, found.value)
            else forall c, preview :: c in candidates ==> !Shows(c, preview)
  {
    if candidates != [] {
      var first := PreviewOf(candidates[0]);
      forall preview { PreviewMeans(candidates[0], preview); }
      if first.Some? {
        assert Shows(candidates[0], first.value);
      } else {
        FirstPreviewMeans(candidates[1..]);
        if FirstPreview(candidates[1..]).Some? {
          var preview := FirstPreview(candidates[1..]).value;
          var i :| 0 <= i < |candidates[1..]| && Shows(candidates[1..][i], preview)
                   && forall j, other :: 0 <= j < i ==> !Shows(candidates[1..][j], other);
          assert Shows(candidates[i + 1], preview);
          assert forall j :: 0 < j < i + 1 ==> candidates[j] == candidates[1..][j - 1];
        }
      }
    }
  }

  /** The shown target is kept while it is listed, and is otherwise the first that can be shown, if any. */
  ghost predicate IsNextTarget(current: Option<Preview>, candidates: seq<Candidate>, next: Option<Preview>) {
    if exists preview :: IsRetainedAs(current, candidates, preview)
    then next.Some? && IsRetainedAs(current, candidates, next.value)
    else if next.Some? then IsFirstShown(candidates, next.value)
    else forall c, preview :: c in candidates ==> !Shows(c, preview)
  }

  lemma NextTargetMeans(current: Option<Preview>, candidates: seq<Candidate>)
    ensures IsNextTarget(current, candidates, NextTarget(current, candidates))
  {
    FirstPreviewMeans(candidates);
    if current.Some? {
      var handle := current.value.candidateHandle;
      FindMeans(candidates, handle);
      var found := FindByHandle(candidates, handle);
      if found.Some? {
        var i: nat :| IsFirstWith(candidates, i, handle) && candidates[i] == found.value;
        forall preview { PreviewMeans(found.value, preview); }
        assert forall j: nat :: IsFirstWith(candidates, j, handle) ==> j == i;
      } else {
        assert forall i: nat :: i < |candidates| ==> candidates[i] in candidates;
      }
    }
  }

  /** A status replaces everything it speaks of, or is ignored. */
  lemma StatusDelivery(c: Client, status: Status)
    ensures var after := Deliver(c, StatusRead(status));
            if !IsCurrent(c, status.lifecycleRevision) then after == c
            else
              && status.lifecycleRevision == Some(after.appliedRevision)
              && after.session == status.resumableSession && after.deviceSelectionLocked == status.deviceSelectionLocked
              && !after.beginAssociationPending
              && AreTheRuns(status.resumableCandidates, after.runCandidates)
              && IsNextTarget(c.targetCandidate, status.resumableCandidates, after.targetCandidate)
  {
    RunsMean(status.resumableCandidates);
    NextTargetMeans(c.targetCandidate, status.resumableCandidates);
  }

  /** A command response replaces the session; a begin reserves the device, and a closed session releases it. */
  lemma CommandDelivery(c: Client, session: Session, pending: bool)
    requires c.appliedRevision >= 0
    ensures var after := Deliver(c, CommandDone(session, pending));
            var stamped := exists n :: session.lifecycleRevision == Some(n) && 0 < n;
            if stamped && !IsCurrent(c, session.lifecycleRevision) then after == c
            else
              && after.session == Some(session)
              && (if stamped then session.lifecycleRevision == Some(after.appliedRevision)
                  else after.appliedRevision == c.appliedRevision)
              && (after.beginAssociationPending <==>
                    session.phase != "closed" && (pending || c.beginAssociationPending))
              && after.deviceSelectionLocked == c.deviceSelectionLocked
              && after.runCandidates == c.runCandidates && after.targetCandidate == c.targetCandidate
  {
  }

  /** The operator sees the device locked unless the shown session is closed or nothing holds the device. */
  lemma PresentedLockMeans(c: Client)
    ensures PresentedLock(c) <==>
            && !(c.session.Some? && c.session.value.phase == "closed")
            && (c.beginAssociationPending || c.deviceSelectionLocked)
  {
  }
}
