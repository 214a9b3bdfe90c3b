/**
 The workflow reducer of `workflow.ts`: one state, every action, and what holds
 along any run of actions.

 Payloads the reducer only stores (facts, review text, event bodies, messages)
 are opaque values; every field it tests is kept.
 */
module Workflow {
  import opened Wrappers
  import opened RecipeClosure
  import EventLog

  datatype Step = Connect | Device | Setup | Recipes | Inputs | Review | Execution

  datatype Mode = Simulated | Real

  datatype Value = Null | Json(text: string)

  datatype Facts = Facts(deviceHandle: string, body: string)

  datatype Match = Match(
    confidence: string,
    recommendedPlanId: Option<string>,
    candidates: seq<string>,
    safeGenericPlans: seq<string>)

  datatype Input = Input(key: string, recipeId: RecipeId, value: Value, body: string)

  datatype RecipeOption = RecipeOption(id: RecipeId, recipeDependencies: seq<RecipeId>)

  datatype Description = Description(
    selectedRecipes: seq<RecipeId>,
    recipeOptions: seq<RecipeOption>,
    inputs: seq<Input>,
    body: string)

  datatype ReviewSummary = ReviewSummary(reviewHandle: string, body: string)

  datatype Snapshot = Snapshot(
    executionHandle: string,
    simulated: bool,
    terminal: bool,
    status: string,
    latestSequence: int,
    terminalResolution: Option<string>)

  datatype ExecutionState =
    | Idle
    | Starting(generation: int, mode: Mode)
    | Live(
        terminal: bool,
        generation: int,
        snapshot: Snapshot,
        mode: Mode,
        events: seq<EventLog.Event>,
        eventCursor: int,
        cancellationRequested: bool)
    | Unavailable(generation: int, executionHandle: string, message: string, mode: Mode)

  datatype State = State(
    step: Step,
    deviceHandle: Option<string>,
    facts: Option<Facts>,
    plans: Option<Match>,
    devicePlan: Option<string>,
    selectedRecipes: Option<seq<RecipeId>>,
    bindings: map<string, Value>,
    description: Option<Description>,
    descriptionDirty: bool,
    review: Option<ReviewSummary>,
    reviewStale: bool,
    requestGeneration: int,
    executionGeneration: int,
    execution: ExecutionState,
    repairIntent: bool,
    portableIntentDirty: bool,
    savedIntentLoaded: bool,
    requiredReentryBindings: seq<string>,
    reconnectDeviceHandle: Option<string>,
    unsupportedAcknowledged: bool)

  const INITIAL: State := State(
    Connect, None, None, None, None, None, map[], None, false, None, false, 0, 0, Idle,
    false, false, false, [], None, false)

  datatype RecipeSelection = Preserve | Defaults | Blank

  datatype Action =
    | SelectDevice(handle: string, preserveIntent: Option<bool>)
    | DeviceProbed(facts: Facts, plans: Match)
    | SelectPlan(plan: string, recipeSelection: Option<RecipeSelection>)
    | Describe(description: Description, generation: int)
    | SetRecipes(recipes: seq<RecipeId>)
    | ContinueToInputs
    | SetBinding(key: string, value: Value)
    | RemoveBinding(key: string)
    | SetReview(review: ReviewSummary)
    | ExecutionStarting(generation: int, mode: Option<Mode>)
    | ExecutionStarted(generation: int, snapshot: Snapshot)
    | ExecutionStartFailed(generation: int)
    | ExecutionSnapshot(generation: int, snapshot: Snapshot)
    | ExecutionEvents(generation: int, executionHandle: string, events: seq<EventLog.Event>)
    | ExecutionCancellationRequested(generation: int)
    | ExecutionUnavailable(generation: int, executionHandle: string, message: string)
    | PrepareRepair
    | LoadPortableIntent(plan: string, recipes: seq<RecipeId>, bindings: map<string, Value>, dirty: bool,
                         reentry: Option<seq<string>>)
    | PortableIntentSaved
    | RepairReady(facts: Facts, plans: Match, plan: string, description: Description, recipes: seq<RecipeId>,
                  bindings: map<string, Value>)
    | ReturnToReview
    | Back
    | DeviceDisappeared(keptBindings: Option<map<string, Value>>, reentry: Option<seq<string>>)
    | SetUnsupportedAcknowledgment(acknowledged: bool)
    | ContinueUnsupported
    | InfrastructureInvalidated
    | RuntimeInvalidated

  // ---- The helpers the reducer calls ----------------------------------------------

  function PreviousStep(step: Step): Step {
    match step
    case Connect => Connect
    case Device => Connect
    case Setup => Connect
    case Recipes => Setup
    case Inputs => Recipes
    case Review => Inputs
    case Execution => Review
  }

  predicate DeviceIsUnsupported(plans: Match) {
    plans.confidence == "none"
  }

  predicate PlanStillAvailable(plan: Option<string>, plans: Match) {
    plan.Some? && plan.value != "" && plan.value in plans.candidates + plans.safeGenericPlans
  }

  /** `new Map(options.map(...))`: a later option with the same id replaces an earlier one. */
  function DependencyMap(options: seq<RecipeOption>): Dependencies {
    if options == [] then map[]
    else
      var last := options[|options| - 1];
      DependencyMap(options[..|options| - 1])[last.id := last.recipeDependencies]
  }

  /** The input a key is looked up to: the last one declaring it. */
  function InputFor(inputs: seq<Input>, key: string): Option<Input> {
    if inputs == [] then None
    else if inputs[|inputs| - 1].key == key then Some(inputs[|inputs| - 1])
    else InputFor(inputs[..|inputs| - 1], key)
  }

  predicate InputIsActive(inputs: seq<Input>, active: set<RecipeId>, key: string) {
    var input := InputFor(inputs, key);
    input.Some? && input.value.recipeId in active
  }

  function BindingsForRecipeSelection(
      description: Option<Description>, selected: seq<RecipeId>, bindings: map<string, Value>): map<string, Value> {
    if description.None? then bindings
    else
      var active := ActiveRecipes(DependencyMap(description.value.recipeOptions), selected, {});
      map key | key in bindings && InputIsActive(description.value.inputs, active, key) :: bindings[key]
  }

  function KeepKeys(keys: seq<string>, kept: set<string>): seq<string> {
    if keys == [] then []
    else if keys[0] in kept then [keys[0]] + KeepKeys(keys[1..], kept)
    else KeepKeys(keys[1..], kept)
  }

  function DropKey(keys: seq<string>, dropped: string): seq<string> {
    if keys == [] then []
    else if keys[0] != dropped then [keys[0]] + DropKey(keys[1..], dropped)
    else DropKey(keys[1..], dropped)
  }

  function WithInputValue(description: Option<Description>, key: string, value: Value): Option<Description> {
    if description.None? then None
    else
      var inputs := description.value.inputs;
      Some(description.value.(inputs :=
             seq(|inputs|, i requires 0 <= i < |inputs| =>
               if inputs[i].key == key then inputs[i].(value := value) else inputs[i])))
  }

  function OrElse<T>(value: Option<T>, fallback: T): T {
    if value.Some? then value.value else fallback
  }

  predicate ResponseMatches(s: State, generation: int, executionHandle: string) {
    && s.executionGeneration == generation
    && s.execution.Live?
    && s.execution.snapshot.executionHandle == executionHandle
  }

  predicate KeepsIntent(s: State, a: Action)
    requires a.SelectDevice?
  {
    || a.preserveIntent == Some(true)
    || (a.preserveIntent == None
        && (s.reconnectDeviceHandle == Some(a.handle) || s.repairIntent || s.savedIntentLoaded))
  }

  /** The sole permitted sequence regression: the runtime behind a real execution is gone. */
  predicate AuthoritativeRuntimeLoss(current: ExecutionState, next: Snapshot)
    requires current.Live?
  {
    && !current.terminal
    && current.mode.Real?
    && !next.simulated
    && next.terminal
    && next.terminalResolution == Some("runtime_lost")
  }

  function ApplySnapshot(s: State, next: Snapshot): State
    requires s.execution.Live?
  {
    var current := s.execution;
    if next.latestSequence < current.snapshot.latestSequence && !AuthoritativeRuntimeLoss(current, next) then s
    else if current.terminal && !next.terminal then s
    else s.(execution := current.(terminal := next.terminal, snapshot := next))
  }

  function EditBindings(s: State, key: string, bindings: map<string, Value>, shown: Value): State {
    s.(bindings := bindings,
       description := WithInputValue(s.description, key, shown),
       descriptionDirty := true,
       review := None,
       portableIntentDirty := true,
       requiredReentryBindings := DropKey(s.requiredReentryBindings, key),
       requestGeneration := s.requestGeneration + 1)
  }

  // ---- The reducer ------------------------------------------------------------------
  // The source's single switch, cut into three by what an action is about.

  predicate IsIntentAction(a: Action) {
    || a.SelectPlan? || a.Describe? || a.SetRecipes? || a.ContinueToInputs? || a.SetBinding?
    || a.RemoveBinding? || a.SetReview? || a.PortableIntentSaved? || a.Back?
  }

  predicate IsExecutionAction(a: Action) {
    || a.ExecutionStarting? || a.ExecutionStarted? || a.ExecutionStartFailed? || a.ExecutionSnapshot?
    || a.ExecutionEvents? || a.ExecutionCancellationRequested? || a.ExecutionUnavailable? || a.ReturnToReview?
  }

  /** What a description request was made for. */
  ghost predicate SameRequestValues(s: State, t: State) {
    && s.deviceHandle == t.deviceHandle
    && s.bindings == t.bindings
    && s.requiredReentryBindings == t.requiredReentryBindings
  }

  ghost predicate SameIntent(s: State, t: State) {
    s.deviceHandle == t.deviceHandle && s.bindings == t.bindings && s.selectedRecipes == t.selectedRecipes
  }

  function ReduceIntent(s: State, a: Action): (t: State)
    requires IsIntentAction(a)
    ensures t.execution == s.execution && t.executionGeneration == s.executionGeneration
    ensures t.requestGeneration >= s.requestGeneration
    ensures t.requestGeneration == s.requestGeneration ==> SameRequestValues(s, t)
    ensures !SameIntent(s, t) ==> t.review.None?
  {
    match a
    case SelectPlan(plan, recipeSelection) =>
      s.(devicePlan := Some(plan),
         selectedRecipes :=
           if recipeSelection == Some(Defaults) then None
           else if recipeSelection == Some(Blank) then Some([])
           else s.selectedRecipes,
         description := None,
         descriptionDirty := true,
         review := None,
         repairIntent := false,
         portableIntentDirty := true,
         requestGeneration := s.requestGeneration + 1)
    case Describe(description, generation) =>
      if generation != s.requestGeneration then s
      else
        s.(step := if s.step == Inputs then Inputs else Recipes,
           description := Some(description),
           descriptionDirty := false,
           selectedRecipes := Some(description.selectedRecipes),
           review := None,
           repairIntent := false)
    case SetRecipes(recipes) =>
      var bindings := BindingsForRecipeSelection(s.description, recipes, s.bindings);
      s.(selectedRecipes := Some(recipes),
         bindings := bindings,
         requiredReentryBindings := KeepKeys(s.requiredReentryBindings, bindings.Keys),
         descriptionDirty := true,
         review := None,
         portableIntentDirty := true,
         requestGeneration := s.requestGeneration + 1)
    case ContinueToInputs =>
      if s.description.None? || s.descriptionDirty || s.description.value.selectedRecipes == [] then s
      else s.(step := Inputs, review := None)
    case SetBinding(key, value) => EditBindings(s, key, s.bindings[key := value], value)
    case RemoveBinding(key) => EditBindings(s, key, s.bindings - {key}, Null)
    case SetReview(review) => s.(step := Review, review := Some(review), reviewStale := false)
    case PortableIntentSaved => s.(portableIntentDirty := false)
    case Back =>
      s.(step := if s.step == Setup && s.plans.Some? && DeviceIsUnsupported(s.plans.value) then Device
                 else PreviousStep(s.step),
         review := None,
         unsupportedAcknowledged := if s.step == Setup then false else s.unsupportedAcknowledged)
  }

  function ReduceExecution(s: State, a: Action): (t: State)
    requires IsExecutionAction(a)
    ensures t.requestGeneration == s.requestGeneration && SameRequestValues(s, t) && SameIntent(s, t)
    ensures t.executionGeneration >= s.executionGeneration
    ensures s.execution.Idle? || s.execution.generation == s.executionGeneration
            ==> t.execution.Idle? || t.execution.generation == t.executionGeneration
    ensures !a.ExecutionEvents? && t.execution.Live? ==>
              || t.execution.events == []
              || (s.execution.Live? && t.execution.events == s.execution.events
                  && t.execution.eventCursor == s.execution.eventCursor)
    ensures t.review.Some? ==> t.review == s.review
  {
    match a
    case ExecutionStarting(generation, mode) =>
      if s.review.None? || s.reviewStale || generation <= s.executionGeneration then s
      else s.(executionGeneration := generation, execution := Starting(generation, OrElse(mode, Simulated)))
    case ExecutionStarted(generation, snapshot) =>
      if !s.execution.Starting? || s.executionGeneration != generation then s
      else
        s.(step := Execution,
           execution := Live(snapshot.terminal, generation, snapshot,
                             if snapshot.simulated then Simulated else Real, [], 0, false))
    case ExecutionStartFailed(generation) =>
      if !s.execution.Starting? || s.executionGeneration != generation then s
      else s.(step := Review, execution := Idle)
    case ExecutionSnapshot(generation, snapshot) =>
      if !ResponseMatches(s, generation, snapshot.executionHandle) then s
      else ApplySnapshot(s, snapshot)
    case ExecutionEvents(generation, executionHandle, events) =>
      if !ResponseMatches(s, generation, executionHandle) then s
      else
        var merged := EventLog.Merge(s.execution.events, events, s.execution.eventCursor);
        s.(execution := s.execution.(events := merged.events, eventCursor := merged.cursor))
    case ExecutionCancellationRequested(generation) =>
      if !s.execution.Live? || s.execution.terminal || s.executionGeneration != generation then s
      else s.(execution := s.execution.(cancellationRequested := true))
    case ExecutionUnavailable(generation, executionHandle, message) =>
      if !ResponseMatches(s, generation, executionHandle) then s
      else
        s.(step := Execution,
           review := if s.execution.mode.Real? then None else s.review,
           execution := Unavailable(generation, executionHandle, message, s.execution.mode))
    case ReturnToReview =>
      if s.review.None? then s
      else
        var stale := s.execution.Unavailable?
                     || (s.execution.Live? && s.execution.terminal
                         && s.execution.snapshot.status != "succeeded"
                         && s.execution.snapshot.status != "succeeded_with_warnings");
        s.(step := Review, execution := Idle, reviewStale := s.reviewStale || stale)
  }

  /** The actions that rebuild the state without carrying the execution generation over. */
  predicate ResetsExecutionGeneration(s: State, a: Action) {
    a.RuntimeInvalidated? || (a.SelectDevice? && !KeepsIntent(s, a))
  }

  function ReduceDevice(s: State, a: Action): (t: State)
    requires !IsIntentAction(a) && !IsExecutionAction(a)
    ensures (t.execution == s.execution && t.executionGeneration == s.executionGeneration) || t.execution.Idle?
    ensures t.executionGeneration < s.executionGeneration
            <==> ResetsExecutionGeneration(s, a) && s.executionGeneration > 0
    ensures t.requestGeneration >= s.requestGeneration
    ensures t.requestGeneration == s.requestGeneration ==> SameRequestValues(s, t)
    ensures !SameIntent(s, t) ==> t.review.None?
    ensures t.review.Some? ==> t.review == s.review
  {
    match a
    case SelectDevice(handle, _) =>
      if KeepsIntent(s, a) then
        s.(step := Device, deviceHandle := Some(handle), facts := None, plans := None, description := None,
           review := None, execution := Idle, unsupportedAcknowledged := false,
           requestGeneration := s.requestGeneration + 1)
      else
        INITIAL.(step := Device, deviceHandle := Some(handle), requestGeneration := s.requestGeneration + 1)
    case DeviceProbed(facts, plans) =>
      if s.deviceHandle != Some(facts.deviceHandle) then s
      else
        s.(step := if DeviceIsUnsupported(plans) then Device else Setup,
           facts := Some(facts),
           plans := Some(plans),
           devicePlan :=
             if DeviceIsUnsupported(plans) then None
             else if s.savedIntentLoaded then s.devicePlan
             else if s.repairIntent && PlanStillAvailable(s.devicePlan, plans) then s.devicePlan
             else plans.recommendedPlanId,
           reconnectDeviceHandle := None,
           unsupportedAcknowledged := false)
    case SetUnsupportedAcknowledgment(acknowledged) =>
      if s.plans.None? || !DeviceIsUnsupported(s.plans.value) then s
      else s.(unsupportedAcknowledged := acknowledged)
    case ContinueUnsupported =>
      if s.plans.None? || !DeviceIsUnsupported(s.plans.value) || s.plans.value.safeGenericPlans == [] then s
      else if !s.unsupportedAcknowledged then s
      else s.(step := Setup, devicePlan := None)
    case PrepareRepair =>
      s.(step := if s.deviceHandle.Some? && s.deviceHandle.value != "" then Device else Connect,
         facts := None, plans := None, description := None, descriptionDirty := true, review := None,
         requestGeneration := s.requestGeneration + 1,
         executionGeneration := s.executionGeneration + 1,
         execution := Idle, repairIntent := true)
    case LoadPortableIntent(plan, recipes, bindings, dirty, reentry) =>
      INITIAL.(step := Connect,
               devicePlan := Some(plan),
               selectedRecipes := Some(recipes),
               bindings := bindings,
               descriptionDirty := true,
               portableIntentDirty := dirty,
               savedIntentLoaded := true,
               requiredReentryBindings := OrElse(reentry, []),
               requestGeneration := s.requestGeneration + 1,
               executionGeneration := s.executionGeneration + 1)
    case RepairReady(facts, plans, plan, description, recipes, bindings) =>
      s.(step := Inputs,
         deviceHandle := Some(facts.deviceHandle),
         facts := Some(facts),
         plans := Some(plans),
         devicePlan := Some(plan),
         selectedRecipes := Some(recipes),
         bindings := bindings,
         description := Some(description),
         descriptionDirty := false,
         review := None,
         requestGeneration := s.requestGeneration + 1,
         execution := Idle,
         repairIntent := false,
         portableIntentDirty := true)
    case DeviceDisappeared(keptBindings, reentry) =>
      if s.step == Execution || s.execution.Starting? then s
      else
        s.(step := Connect,
           reconnectDeviceHandle := s.deviceHandle,
           deviceHandle := None,
           facts := None, plans := None, description := None, descriptionDirty := true, review := None,
           executionGeneration := s.executionGeneration + 1,
           execution := Idle,
           repairIntent := true,
           bindings := OrElse(keptBindings, s.bindings),
           requiredReentryBindings := OrElse(reentry, s.requiredReentryBindings),
           unsupportedAcknowledged := false,
           requestGeneration := s.requestGeneration + 1)
    case InfrastructureInvalidated =>
      s.(step := Connect,
         deviceHandle := None, facts := None, plans := None, description := None, descriptionDirty := true,
         review := None,
         executionGeneration := s.executionGeneration + 1,
         execution := Idle,
         repairIntent := false,
         reconnectDeviceHandle := s.deviceHandle,
         unsupportedAcknowledged := false,
         requestGeneration := s.requestGeneration + 1)
    case RuntimeInvalidated => INITIAL.(requestGeneration := s.requestGeneration + 1)
  }

  function Reduce(s: State, a: Action): State {
    if IsIntentAction(a) then ReduceIntent(s, a)
    else if IsExecutionAction(a) then ReduceExecution(s, a)
    else ReduceDevice(s, a)
  }

  function Run(s: State, actions: seq<Action>): State
    decreases |actions|
  {
    if actions == [] then s else Run(Reduce(s, actions[0]), actions[1..])
  }

  // ---- The request fence ----------------------------------------------------------

  lemma StepFencesRequests(s: State, a: Action)
    ensures Reduce(s, a).requestGeneration >= s.requestGeneration
    ensures Reduce(s, a).requestGeneration == s.requestGeneration ==> SameRequestValues(s, Reduce(s, a))
  {
  }

  /** Along any run the generation never falls, and the request values are a function of it. */
  lemma {:induction false} RunFencesRequests(s: State, actions: seq<Action>)
    ensures Run(s, actions).requestGeneration >= s.requestGeneration
    ensures Run(s, actions).requestGeneration == s.requestGeneration ==> SameRequestValues(s, Run(s, actions))
    decreases |actions|
  {
    if actions != [] {
      StepFencesRequests(s, actions[0]);
      RunFencesRequests(Reduce(s, actions[0]), actions[1..]);
    }
  }

  /** A description that is accepted, however late, was requested for the values now held. */
  lemma AcceptedDescriptionIsCurrent(requested: State, actions: seq<Action>, d: Description)
    requires var now := Run(requested, actions);
             Reduce(now, Describe(d, requested.requestGeneration)) != now
    ensures SameRequestValues(requested, Run(requested, actions))
  {
    RunFencesRequests(requested, actions);
  }

  // ---- The review describes the intent now held -----------------------------------

  lemma ChangedIntentClearsReview(s: State, a: Action)
    ensures !SameIntent(s, Reduce(s, a)) ==> Reduce(s, a).review.None?
    ensures !a.SetReview? && Reduce(s, a).review.Some? ==> Reduce(s, a).review == s.review
  {
  }

  /** A review still shown after any actions other than a new one is the old one, over an unchanged intent. */
  lemma {:induction false} ShownReviewDescribesTheIntent(s: State, actions: seq<Action>)
    requires forall a :: a in actions ==> !a.SetReview?
    requires Run(s, actions).review.Some?
    ensures Run(s, actions).review == s.review && SameIntent(s, Run(s, actions))
    decreases |actions|
  {
    if actions != [] {
      assert actions[0] in actions;
      ChangedIntentClearsReview(s, actions[0]);
      ShownReviewDescribesTheIntent(Reduce(s, actions[0]), actions[1..]);
    }
  }

  // ---- Executions -----------------------------------------------------------------

  ghost predicate ExecutionIsFenced(s: State) {
    && (!s.execution.Idle? ==> s.execution.generation == s.executionGeneration)
    && (s.execution.Live? ==>
          && EventLog.StrictlySorted(s.execution.events)
          && forall e :: e in s.execution.events ==> e.sequence <= s.execution.eventCursor)
  }

  lemma MergedLogStaysSorted(current: seq<EventLog.Event>, incoming: seq<EventLog.Event>, cursor: int)
    requires EventLog.StrictlySorted(current) && forall e :: e in current ==> e.sequence <= cursor
    ensures var merged := EventLog.Merge(current, incoming, cursor);
            EventLog.StrictlySorted(merged.events) && forall e :: e in merged.events ==> e.sequence <= merged.cursor
  {
    EventLog.IndexedFiles(current);
    var index := EventLog.Indexed(current);
    EventLog.SortedHoldsExactly(EventLog.WithIncoming(index, incoming, cursor));
    EventLog.CursorIsGreatest(incoming, cursor);
    IncomingStaysBelowCursor(index, incoming, cursor);
  }

  lemma {:induction false} IncomingStaysBelowCursor(
      index: set<EventLog.Event>, incoming: seq<EventLog.Event>, cursor: int)
    requires EventLog.DistinctSequences(index) && forall e :: e in index ==> e.sequence <= cursor
    ensures cursor <= EventLog.CursorAfter(incoming, cursor)
    ensures forall e :: e in EventLog.WithIncoming(index, incoming, cursor)
              ==> e.sequence <= EventLog.CursorAfter(incoming, cursor)
  {
    if incoming != [] {
      IncomingStaysBelowCursor(index, incoming[..|incoming| - 1], cursor);
    }
  }

  lemma StepKeepsExecutionFenced(s: State, a: Action)
    requires ExecutionIsFenced(s)
    ensures ExecutionIsFenced(Reduce(s, a))
  {
    if a.ExecutionEvents? {
      if ResponseMatches(s, a.generation, a.executionHandle) {
        MergedLogStaysSorted(s.execution.events, a.events, s.execution.eventCursor);
      }
    }
  }

  /** In every reachable state a non-idle execution carries the current generation and a sorted event log. */
  lemma {:induction false} ReachableExecutionIsFenced(s: State, actions: seq<Action>)
    requires ExecutionIsFenced(s)
    ensures ExecutionIsFenced(Run(s, actions))
    decreases |actions|
  {
    if actions != [] {
      StepKeepsExecutionFenced(s, actions[0]);
      ReachableExecutionIsFenced(Reduce(s, actions[0]), actions[1..]);
    }
  }

  /** Every state of the run, ends included, shows an execution that is active or terminal. */
  ghost predicate LiveThroughout(s: State, actions: seq<Action>)
    decreases |actions|
  {
    s.execution.Live? && (actions == [] || LiveThroughout(Reduce(s, actions[0]), actions[1..]))
  }

  predicate SequenceFalls(s: State, t: State) {
    s.execution.Live? && t.execution.Live?
    && t.execution.snapshot.latestSequence < s.execution.snapshot.latestSequence
  }

  function SequenceFallsIn(s: State, actions: seq<Action>): nat
    decreases |actions|
  {
    if actions == [] then 0
    else
      (if SequenceFalls(s, Reduce(s, actions[0])) then 1 else 0) + SequenceFallsIn(Reduce(s, actions[0]), actions[1..])
  }

  /** One step of a live execution: same handle, terminal stays, and a fall is a runtime loss that ends it. */
  lemma LiveStep(s: State, a: Action)
    requires s.execution.Live? && Reduce(s, a).execution.Live?
    ensures var t := Reduce(s, a);
            && t.execution.snapshot.executionHandle == s.execution.snapshot.executionHandle
            && t.execution.generation == s.execution.generation
            && (s.execution.terminal ==> t.execution.terminal)
            && (SequenceFalls(s, t) ==>
                  && a.ExecutionSnapshot? && AuthoritativeRuntimeLoss(s.execution, a.snapshot)
                  && !s.execution.terminal && t.execution.terminal)
  {
    if IsExecutionAction(a) {
      LiveExecutionStep(s, a);
    } else {
      assert Reduce(s, a).execution == s.execution || Reduce(s, a).execution.Idle?;
    }
  }

  lemma LiveExecutionStep(s: State, a: Action)
    requires IsExecutionAction(a) && s.execution.Live? && ReduceExecution(s, a).execution.Live?
    ensures var t := ReduceExecution(s, a);
            && t.execution.snapshot.executionHandle == s.execution.snapshot.executionHandle
            && t.execution.generation == s.execution.generation
            && (s.execution.terminal ==> t.execution.terminal)
            && (SequenceFalls(s, t) ==>
                  && a.ExecutionSnapshot? && AuthoritativeRuntimeLoss(s.execution, a.snapshot)
                  && !s.execution.terminal && t.execution.terminal)
  {
    if a.ExecutionStarted? {
      assert ReduceExecution(s, a) == s;
    }
  }

  /**
   While one execution is shown its handle and generation are fixed, terminal is
   never left, and its sequence number falls at most once: at a runtime loss,
   after which the execution is terminal.
   */
  lemma {:induction false} LiveRun(s: State, actions: seq<Action>)
    requires LiveThroughout(s, actions)
    ensures var t := Run(s, actions);
            && t.execution.Live?
            && t.execution.snapshot.executionHandle == s.execution.snapshot.executionHandle
            && t.execution.generation == s.execution.generation
            && (s.execution.terminal ==> t.execution.terminal)
            && SequenceFallsIn(s, actions) <= (if s.execution.terminal then 0 else 1)
            && (SequenceFallsIn(s, actions) == 1 ==> t.execution.terminal)
            && (SequenceFallsIn(s, actions) == 0 ==>
                  s.execution.snapshot.latestSequence <= t.execution.snapshot.latestSequence)
    decreases |actions|
  {
    if actions != [] {
      LiveStep(s, actions[0]);
      LiveRun(Reduce(s, actions[0]), actions[1..]);
    }
  }

  /** An event batch for the shown execution was requested after a cursor its log had already reached. */
  ghost predicate BatchIsRequested(s: State, a: Action, server: seq<EventLog.Event>) {
    s.execution.Live? && a.ExecutionEvents? && ResponseMatches(s, a.generation, a.executionHandle) ==>
      exists after: int, written: nat ::
        written <= |server| && after <= s.execution.eventCursor && EventLog.IsBatch(a.events, server, after, written)
  }

  ghost predicate BatchesAreRequested(s: State, actions: seq<Action>, server: seq<EventLog.Event>)
    decreases |actions|
  {
    actions == []
    || (BatchIsRequested(s, actions[0], server) && BatchesAreRequested(Reduce(s, actions[0]), actions[1..], server))
  }

  /** While an execution is shown its log is the server's log up to its cursor, whatever else is dispatched. */
  lemma {:induction false} ShownLogIsTheServerLog(s: State, actions: seq<Action>, server: seq<EventLog.Event>)
    requires EventLog.IsServerLog(server)
    requires LiveThroughout(s, actions) && BatchesAreRequested(s, actions, server)
    requires s.execution.events == EventLog.UpTo(server, s.execution.eventCursor)
    ensures var t := Run(s, actions);
            && t.execution.Live?
            && t.execution.events == EventLog.UpTo(server, t.execution.eventCursor)
            && t.execution.eventCursor >= s.execution.eventCursor
    decreases |actions|
  {
    if actions != [] {
      var a, t := actions[0], Reduce(s, actions[0]);
      assert t.execution.Live?;
      if a.ExecutionEvents? {
        if ResponseMatches(s, a.generation, a.executionHandle) {
          assert BatchIsRequested(s, a, server);
          var after: int, written: nat :|
            && written <= |server| && after <= s.execution.eventCursor
            && EventLog.IsBatch(a.events, server, after, written);
          EventLog.MergeExtendsTheRestriction(server, s.execution.eventCursor, a.events, after, written);
        }
      } else {
        LiveStepKeepsTheLog(s, a);
      }
      ShownLogIsTheServerLog(t, actions[1..], server);
    }
  }

  lemma LiveStepKeepsTheLog(s: State, a: Action)
    requires s.execution.Live? && Reduce(s, a).execution.Live? && !a.ExecutionEvents?
    ensures Reduce(s, a).execution.events == s.execution.events
    ensures Reduce(s, a).execution.eventCursor == s.execution.eventCursor
  {
    if IsExecutionAction(a) {
      ExecutionStepKeepsTheLog(s, a);
    } else {
      assert Reduce(s, a).execution == s.execution || Reduce(s, a).execution.Idle?;
    }
  }

  lemma ExecutionStepKeepsTheLog(s: State, a: Action)
    requires IsExecutionAction(a) && !a.ExecutionEvents?
    requires s.execution.Live? && ReduceExecution(s, a).execution.Live?
    ensures ReduceExecution(s, a).execution.events == s.execution.events
    ensures ReduceExecution(s, a).execution.eventCursor == s.execution.eventCursor
  {
    if a.ExecutionStarted? {
      assert ReduceExecution(s, a) == s;
    } else if a.ExecutionSnapshot? {
      assert ReduceExecution(s, a) == s || ReduceExecution(s, a) == ApplySnapshot(s, a.snapshot);
    }
  }

  // ---- The execution generation is reset, so its fence is not absolute --------------

  predicate StartsExecution(s: State, a: Action) {
    a.ExecutionStarting? && s.review.Some? && !s.reviewStale && a.generation > s.executionGeneration
  }

  lemma GenerationFallsIffReset(s: State, a: Action)
    ensures Reduce(s, a).executionGeneration < s.executionGeneration
            <==> ResetsExecutionGeneration(s, a) && s.executionGeneration > 0
    ensures StartsExecution(s, a) ==> Reduce(s, a).executionGeneration > s.executionGeneration
  {
    if a.ExecutionStarting? {
    } else if IsIntentAction(a) || IsExecutionAction(a) {
      assert Reduce(s, a).executionGeneration >= s.executionGeneration;
    }
  }

  ghost predicate NeverResets(s: State, actions: seq<Action>)
    decreases |actions|
  {
    actions == [] || (!ResetsExecutionGeneration(s, actions[0]) && NeverResets(Reduce(s, actions[0]), actions[1..]))
  }

  ghost predicate StartsAnother(s: State, actions: seq<Action>)
    decreases |actions|
  {
    actions != [] && (StartsExecution(s, actions[0]) || StartsAnother(Reduce(s, actions[0]), actions[1..]))
  }

  /** Without a reset, a start response whose generation still matches belongs to the only start made since. */
  lemma {:induction false} StartResponseIsOwnWithoutReset(s: State, actions: seq<Action>)
    requires NeverResets(s, actions)
    ensures Run(s, actions).executionGeneration >= s.executionGeneration
    ensures Run(s, actions).executionGeneration == s.executionGeneration ==> !StartsAnother(s, actions)
    decreases |actions|
  {
    if actions != [] {
      GenerationFallsIffReset(s, actions[0]);
      StartResponseIsOwnWithoutReset(Reduce(s, actions[0]), actions[1..]);
    }
  }

  /** Review and start, numbered from the generation then seen as `useExecution.ts` does. */
  function ReviewAndStart(s: State, review: ReviewSummary): State {
    Reduce(Reduce(s, SetReview(review)), ExecutionStarting(s.executionGeneration + 1, None))
  }

  lemma ReviewAndStartNumbers(s: State, review: ReviewSummary)
    ensures ReviewAndStart(s, review).execution == Starting(s.executionGeneration + 1, Simulated)
    ensures ReviewAndStart(s, review).executionGeneration == s.executionGeneration + 1
  {
    var reviewed := Reduce(s, SetReview(review));
    assert reviewed.review.Some? && !reviewed.reviewStale && reviewed.executionGeneration == s.executionGeneration;
  }

  lemma MatchingStartIsShown(s: State, snapshot: Snapshot)
    requires s.execution.Starting?
    ensures var shown := Reduce(s, ExecutionStarted(s.executionGeneration, snapshot));
            shown.execution.Live? && shown.execution.snapshot == snapshot
  {
  }

  /**
   With a reset it can fail: the late response of a start made before the
   runtime was invalidated is shown as the execution of the start made after.
   */
  lemma LateStartResponseAdoptedAfterReset(review: ReviewSummary, stale: Snapshot)
    ensures var first := ReviewAndStart(INITIAL, review);
            var second := ReviewAndStart(Reduce(first, RuntimeInvalidated), review);
            var shown := Reduce(second, ExecutionStarted(first.executionGeneration, stale));
            && first.execution.Starting? && second.execution.Starting?
            && shown.execution.Live? && shown.execution.snapshot == stale
  {
    ReviewAndStartNumbers(INITIAL, review);
    var reset := Reduce(ReviewAndStart(INITIAL, review), RuntimeInvalidated);
    assert reset.executionGeneration == 0;
    ReviewAndStartNumbers(reset, review);
    MatchingStartIsShown(ReviewAndStart(reset, review), stale);
  }

  lemma OnlyStartsStart(s: State, a: Action)
    requires !s.execution.Starting? && !StartsExecution(s, a)
    ensures !Reduce(s, a).execution.Starting?
  {
    if IsExecutionAction(a) {
      assert ReduceExecution(s, a).execution == s.execution || !ReduceExecution(s, a).execution.Starting?;
    }
  }

  lemma {:induction false} StartingTakesAStart(s: State, actions: seq<Action>)
    requires !s.execution.Starting? && Run(s, actions).execution.Starting?
    ensures StartsAnother(s, actions)
    decreases |actions|
  {
    if actions != [] && !StartsExecution(s, actions[0]) {
      OnlyStartsStart(s, actions[0]);
      StartingTakesAStart(Reduce(s, actions[0]), actions[1..]);
    }
  }

  /** A reset ends the pending start, so a later pending start is another one. */
  lemma {:induction false} ResetMeansAnotherStart(s: State, actions: seq<Action>)
    requires !NeverResets(s, actions) && Run(s, actions).execution.Starting?
    ensures StartsAnother(s, actions)
    decreases |actions|
  {
    var next := Reduce(s, actions[0]);
    if ResetsExecutionGeneration(s, actions[0]) {
      assert !next.execution.Starting?;
      StartingTakesAStart(next, actions[1..]);
    } else {
      ResetMeansAnotherStart(next, actions[1..]);
    }
  }

  /** The response to the start pending in `s`, arriving after `actions`, is shown as another start's execution. */
  ghost predicate TakenByAnother(s: State, actions: seq<Action>, response: Snapshot) {
    var now := Run(s, actions);
    var shown := Reduce(now, ExecutionStarted(s.executionGeneration, response));
    StartsAnother(s, actions) && now.execution.Starting?
    && shown.execution.Live? && shown.execution.snapshot == response
  }

  /**
   The exact condition over what happened since: a start response is taken by
   another start if and only if a start with its number is pending when it
   arrives and there was a reset in between.
   */
  lemma StartResponseTakenByAnotherIff(s: State, actions: seq<Action>, response: Snapshot)
    ensures var now := Run(s, actions);
            TakenByAnother(s, actions, response)
            <==> now.execution.Starting? && now.executionGeneration == s.executionGeneration && !NeverResets(s, actions)
  {
    var now := Run(s, actions);
    if now.execution.Starting? {
      if now.executionGeneration == s.executionGeneration {
        MatchingStartIsShown(now, response);
        if NeverResets(s, actions) {
          StartResponseIsOwnWithoutReset(s, actions);
        } else {
          ResetMeansAnotherStart(s, actions);
        }
      } else {
        assert Reduce(now, ExecutionStarted(s.executionGeneration, response)) == now;
      }
    }
  }

  /** Every start is one `useExecution.ts` makes: next in number, with a review, while none is starting. */
  ghost predicate StartsInNumber(s: State, actions: seq<Action>)
    decreases |actions|
  {
    actions != [] ==>
      && (actions[0].ExecutionStarting? ==>
            actions[0].generation == s.executionGeneration + 1 && s.review.Some? && !s.execution.Starting?)
      && StartsInNumber(Reduce(s, actions[0]), actions[1..])
  }

  /** After `actions`, made without a reset, the response to an old start numbered `g` is taken for a newer start's. */
  ghost predicate Adopts(s: State, actions: seq<Action>, g: int, stale: Snapshot) {
    && NeverResets(s, actions) && StartsInNumber(s, actions) && StartsAnother(s, actions)
    && var now := Run(s, actions);
       now.execution.Starting?
       && Reduce(now, ExecutionStarted(g, stale)).execution.Live?
       && Reduce(now, ExecutionStarted(g, stale)).execution.snapshot == stale
  }

  /** From any state: the start now pending fails, a review is shown, and the next execution starts. */
  function StartNext(s: State, review: ReviewSummary): seq<Action> {
    [ExecutionStartFailed(s.executionGeneration), SetReview(review), ExecutionStarting(s.executionGeneration + 1, None)]
  }

  lemma StartNextStarts(s: State, review: ReviewSummary)
    ensures var t := Run(s, StartNext(s, review));
            t.execution.Starting? && t.executionGeneration == s.executionGeneration + 1
    ensures NeverResets(s, StartNext(s, review)) && StartsInNumber(s, StartNext(s, review))
    ensures StartsAnother(s, StartNext(s, review))
  {
    var actions := StartNext(s, review);
    var s1 := Reduce(s, actions[0]);
    var s2 := Reduce(s1, actions[1]);
    var s3 := Reduce(s2, actions[2]);
    assert !s1.execution.Starting? && s1.executionGeneration == s.executionGeneration;
    assert s2.review.Some? && !s2.reviewStale && s2.executionGeneration == s.executionGeneration;
    assert actions[1..][1..] == [actions[2]] && [actions[2]][1..] == [];
    assert Run(s, actions) == Run(s1, actions[1..]) == Run(s2, [actions[2]]) == Run(s3, []) == s3;
    assert StartsInNumber(s3, []) && StartsInNumber(s2, [actions[2]]) && StartsInNumber(s1, actions[1..]);
    assert StartsAnother(s2, [actions[2]]) && StartsAnother(s1, actions[1..]);
    assert NeverResets(s3, []) && NeverResets(s2, [actions[2]]) && NeverResets(s1, actions[1..]);
  }

  lemma {:induction false} RunsCompose(s: State, first: seq<Action>, more: seq<Action>)
    ensures Run(s, first + more) == Run(Run(s, first), more)
    ensures NeverResets(s, first) && NeverResets(Run(s, first), more) ==> NeverResets(s, first + more)
    ensures StartsInNumber(s, first) && StartsInNumber(Run(s, first), more) ==> StartsInNumber(s, first + more)
    ensures StartsAnother(s, first) ==> StartsAnother(s, first + more)
    decreases |first|
  {
    if first == [] {
      assert first + more == more;
    } else {
      assert (first + more)[1..] == first[1..] + more;
      RunsCompose(Reduce(s, first[0]), first[1..], more);
    }
  }

  /** Below the old number, failing starts one after another count up to it. */
  lemma {:induction false} CountingUpReaches(s: State, g: int, review: ReviewSummary) returns (actions: seq<Action>)
    requires s.executionGeneration < g
    ensures NeverResets(s, actions) && StartsInNumber(s, actions) && StartsAnother(s, actions)
    ensures Run(s, actions).execution.Starting? && Run(s, actions).executionGeneration == g
    decreases g - s.executionGeneration
  {
    actions := StartNext(s, review);
    StartNextStarts(s, review);
    var t := Run(s, actions);
    if t.executionGeneration < g {
      var more := CountingUpReaches(t, g, review);
      RunsCompose(s, actions, more);
      actions := actions + more;
    }
  }

  lemma PassedNumbersAreNotAdopted(s: State, actions: seq<Action>, g: int, stale: Snapshot)
    requires g <= s.executionGeneration
    ensures !Adopts(s, actions, g, stale)
  {
    if NeverResets(s, actions) {
      StartResponseIsOwnWithoutReset(s, actions);
      var now := Run(s, actions);
      assert now.executionGeneration != g ==> Reduce(now, ExecutionStarted(g, stale)) == now;
    }
  }

  /**
   The exact condition over what is still to come: the late response of a start
   numbered `g` can be taken for the response of a start made from now on,
   without a further reset, if and only if the counter stands below `g` now.
   */
  lemma LateStartResponseAdoptableIff(s: State, g: int, stale: Snapshot, review: ReviewSummary)
    ensures (exists actions :: Adopts(s, actions, g, stale)) <==> s.executionGeneration < g
  {
    if s.executionGeneration < g {
      var actions := CountingUpReaches(s, g, review);
      MatchingStartIsShown(Run(s, actions), stale);
      assert Adopts(s, actions, g, stale);
    } else {
      forall actions ensures !Adopts(s, actions, g, stale) {
        PassedNumbersAreNotAdopted(s, actions, g, stale);
      }
    }
  }

  // ---- Bindings kept by a recipe selection ------------------------------------------

  /** With a description present, exactly the bindings whose input belongs to a reachable recipe survive. */
  lemma SetRecipesKeepsReachableBindings(s: State, recipes: seq<RecipeId>, key: string)
    requires s.description.Some?
    ensures var d, t := s.description.value, Reduce(s, SetRecipes(recipes));
            && (key in t.bindings <==>
                  && key in s.bindings
                  && InputFor(d.inputs, key).Some?
                  && Reachable(DependencyMap(d.recipeOptions), Elements(recipes),
                               InputFor(d.inputs, key).value.recipeId))
            && (key in t.bindings ==> t.bindings[key] == s.bindings[key])
  {
    ActiveRecipesAreLeastClosure(DependencyMap(s.description.value.recipeOptions), recipes);
  }

  /** A larger selection never drops a binding that a smaller one keeps. */
  lemma LargerSelectionKeepsMore(s: State, smaller: seq<RecipeId>, larger: seq<RecipeId>, key: string)
    requires Elements(smaller) <= Elements(larger)
    requires key in Reduce(s, SetRecipes(smaller)).bindings
    ensures key in Reduce(s, SetRecipes(larger)).bindings
  {
    if s.description.Some? {
      LargerSelectionActivatesMore(DependencyMap(s.description.value.recipeOptions), smaller, larger);
    }
  }
}
