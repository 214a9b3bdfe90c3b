/**
 The workflow reducer of `workflow.ts`, read field by field: which actions
 change a field, when, and to what. The reducer is written action by action.
 */
module WorkflowFields {
  import opened Wrappers
  import opened RecipeClosure
  import opened Workflow
  import opened Sorting
  import EventLog

  // ---- When an action takes effect ---------------------------------------------------------

  /** The action is about the execution now shown. */
  ghost predicate IsAboutTheShown(s: State, generation: int, handle: string) {
    && s.execution.Live? && s.executionGeneration == generation
    && s.execution.snapshot.executionHandle == handle
  }

  ghost predicate IsForThePending(s: State, generation: int) {
    s.execution.Starting? && s.executionGeneration == generation
  }

  /** Not older than what is shown, unless the runtime of a real execution is gone; and never back to running. */
  ghost predicate Replaces(s: State, next: Snapshot)
    requires s.execution.Live?
  {
    && (|| s.execution.snapshot.latestSequence <= next.latestSequence
        || (!s.execution.terminal && s.execution.mode == Real && !next.simulated && next.terminal
            && next.terminalResolution == Some("runtime_lost")))
    && (s.execution.terminal ==> next.terminal)
  }

  ghost predicate NoPlanFits(s: State) {
    s.plans.Some? && s.plans.value.confidence == "none"
  }

  ghost predicate TakesEffect(s: State, a: Action) {
    match a
    case DeviceProbed(facts, _) => s.deviceHandle == Some(facts.deviceHandle)
    case Describe(_, generation) => generation == s.requestGeneration
    case ContinueToInputs =>
      s.description.Some? && !s.descriptionDirty && s.description.value.selectedRecipes != []
    case ExecutionStarting(generation, _) =>
      s.review.Some? && !s.reviewStale && generation > s.executionGeneration
    case ExecutionStarted(generation, _) => IsForThePending(s, generation)
    case ExecutionStartFailed(generation) => IsForThePending(s, generation)
    case ExecutionSnapshot(generation, next) =>
      IsAboutTheShown(s, generation, next.executionHandle) && Replaces(s, next)
    case ExecutionEvents(generation, handle, _) => IsAboutTheShown(s, generation, handle)
    case ExecutionCancellationRequested(generation) =>
      s.execution.Live? && !s.execution.terminal && s.executionGeneration == generation
    case ExecutionUnavailable(generation, handle, _) => IsAboutTheShown(s, generation, handle)
    case ReturnToReview => s.review.Some?
    case DeviceDisappeared(_, _) => s.step != Execution && !s.execution.Starting?
    case SetUnsupportedAcknowledgment(_) => NoPlanFits(s)
    case ContinueUnsupported =>
      NoPlanFits(s) && s.plans.value.safeGenericPlans != [] && s.unsupportedAcknowledged
    case _ => true
  }

  lemma OtherwiseNothingChanges(s: State, a: Action)
    requires !TakesEffect(s, a)
    ensures Reduce(s, a) == s
  {
  }

  /** Selecting a device for an intent that is kept. */
  ghost predicate IsReselection(s: State, a: Action) {
    && a.SelectDevice?
    && (|| a.preserveIntent == Some(true)
        || (a.preserveIntent.None?
            && (s.reconnectDeviceHandle == Some(a.handle) || s.repairIntent || s.savedIntentLoaded)))
  }

  /** The actions that forget everything they do not set. */
  ghost predicate StartsOver(s: State, a: Action) {
    a.RuntimeInvalidated? || a.LoadPortableIntent? || (a.SelectDevice? && !IsReselection(s, a))
  }

  ghost predicate LosesTheDevice(a: Action) {
    a.DeviceDisappeared? || a.InfrastructureInvalidated?
  }

  /** The fields an execution action can touch. */
  ghost predicate LeavesTheRest(s: State, t: State) {
    t == s.(step := t.step, review := t.review, reviewStale := t.reviewStale,
            executionGeneration := t.executionGeneration, execution := t.execution)
  }

  lemma StartsLeaveTheRest(s: State, a: Action)
    requires a.ExecutionStarting? || a.ExecutionStartFailed?
    ensures LeavesTheRest(s, ReduceExecution(s, a))
  {
  }

  lemma StartedLeavesTheRest(s: State, a: Action)
    requires a.ExecutionStarted?
    ensures LeavesTheRest(s, ReduceExecution(s, a))
  {
  }

  lemma UpdatesLeaveTheRest(s: State, a: Action)
    requires a.ExecutionEvents? || a.ExecutionCancellationRequested?
    ensures LeavesTheRest(s, ReduceExecution(s, a))
  {
  }

  lemma SnapshotsLeaveTheRest(s: State, a: Action)
    requires a.ExecutionSnapshot?
    ensures LeavesTheRest(s, ReduceExecution(s, a))
  {
  }

  lemma EndsLeaveTheRest(s: State, a: Action)
    requires a.ExecutionUnavailable? || a.ReturnToReview?
    ensures LeavesTheRest(s, ReduceExecution(s, a))
  {
  }

  /** An execution action touches the place shown, the review, the execution and its generation, and nothing else. */
  lemma ExecutionActionsLeaveTheRest(s: State, a: Action)
    requires IsExecutionAction(a)
    ensures LeavesTheRest(s, Reduce(s, a))
  {
    if a.ExecutionStarting? || a.ExecutionStartFailed? {
      StartsLeaveTheRest(s, a);
    } else if a.ExecutionStarted? {
      StartedLeavesTheRest(s, a);
    } else if a.ExecutionUnavailable? || a.ReturnToReview? {
      EndsLeaveTheRest(s, a);
    } else if a.ExecutionSnapshot? {
      SnapshotsLeaveTheRest(s, a);
    } else {
      UpdatesLeaveTheRest(s, a);
    }
  }

  // ---- Where the user is ---------------------------------------------------------------------

  ghost function StepAfter(s: State, a: Action): Step {
    match a
    case SelectDevice(_, _) => Device
    case DeviceProbed(_, plans) => if plans.confidence == "none" then Device else Setup
    case Describe(_, _) => if s.step == Inputs then Inputs else Recipes
    case ContinueToInputs => Inputs
    case RepairReady(_, _, _, _, _, _) => Inputs
    case SetReview(_) => Review
    case ExecutionStartFailed(_) => Review
    case ReturnToReview => Review
    case ExecutionStarted(_, _) => Execution
    case ExecutionUnavailable(_, _, _) => Execution
    case ContinueUnsupported => Setup
    case PrepareRepair => if s.deviceHandle.Some? && s.deviceHandle != Some("") then Device else Connect
    case Back =>
      (match s.step
       case Execution => Review
       case Review => Inputs
       case Inputs => Recipes
       case Recipes => Setup
       case Setup => if NoPlanFits(s) then Device else Connect
       case _ => Connect)
    case LoadPortableIntent(_, _, _, _, _) => Connect
    case RuntimeInvalidated => Connect
    case DeviceDisappeared(_, _) => Connect
    case InfrastructureInvalidated => Connect
    case _ => s.step
  }

  lemma StepIsOfIntent(s: State, a: Action)
    requires TakesEffect(s, a) && IsIntentAction(a)
    ensures ReduceIntent(s, a).step == StepAfter(s, a)
  {
  }

  lemma StepIsOfExecution(s: State, a: Action)
    requires TakesEffect(s, a) && IsExecutionAction(a)
    ensures ReduceExecution(s, a).step == StepAfter(s, a)
  {
  }

  lemma StepIsOfDevice(s: State, a: Action)
    requires TakesEffect(s, a) && !IsIntentAction(a) && !IsExecutionAction(a)
    ensures ReduceDevice(s, a).step == StepAfter(s, a)
  {
  }

  // ---- The device and what fits it --------------------------------------------------------------

  ghost function DeviceAfter(s: State, a: Action): Option<string> {
    if a.SelectDevice? then Some(a.handle)
    else if a.RepairReady? then Some(a.facts.deviceHandle)
    else if LosesTheDevice(a) || StartsOver(s, a) then None
    else s.deviceHandle
  }

  ghost function FactsAfter(s: State, a: Action): Option<Facts> {
    if a.DeviceProbed? || a.RepairReady? then Some(a.facts)
    else if a.SelectDevice? || a.PrepareRepair? || LosesTheDevice(a) || StartsOver(s, a) then None
    else s.facts
  }

  ghost function PlansAfter(s: State, a: Action): Option<Match> {
    if a.DeviceProbed? || a.RepairReady? then Some(a.plans)
    else if a.SelectDevice? || a.PrepareRepair? || LosesTheDevice(a) || StartsOver(s, a) then None
    else s.plans
  }

  ghost function ReconnectAfter(s: State, a: Action): Option<string> {
    if LosesTheDevice(a) then s.deviceHandle
    else if a.DeviceProbed? || StartsOver(s, a) then None
    else s.reconnectDeviceHandle
  }

  lemma DeviceIsOfIntent(s: State, a: Action)
    requires TakesEffect(s, a) && IsIntentAction(a)
    ensures ReduceIntent(s, a).deviceHandle == DeviceAfter(s, a)
    ensures ReduceIntent(s, a).reconnectDeviceHandle == ReconnectAfter(s, a)
  {
  }

  lemma DeviceIsOfDevice(s: State, a: Action)
    requires TakesEffect(s, a) && !IsIntentAction(a) && !IsExecutionAction(a)
    ensures ReduceDevice(s, a).deviceHandle == DeviceAfter(s, a)
    ensures ReduceDevice(s, a).reconnectDeviceHandle == ReconnectAfter(s, a)
  {
  }

  lemma FindingsAreOfIntent(s: State, a: Action)
    requires TakesEffect(s, a) && IsIntentAction(a)
    ensures ReduceIntent(s, a).facts == FactsAfter(s, a)
    ensures ReduceIntent(s, a).plans == PlansAfter(s, a)
  {
  }

  lemma FindingsAreOfDevice(s: State, a: Action)
    requires TakesEffect(s, a) && !IsIntentAction(a) && !IsExecutionAction(a)
    ensures ReduceDevice(s, a).facts == FactsAfter(s, a)
    ensures ReduceDevice(s, a).plans == PlansAfter(s, a)
  {
  }

  /** A plan the probe of this device offers. */
  ghost predicate IsOffered(plan: Option<string>, plans: Match) {
    exists p :: plan == Some(p) && p != "" && (p in plans.candidates || p in plans.safeGenericPlans)
  }

  ghost function PlanAfter(s: State, a: Action): Option<string> {
    match a
    case SelectPlan(plan, _) => Some(plan)
    case LoadPortableIntent(plan, _, _, _, _) => Some(plan)
    case RepairReady(_, _, plan, _, _, _) => Some(plan)
    case DeviceProbed(_, plans) =>
      if plans.confidence == "none" then None
      else if s.savedIntentLoaded || (s.repairIntent && IsOffered(s.devicePlan, plans)) then s.devicePlan
      else plans.recommendedPlanId
    case ContinueUnsupported => None
    case _ => if StartsOver(s, a) then None else s.devicePlan
  }

  ghost function AcknowledgedAfter(s: State, a: Action): bool {
    match a
    case SetUnsupportedAcknowledgment(acknowledged) => acknowledged
    case Back => s.step != Setup && s.unsupportedAcknowledged
    case _ =>
      !(a.SelectDevice? || a.DeviceProbed? || LosesTheDevice(a) || StartsOver(s, a)) && s.unsupportedAcknowledged
  }

  lemma PlanIsOfIntent(s: State, a: Action)
    requires TakesEffect(s, a) && IsIntentAction(a)
    ensures ReduceIntent(s, a).devicePlan == PlanAfter(s, a)
    ensures ReduceIntent(s, a).unsupportedAcknowledged == AcknowledgedAfter(s, a)
  {
  }

  lemma PlanIsOfDevice(s: State, a: Action)
    requires TakesEffect(s, a) && !IsIntentAction(a) && !IsExecutionAction(a)
    ensures ReduceDevice(s, a).devicePlan == PlanAfter(s, a)
    ensures ReduceDevice(s, a).unsupportedAcknowledged == AcknowledgedAfter(s, a)
  {
    if a.DeviceProbed? {
      OfferedMeans(s.devicePlan, a.plans);
    }
  }

  lemma OfferedMeans(plan: Option<string>, plans: Match)
    ensures PlanStillAvailable(plan, plans) <==> IsOffered(plan, plans)
  {
    if plan.Some? {
      assert plan.value in plans.candidates + plans.safeGenericPlans
        <==> plan.value in plans.candidates || plan.value in plans.safeGenericPlans;
    }
  }

  // ---- The recipes and the inputs -----------------------------------------------------------------

  ghost function SelectedAfter(s: State, a: Action): Option<seq<RecipeId>> {
    match a
    case SelectPlan(_, Some(Defaults)) => None
    case SelectPlan(_, Some(Blank)) => Some([])
    case Describe(description, _) => Some(description.selectedRecipes)
    case SetRecipes(recipes) => Some(recipes)
    case LoadPortableIntent(_, recipes, _, _, _) => Some(recipes)
    case RepairReady(_, _, _, _, recipes, _) => Some(recipes)
    case _ => if StartsOver(s, a) then None else s.selectedRecipes
  }

  /** The recipe options of a description: a later option replaces an earlier one of the same id. */
  ghost predicate NeedsRecipe(options: seq<RecipeOption>, id: RecipeId, needed: RecipeId) {
    exists i :: 0 <= i < |options| && options[i].id == id && needed in options[i].recipeDependencies
                && forall j :: i < j < |options| ==> options[j].id != id
  }

  ghost predicate IsNeedChain(options: seq<RecipeOption>, selected: seq<RecipeId>, chain: seq<RecipeId>) {
    && chain != [] && chain[0] in selected
    && forall i :: 0 < i < |chain| ==> NeedsRecipe(options, chain[i - 1], chain[i])
  }

  /** The recipe is selected or needed, directly or through others, by a selected one. */
  ghost predicate IsActive(options: seq<RecipeOption>, selected: seq<RecipeId>, id: RecipeId) {
    exists chain :: IsNeedChain(options, selected, chain) && chain[|chain| - 1] == id
  }

  /** The last input of that key belongs to an active recipe. */
  ghost predicate AsksFor(d: Description, selected: seq<RecipeId>, key: string) {
    exists i :: 0 <= i < |d.inputs| && d.inputs[i].key == key
                && IsActive(d.recipeOptions, selected, d.inputs[i].recipeId)
                && forall j :: i < j < |d.inputs| ==> d.inputs[j].key != key
  }

  ghost function BindingsAfter(s: State, a: Action): map<string, Value> {
    match a
    case SetBinding(key, value) => s.bindings[key := value]
    case RemoveBinding(key) => map k | k in s.bindings && k != key :: s.bindings[k]
    case SetRecipes(recipes) =>
      if s.description.None? then s.bindings
      else map key | key in s.bindings && AsksFor(s.description.value, recipes, key) :: s.bindings[key]
    case LoadPortableIntent(_, _, bindings, _, _) => bindings
    case RepairReady(_, _, _, _, _, bindings) => bindings
    case DeviceDisappeared(Some(kept), _) => kept
    case _ => if StartsOver(s, a) then map[] else s.bindings
  }

  lemma {:induction false} DependencyMapMeans(options: seq<RecipeOption>, id: RecipeId, needed: RecipeId)
    ensures needed in DependenciesOf(DependencyMap(options), id) <==> NeedsRecipe(options, id, needed)
  {
    if options != [] {
      var init, last := options[..|options| - 1], options[|options| - 1];
      assert options == init + [last];
      DependencyMapMeans(init, id, needed);
      if last.id == id {
        assert options[|init|] == last;
      } else {
        assert forall i :: 0 <= i < |init| ==> init[i] == options[i];
      }
    }
  }

  lemma {:induction false} InputForMeans(inputs: seq<Input>, key: string)
    ensures var found := InputFor(inputs, key);
            if found.None? then forall i :: 0 <= i < |inputs| ==> inputs[i].key != key
            else exists i :: 0 <= i < |inputs| && inputs[i] == found.value && found.value.key == key
                             && forall j :: i < j < |inputs| ==> inputs[j].key != key
  {
    if inputs != [] && inputs[|inputs| - 1].key != key {
      var init := inputs[..|inputs| - 1];
      InputForMeans(init, key);
      assert forall i :: 0 <= i < |init| ==> init[i] == inputs[i];
    }
  }

  lemma ActiveMeans(options: seq<RecipeOption>, selected: seq<RecipeId>, id: RecipeId)
    ensures id in ActiveRecipes(DependencyMap(options), selected, {}) <==> IsActive(options, selected, id)
  {
    var deps := DependencyMap(options);
    ActiveRecipesAreLeastClosure(deps, selected);
    forall from, needed ensures needed in DependenciesOf(deps, from) <==> NeedsRecipe(options, from, needed) {
      DependencyMapMeans(options, from, needed);
    }
    forall chain ensures IsPath(deps, Elements(selected), chain) <==> IsNeedChain(options, selected, chain) {
    }
  }

  lemma AsksForMeans(d: Description, selected: seq<RecipeId>, key: string)
    ensures InputIsActive(d.inputs, ActiveRecipes(DependencyMap(d.recipeOptions), selected, {}), key)
            <==> AsksFor(d, selected, key)
  {
    InputForMeans(d.inputs, key);
    var found := InputFor(d.inputs, key);
    if found.Some? {
      ActiveMeans(d.recipeOptions, selected, found.value.recipeId);
      forall i |
        && 0 <= i < |d.inputs| && d.inputs[i].key == key
        && forall j :: i < j < |d.inputs| ==> d.inputs[j].key != key
        ensures d.inputs[i] == found.value
      {
      }
    }
  }

  lemma BindingsAreOfIntent(s: State, a: Action)
    requires TakesEffect(s, a) && IsIntentAction(a)
    ensures ReduceIntent(s, a).selectedRecipes == SelectedAfter(s, a)
    ensures ReduceIntent(s, a).bindings == BindingsAfter(s, a)
  {
    if a.SetRecipes? && s.description.Some? {
      forall key {
        AsksForMeans(s.description.value, a.recipes, key);
      }
    }
  }

  lemma BindingsAreOfDevice(s: State, a: Action)
    requires TakesEffect(s, a) && !IsIntentAction(a) && !IsExecutionAction(a)
    ensures ReduceDevice(s, a).selectedRecipes == SelectedAfter(s, a)
    ensures ReduceDevice(s, a).bindings == BindingsAfter(s, a)
  {
  }

  /** Of the listed keys exactly those that satisfy `keep` are left, in order and as often. */
  ghost predicate LeavesKeys(before: seq<string>, after: seq<string>, keep: string -> bool) {
    && IsSubsequence(after, before)
    && forall key :: multiset(after)[key] == if keep(key) then multiset(before)[key] else 0
  }

  lemma {:induction false} KeptKeys(keys: seq<string>, kept: set<string>)
    ensures LeavesKeys(keys, KeepKeys(keys, kept), key => key in kept)
  {
    if keys != [] {
      KeptKeys(keys[1..], kept);
      assert keys == [keys[0]] + keys[1..];
    }
  }

  lemma {:induction false} DroppedKeys(keys: seq<string>, dropped: string)
    ensures LeavesKeys(keys, DropKey(keys, dropped), key => key != dropped)
  {
    if keys != [] {
      DroppedKeys(keys[1..], dropped);
      assert keys == [keys[0]] + keys[1..];
    }
  }

  /** The values to be entered again: what a smaller selection or an edit leaves of them. */
  lemma ReentryIsReduced(s: State, a: Action)
    requires a.SetRecipes? || a.SetBinding? || a.RemoveBinding?
    ensures LeavesKeys(s.requiredReentryBindings, Reduce(s, a).requiredReentryBindings,
                       key => if a.SetRecipes? then key in BindingsAfter(s, a) else key != a.key)
  {
    match a
    case SetRecipes(recipes) =>
      BindingsAreOfIntent(s, a);
      var bindings := BindingsForRecipeSelection(s.description, recipes, s.bindings);
      KeptKeys(s.requiredReentryBindings, bindings.Keys);
    case SetBinding(edited, _) => DroppedKeys(s.requiredReentryBindings, edited);
    case RemoveBinding(edited) => DroppedKeys(s.requiredReentryBindings, edited);
  }

  ghost function ReentryAfter(s: State, a: Action): seq<string> {
    match a
    case LoadPortableIntent(_, _, _, _, Some(reentry)) => reentry
    case DeviceDisappeared(_, Some(reentry)) => reentry
    case _ => if StartsOver(s, a) then [] else s.requiredReentryBindings
  }

  lemma ReentryIsOfDevice(s: State, a: Action)
    requires TakesEffect(s, a) && !IsIntentAction(a) && !IsExecutionAction(a)
    ensures ReduceDevice(s, a).requiredReentryBindings == ReentryAfter(s, a)
  {
  }

  // ---- The description and the review -----------------------------------------------------------

  /** The description shows the value just edited, under every input of that key, and is otherwise the same. */
  ghost predicate ShowsEdit(before: Option<Description>, after: Option<Description>, key: string, value: Value) {
    if before.None? then after.None?
    else
      && after.Some? && after.value.(inputs := before.value.inputs) == before.value
      && |after.value.inputs| == |before.value.inputs|
      && forall i :: 0 <= i < |before.value.inputs| ==>
           var was, now := before.value.inputs[i], after.value.inputs[i];
           now == if was.key == key then Input(was.key, was.recipeId, value, was.body) else was
  }

  /** The new description, where it is not an edited one. */
  ghost function DescriptionAfter(s: State, a: Action): Option<Description> {
    if a.Describe? || a.RepairReady? then Some(a.description)
    else if a.SelectDevice? || a.SelectPlan? || a.PrepareRepair? || LosesTheDevice(a) || StartsOver(s, a) then None
    else s.description
  }

  lemma EditIsShown(s: State, a: Action)
    requires a.SetBinding? || a.RemoveBinding?
    ensures ShowsEdit(s.description, Reduce(s, a).description, a.key, if a.SetBinding? then a.value else Null)
  {
    var value := if a.SetBinding? then a.value else Null;
    assert Reduce(s, a).description == WithInputValue(s.description, a.key, value);
  }

  lemma DescriptionIsOfIntent(s: State, a: Action)
    requires TakesEffect(s, a) && IsIntentAction(a) && !a.SetBinding? && !a.RemoveBinding?
    ensures ReduceIntent(s, a).description == DescriptionAfter(s, a)
  {
  }

  lemma DescriptionIsOfDevice(s: State, a: Action)
    requires TakesEffect(s, a) && !IsIntentAction(a) && !IsExecutionAction(a)
    ensures ReduceDevice(s, a).description == DescriptionAfter(s, a)
  {
  }

  ghost function DirtyAfter(s: State, a: Action): bool {
    match a
    case Describe(_, _) => false
    case RepairReady(_, _, _, _, _, _) => false
    case LoadPortableIntent(_, _, _, _, _) => true
    case _ =>
      || a.SelectPlan? || a.SetRecipes? || a.SetBinding? || a.RemoveBinding? || a.PrepareRepair? || LosesTheDevice(a)
      || (!StartsOver(s, a) && s.descriptionDirty)
  }

  ghost function ReviewAfter(s: State, a: Action): Option<ReviewSummary> {
    match a
    case SetReview(review) => Some(review)
    case ExecutionUnavailable(_, _, _) => if s.execution.Live? && s.execution.mode == Real then None else s.review
    case _ =>
      if || a.SelectDevice? || a.SelectPlan? || a.Describe? || a.SetRecipes? || a.ContinueToInputs? || a.SetBinding?
         || a.RemoveBinding? || a.Back? || a.PrepareRepair? || a.RepairReady? || LosesTheDevice(a) || StartsOver(s, a)
      then None else s.review
  }

  /** The review must be made again after an execution that did not succeed. */
  ghost function StaleAfter(s: State, a: Action): bool {
    match a
    case SetReview(_) => false
    case ReturnToReview =>
      || s.reviewStale || s.execution.Unavailable?
      || (s.execution.Live? && s.execution.terminal
          && s.execution.snapshot.status !in ["succeeded", "succeeded_with_warnings"])
    case _ => !StartsOver(s, a) && s.reviewStale
  }

  lemma DirtyIsOfIntent(s: State, a: Action)
    requires TakesEffect(s, a) && IsIntentAction(a)
    ensures ReduceIntent(s, a).descriptionDirty == DirtyAfter(s, a)
  {
  }

  lemma DirtyIsOfDevice(s: State, a: Action)
    requires TakesEffect(s, a) && !IsIntentAction(a) && !IsExecutionAction(a)
    ensures ReduceDevice(s, a).descriptionDirty == DirtyAfter(s, a)
  {
  }

  lemma ReviewIsOfIntent(s: State, a: Action)
    requires TakesEffect(s, a) && IsIntentAction(a)
    ensures ReduceIntent(s, a).review == ReviewAfter(s, a)
  {
  }

  lemma ReviewIsOfExecution(s: State, a: Action)
    requires TakesEffect(s, a) && IsExecutionAction(a)
    ensures ReduceExecution(s, a).review == ReviewAfter(s, a)
  {
  }

  lemma ReviewIsOfDevice(s: State, a: Action)
    requires TakesEffect(s, a) && !IsIntentAction(a) && !IsExecutionAction(a)
    ensures ReduceDevice(s, a).review == ReviewAfter(s, a)
  {
  }

  lemma StaleIsOfIntent(s: State, a: Action)
    requires TakesEffect(s, a) && IsIntentAction(a)
    ensures ReduceIntent(s, a).reviewStale == StaleAfter(s, a)
  {
  }

  lemma StaleIsOfExecution(s: State, a: Action)
    requires TakesEffect(s, a) && IsExecutionAction(a)
    ensures ReduceExecution(s, a).reviewStale == StaleAfter(s, a)
  {
  }

  lemma StaleIsOfDevice(s: State, a: Action)
    requires TakesEffect(s, a) && !IsIntentAction(a) && !IsExecutionAction(a)
    ensures ReduceDevice(s, a).reviewStale == StaleAfter(s, a)
  {
  }

  // ---- The generations and the intent flags -------------------------------------------------------

  ghost predicate ChangesTheRequest(a: Action) {
    || a.SelectDevice? || a.SelectPlan? || a.SetRecipes? || a.SetBinding? || a.RemoveBinding? || a.PrepareRepair?
    || a.LoadPortableIntent? || a.RepairReady? || LosesTheDevice(a) || a.RuntimeInvalidated?
  }

  ghost function ExecutionGenerationAfter(s: State, a: Action): int {
    if a.ExecutionStarting? then a.generation
    else if a.PrepareRepair? || a.LoadPortableIntent? || LosesTheDevice(a) then s.executionGeneration + 1
    else if StartsOver(s, a) then 0
    else s.executionGeneration
  }

  lemma RequestIsNewInIntent(s: State, a: Action)
    requires a.SelectPlan? || a.SetRecipes? || a.SetBinding? || a.RemoveBinding?
    ensures ReduceIntent(s, a).requestGeneration == s.requestGeneration + 1
  {
  }

  lemma RequestIsNewInDevice(s: State, a: Action)
    requires ChangesTheRequest(a) && TakesEffect(s, a) && !IsIntentAction(a)
    ensures ReduceDevice(s, a).requestGeneration == s.requestGeneration + 1
  {
    if a.SelectDevice? || a.RuntimeInvalidated? || a.LoadPortableIntent? {
      StartingOverIsNew(s, a);
    }
  }

  lemma StartingOverIsNew(s: State, a: Action)
    requires a.SelectDevice? || a.RuntimeInvalidated? || a.LoadPortableIntent?
    ensures ReduceDevice(s, a).requestGeneration == s.requestGeneration + 1
  {
  }

  lemma RequestIsOldInIntent(s: State, a: Action)
    requires a.Describe? || a.ContinueToInputs? || a.SetReview? || a.PortableIntentSaved? || a.Back?
    ensures ReduceIntent(s, a).requestGeneration == s.requestGeneration
  {
  }

  lemma RequestIsOldInDevice(s: State, a: Action)
    requires !ChangesTheRequest(a) && !IsIntentAction(a) && !IsExecutionAction(a)
    ensures ReduceDevice(s, a).requestGeneration == s.requestGeneration
  {
  }

  lemma ExecutionGenerationIsOfIntent(s: State, a: Action)
    requires TakesEffect(s, a) && IsIntentAction(a)
    ensures ReduceIntent(s, a).executionGeneration == ExecutionGenerationAfter(s, a)
  {
  }

  lemma ExecutionGenerationIsOfExecution(s: State, a: Action)
    requires TakesEffect(s, a) && IsExecutionAction(a)
    ensures ReduceExecution(s, a).executionGeneration == ExecutionGenerationAfter(s, a)
  {
  }

  lemma ExecutionGenerationIsOfDevice(s: State, a: Action)
    requires TakesEffect(s, a) && !IsIntentAction(a) && !IsExecutionAction(a)
    ensures ReduceDevice(s, a).executionGeneration == ExecutionGenerationAfter(s, a)
  {
  }

  ghost function RepairAfter(s: State, a: Action): bool {
    if a.PrepareRepair? || a.DeviceDisappeared? then true
    else if a.SelectPlan? || a.Describe? || a.RepairReady? || a.InfrastructureInvalidated? || StartsOver(s, a)
    then false
    else s.repairIntent
  }

  ghost function IntentDirtyAfter(s: State, a: Action): bool {
    match a
    case PortableIntentSaved => false
    case LoadPortableIntent(_, _, _, dirty, _) => dirty
    case _ =>
      || a.SelectPlan? || a.SetRecipes? || a.SetBinding? || a.RemoveBinding? || a.RepairReady?
      || (!StartsOver(s, a) && s.portableIntentDirty)
  }

  lemma IntentFlagsAreOfIntent(s: State, a: Action)
    requires TakesEffect(s, a) && IsIntentAction(a)
    ensures ReduceIntent(s, a).repairIntent == RepairAfter(s, a)
    ensures ReduceIntent(s, a).portableIntentDirty == IntentDirtyAfter(s, a)
    ensures ReduceIntent(s, a).savedIntentLoaded == s.savedIntentLoaded
  {
  }

  lemma IntentFlagsAreOfDevice(s: State, a: Action)
    requires TakesEffect(s, a) && !IsIntentAction(a) && !IsExecutionAction(a)
    ensures ReduceDevice(s, a).repairIntent == RepairAfter(s, a)
    ensures ReduceDevice(s, a).portableIntentDirty == IntentDirtyAfter(s, a)
    ensures ReduceDevice(s, a).savedIntentLoaded
            == (a.LoadPortableIntent? || (!StartsOver(s, a) && s.savedIntentLoaded))
  {
  }

  // ---- The execution --------------------------------------------------------------------------------

  ghost function ExecutionAfter(s: State, a: Action): ExecutionState
    requires TakesEffect(s, a)
  {
    match a
    case ExecutionStarting(generation, mode) => Starting(generation, if mode.Some? then mode.value else Simulated)
    case ExecutionStarted(generation, snapshot) =>
      Live(snapshot.terminal, generation, snapshot, if snapshot.simulated then Simulated else Real, [], 0, false)
    case ExecutionSnapshot(_, next) => s.execution.(snapshot := next, terminal := next.terminal)
    case ExecutionEvents(_, _, events) =>
      var merged := EventLog.Merge(s.execution.events, events, s.execution.eventCursor);
      s.execution.(events := merged.events, eventCursor := merged.cursor)
    case ExecutionCancellationRequested(_) => s.execution.(cancellationRequested := true)
    case ExecutionUnavailable(generation, handle, message) =>
      Unavailable(generation, handle, message, s.execution.mode)
    case _ =>
      if || a.SelectDevice? || a.PrepareRepair? || a.RepairReady? || a.ReturnToReview? || a.ExecutionStartFailed?
         || LosesTheDevice(a) || StartsOver(s, a)
      then Idle else s.execution
  }

  lemma ExecutionIsOfIntent(s: State, a: Action)
    requires TakesEffect(s, a) && IsIntentAction(a)
    ensures ReduceIntent(s, a).execution == ExecutionAfter(s, a)
  {
  }

  lemma ExecutionIsOfExecution(s: State, a: Action)
    requires TakesEffect(s, a) && IsExecutionAction(a)
    ensures ReduceExecution(s, a).execution == ExecutionAfter(s, a)
  {
  }

  lemma ExecutionIsOfDevice(s: State, a: Action)
    requires TakesEffect(s, a) && !IsIntentAction(a) && !IsExecutionAction(a)
    ensures ReduceDevice(s, a).execution == ExecutionAfter(s, a)
  {
  }

  // ---- All fields together -----------------------------------------------------------------------

  /** The whole state after an action that takes effect. */
  ghost predicate IsAfter(s: State, a: Action, t: State)
    requires TakesEffect(s, a)
  {
    && t.step == StepAfter(s, a)
    && t.deviceHandle == DeviceAfter(s, a) && t.reconnectDeviceHandle == ReconnectAfter(s, a)
    && t.facts == FactsAfter(s, a) && t.plans == PlansAfter(s, a)
    && t.devicePlan == PlanAfter(s, a) && t.unsupportedAcknowledged == AcknowledgedAfter(s, a)
    && t.selectedRecipes == SelectedAfter(s, a) && t.bindings == BindingsAfter(s, a)
    && (if a.SetRecipes? then
          LeavesKeys(s.requiredReentryBindings, t.requiredReentryBindings, key => key in BindingsAfter(s, a))
        else if a.SetBinding? || a.RemoveBinding? then
          LeavesKeys(s.requiredReentryBindings, t.requiredReentryBindings, key => key != a.key)
        else t.requiredReentryBindings == ReentryAfter(s, a))
    && (if a.SetBinding? || a.RemoveBinding?
        then ShowsEdit(s.description, t.description, a.key, if a.SetBinding? then a.value else Null)
        else t.description == DescriptionAfter(s, a))
    && t.descriptionDirty == DirtyAfter(s, a) && t.review == ReviewAfter(s, a) && t.reviewStale == StaleAfter(s, a)
    && t.requestGeneration == s.requestGeneration + (if ChangesTheRequest(a) then 1 else 0)
    && t.executionGeneration == ExecutionGenerationAfter(s, a)
    && t.repairIntent == RepairAfter(s, a) && t.portableIntentDirty == IntentDirtyAfter(s, a)
    && t.savedIntentLoaded == (a.LoadPortableIntent? || (!StartsOver(s, a) && s.savedIntentLoaded))
    && t.execution == ExecutionAfter(s, a)
  }

  lemma IntentActionsMean(s: State, a: Action)
    requires TakesEffect(s, a) && IsIntentAction(a)
    ensures IsAfter(s, a, ReduceIntent(s, a))
  {
    StepIsOfIntent(s, a);
    DeviceIsOfIntent(s, a);
    FindingsAreOfIntent(s, a);
    PlanIsOfIntent(s, a);
    BindingsAreOfIntent(s, a);
    if a.SetRecipes? || a.SetBinding? || a.RemoveBinding? { ReentryIsReduced(s, a); }
    if a.SetBinding? || a.RemoveBinding? { EditIsShown(s, a); } else { DescriptionIsOfIntent(s, a); }
    DirtyIsOfIntent(s, a);
    ReviewIsOfIntent(s, a);
    StaleIsOfIntent(s, a);
    if ChangesTheRequest(a) { RequestIsNewInIntent(s, a); } else { RequestIsOldInIntent(s, a); }
    ExecutionGenerationIsOfIntent(s, a);
    IntentFlagsAreOfIntent(s, a);
    ExecutionIsOfIntent(s, a);
  }

  lemma NoExecutionActionMovesTheDevice(s: State, a: Action)
    requires IsExecutionAction(a)
    ensures !StartsOver(s, a) && !LosesTheDevice(a) && !ChangesTheRequest(a)
    ensures DeviceAfter(s, a) == s.deviceHandle && ReconnectAfter(s, a) == s.reconnectDeviceHandle
    ensures FactsAfter(s, a) == s.facts && PlansAfter(s, a) == s.plans
  {
  }

  lemma NoExecutionActionMovesTheIntent(s: State, a: Action)
    requires IsExecutionAction(a)
    ensures PlanAfter(s, a) == s.devicePlan && AcknowledgedAfter(s, a) == s.unsupportedAcknowledged
    ensures SelectedAfter(s, a) == s.selectedRecipes && BindingsAfter(s, a) == s.bindings
    ensures ReentryAfter(s, a) == s.requiredReentryBindings && DescriptionAfter(s, a) == s.description
    ensures DirtyAfter(s, a) == s.descriptionDirty && RepairAfter(s, a) == s.repairIntent
    ensures IntentDirtyAfter(s, a) == s.portableIntentDirty
  {
  }

  /** An execution action's five fields make up the whole. */
  lemma FiveFieldsAreAll(s: State, a: Action, t: State)
    requires TakesEffect(s, a) && IsExecutionAction(a) && LeavesTheRest(s, t)
    requires t.step == StepAfter(s, a) && t.review == ReviewAfter(s, a) && t.reviewStale == StaleAfter(s, a)
    requires t.executionGeneration == ExecutionGenerationAfter(s, a) && t.execution == ExecutionAfter(s, a)
    ensures IsAfter(s, a, t)
  {
    NoExecutionActionMovesTheDevice(s, a);
    NoExecutionActionMovesTheIntent(s, a);
    assert !a.SetRecipes? && !a.SetBinding? && !a.RemoveBinding? && !a.LoadPortableIntent?;
  }

  lemma ExecutionActionsMean(s: State, a: Action)
    requires TakesEffect(s, a) && IsExecutionAction(a)
    ensures IsAfter(s, a, ReduceExecution(s, a))
  {
    ExecutionActionsLeaveTheRest(s, a);
    StepIsOfExecution(s, a);
    ReviewIsOfExecution(s, a);
    StaleIsOfExecution(s, a);
    ExecutionGenerationIsOfExecution(s, a);
    ExecutionIsOfExecution(s, a);
    FiveFieldsAreAll(s, a, ReduceExecution(s, a));
  }

  lemma DeviceActionsMean(s: State, a: Action)
    requires TakesEffect(s, a) && !IsIntentAction(a) && !IsExecutionAction(a)
    ensures IsAfter(s, a, ReduceDevice(s, a))
  {
    StepIsOfDevice(s, a);
    DeviceIsOfDevice(s, a);
    FindingsAreOfDevice(s, a);
    PlanIsOfDevice(s, a);
    BindingsAreOfDevice(s, a);
    ReentryIsOfDevice(s, a);
    DescriptionIsOfDevice(s, a);
    DirtyIsOfDevice(s, a);
    ReviewIsOfDevice(s, a);
    StaleIsOfDevice(s, a);
    if ChangesTheRequest(a) { RequestIsNewInDevice(s, a); } else { RequestIsOldInDevice(s, a); }
    ExecutionGenerationIsOfDevice(s, a);
    IntentFlagsAreOfDevice(s, a);
    ExecutionIsOfDevice(s, a);
  }

  /** Every field of every next state: an action takes effect and does exactly this, or nothing changes. */
  lemma ReducerMeans(s: State, a: Action)
    ensures if TakesEffect(s, a) then IsAfter(s, a, Reduce(s, a)) else Reduce(s, a) == s
  {
    if !TakesEffect(s, a) {
      OtherwiseNothingChanges(s, a);
    } else if IsIntentAction(a) {
      IntentActionsMean(s, a);
    } else if IsExecutionAction(a) {
      ExecutionActionsMean(s, a);
    } else {
      DeviceActionsMean(s, a);
    }
  }

  // ---- What is shown of a running execution ------------------------------------------------------

  /** The snapshot in `actions[k]` was accepted when it arrived. */
  ghost predicate IsAcceptedAt(s: State, actions: seq<Action>, k: nat)
    requires k < |actions|
  {
    actions[k].ExecutionSnapshot? && TakesEffect(Run(s, actions[..k]), actions[k])
  }

  /** The snapshot of the last accepted action, or the one shown before. */
  ghost predicate IsLastAccepted(s: State, actions: seq<Action>, shown: Snapshot)
    requires s.execution.Live?
  {
    || (shown == s.execution.snapshot && forall k: nat :: k < |actions| ==> !IsAcceptedAt(s, actions, k))
    || exists k: nat :: k < |actions| && IsAcceptedAt(s, actions, k) && shown == actions[k].snapshot
                        && forall j: nat :: k < j < |actions| ==> !IsAcceptedAt(s, actions, j)
  }

  lemma OneLiveStep(s: State, a: Action)
    requires s.execution.Live? && Reduce(s, a).execution.Live?
    ensures if a.ExecutionSnapshot? && TakesEffect(s, a)
            then Reduce(s, a).execution.snapshot == a.snapshot && Reduce(s, a).execution.terminal == a.snapshot.terminal
            else Reduce(s, a).execution.snapshot == s.execution.snapshot
                 && Reduce(s, a).execution.terminal == s.execution.terminal
  {
    if TakesEffect(s, a) {
      ReducerMeans(s, a);
    } else {
      OtherwiseNothingChanges(s, a);
    }
  }

  lemma RunShifts(s: State, actions: seq<Action>, k: nat)
    requires 0 < k <= |actions|
    ensures Run(s, actions[..k]) == Run(Reduce(s, actions[0]), actions[1..][..k - 1])
  {
    assert actions[..k][0] == actions[0] && actions[..k][1..] == actions[1..][..k - 1];
  }

  /** While an execution is shown, it is the last snapshot accepted for it, and it is terminal if that one is. */
  lemma {:induction false} ShownSnapshotIsLastAccepted(s: State, actions: seq<Action>)
    requires LiveThroughout(s, actions) && s.execution.terminal == s.execution.snapshot.terminal
    ensures var t := Run(s, actions);
            && t.execution.Live? && IsLastAccepted(s, actions, t.execution.snapshot)
            && t.execution.terminal == t.execution.snapshot.terminal
    decreases |actions|
  {
    if actions != [] {
      var next, rest := Reduce(s, actions[0]), actions[1..];
      assert next.execution.Live?;
      OneLiveStep(s, actions[0]);
      ShownSnapshotIsLastAccepted(next, rest);
      forall k: nat | 0 < k < |actions| ensures IsAcceptedAt(s, actions, k) <==> IsAcceptedAt(next, rest, k - 1) {
        RunShifts(s, actions, k);
      }
      assert actions[..0] == [] && (IsAcceptedAt(s, actions, 0) <==>
        actions[0].ExecutionSnapshot? && TakesEffect(s, actions[0]));
      LastAcceptedShifts(s, actions, Run(s, actions).execution.snapshot);
    }
  }

  lemma LastAcceptedShifts(s: State, actions: seq<Action>, shown: Snapshot)
    requires actions != [] && s.execution.Live? && Reduce(s, actions[0]).execution.Live?
    requires IsLastAccepted(Reduce(s, actions[0]), actions[1..], shown)
    requires forall k: nat :: 0 < k < |actions| ==>
               (IsAcceptedAt(s, actions, k) <==> IsAcceptedAt(Reduce(s, actions[0]), actions[1..], k - 1))
    requires Reduce(s, actions[0]).execution.snapshot ==
             if IsAcceptedAt(s, actions, 0) then actions[0].snapshot else s.execution.snapshot
    ensures IsLastAccepted(s, actions, shown)
  {
    var next, rest := Reduce(s, actions[0]), actions[1..];
    if k: nat :| k < |rest| && IsAcceptedAt(next, rest, k) && shown == rest[k].snapshot
                 && forall j: nat :: k < j < |rest| ==> !IsAcceptedAt(next, rest, j) {
      assert IsAcceptedAt(s, actions, k + 1) && actions[k + 1] == rest[k];
      assert forall j: nat :: k + 1 < j < |actions| ==> !IsAcceptedAt(s, actions, j);
    } else {
      assert forall j: nat :: 0 < j < |actions| ==> !IsAcceptedAt(s, actions, j);
    }
  }
}
