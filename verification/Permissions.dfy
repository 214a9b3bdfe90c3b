/**
 Permission applicability: `android_permissions.rs` and the review lists that
 `apk_authoring_inspection.rs` builds from it, over any reviewed catalog.
 */
module Permissions {
  import opened Wrappers
  import opened DecimalText
  import opened Sorting
  import opened ApkManifest

  const RUNTIME_PERMISSIONS_API: nat := 23

  datatype Classification =
    | RuntimeGrantable
    | RuntimeRestricted
    | AppOpGrantable
    | ManualSpecialAccess
    | InstallTime
    | SignatureOrPrivileged
    | Unknown

  datatype TargetSdkState = Missing | NonNumeric

  datatype NonApplicability =
    | MaxSdkVersionExceeded(maximum: nat)
    | TargetSdkAboveMaximum(maximumTargetSdk: nat, actualTargetSdk: nat)
    | TargetSdkBelowMinimum(minimumTargetSdk: nat)

  datatype Indeterminacy =
    | InvalidMaxSdkVersion
    | TargetSdkUnavailable(minimumTargetSdk: nat, state: TargetSdkState)
    | MaximumTargetSdkUnavailable(maximumTargetSdk: nat, state: TargetSdkState)

  datatype Applicability =
    | Applicable
    | NotApplicable(why: NonApplicability)
    | Indeterminate(cause: Indeterminacy)

  datatype Automation =
    | RuntimeGrant(requiresRoot: bool)
    | AppOp(appOp: string, requiresRoot: bool)

  datatype ApiBounds = ApiBounds(minimum: nat, maximum: Option<nat>)

  datatype Entry = Entry(
    name: string,
    classification: Classification,
    introductionApi: nat,
    maximumApi: Option<nat>,
    runtimePermissionModel: bool,
    minimumTargetSdk: Option<nat>,
    maximumTargetSdk: Option<nat>,
    automation: Option<Automation>)

  datatype Classified = Classified(
    declaration: Declaration,
    classification: Classification,
    applicability: Applicability,
    introductionApi: Option<nat>,
    apiBounds: Option<ApiBounds>,
    automation: Option<Automation>)

  // ---- Classification of one declaration ---------------------------------------------

  function CatalogEntry(catalog: seq<Entry>, name: string): Option<Entry> {
    if catalog == [] then None
    else if catalog[0].name == name then Some(catalog[0])
    else CatalogEntry(catalog[1..], name)
  }

  function NumericTargetSdk(target: Option<string>): Result<nat, TargetSdkState> {
    if target.None? then Err(Missing)
    else if ParseU32(target.value).None? then Err(NonNumeric)
    else Ok(ParseU32(target.value).value)
  }

  function MinimumOption(left: Option<nat>, right: Option<nat>): Option<nat> {
    if left.None? then right
    else if right.None? then left
    else if left.value < right.value then left
    else right
  }

  function Max(a: nat, b: nat): nat {
    if a < b then b else a
  }

  predicate HasRuntimeGrant(entry: Entry) {
    entry.runtimePermissionModel && entry.automation.Some? && entry.automation.value.RuntimeGrant?
  }

  /** Applicability and bounds, with the classification the source rewrites in place. */
  datatype Decision =
    Decision(applicability: Applicability, apiBounds: Option<ApiBounds>, classification: Classification)

  function Bounded(entry: Entry, d: Declaration, manifestMaximum: Option<nat>): Decision {
    var base := if entry.runtimePermissionModel then Max(entry.introductionApi, RUNTIME_PERMISSIONS_API)
                else entry.introductionApi;
    var minimum := if d.kind.UsesPermissionSdk23? then Max(base, RUNTIME_PERMISSIONS_API) else base;
    var maximum := MinimumOption(entry.maximumApi, manifestMaximum);
    if maximum.Some? && maximum.value < minimum then
      Decision(NotApplicable(MaxSdkVersionExceeded(maximum.value)), None, entry.classification)
    else Decision(Applicable, Some(ApiBounds(minimum, maximum)), entry.classification)
  }

  function RuntimeGate(entry: Entry, d: Declaration, manifestMaximum: Option<nat>, target: Option<string>): Decision {
    if !HasRuntimeGrant(entry) then Bounded(entry, d, manifestMaximum)
    else
      match NumericTargetSdk(target)
      case Ok(sdk) =>
        if sdk < RUNTIME_PERMISSIONS_API then Decision(Applicable, None, InstallTime)
        else Bounded(entry, d, manifestMaximum)
      case Err(state) => Decision(Indeterminate(TargetSdkUnavailable(RUNTIME_PERMISSIONS_API, state)), None, Unknown)
  }

  function MaximumTargetGate(entry: Entry, d: Declaration, manifestMaximum: Option<nat>, target: Option<string>)
    : Decision
  {
    if entry.maximumTargetSdk.None? then RuntimeGate(entry, d, manifestMaximum, target)
    else
      var limit := entry.maximumTargetSdk.value;
      match NumericTargetSdk(target)
      case Ok(sdk) =>
        if sdk > limit then Decision(NotApplicable(TargetSdkAboveMaximum(limit, sdk)), None, entry.classification)
        else RuntimeGate(entry, d, manifestMaximum, target)
      case Err(state) =>
        Decision(Indeterminate(MaximumTargetSdkUnavailable(limit, state)), None, entry.classification)
  }

  function MinimumTargetGate(entry: Entry, d: Declaration, manifestMaximum: Option<nat>, target: Option<string>)
    : Decision
  {
    if entry.minimumTargetSdk.None? then MaximumTargetGate(entry, d, manifestMaximum, target)
    else
      var limit := entry.minimumTargetSdk.value;
      match NumericTargetSdk(target)
      case Ok(sdk) =>
        if sdk < limit then Decision(NotApplicable(TargetSdkBelowMinimum(limit)), None, entry.classification)
        else MaximumTargetGate(entry, d, manifestMaximum, target)
      case Err(state) => Decision(Indeterminate(TargetSdkUnavailable(limit, state)), None, entry.classification)
  }

  function ManifestMaximum(d: Declaration): Option<nat> {
    if d.maxSdkVersion.None? then None else ParseU32(d.maxSdkVersion.value)
  }

  function DeclarationApplicability(entry: Option<Entry>, d: Declaration, target: Option<string>): Decision {
    var initial := if entry.None? then Unknown else entry.value.classification;
    if d.maxSdkVersion.Some? && ParseU32(d.maxSdkVersion.value).None? then
      Decision(Indeterminate(InvalidMaxSdkVersion), None, initial)
    else if entry.None? then Decision(Applicable, None, initial)
    else
      MinimumTargetGate(entry.value, d, ManifestMaximum(d), target)
  }

  function Classify(catalog: seq<Entry>, d: Declaration, target: Option<string>): Classified {
    var entry := CatalogEntry(catalog, d.name);
    var decision := DeclarationApplicability(entry, d, target);
    var automation :=
      if entry.Some? && decision.applicability.Applicable? && decision.classification == entry.value.classification
         && decision.apiBounds.Some?
      then entry.value.automation else None;
    Classified(d, decision.classification, decision.applicability,
               if entry.None? then None else Some(entry.value.introductionApi),
               decision.apiBounds, automation)
  }

  // ---- What the bounds mean ---------------------------------------------------------------

  /** A device of this API level satisfies every constraint the catalog and the manifest state. */
  ghost predicate DeviceSatisfies(entry: Entry, d: Declaration, api: nat) {
    && entry.introductionApi <= api
    && (entry.runtimePermissionModel ==> 23 <= api)
    && (d.kind.UsesPermissionSdk23? ==> 23 <= api)
    && (entry.maximumApi.Some? ==> api <= entry.maximumApi.value)
    && (d.maxSdkVersion.Some? && ParseU32(d.maxSdkVersion.value).Some? ==> api <= ParseU32(d.maxSdkVersion.value).value)
  }

  ghost predicate InBounds(bounds: ApiBounds, api: nat) {
    bounds.minimum <= api && (bounds.maximum.Some? ==> api <= bounds.maximum.value)
  }

  ghost predicate MaximumParses(d: Declaration) {
    d.maxSdkVersion.Some? ==> ParseU32(d.maxSdkVersion.value).Some?
  }

  /** The application target SDK meets everything the entry demands of it. */
  ghost predicate TargetSdkInRange(entry: Entry, target: Option<string>) {
    && ((entry.minimumTargetSdk.Some? || entry.maximumTargetSdk.Some? || HasRuntimeGrant(entry)) ==>
          NumericTargetSdk(target).Ok?)
    && (entry.minimumTargetSdk.Some? ==> entry.minimumTargetSdk.value <= NumericTargetSdk(target).value)
    && (entry.maximumTargetSdk.Some? ==> NumericTargetSdk(target).value <= entry.maximumTargetSdk.value)
    && (HasRuntimeGrant(entry) ==> 23 <= NumericTargetSdk(target).value)
  }

  ghost predicate MaximumExceeded(a: Applicability) {
    a.NotApplicable? && a.why.MaxSdkVersionExceeded?
  }

  /** The target SDK gates let exactly the in-range targets through to the interval computation. */
  lemma GatesPassIffInRange(entry: Entry, d: Declaration, manifestMaximum: Option<nat>, target: Option<string>)
    ensures var decision := MinimumTargetGate(entry, d, manifestMaximum, target);
            if TargetSdkInRange(entry, target) then decision == Bounded(entry, d, manifestMaximum)
            else decision.apiBounds.None? && !MaximumExceeded(decision.applicability)
  {
  }

  lemma IntervalIsExact(entry: Entry, d: Declaration)
    requires MaximumParses(d)
    ensures var decision := Bounded(entry, d, ManifestMaximum(d));
            match decision.apiBounds
            case Some(bounds) =>
              && decision.applicability.Applicable?
              && InBounds(bounds, bounds.minimum)
              && forall api :: InBounds(bounds, api) <==> DeviceSatisfies(entry, d, api)
            case None =>
              && MaximumExceeded(decision.applicability)
              && forall api :: !DeviceSatisfies(entry, d, api)
  {
  }

  /** Computed bounds are exactly the satisfying device APIs, and there is always one. */
  lemma BoundsAreExactlySatisfyingApis(catalog: seq<Entry>, d: Declaration, target: Option<string>)
    requires CatalogEntry(catalog, d.name).Some?
    ensures var entry, c := CatalogEntry(catalog, d.name).value, Classify(catalog, d, target);
            c.apiBounds.Some? ==>
              && InBounds(c.apiBounds.value, c.apiBounds.value.minimum)
              && forall api :: InBounds(c.apiBounds.value, api) <==> DeviceSatisfies(entry, d, api)
  {
    var entry := CatalogEntry(catalog, d.name).value;
    if MaximumParses(d) {
      GatesPassIffInRange(entry, d, ManifestMaximum(d), target);
      IntervalIsExact(entry, d);
    }
  }

  /** The maximum is reported as exceeded exactly when all else is in order and no device API is left. */
  lemma MaximumExceededIffNoApi(catalog: seq<Entry>, d: Declaration, target: Option<string>)
    requires CatalogEntry(catalog, d.name).Some?
    ensures var entry, c := CatalogEntry(catalog, d.name).value, Classify(catalog, d, target);
            MaximumExceeded(c.applicability)
            <==> (MaximumParses(d) && TargetSdkInRange(entry, target) && forall api :: !DeviceSatisfies(entry, d, api))
  {
    var entry := CatalogEntry(catalog, d.name).value;
    if MaximumParses(d) {
      GatesPassIffInRange(entry, d, ManifestMaximum(d), target);
      IntervalIsExact(entry, d);
      if Bounded(entry, d, ManifestMaximum(d)).apiBounds.Some? {
        assert DeviceSatisfies(entry, d, Bounded(entry, d, ManifestMaximum(d)).apiBounds.value.minimum);
      }
    }
  }

  /**
   Automation is offered exactly when the entry has it, the declared maximum is
   a number, the target SDK is in range, and some device API satisfies every
   constraint: every other case fails closed.
   */
  lemma AutomationOfferedIff(catalog: seq<Entry>, d: Declaration, target: Option<string>)
    requires CatalogEntry(catalog, d.name).Some?
    ensures var entry, c := CatalogEntry(catalog, d.name).value, Classify(catalog, d, target);
            && (c.automation.Some? <==>
                  && entry.automation.Some?
                  && MaximumParses(d)
                  && TargetSdkInRange(entry, target)
                  && exists api :: DeviceSatisfies(entry, d, api))
            && (c.automation.Some? ==> c.automation == entry.automation && c.apiBounds.Some?)
  {
    var entry := CatalogEntry(catalog, d.name).value;
    if MaximumParses(d) {
      GatesPassIffInRange(entry, d, ManifestMaximum(d), target);
      IntervalIsExact(entry, d);
      var decision := Bounded(entry, d, ManifestMaximum(d));
      if decision.apiBounds.Some? {
        assert DeviceSatisfies(entry, d, decision.apiBounds.value.minimum);
      }
    }
  }

  /** A declaration extracted from an inspected manifest is never called an invalid maximum. */
  lemma InspectedMaximumIsNeverInvalid(
      children: seq<Element>, d: Declaration, catalog: seq<Entry>, target: Option<string>)
    requires Declares(children, d)
    ensures Classify(catalog, d, target).applicability != Indeterminate(InvalidMaxSdkVersion)
  {
    ExtractedMaximumParses(children, d);
    assert MaximumParses(d);
  }

  // ---- The review lists --------------------------------------------------------------------

  datatype Candidate =
    | RuntimeCandidate(permissionName: string, requiresRoot: bool, apiMin: nat, apiMax: Option<nat>)
    | AppOpCandidate(
        permissionName: string, operationName: string, requiresRoot: bool, apiMin: nat, apiMax: Option<nat>)

  datatype Warning = Warning(code: string, permissionName: string)

  /** The warning a permission draws, if any. */
  function WarningFor(c: Classified): Option<Warning> {
    match c.applicability
    case NotApplicable(_) => Some(Warning("apk_permission_not_applicable", c.declaration.name))
    case Indeterminate(_) => Some(Warning("apk_permission_applicability_indeterminate", c.declaration.name))
    case Applicable =>
      match c.classification
      case RuntimeRestricted => Some(Warning("apk_permission_runtime_restricted", c.declaration.name))
      case ManualSpecialAccess => Some(Warning("apk_permission_manual_special_access", c.declaration.name))
      case SignatureOrPrivileged => Some(Warning("apk_permission_signature_or_privileged", c.declaration.name))
      case Unknown => Some(Warning("apk_permission_unknown", c.declaration.name))
      case _ => None
  }

  /** The classifier's promise that lets the review unwrap the bounds of an automated permission. */
  ghost predicate AutomationHasBounds(c: Classified) {
    c.automation.Some? ==> c.apiBounds.Some? && c.applicability.Applicable?
  }

  function CandidateFor(c: Classified): Option<Candidate> {
    if !c.applicability.Applicable? || c.apiBounds.None? then None
    else
      match (c.classification, c.automation)
      case (RuntimeGrantable, Some(RuntimeGrant(root))) =>
        Some(RuntimeCandidate(c.declaration.name, root, c.apiBounds.value.minimum, c.apiBounds.value.maximum))
      case (AppOpGrantable, Some(AppOp(op, root))) =>
        Some(AppOpCandidate(c.declaration.name, op, root, c.apiBounds.value.minimum, c.apiBounds.value.maximum))
      case _ => None
  }

  function RuntimeFor(c: Classified): Option<Candidate> {
    var candidate := CandidateFor(c);
    if candidate.Some? && candidate.value.RuntimeCandidate? then candidate else None
  }

  function AppOpFor(c: Classified): Option<Candidate> {
    var candidate := CandidateFor(c);
    if candidate.Some? && candidate.value.AppOpCandidate? then candidate else None
  }

  datatype Review = Review(
    permissions: seq<Classified>,
    runtimeCandidates: seq<Candidate>,
    appOpCandidates: seq<Candidate>,
    warnings: seq<Warning>)

  /** How many permissions give something. */
  function CountOf<T>(classified: seq<Classified>, gives: Classified -> Option<T>): nat {
    if classified == [] then 0
    else CountOf(classified[..|classified| - 1], gives) + (if gives(classified[|classified| - 1]).Some? then 1 else 0)
  }

  /** What permission `i` gives stands in the list right after what the earlier ones give. */
  ghost predicate InPlace<T>(classified: seq<Classified>, gives: Classified -> Option<T>, list: seq<T>, i: nat)
    requires i < |classified|
  {
    var rank := CountOf(classified[..i], gives);
    gives(classified[i]).Some? ==> rank < |list| && list[rank] == gives(classified[i]).value
  }

  /** The list holds exactly what the permissions give, in their order. */
  ghost predicate ListsExactly<T>(classified: seq<Classified>, gives: Classified -> Option<T>, list: seq<T>) {
    && |list| == CountOf(classified, gives)
    && forall i :: 0 <= i < |classified| ==> InPlace(classified, gives, list, i)
  }

  lemma ListsGrow<T>(classified: seq<Classified>, c: Classified, gives: Classified -> Option<T>, list: seq<T>)
    requires ListsExactly(classified, gives, list)
    ensures ListsExactly(classified + [c], gives, if gives(c).Some? then list + [gives(c).value] else list)
  {
    var all, more := classified + [c], if gives(c).Some? then list + [gives(c).value] else list;
    assert all[..|classified|] == classified;
    forall i | 0 <= i < |all| ensures InPlace(all, gives, more, i) {
      if i < |classified| {
        assert InPlace(classified, gives, list, i);
        assert all[..i] == classified[..i];
      }
    }
  }

  /** Each entry of such a list is given by some permission. */
  lemma {:induction false} EntryIsGiven<T>(
      classified: seq<Classified>, gives: Classified -> Option<T>, list: seq<T>, k: nat)
    returns (i: nat)
    requires ListsExactly(classified, gives, list) && k < |list|
    ensures i < |classified| && CountOf(classified[..i], gives) == k && gives(classified[i]) == Some(list[k])
  {
    i := RankIsTaken(classified, gives, k);
    assert InPlace(classified, gives, list, i);
  }

  lemma {:induction false} RankIsTaken<T>(classified: seq<Classified>, gives: Classified -> Option<T>, k: nat)
    returns (i: nat)
    requires k < CountOf(classified, gives)
    ensures i < |classified| && CountOf(classified[..i], gives) == k && gives(classified[i]).Some?
  {
    var before := classified[..|classified| - 1];
    if k < CountOf(before, gives) {
      i := RankIsTaken(before, gives, k);
      assert before[..i] == classified[..i];
    } else {
      i := |before|;
    }
  }

  /** Every permission is listed, and each other list holds, in order, exactly what the permissions give for it. */
  ghost predicate IsReviewOf(review: Review, classified: seq<Classified>) {
    && review.permissions == classified
    && ListsExactly(classified, RuntimeFor, review.runtimeCandidates)
    && ListsExactly(classified, AppOpFor, review.appOpCandidates)
    && ListsExactly(classified, WarningFor, review.warnings)
  }

  predicate IsInstallTime(c: Classified) {
    c.applicability.Applicable? && c.classification.InstallTime?
  }

  /** Exactly one of a candidate, a warning and an ordinary install-time permission. */
  predicate IsAccountedFor(c: Classified) {
    && !(CandidateFor(c).Some? && WarningFor(c).Some?)
    && (IsInstallTime(c) <==> CandidateFor(c).None? && WarningFor(c).None?)
  }

  function InstallTimeCount(classified: seq<Classified>): nat {
    if classified == [] then 0
    else
      InstallTimeCount(classified[..|classified| - 1]) + (if IsInstallTime(classified[|classified| - 1]) then 1 else 0)
  }

  ghost predicate NothingIsDropped(review: Review, classified: seq<Classified>) {
    |classified|
    == |review.runtimeCandidates| + |review.appOpCandidates| + |review.warnings| + InstallTimeCount(classified)
  }

  /** Sorting the results by declaration is classifying the sorted declarations, since equal ones classify alike. */
  function ClassifyAll(catalog: seq<Entry>, declarations: seq<Declaration>, target: Option<string>)
    : (r: seq<Classified>)
    ensures forall c :: c in r ==> AutomationHasBounds(c)
  {
    var sorted := Sort(DeclarationLeq, declarations);
    seq(|sorted|, i requires 0 <= i < |sorted| => Classify(catalog, sorted[i], target))
  }

  /** The review of the sorted declarations; with a reviewed catalog each of them is counted exactly once. */
  method ClassifiedPermissionReview(catalog: seq<Entry>, declarations: seq<Declaration>, target: Option<string>)
    returns (review: Review)
    ensures IsReviewOf(review, ClassifyAll(catalog, declarations, target))
    ensures CatalogIsReviewed(catalog) ==> NothingIsDropped(review, ClassifyAll(catalog, declarations, target))
    ensures ReviewStates(review, catalog, declarations, target)
  {
    var classified := ClassifyAll(catalog, declarations, target);
    if CatalogIsReviewed(catalog) {
      AllAreAccountedFor(catalog, declarations, target);
    }
    review := FillReview(classified);
    ReviewMeans(review, catalog, declarations, target);
  }

  /** One permission more, in each list it belongs to. */
  function WithPermission(review: Review, c: Classified): Review {
    Review(
      review.permissions + [c],
      if RuntimeFor(c).Some? then review.runtimeCandidates + [RuntimeFor(c).value] else review.runtimeCandidates,
      if AppOpFor(c).Some? then review.appOpCandidates + [AppOpFor(c).value] else review.appOpCandidates,
      if WarningFor(c).Some? then review.warnings + [WarningFor(c).value] else review.warnings)
  }

  lemma ReviewGrows(review: Review, seen: seq<Classified>, c: Classified)
    requires IsReviewOf(review, seen)
    ensures IsReviewOf(WithPermission(review, c), seen + [c])
    ensures NothingIsDropped(review, seen) && IsAccountedFor(c) ==>
              NothingIsDropped(WithPermission(review, c), seen + [c])
  {
    ListsGrow(seen, c, RuntimeFor, review.runtimeCandidates);
    ListsGrow(seen, c, AppOpFor, review.appOpCandidates);
    ListsGrow(seen, c, WarningFor, review.warnings);
    assert (seen + [c])[..|seen|] == seen;
  }

  /** The loop over four growing lists; both `expect` calls are safe. */
  method FillReview(classified: seq<Classified>) returns (review: Review)
    requires forall c :: c in classified ==> AutomationHasBounds(c)
    ensures IsReviewOf(review, classified)
    ensures (forall c :: c in classified ==> IsAccountedFor(c)) ==> NothingIsDropped(review, classified)
  {
    review := Review([], [], [], []);
    for i := 0 to |classified|
      invariant IsReviewOf(review, classified[..i])
      invariant (forall c :: c in classified ==> IsAccountedFor(c)) ==> NothingIsDropped(review, classified[..i])
    {
      var c := classified[i];
      assert c in classified && classified[..i + 1] == classified[..i] + [c];
      ReviewGrows(review, classified[..i], c);
      review := AddToReview(review, c);
    }
    assert classified[..|classified|] == classified;
  }

  /** The body of that loop. */
  method AddToReview(before: Review, c: Classified) returns (review: Review)
    requires AutomationHasBounds(c)
    ensures review == WithPermission(before, c)
  {
    review := before;
    var warning := WarningFor(c);
    if warning.Some? {
      review := review.(warnings := review.warnings + [warning.value]);
    }
    match (c.classification, c.automation) {
      case (RuntimeGrantable, Some(RuntimeGrant(root))) =>
        assert c.apiBounds.Some?;
        var bounds := c.apiBounds.value;
        review := review.(runtimeCandidates :=
          review.runtimeCandidates + [RuntimeCandidate(c.declaration.name, root, bounds.minimum, bounds.maximum)]);
      case (AppOpGrantable, Some(AppOp(op, root))) =>
        assert c.apiBounds.Some?;
        var bounds := c.apiBounds.value;
        review := review.(appOpCandidates :=
          review.appOpCandidates + [AppOpCandidate(c.declaration.name, op, root, bounds.minimum, bounds.maximum)]);
      case _ =>
    }
    review := review.(permissions := review.permissions + [c]);
  }

  lemma AllAreAccountedFor(catalog: seq<Entry>, declarations: seq<Declaration>, target: Option<string>)
    requires CatalogIsReviewed(catalog)
    ensures forall c :: c in ClassifyAll(catalog, declarations, target) ==> IsAccountedFor(c)
  {
    var classified := ClassifyAll(catalog, declarations, target);
    forall c | c in classified ensures IsAccountedFor(c) {
      var i :| 0 <= i < |classified| && classified[i] == c;
      EveryPermissionIsAccountedFor(catalog, Sort(DeclarationLeq, declarations)[i], target);
    }
  }

  /** The catalog integrity rules that tie a classification to its automation. */
  ghost predicate EntryIsReviewed(entry: Entry) {
    match (entry.classification, entry.automation)
    case (RuntimeGrantable, Some(RuntimeGrant(_))) => entry.runtimePermissionModel
    case (AppOpGrantable, Some(AppOp(op, root))) =>
      op == "MANAGE_EXTERNAL_STORAGE" && root && entry.name == "android.permission.MANAGE_EXTERNAL_STORAGE"
    case (RuntimeGrantable, _) => false
    case (AppOpGrantable, _) => false
    case (_, Some(_)) => false
    case _ => true
  }

  ghost predicate CatalogIsReviewed(catalog: seq<Entry>) {
    && (forall e :: e in catalog ==>
          && EntryIsReviewed(e)
          && e.introductionApi > 0
          && (e.maximumApi.Some? ==> e.introductionApi <= e.maximumApi.value)
          && (e.minimumTargetSdk.Some? && e.maximumTargetSdk.Some? ==>
                e.minimumTargetSdk.value <= e.maximumTargetSdk.value))
    && (forall i, j :: 0 <= i < j < |catalog| ==> catalog[i].name != catalog[j].name)
  }

  lemma {:induction false} CatalogEntryIsMember(catalog: seq<Entry>, name: string)
    ensures CatalogEntry(catalog, name).Some? ==> CatalogEntry(catalog, name).value in catalog
  {
    if catalog != [] {
      CatalogEntryIsMember(catalog[1..], name);
    }
  }

  /**
   Over a reviewed catalog nothing is dropped silently: each declaration is
   offered as a candidate, or warned about, or known to be granted at install
   time, and exactly one of the three.
   */
  lemma EveryPermissionIsAccountedFor(catalog: seq<Entry>, d: Declaration, target: Option<string>)
    requires CatalogIsReviewed(catalog)
    ensures var c := Classify(catalog, d, target);
            AutomationHasBounds(c) && IsAccountedFor(c) && (CandidateFor(c).Some? <==> c.automation.Some?)
  {
    CatalogEntryIsMember(catalog, d.name);
    ReviewedEntryIsAccountedFor(catalog, d, target);
  }

  lemma ReviewedEntryIsAccountedFor(catalog: seq<Entry>, d: Declaration, target: Option<string>)
    requires CatalogEntry(catalog, d.name).Some? ==> EntryIsReviewed(CatalogEntry(catalog, d.name).value)
    ensures var c := Classify(catalog, d, target);
            AutomationHasBounds(c) && IsAccountedFor(c) && (CandidateFor(c).Some? <==> c.automation.Some?)
  {
    var entry := CatalogEntry(catalog, d.name);
    if entry.Some? && MaximumParses(d) {
      GatesPassIffInRange(entry.value, d, ManifestMaximum(d), target);
    }
  }

  /** The review of a manifest does not depend on the order its permissions were declared in. */
  lemma ReviewIgnoresDeclarationOrder(
      catalog: seq<Entry>, a: seq<Declaration>, b: seq<Declaration>, target: Option<string>)
    requires multiset(a) == multiset(b)
    ensures ClassifyAll(catalog, a, target) == ClassifyAll(catalog, b, target)
  {
    DeclarationOrderIsTotal();
    SortSorts(DeclarationLeq, a);
    SortSorts(DeclarationLeq, b);
    SortedIsUnique(DeclarationLeq, Sort(DeclarationLeq, a), Sort(DeclarationLeq, b));
  }

  // ---- The review in terms of declarations, catalog entries and device APIs ------------------

  /** The first entry of that name. */
  ghost predicate IsEntryFor(catalog: seq<Entry>, name: string, entry: Entry) {
    exists i :: 0 <= i < |catalog| && catalog[i] == entry && entry.name == name
                && forall j :: 0 <= j < i ==> catalog[j].name != name
  }

  lemma {:induction false} CatalogEntryMeans(catalog: seq<Entry>, name: string, entry: Entry)
    ensures CatalogEntry(catalog, name) == Some(entry) <==> IsEntryFor(catalog, name, entry)
    ensures CatalogEntry(catalog, name).None? <==> forall e :: e in catalog ==> e.name != name
  {
    if catalog != [] {
      CatalogEntryMeans(catalog[1..], name, entry);
      assert catalog == [catalog[0]] + catalog[1..];
      if IsEntryFor(catalog[1..], name, entry) && catalog[0].name != name {
        var i :| 0 <= i < |catalog[1..]| && catalog[1..][i] == entry && entry.name == name
                 && forall j :: 0 <= j < i ==> catalog[1..][j].name != name;
        forall j | 0 <= j < i + 1 ensures catalog[j].name != name {
          assert j > 0 ==> catalog[j] == catalog[1..][j - 1];
        }
        assert catalog[i + 1] == entry;
      }
      if IsEntryFor(catalog, name, entry) && catalog[0].name != name {
        var i :| 0 <= i < |catalog| && catalog[i] == entry && entry.name == name
                 && forall j :: 0 <= j < i ==> catalog[j].name != name;
        assert catalog[1..][i - 1] == entry;
        forall j | 0 <= j < i - 1 ensures catalog[1..][j].name != name {
          assert catalog[1..][j] == catalog[j + 1];
        }
      }
    }
  }

  /** A maximum that is no number, a target SDK that is missing, is no number, or is one. */
  ghost predicate MaximumIsText(d: Declaration) {
    d.maxSdkVersion.Some? && forall n: nat :: !ReadsAs(d.maxSdkVersion.value, n)
  }

  ghost predicate TargetIs(target: Option<string>, sdk: nat) {
    target.Some? && ReadsAs(target.value, sdk)
  }

  ghost predicate TargetFails(target: Option<string>, state: TargetSdkState) {
    match state
    case Missing => target.None?
    case NonNumeric => target.Some? && forall n: nat :: !ReadsAs(target.value, n)
  }

  lemma TextsRead(d: Declaration, target: Option<string>)
    ensures MaximumParses(d) <==> !MaximumIsText(d)
    ensures forall n: nat :: d.maxSdkVersion.Some? ==>
              (ParseU32(d.maxSdkVersion.value) == Some(n) <==> ReadsAs(d.maxSdkVersion.value, n))
    ensures forall sdk: nat :: NumericTargetSdk(target) == Ok(sdk) <==> TargetIs(target, sdk)
    ensures forall state :: NumericTargetSdk(target) == Err(state) <==> TargetFails(target, state)
  {
    if d.maxSdkVersion.Some? {
      forall n: nat ensures ParseU32(d.maxSdkVersion.value) == Some(n) <==> ReadsAs(d.maxSdkVersion.value, n) {
        ParseU32Iff(d.maxSdkVersion.value, n);
      }
    }
    if target.Some? {
      forall n: nat ensures ParseU32(target.value) == Some(n) <==> ReadsAs(target.value, n) {
        ParseU32Iff(target.value, n);
      }
    }
  }

  /** A device of this API level has the permission and is not excluded by the declaration. */
  ghost predicate DeviceMayAsk(entry: Entry, d: Declaration, api: nat) {
    && entry.introductionApi <= api
    && (entry.runtimePermissionModel || d.kind.UsesPermissionSdk23? ==> 23 <= api)
    && (forall limit: nat :: entry.maximumApi == Some(limit) ==> api <= limit)
    && (forall limit: nat :: d.maxSdkVersion.Some? && ReadsAs(d.maxSdkVersion.value, limit) ==> api <= limit)
  }

  ghost predicate GrantsAtRuntime(entry: Entry) {
    entry.runtimePermissionModel && exists root :: entry.automation == Some(RuntimeGrant(root))
  }

  ghost predicate AsksForTarget(entry: Entry) {
    || entry.minimumTargetSdk.Some? || entry.maximumTargetSdk.Some?
    || GrantsAtRuntime(entry)
  }

  /** The target SDK is a number in the entry's range, where the entry asks for one. */
  ghost predicate TargetIsServed(entry: Entry, target: Option<string>) {
    AsksForTarget(entry) ==>
      exists sdk: nat ::
        && TargetIs(target, sdk)
        && (forall limit: nat :: entry.minimumTargetSdk == Some(limit) ==> limit <= sdk)
        && (forall limit: nat :: entry.maximumTargetSdk == Some(limit) ==> sdk <= limit)
        && (GrantsAtRuntime(entry) ==> 23 <= sdk)
  }

  lemma MeaningsAgree(entry: Entry, d: Declaration, target: Option<string>)
    ensures TargetSdkInRange(entry, target) <==> TargetIsServed(entry, target)
    ensures forall api: nat :: DeviceSatisfies(entry, d, api) <==> DeviceMayAsk(entry, d, api)
    ensures HasRuntimeGrant(entry) <==> GrantsAtRuntime(entry)
  {
    TextsRead(d, target);
    assert HasRuntimeGrant(entry) ==> entry.automation == Some(RuntimeGrant(entry.automation.value.requiresRoot));
    if TargetSdkInRange(entry, target) && AsksForTarget(entry) {
      assert TargetIs(target, NumericTargetSdk(target).value);
    }
  }

  /** From `lowest` to `highest` is exactly where the declaration may be acted on, and that is somewhere. */
  ghost predicate SpansDevices(entry: Entry, d: Declaration, lowest: nat, highest: Option<nat>) {
    && (highest.Some? ==> lowest <= highest.value)
    && forall api: nat :: lowest <= api && (highest.Some? ==> api <= highest.value) <==> DeviceMayAsk(entry, d, api)
  }

  /** Automation is open to this declaration of this entry, on these devices. */
  ghost predicate IsOpenOn(
      entry: Entry, d: Declaration, target: Option<string>, lowest: nat, highest: Option<nat>)
  {
    !MaximumIsText(d) && TargetIsServed(entry, target) && SpansDevices(entry, d, lowest, highest)
  }

  /** What a declaration is offered as. */
  ghost predicate Offers(catalog: seq<Entry>, d: Declaration, target: Option<string>, c: Candidate) {
    exists entry :: IsEntryFor(catalog, d.name, entry) && entry.automation.Some?
      && IsOpenOn(entry, d, target, c.apiMin, c.apiMax) && c.permissionName == d.name
      && match c
         case RuntimeCandidate(_, root, _, _) =>
           entry.classification == RuntimeGrantable && entry.automation.value == RuntimeGrant(root)
         case AppOpCandidate(_, operation, root, _, _) =>
           entry.classification == AppOpGrantable && entry.automation.value == AppOp(operation, root)
  }

  lemma ClassifiedCandidateMeans(catalog: seq<Entry>, d: Declaration, target: Option<string>, c: Candidate)
    ensures CandidateFor(Classify(catalog, d, target)) == Some(c) <==> Offers(catalog, d, target, c)
  {
    var found := CatalogEntry(catalog, d.name);
    if found.Some? {
      var entry := found.value;
      CatalogEntryMeans(catalog, d.name, entry);
      CandidateOfEntryMeans(catalog, entry, d, target, c);
      forall e | IsEntryFor(catalog, d.name, e) ensures e == entry { CatalogEntryMeans(catalog, d.name, e); }
    } else {
      forall e ensures !IsEntryFor(catalog, d.name, e) { CatalogEntryMeans(catalog, d.name, e); }
    }
  }

  lemma CandidateOfEntryMeans(
      catalog: seq<Entry>, entry: Entry, d: Declaration, target: Option<string>, c: Candidate)
    requires CatalogEntry(catalog, d.name) == Some(entry)
    ensures CandidateFor(Classify(catalog, d, target)) == Some(c) <==>
            && entry.automation.Some?
            && IsOpenOn(entry, d, target, c.apiMin, c.apiMax) && c.permissionName == d.name
            && match c
               case RuntimeCandidate(_, root, _, _) =>
                 entry.classification == RuntimeGrantable && entry.automation.value == RuntimeGrant(root)
               case AppOpCandidate(_, operation, root, _, _) =>
                 entry.classification == AppOpGrantable && entry.automation.value == AppOp(operation, root)
  {
    MeaningsAgree(entry, d, target);
    TextsRead(d, target);
    if MaximumParses(d) && TargetSdkInRange(entry, target) {
      GatesPassIffInRange(entry, d, ManifestMaximum(d), target);
      BoundsMean(entry, d, c.apiMin, c.apiMax);
    } else if MaximumParses(d) {
      GatesPassIffInRange(entry, d, ManifestMaximum(d), target);
    }
  }

  lemma BoundsMean(entry: Entry, d: Declaration, lowest: nat, highest: Option<nat>)
    requires MaximumParses(d)
    ensures Bounded(entry, d, ManifestMaximum(d)).apiBounds == Some(ApiBounds(lowest, highest))
            <==> SpansDevices(entry, d, lowest, highest)
  {
    MeaningsAgree(entry, d, None);
    IntervalIsExact(entry, d);
    var bounds := Bounded(entry, d, ManifestMaximum(d)).apiBounds;
    if SpansDevices(entry, d, lowest, highest) {
      assert DeviceMayAsk(entry, d, lowest);
      assert DeviceSatisfies(entry, d, lowest);
      IntervalsAgree(bounds.value, ApiBounds(lowest, highest));
    }
  }

  /** Two intervals with the same members are one, unless they are empty. */
  lemma IntervalsAgree(a: ApiBounds, b: ApiBounds)
    requires InBounds(a, a.minimum) && InBounds(b, b.minimum)
    requires forall api: nat :: InBounds(a, api) <==> InBounds(b, api)
    ensures a == b
  {
    assert InBounds(b, a.minimum) && InBounds(a, b.minimum);
    var pastA := a.minimum + if a.maximum.Some? then a.maximum.value + 1 else 0;
    var pastB := b.minimum + if b.maximum.Some? then b.maximum.value + 1 else 0;
    assert InBounds(a, pastA) <==> InBounds(b, pastA);
    assert InBounds(a, pastB) <==> InBounds(b, pastB);
    if a.maximum.Some? && b.maximum.Some? {
      assert InBounds(a, a.maximum.value) && InBounds(b, b.maximum.value);
    }
  }

  // ---- Every answer of the classification ------------------------------------------------------

  /** Which declarations cannot be decided, and which are decided against. */
  ghost predicate IsUndecidable(entry: Option<Entry>, d: Declaration, target: Option<string>) {
    || MaximumIsText(d)
    || (entry.Some? && AsksForTarget(entry.value) && forall sdk: nat :: !TargetIs(target, sdk))
  }

  ghost predicate IsExcluded(entry: Option<Entry>, d: Declaration, target: Option<string>) {
    !MaximumIsText(d) && entry.Some?
    && (|| TargetIsBelow(entry.value, target) || TargetIsAbove(entry.value, target)
        || (TargetIsServed(entry.value, target) && forall api: nat :: !DeviceMayAsk(entry.value, d, api)))
  }

  ghost predicate TargetIsBelow(entry: Entry, target: Option<string>) {
    exists sdk: nat :: TargetIs(target, sdk) && entry.minimumTargetSdk.Some? && sdk < entry.minimumTargetSdk.value
  }

  ghost predicate TargetIsAbove(entry: Entry, target: Option<string>) {
    exists sdk: nat :: TargetIs(target, sdk) && entry.maximumTargetSdk.Some? && sdk > entry.maximumTargetSdk.value
  }

  /** A runtime permission of an application that targets no runtime permission model is granted at install. */
  ghost predicate IsGrantedAtInstall(entry: Option<Entry>, target: Option<string>) {
    entry.Some? && GrantsAtRuntime(entry.value) && exists sdk: nat :: TargetIs(target, sdk) && sdk < 23
  }

  /** The warning a declaration draws. */
  ghost predicate Warns(entry: Option<Entry>, d: Declaration, target: Option<string>, w: Warning) {
    && w.permissionName == d.name
    && if IsUndecidable(entry, d, target) then w.code == "apk_permission_applicability_indeterminate"
       else if IsExcluded(entry, d, target) then w.code == "apk_permission_not_applicable"
       else if IsGrantedAtInstall(entry, target) then false
       else
         || (entry.Some? && entry.value.classification == RuntimeRestricted
             && w.code == "apk_permission_runtime_restricted")
         || (entry.Some? && entry.value.classification == ManualSpecialAccess
             && w.code == "apk_permission_manual_special_access")
         || (entry.Some? && entry.value.classification == SignatureOrPrivileged
             && w.code == "apk_permission_signature_or_privileged")
         || ((entry.None? || entry.value.classification == Unknown) && w.code == "apk_permission_unknown")
  }

  /** A limit that no device satisfying the rest stays below. */
  ghost predicate IsLeastMaximum(entry: Entry, d: Declaration, maximum: nat) {
    && (entry.maximumApi == Some(maximum) || (d.maxSdkVersion.Some? && ReadsAs(d.maxSdkVersion.value, maximum)))
    && (forall limit: nat :: entry.maximumApi == Some(limit) ==> maximum <= limit)
    && (forall limit: nat :: d.maxSdkVersion.Some? && ReadsAs(d.maxSdkVersion.value, limit) ==> maximum <= limit)
  }

  /** Why an applicability was reported, for each report. */
  ghost predicate IsReason(entry: Option<Entry>, d: Declaration, target: Option<string>, a: Applicability) {
    match a
    case Applicable => !IsUndecidable(entry, d, target) && !IsExcluded(entry, d, target)
    case Indeterminate(InvalidMaxSdkVersion) => MaximumIsText(d)
    case Indeterminate(TargetSdkUnavailable(minimum, state)) =>
      && !MaximumIsText(d) && entry.Some? && TargetFails(target, state)
      && if entry.value.minimumTargetSdk.Some? then minimum == entry.value.minimumTargetSdk.value
         else entry.value.maximumTargetSdk.None? && GrantsAtRuntime(entry.value) && minimum == 23
    case Indeterminate(MaximumTargetSdkUnavailable(maximum, state)) =>
      && !MaximumIsText(d) && entry.Some? && TargetFails(target, state)
      && entry.value.minimumTargetSdk.None? && entry.value.maximumTargetSdk == Some(maximum)
    case NotApplicable(TargetSdkBelowMinimum(minimum)) =>
      !MaximumIsText(d) && entry.Some? && entry.value.minimumTargetSdk == Some(minimum)
      && TargetIsBelow(entry.value, target)
    case NotApplicable(TargetSdkAboveMaximum(maximum, sdk)) =>
      !MaximumIsText(d) && entry.Some? && entry.value.maximumTargetSdk == Some(maximum)
      && TargetIs(target, sdk) && maximum < sdk && !TargetIsBelow(entry.value, target)
    case NotApplicable(MaxSdkVersionExceeded(maximum)) =>
      !MaximumIsText(d) && entry.Some? && TargetIsServed(entry.value, target)
      && (forall api: nat :: !DeviceMayAsk(entry.value, d, api)) && IsLeastMaximum(entry.value, d, maximum)
  }

  /** The class reported: the entry's own unless the target SDK decides otherwise. */
  ghost predicate IsClassOf(entry: Option<Entry>, d: Declaration, target: Option<string>, c: Classification) {
    if entry.None? then c == Unknown
    else if MaximumIsText(d) || TargetIsBelow(entry.value, target) || TargetIsAbove(entry.value, target) then
      c == entry.value.classification
    else if IsGrantedAtInstall(entry, target) then c == InstallTime
    else if GrantsAtRuntime(entry.value) && IsUndecidable(entry, d, target)
            && entry.value.minimumTargetSdk.None? && entry.value.maximumTargetSdk.None? then c == Unknown
    else c == entry.value.classification
  }

  lemma ApplicabilityMeans(entry: Option<Entry>, d: Declaration, target: Option<string>)
    ensures var decision := DeclarationApplicability(entry, d, target);
            && IsReason(entry, d, target, decision.applicability)
            && IsClassOf(entry, d, target, decision.classification)
            && (decision.applicability.Applicable? <==>
                  !IsUndecidable(entry, d, target) && !IsExcluded(entry, d, target))
            && (decision.applicability.Indeterminate? <==> IsUndecidable(entry, d, target))
  {
    TextsRead(d, target);
    if entry.Some? {
      MeaningsAgree(entry.value, d, target);
      if MaximumParses(d) {
        GatesPassIffInRange(entry.value, d, ManifestMaximum(d), target);
        IntervalIsExact(entry.value, d);
      }
    }
  }

  lemma WarningMeans(catalog: seq<Entry>, d: Declaration, target: Option<string>, w: Warning)
    ensures WarningFor(Classify(catalog, d, target)) == Some(w)
            <==> Warns(CatalogEntry(catalog, d.name), d, target, w)
  {
    ApplicabilityMeans(CatalogEntry(catalog, d.name), d, target);
  }

  // ---- The whole review ----------------------------------------------------------------------

  /** A classified permission, in terms of its declaration and the catalog's entry for it. */
  ghost predicate IsClassifiedAs(catalog: seq<Entry>, d: Declaration, target: Option<string>, c: Classified) {
    exists entry: Option<Entry> ::
      && IsEntryOrNone(catalog, d.name, entry)
      && c.declaration == d
      && c.introductionApi == (if entry.Some? then Some(entry.value.introductionApi) else None)
      && IsReason(entry, d, target, c.applicability) && IsClassOf(entry, d, target, c.classification)
      && (forall lowest: nat, highest: Option<nat> ::
            c.apiBounds == Some(ApiBounds(lowest, highest))
            <==> entry.Some? && IsOpenOn(entry.value, d, target, lowest, highest))
      && c.automation == (if entry.Some? && c.apiBounds.Some? then entry.value.automation else None)
  }

  ghost predicate IsEntryOrNone(catalog: seq<Entry>, name: string, entry: Option<Entry>) {
    match entry
    case Some(e) => IsEntryFor(catalog, name, e)
    case None => forall e :: e in catalog ==> e.name != name
  }

  lemma ClassificationMeans(catalog: seq<Entry>, d: Declaration, target: Option<string>)
    ensures IsClassifiedAs(catalog, d, target, Classify(catalog, d, target))
  {
    var entry, c := CatalogEntry(catalog, d.name), Classify(catalog, d, target);
    TheEntry(catalog, d.name);
    ApplicabilityMeans(entry, d, target);
    if entry.Some? {
      forall lowest: nat, highest: Option<nat>
        ensures c.apiBounds == Some(ApiBounds(lowest, highest)) <==> IsOpenOn(entry.value, d, target, lowest, highest)
      {
        OpenBoundsMean(catalog, entry.value, d, target, lowest, highest);
      }
      GatesPassIffInRange(entry.value, d, ManifestMaximum(d), target);
    }
  }

  lemma TheEntry(catalog: seq<Entry>, name: string)
    ensures forall entry: Option<Entry> :: IsEntryOrNone(catalog, name, entry) <==> entry == CatalogEntry(catalog, name)
  {
    var found := CatalogEntry(catalog, name);
    if found.Some? {
      CatalogEntryMeans(catalog, name, found.value);
      var i :| 0 <= i < |catalog| && catalog[i] == found.value;
      assert found.value in catalog;
    }
    forall e ensures IsEntryFor(catalog, name, e) <==> found == Some(e) {
      CatalogEntryMeans(catalog, name, e);
    }
    if found.None? && catalog != [] {
      CatalogEntryMeans(catalog, name, catalog[0]);
    }
  }

  lemma OpenBoundsMean(
      catalog: seq<Entry>, entry: Entry, d: Declaration, target: Option<string>, lowest: nat, highest: Option<nat>)
    requires CatalogEntry(catalog, d.name) == Some(entry)
    ensures Classify(catalog, d, target).apiBounds == Some(ApiBounds(lowest, highest))
            <==> IsOpenOn(entry, d, target, lowest, highest)
  {
    MeaningsAgree(entry, d, target);
    TextsRead(d, target);
    if MaximumParses(d) {
      GatesPassIffInRange(entry, d, ManifestMaximum(d), target);
      BoundsMean(entry, d, lowest, highest);
    }
  }

  /** What the four lists say of the declarations. */
  ghost predicate ReviewStates(
      review: Review, catalog: seq<Entry>, declarations: seq<Declaration>, target: Option<string>)
  {
    && |review.permissions| == |declarations|
    && (forall c :: c in review.permissions ==>
          c.declaration in declarations && IsClassifiedAs(catalog, c.declaration, target, c))
    && (forall d :: d in declarations ==> exists c :: c in review.permissions && c.declaration == d)
    && (forall c :: c in review.runtimeCandidates <==>
          c.RuntimeCandidate? && exists d :: d in declarations && Offers(catalog, d, target, c))
    && (forall c :: c in review.appOpCandidates <==>
          c.AppOpCandidate? && exists d :: d in declarations && Offers(catalog, d, target, c))
    && (forall w :: w in review.warnings <==> exists d :: d in declarations && DrawsWarning(catalog, d, target, w))
  }

  ghost predicate DrawsWarning(catalog: seq<Entry>, d: Declaration, target: Option<string>, w: Warning) {
    exists entry: Option<Entry> :: IsEntryOrNone(catalog, d.name, entry) && Warns(entry, d, target, w)
  }

  lemma DrawsWarningMeans(catalog: seq<Entry>, d: Declaration, target: Option<string>, w: Warning)
    ensures WarningFor(Classify(catalog, d, target)) == Some(w) <==> DrawsWarning(catalog, d, target, w)
  {
    WarningMeans(catalog, d, target, w);
    TheEntry(catalog, d.name);
  }

  /** Membership in a list that holds exactly what the permissions give. */
  lemma ListedIffGiven<T(!new)>(classified: seq<Classified>, gives: Classified -> Option<T>, list: seq<T>)
    requires ListsExactly(classified, gives, list)
    ensures forall x :: x in list <==> exists c :: c in classified && gives(c) == Some(x)
  {
    forall x ensures x in list <==> exists c :: c in classified && gives(c) == Some(x) {
      if x in list {
        var k :| 0 <= k < |list| && list[k] == x;
        var i := EntryIsGiven(classified, gives, list, k);
        assert classified[i] in classified;
      }
      if exists c :: c in classified && gives(c) == Some(x) {
        var c :| c in classified && gives(c) == Some(x);
        var i :| 0 <= i < |classified| && classified[i] == c;
        assert InPlace(classified, gives, list, i);
      }
    }
  }

  lemma ClassifiedAre(catalog: seq<Entry>, declarations: seq<Declaration>, target: Option<string>)
    ensures var classified := ClassifyAll(catalog, declarations, target);
            && |classified| == |declarations|
            && (forall c :: c in classified ==> c.declaration in declarations
                                                && c == Classify(catalog, c.declaration, target))
            && (forall d :: d in declarations ==> Classify(catalog, d, target) in classified)
  {
    var classified, sorted := ClassifyAll(catalog, declarations, target), Sort(DeclarationLeq, declarations);
    MembersOfMultiset(sorted, declarations);
    forall c | c in classified ensures c.declaration in declarations && c == Classify(catalog, c.declaration, target) {
      var i :| 0 <= i < |classified| && classified[i] == c;
      assert sorted[i] in sorted;
    }
    forall d | d in declarations ensures Classify(catalog, d, target) in classified {
      var i :| 0 <= i < |sorted| && sorted[i] == d;
      assert classified[i] == Classify(catalog, d, target);
    }
  }

  lemma CandidateListsMean(
      review: Review, catalog: seq<Entry>, declarations: seq<Declaration>, target: Option<string>, c: Candidate)
    requires IsReviewOf(review, ClassifyAll(catalog, declarations, target))
    ensures c in review.runtimeCandidates <==>
            c.RuntimeCandidate? && exists d :: d in declarations && Offers(catalog, d, target, c)
    ensures c in review.appOpCandidates <==>
            c.AppOpCandidate? && exists d :: d in declarations && Offers(catalog, d, target, c)
  {
    var classified := ClassifyAll(catalog, declarations, target);
    ListedIffGiven(classified, RuntimeFor, review.runtimeCandidates);
    ListedIffGiven(classified, AppOpFor, review.appOpCandidates);
    ClassifiedAre(catalog, declarations, target);
    forall d ensures CandidateFor(Classify(catalog, d, target)) == Some(c) <==> Offers(catalog, d, target, c) {
      ClassifiedCandidateMeans(catalog, d, target, c);
    }
  }

  lemma WarningListMeans(
      review: Review, catalog: seq<Entry>, declarations: seq<Declaration>, target: Option<string>, w: Warning)
    requires IsReviewOf(review, ClassifyAll(catalog, declarations, target))
    ensures w in review.warnings <==> exists d :: d in declarations && DrawsWarning(catalog, d, target, w)
  {
    ListedIffGiven(ClassifyAll(catalog, declarations, target), WarningFor, review.warnings);
    ClassifiedAre(catalog, declarations, target);
    forall d ensures WarningFor(Classify(catalog, d, target)) == Some(w) <==> DrawsWarning(catalog, d, target, w) {
      DrawsWarningMeans(catalog, d, target, w);
    }
  }

  /** The review, in terms of declarations, catalog entries, target SDK and device APIs alone. */
  lemma ReviewMeans(review: Review, catalog: seq<Entry>, declarations: seq<Declaration>, target: Option<string>)
    requires IsReviewOf(review, ClassifyAll(catalog, declarations, target))
    ensures ReviewStates(review, catalog, declarations, target)
  {
    ClassifiedAre(catalog, declarations, target);
    forall c | c in review.permissions ensures IsClassifiedAs(catalog, c.declaration, target, c) {
      ClassificationMeans(catalog, c.declaration, target);
    }
    forall d | d in declarations ensures exists c :: c in review.permissions && c.declaration == d {
      assert Classify(catalog, d, target) in review.permissions;
    }
    forall c { CandidateListsMean(review, catalog, declarations, target, c); }
    forall w { WarningListMeans(review, catalog, declarations, target, w); }
  }
}
