/**
 `source_app_refs` of `app_definition_admission.rs`: which App Definitions the
 source of a copy comes from. A depth-first search over step references with
 one visited set shared by all branches, proved to find exactly the reachable
 contributions on every step graph, cyclic ones included.
 */
module AppSources {
  import opened Wrappers
  import opened RecipeModel

  function Producer(steps: seq<Step>, id: string): Option<Step> {
    if steps == [] then None
    else if steps[0].id == id then Some(steps[0])
    else Producer(steps[1..], id)
  }

  function StepIds(recipe: Recipe): set<string> {
    set s | s in recipe.steps :: s.id
  }

  lemma {:induction false} ProducerIsAStep(steps: seq<Step>, id: string)
    ensures Producer(steps, id).Some? ==> Producer(steps, id).value in steps && Producer(steps, id).value.id == id
  {
    if steps != [] {
      ProducerIsAStep(steps[1..], id);
    }
  }

  function AppOfArtifact(recipe: Recipe, id: string): set<string> {
    var artifact: Option<Artifact> := Get(recipe.artifacts, id);
    match artifact
    case Some(AppArtifact(app, _)) => {app}
    case _ => {}
  }

  /** The Apps of the artifacts a step extracts. */
  function ExtractedApps(recipe: Recipe, step: Step): set<string> {
    if step.typeName != "extract_artifacts" then {}
    else set id, app | id in SelectedArtifacts(recipe, step) && app in AppOfArtifact(recipe, id) :: app
  }

  /** The App an artifact reference names directly. */
  function DirectApps(recipe: Recipe, reference: string): set<string> {
    match ParseReference(reference)
    case Some(ArtifactField(id, _)) => AppOfArtifact(recipe, id)
    case _ => {}
  }

  // ---- The graph, independent of the search -------------------------------------------

  function NodeReferences(recipe: Recipe, id: string): seq<string> {
    var producer := Producer(recipe.steps, id);
    if producer.None? then [] else References(producer.value.params)
  }

  /** What one step contributes by itself: artifacts it references and artifacts it extracts. */
  ghost predicate Contributes(recipe: Recipe, id: string, app: string) {
    || (exists r :: r in NodeReferences(recipe, id) && app in DirectApps(recipe, r))
    || (Producer(recipe.steps, id).Some? && app in ExtractedApps(recipe, Producer(recipe.steps, id).value))
  }

  ghost predicate Edge(recipe: Recipe, id: string, next: string) {
    exists r :: r in NodeReferences(recipe, id) && StepTarget(r) == Some(next)
  }

  ghost predicate IsPath(recipe: Recipe, path: seq<string>) {
    path != [] && forall i :: 0 < i < |path| ==> Edge(recipe, path[i - 1], path[i])
  }

  ghost predicate Reaches(recipe: Recipe, from: string, to: string) {
    exists path :: IsPath(recipe, path) && path[0] == from && path[|path| - 1] == to
  }

  /** The Apps whose artifacts feed a reference: named directly, or contributed by a reachable step. */
  ghost predicate IsSourceApp(recipe: Recipe, reference: string, app: string) {
    || app in DirectApps(recipe, reference)
    || (StepTarget(reference).Some?
        && exists id :: Reaches(recipe, StepTarget(reference).value, id) && Contributes(recipe, id, app))
  }

  // ---- The search ------------------------------------------------------------------------

  /** What a search from `roots` leaves behind: newly visited steps are reachable and closed, and give the Apps. */
  ghost predicate Explored(
      recipe: Recipe, roots: seq<string>, visited: set<string>, after: set<string>, apps: set<string>)
  {
    && visited <= after
    && (forall r :: r in roots && StepTarget(r).Some? ==> StepTarget(r).value in after)
    && (forall id, next :: id in after - visited && Edge(recipe, id, next) ==> next in after)
    && (forall id :: id in after - visited ==> ReachedFromRoots(recipe, roots, id))
    && (forall app :: app in apps <==> GivenBy(recipe, roots, after - visited, app))
  }

  ghost predicate ReachedFromRoots(recipe: Recipe, roots: seq<string>, id: string) {
    exists r :: r in roots && StepTarget(r).Some? && Reaches(recipe, StepTarget(r).value, id)
  }

  ghost predicate GivenBy(recipe: Recipe, roots: seq<string>, ids: set<string>, app: string) {
    || (exists r :: r in roots && app in DirectApps(recipe, r))
    || (exists id :: id in ids && Contributes(recipe, id, app))
  }

  method SourceAppRefs(recipe: Recipe, reference: string, visited: set<string>)
    returns (apps: set<string>, after: set<string>)
    ensures Explored(recipe, [reference], visited, after, apps)
    decreases StepIds(recipe) - visited
  {
    match ParseReference(reference) {
      case Some(ArtifactField(id, _)) =>
        apps, after := AppOfArtifact(recipe, id), visited;
        DirectReferenceExplored(recipe, reference, visited);
      case Some(StepShorthand(id)) =>
        apps, after := SearchStep(recipe, reference, id, visited);
      case Some(StepOutput(id, _)) =>
        apps, after := SearchStep(recipe, reference, id, visited);
      case _ =>
        apps, after := {}, visited;
        DirectReferenceExplored(recipe, reference, visited);
    }
  }

  /** The arm for a step reference: visit each step once, then its references, then its extractions. */
  method SearchStep(recipe: Recipe, reference: string, id: string, visited: set<string>)
    returns (apps: set<string>, after: set<string>)
    requires StepTarget(reference) == Some(id)
    ensures Explored(recipe, [reference], visited, after, apps)
    decreases StepIds(recipe) - visited, 0
  {
    apps := {};
    if id in visited {
      after := visited;
      RevisitExplored(recipe, reference, id, visited);
      return;
    }
    after := visited + {id};
    var producer := Producer(recipe.steps, id);
    if producer.None? {
      StepExplored(recipe, reference, id, visited, after, {}, {});
      return;
    }
    ProducerIsAStep(recipe.steps, id);
    assert id in StepIds(recipe);
    var references := References(producer.value.params);
    for i := 0 to |references|
      invariant Explored(recipe, references[..i], visited + {id}, after, apps)
    {
      var more, then' := SourceAppRefs(recipe, references[i], after);
      assert references[..i + 1] == references[..i] + [references[i]];
      ExploredInSequence(recipe, references[..i], references[i], visited + {id}, after, apps, then', more);
      apps, after := apps + more, then';
    }
    assert references[..|references|] == references;
    StepExplored(recipe, reference, id, visited, after, apps, ExtractedApps(recipe, producer.value));
    apps := apps + ExtractedApps(recipe, producer.value);
  }

  lemma DirectReferenceExplored(recipe: Recipe, reference: string, visited: set<string>)
    requires StepTarget(reference).None?
    ensures Explored(recipe, [reference], visited, visited, DirectApps(recipe, reference))
  {
    var roots, apps := [reference], DirectApps(recipe, reference);
    assert visited - visited == {};
    forall app ensures app in apps <==> GivenBy(recipe, roots, {}, app) {
      assert reference in roots;
    }
  }

  lemma RevisitExplored(recipe: Recipe, reference: string, id: string, visited: set<string>)
    requires StepTarget(reference) == Some(id) && id in visited
    ensures Explored(recipe, [reference], visited, visited, {})
  {
    assert visited - visited == {};
    assert DirectApps(recipe, reference) == {};
  }

  /** Searching one more root after others: the second search may skip what the first visited. */
  lemma ExploredInSequence(
      recipe: Recipe, roots: seq<string>, root: string, visited: set<string>, middle: set<string>, apps: set<string>,
      after: set<string>, more: set<string>)
    requires Explored(recipe, roots, visited, middle, apps)
    requires Explored(recipe, [root], middle, after, more)
    ensures Explored(recipe, roots + [root], visited, after, apps + more)
  {
    var all, ids := roots + [root], after - visited;
    assert ids == (middle - visited) + (after - middle);
    assert forall r :: r in all <==> r in roots || r in [root];
    forall id | id in ids ensures ReachedFromRoots(recipe, all, id) {
      assert ReachedFromRoots(recipe, roots, id) || ReachedFromRoots(recipe, [root], id);
    }
    forall app ensures app in apps + more <==> GivenBy(recipe, all, ids, app) {
      assert GivenBy(recipe, all, ids, app)
        <==> GivenBy(recipe, roots, middle - visited, app) || GivenBy(recipe, [root], after - middle, app);
    }
  }

  lemma ReachesItself(recipe: Recipe, id: string)
    ensures Reaches(recipe, id, id)
  {
    assert IsPath(recipe, [id]) && [id][0] == id && [id][|[id]| - 1] == id;
  }

  lemma PrependStaysPath(recipe: Recipe, id: string, path: seq<string>)
    requires IsPath(recipe, path) && Edge(recipe, id, path[0])
    ensures IsPath(recipe, [id] + path)
  {
    var longer := [id] + path;
    forall i | 0 < i < |longer| ensures Edge(recipe, longer[i - 1], longer[i]) {
      if i > 1 {
        assert longer[i - 1] == path[i - 2] && longer[i] == path[i - 1];
        assert Edge(recipe, path[i - 2], path[i - 1]);
      }
    }
  }

  lemma ReachesThrough(recipe: Recipe, id: string, next: string, to: string)
    requires Edge(recipe, id, next) && Reaches(recipe, next, to)
    ensures Reaches(recipe, id, to)
  {
    var path :| IsPath(recipe, path) && path[0] == next && path[|path| - 1] == to;
    PrependStaysPath(recipe, id, path);
    var longer := [id] + path;
    assert longer[0] == id && longer[|longer| - 1] == to;
  }

  /** A step's references searched, plus its own extractions, is that step searched. */
  lemma StepExplored(
      recipe: Recipe, reference: string, id: string, visited: set<string>, after: set<string>, apps: set<string>,
      extracted: set<string>)
    requires StepTarget(reference) == Some(id) && id !in visited
    requires Explored(recipe, NodeReferences(recipe, id), visited + {id}, after, apps)
             || (NodeReferences(recipe, id) == [] && after == visited + {id} && apps == {})
    requires var p := Producer(recipe.steps, id); extracted == if p.None? then {} else ExtractedApps(recipe, p.value)
    ensures Explored(recipe, [reference], visited, after, apps + extracted)
  {
    var inner, ids := after - (visited + {id}), after - visited;
    assert ids == inner + {id};
    ReachesItself(recipe, id);
    assert reference in [reference];
    forall n | n in inner ensures Reaches(recipe, id, n) {
      assert ReachedFromRoots(recipe, NodeReferences(recipe, id), n);
      var r :| r in NodeReferences(recipe, id) && StepTarget(r).Some? && Reaches(recipe, StepTarget(r).value, n);
      ReachesThrough(recipe, id, StepTarget(r).value, n);
    }
    forall app ensures app in apps + extracted <==> GivenBy(recipe, [reference], ids, app) {
      StepGives(recipe, reference, id, inner, app);
      assert app in apps <==> GivenBy(recipe, NodeReferences(recipe, id), inner, app);
    }
  }

  lemma StepGives(recipe: Recipe, reference: string, id: string, inner: set<string>, app: string)
    requires StepTarget(reference) == Some(id)
    ensures GivenBy(recipe, [reference], inner + {id}, app) <==>
            || GivenBy(recipe, NodeReferences(recipe, id), inner, app)
            || (Producer(recipe.steps, id).Some? && app in ExtractedApps(recipe, Producer(recipe.steps, id).value))
  {
    assert DirectApps(recipe, reference) == {};
    assert (exists n :: n in inner + {id} && Contributes(recipe, n, app))
      <==> Contributes(recipe, id, app) || exists n :: n in inner && Contributes(recipe, n, app) by {
      assert id in inner + {id};
    }
  }

  // ---- From the empty visited set the search is exact --------------------------------------

  lemma {:induction false} ClosedHoldsReachable(recipe: Recipe, ids: set<string>, path: seq<string>)
    requires IsPath(recipe, path) && path[0] in ids
    requires forall id, next :: id in ids && Edge(recipe, id, next) ==> next in ids
    ensures path[|path| - 1] in ids
  {
    if |path| > 1 {
      ClosedHoldsReachable(recipe, ids, path[..|path| - 1]);
      assert Edge(recipe, path[|path| - 2], path[|path| - 1]);
    }
  }

  lemma VisitedIsReachable(recipe: Recipe, reference: string, target: string, after: set<string>, apps: set<string>)
    requires Explored(recipe, [reference], {}, after, apps) && StepTarget(reference) == Some(target)
    ensures forall id :: id in after <==> Reaches(recipe, target, id)
  {
    assert after - {} == after;
    assert reference in [reference];
    forall id ensures id in after <==> Reaches(recipe, target, id) {
      if Reaches(recipe, target, id) {
        var path :| IsPath(recipe, path) && path[0] == target && path[|path| - 1] == id;
        ClosedHoldsReachable(recipe, after, path);
      }
      if id in after {
        assert ReachedFromRoots(recipe, [reference], id);
      }
    }
  }

  lemma OneRootGives(recipe: Recipe, reference: string, ids: set<string>, app: string)
    requires forall id :: id in ids <==>
               StepTarget(reference).Some? && Reaches(recipe, StepTarget(reference).value, id)
    ensures GivenBy(recipe, [reference], ids, app) <==> IsSourceApp(recipe, reference, app)
  {
    assert (exists r :: r in [reference] && app in DirectApps(recipe, r)) <==> app in DirectApps(recipe, reference) by {
      assert reference in [reference];
    }
  }

  /** Started with nothing visited, the search returns exactly the source Apps: a skipped revisit loses none. */
  lemma FullSearchIsExact(recipe: Recipe, reference: string, after: set<string>, apps: set<string>)
    requires Explored(recipe, [reference], {}, after, apps)
    ensures forall app :: app in apps <==> IsSourceApp(recipe, reference, app)
  {
    assert after - {} == after;
    if StepTarget(reference).Some? {
      VisitedIsReachable(recipe, reference, StepTarget(reference).value, after, apps);
    } else {
      assert forall id :: id in after ==> ReachedFromRoots(recipe, [reference], id);
    }
    forall app ensures app in apps <==> IsSourceApp(recipe, reference, app) {
      OneRootGives(recipe, reference, after, app);
    }
  }

  /** Whether a copy step's source comes from an App. */
  ghost predicate CopiesFrom(recipe: Recipe, step: Step, app: string) {
    var source := Get(step.params, "source");
    source.Some? && source.value.Ref? && IsSourceApp(recipe, source.value.reference, app)
  }

  method CopySourceAppRefs(recipe: Recipe, step: Step) returns (apps: set<string>)
    ensures forall app :: app in apps <==> CopiesFrom(recipe, step, app)
  {
    var source: Option<ParamValue> := Get(step.params, "source");
    match source {
      case Some(Ref(reference)) =>
        var after;
        apps, after := SourceAppRefs(recipe, reference, {});
        FullSearchIsExact(recipe, reference, after, apps);
      case _ =>
        apps := {};
    }
  }

  // ---- The same graph, in terms of the Recipe's own entries and texts ------------------------

  /** The first step of that id. */
  ghost predicate IsProducer(steps: seq<Step>, id: string, step: Step) {
    exists i :: 0 <= i < |steps| && steps[i] == step && step.id == id && forall j :: 0 <= j < i ==> steps[j].id != id
  }

  lemma {:induction false} ProducerMeans(steps: seq<Step>, id: string, step: Step)
    ensures Producer(steps, id) == Some(step) <==> IsProducer(steps, id, step)
  {
    if steps != [] {
      var rest := steps[1..];
      ProducerMeans(rest, id, step);
      if steps[0].id != id {
        if IsProducer(rest, id, step) {
          var i :| 0 <= i < |rest| && rest[i] == step && step.id == id && forall j :: 0 <= j < i ==> rest[j].id != id;
          assert steps[i + 1] == step && forall j :: 0 < j < i + 1 ==> steps[j] == rest[j - 1];
        }
        if IsProducer(steps, id, step) {
          var i :| 0 <= i < |steps| && steps[i] == step && step.id == id
                   && forall j :: 0 <= j < i ==> steps[j].id != id;
          assert rest[i - 1] == step && forall j :: 0 <= j < i - 1 ==> rest[j] == steps[j + 1];
        }
      }
    }
  }

  /** The artifact's first definition binds it to the App. */
  ghost predicate ArtifactIsOf(recipe: Recipe, id: string, app: string) {
    exists name :: IsFirst(recipe.artifacts, id, AppArtifact(app, name))
  }

  /** The text is an artifact reference, and the artifact is of the App. */
  ghost predicate TextNamesApp(recipe: Recipe, reference: string, app: string) {
    exists id, field :: reference == "artifacts." + id + "." + field && id != "" && field != "" && '.' !in field
                        && ArtifactIsOf(recipe, id, app)
  }

  /** The text is a reference to a step, by its id or by one of its outputs. */
  ghost predicate TextNamesStep(reference: string, id: string) {
    || (reference == "steps." + id && IsWritable(StepShorthand(id)))
    || (exists field :: reference == "steps." + id + ".outputs." + field && IsWritable(StepOutput(id, field)))
  }

  ghost predicate StepHasReference(step: Step, reference: string) {
    exists p :: p in step.params && p.value == Ref(reference)
  }

  /** Step `id` takes something from step `next`. */
  ghost predicate TakesFrom(recipe: Recipe, id: string, next: string) {
    exists step, reference ::
      IsProducer(recipe.steps, id, step) && StepHasReference(step, reference) && TextNamesStep(reference, next)
  }

  /** Step `id` names an artifact of the App, or extracts one. */
  ghost predicate BringsIn(recipe: Recipe, id: string, app: string) {
    exists step :: IsProducer(recipe.steps, id, step) && StepBringsIn(recipe, step, app)
  }

  ghost predicate StepBringsIn(recipe: Recipe, step: Step, app: string) {
    || (exists reference :: StepHasReference(step, reference) && TextNamesApp(recipe, reference, app))
    || (step.typeName == "extract_artifacts"
        && exists id :: Selects(recipe, step, id) && ArtifactIsOf(recipe, id, app))
  }

  /** Each step of the chain takes from the next one. */
  ghost predicate IsChain(recipe: Recipe, chain: seq<string>) {
    chain != [] && forall i :: 0 < i < |chain| ==> TakesFrom(recipe, chain[i - 1], chain[i])
  }

  /** The reference names an artifact of the App, or a step from which a chain leads to one that brings it in. */
  ghost predicate ComesFrom(recipe: Recipe, reference: string, app: string) {
    || TextNamesApp(recipe, reference, app)
    || exists chain :: IsChain(recipe, chain) && TextNamesStep(reference, chain[0])
                       && BringsIn(recipe, chain[|chain| - 1], app)
  }

  lemma AppOfArtifactMeans(recipe: Recipe, id: string, app: string)
    ensures app in AppOfArtifact(recipe, id) <==> ArtifactIsOf(recipe, id, app)
  {
    var found: Option<Artifact> := Get(recipe.artifacts, id);
    if found.Some? {
      GetIsFirst(recipe.artifacts, id, found.value);
    }
    forall name | IsFirst(recipe.artifacts, id, AppArtifact(app, name)) ensures found == Some(AppArtifact(app, name)) {
      GetIsFirst(recipe.artifacts, id, AppArtifact(app, name));
    }
  }

  lemma DirectAppsMean(recipe: Recipe, reference: string, app: string)
    ensures app in DirectApps(recipe, reference) <==> TextNamesApp(recipe, reference, app)
  {
    var parsed := ParseReference(reference);
    if parsed.Some? {
      ParseReferenceIff(reference, parsed.value);
      if parsed.value.ArtifactField? {
        AppOfArtifactMeans(recipe, parsed.value.targetId, app);
      }
    }
    forall id, field
      | reference == "artifacts." + id + "." + field && id != "" && field != "" && '.' !in field
      ensures parsed == Some(ArtifactField(id, field))
    {
      ParseReferenceIff(reference, ArtifactField(id, field));
    }
  }

  lemma StepTargetMeans(reference: string, id: string)
    ensures StepTarget(reference) == Some(id) <==> TextNamesStep(reference, id)
  {
    var parsed := ParseReference(reference);
    if parsed.Some? {
      ParseReferenceIff(reference, parsed.value);
    }
    ParseReferenceIff(reference, StepShorthand(id));
    forall field | reference == "steps." + id + ".outputs." + field && IsWritable(StepOutput(id, field))
      ensures parsed == Some(StepOutput(id, field))
    {
      ParseReferenceIff(reference, StepOutput(id, field));
    }
  }

  lemma NodeReferencesMean(recipe: Recipe, id: string, reference: string)
    ensures reference in NodeReferences(recipe, id) <==>
            exists step :: IsProducer(recipe.steps, id, step) && StepHasReference(step, reference)
  {
    var producer := Producer(recipe.steps, id);
    if producer.Some? {
      ProducerMeans(recipe.steps, id, producer.value);
      ReferencesMean(producer.value.params, reference);
    }
    forall step | IsProducer(recipe.steps, id, step) ensures producer == Some(step) {
      ProducerMeans(recipe.steps, id, step);
    }
  }

  lemma EdgeMeans(recipe: Recipe, id: string, next: string)
    ensures Edge(recipe, id, next) <==> TakesFrom(recipe, id, next)
  {
    forall reference ensures StepTarget(reference) == Some(next) <==> TextNamesStep(reference, next) {
      StepTargetMeans(reference, next);
    }
    forall reference
      ensures reference in NodeReferences(recipe, id) <==>
              exists step :: IsProducer(recipe.steps, id, step) && StepHasReference(step, reference)
    {
      NodeReferencesMean(recipe, id, reference);
    }
    if Edge(recipe, id, next) {
      var reference :| reference in NodeReferences(recipe, id) && StepTarget(reference) == Some(next);
      assert TextNamesStep(reference, next);
    }
  }

  lemma ExtractedAppsMean(recipe: Recipe, step: Step, app: string)
    ensures app in ExtractedApps(recipe, step) <==>
            && step.typeName == "extract_artifacts"
            && exists id :: Selects(recipe, step, id) && ArtifactIsOf(recipe, id, app)
  {
    forall id ensures id in SelectedArtifacts(recipe, step) <==> Selects(recipe, step, id) {
      SelectedArtifactsMean(recipe, step, id);
    }
    forall id ensures app in AppOfArtifact(recipe, id) <==> ArtifactIsOf(recipe, id, app) {
      AppOfArtifactMeans(recipe, id, app);
    }
    if step.typeName == "extract_artifacts" && exists id :: Selects(recipe, step, id) && ArtifactIsOf(recipe, id, app) {
      var id :| Selects(recipe, step, id) && ArtifactIsOf(recipe, id, app);
      assert id in SelectedArtifacts(recipe, step) && app in AppOfArtifact(recipe, id);
    }
  }

  lemma ContributesMeans(recipe: Recipe, id: string, app: string)
    ensures Contributes(recipe, id, app) <==> BringsIn(recipe, id, app)
  {
    var producer := Producer(recipe.steps, id);
    forall step ensures producer == Some(step) <==> IsProducer(recipe.steps, id, step) {
      ProducerMeans(recipe.steps, id, step);
    }
    if producer.Some? {
      ExtractedAppsMean(recipe, producer.value, app);
      forall reference
        ensures reference in NodeReferences(recipe, id) <==> StepHasReference(producer.value, reference)
      {
        ReferencesMean(producer.value.params, reference);
      }
      forall reference ensures app in DirectApps(recipe, reference) <==> TextNamesApp(recipe, reference, app) {
        DirectAppsMean(recipe, reference, app);
      }
    }
  }

  /** The source Apps are those the Recipe's own texts lead to, through first definitions and step references. */
  lemma SourceAppMeans(recipe: Recipe, reference: string, app: string)
    ensures IsSourceApp(recipe, reference, app) <==> ComesFrom(recipe, reference, app)
  {
    DirectAppsMean(recipe, reference, app);
    forall id ensures StepTarget(reference) == Some(id) <==> TextNamesStep(reference, id) {
      StepTargetMeans(reference, id);
    }
    forall id, next ensures Edge(recipe, id, next) <==> TakesFrom(recipe, id, next) {
      EdgeMeans(recipe, id, next);
    }
    forall id ensures Contributes(recipe, id, app) <==> BringsIn(recipe, id, app) {
      ContributesMeans(recipe, id, app);
    }
    PathsAreChains(recipe);
  }

  lemma PathsAreChains(recipe: Recipe)
    requires forall id, next :: Edge(recipe, id, next) <==> TakesFrom(recipe, id, next)
    ensures forall path :: IsPath(recipe, path) <==> IsChain(recipe, path)
  {
  }

  /** A copy step takes from the App if its first `source` parameter is a reference that comes from it. */
  lemma CopiesFromMeans(recipe: Recipe, step: Step, app: string)
    ensures CopiesFrom(recipe, step, app) <==>
            exists reference :: IsFirst(step.params, "source", Ref(reference)) && ComesFrom(recipe, reference, app)
  {
    var source: Option<ParamValue> := Get(step.params, "source");
    if source.Some? {
      GetIsFirst(step.params, "source", source.value);
      if source.value.Ref? {
        SourceAppMeans(recipe, source.value.reference, app);
      }
    }
    forall reference | IsFirst(step.params, "source", Ref(reference)) ensures source == Some(Ref(reference)) {
      GetIsFirst(step.params, "source", Ref(reference));
    }
  }
}
