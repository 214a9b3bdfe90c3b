/**
 The recipe worklist of `workflow.ts`: which recipes a selection activates.

 `ActiveRecipes` is the worklist as an expression, `ActiveRecipeIdsForSelection`
 the loop over a pending stack. The reference both are proved against is
 reachability along dependency paths.
 */
module RecipeClosure {
  type RecipeId = string

  type Dependencies = map<RecipeId, seq<RecipeId>>

  function DependenciesOf(deps: Dependencies, id: RecipeId): seq<RecipeId> {
    if id in deps then deps[id] else []
  }

  function Elements(ids: seq<RecipeId>): set<RecipeId> {
    set id | id in ids
  }

  /** Everything the worklist can still add: a bound that shrinks with every addition. */
  function Remaining(deps: Dependencies, pending: seq<RecipeId>, active: set<RecipeId>): set<RecipeId> {
    (Elements(pending) + set from, id | from in deps && id in deps[from] :: id) - active
  }

  lemma RemainingShrinks(deps: Dependencies, rest: seq<RecipeId>, id: RecipeId, active: set<RecipeId>)
    requires id !in active
    ensures Remaining(deps, rest + DependenciesOf(deps, id), active + {id}) < Remaining(deps, rest + [id], active)
  {
    var after := Remaining(deps, rest + DependenciesOf(deps, id), active + {id});
    var before := Remaining(deps, rest + [id], active);
    assert id in Elements(rest + [id]) by { assert (rest + [id])[|rest|] == id; }
    assert after <= before;
    assert id in before && id !in after;
  }

  /** The pending stack pops from the end, as `Array.prototype.pop` does. */
  function ActiveRecipes(deps: Dependencies, pending: seq<RecipeId>, active: set<RecipeId>): set<RecipeId>
    decreases Remaining(deps, pending, active), |pending|
  {
    if pending == [] then active
    else
      var id, rest := pending[|pending| - 1], pending[..|pending| - 1];
      assert pending == rest + [id];
      if id in active then
        assert Remaining(deps, rest, active) <= Remaining(deps, pending, active);
        assert Remaining(deps, rest, active) == Remaining(deps, pending, active);
        ActiveRecipes(deps, rest, active)
      else
        RemainingShrinks(deps, rest, id, active);
        ActiveRecipes(deps, rest + DependenciesOf(deps, id), active + {id})
  }

  method ActiveRecipeIdsForSelection(deps: Dependencies, selected: seq<RecipeId>) returns (active: set<RecipeId>)
    ensures active == ActiveRecipes(deps, selected, {})
  {
    active := {};
    var pending := selected;
    while pending != []
      invariant ActiveRecipes(deps, pending, active) == ActiveRecipes(deps, selected, {})
      decreases Remaining(deps, pending, active), |pending|
    {
      ghost var before := pending;
      var id := pending[|pending| - 1];
      pending := pending[..|pending| - 1];
      assert before == pending + [id];
      if id in active {
        assert Remaining(deps, pending, active) == Remaining(deps, before, active);
        continue;
      }
      RemainingShrinks(deps, pending, id, active);
      active := active + {id};
      pending := pending + DependenciesOf(deps, id);
    }
  }

  /** A chain of dependencies starting at a selected recipe. */
  ghost predicate IsPath(deps: Dependencies, selected: set<RecipeId>, path: seq<RecipeId>) {
    && path != []
    && path[0] in selected
    && forall i :: 0 < i < |path| ==> path[i] in DependenciesOf(deps, path[i - 1])
  }

  /** What a recipe needs is what its entry lists, and nothing without an entry. */
  lemma DependenciesMean(deps: Dependencies, id: RecipeId, next: RecipeId)
    ensures next in DependenciesOf(deps, id) <==> id in deps && next in deps[id]
  {
  }

  ghost predicate Reachable(deps: Dependencies, selected: set<RecipeId>, id: RecipeId) {
    exists path :: IsPath(deps, selected, path) && path[|path| - 1] == id
  }

  ghost predicate Closed(deps: Dependencies, ids: set<RecipeId>) {
    forall id, next :: id in ids && next in DependenciesOf(deps, id) ==> next in ids
  }

  lemma ReachableStep(deps: Dependencies, selected: set<RecipeId>, id: RecipeId, next: RecipeId)
    requires Reachable(deps, selected, id) && next in DependenciesOf(deps, id)
    ensures Reachable(deps, selected, next)
  {
    var path :| IsPath(deps, selected, path) && path[|path| - 1] == id;
    assert IsPath(deps, selected, path + [next]) && (path + [next])[|path|] == next;
  }

  lemma DependenciesAreReachable(deps: Dependencies, selected: set<RecipeId>, id: RecipeId)
    requires Reachable(deps, selected, id)
    ensures forall next :: next in DependenciesOf(deps, id) ==> Reachable(deps, selected, next)
  {
    forall next | next in DependenciesOf(deps, id) ensures Reachable(deps, selected, next) {
      ReachableStep(deps, selected, id, next);
    }
  }

  lemma {:induction false} PathStaysInside(
      deps: Dependencies, selected: set<RecipeId>, ids: set<RecipeId>, path: seq<RecipeId>)
    requires Closed(deps, ids) && selected <= ids && IsPath(deps, selected, path)
    ensures path[|path| - 1] in ids
  {
    if |path| > 1 {
      var shorter := path[..|path| - 1];
      assert IsPath(deps, selected, shorter);
      PathStaysInside(deps, selected, ids, shorter);
      assert path[|path| - 1] in DependenciesOf(deps, path[|path| - 2]);
    }
  }

  /** The loop's invariant in one lemma: pending work plus finished work stays reachable and closed. */
  lemma {:induction false} WorklistIsClosure(
      deps: Dependencies, selected: set<RecipeId>, pending: seq<RecipeId>, active: set<RecipeId>)
    requires forall id :: id in active || id in pending ==> Reachable(deps, selected, id)
    requires forall id, next :: id in active && next in DependenciesOf(deps, id) ==> next in active || next in pending
    ensures var result := ActiveRecipes(deps, pending, active);
            && active <= result
            && Elements(pending) <= result
            && Closed(deps, result)
            && forall id :: id in result ==> Reachable(deps, selected, id)
    decreases Remaining(deps, pending, active), |pending|
  {
    if pending != [] {
      var id, rest := pending[|pending| - 1], pending[..|pending| - 1];
      assert pending == rest + [id];
      if id in active {
        assert Remaining(deps, rest, active) == Remaining(deps, pending, active);
        WorklistIsClosure(deps, selected, rest, active);
      } else {
        RemainingShrinks(deps, rest, id, active);
        assert id in pending by {
          assert pending[|pending| - 1] == id;
        }
        var more := DependenciesOf(deps, id);
        DependenciesAreReachable(deps, selected, id);
        assert forall x :: x in rest ==> x in pending;
        assert forall x :: x in pending ==> x in rest || x == id;
        assert forall x :: x in rest + more <==> x in rest || x in more;
        WorklistIsClosure(deps, selected, rest + more, active + {id});
      }
    }
  }

  /**
   On every dependency graph, cyclic ones included, the activated recipes are
   exactly those reachable from the selection, which is the least set that
   contains the selection and is closed under dependencies.
   */
  lemma ActiveRecipesAreLeastClosure(deps: Dependencies, selected: seq<RecipeId>)
    ensures var active := ActiveRecipes(deps, selected, {});
            && (forall id :: id in active <==> Reachable(deps, Elements(selected), id))
            && Elements(selected) <= active
            && Closed(deps, active)
            && (forall ids :: Elements(selected) <= ids && Closed(deps, ids) ==> active <= ids)
  {
    var active, start := ActiveRecipes(deps, selected, {}), Elements(selected);
    forall id | id in selected ensures Reachable(deps, start, id) {
      assert IsPath(deps, start, [id]) && [id][|[id]| - 1] == id;
    }
    WorklistIsClosure(deps, start, selected, {});
    forall ids: set<RecipeId>, id | start <= ids && Closed(deps, ids) && Reachable(deps, start, id)
      ensures id in ids
    {
      var path :| IsPath(deps, start, path) && path[|path| - 1] == id;
      PathStaysInside(deps, start, ids, path);
    }
  }

  /** Selecting more activates at least as much. */
  lemma LargerSelectionActivatesMore(deps: Dependencies, smaller: seq<RecipeId>, larger: seq<RecipeId>)
    requires Elements(smaller) <= Elements(larger)
    ensures ActiveRecipes(deps, smaller, {}) <= ActiveRecipes(deps, larger, {})
  {
    ActiveRecipesAreLeastClosure(deps, smaller);
    ActiveRecipesAreLeastClosure(deps, larger);
  }
}
