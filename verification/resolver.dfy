/** The yield resolver (`Recipes.YieldIDsToNames` and `ingredientName`):
    every yield entry's ingredient identifier is replaced by the name of the
    first ingredient of the same recipe that carries that identifier.

    The source rewrites the batch in place and stops at the first identifier
    it cannot resolve, leaving the entries before it rewritten. Here the
    rewrite is a pure function that returns the batch as the caller sees it
    afterwards together with the error, if any; each write of the source is a
    sequence update at the same position. */
module Resolver {
  import opened Base
  import opened RecipeModel

  // ----- Looking up one identifier -----

  /** Some ingredient of `ings` carries identifier `id`. */
  ghost predicate Known(ings: seq<Ingredient>, id: string) {
    exists k :: 0 <= k < |ings| && ings[k].id == id
  }

  /** `ings[k]` is the first ingredient that carries identifier `id`. */
  ghost predicate FirstMatch(ings: seq<Ingredient>, id: string, k: int) {
    && 0 <= k < |ings|
    && ings[k].id == id
    && forall j :: 0 <= j < k ==> ings[j].id != id
  }

  /** `name` is the name of the first ingredient carrying `id`. */
  ghost predicate NamedBy(ings: seq<Ingredient>, id: string, name: string) {
    exists k :: FirstMatch(ings, id, k) && ings[k].name == name
  }

  /** The scan of `ingredientName` from position `i`. */
  function NameFrom(id: string, ings: seq<Ingredient>, i: nat): (r: Result<string>)
    requires i <= |ings|
    requires forall j :: 0 <= j < i ==> ings[j].id != id
    ensures r.Ok? <==> Known(ings, id)
    ensures r.Ok? ==> NamedBy(ings, id, r.value)
    ensures r.Err? ==> r.error == IngredientNotFound(id)
    decreases |ings| - i
  {
    if i == |ings| then Err(IngredientNotFound(id))
    else if ings[i].id == id then
      assert FirstMatch(ings, id, i);
      Ok(ings[i].name)
    else NameFrom(id, ings, i + 1)
  }

  /** `ingredientName`: the name of the first ingredient whose ID is `id`,
      or an error naming `id` when no ingredient has it. */
  function IngredientName(id: string, ings: seq<Ingredient>): (r: Result<string>)
    ensures r.Ok? <==> Known(ings, id)
    ensures r.Ok? ==> NamedBy(ings, id, r.value)
    ensures r.Err? ==> r.error == IngredientNotFound(id)
  {
    NameFrom(id, ings, 0)
  }

  // ----- One yield's ingredient table -----

  /** Every entry of `es` names an ingredient of `ings`. */
  ghost predicate AllKnown(ings: seq<Ingredient>, es: seq<IngredientYield>) {
    forall k :: 0 <= k < |es| ==> Known(ings, es[k].id)
  }

  /** Position of the first entry at or after `i` whose ID `ings` lacks, or
      `|es|` when there is none. */
  ghost function FirstUnknown(ings: seq<Ingredient>, es: seq<IngredientYield>, i: nat): (f: nat)
    requires i <= |es|
    ensures i <= f <= |es|
    ensures forall k :: i <= k < f ==> Known(ings, es[k].id)
    ensures f < |es| ==> !Known(ings, es[f].id)
    decreases |es| - i
  {
    if i == |es| || !Known(ings, es[i].id) then i
    else FirstUnknown(ings, es, i + 1)
  }

  lemma FirstUnknownIs(ings: seq<Ingredient>, es: seq<IngredientYield>, i: nat, f: nat)
    requires i <= f <= |es|
    requires forall k :: i <= k < f ==> Known(ings, es[k].id)
    requires f < |es| ==> !Known(ings, es[f].id)
    ensures FirstUnknown(ings, es, i) == f
  {
  }

  /** The identifier of the first unresolvable entry of `es`. */
  ghost function MissingEntryId(ings: seq<Ingredient>, es: seq<IngredientYield>): string
    requires !AllKnown(ings, es)
  {
    es[FirstUnknown(ings, es, 0)].id
  }

  /** `es'` is `es` with the entries at positions `lo` to `f - 1` resolved
      against `ings` (amount and unit kept) and every other entry untouched. */
  ghost predicate EntriesRewritten(ings: seq<Ingredient>, es: seq<IngredientYield>,
                                   es': seq<IngredientYield>, lo: int, f: int)
  {
    && |es'| == |es|
    && (forall k :: 0 <= k < |es| && (k < lo || f <= k) ==> es'[k] == es[k])
    && (forall k :: 0 <= k < |es| && lo <= k < f ==>
          && es'[k].amount == es[k].amount
          && es'[k].unit == es[k].unit
          && NamedBy(ings, es[k].id, es'[k].id))
  }

  /** The innermost loop of `YieldIDsToNames` from entry `i`: resolve each
      entry in turn, stopping at the first one whose ID `ings` lacks. */
  function ResolveEntries(ings: seq<Ingredient>, es: seq<IngredientYield>, i: nat)
    : (res: (seq<IngredientYield>, Option<Error>))
    requires i <= |es|
    ensures var f := FirstUnknown(ings, es, i);
      && EntriesRewritten(ings, es, res.0, i, f)
      && res.1 == (if f == |es| then None else Some(IngredientNotFound(es[f].id)))
    decreases |es| - i
  {
    if i == |es| then (es, None)
    else
      var name := IngredientName(es[i].id, ings);
      if name.Err? then (es, Some(name.error))
      else
        var es1 := es[i := es[i].(id := name.value)];
        assert forall k :: i < k < |es| ==> es1[k] == es[k];
        FirstUnknownIs(ings, es, i, FirstUnknown(ings, es1, i + 1));
        ResolveEntries(ings, es1, i + 1)
  }

  // ----- One recipe's yields -----

  /** Position of the first yield at or after `j` holding an entry whose ID
      `ings` lacks, or `|ys|` when there is none. */
  ghost function FirstBadYield(ings: seq<Ingredient>, ys: seq<Yield>, j: nat): (g: nat)
    requires j <= |ys|
    ensures j <= g <= |ys|
    ensures forall k :: j <= k < g ==> AllKnown(ings, ys[k].ingredients)
    ensures g < |ys| ==> !AllKnown(ings, ys[g].ingredients)
    decreases |ys| - j
  {
    if j == |ys| || !AllKnown(ings, ys[j].ingredients) then j
    else FirstBadYield(ings, ys, j + 1)
  }

  lemma FirstBadYieldIs(ings: seq<Ingredient>, ys: seq<Yield>, j: nat, g: nat)
    requires j <= g <= |ys|
    requires forall k :: j <= k < g ==> AllKnown(ings, ys[k].ingredients)
    requires g < |ys| ==> !AllKnown(ings, ys[g].ingredients)
    ensures FirstBadYield(ings, ys, j) == g
  {
  }

  /** `y'` is yield `y` after the resolver visited it: same serving count,
      entries resolved up to (not including) the first unresolvable one. */
  ghost predicate YieldRewritten(ings: seq<Ingredient>, y: Yield, y': Yield) {
    && y'.servings == y.servings
    && EntriesRewritten(ings, y.ingredients, y'.ingredients, 0, FirstUnknown(ings, y.ingredients, 0))
  }

  /** `ys'` is `ys` with the yields at positions `lo` to `g` visited by the
      resolver and every other yield untouched. */
  ghost predicate YieldsRewritten(ings: seq<Ingredient>, ys: seq<Yield>, ys': seq<Yield>, lo: int, g: int) {
    && |ys'| == |ys|
    && (forall k :: 0 <= k < |ys| && (k < lo || g < k) ==> ys'[k] == ys[k])
    && (forall k :: 0 <= k < |ys| && lo <= k <= g ==> YieldRewritten(ings, ys[k], ys'[k]))
  }

  /** The middle loop of `YieldIDsToNames` from yield `j`: run the entry
      loop on each yield's table in turn, stopping after the first yield
      where it fails. */
  function ResolveYields(ings: seq<Ingredient>, ys: seq<Yield>, j: nat)
    : (res: (seq<Yield>, Option<Error>))
    requires j <= |ys|
    ensures var g := FirstBadYield(ings, ys, j);
      && YieldsRewritten(ings, ys, res.0, j, g)
      && res.1 == (if g == |ys| then None
                   else Some(IngredientNotFound(MissingEntryId(ings, ys[g].ingredients))))
    decreases |ys| - j
  {
    if j == |ys| then (ys, None)
    else
      var entries := ResolveEntries(ings, ys[j].ingredients, 0);
      var ys1 := ys[j := ys[j].(ingredients := entries.0)];
      assert YieldRewritten(ings, ys[j], ys1[j]);
      if entries.1.Some? then (ys1, entries.1)
      else
        assert forall k :: j < k < |ys| ==> ys1[k] == ys[k];
        FirstBadYieldIs(ings, ys, j, FirstBadYield(ings, ys1, j + 1));
        ResolveYields(ings, ys1, j + 1)
  }

  // ----- The whole batch -----

  /** Every yield entry of recipe `r` names an ingredient of `r` itself. */
  ghost predicate Resolvable(r: Recipe) {
    forall k :: 0 <= k < |r.recipeYields| ==> AllKnown(r.ingredients, r.recipeYields[k].ingredients)
  }

  /** Position of the first recipe at or after `i` that is not resolvable,
      or `|rs|` when there is none. */
  ghost function FirstBadRecipe(rs: seq<Recipe>, i: nat): (h: nat)
    requires i <= |rs|
    ensures i <= h <= |rs|
    ensures forall k :: i <= k < h ==> Resolvable(rs[k])
    ensures h < |rs| ==> !Resolvable(rs[h])
    decreases |rs| - i
  {
    if i == |rs| || !Resolvable(rs[i]) then i
    else FirstBadRecipe(rs, i + 1)
  }

  lemma FirstBadRecipeIs(rs: seq<Recipe>, i: nat, h: nat)
    requires i <= h <= |rs|
    requires forall k :: i <= k < h ==> Resolvable(rs[k])
    requires h < |rs| ==> !Resolvable(rs[h])
    ensures FirstBadRecipe(rs, i) == h
  {
  }

  /** The identifier the resolver reports for an unresolvable recipe: the
      first missing one in yield, then entry, order. */
  ghost function MissingId(r: Recipe): string
    requires !Resolvable(r)
  {
    var g := FirstBadYield(r.ingredients, r.recipeYields, 0);
    MissingEntryId(r.ingredients, r.recipeYields[g].ingredients)
  }

  /** `r'` is recipe `r` after the resolver visited it: everything but the
      yields unchanged, and the yields visited up to the first bad one,
      always against `r`'s own ingredient list. */
  ghost predicate RecipeRewritten(r: Recipe, r': Recipe) {
    && r'.id == r.id
    && r'.details == r.details
    && r'.ingredients == r.ingredients
    && YieldsRewritten(r.ingredients, r.recipeYields, r'.recipeYields, 0,
                       FirstBadYield(r.ingredients, r.recipeYields, 0))
  }

  /** `rs'` is `rs` with the recipes at positions `lo` to `h` visited by the
      resolver and every other recipe untouched. */
  ghost predicate RecipesRewritten(rs: seq<Recipe>, rs': seq<Recipe>, lo: int, h: int) {
    && |rs'| == |rs|
    && (forall k :: 0 <= k < |rs| && (k < lo || h < k) ==> rs'[k] == rs[k])
    && (forall k :: 0 <= k < |rs| && lo <= k <= h ==> RecipeRewritten(rs[k], rs'[k]))
  }

  /** The outer loop of `YieldIDsToNames` from recipe `i`. */
  function ResolveRecipes(rs: seq<Recipe>, i: nat): (res: (seq<Recipe>, Option<Error>))
    requires i <= |rs|
    ensures var h := FirstBadRecipe(rs, i);
      && RecipesRewritten(rs, res.0, i, h)
      && res.1 == (if h == |rs| then None else Some(IngredientNotFound(MissingId(rs[h]))))
    decreases |rs| - i
  {
    if i == |rs| then (rs, None)
    else
      var r := rs[i];
      var visited := ResolveYields(r.ingredients, r.recipeYields, 0);
      var rs1 := rs[i := r.(recipeYields := visited.0)];
      assert RecipeRewritten(rs[i], rs1[i]);
      if visited.1.Some? then (rs1, visited.1)
      else
        assert forall k :: i < k < |rs| ==> rs1[k] == rs[k];
        FirstBadRecipeIs(rs, i, FirstBadRecipe(rs1, i + 1));
        ResolveRecipes(rs1, i + 1)
  }

  /** `YieldIDsToNames`: the batch as the caller sees it afterwards, and the
      error it returns. Recipes before the first unresolvable one are fully
      rewritten, that recipe is rewritten up to its first missing ID, later
      recipes are untouched, and the error names that missing ID. */
  function YieldIDsToNames(rs: seq<Recipe>): (res: (seq<Recipe>, Option<Error>))
    ensures |res.0| == |rs|
    ensures res.1 == None <==> FirstBadRecipe(rs, 0) == |rs|
    ensures res.1 != None ==>
      var h := FirstBadRecipe(rs, 0);
      h < |rs| && res.1 == Some(IngredientNotFound(MissingId(rs[h])))
    ensures RecipesRewritten(rs, res.0, 0, FirstBadRecipe(rs, 0))
  {
    ResolveRecipes(rs, 0)
  }

  // ----- The batch seen entry by entry, in traversal order -----

  /** `(r, y, e)` addresses entry `e` of yield `y` of recipe `r`. */
  ghost predicate IsPos(rs: seq<Recipe>, r: int, y: int, e: int) {
    && 0 <= r < |rs|
    && 0 <= y < |rs[r].recipeYields|
    && 0 <= e < |rs[r].recipeYields[y].ingredients|
  }

  ghost function EntryAt(rs: seq<Recipe>, r: int, y: int, e: int): IngredientYield
    requires IsPos(rs, r, y, e)
  {
    rs[r].recipeYields[y].ingredients[e]
  }

  /** The resolver visits `(r, y, e)` before `(r2, y2, e2)`: recipe, then
      yield, then entry order. */
  ghost predicate VisitedBefore(r: int, y: int, e: int, r2: int, y2: int, e2: int) {
    r < r2 || (r == r2 && (y < y2 || (y == y2 && e < e2)))
  }

  /** `rs'` has the shape of `rs`: same recipes with the same identifiers,
      payloads and ingredient lists, the same yields with the same serving
      counts, and the same entries with the same amounts and units. */
  ghost predicate SameShape(rs: seq<Recipe>, rs': seq<Recipe>) {
    && |rs'| == |rs|
    && (forall r :: 0 <= r < |rs| ==>
          && rs'[r].id == rs[r].id
          && rs'[r].details == rs[r].details
          && rs'[r].ingredients == rs[r].ingredients
          && |rs'[r].recipeYields| == |rs[r].recipeYields|)
    && (forall r, y :: 0 <= r < |rs| && 0 <= y < |rs[r].recipeYields| ==>
          && |rs'[r].recipeYields| == |rs[r].recipeYields|
          && rs'[r].recipeYields[y].servings == rs[r].recipeYields[y].servings
          && |rs'[r].recipeYields[y].ingredients| == |rs[r].recipeYields[y].ingredients|)
    && (forall r, y, e :: IsPos(rs, r, y, e) ==>
          && IsPos(rs', r, y, e)
          && EntryAt(rs', r, y, e).amount == EntryAt(rs, r, y, e).amount
          && EntryAt(rs', r, y, e).unit == EntryAt(rs, r, y, e).unit)
  }

  /** Every entry of the batch names an ingredient of its own recipe. */
  ghost predicate AllResolvable(rs: seq<Recipe>) {
    forall r, y, e :: IsPos(rs, r, y, e) ==> Known(rs[r].ingredients, EntryAt(rs, r, y, e).id)
  }

  /** Whatever happens, the resolver keeps the batch's shape: only entry
      IDs change. */
  lemma ResolvePreservesShape(rs: seq<Recipe>)
    ensures SameShape(rs, YieldIDsToNames(rs).0)
  {
    var rs' := YieldIDsToNames(rs).0;
    var h := FirstBadRecipe(rs, 0);
    forall r | 0 <= r < |rs|
      ensures rs'[r].id == rs[r].id && rs'[r].details == rs[r].details
      ensures rs'[r].ingredients == rs[r].ingredients
      ensures |rs'[r].recipeYields| == |rs[r].recipeYields|
    {
      if r <= h { assert RecipeRewritten(rs[r], rs'[r]); }
    }
    forall r, y | 0 <= r < |rs| && 0 <= y < |rs[r].recipeYields|
      ensures rs'[r].recipeYields[y].servings == rs[r].recipeYields[y].servings
      ensures |rs'[r].recipeYields[y].ingredients| == |rs[r].recipeYields[y].ingredients|
    {
      if r <= h {
        assert RecipeRewritten(rs[r], rs'[r]);
        var g := FirstBadYield(rs[r].ingredients, rs[r].recipeYields, 0);
        if y <= g { assert YieldRewritten(rs[r].ingredients, rs[r].recipeYields[y], rs'[r].recipeYields[y]); }
      }
    }
    forall r, y, e | IsPos(rs, r, y, e)
      ensures IsPos(rs', r, y, e)
      ensures EntryAt(rs', r, y, e).amount == EntryAt(rs, r, y, e).amount
      ensures EntryAt(rs', r, y, e).unit == EntryAt(rs, r, y, e).unit
    {
      if r <= h {
        assert RecipeRewritten(rs[r], rs'[r]);
        var g := FirstBadYield(rs[r].ingredients, rs[r].recipeYields, 0);
        if y <= g { assert YieldRewritten(rs[r].ingredients, rs[r].recipeYields[y], rs'[r].recipeYields[y]); }
      }
    }
  }

  /** Resolver failure: the resolver reports an error exactly when some
      entry's ID is missing from its own recipe's ingredient list. */
  lemma ResolveSucceedsIff(rs: seq<Recipe>)
    ensures YieldIDsToNames(rs).1 == None <==> AllResolvable(rs)
  {
    var h := FirstBadRecipe(rs, 0);
    if h < |rs| {
      var g := FirstBadYield(rs[h].ingredients, rs[h].recipeYields, 0);
      var f := FirstUnknown(rs[h].ingredients, rs[h].recipeYields[g].ingredients, 0);
      assert !Known(rs[h].ingredients, EntryAt(rs, h, g, f).id);
    } else {
      forall r, y, e | IsPos(rs, r, y, e)
        ensures Known(rs[r].ingredients, EntryAt(rs, r, y, e).id)
      {
        assert Resolvable(rs[r]);
        assert AllKnown(rs[r].ingredients, rs[r].recipeYields[y].ingredients);
      }
    }
  }

  /** A recipe none of whose entries is missing is fully rewritten. */
  lemma ResolvableRecipeFullyRewritten(r: Recipe, r': Recipe, y: int, e: int)
    requires Resolvable(r)
    requires RecipeRewritten(r, r')
    requires 0 <= y < |r.recipeYields| && 0 <= e < |r.recipeYields[y].ingredients|
    ensures NamedBy(r.ingredients, r.recipeYields[y].ingredients[e].id, r'.recipeYields[y].ingredients[e].id)
  {
    var ings := r.ingredients;
    assert FirstBadYield(ings, r.recipeYields, 0) == |r.recipeYields|;
    assert YieldRewritten(ings, r.recipeYields[y], r'.recipeYields[y]);
    var es := r.recipeYields[y].ingredients;
    assert AllKnown(ings, es);
    assert FirstUnknown(ings, es, 0) == |es|;
  }

  /** Resolver success: when every entry's ID occurs in its own recipe's
      ingredients, every entry's ID becomes the name of the first matching
      ingredient of that same recipe, and nothing else changes. */
  lemma ResolveSuccess(rs: seq<Recipe>)
    requires AllResolvable(rs)
    ensures YieldIDsToNames(rs).1 == None
    ensures SameShape(rs, YieldIDsToNames(rs).0)
    ensures forall r, y, e :: IsPos(rs, r, y, e) ==>
      NamedBy(rs[r].ingredients, EntryAt(rs, r, y, e).id, EntryAt(YieldIDsToNames(rs).0, r, y, e).id)
  {
    ResolveSucceedsIff(rs);
    ResolvePreservesShape(rs);
    var rs' := YieldIDsToNames(rs).0;
    forall r, y, e | IsPos(rs, r, y, e)
      ensures NamedBy(rs[r].ingredients, EntryAt(rs, r, y, e).id, EntryAt(rs', r, y, e).id)
    {
      assert RecipeRewritten(rs[r], rs'[r]);
      ResolvableRecipeFullyRewritten(rs[r], rs'[r], y, e);
    }
  }

  /** Entry `(r, y, e)` of `rs` is the first one whose ID is missing from
      its own recipe, and `rs'` is `rs` rewritten exactly up to it. */
  ghost predicate StoppedAt(rs: seq<Recipe>, rs': seq<Recipe>, r: int, y: int, e: int)
    requires SameShape(rs, rs')
  {
    && IsPos(rs, r, y, e)
    && !Known(rs[r].ingredients, EntryAt(rs, r, y, e).id)
    && (forall r2, y2, e2 :: IsPos(rs, r2, y2, e2) && VisitedBefore(r2, y2, e2, r, y, e) ==>
          && Known(rs[r2].ingredients, EntryAt(rs, r2, y2, e2).id)
          && NamedBy(rs[r2].ingredients, EntryAt(rs, r2, y2, e2).id, EntryAt(rs', r2, y2, e2).id))
    && (forall r2, y2, e2 :: IsPos(rs, r2, y2, e2) && !VisitedBefore(r2, y2, e2, r, y, e) ==>
          EntryAt(rs', r2, y2, e2) == EntryAt(rs, r2, y2, e2))
  }

  /** Within the first bad recipe, a yield before the first bad yield is
      fully rewritten. */
  lemma EarlierYieldFullyRewritten(r: Recipe, r': Recipe, y: nat, e: nat)
    requires RecipeRewritten(r, r')
    requires y < FirstBadYield(r.ingredients, r.recipeYields, 0)
    requires e < |r.recipeYields[y].ingredients|
    ensures Known(r.ingredients, r.recipeYields[y].ingredients[e].id)
    ensures NamedBy(r.ingredients, r.recipeYields[y].ingredients[e].id, r'.recipeYields[y].ingredients[e].id)
  {
    var ings := r.ingredients;
    var es := r.recipeYields[y].ingredients;
    assert YieldRewritten(ings, r.recipeYields[y], r'.recipeYields[y]);
    assert AllKnown(ings, es);
    assert FirstUnknown(ings, es, 0) == |es|;
  }

  /** Within the first bad yield, an entry before the first unknown one is
      rewritten. */
  lemma StopYieldRewrittenBefore(r: Recipe, r': Recipe, g: nat, e: nat)
    requires RecipeRewritten(r, r')
    requires g == FirstBadYield(r.ingredients, r.recipeYields, 0) < |r.recipeYields|
    requires e < FirstUnknown(r.ingredients, r.recipeYields[g].ingredients, 0)
    ensures Known(r.ingredients, r.recipeYields[g].ingredients[e].id)
    ensures NamedBy(r.ingredients, r.recipeYields[g].ingredients[e].id, r'.recipeYields[g].ingredients[e].id)
  {
    assert YieldRewritten(r.ingredients, r.recipeYields[g], r'.recipeYields[g]);
  }

  lemma RewrittenBeforeStop(rs: seq<Recipe>, h: nat, g: nat, f: nat)
    requires h == FirstBadRecipe(rs, 0) < |rs|
    requires g == FirstBadYield(rs[h].ingredients, rs[h].recipeYields, 0)
    requires f == FirstUnknown(rs[h].ingredients, rs[h].recipeYields[g].ingredients, 0)
    requires SameShape(rs, YieldIDsToNames(rs).0)
    ensures forall r2, y2, e2 :: IsPos(rs, r2, y2, e2) && VisitedBefore(r2, y2, e2, h, g, f) ==>
      && Known(rs[r2].ingredients, EntryAt(rs, r2, y2, e2).id)
      && NamedBy(rs[r2].ingredients, EntryAt(rs, r2, y2, e2).id, EntryAt(YieldIDsToNames(rs).0, r2, y2, e2).id)
  {
    var rs' := YieldIDsToNames(rs).0;
    forall r2, y2, e2 | IsPos(rs, r2, y2, e2) && VisitedBefore(r2, y2, e2, h, g, f)
      ensures Known(rs[r2].ingredients, EntryAt(rs, r2, y2, e2).id)
      ensures NamedBy(rs[r2].ingredients, EntryAt(rs, r2, y2, e2).id, EntryAt(rs', r2, y2, e2).id)
    {
      assert RecipeRewritten(rs[r2], rs'[r2]);
      if r2 < h {
        assert Resolvable(rs[r2]);
        assert AllKnown(rs[r2].ingredients, rs[r2].recipeYields[y2].ingredients);
        ResolvableRecipeFullyRewritten(rs[r2], rs'[r2], y2, e2);
      } else if y2 < g {
        EarlierYieldFullyRewritten(rs[h], rs'[h], y2, e2);
      } else {
        StopYieldRewrittenBefore(rs[h], rs'[h], g, e2);
      }
    }
  }

  lemma UntouchedFromStop(rs: seq<Recipe>, h: nat, g: nat, f: nat)
    requires h == FirstBadRecipe(rs, 0) < |rs|
    requires g == FirstBadYield(rs[h].ingredients, rs[h].recipeYields, 0)
    requires f == FirstUnknown(rs[h].ingredients, rs[h].recipeYields[g].ingredients, 0)
    requires SameShape(rs, YieldIDsToNames(rs).0)
    ensures forall r2, y2, e2 :: IsPos(rs, r2, y2, e2) && !VisitedBefore(r2, y2, e2, h, g, f) ==>
      EntryAt(YieldIDsToNames(rs).0, r2, y2, e2) == EntryAt(rs, r2, y2, e2)
  {
    var rs' := YieldIDsToNames(rs).0;
    var ings := rs[h].ingredients;
    forall r2, y2, e2 | IsPos(rs, r2, y2, e2) && !VisitedBefore(r2, y2, e2, h, g, f)
      ensures EntryAt(rs', r2, y2, e2) == EntryAt(rs, r2, y2, e2)
    {
      if r2 == h {
        assert RecipeRewritten(rs[h], rs'[h]);
        if y2 == g {
          assert YieldRewritten(ings, rs[h].recipeYields[g], rs'[h].recipeYields[g]);
        }
      }
    }
  }

  /** Resolver partial rewrite: on failure there is a first missing entry in
      traversal order; the error names its ID, every entry visited before
      it has been rewritten, and it and every later entry are untouched. */
  lemma ResolveFailureIsPartial(rs: seq<Recipe>)
    requires YieldIDsToNames(rs).1.Some?
    ensures SameShape(rs, YieldIDsToNames(rs).0)
    ensures exists r, y, e ::
      && StoppedAt(rs, YieldIDsToNames(rs).0, r, y, e)
      && YieldIDsToNames(rs).1 == Some(IngredientNotFound(EntryAt(rs, r, y, e).id))
  {
    ResolvePreservesShape(rs);
    var h := FirstBadRecipe(rs, 0);
    var ings := rs[h].ingredients;
    var g := FirstBadYield(ings, rs[h].recipeYields, 0);
    var f := FirstUnknown(ings, rs[h].recipeYields[g].ingredients, 0);
    assert IsPos(rs, h, g, f);
    RewrittenBeforeStop(rs, h, g, f);
    UntouchedFromStop(rs, h, g, f);
    assert StoppedAt(rs, YieldIDsToNames(rs).0, h, g, f);
  }

  // ----- Scoping: a recipe is resolved against itself alone -----

  lemma NamedByUnique(ings: seq<Ingredient>, id: string, n1: string, n2: string)
    requires NamedBy(ings, id, n1) && NamedBy(ings, id, n2)
    ensures n1 == n2
  {
    var k1 :| FirstMatch(ings, id, k1) && ings[k1].name == n1;
    var k2 :| FirstMatch(ings, id, k2) && ings[k2].name == n2;
    assert k1 == k2;
  }

  lemma EntriesRewrittenUnique(ings: seq<Ingredient>, es: seq<IngredientYield>,
                               a: seq<IngredientYield>, b: seq<IngredientYield>, f: int)
    requires EntriesRewritten(ings, es, a, 0, f) && EntriesRewritten(ings, es, b, 0, f)
    ensures a == b
  {
    forall k | 0 <= k < |es| ensures a[k] == b[k] {
      if k < f {
        NamedByUnique(ings, es[k].id, a[k].id, b[k].id);
      }
    }
  }

  lemma RecipeRewrittenUnique(r: Recipe, a: Recipe, b: Recipe)
    requires RecipeRewritten(r, a) && RecipeRewritten(r, b)
    ensures a == b
  {
    var ys := r.recipeYields;
    forall k | 0 <= k < |ys| ensures a.recipeYields[k] == b.recipeYields[k] {
      if k <= FirstBadYield(r.ingredients, ys, 0) {
        assert YieldRewritten(r.ingredients, ys[k], a.recipeYields[k]);
        assert YieldRewritten(r.ingredients, ys[k], b.recipeYields[k]);
        EntriesRewrittenUnique(r.ingredients, ys[k].ingredients,
          a.recipeYields[k].ingredients, b.recipeYields[k].ingredients,
          FirstUnknown(r.ingredients, ys[k].ingredients, 0));
      }
    }
    assert a.recipeYields == b.recipeYields;
  }

  /** Scoping: once the resolver reaches recipe `k`, what it writes there
      is what it would write for that recipe alone; no other recipe's
      ingredient list is consulted. */
  lemma ResolveIsPerRecipe(rs: seq<Recipe>, k: nat)
    requires k < |rs|
    requires forall j :: 0 <= j < k ==> Resolvable(rs[j])
    ensures YieldIDsToNames(rs).0[k] == YieldIDsToNames([rs[k]]).0[0]
  {
    var h := FirstBadRecipe(rs, 0);
    assert k <= h;
    var alone := YieldIDsToNames([rs[k]]).0;
    assert RecipeRewritten(rs[k], YieldIDsToNames(rs).0[k]);
    assert RecipeRewritten([rs[k]][0], alone[0]);
    RecipeRewrittenUnique(rs[k], YieldIDsToNames(rs).0[k], alone[0]);
  }
}
