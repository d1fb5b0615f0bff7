/** The update path of the menu, where a user can keep a recipe's current values:
    an empty answer keeps the current name or description, and declining to edit the
    ingredients turns the recipe's ingredients back into mappings before the
    update. */
module Cli {
  import opened Wrappers
  import opened RecipeEntity
  import Repository

  /** The answer to a prompt, or the current value when the answer is empty. */
  function KeepOrReplace(entered: string, current: string): (r: string)
    ensures entered == "" ==> r == current
    ensures entered != "" ==> r == entered
  {
    if entered == "" then current else entered
  }

  /** The menu rebuilds the current ingredients as mappings, unpacking each one into
      a quantity and a name. Unpacking a two-key mapping yields its keys, so a
      mapping that was never converted comes out as the mapping of its own key
      names. */
  function KeepIngredients(xs: seq<Ingredient>): (ys: seq<Ingredient>)
    ensures |ys| == |xs| && AllMappings(ys)
    ensures forall i :: 0 <= i < |xs| && xs[i].Pair? ==> ys[i] == Mapping(xs[i].quantity, xs[i].name)
    ensures forall i :: 0 <= i < |xs| && xs[i].Mapping? ==> ys[i] == Mapping("quantity", "name")
  {
    seq(|xs|, i requires 0 <= i < |xs| =>
      match xs[i]
      case Pair(q, n) => Mapping(q, n)
      case Mapping(_, _) => Mapping("quantity", "name"))
  }

  /** Converting pairs back to mappings and constructing a recipe from them gives
      the very same pairs: keeping the ingredients loses nothing. */
  lemma KeepRecoversPairs(xs: seq<Ingredient>)
    requires AllPairs(xs)
    ensures NormaliseIngredients(KeepIngredients(xs)) == Success(xs)
  {
    var ys := KeepIngredients(xs);
    if |xs| > 0 {
      var r := NormaliseIngredients(ys);
      assert ys[0].Mapping? && r.Success? && |r.value| == |xs|;
      assert forall i :: 0 <= i < |xs| ==> r.value[i] == AsPair(ys[i]) == xs[i];
      assert r.value == xs;
    }
  }

  /** The whole keep path: a recipe whose id is in the table and whose ingredients
      are pairs (as every recipe read back from menu input is, see
      `MenuRecipesReadAsPairs`), updated with its ingredients and steps kept, reads
      back with the same ingredients and steps. */
  lemma KeepingThroughUpdate(st: Repository.Store, id: int, recipe: Recipe,
                             enteredName: string, enteredDescription: string)
    requires id in st.rows && AllPairs(recipe.ingredients)
    ensures var name := KeepOrReplace(enteredName, recipe.name);
      var description := KeepOrReplace(enteredDescription, recipe.description);
      var (st', updated) := Repository.UpdateRecipe(st, id, name, description,
                                                    KeepIngredients(recipe.ingredients), recipe.steps);
      && updated
      && Repository.GetRecipeById(st', id)
         == Success(Some(Recipe(id, name, description, recipe.ingredients, recipe.steps)))
  {
    var name := KeepOrReplace(enteredName, recipe.name);
    var description := KeepOrReplace(enteredDescription, recipe.description);
    var kept := KeepIngredients(recipe.ingredients);
    Repository.UpdateThenGet(st, id, name, description, kept, recipe.steps);
    KeepRecoversPairs(recipe.ingredients);
  }

  /** A recipe the menu created (its ingredients collected as mappings) is read back
      with pair ingredients, so the keep path applies to it. */
  lemma MenuRecipesReadAsPairs(st: Repository.Store, name: string, description: string,
                               ingredients: seq<Ingredient>, steps: seq<string>)
    requires Repository.Valid(st) && AllMappings(ingredients)
    ensures var (st', id) := Repository.CreateRecipe(st, name, description, ingredients, steps);
      && Repository.GetRecipeById(st', id).Success?
      && Repository.GetRecipeById(st', id).value.Some?
      && AllPairs(Repository.GetRecipeById(st', id).value.value.ingredients)
  {
    Repository.CreateThenGetUniform(st, name, description, ingredients, steps);
  }
}
