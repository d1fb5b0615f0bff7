/** The `Recipe` table and the CRUD operations of `RecipeManager`.

    The table is a finite map from `recipe_id` to the four stored columns, with the
    two list-valued columns held as JSON text. `nextId` is the AUTOINCREMENT
    counter: one more than the largest id the table has ever handed out, so ids of
    deleted rows are never issued again. */
module Repository {
  import opened Wrappers
  import opened RecipeEntity
  import Json

  /** The stored columns of one `Recipe` row, apart from its key. */
  datatype Row = Row(name: string, description: string, ingredients: string, steps: string)

  datatype Store = Store(rows: map<int, Row>, nextId: int)

  /** One element of `get_all_recipes`: `(recipe_id, name, description)`. */
  datatype Summary = Summary(recipeId: int, name: string, description: string)

  /** What `get_recipe_by_id` can raise: `json.loads` on text it cannot read, or the
      `Recipe` constructor's `TypeError`. */
  datatype ReadError = MalformedColumn | ConstructorFailed(cause: RecipeError)

  /** The table before anything is inserted. */
  function EmptyStore(): (st: Store)
    ensures Valid(st) && Readable(st) && st.rows == map[]
  {
    Store(map[], 1)
  }

  /** Every key was handed out by the counter. */
  predicate Valid(st: Store) {
    st.nextId >= 1 && forall id :: id in st.rows ==> 1 <= id < st.nextId
  }

  /** Both JSON columns of every row can be read back. */
  predicate Readable(st: Store) {
    forall id :: id in st.rows ==>
      Json.DecodeIngredientList(st.rows[id].ingredients).Some? &&
      Json.DecodeStringList(st.rows[id].steps).Some?
  }

  /** The four bound parameters of the INSERT and of the UPDATE. */
  function EncodeRow(name: string, description: string,
                     ingredients: seq<Ingredient>, steps: seq<string>): (row: Row)
    ensures row.name == name && row.description == description
    ensures Json.DecodeIngredientList(row.ingredients) == Some(ingredients)
    ensures Json.DecodeStringList(row.steps) == Some(steps)
  {
    Json.IngredientListRoundTrip(ingredients);
    Json.StringListRoundTrip(steps);
    Row(name, description, Json.EncodeIngredientList(ingredients), Json.EncodeStringList(steps))
  }

  // ---------------------------------------------------------------- operations

  /** `create_recipe`: inserts a row and returns its `lastrowid`. */
  function CreateRecipe(st: Store, name: string, description: string,
                        ingredients: seq<Ingredient>, steps: seq<string>): (r: (Store, int))
    requires Valid(st)
    ensures var (st', id) := r;
      && id !in st.rows
      && st'.rows.Keys == st.rows.Keys + {id}
      && st'.rows[id] == EncodeRow(name, description, ingredients, steps)
      && (forall k :: k in st.rows ==> st'.rows[k] == st.rows[k])
      && Valid(st') && id >= st.nextId && st'.nextId > id
  {
    var id := st.nextId;
    (Store(st.rows[id := EncodeRow(name, description, ingredients, steps)], id + 1), id)
  }

  lemma NonEmptyHasElement(ids: set<int>)
    requires ids != {}
    ensures exists k :: k in ids
  {
    if forall k :: k !in ids {
      assert false;
    }
  }

  /** `get_all_recipes`: the id, name and description of every row. The SELECT has
      no ORDER BY, so the order is left to the loop's choices. */
  method GetAllRecipes(st: Store) returns (listing: seq<Summary>)
    ensures |listing| == |st.rows|
    ensures forall i, j :: 0 <= i < j < |listing| ==> listing[i].recipeId != listing[j].recipeId
    ensures forall i :: 0 <= i < |listing| ==>
      listing[i].recipeId in st.rows &&
      listing[i].name == st.rows[listing[i].recipeId].name &&
      listing[i].description == st.rows[listing[i].recipeId].description
    ensures forall id :: id in st.rows ==> exists i :: 0 <= i < |listing| && listing[i].recipeId == id
  {
    listing := [];
    var remaining := st.rows.Keys;
    while |remaining| > 0
      invariant remaining <= st.rows.Keys
      invariant |listing| + |remaining| == |st.rows|
      invariant forall i, j :: 0 <= i < j < |listing| ==> listing[i].recipeId != listing[j].recipeId
      invariant forall i :: 0 <= i < |listing| ==>
        listing[i].recipeId in st.rows && listing[i].recipeId !in remaining &&
        listing[i].name == st.rows[listing[i].recipeId].name &&
        listing[i].description == st.rows[listing[i].recipeId].description
      invariant forall id :: id in st.rows && id !in remaining ==>
        exists i :: 0 <= i < |listing| && listing[i].recipeId == id
      decreases |remaining|
    {
      NonEmptyHasElement(remaining);
      var key :| key in remaining;
      var row := st.rows[key];
      ghost var before := listing;
      listing := listing + [Summary(key, row.name, row.description)];
      remaining := remaining - {key};
      assert listing[|before|].recipeId == key;
      assert forall i :: 0 <= i < |before| ==> listing[i] == before[i];
    }
  }

  /** `get_recipe_by_id`: `None` when no row has the id; otherwise the row's JSON
      columns are decoded and handed to the `Recipe` constructor, which may raise. */
  function GetRecipeById(st: Store, id: int): (r: Result<Option<Recipe>, ReadError>)
    ensures r == Success(None) <==> id !in st.rows
    ensures r.Success? && r.value.Some? ==>
      var row := st.rows[id];
      && r.value.value.recipeId == id
      && r.value.value.name == row.name
      && r.value.value.description == row.description
      && Some(r.value.value.steps) == Json.DecodeStringList(row.steps)
      && Json.DecodeIngredientList(row.ingredients).Some?
      && NormaliseIngredients(Json.DecodeIngredientList(row.ingredients).value)
         == Success(r.value.value.ingredients)
    ensures r == Failure(MalformedColumn) <==>
      id in st.rows &&
      (Json.DecodeIngredientList(st.rows[id].ingredients).None? ||
       Json.DecodeStringList(st.rows[id].steps).None?)
    ensures r.Failure? && r.error.ConstructorFailed? <==>
      && id in st.rows
      && Json.DecodeStringList(st.rows[id].steps).Some?
      && Json.DecodeIngredientList(st.rows[id].ingredients).Some?
      && var ingredients := Json.DecodeIngredientList(st.rows[id].ingredients).value;
         |ingredients| > 0 && ingredients[0].Mapping? && !AllMappings(ingredients)
  {
    if id !in st.rows then Success(None)
    else
      var row := st.rows[id];
      match (Json.DecodeIngredientList(row.ingredients), Json.DecodeStringList(row.steps))
      case (Some(ingredients), Some(steps)) =>
        (match NewRecipe(id, row.name, row.description, ingredients, steps)
         case Success(recipe) => Success(Some(recipe))
         case Failure(e) => Failure(ConstructorFailed(e)))
      case _ => Failure(MalformedColumn)
  }

  /** `update_recipe`: overwrites all four columns of the row with the id and reports
      whether a row matched (`rowcount > 0`). */
  function UpdateRecipe(st: Store, id: int, name: string, description: string,
                        ingredients: seq<Ingredient>, steps: seq<string>): (r: (Store, bool))
    ensures var (st', updated) := r;
      && (updated <==> id in st.rows)
      && st'.rows.Keys == st.rows.Keys && st'.nextId == st.nextId
      && (updated ==> st'.rows[id] == EncodeRow(name, description, ingredients, steps))
      && (!updated ==> st' == st)
      && (forall k :: k in st.rows && k != id ==> st'.rows[k] == st.rows[k])
  {
    if id in st.rows then
      (Store(st.rows[id := EncodeRow(name, description, ingredients, steps)], st.nextId), true)
    else (st, false)
  }

  /** `delete_recipe`: removes the row with the id and reports whether one existed. */
  function DeleteRecipe(st: Store, id: int): (r: (Store, bool))
    ensures var (st', deleted) := r;
      && (deleted <==> id in st.rows)
      && st'.rows.Keys == st.rows.Keys - {id} && st'.nextId == st.nextId
      && (forall k :: k in st'.rows ==> st'.rows[k] == st.rows[k])
  {
    (Store(st.rows - {id}, st.nextId), id in st.rows)
  }

  // ---------------------------------------------------------------- properties

  /** The outcome `get_recipe_by_id` has for a row written from these values: the
      constructor's verdict on the very lists that were stored. */
  function Expected(id: int, name: string, description: string,
                    ingredients: seq<Ingredient>, steps: seq<string>): Result<Option<Recipe>, ReadError> {
    match NewRecipe(id, name, description, ingredients, steps)
    case Success(recipe) => Success(Some(recipe))
    case Failure(e) => Failure(ConstructorFailed(e))
  }

  lemma GetEncodedRow(st: Store, id: int, name: string, description: string,
                      ingredients: seq<Ingredient>, steps: seq<string>)
    requires id in st.rows && st.rows[id] == EncodeRow(name, description, ingredients, steps)
    ensures GetRecipeById(st, id) == Expected(id, name, description, ingredients, steps)
  {
  }

  /** Reading back a created recipe gives what the constructor makes of the values
      passed in: the same name, description and steps, and the normalised
      ingredients. */
  lemma CreateThenGet(st: Store, name: string, description: string,
                      ingredients: seq<Ingredient>, steps: seq<string>)
    requires Valid(st)
    ensures var (st', id) := CreateRecipe(st, name, description, ingredients, steps);
      GetRecipeById(st', id) == Expected(id, name, description, ingredients, steps)
  {
    var (st', id) := CreateRecipe(st, name, description, ingredients, steps);
    GetEncodedRow(st', id, name, description, ingredients, steps);
  }

  /** A uniformly shaped ingredient list is read back as the list of its pairs. */
  lemma CreateThenGetUniform(st: Store, name: string, description: string,
                             ingredients: seq<Ingredient>, steps: seq<string>)
    requires Valid(st) && (AllMappings(ingredients) || AllPairs(ingredients))
    ensures var (st', id) := CreateRecipe(st, name, description, ingredients, steps);
      GetRecipeById(st', id) == Success(Some(Recipe(id, name, description, AsPairs(ingredients), steps)))
  {
    CreateThenGet(st, name, description, ingredients, steps);
    UniformListsNormaliseToPairs(ingredients);
  }

  /** Creating a recipe does not change what any other id reads as. */
  lemma CreateKeepsOthers(st: Store, name: string, description: string,
                          ingredients: seq<Ingredient>, steps: seq<string>, other: int)
    requires Valid(st)
    ensures var (st', id) := CreateRecipe(st, name, description, ingredients, steps);
      other != id ==> GetRecipeById(st', other) == GetRecipeById(st, other)
  {
  }

  /** After a successful update the row reads as the new values, all four replaced. */
  lemma UpdateThenGet(st: Store, id: int, name: string, description: string,
                      ingredients: seq<Ingredient>, steps: seq<string>)
    requires id in st.rows
    ensures var (st', _) := UpdateRecipe(st, id, name, description, ingredients, steps);
      GetRecipeById(st', id) == Expected(id, name, description, ingredients, steps)
  {
    var (st', _) := UpdateRecipe(st, id, name, description, ingredients, steps);
    GetEncodedRow(st', id, name, description, ingredients, steps);
  }

  /** An update never changes what another id reads as. */
  lemma UpdateKeepsOthers(st: Store, id: int, name: string, description: string,
                          ingredients: seq<Ingredient>, steps: seq<string>, other: int)
    requires other != id
    ensures var (st', _) := UpdateRecipe(st, id, name, description, ingredients, steps);
      GetRecipeById(st', other) == GetRecipeById(st, other)
  {
  }

  /** After a delete the id reads as `None`, and every other id as before. */
  lemma DeleteThenGet(st: Store, id: int, other: int)
    ensures var (st', _) := DeleteRecipe(st, id);
      && GetRecipeById(st', id) == Success(None)
      && (other != id ==> GetRecipeById(st', other) == GetRecipeById(st, other))
  {
  }

  /** On a store whose columns were all written by this module, a read can only fail
      through the constructor, never through `json.loads`. */
  lemma ReadableNeverMalformed(st: Store, id: int)
    requires Readable(st)
    ensures GetRecipeById(st, id) != Failure(MalformedColumn)
  {
  }

  /** Every operation keeps both store invariants. */
  lemma OperationsPreserveInvariants(st: Store, id: int, name: string, description: string,
                                     ingredients: seq<Ingredient>, steps: seq<string>)
    requires Valid(st) && Readable(st)
    ensures var st' := CreateRecipe(st, name, description, ingredients, steps).0;
      Valid(st') && Readable(st')
    ensures var st' := UpdateRecipe(st, id, name, description, ingredients, steps).0;
      Valid(st') && Readable(st')
    ensures var st' := DeleteRecipe(st, id).0;
      Valid(st') && Readable(st')
  {
    var row := EncodeRow(name, description, ingredients, steps);
    var (st1, _) := CreateRecipe(st, name, description, ingredients, steps);
    assert forall k :: k in st1.rows ==> k in st.rows || k == st.nextId;
    var (st2, _) := UpdateRecipe(st, id, name, description, ingredients, steps);
    assert forall k :: k in st2.rows ==> st2.rows[k] == st.rows[k] || st2.rows[k] == row;
  }

  // ---------------------------------------------------------------- histories

  /** A call that changes the table. */
  datatype Command =
    | Create(name: string, description: string, ingredients: seq<Ingredient>, steps: seq<string>)
    | Update(id: int, name: string, description: string, ingredients: seq<Ingredient>, steps: seq<string>)
    | Delete(id: int)

  function Apply(st: Store, c: Command): (st': Store)
    requires Valid(st)
    ensures Valid(st') && st'.nextId >= st.nextId
    ensures c.Create? ==> st'.rows.Keys == st.rows.Keys + {st.nextId}
    ensures !c.Create? ==> st'.rows.Keys <= st.rows.Keys
  {
    match c
    case Create(n, d, i, s) => CreateRecipe(st, n, d, i, s).0
    case Update(id, n, d, i, s) => UpdateRecipe(st, id, n, d, i, s).0
    case Delete(id) => DeleteRecipe(st, id).0
  }

  function Run(st: Store, cs: seq<Command>): (st': Store)
    requires Valid(st)
    ensures Valid(st')
    decreases |cs|
  {
    if |cs| == 0 then st else Run(Apply(st, cs[0]), cs[1..])
  }

  /** The id counter never goes back. */
  lemma {:induction false} RunNeverLowersCounter(st: Store, cs: seq<Command>)
    requires Valid(st)
    ensures Run(st, cs).nextId >= st.nextId
    decreases |cs|
  {
    if |cs| > 0 {
      RunNeverLowersCounter(Apply(st, cs[0]), cs[1..]);
    }
  }

  /** Only `create_recipe` brings ids into the table: any id present after a run
      without creates was present before. */
  lemma {:induction false} UpdatesAndDeletesAddNoIds(st: Store, cs: seq<Command>)
    requires Valid(st)
    requires forall i :: 0 <= i < |cs| ==> !cs[i].Create?
    ensures Run(st, cs).rows.Keys <= st.rows.Keys
    decreases |cs|
  {
    if |cs| > 0 {
      UpdatesAndDeletesAddNoIds(Apply(st, cs[0]), cs[1..]);
    }
  }

  /** An id, once handed out, is never handed out again, whatever happens to its
      row in between. */
  lemma IdsNeverReissued(st: Store, name: string, description: string,
                         ingredients: seq<Ingredient>, steps: seq<string>, cs: seq<Command>,
                         name': string, description': string,
                         ingredients': seq<Ingredient>, steps': seq<string>)
    requires Valid(st)
    ensures var (st1, id) := CreateRecipe(st, name, description, ingredients, steps);
      CreateRecipe(Run(st1, cs), name', description', ingredients', steps').1 != id
  {
    var (st1, id) := CreateRecipe(st, name, description, ingredients, steps);
    RunNeverLowersCounter(st1, cs);
  }
}
