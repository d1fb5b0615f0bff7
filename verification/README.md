# Recipe catalog: entity and repository model

A Dafny model of the data layer of a small terminal recipe catalog. The catalog
keeps recipes in one SQLite table. Each recipe has a name, a description, an
ingredient list and a step list, and the two lists are stored as JSON text.

The model covers two parts:

- **The `Recipe` entity** (`models/recipe.py`). This is the constructor with its
  ingredient normalisation, `__repr__`, and `display_recipe`. `display_recipe` is
  modelled as the sequence of lines it prints.
- **`RecipeManager`** (`models/recipe_manager.py`). These are the five CRUD
  operations. They run over an abstract table: a map from `recipe_id` to the four
  stored columns, plus the AUTOINCREMENT counter.

The two list columns are encoded and decoded by a small JSON codec. It handles
exactly the two shapes the program stores, and it follows `json.dumps`' default
output character for character. Decoding follows `json.loads` for those shapes.
Because it is a real codec, the create-then-read round trip is proved, not
assumed.

Modules, one file each:

| file | module | contents |
|---|---|---|
| `wrappers.dfy` | `Wrappers` | `Option` and `Result`, usable with `:-` |
| `decimal.dfy` | `Decimal` | `str(int)` for ids and step numbers, and a parser that reads them back |
| `recipe.dfy` | `RecipeEntity` | `Ingredient`, `Recipe`, normalisation, `Repr`, `DisplayLines` |
| `json.dfy` | `Json` | string escaping as `json.dumps` does it (`ensure_ascii`), a tokenizer, and the list codecs |
| `repository.dfy` | `Repository` | the table, the CRUD operations, and frame and round-trip lemmas |
| `cli.dfy` | `Cli` | the menu's "keep current values" update path |

An ingredient is either a `Mapping(quantity, name)` or a `Pair(quantity, name)`:

- A `Mapping` is a `{"quantity": q, "name": n}` dict, which is how the menu builds ingredients.
- A `Pair` is a `(quantity, name)` tuple, or the two-element list that a tuple becomes after JSON.

The constructor looks only at the first element:

- If the first element is a dict, every element must be a dict. Otherwise Python raises `TypeError`, modelled as `Failure(NotAMapping)`.
- In any other case the list is kept as given.

`display_recipe` unpacks each ingredient with `for quantity, name in ...`. A dict
left unconverted unpacks to its two keys, so it prints as `- quantity of name`,
and the model says exactly that.

Store invariants:

- `Valid`: every key lies below the counter.
- `Readable`: both JSON columns of every row decode.

Both hold for the empty table and are kept by every operation. `CreateRecipe`
requires `Valid`, because the freshness of the id rests on the counter.

## Model

| member | source | states |
|---|---|---|
| RecipeEntity.PairsOf | models/recipe.py:43-44 | the comprehension succeeds exactly when every element is a mapping; the result then has the same length, and element i is the pair of element i |
| RecipeEntity.NormaliseIngredients | models/recipe.py:41-46 | when the first element is a mapping: success iff all elements are mappings, and the result is the elementwise pair list in the same order; when the list is empty or starts with a pair: stored unchanged |
| RecipeEntity.NewRecipe | models/recipe.py:18-47 | construction fails iff the first ingredient is a mapping and some later one is not; on success id, name, description and steps are stored exactly as given (no validation, empty strings accepted), and every ingredient keeps its quantity and name in order; a list starting with a mapping is stored as pairs, and an empty list or one starting with a pair is stored unchanged |
| RecipeEntity.ShapesNormaliseAlike | models/recipe.py:42-46 | a list of mappings and the list of the same ingredients as pairs construct the same ingredient list, the pair list |
| RecipeEntity.NormaliseIdempotent | models/recipe.py:42-46 | normalising an already normalised list gives the same result |
| RecipeEntity.UniformListsNormaliseToPairs | models/recipe.py:42-46 | a list of all mappings or all pairs never raises and always ends up as the pair list |
| RecipeEntity.Repr | models/recipe.py:61 | the text is `Recipe(` + id + `, ` + name + `, ` + description + `)`: the digits after `Recipe(` read back as the id, each `, ` separator sits in its place, and the name and description appear verbatim in theirs |
| RecipeEntity.IngredientLines | models/recipe.py:91-92 | one line per ingredient, in list order |
| RecipeEntity.StepLines | models/recipe.py:95-96 | one line per step, in order, the j-th numbered first + j |
| RecipeEntity.DisplayLines | models/recipe.py:86-96 | the header lines come first (`Recipe ID: `, `Name: `, `Description: `), then a blank line and `Ingredients:`, one line per ingredient, a blank line and `Steps:`, one line per step numbered from 1; 7 + ingredients + steps lines in total |
| RecipeEntity.StepNumbersCount | models/recipe.py:95-96 | the number in front of the line of step j reads back as j + 1, followed by `. ` and the step |
| RecipeEntity.PairLinesShowContents | models/recipe.py:91-92 | for pair ingredients, line 5 + i is `- {quantity} of {name}` of ingredient i |
| Decimal.IntRoundTrip | models/recipe.py:61 | the decimal rendering of an id loses nothing: it parses back to the same integer |
| Decimal.IntToStringInjective | models/recipe.py:86 | distinct ids render as distinct text |
| Json.EscapeCharRoundTrip | models/recipe_manager.py:43 | every character, including those escaped as `\uXXXX` or as a surrogate pair, reads back as itself |
| Json.EncodeStringList | models/recipe_manager.py:43 | `json.dumps(steps)`: the text reads back as exactly the tokens of the list, `[`, the strings separated by commas, `]` |
| Json.DecodeStringList | models/recipe_manager.py:92 | `json.loads` of the steps column succeeds only on text that reads as the tokens of the resulting list, so it differs from that list's encoding only in whitespace and in how characters are spelled (escapes) |
| Json.StringListIgnoresLayout | models/recipe_manager.py:92 | conversely, every text that reads as the tokens of a list of strings, whatever whitespace it holds between them, decodes to that list |
| Json.EncodeIngredientList | models/recipe_manager.py:43 | `json.dumps(ingredients)`: the text reads back as exactly the tokens of the list, each mapping as a `quantity`/`name` object and each pair as a two-element array |
| Json.DecodeIngredientList | models/recipe_manager.py:91 | `json.loads` of the ingredients column succeeds only on text that reads as the tokens of the resulting list |
| Json.IngredientListIgnoresLayout | models/recipe_manager.py:91 | conversely, every text that reads as the tokens of an ingredient list decodes to that list |
| Json.TokenizeRender | models/recipe_manager.py:91-92 | the tokenizer recovers exactly the tokens the JSON text was rendered from |
| Json.StringListRoundTrip | models/recipe_manager.py:43 | `json.loads(json.dumps(steps)) == steps` for every list of strings |
| Json.IngredientListRoundTrip | models/recipe_manager.py:43 | decoding the encoded ingredient list gives the same list, each element keeping its shape (dict stays dict, pair comes back as a two-element list) |
| Json.EncodeStringIsAscii | models/recipe_manager.py:43 | every string literal produced is printable ASCII, whatever the string holds |
| Repository.EncodeRow | models/recipe_manager.py:38-44 | the bound row keeps name and description verbatim, and its two JSON columns decode back to the given lists |
| Repository.CreateRecipe | models/recipe_manager.py:35-45 | the returned id was not in the table before; the table gains exactly that key, holding the encoded values; every earlier row is unchanged; the counter moves past the id |
| Repository.GetAllRecipes | models/recipe_manager.py:63-66 | one `(id, name, description)` per row and no other: ids are distinct, every listed id is a row with that name and description, and every row is listed; an empty table lists nothing |
| Repository.GetRecipeById | models/recipe_manager.py:85-100 | `None` iff no row has the id; a returned recipe carries the id, the row's name and description, its decoded steps, and the ingredients the constructor makes of the decoded ingredient column; the JSON failure happens iff a column does not decode; the constructor's `TypeError` happens iff both columns decode and the decoded ingredients start with a mapping but are not all mappings |
| Repository.UpdateRecipe | models/recipe_manager.py:124-134 | reports true iff the id exists; then all four columns are replaced, even unchanged ones; when false the table is unchanged; other rows, the key set and the counter never change |
| Repository.DeleteRecipe | models/recipe_manager.py:152-155 | reports true iff the id existed; afterwards exactly that key is gone, all other rows are unchanged, and the counter is kept |
| Repository.CreateThenGet | models/recipe_manager.py:38-45 | reading back a created recipe gives what the constructor makes of the values passed in: same name, description and steps, with the normalised ingredients, or the constructor's `TypeError` |
| Repository.CreateThenGetUniform | models/recipe_manager.py:85-99 | for a uniformly shaped ingredient list the created recipe reads back with the pair list |
| Repository.CreateKeepsOthers | models/recipe_manager.py:38-44 | creating a recipe does not change what any other id reads as |
| Repository.UpdateThenGet | models/recipe_manager.py:126-133 | after an update of an existing id, the row reads as the new values |
| Repository.UpdateKeepsOthers | models/recipe_manager.py:126-132 | an update never changes what another id reads as |
| Repository.DeleteThenGet | models/recipe_manager.py:154-155 | after a delete the id reads as `None`, and all other ids read as before |
| Repository.ReadableNeverMalformed | models/recipe_manager.py:91-92 | on a table written only through these operations, `json.loads` never fails |
| Repository.OperationsPreserveInvariants | models/recipe_manager.py:35-45 | create, update and delete keep every key below the counter and every row decodable |
| Repository.RunNeverLowersCounter | models/recipe_manager.py:35-45 | over any sequence of calls, the id counter never decreases |
| Repository.UpdatesAndDeletesAddNoIds | models/recipe_manager.py:154 | a run of updates and deletes only ever keeps or removes ids, never adds one |
| Repository.IdsNeverReissued | models/recipe_manager.py:45 | an id handed out by create is never handed out again, whatever calls happen in between |
| Cli.KeepRecoversPairs | main.py:196 | for a pair list, converting back to mappings and constructing again recovers the same pairs |
| Cli.KeepingThroughUpdate | main.py:186-206 | for an existing id and a recipe with pair ingredients, the update reports success and the row, updated with the ingredients and steps kept, reads back with the same ingredients and steps and the chosen name and description |
| Cli.MenuRecipesReadAsPairs | main.py:93-101 | a recipe created from menu input, which is all mappings, reads back with pair ingredients, so the keep path applies to it |

The comprehension at main.py:196 binds its own `name`. In Python 3 a comprehension
has its own scope, so this does not overwrite the `name` chosen at main.py:188.
`KeepingThroughUpdate` states the resulting behaviour: the update receives the
chosen name.

## Left out

- `database/connection.py` is replaced by the abstract table. This covers opening the file, `PRAGMA foreign_keys`, `row_factory`, and loading the schema.
- `schema.sql` is not part of this model. The table is assumed to declare `recipe_id INTEGER PRIMARY KEY AUTOINCREMENT`, and the counter `nextId` models that declaration.
- Connections, transactions and the commit on leaving `with conn` are not modelled, because each call is modelled as one atomic step.
- Failures of SQLite itself are not modelled, such as a locked or unwritable file, or a full disk.
- Repository.CreateRecipe: ids are unbounded. SQLite fails once 2^63 - 1 has been used, and that case is not modelled.
- Repository.GetAllRecipes: the order of the listing is not stated, because the SELECT has no ORDER BY. The contract speaks only of the set of ids and their fields.
- The interactive menu of main.py is left out because it is terminal I/O. Only the keep-current-values update path is modelled.
- Quantities are strings. Float quantities, which only a programmatic caller could pass, are not modelled: they need floating-point formatting in JSON.
- Json.DecodeIngredientList accepts only the two stored shapes. That is an object with the keys `quantity` and `name` in that order, or a two-element array of strings. `json.loads` also accepts other key orders, extra keys, numbers, nesting and so on, but the program never writes those.
- Json.ParseUnicodeEscape rejects a lone surrogate escape, which `json.loads` would accept. Dafny characters cannot hold a lone surrogate, and `json.dumps` never writes one for a valid string.
- RecipeEntity.DisplayLines: each element of the result is one printed line only when no field holds a line break. A name, description, quantity or step containing `\n` prints as several terminal lines, and the model does not split it.
- Ingredient values from other JSON types (numbers, null, nested lists) are not modelled, and neither are steps that are not strings.
- Repository.GetRecipeById: any column text that is not one of the two shapes is reported as `MalformedColumn`. Some such text, for example a bare JSON string in the `steps` column, is accepted by `json.loads`, and Python builds a recipe from it. The operations here never write such text (`Repository.ReadableNeverMalformed`).
