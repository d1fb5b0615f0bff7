/** The in-memory recipe entity: construction with ingredient normalisation,
    the debugging representation and the printed layout of a recipe. */
module RecipeEntity {
  import opened Wrappers
  import Decimal

  /** One ingredient as the program handles it: either a `{"quantity": q, "name": n}`
      mapping (how the menu collects ingredients) or a `(quantity, name)` pair
      (a tuple, or a two-element list once it has been through JSON). */
  datatype Ingredient = Mapping(quantity: string, name: string) | Pair(quantity: string, name: string)

  /** A recipe object; `ingredients` holds whatever the constructor stored. */
  datatype Recipe = Recipe(
    recipeId: int,
    name: string,
    description: string,
    ingredients: seq<Ingredient>,
    steps: seq<string>)

  /** Subscripting a pair with the key `'quantity'` raises a `TypeError` in Python. */
  datatype RecipeError = NotAMapping

  predicate AllMappings(xs: seq<Ingredient>) {
    forall i :: 0 <= i < |xs| ==> xs[i].Mapping?
  }

  predicate AllPairs(xs: seq<Ingredient>) {
    forall i :: 0 <= i < |xs| ==> xs[i].Pair?
  }

  /** The `(quantity, name)` pair an ingredient denotes, whatever its shape. */
  function AsPair(x: Ingredient): Ingredient {
    Pair(x.quantity, x.name)
  }

  /** The constructor's conversion of mappings to pairs: each element's quantity and
      name are read by key, in order, and the conversion raises as soon as it meets
      an element that is not a mapping. */
  function PairsOf(xs: seq<Ingredient>): (r: Result<seq<Ingredient>, RecipeError>)
    ensures r.Success? <==> AllMappings(xs)
    ensures r.Success? ==> |r.value| == |xs|
    ensures r.Success? ==> forall i :: 0 <= i < |xs| ==> r.value[i] == AsPair(xs[i])
  {
    if |xs| == 0 then Success([])
    else if !xs[0].Mapping? then Failure(NotAMapping)
    else
      var rest :- PairsOf(xs[1..]);
      Success([AsPair(xs[0])] + rest)
  }

  /** The constructor's ingredient conversion: only the first element's shape decides
      whether a conversion happens at all. */
  function NormaliseIngredients(xs: seq<Ingredient>): (r: Result<seq<Ingredient>, RecipeError>)
    // the first element is a mapping: every element must be one, and becomes its pair
    ensures |xs| > 0 && xs[0].Mapping? ==>
      (r.Success? <==> AllMappings(xs)) &&
      (r.Success? ==> AllPairs(r.value) && |r.value| == |xs| &&
                      forall i :: 0 <= i < |xs| ==> r.value[i] == AsPair(xs[i]))
    // empty, or the first element is a pair: kept exactly as given
    ensures (|xs| == 0 || xs[0].Pair?) ==> r == Success(xs)
  {
    if |xs| > 0 && xs[0].Mapping? then PairsOf(xs) else Success(xs)
  }

  /** `Recipe(recipe_id, name, description, ingredients, steps)`. */
  function NewRecipe(recipeId: int, name: string, description: string,
                     ingredients: seq<Ingredient>, steps: seq<string>): (r: Result<Recipe, RecipeError>)
    // no validation besides the ingredient shape: empty strings are accepted
    ensures r.Success? <==> (|ingredients| == 0 || ingredients[0].Pair? || AllMappings(ingredients))
    ensures r.Success? ==>
      r.value.recipeId == recipeId && r.value.name == name &&
      r.value.description == description && r.value.steps == steps
    ensures r.Success? ==> (|r.value.ingredients| == |ingredients| &&
      forall i :: 0 <= i < |ingredients| ==> AsPair(r.value.ingredients[i]) == AsPair(ingredients[i]))
    ensures r.Success? && |ingredients| > 0 && ingredients[0].Mapping? ==> AllPairs(r.value.ingredients)
    ensures r.Success? && (|ingredients| == 0 || ingredients[0].Pair?) ==> r.value.ingredients == ingredients
  {
    var normalised :- NormaliseIngredients(ingredients);
    Success(Recipe(recipeId, name, description, normalised, steps))
  }

  function AsMappings(xs: seq<Ingredient>): (r: seq<Ingredient>)
    ensures |r| == |xs| && AllMappings(r)
    ensures forall i :: 0 <= i < |xs| ==> AsPair(r[i]) == AsPair(xs[i])
  {
    seq(|xs|, i requires 0 <= i < |xs| => Mapping(xs[i].quantity, xs[i].name))
  }

  function AsPairs(xs: seq<Ingredient>): (r: seq<Ingredient>)
    ensures |r| == |xs| && AllPairs(r)
    ensures forall i :: 0 <= i < |xs| ==> r[i] == AsPair(xs[i])
  {
    seq(|xs|, i requires 0 <= i < |xs| => AsPair(xs[i]))
  }

  /** A list of mappings and the list of the same ingredients as pairs construct the
      same recipe: both end up as the pair list. */
  lemma ShapesNormaliseAlike(xs: seq<Ingredient>)
    ensures NormaliseIngredients(AsMappings(xs)) == Success(AsPairs(xs))
    ensures NormaliseIngredients(AsPairs(xs)) == Success(AsPairs(xs))
  {
    var r := NormaliseIngredients(AsMappings(xs));
    if |xs| > 0 {
      assert r.Success?;
      assert r.value == AsPairs(xs);
    }
  }

  /** Normalising what the constructor stored changes nothing more. */
  lemma NormaliseIdempotent(xs: seq<Ingredient>)
    requires NormaliseIngredients(xs).Success?
    ensures NormaliseIngredients(NormaliseIngredients(xs).value) == NormaliseIngredients(xs)
  {
  }

  /** A uniformly shaped list never raises, and always ends up as pairs. */
  lemma UniformListsNormaliseToPairs(xs: seq<Ingredient>)
    requires AllMappings(xs) || AllPairs(xs)
    ensures NormaliseIngredients(xs) == Success(AsPairs(xs))
  {
    if AllPairs(xs) {
      assert forall i :: 0 <= i < |xs| ==> xs[i] == AsPair(xs[i]);
      assert xs == AsPairs(xs);
    } else if |xs| > 0 {
      assert xs[0].Mapping?;
      assert PairsOf(xs).value == AsPairs(xs);
    }
  }

  /** Where the three fields sit in a `Recipe(a, b, c)` text. */
  lemma ReprLayout(a: string, b: string, c: string)
    ensures var s := "Recipe(" + a + ", " + b + ", " + c + ")";
      && |s| == 7 + |a| + 2 + |b| + 2 + |c| + 1
      && s[..7] == "Recipe(" && s[7..7 + |a|] == a
      && s[7 + |a|..9 + |a|] == ", "
      && s[9 + |a|..9 + |a| + |b|] == b
      && s[9 + |a| + |b|..11 + |a| + |b|] == ", "
      && s[|s| - 1 - |c|..|s| - 1] == c
      && s[|s| - 1] == ')'
  {
    var s := "Recipe(" + a + ", " + b + ", " + c + ")";
    assert s[7..7 + |a|] == a;
    assert s[9 + |a|..9 + |a| + |b|] == b;
    assert s[9 + |a| + |b|..11 + |a| + |b|] == ", ";
    assert s[|s| - 1 - |c|..|s| - 1] == c;
  }

  /** `__repr__`: `Recipe({id}, {name}, {description})`. */
  function Repr(r: Recipe): (s: string)
    ensures var idText := Decimal.IntToString(r.recipeId);
      && |s| == |"Recipe("| + |idText| + |", "| + |r.name| + |", "| + |r.description| + |")"|
      && s[..7] == "Recipe("
      && Decimal.ParseInt(s[7..7 + |idText|]) == Some(r.recipeId)
      && s[7 + |idText|..9 + |idText|] == ", "
      && s[9 + |idText|..9 + |idText| + |r.name|] == r.name
      && s[9 + |idText| + |r.name|..11 + |idText| + |r.name|] == ", "
      && s[|s| - 1 - |r.description|..|s| - 1] == r.description
      && s[|s| - 1] == ')'
  {
    var idText := Decimal.IntToString(r.recipeId);
    Decimal.IntRoundTrip(r.recipeId);
    ReprLayout(idText, r.name, r.description);
    "Recipe(" + idText + ", " + r.name + ", " + r.description + ")"
  }

  /** The line printed for one ingredient, after unpacking it into a quantity and a name.
      Unpacking a pair yields its two parts; unpacking a two-key mapping yields its
      keys, so a mapping left in an unconverted list prints as its key names. */
  function IngredientLine(x: Ingredient): string {
    match x
    case Pair(q, n) => "- " + q + " of " + n
    case Mapping(_, _) => "- quantity of name"
  }

  function IngredientLines(xs: seq<Ingredient>): (lines: seq<string>)
    ensures |lines| == |xs|
    ensures forall i :: 0 <= i < |xs| ==> lines[i] == IngredientLine(xs[i])
  {
    if |xs| == 0 then [] else [IngredientLine(xs[0])] + IngredientLines(xs[1..])
  }

  function StepLine(number: int, step: string): string {
    Decimal.IntToString(number) + ". " + step
  }

  /** `enumerate(steps, start=first)` rendered line by line. */
  function StepLines(steps: seq<string>, first: int): (lines: seq<string>)
    ensures |lines| == |steps|
    ensures forall j :: 0 <= j < |steps| ==> lines[j] == StepLine(first + j, steps[j])
  {
    if |steps| == 0 then [] else [StepLine(first, steps[0])] + StepLines(steps[1..], first + 1)
  }

  /** `display_recipe`, as the sequence of printed lines; a `print` of a text that
      starts with a newline contributes a blank line first. */
  function DisplayLines(r: Recipe): (lines: seq<string>)
    ensures |lines| == 7 + |r.ingredients| + |r.steps|
    ensures lines[0] == "Recipe ID: " + Decimal.IntToString(r.recipeId)
    ensures lines[1] == "Name: " + r.name
    ensures lines[2] == "Description: " + r.description
    ensures lines[3] == "" && lines[4] == "Ingredients:"
    ensures forall i :: 0 <= i < |r.ingredients| ==> lines[5 + i] == IngredientLine(r.ingredients[i])
    ensures lines[5 + |r.ingredients|] == "" && lines[6 + |r.ingredients|] == "Steps:"
    ensures forall j :: 0 <= j < |r.steps| ==>
      lines[7 + |r.ingredients| + j] == Decimal.IntToString(j + 1) + ". " + r.steps[j]
  {
    ["Recipe ID: " + Decimal.IntToString(r.recipeId),
     "Name: " + r.name,
     "Description: " + r.description,
     "", "Ingredients:"]
    + IngredientLines(r.ingredients)
    + ["", "Steps:"]
    + StepLines(r.steps, 1)
  }

  /** A step line starts with its number, which reads back as that number. */
  lemma StepLineNumber(number: int, step: string)
    ensures var line := StepLine(number, step);
      var digits := Decimal.IntToString(number);
      && Decimal.ParseInt(line[..|digits|]) == Some(number)
      && line[|digits|..] == ". " + step
  {
    var line := StepLine(number, step);
    var digits := Decimal.IntToString(number);
    assert line[..|digits|] == digits;
    assert line[|digits|..] == ". " + step;
    Decimal.IntRoundTrip(number);
  }

  /** Step lines are numbered 1, 2, 3, ...: the number in front of the line of
      `steps[j]` reads back as j + 1. */
  lemma StepNumbersCount(r: Recipe, j: int)
    requires 0 <= j < |r.steps|
    ensures var line := DisplayLines(r)[7 + |r.ingredients| + j];
      var digits := Decimal.IntToString(j + 1);
      && Decimal.ParseInt(line[..|digits|]) == Some(j + 1)
      && line[|digits|..] == ". " + r.steps[j]
  {
    assert DisplayLines(r)[7 + |r.ingredients| + j] == StepLine(j + 1, r.steps[j]);
    StepLineNumber(j + 1, r.steps[j]);
  }

  /** In a recipe whose ingredients are pairs, each ingredient line shows the
      ingredient's own quantity and name. */
  lemma PairLinesShowContents(r: Recipe, i: int)
    requires AllPairs(r.ingredients) && 0 <= i < |r.ingredients|
    ensures DisplayLines(r)[5 + i] ==
      "- " + r.ingredients[i].quantity + " of " + r.ingredients[i].name
  {
  }
}
