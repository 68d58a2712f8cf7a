/** `CreateRecipeSerializer`: how a recipe payload is checked before a create,
    an update (PUT) or a partial update (PATCH), and the association rows a
    checked payload turns into. As in the serializer framework, the field-level
    checks of every field run first and their errors are reported together;
    `validate` runs only when none failed, and stops at its first error. */
module RecipeWrite {
  import opened Common
  import opened Models

  datatype Mode = Create | Update | PartialUpdate

  /** An item of the `ingredients` list: an ingredient id and an amount. */
  datatype IngredientLine = IngredientLine(id: int, amount: int)

  /** The request body; an absent key is `None`. */
  datatype RecipeInput = RecipeInput(tags: Option<seq<int>>, ingredients: Option<seq<IngredientLine>>,
                                     name: Option<string>, text: Option<string>,
                                     image: Option<Image>, cookingTime: Option<int>)

  /** The keys an error can be reported under. */
  datatype Field = TagsField | IngredientsField | NameField | TextField | ImageField | CookingTimeField

  /** The outcome of `is_valid`: the errors by field, or the accepted attributes. */
  datatype Checked = Invalid(fields: set<Field>) | Valid(attrs: RecipeInput)

  /** Every field is required, except in a partial update. */
  predicate Missing<T>(v: Option<T>, mode: Mode) {
    v.None? && mode != PartialUpdate
  }

  /** `PrimaryKeyRelatedField(many=True)`: every id names an existing tag. */
  predicate TagIdsExist(ids: seq<int>, tags: map<nat, Tag>) {
    forall k :: 0 <= k < |ids| ==> ids[k] >= 0 && ids[k] as nat in tags
  }

  /** `CreateRecipeIngredientSerializer`: an existing ingredient and an amount of at least `MIN_AMOUNT`. */
  predicate LineValid(l: IngredientLine, catalog: map<nat, Ingredient>) {
    l.id >= 0 && l.id as nat in catalog && l.amount >= MIN_AMOUNT
  }

  predicate LinesValid(lines: seq<IngredientLine>, catalog: map<nat, Ingredient>) {
    forall k :: 0 <= k < |lines| ==> LineValid(lines[k], catalog)
  }

  predicate TagsFieldOk(input: RecipeInput, mode: Mode, tags: map<nat, Tag>) {
    !Missing(input.tags, mode) && (input.tags.Some? ==> TagIdsExist(input.tags.value, tags))
  }

  predicate IngredientsFieldOk(input: RecipeInput, mode: Mode, catalog: map<nat, Ingredient>) {
    !Missing(input.ingredients, mode) && (input.ingredients.Some? ==> LinesValid(input.ingredients.value, catalog))
  }

  /** `CharField(max_length=MAX_LENTHG_RECIPE)`: blank values are refused. */
  predicate NameFieldOk(input: RecipeInput, mode: Mode) {
    !Missing(input.name, mode) &&
    (input.name.Some? ==> 0 < |input.name.value| <= MAX_RECIPE_NAME_LENGTH)
  }

  predicate TextFieldOk(input: RecipeInput, mode: Mode) {
    !Missing(input.text, mode) && (input.text.Some? ==> |input.text.value| > 0)
  }

  /** The image is a required field, and `validate_image` refuses a falsy
      value only when there is no instance yet, that is on create. */
  predicate ImageFieldOk(input: RecipeInput, mode: Mode) {
    !Missing(input.image, mode) && (input.image.Some? && mode == Create ==> input.image.value != "")
  }

  predicate CookingTimeFieldOk(input: RecipeInput, mode: Mode) {
    !Missing(input.cookingTime, mode) && (input.cookingTime.Some? ==> input.cookingTime.value >= MIN_TIME)
  }

  /** The field-level errors, all of them. */
  function FieldErrors(input: RecipeInput, mode: Mode, catalog: map<nat, Ingredient>, tags: map<nat, Tag>): set<Field> {
    (if TagsFieldOk(input, mode, tags) then {} else {TagsField})
    + (if IngredientsFieldOk(input, mode, catalog) then {} else {IngredientsField})
    + (if NameFieldOk(input, mode) then {} else {NameField})
    + (if TextFieldOk(input, mode) then {} else {TextField})
    + (if ImageFieldOk(input, mode) then {} else {ImageField})
    + (if CookingTimeFieldOk(input, mode) then {} else {CookingTimeField})
  }

  function IngredientIds(lines: seq<IngredientLine>): (ids: seq<int>)
    ensures |ids| == |lines|
    ensures forall k :: 0 <= k < |lines| ==> ids[k] == lines[k].id
  {
    if |lines| == 0 then [] else [lines[0].id] + IngredientIds(lines[1..])
  }

  /** `set(ids)`. */
  function SetOf(ids: seq<int>): set<int> {
    set x | x in ids
  }

  /** `_check_unique`: the ids are unique when the set of them is as long as the list. */
  predicate UniqueIds(ids: seq<int>) {
    |SetOf(ids)| == |ids|
  }

  /** The length comparison of `_check_unique` is exactly the absence of duplicates. */
  lemma {:induction false} UniqueIdsIff(ids: seq<int>)
    ensures |SetOf(ids)| <= |ids|
    ensures UniqueIds(ids) <==> NoDuplicates(ids)
    decreases |ids|
  {
    if |ids| > 0 {
      var t := ids[1..];
      UniqueIdsIff(t);
      assert ids == [ids[0]] + t;
      assert SetOf(ids) == {ids[0]} + SetOf(t);
      if NoDuplicates(ids) {
        DropFirstNoDuplicates(ids);
      }
      if NoDuplicates(t) && ids[0] !in t {
        ConcatNoDuplicates([ids[0]], t);
      }
      if ids[0] in t {
        assert SetOf(ids) == SetOf(t);
      } else {
        assert |SetOf(ids)| == |SetOf(t)| + 1;
      }
    }
  }

  /** `is_valid` on the recipe serializer: field errors first, then `validate`,
      which checks that tags and ingredients are given and non-empty
      (`_check_required`) and then that their ids are unique (`_check_unique`). */
  function ValidateRecipe(input: RecipeInput, mode: Mode, catalog: map<nat, Ingredient>, tags: map<nat, Tag>): Checked {
    var errors := FieldErrors(input, mode, catalog, tags);
    if errors != {} then Invalid(errors)
    else if input.tags.None? || input.tags.value == [] then Invalid({TagsField})
    else if input.ingredients.None? || input.ingredients.value == [] then Invalid({IngredientsField})
    else if !UniqueIds(input.tags.value) then Invalid({TagsField})
    else if !UniqueIds(IngredientIds(input.ingredients.value)) then Invalid({IngredientsField})
    else Valid(input)
  }

  /** What an acceptable payload is, stated field by field: non-empty lists of
      existing, pairwise distinct tags and ingredients with amounts of at least
      one; a non-blank name within the limit; a non-blank text; a cooking time
      of at least one; an image, non-empty on create; and, outside a partial
      update, every field present. */
  predicate Acceptable(input: RecipeInput, mode: Mode, catalog: map<nat, Ingredient>, tags: map<nat, Tag>) {
    && input.tags.Some? && input.tags.value != []
    && TagIdsExist(input.tags.value, tags) && NoDuplicates(input.tags.value)
    && input.ingredients.Some? && input.ingredients.value != []
    && LinesValid(input.ingredients.value, catalog) && NoDuplicates(IngredientIds(input.ingredients.value))
    && NameFieldOk(input, mode) && TextFieldOk(input, mode)
    && ImageFieldOk(input, mode) && CookingTimeFieldOk(input, mode)
  }

  /** A payload is accepted exactly when it is acceptable, and is then kept as it is. */
  lemma ValidateRecipeIff(input: RecipeInput, mode: Mode, catalog: map<nat, Ingredient>, tags: map<nat, Tag>)
    ensures ValidateRecipe(input, mode, catalog, tags).Valid? <==> Acceptable(input, mode, catalog, tags)
    ensures ValidateRecipe(input, mode, catalog, tags).Valid? ==> ValidateRecipe(input, mode, catalog, tags).attrs == input
  {
    FieldErrorsEmptyIff(input, mode, catalog, tags);
    if input.tags.Some? {
      UniqueIdsIff(input.tags.value);
    }
    if input.ingredients.Some? {
      UniqueIdsIff(IngredientIds(input.ingredients.value));
    }
  }

  /** No field-level error exactly when every field check passes. */
  lemma FieldErrorsEmptyIff(input: RecipeInput, mode: Mode, catalog: map<nat, Ingredient>, tags: map<nat, Tag>)
    ensures FieldErrors(input, mode, catalog, tags) == {} <==>
              && TagsFieldOk(input, mode, tags) && IngredientsFieldOk(input, mode, catalog)
              && NameFieldOk(input, mode) && TextFieldOk(input, mode)
              && ImageFieldOk(input, mode) && CookingTimeFieldOk(input, mode)
  {
    if !TagsFieldOk(input, mode, tags) {
      assert TagsField in FieldErrors(input, mode, catalog, tags);
    }
    if !IngredientsFieldOk(input, mode, catalog) {
      assert IngredientsField in FieldErrors(input, mode, catalog, tags);
    }
    if !NameFieldOk(input, mode) {
      assert NameField in FieldErrors(input, mode, catalog, tags);
    }
    if !TextFieldOk(input, mode) {
      assert TextField in FieldErrors(input, mode, catalog, tags);
    }
    if !ImageFieldOk(input, mode) {
      assert ImageField in FieldErrors(input, mode, catalog, tags);
    }
    if !CookingTimeFieldOk(input, mode) {
      assert CookingTimeField in FieldErrors(input, mode, catalog, tags);
    }
  }

  /** Tags and ingredients are required even in a partial update: a missing or
      empty list is refused, and when no field failed the error is keyed by that list. */
  lemma RequiredLists(input: RecipeInput, mode: Mode, catalog: map<nat, Ingredient>, tags: map<nat, Tag>)
    ensures var r := ValidateRecipe(input, mode, catalog, tags);
      && (input.tags.None? || input.tags.value == [] ==> r.Invalid?)
      && (input.ingredients.None? || input.ingredients.value == [] ==> r.Invalid?)
      && (input.tags.None? && mode != PartialUpdate ==> TagsField in r.fields)
      && (input.ingredients.None? && mode != PartialUpdate ==> IngredientsField in r.fields)
      && (FieldErrors(input, mode, catalog, tags) == {} && (input.tags.None? || input.tags.value == []) ==>
            r.fields == {TagsField})
      && ((FieldErrors(input, mode, catalog, tags) == {} && input.tags.Some? && input.tags.value != [] &&
            (input.ingredients.None? || input.ingredients.value == [])) ==> r.fields == {IngredientsField})
  {
  }

  /** Duplicate tag ids, or two lines naming the same ingredient, are refused;
      once every field passed and both lists are given, the error is keyed by
      the tags when they repeat, and otherwise by the ingredients. */
  lemma DuplicatesRefused(input: RecipeInput, mode: Mode, catalog: map<nat, Ingredient>, tags: map<nat, Tag>)
    requires input.tags.Some? && input.ingredients.Some?
    ensures var r := ValidateRecipe(input, mode, catalog, tags);
      && (!NoDuplicates(input.tags.value) ==> r.Invalid?)
      && (!NoDuplicates(IngredientIds(input.ingredients.value)) ==> r.Invalid?)
      && ((FieldErrors(input, mode, catalog, tags) == {} && input.ingredients.value != [] &&
            !NoDuplicates(input.tags.value)) ==> r.fields == {TagsField})
      && ((FieldErrors(input, mode, catalog, tags) == {} && input.tags.value != [] && NoDuplicates(input.tags.value) &&
            !NoDuplicates(IngredientIds(input.ingredients.value))) ==> r.fields == {IngredientsField})
  {
    UniqueIdsIff(input.tags.value);
    UniqueIdsIff(IngredientIds(input.ingredients.value));
    if FieldErrors(input, mode, catalog, tags) != {} {
      assert ValidateRecipe(input, mode, catalog, tags) == Invalid(FieldErrors(input, mode, catalog, tags));
    }
  }

  /** An empty image is refused on create and accepted on update; leaving the
      image out is refused on create and on a full update, not on a partial one. */
  lemma ImageOnlyRequiredOnCreate(input: RecipeInput, mode: Mode, catalog: map<nat, Ingredient>, tags: map<nat, Tag>)
    ensures input.image == Some("") ==>
              (ImageField in FieldErrors(input, mode, catalog, tags) <==> mode == Create)
    ensures input.image.None? ==>
              (ImageField in FieldErrors(input, mode, catalog, tags) <==> mode != PartialUpdate)
    ensures input.image == Some("") && mode == Create ==> ValidateRecipe(input, mode, catalog, tags).Invalid?
  {
  }

  /** Amounts below one and cooking times below one are refused. */
  lemma MinimumsEnforced(input: RecipeInput, mode: Mode, catalog: map<nat, Ingredient>, tags: map<nat, Tag>, k: nat)
    ensures input.cookingTime.Some? && input.cookingTime.value < MIN_TIME ==>
              CookingTimeField in ValidateRecipe(input, mode, catalog, tags).fields
    ensures input.ingredients.Some? && k < |input.ingredients.value| && input.ingredients.value[k].amount < MIN_AMOUNT ==>
              IngredientsField in ValidateRecipe(input, mode, catalog, tags).fields
  {
  }

  // -------------------------------------------------------------- row builders

  /** `_create_ingredients`: one row per line, for the given recipe. */
  function RowsFor(recipe: nat, lines: seq<IngredientLine>): (rows: seq<RecipeIngredient>)
    requires forall k :: 0 <= k < |lines| ==> lines[k].id >= 0 && lines[k].amount >= 0
    ensures |rows| == |lines|
    ensures forall k :: 0 <= k < |rows| ==>
              rows[k] == RecipeIngredient(recipe, lines[k].id as nat, lines[k].amount as nat)
  {
    if |lines| == 0 then []
    else [RecipeIngredient(recipe, lines[0].id as nat, lines[0].amount as nat)] + RowsFor(recipe, lines[1..])
  }

  /** `recipe.tags.set(tags)`: the recipe's tag rows. */
  function TagRows(recipe: nat, ids: seq<int>): (rows: set<RecipeTag>)
    requires forall k :: 0 <= k < |ids| ==> ids[k] >= 0
    ensures forall rt :: rt in rows <==> rt.recipe == recipe && (rt.tag as int) in ids
  {
    set k | 0 <= k < |ids| :: RecipeTag(recipe, ids[k] as nat)
  }

  /** Every amount fits the `integer` column of RecipeIngredient.amount; the
      serializer sets no upper bound, so this is checked only by the database. */
  predicate AmountsFit(lines: seq<IngredientLine>) {
    forall k :: 0 <= k < |lines| ==> lines[k].amount <= MAX_INT32
  }

  /** The present name fits Recipe.name's 150 characters and the present
      cooking time its `integer` column. The serializer lets names of up to
      256 characters through, so a name of 151 to 256 characters passes
      validation and then fails at the database. */
  predicate FieldsFit(input: RecipeInput) {
    && (input.name.Some? ==> |input.name.value| <= MAX_NAME_LENGTH)
    && (input.cookingTime.Some? ==> input.cookingTime.value <= MAX_INT32)
  }

  /** The rows built from an accepted payload whose amounts fit their column
      satisfy the schema: each belongs to the recipe, names an existing
      ingredient with an amount of at least one, and no ingredient occurs twice. */
  lemma {:induction false} RowsForValid(recipe: nat, lines: seq<IngredientLine>, catalog: map<nat, Ingredient>)
    requires LinesValid(lines, catalog) && AmountsFit(lines) && NoDuplicates(IngredientIds(lines))
    ensures var rows := RowsFor(recipe, lines);
      && RecipeIngredientsValid(rows)
      && (forall k :: 0 <= k < |rows| ==> rows[k].recipe == recipe && rows[k].ingredient in catalog)
  {
    var rows := RowsFor(recipe, lines);
    var ids := IngredientIds(lines);
    forall i, j | 0 <= i < j < |rows|
      ensures rows[i].recipe != rows[j].recipe || rows[i].ingredient != rows[j].ingredient
    {
      assert ids[i] != ids[j];
    }
  }
}
