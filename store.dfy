/** The database as the views change it: one field per table, and the
    operations of the views that write to it — favorite and cart membership,
    subscriptions, password and avatar changes, and recipe create, update and
    destroy. Each operation checks what its view checks, in the same order,
    and keeps the schema's constraints. A recipe write runs its INSERTs and
    DELETEs one after another with no transaction around them: when a value
    passes the serializer but does not fit its column, the statement that
    stores it fails with a server error and the statements before it stay
    written. */
module Database {
  import opened Common
  import opened Models
  import opened Text
  import opened Serializers
  import opened RecipeWrite

  /** The contents of every table at one moment. */
  datatype Tables = Tables(accounts: map<nat, Account>, ingredients: map<nat, Ingredient>,
                           tags: map<nat, Tag>, recipes: map<nat, Recipe>,
                           recipeIngredients: seq<RecipeIngredient>, recipeTags: set<RecipeTag>,
                           favorites: seq<Membership>, cart: seq<Membership>,
                           subscriptions: seq<Subscription>)

  predicate TablesValid(t: Tables) {
    StoreInvariant(t.accounts, t.ingredients, t.tags, t.recipes, t.recipeIngredients, t.recipeTags,
                   t.favorites, t.cart, t.subscriptions)
  }

  /** The Favorite table or the ShoppingCart table. */
  datatype MembershipTable = FavoriteTable | CartTable

  function RowsOf(t: Tables, table: MembershipTable): seq<Membership> {
    if table == FavoriteTable then t.favorites else t.cart
  }

  function WithRows(t: Tables, table: MembershipTable, rows: seq<Membership>): Tables {
    if table == FavoriteTable then t.(favorites := rows) else t.(cart := rows)
  }

  /** `instance.delete()` on a filtered query set: every copy of `x` goes. */
  function Without<T(==,!new)>(rows: seq<T>, x: T): (r: seq<T>)
    ensures forall y :: y in r <==> y in rows && y != x
    ensures NoDuplicates(rows) ==> NoDuplicates(r)
  {
    Keep(rows, y => y != x)
  }

  /** The RecipeIngredient rows of every recipe but `recipe`. */
  function OtherRecipesRows(rows: seq<RecipeIngredient>, recipe: nat): (r: seq<RecipeIngredient>)
    ensures forall x :: x in r <==> x in rows && x.recipe != recipe
    ensures RecipeIngredientsValid(rows) ==> RecipeIngredientsValid(r)
    ensures (forall x :: x in rows ==> x.recipe != recipe) ==> r == rows
  {
    var p := (x: RecipeIngredient) => x.recipe != recipe;
    KeepRecipeIngredients(rows, p);
    if forall x :: x in rows ==> x.recipe != recipe then
      KeepAll(rows, p);
      Keep(rows, p)
    else Keep(rows, p)
  }

  /** The recipe-tag rows of every recipe but `recipe`. */
  function OtherRecipesTags(rows: set<RecipeTag>, recipe: nat): (r: set<RecipeTag>)
    ensures forall x :: x in r <==> x in rows && x.recipe != recipe
  {
    set x | x in rows && x.recipe != recipe
  }

  /** The favorite or cart rows of every recipe but `recipe`. */
  function OtherRecipesMembers(rows: seq<Membership>, recipe: nat): (r: seq<Membership>)
    ensures forall x :: x in r <==> x in rows && x.recipe != recipe
    ensures NoDuplicates(rows) ==> NoDuplicates(r)
  {
    Keep(rows, (x: Membership) => x.recipe != recipe)
  }

  /** `super().update`: the fields present in the payload replace the stored ones. */
  function Patched(r: Recipe, input: RecipeInput): Recipe {
    r.(name := if input.name.Some? then input.name.value else r.name,
       text := if input.text.Some? then input.text.value else r.text,
       image := if input.image.Some? then input.image.value else r.image,
       cookingTime := if input.cookingTime.Some? then input.cookingTime.value else r.cookingTime)
  }

  /** The row `Recipe.objects.create` inserts for a payload with every field present. */
  function NewRecipe(author: nat, input: RecipeInput, shortLink: nat): (r: Recipe)
    requires input.name.Some? && input.text.Some? && input.image.Some? && input.cookingTime.Some?
    ensures r.author == author && r.shortLink == shortLink
    ensures FieldsFit(input) && input.cookingTime.value >= MIN_TIME <==> RecipeValid(r)
  {
    Recipe(author, input.name.value, input.text.value, input.image.value, input.cookingTime.value, shortLink)
  }

  /** The tables after `create` has added recipe `id` of `author` from an accepted payload. */
  function AfterCreate(t: Tables, author: nat, input: RecipeInput, id: nat, shortLink: nat): Tables
    requires Acceptable(input, Create, t.ingredients, t.tags)
  {
    t.(recipes := t.recipes[id := NewRecipe(author, input, shortLink)],
       recipeIngredients := t.recipeIngredients + RowsFor(id, input.ingredients.value),
       recipeTags := t.recipeTags + TagRows(id, input.tags.value))
  }

  /** `create`'s three writes for an accepted payload, in order: the Recipe
      INSERT fails when the name or cooking time does not fit, leaving
      nothing written; the bulk INSERT of its RecipeIngredient rows fails when
      an amount does not fit, leaving the recipe without rows or tags;
      otherwise the tags are set as well and the view answers 201. */
  function CreateWrite(t: Tables, author: nat, input: RecipeInput, id: nat, shortLink: nat): (Status, Tables)
    requires Acceptable(input, Create, t.ingredients, t.tags)
  {
    if !FieldsFit(input) then (ServerError, t)
    else if !AmountsFit(input.ingredients.value) then
      (ServerError, t.(recipes := t.recipes[id := NewRecipe(author, input, shortLink)]))
    else (Created, AfterCreate(t, author, input, id, shortLink))
  }

  /** The tables after `update`: the recipe's rows and tags deleted, the given
      ones created, the present fields overwritten. */
  function AfterUpdate(t: Tables, id: nat, input: RecipeInput, mode: Mode): Tables
    requires id in t.recipes
    requires Acceptable(input, mode, t.ingredients, t.tags)
  {
    t.(recipes := t.recipes[id := Patched(t.recipes[id], input)],
       recipeIngredients := OtherRecipesRows(t.recipeIngredients, id) + RowsFor(id, input.ingredients.value),
       recipeTags := OtherRecipesTags(t.recipeTags, id) + TagRows(id, input.tags.value))
  }

  /** `update`'s writes for an accepted payload, in order: the recipe's rows
      are deleted and its tags cleared; the bulk INSERT of the new rows fails
      when an amount does not fit, leaving the recipe without rows or tags;
      otherwise the tags are set, and the final save of the fields fails when
      the name or cooking time does not fit, leaving the new rows and tags
      beside the old fields; otherwise the view answers 200. */
  function UpdateWrite(t: Tables, id: nat, input: RecipeInput, mode: Mode): (Status, Tables)
    requires id in t.recipes
    requires Acceptable(input, mode, t.ingredients, t.tags)
  {
    if !AmountsFit(input.ingredients.value) then
      (ServerError, t.(recipeIngredients := OtherRecipesRows(t.recipeIngredients, id),
                       recipeTags := OtherRecipesTags(t.recipeTags, id)))
    else if !FieldsFit(input) then
      (ServerError, AfterUpdate(t, id, input, mode).(recipes := t.recipes))
    else (Ok, AfterUpdate(t, id, input, mode))
  }

  /** The tables after `destroy`, with the deletion cascading to every row that refers to the recipe. */
  function AfterDestroy(t: Tables, id: nat): Tables {
    t.(recipes := t.recipes - {id},
       recipeIngredients := OtherRecipesRows(t.recipeIngredients, id),
       recipeTags := OtherRecipesTags(t.recipeTags, id),
       favorites := OtherRecipesMembers(t.favorites, id),
       cart := OtherRecipesMembers(t.cart, id))
  }

  // ------------------------------------------------------ invariant preservation

  /** Replacing a favorite or cart table by valid rows keeps the tables valid. */
  lemma MembershipChangeKeepsValid(t: Tables, table: MembershipTable, rows: seq<Membership>)
    requires TablesValid(t)
    requires MembershipsValid(rows, t.accounts, t.recipes)
    ensures TablesValid(WithRows(t, table, rows))
  {
  }

  /** Adding a pair the validator let through, or removing a pair, keeps a
      membership table valid. */
  lemma MembershipRowsValid(rows: seq<Membership>, accounts: map<nat, Account>, recipes: map<nat, Recipe>, m: Membership)
    requires MembershipsValid(rows, accounts, recipes)
    ensures m !in rows && m.user in accounts && m.recipe in recipes ==> MembershipsValid(rows + [m], accounts, recipes)
    ensures MembershipsValid(Without(rows, m), accounts, recipes)
  {
    if m !in rows {
      AppendNoDuplicates(rows, m);
    }
  }

  /** Changing an account's password or avatar keeps the tables valid. */
  lemma AccountChangeKeepsValid(t: Tables, user: nat, a: Account)
    requires TablesValid(t)
    requires user in t.accounts && a.email == t.accounts[user].email && a.username == t.accounts[user].username
    ensures TablesValid(t.(accounts := t.accounts[user := a]))
  {
    var accounts := t.accounts[user := a];
    assert AccountsValid(accounts);
    assert RecipesValid(t.recipes, accounts);
  }

  /** Creating a recipe from an accepted payload, under a fresh key and a fresh
      token, by an existing author, keeps the tables valid. */
  lemma CreateKeepsValid(t: Tables, author: nat, input: RecipeInput, id: nat, shortLink: nat)
    requires TablesValid(t)
    requires author in t.accounts && id !in t.recipes
    requires forall r :: r in t.recipes ==> t.recipes[r].shortLink != shortLink
    requires Acceptable(input, Create, t.ingredients, t.tags)
    requires FieldsFit(input) && AmountsFit(input.ingredients.value)
    ensures TablesValid(AfterCreate(t, author, input, id, shortLink))
  {
    var t' := AfterCreate(t, author, input, id, shortLink);
    assert forall r :: r in t.recipes ==> r in t'.recipes;
    assert MembershipsValid(t'.favorites, t'.accounts, t'.recipes);
    assert MembershipsValid(t'.cart, t'.accounts, t'.recipes);
    AddKeepsRecipesValid(t.recipes, t.accounts, id, t'.recipes[id]);
    AddKeepsRowsValid(t.recipeIngredients, t.recipeTags, t.recipes, t'.recipes, t.ingredients, t.tags, id, input);
  }

  /** Adding a valid recipe by an existing author, under a fresh key and a fresh token, keeps the recipes valid. */
  lemma AddKeepsRecipesValid(recipes: map<nat, Recipe>, accounts: map<nat, Account>, id: nat, r: Recipe)
    requires RecipesValid(recipes, accounts) && id !in recipes
    requires RecipeValid(r) && r.author in accounts
    requires forall i :: i in recipes ==> recipes[i].shortLink != r.shortLink
    ensures RecipesValid(recipes[id := r], accounts)
  {
  }

  /** Adding the rows and tags of an accepted payload for a recipe with no rows yet keeps the rows valid. */
  lemma AddKeepsRowsValid(rows: seq<RecipeIngredient>, recipeTags: set<RecipeTag>,
                          recipes: map<nat, Recipe>, recipes': map<nat, Recipe>,
                          ingredients: map<nat, Ingredient>, tags: map<nat, Tag>,
                          id: nat, input: RecipeInput)
    requires RecipeRowsValid(rows, recipeTags, recipes, ingredients, tags) && id !in recipes
    requires id in recipes' && forall r :: r in recipes ==> r in recipes'
    requires Acceptable(input, Create, ingredients, tags) && AmountsFit(input.ingredients.value)
    ensures RecipeRowsValid(rows + RowsFor(id, input.ingredients.value),
                            recipeTags + TagRows(id, input.tags.value),
                            recipes', ingredients, tags)
  {
    var added := RowsFor(id, input.ingredients.value);
    RowsForValid(id, input.ingredients.value, ingredients);
    assert forall x, y :: x in rows && y in added ==> x.recipe != y.recipe by {
      forall x, y | x in rows && y in added ensures x.recipe != y.recipe {
        var k :| 0 <= k < |added| && added[k] == y;
      }
    }
    AppendRecipeIngredients(rows, added);
    forall x | x in rows + added ensures x.recipe in recipes' && x.ingredient in ingredients {
      if x in added {
        var k :| 0 <= k < |added| && added[k] == x;
      }
    }
  }

  /** Updating a recipe from an accepted payload keeps the tables valid. */
  lemma UpdateKeepsValid(t: Tables, id: nat, input: RecipeInput, mode: Mode)
    requires TablesValid(t)
    requires id in t.recipes
    requires Acceptable(input, mode, t.ingredients, t.tags)
    requires FieldsFit(input) && AmountsFit(input.ingredients.value)
    ensures TablesValid(AfterUpdate(t, id, input, mode))
  {
    var t' := AfterUpdate(t, id, input, mode);
    assert forall r :: r in t'.recipes <==> r in t.recipes;
    assert MembershipsValid(t'.favorites, t'.accounts, t'.recipes);
    assert MembershipsValid(t'.cart, t'.accounts, t'.recipes);
    PatchedKeepsRecipesValid(t.recipes, t.accounts, id, input, mode, t.ingredients, t.tags);
    ReplaceKeepsRowsValid(t.recipeIngredients, t.recipeTags, t.recipes, t'.recipes, t.ingredients, t.tags, id, input, mode);
  }

  /** Overwriting one recipe's fields from an accepted payload keeps the recipes valid. */
  lemma PatchedKeepsRecipesValid(recipes: map<nat, Recipe>, accounts: map<nat, Account>, id: nat, input: RecipeInput,
                                 mode: Mode, catalog: map<nat, Ingredient>, tags: map<nat, Tag>)
    requires RecipesValid(recipes, accounts) && id in recipes
    requires Acceptable(input, mode, catalog, tags) && FieldsFit(input)
    ensures RecipesValid(recipes[id := Patched(recipes[id], input)], accounts)
  {
    var recipes' := recipes[id := Patched(recipes[id], input)];
    PatchedValid(recipes[id], input, mode, catalog, tags);
    forall i, j | i in recipes' && j in recipes' && i != j
      ensures recipes'[i].shortLink != recipes'[j].shortLink
    {
      assert recipes'[i].shortLink == recipes[i].shortLink;
      assert recipes'[j].shortLink == recipes[j].shortLink;
    }
  }

  /** Replacing one recipe's rows and tags by those of an accepted payload keeps the rows valid. */
  lemma ReplaceKeepsRowsValid(rows: seq<RecipeIngredient>, recipeTags: set<RecipeTag>,
                              recipes: map<nat, Recipe>, recipes': map<nat, Recipe>,
                              ingredients: map<nat, Ingredient>, tags: map<nat, Tag>,
                              id: nat, input: RecipeInput, mode: Mode)
    requires RecipeRowsValid(rows, recipeTags, recipes, ingredients, tags)
    requires id in recipes' && forall r :: r in recipes ==> r in recipes'
    requires Acceptable(input, mode, ingredients, tags) && AmountsFit(input.ingredients.value)
    ensures RecipeRowsValid(OtherRecipesRows(rows, id) + RowsFor(id, input.ingredients.value),
                            OtherRecipesTags(recipeTags, id) + TagRows(id, input.tags.value),
                            recipes', ingredients, tags)
  {
    var kept := OtherRecipesRows(rows, id);
    var added := RowsFor(id, input.ingredients.value);
    RowsForValid(id, input.ingredients.value, ingredients);
    assert forall x, y :: x in kept && y in added ==> x.recipe != y.recipe by {
      forall x, y | x in kept && y in added ensures x.recipe != y.recipe {
        var k :| 0 <= k < |added| && added[k] == y;
      }
    }
    AppendRecipeIngredients(kept, added);
    forall x | x in kept + added ensures x.recipe in recipes' && x.ingredient in ingredients {
      if x in added {
        var k :| 0 <= k < |added| && added[k] == x;
      }
    }
  }

  /** Overwriting the fields of an accepted payload that fit their columns
      keeps the author, the token and a valid row. */
  lemma PatchedValid(r: Recipe, input: RecipeInput, mode: Mode, catalog: map<nat, Ingredient>, tags: map<nat, Tag>)
    requires RecipeValid(r)
    requires Acceptable(input, mode, catalog, tags) && FieldsFit(input)
    ensures var p := Patched(r, input);
      RecipeValid(p) && p.author == r.author && p.shortLink == r.shortLink
  {
  }

  /** Destroying a recipe, with its cascade, keeps the tables valid. */
  lemma DestroyKeepsValid(t: Tables, id: nat)
    requires TablesValid(t)
    ensures TablesValid(AfterDestroy(t, id))
  {
    var t' := AfterDestroy(t, id);
    assert RecipesValid(t'.recipes, t'.accounts);
    RemoveKeepsRowsValid(t.recipeIngredients, t.recipeTags, t.recipes, t.ingredients, t.tags, id);
    RemoveKeepsMembershipsValid(t.favorites, t.accounts, t.recipes, id);
    RemoveKeepsMembershipsValid(t.cart, t.accounts, t.recipes, id);
  }

  /** Deleting a recipe's RecipeIngredient and tag rows along with the recipe keeps the rows valid. */
  lemma RemoveKeepsRowsValid(rows: seq<RecipeIngredient>, recipeTags: set<RecipeTag>, recipes: map<nat, Recipe>,
                             ingredients: map<nat, Ingredient>, tags: map<nat, Tag>, id: nat)
    requires RecipeRowsValid(rows, recipeTags, recipes, ingredients, tags)
    ensures RecipeRowsValid(OtherRecipesRows(rows, id), OtherRecipesTags(recipeTags, id), recipes - {id}, ingredients, tags)
  {
  }

  /** Deleting a recipe's favorite or cart rows along with the recipe keeps the table valid. */
  lemma RemoveKeepsMembershipsValid(rows: seq<Membership>, accounts: map<nat, Account>, recipes: map<nat, Recipe>, id: nat)
    requires MembershipsValid(rows, accounts, recipes)
    ensures MembershipsValid(OtherRecipesMembers(rows, id), accounts, recipes - {id})
  {
  }

  // ------------------------------------------------------ failed recipe writes

  /** More recipes keep every row's reference to an existing recipe. */
  lemma MoreRecipesKeepRowsValid(t: Tables, recipes': map<nat, Recipe>)
    requires TablesValid(t) && forall r :: r in t.recipes ==> r in recipes'
    ensures RecipeRowsValid(t.recipeIngredients, t.recipeTags, recipes', t.ingredients, t.tags)
    ensures MembershipsValid(t.favorites, t.accounts, recipes') && MembershipsValid(t.cart, t.accounts, recipes')
  {
  }

  /** Every outcome of `create`'s writes keeps the tables valid, the failed
      ones included. */
  lemma CreateWriteKeepsValid(t: Tables, author: nat, input: RecipeInput, id: nat, shortLink: nat)
    requires TablesValid(t)
    requires author in t.accounts && id !in t.recipes
    requires forall r :: r in t.recipes ==> t.recipes[r].shortLink != shortLink
    requires Acceptable(input, Create, t.ingredients, t.tags)
    ensures TablesValid(CreateWrite(t, author, input, id, shortLink).1)
  {
    if FieldsFit(input) && AmountsFit(input.ingredients.value) {
      CreateKeepsValid(t, author, input, id, shortLink);
    } else if FieldsFit(input) {
      var r := NewRecipe(author, input, shortLink);
      AddKeepsRecipesValid(t.recipes, t.accounts, id, r);
      MoreRecipesKeepRowsValid(t, t.recipes[id := r]);
    }
  }

  /** Every outcome of `update`'s writes keeps the tables valid, the failed
      ones included. */
  lemma UpdateWriteKeepsValid(t: Tables, id: nat, input: RecipeInput, mode: Mode)
    requires TablesValid(t)
    requires id in t.recipes
    requires Acceptable(input, mode, t.ingredients, t.tags)
    ensures TablesValid(UpdateWrite(t, id, input, mode).1)
  {
    if FieldsFit(input) && AmountsFit(input.ingredients.value) {
      UpdateKeepsValid(t, id, input, mode);
    } else if AmountsFit(input.ingredients.value) {
      ReplacedRowsKeepValid(t, id, input, mode);
    } else {
      ClearedRowsKeepValid(t, id);
    }
  }

  /** Deleting one recipe's rows and tags while the recipe stays keeps the tables valid. */
  lemma ClearedRowsKeepValid(t: Tables, id: nat)
    requires TablesValid(t)
    ensures TablesValid(t.(recipeIngredients := OtherRecipesRows(t.recipeIngredients, id),
                           recipeTags := OtherRecipesTags(t.recipeTags, id)))
  {
    RemoveKeepsRowsValid(t.recipeIngredients, t.recipeTags, t.recipes, t.ingredients, t.tags, id);
    assert RecipeRowsValid(OtherRecipesRows(t.recipeIngredients, id), OtherRecipesTags(t.recipeTags, id),
                           t.recipes, t.ingredients, t.tags);
  }

  /** Replacing one recipe's rows and tags while its fields stay keeps the tables valid. */
  lemma ReplacedRowsKeepValid(t: Tables, id: nat, input: RecipeInput, mode: Mode)
    requires TablesValid(t) && id in t.recipes
    requires Acceptable(input, mode, t.ingredients, t.tags) && AmountsFit(input.ingredients.value)
    ensures TablesValid(AfterUpdate(t, id, input, mode).(recipes := t.recipes))
  {
    ReplaceKeepsRowsValid(t.recipeIngredients, t.recipeTags, t.recipes, t.recipes, t.ingredients, t.tags, id, input, mode);
    var t' := AfterUpdate(t, id, input, mode).(recipes := t.recipes);
    assert t' == t.(recipeIngredients := t'.recipeIngredients, recipeTags := t'.recipeTags);
  }

  /** `create` answers 201 exactly when every value fits its column, and then
      writes what an accepted payload describes. Otherwise it answers 500:
      with a name or cooking time too large nothing is written; with an amount
      too large the recipe is stored with no RecipeIngredient row and no tag. */
  lemma CreateWriteOutcome(t: Tables, author: nat, input: RecipeInput, id: nat, shortLink: nat)
    requires TablesValid(t) && id !in t.recipes
    requires Acceptable(input, Create, t.ingredients, t.tags)
    ensures var w := CreateWrite(t, author, input, id, shortLink);
      && (w.0 == Created <==> FieldsFit(input) && AmountsFit(input.ingredients.value))
      && (w.0 == Created ==> w.1 == AfterCreate(t, author, input, id, shortLink))
      && (w.0 != Created ==> w.0 == ServerError)
      && (!FieldsFit(input) ==> w.1 == t)
      && (FieldsFit(input) && !AmountsFit(input.ingredients.value) ==>
            && w.1.recipes == t.recipes[id := NewRecipe(author, input, shortLink)]
            && (forall x :: x in w.1.recipeIngredients ==> x.recipe != id)
            && (forall rt :: rt in w.1.recipeTags ==> rt.recipe != id)
            && w.1 == t.(recipes := w.1.recipes))
  {
  }

  /** `update` answers 200 exactly when every value fits its column. Otherwise
      it answers 500 with the recipe's fields as they were: with an amount too
      large the recipe is left with no RecipeIngredient row and no tag; with a
      name or cooking time too large its rows and tags are already replaced. */
  lemma UpdateWriteOutcome(t: Tables, id: nat, input: RecipeInput, mode: Mode)
    requires id in t.recipes
    requires Acceptable(input, mode, t.ingredients, t.tags)
    ensures var w := UpdateWrite(t, id, input, mode);
      && (w.0 == Ok <==> FieldsFit(input) && AmountsFit(input.ingredients.value))
      && (w.0 == Ok ==> w.1 == AfterUpdate(t, id, input, mode))
      && (w.0 != Ok ==> w.0 == ServerError && w.1.recipes == t.recipes)
      && (!AmountsFit(input.ingredients.value) ==>
            && (forall x :: x in w.1.recipeIngredients ==> x.recipe != id)
            && (forall rt :: rt in w.1.recipeTags ==> rt.recipe != id)
            && (forall x: RecipeIngredient :: x.recipe != id ==> (x in w.1.recipeIngredients <==> x in t.recipeIngredients))
            && (forall rt: RecipeTag :: rt.recipe != id ==> (rt in w.1.recipeTags <==> rt in t.recipeTags)))
      && (AmountsFit(input.ingredients.value) && !FieldsFit(input) ==>
            && w.1.recipeIngredients == AfterUpdate(t, id, input, mode).recipeIngredients
            && w.1.recipeTags == AfterUpdate(t, id, input, mode).recipeTags)
      && w.1.accounts == t.accounts && w.1.favorites == t.favorites && w.1.cart == t.cart
      && w.1.subscriptions == t.subscriptions
  {
  }

  // ------------------------------------------------------------ row contents

  /** After an update the recipe has exactly one RecipeIngredient row per
      ingredient line, carrying its amount, and exactly the given tags; every
      other recipe's rows and tags are as they were. */
  lemma UpdateReplacesRows(t: Tables, id: nat, input: RecipeInput, mode: Mode)
    requires id in t.recipes
    requires Acceptable(input, mode, t.ingredients, t.tags)
    ensures var t' := AfterUpdate(t, id, input, mode); var lines := input.ingredients.value;
      && (forall x: RecipeIngredient :: x.recipe == id ==>
            (x in t'.recipeIngredients <==>
               exists k :: 0 <= k < |lines| && x == RecipeIngredient(id, lines[k].id as nat, lines[k].amount as nat)))
      && (forall x: RecipeIngredient :: x.recipe != id ==> (x in t'.recipeIngredients <==> x in t.recipeIngredients))
      && (forall rt: RecipeTag :: rt.recipe == id ==> (rt in t'.recipeTags <==> rt.tag as int in input.tags.value))
      && (forall rt: RecipeTag :: rt.recipe != id ==> (rt in t'.recipeTags <==> rt in t.recipeTags))
  {
    RowsForMembers(id, input.ingredients.value);
  }

  /** After a create the new recipe has exactly one RecipeIngredient row per
      ingredient line and exactly the given tags; every other recipe's rows
      and tags are as they were. */
  lemma CreateAddsRows(t: Tables, author: nat, input: RecipeInput, id: nat, shortLink: nat)
    requires TablesValid(t) && id !in t.recipes
    requires Acceptable(input, Create, t.ingredients, t.tags)
    ensures var t' := AfterCreate(t, author, input, id, shortLink); var lines := input.ingredients.value;
      && (forall x: RecipeIngredient :: x.recipe == id ==>
            (x in t'.recipeIngredients <==>
               exists k :: 0 <= k < |lines| && x == RecipeIngredient(id, lines[k].id as nat, lines[k].amount as nat)))
      && (forall x: RecipeIngredient :: x.recipe != id ==> (x in t'.recipeIngredients <==> x in t.recipeIngredients))
      && (forall rt: RecipeTag :: rt.recipe == id ==> (rt in t'.recipeTags <==> rt.tag as int in input.tags.value))
      && (forall rt: RecipeTag :: rt.recipe != id ==> (rt in t'.recipeTags <==> rt in t.recipeTags))
  {
    RowsForMembers(id, input.ingredients.value);
  }

  /** The rows `_create_ingredients` builds, as a membership statement. */
  lemma RowsForMembers(id: nat, lines: seq<IngredientLine>)
    requires forall k :: 0 <= k < |lines| ==> lines[k].id >= 0 && lines[k].amount >= 0
    ensures forall x :: x in RowsFor(id, lines) <==>
              exists k :: 0 <= k < |lines| && x == RecipeIngredient(id, lines[k].id as nat, lines[k].amount as nat)
  {
    var rows := RowsFor(id, lines);
    forall x | x in rows
      ensures exists k :: 0 <= k < |lines| && x == RecipeIngredient(id, lines[k].id as nat, lines[k].amount as nat)
    {
      var k :| 0 <= k < |rows| && rows[k] == x;
    }
    forall k | 0 <= k < |lines| ensures RecipeIngredient(id, lines[k].id as nat, lines[k].amount as nat) in rows {
      assert rows[k] == RecipeIngredient(id, lines[k].id as nat, lines[k].amount as nat);
    }
  }

  /** Destroying a recipe leaves no row that refers to it and keeps every other row. */
  lemma DestroyCascades(t: Tables, id: nat)
    ensures var t' := AfterDestroy(t, id);
      && id !in t'.recipes
      && (forall x :: x in t'.recipeIngredients <==> x in t.recipeIngredients && x.recipe != id)
      && (forall rt :: rt in t'.recipeTags <==> rt in t.recipeTags && rt.recipe != id)
      && (forall m :: m in t'.favorites <==> m in t.favorites && m.recipe != id)
      && (forall m :: m in t'.cart <==> m in t.cart && m.recipe != id)
  {
  }

  /** Valid accounts and catalogs with no other rows make valid tables. */
  lemma EmptyTablesValid(accounts: map<nat, Account>, ingredients: map<nat, Ingredient>, tags: map<nat, Tag>)
    requires AccountsValid(accounts) && IngredientsValid(ingredients) && TagsValid(tags)
    ensures TablesValid(Tables(accounts, ingredients, tags, map[], [], {}, [], [], []))
  {
    assert RecipesValid(map[], accounts);
    assert RecipeRowsValid([], {}, map[], ingredients, tags);
    assert MembershipsValid([], accounts, map[]);
    assert SubscriptionTableValid([], accounts);
  }

  class Store {
    var accounts: map<nat, Account>
    var ingredients: map<nat, Ingredient>
    var tags: map<nat, Tag>
    var recipes: map<nat, Recipe>
    var recipeIngredients: seq<RecipeIngredient>
    var recipeTags: set<RecipeTag>
    var favorites: seq<Membership>
    var cart: seq<Membership>
    var subscriptions: seq<Subscription>

    function State(): Tables
      reads this
    {
      Tables(accounts, ingredients, tags, recipes, recipeIngredients, recipeTags, favorites, cart, subscriptions)
    }

    ghost predicate Valid()
      reads this
    {
      TablesValid(State())
    }

    /** A database holding the given accounts and catalogs, and nothing else. */
    constructor (accounts: map<nat, Account>, ingredients: map<nat, Ingredient>, tags: map<nat, Tag>)
      requires AccountsValid(accounts) && IngredientsValid(ingredients) && TagsValid(tags)
      ensures Valid()
      ensures State() == Tables(accounts, ingredients, tags, map[], [], {}, [], [], [])
    {
      this.accounts := accounts;
      this.ingredients := ingredients;
      this.tags := tags;
      recipes := map[];
      recipeIngredients := [];
      recipeTags := {};
      favorites := [];
      cart := [];
      subscriptions := [];
      new;
      EmptyTablesValid(accounts, ingredients, tags);
      assert State() == Tables(accounts, ingredients, tags, map[], [], {}, [], [], []);
    }

    /** Writes every table at once. */
    method Load(t: Tables)
      modifies this
      ensures State() == t
    {
      accounts, ingredients, tags, recipes := t.accounts, t.ingredients, t.tags, t.recipes;
      recipeIngredients, recipeTags := t.recipeIngredients, t.recipeTags;
      favorites, cart, subscriptions := t.favorites, t.cart, t.subscriptions;
    }

    method SetRows(table: MembershipTable, rows: seq<Membership>)
      modifies this
      ensures State() == WithRows(old(State()), table, rows)
    {
      if table == FavoriteTable {
        favorites := rows;
      } else {
        cart := rows;
      }
    }

    /** `handle_post_delete` behind `favorite` and `shopping_cart`: an anonymous
        request is refused, an unknown recipe is not found; POST adds the pair
        unless the unique-together validator finds it already there; any other
        method deletes the pair's rows, or answers 400 when there are none. */
    method ToggleMembership(table: MembershipTable, verb: Method, viewer: Viewer, recipe: nat) returns (status: Status)
      requires Valid()
      requires viewer.User? ==> viewer.id in accounts
      modifies this
      ensures Valid()
      ensures viewer == Anonymous ==> status == Unauthorized && State() == old(State())
      ensures viewer.User? && recipe !in old(recipes) ==> status == NotFound && State() == old(State())
      ensures viewer.User? && recipe in old(recipes) && verb == Post ==>
                if Membership(viewer.id, recipe) in RowsOf(old(State()), table)
                then status == BadRequest && State() == old(State())
                else status == Created &&
                     State() == WithRows(old(State()), table, RowsOf(old(State()), table) + [Membership(viewer.id, recipe)])
      ensures viewer.User? && recipe in old(recipes) && verb != Post ==>
                if Membership(viewer.id, recipe) !in RowsOf(old(State()), table)
                then status == BadRequest && State() == old(State())
                else status == NoContent &&
                     State() == WithRows(old(State()), table, Without(RowsOf(old(State()), table), Membership(viewer.id, recipe)))
    {
      if viewer == Anonymous {
        return Unauthorized;
      }
      if recipe !in recipes {
        return NotFound;
      }
      var pair := Membership(viewer.id, recipe);
      var rows := RowsOf(State(), table);
      MembershipRowsValid(rows, accounts, recipes, pair);
      if verb == Post {
        if pair in rows {
          return BadRequest;
        }
        MembershipChangeKeepsValid(State(), table, rows + [pair]);
        SetRows(table, rows + [pair]);
        return Created;
      }
      if pair !in rows {
        return BadRequest;
      }
      MembershipChangeKeepsValid(State(), table, Without(rows, pair));
      SetRows(table, Without(rows, pair));
      return NoContent;
    }

    /** `CustomUserViewSet.subscribe`: an anonymous request is refused and an
        unknown target is not found; POST creates the subscription once
        `FollowSerializer` accepts it; DELETE removes an existing one;
        everything else answers 400 unchanged. */
    method Subscribe(verb: Method, viewer: Viewer, target: nat) returns (status: Status, refusal: Option<FollowError>)
      requires Valid()
      requires viewer.User? ==> viewer.id in accounts
      modifies this
      ensures Valid()
      ensures viewer == Anonymous ==> status == Unauthorized && State() == old(State())
      ensures viewer.User? && target !in old(accounts) ==> status == NotFound && State() == old(State())
      ensures viewer.User? && target in old(accounts) && verb == Post ==>
                refusal == FollowCheck(old(subscriptions), viewer.id, target) &&
                if refusal.Some? then status == BadRequest && State() == old(State())
                else status == Created &&
                     State() == old(State()).(subscriptions := old(subscriptions) + [Subscription(viewer.id, target)])
      ensures viewer.User? && target in old(accounts) && verb == Delete ==>
                if Subscription(viewer.id, target) in old(subscriptions)
                then status == NoContent &&
                     State() == old(State()).(subscriptions := Without(old(subscriptions), Subscription(viewer.id, target)))
                else status == BadRequest && State() == old(State())
      ensures viewer.User? && target in old(accounts) && verb != Post && verb != Delete ==>
                status == BadRequest && State() == old(State())
    {
      refusal := None;
      if viewer == Anonymous {
        return Unauthorized, refusal;
      }
      if target !in accounts {
        return NotFound, refusal;
      }
      var pair := Subscription(viewer.id, target);
      if verb == Post {
        refusal := FollowCheck(subscriptions, viewer.id, target);
        if refusal.Some? {
          return BadRequest, refusal;
        }
        FollowKeepsSubscriptionsValid(subscriptions, viewer.id, target);
        subscriptions := subscriptions + [pair];
        return Created, refusal;
      } else if verb == Delete {
        if pair in subscriptions {
          subscriptions := Without(subscriptions, pair);
          return NoContent, refusal;
        }
      }
      return BadRequest, refusal;
    }

    /** `set_password`: an anonymous POST is refused by the permission class;
        a refused change answers 400 and leaves the password alone; an
        accepted one stores the new password, as its field trimmed it, and
        answers 204. */
    method SetPassword(viewer: Viewer, current: Option<string>, proposed: Option<string>, policyOk: bool)
      returns (status: Status, errors: set<PasswordField>)
      requires Valid()
      requires viewer.User? ==> viewer.id in accounts
      modifies this
      ensures Valid()
      ensures viewer == Anonymous ==> status == Unauthorized && State() == old(State())
      ensures viewer.User? ==>
                errors == ChangePasswordCheck(old(accounts[viewer.id].password), current, proposed, policyOk)
      ensures viewer.User? && errors != {} ==> status == BadRequest && State() == old(State())
      ensures viewer.User? && errors == {} ==>
                status == NoContent &&
                State() == old(State()).(accounts := old(accounts)[viewer.id := old(accounts[viewer.id]).(password := Trim(proposed.value))])
    {
      errors := {};
      if viewer == Anonymous {
        return Unauthorized, errors;
      }
      var user := viewer.id;
      errors := ChangePasswordCheck(accounts[user].password, current, proposed, policyOk);
      if errors != {} {
        return BadRequest, errors;
      }
      AccountChangeKeepsValid(State(), user, accounts[user].(password := Trim(proposed.value)));
      accounts := accounts[user := accounts[user].(password := Trim(proposed.value))];
      return NoContent, errors;
    }

    /** `user_avatar` with PUT: an anonymous request is refused; an absent or
        empty avatar answers 400 before anything else; an undecodable one
        (`decoded` false) answers 400 too; otherwise the avatar is stored. */
    method PutAvatar(viewer: Viewer, avatar: Option<Image>, decoded: bool) returns (status: Status)
      requires Valid()
      requires viewer.User? ==> viewer.id in accounts
      modifies this
      ensures Valid()
      ensures viewer == Anonymous ==> status == Unauthorized && State() == old(State())
      ensures viewer.User? && (avatar.None? || avatar.value == "" || !decoded) ==>
                status == BadRequest && State() == old(State())
      ensures viewer.User? && avatar.Some? && avatar.value != "" && decoded ==>
                status == Ok &&
                State() == old(State()).(accounts := old(accounts)[viewer.id := old(accounts[viewer.id]).(avatar := avatar.value)])
    {
      if viewer == Anonymous {
        return Unauthorized;
      }
      if avatar.None? || avatar.value == "" || !decoded {
        return BadRequest;
      }
      var user := viewer.id;
      AccountChangeKeepsValid(State(), user, accounts[user].(avatar := avatar.value));
      accounts := accounts[user := accounts[user].(avatar := avatar.value)];
      return Ok;
    }

    /** `user_avatar` with DELETE: an anonymous request is refused; otherwise
        the avatar is cleared. */
    method DeleteAvatar(viewer: Viewer) returns (status: Status)
      requires Valid()
      requires viewer.User? ==> viewer.id in accounts
      modifies this
      ensures Valid()
      ensures viewer == Anonymous ==> status == Unauthorized && State() == old(State())
      ensures viewer.User? ==>
                status == NoContent &&
                State() == old(State()).(accounts := old(accounts)[viewer.id := old(accounts[viewer.id]).(avatar := "")])
    {
      if viewer == Anonymous {
        return Unauthorized;
      }
      var user := viewer.id;
      AccountChangeKeepsValid(State(), user, accounts[user].(avatar := ""));
      accounts := accounts[user := accounts[user].(avatar := "")];
      return NoContent;
    }

    /** `create`: an anonymous request is refused; a refused payload answers
        400 with its errors; an accepted one is written as `CreateWrite` says:
        the recipe under the fresh key `id` with the fresh `uuid4` token
        `shortLink`, with its rows and tags, unless a value does not fit its
        column. */
    method CreateRecipe(viewer: Viewer, input: RecipeInput, id: nat, shortLink: nat) returns (status: Status, checked: Checked)
      requires Valid()
      requires viewer.User? ==> viewer.id in accounts
      requires id !in recipes
      requires forall r :: r in recipes ==> recipes[r].shortLink != shortLink
      modifies this
      ensures Valid()
      ensures viewer == Anonymous ==> status == Unauthorized && State() == old(State())
      ensures viewer.User? ==> checked == ValidateRecipe(input, Create, old(ingredients), old(tags))
      ensures viewer.User? && checked.Invalid? ==> status == BadRequest && State() == old(State())
      ensures viewer.User? && checked.Valid? ==>
                && Acceptable(input, Create, old(ingredients), old(tags))
                && (status, State()) == CreateWrite(old(State()), viewer.id, input, id, shortLink)
    {
      checked := Invalid({});
      if viewer == Anonymous {
        return Unauthorized, checked;
      }
      checked := ValidateRecipe(input, Create, ingredients, tags);
      if checked.Invalid? {
        return BadRequest, checked;
      }
      ValidateRecipeIff(input, Create, ingredients, tags);
      var written := CreateWrite(State(), viewer.id, input, id, shortLink);
      CreateWriteKeepsValid(State(), viewer.id, input, id, shortLink);
      Load(written.1);
      return written.0, checked;
    }

    /** `update` and `partial_update`: an anonymous request is refused, an
        unknown recipe is not found, a user other than the author is
        forbidden, a refused payload answers 400; otherwise the payload is
        written as `UpdateWrite` says: the recipe's rows and tags replaced (not
        merged) and the present fields overwritten, unless a value does not
        fit its column. */
    method UpdateRecipe(viewer: Viewer, id: nat, input: RecipeInput, partial: bool) returns (status: Status, checked: Checked)
      requires Valid()
      modifies this
      ensures Valid()
      ensures viewer == Anonymous ==> status == Unauthorized && State() == old(State())
      ensures viewer.User? && id !in old(recipes) ==> status == NotFound && State() == old(State())
      ensures viewer.User? && id in old(recipes) && old(recipes[id].author) != viewer.id ==>
                status == Forbidden && State() == old(State())
      ensures viewer.User? && id in old(recipes) && old(recipes[id].author) == viewer.id ==>
                checked == ValidateRecipe(input, if partial then PartialUpdate else Update, old(ingredients), old(tags))
      ensures viewer.User? && id in old(recipes) && old(recipes[id].author) == viewer.id && checked.Invalid? ==>
                status == BadRequest && State() == old(State())
      ensures viewer.User? && id in old(recipes) && old(recipes[id].author) == viewer.id && checked.Valid? ==>
                && Acceptable(input, if partial then PartialUpdate else Update, old(ingredients), old(tags))
                && (status, State()) == UpdateWrite(old(State()), id, input, if partial then PartialUpdate else Update)
    {
      checked := Invalid({});
      if viewer == Anonymous {
        return Unauthorized, checked;
      }
      if id !in recipes {
        return NotFound, checked;
      }
      if recipes[id].author != viewer.id {
        return Forbidden, checked;
      }
      var mode := if partial then PartialUpdate else Update;
      checked := ValidateRecipe(input, mode, ingredients, tags);
      if checked.Invalid? {
        return BadRequest, checked;
      }
      ValidateRecipeIff(input, mode, ingredients, tags);
      var written := UpdateWrite(State(), id, input, mode);
      UpdateWriteKeepsValid(State(), id, input, mode);
      Load(written.1);
      return written.0, checked;
    }

    /** `destroy`: the same refusals as an update; then the recipe goes, and
        with it its RecipeIngredient, tag, Favorite and ShoppingCart rows. */
    method DestroyRecipe(viewer: Viewer, id: nat) returns (status: Status)
      requires Valid()
      modifies this
      ensures Valid()
      ensures viewer == Anonymous ==> status == Unauthorized && State() == old(State())
      ensures viewer.User? && id !in old(recipes) ==> status == NotFound && State() == old(State())
      ensures viewer.User? && id in old(recipes) && old(recipes[id].author) != viewer.id ==>
                status == Forbidden && State() == old(State())
      ensures viewer.User? && id in old(recipes) && old(recipes[id].author) == viewer.id ==>
                status == NoContent && State() == AfterDestroy(old(State()), id)
    {
      if viewer == Anonymous {
        return Unauthorized;
      }
      if id !in recipes {
        return NotFound;
      }
      if recipes[id].author != viewer.id {
        return Forbidden;
      }
      DestroyKeepsValid(State(), id);
      Load(AfterDestroy(State(), id));
      return NoContent;
    }
  }
}
