/** The relational data of the recipe backend: one datatype per table row and
    the declarative constraints of the Django models (unique fields and
    pairs, minimum values, column widths, the slug pattern, the subscription
    `clean`).
    Rows refer to each other by integer primary key. */
module Models {
  import opened Common
  import opened Text

  const MIN_AMOUNT: int := 1
  const MIN_TIME: int := 1
  const MAX_NAME_LENGTH: int := 150
  const MAX_SLUG_LENGTH: int := 50
  const MAX_RECIPE_NAME_LENGTH: int := 256
  /** The largest value of PostgreSQL's 4-byte `integer`, the column type of
      every PositiveIntegerField. */
  const MAX_INT32: int := 0x7FFF_FFFF

  /** An uploaded picture, opaque here; the empty value is the falsy one. */
  type Image = string

  datatype Account = Account(email: string, username: string, password: string, avatar: Image)

  datatype Ingredient = Ingredient(name: string, unit: string)

  datatype Tag = Tag(name: string, slug: string)

  /** `shortLink` is the token the parallel model set assigns once, at creation. */
  datatype Recipe = Recipe(author: nat, name: string, text: string, image: Image,
                           cookingTime: int, shortLink: nat)

  datatype RecipeIngredient = RecipeIngredient(recipe: nat, ingredient: nat, amount: nat)

  /** A row of the implicit recipe-tag many-to-many table. */
  datatype RecipeTag = RecipeTag(recipe: nat, tag: nat)

  /** A Favorite row or a ShoppingCart row: the two tables have the same shape. */
  datatype Membership = Membership(user: nat, recipe: nat)

  datatype Subscription = Subscription(subscriber: nat, target: nat)

  // ------------------------------------------------------------------ Account

  /** User.email and User.username are each unique. */
  predicate AccountsValid(accounts: map<nat, Account>) {
    && (forall i, j :: i in accounts && j in accounts && i != j ==> accounts[i].email != accounts[j].email)
    && (forall i, j :: i in accounts && j in accounts && i != j ==> accounts[i].username != accounts[j].username)
  }

  // ---------------------------------------------------------------- Ingredient

  /** Ingredient.name is unique, and so is the pair (name, measurement_unit). */
  predicate IngredientsValid(catalog: map<nat, Ingredient>) {
    && (forall i, j :: i in catalog && j in catalog && i != j ==> catalog[i].name != catalog[j].name)
    && (forall i, j :: i in catalog && j in catalog && i != j ==> catalog[i] != catalog[j])
    && (forall i :: i in catalog ==> |catalog[i].name| <= MAX_NAME_LENGTH && |catalog[i].unit| <= MAX_SLUG_LENGTH)
  }

  // ---------------------------------------------------------------------- Tag

  predicate SlugChar(c: char) {
    || ('a' <= c <= 'z') || ('A' <= c <= 'Z') || ('0' <= c <= '9') || c == '-' || c == '_'
  }

  /** `^[-a-zA-Z0-9_]+$` as Python's `re.search` reads it: `$` also matches just
      before a final newline. */
  predicate SlugRegexAccepts(s: string) {
    var body := if |s| > 0 && s[|s| - 1] == '\n' then s[..|s| - 1] else s;
    |body| > 0 && forall i :: 0 <= i < |body| ==> SlugChar(body[i])
  }

  /** The strict slug shape `\A[-a-zA-Z0-9_]+\Z` that SlugField checks as well. */
  predicate IsSlug(s: string) {
    |s| > 0 && forall i :: 0 <= i < |s| ==> SlugChar(s[i])
  }

  /** A slug field value is accepted when both validators accept it and it fits. */
  predicate SlugAccepted(s: string) {
    SlugRegexAccepts(s) && IsSlug(s) && |s| <= MAX_SLUG_LENGTH
  }

  /** The two validators together accept exactly the non-empty strings of slug
      characters up to the length limit; the regex alone also lets a trailing
      newline through. */
  lemma SlugAcceptedIff(s: string)
    ensures SlugAccepted(s) <==> IsSlug(s) && |s| <= MAX_SLUG_LENGTH
    ensures IsSlug(s) ==> SlugRegexAccepts(s + "\n")
  {
    if IsSlug(s) {
      var t := s + "\n";
      assert t[..|t| - 1] == s;
    }
  }

  /** Tag name and slug are each unique, and every slug is well formed. */
  predicate TagsValid(catalog: map<nat, Tag>) {
    && (forall i, j :: i in catalog && j in catalog && i != j ==> catalog[i].name != catalog[j].name)
    && (forall i, j :: i in catalog && j in catalog && i != j ==> catalog[i].slug != catalog[j].slug)
    && (forall i :: i in catalog ==> |catalog[i].name| <= MAX_NAME_LENGTH && SlugAccepted(catalog[i].slug))
  }

  // ------------------------------------------------------------------- Recipe

  /** What a stored Recipe row satisfies: a name of at most 150 characters
      (the column's width) and a cooking time of at least one that fits the
      `integer` column. */
  predicate RecipeValid(r: Recipe) {
    |r.name| <= MAX_NAME_LENGTH && MIN_TIME <= r.cookingTime <= MAX_INT32
  }

  /** RecipeIngredient: MIN_AMOUNT <= amount <= MAX_INT32 and at most one row per (recipe, ingredient). */
  predicate RecipeIngredientsValid(rows: seq<RecipeIngredient>) {
    && (forall i :: 0 <= i < |rows| ==> MIN_AMOUNT <= rows[i].amount <= MAX_INT32)
    && (forall i, j :: 0 <= i < j < |rows| ==>
          rows[i].recipe != rows[j].recipe || rows[i].ingredient != rows[j].ingredient)
  }

  /** The constraint stated on row values rather than positions: amounts of at
      least one, no row twice, and two rows for the same recipe and ingredient
      are the same row. */
  predicate RecipeIngredientRowsValid(rows: seq<RecipeIngredient>) {
    && (forall x :: x in rows ==> MIN_AMOUNT <= x.amount <= MAX_INT32)
    && NoDuplicates(rows)
    && (forall x, y :: x in rows && y in rows && x.recipe == y.recipe && x.ingredient == y.ingredient ==> x == y)
  }

  /** Both statements of the RecipeIngredient constraint agree. */
  lemma RecipeIngredientsValidIff(rows: seq<RecipeIngredient>)
    ensures RecipeIngredientsValid(rows) <==> RecipeIngredientRowsValid(rows)
  {
    if RecipeIngredientsValid(rows) {
      forall x, y | x in rows && y in rows && x.recipe == y.recipe && x.ingredient == y.ingredient
        ensures x == y
      {
        var i :| 0 <= i < |rows| && rows[i] == x;
        var j :| 0 <= j < |rows| && rows[j] == y;
        if i < j {
          assert false;
        } else if j < i {
          assert false;
        }
      }
    }
    if RecipeIngredientRowsValid(rows) {
      forall i, j | 0 <= i < j < |rows|
        ensures rows[i].recipe != rows[j].recipe || rows[i].ingredient != rows[j].ingredient
      {
        assert rows[i] in rows && rows[j] in rows;
      }
    }
  }

  /** Valid row sets for disjoint sets of recipes combine into a valid row set. */
  lemma AppendRecipeIngredients(a: seq<RecipeIngredient>, b: seq<RecipeIngredient>)
    requires RecipeIngredientsValid(a) && RecipeIngredientsValid(b)
    requires forall x, y :: x in a && y in b ==> x.recipe != y.recipe
    ensures RecipeIngredientsValid(a + b)
  {
    RecipeIngredientsValidIff(a);
    RecipeIngredientsValidIff(b);
    assert forall k :: 0 <= k < |a| ==> a[k] !in b by {
      forall k | 0 <= k < |a| ensures a[k] !in b {
        assert a[k] in a;
      }
    }
    ConcatNoDuplicates(a, b);
    RecipeIngredientsValidIff(a + b);
  }

  /** Keeping some of the rows of a valid row set keeps it valid. */
  lemma KeepRecipeIngredients(rows: seq<RecipeIngredient>, p: RecipeIngredient -> bool)
    ensures RecipeIngredientsValid(rows) ==> RecipeIngredientsValid(Keep(rows, p))
  {
    RecipeIngredientsValidIff(rows);
    RecipeIngredientsValidIff(Keep(rows, p));
  }

  // ------------------------------------------------------------- Subscription

  /** `Subscription.clean`: nobody may subscribe to themselves. */
  function SubscriptionClean(s: Subscription): (r: Option<string>)
    ensures r.Some? <==> s.subscriber == s.target
  {
    if s.subscriber == s.target then Some("cannot subscribe to oneself") else None
  }

  /** The unique (subscriber, target) constraint, plus `clean` on every row. */
  predicate SubscriptionsValid(subs: seq<Subscription>) {
    && NoDuplicates(subs)
    && (forall s :: s in subs ==> SubscriptionClean(s).None?)
  }

  // -------------------------------------------------------------- whole store

  /** Every recipe row fits its columns and has an existing author, and no two
      recipes share a short-link token. The schema does not declare the token
      unique: distinct tokens rest on each being a fresh `uuid4` value, which
      the creating operation takes as a precondition. */
  predicate RecipesValid(recipes: map<nat, Recipe>, accounts: map<nat, Account>) {
    && (forall id :: id in recipes ==> RecipeValid(recipes[id]) && recipes[id].author in accounts)
    && (forall i, j :: i in recipes && j in recipes && i != j ==> recipes[i].shortLink != recipes[j].shortLink)
  }

  /** The RecipeIngredient and recipe-tag rows satisfy their constraints and
      refer to existing recipes, ingredients and tags. */
  predicate RecipeRowsValid(rows: seq<RecipeIngredient>, recipeTags: set<RecipeTag>, recipes: map<nat, Recipe>,
                            ingredients: map<nat, Ingredient>, tags: map<nat, Tag>)
  {
    && RecipeIngredientsValid(rows)
    && (forall x :: x in rows ==> x.recipe in recipes && x.ingredient in ingredients)
    && (forall rt :: rt in recipeTags ==> rt.recipe in recipes && rt.tag in tags)
  }

  /** Favorite or ShoppingCart rows: each pair once, and both ends exist. */
  predicate MembershipsValid(rows: seq<Membership>, accounts: map<nat, Account>, recipes: map<nat, Recipe>) {
    && NoDuplicates(rows)
    && (forall m :: m in rows ==> m.user in accounts && m.recipe in recipes)
  }

  /** Subscription rows satisfy their constraints and both ends exist. */
  predicate SubscriptionTableValid(subs: seq<Subscription>, accounts: map<nat, Account>) {
    && SubscriptionsValid(subs)
    && (forall s :: s in subs ==> s.subscriber in accounts && s.target in accounts)
  }

  /** Every constraint the schema declares, plus the uniqueness of Favorite and
      ShoppingCart pairs, which no database constraint backs: only the
      serializers' validators keep it. */
  predicate StoreInvariant(accounts: map<nat, Account>, ingredients: map<nat, Ingredient>,
                           tags: map<nat, Tag>, recipes: map<nat, Recipe>,
                           recipeIngredients: seq<RecipeIngredient>, recipeTags: set<RecipeTag>,
                           favorites: seq<Membership>, cart: seq<Membership>,
                           subscriptions: seq<Subscription>)
  {
    && AccountsValid(accounts)
    && IngredientsValid(ingredients)
    && TagsValid(tags)
    && RecipesValid(recipes, accounts)
    && RecipeRowsValid(recipeIngredients, recipeTags, recipes, ingredients, tags)
    && MembershipsValid(favorites, accounts, recipes)
    && MembershipsValid(cart, accounts, recipes)
    && SubscriptionTableValid(subscriptions, accounts)
  }
}
