# foodgram core in Dafny

This project models the relational core of the foodgram recipe-sharing backend, a Django REST Framework application. The database is abstracted as one value per table:

- accounts, ingredients, tags and recipes as maps from primary key to row;
- the RecipeIngredient rows, and the Favorite, ShoppingCart and Subscription rows, as sequences;
- the recipe–tag relation as a set.

On top of that, the model covers these parts:

- **Shopping list.** `download_shopping_cart` groups the RecipeIngredient rows of the user's cart by ingredient name and unit. It sums the amounts, sorts the groups by name and renders numbered lines joined by newlines (`shopping_list.dfy`).
- **Recipe payload check.** `CreateRecipeSerializer` checks a recipe payload on create, PUT and PATCH. The model follows the serializer framework's order: the field checks first, then `validate`, which has `_check_required` and `_check_unique`. It also builds the association rows of an accepted payload (`recipe_write.dfy`).
- **Store operations.** The store is a class whose fields are the tables (`store.dfy`), and every operation keeps the schema's constraints as an invariant. A recipe write whose values pass the serializer but do not fit their columns fails part-way; the model ends in the state the code leaves behind. The operations are:
  - favorite and cart membership (`handle_post_delete`);
  - subscriptions (`subscribe`);
  - `set_password` and `user_avatar`;
  - recipe create, update (replace, not merge) and destroy, with its cascade.
- **Permissions.** `IsOwnerOrReadOnly` and the recipe view set's choice of permission per action (`access.dfy`).
- **Filters.** The ingredient and recipe filters: the author prefix match, tag slugs, and the favorited and in-cart flags (`filters.dfy`).
- **Validators and computed fields.** Follow, change password, token login, `is_subscribed` / `is_favorited` / `is_in_shopping_cart`, and the limited recipe list of a followed author (`serializers.dfy`).
- **Links.** The short link and its redirect (`links.dfy`).
- **Model constraints.** The declarative constraints of the Django models, as predicates (`models.dfy`).

Shared vocabulary lives in `common.dfy`: an option type, HTTP methods, status codes, the requesting user, and an order-keeping filter. String order, decimal rendering and parsing, and newline joining live in `text.dfy`.

Where the code and the intuitive reading differ, the model follows the code:

- The author filter matches a prefix of the author's id in decimal, so `1` also lists author `10`'s recipes.
- The short link carries the primary key, not the `short_link` UUID.
- An unknown id in `redirect_to_recipe` raises Django's core `ValidationError`. DRF does not turn that exception into a 400, so it surfaces as a server error. The model keeps it as a distinct `RecipeMissing` outcome.
- Favorite and ShoppingCart have no unique database constraint. Pair uniqueness is kept only by the serializers' `UniqueTogetherValidator`, so the store invariant states it and `ToggleMembership` proves it is kept.
- The shopping-list join counts cart rows, not carted recipes: each row's amount is counted once per matching cart row. A duplicated cart row therefore adds its recipe's amounts a second time.
- `CreateRecipeSerializer.name` accepts up to 256 characters, but the `Recipe.name` column holds 150. Amounts and cooking times have no upper bound in the serializer, but their columns are PostgreSQL `integer`, which ends at 2^31 - 1. Such a value passes validation, and then the statement that stores it fails with a server error (500).
- Recipe writes run without a transaction. `create` inserts the Recipe row, then its RecipeIngredient rows, then its tags. `update` deletes the rows, clears the tags, inserts the new rows, sets the tags, and only then saves the fields. So a failing create can leave a recipe with no rows and no tags. A failing update leaves the old fields, with the rows either gone or already replaced.
- `Recipe.short_link` is not declared unique. The store invariant still demands distinct tokens, because each one is a fresh `uuid4` value; `Database.Store.CreateRecipe` takes that freshness as a precondition.
- A PUT without an `image` key is refused: the field is required outside a partial update. `validate_image` refuses an empty image only on create.
- `tags` and `ingredients` are demanded even by PATCH, because `validate` calls `_check_required` whatever the mode.
- The views of the recipe view set answer an anonymous request with 401 before the 404 of an unknown object, because the permission check runs first. Then come 403 (not the author) and 400 (payload refused).

## Model

| member | source | states |
|---|---|---|
| Models.SlugAcceptedIff | backend/apps/base/models.py:60-67 | the slug validators accept exactly the non-empty strings of `[-a-zA-Z0-9_]` within 50 characters; the regex alone also lets a trailing newline through |
| Models.RecipeIngredientsValidIff | backend/apps/base/models.py:136-151 | the (recipe, ingredient) uniqueness plus the amount's range (at least 1, within the `integer` column), stated by position, is the same as stated on row values (no row twice, equal keys mean equal rows) |
| Models.AppendRecipeIngredients | backend/apps/base/models.py:146-151 | valid RecipeIngredient row sets of disjoint recipes combine into a valid row set |
| Models.KeepRecipeIngredients | backend/apps/base/models.py:146-151 | deleting any subset of valid RecipeIngredient rows leaves them valid |
| Models.SubscriptionClean | backend/apps/base/models.py:183-185 | `clean` raises exactly when subscriber and target coincide |
| ShoppingList.GroupCorrect | backend/apps/api/views.py:116-122 | the grouping is strictly ordered by (name, unit), has exactly the keys of the input, and each group's total is the sum of its amounts |
| ShoppingList.ShoppingListLines | backend/apps/api/views.py:116-122 | one line per distinct (name, unit), none twice, each with the sum of that group's amounts, in ascending name order (strictly when names determine units) |
| ShoppingList.Numbered | backend/apps/api/views.py:123-128 | line k of the enumeration, counted from the start number, is the k-th group rendered as `"n. name - total unit."` |
| ShoppingList.FormatLineIsLine | backend/apps/api/views.py:124-126 | a rendered line holds no newline and ends with a full stop |
| ShoppingList.ReportLayout | backend/apps/api/views.py:123-128 | splitting the report at newlines gives back exactly the numbered lines, so there is no trailing newline and line k is `"k. name - total unit."` |
| ShoppingList.ReportEmptyIff | backend/apps/api/views.py:123-129 | the report is the empty string exactly when there are no rows |
| ShoppingList.CartJoinIsSelection | backend/apps/api/views.py:116-118 | with no duplicate cart rows, the join through the cart selects each row of a carted recipe exactly once |
| ShoppingList.CartItemsTotal | backend/apps/api/views.py:116-120 | for any cart, a key's summed amount over the join is the sum of each matching row's amount times the number of cart rows for (user, its recipe) |
| ShoppingList.JoinTotalAppend | backend/apps/api/views.py:116-120 | one more cart row for a pair adds the amounts of that recipe's rows for the key once more |
| ShoppingList.TotalRepeat | backend/apps/api/views.py:116-120 | n copies of a row add n times its amount to its key's sum and nothing to other keys |
| ShoppingList.DuplicateCartRowDoubles | backend/apps/api/views.py:116-120 | with each pair stored once, a key's summed amount is the sum over the carted recipes' rows; one more cart row for a carted pair adds that recipe's amounts for the key a second time |
| ShoppingList.SelectedItemsTotal | backend/apps/api/views.py:116-120 | the summed amount of a group over the selected items equals the sum over the rows of carted recipes with that key |
| ShoppingList.SelectedItemsFromRows | backend/apps/api/views.py:116-119 | every selected item comes from a row of a selected recipe with an existing ingredient, and carries that ingredient's name and unit and that row's amount |
| ShoppingList.SelectedItemsContains | backend/apps/api/views.py:116-119 | every row of a carted recipe with an existing ingredient appears among the selected items |
| ShoppingList.SelectedItemsEmptyIff | backend/apps/api/views.py:116-119 | the selection is empty exactly when no row belongs to a carted recipe with an existing ingredient |
| ShoppingList.GroupedLinesFromRows | backend/apps/api/views.py:116-122 | every grouped line's (name, unit) is that of a row of a selected recipe |
| ShoppingList.ShoppingCartLines | backend/apps/api/views.py:114-129 | the grouped lines of the list are empty exactly when the cart selects no row; otherwise they are strictly ascending by name, each total the sum over the carted rows; every carted row's ingredient has a line, and every line is that of some carted row |
| ShoppingList.DownloadShoppingCartSpec | backend/apps/api/views.py:114-129 | when no name or unit holds a newline, the download is empty exactly when the cart selects no row, and it splits back into exactly the numbered grouped lines |
| Access.SafeMethodsAlwaysAllowed | backend/apps/api/permissions.py:7-9 | GET, HEAD and OPTIONS pass the object check for everybody |
| Access.WriteNeedsOwner | backend/apps/api/permissions.py:10-11 | a writing request passes the object check exactly when the user is the author, or the user field when there is no author; with neither, or for the anonymous user, it never passes |
| Access.ViewLevelAccess | backend/apps/api/permissions.py:13-16 | the anonymous user passes the view check exactly for the safe methods; an authenticated user always passes |
| Access.RecipeActionAccess | backend/apps/api/views.py:65-71 | list, retrieve and get-link are open to all; update, partial update and destroy with a writing method are open to the author alone; create, favorite, shopping cart and download need an authenticated user |
| Filters.FilterIngredients | backend/apps/api/filters.py:6-13 | an absent or empty name keeps the listing; otherwise exactly the listed ingredients whose name starts with the value remain, and none is added |
| Filters.FilterAuthor | backend/apps/api/filters.py:19-20 | exactly the listed recipes whose author id, in decimal, starts with the given text remain |
| Filters.AuthorFilterIsPrefixMatch | backend/apps/api/filters.py:19-20 | asking for author `1` keeps a recipe of author `10` |
| Filters.ByAuthor | backend/apps/api/filters.py:19-20 | an absent or empty author keeps the listing; otherwise the prefix match applies, and nothing is added |
| Filters.FilterTags | backend/apps/api/filters.py:21-23 | a slug naming no tag invalidates the query; an empty list keeps the listing; otherwise exactly the recipes with at least one of the slugs remain |
| Filters.FilterMembership | backend/apps/api/filters.py:33-45 | a non-zero value from an authenticated user keeps exactly that user's favorited (or carted) recipes; zero, absence or the anonymous user keep the listing |
| Filters.FilterRecipesSpec | backend/apps/api/filters.py:16-45 | with known slugs the result is exactly the listed recipes passing every active filter, never longer than the listing |
| Filters.UnknownSlugRejected | backend/apps/api/filters.py:21-23 | one unknown slug makes the whole recipe query invalid |
| RecipeWrite.IngredientIds | backend/apps/api/serializers.py:271-273 | the ids of the ingredient lines, one per line in order |
| RecipeWrite.UniqueIdsIff | backend/apps/api/serializers.py:271-277 | `len(ids) == len(set(ids))` holds exactly when no id repeats |
| RecipeWrite.ValidateRecipeIff | backend/apps/api/serializers.py:202-290 | a payload is accepted exactly when it is acceptable field by field: non-empty lists of existing, distinct tags and ingredients, amounts and cooking time of at least one, a non-blank name within 256, a non-blank text, an image (non-empty on create), every field present outside PATCH; the accepted attributes are the payload |
| RecipeWrite.FieldErrorsEmptyIff | backend/apps/api/serializers.py:216-235 | no field-level error is reported exactly when every field's own check passes |
| RecipeWrite.RequiredLists | backend/apps/api/serializers.py:279-287 | a missing or empty `tags` or `ingredients` is refused in every mode; once the field checks pass, the error is keyed by that list, tags first |
| RecipeWrite.DuplicatesRefused | backend/apps/api/serializers.py:271-289 | repeated tag ids or two lines with one ingredient are refused, keyed by `tags` when the tags repeat and by `ingredients` otherwise |
| RecipeWrite.ImageOnlyRequiredOnCreate | backend/apps/api/serializers.py:265-269 | an empty image is an error exactly on create; a missing one exactly outside a partial update |
| RecipeWrite.MinimumsEnforced | backend/apps/api/serializers.py:202-226 | a cooking time below `MIN_TIME` or an amount below `MIN_AMOUNT` yields an error under that field |
| RecipeWrite.RowsFor | backend/apps/api/serializers.py:237-246 | one RecipeIngredient row per ingredient line, in order, for the recipe, with that line's ingredient and amount |
| RecipeWrite.TagRows | backend/apps/api/serializers.py:253 | the recipe's tag rows are exactly the given tag ids |
| RecipeWrite.RowsForValid | backend/apps/api/serializers.py:237-246 | the rows built from accepted lines whose amounts fit the column satisfy the RecipeIngredient constraints and name existing ingredients |
| Serializers.FollowCheck | backend/apps/api/serializers.py:361-368 | following oneself is refused first; then an existing pair is refused; otherwise the follow is accepted |
| Serializers.FollowKeepsSubscriptionsValid | backend/apps/base/models.py:175-185 | an accepted follow keeps the Subscription pairs unique and passing `clean` |
| Serializers.FollowSetsIsSubscribed | backend/apps/accounts/serializers.py:108-114 | an accepted follow turns the follower's `is_subscribed` from false to true and changes no other user's view of any author |
| Serializers.IsSubscribedNeedsUser | backend/apps/accounts/serializers.py:108-114 | `is_subscribed` is false without a request or for the anonymous user |
| Serializers.IsMemberAgreesWithFilter | backend/apps/api/serializers.py:167-182 | for an authenticated user, `is_favorited` / `is_in_shopping_cart` hold on a listed recipe exactly when `Filters.FilterMembership` with a truthy value keeps it; an anonymous request is never flagged, and its truthy filter keeps the whole listing |
| Serializers.ChangePasswordIff | backend/apps/accounts/serializers.py:152-174 | the change is accepted exactly when the current password, trimmed, checks and a new one is given that, trimmed, is neither blank nor the stored one and passes the policy; a blank or wrong current password is keyed `current_password`, a repeated one `new_password` |
| Serializers.ChangePasswordIgnoresPadding | backend/apps/accounts/serializers.py:143-144 | both password fields trim their input, so surrounding whitespace never changes the verdict |
| Serializers.TokenCheckSpec | backend/apps/accounts/serializers.py:19-37 | with unique emails, login succeeds exactly for the account whose email and password are the given ones, trimmed; a missing or blank field is refused under its own key, an unknown email under `email`, a wrong password under `password` |
| Text.Trim | backend/apps/accounts/serializers.py:19-21 | what a CharField does to its input: the result has whitespace at neither end and is empty exactly when the input is all whitespace |
| Text.TrimStrips | backend/apps/accounts/serializers.py:19-21 | the trimmed value is the slice `s[i..j]` of the input with only whitespace before `i` and from `j` on: exactly the surrounding whitespace is removed |
| Text.TrimmedUnchanged | backend/apps/accounts/serializers.py:19-21 | trimming leaves a string without surrounding whitespace as it is, so trimming twice is trimming once |
| Serializers.SubscriptionRecipes | backend/apps/accounts/serializers.py:192-201 | the recipes listed are a prefix of the author's recipes: all of them unless `recipes_limit` is a digit string, otherwise the first n |
| Serializers.RecipesCountIgnoresLimit | backend/apps/accounts/serializers.py:192-204 | `recipes_count` bounds the listed recipes and equals their number when no limit applies or the limit is at least the count |
| Serializers.LimitRoundTrip | backend/apps/accounts/serializers.py:195-197 | `recipes_limit=n` written in decimal lists exactly the first n recipes |
| Links.ShortLink | backend/apps/api/views.py:131-136 | an unknown recipe is not found; a known one gets a link |
| Links.RedirectToRecipe | backend/apps/api/views.py:139-145 | an unknown id raises instead of redirecting |
| Links.ShortLinkRoundTrip | backend/apps/api/views.py:132-145 | the link is the domain, `/s/` and the key's digits; reading the digits back gives the key, and the redirect on it leads to `/recipes/<id>/` |
| Links.ShortLinksDistinct | backend/apps/api/views.py:132-136 | distinct recipes get distinct short links |
| Database.Without | backend/apps/api/views.py:91-95 | deleting a filtered query set removes every copy of the pair and nothing else, keeping a duplicate-free table duplicate-free |
| Database.OtherRecipesRows | backend/apps/api/serializers.py:257 | deleting a recipe's RecipeIngredient rows keeps exactly the other recipes' rows, keeps the constraints, and is a no-op when the recipe has none |
| Database.OtherRecipesMembers | backend/apps/recipe/models.py:163-168 | the cascade on Favorite or ShoppingCart keeps exactly the other recipes' rows, duplicate-free if they were |
| Database.MembershipChangeKeepsValid | backend/apps/recipe/models.py:155-198 | replacing a favorite or cart table by valid rows keeps the whole store valid |
| Database.MembershipRowsValid | backend/apps/api/serializers.py:296-318 | adding a pair the unique-together validator lets through, or deleting a pair, keeps a membership table valid |
| Database.AccountChangeKeepsValid | backend/apps/accounts/models.py:11-21 | changing an account's password or avatar keeps email and username unique and the store valid |
| Database.CreateKeepsValid | backend/apps/api/serializers.py:248-254 | creating a recipe from an accepted payload whose values fit their columns, under a fresh key and token by an existing author, keeps the store valid |
| Database.AddKeepsRecipesValid | backend/apps/base/models.py:78-113 | adding a recipe whose name fits 150 characters and whose cooking time is between 1 and 2^31 - 1, with an existing author and an unused token, under a fresh key keeps the recipes valid |
| Database.AddKeepsRowsValid | backend/apps/api/serializers.py:248-253 | adding the rows and tags of an accepted payload for a new recipe keeps the row constraints and references |
| Database.UpdateKeepsValid | backend/apps/api/serializers.py:256-263 | updating a recipe from an accepted payload whose values fit their columns keeps the store valid |
| Database.PatchedKeepsRecipesValid | backend/apps/api/serializers.py:263 | overwriting one recipe's fields from an accepted payload that fits the columns keeps the recipes valid; the tokens stay distinct because an update never writes one |
| Database.ReplaceKeepsRowsValid | backend/apps/api/serializers.py:256-262 | deleting a recipe's rows and tags and creating those of an accepted payload keeps the row constraints and references |
| Database.PatchedValid | backend/apps/base/models.py:106-113 | the overwritten recipe keeps its author, keeps its non-editable short link, and stays a valid row when the new values fit |
| Database.DestroyKeepsValid | backend/apps/recipe/models.py:117-123 | destroying a recipe with its cascade keeps the store valid |
| Database.RemoveKeepsRowsValid | backend/apps/recipe/models.py:117-123 | the cascade to RecipeIngredient and tag rows keeps the row constraints and leaves no reference to the deleted recipe |
| Database.RemoveKeepsMembershipsValid | backend/apps/recipe/models.py:163-168 | the cascade to Favorite or ShoppingCart rows keeps the table duplicate-free and leaves no reference to the deleted recipe |
| Database.NewRecipe | backend/apps/api/serializers.py:251 | the inserted row carries the author and token given, and is a valid Recipe row exactly when the name and cooking time fit and the cooking time is at least one |
| Database.MoreRecipesKeepRowsValid | backend/apps/base/models.py:124-135 | adding recipes keeps every row's reference to an existing recipe |
| Database.CreateWriteKeepsValid | backend/apps/api/serializers.py:248-254 | every outcome of a create, the failed ones included, leaves the store valid |
| Database.UpdateWriteKeepsValid | backend/apps/api/serializers.py:256-263 | every outcome of an update, the failed ones included, leaves the store valid |
| Database.ClearedRowsKeepValid | backend/apps/api/serializers.py:257-258 | deleting a recipe's rows and clearing its tags, with the recipe kept, leaves the store valid |
| Database.ReplacedRowsKeepValid | backend/apps/api/serializers.py:257-262 | replacing a recipe's rows and tags without saving its fields leaves the store valid |
| Database.CreateWriteOutcome | backend/apps/api/serializers.py:248-254 | a create answers 201 exactly when every value fits its column; otherwise 500, with nothing written when the name or cooking time is too large, and with the recipe stored without rows or tags when an amount is too large |
| Database.UpdateWriteOutcome | backend/apps/api/serializers.py:256-263 | an update answers 200 exactly when every value fits its column; otherwise 500 with the old fields, the recipe left without rows or tags when an amount is too large, or with its rows and tags already replaced when the name or cooking time is too large; accounts, favorites, cart and subscriptions never change |
| Database.UpdateReplacesRows | backend/apps/api/serializers.py:256-263 | after an update the recipe has exactly one row per input line with its amount and exactly the input tags; other recipes' rows and tags are unchanged |
| Database.CreateAddsRows | backend/apps/api/serializers.py:248-254 | after a create the new recipe has exactly one row per input line and exactly the input tags; other recipes' rows and tags are unchanged |
| Database.RowsForMembers | backend/apps/api/serializers.py:237-246 | a row belongs to the created rows exactly when some line has its ingredient and amount |
| Database.DestroyCascades | backend/apps/recipe/models.py:119-191 | after a destroy no RecipeIngredient, tag, Favorite or ShoppingCart row refers to the recipe, and every other row remains |
| Database.EmptyTablesValid | backend/apps/recipe/models.py:25-72 | valid accounts and catalogs with no other rows form valid tables |
| Database.Store.constructor | backend/apps/recipe/models.py:25-72 | a store holding valid accounts and catalogs and no other rows is valid |
| Database.Store.ToggleMembership | backend/apps/api/views.py:81-110 | 401 for the anonymous user; 404 for an unknown recipe; POST adds the pair with 201, or answers 400 if it exists; otherwise the pair's rows are deleted with 204, or 400 if there are none; nothing changes on a refusal; the store stays valid |
| Database.Store.Subscribe | backend/apps/accounts/views.py:155-178 | 401 for the anonymous user; 404 for an unknown target; POST adds the pair with 201 exactly when the follow check accepts it; DELETE removes an existing pair with 204; everything else answers 400 and changes nothing |
| Database.Store.SetPassword | backend/apps/accounts/views.py:122-135 | 401 for the anonymous user; refused data answers 400 and leaves the password; accepted data stores the new password, trimmed as its field received it, and answers 204; nothing else changes |
| Database.Store.PutAvatar | backend/apps/accounts/views.py:101-116 | 401 for the anonymous user; an absent or empty avatar answers 400 untouched; an undecodable one 400; otherwise the avatar is stored and 200 returned |
| Database.Store.DeleteAvatar | backend/apps/accounts/views.py:101-120 | 401 for the anonymous user; otherwise the avatar is cleared and 204 returned |
| Database.Store.CreateRecipe | backend/apps/api/serializers.py:248-254 | 401 for the anonymous user; a refused payload answers 400 unchanged; an accepted one is written as a create writes it: the recipe, its rows and its tags with 201 when every value fits, otherwise a 500 with the partial write; the store stays valid |
| Database.Store.UpdateRecipe | backend/apps/api/serializers.py:256-263 | 401, then 404, then 403 for a non-author, then 400 for a refused payload, all unchanged; otherwise rows and tags are replaced and the given fields overwritten, with 200 when every value fits, or a 500 with the partial write; the store stays valid |
| Database.Store.DestroyRecipe | backend/apps/api/views.py:65-71 | 401, then 404, then 403 for a non-author; otherwise the recipe and every row that refers to it are deleted, with 204 |

## Left out

- HTTP plumbing is not modelled: response bodies, routers, URL configuration, pagination (page size 6) and 405 answers for methods an action does not declare.
- `backend/core/urls.py` imports `recipe_by_link`, which the views module does not define. URL routing is not part of this model.
- Base64 decoding and image storage are not modelled. An image is an opaque string whose empty value is the falsy one. Decodability is a boolean parameter of `Database.Store.PutAvatar`.
- Authentication, token issuance and user registration (`CreateUserSerializer.create`, `TokenCreateSerializer.create`) are not modelled. They call into Django's auth machinery.
- Serializers.TokenCheck: `authenticate` is modelled as comparing the stored password. Inactive users and authentication backends are not modelled.
- Text.Trim: `str.strip` is modelled for the ASCII whitespace only (tab through carriage return, 0x1C-0x1F and the space). Python also strips other Unicode whitespace, such as the no-break space. This also bounds Serializers.TokenCheck, Serializers.ChangePasswordCheck and Database.Store.SetPassword.
- Serializers.ChangePasswordCheck: `check_password` is modelled as equality with the stored value. The password validators and the minimum length are one boolean verdict, `policyOk`.
- Database.Store.CreateRecipe: the fresh primary key and the fresh `short_link` UUID are parameters, because the database and `uuid.uuid4` choose them.
- Database.Store.DeleteAvatar: deleting the stored image file is not modelled.
- Timestamps (`created_at`, `updated_at`) are not modelled, and neither is the `-created_at` ordering of the recipe listing. A listing is taken as a sequence of keys in any given order.
- String order uses code points, standing in for the database collation.
- RecipeWrite.ValidateRecipe: these details of the serializer framework are not modelled:
  - CharField whitespace trimming;
  - `null` values;
  - non-integer values;
  - a line missing its `id` or `amount` key;
  - the exact messages.
- RecipeWrite.ValidateRecipe: errors are keyed by field only. The per-line and per-item detail of nested errors is not modelled.
- Serializers.LimitGiven: `str.isdigit` is modelled for the ASCII digits only. Other Unicode digits also pass `isdigit` in Python.
- The model takes the union of `backend/apps/recipe/models.py` and `backend/apps/base/models.py`. The settings (`backend/foodgram/settings.py:30-34`) install `apps.recipe` but not `apps.base`, and `Subscription` and `Recipe.short_link` exist only in `apps.base`. The views and serializers import `Subscription` from `apps.accounts.models`, which defines only `User`, so the code as it stands does not import cleanly; the model treats `Subscription` as if it were installed.
- `RecipeIngredient.__str__` is not modelled. In `backend/apps/base/models.py` it refers to a missing attribute.
- The admin classes, the CSV loaders and settings reading are not modelled. Only the constants `MIN_AMOUNT`, `MIN_TIME` and the maximum lengths are used.
- Concurrency is not modelled. The code uses no transactions, so a race between the unique-together validator and the insert is outside this model. The partial writes that the missing transactions allow within one recipe request are modelled.
- The length of the stored image path (`ImageField`'s default of 100 characters) is not modelled. An image is an opaque value.
- Filters.FilterMembership: `NumberFilter` parses its value as a decimal number. A non-numeric value such as `true` makes the query invalid (400), and a fractional value such as `0.5` counts as true. The model takes the value as an already parsed integer, so neither case is captured.
- Filters.FilterIngredients: `CharFilter` strips surrounding whitespace from `name` before the prefix match. The model matches the value as given.
- Filters.FilterAuthor: `CharFilter` strips surrounding whitespace from `author` before the prefix match. The model matches the value as given.
- The email format check of the account serializers is not modelled.
- Links.RedirectToRecipe: the view raises Django's core `ValidationError`, which DRF does not translate into a response, so the request fails with a server error. The model keeps this as the `RecipeMissing` outcome.
