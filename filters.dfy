/** The query filters of the ingredient and recipe listings. A query set is a
    sequence of primary keys in the listing's order; every filter only drops
    keys: what it keeps was in the listing, and no key appears more often. */
module Filters {
  import opened Common
  import opened Text
  import opened Models

  /** `IngredientFilter`: `name` is a case-sensitive `startswith` match; an
      empty or absent value leaves the listing alone. */
  function FilterIngredients(ids: seq<nat>, catalog: map<nat, Ingredient>, name: Option<string>): (r: seq<nat>)
    ensures name.None? || name.value == [] ==> r == ids
    ensures |r| <= |ids|
    ensures name.Some? && name.value != [] ==> forall id ::
              id in r <==> id in ids && id in catalog && IsPrefix(name.value, catalog[id].name)
  {
    if name.None? || name.value == [] then ids
    else Keep(ids, id => id in catalog && IsPrefix(name.value, catalog[id].name))
  }

  /** What a recipe listing is asked for. Absent filters are `None` (or an empty tag list). */
  datatype RecipeQuery = RecipeQuery(author: Option<string>, tags: seq<string>,
                                     isFavorited: Option<int>, isInShoppingCart: Option<int>)

  /** `author`: the author's id, written in decimal, starts with the given text. */
  function FilterAuthor(ids: seq<nat>, recipes: map<nat, Recipe>, prefix: string): (r: seq<nat>)
    ensures |r| <= |ids|
    ensures forall id :: id in r <==> id in ids && id in recipes && IsPrefix(prefix, NatToString(recipes[id].author))
  {
    Keep(ids, id => id in recipes && IsPrefix(prefix, NatToString(recipes[id].author)))
  }

  /** The author filter is a prefix match: asking for author 1 also lists author 10's recipes. */
  lemma AuthorFilterIsPrefixMatch()
    ensures FilterAuthor([3], map[3 := Recipe(10, "Soup", "Boil.", "img", 5, 0)], "1") == [3]
  {
    assert NatToString(10) == "10";
  }

  function SlugsOf(recipe: nat, recipeTags: set<RecipeTag>, tags: map<nat, Tag>): set<string> {
    set rt | rt in recipeTags && rt.recipe == recipe && rt.tag in tags :: tags[rt.tag].slug
  }

  /** Some tag carries the slug. */
  predicate SlugKnown(slug: string, tags: map<nat, Tag>) {
    exists t :: t in tags && tags[t].slug == slug
  }

  /** `tags`: keeps the recipes having at least one of the given slugs; an
      empty list is no filter, and a slug naming no tag invalidates the query. */
  function FilterTags(ids: seq<nat>, recipeTags: set<RecipeTag>, tags: map<nat, Tag>, slugs: seq<string>): (r: Option<seq<nat>>)
    ensures r.None? <==> exists k :: 0 <= k < |slugs| && !SlugKnown(slugs[k], tags)
    ensures r.Some? && slugs == [] ==> r.value == ids
    ensures r.Some? ==> |r.value| <= |ids|
    ensures r.Some? && slugs != [] ==> forall id ::
              id in r.value <==> id in ids && exists s :: s in slugs && s in SlugsOf(id, recipeTags, tags)
  {
    if exists k :: 0 <= k < |slugs| && !SlugKnown(slugs[k], tags) then None
    else if slugs == [] then Some(ids)
    else Some(Keep(ids, id => exists s :: s in slugs && s in SlugsOf(id, recipeTags, tags)))
  }

  /** `filter_is_favorited` and `filter_is_in_shopping_cart`: a non-zero value
      from an authenticated user keeps that user's rows; zero, an absent value
      or the anonymous user leave the listing alone. */
  function FilterMembership(ids: seq<nat>, rows: seq<Membership>, value: Option<int>, viewer: Viewer): (r: seq<nat>)
    ensures |r| <= |ids|
    ensures value.None? || value.value == 0 || viewer == Anonymous ==> r == ids
    ensures value.Some? && value.value != 0 && viewer.User? ==>
              forall id :: id in r <==> id in ids && Membership(viewer.id, id) in rows
  {
    if value.Some? && value.value != 0 && viewer.User? then
      Keep(ids, id => Membership(viewer.id, id) in rows)
    else ids
  }

  /** `RecipeFilter`: the four filters applied one after the other. */
  function FilterRecipes(ids: seq<nat>, q: RecipeQuery, viewer: Viewer, recipes: map<nat, Recipe>,
                         recipeTags: set<RecipeTag>, tags: map<nat, Tag>,
                         favorites: seq<Membership>, cart: seq<Membership>): Option<seq<nat>>
  {
    var byAuthor := ByAuthor(ids, q.author, recipes);
    match FilterTags(byAuthor, recipeTags, tags, q.tags)
    case None => None
    case Some(byTags) =>
      var byFavorite := FilterMembership(byTags, favorites, q.isFavorited, viewer);
      Some(FilterMembership(byFavorite, cart, q.isInShoppingCart, viewer))
  }

  /** The author filter, skipped when the value is absent or empty. */
  function ByAuthor(ids: seq<nat>, author: Option<string>, recipes: map<nat, Recipe>): (r: seq<nat>)
    ensures |r| <= |ids|
    ensures forall id :: id in r <==> id in ids && AuthorMatches(id, author, recipes)
  {
    if author.None? || author.value == [] then ids else FilterAuthor(ids, recipes, author.value)
  }

  predicate AuthorMatches(id: nat, author: Option<string>, recipes: map<nat, Recipe>) {
    author.None? || author.value == [] ||
      (id in recipes && IsPrefix(author.value, NatToString(recipes[id].author)))
  }

  predicate TagsMatch(id: nat, slugs: seq<string>, recipeTags: set<RecipeTag>, tags: map<nat, Tag>) {
    slugs == [] || exists s :: s in slugs && s in SlugsOf(id, recipeTags, tags)
  }

  predicate MembershipMatches(id: nat, value: Option<int>, viewer: Viewer, rows: seq<Membership>) {
    value.None? || value.value == 0 || viewer == Anonymous || Membership(viewer.id, id) in rows
  }

  /** A recipe passes every filter the query sets. */
  predicate Matches(id: nat, q: RecipeQuery, viewer: Viewer, recipes: map<nat, Recipe>,
                    recipeTags: set<RecipeTag>, tags: map<nat, Tag>,
                    favorites: seq<Membership>, cart: seq<Membership>)
  {
    && AuthorMatches(id, q.author, recipes)
    && TagsMatch(id, q.tags, recipeTags, tags)
    && MembershipMatches(id, q.isFavorited, viewer, favorites)
    && MembershipMatches(id, q.isInShoppingCart, viewer, cart)
  }

  /** The filters only remove recipes: a query whose slugs all name tags yields
      exactly the listed recipes that pass every active filter, and nothing else. */
  lemma FilterRecipesSpec(ids: seq<nat>, q: RecipeQuery, viewer: Viewer, recipes: map<nat, Recipe>,
                          recipeTags: set<RecipeTag>, tags: map<nat, Tag>,
                          favorites: seq<Membership>, cart: seq<Membership>)
    requires forall s :: s in q.tags ==> SlugKnown(s, tags)
    ensures var r := FilterRecipes(ids, q, viewer, recipes, recipeTags, tags, favorites, cart);
      && r.Some?
      && |r.value| <= |ids|
      && (forall id :: id in r.value <==>
            id in ids && Matches(id, q, viewer, recipes, recipeTags, tags, favorites, cart))
  {
    var byAuthor := ByAuthor(ids, q.author, recipes);
    var t := FilterTags(byAuthor, recipeTags, tags, q.tags);
    assert t.Some? by {
      forall k | 0 <= k < |q.tags| ensures SlugKnown(q.tags[k], tags) {
        assert q.tags[k] in q.tags;
      }
    }
    var byTags := t.value;
    assert forall id :: id in byTags <==> id in byAuthor && TagsMatch(id, q.tags, recipeTags, tags);
    var byFavorite := FilterMembership(byTags, favorites, q.isFavorited, viewer);
    assert forall id :: id in byFavorite <==> id in byTags && MembershipMatches(id, q.isFavorited, viewer, favorites);
    var r := FilterMembership(byFavorite, cart, q.isInShoppingCart, viewer);
    assert forall id :: id in r <==> id in byFavorite && MembershipMatches(id, q.isInShoppingCart, viewer, cart);
  }

  /** A slug that names no tag makes the whole query invalid. */
  lemma UnknownSlugRejected(ids: seq<nat>, q: RecipeQuery, viewer: Viewer, recipes: map<nat, Recipe>,
                            recipeTags: set<RecipeTag>, tags: map<nat, Tag>,
                            favorites: seq<Membership>, cart: seq<Membership>, k: nat)
    requires k < |q.tags| && !SlugKnown(q.tags[k], tags)
    ensures FilterRecipes(ids, q, viewer, recipes, recipeTags, tags, favorites, cart).None?
  {
  }
}
