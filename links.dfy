/** The short link of a recipe and the redirect it is meant to lead to. */
module Links {
  import opened Common
  import opened Text

  /** `generate_short_link`: not found for an unknown recipe, otherwise the
      site domain, `/s/` and the recipe's primary key in decimal. */
  function ShortLink(domain: string, recipes: set<nat>, pk: nat): (r: Option<string>)
    ensures r.None? <==> pk !in recipes
  {
    if pk in recipes then Some(domain + "/s/" + NatToString(pk)) else None
  }

  /** The outcome of `redirect_to_recipe`. `RecipeMissing` stands for the
      `django.core.exceptions.ValidationError` the view raises. */
  datatype RedirectResult = Redirect(location: string) | RecipeMissing

  /** `redirect_to_recipe`: an unknown id raises, a known one redirects to its page. */
  function RedirectToRecipe(recipes: set<nat>, recipeId: nat): (r: RedirectResult)
    ensures r.RecipeMissing? <==> recipeId !in recipes
  {
    if recipeId in recipes then Redirect("/recipes/" + NatToString(recipeId) + "/") else RecipeMissing
  }

  /** A short link is the domain followed by `/s/<digits>`; reading the digits
      back gives the recipe's key, and redirecting on that key leads to the
      recipe's page. */
  lemma ShortLinkRoundTrip(domain: string, recipes: set<nat>, pk: nat)
    requires pk in recipes
    ensures var link := ShortLink(domain, recipes, pk).value;
      && IsPrefix(domain + "/s/", link)
      && IsDigits(link[|domain| + 3..])
      && ParseNat(link[|domain| + 3..]) == pk
      && RedirectToRecipe(recipes, ParseNat(link[|domain| + 3..])) ==
           Redirect("/recipes/" + NatToString(pk) + "/")
  {
    var link := ShortLink(domain, recipes, pk).value;
    assert link[|domain| + 3..] == NatToString(pk);
    assert link[..|domain + "/s/"|] == domain + "/s/";
    ParseNatToString(pk);
  }

  /** Distinct recipes get distinct short links. */
  lemma ShortLinksDistinct(domain: string, recipes: set<nat>, p: nat, q: nat)
    requires p in recipes && q in recipes && p != q
    ensures ShortLink(domain, recipes, p) != ShortLink(domain, recipes, q)
  {
    var a := ShortLink(domain, recipes, p).value;
    var b := ShortLink(domain, recipes, q).value;
    if a == b {
      assert a[|domain| + 3..] == NatToString(p);
      assert b[|domain| + 3..] == NatToString(q);
      NatToStringInjective(p, q);
    }
  }
}
