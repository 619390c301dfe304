/** The query logic of the `foodgram` tree's views (`foodgram/api/views.py`).
    The ingredient search answers with the names of the prefix matches
    only; the recipe list is unfiltered for an anonymous viewer and spells
    the favourite parameter `is_favourite`. */
module FoodgramViews {
  import opened Wrappers
  import opened Domain
  import opened Text
  import Seqs
  import Views

  /** The search answers either with ingredient rows or with bare names. */
  datatype SearchResult = Everything(ingredients: seq<Ingredient>) | NamesOnly(names: seq<string>)

  /** `IngredientViewSet.get_queryset`: without a `name` parameter (or with
      an empty one) the whole catalog; otherwise the names of the
      ingredients whose name starts with it, case ignored. */
  function SearchIngredients(catalog: seq<Ingredient>, name: Option<string>): (r: SearchResult)
    ensures r.Everything? <==> name.None? || name.value == ""
    ensures r.Everything? ==> r.ingredients == catalog
    ensures r.NamesOnly? ==> |r.names| <= |catalog|
    ensures r.NamesOnly? ==> forall s :: s in r.names <==>
              exists x :: x in catalog && x.name == s && IStartsWith(x.name, name.value)
  {
    if name.None? || name.value == "" then Everything(catalog)
    else
      var q := name.value;
      var ps := Views.PrefixMatches(catalog, q);
      var ns := Views.Names(ps);
      forall s | s in ns ensures exists x :: x in catalog && x.name == s && IStartsWith(x.name, q) {
        var i :| 0 <= i < |ns| && ns[i] == s;
        assert ps[i] in ps;
      }
      forall x | x in catalog && IStartsWith(x.name, q) ensures x.name in ns {
        var i :| 0 <= i < |ps| && ps[i] == x;
        assert ns[i] == x.name;
      }
      NamesOnly(ns)
  }

  /** The names listed are those of the first group of the `backend`
      search, in the same order. */
  lemma NamesOfBackendPrefixGroup(catalog: seq<Ingredient>, q: string)
    requires q != ""
    ensures var ps := Views.PrefixMatches(catalog, q);
            && |ps| <= |Views.SearchIngredients(catalog, Some(q))|
            && SearchIngredients(catalog, Some(q)) == NamesOnly(Views.Names(Views.SearchIngredients(catalog, Some(q))[..|ps|]))
  {
    var ps := Views.PrefixMatches(catalog, q);
    var r := Views.SearchIngredients(catalog, Some(q));
    assert r == ps + Views.OtherMatches(catalog, q);
    assert r[..|ps|] == ps;
  }

  /** What a recipe has to satisfy to be listed for a signed-in user: every
      filter switched on, the favourite one under the name `is_favourite`. */
  predicate Selected(tagCatalog: map<Id, Tag>, store: seq<Link>, user: Id, q: Views.Query, x: Recipe) {
    && (q.tags != [] ==> Views.HasSlug(x, tagCatalog, q.tags))
    && (q.author.Some? ==> x.author == q.author)
    && (Views.Flag(q, "is_in_shopping_cart") ==> x.id in Related(store, ShoppingCart, user))
    && (Views.Flag(q, "is_favourite") ==> x.id in Related(store, Favourite, user))
  }

  /** `RecipeViewSet.get_queryset`: an anonymous viewer gets every recipe;
      a signed-in one gets the tags, author, cart and favourite filters. */
  function RecipeQueryset(recipes: seq<Recipe>, tagCatalog: map<Id, Tag>, store: seq<Link>, viewer: Viewer,
                          q: Views.Query): (r: seq<Recipe>)
    ensures viewer.Anonymous? ==> r == recipes
    ensures viewer.Authenticated? ==>
              forall x :: x in r <==> x in recipes && Selected(tagCatalog, store, viewer.user.id, q, x)
    ensures |r| <= |recipes|
  {
    match viewer
    case Anonymous => recipes
    case Authenticated(u) =>
      var rs := Views.ByAuthor(Views.ByTags(recipes, tagCatalog, q.tags), q.author);
      var rs' := Views.ByLink(rs, Views.Flag(q, "is_in_shopping_cart"), store, ShoppingCart, u.id);
      Views.ByLink(rs', Views.Flag(q, "is_favourite"), store, Favourite, u.id)
  }

  /** The listed recipes are distinct when the table's rows are. */
  lemma QuerysetDistinct(recipes: seq<Recipe>, tagCatalog: map<Id, Tag>, store: seq<Link>, viewer: Viewer,
                         q: Views.Query)
    requires Seqs.NoDuplicates(recipes)
    ensures Seqs.NoDuplicates(RecipeQueryset(recipes, tagCatalog, store, viewer, q))
  {
    if viewer.Authenticated? {
      Views.QuerysetDistinct(recipes, tagCatalog, store, viewer, q.(params := map[]));
      var r1 := Views.ByTags(recipes, tagCatalog, q.tags);
      var r2 := Views.ByAuthor(r1, q.author);
      assert r2 == Views.RecipeQueryset(recipes, tagCatalog, store, viewer, q.(params := map[]));
      var u := viewer.user.id;
      var r3 := Views.ByLink(r2, Views.Flag(q, "is_in_shopping_cart"), store, ShoppingCart, u);
      if Views.Flag(q, "is_in_shopping_cart") {
        Seqs.FilterNoDuplicates(r2, (x: Recipe) => x.id in Related(store, ShoppingCart, u));
      }
      if Views.Flag(q, "is_favourite") {
        Seqs.FilterNoDuplicates(r3, (x: Recipe) => x.id in Related(store, Favourite, u));
      }
    }
  }

  /** The query with the favourite parameter under the `backend` tree's
      name `is_favorited`. */
  function AsBackendQuery(q: Views.Query): Views.Query {
    var rest := q.params - {"is_favorited", "is_favourite"};
    q.(params := if "is_favourite" in q.params then rest["is_favorited" := q.params["is_favourite"]] else rest)
  }

  /** For a signed-in user, the list is the `backend` one once the favourite
      parameter is renamed: the `backend` spelling `is_favorited` is ignored
      here, and `is_favourite` does its work. */
  lemma SignedInMatchesBackend(recipes: seq<Recipe>, tagCatalog: map<Id, Tag>, store: seq<Link>, user: User,
                               q: Views.Query)
    ensures var v := Authenticated(user);
            forall x :: x in RecipeQueryset(recipes, tagCatalog, store, v, q) <==>
                        x in Views.RecipeQueryset(recipes, tagCatalog, store, v, AsBackendQuery(q))
  {
    var bq := AsBackendQuery(q);
    assert Views.Flag(bq, "is_favorited") == Views.Flag(q, "is_favourite");
    assert Views.Flag(bq, "is_in_shopping_cart") == Views.Flag(q, "is_in_shopping_cart");
  }

  /** An anonymous viewer sees every recipe the `backend` tree would list
      for them, and more whenever a tags or author filter drops one. */
  lemma AnonymousSeesBackendList(recipes: seq<Recipe>, tagCatalog: map<Id, Tag>, store: seq<Link>, q: Views.Query)
    ensures forall x :: x in Views.RecipeQueryset(recipes, tagCatalog, store, Anonymous, q) ==>
                        x in RecipeQueryset(recipes, tagCatalog, store, Anonymous, q)
    ensures forall x :: x in recipes && q.author.Some? && x.author != q.author ==>
                        x in RecipeQueryset(recipes, tagCatalog, store, Anonymous, q) &&
                        x !in Views.RecipeQueryset(recipes, tagCatalog, store, Anonymous, q)
  {
  }

  /** `get_shopping_cart_txt`: the same guard and file as the `backend`
      download, 400 for an empty cart. */
  function GetShoppingCartTxt(user: User, rows: seq<AmountRow>, catalog: map<Id, Ingredient>, store: seq<Link>)
    : (r: Views.Download)
    ensures r.Refused? <==> forall l :: l in store ==> !(l.kind == ShoppingCart && l.user == user.id)
    ensures r.Refused? ==> r.status == BadRequest
    ensures r.Attachment? ==> r.filename == Views.ShoplistFilename(user)
    ensures r == Views.DownloadShoppingCart(user, rows, catalog, store)
  {
    Views.DownloadShoppingCart(user, rows, catalog, store)
  }
}
