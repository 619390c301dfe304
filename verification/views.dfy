/** The query logic of the `backend` tree's views (`api/views.py`): the
    ingredient search, the recipe list filters and the shopping-list
    download. */
module Views {
  import opened Wrappers
  import opened Domain
  import opened Text
  import Seqs
  import H = Helpers

  function Names(xs: seq<Ingredient>): (r: seq<string>)
    ensures |r| == |xs|
    ensures forall i :: 0 <= i < |xs| ==> r[i] == xs[i].name
  {
    seq(|xs|, i requires 0 <= i < |xs| => xs[i].name)
  }

  /** `filter(name__istartswith=q)`. */
  function PrefixMatches(catalog: seq<Ingredient>, q: string): seq<Ingredient> {
    Seqs.Filter(catalog, (x: Ingredient) => IStartsWith(x.name, q))
  }

  /** `filter(name__icontains=q).exclude(name__in=<names of the prefix matches>)`. */
  function OtherMatches(catalog: seq<Ingredient>, q: string): seq<Ingredient> {
    var names := Names(PrefixMatches(catalog, q));
    Seqs.Filter(catalog, (x: Ingredient) => IContains(x.name, q) && x.name !in names)
  }

  /** `IngredientViewSet.get_queryset`: without a `name` parameter (or with
      an empty one) the whole catalog; otherwise the prefix matches, then the
      other ingredients whose name contains it. Case is ignored. */
  function SearchIngredients(catalog: seq<Ingredient>, name: Option<string>): (r: seq<Ingredient>)
    ensures name.None? || name.value == "" ==> r == catalog
    ensures name.Some? && name.value != "" ==> forall x :: x in r ==> x in catalog && IContains(x.name, name.value)
  {
    if name.None? || name.value == "" then catalog
    else
      var q := name.value;
      forall x | x in PrefixMatches(catalog, q) ensures IContains(x.name, q) {
        StartsWithContains(x.name, q);
      }
      PrefixMatches(catalog, q) + OtherMatches(catalog, q)
  }

  /** Excluding the prefix matches' names removes exactly the prefix
      matches: an ingredient shares a name with one iff it is one. */
  lemma ExcludedNames(catalog: seq<Ingredient>, q: string, x: Ingredient)
    requires x in catalog
    ensures x.name in Names(PrefixMatches(catalog, q)) <==> IStartsWith(x.name, q)
  {
    var ps := PrefixMatches(catalog, q);
    if IStartsWith(x.name, q) {
      var i :| 0 <= i < |ps| && ps[i] == x;
      assert Names(ps)[i] == x.name;
    }
    if x.name in Names(ps) {
      var i :| 0 <= i < |ps| && Names(ps)[i] == x.name;
      assert ps[i] in ps;
    }
  }

  /** The other matches are the ingredients that contain the query but do
      not start with it. */
  lemma OtherMatchesContainOnly(catalog: seq<Ingredient>, q: string)
    ensures OtherMatches(catalog, q) ==
            Seqs.Filter(catalog, (x: Ingredient) => IContains(x.name, q) && !IStartsWith(x.name, q))
  {
    forall x | x in catalog ensures x.name in Names(PrefixMatches(catalog, q)) <==> IStartsWith(x.name, q) {
      ExcludedNames(catalog, q, x);
    }
    var names := Names(PrefixMatches(catalog, q));
    Seqs.FilterCongruent(catalog, (x: Ingredient) => IContains(x.name, q) && x.name !in names,
                         (x: Ingredient) => IContains(x.name, q) && !IStartsWith(x.name, q));
  }

  /** The search lists every prefix match before every other match, and no
      ingredient in both groups. */
  lemma SearchPrefixFirst(catalog: seq<Ingredient>, q: string)
    requires q != ""
    ensures var r := SearchIngredients(catalog, Some(q));
            var n := |PrefixMatches(catalog, q)|;
            && n <= |r|
            && (forall i :: 0 <= i < n ==> IStartsWith(r[i].name, q))
            && (forall i :: n <= i < |r| ==> !IStartsWith(r[i].name, q))
            && (forall i, j :: 0 <= i < n <= j < |r| ==> r[i] != r[j])
  {
    OtherMatchesContainOnly(catalog, q);
    var ps := PrefixMatches(catalog, q);
    var os := OtherMatches(catalog, q);
    var r := ps + os;
    assert r == SearchIngredients(catalog, Some(q));
    forall i | 0 <= i < |ps| ensures IStartsWith(r[i].name, q) {
      assert r[i] == ps[i] && ps[i] in ps;
    }
    forall i | |ps| <= i < |r| ensures !IStartsWith(r[i].name, q) {
      assert r[i] == os[i - |ps|] && os[i - |ps|] in os;
    }
  }

  /** Up to order, the search returns exactly the ingredients whose name
      contains the query, each once. */
  lemma SearchIsContainsFilter(catalog: seq<Ingredient>, q: string)
    requires q != ""
    ensures multiset(SearchIngredients(catalog, Some(q))) ==
            multiset(Seqs.Filter(catalog, (x: Ingredient) => IContains(x.name, q)))
  {
    OtherMatchesContainOnly(catalog, q);
    forall x: Ingredient ensures IContains(x.name, q) == (IStartsWith(x.name, q) || (IContains(x.name, q) && !IStartsWith(x.name, q))) {
      if IStartsWith(x.name, q) {
        StartsWithContains(x.name, q);
      }
    }
    Seqs.FilterSplit(catalog, (x: Ingredient) => IStartsWith(x.name, q),
                     (x: Ingredient) => IContains(x.name, q) && !IStartsWith(x.name, q),
                     (x: Ingredient) => IContains(x.name, q));
  }

  /** The recipe list's query string: the `tags` list, the `author` id when
      given, and the single-valued parameters by name. */
  datatype Query = Query(tags: seq<string>, author: Option<Id>, params: map<string, string>)

  /** A parameter switches its filter on when present and non-empty: any
      non-empty string, "0" and "false" included. */
  predicate Flag(q: Query, name: string) {
    name in q.params && q.params[name] != ""
  }

  /** `tags__slug__in=slugs`: the recipe has some tag with one of the slugs. */
  predicate HasSlug(x: Recipe, tagCatalog: map<Id, Tag>, slugs: seq<string>) {
    exists t :: t in x.tags && t in tagCatalog && tagCatalog[t].slug in slugs
  }

  function ByTags(rs: seq<Recipe>, tagCatalog: map<Id, Tag>, slugs: seq<string>): seq<Recipe> {
    if slugs == [] then rs else Seqs.Filter(rs, (x: Recipe) => HasSlug(x, tagCatalog, slugs))
  }

  function ByAuthor(rs: seq<Recipe>, author: Option<Id>): seq<Recipe> {
    if author.None? then rs else Seqs.Filter(rs, (x: Recipe) => x.author == author)
  }

  /** The recipes the user has a `kind` link to. */
  function ByLink(rs: seq<Recipe>, on: bool, store: seq<Link>, kind: RelationKind, user: Id): seq<Recipe> {
    if !on then rs else Seqs.Filter(rs, (x: Recipe) => x.id in Related(store, kind, user))
  }

  /** What a recipe has to satisfy to be listed: every filter switched on,
      with the cart and favourite filters applying to a signed-in viewer
      only. */
  predicate Selected(tagCatalog: map<Id, Tag>, store: seq<Link>, viewer: Viewer, q: Query, x: Recipe) {
    && (q.tags != [] ==> HasSlug(x, tagCatalog, q.tags))
    && (q.author.Some? ==> x.author == q.author)
    && (viewer.Authenticated? ==>
          && (Flag(q, "is_in_shopping_cart") ==> x.id in Related(store, ShoppingCart, viewer.user.id))
          && (Flag(q, "is_favorited") ==> x.id in Related(store, Favourite, viewer.user.id)))
  }

  /** `RecipeViewSet.get_queryset`: tags and author filters, then, for a
      signed-in viewer, the cart and favourite filters. */
  function RecipeQueryset(recipes: seq<Recipe>, tagCatalog: map<Id, Tag>, store: seq<Link>, viewer: Viewer, q: Query)
    : (r: seq<Recipe>)
    ensures forall x :: x in r <==> x in recipes && Selected(tagCatalog, store, viewer, q, x)
    ensures |r| <= |recipes|
  {
    var rs := ByAuthor(ByTags(recipes, tagCatalog, q.tags), q.author);
    match viewer
    case Anonymous => rs
    case Authenticated(u) =>
      var rs' := ByLink(rs, Flag(q, "is_in_shopping_cart"), store, ShoppingCart, u.id);
      ByLink(rs', Flag(q, "is_favorited"), store, Favourite, u.id)
  }

  /** The listed recipes are distinct when the table's rows are: the tags
      join is followed by `distinct()`. */
  lemma QuerysetDistinct(recipes: seq<Recipe>, tagCatalog: map<Id, Tag>, store: seq<Link>, viewer: Viewer, q: Query)
    requires Seqs.NoDuplicates(recipes)
    ensures Seqs.NoDuplicates(RecipeQueryset(recipes, tagCatalog, store, viewer, q))
  {
    var r1 := ByTags(recipes, tagCatalog, q.tags);
    if q.tags != [] {
      Seqs.FilterNoDuplicates(recipes, (x: Recipe) => HasSlug(x, tagCatalog, q.tags));
    }
    var r2 := ByAuthor(r1, q.author);
    if q.author.Some? {
      Seqs.FilterNoDuplicates(r1, (x: Recipe) => x.author == q.author);
    }
    if viewer.Authenticated? {
      var u := viewer.user.id;
      var r3 := ByLink(r2, Flag(q, "is_in_shopping_cart"), store, ShoppingCart, u);
      if Flag(q, "is_in_shopping_cart") {
        Seqs.FilterNoDuplicates(r2, (x: Recipe) => x.id in Related(store, ShoppingCart, u));
      }
      if Flag(q, "is_favorited") {
        Seqs.FilterNoDuplicates(r3, (x: Recipe) => x.id in Related(store, Favourite, u));
      }
    }
  }

  /** An anonymous viewer's list ignores the cart and favourite parameters. */
  lemma AnonymousSkipsLinkFilters(recipes: seq<Recipe>, tagCatalog: map<Id, Tag>, store: seq<Link>, q: Query)
    ensures RecipeQueryset(recipes, tagCatalog, store, Anonymous, q) ==
            RecipeQueryset(recipes, tagCatalog, store, Anonymous, q.(params := map[]))
  {
  }

  function Elements(rs: seq<Recipe>): set<Recipe> {
    set x | x in rs
  }

  /** The cart and favourite filters compose by intersection. */
  lemma LinkFiltersIntersect(recipes: seq<Recipe>, tagCatalog: map<Id, Tag>, store: seq<Link>, user: User,
                             q: Query)
    requires Flag(q, "is_in_shopping_cart") && Flag(q, "is_favorited")
    ensures var v := Authenticated(user);
            Elements(RecipeQueryset(recipes, tagCatalog, store, v, q)) ==
            Elements(RecipeQueryset(recipes, tagCatalog, store, v, q.(params := q.params - {"is_favorited"}))) *
            Elements(RecipeQueryset(recipes, tagCatalog, store, v, q.(params := q.params - {"is_in_shopping_cart"})))
  {
    var qa := q.(params := q.params - {"is_favorited"});
    var qb := q.(params := q.params - {"is_in_shopping_cart"});
    assert Flag(qa, "is_in_shopping_cart") && !Flag(qa, "is_favorited");
    assert Flag(qb, "is_favorited") && !Flag(qb, "is_in_shopping_cart");
  }

  /** The answer of the shopping-list download: an error status, or a file. */
  datatype Download = Refused(status: Status) | Attachment(filename: string, body: string)

  /** `<username>_id<id>_shoplist.txt`. */
  function ShoplistFilename(user: User): string {
    user.username + "_id" + NatToString(user.id) + "_shoplist.txt"
  }

  /** `download_shopping_cart`: 400 when the user's cart is empty, otherwise
      the shopping list as an attachment named after the user. */
  function DownloadShoppingCart(user: User, rows: seq<AmountRow>, catalog: map<Id, Ingredient>, store: seq<Link>)
    : (r: Download)
    ensures r.Refused? <==> forall l :: l in store ==> !(l.kind == ShoppingCart && l.user == user.id)
    ensures r.Refused? ==> r.status == BadRequest
    ensures r.Attachment? ==>
              r.filename == ShoplistFilename(user) && r.body == H.ShopListText(user, rows, catalog, store)
  {
    if Related(store, ShoppingCart, user.id) == {} then
      assert forall l :: l in store && l.kind == ShoppingCart && l.user == user.id ==>
                         l.target in Related(store, ShoppingCart, user.id);
      Refused(BadRequest)
    else Attachment(ShoplistFilename(user), H.ShopListText(user, rows, catalog, store))
  }

  /** The filename gives back the username and the id. */
  lemma FilenameNamesUser(user: User)
    ensures var f := ShoplistFilename(user);
            var u := |user.username|;
            && u + 16 <= |f|
            && f[..u] == user.username && f[u..u + 3] == "_id" && f[|f| - 13..] == "_shoplist.txt"
            && AllDigits(f[u + 3..|f| - 13]) && ParseNat(f[u + 3..|f| - 13]) == user.id
  {
    var f := ShoplistFilename(user);
    var u := |user.username|;
    assert f[u + 3..|f| - 13] == NatToString(user.id);
    ParseNatToString(user.id);
  }
}
