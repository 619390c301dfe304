/** The helpers of `api/helpers.py`: writing a recipe's ingredient rows
    from a validated mapping, and the shopping-list text. The list's query
    is a fold over the `AmountIngredient` rows of the recipes in the user's
    cart, grouped by ingredient name and unit. */
module Helpers {
  import opened Wrappers
  import opened Domain
  import opened Text
  import opened Dicts
  import Seqs
  import V = Validators
  import RM = RecipeModels

  /** `create_amount_ingredient(recipe, ingredients)`: one row per value of
      the mapping, in its order, carrying the recipe, the ingredient and the
      amount. A value that is not an (ingredient, amount) pair fails the
      unpacking before anything is written. */
  function CreateAmountIngredient(recipe: Id, ingredients: Dict<Id, V.Entry>): (r: Result<seq<AmountRow>, Error>)
    ensures r.Success? <==> forall i :: 0 <= i < |ingredients| ==> ingredients[i].1.Resolved?
    ensures r.Failure? ==> r.error == NotAPair
    ensures r.Success? ==> |r.value| == |ingredients|
    ensures r.Success? ==> forall i :: 0 <= i < |r.value| ==>
              r.value[i] == AmountRow(recipe, ingredients[i].1.ingredient.id, ingredients[i].1.amount)
  {
    if ingredients == [] then Success([])
    else
      match ingredients[0].1
      case Bare(_) => Failure(NotAPair)
      case Resolved(x, a) =>
        var rest :- CreateAmountIngredient(recipe, ingredients[1..]);
        Success([AmountRow(recipe, x.id, a)] + rest)
  }

  /** Every catalog entry is stored under its own id. */
  predicate CatalogWellFormed(catalog: map<Id, Ingredient>) {
    forall k :: k in catalog ==> catalog[k].id == k
  }

  /** When every id of a validated list is in the catalog, writing the rows
      succeeds, they name each ingredient once, so (recipe, ingredient) stays
      unique, and each carries an amount the validator accepted. */
  lemma ValidatedRowsUnique(recipe: Id, xs: seq<V.RawIngredient>, catalog: map<Id, Ingredient>)
    requires CatalogWellFormed(catalog)
    requires forall i :: 0 <= i < |xs| ==> xs[i].id in catalog
    requires V.IngredientValidator(Some(xs), catalog).Success?
    ensures CreateAmountIngredient(recipe, V.IngredientValidator(Some(xs), catalog).value).Success?
    ensures var rows := CreateAmountIngredient(recipe, V.IngredientValidator(Some(xs), catalog).value).value;
            && Seqs.Pairwise(rows, RM.AmountKeysDiffer)
            && (forall a :: a in rows ==> a.recipe == recipe && V.AmountOk(a.amount))
            && (forall i :: 0 <= i < |xs| ==> exists a :: a in rows && a.ingredient == xs[i].id)
  {
    var d := V.IngredientValidator(Some(xs), catalog).value;
    ValidatedEntries(xs, catalog);
    RowsFromEntries(recipe, d);
    forall i | 0 <= i < |xs| ensures xs[i].id in KeySeq(d) {
      assert V.Ids(xs)[i] == xs[i].id;
    }
  }

  /** Each value the validator leaves is the catalog ingredient stored under
      its key, with an accepted amount. */
  lemma ValidatedEntries(xs: seq<V.RawIngredient>, catalog: map<Id, Ingredient>)
    requires CatalogWellFormed(catalog)
    requires forall i :: 0 <= i < |xs| ==> xs[i].id in catalog
    requires V.IngredientValidator(Some(xs), catalog).Success?
    ensures var d := V.IngredientValidator(Some(xs), catalog).value;
            forall i :: 0 <= i < |d| ==>
              d[i].1.Resolved? && d[i].1.ingredient.id == d[i].0 && V.AmountOk(d[i].1.amount)
  {
    var d := V.IngredientValidator(Some(xs), catalog).value;
    forall i | 0 <= i < |d| ensures d[i].1.Resolved? && d[i].1.ingredient.id == d[i].0 && V.AmountOk(d[i].1.amount) {
      GetAt(d, i);
      var k := d[i].0;
      assert KeySeq(d)[i] == k;
      var j :| 0 <= j < |xs| && V.Ids(xs)[j] == k;
      assert k in catalog;
      var m :| 0 <= m < |xs| && xs[m].id == k && xs[m].amount == V.LastAmount(xs, k).value
               && forall n :: m < n < |xs| ==> xs[n].id != k;
      assert V.AmountOk(xs[m].amount);
    }
  }

  /** Rows written from resolved values under distinct keys name each key's
      ingredient once. */
  lemma RowsFromEntries(recipe: Id, d: Dict<Id, V.Entry>)
    requires DistinctKeys(d)
    requires forall i :: 0 <= i < |d| ==>
               d[i].1.Resolved? && d[i].1.ingredient.id == d[i].0 && V.AmountOk(d[i].1.amount)
    ensures CreateAmountIngredient(recipe, d).Success?
    ensures var rows := CreateAmountIngredient(recipe, d).value;
            && Seqs.Pairwise(rows, RM.AmountKeysDiffer)
            && (forall a :: a in rows ==> a.recipe == recipe && V.AmountOk(a.amount))
            && (forall k :: k in KeySeq(d) ==> exists a :: a in rows && a.ingredient == k)
  {
    var rows := CreateAmountIngredient(recipe, d).value;
    var ks := KeySeq(d);
    forall i, j | 0 <= i < j < |rows| ensures RM.AmountKeysDiffer(rows[i], rows[j]) {
      assert ks[i] != ks[j];
    }
    forall k | k in ks ensures exists a :: a in rows && a.ingredient == k {
      var p :| 0 <= p < |ks| && ks[p] == k;
      assert rows[p] in rows;
    }
  }

  /** A list naming an id the catalog lacks passes the validator, but then
      fails when the rows are written. */
  lemma UnknownIdFailsOnWrite(recipe: Id, xs: seq<V.RawIngredient>, catalog: map<Id, Ingredient>, i: nat)
    requires i < |xs| && xs[i].id !in catalog
    requires V.IngredientValidator(Some(xs), catalog).Success?
    ensures CreateAmountIngredient(recipe, V.IngredientValidator(Some(xs), catalog).value) == Failure(NotAPair)
  {
    var d := V.IngredientValidator(Some(xs), catalog).value;
    assert V.Ids(xs)[i] == xs[i].id;
    assert xs[i].id in KeySeq(d);
    var p :| 0 <= p < |KeySeq(d)| && KeySeq(d)[p] == xs[i].id;
    GetAt(d, p);
  }

  /** The shopping list's grouping key: ingredient name and measurement unit. */
  datatype Key = Key(name: string, unit: string)

  /** One line of the list: a key and its summed amount. */
  datatype Group = Group(key: Key, amount: int)

  /** Row `a` counts towards group `k`: its recipe is in the cart and its
      ingredient has `k`'s name and unit. */
  predicate Counts(a: AmountRow, catalog: map<Id, Ingredient>, cart: set<Id>, k: Key) {
    && a.recipe in cart && a.ingredient in catalog
    && Key(catalog[a.ingredient].name, catalog[a.ingredient].unit) == k
  }

  /** Some row counts towards `k`. */
  predicate Contributes(rows: seq<AmountRow>, catalog: map<Id, Ingredient>, cart: set<Id>, k: Key) {
    exists i :: 0 <= i < |rows| && Counts(rows[i], catalog, cart, k)
  }

  /** The reference sum: the amounts of all rows that count towards `k`. */
  function SumFor(rows: seq<AmountRow>, catalog: map<Id, Ingredient>, cart: set<Id>, k: Key): int {
    if rows == [] then 0
    else
      var a := rows[|rows| - 1];
      SumFor(rows[..|rows| - 1], catalog, cart, k) + if Counts(a, catalog, cart, k) then a.amount else 0
  }

  function GroupKeys(gs: seq<Group>): (r: seq<Key>)
    ensures |r| == |gs|
    ensures forall i :: 0 <= i < |gs| ==> r[i] == gs[i].key
  {
    if gs == [] then [] else [gs[0].key] + GroupKeys(gs[1..])
  }

  /** The amount of the first group with key `k`, 0 when there is none. */
  function AmountOf(gs: seq<Group>, k: Key): int {
    if gs == [] then 0 else if gs[0].key == k then gs[0].amount else AmountOf(gs[1..], k)
  }

  /** Adds `amount` to group `k`, opening the group at the end when it is new. */
  function AddTo(gs: seq<Group>, k: Key, amount: int): (r: seq<Group>)
    ensures k in GroupKeys(gs) ==> GroupKeys(r) == GroupKeys(gs)
    ensures k !in GroupKeys(gs) ==> GroupKeys(r) == GroupKeys(gs) + [k]
    ensures forall k' :: AmountOf(r, k') == AmountOf(gs, k') + if k' == k then amount else 0
  {
    if gs == [] then [Group(k, amount)]
    else
      assert GroupKeys(gs) == [gs[0].key] + GroupKeys(gs[1..]);
      if gs[0].key == k then [Group(k, gs[0].amount + amount)] + gs[1..]
      else
        var r := [gs[0]] + AddTo(gs[1..], k, amount);
        assert r[1..] == AddTo(gs[1..], k, amount);
        r
  }

  /** The query's `values(name, unit).annotate(Sum(amount))` over the rows
      of the recipes in `cart`, as a fold over `rows`. */
  function Aggregate(rows: seq<AmountRow>, catalog: map<Id, Ingredient>, cart: set<Id>): (r: seq<Group>)
    ensures Seqs.NoDuplicates(GroupKeys(r))
    ensures forall k :: k in GroupKeys(r) <==> Contributes(rows, catalog, cart, k)
    ensures forall k :: AmountOf(r, k) == SumFor(rows, catalog, cart, k)
  {
    if rows == [] then []
    else
      var init := rows[..|rows| - 1];
      var a := rows[|rows| - 1];
      var prev := Aggregate(init, catalog, cart);
      assert forall k :: Contributes(rows, catalog, cart, k) <==>
                         Contributes(init, catalog, cart, k) || Counts(a, catalog, cart, k) by {
        assert forall i :: 0 <= i < |init| ==> init[i] == rows[i];
      }
      if a.recipe in cart && a.ingredient in catalog then
        var k := Key(catalog[a.ingredient].name, catalog[a.ingredient].unit);
        var r := AddTo(prev, k, a.amount);
        assert Seqs.NoDuplicates(GroupKeys(r)) by {
          if k !in GroupKeys(prev) {
            var ks := GroupKeys(prev);
            forall i, j | 0 <= i < j < |ks| + 1 ensures (ks + [k])[i] != (ks + [k])[j] {
              if j < |ks| {
                assert (ks + [k])[i] == ks[i] && (ks + [k])[j] == ks[j];
              }
            }
          }
        }
        r
      else prev
  }

  /** With distinct keys, each group's amount is the one `AmountOf` finds. */
  lemma {:induction false} AmountAt(gs: seq<Group>, i: nat)
    requires Seqs.NoDuplicates(GroupKeys(gs)) && i < |gs|
    ensures AmountOf(gs, gs[i].key) == gs[i].amount
  {
    if i > 0 {
      assert GroupKeys(gs)[0] != GroupKeys(gs)[i];
      assert Seqs.NoDuplicates(GroupKeys(gs[1..])) by {
        var ks := GroupKeys(gs[1..]);
        forall a, b | 0 <= a < b < |ks| ensures ks[a] != ks[b] {
          assert ks[a] == GroupKeys(gs)[a + 1] && ks[b] == GroupKeys(gs)[b + 1];
        }
      }
      AmountAt(gs[1..], i - 1);
    }
  }

  /** Every line of the list carries a distinct (name, unit), one for each
      ingredient of a cart recipe, with the sum of that ingredient's amounts
      over all cart recipes. */
  lemma ShopListSums(rows: seq<AmountRow>, catalog: map<Id, Ingredient>, cart: set<Id>)
    ensures var gs := Aggregate(rows, catalog, cart);
            && (forall i, j :: 0 <= i < j < |gs| ==> gs[i].key != gs[j].key)
            && (forall i :: 0 <= i < |gs| ==> gs[i].amount == SumFor(rows, catalog, cart, gs[i].key))
            && (forall a :: a in rows && a.recipe in cart && a.ingredient in catalog ==>
                  exists i :: 0 <= i < |gs| && Counts(a, catalog, cart, gs[i].key))
  {
    var gs := Aggregate(rows, catalog, cart);
    forall i | 0 <= i < |gs| ensures gs[i].amount == SumFor(rows, catalog, cart, gs[i].key) {
      AmountAt(gs, i);
    }
    forall i, j | 0 <= i < j < |gs| ensures gs[i].key != gs[j].key {
      assert GroupKeys(gs)[i] != GroupKeys(gs)[j];
    }
    forall a | a in rows && a.recipe in cart && a.ingredient in catalog
      ensures exists i :: 0 <= i < |gs| && Counts(a, catalog, cart, gs[i].key)
    {
      var k := Key(catalog[a.ingredient].name, catalog[a.ingredient].unit);
      var p :| 0 <= p < |rows| && rows[p] == a;
      assert Counts(rows[p], catalog, cart, k);
      assert Contributes(rows, catalog, cart, k);
      var i :| 0 <= i < |GroupKeys(gs)| && GroupKeys(gs)[i] == k;
    }
  }

  /** The first element of the list. */
  function Header(username: string): string {
    "Список ингредиентов на покупку для \n\n" + username + "\n"
  }

  /** `{name}: {amount} {measurement}`. */
  function Line(g: Group): string {
    g.key.name + ": " + IntToString(g.amount) + " " + g.key.unit
  }

  /** The header and then one line per group, in the groups' order. */
  function ShopListLines(username: string, gs: seq<Group>): (r: seq<string>)
    ensures |r| == 1 + |gs|
    ensures r[0] == Header(username)
    ensures forall i :: 0 <= i < |gs| ==> r[i + 1] == Line(gs[i])
  {
    [Header(username)] + seq(|gs|, i requires 0 <= i < |gs| => Line(gs[i]))
  }

  /** `get_shoplist_ingredients(user)`: the lines for the user's cart,
      joined by newlines. */
  function ShopListText(user: User, rows: seq<AmountRow>, catalog: map<Id, Ingredient>, store: seq<Link>): string {
    Join("\n", ShopListLines(user.username, Aggregate(rows, catalog, Related(store, ShoppingCart, user.id))))
  }

  /** A line gives back its name, amount and unit: the text after the name
      and `": "` is the amount's numeral, then a space and the unit. */
  lemma LineFields(g: Group)
    ensures var n := IntToString(g.amount);
            && Line(g) == g.key.name + ": " + n + " " + g.key.unit
            && IsNumeral(n) && ParseInt(n) == g.amount
  {
    ParseIntToString(g.amount);
  }

  /** The text opens with the header, which names the user, and holds every
      line: its length is the lines' total plus one newline between each
      neighbouring pair. */
  lemma ShopListShape(user: User, rows: seq<AmountRow>, catalog: map<Id, Ingredient>, store: seq<Link>)
    ensures var text := ShopListText(user, rows, catalog, store);
            var lines := ShopListLines(user.username, Aggregate(rows, catalog, Related(store, ShoppingCart, user.id)));
            && Header(user.username) <= text
            && text[37..37 + |user.username|] == user.username
            && |text| == TotalLength(lines) + |lines| - 1
  {
    var lines := ShopListLines(user.username, Aggregate(rows, catalog, Related(store, ShoppingCart, user.id)));
    var text := Join("\n", lines);
    var h := Header(user.username);
    JoinStartsWithFirst("\n", lines);
    JoinLength("\n", lines);
    assert |"Список ингредиентов на покупку для \n\n"| == 37;
    assert h[37..37 + |user.username|] == user.username;
    assert text[..|h|] == h;
    assert text[37..37 + |user.username|] == text[..|h|][37..37 + |user.username|];
  }
}
