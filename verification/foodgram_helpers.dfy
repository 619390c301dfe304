/** The helpers of the `foodgram` tree (`foodgram/api/helpers.py`). The
    shopping list is the one `Helpers` defines; `create_amount_ingredient`
    builds each row with the keyword `ingredients=`, which the join model
    has no field for. */
module FoodgramHelpers {
  import opened Wrappers
  import opened Domain
  import opened Dicts
  import V = Validators
  import H = Helpers

  /** `create_amount_ingredient(recipe, ingredients)` as written: the first
      value is unpacked, then the row is built with `ingredients=`, which
      raises before anything is written. Only an empty mapping gets through,
      writing no row. */
  function CreateAmountIngredientAsWritten(recipe: Id, ingredients: Dict<Id, V.Entry>)
    : (r: Result<seq<AmountRow>, Error>)
    ensures r.Success? <==> ingredients == []
    ensures r.Success? ==> r.value == []
    ensures r.Failure? && ingredients[0].1.Bare? ==> r.error == NotAPair
    ensures r.Failure? && ingredients[0].1.Resolved? ==> r.error == UnexpectedKeyword
  {
    if ingredients == [] then Success([])
    else
      match ingredients[0].1
      case Bare(_) => Failure(NotAPair)
      case Resolved(_, _) => Failure(UnexpectedKeyword)
  }

  /** On every mapping whose values are all (ingredient, amount) pairs, the
      function as written fails exactly where the intended one writes rows. */
  lemma KeywordBreaksEveryWrite(recipe: Id, ingredients: Dict<Id, V.Entry>)
    requires ingredients != []
    requires forall i :: 0 <= i < |ingredients| ==> ingredients[i].1.Resolved?
    ensures CreateAmountIngredientAsWritten(recipe, ingredients) == Failure(UnexpectedKeyword)
    ensures H.CreateAmountIngredient(recipe, ingredients).Success?
    ensures |H.CreateAmountIngredient(recipe, ingredients).value| == |ingredients| > 0
  {
    assert ingredients[0].1.Resolved?;
  }

  /** The two agree on what they reject for a value that is not a pair, and
      on the empty mapping. */
  lemma AgreeWithoutPairs(recipe: Id, ingredients: Dict<Id, V.Entry>)
    requires ingredients == [] || ingredients[0].1.Bare?
    ensures CreateAmountIngredientAsWritten(recipe, ingredients) == H.CreateAmountIngredient(recipe, ingredients)
  {
  }

  /** `get_shoplist_ingredients(user)`: the same query and rendering as in
      the `backend` tree, so the same text: the header naming the user, then
      one line per (name, unit) group of the cart's rows. */
  function GetShoplistIngredients(user: User, rows: seq<AmountRow>, catalog: map<Id, Ingredient>, store: seq<Link>)
    : (r: string)
    ensures H.Header(user.username) <= r
    ensures r == H.ShopListText(user, rows, catalog, store)
  {
    H.ShopListShape(user, rows, catalog, store);
    H.ShopListText(user, rows, catalog, store)
  }
}
