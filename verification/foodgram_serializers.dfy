/** The serializers of the `foodgram` tree (`foodgram/api/serializers.py`):
    the recipe `validate`, the tag `validate`, and the two computed fields
    `is_subscribed` and `is_favourite`, each both as written and as meant.
    The recipe `update` is `Serializers.Update` with the `foodgram` policy. */
module FoodgramSerializers {
  import opened Wrappers
  import opened Domain
  import opened Text
  import Seqs
  import V = Validators
  import FV = FoodgramValidators
  import UM = UserModels
  import M = Mixins
  import S = Serializers
  import H = Helpers

  /** The two lists of a request body that `validate` reads itself. */
  datatype Body = Body(tags: Option<seq<Id>>, ingredients: Option<seq<V.RawIngredient>>)

  /** What this `validate` hands on: the ingredient validator of this tree
      gives an id list. */
  datatype Validated = Validated(fields: S.Fields, tags: set<Id>, ingredients: seq<Id>, author: Id)

  predicate Given<T>(xs: Option<seq<T>>) {
    xs.Some? && xs.value != []
  }

  /** `RecipeSerializer.validate`: both lists must be given and non-empty;
      then the tag and the ingredient validators run, and the data gets
      their results and the requesting user as author. */
  method Validate(user: Id, body: Body, fields: S.Fields, tagCatalog: map<Id, Tag>) returns (r: Result<Validated, Error>)
    ensures !(Given(body.tags) && Given(body.ingredients)) ==> r == Failure(TagsAndIngredientsRequired)
    ensures r.Success? <==>
              && Given(body.tags) && Given(body.ingredients)
              && V.TagValidator(body.tags, tagCatalog).Success?
              && FV.AllPositive(body.ingredients.value)
              && Seqs.NoDuplicates(V.Ids(body.ingredients.value))
    ensures Given(body.tags) && Given(body.ingredients) && V.TagValidator(body.tags, tagCatalog).Failure? ==>
              r == Failure(UnknownTag)
    ensures Given(body.tags) && Given(body.ingredients) && V.TagValidator(body.tags, tagCatalog).Success? &&
              !FV.AllPositive(body.ingredients.value) ==>
              r == Failure(AmountBelowOne)
    ensures r.Success? ==>
              r.value == Validated(fields, V.TagValidator(body.tags, tagCatalog).value, V.Ids(body.ingredients.value), user)
  {
    if !(Given(body.tags) && Given(body.ingredients)) {
      return Failure(TagsAndIngredientsRequired);
    }
    var tags := V.TagValidator(body.tags, tagCatalog);
    if tags.Failure? {
      return Failure(tags.error);
    }
    var ids := FV.IngredientValidator(body.ingredients);
    if ids.Failure? {
      return Failure(ids.error);
    }
    return Success(Validated(fields, tags.value, ids.value, user));
  }

  /** The `foodgram` update never checks ownership, ignores an empty
      ingredient mapping, and replaces the tags only with a non-empty set. */
  lemma UpdatePolicies(stored: S.Stored, user: Id, v: S.Validated)
    ensures S.Update(Foodgram, stored, user, v).result != Failure(NotOwner)
    ensures v.ingredients == [] ==>
              && S.Update(Foodgram, stored, user, v).result.Success?
              && S.Update(Foodgram, stored, user, v).stored.amounts == stored.amounts
    ensures v.tags == {} ==> S.Update(Foodgram, stored, user, v).stored.recipe.tags == stored.recipe.tags
    ensures v.tags != {} ==> S.Update(Foodgram, stored, user, v).stored.recipe.tags == v.tags
  {
  }

  /** On the same request an empty ingredient mapping ends the `backend`
      update with an error and the `foodgram` one with a save; both leave
      the amount rows, and both have replaced the tags. */
  lemma TreesDifferOnEmptyIngredients(stored: S.Stored, user: Id, v: S.Validated)
    requires v.ingredients == [] && v.author == user
    ensures S.Update(Backend, stored, user, v).result == Failure(AllIngredientsRemoved)
    ensures S.Update(Foodgram, stored, user, v).result.Success?
    ensures S.Update(Backend, stored, user, v).stored.amounts == S.Update(Foodgram, stored, user, v).stored.amounts
    ensures S.Update(Backend, stored, user, v).stored.recipe.tags ==
            S.Update(Foodgram, stored, user, v).stored.recipe.tags
  {
  }

  /** The characters `TagSerializer.validate` strips from both ends. */
  const Trimmed: set<char> := {' ', '#'}

  /** `t` is the window `s[a..b]` upper-cased, and every character of `s`
      outside the window is one of `Trimmed`. */
  predicate UpperWindow(s: string, t: string, a: int, b: int) {
    && 0 <= a <= b <= |s|
    && t == UpperStr(s[a..b])
    && (forall i :: 0 <= i < a ==> s[i] in Trimmed)
    && (forall i :: b <= i < |s| ==> s[i] in Trimmed)
  }

  /** One value of `TagSerializer.validate`: spaces and `#` stripped from
      both ends, then upper-cased. */
  function CleanValue(s: string): (t: string)
    ensures exists a, b :: UpperWindow(s, t, a, b)
    ensures t != [] ==> t[0] !in Trimmed && t[|t| - 1] !in Trimmed
  {
    StrippedWindow(s);
    UpperStr(Strip(s, Trimmed))
  }

  lemma StrippedWindow(s: string)
    ensures exists a, b :: UpperWindow(s, UpperStr(Strip(s, Trimmed)), a, b)
    ensures Strip(s, Trimmed) != [] ==>
              Strip(s, Trimmed)[0] !in Trimmed && Strip(s, Trimmed)[|Strip(s, Trimmed)| - 1] !in Trimmed
  {
    var a := StripSpec(s, Trimmed);
    assert UpperWindow(s, UpperStr(Strip(s, Trimmed)), a, a + |Strip(s, Trimmed)|);
  }

  /** `TagSerializer.validate`: every value cleaned as `CleanValue` says. */
  function TagValidate(data: map<string, string>): (r: map<string, string>)
    ensures r.Keys == data.Keys
    ensures forall k :: k in r ==> exists a, b :: UpperWindow(data[k], r[k], a, b)
    ensures forall k :: k in r && r[k] != [] ==> r[k][0] !in Trimmed && r[k][|r[k]| - 1] !in Trimmed
  {
    map k | k in data :: CleanValue(data[k])
  }

  /** Validating validated data changes nothing. */
  lemma TagValidateIdempotent(data: map<string, string>)
    ensures TagValidate(TagValidate(data)) == TagValidate(data)
  {
    var d := TagValidate(data);
    forall k | k in d ensures UpperStr(Strip(d[k], Trimmed)) == d[k] {
      StripUnchanged(d[k], Trimmed);
      assert d[k] == UpperStr(Strip(data[k], Trimmed));
      UpperIdempotent(Strip(data[k], Trimmed));
    }
  }

  /** On a six-digit colour the tag `validate` gives this tree's colour
      normal form without its `#`, which the field needs. */
  lemma TagColorLosesHash(data: map<string, string>)
    requires "color" in data
    requires FV.HexColor(data["color"]).Success? && |FV.ColorCore(data["color"])| == 6
    ensures "#" + TagValidate(data)["color"] == FV.HexColor(data["color"]).value
    ensures !V.IsNormalColor(TagValidate(data)["color"])
  {
  }

  /** `UserSerializer.get_is_subscribed(obj)` as written: false for an
      anonymous viewer and for the viewer's own profile; otherwise it looks
      among the subscriptions whose author is the viewer for one whose
      author is `obj`, and there is none, so it is always false. */
  function GetIsSubscribedAsWritten(viewer: Viewer, obj: Id, store: seq<Link>): (r: bool)
    ensures !r
  {
    if viewer.Anonymous? || viewer.user.id == obj then false
    else exists l :: l in store && l.kind == Subscription && l.target == viewer.user.id && l.target == obj
  }

  /** `get_is_subscribed` as meant: false for an anonymous viewer and for
      the viewer's own profile; otherwise whether the viewer subscribes to
      `obj`. */
  function GetIsSubscribed(viewer: Viewer, obj: Id, store: seq<Link>): (r: bool)
    ensures viewer.Anonymous? ==> !r
    ensures viewer.Authenticated? && viewer.user.id == obj ==> !r
    ensures viewer.Authenticated? && viewer.user.id != obj ==>
              (r <==> Link(Subscription, viewer.user.id, obj) in store)
  {
    if viewer.Anonymous? || viewer.user.id == obj then false
    else Link(Subscription, viewer.user.id, obj) in store
  }

  /** Under this tree's intended constraint, which forbids subscribing to
      oneself, the field means what the `backend` one means. */
  lemma SubscribedAgreesWithBackend(viewer: Viewer, obj: Id, store: seq<Link>)
    requires UM.SubscriptionsOk(UM.FoodgramSubscriptions, store)
    ensures GetIsSubscribed(viewer, obj, store) == S.GetIsSubscribed(viewer, obj, store)
  {
    if viewer.Authenticated? && viewer.user.id == obj {
      assert Link(Subscription, viewer.user.id, obj) !in store;
    }
  }

  /** A subscription the toggle just created: the field as meant shows
      it, the field as written does not. */
  lemma SubscribeShowsOnlyWhenCorrected(store: seq<Link>, user: User, target: Id, users: set<Id>)
    requires M.CreateRelationUser(UM.FoodgramSubscriptions, store, user.id, target, users).status == Created
    ensures var s := M.CreateRelationUser(UM.FoodgramSubscriptions, store, user.id, target, users).store;
            GetIsSubscribed(Authenticated(user), target, s) && !GetIsSubscribedAsWritten(Authenticated(user), target, s)
  {
    var s := M.CreateRelationUser(UM.FoodgramSubscriptions, store, user.id, target, users).store;
    assert Link(Subscription, user.id, target) in s;
  }

  /** `RecipeSerializer.get_is_favourite(recipe)` as written: the test on
      the viewer is inverted, so a signed-in viewer always gets false and an
      anonymous one fails on a missing `favourites` attribute. */
  function GetIsFavouriteAsWritten(viewer: Viewer, recipe: Id, store: seq<Link>): (r: Result<bool, Error>)
    ensures r.Failure? <==> viewer.Anonymous?
    ensures r.Failure? ==> r.error == MissingAttribute
    ensures r.Success? ==> !r.value
  {
    if viewer.Authenticated? then Success(false)
    else Failure(MissingAttribute)
  }

  /** `get_is_favourite` as meant, which is the `backend` tree's
      `get_is_favorited`: false for an anonymous viewer, otherwise whether
      the viewer has the recipe among their favourites. */
  function GetIsFavourite(viewer: Viewer, recipe: Id, store: seq<Link>): (r: bool)
    ensures viewer.Anonymous? ==> !r
    ensures viewer.Authenticated? ==> (r <==> recipe in Related(store, Favourite, viewer.user.id))
  {
    viewer.Authenticated? && Link(Favourite, viewer.user.id, recipe) in store
  }

  /** A favourite the toggle just created: the field as meant shows it,
      the field as written answers false. */
  lemma FavouriteShowsOnlyWhenCorrected(store: seq<Link>, user: User, target: Id, recipes: set<Id>)
    requires M.CreateRelationRecipe(store, Favourite, user.id, target, recipes).status == Created
    ensures var s := M.CreateRelationRecipe(store, Favourite, user.id, target, recipes).store;
            GetIsFavourite(Authenticated(user), target, s) &&
            GetIsFavouriteAsWritten(Authenticated(user), target, s) == Success(false)
  {
    var s := M.CreateRelationRecipe(store, Favourite, user.id, target, recipes).store;
    assert Link(Favourite, user.id, target) in s;
  }
}
