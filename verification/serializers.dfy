/** The write rules and computed fields of the recipe and user serializers
    of `api/serializers.py`. `Update` also holds the `foodgram` tree's
    `update`, which differs from this one in two policies (no ownership
    check; an empty ingredient mapping is ignored instead of refused) and
    in the helper that writes the amount rows. */
module Serializers {
  import opened Wrappers
  import opened Domain
  import opened Dicts
  import Seqs
  import V = Validators
  import H = Helpers
  import FH = FoodgramHelpers
  import P = Permissions
  import RM = RecipeModels
  import UM = UserModels
  import M = Mixins

  /** The recipe fields of a request body that `validate` reads itself. */
  datatype Initial = Initial(tags: Option<seq<Id>>, ingredients: Option<seq<V.RawIngredient>>, name: string)

  /** The scalar recipe fields of the validated data; `None` is a field the
      request did not send. */
  datatype Fields = Fields(name: Option<string>, text: Option<string>, cookingTime: Option<int>)

  /** What `validate` hands on to `create` and `update`. */
  datatype Validated = Validated(fields: Fields, tags: set<Id>, ingredients: Dict<Id, V.Entry>, author: Id)

  /** The user already has a recipe of this name. */
  predicate NameTaken(recipes: seq<Recipe>, user: Id, name: string) {
    exists x :: x in recipes && x.author == Some(user) && x.name == name
  }

  /** `RecipeSerializer.validate`: on a POST, a name the requesting user
      already used is refused; then the tag and the ingredient validators
      run, in that order, and the data gets their results, the request's
      name and the requesting user as author. */
  function Validate(recipes: seq<Recipe>, user: Id, verb: P.Method, initial: Initial, fields: Fields,
                    tagCatalog: map<Id, Tag>, catalog: map<Id, Ingredient>): (r: Result<Validated, Error>)
    ensures verb == P.Post && NameTaken(recipes, user, initial.name) ==> r == Failure(DuplicateRecipeName)
    ensures r.Success? <==>
              && !(verb == P.Post && NameTaken(recipes, user, initial.name))
              && V.TagValidator(initial.tags, tagCatalog).Success?
              && V.IngredientValidator(initial.ingredients, catalog).Success?
    ensures !(verb == P.Post && NameTaken(recipes, user, initial.name)) &&
            V.TagValidator(initial.tags, tagCatalog).Failure? ==>
              r == Failure(V.TagValidator(initial.tags, tagCatalog).error)
    ensures !(verb == P.Post && NameTaken(recipes, user, initial.name)) &&
            V.TagValidator(initial.tags, tagCatalog).Success? &&
            V.IngredientValidator(initial.ingredients, catalog).Failure? ==>
              r == Failure(V.IngredientValidator(initial.ingredients, catalog).error)
    ensures r.Success? ==>
              && r.value.tags == V.TagValidator(initial.tags, tagCatalog).value
              && r.value.ingredients == V.IngredientValidator(initial.ingredients, catalog).value
              && r.value.author == user
              && r.value.fields == fields.(name := Some(initial.name))
  {
    if verb == P.Post && NameTaken(recipes, user, initial.name) then Failure(DuplicateRecipeName)
    else
      var tags :- V.TagValidator(initial.tags, tagCatalog);
      var ingredients :- V.IngredientValidator(initial.ingredients, catalog);
      Success(Validated(fields.(name := Some(initial.name)), tags, ingredients, user))
  }

  /** Only a POST looks at the existing recipes. */
  lemma OnlyPostChecksName(recipes: seq<Recipe>, user: Id, verb: P.Method, initial: Initial, fields: Fields,
                           tagCatalog: map<Id, Tag>, catalog: map<Id, Ingredient>)
    requires verb != P.Post
    ensures Validate(recipes, user, verb, initial, fields, tagCatalog, catalog) ==
            Validate([], user, verb, initial, fields, tagCatalog, catalog)
  {
  }

  /** A recipe created from data a POST validated keeps (name, author)
      unique among the existing recipes. */
  lemma PostKeepsNameUnique(recipes: seq<Recipe>, user: Id, initial: Initial, fields: Fields,
                            tagCatalog: map<Id, Tag>, catalog: map<Id, Ingredient>, x: Recipe)
    requires Validate(recipes, user, P.Post, initial, fields, tagCatalog, catalog).Success?
    requires x.name == initial.name && x.author == Some(user)
    requires forall y :: y in recipes ==> y.id != x.id
    ensures forall y :: y in recipes ==> RM.RecipeKeysDiffer(y, x) && RM.RecipeKeysDiffer(x, y)
  {
  }

  /** The in-memory recipe after `setattr` of every field sent: a field
      sent replaces the old value, one not sent keeps it. */
  function ApplyFields(x: Recipe, f: Fields): (r: Recipe)
    ensures r.id == x.id && r.tags == x.tags && r.author == x.author
    ensures r.name == (if f.name.Some? then f.name.value else x.name)
    ensures r.text == (if f.text.Some? then f.text.value else x.text)
    ensures r.cookingTime == (if f.cookingTime.Some? then f.cookingTime.value else x.cookingTime)
  {
    var x1 := if f.name.Some? then x.(name := f.name.value) else x;
    var x2 := if f.text.Some? then x1.(text := f.text.value) else x1;
    if f.cookingTime.Some? then x2.(cookingTime := f.cookingTime.value) else x2
  }

  /** A recipe as the database holds it: its row, with its tag set, and the
      whole ingredient-amount table. */
  datatype Stored = Stored(recipe: Recipe, amounts: seq<AmountRow>)

  /** What an update leaves in the database, and its answer. */
  datatype UpdateOutcome = UpdateOutcome(stored: Stored, result: Result<Recipe, Error>)

  /** The amount rows of other recipes. */
  function OtherRows(amounts: seq<AmountRow>, recipe: Id): seq<AmountRow> {
    Seqs.Filter(amounts, (a: AmountRow) => a.recipe != recipe)
  }

  /** The recipe's tags after an update: a non-empty tag set replaces them. */
  function NewTags(x: Recipe, v: Validated): set<Id> {
    if v.tags != {} then v.tags else x.tags
  }

  /** The requesting user may update: the `backend` tree demands that the
      validated author be that user; the `foodgram` tree does not check. */
  predicate MayUpdate(tree: Tree, user: Id, v: Validated) {
    tree == Foodgram || v.author == user
  }

  /** The steps of `RecipeSerializer.update` for `tree`, with `write` the
      outcome of the helper that builds the new amount rows. The `backend`
      tree first refuses an author other than the requesting user. Every
      field sent is set on the recipe, the author included. A non-empty tag
      set replaces the recipe's tags at once. An empty ingredient mapping is
      refused by the `backend` tree, after the tags were replaced, and
      ignored by the `foodgram` tree; a non-empty one clears the recipe's
      amount rows and then writes new ones, or fails with the helper's
      error, leaving the rows cleared. Only a successful update saves the
      fields. */
  function UpdateWith(tree: Tree, stored: Stored, user: Id, v: Validated, write: Result<seq<AmountRow>, Error>)
    : (r: UpdateOutcome)
    requires write.Success? ==> forall i :: 0 <= i < |write.value| ==> write.value[i].recipe == stored.recipe.id
    ensures !MayUpdate(tree, user, v) ==> r == UpdateOutcome(stored, Failure(NotOwner))
    ensures r.result.Success? ==> r.stored.recipe == r.result.value
    ensures r.result.Success? ==>
              r.result.value == ApplyFields(stored.recipe, v.fields).(
                author := Some(v.author),
                tags := NewTags(stored.recipe, v))
    ensures r.stored.recipe.id == stored.recipe.id
    ensures MayUpdate(tree, user, v) ==> r.stored.recipe.tags == NewTags(stored.recipe, v)
    ensures OtherRows(r.stored.amounts, stored.recipe.id) == OtherRows(stored.amounts, stored.recipe.id)
    ensures v.ingredients == [] ==> r.stored.amounts == stored.amounts
    ensures v.ingredients == [] && MayUpdate(tree, user, v) ==>
              (r.result.Success? <==> tree == Foodgram) &&
              (tree == Backend ==> r.result == Failure(AllIngredientsRemoved))
    ensures tree == Backend && v.ingredients == [] && MayUpdate(tree, user, v) ==>
              r == UpdateOutcome(Stored(stored.recipe.(tags := NewTags(stored.recipe, v)), stored.amounts),
                                 Failure(AllIngredientsRemoved))
    ensures v.ingredients != [] && MayUpdate(tree, user, v) ==> (r.result.Success? <==> write.Success?)
    ensures v.ingredients != [] && MayUpdate(tree, user, v) && write.Failure? ==>
              r == UpdateOutcome(
                     Stored(stored.recipe.(tags := NewTags(stored.recipe, v)), OtherRows(stored.amounts, stored.recipe.id)),
                     Failure(write.error))
    ensures v.ingredients != [] && r.result.Success? ==>
              write.Success? && r.stored.amounts == OtherRows(stored.amounts, stored.recipe.id) + write.value
  {
    var x := stored.recipe;
    if !MayUpdate(tree, user, v) then UpdateOutcome(stored, Failure(NotOwner))
    else
      var tagged := x.(tags := NewTags(x, v));
      var y := ApplyFields(x, v.fields).(author := Some(v.author), tags := NewTags(x, v));
      if v.ingredients == [] then
        if tree == Backend then UpdateOutcome(Stored(tagged, stored.amounts), Failure(AllIngredientsRemoved))
        else UpdateOutcome(Stored(y, stored.amounts), Success(y))
      else
        var cleared := OtherRows(stored.amounts, x.id);
        OtherRowsIdempotent(stored.amounts, x.id);
        match write
        case Failure(e) => UpdateOutcome(Stored(tagged, cleared), Failure(e))
        case Success(rows) =>
          OtherRowsAppendOwn(cleared, rows, x.id);
          UpdateOutcome(Stored(y, cleared + rows), Success(y))
  }

  /** The helper each tree's `update` calls to write the rows: the `backend`
      one, or the `foodgram` one as written. */
  function WriteRows(tree: Tree, recipe: Id, ingredients: Dict<Id, V.Entry>): (r: Result<seq<AmountRow>, Error>)
    ensures r.Success? ==> forall i :: 0 <= i < |r.value| ==> r.value[i].recipe == recipe
  {
    match tree
    case Backend => H.CreateAmountIngredient(recipe, ingredients)
    case Foodgram => FH.CreateAmountIngredientAsWritten(recipe, ingredients)
  }

  /** `RecipeSerializer.update` as each tree has it. The `backend` tree's
      update is the intended one. The `foodgram` tree's writes rows with a
      helper that fails on every non-empty mapping, and does so after the
      recipe's rows were cleared and its tags replaced. */
  function Update(tree: Tree, stored: Stored, user: Id, v: Validated): (r: UpdateOutcome)
    ensures tree == Backend ==> r == UpdateIntended(Backend, stored, user, v)
    ensures tree == Foodgram && v.ingredients == [] ==> r == UpdateIntended(Foodgram, stored, user, v)
    ensures tree == Foodgram && v.ingredients != [] ==>
              r.result == Failure(if v.ingredients[0].1.Bare? then NotAPair else UnexpectedKeyword) &&
              r.stored == Stored(stored.recipe.(tags := NewTags(stored.recipe, v)), OtherRows(stored.amounts, stored.recipe.id))
  {
    UpdateWith(tree, stored, user, v, WriteRows(tree, stored.recipe.id, v.ingredients))
  }

  /** The update both trees intend: the rows are written with the `backend`
      helper, which succeeds exactly when every value is an (ingredient,
      amount) pair, and then replace the recipe's rows one for one. */
  function UpdateIntended(tree: Tree, stored: Stored, user: Id, v: Validated): (r: UpdateOutcome)
    ensures v.ingredients != [] && MayUpdate(tree, user, v) ==>
              (r.result.Success? <==> forall i :: 0 <= i < |v.ingredients| ==> v.ingredients[i].1.Resolved?)
    ensures v.ingredients != [] && r.result.Success? ==>
              RowsReplaced(r.stored.amounts, OtherRows(stored.amounts, stored.recipe.id), stored.recipe.id, v.ingredients)
    ensures !MayUpdate(tree, user, v) ==> r.result == Failure(NotOwner)
  {
    var write := H.CreateAmountIngredient(stored.recipe.id, v.ingredients);
    var r := UpdateWith(tree, stored, user, v, write);
    if v.ingredients != [] && r.result.Success? then
      var cleared := OtherRows(stored.amounts, stored.recipe.id);
      assert r.stored.amounts == cleared + write.value;
      RowsAfter(cleared, stored.recipe.id, v.ingredients);
      r
    else r
  }

  /** `t` is the table `cleared` followed by one row of `recipe` per entry
      of `ingredients`, in order, each naming the entry's ingredient and
      amount. */
  predicate RowsReplaced(t: seq<AmountRow>, cleared: seq<AmountRow>, recipe: Id, ingredients: Dict<Id, V.Entry>) {
    && (forall i :: 0 <= i < |ingredients| ==> ingredients[i].1.Resolved?)
    && |t| == |cleared| + |ingredients|
    && t[..|cleared|] == cleared
    && forall i :: 0 <= i < |ingredients| ==>
         t[|cleared| + i] == AmountRow(recipe, ingredients[i].1.ingredient.id, ingredients[i].1.amount)
  }

  /** A successful write appends exactly those rows. */
  lemma RowsAfter(cleared: seq<AmountRow>, recipe: Id, ingredients: Dict<Id, V.Entry>)
    requires H.CreateAmountIngredient(recipe, ingredients).Success?
    ensures RowsReplaced(cleared + H.CreateAmountIngredient(recipe, ingredients).value, cleared, recipe, ingredients)
  {
  }

  /** The `foodgram` update as written loses a recipe's ingredients: with a
      non-empty mapping of pairs it clears the recipe's rows and then fails,
      where the intended update writes one row per entry. */
  lemma FoodgramUpdateLosesRows(stored: Stored, user: Id, v: Validated)
    requires v.ingredients != []
    requires forall i :: 0 <= i < |v.ingredients| ==> v.ingredients[i].1.Resolved?
    ensures Update(Foodgram, stored, user, v).result == Failure(UnexpectedKeyword)
    ensures Update(Foodgram, stored, user, v).stored.amounts == OtherRows(stored.amounts, stored.recipe.id)
    ensures UpdateIntended(Foodgram, stored, user, v).result.Success?
    ensures |UpdateIntended(Foodgram, stored, user, v).stored.amounts| ==
            |OtherRows(stored.amounts, stored.recipe.id)| + |v.ingredients|
  {
  }

  /** An amount the request validator accepts but the model field does not
      reaches the table: the `backend` update writes the row with
      `bulk_create`, which skips field validators. */
  lemma UpdateStoresAboveFieldMax(stored: Stored, user: Id, fields: Fields, tags: set<Id>, x: Ingredient, a: int)
    requires 40 < a <= V.MaxAmount
    ensures var d := V.IngredientValidator(Some([V.RawIngredient(x.id, a)]), map[x.id := x]);
            && d.Success?
            && var r := Update(Backend, stored, user, Validated(fields, tags, d.value, user));
            && r.result.Success?
            && AmountRow(stored.recipe.id, x.id, a) in r.stored.amounts
            && !RM.AmountValid(Backend, a)
  {
    var xs := [V.RawIngredient(x.id, a)];
    var cat := map[x.id := x];
    var d := V.IngredientValidator(Some(xs), cat);
    assert V.AllAmountsOk(xs);
    assert V.Ids(xs)[0] == x.id;
    var j :| 0 <= j < |d.value| && KeySeq(d.value)[j] == x.id;
    GetAt(d.value, j);
    assert V.LastAmount(xs, x.id) == Some(a);
    assert d.value[j].1 == V.Resolved(x, a);
    H.ValidatedRowsUnique(stored.recipe.id, xs, cat);
    var v := Validated(fields, tags, d.value, user);
    var r := UpdateIntended(Backend, stored, user, v);
    var cleared := OtherRows(stored.amounts, stored.recipe.id);
    assert r.result.Success?;
    RowsAfter(cleared, stored.recipe.id, v.ingredients);
    assert r.stored.amounts == cleared + H.CreateAmountIngredient(stored.recipe.id, v.ingredients).value;
    assert r.stored.amounts[|cleared| + j] == AmountRow(stored.recipe.id, x.id, a);
  }

  lemma OtherRowsIdempotent(amounts: seq<AmountRow>, recipe: Id)
    ensures OtherRows(OtherRows(amounts, recipe), recipe) == OtherRows(amounts, recipe)
  {
    var p := (a: AmountRow) => a.recipe != recipe;
    Seqs.FilterFilter(amounts, p, p, p);
  }

  /** Only rows of the recipe itself leave nothing. */
  lemma {:induction false} OwnRowsOnly(rows: seq<AmountRow>, recipe: Id)
    requires forall i :: 0 <= i < |rows| ==> rows[i].recipe == recipe
    ensures OtherRows(rows, recipe) == []
  {
    if rows != [] {
      OwnRowsOnly(rows[1..], recipe);
    }
  }

  /** Rows of the recipe itself do not change the other recipes' rows. */
  lemma {:induction false} OtherRowsAppendOwn(cleared: seq<AmountRow>, rows: seq<AmountRow>, recipe: Id)
    requires forall i :: 0 <= i < |rows| ==> rows[i].recipe == recipe
    ensures OtherRows(cleared + rows, recipe) == OtherRows(cleared, recipe)
  {
    if cleared == [] {
      assert cleared + rows == rows;
      OwnRowsOnly(rows, recipe);
    } else {
      assert (cleared + rows)[0] == cleared[0];
      assert (cleared + rows)[1..] == cleared[1..] + rows;
      OtherRowsAppendOwn(cleared[1..], rows, recipe);
    }
  }

  /** The ownership check never fires on data `validate` produced: it set
      the author to the requesting user, so the check compares the user
      with itself. */
  lemma OwnerCheckNeverFires(recipes: seq<Recipe>, user: Id, verb: P.Method, initial: Initial, fields: Fields,
                             tagCatalog: map<Id, Tag>, catalog: map<Id, Ingredient>, stored: Stored)
    requires Validate(recipes, user, verb, initial, fields, tagCatalog, catalog).Success?
    ensures var v := Validate(recipes, user, verb, initial, fields, tagCatalog, catalog).value;
            Update(Backend, stored, user, v).result != Failure(NotOwner)
  {
    var v := Validate(recipes, user, verb, initial, fields, tagCatalog, catalog).value;
    var r := Update(Backend, stored, user, v);
    if v.ingredients != [] {
      match H.CreateAmountIngredient(stored.recipe.id, v.ingredients)
      case Failure(e) =>
        assert e == NotAPair;
      case Success(_) =>
    }
  }

  /** An update keeps (recipe, ingredient) unique in the amount table
      whatever its outcome, as long as the rows the helper writes name each
      ingredient once: a failed write leaves only the other recipes' rows. */
  lemma UpdateKeepsAmountsUnique(tree: Tree, stored: Stored, user: Id, v: Validated, write: Result<seq<AmountRow>, Error>)
    requires Seqs.Pairwise(stored.amounts, RM.AmountKeysDiffer)
    requires write.Success? ==> forall i :: 0 <= i < |write.value| ==> write.value[i].recipe == stored.recipe.id
    requires write.Success? ==> Seqs.Pairwise(write.value, RM.AmountKeysDiffer)
    ensures Seqs.Pairwise(UpdateWith(tree, stored, user, v, write).stored.amounts, RM.AmountKeysDiffer)
  {
    var id := stored.recipe.id;
    var r := UpdateWith(tree, stored, user, v, write);
    if v.ingredients != [] && MayUpdate(tree, user, v) {
      Seqs.FilterPairwise(stored.amounts, (a: AmountRow) => a.recipe != id, RM.AmountKeysDiffer);
      if write.Success? {
        AppendOwnRowsPairwise(OtherRows(stored.amounts, id), write.value, id);
      }
    }
  }

  /** The other recipes' rows and new rows of the recipe itself differ in
      their recipe, so their concatenation keeps the keys apart. */
  lemma AppendOwnRowsPairwise(cleared: seq<AmountRow>, rows: seq<AmountRow>, recipe: Id)
    requires Seqs.Pairwise(cleared, RM.AmountKeysDiffer) && Seqs.Pairwise(rows, RM.AmountKeysDiffer)
    requires forall i :: 0 <= i < |cleared| ==> cleared[i].recipe != recipe
    requires forall i :: 0 <= i < |rows| ==> rows[i].recipe == recipe
    ensures Seqs.Pairwise(cleared + rows, RM.AmountKeysDiffer)
  {
    var t := cleared + rows;
    forall i, j | 0 <= i < j < |t| ensures RM.AmountKeysDiffer(t[i], t[j]) {
      if j < |cleared| {
        assert t[i] == cleared[i] && t[j] == cleared[j];
      } else if i < |cleared| {
        assert t[i] == cleared[i] && t[j] == rows[j - |cleared|];
      } else {
        assert t[i] == rows[i - |cleared|] && t[j] == rows[j - |cleared|];
      }
    }
  }

  /** `UserSerializer.get_is_subscribed(obj)`: false for an anonymous
      viewer; otherwise whether the viewer has a subscription row to `obj`. */
  function GetIsSubscribed(viewer: Viewer, obj: Id, store: seq<Link>): (r: bool)
    ensures viewer.Anonymous? ==> !r
    ensures viewer.Authenticated? ==> (r <==> exists l :: l in store && l == Link(Subscription, viewer.user.id, obj))
  {
    viewer.Authenticated? && obj in Related(store, Subscription, viewer.user.id)
  }

  /** A subscription the toggle created shows at once. */
  lemma SubscribeShows(s: UM.SubscriptionSchema, store: seq<Link>, user: User, target: Id, users: set<Id>)
    requires M.CreateRelationUser(s, store, user.id, target, users).status == Created
    ensures GetIsSubscribed(Authenticated(user), target, M.CreateRelationUser(s, store, user.id, target, users).store)
  {
    var r := M.CreateRelationUser(s, store, user.id, target, users).store;
    assert Link(Subscription, user.id, target) in r;
  }

  /** Where subscriptions are unique, unsubscribing clears the field. */
  lemma UnsubscribeClears(s: UM.SubscriptionSchema, store: seq<Link>, user: User, target: Id)
    requires M.LinksOk(s, store) && s.unique
    ensures !GetIsSubscribed(Authenticated(user), target, M.DeleteRelation(store, Subscription, user.id, target).store)
  {
    M.DeleteRemovesTarget(s, store, Subscription, user.id, target);
  }

  /** Without the unique constraint a repeated subscription survives one
      unsubscribe: the field still reads true. */
  lemma RepeatedSubscriptionSurvives(user: User, target: Id)
    ensures var l := Link(Subscription, user.id, target);
            && M.LinksOk(UM.BackendSubscriptions, [l, l])
            && GetIsSubscribed(Authenticated(user), target, M.DeleteRelation([l, l], Subscription, user.id, target).store)
  {
    var l := Link(Subscription, user.id, target);
    assert M.FirstIndex([l, l], l) == 0;
    assert M.DeleteRelation([l, l], Subscription, user.id, target).store == [l];
  }

  /** The author's recipes, in the order of the recipe table, which is the
      default ordering of `Recipe`: newest first. */
  function AuthorRecipes(recipes: seq<Recipe>, obj: Id): seq<Recipe> {
    Seqs.Filter(recipes, (x: Recipe) => x.author == Some(obj))
  }

  /** `UserSubscribeSerializer.get_recipes_count(obj)`: how many recipes
      the author has. */
  function GetRecipesCount(recipes: seq<Recipe>, obj: Id): (r: nat)
    ensures r <= |recipes|
    ensures r == |AuthorRecipes(recipes, obj)|
    ensures r == 0 <==> forall x :: x in recipes ==> x.author != Some(obj)
  {
    var own := AuthorRecipes(recipes, obj);
    if own != [] then
      assert own[0] in own;
      |own|
    else |own|
  }

  /** `UserSubscribeSerializer.get_recipes(obj)`: the author's recipes, cut
      to the first (newest) `limit` when the `recipes_limit` parameter is given; a
      negative limit is a negative slice, which the queryset refuses. */
  function GetRecipes(recipes: seq<Recipe>, obj: Id, limit: Option<int>): (r: Result<seq<Recipe>, Error>)
    ensures r.Failure? <==> limit.Some? && limit.value < 0
    ensures r.Failure? ==> r.error == NegativeSlice
    ensures r.Success? ==> r.value <= AuthorRecipes(recipes, obj)
    ensures r.Success? ==> forall x :: x in r.value ==> x in recipes && x.author == Some(obj)
    ensures limit.None? ==> r.Success? && |r.value| == GetRecipesCount(recipes, obj)
    ensures limit.Some? && limit.value >= 0 ==>
              r.Success? && |r.value| == if limit.value < GetRecipesCount(recipes, obj)
                                         then limit.value else GetRecipesCount(recipes, obj)
  {
    var own := AuthorRecipes(recipes, obj);
    match limit
    case None => Success(own)
    case Some(n) =>
      if n < 0 then Failure(NegativeSlice)
      else
        var r := Seqs.Take(own, n);
        assert forall x :: x in r ==> x in own by {
          forall x | x in r ensures x in own {
            var i :| 0 <= i < |r| && r[i] == x;
            assert own[i] == x;
          }
        }
        Success(r)
  }
}
