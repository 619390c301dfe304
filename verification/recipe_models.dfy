/** The schema of the `recipes` app in both trees: field bounds, unique
    constraints, the `Tag` colour clean-up and what deleting a recipe or a
    user does to the rows that point at it. */
module RecipeModels {
  import opened Wrappers
  import opened Domain
  import opened Text
  import Seqs
  import V = Validators
  import FV = FoodgramValidators

  /** `max_length` of the ingredient name and measurement unit. */
  const IngredientFieldMax := 40
  /** `max_length` of the tag name and slug. */
  const TagFieldMax := 50
  const RecipeNameMax := 80
  const RecipeTextMax := 500
  /** The largest value a `PositiveSmallIntegerField` holds. */
  const SmallIntMax := 32767

  predicate IngredientValid(x: Ingredient) {
    |x.name| <= IngredientFieldMax && |x.unit| <= IngredientFieldMax
  }

  /** The colour field: the `backend` tree demands `#` and six hex digits
      (the pattern anchored at the start, and 7 characters at most); the
      `foodgram` tree only bounds the length by 15. */
  predicate ColorFieldValid(tree: Tree, c: string) {
    match tree
    case Backend => |c| == 7 && c[0] == '#' && AllHex(c[1..])
    case Foodgram => |c| <= 15
  }

  predicate TagValid(tree: Tree, t: Tag) {
    |t.name| <= TagFieldMax && |t.slug| <= TagFieldMax && ColorFieldValid(tree, t.color)
  }

  /** `cooking_time`: 5 to 360 minutes in the `backend` tree, any small
      positive integer (default 0) in the `foodgram` tree. */
  predicate CookingTimeValid(tree: Tree, n: int) {
    match tree
    case Backend => 5 <= n <= 360
    case Foodgram => 0 <= n <= SmallIntMax
  }

  /** The `backend` tree's author is not nullable. */
  predicate RecipeValid(tree: Tree, x: Recipe) {
    && |x.name| <= RecipeNameMax && |x.text| <= RecipeTextMax
    && CookingTimeValid(tree, x.cookingTime)
    && (tree == Backend ==> x.author.Some?)
  }

  /** `AmountIngredient.amount`: 1 to 40 in the `backend` tree, at least 1 in
      the `foodgram` tree. */
  predicate AmountValid(tree: Tree, a: int) {
    match tree
    case Backend => 1 <= a <= 40
    case Foodgram => 1 <= a <= SmallIntMax
  }

  // The unique constraints, each as a relation every earlier row has to
  // every later row of its table (see `Seqs.Pairwise`).

  /** Primary key, and (name, measurement_unit) together. */
  predicate IngredientKeysDiffer(a: Ingredient, b: Ingredient) {
    a.id != b.id && (a.name != b.name || a.unit != b.unit)
  }

  /** Primary key, and each of name, color and slug on its own. */
  predicate TagKeysDiffer(a: Tag, b: Tag) {
    a.id != b.id && a.name != b.name && a.color != b.color && a.slug != b.slug
  }

  /** Primary key, and (name, author) together; a null author clashes with
      nothing, as SQL compares nulls as distinct. */
  predicate RecipeKeysDiffer(a: Recipe, b: Recipe) {
    a.id != b.id && (a.author.None? || a.name != b.name || a.author != b.author)
  }

  /** (recipe, ingredient) together. */
  predicate AmountKeysDiffer(a: AmountRow, b: AmountRow) {
    a.recipe != b.recipe || a.ingredient != b.ingredient
  }

  /** (recipe, user) together in `Favourites` and in `ShoppingCart`. */
  predicate RecipeLinksDiffer(a: Link, b: Link) {
    a.kind == Subscription || a != b
  }

  /** Every row of the recipes app's tables obeys its field rules and every
      unique constraint holds. */
  predicate RecipeSchema(tree: Tree, db: Db) {
    && (forall x :: x in db.ingredients ==> IngredientValid(x))
    && Seqs.Pairwise(db.ingredients, IngredientKeysDiffer)
    && (forall t :: t in db.tags ==> TagValid(tree, t))
    && Seqs.Pairwise(db.tags, TagKeysDiffer)
    && (forall x :: x in db.recipes ==> RecipeValid(tree, x))
    && Seqs.Pairwise(db.recipes, RecipeKeysDiffer)
    && (forall a :: a in db.amounts ==> AmountValid(tree, a.amount))
    && Seqs.Pairwise(db.amounts, AmountKeysDiffer)
    && Seqs.Pairwise(db.links, RecipeLinksDiffer)
  }

  predicate HasUser(db: Db, id: Id) {
    exists u :: u in db.users && u.id == id
  }

  predicate HasRecipe(db: Db, id: Id) {
    exists x :: x in db.recipes && x.id == id
  }

  predicate HasIngredient(db: Db, id: Id) {
    exists x :: x in db.ingredients && x.id == id
  }

  predicate HasTag(db: Db, id: Id) {
    exists t :: t in db.tags && t.id == id
  }

  /** Every foreign key names an existing row: a recipe's author and tags,
      an amount row's recipe and ingredient, a link's user and its target
      (a user for a subscription, a recipe otherwise). */
  predicate ForeignKeysResolve(db: Db) {
    AuthorsResolve(db) && RecipeTagsResolve(db) && AmountKeysResolve(db) && LinkKeysResolve(db)
  }

  predicate AuthorsResolve(db: Db) {
    forall x :: x in db.recipes && x.author.Some? ==> HasUser(db, x.author.value)
  }

  predicate RecipeTagsResolve(db: Db) {
    forall x, t :: x in db.recipes && t in x.tags ==> HasTag(db, t)
  }

  predicate AmountKeysResolve(db: Db) {
    forall a :: a in db.amounts ==> HasRecipe(db, a.recipe) && HasIngredient(db, a.ingredient)
  }

  predicate LinkKeysResolve(db: Db) {
    forall l :: l in db.links ==> LinkResolves(db, l)
  }

  predicate LinkResolves(db: Db, l: Link) {
    HasUser(db, l.user) && if l.kind == Subscription then HasUser(db, l.target) else HasRecipe(db, l.target)
  }

  /** The normaliser `Tag`'s clean-up calls in each tree. */
  function ColorValidator(tree: Tree, color: string): Result<string, Error> {
    match tree
    case Backend => V.HexColor(color)
    case Foodgram => FV.HexColor(color)
  }

  /** Every normalised code fits the colour field of either tree. */
  lemma NormalColorFitsField(tree: Tree, c: string)
    requires V.IsNormalColor(c)
    ensures ColorFieldValid(tree, c)
  {
    assert forall i :: 0 <= i < 6 ==> c[1..][i] == c[i + 1];
  }

  /** `Tag.clean_color` / `Tag.clean`: replaces the colour with its
      normalised form and leaves the other fields alone, or raises the
      validator's error. */
  function CleanColor(tree: Tree, t: Tag): (r: Result<Tag, Error>)
    ensures r.Success? <==> ColorValidator(tree, t.color).Success?
    ensures r.Success? ==> r.value == t.(color := ColorValidator(tree, t.color).value)
    ensures r.Success? ==> r.value.id == t.id && r.value.name == t.name && r.value.slug == t.slug
    ensures r.Success? ==> V.IsNormalColor(r.value.color) && ColorFieldValid(tree, r.value.color)
    ensures r.Failure? ==> r.error == ColorLength || r.error == ColorNotHex
  {
    var c :- ColorValidator(tree, t.color);
    NormalColorFitsField(tree, c);
    Success(t.(color := c))
  }

  /** Cleaning a cleaned tag changes nothing. */
  lemma CleanColorIdempotent(tree: Tree, t: Tag)
    requires CleanColor(tree, t).Success?
    ensures CleanColor(tree, CleanColor(tree, t).value) == CleanColor(tree, t)
  {
    match tree
    case Backend => V.HexColorIdempotent(t.color);
    case Foodgram => FV.HexColorIdempotent(t.color);
  }

  /** The request validator lets through amounts the model field rejects:
      rows are bulk-created, which skips field validators. */
  lemma ValidatorAdmitsAboveFieldMax(a: int)
    requires 40 < a <= V.MaxAmount
    ensures V.AmountOk(a) && !AmountValid(Backend, a)
  {
  }

  /** Deleting recipe `id`: its amount rows, favourites and cart rows go with
      it (every foreign key to a recipe cascades); nothing else changes. */
  function DeleteRecipe(db: Db, id: Id): (r: Db)
    ensures forall x :: x in r.recipes <==> x in db.recipes && x.id != id
    ensures forall a :: a in r.amounts <==> a in db.amounts && a.recipe != id
    ensures forall l :: l in r.links <==> l in db.links && (l.kind == Subscription || l.target != id)
    ensures r.users == db.users && r.ingredients == db.ingredients && r.tags == db.tags
  {
    db.(recipes := Seqs.Filter(db.recipes, (x: Recipe) => x.id != id),
        amounts := Seqs.Filter(db.amounts, (a: AmountRow) => a.recipe != id),
        links := Seqs.Filter(db.links, (l: Link) => l.kind == Subscription || l.target != id))
  }

  /** A recipe delete keeps every constraint and leaves no dangling key. */
  lemma DeleteRecipePreserves(tree: Tree, db: Db, id: Id)
    requires RecipeSchema(tree, db) && ForeignKeysResolve(db)
    ensures RecipeSchema(tree, DeleteRecipe(db, id)) && ForeignKeysResolve(DeleteRecipe(db, id))
  {
    var r := DeleteRecipe(db, id);
    Seqs.FilterPairwise(db.recipes, (x: Recipe) => x.id != id, RecipeKeysDiffer);
    Seqs.FilterPairwise(db.amounts, (a: AmountRow) => a.recipe != id, AmountKeysDiffer);
    Seqs.FilterPairwise(db.links, (l: Link) => l.kind == Subscription || l.target != id, RecipeLinksDiffer);
    forall x, t | x in r.recipes && t in x.tags ensures HasTag(r, t) {
      assert HasTag(db, t);
      var g :| g in db.tags && g.id == t;
      assert g in r.tags;
    }
    forall a | a in r.amounts ensures HasRecipe(r, a.recipe) && HasIngredient(r, a.ingredient) {
      var x :| x in db.recipes && x.id == a.recipe;
      assert x in r.recipes;
      var g :| g in db.ingredients && g.id == a.ingredient;
      assert g in r.ingredients;
    }
    forall l | l in r.links ensures LinkResolves(r, l) {
      var u :| u in db.users && u.id == l.user;
      assert u in r.users;
      if l.kind == Subscription {
        var v :| v in db.users && v.id == l.target;
        assert v in r.users;
      } else {
        var x :| x in db.recipes && x.id == l.target;
        assert x in r.recipes;
      }
    }
  }

  /** The ids of the recipes `uid` wrote. */
  function AuthoredBy(db: Db, uid: Id): set<Id> {
    set x | x in db.recipes && x.author == Some(uid) :: x.id
  }

  function Orphan(x: Recipe, uid: Id): Recipe {
    if x.author == Some(uid) then x.(author := None) else x
  }

  /** Whether a link survives deleting user `uid`: rows of the user go, as do
      subscriptions to them, and in the `backend` tree the favourites and cart
      rows of the recipes deleted with them. */
  predicate LinkSurvives(tree: Tree, db: Db, uid: Id, l: Link) {
    && l.user != uid
    && if l.kind == Subscription then l.target != uid
       else tree == Foodgram || l.target !in AuthoredBy(db, uid)
  }

  /** Deleting user `uid`. The `backend` tree deletes their recipes with
      everything that points at them; the `foodgram` tree keeps the recipes
      and sets their author to null. */
  function DeleteUser(tree: Tree, db: Db, uid: Id): (r: Db)
    ensures forall u :: u in r.users <==> u in db.users && u.id != uid
    ensures tree == Backend ==> forall x :: x in r.recipes <==> x in db.recipes && x.author != Some(uid)
    ensures tree == Backend ==>
              forall a :: a in r.amounts <==> a in db.amounts && a.recipe !in AuthoredBy(db, uid)
    ensures tree == Foodgram ==> |r.recipes| == |db.recipes| && r.amounts == db.amounts
    ensures tree == Foodgram ==> forall i :: 0 <= i < |r.recipes| ==>
              && r.recipes[i].author != Some(uid)
              && r.recipes[i] == db.recipes[i].(author := r.recipes[i].author)
              && (db.recipes[i].author != Some(uid) ==> r.recipes[i] == db.recipes[i])
    ensures forall l :: l in r.links <==> l in db.links && LinkSurvives(tree, db, uid, l)
    ensures r.ingredients == db.ingredients && r.tags == db.tags
  {
    var gone := AuthoredBy(db, uid);
    var links := Seqs.Filter(db.links, (l: Link) => LinkSurvives(tree, db, uid, l));
    var users := Seqs.Filter(db.users, (u: User) => u.id != uid);
    match tree
    case Backend =>
      db.(users := users, links := links,
          recipes := Seqs.Filter(db.recipes, (x: Recipe) => x.author != Some(uid)),
          amounts := Seqs.Filter(db.amounts, (a: AmountRow) => a.recipe !in gone))
    case Foodgram =>
      db.(users := users, links := links,
          recipes := seq(|db.recipes|, i requires 0 <= i < |db.recipes| => Orphan(db.recipes[i], uid)))
  }

  /** Orphaning recipes keeps (name, author) unique: the rows that change
      lose their author, and a null author clashes with nothing. */
  lemma OrphanPairwise(rs: seq<Recipe>, uid: Id, os: seq<Recipe>)
    requires Seqs.Pairwise(rs, RecipeKeysDiffer)
    requires |os| == |rs| && forall i :: 0 <= i < |rs| ==> os[i] == Orphan(rs[i], uid)
    ensures Seqs.Pairwise(os, RecipeKeysDiffer)
  {
    forall i, j | 0 <= i < j < |os| ensures RecipeKeysDiffer(os[i], os[j]) {
      assert RecipeKeysDiffer(rs[i], rs[j]);
    }
  }

  /** A user delete keeps every constraint of the recipes app and leaves no
      dangling key, in both trees. */
  lemma DeleteUserPreserves(tree: Tree, db: Db, uid: Id)
    requires RecipeSchema(tree, db) && ForeignKeysResolve(db)
    ensures RecipeSchema(tree, DeleteUser(tree, db, uid)) && ForeignKeysResolve(DeleteUser(tree, db, uid))
  {
    var r := DeleteUser(tree, db, uid);
    Seqs.FilterPairwise(db.links, (l: Link) => LinkSurvives(tree, db, uid, l), RecipeLinksDiffer);
    DeleteUserKeepsTags(tree, db, uid);
    if tree == Backend {
      Seqs.FilterPairwise(db.recipes, (x: Recipe) => x.author != Some(uid), RecipeKeysDiffer);
      Seqs.FilterPairwise(db.amounts, (a: AmountRow) => a.recipe !in AuthoredBy(db, uid), AmountKeysDiffer);
      BackendDeleteUserResolves(db, uid);
    } else {
      OrphanPairwise(db.recipes, uid, r.recipes);
      forall x | x in r.recipes ensures RecipeValid(tree, x) {
        var i :| 0 <= i < |r.recipes| && r.recipes[i] == x;
        assert db.recipes[i] in db.recipes;
      }
      FoodgramDeleteUserResolves(db, uid);
    }
  }

  lemma DeleteUserKeepsTags(tree: Tree, db: Db, uid: Id)
    requires RecipeTagsResolve(db)
    ensures RecipeTagsResolve(DeleteUser(tree, db, uid))
  {
    var r := DeleteUser(tree, db, uid);
    forall x, t | x in r.recipes && t in x.tags ensures HasTag(r, t) {
      if tree == Foodgram {
        var i :| 0 <= i < |r.recipes| && r.recipes[i] == x;
        assert db.recipes[i] in db.recipes;
        assert HasTag(db, t);
      } else {
        assert HasTag(db, t);
      }
      var g :| g in db.tags && g.id == t;
      assert g in r.tags;
    }
  }

  lemma BackendDeleteUserResolves(db: Db, uid: Id)
    requires AuthorsResolve(db) && AmountKeysResolve(db) && LinkKeysResolve(db)
    ensures AuthorsResolve(DeleteUser(Backend, db, uid))
    ensures AmountKeysResolve(DeleteUser(Backend, db, uid))
    ensures LinkKeysResolve(DeleteUser(Backend, db, uid))
  {
    var r := DeleteUser(Backend, db, uid);
    forall x | x in r.recipes && x.author.Some? ensures HasUser(r, x.author.value) {
      var u :| u in db.users && u.id == x.author.value;
      assert u in r.users;
    }
    forall a | a in r.amounts ensures HasRecipe(r, a.recipe) && HasIngredient(r, a.ingredient) {
      var x :| x in db.recipes && x.id == a.recipe;
      assert x in r.recipes;
      var g :| g in db.ingredients && g.id == a.ingredient;
      assert g in r.ingredients;
    }
    forall l | l in r.links ensures LinkResolves(r, l) {
      var u :| u in db.users && u.id == l.user;
      assert u in r.users;
      if l.kind == Subscription {
        var v :| v in db.users && v.id == l.target;
        assert v in r.users;
      } else {
        var x :| x in db.recipes && x.id == l.target;
        assert x in r.recipes;
      }
    }
  }

  lemma FoodgramDeleteUserResolves(db: Db, uid: Id)
    requires AuthorsResolve(db) && AmountKeysResolve(db) && LinkKeysResolve(db)
    ensures AuthorsResolve(DeleteUser(Foodgram, db, uid))
    ensures AmountKeysResolve(DeleteUser(Foodgram, db, uid))
    ensures LinkKeysResolve(DeleteUser(Foodgram, db, uid))
  {
    FoodgramAuthorsResolve(db, uid);
    FoodgramAmountsResolve(db, uid);
    FoodgramLinksResolve(db, uid);
  }

  /** A recipe of the table keeps its id, at the same place, after a
      `foodgram` user delete. */
  lemma FoodgramKeepsRecipe(db: Db, uid: Id, x: Recipe)
    requires x in db.recipes
    ensures HasRecipe(DeleteUser(Foodgram, db, uid), x.id)
  {
    var r := DeleteUser(Foodgram, db, uid);
    var i :| 0 <= i < |db.recipes| && db.recipes[i] == x;
    assert r.recipes[i] in r.recipes;
  }

  lemma FoodgramAuthorsResolve(db: Db, uid: Id)
    requires AuthorsResolve(db)
    ensures AuthorsResolve(DeleteUser(Foodgram, db, uid))
  {
    var r := DeleteUser(Foodgram, db, uid);
    forall x | x in r.recipes && x.author.Some? ensures HasUser(r, x.author.value) {
      var i :| 0 <= i < |r.recipes| && r.recipes[i] == x;
      assert db.recipes[i] in db.recipes;
      var u :| u in db.users && u.id == x.author.value;
      assert u in r.users;
    }
  }

  lemma FoodgramAmountsResolve(db: Db, uid: Id)
    requires AmountKeysResolve(db)
    ensures AmountKeysResolve(DeleteUser(Foodgram, db, uid))
  {
    var r := DeleteUser(Foodgram, db, uid);
    forall a | a in r.amounts ensures HasRecipe(r, a.recipe) && HasIngredient(r, a.ingredient) {
      var x :| x in db.recipes && x.id == a.recipe;
      FoodgramKeepsRecipe(db, uid, x);
      var g :| g in db.ingredients && g.id == a.ingredient;
      assert g in r.ingredients;
    }
  }

  lemma FoodgramLinksResolve(db: Db, uid: Id)
    requires LinkKeysResolve(db)
    ensures LinkKeysResolve(DeleteUser(Foodgram, db, uid))
  {
    var r := DeleteUser(Foodgram, db, uid);
    forall l | l in r.links ensures LinkResolves(r, l) {
      var u :| u in db.users && u.id == l.user;
      assert u in r.users;
      if l.kind == Subscription {
        var v :| v in db.users && v.id == l.target;
        assert v in r.users;
      } else {
        var x :| x in db.recipes && x.id == l.target;
        FoodgramKeepsRecipe(db, uid, x);
      }
    }
  }
}
