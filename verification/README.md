# foodgram domain model

A Dafny model of the domain layer of the foodgram recipe-sharing backend.
The backend is a Django project that exists in two parallel trees:

- `backend/...`, called the `backend` tree below;
- `backend/foodgram/...`, called the `foodgram` tree.

The two trees disagree on several points. In those places the model keeps
them apart, either as separate modules or through a `Tree` parameter
(`Backend | Foodgram`).

The database is an explicit value (`Domain.Db`): a sequence of rows per
table. Only the recipe table follows its model's default ordering: it is
read newest first, as `Meta.ordering = ('-pub_date',)` says. Every other
table (users, ingredient amounts, links) is held in insertion (primary-key)
order, which is what `.first()` sees on the link tables. No modelled result
reads users or amount rows in the order their `Meta.ordering` declares. The
favourite, shopping-cart and subscription tables are one store of
`Link(kind, user, target)` rows. A Python dict is an insertion-ordered list
of pairs (`Dicts.Dict`).

Modules:

- `Validators` and `FoodgramValidators` hold the input validators:
  - the ingredient-list validator;
  - the tag-id validator;
  - the hex colour normaliser;
  - the minimum-length validator.
- `Helpers` and `FoodgramHelpers` cover two jobs:
  - writing amount rows from a validated mapping;
  - building the shopping list, grouped by (name, unit) and summed, then rendered as text.
- `Mixins` holds the create and delete toggles of the relation store.
- `Views` and `FoodgramViews` hold three things:
  - the ingredient search;
  - the recipe list filters;
  - the guard on the shopping-list download.
- `Serializers` and `FoodgramSerializers` hold:
  - the recipe `validate` and `update`;
  - the tag `validate`;
  - the computed `is_subscribed`, `is_favorited`/`is_favourite`, `recipes` and `recipes_count` fields.
- `RecipeModels` and `UserModels` state the schema of each tree:
  - field bounds;
  - unique and check constraints;
  - delete cascades (and `SET_NULL`);
  - that deletes keep every constraint.
- `Permissions` holds the permission classes as predicates.
- `Forms` holds the admin formset's `clean`.
- `Wrappers`, `Seqs`, `Text`, `Dicts` and `Domain` are shared vocabulary:
  - `Result`/`Option`;
  - sequence filters and uniqueness;
  - ASCII and Cyrillic upper-casing;
  - strip, prefix and contains tests;
  - numerals;
  - the entities.

Lowercase text and upper-casing follow `Text.Upper`, which folds ASCII and
the basic Cyrillic alphabet.

## Model

| member | source | states |
|---|---|---|
| Validators.LastAmount | backend/api/validators.py:14-15 | for a repeated id, the mapping keeps the amount of the last entry with that id |
| Validators.CollectAmounts | backend/api/validators.py:14-26 | fails iff some amount is ≤ 0 or > 1000, with the error of the first bad entry; on success the keys are those already present plus the input ids, unique, and each input id carries its last amount |
| Validators.Resolve | backend/api/validators.py:27-35 | keeps the key order; a key found in the catalog gets the (ingredient, amount) pair, and any other key keeps its bare amount |
| Validators.IngredientValidator | backend/api/validators.py:8-37 | a missing or empty list gives `NoIngredients`; otherwise it succeeds iff every amount is in 1..1000; the result's keys are exactly the distinct input ids, each holding its last amount, paired with the ingredient when the catalog has it |
| Validators.MinLen | backend/api/validators.py:56-58 | rejects with `TooShort` iff the value is shorter than the minimum; the `foodgram` copy of the class (backend/foodgram/api/validators.py:31-49) is the same |
| Validators.FoundCard | backend/api/validators.py:66-68 | the number of catalog tags found equals the input length iff the ids are distinct and all known |
| Validators.TagValidator | backend/api/validators.py:61-72 | a missing or empty list gives `NoTags`; otherwise it succeeds iff the ids are distinct and all in the catalog, else `UnknownTag`; the result is the set of given ids |
| Validators.ExpandColor | backend/api/validators.py:85-87 | three digits are each doubled and six are upper-cased; the result is always `#` and six upper-case hex digits |
| Validators.HexColor | backend/api/validators.py:75-87 | succeeds iff the value, with `#` stripped from both ends and upper-cased, has 3 or 6 characters, all hex; a wrong length or a non-hex digit is reported; the result is `#RRGGBB` in upper case, with 3-digit codes doubled |
| Validators.NormalColorFixed | backend/api/validators.py:76-87 | a colour already in normal form is returned unchanged |
| Validators.HexColorIdempotent | backend/api/validators.py:75-87 | normalising a normalised colour gives it back |
| FoodgramValidators.IngredientValidator | backend/foodgram/api/validators.py:11-28 | a missing or empty list is refused; any amount ≤ 0 is refused, with no upper bound; repeated ids are refused; on success the ids come back in input order, one per entry |
| FoodgramValidators.HexColor | backend/foodgram/api/validators.py:66-78 | strips spaces and `#` from both ends; accepts 3 or 6 hex digits in either case; returns upper-case `#RRGGBB`, doubling a 3-digit code |
| FoodgramValidators.HexColorIdempotent | backend/foodgram/api/validators.py:66-78 | normalising a normalised colour gives it back |
| FoodgramValidators.TreesAgreeWithoutSpaces | backend/foodgram/api/validators.py:67 | where stripping spaces changes nothing, the two trees' normalisers give the same answer |
| FoodgramValidators.SpaceOnlyHere | backend/foodgram/api/validators.py:67-70 | a padded three-digit code (`" #abc"`) passes this tree's normaliser and fails the `backend` one |
| FoodgramValidators.LeadingSpaceAccepted | backend/foodgram/api/validators.py:67-78 | this tree accepts a three-digit code behind a leading space |
| FoodgramValidators.LeadingSpaceRejectedByBackend | backend/api/validators.py:76-80 | the `backend` normaliser refuses the same padded code on its length |
| Helpers.CreateAmountIngredient | backend/api/helpers.py:7-18 | succeeds iff every mapping value is an (ingredient, amount) pair, and otherwise fails on unpacking; on success it gives one row per value, in order, each with the given recipe and that entry's ingredient and amount |
| Helpers.ValidatedRowsUnique | backend/api/helpers.py:10-18 | when every id is in the catalog, the rows written from a validated mapping are unique per (recipe, ingredient) |
| Helpers.ValidatedEntries | backend/api/validators.py:27-37 | when every id is in the catalog, each validated value is the pair of that catalog ingredient and the id's last amount |
| Helpers.RowsFromEntries | backend/api/helpers.py:10-18 | a mapping with distinct keys, each holding its own ingredient, gives rows with distinct ingredients |
| Helpers.UnknownIdFailsOnWrite | backend/api/validators.py:27-35 | an id the catalog lacks passes validation but makes the later row write fail |
| Helpers.AddTo | backend/api/helpers.py:26-30 | adds an amount to one (name, unit) group, making a new group at the end when the key is new |
| Helpers.Aggregate | backend/api/helpers.py:26-30 | the groups have distinct (name, unit) keys; a key has a group iff some cart row contributes to it; each group's amount is the sum over the cart rows with that key |
| Helpers.ShopListSums | backend/api/helpers.py:26-30 | each listed group is the sum of its own rows, and every contributing cart row is counted in some group |
| Helpers.ShopListLines | backend/api/helpers.py:21-36 | the header comes first, then one line per group in group order, so there are 1 + groups elements |
| Helpers.LineFields | backend/api/helpers.py:31-35 | a line reads `name: amount unit` |
| Helpers.ShopListShape | backend/api/helpers.py:21-37 | the text starts with the header naming the user and is the header and the lines joined by newlines |
| FoodgramHelpers.CreateAmountIngredientAsWritten | backend/foodgram/api/helpers.py:5-13 | as written: only an empty mapping succeeds, writing nothing; a bare value fails on unpacking and a pair fails on the `ingredients=` keyword |
| FoodgramHelpers.KeywordBreaksEveryWrite | backend/foodgram/api/helpers.py:10 | on a non-empty mapping of pairs, the function as written fails where the intended one writes one row per entry |
| FoodgramHelpers.AgreeWithoutPairs | backend/foodgram/api/helpers.py:7-9 | on an empty mapping, or one whose first value is not a pair, the written and the intended versions agree |
| FoodgramHelpers.GetShoplistIngredients | backend/foodgram/api/helpers.py:16-31 | the same text as the `backend` list: it starts with the header naming the user |
| Mixins.Insert | backend/api/mixins.py:16-22 | a missing target gives not-found; a row the constraints reject gives 400 and no change; otherwise 201 and exactly that row appended |
| Mixins.CreateRelationRecipe | backend/api/mixins.py:14-25 | an unknown recipe gives 404; an existing (user, recipe) pair gives 400 and no change; 201 iff the recipe exists and the pair is new, with exactly that pair added |
| Mixins.CreateRelationUser | backend/api/mixins.py:27-38 | the same for (user, author) rows under the tree's subscription constraints: an unknown author gives 404, a row the constraints reject gives 400 with no change, and otherwise 201 with exactly that row added |
| Mixins.FirstIndex | backend/api/mixins.py:41-43 | `.first()`: the position of the earliest matching row, or the length when none matches |
| Mixins.DeleteRelation | backend/api/mixins.py:40-52 | as written, with no matching row the call errors (500); otherwise 204, and exactly one copy of the acting user's row is removed, every other row kept |
| Mixins.DeleteMissingFails | backend/api/mixins.py:41-45 | a delete with no matching row errors instead of reaching the 400 branch |
| Mixins.DeleteRelationIntended | backend/api/mixins.py:46-52 | as intended: 400 with no change when there is no matching row, otherwise the same delete; 204 iff the row exists |
| Mixins.DeleteTouchesOnlyOwnRow | backend/api/mixins.py:41-45 | a delete leaves the count of every other row, other users' included, unchanged |
| Mixins.InsertPreserves | backend/api/mixins.py:16-22 | a create keeps the uniqueness and self-subscription rules of the store |
| Mixins.DeletePreserves | backend/api/mixins.py:41-45 | a delete keeps those rules |
| Mixins.CreateAddsTarget | backend/api/mixins.py:17-25 | after a successful create, the user's related targets are the old ones plus the new target |
| Mixins.CreateDeleteRoundTrip | backend/api/mixins.py:14-52 | create then delete of a fresh pair gives 204 and restores the original store |
| Mixins.CreateDeleteRestoresRows | backend/api/mixins.py:14-52 | create then delete restores the store's rows as a multiset, even for a pair already present |
| Mixins.DeleteRemovesTarget | backend/api/mixins.py:40-52 | where the pair is unique, the target is no longer related to the user after a delete |
| Views.Names | backend/foodgram/api/views.py:62 | the names of a list of ingredients, in order |
| Views.SearchIngredients | backend/api/views.py:65-77 | with no name, or an empty one, the whole catalog; otherwise only catalog ingredients whose name contains the query, case ignored |
| Views.ExcludedNames | backend/api/views.py:72-76 | a catalog ingredient's name is among the prefix-match names iff it starts with the query, case ignored |
| Views.OtherMatchesContainOnly | backend/api/views.py:74-76 | the second group holds exactly the ingredients that contain the query without starting with it |
| Views.SearchPrefixFirst | backend/api/views.py:72-77 | every prefix match comes first and every later one only contains the query; no ingredient is in both groups |
| Views.SearchIsContainsFilter | backend/api/views.py:69-77 | as a multiset, the answer is exactly the catalog's contains-matches |
| Views.RecipeQueryset | backend/api/views.py:87-110 | a recipe is listed iff it is in the table and passes every filter switched on; an anonymous viewer gets only the tags and author filters |
| Views.QuerysetDistinct | backend/api/views.py:91-92 | the listed recipes are distinct when the table's rows are |
| Views.AnonymousSkipsLinkFilters | backend/api/views.py:98-99 | for an anonymous viewer the cart and favourite parameters change nothing |
| Views.LinkFiltersIntersect | backend/api/views.py:101-110 | with both link filters on, a signed-in user gets exactly the intersection of the two single-filter lists |
| Views.DownloadShoppingCart | backend/api/views.py:147-158 | 400 iff the user has no cart row; otherwise an attachment named after the user that carries the shopping-list text |
| Views.FilenameNamesUser | backend/api/views.py:152 | the filename is `<username>_id<id>_shoplist.txt` |
| FoodgramViews.SearchIngredients | backend/foodgram/api/views.py:56-62 | with no name, or an empty one, all ingredients; otherwise exactly the names of the case-ignoring prefix matches, no more of them than catalog rows |
| FoodgramViews.NamesOfBackendPrefixGroup | backend/foodgram/api/views.py:61-62 | the names listed are those of the first group of the `backend` search, in order |
| FoodgramViews.RecipeQueryset | backend/foodgram/api/views.py:72-90 | an anonymous viewer gets every recipe; a signed-in one gets the recipes passing the tags, author, cart and `is_favourite` filters |
| FoodgramViews.QuerysetDistinct | backend/foodgram/api/views.py:77-78 | the listed recipes are distinct when the table's rows are |
| FoodgramViews.SignedInMatchesBackend | backend/foodgram/api/views.py:87-89 | for a signed-in user the list equals the `backend` one once `is_favourite` is renamed `is_favorited` |
| FoodgramViews.AnonymousSeesBackendList | backend/foodgram/api/views.py:75-76 | an anonymous viewer sees everything the `backend` tree lists for them, and also the recipes an author filter would drop |
| FoodgramViews.GetShoppingCartTxt | backend/foodgram/api/views.py:120-130 | 400 iff the cart is empty; otherwise the file `<username>_id<id>_shoplist.txt`, the same as the `backend` download |
| Serializers.Validate | backend/api/serializers.py:202-227 | a POST that reuses one of the user's recipe names is refused with the duplicate-name error; otherwise the tag validator's error, then the ingredient validator's error, is returned, and success carries both validators' results, the request's name and the user as author |
| Serializers.OnlyPostChecksName | backend/api/serializers.py:208-211 | a request other than POST is judged without looking at existing recipes |
| Serializers.PostKeepsNameUnique | backend/api/serializers.py:208-215 | a recipe made from POST-validated data keeps (name, author) unique among existing recipes |
| Serializers.ApplyFields | backend/api/serializers.py:247-249 | each field sent replaces the recipe's value; fields not sent, and the id, tags and author, stay |
| Serializers.UpdateWith | backend/api/serializers.py:237-262 | `backend` refuses another author; every field sent is set; a non-empty tag set replaces the tags; empty ingredients are refused by `backend`, with the tags already written and nothing else saved, and ignored by `foodgram`; a non-empty mapping succeeds iff the row write does, with the recipe's own rows replaced by the new ones, and a failed write leaves the recipe's rows cleared, its tags replaced and the helper's error; other recipes' rows never change |
| Serializers.Update | backend/foodgram/api/serializers.py:142-155 | the `backend` update is the intended one; the `foodgram` one matches it on empty ingredients, and on any non-empty mapping fails with the helper's unpacking or keyword error, leaving the recipe's rows cleared and its tags replaced |
| Serializers.UpdateIntended | backend/api/serializers.py:251-259 | a permitted update with a non-empty mapping succeeds iff every value is an (ingredient, amount) pair, and then the table is the other recipes' rows followed by one row per entry, in order, with that entry's ingredient and amount; an author other than the user is refused |
| Serializers.RowsAfter | backend/api/serializers.py:258-259 | a successful write leaves the other recipes' rows first, then exactly one row per entry, in order |
| Serializers.FoodgramUpdateLosesRows | backend/foodgram/api/serializers.py:151-153 | with a non-empty mapping of pairs, the `foodgram` update clears the recipe's rows and fails on the keyword, where the intended update writes one row per entry |
| Serializers.UpdateStoresAboveFieldMax | backend/api/helpers.py:7-18 | one validated entry with an amount of 41 to 1000 is written by a successful `backend` update into the amount table, whose field bound is 40 |
| Serializers.OtherRowsIdempotent | backend/api/serializers.py:258 | clearing the recipe's rows twice is clearing them once |
| Serializers.OtherRowsAppendOwn | backend/api/serializers.py:258-259 | rows of the recipe added after the clear do not change the other recipes' rows |
| Serializers.OwnerCheckNeverFires | backend/api/serializers.py:223-245 | on data `validate` produced, the ownership check compares the user with itself and never fires |
| Serializers.UpdateKeepsAmountsUnique | backend/api/serializers.py:253-259 | whatever its outcome, an update keeps (recipe, ingredient) unique when the rows the helper would write are unique |
| Serializers.AppendOwnRowsPairwise | backend/recipes/models.py:174-180 | other recipes' unique rows plus the recipe's own unique rows stay unique |
| Serializers.GetIsSubscribed | backend/api/serializers.py:46-50 | false for an anonymous viewer; otherwise true iff the viewer has a subscription row to `obj` |
| Serializers.SubscribeShows | backend/api/serializers.py:46-50 | after a successful subscribe the field reads true |
| Serializers.UnsubscribeClears | backend/api/serializers.py:46-50 | with unique subscriptions, after an unsubscribe the field reads false |
| Serializers.RepeatedSubscriptionSurvives | backend/users/models.py:71-92 | without a unique constraint a doubled subscription survives one unsubscribe |
| Serializers.GetRecipesCount | backend/api/serializers.py:110-111 | the number of the author's recipes, 0 iff they have none |
| Serializers.GetRecipes | backend/api/serializers.py:98-105 | the author's recipes in the recipe table's order, newest first; with a limit, the first (newest) `limit` of them; a negative limit is refused |
| FoodgramSerializers.Validate | backend/foodgram/api/serializers.py:175-191 | refused unless tags and ingredients are both non-empty; then a tag error or a bad ingredient list is refused; success carries the tag set, the ingredient ids and the user as author |
| FoodgramSerializers.UpdatePolicies | backend/foodgram/api/serializers.py:142-155 | no ownership check; empty ingredients are ignored, so the update saves and leaves the rows; an empty tag set leaves the tags and a non-empty one replaces them |
| FoodgramSerializers.TreesDifferOnEmptyIngredients | backend/foodgram/api/serializers.py:151-153 | on one request with empty ingredients, `backend` errors and `foodgram` saves; the rows and the tags end the same |
| FoodgramSerializers.CleanValue | backend/foodgram/api/serializers.py:95 | the value is the upper-cased window of the input whose outside is only spaces and `#`, and it neither starts nor ends with either |
| FoodgramSerializers.StrippedWindow | backend/foodgram/api/serializers.py:95 | `strip(' #')` keeps such a window |
| FoodgramSerializers.TagValidate | backend/foodgram/api/serializers.py:93-96 | the same keys; every value is its input with spaces and `#` stripped from both ends and upper-cased, so it neither starts nor ends with either |
| FoodgramSerializers.TagValidateIdempotent | backend/foodgram/api/serializers.py:93-96 | validating validated data changes nothing |
| FoodgramSerializers.TagColorLosesHash | backend/foodgram/api/serializers.py:95 | a six-digit colour comes out as the normal form without its `#`, which is not normal |
| FoodgramSerializers.GetIsSubscribedAsWritten | backend/foodgram/api/serializers.py:43-47 | as written the field is always false |
| FoodgramSerializers.GetIsSubscribed | backend/foodgram/api/serializers.py:43-47 | as meant: false for an anonymous viewer and on one's own profile; otherwise true iff the viewer subscribes to `obj` |
| FoodgramSerializers.SubscribedAgreesWithBackend | backend/foodgram/api/serializers.py:45-47 | under the intended constraint, the corrected field means the `backend` one |
| FoodgramSerializers.SubscribeShowsOnlyWhenCorrected | backend/foodgram/api/serializers.py:47 | after a subscribe, the corrected field reads true and the written one false |
| FoodgramSerializers.GetIsFavouriteAsWritten | backend/foodgram/api/serializers.py:163-167 | as written: a signed-in viewer always gets false, and an anonymous one errors on the missing attribute |
| FoodgramSerializers.GetIsFavourite | backend/api/serializers.py:190-194 | as meant: false when anonymous, otherwise true iff the recipe is among the viewer's favourites |
| FoodgramSerializers.FavouriteShowsOnlyWhenCorrected | backend/foodgram/api/serializers.py:165-166 | after a favourite is added, the corrected field reads true and the written one false |
| RecipeModels.NormalColorFitsField | backend/recipes/models.py:46-57 | a normalised code matches the colour field's pattern and length in either tree |
| RecipeModels.CleanColor | backend/recipes/models.py:72-74 | fails iff the tree's normaliser fails, with its length or hex error; otherwise the tag with its colour replaced by the normaliser's result, a normal code the field accepts, and every other field kept |
| RecipeModels.CleanColorIdempotent | backend/foodgram/recipes/models.py:65-67 | cleaning a cleaned tag changes nothing |
| RecipeModels.ValidatorAdmitsAboveFieldMax | backend/recipes/models.py:156-168 | amounts 41 to 1000 pass the request validator but break the field's bound of 40 |
| RecipeModels.DeleteRecipe | backend/recipes/models.py:143-238 | deleting a recipe removes it with its amount, cart and favourite rows; every other row stays |
| RecipeModels.DeleteRecipePreserves | backend/recipes/models.py:15-254 | a recipe delete keeps every field rule and unique constraint and leaves no dangling key |
| RecipeModels.DeleteUser | backend/recipes/models.py:92-99 | deleting a user removes their row, cart, favourite and subscription rows; `backend` also deletes their recipes and those recipes' rows; `foodgram` keeps the recipes with a null author |
| RecipeModels.OrphanPairwise | backend/foodgram/recipes/models.py:115-120 | setting authors to null keeps (name, author) unique |
| RecipeModels.DeleteUserPreserves | backend/recipes/models.py:15-254 | a user delete keeps every constraint of the recipes app and leaves no dangling key |
| RecipeModels.DeleteUserKeepsTags | backend/recipes/models.py:100-104 | every tag a remaining recipe names still exists |
| RecipeModels.BackendDeleteUserResolves | backend/recipes/models.py:202-244 | after a `backend` user delete every author, amount and link key resolves |
| RecipeModels.FoodgramDeleteUserResolves | backend/foodgram/recipes/models.py:85-91 | after a `foodgram` user delete every key resolves, with null authors left |
| UserModels.CreateUser | backend/users/models.py:12-65 | succeeds iff the username has at least 5 characters, every field fits its bound, and username and email (and in `foodgram` the first name) are new; a short name gives `TooShort`; the new row is appended, active and no superuser |
| UserModels.CreateUserPreserves | backend/foodgram/users/models.py:11-44 | creating a user keeps the field bounds and unique fields of the table |
| UserModels.AsWrittenAdmitsOnlySelf | backend/foodgram/users/models.py:93-97 | as written the check constraint rejects a new subscription iff it is not to oneself |
| UserModels.IntendedRejectsSelfAndRepeats | backend/foodgram/users/models.py:93-101 | as meant it rejects exactly a repeated pair or one to oneself; the `backend` table rejects nothing |
| UserModels.DeleteUserPreserves | backend/foodgram/users/models.py:85-101 | a user delete keeps the users app's field bounds, unique fields and subscription constraints under any subscription schema: the `backend` one, the `foodgram` check `author == user` as declared, and the intended one |
| Permissions.AuthorOrReadOnlyAsWritten | backend/api/permissions.py:13-19 | as written: unsafe requests by a signed-in non-author error on `superuser`; otherwise it grants iff the method is safe or the user is the author |
| Permissions.AuthorCheckAgreesWhereItAnswers | backend/api/permissions.py:13-19 | where the written check answers, it answers as the corrected one; where it errors, the corrected one grants iff the user is a superuser |
| Permissions.SuperuserEditFails | backend/api/permissions.py:18 | a superuser editing another's recipe gets an error from the written check and access from the corrected one |
| Permissions.AuthorAccess | backend/api/permissions.py:4-19 | gate then corrected author check: every read passes; a write passes iff the user is signed in, active, and the author or a superuser |
| Permissions.AuthorAccessAsWritten | backend/api/permissions.py:4-19 | gate then the author check as written: it errors exactly on a write by a signed-in active non-author, superusers included; elsewhere it answers as the corrected access |
| Permissions.AdminAccess | backend/api/permissions.py:5-28 | gate then admin check: every read passes; a write passes iff the user is signed in, active and a superuser |
| Permissions.WritesNeedActiveUser | backend/api/permissions.py:5-28 | with the corrected author check, a write is granted iff the user is signed in and active and the author or a superuser, or a superuser for the admin check |
| Permissions.ReadsPassWritesNeedSignIn | backend/api/permissions.py:5-10 | safe methods pass both checks; an anonymous write fails both, and the written author check answers false |
| Permissions.InactiveSuperuserReadsOnly | backend/api/permissions.py:5-28 | an inactive superuser may only read |
| Forms.FormsetClean | backend/recipes/forms.py:13-27 | two kept rows naming the same ingredient are refused first as not unique; otherwise it is accepted iff every row not marked deleted has an ingredient and at least one such row exists, a kept row without an ingredient giving the required-field error and all rows deleted the need-one-ingredient error |

## Left out

- Running the ORM is not modelled: query execution, `get_object_or_404`, `bulk_create` and `IntegrityError`. A table is a sequence of rows, and each constraint check is a predicate over that sequence.
- The ORM lookup paths of `get_shoplist_ingredients` (`recipes__recipe_in_shopping_cart`, `recipe__amount`) do not name the relations the models declare. The model gives the intended group-by-sum over the rows of the user's cart recipes.
- Helpers.Aggregate: the groups come in first-seen order, because the database's grouping order is not specified. The header and the lines are exact.
- Text.Upper folds ASCII and the basic Cyrillic alphabet only. Unicode special casing, such as `ß`, is left out.
- Validators.IngredientValidator: an entry is a record with an integer id and an integer amount. The `int()` conversion of the amount is not modelled: a non-numeric amount raising `ValueError`, a missing key raising `KeyError`, and a fractional one truncated.
- FoodgramValidators.IngredientValidator: the amount is an integer. An entry without an amount, where `get('amount') <= 0` raises `TypeError`, is not modelled.
- Views.RecipeQueryset: the `author` parameter arrives as an id. A non-numeric value, which makes the ORM raise, is not modelled.
- Views.QuerysetDistinct: the tag filter is a filter over the recipe rows, so the duplicate rows the `tags__slug__in` join produces, which `.distinct()` removes, never arise in the model.
- UserModels.CreateUser: the `EmailField` format check and the refusal of a blank first or last name are not modelled. Only lengths, the username minimum and uniqueness are.
- Serializers.UpdateWith: the update is not wrapped in a transaction, and the model follows that. A failed row write leaves the recipe's rows cleared and its tags replaced.
- Serializers.GetRecipes: the limit arrives already parsed (`Option<int>`, with `None` for an absent or empty parameter). A non-numeric `recipes_limit` raising in `int()` is not modelled.
- Images are not modelled: `Recipe.save` thumbnailing and `Base64ImageField` are file I/O through foreign libraries.
- Djoser authentication, password hashing, pagination, content types and the response bodies are not modelled. Only status codes and the downloaded file's name and text are kept.
- Pairing a serializer with a model instance (`add_serializer`) is not modelled.
- `RecipeSerializer.create` in both trees is not part of this model.
- `UserSubscribeSerializer.get_is_subscribed` is not modelled in either tree. The `backend` one answers a constant true. The `foodgram` one has the wrong signature for a method field.
- The `foodgram` `get_recipes_counted` is not modelled: no field looks for that name.
- `TagSerializer.validate_color` in backend/api/serializers.py:126-139 is not modelled. It runs on read-only fields and calls `.get` on a scalar.
- Forms.FormsetClean: a form is reduced to its `DELETE` box and its ingredient. The inherited clean is modelled only through its unique check on (recipe, ingredient) within one recipe's formset; its other per-form errors (an invalid amount, say) are not modelled.
- FoodgramSerializers.TagValidate: the model states the method's own logic. In the source it cannot be reached. `read_only_fields = ('__all__')` at backend/foodgram/api/serializers.py:89 is a string, not a tuple, which Django REST framework refuses with a `TypeError` when it builds the fields. Every field is read-only in any case. `TagViewSet` at backend/foodgram/api/views.py:133 is read-only too. So no stored colour ever loses its `#`, and `TagColorLosesHash` describes the method, not a reachable path.
- FoodgramSerializers.Validate calls this tree's validators with one argument more than they take, and `tag_validator` names a `Tag` imported only for type checking. The model follows each function's own logic: the shared tag validator, then this tree's ingredient validator.
- FoodgramHelpers.CreateAmountIngredientAsWritten takes a mapping of pairs, as the `backend` helper does. This tree's ingredient validator returns a list of ids, so the two do not connect, and the model does not join them.
- The `foodgram` views are not modelled where their wiring breaks:
  - bare `@action` decorators;
  - `create_relation`, which does not exist;
  - `subscribers__user`, which is not a declared relation.

  The toggles are those of `Mixins`.
- `Tag.clean_color` in the `backend` tree is never called by `full_clean`, which calls `clean`. RecipeModels.CleanColor states what it does when called.
- Model-field validators are not run by `bulk_create`, so an amount above 40 is stored. RecipeModels.ValidatorAdmitsAboveFieldMax states the gap.
- Serializers.Validate: a request without `name` is not modelled. `Initial.name` is always a string.
- Racing toggles are not modelled. The store is sequential state.
- Admin configuration, URL routing, the CSV import commands and the migrations are declarative wiring or file I/O.

## Findings

| source | as written | input that shows it | evidently intended | confidence | as-written member | corrected member |
|---|---|---|---|---|---|---|
| backend/api/mixins.py:41-52 | `.first().delete()` runs before the emptiness test, so a missing row raises on `None` | delete of a favourite the user never added | 400 when no row matches | not executed | Mixins.DeleteMissingFails | Mixins.DeleteRelationIntended |
| backend/foodgram/users/models.py:94-97 | the check constraint demands `author == user` | user 1 subscribing to user 2 is rejected | reject self-subscription, as the constraint's message says | not executed | UserModels.AsWrittenAdmitsOnlySelf | UserModels.IntendedRejectsSelfAndRepeats |
| backend/foodgram/api/serializers.py:43-47 | `user.following.filter(author=obj)` looks among subscriptions to the viewer for one to `obj`, and `obj` is not the viewer | a user viewing an author they subscribe to gets false | whether the viewer subscribes to `obj` | not executed | FoodgramSerializers.SubscribeShowsOnlyWhenCorrected | FoodgramSerializers.GetIsSubscribed |
| backend/foodgram/api/serializers.py:163-167 | the anonymous test is inverted | a signed-in user viewing a recipe they favourited gets false | false only for anonymous viewers | not executed | FoodgramSerializers.FavouriteShowsOnlyWhenCorrected | FoodgramSerializers.GetIsFavourite |
| backend/api/permissions.py:17-18 | reads `request.user.superuser`, which the user model does not have | a signed-in non-author sending PUT | `is_superuser` | not executed | Permissions.SuperuserEditFails | Permissions.AuthorOrReadOnly |
| backend/foodgram/api/helpers.py:10 | builds each row with `ingredients=`, which the model has no field for | any non-empty mapping of (ingredient, amount) pairs | the field `ingredient=` | not executed | FoodgramHelpers.KeywordBreaksEveryWrite | Helpers.CreateAmountIngredient |
| backend/foodgram/api/serializers.py:151-153 | clears the recipe's ingredients, then calls the helper that fails on `ingredients=`, so an update that changes the ingredients loses them | an update of a recipe with one amount row that sends one (ingredient, amount) pair | the recipe's rows replaced by the new ones | not executed | Serializers.FoodgramUpdateLosesRows | Serializers.UpdateIntended |
