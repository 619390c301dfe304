/** The entities of the recipe service (the rows of its tables) and the error
    outcomes its operations raise. The database is a set of such values. */
module Domain {
  import opened Wrappers

  /** Primary keys. */
  type Id = nat

  /** A row of `Ingredient`. */
  datatype Ingredient = Ingredient(id: Id, name: string, unit: string)

  /** A row of `Tag`. */
  datatype Tag = Tag(id: Id, name: string, color: string, slug: string)

  /** A row of `Recipe` with its tag set. `author` is nullable because one
      tree sets it to null when the author is deleted. */
  datatype Recipe = Recipe(id: Id, name: string, author: Option<Id>, tags: set<Id>, text: string, cookingTime: int)

  /** A row of `AmountIngredient`: how much of an ingredient a recipe uses. */
  datatype AmountRow = AmountRow(recipe: Id, ingredient: Id, amount: int)

  /** A row of `CustomUser`. */
  datatype User = User(id: Id, username: string, email: string, firstName: string, lastName: string,
                       isActive: bool, isSuperuser: bool)

  /** `request.user`: the anonymous user, or a signed-in one. */
  datatype Viewer = Anonymous | Authenticated(user: User)

  /** The join tables the relation toggle works on. */
  datatype RelationKind = Favourite | ShoppingCart | Subscription

  /** A row of `Favourites` or `ShoppingCart` (target is a recipe) or of
      `Subscriptions` (target is the author followed). */
  datatype Link = Link(kind: RelationKind, user: Id, target: Id)

  /** The targets `user` has a `kind` link to: their favourite recipes, the
      recipes in their cart, or the authors they follow. */
  function Related(store: seq<Link>, kind: RelationKind, user: Id): set<Id> {
    set l | l in store && l.kind == kind && l.user == user :: l.target
  }

  /** The tables of the database. */
  datatype Db = Db(users: seq<User>, ingredients: seq<Ingredient>, tags: seq<Tag>, recipes: seq<Recipe>,
                   amounts: seq<AmountRow>, links: seq<Link>)

  /** The two source trees whose schemas and rules disagree. */
  datatype Tree = Backend | Foodgram

  /** The `ValidationError`s and exceptions the source raises. */
  datatype Error =
    | NoIngredients              // empty or missing ingredient list
    | AmountBelowOne             // some amount <= 0
    | AmountAboveMax             // some amount > 1000
    | DuplicateIngredient        // an ingredient id given twice
    | NoTags                     // empty or missing tag list
    | UnknownTag                 // resolved tag count differs from the ids given
    | ColorLength                // colour code not 3 or 6 characters long
    | ColorNotHex                // colour code with a non-hex character
    | TooShort                   // MinLenValidator failed
    | TooLong                    // a CharField max_length exceeded
    | NotUnique                  // a unique field or unique-together clash
    | DuplicateRecipeName        // the author already has a recipe of this name
    | NotOwner                   // update by someone other than the author
    | AllIngredientsRemoved      // update with an empty ingredient mapping
    | TagsAndIngredientsRequired // validate without both lists
    | NotAPair                   // TypeError: a mapping value is not an (ingredient, amount) pair
    | UnexpectedKeyword          // TypeError: a model built with a keyword it has no field for
    | MissingAttribute           // AttributeError on a missing attribute or on None
    | NegativeSlice              // queryset sliced with a negative bound
    | FieldRequired              // formset row without an ingredient
    | NeedOneIngredient          // formset with no remaining row

  /** The HTTP status codes the views answer with. */
  datatype Status = Created | NoContent | BadRequest | NotFound | ServerError
}
