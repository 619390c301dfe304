/** The schema of the `users` app in both trees: the `CustomUser` field
    rules and unique fields, and the constraints on `Subscriptions`. */
module UserModels {
  import opened Wrappers
  import opened Domain
  import Seqs
  import V = Validators
  import RM = RecipeModels

  const UsernameMinLength := 5
  const UsernameMaxLength := 30
  const FirstNameMaxLength := 30
  const LastNameMaxLength := 50
  const EmailMaxLength := 100

  /** The field bounds of a user row; the username's lower bound is enforced
      twice, by `MinLenValidator` and by a check constraint. */
  predicate UserValid(u: User) {
    && UsernameMinLength <= |u.username| <= UsernameMaxLength
    && |u.firstName| <= FirstNameMaxLength
    && |u.lastName| <= LastNameMaxLength
    && |u.email| <= EmailMaxLength
  }

  /** Primary key, username and email are unique in both trees; the
      `foodgram` tree also makes `first_name` unique. */
  function UsersDiffer(tree: Tree): (User, User) -> bool {
    (a: User, b: User) =>
      && a.id != b.id && a.username != b.username && a.email != b.email
      && (tree == Foodgram ==> a.firstName != b.firstName)
  }

  /** What `Subscriptions` forbids of a (user, author) pair. */
  datatype SelfRule =
    | AnyPair   // no check constraint
    | OnlySelf  // a check constraint `author == user`
    | NoSelf    // a check constraint `author != user`

  datatype SubscriptionSchema = SubscriptionSchema(unique: bool, selfRule: SelfRule)

  /** The `backend` tree: no constraint at all. */
  const BackendSubscriptions := SubscriptionSchema(false, AnyPair)

  /** The `foodgram` tree as written: unique pairs, and a check constraint
      that requires the author to be the user. */
  const FoodgramSubscriptionsAsWritten := SubscriptionSchema(true, OnlySelf)

  /** The `foodgram` tree as its constraint's name says it is meant: unique
      pairs, and no subscription to oneself. */
  const FoodgramSubscriptions := SubscriptionSchema(true, NoSelf)

  predicate SelfRuleAdmits(rule: SelfRule, l: Link) {
    match rule
    case AnyPair => true
    case OnlySelf => l.user == l.target
    case NoSelf => l.user != l.target
  }

  /** (author, user) together, among subscriptions. */
  predicate SubscriptionsDiffer(a: Link, b: Link) {
    a.kind != Subscription || a != b
  }

  /** The subscription rows of `links` obey schema `s`. */
  predicate SubscriptionsOk(s: SubscriptionSchema, links: seq<Link>) {
    && (forall l :: l in links && l.kind == Subscription ==> SelfRuleAdmits(s.selfRule, l))
    && (s.unique ==> Seqs.Pairwise(links, SubscriptionsDiffer))
  }

  /** Every row of the users app's tables obeys its constraints, with the
      subscriptions under schema `s`. */
  predicate UserSchema(tree: Tree, s: SubscriptionSchema, db: Db) {
    && (forall u :: u in db.users ==> UserValid(u))
    && Seqs.Pairwise(db.users, UsersDiffer(tree))
    && SubscriptionsOk(s, db.links)
  }

  /** The constraint `s` would reject a new subscription row `l`. */
  predicate SubscriptionRejected(s: SubscriptionSchema, links: seq<Link>, l: Link)
    requires l.kind == Subscription
  {
    (s.unique && l in links) || !SelfRuleAdmits(s.selfRule, l)
  }

  /** As written, the `foodgram` constraint rejects every subscription to
      another user and admits only subscriptions to oneself. */
  lemma AsWrittenAdmitsOnlySelf(links: seq<Link>, l: Link)
    requires l.kind == Subscription && l !in links
    ensures SubscriptionRejected(FoodgramSubscriptionsAsWritten, links, l) <==> l.user != l.target
  {
  }

  /** The corrected constraint rejects exactly the repeated pairs and the
      subscriptions to oneself. */
  lemma IntendedRejectsSelfAndRepeats(links: seq<Link>, l: Link)
    requires l.kind == Subscription
    ensures SubscriptionRejected(FoodgramSubscriptions, links, l) <==> l in links || l.user == l.target
    ensures !SubscriptionRejected(BackendSubscriptions, links, l)
  {
  }

  /** Creating a user: the username has to pass `MinLenValidator(5)` and
      every field its `max_length`; the unique fields must be new. The new
      row is active and not a superuser. `id` is the fresh primary key the
      database assigns. */
  function CreateUser(tree: Tree, users: seq<User>, id: Id, username: string, email: string,
                      firstName: string, lastName: string): (r: Result<seq<User>, Error>)
    requires forall u :: u in users ==> u.id != id
    ensures r.Success? <==>
              && UserValid(User(id, username, email, firstName, lastName, true, false))
              && forall u :: u in users ==>
                   u.username != username && u.email != email && (tree == Foodgram ==> u.firstName != firstName)
    ensures |username| < UsernameMinLength ==> r == Failure(TooShort)
    ensures r.Failure? ==> r.error in {TooShort, TooLong, NotUnique}
    ensures r.Success? ==> |r.value| == |users| + 1 && r.value[..|users|] == users
    ensures r.Success? ==> var u := r.value[|users|];
              u.id == id && u.username == username && u.email == email && u.isActive && !u.isSuperuser
  {
    var _ :- V.MinLen(UsernameMinLength, username);
    var u := User(id, username, email, firstName, lastName, true, false);
    if !UserValid(u) then Failure(TooLong)
    else if exists v :: v in users && !UsersDiffer(tree)(v, u) then Failure(NotUnique)
    else Success(users + [u])
  }

  /** Creating a user keeps the users table within its constraints. */
  lemma CreateUserPreserves(tree: Tree, users: seq<User>, id: Id, username: string, email: string,
                            firstName: string, lastName: string)
    requires forall u :: u in users ==> u.id != id
    requires (forall u :: u in users ==> UserValid(u)) && Seqs.Pairwise(users, UsersDiffer(tree))
    requires CreateUser(tree, users, id, username, email, firstName, lastName).Success?
    ensures var r := CreateUser(tree, users, id, username, email, firstName, lastName).value;
            (forall u :: u in r ==> UserValid(u)) && Seqs.Pairwise(r, UsersDiffer(tree))
  {
    var r := CreateUser(tree, users, id, username, email, firstName, lastName).value;
    forall i, j | 0 <= i < j < |r| ensures UsersDiffer(tree)(r[i], r[j]) {
      assert r[i] == users[i];
      if j < |users| {
        assert r[j] == users[j];
      } else {
        assert users[i] in users;
      }
    }
  }

  /** Deleting a user keeps the users app's constraints under any
      subscription schema: the `foodgram` tree's declared one as well as
      the intended one. */
  lemma DeleteUserPreserves(tree: Tree, s: SubscriptionSchema, db: Db, uid: Id)
    requires UserSchema(tree, s, db)
    ensures UserSchema(tree, s, RM.DeleteUser(tree, db, uid))
  {
    var r := RM.DeleteUser(tree, db, uid);
    Seqs.FilterPairwise(db.users, (u: User) => u.id != uid, UsersDiffer(tree));
    if s.unique {
      Seqs.FilterPairwise(db.links, (l: Link) => RM.LinkSurvives(tree, db, uid, l), SubscriptionsDiffer);
    }
  }
}
