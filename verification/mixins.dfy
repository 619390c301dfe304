/** The relation toggle of `CreateDeleteViewMixin`: adding and removing a
    favourite, a cart entry or a subscription. The link tables are one store
    of rows in insertion order; the kind of a row replaces the mixin's
    `link_model` attribute. */
module Mixins {
  import opened Domain
  import Seqs
  import RM = RecipeModels
  import UM = UserModels

  /** A response status and the store after the call. */
  datatype Outcome = Outcome(status: Status, store: seq<Link>)

  /** The constraints of every link table: favourites and cart rows are
      unique, subscriptions obey the tree's schema `s`. */
  predicate LinksOk(s: UM.SubscriptionSchema, store: seq<Link>) {
    Seqs.Pairwise(store, RM.RecipeLinksDiffer) && UM.SubscriptionsOk(s, store)
  }

  /** Saving row `l` raises `IntegrityError`. */
  predicate Rejected(s: UM.SubscriptionSchema, store: seq<Link>, l: Link) {
    if l.kind == Subscription then UM.SubscriptionRejected(s, store, l) else l in store
  }

  /** The shared shape of both creates: 404 when the target is not in the
      view's queryset, 400 when the row violates a constraint, otherwise the
      row is saved and 201 returned. */
  function Insert(s: UM.SubscriptionSchema, store: seq<Link>, l: Link, targetExists: bool): (r: Outcome)
    ensures !targetExists ==> r == Outcome(NotFound, store)
    ensures targetExists && Rejected(s, store, l) ==> r == Outcome(BadRequest, store)
    ensures targetExists && !Rejected(s, store, l) ==> r == Outcome(Created, store + [l])
  {
    if !targetExists then Outcome(NotFound, store)
    else if Rejected(s, store, l) then Outcome(BadRequest, store)
    else Outcome(Created, store + [l])
  }

  /** `create_relation_recipe(obj_id)`: a favourite or cart row for the
      acting user and recipe `target`; `recipes` are the ids the view's
      queryset holds. */
  function CreateRelationRecipe(store: seq<Link>, kind: RelationKind, user: Id, target: Id, recipes: set<Id>)
    : (r: Outcome)
    requires kind != Subscription
    ensures target !in recipes ==> r == Outcome(NotFound, store)
    ensures target in recipes && Link(kind, user, target) in store ==> r == Outcome(BadRequest, store)
    ensures r.status == Created <==> target in recipes && Link(kind, user, target) !in store
    ensures r.status == Created ==> r.store == store + [Link(kind, user, target)]
  {
    Insert(UM.BackendSubscriptions, store, Link(kind, user, target), target in recipes)
  }

  /** `create_relation_user(obj_id)`: a subscription of the acting user to
      author `target`, under subscription schema `s`. */
  function CreateRelationUser(s: UM.SubscriptionSchema, store: seq<Link>, user: Id, target: Id, users: set<Id>)
    : (r: Outcome)
    ensures target !in users ==> r == Outcome(NotFound, store)
    ensures target in users && UM.SubscriptionRejected(s, store, Link(Subscription, user, target)) ==>
              r == Outcome(BadRequest, store)
    ensures r.status == Created <==>
              target in users && !UM.SubscriptionRejected(s, store, Link(Subscription, user, target))
    ensures r.status == Created ==> r.store == store + [Link(Subscription, user, target)]
    ensures r.status != Created ==> r.store == store
  {
    Insert(s, store, Link(Subscription, user, target), target in users)
  }

  /** The position of the first occurrence of `l`, or `|store|`. */
  function FirstIndex(store: seq<Link>, l: Link): (i: nat)
    ensures i <= |store|
    ensures i < |store| ==> store[i] == l
    ensures forall j :: 0 <= j < i ==> store[j] != l
    ensures i == |store| <==> l !in store
  {
    if store == [] then 0
    else if store[0] == l then 0
    else 1 + FirstIndex(store[1..], l)
  }

  /** `delete_relation(q)`: deletes the first row of the acting user that
      matches the filter and answers 204. When no row matches, `.first()`
      gives `None` and calling `.delete()` on it fails, so the call ends in a
      server error with the store unchanged; the 400 branch is unreachable,
      since `delete()` returns a non-empty tuple. */
  function DeleteRelation(store: seq<Link>, kind: RelationKind, user: Id, target: Id): (r: Outcome)
    ensures Link(kind, user, target) !in store ==> r == Outcome(ServerError, store)
    ensures Link(kind, user, target) in store ==> r.status == NoContent
    ensures multiset(r.store) == multiset(store) - multiset{Link(kind, user, target)}
    ensures forall l :: l in store && l != Link(kind, user, target) ==> l in r.store
  {
    var l := Link(kind, user, target);
    var i := FirstIndex(store, l);
    if i == |store| then Outcome(ServerError, store)
    else
      assert store == store[..i] + [store[i]] + store[i + 1..];
      Outcome(NoContent, store[..i] + store[i + 1..])
  }

  /** A delete of a missing row is a server error rather than the 400 the
      view has a branch for. */
  lemma DeleteMissingFails(store: seq<Link>, kind: RelationKind, user: Id, target: Id)
    requires Link(kind, user, target) !in store
    ensures DeleteRelation(store, kind, user, target).status == ServerError
  {
  }

  /** `delete_relation` as its 400 branch says it is meant: a missing row is
      reported as a bad request, anything else is as written. */
  function DeleteRelationIntended(store: seq<Link>, kind: RelationKind, user: Id, target: Id): (r: Outcome)
    ensures Link(kind, user, target) !in store ==> r == Outcome(BadRequest, store)
    ensures Link(kind, user, target) in store ==> r == DeleteRelation(store, kind, user, target)
    ensures r.status == NoContent <==> Link(kind, user, target) in store
  {
    if Link(kind, user, target) in store then DeleteRelation(store, kind, user, target)
    else Outcome(BadRequest, store)
  }

  /** Only the acting user's row of that kind and target goes: the rows of
      every other user keep their number of copies. */
  lemma DeleteTouchesOnlyOwnRow(store: seq<Link>, kind: RelationKind, user: Id, target: Id, l: Link)
    requires l != Link(kind, user, target)
    ensures multiset(DeleteRelation(store, kind, user, target).store)[l] == multiset(store)[l]
  {
  }

  /** Creating keeps every constraint of the link tables. */
  lemma InsertPreserves(s: UM.SubscriptionSchema, store: seq<Link>, l: Link, targetExists: bool)
    requires LinksOk(s, store)
    ensures LinksOk(s, Insert(s, store, l, targetExists).store)
  {
    var r := Insert(s, store, l, targetExists);
    if r.status == Created {
      assert l.kind != Subscription || s.unique ==> l !in store;
      forall i, j | 0 <= i < j < |r.store| ensures RM.RecipeLinksDiffer(r.store[i], r.store[j]) {
        assert r.store[i] == store[i];
        if j < |store| {
          assert r.store[j] == store[j];
        } else {
          assert store[i] in store;
        }
      }
      if s.unique {
        forall i, j | 0 <= i < j < |r.store| ensures UM.SubscriptionsDiffer(r.store[i], r.store[j]) {
          assert r.store[i] == store[i];
          if j < |store| {
            assert r.store[j] == store[j];
          } else {
            assert store[i] in store;
          }
        }
      }
    }
  }

  /** Deleting keeps every constraint of the link tables. */
  lemma DeletePreserves(s: UM.SubscriptionSchema, store: seq<Link>, kind: RelationKind, user: Id, target: Id)
    requires LinksOk(s, store)
    ensures LinksOk(s, DeleteRelation(store, kind, user, target).store)
  {
    var i := FirstIndex(store, Link(kind, user, target));
    if i < |store| {
      Seqs.RemovePairwise(store, i, RM.RecipeLinksDiffer);
      if s.unique {
        Seqs.RemovePairwise(store, i, UM.SubscriptionsDiffer);
      }
      var r := DeleteRelation(store, kind, user, target).store;
      assert forall l :: l in r ==> l in multiset(r);
    }
  }

  /** A create answers 201 exactly when the target now shows among the
      user's related targets, and adds nothing else to what anyone relates
      to. */
  lemma CreateAddsTarget(s: UM.SubscriptionSchema, store: seq<Link>, l: Link, targetExists: bool,
                         kind: RelationKind, user: Id)
    requires Insert(s, store, l, targetExists).status == Created
    ensures Related(Insert(s, store, l, targetExists).store, kind, user) ==
            Related(store, kind, user) + (if kind == l.kind && user == l.user then {l.target} else {})
  {
    var r := Insert(s, store, l, targetExists).store;
    assert forall x :: x in r <==> x in store || x == l;
  }

  /** On a fresh pair, creating then deleting gives back the original store,
      row for row. */
  lemma CreateDeleteRoundTrip(s: UM.SubscriptionSchema, store: seq<Link>, l: Link, targetExists: bool)
    requires l !in store
    requires Insert(s, store, l, targetExists).status == Created
    ensures DeleteRelation(Insert(s, store, l, targetExists).store, l.kind, l.user, l.target)
            == Outcome(NoContent, store)
  {
    var r := store + [l];
    assert FirstIndex(r, l) == |store| by {
      assert forall j :: 0 <= j < |store| ==> r[j] == store[j];
    }
    assert r[..|store|] == store;
  }

  /** On any pair, even one a subscription table without a unique
      constraint already holds, creating then deleting restores the store's
      rows up to order. */
  lemma CreateDeleteRestoresRows(s: UM.SubscriptionSchema, store: seq<Link>, l: Link, targetExists: bool)
    requires Insert(s, store, l, targetExists).status == Created
    ensures multiset(DeleteRelation(Insert(s, store, l, targetExists).store, l.kind, l.user, l.target).store)
            == multiset(store)
  {
  }

  /** Where the table has a unique constraint, a delete leaves the target
      out of the user's related targets: the toggle is really off. */
  lemma DeleteRemovesTarget(s: UM.SubscriptionSchema, store: seq<Link>, kind: RelationKind, user: Id, target: Id)
    requires LinksOk(s, store)
    requires kind != Subscription || s.unique
    ensures target !in Related(DeleteRelation(store, kind, user, target).store, kind, user)
  {
    var l := Link(kind, user, target);
    var i := FirstIndex(store, l);
    if i < |store| {
      var r := DeleteRelation(store, kind, user, target).store;
      assert r == store[..i] + store[i + 1..];
      forall j | 0 <= j < |r| ensures r[j] != l {
        if j < i {
          assert r[j] == store[j];
        } else {
          assert r[j] == store[j + 1];
          if kind == Subscription {
            assert UM.SubscriptionsDiffer(store[i], store[j + 1]);
          } else {
            assert RM.RecipeLinksDiffer(store[i], store[j + 1]);
          }
        }
      }
    }
  }
}
