/** The permission classes of `api/permissions.py`: a view-level gate that
    lets anyone read and only active signed-in users write, and two
    object-level checks built on it. */
module Permissions {
  import opened Wrappers
  import opened Domain

  /** The HTTP methods the views serve. */
  datatype Method = Get | Head | Options | Post | Put | Patch | Delete

  /** `SAFE_METHODS`: the read-only methods. */
  predicate IsSafe(m: Method) {
    m == Get || m == Head || m == Options
  }

  /** `BasePermission.has_permission`: a read, or a signed-in active user. */
  predicate HasPermission(m: Method, viewer: Viewer) {
    IsSafe(m) || (viewer.Authenticated? && viewer.user.isActive)
  }

  /** `AuthorOrReadOnly.has_object_permission` as written: a read, or a
      signed-in user who is the recipe's author. For a signed-in user who
      is not, the check reads `user.superuser`, an attribute the user model
      does not have, and the request fails instead of being answered. */
  function AuthorOrReadOnlyAsWritten(m: Method, viewer: Viewer, obj: Recipe): (r: Result<bool, Error>)
    ensures r.Failure? <==> !IsSafe(m) && viewer.Authenticated? && obj.author != Some(viewer.user.id)
    ensures r.Failure? ==> r.error == MissingAttribute
    ensures r.Success? ==>
              (r.value <==> IsSafe(m) || (viewer.Authenticated? && obj.author == Some(viewer.user.id)))
  {
    if IsSafe(m) then Success(true)
    else if viewer.Anonymous? then Success(false)
    else if obj.author == Some(viewer.user.id) then Success(true)
    else Failure(MissingAttribute)
  }

  /** `AuthorOrReadOnly.has_object_permission` with `is_superuser`, the
      flag the user model defines. It grants a read, or a signed-in author or superuser. */
  predicate AuthorOrReadOnly(m: Method, viewer: Viewer, obj: Recipe) {
    IsSafe(m) || (viewer.Authenticated? && (obj.author == Some(viewer.user.id) || viewer.user.isSuperuser))
  }

  /** Where the check as written answers, it answers as the corrected one;
      it fails exactly for the signed-in non-authors, superusers included,
      whom the corrected check grants or denies by their flag. */
  lemma AuthorCheckAgreesWhereItAnswers(m: Method, viewer: Viewer, obj: Recipe)
    ensures AuthorOrReadOnlyAsWritten(m, viewer, obj).Success? ==>
              AuthorOrReadOnlyAsWritten(m, viewer, obj).value == AuthorOrReadOnly(m, viewer, obj)
    ensures AuthorOrReadOnlyAsWritten(m, viewer, obj).Failure? ==>
              AuthorOrReadOnly(m, viewer, obj) == viewer.user.isSuperuser
  {
  }

  /** A superuser editing someone else's recipe: the check as written fails
      where the corrected one grants. */
  lemma SuperuserEditFails(user: User, obj: Recipe)
    requires user.isSuperuser && obj.author != Some(user.id)
    ensures AuthorOrReadOnlyAsWritten(Put, Authenticated(user), obj) == Failure(MissingAttribute)
    ensures AuthorOrReadOnly(Put, Authenticated(user), obj)
  {
  }

  /** `AdminOrReadOnly.has_object_permission`: a read, or a signed-in
      superuser. */
  predicate AdminOrReadOnly(m: Method, viewer: Viewer) {
    IsSafe(m) || (viewer.Authenticated? && viewer.user.isSuperuser)
  }

  /** A request to a single object passes the view's gate first, then the
      corrected author check: a read, or a signed-in active user who is the
      author or a superuser. */
  function AuthorAccess(m: Method, viewer: Viewer, obj: Recipe): (r: bool)
    ensures IsSafe(m) ==> r
    ensures !IsSafe(m) ==>
              (r <==> viewer.Authenticated? && viewer.user.isActive &&
                      (obj.author == Some(viewer.user.id) || viewer.user.isSuperuser))
  {
    HasPermission(m, viewer) && AuthorOrReadOnly(m, viewer, obj)
  }

  /** The same with the author check as written: a write by a signed-in
      active user who is not the author fails; a viewer the gate stops never
      reaches the check. */
  function AuthorAccessAsWritten(m: Method, viewer: Viewer, obj: Recipe): (r: Result<bool, Error>)
    ensures r.Failure? <==>
              !IsSafe(m) && viewer.Authenticated? && viewer.user.isActive && obj.author != Some(viewer.user.id)
    ensures r.Failure? ==> r.error == MissingAttribute
    ensures r.Success? ==> r.value == AuthorAccess(m, viewer, obj)
  {
    if !HasPermission(m, viewer) then Success(false) else AuthorOrReadOnlyAsWritten(m, viewer, obj)
  }

  /** The gate, then the admin check: a read, or a signed-in active
      superuser. */
  function AdminAccess(m: Method, viewer: Viewer): (r: bool)
    ensures IsSafe(m) ==> r
    ensures !IsSafe(m) ==> (r <==> viewer.Authenticated? && viewer.user.isActive && viewer.user.isSuperuser)
  {
    HasPermission(m, viewer) && AdminOrReadOnly(m, viewer)
  }

  /** Both object checks inherit the active-user gate: a write goes through
      only for a signed-in active user, who must be the author or a
      superuser, or a superuser for the admin check. */
  lemma WritesNeedActiveUser(m: Method, viewer: Viewer, obj: Recipe)
    requires !IsSafe(m)
    ensures AuthorAccess(m, viewer, obj) <==>
              viewer.Authenticated? && viewer.user.isActive &&
              (obj.author == Some(viewer.user.id) || viewer.user.isSuperuser)
    ensures AdminAccess(m, viewer) <==>
              viewer.Authenticated? && viewer.user.isActive && viewer.user.isSuperuser
  {
  }

  /** Reads pass every check, and an anonymous viewer can never write. */
  lemma ReadsPassWritesNeedSignIn(m: Method, viewer: Viewer, obj: Recipe)
    ensures IsSafe(m) ==> AuthorAccess(m, viewer, obj) && AdminAccess(m, viewer)
    ensures !IsSafe(m) && viewer.Anonymous? ==>
              !AuthorAccess(m, viewer, obj) && !AdminAccess(m, viewer) &&
              AuthorOrReadOnlyAsWritten(m, viewer, obj) == Success(false)
  {
  }

  /** An inactive superuser may still read but no longer write. */
  lemma InactiveSuperuserReadsOnly(m: Method, user: User, obj: Recipe)
    requires user.isSuperuser && !user.isActive
    ensures AdminAccess(m, Authenticated(user)) <==> IsSafe(m)
    ensures AuthorAccess(m, Authenticated(user), obj) <==> IsSafe(m)
  {
  }
}
