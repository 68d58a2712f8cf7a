/** Who may do what: the `IsOwnerOrReadOnly` permission and the choice of
    permission per action of the recipe view set. */
module Access {
  import opened Common

  /** A row the owner check inspects: it may have an `author`, a `user`, both or neither. */
  datatype Owned = Owned(author: Option<nat>, user: Option<nat>)

  /** `getattr(obj, 'author', None) or getattr(obj, 'user', None)`. */
  function Owner(obj: Owned): Option<nat> {
    if obj.author.Some? then obj.author else obj.user
  }

  /** `IsOwnerOrReadOnly.has_permission`. */
  predicate HasPermission(verb: Method, viewer: Viewer) {
    viewer.User? || IsSafe(verb)
  }

  /** `IsOwnerOrReadOnly.has_object_permission`: `owner == request.user`. The
      anonymous user equals no owner, and a missing owner equals no user. */
  predicate HasObjectPermission(verb: Method, viewer: Viewer, obj: Owned) {
    if IsSafe(verb) then true
    else match Owner(obj)
      case None => false
      case Some(owner) => viewer == User(owner)
  }

  /** Read-only methods pass the object check for everybody. */
  lemma SafeMethodsAlwaysAllowed(verb: Method, viewer: Viewer, obj: Owned)
    requires IsSafe(verb)
    ensures HasObjectPermission(verb, viewer, obj)
  {
  }

  /** For a writing method the owner is the author, else the user, and access is
      granted exactly to that owner; with neither field every write is refused. */
  lemma WriteNeedsOwner(verb: Method, viewer: Viewer, obj: Owned)
    requires !IsSafe(verb)
    ensures HasObjectPermission(verb, viewer, obj) <==>
              (obj.author.Some? && viewer == User(obj.author.value)) ||
              (obj.author.None? && obj.user.Some? && viewer == User(obj.user.value))
    ensures obj.author.None? && obj.user.None? ==> !HasObjectPermission(verb, viewer, obj)
    ensures viewer == Anonymous ==> !HasObjectPermission(verb, viewer, obj)
  {
  }

  /** At view level the anonymous user may only read; an authenticated user may do anything. */
  lemma ViewLevelAccess(verb: Method, viewer: Viewer)
    ensures viewer == Anonymous ==> (HasPermission(verb, viewer) <==> IsSafe(verb))
    ensures viewer.User? ==> HasPermission(verb, viewer)
  {
  }

  /** The actions of the recipe view set. */
  datatype Action = List | Retrieve | Create | Update | PartialUpdate | Destroy
                  | Favorite | ShoppingCart | DownloadShoppingCart | GetLink

  datatype Permission = AllowAny | IsAuthenticated | IsOwnerOrReadOnly

  /** `RecipesViewSet.get_permissions`; the fallback is the project-wide default,
      `IsAuthenticated` (the extra actions declare that same class). */
  function RecipePermission(action: Action): Permission {
    match action
    case List | Retrieve | GetLink => AllowAny
    case Update | PartialUpdate | Destroy => IsOwnerOrReadOnly
    case _ => IsAuthenticated
  }

  /** The actions that look their recipe up through `get_object`, which runs
      the object-level check; the others use a plain lookup or none. */
  predicate ChecksObject(action: Action) {
    action == Retrieve || action == Update || action == PartialUpdate || action == Destroy
  }

  /** Whether a request passes the permission of its action, for a recipe with
      the given author (object-level checks only where the action runs them). */
  predicate Allowed(action: Action, verb: Method, viewer: Viewer, author: nat) {
    match RecipePermission(action)
    case AllowAny => true
    case IsAuthenticated => viewer.User?
    case IsOwnerOrReadOnly =>
      HasPermission(verb, viewer) &&
      (!ChecksObject(action) || HasObjectPermission(verb, viewer, Owned(Some(author), None)))
  }

  /** list, retrieve and get-link need no authentication; update, partial
      update and destroy with a writing method are open to the recipe's author
      only; every other action needs an authenticated user. */
  lemma RecipeActionAccess(action: Action, verb: Method, viewer: Viewer, author: nat)
    ensures action in {List, Retrieve, GetLink} ==> Allowed(action, verb, viewer, author)
    ensures action in {Update, PartialUpdate, Destroy} && !IsSafe(verb) ==>
              (Allowed(action, verb, viewer, author) <==> viewer == User(author))
    ensures action in {Create, Favorite, ShoppingCart, DownloadShoppingCart} ==>
              (Allowed(action, verb, viewer, author) <==> viewer.User?)
  {
  }
}
