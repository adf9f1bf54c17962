/** api/permissions.py: the object-level permission for recipes. */
module Permissions {

  /** Request methods; GET, HEAD and OPTIONS form SAFE_METHODS. */
  datatype HttpMethod = GET | HEAD | OPTIONS | POST | PUT | PATCH | DELETE

  predicate IsSafe(m: HttpMethod) {
    m == GET || m == HEAD || m == OPTIONS
  }

  /** The requesting user as the permission sees it. */
  datatype RequestUser = Anonymous | Authenticated(id: int, isStaff: bool)

  /** `AuthorStaffOrReadOnly.has_object_permission`: reading is open to everyone;
      changing an object needs a logged-in user who is staff or the object's author. */
  function HasObjectPermission(m: HttpMethod, user: RequestUser, objAuthor: int): (r: bool)
    ensures IsSafe(m) ==> r
    ensures !IsSafe(m) && user.Anonymous? ==> !r
    ensures user.Authenticated? && user.isStaff ==> r
    ensures user.Authenticated? && user.id == objAuthor ==> r
    ensures !IsSafe(m) && user.Authenticated? && !user.isStaff && user.id != objAuthor ==> !r
  {
    IsSafe(m) || (user.Authenticated? && (user.isStaff || user.id == objAuthor))
  }
}
