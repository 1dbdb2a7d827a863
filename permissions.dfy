/**
 * The role checks `IsAdmin`, `IsSeller` and `IsCustomer`, and the framework's
 * `IsAuthenticated`, as decisions over the principal of a request.
 */
module Permissions {
  import opened Models

  /** The principal of a request: nobody, or a stored user (its key and row). */
  datatype Principal = Anonymous | Authenticated(id: UserId, user: User)

  /** Each check compares the user's `role` literal with one string. */
  predicate AdminRole(role: string) { role == "admin" }
  predicate SellerRole(role: string) { role == "seller" }
  predicate CustomerRole(role: string) { role == "customer" }

  /** The permission classes a view can list. */
  datatype Permission = IsAuthenticated | IsAdmin | IsSeller | IsCustomer

  /**
   * `has_permission`. The role checks are only ever reached after
   * `IsAuthenticated` has passed, so an anonymous principal fails every one.
   */
  predicate HasPermission(perm: Permission, p: Principal) {
    match perm
    case IsAuthenticated => p.Authenticated?
    case IsAdmin => p.Authenticated? && AdminRole(RoleLiteral(p.user.role))
    case IsSeller => p.Authenticated? && SellerRole(RoleLiteral(p.user.role))
    case IsCustomer => p.Authenticated? && CustomerRole(RoleLiteral(p.user.role))
  }

  /** Each role check holds exactly for an authenticated user of that role. */
  lemma RoleChecksExact(p: Principal)
    ensures HasPermission(IsAdmin, p) <==> p.Authenticated? && p.user.role == Admin
    ensures HasPermission(IsSeller, p) <==> p.Authenticated? && p.user.role == Seller
    ensures HasPermission(IsCustomer, p) <==> p.Authenticated? && p.user.role == Customer
  {
  }

  /** No string passes two role checks, and a role outside the three literals passes none. */
  lemma RoleChecksExclusive(role: string)
    ensures !(AdminRole(role) && SellerRole(role))
    ensures !(AdminRole(role) && CustomerRole(role))
    ensures !(SellerRole(role) && CustomerRole(role))
    ensures ParseRole(role).None? ==> !AdminRole(role) && !SellerRole(role) && !CustomerRole(role)
  {
  }

  /** Every authenticated principal passes exactly one role check; an anonymous one passes none. */
  lemma ExactlyOneRoleCheck(p: Principal)
    ensures p.Anonymous? ==> !HasPermission(IsAdmin, p) && !HasPermission(IsSeller, p) && !HasPermission(IsCustomer, p)
    ensures p.Authenticated? ==>
      (HasPermission(IsAdmin, p) || HasPermission(IsSeller, p) || HasPermission(IsCustomer, p))
    ensures !(HasPermission(IsAdmin, p) && HasPermission(IsSeller, p))
    ensures !(HasPermission(IsAdmin, p) && HasPermission(IsCustomer, p))
    ensures !(HasPermission(IsSeller, p) && HasPermission(IsCustomer, p))
  {
  }
}
