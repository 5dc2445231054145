/** `RolesGuard.canActivate`: whether the request's user may call a handler
    annotated with the required roles. */
module RolesGuard {
  import opened Wrappers
  import opened Entities

  /** The part of `request.user` the guard reads. */
  datatype RequestUser = RequestUser(role: Option<Role>)

  /** No (or an empty) requirement lets everyone through; otherwise a user
      with a role in the list is needed. */
  function CanActivate(requiredRoles: Option<seq<Role>>, user: Option<RequestUser>): (allowed: bool)
    ensures requiredRoles.None? || requiredRoles.value == [] ==> allowed
    ensures requiredRoles.Some? && requiredRoles.value != [] && (user.None? || user.value.role.None?) ==> !allowed
    ensures requiredRoles.Some? && requiredRoles.value != [] && user.Some? && user.value.role.Some? ==>
      (allowed <==> user.value.role.value in requiredRoles.value)
  {
    if requiredRoles.None? || |requiredRoles.value| == 0 then true
    else if user.None? || user.value.role.None? then false
    else user.value.role.value in requiredRoles.value
  }

  /** Requiring one more role never locks out someone who was let in. */
  lemma MoreRolesNeverDeny(required: seq<Role>, extra: Role, user: Option<RequestUser>)
    requires required != []
    requires CanActivate(Some(required), user)
    ensures CanActivate(Some(required + [extra]), user)
  {
  }

  /** Whatever the requirement, a user without a role is let in only when
      nothing is required. */
  lemma RolelessUser(requiredRoles: Option<seq<Role>>)
    ensures CanActivate(requiredRoles, Some(RequestUser(None))) <==>
      requiredRoles.None? || requiredRoles.value == []
  {
  }
}
