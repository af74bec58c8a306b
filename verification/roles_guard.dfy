/** `RolesGuard.canActivate`: the role check in front of every handler.
    The roles a handler requires come from its own `@Roles(...)` metadata,
    or from its controller's when the handler has none. */
module RolesGuard {
  import opened Common
  import opened Entities

  /** `reflector.getAllAndOverride(ROLES_KEY, [handler, class])`: the first
      metadata that is set, handler before class. */
  function RequiredRoles(handlerRoles: Option<seq<UserRole>>, classRoles: Option<seq<UserRole>>): (r: Option<seq<UserRole>>)
    ensures handlerRoles.Some? ==> r == handlerRoles
    ensures handlerRoles.None? ==> r == classRoles
  {
    if handlerRoles.Some? then handlerRoles else classRoles
  }

  /** `requiredRoles.some(role => user?.role === role)`. */
  function HasRole(required: seq<UserRole>, user: Option<UserRole>): (b: bool)
    ensures b <==> user.Some? && user.value in required
  {
    if |required| == 0 then false
    else (user.Some? && user.value == required[0]) || HasRole(required[1..], user)
  }

  /** The guard's verdict for the authenticated user's role (`None` when no
      user is attached to the request).  It never answers `false`: it lets
      the request through or throws Forbidden. */
  function CanActivate(handlerRoles: Option<seq<UserRole>>, classRoles: Option<seq<UserRole>>, user: Option<UserRole>): (r: Result<bool>)
    ensures r.Ok? ==> r.value
    ensures r.Err? ==> r.error == Forbidden
    ensures r.Ok? <==>
              var required := RequiredRoles(handlerRoles, classRoles);
              required.None? || |required.value| == 0 || (user.Some? && user.value in required.value)
  {
    var required := RequiredRoles(handlerRoles, classRoles);
    if required.None? || |required.value| == 0 then Ok(true)
    else if !HasRole(required.value, user) then Err(Forbidden)
    else Ok(true)
  }

  /** Roles set on the handler decide alone; the controller's are then
      irrelevant. */
  lemma HandlerRolesOverride(handlerRoles: seq<UserRole>, c1: Option<seq<UserRole>>, c2: Option<seq<UserRole>>, user: Option<UserRole>)
    ensures CanActivate(Some(handlerRoles), c1, user) == CanActivate(Some(handlerRoles), c2, user)
  {
  }

  /** Without a user, a handler that requires any role is forbidden. */
  lemma MissingUserForbidden(handlerRoles: Option<seq<UserRole>>, classRoles: Option<seq<UserRole>>)
    requires RequiredRoles(handlerRoles, classRoles).Some? && |RequiredRoles(handlerRoles, classRoles).value| > 0
    ensures CanActivate(handlerRoles, classRoles, None) == Err(Forbidden)
  {
  }
}
