/**
 * The role guard (auth/guards/roles.gaurd.ts): a route may name the roles
 * allowed to call it on the handler or on its controller class; the guard lets a
 * request through when no roles are named, and otherwise only when the
 * requesting user's role is one of them.
 */
module RolesGuard {
  import opened Wrappers
  import opened Domain

  /**
   * The reflector's "get all and override" over `[handler, class]`: the first
   * target that carries the metadata wins, so the handler's list hides the class's.
   */
  function RequiredRoles(handler: Option<seq<string>>, cls: Option<seq<string>>): (r: Option<seq<string>>)
    ensures r.Some? <==> handler.Some? || cls.Some?
    ensures r.Some? ==> r == handler || (handler.None? && r == cls)
  {
    if handler.Some? then handler else cls
  }

  /** `required.some(role => name === role)`: a linear search over the required roles. */
  function AnyMatches(required: seq<string>, name: Option<string>): (b: bool)
    ensures b <==> name.Some? && name.value in required
  {
    if |required| == 0 then false
    else name == Some(required[0]) || AnyMatches(required[1..], name)
  }

  /** The role name the guard reads from the request: `user?.role?.name`. */
  function RoleOf(user: Option<User>): Option<string> {
    if user.Some? then user.value.role else None
  }

  /** `canActivate`. */
  function CanActivate(handler: Option<seq<string>>, cls: Option<seq<string>>, user: Option<User>): (allowed: bool)
    ensures handler.None? && cls.None? ==> allowed
    ensures handler.Some? ==>
      (allowed <==> user.Some? && user.value.role.Some? && user.value.role.value in handler.value)
    ensures handler.None? && cls.Some? ==>
      (allowed <==> user.Some? && user.value.role.Some? && user.value.role.value in cls.value)
  {
    match RequiredRoles(handler, cls)
    case None => true
    case Some(required) => AnyMatches(required, RoleOf(user))
  }

  /** A request without a user, or whose user has no role, gets through only an unguarded route. */
  lemma AnonymousOnlyWhereUnguarded(handler: Option<seq<string>>, cls: Option<seq<string>>, user: Option<User>)
    requires user.None? || user.value.role.None?
    ensures CanActivate(handler, cls, user) <==> handler.None? && cls.None?
  {
  }

  /**
   * The metadata is read as truthy or not, and an empty list is truthy: a route
   * marked with no roles at all admits nobody.
   */
  lemma EmptyRoleListDenies(cls: Option<seq<string>>, user: Option<User>)
    ensures !CanActivate(Some([]), cls, user)
  {
  }

  /** A user admitted by the handler's list is admitted whatever the class says, and the reverse. */
  lemma HandlerOverridesClass(required: seq<string>, cls1: Option<seq<string>>, cls2: Option<seq<string>>, user: Option<User>)
    ensures CanActivate(Some(required), cls1, user) == CanActivate(Some(required), cls2, user)
  {
  }

  /** Adding roles to a list never shuts anyone out. */
  lemma MoreRolesAdmitMore(required: seq<string>, extra: seq<string>, cls: Option<seq<string>>, user: Option<User>)
    requires CanActivate(Some(required), cls, user)
    ensures CanActivate(Some(required + extra), cls, user)
    ensures CanActivate(Some(extra + required), cls, user)
  {
  }
}
