/**
 * The role middleware: a guest is turned away (a JSON 403 for clients that
 * expect JSON, a redirect to the login page otherwise), a user whose role is
 * one of the route's roles is let through, and anyone else gets a 403.
 */
module RoleGate {
  import opened Common
  import opened Accounts

  datatype Outcome =
    | Admit
    | GuestJsonUnauthorized(status: int)
    | GuestRedirectToLogin
    | RoleForbidden(status: int)

  /** The foreach over the route's roles with its early return on the first match. */
  function AnyRoleMatches(user: Account, roles: seq<string>): (b: bool)
    ensures b <==> user.role in roles
    decreases |roles|
  {
    if roles == [] then false
    else if HasRole(user, roles[0]) then true
    else AnyRoleMatches(user, roles[1..])
  }

  function Authorize(user: Option<Account>, expectsJson: bool, roles: seq<string>): (o: Outcome)
    ensures user.None? && expectsJson ==> o == GuestJsonUnauthorized(403)
    ensures user.None? && !expectsJson ==> o == GuestRedirectToLogin
    ensures user.Some? ==> (o == Admit <==> user.value.role in roles)
    ensures user.Some? && user.value.role !in roles ==> o == RoleForbidden(403)
  {
    if user.None? then
      if expectsJson then GuestJsonUnauthorized(403) else GuestRedirectToLogin
    else if AnyRoleMatches(user.value, roles) then Admit
    else RoleForbidden(403)
  }

  /** A route with no roles refuses every signed-in user, admins included. */
  lemma EmptyRolesDenyEveryone(user: Account, expectsJson: bool)
    ensures Authorize(Some(user), expectsJson, []) == RoleForbidden(403)
  {
  }

  /** Only the set of roles matters, not their order or repetition. */
  lemma OnlyTheRoleSetMatters(user: Option<Account>, expectsJson: bool, roles1: seq<string>, roles2: seq<string>)
    requires forall r :: r in roles1 <==> r in roles2
    ensures Authorize(user, expectsJson, roles1) == Authorize(user, expectsJson, roles2)
  {
  }

  /** A manager is admitted to an admin-or-manager route and refused from an admin-only one. */
  lemma ManagerExamples(user: Account, expectsJson: bool)
    requires user.role == "manager"
    ensures Authorize(Some(user), expectsJson, ["admin", "manager"]) == Admit
    ensures Authorize(Some(user), expectsJson, ["admin"]) == RoleForbidden(403)
  {
  }

  /** Role comparison is case-sensitive: "Admin" does not satisfy an "admin" route. */
  lemma RoleMatchIsCaseSensitive(user: Account, expectsJson: bool)
    requires user.role == "Admin"
    ensures Authorize(Some(user), expectsJson, ["admin"]) == RoleForbidden(403)
  {
  }
}
