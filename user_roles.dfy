/** Role lookups of lib/user.ts over the user and role tables. */
module UserRoles {
  import opened Wrappers
  import opened Tables

  /** `getUserRole`: the name of the role the user's `roleId` refers to, or
      nothing for a missing or empty id, an unknown user or a missing role. */
  function GetUserRole(users: seq<User>, roles: seq<Role>, id: Option<string>): (r: Option<string>)
    ensures (id.None? || id.value == "") ==> r.None?
    ensures id.Some? && id.value != "" && FindUser(users, id.value).None? ==> r.None?
    ensures r.Some? <==>
      && id.Some? && id.value != ""
      && FindUser(users, id.value).Some?
      && FindRole(roles, FindUser(users, id.value).value.roleId).Some?
    ensures r.Some? ==>
      exists u, ro :: u in users && ro in roles && u.id == id.value && ro.id == u.roleId && ro.name == r.value
  {
    if id.None? || id.value == "" then None
    else
      match FindUser(users, id.value)
      case None => None
      case Some(u) =>
        match FindRole(roles, u.roleId)
        case None => None
        case Some(ro) => Some(ro.name)
  }

  predicate IsAdmin(users: seq<User>, roles: seq<Role>, id: string) {
    GetUserRole(users, roles, Some(id)) == Some("admin")
  }

  predicate IsClient(users: seq<User>, roles: seq<Role>, id: string) {
    GetUserRole(users, roles, Some(id)) == Some("client")
  }

  predicate IsInstructor(users: seq<User>, roles: seq<Role>, id: string) {
    GetUserRole(users, roles, Some(id)) == Some("instructor")
  }

  /** Each predicate holds exactly for its role name, at most one of them holds,
      and none holds for an unknown user or an empty id. */
  lemma RolePredicates(users: seq<User>, roles: seq<Role>, id: string)
    ensures IsAdmin(users, roles, id) ==> !IsClient(users, roles, id) && !IsInstructor(users, roles, id)
    ensures IsClient(users, roles, id) ==> !IsInstructor(users, roles, id)
    ensures (id == "" || FindUser(users, id).None?) ==>
      !IsAdmin(users, roles, id) && !IsClient(users, roles, id) && !IsInstructor(users, roles, id)
    ensures IsInstructor(users, roles, id) <==>
      FindUser(users, id).Some? && id != "" && RoleNameOf(roles, FindUser(users, id).value) == Some("instructor")
  {
  }
}
