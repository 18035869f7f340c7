/** The static role table for the `project` and `secret` resources. */
module Permissions {
  import opened Wrappers

  datatype Role = Owner | Admin | MemberRole | Viewer
  datatype Resource = ProjectResource | SecretResource
  datatype Action = Create | Read | Update | Delete

  /** The actions the access-control statement declares, for both resources. */
  const Declared: set<Action> := {Create, Read, Update, Delete}

  /** The actions `role` may perform on `res`. The same set is granted on both resources. */
  function Granted(role: Role, res: Resource): (r: set<Action>)
    ensures r <= Declared
  {
    match role
    case Owner => {Create, Read, Update, Delete}
    case Admin => {Create, Read, Update, Delete}
    case MemberRole => {Create, Read, Update}
    case Viewer => {Read}
  }

  /** The role named by a membership row, when it is one of the four. */
  function ParseRole(name: string): (r: Option<Role>)
    ensures r.Some? <==> name in {"owner", "admin", "member", "viewer"}
  {
    if name == "owner" then Some(Owner)
    else if name == "admin" then Some(Admin)
    else if name == "member" then Some(MemberRole)
    else if name == "viewer" then Some(Viewer)
    else None
  }

  /** Whether a caller whose membership role is `role` (if any) passes a check for `act` on `res`. */
  predicate Allows(role: Option<Role>, res: Resource, act: Action) {
    role.Some? && act in Granted(role.value, res)
  }

  // ---- Properties ----

  /** viewer ⊆ member ⊆ admin = owner, on both resources. */
  lemma RoleChain(res: Resource)
    ensures Granted(Viewer, res) < Granted(MemberRole, res) < Granted(Admin, res)
    ensures Granted(Admin, res) == Granted(Owner, res) == Declared
  {
    assert Delete !in Granted(MemberRole, res);
    assert Create !in Granted(Viewer, res);
  }

  /** Only owners and admins may delete; everyone with a role may read; viewers may only read. */
  lemma WhoMayDoWhat(role: Role, res: Resource, act: Action)
    ensures act == Delete ==> (act in Granted(role, res) <==> role == Owner || role == Admin)
    ensures act == Read ==> act in Granted(role, res)
    ensures role == Viewer ==> (act in Granted(role, res) <==> act == Read)
  {
  }
}
