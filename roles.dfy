/** Grant edges between resources and users. */
module Roles {
  import opened Basics

  /** The role kinds ('edit' and 'view' in the source). */
  datatype RoleKind = Edit | View

  function RoleName(k: RoleKind): string
  {
    match k
    case Edit => "edit"
    case View => "view"
  }

  /** Reads a stored role type back; only the two role names are role kinds. */
  function ParseRole(s: string): (r: Option<RoleKind>)
    ensures r.Some? <==> s == "edit" || s == "view"
    ensures r.Some? ==> RoleName(r.value) == s
  {
    if s == "edit" then Some(Edit)
    else if s == "view" then Some(View)
    else None
  }

  /** Every role kind is read back as itself, so the names are distinct. */
  lemma RoleNameRoundTrip(k: RoleKind)
    ensures ParseRole(RoleName(k)) == Some(k)
  {
  }

  /** The composite primary key (r_id, u_id) of the roles table. */
  datatype RoleKey = RoleKey(resource: ResId, user: UserId)

  /** A row of the roles table. */
  datatype Role = Role(resource: ResId, user: UserId, kind: RoleKind)

  /**
   * The roles table, keyed by its primary key: at most one role per (resource, user)
   * pair holds by construction.
   */
  type RoleTable = map<RoleKey, RoleKind>

  /**
   * What adding a role row leads to: the row itself, or a primary-key clash with the
   * row already stored for the pair, which makes the session flush fail.
   */
  datatype LinkOutcome = Linked(role: Role) | DuplicateKey
}
