/**
 * `check_resource_rights`: the owner may do anything; anyone else needs a grant on
 * the resource or one of its ancestors, and the nearest such grant decides writes.
 */
module Rights {
  import opened Basics
  import opened Roles
  import opened ResourceTree

  /** The action names the request layer passes in. */
  const ReadAction: string := "view"
  const WriteAction: string := "edit"
  const DeleteAction: string := "delete"

  /** Some resource on the path from `id` to its root grants `user` a role. */
  ghost predicate HasGrant(rs: Store, roles: RoleTable, id: ResId, user: UserId)
    requires Acyclic(rs)
  {
    exists a :: AncestorOrSelf(rs, a, id) && RoleKey(a, user) in roles
  }

  /** May `user` perform `action` on `res`? A missing resource is refused. */
  function CheckResourceRights(rs: Store, roles: RoleTable, res: Option<ResId>, user: UserId,
                               action: string): (ok: bool)
    requires Closed(rs) && Acyclic(rs)
    requires res.Some? ==> res.value in rs
    ensures res.None? ==> !ok
    ensures res.Some? && rs[res.value].owner == user ==> ok
    ensures ok && res.Some? && rs[res.value].owner != user ==>
              GetRights(rs, roles, res.value, user).Some? && (action == ReadAction || action == WriteAction)
  {
    if res.Some? then
      if rs[res.value].owner == user then true
      else
        var role := GetRights(rs, roles, res.value, user);
        if role.Some? then
          if action == ReadAction then true
          else if action == WriteAction then role.value.kind == Edit
          else false
        else false
    else false
  }

  /** A non-owner may read exactly when some ancestor-or-self grants any role. */
  lemma ReadIffGrant(rs: Store, roles: RoleTable, id: ResId, user: UserId)
    requires Closed(rs) && Acyclic(rs) && id in rs && rs[id].owner != user
    ensures CheckResourceRights(rs, roles, Some(id), user, ReadAction) <==> HasGrant(rs, roles, id, user)
  {
    GetRightsNearest(rs, roles, id, user);
  }

  /** A non-owner may write exactly when the nearest grant is an edit grant. */
  lemma WriteIffNearestEdit(rs: Store, roles: RoleTable, id: ResId, user: UserId)
    requires Closed(rs) && Acyclic(rs) && id in rs && rs[id].owner != user
    ensures CheckResourceRights(rs, roles, Some(id), user, WriteAction) <==>
              exists g :: NearestGrant(rs, roles, id, user, g) && roles[RoleKey(g, user)] == Edit
  {
    GetRightsNearest(rs, roles, id, user);
    var r := GetRights(rs, roles, id, user);
    if exists g :: NearestGrant(rs, roles, id, user, g) && roles[RoleKey(g, user)] == Edit {
      var g :| NearestGrant(rs, roles, id, user, g) && roles[RoleKey(g, user)] == Edit;
      assert r.Some?;
      NearestGrantUnique(rs, roles, id, user, g, r.value.resource);
    }
  }

  /** Whoever may write may also read. */
  lemma WriteImpliesRead(rs: Store, roles: RoleTable, res: Option<ResId>, user: UserId)
    requires Closed(rs) && Acyclic(rs) && (res.Some? ==> res.value in rs)
    ensures CheckResourceRights(rs, roles, res, user, WriteAction) ==> CheckResourceRights(rs, roles, res, user, ReadAction)
  {
  }

  /** Any action other than read and write, deletion included, is refused to a non-owner. */
  lemma OtherActionsDenied(rs: Store, roles: RoleTable, id: ResId, user: UserId, action: string)
    requires Closed(rs) && Acyclic(rs) && id in rs && rs[id].owner != user
    requires action != ReadAction && action != WriteAction
    ensures !CheckResourceRights(rs, roles, Some(id), user, action)
  {
  }

  /** A non-owner without any grant up the parent chain is refused every action. */
  lemma NoGrantDenied(rs: Store, roles: RoleTable, id: ResId, user: UserId, action: string)
    requires Closed(rs) && Acyclic(rs) && id in rs && rs[id].owner != user
    requires !HasGrant(rs, roles, id, user)
    ensures !CheckResourceRights(rs, roles, Some(id), user, action)
  {
    GetRightsNearest(rs, roles, id, user);
  }

  /**
   * Nearest grant wins, on a small tree: a folder shared for viewing with user 7
   * holds a file shared with 7 for editing and another file not shared at all.
   * User 7 may edit the first file, only view the second, and edit neither the folder.
   */
  lemma NearestGrantScenario()
    ensures var rs := map[1 := Resource("shared", None, None, FolderKind, 0, None, []),
                          2 := Resource("notes", Some("txt"), None, FileKind, 0, Some(1), []),
                          3 := Resource("plan", Some("md"), None, FileKind, 0, Some(1), [])];
            var roles := map[RoleKey(1, 7) := View, RoleKey(2, 7) := Edit];
            && Closed(rs) && Acyclic(rs)
            && CheckResourceRights(rs, roles, Some(2), 7, WriteAction)
            && CheckResourceRights(rs, roles, Some(3), 7, ReadAction)
            && !CheckResourceRights(rs, roles, Some(3), 7, WriteAction)
            && !CheckResourceRights(rs, roles, Some(1), 7, WriteAction)
            && !CheckResourceRights(rs, roles, Some(2), 8, ReadAction)
  {
    var rs := map[1 := Resource("shared", None, None, FolderKind, 0, None, []),
                  2 := Resource("notes", Some("txt"), None, FileKind, 0, Some(1), []),
                  3 := Resource("plan", Some("md"), None, FileKind, 0, Some(1), [])];
    assert Ranked(rs, map[1 := 0, 2 := 1, 3 := 1]);
    var roles := map[RoleKey(1, 7) := View, RoleKey(2, 7) := Edit];
    assert GetRights(rs, roles, 1, 8) == None;
    assert GetRights(rs, roles, 2, 8) == None;
  }

  /**
   * `check_resource_rights` as written, over the lookup as written: None stands for
   * the AttributeError that `get_rights` raises on a role row.
   */
  function CheckResourceRightsAsWritten(rs: Store, roles: RoleTable, res: Option<ResId>, user: UserId,
                                        action: string): (r: Option<bool>)
    requires Closed(rs) && Acyclic(rs)
    requires res.Some? ==> res.value in rs
    ensures res.None? ==> r == Some(false)
    ensures res.Some? && rs[res.value].owner == user ==> r == Some(true)
  {
    if res.Some? then
      if rs[res.value].owner == user then Some(true)
      else
        match GetRightsAsWritten(rs, roles, res.value, user)
        case AttributeError => None
        case Answer(role) =>
          if role.Some? then
            if action == ReadAction then Some(true)
            else if action == WriteAction then Some(role.value.kind == Edit)
            else Some(false)
          else Some(false)
    else Some(false)
  }

  /**
   * As written, a non-owner is never allowed anything: the check raises exactly when
   * a role row, for any user, lies on the path to the root, and otherwise refuses,
   * which is also the answer of the corrected check there.
   */
  lemma NonOwnerAsWritten(rs: Store, roles: RoleTable, id: ResId, user: UserId, action: string)
    requires Closed(rs) && Acyclic(rs) && id in rs && rs[id].owner != user
    ensures CheckResourceRightsAsWritten(rs, roles, Some(id), user, action).None? <==>
              exists a :: AncestorOrSelf(rs, a, id) && HasRoleRows(roles, a)
    ensures CheckResourceRightsAsWritten(rs, roles, Some(id), user, action).Some? ==>
              && CheckResourceRightsAsWritten(rs, roles, Some(id), user, action) == Some(false)
              && !CheckResourceRights(rs, roles, Some(id), user, action)
  {
    GetRightsAsWrittenRaises(rs, roles, id, user);
  }

  /**
   * On the tree of `NearestGrantScenario` the check as written raises where the
   * corrected check lets user 7 edit file 2, and it raises for user 8 as well,
   * because of user 7's role rows.
   */
  lemma AsWrittenScenarioRaises()
    ensures var rs := map[1 := Resource("shared", None, None, FolderKind, 0, None, []),
                          2 := Resource("notes", Some("txt"), None, FileKind, 0, Some(1), [])];
            var roles := map[RoleKey(1, 7) := View, RoleKey(2, 7) := Edit];
            && Closed(rs) && Acyclic(rs)
            && CheckResourceRights(rs, roles, Some(2), 7, WriteAction)
            && CheckResourceRightsAsWritten(rs, roles, Some(2), 7, WriteAction).None?
            && CheckResourceRightsAsWritten(rs, roles, Some(2), 8, ReadAction).None?
  {
    var rs := map[1 := Resource("shared", None, None, FolderKind, 0, None, []),
                  2 := Resource("notes", Some("txt"), None, FileKind, 0, Some(1), [])];
    assert Ranked(rs, map[1 := 0, 2 := 1]);
    var roles := map[RoleKey(1, 7) := View, RoleKey(2, 7) := Edit];
    assert RoleKey(2, 7) in roles;
    assert HasRoleRows(roles, 2);
  }
}
