/**
 * The resource tree as values: resource records, parent links, the ancestor relation,
 * and the nearest-grant lookup `get_rights`.
 */
module ResourceTree {
  import opened Basics
  import opened Versions
  import opened Roles

  /** A row of the resources table together with its ordered version chain. */
  datatype Resource = Resource(name: string, extension: Option<string>, mime: Option<string>,
                               kind: Kind, owner: UserId, parent: Option<ResId>,
                               versions: seq<VersionId>)

  type Store = map<ResId, Resource>

  /** Every parent link points at a stored resource. */
  ghost predicate Closed(rs: Store)
  {
    forall id :: id in rs && rs[id].parent.Some? ==> rs[id].parent.value in rs
  }

  /** `rank` strictly increases from every parent to its child. */
  ghost predicate Ranked(rs: Store, rank: map<ResId, nat>)
  {
    forall id :: id in rs ==>
      id in rank && (rs[id].parent.Some? ==> rs[id].parent.value in rank && rank[rs[id].parent.value] < rank[id])
  }

  /** No resource is its own ancestor: the parent links admit a rank. */
  ghost predicate Acyclic(rs: Store)
  {
    exists rank :: Ranked(rs, rank)
  }

  ghost function SomeRank(rs: Store): (rank: map<ResId, nat>)
    requires Acyclic(rs)
    ensures Ranked(rs, rank)
  {
    var rank :| Ranked(rs, rank); rank
  }

  /** `a` is `d` or one of the resources reached from `d` by following parent links. */
  ghost predicate AncestorOrSelf(rs: Store, a: ResId, d: ResId)
    requires Acyclic(rs)
    decreases if d in rs then SomeRank(rs)[d] else 0
  {
    d == a || (d in rs && rs[d].parent.Some? && AncestorOrSelf(rs, a, rs[d].parent.value))
  }

  /** The resource `id` and all its descendants. */
  ghost function Subtree(rs: Store, id: ResId): set<ResId>
    requires Acyclic(rs)
  {
    set d | d in rs && AncestorOrSelf(rs, id, d)
  }

  /** The union of the subtrees of the resources `cs`. */
  ghost function Under(rs: Store, cs: set<ResId>): set<ResId>
    requires Acyclic(rs)
  {
    set d | d in rs && exists c :: c in cs && AncestorOrSelf(rs, c, d)
  }

  /** The `children` backref: the resources whose parent is `id`. */
  function Children(rs: Store, id: ResId): set<ResId>
  {
    set c | c in rs && rs[c].parent == Some(id)
  }

  /** `small` holds some of the rows of `big`, unchanged. */
  ghost predicate SubStore(small: Store, big: Store)
  {
    forall id :: id in small ==> id in big && small[id] == big[id]
  }

  /** A proper ancestor has a strictly smaller rank, for any rank of the tree. */
  lemma {:induction false} RankOrder(rs: Store, rank: map<ResId, nat>, a: ResId, d: ResId)
    requires Acyclic(rs) && Ranked(rs, rank)
    requires AncestorOrSelf(rs, a, d) && a != d
    ensures d in rs && d in rank && a in rank && rank[a] < rank[d]
    decreases if d in rank then rank[d] else 0
  {
    var p := rs[d].parent.value;
    if p != a {
      RankOrder(rs, rank, a, p);
    }
  }

  /** Two resources that are each other's ancestor-or-self are the same. */
  lemma AncestorAntisymmetric(rs: Store, a: ResId, b: ResId)
    requires Acyclic(rs)
    requires AncestorOrSelf(rs, a, b) && AncestorOrSelf(rs, b, a)
    ensures a == b
  {
    if a != b {
      RankOrder(rs, SomeRank(rs), a, b);
      RankOrder(rs, SomeRank(rs), b, a);
    }
  }

  lemma {:induction false} AncestorTransitive(rs: Store, a: ResId, b: ResId, c: ResId)
    requires Acyclic(rs)
    requires AncestorOrSelf(rs, a, b) && AncestorOrSelf(rs, b, c)
    ensures AncestorOrSelf(rs, a, c)
    decreases if c in rs then SomeRank(rs)[c] else 0
  {
    if c != b {
      AncestorTransitive(rs, a, b, rs[c].parent.value);
    }
  }

  /** The ancestors of one resource form a chain. */
  lemma {:induction false} AncestorsLinear(rs: Store, a: ResId, b: ResId, d: ResId)
    requires Acyclic(rs)
    requires AncestorOrSelf(rs, a, d) && AncestorOrSelf(rs, b, d)
    ensures AncestorOrSelf(rs, a, b) || AncestorOrSelf(rs, b, a)
    decreases if d in rs then SomeRank(rs)[d] else 0
  {
    if d != a && d != b {
      AncestorsLinear(rs, a, b, rs[d].parent.value);
    }
  }

  /** Everything below `a` other than `a` is below one of `a`'s children. */
  lemma {:induction false} BelowSomeChild(rs: Store, a: ResId, d: ResId)
    requires Acyclic(rs)
    requires AncestorOrSelf(rs, a, d) && d != a
    ensures exists c :: c in Children(rs, a) && AncestorOrSelf(rs, c, d)
    decreases if d in rs then SomeRank(rs)[d] else 0
  {
    var p := rs[d].parent.value;
    if p == a {
      assert d in Children(rs, a) && AncestorOrSelf(rs, d, d);
    } else {
      BelowSomeChild(rs, a, p);
      var c :| c in Children(rs, a) && AncestorOrSelf(rs, c, p);
      assert AncestorOrSelf(rs, c, d);
    }
  }

  /** A subtree is its root plus the subtrees of the root's children. */
  lemma SubtreeSplit(rs: Store, a: ResId)
    requires Acyclic(rs) && a in rs
    ensures Subtree(rs, a) == {a} + Under(rs, Children(rs, a))
  {
    forall d | d in Subtree(rs, a) && d != a ensures d in Under(rs, Children(rs, a))
    {
      BelowSomeChild(rs, a, d);
    }
    forall d | d in Under(rs, Children(rs, a)) ensures d in Subtree(rs, a)
    {
      var c :| c in Children(rs, a) && AncestorOrSelf(rs, c, d);
      assert AncestorOrSelf(rs, a, c);
      AncestorTransitive(rs, a, c, d);
    }
  }

  /** The union of subtrees grows one subtree at a time. */
  lemma UnderInsert(rs: Store, cs: set<ResId>, c: ResId)
    requires Acyclic(rs)
    ensures Under(rs, cs + {c}) == Under(rs, cs) + Subtree(rs, c)
  {
  }

  /** A walk through a sub-store is a walk through the store it came from. */
  lemma {:induction false} SubStoreAncestor(small: Store, big: Store, a: ResId, d: ResId)
    requires Acyclic(small) && Acyclic(big) && SubStore(small, big)
    requires AncestorOrSelf(small, a, d)
    ensures AncestorOrSelf(big, a, d)
    decreases if d in small then SomeRank(small)[d] else 0
  {
    if d != a {
      SubStoreAncestor(small, big, a, small[d].parent.value);
    }
  }

  /** When a whole subtree of `big` survives in `small`, its walks survive too. */
  lemma {:induction false} SurvivingWalk(small: Store, big: Store, c: ResId, d: ResId)
    requires Acyclic(small) && Acyclic(big) && SubStore(small, big) && Closed(big)
    requires Subtree(big, c) <= small.Keys
    requires d in big && AncestorOrSelf(big, c, d)
    ensures AncestorOrSelf(small, c, d)
    decreases SomeRank(big)[d]
  {
    if d != c {
      var p := big[d].parent.value;
      assert p in Subtree(big, c);
      SurvivingWalk(small, big, c, p);
    }
  }

  /** A sub-store of an acyclic store is acyclic. */
  lemma SubStoreAcyclic(small: Store, big: Store)
    requires Acyclic(big) && SubStore(small, big)
    ensures Acyclic(small)
  {
    var rank := SomeRank(big);
    assert Ranked(small, rank);
  }

  /** Adding a resource under an existing parent (or as a root) keeps the store acyclic. */
  lemma AddLeafAcyclic(rs: Store, id: ResId, r: Resource)
    requires Acyclic(rs) && Closed(rs) && id !in rs
    requires r.parent.Some? ==> r.parent.value in rs
    ensures Acyclic(rs[id := r])
  {
    var rank := SomeRank(rs);
    var rank' := rank[id := if r.parent.Some? then rank[r.parent.value] + 1 else 0];
    assert Ranked(rs[id := r], rank');
  }

  /** Changing fields other than the parent keeps the store acyclic. */
  lemma SameParentsAcyclic(rs: Store, id: ResId, r: Resource)
    requires Acyclic(rs) && id in rs && r.parent == rs[id].parent
    ensures Acyclic(rs[id := r])
  {
    assert Ranked(rs[id := r], SomeRank(rs));
  }

  /**
   * Re-parenting `id` under a resource outside its subtree keeps the store acyclic:
   * the whole subtree of `id` is lifted above the new parent's rank.
   */
  lemma MoveAcyclic(rs: Store, id: ResId, newParent: Option<ResId>)
    requires Acyclic(rs) && Closed(rs) && id in rs
    requires newParent.Some? ==> newParent.value in rs && !AncestorOrSelf(rs, id, newParent.value)
    ensures Acyclic(rs[id := rs[id].(parent := newParent)])
  {
    var rank := SomeRank(rs);
    var sub := Subtree(rs, id);
    var shift := if newParent.Some? then rank[newParent.value] + 1 else 0;
    var rank' := map x | x in rank :: if x in sub then rank[x] + shift else rank[x];
    var rs' := rs[id := rs[id].(parent := newParent)];
    forall x | x in rs'
      ensures x in rank' && (rs'[x].parent.Some? ==>
                rs'[x].parent.value in rank' && rank'[rs'[x].parent.value] < rank'[x])
    {
      if x != id && rs'[x].parent.Some? {
        var p := rs[x].parent.value;
        if x in sub {
          assert AncestorOrSelf(rs, id, p);
          assert p in sub;
        } else {
          assert p !in sub;
        }
      }
    }
    assert Ranked(rs', rank');
  }

  /**
   * `get_rights` as intended, comparing the role's `u_id` with the user: the role of
   * `user` on `id` itself if there is one, otherwise the result for the parent, and
   * None at a root.
   */
  function GetRights(rs: Store, roles: RoleTable, id: ResId, user: UserId): (r: Option<Role>)
    requires Closed(rs) && Acyclic(rs) && id in rs
    ensures r.Some? ==> r.value.user == user && RoleKey(r.value.resource, user) in roles
                        && roles[RoleKey(r.value.resource, user)] == r.value.kind
    decreases SomeRank(rs)[id]
  {
    if RoleKey(id, user) in roles then Some(Role(id, user, roles[RoleKey(id, user)]))
    else
      match rs[id].parent
      case None => None
      case Some(p) => GetRights(rs, roles, p, user)
  }

  /** The resource on the path from `id` to its root that carries the nearest grant. */
  ghost predicate NearestGrant(rs: Store, roles: RoleTable, id: ResId, user: UserId, g: ResId)
    requires Acyclic(rs)
  {
    && AncestorOrSelf(rs, g, id)
    && RoleKey(g, user) in roles
    && forall b :: AncestorOrSelf(rs, b, id) && AncestorOrSelf(rs, g, b) && b != g ==> RoleKey(b, user) !in roles
  }

  /**
   * Nearest grant wins: `get_rights` finds a role exactly when some ancestor-or-self
   * has one for the user, and the role it finds is the one nearest to the resource.
   */
  lemma {:induction false} GetRightsNearest(rs: Store, roles: RoleTable, id: ResId, user: UserId)
    requires Closed(rs) && Acyclic(rs) && id in rs
    ensures GetRights(rs, roles, id, user).None? <==>
              forall a :: AncestorOrSelf(rs, a, id) ==> RoleKey(a, user) !in roles
    ensures GetRights(rs, roles, id, user).Some? ==>
              NearestGrant(rs, roles, id, user, GetRights(rs, roles, id, user).value.resource)
    decreases SomeRank(rs)[id]
  {
    if RoleKey(id, user) in roles {
      forall b | AncestorOrSelf(rs, b, id) && AncestorOrSelf(rs, id, b) ensures b == id
      {
        AncestorAntisymmetric(rs, b, id);
      }
    } else if rs[id].parent.Some? {
      var p := rs[id].parent.value;
      GetRightsNearest(rs, roles, p, user);
      forall a | AncestorOrSelf(rs, a, id) && a != id ensures AncestorOrSelf(rs, a, p) { }
    } else {
      forall a | AncestorOrSelf(rs, a, id) ensures a == id { }
    }
  }

  /** The nearest grant is unique. */
  lemma NearestGrantUnique(rs: Store, roles: RoleTable, id: ResId, user: UserId, g1: ResId, g2: ResId)
    requires Acyclic(rs)
    requires NearestGrant(rs, roles, id, user, g1) && NearestGrant(rs, roles, id, user, g2)
    ensures g1 == g2
  {
    AncestorsLinear(rs, g1, g2, id);
  }

  /** The outcome of the lookup as written: an answer, or the AttributeError it raises. */
  datatype Lookup = AttributeError | Answer(role: Option<Role>)

  /** `res.roles`: the resource has at least one role row, whichever user it is for. */
  predicate HasRoleRows(roles: RoleTable, id: ResId)
  {
    exists k :: k in roles && k.resource == id
  }

  /**
   * `get_rights` as written: the loop reads `role.user_id`, an attribute that `Role`
   * does not define (its key columns are `r_id` and `u_id`), so the first role row of
   * a resource on the walk raises; a resource without role rows passes the walk on to
   * its parent, and a root without any ends it with None.
   */
  function GetRightsAsWritten(rs: Store, roles: RoleTable, id: ResId, user: UserId): (r: Lookup)
    requires Closed(rs) && Acyclic(rs) && id in rs
    ensures r.Answer? ==> r.role.None?
    decreases SomeRank(rs)[id]
  {
    if HasRoleRows(roles, id) then AttributeError
    else
      match rs[id].parent
      case None => Answer(None)
      case Some(p) => GetRightsAsWritten(rs, roles, p, user)
  }

  /**
   * The lookup as written raises exactly when some ancestor-or-self has a role row,
   * for any user, and otherwise agrees with the corrected `GetRights`, which then
   * finds nothing either.
   */
  lemma {:induction false} GetRightsAsWrittenRaises(rs: Store, roles: RoleTable, id: ResId, user: UserId)
    requires Closed(rs) && Acyclic(rs) && id in rs
    ensures GetRightsAsWritten(rs, roles, id, user) == AttributeError <==>
              exists a :: AncestorOrSelf(rs, a, id) && HasRoleRows(roles, a)
    ensures GetRightsAsWritten(rs, roles, id, user).Answer? ==>
              GetRightsAsWritten(rs, roles, id, user) == Answer(GetRights(rs, roles, id, user))
    decreases SomeRank(rs)[id]
  {
    if HasRoleRows(roles, id) {
      assert AncestorOrSelf(rs, id, id);
    } else if rs[id].parent.Some? {
      var p := rs[id].parent.value;
      GetRightsAsWrittenRaises(rs, roles, p, user);
      forall a | AncestorOrSelf(rs, a, id) && a != id ensures AncestorOrSelf(rs, a, p) { }
      if GetRightsAsWritten(rs, roles, id, user) == AttributeError {
        var a :| AncestorOrSelf(rs, a, p) && HasRoleRows(roles, a);
        assert AncestorOrSelf(rs, a, id);
      }
    } else {
      forall a | AncestorOrSelf(rs, a, id) ensures a == id { }
    }
  }
}
