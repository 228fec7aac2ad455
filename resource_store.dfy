/**
 * The resources, roles and versions tables as one mutable store, with the
 * operations of the Resource model that change them.
 */
module ResourceStore {
  import opened Basics
  import opened Versions
  import opened Roles
  import opened ResourceTree

  /**
   * The store invariant: the ledger is consistent, parent links point at stored
   * folders, ids are below the autoincrement counter, and every listed version
   * exists, belongs to the resource listing it, and is listed once.
   */
  ghost predicate Consistent(rs: Store, l: Ledger, nextId: ResId)
  {
    && LedgerValid(l)
    && Closed(rs)
    && (forall id :: id in rs ==> id < nextId)
    && (forall id :: id in rs && rs[id].parent.Some? ==> rs[rs[id].parent.value].kind == FolderKind)
    && (forall id, i :: id in rs && 0 <= i < |rs[id].versions| ==>
          rs[id].versions[i] in l.versions && l.versions[rs[id].versions[i]].file == id)
    && (forall id :: id in rs ==> NoDup(rs[id].versions))
  }

  /** The versions that deleting the resources `gone` removes: those listed by files among them. */
  ghost function Doomed(rs: Store, l: Ledger, gone: set<ResId>): set<VersionId>
  {
    set v | v in l.versions && l.versions[v].file in gone && l.versions[v].file in rs
            && rs[l.versions[v].file].kind == FileKind && v in rs[l.versions[v].file].versions
  }

  lemma RankBound(rank: map<ResId, nat>) returns (b: nat)
    ensures forall x :: x in rank ==> rank[x] < b
    decreases |rank.Keys|
  {
    if rank == map[] {
      b := 0;
    } else {
      var x :| x in rank;
      var rest := rank - {x};
      assert rest.Keys == rank.Keys - {x};
      var b' := RankBound(rest);
      b := if b' > rank[x] then b' else rank[x] + 1;
      forall y | y in rank ensures rank[y] < b
      {
        if y != x {
          assert y in rest;
        }
      }
    }
  }

  /** Two distinct children of one folder have disjoint subtrees. */
  lemma SiblingsDisjoint(rs: Store, id: ResId, c: ResId, c': ResId, d: ResId)
    requires Acyclic(rs)
    requires c in Children(rs, id) && c' in Children(rs, id) && c != c'
    requires AncestorOrSelf(rs, c, d)
    ensures !AncestorOrSelf(rs, c', d)
  {
    if AncestorOrSelf(rs, c', d) {
      var rank := SomeRank(rs);
      AncestorsLinear(rs, c, c', d);
      if AncestorOrSelf(rs, c, c') {
        assert AncestorOrSelf(rs, c, id);
        RankOrder(rs, rank, c, id);
      } else {
        assert AncestorOrSelf(rs, c', id);
        RankOrder(rs, rank, c', id);
      }
      assert false;
    }
  }

  /**
   * Removing the subtrees of some children of `id` leaves the subtree of another
   * child as it was.
   */
  lemma SiblingSubtreeIntact(rs: Store, id: ResId, done: set<ResId>, c: ResId)
    requires Acyclic(rs) && Closed(rs)
    requires done <= Children(rs, id) && c in Children(rs, id) && c !in done
    ensures Acyclic(rs - Under(rs, done))
    ensures Subtree(rs, c) !! Under(rs, done)
    ensures Subtree(rs - Under(rs, done), c) == Subtree(rs, c)
  {
    var small := rs - Under(rs, done);
    SubStoreAcyclic(small, rs);
    forall d | d in Subtree(rs, c) ensures d !in Under(rs, done)
    {
      forall c' | c' in done ensures !AncestorOrSelf(rs, c', d)
      {
        SiblingsDisjoint(rs, id, c, c', d);
      }
    }
    forall d | d in Subtree(small, c) ensures d in Subtree(rs, c)
    {
      SubStoreAncestor(small, rs, c, d);
    }
    forall d | d in Subtree(rs, c) ensures d in Subtree(small, c)
    {
      SurvivingWalk(small, rs, c, d);
    }
  }

  /** The versions doomed by two disjoint removals, one after the other, add up. */
  lemma DoomedStep(rs: Store, l: Ledger, u: set<ResId>, s: set<ResId>)
    requires u !! s
    ensures Doomed(rs, l, u) + Doomed(rs - u, RemoveVersions(l, Doomed(rs, l, u)), s) == Doomed(rs, l, u + s)
  {
  }

  /** Removing a subtree and the versions of its files keeps the store consistent. */
  lemma DeleteConsistent(rs: Store, l: Ledger, n: ResId, id: ResId)
    requires Consistent(rs, l, n) && Acyclic(rs) && id in rs
    ensures Consistent(rs - Subtree(rs, id), RemoveVersions(l, Doomed(rs, l, Subtree(rs, id))), n)
  {
    var sub := Subtree(rs, id);
    var rs' := rs - sub;
    var l' := RemoveVersions(l, Doomed(rs, l, sub));
    RemoveVersionsValid(l, Doomed(rs, l, sub));
    forall x | x in rs' && rs'[x].parent.Some? ensures rs'[x].parent.value in rs'
    {
      var p := rs[x].parent.value;
      if p in sub {
        assert AncestorOrSelf(rs, id, x);
      }
    }
  }

  /** Adding a fresh resource whose versions are new ledger entries keeps the store consistent. */
  lemma AddResourceConsistent(rs: Store, l: Ledger, l': Ledger, n: ResId, res: Resource)
    requires Consistent(rs, l, n) && LedgerValid(l')
    requires forall v :: v in l.versions ==> v in l'.versions && l'.versions[v] == l.versions[v]
    requires res.parent.Some? ==> res.parent.value in rs && rs[res.parent.value].kind == FolderKind
    requires forall i :: 0 <= i < |res.versions| ==>
               res.versions[i] in l'.versions && l'.versions[res.versions[i]].file == n
    requires NoDup(res.versions)
    ensures Consistent(rs[n := res], l', n + 1)
  {
  }

  /**
   * Replacing a record by one of the same kind with the same versions, under a stored
   * folder or at the root, keeps the store consistent.
   */
  lemma ReplaceConsistent(rs: Store, l: Ledger, n: ResId, id: ResId, r: Resource)
    requires Consistent(rs, l, n) && id in rs
    requires r.kind == rs[id].kind && r.versions == rs[id].versions
    requires r.parent.Some? ==> r.parent.value in rs && rs[r.parent.value].kind == FolderKind
    ensures Consistent(rs[id := r], l, n)
  {
  }

  /** Appending a new version of `id` to its chain keeps the store consistent. */
  lemma AppendVersionConsistent(rs: Store, l: Ledger, l': Ledger, n: ResId, id: ResId, v: VersionId)
    requires Consistent(rs, l, n) && id in rs && LedgerValid(l')
    requires v !in l.versions && v in l'.versions && l'.versions == l.versions[v := l'.versions[v]]
    requires l'.versions[v].file == id
    ensures Consistent(rs[id := rs[id].(versions := rs[id].versions + [v])], l', n)
  {
    assert v !in rs[id].versions;
    NoDupAppend(rs[id].versions, v);
  }

  /**
   * One step of deleting a folder's children: removing the subtree of one more child
   * (from the store left by the earlier steps) extends both removals.
   */
  lemma FolderStep(r0: Store, l0: Ledger, id: ResId, done: set<ResId>, c: ResId)
    requires Acyclic(r0) && Closed(r0)
    requires done <= Children(r0, id) && c in Children(r0, id) && c !in done
    ensures Acyclic(r0 - Under(r0, done))
    ensures c in r0 - Under(r0, done)
    ensures var r1 := r0 - Under(r0, done);
            var l1 := RemoveVersions(l0, Doomed(r0, l0, Under(r0, done)));
            && r1 - Subtree(r1, c) == r0 - Under(r0, done + {c})
            && RemoveVersions(l1, Doomed(r1, l1, Subtree(r1, c)))
               == RemoveVersions(l0, Doomed(r0, l0, Under(r0, done + {c})))
  {
    var u := Under(r0, done);
    var r1 := r0 - u;
    var l1 := RemoveVersions(l0, Doomed(r0, l0, u));
    SiblingSubtreeIntact(r0, id, done, c);
    assert c in Subtree(r0, c);
    UnderInsert(r0, done, c);
    DoomedStep(r0, l0, u, Subtree(r0, c));
    RemoveVersionsCompose(l0, Doomed(r0, l0, u), Doomed(r1, l1, Subtree(r0, c)));
  }

  /** A rank of a store ranks what is left of it after a removal. */
  lemma RankedMinus(rs: Store, gone: set<ResId>, rank: map<ResId, nat>)
    requires Ranked(rs, rank)
    ensures Ranked(rs - gone, rank)
  {
  }

  /** Before any child is deleted nothing has been removed. */
  lemma FolderStart(r0: Store, l0: Ledger)
    requires Acyclic(r0)
    ensures r0 - Under(r0, {}) == r0
    ensures RemoveVersions(l0, Doomed(r0, l0, Under(r0, {}))) == l0
  {
    assert Under(r0, {}) == {};
    assert Doomed(r0, l0, {}) == {};
  }

  /** Once every child's subtree is gone, removing the folder completes its subtree. */
  lemma FolderFinish(r0: Store, l0: Ledger, n: ResId, id: ResId)
    requires Consistent(r0, l0, n) && Acyclic(r0) && id in r0 && r0[id].kind == FolderKind
    ensures (r0 - Under(r0, Children(r0, id))) - {id} == r0 - Subtree(r0, id)
    ensures Doomed(r0, l0, Under(r0, Children(r0, id))) == Doomed(r0, l0, Subtree(r0, id))
    ensures Consistent(r0 - Subtree(r0, id), RemoveVersions(l0, Doomed(r0, l0, Subtree(r0, id))), n)
  {
    SubtreeSplit(r0, id);
    DeleteConsistent(r0, l0, n, id);
  }

  /** A file has no children, so its subtree is itself. */
  lemma FileSubtree(rs: Store, l: Ledger, n: ResId, id: ResId)
    requires Consistent(rs, l, n) && Acyclic(rs) && id in rs && rs[id].kind == FileKind
    ensures Subtree(rs, id) == {id}
    ensures Doomed(rs, l, {id}) == Elems(rs[id].versions)
    ensures Consistent(rs - {id}, RemoveVersions(l, Doomed(rs, l, {id})), n)
  {
    DeleteConsistent(rs, l, n, id);
    SubtreeSplit(rs, id);
    assert Children(rs, id) == {};
    assert Under(rs, {}) == {};
  }

  /**
   * A resource after `update` with the given keyword arguments: each supplied field
   * takes the supplied value, every other field keeps its value.
   */
  function Updated(res: Resource, name: Option<string>, extension: Option<Option<string>>,
                   parent: Option<Option<ResId>>): (r: Resource)
    ensures r.name == if name.Some? then name.value else res.name
    ensures r.extension == if extension.Some? then extension.value else res.extension
    ensures r.parent == if parent.Some? then parent.value else res.parent
    ensures r.(name := res.name, extension := res.extension, parent := res.parent) == res
  {
    var r1 := if name.Some? then res.(name := name.value) else res;
    var r2 := if extension.Some? then r1.(extension := extension.value) else r1;
    if parent.Some? then r2.(parent := parent.value) else r2
  }

  class Drive {
    var resources: Store
    var roles: RoleTable
    var ledger: Ledger
    var nextId: ResId

    ghost predicate Valid()
      reads this
    {
      Consistent(resources, ledger, nextId)
    }

    /** Every role row refers to a stored resource. */
    ghost predicate RolesAttached()
      reads this
    {
      forall k :: k in roles ==> k.resource in resources
    }

    /** An empty store whose blobs live under `uploadFolder`. */
    constructor (uploadFolder: string)
      ensures Valid() && Acyclic(resources) && RolesAttached()
      ensures resources == map[] && roles == map[] && ledger == Ledger(uploadFolder, map[], map[], 0)
    {
      resources := map[];
      roles := map[];
      ledger := Ledger(uploadFolder, map[], map[], 0);
      nextId := 0;
      assert Ranked(map[], map[]);
    }

    /**
     * `Resource.create`: a file resource with the given details and, as its single
     * version, the upload; `draws` are the random keys tried for that version.
     */
    method CreateFile(name: string, extension: Option<string>, owner: UserId, parent: Option<ResId>,
                      upload: Upload, now: Time, draws: seq<string>) returns (r: Option<ResId>)
      requires Valid()
      requires parent.Some? ==> parent.value in resources && resources[parent.value].kind == FolderKind
      requires forall i :: 0 <= i < |draws| ==> IsKey(draws[i])
      modifies this`resources, this`ledger, this`nextId
      ensures Valid()
      ensures r.None? <==> forall i :: 0 <= i < |draws| ==> draws[i] in UsedKeys(old(ledger))
      ensures r.None? ==> resources == old(resources) && ledger == old(ledger)
      ensures r.Some? ==>
        && r.value == old(nextId) && r.value !in old(resources) && r.value in resources
        && |resources[r.value].versions| == 1
        && resources == old(resources)[r.value := Resource(name, extension, upload.contentType, FileKind,
                                                             owner, parent, resources[r.value].versions)]
        && VersionAdded(old(ledger), ledger, resources[r.value].versions[0], r.value, upload.data, now)
      ensures old(Acyclic(resources)) ==> Acyclic(resources)
      ensures old(RolesAttached()) ==> RolesAttached()
    {
      var id := nextId;
      var created := CreateVersion(ledger, id, upload, now, draws);
      if created.None? {
        return None;
      }
      var (l', v) := created.value;
      var res := Resource(name, extension, upload.contentType, FileKind, owner, parent, [v]);
      if Acyclic(resources) {
        AddLeafAcyclic(resources, id, res);
      }
      AddResourceConsistent(resources, ledger, l', id, res);
      resources := resources[id := res];
      ledger := l';
      nextId := nextId + 1;
      r := Some(id);
    }

    /** `Resource.create_folder`: a folder resource without versions. */
    method CreateFolder(name: string, owner: UserId, parent: Option<ResId>) returns (id: ResId)
      requires Valid()
      requires parent.Some? ==> parent.value in resources && resources[parent.value].kind == FolderKind
      modifies this`resources, this`nextId
      ensures Valid()
      ensures id == old(nextId) && id !in old(resources)
      ensures resources == old(resources)[id := Resource(name, None, None, FolderKind, owner, parent, [])]
      ensures old(Acyclic(resources)) ==> Acyclic(resources)
      ensures old(RolesAttached()) ==> RolesAttached()
    {
      id := nextId;
      var folder := Resource(name, None, None, FolderKind, owner, parent, []);
      if Acyclic(resources) {
        AddLeafAcyclic(resources, id, folder);
      }
      AddResourceConsistent(resources, ledger, ledger, id, folder);
      resources := resources[id := folder];
      nextId := nextId + 1;
    }

    /**
     * `Resource.update`: assign each supplied field (name, extension, parent); a field
     * that is not supplied keeps its value. No cycle check is made on the parent.
     */
    method Update(id: ResId, name: Option<string>, extension: Option<Option<string>>,
                  parent: Option<Option<ResId>>)
      requires Valid() && id in resources
      requires parent.Some? && parent.value.Some? ==>
                 parent.value.value in resources && resources[parent.value.value].kind == FolderKind
      modifies this`resources
      ensures Valid()
      ensures resources == old(resources)[id := Updated(old(resources[id]), name, extension, parent)]
      ensures parent.None? && old(Acyclic(resources)) ==> Acyclic(resources)
      ensures old(RolesAttached()) ==> RolesAttached()
    {
      ghost var acyclic := Acyclic(resources);
      ghost var before := resources;
      if name.Some? {
        resources := resources[id := resources[id].(name := name.value)];
      }
      if extension.Some? {
        resources := resources[id := resources[id].(extension := extension.value)];
      }
      if parent.Some? {
        resources := resources[id := resources[id].(parent := parent.value)];
      }
      assert resources == before[id := resources[id]];
      ReplaceConsistent(before, ledger, nextId, id, resources[id]);
      if parent.None? && acyclic {
        SameParentsAcyclic(before, id, resources[id]);
      }
    }

    /**
     * The walk a move needs: follow parent links from `q` and report whether `id`
     * is met, i.e. whether `q` lies in the subtree of `id`.
     */
    method InSubtree(id: ResId, q: ResId) returns (b: bool)
      requires Closed(resources) && Acyclic(resources) && q in resources
      ensures b <==> AncestorOrSelf(resources, id, q)
    {
      var cur := q;
      while cur != id && resources[cur].parent.Some?
        invariant cur in resources
        invariant AncestorOrSelf(resources, id, q) <==> AncestorOrSelf(resources, id, cur)
        decreases SomeRank(resources)[cur]
      {
        cur := resources[cur].parent.value;
      }
      b := cur == id;
    }

    /**
     * `Resource.update` with the move rejected when the new parent is the resource
     * itself or one of its descendants; otherwise the same assignments as Update.
     */
    method UpdateChecked(id: ResId, name: Option<string>, extension: Option<Option<string>>,
                         parent: Option<Option<ResId>>) returns (ok: bool)
      requires Valid() && Acyclic(resources) && id in resources
      requires parent.Some? && parent.value.Some? ==>
                 parent.value.value in resources && resources[parent.value.value].kind == FolderKind
      modifies this`resources
      ensures Valid() && Acyclic(resources)
      ensures ok <==> !(parent.Some? && parent.value.Some? && AncestorOrSelf(old(resources), id, parent.value.value))
      ensures !ok ==> resources == old(resources)
      ensures ok ==> resources == old(resources)[id := Updated(old(resources[id]), name, extension, parent)]
      ensures old(RolesAttached()) ==> RolesAttached()
    {
      if parent.Some? && parent.value.Some? {
        var cycle := InSubtree(id, parent.value.value);
        if cycle {
          return false;
        }
      }
      ghost var mid := resources;
      if parent.Some? {
        MoveAcyclic(resources, id, parent.value);
        mid := resources[id := resources[id].(parent := parent.value)];
      }
      Update(id, name, extension, parent);
      SameParentsAcyclic(mid, id, resources[id]);
      assert resources == mid[id := resources[id]];
      ok := true;
    }

    /**
     * `Resource.add_version`: create a version of the upload and append it to the
     * resource's chain; the earlier versions keep their order.
     */
    method AddVersion(id: ResId, upload: Upload, now: Time, draws: seq<string>) returns (r: Option<VersionId>)
      requires Valid() && id in resources
      requires forall i :: 0 <= i < |draws| ==> IsKey(draws[i])
      modifies this`resources, this`ledger
      ensures Valid()
      ensures r.None? <==> forall i :: 0 <= i < |draws| ==> draws[i] in UsedKeys(old(ledger))
      ensures r.None? ==> resources == old(resources) && ledger == old(ledger)
      ensures r.Some? ==>
        && resources == old(resources)[id := old(resources[id]).(versions := old(resources[id].versions) + [r.value])]
        && VersionAdded(old(ledger), ledger, r.value, id, upload.data, now)
      ensures r.Some? && (forall v :: v in old(ledger.versions) ==> old(ledger.versions)[v].created < now) ==>
                LastVersion(ledger, resources[id].versions) == r
      ensures old(Acyclic(resources)) ==> Acyclic(resources)
      ensures old(RolesAttached()) ==> RolesAttached()
    {
      var created := CreateVersion(ledger, id, upload, now, draws);
      if created.None? {
        return None;
      }
      var (l', v) := created.value;
      if Acyclic(resources) {
        SameParentsAcyclic(resources, id, resources[id].(versions := resources[id].versions + [v]));
      }
      AppendVersionConsistent(resources, ledger, l', nextId, id, v);
      resources := resources[id := resources[id].(versions := resources[id].versions + [v])];
      ledger := l';
      r := Some(v);
      if forall w :: w in old(ledger.versions) ==> old(ledger.versions)[w].created < now {
        LatestIsLast(ledger, resources[id].versions, v);
      }
    }

    /**
     * `Resource.delete`: a file loses all its versions (and their blobs), a folder
     * all its children, recursively; then the resource itself goes.
     */
    method Delete(id: ResId)
      requires Valid() && Acyclic(resources) && id in resources
      modifies this`resources, this`ledger
      ensures Valid() && Acyclic(resources)
      ensures resources == old(resources) - Subtree(old(resources), id)
      ensures ledger == RemoveVersions(old(ledger), Doomed(old(resources), old(ledger), Subtree(old(resources), id)))
      ensures roles == old(roles)
      ensures (exists k :: k in roles && k.resource in Subtree(old(resources), id)) ==> !RolesAttached()
    {
      ghost var rank := SomeRank(resources);
      ghost var bound := RankBound(rank);
      DeleteTree(id, rank, bound);
      SubStoreAcyclic(resources, old(resources));
    }

    /** The recursion of `Resource.delete`, measured by a rank of the tree. */
    method DeleteTree(id: ResId, ghost rank: map<ResId, nat>, ghost bound: nat)
      requires Valid() && id in resources && Ranked(resources, rank)
      requires forall x :: x in rank ==> rank[x] < bound
      modifies this`resources, this`ledger
      decreases bound - rank[id], 2
      ensures Valid() && Acyclic(old(resources))
      ensures resources == old(resources) - Subtree(old(resources), id)
      ensures ledger == RemoveVersions(old(ledger), Doomed(old(resources), old(ledger), Subtree(old(resources), id)))
    {
      assert Acyclic(resources);
      if resources[id].kind == FileKind {
        DeleteFile(id);
      } else {
        DeleteFolder(id, rank, bound);
      }
    }

    /** The file branch of `Resource.delete`: every version goes, then the file. */
    method DeleteFile(id: ResId)
      requires Valid() && Acyclic(resources) && id in resources && resources[id].kind == FileKind
      modifies this`resources, this`ledger
      ensures Valid()
      ensures resources == old(resources) - Subtree(old(resources), id)
      ensures ledger == RemoveVersions(old(ledger), Doomed(old(resources), old(ledger), Subtree(old(resources), id)))
    {
      ghost var r0, l0 := resources, ledger;
      var vs := resources[id].versions;
      var i := 0;
      while i < |vs|
        invariant 0 <= i <= |vs|
        invariant resources == r0
        invariant LedgerValid(ledger)
        invariant ledger == RemoveVersions(l0, Elems(vs[..i]))
      {
        DropNext(l0, vs, i);
        ledger := DeleteVersion(ledger, vs[i]);
        i := i + 1;
      }
      assert vs[..i] == vs;
      FileSubtree(r0, l0, nextId, id);
      assert ledger == RemoveVersions(l0, Doomed(r0, l0, {id}));
      resources := resources - {id};
    }

    /** The folder branch of `Resource.delete`: every child's subtree goes, then the folder. */
    method DeleteFolder(id: ResId, ghost rank: map<ResId, nat>, ghost bound: nat)
      requires Valid() && id in resources && Ranked(resources, rank) && resources[id].kind == FolderKind
      requires forall x :: x in rank ==> rank[x] < bound
      modifies this`resources, this`ledger
      decreases bound - rank[id], 1
      ensures Valid() && Acyclic(old(resources))
      ensures resources == old(resources) - Subtree(old(resources), id)
      ensures ledger == RemoveVersions(old(ledger), Doomed(old(resources), old(ledger), Subtree(old(resources), id)))
    {
      ghost var r0, l0 := resources, ledger;
      assert Acyclic(r0);
      DeleteChildren(id, rank, bound);
      FolderFinish(r0, l0, nextId, id);
      resources := resources - {id};
    }

    /** The loop of `Resource.delete` over a folder's children, each deleted recursively. */
    method DeleteChildren(id: ResId, ghost rank: map<ResId, nat>, ghost bound: nat)
      requires Valid() && id in resources && Ranked(resources, rank)
      requires forall x :: x in rank ==> rank[x] < bound
      modifies this`resources, this`ledger
      decreases bound - rank[id], 0
      ensures Valid() && Acyclic(old(resources))
      ensures resources == old(resources) - Under(old(resources), Children(old(resources), id))
      ensures ledger == RemoveVersions(old(ledger), Doomed(old(resources), old(ledger), Under(old(resources), Children(old(resources), id))))
    {
      ghost var r0, l0 := resources, ledger;
      assert Acyclic(r0);
      var children := Children(resources, id);
      ghost var all := children;
      ghost var done: set<ResId> := {};
      FolderStart(r0, l0);
      while children != {}
        invariant children <= all && done == all - children
        invariant Valid()
        invariant resources == r0 - Under(r0, done)
        invariant ledger == RemoveVersions(l0, Doomed(r0, l0, Under(r0, done)))
        decreases children
      {
        var c :| c in children;
        FolderStep(r0, l0, id, done, c);
        RankedMinus(r0, Under(r0, done), rank);
        DeleteTree(c, rank, bound);
        children := children - {c};
        done := done + {c};
      }
      assert done == Children(r0, id);
    }

    /**
     * `Resource.delete` followed by removing the role rows of every deleted
     * resource, so that no grant is left pointing at a resource that is gone.
     */
    method DeleteCascade(id: ResId)
      requires Valid() && Acyclic(resources) && id in resources
      modifies this`resources, this`ledger, this`roles
      ensures Valid() && Acyclic(resources) && RolesAttached()
      ensures resources == old(resources) - Subtree(old(resources), id)
      ensures ledger == RemoveVersions(old(ledger), Doomed(old(resources), old(ledger), Subtree(old(resources), id)))
      ensures roles == map k | k in old(roles) && k.resource in resources :: old(roles)[k]
      ensures old(RolesAttached()) ==>
                forall k :: k in old(roles) ==> (k in roles <==> k.resource !in Subtree(old(resources), id))
    {
      Delete(id);
      roles := map k | k in roles && k.resource in resources :: roles[k];
    }

    /** `Role.link`: add a role row for (resource, user) with the given kind. */
    method Link(res: ResId, user: UserId, kind: RoleKind) returns (outcome: LinkOutcome)
      requires res in resources
      modifies this`roles
      ensures RoleKey(res, user) in old(roles) ==> outcome == DuplicateKey && roles == old(roles)
      ensures RoleKey(res, user) !in old(roles) ==>
                outcome == Linked(Role(res, user, kind)) && roles == old(roles)[RoleKey(res, user) := kind]
      ensures old(RolesAttached()) ==> RolesAttached()
    {
      if RoleKey(res, user) in roles {
        return DuplicateKey;
      }
      roles := roles[RoleKey(res, user) := kind];
      outcome := Linked(Role(res, user, kind));
    }
  }

  /** After `update(res, parent=res)` a resource is its own parent and the tree has a cycle. */
  lemma SelfParentIsCycle(rs: Store, id: ResId)
    requires id in rs && rs[id].parent == Some(id)
    ensures !Acyclic(rs)
  {
    if Acyclic(rs) {
      var rank := SomeRank(rs);
      assert false;
    }
  }

  /** A concrete store where Update makes a folder its own parent. */
  lemma UpdateCanCreateCycle()
    ensures var rs := map[1 := Resource("docs", None, None, FolderKind, 0, None, [])];
            Acyclic(rs) && !Acyclic(rs[1 := rs[1].(parent := Some(1))])
  {
    var rs := map[1 := Resource("docs", None, None, FolderKind, 0, None, [])];
    assert Ranked(rs, map[1 := 0]);
    SelfParentIsCycle(rs[1 := rs[1].(parent := Some(1))], 1);
  }

  /**
   * A concrete store where deleting a shared folder leaves its role row behind,
   * keyed to a resource that no longer exists.
   */
  lemma DeleteLeavesRoleRows()
    ensures var rs := map[1 := Resource("shared", None, None, FolderKind, 0, None, [])];
            var roles: RoleTable := map[RoleKey(1, 7) := View];
            && Acyclic(rs)
            && Subtree(rs, 1) == {1}
            && !(forall k :: k in roles ==> k.resource in (rs - Subtree(rs, 1)))
  {
    var rs := map[1 := Resource("shared", None, None, FolderKind, 0, None, [])];
    assert Ranked(rs, map[1 := 0]);
    assert AncestorOrSelf(rs, 1, 1);
    assert RoleKey(1, 7) in map[RoleKey(1, 7) := View];
  }
}
