/**
 * The earlier revision of the drive: `File` records (files and folders), a
 * `users_files` viewer table, and an owner-only access check.
 */
module Legacy {
  import opened Basics
  import opened Versions
  import opened Roles
  import opened ResourceTree
  import opened Rights

  /** A row of the files table. The owner column is nullable here. */
  datatype File = File(name: string, extension: Option<string>, mime: Option<string>, kind: Kind,
                       owner: Option<UserId>, parent: Option<ResId>, versions: seq<VersionId>)

  type FileTable = map<ResId, File>

  /** The composite primary key (user_id, file_id) of the users_files table. */
  datatype ViewerKey = ViewerKey(user: UserId, file: ResId)

  /** The users_files table, keyed by its primary key; the value is the role text. */
  type ViewerTable = map<ViewerKey, string>

  /**
   * The store invariant: ids are below the counter, parent links and viewer rows
   * point at stored files, and every listed version exists, belongs to the file
   * listing it, and is listed once.
   */
  ghost predicate StoreConsistent(files: FileTable, viewers: ViewerTable, l: Ledger, n: ResId)
  {
    && LedgerValid(l)
    && (forall id :: id in files ==> id < n)
    && (forall id :: id in files && files[id].parent.Some? ==> files[id].parent.value in files)
    && (forall id, i :: id in files && 0 <= i < |files[id].versions| ==>
          files[id].versions[i] in l.versions && l.versions[files[id].versions[i]].file == id)
    && (forall id :: id in files ==> NoDup(files[id].versions))
    && (forall k :: k in viewers ==> k.file in files)
  }

  /**
   * The files left once `id` is deleted: the row itself goes, and the rows whose
   * parent it was lose their parent link (the self-referential relationship has no
   * delete cascade, so its foreign key is cleared).
   */
  function Detach(files: FileTable, id: ResId): (r: FileTable)
    ensures r.Keys == files.Keys - {id}
    ensures forall f :: f in r ==> r[f].parent != Some(id)
    ensures forall f :: f in r ==> r[f].(parent := files[f].parent) == files[f]
    ensures forall f :: f in r && files[f].parent != Some(id) ==> r[f] == files[f]
  {
    map f | f in files && f != id ::
      if files[f].parent == Some(id) then files[f].(parent := None) else files[f]
  }

  /** The viewer rows left once file `id` is deleted: every row of that file goes. */
  function DropViewers(viewers: ViewerTable, id: ResId): (r: ViewerTable)
    ensures forall k :: k in r <==> k in viewers && k.file != id
    ensures forall k :: k in r ==> r[k] == viewers[k]
  {
    map k | k in viewers && k.file != id :: viewers[k]
  }

  /** Deleting a file row, its versions and its viewer rows keeps the store consistent. */
  lemma DeleteConsistent(files: FileTable, viewers: ViewerTable, l: Ledger, n: ResId, id: ResId)
    requires StoreConsistent(files, viewers, l, n) && id in files
    ensures StoreConsistent(Detach(files, id), DropViewers(viewers, id),
                            RemoveVersions(l, Elems(files[id].versions)), n)
  {
    var gone := Elems(files[id].versions);
    RemoveVersionsValid(l, gone);
    var r := Detach(files, id);
    forall f, i | f in r && 0 <= i < |r[f].versions|
      ensures r[f].versions[i] !in gone
    {
      assert r[f].versions == files[f].versions;
    }
  }

  /** Adding a fresh row whose versions are new ledger entries keeps the store consistent. */
  lemma AddFileConsistent(files: FileTable, viewers: ViewerTable, l: Ledger, l': Ledger, n: ResId, f: File)
    requires StoreConsistent(files, viewers, l, n) && LedgerValid(l')
    requires forall v :: v in l.versions ==> v in l'.versions && l'.versions[v] == l.versions[v]
    requires f.parent.Some? ==> f.parent.value in files
    requires forall i :: 0 <= i < |f.versions| ==> f.versions[i] in l'.versions && l'.versions[f.versions[i]].file == n
    requires NoDup(f.versions)
    ensures StoreConsistent(files[n := f], viewers, l', n + 1)
  {
  }

  /** Appending a new version of `id` to its chain keeps the store consistent. */
  lemma AppendConsistent(files: FileTable, viewers: ViewerTable, l: Ledger, l': Ledger, n: ResId,
                         id: ResId, v: VersionId)
    requires StoreConsistent(files, viewers, l, n) && id in files && LedgerValid(l')
    requires v !in l.versions && v in l'.versions && l'.versions == l.versions[v := l'.versions[v]]
    requires l'.versions[v].file == id
    ensures StoreConsistent(files[id := files[id].(versions := files[id].versions + [v])], viewers, l', n)
  {
    assert v !in files[id].versions;
    NoDupAppend(files[id].versions, v);
  }

  class FileStore {
    var files: FileTable
    var viewers: ViewerTable
    var ledger: Ledger
    var nextId: ResId

    ghost predicate Valid()
      reads this
    {
      StoreConsistent(files, viewers, ledger, nextId)
    }

    constructor (uploadFolder: string)
      ensures Valid()
      ensures files == map[] && viewers == map[] && ledger == Ledger(uploadFolder, map[], map[], 0)
    {
      files := map[];
      viewers := map[];
      ledger := Ledger(uploadFolder, map[], map[], 0);
      nextId := 0;
    }

    /** `File.last_version`: the version of the chain with the latest creation time. */
    function LastVersion(id: ResId): (r: Option<VersionId>)
      reads this
      requires Valid() && id in files
      ensures r.None? <==> files[id].versions == []
      ensures r.Some? ==> r.value in files[id].versions
      ensures r.Some? ==> forall v :: v in files[id].versions ==> ledger.versions[v].created <= ledger.versions[r.value].created
    {
      Versions.LastVersion(ledger, files[id].versions)
    }

    /** `File.create` as intended, with the owner stored in `owner_id`: a file row with the upload as its single version. */
    method Create(name: string, extension: Option<string>, owner: Option<UserId>, parent: Option<ResId>,
                  upload: Upload, now: Time, draws: seq<string>) returns (r: Option<ResId>)
      requires Valid()
      requires parent.Some? ==> parent.value in files
      requires forall i :: 0 <= i < |draws| ==> IsKey(draws[i])
      modifies this`files, this`ledger, this`nextId
      ensures Valid()
      ensures r.None? <==> forall i :: 0 <= i < |draws| ==> draws[i] in UsedKeys(old(ledger))
      ensures r.None? ==> files == old(files) && ledger == old(ledger)
      ensures r.Some? ==>
        && r.value == old(nextId) && r.value !in old(files) && r.value in files
        && |files[r.value].versions| == 1
        && files == old(files)[r.value := File(name, extension, upload.contentType, FileKind,
                                               owner, parent, files[r.value].versions)]
        && VersionAdded(old(ledger), ledger, files[r.value].versions[0], r.value, upload.data, now)
    {
      var id := nextId;
      var created := CreateVersion(ledger, id, upload, now, draws);
      if created.None? {
        return None;
      }
      var (l', v) := created.value;
      AddFileConsistent(files, viewers, ledger, l', id, File(name, extension, upload.contentType, FileKind, owner, parent, [v]));
      files := files[id := File(name, extension, upload.contentType, FileKind, owner, parent, [v])];
      ledger := l';
      nextId := nextId + 1;
      r := Some(id);
    }

    /** `File.create_folder` as intended, with the owner stored in `owner_id`: a folder row without versions. */
    method CreateFolder(name: string, owner: Option<UserId>, parent: Option<ResId>) returns (id: ResId)
      requires Valid()
      requires parent.Some? ==> parent.value in files
      modifies this`files, this`nextId
      ensures Valid()
      ensures id == old(nextId) && id !in old(files)
      ensures files == old(files)[id := File(name, None, None, FolderKind, owner, parent, [])]
    {
      id := nextId;
      files := files[id := File(name, None, None, FolderKind, owner, parent, [])];
      nextId := nextId + 1;
    }

    /** `File.add_version`: a new version appended to the chain; earlier ones keep their order. */
    method AddVersion(id: ResId, upload: Upload, now: Time, draws: seq<string>) returns (r: Option<VersionId>)
      requires Valid() && id in files
      requires forall i :: 0 <= i < |draws| ==> IsKey(draws[i])
      modifies this`files, this`ledger
      ensures Valid()
      ensures r.None? <==> forall i :: 0 <= i < |draws| ==> draws[i] in UsedKeys(old(ledger))
      ensures r.None? ==> files == old(files) && ledger == old(ledger)
      ensures r.Some? ==>
        && files == old(files)[id := old(files[id]).(versions := old(files[id].versions) + [r.value])]
        && VersionAdded(old(ledger), ledger, r.value, id, upload.data, now)
    {
      var created := CreateVersion(ledger, id, upload, now, draws);
      if created.None? {
        return None;
      }
      var (l', v) := created.value;
      AppendConsistent(files, viewers, ledger, l', nextId, id, v);
      files := files[id := files[id].(versions := files[id].versions + [v])];
      ledger := l';
      r := Some(v);
    }

    /**
     * `File.delete`: every version of the row goes (blob and record), then the row
     * itself with its viewer rows. Children are not deleted; they become roots.
     */
    method Delete(id: ResId)
      requires Valid() && id in files
      modifies this`files, this`viewers, this`ledger
      ensures Valid()
      ensures ledger == RemoveVersions(old(ledger), Elems(old(files[id].versions)))
      ensures files == Detach(old(files), id)
      ensures viewers == DropViewers(old(viewers), id)
    {
      ghost var f0, v0, l0 := files, viewers, ledger;
      var vs := files[id].versions;
      var i := 0;
      while i < |vs|
        invariant 0 <= i <= |vs|
        invariant files == f0 && viewers == v0
        invariant ledger == RemoveVersions(l0, Elems(vs[..i]))
      {
        DropNext(l0, vs, i);
        ledger := DeleteVersion(ledger, vs[i]);
        i := i + 1;
      }
      assert vs[..i] == vs;
      assert ledger == RemoveVersions(l0, Elems(f0[id].versions));
      DeleteConsistent(files, viewers, l0, nextId, id);
      files := Detach(files, id);
      viewers := DropViewers(viewers, id);
    }
  }

  /** What `check_file_rights` may be handed as a user: nothing, a User, or something else. */
  datatype UserArg = NoUser | UserObj(id: UserId) | OtherUserArg

  /** What `check_file_rights` may be handed as a file: nothing, a File (its owner), or something else. */
  datatype FileArg = NoFile | FileObj(owner: Option<UserId>) | OtherFileArg

  /** `check_file_rights`: only a File's owner, given as a User, has rights on it. */
  function CheckFileRights(file: FileArg, user: UserArg): (ok: bool)
    ensures ok ==> file.FileObj? && user.UserObj?
    ensures file.FileObj? && user.UserObj? ==> (ok <==> file.owner == Some(user.id))
  {
    if user.NoUser? || !user.UserObj? || file.NoFile? || !file.FileObj? then false
    else file.owner == Some(user.id)
  }

  /** The viewer table plays no part: a viewer row grants nothing to a non-owner. */
  lemma ViewersGrantNothing(fs: FileStore, id: ResId, user: UserId)
    requires fs.Valid() && id in fs.files && fs.files[id].owner != Some(user)
    requires ViewerKey(user, id) in fs.viewers
    ensures !CheckFileRights(FileObj(fs.files[id].owner), UserObj(user))
  {
  }

  /**
   * The owner-only check is what the resource check becomes when nobody holds a
   * grant: for every action, on a resource whose parent chain carries no role for
   * the user, both checks agree.
   */
  lemma OwnerOnlyIsRightsWithoutGrants(rs: Store, roles: RoleTable, id: ResId, user: UserId, action: string)
    requires Closed(rs) && Acyclic(rs) && id in rs
    requires forall a :: AncestorOrSelf(rs, a, id) ==> RoleKey(a, user) !in roles
    ensures CheckResourceRights(rs, roles, Some(id), user, action)
            == CheckFileRights(FileObj(Some(rs[id].owner)), UserObj(user))
  {
    GetRightsNearest(rs, roles, id, user);
  }
}
