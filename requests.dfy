/**
 * The request-layer pieces of the resource controller that hold logic: the
 * validation of folder creation, the filename split of an upload, and the choice
 * of update parameters.
 */
module Requests {
  import opened Basics
  import opened Names
  import opened Versions
  import opened ResourceTree
  import opened ResourceStore

  const NameRequired: string := "Name parameter required."
  const TypeRequired: string := "Type parameter required."
  const NoContent: string := "Cannot create file without content."
  const NotAType: string := "Not a valid type"
  const FileRequired: string := "File parameter required."
  const NoSelectedFile: string := "No selected file."

  /**
   * `Resource.query.get`: the resource with the requested id, or nothing when the id
   * is null or unknown.
   */
  function LookUp(rs: Store, requested: Option<nat>): (r: Option<ResId>)
    ensures r.Some? <==> requested.Some? && requested.value in rs
    ensures r.Some? ==> r.value == requested.value
  {
    if requested.Some? && requested.value in rs then Some(requested.value) else None
  }

  /**
   * The checks of `resource_create`, collecting one message per problem: a missing
   * name, a missing type, the type 'file', and a type that is no resource type.
   */
  method ValidateCreate(name: Option<string>, rtype: Option<string>) returns (messages: seq<string>)
    ensures NameRequired in messages <==> name.None?
    ensures TypeRequired in messages <==> rtype.None?
    ensures NoContent in messages <==> rtype == Some("file")
    ensures NotAType in messages <==> rtype.Some? && !IsKindName(rtype.value)
    ensures forall m :: m in messages ==> m in [NameRequired, TypeRequired, NoContent, NotAType]
    ensures NoDup(messages)
    ensures messages == [] <==> name.Some? && rtype == Some("folder")
  {
    messages := [];
    if name.None? {
      messages := messages + [NameRequired];
    }
    if rtype.None? {
      messages := messages + [TypeRequired];
    } else {
      if rtype.value == KindName(FileKind) {
        messages := messages + [NoContent];
      }
      if !IsKindName(rtype.value) {
        messages := messages + [NotAType];
      }
    }
  }

  datatype CreateOutcome = CreateRejected(messages: seq<string>) | FolderCreated(id: ResId)

  /**
   * `resource_create`: a folder named `name` under the requested parent, created only
   * when validation found nothing; otherwise a bad request and no change.
   */
  method ResourceCreate(d: Drive, name: Option<string>, rtype: Option<string>, parentId: Option<nat>,
                        owner: UserId) returns (outcome: CreateOutcome)
    requires d.Valid()
    requires LookUp(d.resources, parentId).Some? ==> d.resources[parentId.value].kind == FolderKind
    modifies d`resources, d`nextId
    ensures d.Valid()
    ensures outcome.CreateRejected? <==> !(name.Some? && rtype == Some("folder"))
    ensures outcome.CreateRejected? ==>
              outcome.messages != [] && d.resources == old(d.resources) && d.nextId == old(d.nextId)
    ensures outcome.CreateRejected? ==>
              && (NameRequired in outcome.messages <==> name.None?)
              && (TypeRequired in outcome.messages <==> rtype.None?)
              && (NoContent in outcome.messages <==> rtype == Some("file"))
              && (NotAType in outcome.messages <==> rtype.Some? && !IsKindName(rtype.value))
              && NoDup(outcome.messages)
    ensures outcome.FolderCreated? ==>
              outcome.id !in old(d.resources) &&
              d.resources == old(d.resources)[outcome.id := Resource(name.value, None, None, FolderKind, owner,
                                                                     LookUp(old(d.resources), parentId), [])]
  {
    var messages := ValidateCreate(name, rtype);
    if messages != [] {
      return CreateRejected(messages);
    }
    var parent := LookUp(d.resources, parentId);
    var id := d.CreateFolder(name.value, owner, parent);
    outcome := FolderCreated(id);
  }

  datatype UploadOutcome = UploadRejected(message: string) | Uploaded(id: ResId) | NoFreshKey

  /**
   * `file_upload`: reject a missing or unnamed upload; otherwise split the filename at
   * its last dot into name and extension and create the file under the requested parent.
   */
  method FileUpload(d: Drive, upload: Option<Upload>, parentId: Option<nat>, owner: UserId,
                    now: Time, draws: seq<string>) returns (outcome: UploadOutcome)
    requires d.Valid()
    requires LookUp(d.resources, parentId).Some? ==> d.resources[parentId.value].kind == FolderKind
    requires forall i :: 0 <= i < |draws| ==> IsKey(draws[i])
    modifies d`resources, d`ledger, d`nextId
    ensures d.Valid()
    ensures upload.None? ==> outcome == UploadRejected(FileRequired)
    ensures upload.Some? && upload.value.filename == [] ==> outcome == UploadRejected(NoSelectedFile)
    ensures upload.Some? && upload.value.filename != [] ==>
              !outcome.UploadRejected? &&
              (outcome.NoFreshKey? <==> forall i :: 0 <= i < |draws| ==> draws[i] in UsedKeys(old(d.ledger)))
    ensures outcome.UploadRejected? || outcome.NoFreshKey? ==>
              d.resources == old(d.resources) && d.ledger == old(d.ledger)
    ensures outcome.Uploaded? ==>
              && upload.Some? && outcome.id in d.resources
              && |d.resources[outcome.id].versions| == 1
              && d.resources == old(d.resources)[outcome.id :=
                   Resource(SplitFilename(upload.value.filename).0, SplitFilename(upload.value.filename).1,
                            upload.value.contentType, FileKind, owner, LookUp(old(d.resources), parentId),
                            d.resources[outcome.id].versions)]
              && VersionAdded(old(d.ledger), d.ledger, d.resources[outcome.id].versions[0], outcome.id,
                              upload.value.data, now)
    ensures outcome.Uploaded? ==>
              && upload.Some? && outcome.id !in old(d.resources) && outcome.id in d.resources
              && var res := d.resources[outcome.id];
              && res.kind == FileKind && res.owner == owner && res.parent == LookUp(old(d.resources), parentId)
              && (res.extension.Some? ==> DotFree(res.extension.value)
                                          && res.name + "." + res.extension.value == upload.value.filename)
              && (res.extension.None? <==> DotFree(upload.value.filename))
              && (res.extension.None? ==> res.name == upload.value.filename)
  {
    if upload.None? {
      return UploadRejected(FileRequired);
    }
    var file := upload.value;
    if file.filename == "" {
      return UploadRejected(NoSelectedFile);
    }
    var parent := LookUp(d.resources, parentId);
    var (name, extension) := SplitFilename(file.filename);
    var r := d.CreateFile(name, extension, owner, parent, file, now, draws);
    if r.None? {
      return NoFreshKey;
    }
    outcome := Uploaded(r.value);
  }

  /**
   * The body of a `file_update` request: for each key, whether it is present and,
   * if so, its value (a null id is `None`).
   */
  datatype UpdateBody = UpdateBody(name: Option<string>, extension: Option<Option<string>>,
                                   parentId: Option<Option<nat>>)

  /** The keyword arguments `file_update` passes to `Resource.update`. */
  datatype UpdateParams = UpdateParams(name: Option<string>, extension: Option<Option<string>>,
                                       parent: Option<Option<ResId>>)

  /**
   * The parameter selection of `file_update`: forward the keys present in the body,
   * the extension only for a file, and the parent as looked up.
   */
  method SelectUpdateParams(rs: Store, body: UpdateBody, isFile: bool) returns (params: UpdateParams)
    ensures params.name == body.name
    ensures params.extension.Some? <==> body.extension.Some? && isFile
    ensures params.extension.Some? ==> params.extension == body.extension
    ensures params.parent.Some? <==> body.parentId.Some?
    ensures params.parent.Some? ==> params.parent.value == LookUp(rs, body.parentId.value)
  {
    params := UpdateParams(None, None, None);
    if body.name.Some? {
      params := params.(name := body.name);
    }
    if body.extension.Some? && isFile {
      params := params.(extension := body.extension);
    }
    if body.parentId.Some? {
      var parent := LookUp(rs, body.parentId.value);
      params := params.(parent := Some(parent));
    }
  }

  /**
   * `file_update`: the selected parameters applied with `Resource.update`. A folder's
   * extension is never touched, and an absent key leaves its field as it was.
   */
  method FileUpdate(d: Drive, id: ResId, body: UpdateBody)
    requires d.Valid() && id in d.resources
    requires body.parentId.Some? && LookUp(d.resources, body.parentId.value).Some? ==>
               d.resources[body.parentId.value.value].kind == FolderKind
    modifies d`resources
    ensures d.Valid() && id in d.resources
    ensures d.resources == old(d.resources)[id := Updated(old(d.resources[id]), body.name,
                             if old(d.resources[id].kind) == FileKind then body.extension else None,
                             if body.parentId.Some? then Some(LookUp(old(d.resources), body.parentId.value)) else None)]
    ensures old(d.resources[id].kind) == FolderKind ==> d.resources[id].extension == old(d.resources[id].extension)
  {
    var params := SelectUpdateParams(d.resources, body, d.resources[id].kind == FileKind);
    d.Update(id, params.name, params.extension, params.parent);
  }
}
