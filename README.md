# polydrive resource core in Dafny

polydrive is a small file-hosting service. Users keep files and folders in a tree,
every file keeps a chain of content versions stored as blobs in an upload folder, and a
resource can be shared with other users through roles of kind `view` or `edit`. Roles
are inherited downwards: the nearest grant on the path from a resource to its root
decides what a non-owner may do. As written, the lookup reads an attribute that roles
do not have and raises on the first role row it meets; the model keeps that behaviour
and, beside it, the corrected lookup that the rest of the rights model uses (see Findings).

This project models that core:

- `Basics`: ids, `Option`, the resource kinds and the `ResourceType.__contains__` test.
- `Names`: the upload-time split of a filename into name and extension, and `real_name`.
- `Versions`: the version ledger. It holds the version records and the blob store of the
  upload folder, with the fresh-key loop of `Version.create`, `Version.delete`,
  `real_path` and `last_version`.
- `Roles`: the role kinds and the `(resource, user)` key of the roles table.
- `ResourceTree`: resource records and parent links. It covers acyclicity, the
  ancestor relation, subtrees and `get_rights` (nearest grant wins).
- `ResourceStore`: the `Drive` class. Its fields hold the resources, roles and versions
  tables. Its methods are the operations of the `Resource` model that change those
  tables (`create`, `create_folder`, `update`, `add_version`, `delete`) and `Role.link`.
- `Rights`: `check_resource_rights`.
- `Legacy`: the earlier `File` model (`FileStore` class), its `users_files` table and
  the owner-only `check_file_rights`.
- `Requests`: the controller pieces that carry logic:
  - the validation in `resource_create`;
  - the filename split in `file_upload`;
  - the parameter selection in `file_update`.
- `Messages`: the `ApiMessage` envelope, `http_format` and the `MessageBuilder` table.

State that the source changes in place is modelled as a class with `modifies` clauses:
`Drive` and `FileStore`. Pure logic is modelled as functions and lemmas.

The store invariant `Drive.Valid` (`ResourceStore.Consistent`) says the following:

- the ledger is consistent: version keys are unique 100-character `[a-z0-9]` strings,
  and there is exactly one blob per version, at the version's path;
- parent links point at stored folders (an assumption of the model, see "## Left out");
- every version a resource lists exists, belongs to that resource and is listed once.

Acyclicity of the parent links (`ResourceTree.Acyclic`) is kept separately. The reason
is that `update` can break it (see Findings). `get_rights` and `delete` require it, in
order to terminate.

## Model

| member | source | states |
|---|---|---|
| Basics.IsKindName | polydrive/models/resource.py:114-115 | an item is a resource type exactly when it is the name of one of the two kinds, "file" or "folder" |
| Names.SplitFilename | polydrive/controllers/resource.py:148-152 | the split at the last dot gives a dot-free extension with name + "." + extension == filename; the extension is None exactly when the filename has no dot, and then the name is the whole filename |
| Names.SplitThenJoin | polydrive/models/resource.py:26-28 | for a filename with a dot, real_name of its split is the filename again |
| Names.RealName | polydrive/models/resource.py:26-28 | name + "." + extension, with a missing extension rendered as the text None |
| Names.SplitThenJoinNoDot | polydrive/models/resource.py:26-28 | for a filename without a dot, real_name of its split is the filename followed by ".None" |
| Names.JoinThenSplit | polydrive/controllers/resource.py:148-152 | splitting real_name(name, ext) recovers name and ext for every dot-free ext |
| Versions.RealPathJoin | polydrive/models/version.py:23-25 | os.path.join of the upload folder and the key: the key alone under an empty folder, otherwise the folder, exactly one '/', then the key |
| Versions.RealPathInjective | polydrive/models/version.py:23-25 | the blob path depends on the key alone: equal paths mean equal keys |
| Versions.FreshKey | polydrive/models/version.py:36-38 | the retry loop returns a drawn key that no version uses, and fails only when every draw is already in use |
| Versions.CreateVersion | polydrive/models/version.py:34-43 | a new version with a fresh key, the given file and time; the blob is written at its path, and nothing else changes; the ledger stays consistent |
| Versions.AddVersionValid | polydrive/models/version.py:19 | adding a version under a fresh 100-character key keeps keys unique and keeps blobs and records one-to-one |
| Versions.RemoveVersionsValid | polydrive/models/version.py:45-48 | removing versions together with their blobs keeps the ledger consistent |
| Versions.RemoveVersionsCompose | polydrive/models/version.py:45-48 | removing one set of versions and then another is the same as removing their union |
| Versions.DeleteVersion | polydrive/models/version.py:45-48 | the version record and the blob at its path are gone, and everything else is kept |
| Versions.RemoveOne | polydrive/models/version.py:47 | deleting one version removes exactly the blob at that version's path |
| Versions.MaxIndex | polydrive/models/resource.py:31-32 | `max` by created picks an element with the greatest timestamp, the first such in the chain |
| Versions.LastVersion | polydrive/models/resource.py:30-32 | None exactly for an empty chain; otherwise a member of the chain whose created is at least that of every other version |
| Versions.LatestIsLast | polydrive/models/resource.py:30-32 | when the last version of a chain is strictly newer than every other version, last_version returns it |
| Versions.DropNext | polydrive/models/resource.py:88-89 | deleting a file's versions one at a time, in chain order, removes exactly the versions deleted so far |
| Roles.ParseRole | polydrive/models/role.py:33-43 | the role kinds are exactly "edit" and "view", and each parses back to its own name |
| Roles.RoleNameRoundTrip | polydrive/models/role.py:33-43 | every role kind's name parses back to that kind |
| ResourceTree.RankOrder | polydrive/models/resource.py:100-101 | in an acyclic tree every proper ancestor has a smaller rank, so walking up the parents terminates |
| ResourceTree.AncestorAntisymmetric | polydrive/models/resource.py:19 | two resources that are each other's ancestors are the same resource |
| ResourceTree.AncestorTransitive | polydrive/models/resource.py:19 | an ancestor of an ancestor is an ancestor |
| ResourceTree.AncestorsLinear | polydrive/models/resource.py:100-101 | the ancestors of a resource form a single chain |
| ResourceTree.BelowSomeChild | polydrive/models/resource.py:90-92 | every proper descendant of a folder lies below one of its direct children |
| ResourceTree.SubtreeSplit | polydrive/models/resource.py:90-93 | a subtree is its root plus the subtrees of the root's children, which is the recursion of `delete` |
| ResourceTree.UnderInsert | polydrive/models/resource.py:91-92 | the resources below a set of children grow by exactly one subtree per child |
| ResourceTree.SubStoreAncestor | polydrive/models/resource.py:19 | removing rows never creates new ancestor links |
| ResourceTree.SurvivingWalk | polydrive/models/resource.py:91-92 | a subtree untouched by a deletion keeps its ancestor links |
| ResourceTree.SubStoreAcyclic | polydrive/models/resource.py:85-93 | deleting rows keeps the tree acyclic |
| ResourceTree.AddLeafAcyclic | polydrive/models/resource.py:55-62 | adding a resource under an existing parent, or as a root, keeps the tree acyclic |
| ResourceTree.SameParentsAcyclic | polydrive/models/resource.py:66-69 | changing anything but the parent keeps the tree acyclic |
| ResourceTree.MoveAcyclic | polydrive/models/resource.py:70-71 | re-parenting a resource under one outside its own subtree keeps the tree acyclic |
| ResourceTree.GetRights | polydrive/models/resource.py:95-102 | the corrected lookup (see Findings): a found role is for the requested user and is a row of the roles table with its stored kind |
| ResourceTree.GetRightsNearest | polydrive/models/resource.py:95-102 | of the corrected lookup (see Findings): it is None exactly when no ancestor-or-self grants the user a role; otherwise it returns the grant nearest to the resource |
| ResourceTree.NearestGrantUnique | polydrive/models/resource.py:97-101 | there is only one nearest grant, so the answer of get_rights is determined |
| ResourceTree.GetRightsAsWritten | polydrive/models/resource.py:95-102 | get_rights as written: the loop reads `role.user_id`, which Role does not define, so it raises on a resource with any role row; it never returns a role |
| ResourceTree.GetRightsAsWrittenRaises | polydrive/models/resource.py:95-102 | the lookup as written raises exactly when some ancestor-or-self has a role row for any user, and otherwise returns None, as the corrected lookup then does |
| ResourceStore.RankBound | polydrive/models/resource.py:86-93 | every finite rank has a bound, which gives the recursion of delete its measure |
| ResourceStore.SiblingsDisjoint | polydrive/models/resource.py:91-92 | two children of one folder have disjoint subtrees, so deleting one leaves the other intact |
| ResourceStore.SiblingSubtreeIntact | polydrive/models/resource.py:91-92 | after some children of a folder are deleted, a remaining child still has its whole subtree |
| ResourceStore.DoomedStep | polydrive/models/resource.py:88-92 | the versions removed by deleting two disjoint groups one after the other are those of their union |
| ResourceStore.DeleteConsistent | polydrive/models/resource.py:85-93 | removing a subtree together with the versions of its files keeps the store consistent |
| ResourceStore.AddResourceConsistent | polydrive/models/resource.py:55-62 | adding a resource whose versions exist and belong to it keeps the store consistent |
| ResourceStore.ReplaceConsistent | polydrive/models/resource.py:64-71 | rewriting name, extension or parent (to a stored folder) keeps the store consistent |
| ResourceStore.AppendVersionConsistent | polydrive/models/resource.py:79-83 | appending a new version of this resource keeps the store consistent |
| ResourceStore.FolderStep | polydrive/models/resource.py:91-92 | one step of the children loop deletes exactly one more child's subtree |
| ResourceStore.RankedMinus | polydrive/models/resource.py:93 | a rank of the tree remains a rank after rows are deleted |
| ResourceStore.FolderStart | polydrive/models/resource.py:90-91 | before the children loop nothing is deleted |
| ResourceStore.FolderFinish | polydrive/models/resource.py:90-93 | deleting every child's subtree and then the folder removes the folder's whole subtree and keeps the store consistent |
| ResourceStore.FileSubtree | polydrive/models/resource.py:87-89 | a file's subtree is the file alone, and the versions it takes with it are exactly its chain |
| ResourceStore.Updated | polydrive/models/resource.py:64-71 | each supplied field takes the new value, each absent field keeps the old one, and the type, owner, mime and versions never change |
| ResourceStore.Drive.constructor | polydrive/models/resource.py:11 | an empty consistent store whose blobs go to the upload folder |
| ResourceStore.Drive.CreateFile | polydrive/models/resource.py:55-62 | a new resource of type file with the given name, extension, owner, parent and mime, and exactly one version holding the upload; nothing else changes; fails without change only when no fresh key was drawn |
| ResourceStore.Drive.CreateFolder | polydrive/models/resource.py:73-77 | a new resource of type folder with no versions, no extension and no mime; nothing else changes |
| ResourceStore.Drive.Update | polydrive/models/resource.py:64-71 | only the resource updated changes, and only in the supplied fields; acyclicity is kept when the parent is not supplied |
| ResourceStore.Drive.InSubtree | polydrive/models/resource.py:70-71 | helper of the corrected update, with no counterpart in the source: it walks up the parents from q, as get_rights does, and meets id exactly when q is in id's subtree |
| ResourceStore.Drive.UpdateChecked | polydrive/models/resource.py:64-71 | the corrected update refuses exactly a move into the resource's own subtree, and otherwise behaves as update; it always keeps the tree acyclic |
| ResourceStore.Drive.AddVersion | polydrive/models/resource.py:79-83 | exactly one new version is appended at the end of the chain, earlier ones kept in order; it becomes the last version when it is the newest |
| ResourceStore.Drive.Delete | polydrive/models/resource.py:85-93 | afterwards the whole former subtree is gone with every version and blob of its files, everything else is kept; the role rows are untouched, so a role on a deleted resource is left referring to no resource |
| ResourceStore.Drive.DeleteTree | polydrive/models/resource.py:86-93 | the recursive step: deletes the subtree of id and the versions of its files |
| ResourceStore.Drive.DeleteFile | polydrive/models/resource.py:87-89 | deletes each version of a file, then the file |
| ResourceStore.Drive.DeleteFolder | polydrive/models/resource.py:90-93 | deletes each child recursively, then the folder |
| ResourceStore.Drive.DeleteChildren | polydrive/models/resource.py:91-92 | the children loop deletes exactly the subtrees of all children of the folder |
| ResourceStore.Drive.DeleteCascade | polydrive/models/resource.py:85-93 | the corrected delete also removes exactly the role rows of the deleted resources, so every remaining role refers to a stored resource |
| ResourceStore.Drive.Link | polydrive/models/role.py:26-30 | adds exactly one role row with the given resource, user and kind; an existing (resource, user) pair is a duplicate key and changes nothing |
| ResourceStore.SelfParentIsCycle | polydrive/models/resource.py:70-71 | a resource that is its own parent makes the tree cyclic |
| ResourceStore.UpdateCanCreateCycle | polydrive/models/resource.py:70-71 | an acyclic one-folder store becomes cyclic when update sets the folder's parent to itself |
| ResourceStore.DeleteLeavesRoleRows | polydrive/models/resource.py:85-93 | a shared folder deleted by delete leaves its role row keyed to a resource that no longer exists |
| Rights.CheckResourceRights | polydrive/services/resources.py:5-23 | over the corrected lookup (see Findings): a missing resource is refused; the owner is allowed every action; a non-owner is allowed only with a grant, and only to view or edit |
| Rights.ReadIffGrant | polydrive/services/resources.py:17-20 | with the corrected lookup (see Findings): a non-owner may view exactly when some ancestor-or-self grants any role |
| Rights.WriteIffNearestEdit | polydrive/services/resources.py:17-22 | with the corrected lookup (see Findings): a non-owner may edit exactly when the nearest grant is an edit role |
| Rights.WriteImpliesRead | polydrive/services/resources.py:15-22 | with the corrected lookup (see Findings): whoever may edit may also view |
| Rights.OtherActionsDenied | polydrive/services/resources.py:23 | with the corrected lookup (see Findings): a non-owner is refused any action other than view and edit, such as delete |
| Rights.NoGrantDenied | polydrive/services/resources.py:17-18 | with the corrected lookup (see Findings): a non-owner with no grant up the parent chain is refused every action |
| Rights.NearestGrantScenario | polydrive/services/resources.py:15-22 | with the corrected lookup (see Findings): on a shared folder holding two files, a closer edit grant overrides an inherited view grant, a view grant alone does not allow edit, and an unshared user is refused |
| Rights.CheckResourceRightsAsWritten | polydrive/services/resources.py:5-23 | the check as written, over the lookup as written: a missing resource is refused and the owner allowed; for anyone else the call may raise |
| Rights.NonOwnerAsWritten | polydrive/services/resources.py:17-23 | as written a non-owner is never allowed anything: the check raises exactly when a role row lies on the path to the root, and otherwise refuses, as the corrected check does there |
| Rights.AsWrittenScenarioRaises | polydrive/models/resource.py:98 | on a shared folder holding a file shared for editing, the check as written raises for the grantee and for another user, where the corrected check lets the grantee edit |
| Legacy.Detach | polydrive/models/file.py:28 | deleting a file leaves its former children in place as roots and changes nothing else about them |
| Legacy.DropViewers | polydrive/models/file.py:5-8 | the users_files rows of the deleted file are removed and no other row |
| Legacy.DeleteConsistent | polydrive/models/file.py:79-83 | removing a file with its versions, its viewer rows and its children's links keeps the store consistent |
| Legacy.AddFileConsistent | polydrive/models/file.py:59-71 | adding a file whose versions exist and belong to it keeps the store consistent |
| Legacy.AppendConsistent | polydrive/models/file.py:73-77 | appending a new version of this file keeps the store consistent |
| Legacy.FileStore.constructor | polydrive/models/file.py:17 | an empty consistent store |
| Legacy.FileStore.LastVersion | polydrive/models/file.py:35-37 | None exactly for an empty chain; otherwise a member with the greatest created |
| Legacy.FileStore.Create | polydrive/models/file.py:59-65 | intended create (as written the constructor raises, see Left out): a new file with the given details and exactly one version holding the upload; fails without change only when no fresh key was drawn |
| Legacy.FileStore.CreateFolder | polydrive/models/file.py:67-71 | intended create (as written the constructor raises, see Left out): a new folder with no versions; nothing else changes |
| Legacy.FileStore.AddVersion | polydrive/models/file.py:73-77 | exactly one new version appended at the end of the chain, earlier ones kept |
| Legacy.FileStore.Delete | polydrive/models/file.py:79-83 | every version of the file and its blob are removed, then the file; children are not deleted |
| Legacy.CheckFileRights | polydrive/services/files.py:4-9 | a missing or ill-typed user or file is refused; otherwise the result is true exactly for the owner |
| Legacy.ViewersGrantNothing | polydrive/services/files.py:8 | a users_files row gives a non-owner no rights |
| Legacy.OwnerOnlyIsRightsWithoutGrants | polydrive/services/files.py:8 | with no grants up the chain, the later resource check over the corrected lookup (see Findings), agrees with the owner-only check for every action |
| Requests.LookUp | polydrive/controllers/resource.py:74-75 | `query.get` finds a resource exactly when the id is given and stored |
| Requests.ValidateCreate | polydrive/controllers/resource.py:58-69 | one message each for a missing name, a missing type, the type file and a type that is neither kind, each message present exactly when its condition holds; no message exactly for a named folder |
| Requests.ResourceCreate | polydrive/controllers/resource.py:55-78 | a request with messages is rejected with exactly the messages collected (each present exactly when its condition holds, none twice) and changes nothing; otherwise exactly one folder is created under the looked-up parent |
| Requests.FileUpload | polydrive/controllers/resource.py:140-155 | a missing file or an empty filename is rejected with its message and no change; any other upload is accepted, and fails only when every drawn key is in use; an accepted upload adds exactly one file with exactly one version, whose name and extension are the split of the filename, under the looked-up parent, and nothing else changes |
| Requests.SelectUpdateParams | polydrive/controllers/resource.py:113-120 | the name and parent are forwarded exactly when present; the extension is forwarded exactly when present and the resource is a file |
| Requests.FileUpdate | polydrive/controllers/resource.py:111-121 | the new store is the old one with this resource updated: name and parent (as looked up) when present, the extension when present and the resource is a file; every other field and every other resource is kept |
| Messages.AsList | polydrive/services/messages.py:9-10 | a list is kept and anything else is wrapped into a one-element list |
| Messages.NewMessage | polydrive/services/messages.py:5-11 | code 200, status "OK", no messages and no content unless given |
| Messages.Body | polydrive/services/messages.py:14-20 | the body holds code, status and messages, and holds content exactly when it is not null |
| Messages.HttpFormat | polydrive/services/messages.py:13-21 | the status code sent with the body is the message's code |
| Messages.BodyRoundTrip | polydrive/services/messages.py:5-20 | a body read back as keyword arguments rebuilds the message |
| Messages.NewMessageIdempotent | polydrive/services/messages.py:5-11 | constructing from a constructed message's body changes nothing |
| Messages.Build | polydrive/services/messages.py:25-27 | every keyword is passed, so a null messages value becomes [null] |
| Messages.Ok | polydrive/services/messages.py:29-31 | code 200, status OK |
| Messages.Created | polydrive/services/messages.py:33-35 | code 201, status CREATED |
| Messages.BadRequest | polydrive/services/messages.py:37-39 | code 400, status BAD REQUEST |
| Messages.Unauthorized | polydrive/services/messages.py:41-43 | code 401, status UNAUTHORIZED |
| Messages.NotFound | polydrive/services/messages.py:45-47 | code 404, status NOT FOUND |
| Messages.BuilderDefaults | polydrive/services/messages.py:25-47 | with default arguments each builder sends its own code and status, messages [null] and no content |
| Messages.MessagesNormalised | polydrive/services/messages.py:8-10 | a single message string is sent as a one-element list, and a list as itself |

## Left out

- HTTP routing, Flask-Login, CORS and the middleware decorators are not modelled. The
  caller is passed in as an authenticated user id. A requested parent id that is not
  stored is looked up as None, so the resource goes to the root, as `query.get` does.
- ResourceStore.Drive.CreateFile, CreateFolder and Update require a given parent to be
  a stored folder, and `Consistent` keeps every parent a folder. The source does not
  check this: `Resource.create`, `create_folder` and `update`
  (polydrive/models/resource.py:55-77) accept any parent, a file included, and the
  controllers name a `parent_middleware` that polydrive/services/middleware.py does not
  define. The model assumes the check.
- ResourceStore.Drive.Delete: deleting a file that has children is not modelled. The
  folder-only parent assumption rules such files out. In the source, the delete of a
  file (polydrive/models/resource.py:87-89) deletes its versions and the file, and it
  leaves the file's children in place.
- Randomness: `random.choices` is modelled as a finite sequence of drawn keys. When
  every draw is already in use, the operation fails with no change. The source loops
  until it finds a fresh key.
- The clock is modelled as a `now` parameter. The file system is modelled as the blob
  map of the ledger: `buffer.save` writes an entry and `os.remove` removes one.
- JSON serialisation (`serialized`, `deep`, `jsonify`) is not modelled. Neither is the
  JSON encoding of request bodies. Request fields are modelled as optional strings, so
  a non-string name or type is not modelled.
- Transactions, `db.session.commit` and concurrency are not modelled. Each operation is
  one atomic step on the store.
- polydrive/controllers/share.py is routing only and cannot run as written: it calls
  `role_type.values()`, imports an undefined `conflict`, and tests `role is None` after
  `Role.link`. Sharing is modelled through `Drive.Link` alone. The code has no subtree
  pruning, re-share upgrade or unshare operation, so none is modelled.
- Roles.ParseRole: the roles table's `type` column is free text. The model keeps only
  the two kinds that `RoleType` names.
- Versions.CreateVersion: the version mappings cannot be configured as declared. The
  record's only link column, `file_id`, references the legacy `files` table
  (polydrive/models/version.py:20), so `Resource.versions`
  (polydrive/models/resource.py:21) has no foreign key to join on. Both `Resource.versions`
  and `File.versions` (polydrive/models/file.py:27) also declare the same backref `file`
  on `Version`. The ORM refuses either at mapper configuration. The model follows the
  evident intent: each version is linked to its owning resource.
- `file_upload_version` and the download route are not modelled. Appending a version
  is modelled by `Drive.AddVersion`.
- ResourceStore.Drive.Delete requires the tree to be acyclic, because the recursion in
  `delete` does not terminate on a cycle. `update` can create a cycle (see Findings).
- ResourceStore.Drive.Delete, ORM behaviour: `delete` issues no delete for Role rows,
  and the `roles` relationship has no delete cascade. The model keeps those rows. A
  flush in which the ORM instead tries to clear the `r_id` key column, and fails, is
  not modelled.
- Legacy.FileStore.Delete, ORM behaviour: the model removes the file's `users_files`
  rows, which the ORM does for a secondary table. It sets the children's parent link
  to None, which is what the ORM does for a relationship without delete cascade.
- The `users_files` role column is free text and is kept as a string. No operation in
  the legacy model writes it.
- The `mime`, `type` and owner columns are not re-validated by `update`. The model
  forwards only name, extension and parent, as the source does.
- The users table, bcrypt hashing and the CLI scripts are outside the model.
- CheckResourceRights: is the check over the corrected lookup. The check as written is `Rights.CheckResourceRightsAsWritten`.
- GetRightsNearest: describes the corrected lookup. As written, `get_rights` raises on the first role row of the walk (see Findings), so no grant is ever returned.
- ReadIffGrant: describes the corrected check. As written, a non-owner's view check raises when a role row lies on the path and is refused otherwise (`Rights.NonOwnerAsWritten`).
- WriteIffNearestEdit: describes the corrected check. As written, a non-owner's edit check raises instead of answering from the nearest grant (`Rights.NonOwnerAsWritten`).
- OtherActionsDenied: describes the corrected check. As written, `get_rights` runs before the action test, so the check raises rather than refusing when a role row lies on the path.
- NoGrantDenied: describes the corrected check. As written, another user's role row on the path makes the check raise rather than refuse.
- NearestGrantScenario: describes the corrected check. As written, every non-owner check on that tree raises (`Rights.AsWrittenScenarioRaises`).
- Legacy.FileStore.Create: as written, the constructor call at polydrive/models/file.py:62 passes `owner=`, but `File` maps only the `owner_id` column and has no `owner` attribute, so the call raises TypeError before `Version.create` runs, and nothing is stored or written. The model keeps the evidently intended behaviour: the file stored with `owner_id` set to the owner.
- Legacy.FileStore.CreateFolder: as written, the constructor call at polydrive/models/file.py:69 passes `owner=`, which `File` does not map, so it raises TypeError and stores nothing. The model keeps the evidently intended behaviour: the folder stored with `owner_id` set to the owner.
- OwnerOnlyIsRightsWithoutGrants: compares with the corrected check. As written, the resource check raises when another user's role row lies on the path.

## Findings

| source | as written | input that shows it | evidently intended | confidence | as-written member | corrected member |
|---|---|---|---|---|---|---|
| polydrive/models/resource.py:85-93 | `delete` removes the subtree and its versions, but no Role row of a deleted resource | a folder 1 shared with user 7 through the role (1, 7), then deleted: the role row (1, 7) remains and refers to no resource | every role edge on a deleted resource is removed with it | medium, not executed: with the ORM the flush may fail on the role's key column instead of leaving the row | ResourceStore.Drive.Delete, ResourceStore.DeleteLeavesRoleRows | ResourceStore.Drive.DeleteCascade |
| polydrive/models/resource.py:64-71 | `update` assigns any parent, including the resource itself or one of its descendants | a folder 1 updated with parent 1 becomes its own parent; get_rights and delete then recurse without end | a move into the resource's own subtree is refused, so the tree stays acyclic | high, not executed | ResourceStore.Drive.Update, ResourceStore.UpdateCanCreateCycle | ResourceStore.Drive.UpdateChecked |
| polydrive/models/resource.py:98 | `get_rights` compares `role.user_id`, an attribute that Role does not define (its key columns are `r_id` and `u_id`) | a folder 1 shared with user 7 holding a file 2 shared with 7 for editing: checking whether 7 may edit file 2 raises on the first role row instead of allowing it | compare `role.u_id` with the user's id, so the nearest grant for the user decides | high, not executed | ResourceTree.GetRightsAsWritten, Rights.CheckResourceRightsAsWritten, Rights.AsWrittenScenarioRaises | ResourceTree.GetRights |
