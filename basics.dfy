/** Values shared by the resource tree, the legacy file model and the request layer. */
module Basics {

  datatype Option<+T> = None | Some(value: T)

  /** Database ids (autoincrement integer keys). */
  type ResId = nat
  type UserId = nat
  type VersionId = nat

  /** Creation timestamps, as abstract totally ordered values. */
  type Time = int

  /** File content as bytes. */
  type Bytes = seq<bv8>

  /** The two resource kinds ('file' and 'folder' in the source). */
  datatype Kind = FileKind | FolderKind

  /** The string each kind is stored as. */
  function KindName(k: Kind): string
  {
    match k
    case FileKind => "file"
    case FolderKind => "folder"
  }

  /** `item in resource_type`: membership in the list ['file', 'folder']. */
  function IsKindName(item: string): (r: bool)
    ensures r <==> exists k :: KindName(k) == item
  {
    assert KindName(FileKind) == "file" && KindName(FolderKind) == "folder";
    item == "file" || item == "folder"
  }

  /** An uploaded multipart file: its client-side name, declared content type and bytes. */
  datatype Upload = Upload(filename: string, contentType: Option<string>, data: Bytes)

  /** The elements of a sequence, as a set. */
  function Elems<T>(s: seq<T>): set<T>
  {
    set x | x in s
  }

  /** True when no element occurs twice. */
  predicate NoDup<T(==)>(s: seq<T>)
  {
    forall i, j :: 0 <= i < j < |s| ==> s[i] != s[j]
  }

  /** Appending an element that is not there yet keeps a sequence free of repeats. */
  lemma NoDupAppend<T>(s: seq<T>, x: T)
    requires NoDup(s) && x !in s
    ensures NoDup(s + [x])
  {
    var t := s + [x];
    forall i, j | 0 <= i < j < |t| ensures t[i] != t[j]
    {
      if j == |s| {
        assert t[i] == s[i];
      }
    }
  }
}
