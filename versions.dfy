/**
 * The version ledger: version records (key, creation time, owning file) and the
 * blob store of the upload folder, kept in step with each other.
 */
module Versions {
  import opened Basics

  /** Keys are 100 characters drawn from ascii_lowercase + digits. */
  const KeyLength := 100

  predicate IsKeyChar(c: char)
  {
    ('a' <= c <= 'z') || ('0' <= c <= '9')
  }

  predicate IsKey(k: string)
  {
    |k| == KeyLength && forall i :: 0 <= i < |k| ==> IsKeyChar(k[i])
  }

  /** `os.path.join(folder, key)` for a key that is a plain relative name. */
  function RealPath(folder: string, key: string): string
  {
    if folder == [] then key
    else if folder[|folder| - 1] == '/' then folder + key
    else folder + "/" + key
  }

  /**
   * `os.path.join(folder, key)`: the key itself under an empty folder, otherwise the
   * folder, then exactly one '/', then the key.
   */
  lemma RealPathJoin(folder: string, key: string)
    ensures var r := RealPath(folder, key);
            && |r| >= |key| && r[|r| - |key|..] == key
            && (folder == [] ==> r == key)
            && (folder != [] && folder[|folder| - 1] != '/' ==> |r| == |folder| + 1 + |key|)
            && (folder != [] && folder[|folder| - 1] == '/' ==> |r| == |folder| + |key|)
            && (folder != [] ==> r[..|folder|] == folder && r[|r| - |key| - 1] == '/')
  {
  }

  /** The blob location depends on the key alone: distinct keys, distinct paths. */
  lemma RealPathInjective(folder: string, k1: string, k2: string)
    requires RealPath(folder, k1) == RealPath(folder, k2)
    ensures k1 == k2
  {
    var prefix := if folder == [] then "" else if folder[|folder| - 1] == '/' then folder else folder + "/";
    assert RealPath(folder, k1) == prefix + k1 && RealPath(folder, k2) == prefix + k2;
    assert k1 == (prefix + k1)[|prefix|..];
    assert k2 == (prefix + k2)[|prefix|..];
  }

  datatype Version = Version(key: string, created: Time, file: ResId)

  /**
   * The version table together with the upload folder: `folder` is the configured
   * upload directory, `blobs` the files in it, `nextId` the next autoincrement id.
   */
  datatype Ledger = Ledger(folder: string, versions: map<VersionId, Version>,
                           blobs: map<string, Bytes>, nextId: VersionId)

  /** The keys in use: what `Version.query.filter_by(random_string=...)` finds. */
  function UsedKeys(l: Ledger): set<string>
  {
    set id | id in l.versions :: l.versions[id].key
  }

  function BlobPath(l: Ledger, id: VersionId): string
    requires id in l.versions
  {
    RealPath(l.folder, l.versions[id].key)
  }

  /** The paths of the blobs that the versions refer to. */
  function BlobPaths(l: Ledger): set<string>
  {
    set id | id in l.versions :: BlobPath(l, id)
  }

  /** Every version has a well-formed unique key; the blobs are exactly the versions' blobs. */
  ghost predicate LedgerValid(l: Ledger)
  {
    && (forall id :: id in l.versions ==> id < l.nextId && IsKey(l.versions[id].key))
    && (forall a, b :: a in l.versions && b in l.versions && l.versions[a].key == l.versions[b].key ==> a == b)
    && l.blobs.Keys == BlobPaths(l)
  }

  /**
   * The retry loop of `Version.create`: draw keys until one is not used by any version.
   * `draws` stands for the successive results of `random.choices`.
   */
  method FreshKey(l: Ledger, draws: seq<string>) returns (r: Option<string>)
    ensures r.None? <==> forall i :: 0 <= i < |draws| ==> draws[i] in UsedKeys(l)
    ensures r.Some? ==> r.value !in UsedKeys(l)
    ensures r.Some? ==> exists i :: 0 <= i < |draws| && draws[i] == r.value &&
                                    forall j :: 0 <= j < i ==> draws[j] in UsedKeys(l)
  {
    var i := 0;
    while i < |draws| && draws[i] in UsedKeys(l)
      invariant 0 <= i <= |draws|
      invariant forall j :: 0 <= j < i ==> draws[j] in UsedKeys(l)
    {
      i := i + 1;
    }
    if i < |draws| {
      r := Some(draws[i]);
    } else {
      r := None;
    }
  }

  /**
   * `l'` is `l` with one version more: the next id `v`, for `file`, created at `now`,
   * under a key no version used, with `data` saved at that key's path; nothing else
   * changes.
   */
  ghost predicate VersionAdded(l: Ledger, l': Ledger, v: VersionId, file: ResId, data: Bytes, now: Time)
  {
    && v == l.nextId && v !in l.versions && v in l'.versions
    && l'.versions[v].created == now && l'.versions[v].file == file
    && l'.versions[v].key !in UsedKeys(l)
    && l'.versions == l.versions[v := l'.versions[v]]
    && RealPath(l.folder, l'.versions[v].key) !in l.blobs
    && l'.blobs == l.blobs[RealPath(l.folder, l'.versions[v].key) := data]
    && l'.folder == l.folder && l'.nextId == v + 1
  }

  /**
   * `Version.create`: pick a fresh key, save the upload at the key's path and add a
   * version record for `file` created at `now`.
   */
  method CreateVersion(l: Ledger, file: ResId, upload: Upload, now: Time, draws: seq<string>)
    returns (r: Option<(Ledger, VersionId)>)
    requires LedgerValid(l)
    requires forall i :: 0 <= i < |draws| ==> IsKey(draws[i])
    ensures r.None? <==> forall i :: 0 <= i < |draws| ==> draws[i] in UsedKeys(l)
    ensures r.Some? ==>
      var (l', id) := r.value;
      && VersionAdded(l, l', id, file, upload.data, now)
      && l'.versions[id].key in draws
      && LedgerValid(l')
  {
    var key := FreshKey(l, draws);
    if key.None? {
      return None;
    }
    var k := key.value;
    var id := l.nextId;
    var path := RealPath(l.folder, k);
    if path in l.blobs {
      var other :| other in l.versions && BlobPath(l, other) == path;
      assert l.versions[other].key in UsedKeys(l);
      RealPathInjective(l.folder, l.versions[other].key, k);
      assert false;
    }
    var l' := Ledger(l.folder, l.versions[id := Version(k, now, file)], l.blobs[path := upload.data], id + 1);
    AddVersionValid(l, id, Version(k, now, file), upload.data);
    r := Some((l', id));
  }

  /** Adding a version under a fresh id and an unused key, with its blob, keeps the ledger consistent. */
  lemma AddVersionValid(l: Ledger, id: VersionId, v: Version, data: Bytes)
    requires LedgerValid(l)
    requires id == l.nextId && IsKey(v.key) && v.key !in UsedKeys(l)
    ensures LedgerValid(Ledger(l.folder, l.versions[id := v], l.blobs[RealPath(l.folder, v.key) := data], id + 1))
  {
    var l' := Ledger(l.folder, l.versions[id := v], l.blobs[RealPath(l.folder, v.key) := data], id + 1);
    assert BlobPaths(l') == BlobPaths(l) + {RealPath(l.folder, v.key)} by {
      forall x | x in l.versions ensures BlobPath(l', x) == BlobPath(l, x) { }
      assert BlobPath(l', id) == RealPath(l.folder, v.key);
    }
  }

  /** The ledger without the versions `ids`, and without their blobs. */
  function RemoveVersions(l: Ledger, ids: set<VersionId>): Ledger
  {
    l.(versions := l.versions - ids,
       blobs := l.blobs - (set id | id in ids && id in l.versions :: BlobPath(l, id)))
  }

  /** Removing a set of versions keeps the ledger consistent: no other version loses its blob. */
  lemma RemoveVersionsValid(l: Ledger, ids: set<VersionId>)
    requires LedgerValid(l)
    ensures LedgerValid(RemoveVersions(l, ids))
  {
    var l' := RemoveVersions(l, ids);
    var gone := set id | id in ids && id in l.versions :: BlobPath(l, id);
    forall p | p in BlobPaths(l') ensures p in l'.blobs
    {
      var v :| v in l'.versions && BlobPath(l', v) == p;
      assert BlobPath(l, v) == p;
      if p in gone {
        var w :| w in ids && w in l.versions && BlobPath(l, w) == p;
        RealPathInjective(l.folder, l.versions[w].key, l.versions[v].key);
      }
    }
    forall p | p in l'.blobs ensures p in BlobPaths(l')
    {
      var x :| x in l.versions && BlobPath(l, x) == p;
      assert x !in ids;
      assert BlobPath(l', x) == p;
    }
  }

  /** Removing A and then B is removing A and B at once. */
  lemma RemoveVersionsCompose(l: Ledger, a: set<VersionId>, b: set<VersionId>)
    ensures RemoveVersions(RemoveVersions(l, a), b) == RemoveVersions(l, a + b)
  {
    var l1 := RemoveVersions(l, a);
    var pa := set id | id in a && id in l.versions :: BlobPath(l, id);
    var pb := set id | id in b && id in l1.versions :: BlobPath(l1, id);
    var pab := set id | id in a + b && id in l.versions :: BlobPath(l, id);
    assert pa + pb == pab by {
      forall p | p in pab ensures p in pa + pb
      {
        var id :| id in a + b && id in l.versions && BlobPath(l, id) == p;
        if id !in a {
          assert BlobPath(l1, id) == p;
        }
      }
    }
    assert l1.blobs - pb == l.blobs - pab;
  }

  /**
   * `Version.delete`: remove the blob at the version's path, then the version record.
   */
  method DeleteVersion(l: Ledger, id: VersionId) returns (l': Ledger)
    requires id in l.versions
    ensures l' == RemoveVersions(l, {id})
    ensures id !in l'.versions && BlobPath(l, id) !in l'.blobs
    ensures LedgerValid(l) ==> LedgerValid(l')
  {
    var path := BlobPath(l, id);
    var blobs := l.blobs - {path};
    l' := l.(versions := l.versions - {id}, blobs := blobs);
    RemoveOne(l, id);
    if LedgerValid(l) {
      RemoveVersionsValid(l, {id});
    }
  }

  lemma RemoveOne(l: Ledger, id: VersionId)
    requires id in l.versions
    ensures RemoveVersions(l, {id}).blobs == l.blobs - {BlobPath(l, id)}
  {
    assert (set x | x in {id} && x in l.versions :: BlobPath(l, x)) == {BlobPath(l, id)};
  }

  /**
   * `max(versions, key=created)`: the index of the first element with the greatest
   * timestamp, scanning left to right and replacing only on a strictly greater one.
   */
  function MaxIndex(ts: seq<Time>): (k: nat)
    requires |ts| > 0
    ensures k < |ts|
    ensures forall j :: 0 <= j < |ts| ==> ts[j] <= ts[k]
    ensures forall j :: 0 <= j < k ==> ts[j] < ts[k]
  {
    if |ts| == 1 then 0
    else
      var k := MaxIndex(ts[..|ts| - 1]);
      if ts[|ts| - 1] > ts[k] then |ts| - 1 else k
  }

  /** `last_version`: the latest version of a chain; Python's max fails on an empty chain. */
  function LastVersion(l: Ledger, chain: seq<VersionId>): (r: Option<VersionId>)
    requires forall i :: 0 <= i < |chain| ==> chain[i] in l.versions
    ensures r.None? <==> chain == []
    ensures r.Some? ==> r.value in chain
    ensures r.Some? ==> forall i :: 0 <= i < |chain| ==> l.versions[chain[i]].created <= l.versions[r.value].created
  {
    if chain == [] then None
    else
      var ts := seq(|chain|, i requires 0 <= i < |chain| => l.versions[chain[i]].created);
      var k := MaxIndex(ts);
      assert forall i :: 0 <= i < |chain| ==> ts[i] == l.versions[chain[i]].created;
      Some(chain[k])
  }

  /** A version created after every other one is the last of any chain ending in it. */
  lemma LatestIsLast(l: Ledger, chain: seq<VersionId>, v: VersionId)
    requires forall i :: 0 <= i < |chain| ==> chain[i] in l.versions
    requires |chain| > 0 && chain[|chain| - 1] == v
    requires forall w :: w in l.versions && w != v ==> l.versions[w].created < l.versions[v].created
    ensures LastVersion(l, chain) == Some(v)
  {
    var r := LastVersion(l, chain);
    assert l.versions[chain[|chain| - 1]].created <= l.versions[r.value].created;
  }

  /** Deleting the versions of a chain one at a time, in order, removes its prefixes. */
  lemma DropNext(l0: Ledger, vs: seq<VersionId>, i: nat)
    requires i < |vs| && NoDup(vs) && vs[i] in l0.versions
    ensures vs[i] in RemoveVersions(l0, Elems(vs[..i])).versions
    ensures RemoveVersions(RemoveVersions(l0, Elems(vs[..i])), {vs[i]}) == RemoveVersions(l0, Elems(vs[..i + 1]))
  {
    assert vs[..i + 1] == vs[..i] + [vs[i]];
    assert Elems(vs[..i + 1]) == Elems(vs[..i]) + {vs[i]};
    RemoveVersionsCompose(l0, Elems(vs[..i]), {vs[i]});
  }
}
