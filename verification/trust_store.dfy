/**
  `update_trust_store_file`: the trust-store file is rewritten only when the
  new map differs from what is on disk, where a missing or unparsable file
  counts as the empty object `{}`.
 */
module TrustStore {
  import opened Json

  /** The empty JSON object `{}`. */
  const EmptyObject: Json := JObject(map[])

  /** What the update compares against: the document on disk, or `{}` for a missing or corrupt file. */
  function OnDisk(f: StoreFile): (j: Json)
    ensures f.Holds? ==> j == f.value
    ensures !f.Holds? ==> j == EmptyObject
  {
    if f.Holds? then f.value else EmptyObject
  }

  /** The result of an update: whether it wrote, and the file afterwards. */
  datatype Update = Update(changed: bool, file: StoreFile)

  /**
    `update_trust_store_file(path, trust_map)`: the call reports a change
    exactly when it modifies the file, and afterwards the file reads as the
    new map either way.
   */
  function UpdateTrustStoreFile(f: StoreFile, trustMap: Json): (u: Update)
    ensures u.changed <==> u.file != f
    ensures OnDisk(u.file) == trustMap
    ensures u.changed ==> u.file == Holds(trustMap)
  {
    if OnDisk(f) != trustMap then Update(true, Holds(trustMap)) else Update(false, f)
  }

  /** The call reports a change exactly when the old content differs from the new map. */
  lemma ChangedIffDifferent(f: StoreFile, trustMap: Json)
    ensures UpdateTrustStoreFile(f, trustMap).changed <==> OnDisk(f) != trustMap
  {
  }

  /** A second call with the same map reports no change and leaves the file alone. */
  lemma UpdateIdempotent(f: StoreFile, trustMap: Json)
    ensures var u := UpdateTrustStoreFile(f, trustMap);
      UpdateTrustStoreFile(u.file, trustMap) == Update(false, u.file)
  {
  }

  /** Writing `{}` over a missing file reports no change and creates nothing. */
  lemma EmptyOverMissing()
    ensures UpdateTrustStoreFile(Absent, EmptyObject) == Update(false, Absent)
  {
  }

  /** Writing `{}` over a corrupt file reports no change and leaves the corrupt file in place. */
  lemma EmptyOverCorrupt()
    ensures UpdateTrustStoreFile(Unparsable, EmptyObject) == Update(false, Unparsable)
  {
  }
}
