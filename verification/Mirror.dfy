/**
 The on-disk mirror of a session's files.  `SyncTo` rewrites only what changed by blob identity,
 and `CollectChanges` re-reads only what changed by modification time and length.
 */
module Mirror {
  import opened Wrappers
  import opened History
  import opened Store
  import opened Blobs

  datatype DiskFile = DiskFile(bytes: Bytes, mtime: int)

  /** The regular files below the workspace directory. */
  type Disk = map<string, DiskFile>

  datatype SyncedFile = SyncedFile(content: Blob, mtime: int)
  type SyncedFiles = map<string, SyncedFile>

  function DiskBytes(disk: Disk): Contents {
    map key | key in disk :: disk[key].bytes
  }

  /** The key is already synced from the very blob the target names. */
  predicate Kept(synced: SyncedFiles, files: FileMap, key: string) {
    key in files && key in synced && synced[key].content == files[key]
  }

  /** What the disk holds after syncing: removed and rewritten keys follow the target, all else is left alone. */
  function SyncedBytes(disk: Disk, synced: SyncedFiles, files: FileMap): Contents {
    map key | key in disk.Keys + files.Keys
              && (if key in files then key in disk || !Kept(synced, files, key) else key !in synced)
      :: if key in files && !Kept(synced, files, key) then files[key].bytes else disk[key].bytes
  }

  /** The recorded blobs and times are those of the disk. */
  ghost predicate Agree(disk: Disk, synced: SyncedFiles) {
    && disk.Keys == synced.Keys
    && forall key | key in synced :: disk[key] == DiskFile(synced[key].content.bytes, synced[key].mtime)
  }

  /** No kept file was altered or lost behind the mirror's back, and no file unknown to it sits outside the target. */
  ghost predicate Unspoilt(disk: Disk, synced: SyncedFiles, files: FileMap) {
    && (forall key | Kept(synced, files, key) :: key in disk && disk[key].bytes == files[key].bytes)
    && (forall key | key in disk && key !in files :: key in synced)
  }

  /** Syncing yields the target exactly then. */
  lemma SyncIsExact(disk: Disk, synced: SyncedFiles, files: FileMap)
    ensures SyncedBytes(disk, synced, files) == BytesOf(files) <==> Unspoilt(disk, synced, files)
  {
    var result := SyncedBytes(disk, synced, files);
    if result == BytesOf(files) {
      forall key | Kept(synced, files, key)
        ensures key in disk && disk[key].bytes == files[key].bytes
      {
        assert key in BytesOf(files) && key in result;
      }
      forall key | key in disk && key !in files
        ensures key in synced
      {
        assert key !in BytesOf(files) && key !in result;
      }
    }
  }

  lemma SyncOfAgreeing(disk: Disk, synced: SyncedFiles, files: FileMap)
    requires Agree(disk, synced)
    ensures SyncedBytes(disk, synced, files) == BytesOf(files)
  {
    SyncIsExact(disk, synced, files);
  }

  /** The shortcut of `CollectChanges`: same modification time and same length as recorded. */
  predicate LooksUntouched(disk: Disk, synced: SyncedFiles, key: string)
    requires key in disk
  {
    key in synced && synced[key].mtime == disk[key].mtime && |synced[key].content.bytes| == |disk[key].bytes|
  }

  function CollectedBytes(disk: Disk, synced: SyncedFiles): Contents {
    map key | key in disk :: if LooksUntouched(disk, synced, key) then synced[key].content.bytes else disk[key].bytes
  }

  /** The shortcut never mistakes a changed file for an untouched one. */
  ghost predicate Trustworthy(disk: Disk, synced: SyncedFiles) {
    forall key | key in disk && LooksUntouched(disk, synced, key) :: synced[key].content.bytes == disk[key].bytes
  }

  /** Collecting changes reads what a full read of the directory reads exactly when the shortcut can be trusted. */
  lemma CollectIsFullRead(disk: Disk, synced: SyncedFiles)
    ensures CollectedBytes(disk, synced) == DiskBytes(disk) <==> Trustworthy(disk, synced)
  {
    if CollectedBytes(disk, synced) == DiskBytes(disk) {
      forall key | key in disk && LooksUntouched(disk, synced, key)
        ensures synced[key].content.bytes == disk[key].bytes
      {
        assert CollectedBytes(disk, synced)[key] == DiskBytes(disk)[key];
      }
    }
  }

  /** Every change of a file that existed before also changes its modification time or its length. */
  ghost predicate Detectable(before: Disk, after: Disk) {
    forall key | key in before && key in after ::
      after[key].mtime == before[key].mtime && |after[key].bytes| == |before[key].bytes|
      ==> after[key].bytes == before[key].bytes
  }

  lemma DetectableIsTrustworthy(before: Disk, synced: SyncedFiles, after: Disk)
    requires Agree(before, synced)
    ensures Trustworthy(after, synced) <==> Detectable(before, after)
  {
    assert forall key | key in before && key in after ::
        LooksUntouched(after, synced, key)
        <==> after[key].mtime == before[key].mtime && |after[key].bytes| == |before[key].bytes|;
  }

  /** Some stale files are gone, from the disk and from the mirror, and nothing else happened. */
  ghost predicate PartlyRemoved(disk0: Disk, synced0: SyncedFiles, files: FileMap, disk: Disk, synced: SyncedFiles) {
    exists removed: set<string> ::
      && removed <= (synced0.Keys - files.Keys) * disk0.Keys
      && disk == disk0 - removed && synced == synced0 - removed
  }

  predicate SameAt<V(==)>(a: map<string, V>, b: map<string, V>, key: string) {
    (key in a <==> key in b) && (key in a ==> a[key] == b[key])
  }

  /** While `SyncTo` runs: a key is as the target wants it once handled, and untouched otherwise. */
  ghost predicate SyncedAt(
    disk0: Disk, synced0: SyncedFiles, disk: Disk, synced: SyncedFiles, files: FileMap, left: set<string>, key: string)
  {
    if key in files && key !in left && !Kept(synced0, files, key) then
      && key in disk && key in synced
      && synced[key].content == files[key]
      && disk[key] == DiskFile(files[key].bytes, synced[key].mtime)
    else
      SameAt(disk, disk0, key) && SameAt(synced, synced0, key)
  }

  lemma SyncedEverywhere(disk0: Disk, synced0: SyncedFiles, disk1: Disk, synced1: SyncedFiles, disk: Disk,
                         synced: SyncedFiles, files: FileMap)
    requires var stale := synced0.Keys - files.Keys; disk1 == disk0 - stale && synced1 == synced0 - stale
    requires forall key :: SyncedAt(disk1, synced1, disk, synced, files, {}, key)
    ensures DiskBytes(disk) == SyncedBytes(disk0, synced0, files)
    ensures synced.Keys == files.Keys && forall key | key in files :: synced[key].content == files[key]
    ensures Agree(disk0, synced0) ==> Agree(disk, synced)
  {
    forall key
      ensures Kept(synced1, files, key) <==> Kept(synced0, files, key)
      ensures key in synced <==> key in files
      ensures key in files ==> synced[key].content == files[key]
      ensures key in DiskBytes(disk) <==> key in SyncedBytes(disk0, synced0, files)
      ensures key in disk ==> disk[key].bytes == SyncedBytes(disk0, synced0, files)[key]
      ensures Agree(disk0, synced0) && key in synced ==>
                key in disk && disk[key] == DiskFile(synced[key].content.bytes, synced[key].mtime)
      ensures Agree(disk0, synced0) && key in disk ==> key in synced
    {
      assert SyncedAt(disk1, synced1, disk, synced, files, {}, key);
    }
  }

  /** While `CollectChanges` runs: a key is recorded as read once visited, and untouched before. */
  ghost predicate CollectedAt(disk: Disk, synced0: SyncedFiles, synced: SyncedFiles, files: FileMap, key: string) {
    if key in files then
      && key in disk && key in synced
      && synced[key] == SyncedFile(files[key], disk[key].mtime)
      && if LooksUntouched(disk, synced0, key) then files[key] == synced0[key].content
         else files[key].bytes == disk[key].bytes
    else
      SameAt(synced, synced0, key)
  }

  lemma CollectedEverywhere(disk: Disk, synced0: SyncedFiles, visited: SyncedFiles, files: FileMap, synced: SyncedFiles)
    requires files.Keys == disk.Keys && forall key :: CollectedAt(disk, synced0, visited, files, key)
    requires synced == map key | key in visited && key in files :: visited[key]
    ensures BytesOf(files) == CollectedBytes(disk, synced0)
    ensures synced == map key | key in files && key in disk :: SyncedFile(files[key], disk[key].mtime)
    ensures forall key | key in disk && LooksUntouched(disk, synced0, key) :: files[key] == synced0[key].content
    ensures Agree(disk, synced) <==> Trustworthy(disk, synced0)
  {
    forall key | key in disk
      ensures key in synced && synced[key] == SyncedFile(files[key], disk[key].mtime)
      ensures BytesOf(files)[key] == CollectedBytes(disk, synced0)[key]
      ensures LooksUntouched(disk, synced0, key) ==> files[key] == synced0[key].content
      ensures disk[key] == DiskFile(synced[key].content.bytes, synced[key].mtime)
              <==> (LooksUntouched(disk, synced0, key) ==> synced0[key].content.bytes == disk[key].bytes)
    {
      assert CollectedAt(disk, synced0, visited, files, key);
    }
    if Agree(disk, synced) {
      forall key | key in disk && LooksUntouched(disk, synced0, key)
        ensures synced0[key].content.bytes == disk[key].bytes
      {
        assert key in synced;
      }
    }
  }

  class Workspace {
    var disk: Disk
    var synced: SyncedFiles

    constructor ()
      ensures disk == map[] && synced == map[]
    {
      disk := map[];
      synced := map[];
    }

    ghost predicate Agrees()
      reads this
    {
      Agree(disk, synced)
    }

    /** Removes one stale file after the other, up to the first that is already gone. */
    method RemoveStale(stale: set<string>) returns (ok: bool, ghost removed: set<string>)
      modifies this
      ensures ok <==> stale <= old(disk).Keys
      ensures removed <= stale * old(disk).Keys && (ok ==> removed == stale)
      ensures disk == old(disk) - removed && synced == old(synced) - removed
    {
      var left := stale;
      removed := {};
      while left != {}
        invariant left <= stale && removed == stale - left && removed <= old(disk).Keys
        invariant disk == old(disk) - removed && synced == old(synced) - removed
      {
        var key :| key in left;
        if key !in disk {
          return false, removed;
        }
        disk, synced := disk - {key}, synced - {key};
        left := left - {key};
        removed := removed + {key};
      }
      return true, removed;
    }

    /** Fails exactly when a file it must remove is already gone from the disk, with some of the others removed. */
    method SyncTo(files: FileMap) returns (ok: bool)
      modifies this
      ensures ok <==> old(synced).Keys - files.Keys <= old(disk).Keys
      ensures ok ==> DiskBytes(disk) == SyncedBytes(old(disk), old(synced), files)
      ensures ok ==> synced.Keys == files.Keys && forall key | key in files :: synced[key].content == files[key]
      ensures !ok ==> PartlyRemoved(old(disk), old(synced), files, disk, synced)
      ensures old(Agrees()) ==> ok && Agrees() && DiskBytes(disk) == BytesOf(files)
    {
      ghost var removed;
      ok, removed := RemoveStale(synced.Keys - files.Keys);
      if !ok {
        return;
      }
      ghost var disk1, synced1 := disk, synced;
      var left := files.Keys;
      while left != {}
        invariant left <= files.Keys
        invariant forall key :: SyncedAt(disk1, synced1, disk, synced, files, left, key)
      {
        var key :| key in left;
        assert SyncedAt(disk1, synced1, disk, synced, files, left, key);
        ghost var diskBefore, syncedBefore := disk, synced;
        if !Kept(synced, files, key) {
          var mtime: int := *;  // whatever the file system's clock says
          disk := disk[key := DiskFile(files[key].bytes, mtime)];
          synced := synced[key := SyncedFile(files[key], mtime)];
        }
        forall k
          ensures SyncedAt(disk1, synced1, disk, synced, files, left - {key}, k)
        {
          assert SyncedAt(disk1, synced1, diskBefore, syncedBefore, files, left, k);
        }
        left := left - {key};
      }
      SyncedEverywhere(old(disk), old(synced), disk1, synced1, disk, synced, files);
      if old(Agrees()) {
        SyncOfAgreeing(old(disk), old(synced), files);
      }
    }

    /** Reads the directory back, taking the recorded blob for every file that looks untouched. */
    method CollectChanges() returns (files: FileMap)
      modifies this
      ensures disk == old(disk)
      ensures files.Keys == disk.Keys && BytesOf(files) == CollectedBytes(disk, old(synced))
      ensures forall key | key in disk && LooksUntouched(disk, old(synced), key) ::
                files[key] == old(synced)[key].content
      ensures synced == map key | key in files && key in disk :: SyncedFile(files[key], disk[key].mtime)
      ensures Trustworthy(disk, old(synced)) <==> BytesOf(files) == DiskBytes(disk)
      ensures Trustworthy(disk, old(synced)) <==> Agrees()
    {
      files := map[];
      var left := disk.Keys;
      while left != {}
        invariant disk == old(disk)
        invariant left <= disk.Keys && files.Keys == disk.Keys - left
        invariant forall key :: CollectedAt(disk, old(synced), synced, files, key)
      {
        var key :| key in left;
        ghost var syncedBefore, filesBefore := synced, files;
        assert CollectedAt(disk, old(synced), synced, files, key);
        var content: Blob;
        if LooksUntouched(disk, synced, key) {
          content := synced[key].content;
        } else {
          content := new Blob(disk[key].bytes);
        }
        synced := synced[key := SyncedFile(content, disk[key].mtime)];
        files := files[key := content];
        forall k
          ensures CollectedAt(disk, old(synced), synced, files, k)
        {
          assert CollectedAt(disk, old(synced), syncedBefore, filesBefore, k);
        }
        left := left - {key};
      }
      ghost var visited := synced;
      synced := map key | key in synced && key in files :: synced[key];
      CollectedEverywhere(disk, old(synced), visited, files, synced);
      CollectIsFullRead(disk, old(synced));
    }

    /** The full read that `CollectChanges` saves. */
    static method Collect(disk: Disk) returns (files: FileMap)
      ensures BytesOf(files) == DiskBytes(disk)
      ensures forall key | key in files :: fresh(files[key])
    {
      files := map[];
      var left := disk.Keys;
      while left != {}
        invariant left <= disk.Keys && files.Keys == disk.Keys - left
        invariant forall key | key in files :: fresh(files[key]) && files[key].bytes == disk[key].bytes
      {
        var key :| key in left;
        var content := new Blob(disk[key].bytes);
        files := files[key := content];
        left := left - {key};
      }
    }
  }
}
