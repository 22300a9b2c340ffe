/**
 Content-addressed deduplication.  The table holds weak handles: an entry can be upgraded for
 certain while the session can still reach its blob, and otherwise only perhaps.  The hash is
 arbitrary, so contents may collide.
 */
module Interning {
  import opened Wrappers
  import opened History
  import opened Store
  import opened Blobs

  type Table = map<int, Blob>

  /** No two of these contents share a hash. */
  ghost predicate CollisionFree(hash: Bytes -> int, texts: set<Bytes>) {
    forall x, y | x in texts && y in texts :: hash(x) == hash(y) ==> x == y
  }

  /** The table answers with each of these blobs when asked for its content. */
  ghost predicate Canonical(hash: Bytes -> int, table: Table, blobs: set<Blob>) {
    forall blob | blob in blobs :: hash(blob.bytes) in table && table[hash(blob.bytes)] == blob
  }

  /** Equal contents are one allocation. */
  ghost predicate Shared(blobs: set<Blob>) {
    forall a, b | a in blobs && b in blobs :: a.bytes == b.bytes ==> a == b
  }

  lemma CanonicalIsShared(hash: Bytes -> int, table: Table, blobs: set<Blob>)
    requires Canonical(hash, table, blobs)
    ensures Shared(blobs) && CollisionFree(hash, Texts(blobs))
  {
    forall x, y | x in Texts(blobs) && y in Texts(blobs) && hash(x) == hash(y)
      ensures x == y
    {
      var a :| a in blobs && a.bytes == x;
      var b :| b in blobs && b.bytes == y;
    }
  }

  /** Storing `blob` under its hash displaces no canonical blob unless their contents collide. */
  lemma CanonicalAfterInsert(hash: Bytes -> int, table: Table, blobs: set<Blob>, blob: Blob)
    requires Canonical(hash, table, blobs)
    requires CollisionFree(hash, Texts(blobs + {blob}))
    requires forall b | b in blobs && b.bytes == blob.bytes :: b == blob
    ensures Canonical(hash, table[hash(blob.bytes) := blob], blobs + {blob})
  {
    forall b | b in blobs
      ensures hash(b.bytes) == hash(blob.bytes) ==> b == blob
    {
      assert b.bytes in Texts(blobs + {blob}) && blob.bytes in Texts(blobs + {blob});
    }
  }

  lemma CollisionFreeBelow(hash: Bytes -> int, few: set<Bytes>, many: set<Bytes>)
    requires few <= many && CollisionFree(hash, many)
    ensures CollisionFree(hash, few)
  {
  }

  lemma TextsPlus(blobs: set<Blob>, blob: Blob)
    ensures Texts(blobs + {blob}) == Texts(blobs) + {blob.bytes}
  {
  }

  lemma ValuesPlus(files: FileMap, key: string, blob: Blob)
    requires key !in files
    ensures files[key := blob].Values == files.Values + {blob}
  {
    assert forall k | k in files :: files[key := blob][k] == files[k];
    assert files[key := blob][key] == blob;
  }

  /** Each entry is one of the blobs, under its own hash, and no blob's hash is missing. */
  ghost predicate Rebuilt(hash: Bytes -> int, table: Table, blobs: set<Blob>) {
    && (forall key | key in table :: table[key] in blobs && hash(table[key].bytes) == key)
    && forall blob | blob in blobs :: hash(blob.bytes) in table
  }

  /** Rebuilding the table keeps every canonical blob canonical. */
  lemma RebuiltIsCanonical(hash: Bytes -> int, table: Table, rebuilt: Table, blobs: set<Blob>)
    requires Canonical(hash, table, blobs) && Rebuilt(hash, rebuilt, blobs)
    ensures Canonical(hash, rebuilt, blobs)
  {
    CanonicalIsShared(hash, table, blobs);
    forall blob | blob in blobs
      ensures rebuilt[hash(blob.bytes)] == blob
    {
      var entry := rebuilt[hash(blob.bytes)];
      assert entry in blobs && hash(entry.bytes) == hash(blob.bytes);
      assert blob.bytes in Texts(blobs) && entry.bytes in Texts(blobs);
    }
  }

  class Interner {
    const hash: Bytes -> int
    var table: Table

    constructor (hash: Bytes -> int)
      ensures this.hash == hash && table == map[]
    {
      this.hash := hash;
      table := map[];
    }

    /** A weak upgrade: certain for the blobs in `rooted`, otherwise up to whoever else holds the blob. */
    method Upgrade(key: int, rooted: set<Blob>) returns (r: Option<Blob>)
      ensures r.Some? ==> key in table && r.value == table[key]
      ensures key in table && table[key] in rooted ==> r.Some?
    {
      if key in table {
        var alive: bool :| table[key] in rooted ==> alive;
        if alive {
          return Some(table[key]);
        }
      }
      return None;
    }

    method InternBytes(bytes: Bytes, rooted: set<Blob>) returns (blob: Blob)
      modifies this
      ensures blob.bytes == bytes
      ensures table == old(table)[hash(bytes) := blob]
      ensures fresh(blob) || (hash(bytes) in old(table) && blob == old(table)[hash(bytes)])
      ensures Canonical(hash, old(table), rooted) && CollisionFree(hash, Texts(rooted) + {bytes})
              ==> Canonical(hash, table, rooted + {blob})
    {
      var key := hash(bytes);
      var existing := Upgrade(key, rooted);
      if existing.Some? && existing.value.bytes == bytes {
        blob := existing.value;
      } else {
        blob := new Blob(bytes);
        table := table[key := blob];
      }
      if Canonical(hash, old(table), rooted) && CollisionFree(hash, Texts(rooted) + {bytes}) {
        TextsPlus(rooted, blob);
        CanonicalAfterInsert(hash, old(table), rooted, blob);
      }
    }

    /** The table's blob of equal content when it can still be reached, and otherwise `blob` itself. */
    method InternBlob(blob: Blob, rooted: set<Blob>) returns (interned: Blob)
      modifies this
      ensures interned.bytes == blob.bytes
      ensures table == old(table)[hash(blob.bytes) := interned]
      ensures interned == blob || (hash(blob.bytes) in old(table) && interned == old(table)[hash(blob.bytes)])
      ensures Canonical(hash, old(table), rooted) && CollisionFree(hash, Texts(rooted) + {blob.bytes})
              ==> Canonical(hash, table, rooted + {interned})
    {
      var key := hash(blob.bytes);
      var existing := Upgrade(key, rooted + {blob});
      if existing.Some? && (existing.value == blob || existing.value.bytes == blob.bytes) {
        interned := existing.value;
      } else {
        interned := blob;
        table := table[key := blob];
      }
      if Canonical(hash, old(table), rooted) && CollisionFree(hash, Texts(rooted) + {blob.bytes}) {
        TextsPlus(rooted, interned);
        CanonicalAfterInsert(hash, old(table), rooted, interned);
      }
    }

    /** Replaces each blob by the interned one of equal content; no key and no content changes. */
    method InternFileMap(files: FileMap, rooted: set<Blob>) returns (result: FileMap)
      modifies this
      ensures BytesOf(result) == BytesOf(files)
      ensures Canonical(hash, old(table), rooted) && CollisionFree(hash, Texts(rooted + files.Values))
              ==> Canonical(hash, table, rooted + result.Values)
    {
      result := map[];
      var left := files.Keys;
      var held := rooted;  // the blobs reachable while the loop runs
      ghost var sound := Canonical(hash, table, rooted) && CollisionFree(hash, Texts(rooted + files.Values));
      while left != {}
        invariant left <= files.Keys && result.Keys == files.Keys - left
        invariant forall key | key in result :: result[key].bytes == files[key].bytes
        invariant held == rooted + result.Values
        invariant Texts(held) <= Texts(rooted + files.Values)
        invariant sound ==> Canonical(hash, table, held)
      {
        var name :| name in left;
        ghost var known := Texts(held) + {files[name].bytes};
        assert known <= Texts(rooted + files.Values) by {
          assert files[name] in rooted + files.Values;
        }
        var interned := InternBlob(files[name], held);
        if sound {
          CollisionFreeBelow(hash, known, Texts(rooted + files.Values));
        }
        TextsPlus(held, interned);
        ValuesPlus(result, name, interned);
        held := held + {interned};
        result := result[name := interned];
        left := left - {name};
      }
    }

    /** Registers `blob` unless its hash is taken. */
    method Seed(blob: Blob)
      modifies this
      ensures table == if hash(blob.bytes) in old(table) then old(table) else old(table)[hash(blob.bytes) := blob]
    {
      var key := hash(blob.bytes);
      if key !in table {
        table := table[key := blob];
      }
    }

    /** Registers one more file map on top of `seeded`. */
    method SeedAll(files: FileMap, ghost seeded: set<Blob>)
      requires Rebuilt(hash, table, seeded)
      modifies this
      ensures Rebuilt(hash, table, seeded + files.Values)
    {
      ghost var seen := {};
      var left := files.Keys;
      while left != {}
        invariant left <= files.Keys
        invariant seen <= files.Values && forall key | key in files && key !in left :: files[key] in seen
        invariant Rebuilt(hash, table, seeded + seen)
      {
        var name :| name in left;
        Seed(files[name]);
        seen := seen + {files[name]};
        left := left - {name};
      }
      assert seen == files.Values;
    }

    /** Registers the files of every checkpoint with a new interner. */
    method SeedCheckpoints(checkpoints: seq<Checkpoint<FileMap>>)
      requires table == map[]
      modifies this
      ensures Rebuilt(hash, table, HistoryBlobs(checkpoints))
    {
      for i := 0 to |checkpoints|
        invariant Rebuilt(hash, table, HistoryBlobs(checkpoints[..i]))
      {
        SeedAll(checkpoints[i].files, HistoryBlobs(checkpoints[..i]));
        BlobsOneMore(checkpoints, i);
      }
      assert checkpoints[..|checkpoints|] == checkpoints;
    }

    /** Rebuilds the table from the blobs the checkpoints still refer to. */
    method Retain(checkpoints: seq<Checkpoint<FileMap>>)
      modifies this
      ensures Rebuilt(hash, table, HistoryBlobs(checkpoints))
    {
      var live: Table := map[];
      for i := 0 to |checkpoints|
        invariant Rebuilt(hash, live, HistoryBlobs(checkpoints[..i]))
      {
        var files := checkpoints[i].files;
        ghost var done, seen := HistoryBlobs(checkpoints[..i]), {};
        var left := files.Keys;
        while left != {}
          invariant left <= files.Keys
          invariant seen <= files.Values && forall key | key in files && key !in left :: files[key] in seen
          invariant Rebuilt(hash, live, done + seen)
        {
          var name :| name in left;
          var blob := files[name];
          if hash(blob.bytes) !in live {
            live := live[hash(blob.bytes) := blob];
          }
          seen := seen + {blob};
          left := left - {name};
        }
        assert seen == files.Values;
        BlobsOneMore(checkpoints, i);
      }
      assert checkpoints[..|checkpoints|] == checkpoints;
      table := live;
    }
  }
}
