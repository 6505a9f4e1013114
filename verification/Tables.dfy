/** The in-memory tables: core/src/store/manifest.rs, refcount.rs, stats.rs. */
module Tables {
  import opened Types
  import DiskSpec
  import opened StoreSpec

  /** File ids to ordered digests, with the file lengths in a map beside. */
  class Manifest {
    var files: map<string, seq<string>>
    var fileBytes: map<string, nat>

    ghost predicate Valid()
      reads this
    {
      files.Keys == fileBytes.Keys
    }

    /** The two maps read together. */
    function Records(): map<string, FileRec>
      reads this
    {
      map f | f in files && f in fileBytes :: RecordAt(f)
    }

    function RecordAt(id: string): FileRec
      reads this
      requires id in files && id in fileBytes
    {
      FileRec(files[id], fileBytes[id])
    }

    constructor ()
      ensures Valid() && Records() == map[]
    {
      files, fileBytes := map[], map[];
    }

    method TryGet(id: string) returns (found: Option<seq<string>>)
      requires Valid()
      ensures found == if id in Records() then Some(Records()[id].digests) else None
    {
      return if id in files then Some(files[id]) else None;
    }

    method Get(id: string) returns (r: Result<seq<string>>)
      requires Valid()
      ensures r == if id in Records() then Ok(Records()[id].digests) else Err(NotFound)
    {
      if id !in files {
        return Err(NotFound);
      }
      return Ok(files[id]);
    }

    method Insert(id: string, digests: seq<string>, bytes: nat) returns (r: Result<()>)
      requires Valid()
      modifies this
      ensures Valid()
      ensures id == "" ==> r == Err(InvalidArgument) && Records() == old(Records())
      ensures id != "" ==> r == Ok(()) && Records() == old(Records())[id := FileRec(digests, bytes)]
    {
      if id == "" {
        return Err(InvalidArgument);
      }
      files := files[id := digests];
      fileBytes := fileBytes[id := bytes];
      return Ok(());
    }

    method Remove(id: string) returns (r: Result<seq<string>>)
      requires Valid()
      modifies this
      ensures Valid() && Records() == old(Records()) - {id}
      ensures r == if id in old(Records()) then Ok(old(Records())[id].digests) else Err(NotFound)
    {
      fileBytes := fileBytes - {id};
      if id !in files {
        return Err(NotFound);
      }
      r := Ok(files[id]);
      files := files - {id};
    }
  }

  /** Counts and sizes per digest. */
  class RefCount {
    var counts: map<string, ChunkRef>

    constructor ()
      ensures counts == map[]
    {
      counts := map[];
    }

    method Set(digest: string, count: nat, size: nat)
      modifies this
      ensures counts == DiskSpec.SetRef(old(counts), digest, count, size)
      ensures count == 0 ==> counts == old(counts) - {digest}
      ensures count > 0 ==> counts == old(counts)[digest := ChunkRef(count, size)]
    {
      if count == 0 {
        counts := counts - {digest};
      } else {
        counts := counts[digest := ChunkRef(count, size)];
      }
    }

    /** Records the size when it is not known yet; a size that contradicts the
        known one is refused without effect. */
    method Increment(digest: string, size: nat) returns (r: Result<nat>)
      modifies this
      ensures match StoreSpec.Increment(old(counts), digest, size)
              case Ok(entry) => r == Ok(entry.count) && counts == old(counts)[digest := entry]
              case Err(e) => r == Err(e) && counts == old(counts)
    {
      var count: nat := 0;
      var known := size;
      if digest in counts {
        count, known := counts[digest].count, counts[digest].size;
      }
      if known == 0 {
        known := size;
      } else if size != 0 && known != size {
        return Err(InvalidArgument);
      }
      counts := counts[digest := ChunkRef(count + 1, known)];
      return Ok(count + 1);
    }

    method Decrement(digest: string) returns (r: Result<nat>)
      modifies this
      ensures digest !in old(counts) ==> r == Err(NotFound) && counts == old(counts)
      ensures digest in old(counts) ==>
                && counts == StoreSpec.Decrement(old(counts), digest)
                && r == Ok(if digest in counts then counts[digest].count else 0)
    {
      if digest !in counts {
        return Err(NotFound);
      }
      var remaining := counts[digest].count - 1;
      if remaining == 0 {
        counts := counts - {digest};
      } else {
        counts := counts[digest := ChunkRef(remaining, counts[digest].size)];
      }
      return Ok(remaining);
    }

    method SizeOf(digest: string) returns (size: Option<nat>)
      ensures size == if digest in counts then Some(counts[digest].size) else None
    {
      return if digest in counts then Some(counts[digest].size) else None;
    }
  }

  /** Running totals. */
  class Stats {
    var totalBytes: nat
    var storedBytes: nat
    var gcChunks: nat

    function Value(): Totals
      reads this
    {
      Totals(totalBytes, storedBytes, gcChunks)
    }

    constructor ()
      ensures Value() == Totals(0, 0, 0)
    {
      totalBytes, storedBytes, gcChunks := 0, 0, 0;
    }

    method Replace(sum: Totals)
      modifies this
      ensures Value() == sum
    {
      totalBytes, storedBytes, gcChunks := sum.total, sum.stored, sum.gc;
    }

    method AddReference(size: nat)
      modifies this
      ensures Value() == old(Value()).(total := old(totalBytes) + size)
    {
      totalBytes := totalBytes + size;
    }

    method AddUniqueChunk(size: nat)
      modifies this
      ensures Value() == old(Value()).(total := old(totalBytes) + size, stored := old(storedBytes) + size)
    {
      totalBytes := totalBytes + size;
      storedBytes := storedBytes + size;
    }

    method RemoveReference(size: nat)
      modifies this
      ensures Value() == old(Value()).(total := Monus(old(totalBytes), size))
      ensures totalBytes == if old(totalBytes) < size then 0 else old(totalBytes) - size
    {
      totalBytes := Monus(totalBytes, size);
    }

    method RemoveUniqueChunk(size: nat)
      modifies this
      ensures Value() == old(Value()).(stored := Monus(old(storedBytes), size), gc := old(gcChunks) + 1)
      ensures storedBytes == if old(storedBytes) < size then 0 else old(storedBytes) - size
    {
      storedBytes := Monus(storedBytes, size);
      gcChunks := gcChunks + 1;
    }
  }
}
