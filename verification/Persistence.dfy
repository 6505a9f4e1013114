/** Loading and saving metadata records: core/src/store/persistence.rs. Every
    method leaves the backend as its specification function says, whatever
    call fails. */
module Persistence {
  import opened Types
  import opened Hashing
  import opened DiskSpec
  import opened Backends
  import opened Tables

  method ReadStringList(backend: MemoryBackend, sp: Space) returns (r: Result<seq<string>>)
    modifies backend
    ensures Outcome(backend.View(), r) == ReadList(old(backend.View()), sp)
  {
    var found :- backend.GetDoc(sp, INDEX);
    match found {
      case None => return Ok([]);
      case Some(List(items)) => return Ok(items);
      case _ => return Err(Corrupt);
    }
  }

  method WriteStringList(backend: MemoryBackend, sp: Space, values: seq<string>) returns (r: Result<()>)
    modifies backend
    ensures Outcome(backend.View(), r) == PutDoc(old(backend.View()), sp, INDEX, List(values))
  {
    r := backend.PutDoc(sp, INDEX, List(values));
  }

  method ValidateDigest(digest: string) returns (r: Result<()>)
    ensures r == if IsChunkDigest(digest) then Ok(()) else Err(InvalidArgument)
  {
    return if IsChunkDigest(digest) then Ok(()) else Err(InvalidArgument);
  }

  method ValidateAll(digests: seq<string>) returns (r: Result<()>)
    ensures r == if AllDigests(digests) then Ok(()) else Err(InvalidArgument)
  {
    hide IsChunkDigest;
    for i := 0 to |digests|
      invariant forall j :: 0 <= j < i ==> IsChunkDigest(digests[j])
    {
      var _ :- ValidateDigest(digests[i]);
    }
    return Ok(());
  }

  /** `index.retain(..)` */
  method RetainOthers(index: seq<string>, id: string) returns (kept: seq<string>)
    ensures kept == Retain(index, id)
  {
    kept := [];
    for i := 0 to |index|
      invariant kept + Retain(index[i..], id) == Retain(index, id)
    {
      assert index[i..][1..] == index[i + 1..];
      if index[i] != id {
        kept := kept + [index[i]];
      }
    }
  }

  method LoadManifests(backend: MemoryBackend) returns (r: Result<Manifest>)
    modifies backend
    ensures r.Ok? ==> fresh(r.value) && r.value.Valid() &&
                      DiskSpec.LoadManifests(old(backend.View())) == Done(backend.View(), r.value.Records())
    ensures r.Err? ==> DiskSpec.LoadManifests(old(backend.View())) == Fail(backend.View(), r.error)
  {
    hide AllDigests;
    var index :- ReadStringList(backend, Manifests);
    var manifest := new Manifest();
    for i := 0 to |index|
      invariant fresh(manifest) && manifest.Valid()
      invariant DiskSpec.LoadManifests(old(backend.View())) ==
                LoadFiles(backend.View(), index[i..], manifest.Records())
    {
      assert index[i..][1..] == index[i + 1..];
      var found :- backend.GetDoc(Manifests, index[i]);
      match found {
        case Some(ManifestDoc(digests, fileBytes)) =>
          var _ :- ValidateAll(digests);
          var _ :- manifest.Insert(index[i], digests, fileBytes);
        case _ => return Err(Corrupt);
      }
    }
    return Ok(manifest);
  }

  method LoadRefcounts(backend: MemoryBackend) returns (r: Result<RefCount>)
    modifies backend
    ensures r.Ok? ==> fresh(r.value) &&
                      DiskSpec.LoadRefcounts(old(backend.View())) == Done(backend.View(), r.value.counts)
    ensures r.Err? ==> DiskSpec.LoadRefcounts(old(backend.View())) == Fail(backend.View(), r.error)
  {
    hide IsChunkDigest;
    var index :- ReadStringList(backend, Refcounts);
    var refcount := new RefCount();
    for i := 0 to |index|
      invariant fresh(refcount)
      invariant DiskSpec.LoadRefcounts(old(backend.View())) ==
                LoadRefs(backend.View(), index[i..], refcount.counts)
    {
      assert index[i..][1..] == index[i + 1..];
      var _ :- ValidateDigest(index[i]);
      var found :- backend.GetDoc(Refcounts, index[i]);
      if found.None? {
        return Err(Corrupt);
      }
      match ParseRefcount(found.value) {
        case None => return Err(Corrupt);
        case Some((count, size)) =>
          if count > 0 {
            refcount.Set(index[i], count, size);
          }
      }
    }
    return Ok(refcount);
  }

  method SaveManifest(backend: MemoryBackend, id: string, digests: seq<string>, fileBytes: nat) returns (r: Result<()>)
    modifies backend
    ensures Outcome(backend.View(), r) == DiskSpec.SaveManifest(old(backend.View()), id, digests, fileBytes)
  {
    hide AllDigests;
    var _ :- ValidateAll(digests);
    var _ :- backend.PutDoc(Manifests, id, ManifestDoc(digests, fileBytes));
    var index :- ReadStringList(backend, Manifests);
    if id !in index {
      var _ :- WriteStringList(backend, Manifests, index + [id]);
    }
    return Ok(());
  }

  method RemoveManifest(backend: MemoryBackend, id: string) returns (r: Result<()>)
    modifies backend
    ensures Outcome(backend.View(), r) == DiskSpec.RemoveManifest(old(backend.View()), id)
  {
    var _ :- backend.DeleteDoc(Manifests, id);
    var index :- ReadStringList(backend, Manifests);
    index := RetainOthers(index, id);
    var _ :- WriteStringList(backend, Manifests, index);
    return Ok(());
  }

  method SaveRefcount(backend: MemoryBackend, digest: string, count: nat, size: nat) returns (r: Result<()>)
    modifies backend
    ensures Outcome(backend.View(), r) == DiskSpec.SaveRefcount(old(backend.View()), digest, count, size)
  {
    hide IsChunkDigest;
    var _ :- ValidateDigest(digest);
    var _ :- backend.PutDoc(Refcounts, digest, CountSize(count, size));
    var index :- ReadStringList(backend, Refcounts);
    if digest !in index {
      var _ :- WriteStringList(backend, Refcounts, index + [digest]);
    }
    return Ok(());
  }

  method RemoveRefcount(backend: MemoryBackend, digest: string) returns (r: Result<()>)
    modifies backend
    ensures Outcome(backend.View(), r) == DiskSpec.RemoveRefcount(old(backend.View()), digest)
  {
    var _ :- backend.DeleteDoc(Refcounts, digest);
    var index :- ReadStringList(backend, Refcounts);
    index := RetainOthers(index, digest);
    var _ :- WriteStringList(backend, Refcounts, index);
    return Ok(());
  }
}
