/** After a clean operation the backend holds the whole store: opening it gives
    an indistinguishable one. */
module Reopen {
  import opened Types
  import opened Hashing
  import opened DiskSpec
  import opened StoreSpec
  import opened Counting
  import opened Records
  import opened Invariants
  import opened Refinement
  import opened Opening

  /** All digests named by manifests have the digest shape. */
  lemma ManifestsNameDigests(cfg: Cfg, s: State, pending: multiset<string>, id: string)
    requires Consistent(cfg, s, pending) && id in s.files
    ensures AllDigests(s.files[id].digests)
  {
    hide Consistent, IsChunkDigest;
    forall i | 0 <= i < |s.files[id].digests| ensures IsChunkDigest(s.files[id].digests[i]) {
      FileIsBacked(cfg, s, pending, id, s.files[id].digests[i]);
      var d := DigestHex(cfg, cfg.plain(s.files[id].digests[i]));
    }
  }

  lemma PersistedFilesLoad(m: map<string, Doc>, files: map<string, FileRec>)
    requires Persisted(m, FileDocs(files)) && "" !in files
    requires forall id :: id in files ==> AllDigests(files[id].digests)
    ensures FilesLoadable(m, IndexOf(m)) && FilesIn(m) == files
  {
    hide AllDigests;
    PersistedLookup(m, FileDocs(files));
    hide Persisted, IndexOf;
    assert forall x :: x in files ==> x in FileDocs(files);
    forall i | 0 <= i < |IndexOf(m)| ensures IndexOf(m)[i] in files {
      assert IndexOf(m)[i] in IndexOf(m);
      assert IndexOf(m)[i] in FileDocs(files);
    }
  }

  lemma PersistedRefsLoad(m: map<string, Doc>, refs: map<string, ChunkRef>)
    requires Persisted(m, RefDocs(refs))
    requires forall d :: d in refs ==> IsChunkDigest(d)
    ensures RefsLoadable(m, IndexOf(m)) && RefsIn(m) == refs
  {
    hide IsChunkDigest;
    PersistedLookup(m, RefDocs(refs));
    hide Persisted, IndexOf;
    assert forall x :: x in refs ==> x in RefDocs(refs);
    forall i | 0 <= i < |IndexOf(m)| ensures IndexOf(m)[i] in refs {
      assert IndexOf(m)[i] in IndexOf(m);
      assert IndexOf(m)[i] in RefDocs(refs);
    }
  }

  lemma CountedAreSizable(cfg: Cfg, refs: map<string, ChunkRef>, blobs: map<string, Bytes>)
    requires Backed(cfg, refs, blobs)
    ensures forall d :: d in refs ==> IsChunkDigest(d)
    ensures Sizable(refs, blobs)
  {
    forall d | d in refs ensures IsChunkDigest(d) {
      var x := DigestHex(cfg, cfg.plain(d));
    }
  }

  /** What the backend of a consistent store loads to. */
  lemma ConsistentLoads(cfg: Cfg, s: State, pending: multiset<string>)
    requires Consistent(cfg, s, pending)
    ensures Sizable(s.refs, s.disk.blobs)
    ensures FilesIn(s.disk.manifests) == s.files && RefsIn(s.disk.refcounts) == s.refs
    ensures Loadable(s.disk.(plan := Never))
  {
    CountedAreSizable(cfg, s.refs, s.disk.blobs);
    forall id | id in s.files ensures AllDigests(s.files[id].digests) {
      ManifestsNameDigests(cfg, s, pending, id);
    }
    hide Backed, BlobsGood, Counted, FilesSized, IsChunkDigest, AllDigests, Sizable, FilesIn, RefsIn;
    PersistedFilesLoad(s.disk.manifests, s.files);
    PersistedRefsLoad(s.disk.refcounts, s.refs);
  }

  /** Opening measures a chunk of recorded size zero on its stored form. */
  ghost predicate EmptyStoredEmpty(refs: map<string, ChunkRef>, blobs: map<string, Bytes>) {
    forall d :: d in refs && refs[d].size == 0 && d in blobs ==> blobs[d] == []
  }

  lemma FilledIff(refs: map<string, ChunkRef>, blobs: map<string, Bytes>)
    ensures Filled(refs, blobs) == refs <==> EmptyStoredEmpty(refs, blobs)
  {
    forall d | d in refs && refs[d].size == 0 && d in blobs && blobs[d] != [] ensures Filled(refs, blobs) != refs {
      assert Filled(refs, blobs)[d] != refs[d];
    }
    forall d | d in refs ensures EmptyStoredEmpty(refs, blobs) ==> Filled(refs, blobs)[d] == refs[d] {
      if refs[d].size == 0 && d in blobs && EmptyStoredEmpty(refs, blobs) {
        assert Filled(refs, blobs)[d] == ChunkRef(refs[d].count, 0);
      }
    }
  }

  lemma NothingToFill(m: map<string, Doc>, refs: map<string, ChunkRef>, blobs: map<string, Bytes>)
    requires Persisted(m, RefDocs(refs)) && RefsIn(m) == refs
    requires Filled(refs, blobs) == refs
    ensures FilledDocs(m, blobs) == m
  {
    hide IsChunkDigest, RefsIn;
    PersistedLookup(m, RefDocs(refs));
    hide Persisted;
    forall x | x in m && x in refs && refs[x].size == 0 && x in blobs
      ensures m[x] == CountSize(refs[x].count, |blobs[x]|)
    {
      assert Filled(refs, blobs)[x] == refs[x];
      assert x in RefDocs(refs);
    }
  }

  /** The store with its totals recomputed and no collections on record. */
  ghost function Recomputed(s: State): State {
    s.(stats := Totals(TotalBytes(s.refs), StoredBytes(s.refs), 0))
  }

  /** Disk agrees with memory: opening the backend rewrites nothing and gives
      the same manifests and counts, with the totals recomputed. A codec can
      spoil this for empty chunks only: it is so if and only if every live empty
      chunk is stored as the empty blob, which is always the case without one. */
  lemma ReopenRestores(cfg: Cfg, s: State, stale: seq<string>, order: seq<string>)
    requires Clean(cfg, s)
    requires IsStaleListing(stale, s.refs) && IsListing(order, s.refs.Keys)
    ensures Open(cfg, s.disk, stale, order) == Done(s.disk, Recomputed(s)) <==>
            forall d :: d in s.refs && s.refs[d].size == 0 && d in s.disk.blobs ==> s.disk.blobs[d] == []
    ensures cfg.codec.None? ==> Open(cfg, s.disk, stale, order) == Done(s.disk, Recomputed(s))
    ensures Balanced(s) ==> Recomputed(s) == s.(stats := s.stats.(gc := 0))
  {
    ConsistentLoads(cfg, s, multiset{});
    FilledIff(s.refs, s.disk.blobs);
    if cfg.codec.None? {
      PlainIsStored(cfg, s);
    }
    PersistedRefs(cfg, s);
    hide Consistent, Open, Loadable, Sizable, Filled, FilledDocs, FilesIn, RefsIn, IsStaleListing, IsListing;
    hide TotalBytes, StoredBytes;
    assert s.disk.(plan := Never) == s.disk;
    OpenResult(cfg, s.disk, stale, order);
    if Filled(s.refs, s.disk.blobs) == s.refs {
      NothingToFill(s.disk.refcounts, s.refs, s.disk.blobs);
    }
  }

  lemma PersistedRefs(cfg: Cfg, s: State)
    requires Consistent(cfg, s, multiset{})
    ensures Persisted(s.disk.refcounts, RefDocs(s.refs))
  {
  }

  lemma PlainIsStored(cfg: Cfg, s: State)
    requires Consistent(cfg, s, multiset{}) && cfg.codec.None?
    ensures EmptyStoredEmpty(s.refs, s.disk.blobs)
  {
    hide Persisted, Counted, FilesSized;
    CountedAreSizable(cfg, s.refs, s.disk.blobs);
  }
}
