/** What a store state has to satisfy. */
module Invariants {
  import opened Types
  import opened Hashing
  import opened DiskSpec
  import opened StoreSpec
  import opened Counting
  import opened Records

  /** Every digest-shaped key holds the payload chosen for the digest. */
  ghost predicate BlobsGood(cfg: Cfg, blobs: map<string, Bytes>) {
    forall d :: d in blobs && IsChunkDigest(d) ==> Decode(cfg, blobs[d]) == Some(cfg.plain(d))
  }

  /** The digest is the digest of the payload chosen for it. */
  ghost predicate Known(cfg: Cfg, d: string) {
    DigestHex(cfg, cfg.plain(d)) == d
  }

  /** Counted chunks are on the backend, and their sizes are right. */
  ghost predicate Backed(cfg: Cfg, refs: map<string, ChunkRef>, blobs: map<string, Bytes>) {
    forall d :: d in refs ==> Known(cfg, d) && refs[d].size == |cfg.plain(d)| && d in blobs
  }

  /** Exact counting, with multiplicity: each count is the occurrences in the
      manifests together with the references an operation in progress holds. */
  ghost predicate Counted(files: map<string, FileRec>, refs: map<string, ChunkRef>, pending: multiset<string>) {
    forall d :: AllRefs(files)[d] + pending[d] == Count(refs, d)
  }

  /** The counts are at least the references. */
  ghost predicate Covers(files: map<string, FileRec>, refs: map<string, ChunkRef>, pending: multiset<string>) {
    forall d :: AllRefs(files)[d] + pending[d] <= Count(refs, d)
  }

  // The values of a comprehension are given by a function whose domain is the
  // comprehension's: where two comprehensions are empty and thus equal, the
  // verifier equates their value expressions at every key.
  ghost function RefDoc(refs: map<string, ChunkRef>, d: string): Doc
    requires d in refs
  {
    CountSize(refs[d].count, refs[d].size)
  }

  ghost function RefDocs(refs: map<string, ChunkRef>): map<string, Doc> {
    map d | d in refs :: RefDoc(refs, d)
  }

  ghost function FileDoc(files: map<string, FileRec>, f: string): Doc
    requires f in files
  {
    ManifestDoc(files[f].digests, files[f].fileBytes)
  }

  ghost function FileDocs(files: map<string, FileRec>): map<string, Doc> {
    map f | f in files :: FileDoc(files, f)
  }

  /** The invariant of failure-free operation, with the references held by the
      operation in progress. */
  ghost predicate Consistent(cfg: Cfg, s: State, pending: multiset<string>) {
    && BlobsGood(cfg, s.disk.blobs)
    && Backed(cfg, s.refs, s.disk.blobs)
    && Counted(s.files, s.refs, pending)
    && Persisted(s.disk.refcounts, RefDocs(s.refs))
    && Persisted(s.disk.manifests, FileDocs(s.files))
    && FilesSized(cfg, s.files)
    && "" !in s.files
  }

  ghost predicate NoOrphans(s: State) {
    forall d :: d in s.disk.blobs && IsChunkDigest(d) ==> d in s.refs
  }

  /** The running totals are what `rebuild_stats` computes. */
  ghost predicate Balanced(s: State) {
    && s.stats.total == TotalBytes(s.refs)
    && s.stats.stored == StoredBytes(s.refs)
  }

  lemma RefDocsInsert(refs: map<string, ChunkRef>, d: string, r: ChunkRef)
    ensures RefDocs(refs[d := r]) == RefDocs(refs)[d := CountSize(r.count, r.size)]
  {
  }

  lemma RefDocsRemove(refs: map<string, ChunkRef>, d: string)
    ensures RefDocs(refs - {d}) == RefDocs(refs) - {d}
  {
  }

  lemma FileDocsInsert(files: map<string, FileRec>, f: string, r: FileRec)
    ensures FileDocs(files[f := r]) == FileDocs(files)[f := ManifestDoc(r.digests, r.fileBytes)]
  {
  }

  lemma FileDocsRemove(files: map<string, FileRec>, f: string)
    ensures FileDocs(files - {f}) == FileDocs(files) - {f}
  {
  }

  lemma DigestIsNotIndex(d: string)
    requires IsChunkDigest(d)
    ensures d != INDEX
  {
    assert |INDEX| == 9;
  }
}
