/** What the operations refuse, with which error, and what is left behind; and what
    the blobs on the backend are. */
module Refusals {
  import opened Types
  import opened Hashing
  import opened DiskSpec
  import opened Chunking
  import opened StoreSpec
  import opened Counting
  import opened Records
  import opened Invariants
  import opened ExactSteps
  import opened ExactOps
  import opened ExactRelease
  import opened Refinement
  import opened Streaming
  import opened Reads

  // ----- Sizes that contradict each other

  /** Two known sizes of one chunk that differ. */
  predicate Contradicts(refs: map<string, ChunkRef>, d: string, size: nat) {
    d in refs && refs[d].size > 0 && size > 0 && refs[d].size != size
  }

  /** A count is refused if and only if the sizes contradict; otherwise it is one
      higher, and a size that was not known is filled in. */
  lemma IncrementRefuses(refs: map<string, ChunkRef>, d: string, size: nat)
    ensures var r := StoreSpec.Increment(refs, d, size);
            && (r.Err? <==> Contradicts(refs, d, size))
            && (r.Err? ==> r.error == InvalidArgument)
            && (r.Ok? ==>
                  && r.value.count == Count(refs, d) + 1
                  && r.value.size == if d in refs && refs[d].size > 0 then refs[d].size else size)
  {
  }

  /** The bytes that are stored for a payload. */
  function StoredAs(cfg: Cfg, data: Bytes): Option<Bytes> {
    match cfg.codec
    case None => Some(data)
    case Some(c) => c.encode(data)
  }

  lemma CountStepRefuses(s: State, d: string, size: nat)
    requires s.disk.plan.Never? && IndexReadable(s.disk.refcounts) && IsChunkDigest(d)
    ensures var o := CountStep(s, d, size);
            var known := if d in s.refs && s.refs[d].size > 0 then s.refs[d].size else size;
            && (o.Fail? <==> Contradicts(s.refs, d, size))
            && (o.Fail? ==> o == Fail(s, InvalidArgument))
            && (o.Done? ==>
                  && o.s == s.(refs := s.refs[d := ChunkRef(Count(s.refs, d) + 1, known)],
                               disk := s.disk.(refcounts := o.s.disk.refcounts))
                  && o.s.disk.refcounts ==
                     WithEntry(s.disk.refcounts, d, CountSize(Count(s.refs, d) + 1, known)))
  {
    IncrementRefuses(s.refs, d, size);
    DigestIsNotIndex(d);
    var r := StoreSpec.Increment(s.refs, d, size);
    hide SaveEntry, IsChunkDigest, StoreSpec.Increment, IndexReadable, Contradicts, WithEntry;
    if r.Ok? {
      SaveEntryEffect(s.disk, Refcounts, d, CountSize(r.value.count, r.value.size));
    }
  }

  /** The chunk has one more reference, in memory and on the backend, with the
      size that is known now, and the totals include it. */
  ghost predicate CountedIn(s: State, s': State, d: string, size: nat) {
    var known := if d in s.refs && s.refs[d].size > 0 then s.refs[d].size else size;
    && s'.refs == s.refs[d := ChunkRef(Count(s.refs, d) + 1, known)]
    && s'.disk.refcounts == WithEntry(s.disk.refcounts, d, CountSize(Count(s.refs, d) + 1, known))
    && s'.stats == Totals(s.stats.total + size,
                          s.stats.stored + (if d in s.disk.blobs then 0 else size), s.stats.gc)
  }

  /** Storing a chunk on a backend that does not fail: a payload that the codec
      refuses is refused before anything is put; a size that contradicts the
      recorded one is refused after the blob is put, with nothing counted; and
      nothing else is. What is put is the encoded payload, under its digest, and
      only if there is no blob under it. */
  lemma StoreChunkRefuses(cfg: Cfg, s: State, data: Bytes)
    requires s.disk.plan.Never? && IndexReadable(s.disk.refcounts)
    ensures var d := DigestHex(cfg, data);
            var o := StoreChunk(cfg, s, d, data);
            && (StoredAs(cfg, data).None? ==> o == Fail(s, CodecFailed))
            && (StoredAs(cfg, data).Some? ==>
                  && o.s.disk.blobs ==
                     (if d in s.disk.blobs then s.disk.blobs else s.disk.blobs[d := StoredAs(cfg, data).value])
                  && o.s.files == s.files && o.s.disk.manifests == s.disk.manifests
                  && (o.Fail? <==> Contradicts(s.refs, d, |data|))
                  && (o.Fail? ==> o.e == InvalidArgument && o.s == s.(disk := s.disk.(blobs := o.s.disk.blobs)))
                  && (o.Done? ==> o.v == (d in s.disk.blobs) && CountedIn(s, o.s, d, |data|)))
  {
    var d := DigestHex(cfg, data);
    if StoredAs(cfg, data).Some? {
      var blob := StoredAs(cfg, data).value;
      BlobStepEffect(s, d, blob);
      var s1 := BlobStep(s, d, blob).s;
      CountStepRefuses(s1, d, |data|);
      hide BlobStep, CountStep, IsChunkDigest, IndexReadable, Contradicts, WithEntry;
    }
  }

  /** An ingest with a chunk that the codec refuses stops there, with exactly the
      chunks before it counted and every file as it was. */
  lemma CodecStopsIngest(cfg: Cfg, s: State, id: string, chunks: seq<Bytes>, k: nat)
    requires Clean(cfg, s) && LawfulCodec(cfg) && AllInPlay(cfg, chunks)
    requires k < |chunks| && StoredAs(cfg, chunks[k]).None?
    requires forall i :: 0 <= i < k ==> StoredAs(cfg, chunks[i]).Some?
    ensures var a := AcceptAll(cfg, s, chunks[..k]);
            && a.Done? && Ingest(cfg, s, id, chunks) == Fail(a.s, CodecFailed)
            && SameFiles(s, a.s) && Consistent(cfg, a.s, multiset(DigestsOf(cfg, chunks[..k])))
  {
    var first, rest := chunks[..k], chunks[k..];
    assert chunks == first + rest && rest[0] == chunks[k];
    forall i | 0 <= i < k ensures Encode(cfg, first[i]).Some? {
      assert StoredAs(cfg, chunks[i]).Some?;
    }
    AcceptedPending(cfg, s, first);
    AcceptAllAppend(cfg, s, first, rest);
    hide Clean, Consistent, LawfulCodec, AllInPlay, BlobStep, CountStep, Commit, DigestsOf, DigestHex;
    var a := AcceptAll(cfg, s, first);
    assert StoreChunk(cfg, a.s, DigestHex(cfg, rest[0]), rest[0]) == Fail(a.s, CodecFailed);
  }

  // ----- Names that are not digests

  /** A manifest is saved if and only if all its digests have the right shape; it
      is refused without effect otherwise. */
  lemma SaveManifestRefuses(b: Disk, id: string, digests: seq<string>, fileBytes: nat)
    requires b.plan.Never? && IndexReadable(b.manifests) && id != INDEX
    ensures var o := SaveManifest(b, id, digests, fileBytes);
            && (o.Done? <==> forall i :: 0 <= i < |digests| ==> IsChunkDigest(digests[i]))
            && (o.Fail? ==> o == Fail(b, InvalidArgument))
  {
    hide IsChunkDigest, SaveEntry;
    SaveEntryEffect(b, Manifests, id, ManifestDoc(digests, fileBytes));
  }

  lemma SaveRefcountRefuses(b: Disk, d: string, count: nat, size: nat)
    requires b.plan.Never? && IndexReadable(b.refcounts)
    ensures var o := SaveRefcount(b, d, count, size);
            && (o.Done? <==> IsChunkDigest(d)) && (o.Fail? ==> o == Fail(b, InvalidArgument))
  {
    if IsChunkDigest(d) {
      DigestIsNotIndex(d);
      SaveEntryEffect(b, Refcounts, d, CountSize(count, size));
    }
    hide IsChunkDigest, SaveEntry;
  }

  // ----- Releasing

  /** The size that a release works with: the recorded one, or the length of the
      payload when none is recorded. */
  ghost function SizeOf(cfg: Cfg, s: State, d: string): Option<nat> {
    if d in s.refs && s.refs[d].size > 0 then Some(s.refs[d].size)
    else if d in s.disk.blobs && Plaintext(cfg, s.disk.blobs[d]).Some?
    then Some(|Plaintext(cfg, s.disk.blobs[d]).value|) else None
  }

  /** A release is refused, without effect, when no size can be found, or the
      chunk is not counted. Otherwise the last reference takes blob, count and
      index entry with it, any other one is recorded with the size found, and the
      totals go down by that size, not below zero. */
  lemma ReleaseOneRefuses(cfg: Cfg, s: State, d: string)
    requires s.disk.plan.Never? && IndexReadable(s.disk.refcounts) && IsChunkDigest(d)
    ensures var o, size := ReleaseOne(cfg, s, d), SizeOf(cfg, s, d);
            && (o.Done? <==> size.Some? && d in s.refs)
            && (size.None? ==> o == Fail(s, if d in s.disk.blobs then CodecFailed else NotFound))
            && (size.Some? && d !in s.refs ==> o == Fail(s, NotFound))
            && (o.Done? ==>
                  && o.s.files == s.files && o.s.disk.manifests == s.disk.manifests
                  && o.s.stats.total == (if s.stats.total < size.value then 0 else s.stats.total - size.value)
                  && (if s.refs[d].count == 1 then
                        && o.s.refs == s.refs - {d} && o.s.disk.blobs == s.disk.blobs - {d}
                        && o.s.disk.refcounts == WithoutEntry(s.disk.refcounts, d)
                        && o.s.stats.stored == (if s.stats.stored < size.value then 0 else s.stats.stored - size.value)
                        && o.s.stats.gc == s.stats.gc + 1
                      else
                        && o.s.refs == s.refs[d := ChunkRef(s.refs[d].count - 1, s.refs[d].size)]
                        && o.s.disk.blobs == s.disk.blobs
                        && o.s.disk.refcounts ==
                           WithEntry(s.disk.refcounts, d, CountSize(s.refs[d].count - 1, size.value))
                        && o.s.stats.stored == s.stats.stored && o.s.stats.gc == s.stats.gc))
  {
    var o := ChunkSize(cfg, s, d);
    assert if SizeOf(cfg, s, d).Some? then o == Done(s, SizeOf(cfg, s, d).value)
           else o == Fail(s, if d in s.disk.blobs then CodecFailed else NotFound);
    hide ChunkSize, Settle, IsChunkDigest, SizeOf, IndexReadable, WithEntry, WithoutEntry;
    if o.Done? && d in s.refs {
      SettleEffect(s.(refs := Decrement(s.refs, d)), d, o.v);
    }
  }

  // ----- Fixed-size ingest

  /** A chunk size of zero is refused without effect; with any other one the file
      is the data, cut into chunks of that size. */
  lemma IngestFixedRefines(cfg: Cfg, s: State, id: string, data: Bytes, size: nat)
    requires Clean(cfg, s) && LawfulCodec(cfg) && ValidId(id)
    requires size > 0 ==> Ingestible(cfg, FixedChunks(data, size))
    ensures var o := IngestFixed(cfg, s, id, data, size);
            && (size == 0 ==> o == Fail(s, InvalidArgument))
            && (size > 0 ==>
                  && o.Done? && Clean(cfg, o.s) && o.v == DigestsOf(cfg, FixedChunks(data, size))
                  && o.s.files == s.files[id := FileRec(o.v, |data|)]
                  && Contents(cfg, o.s) == Contents(cfg, s)[id := data])
  {
    hide Clean, LawfulCodec, Ingestible, Ingest, FixedChunks, DigestsOf, Concat, Contents;
    if size > 0 {
      FixedChunksTile(data, size);
      IngestRefines(cfg, s, id, FixedChunks(data, size));
    }
  }
}
