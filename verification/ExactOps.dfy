/** Whole operations keep the exact invariant. */
module ExactOps {
  import opened Types
  import opened Hashing
  import opened DiskSpec
  import opened StoreSpec
  import opened Counting
  import opened Records
  import opened Invariants
  import opened ExactSteps

  function DigestsOf(cfg: Cfg, chunks: seq<Bytes>): (ds: seq<string>)
    ensures |ds| == |chunks|
    ensures forall i :: 0 <= i < |ds| ==> ds[i] == DigestHex(cfg, chunks[i])
  {
    if chunks == [] then [] else [DigestHex(cfg, chunks[0])] + DigestsOf(cfg, chunks[1..])
  }

  lemma {:induction false} MeaningOfChunks(cfg: Cfg, chunks: seq<Bytes>)
    requires AllInPlay(cfg, chunks)
    ensures Meaning(cfg, DigestsOf(cfg, chunks)) == Concat(chunks)
  {
    if chunks != [] {
      assert InPlay(cfg, chunks[0]);
      assert AllInPlay(cfg, chunks[1..]);
      MeaningOfChunks(cfg, chunks[1..]);
      assert DigestsOf(cfg, chunks)[1..] == DigestsOf(cfg, chunks[1..]);
    }
  }

  lemma HeadAndTail(cfg: Cfg, chunks: seq<Bytes>)
    requires AllInPlay(cfg, chunks) && Encodable(cfg, chunks) && chunks != []
    ensures InPlay(cfg, chunks[0]) && Encode(cfg, chunks[0]).Some?
    ensures AllInPlay(cfg, chunks[1..]) && Encodable(cfg, chunks[1..])
  {
  }

  /** Accepting a chunk list changes neither manifests nor the gc count. */
  ghost predicate SameFiles(s: State, s': State) {
    && s'.files == s.files
    && s'.disk.manifests == s.disk.manifests
    && s'.stats.gc == s.stats.gc
  }

  lemma PendingCons(pending: multiset<string>, d: string, rest: seq<string>)
    ensures pending + multiset([d] + rest) == (pending + multiset{d}) + multiset(rest)
  {
    assert multiset([d] + rest) == multiset{d} + multiset(rest);
  }

  lemma {:induction false} AcceptAllExact(cfg: Cfg, s: State, chunks: seq<Bytes>, pending: multiset<string>)
    requires Consistent(cfg, s, pending) && LawfulCodec(cfg)
    requires AllInPlay(cfg, chunks) && Encodable(cfg, chunks)
    ensures var o := AcceptAll(cfg, s, chunks);
            && (s.disk.plan.Never? ==> o.Done? && o.s.disk.plan.Never?)
            && (o.Done? ==> o.v == DigestsOf(cfg, chunks) && SameFiles(s, o.s))
            && (o.Done? ==> Consistent(cfg, o.s, pending + multiset(o.v)))
    decreases |chunks|
  {
    hide Consistent, LawfulCodec, StoreChunk, Recounted, IndexOf, InPlay, IsChunkDigest;
    if chunks == [] {
      assert pending + multiset(DigestsOf(cfg, chunks)) == pending;
    } else {
      var d := DigestHex(cfg, chunks[0]);
      StoreChunkExact(cfg, s, chunks[0], pending);
      StoreChunkStored(cfg, s, chunks[0], pending);
      var o1 := StoreChunk(cfg, s, d, chunks[0]);
      if o1.Done? {
        AcceptAllExact(cfg, o1.s, chunks[1..], pending + multiset{d});
        PendingCons(pending, d, DigestsOf(cfg, chunks[1..]));
      }
    }
  }

  lemma {:induction false} AcceptAllBalanced(cfg: Cfg, s: State, chunks: seq<Bytes>, pending: multiset<string>)
    requires Consistent(cfg, s, pending) && LawfulCodec(cfg)
    requires AllInPlay(cfg, chunks) && Encodable(cfg, chunks)
    requires Balanced(s) && NoOrphans(s)
    ensures var o := AcceptAll(cfg, s, chunks);
            o.Done? ==> Balanced(o.s) && NoOrphans(o.s)
    decreases |chunks|
  {
    hide Consistent, Balanced, NoOrphans, LawfulCodec, StoreChunk, Stored, InPlay, IsChunkDigest;
    if chunks != [] {
      var d := DigestHex(cfg, chunks[0]);
      StoreChunkExact(cfg, s, chunks[0], pending);
      StoreChunkStored(cfg, s, chunks[0], pending);
      var o1 := StoreChunk(cfg, s, d, chunks[0]);
      if o1.Done? {
        StoredBalanced(cfg, s, o1.s, d, pending);
        AcceptAllBalanced(cfg, o1.s, chunks[1..], pending + multiset{d});
      }
    }
  }

  // ----- Publishing the manifest

  /** Publishing touches the manifest table and the manifest family only. */
  lemma PublishEffect(s: State, id: string, digests: seq<string>, fileBytes: nat)
    requires IndexReadable(s.disk.manifests) && id != "" && id != INDEX
    requires AllDigests(digests)
    ensures var o := Publish(s, id, digests, fileBytes);
            var doc := ManifestDoc(digests, fileBytes);
            && OnlyIn(s.disk, o.s.disk, Manifests)
            && o.s == s.(files := s.files[id := FileRec(digests, fileBytes)], disk := o.s.disk)
            && (s.disk.plan.Never? ==> o.Done?)
            && (o.Done? ==> o.s.disk.manifests == WithEntry(s.disk.manifests, id, doc))
            && (o.Fail? ==> || o.s.disk.manifests == s.disk.manifests
                            || o.s.disk.manifests == s.disk.manifests[id := doc])
  {
    SaveEntryEffect(s.disk, Manifests, id, ManifestDoc(digests, fileBytes));
  }

  ghost function Previous(s: State, id: string): seq<string> {
    if id in s.files then s.files[id].digests else []
  }

  lemma PublishedRefs(files: map<string, FileRec>, refs: map<string, ChunkRef>, pending: multiset<string>,
                      id: string, rec: FileRec)
    requires Counted(files, refs, pending + multiset(rec.digests))
    ensures Counted(files[id := rec], refs,
                    pending + multiset(if id in files then files[id].digests else []))
  {
    AllRefsInsert(files, id, rec);
    if id in files {
      AllRefsRemove(files, id);
    } else {
      assert files - {id} == files;
    }
  }

  lemma PersistedFile(m: map<string, Doc>, files: map<string, FileRec>, id: string, rec: FileRec)
    requires Persisted(m, FileDocs(files)) && id != INDEX
    ensures Persisted(WithEntry(m, id, ManifestDoc(rec.digests, rec.fileBytes)), FileDocs(files[id := rec]))
    ensures IndexOf(WithEntry(m, id, ManifestDoc(rec.digests, rec.fileBytes))) ==
            if id in files then IndexOf(m) else IndexOf(m) + [id]
  {
    FileDocsInsert(files, id, rec);
    SavePersists(m, FileDocs(files), id, ManifestDoc(rec.digests, rec.fileBytes));
  }

  /** When the manifest is persisted, the pending references of the session
      have become the file's, and the previous version's are pending. */
  lemma PublishedExact(cfg: Cfg, s: State, s': State, id: string, digests: seq<string>, pending: multiset<string>)
    requires Consistent(cfg, s, pending + multiset(digests)) && id != "" && id != INDEX
    requires s' == s.(files := s.files[id := FileRec(digests, |Meaning(cfg, digests)|)], disk := s'.disk)
    requires OnlyIn(s.disk, s'.disk, Manifests)
    requires s'.disk.manifests == WithEntry(s.disk.manifests, id, ManifestDoc(digests, |Meaning(cfg, digests)|))
    ensures Consistent(cfg, s', pending + multiset(Previous(s, id)))
    ensures IndexOf(s'.disk.manifests) ==
            if id in s.files then IndexOf(s.disk.manifests) else IndexOf(s.disk.manifests) + [id]
  {
    hide Persisted, Counted, Backed, BlobsGood, IsChunkDigest, Meaning, WithEntry, IndexOf;
    PublishedRefs(s.files, s.refs, pending, id, FileRec(digests, |Meaning(cfg, digests)|));
    PersistedFile(s.disk.manifests, s.files, id, FileRec(digests, |Meaning(cfg, digests)|));
  }

  /** Pending references are digests of chunks that are present. */
  lemma PendingIsBacked(cfg: Cfg, s: State, pending: multiset<string>, d: string)
    requires Consistent(cfg, s, pending) && pending[d] > 0
    ensures d in s.refs && d in s.disk.blobs && Known(cfg, d) && IsChunkDigest(d)
  {
    hide Persisted, FilesSized, BlobsGood, AllRefs;
    assert Count(s.refs, d) > 0;
    var x := DigestHex(cfg, cfg.plain(d));
  }
}
