/** Blobs without a count: what reusing them does to the running totals. */
module Orphans {
  import opened Types
  import opened Hashing
  import opened DiskSpec
  import opened StoreSpec
  import opened Counting
  import opened Records
  import opened Invariants
  import opened ExactSteps
  import opened ExactOps
  import opened ExactRelease
  import opened Refinement
  import opened FsckLaws
  import opened SavePoint

  /** The payload sizes of the orphans among these digests, each once. */
  ghost function OrphanSizes(cfg: Cfg, s: State, digests: seq<string>): map<string, nat> {
    map d | d in digests && IsOrphan(s, d) :: |cfg.plain(d)|
  }

  lemma {:induction false} SumIsZeroIff(m: map<string, nat>)
    ensures Sum(m) == 0 <==> forall k :: k in m ==> m[k] == 0
    decreases m.Keys
  {
    if m != map[] {
      var k :| k in m;
      SumRemove(m, k);
      SumIsZeroIff(m - {k});
      assert forall j :: j in m ==> j == k || (j in m - {k} && (m - {k})[j] == m[j]);
    }
  }

  lemma {:induction false} SumSubmap(part: map<string, nat>, m: map<string, nat>)
    requires forall k :: k in part ==> k in m && m[k] == part[k]
    ensures Sum(part) <= Sum(m)
    decreases part.Keys
  {
    if part != map[] {
      var k :| k in part;
      SumRemove(part, k);
      SumRemove(m, k);
      SumSubmap(part - {k}, m - {k});
    }
  }

  lemma CountedIsThere(cfg: Cfg, s: State, d: string)
    requires Backed(cfg, s.refs, s.disk.blobs)
    ensures d in s.refs ==> d in s.disk.blobs
  {
  }

  lemma StoredTotals(cfg: Cfg, s: State, s': State, d: string)
    requires Stored(cfg, s, s', d)
    ensures s'.refs == Recounted(cfg, s, d) && s'.stats.total == s.stats.total + |cfg.plain(d)|
    ensures s'.stats.stored == s.stats.stored + if d in s.disk.blobs then 0 else |cfg.plain(d)|
  {
    hide Recounted, IndexOf;
  }

  /** Storing a chunk whose blob is an orphan counts it as live but does not add
      it to the stored bytes. */
  lemma StoredShort(cfg: Cfg, s: State, s': State, d: string, pending: multiset<string>, gap: nat)
    requires Consistent(cfg, s, pending) && Stored(cfg, s, s', d) && IsChunkDigest(d) && Short(s, gap)
    ensures Short(s', gap + if IsOrphan(s, d) then |cfg.plain(d)| else 0)
  {
    ConsistentParts(cfg, s, pending);
    CountedIsThere(cfg, s, d);
    BytesRecounted(cfg, s, d) by { hide Consistent, Persisted, Backed, Recounted; }
    StoredTotals(cfg, s, s', d);
    hide Consistent, Persisted, Backed, RefsSized, Recounted, TotalBytes, StoredBytes, IndexOf, IsChunkDigest, Stored;
  }

  lemma OrphanSizesCons(cfg: Cfg, s: State, s': State, d: string, rest: seq<string>)
    requires Stored(cfg, s, s', d) && IsChunkDigest(d)
    ensures Sum(OrphanSizes(cfg, s, [d] + rest)) ==
            Sum(OrphanSizes(cfg, s', rest)) + if IsOrphan(s, d) then |cfg.plain(d)| else 0
  {
    hide IndexOf, Sum;
    var all, later := OrphanSizes(cfg, s, [d] + rest), OrphanSizes(cfg, s', rest);
    assert d !in later;
    forall x | x != d ensures IsOrphan(s, x) <==> IsOrphan(s', x) {
      assert x in s'.disk.blobs <==> x in s'.disk.blobs.Keys;
    }
    if IsOrphan(s, d) {
      assert all == later[d := |cfg.plain(d)|];
      SumInsert(later, d, |cfg.plain(d)|);
    } else {
      assert all == later;
    }
  }

  /** Accepting chunks leaves the stored bytes short by the sizes of the orphans
      it reuses. */
  lemma {:induction false} AcceptAllShort(cfg: Cfg, s: State, chunks: seq<Bytes>, pending: multiset<string>, gap: nat)
    requires Consistent(cfg, s, pending) && LawfulCodec(cfg) && Ingestible(cfg, chunks) && Short(s, gap)
    ensures var o := AcceptAll(cfg, s, chunks);
            o.Done? ==> Short(o.s, gap + Sum(OrphanSizes(cfg, s, DigestsOf(cfg, chunks))))
    decreases |chunks|
  {
    hide Consistent, LawfulCodec, StoreChunk, Stored, InPlay, IsChunkDigest, Short, Sum, OrphanSizes, IsOrphan;
    if chunks == [] {
      assert OrphanSizes(cfg, s, []) == map[] by { NoOrphanSizes(cfg, s); }
      SumIsZeroIff(OrphanSizes(cfg, s, []));
    } else {
      HeadAndTail(cfg, chunks);
      var d := DigestHex(cfg, chunks[0]);
      StoreChunkExact(cfg, s, chunks[0], pending);
      StoreChunkStored(cfg, s, chunks[0], pending);
      var o1 := StoreChunk(cfg, s, d, chunks[0]);
      if o1.Done? {
        StoredShort(cfg, s, o1.s, d, pending, gap);
        OrphanSizesCons(cfg, s, o1.s, d, DigestsOf(cfg, chunks[1..]));
        AcceptAllShort(cfg, o1.s, chunks[1..], pending + multiset{d},
                       gap + if IsOrphan(s, d) then |cfg.plain(d)| else 0);
      }
    }
  }

  lemma NoOrphanSizes(cfg: Cfg, s: State)
    ensures OrphanSizes(cfg, s, []) == map[]
  {
  }

  /** Sizes of chunks that manifests reference. */
  ghost predicate Referenced(cfg: Cfg, files: map<string, FileRec>, sizes: map<string, nat>) {
    forall k :: k in sizes ==> AllRefs(files)[k] > 0 && sizes[k] == |cfg.plain(k)|
  }

  /** A chunk that is dropped is none of these. */
  lemma DroppedIsExtra(cfg: Cfg, s: State, d: string, pending: multiset<string>, sizes: map<string, nat>)
    requires Consistent(cfg, s, pending + multiset{d}) && d in s.refs && Last(s, d)
    requires Referenced(cfg, s.files, sizes)
    ensures Sum(sizes) + |cfg.plain(d)| <= StoredBytes(s.refs)
  {
    hide AllRefs, Sum, Persisted, BlobsGood, FilesSized, IsChunkDigest;
    assert AllRefs(s.files)[d] + (pending + multiset{d})[d] == Count(s.refs, d);
    forall k | k in sizes ensures k in s.refs && k != d && s.refs[k].size == sizes[k] {
      assert AllRefs(s.files)[k] + (pending + multiset{d})[k] == Count(s.refs, k);
    }
    hide Consistent;
    SumRemove(RefSizes(s.refs), d);
    SumSubmap(sizes, RefSizes(s.refs) - {d});
  }

  lemma {:induction false} ReleaseAllShort(cfg: Cfg, s: State, digests: seq<string>, sizes: map<string, nat>)
    requires Consistent(cfg, s, multiset(digests)) && Referenced(cfg, s.files, sizes) && Short(s, Sum(sizes))
    ensures var o := ReleaseAll(cfg, s, digests);
            o.Done? ==> Short(o.s, Sum(sizes))
    decreases |digests|
  {
    hide Consistent, ReleaseOne, Known, IsChunkDigest, Short, Sum, Released, Referenced, StoredBytes;
    if digests != [] {
      var d, rest := digests[0], multiset(digests[1..]);
      assert digests == [d] + digests[1..];
      assert multiset(digests) == rest + multiset{d};
      PendingIsBacked(cfg, s, rest + multiset{d}, d);
      ReleaseOneReleased(cfg, s, d, rest + multiset{d});
      var o1 := ReleaseOne(cfg, s, d);
      if o1.Done? {
        if Last(s, d) {
          DroppedIsExtra(cfg, s, d, rest, sizes);
        }
        ReleasedShort(cfg, s, o1.s, d, rest + multiset{d}, Sum(sizes));
        ReleasedExact(cfg, s, o1.s, d, rest);
        ReleasedFiles(cfg, s, o1.s, d);
        ReleaseAllShort(cfg, o1.s, digests[1..], sizes);
      }
    }
  }

  lemma NewlyReferenced(cfg: Cfg, s: State, files: map<string, FileRec>, id: string, digests: seq<string>)
    requires id in files && files[id].digests == digests
    ensures Referenced(cfg, files, OrphanSizes(cfg, s, digests))
  {
    hide IsOrphan, AllRefs;
    forall d | d in digests ensures AllRefs(files)[d] > 0 {
      AllRefsMember(files, id, d);
    }
  }

  lemma PublishKeepsShort(s: State, id: string, digests: seq<string>, fileBytes: nat, gap: nat)
    requires Short(s, gap)
    ensures Short(Publish(s, id, digests, fileBytes).s, gap)
  {
    hide SaveManifest, TotalBytes, StoredBytes;
  }

  lemma SavedShort(cfg: Cfg, s: State, id: string, chunks: seq<Bytes>)
    requires Consistent(cfg, s, multiset{}) && LawfulCodec(cfg) && Ingestible(cfg, chunks) && Short(s, 0)
    ensures var o := IngestUpToSave(cfg, s, id, chunks);
            o.Done? ==> Short(o.s, Sum(OrphanSizes(cfg, s, DigestsOf(cfg, chunks))))
  {
    hide *;
    AcceptAllShort(cfg, s, chunks, multiset{}, 0);
    SaveIsPublish(cfg, s, id, chunks);
    var o := AcceptAll(cfg, s, chunks);
    if IngestUpToSave(cfg, s, id, chunks).Done? {
      PublishKeepsShort(o.s, id, o.v, |Concat(chunks)|, 0 + Sum(OrphanSizes(cfg, s, DigestsOf(cfg, chunks))));
    }
  }

  lemma IngestsDone(cfg: Cfg, s: State, id: string, chunks: seq<Bytes>)
    requires Clean(cfg, s) && LawfulCodec(cfg) && Ingestible(cfg, chunks) && ValidId(id)
    ensures Ingest(cfg, s, id, chunks).Done?
  {
    hide *;
    IngestRefines(cfg, s, id, chunks);
  }

  /** From right totals, an ingest leaves the total bytes right and the stored
      bytes short by exactly the sizes of the orphans it reuses. */
  lemma IngestShort(cfg: Cfg, s: State, id: string, chunks: seq<Bytes>)
    requires Clean(cfg, s) && LawfulCodec(cfg) && Ingestible(cfg, chunks) && ValidId(id) && Short(s, 0)
    ensures Short(Ingest(cfg, s, id, chunks).s, Sum(OrphanSizes(cfg, s, DigestsOf(cfg, chunks))))
  {
    assert Consistent(cfg, s, multiset{}) && AllInPlay(cfg, chunks);
    hide *;
    var digests := DigestsOf(cfg, chunks);
    var o := IngestUpToSave(cfg, s, id, chunks);
    IngestIsSaveThenRelease(cfg, s, id, chunks);
    IngestsDone(cfg, s, id, chunks);
    SavedExact(cfg, s, id, chunks);
    SavedShort(cfg, s, id, chunks);
    NewlyReferenced(cfg, s, o.s.files, id, digests);
    ReleaseAllShort(cfg, o.s, Previous(s, id), OrphanSizes(cfg, s, digests));
  }

  /** The running totals are what a recount gives after an ingest if and only if
      every orphan blob that the ingest reuses is of an empty chunk. */
  lemma TotalsRightIff(cfg: Cfg, s: State, id: string, chunks: seq<Bytes>)
    requires Clean(cfg, s) && LawfulCodec(cfg) && Ingestible(cfg, chunks) && ValidId(id) && Balanced(s)
    ensures Balanced(Ingest(cfg, s, id, chunks).s) <==>
            forall i :: 0 <= i < |chunks| && IsOrphan(s, DigestHex(cfg, chunks[i])) ==> chunks[i] == []
  {
    assert Short(s, 0) by { hide TotalBytes, StoredBytes; }
    IngestShort(cfg, s, id, chunks);
    SumIsZeroIff(OrphanSizes(cfg, s, DigestsOf(cfg, chunks)));
    hide Consistent, Ingest, TotalBytes, StoredBytes, Sum, LawfulCodec, OrphanSizes, IsOrphan, Ingestible;
    OrphanSizesZeroIff(cfg, s, chunks);
  }

  lemma OrphanSizesZeroIff(cfg: Cfg, s: State, chunks: seq<Bytes>)
    requires Ingestible(cfg, chunks)
    ensures var sizes := OrphanSizes(cfg, s, DigestsOf(cfg, chunks));
            (forall d :: d in sizes ==> sizes[d] == 0) <==>
            (forall i :: 0 <= i < |chunks| && IsOrphan(s, DigestHex(cfg, chunks[i])) ==> chunks[i] == [])
  {
    var digests := DigestsOf(cfg, chunks);
    var sizes := OrphanSizes(cfg, s, digests);
    hide IsOrphan, Encodable, IsChunkDigest;
    forall i | 0 <= i < |chunks| && IsOrphan(s, digests[i])
      ensures digests[i] in sizes && sizes[digests[i]] == |chunks[i]|
    {
      assert InPlay(cfg, chunks[i]);
    }
    forall d | d in sizes ensures exists i :: 0 <= i < |chunks| && d == digests[i] {
      assert d in digests;
    }
  }
}
