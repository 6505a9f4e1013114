/** Releasing the references of a file that was replaced or deleted. */
module ExactRelease {
  import opened Types
  import opened Hashing
  import opened DiskSpec
  import opened StoreSpec
  import opened Counting
  import opened Records
  import opened Invariants
  import opened ExactSteps
  import opened ExactOps

  ghost predicate Last(s: State, d: string)
    requires d in s.refs
  {
    s.refs[d].count == 1
  }

  /** What releasing one reference changes, when it completes. */
  ghost predicate Released(cfg: Cfg, s: State, s': State, d: string)
    requires d in s.refs
  {
    var size := |cfg.plain(d)|;
    && s'.files == s.files
    && s'.disk.manifests == s.disk.manifests
    && s'.refs == Decrement(s.refs, d)
    && s'.disk.blobs == (if Last(s, d) then s.disk.blobs - {d} else s.disk.blobs)
    && s'.disk.refcounts ==
       (if Last(s, d) then WithoutEntry(s.disk.refcounts, d)
        else WithEntry(s.disk.refcounts, d, CountSize(s.refs[d].count - 1, size)))
    && s'.stats == Totals(Monus(s.stats.total, size),
                          if Last(s, d) then Monus(s.stats.stored, size) else s.stats.stored,
                          if Last(s, d) then s.stats.gc + 1 else s.stats.gc)
  }

  /** The size found is the payload length, from the table or from the blob. */
  lemma ChunkSizeEffect(cfg: Cfg, s: State, d: string)
    requires BlobsGood(cfg, s.disk.blobs) && IsChunkDigest(d) && d in s.disk.blobs
    requires d in s.refs && s.refs[d].size == |cfg.plain(d)|
    ensures var o := ChunkSize(cfg, s, d);
            && o.s == s.(disk := s.disk.(plan := o.s.disk.plan))
            && (s.disk.plan.Never? ==> o.Done? && o.s.disk.plan.Never?)
            && (o.Done? ==> o.v == |cfg.plain(d)|)
            && (o.Fail? ==> o.e.Fault?)
  {
  }

  /** After the decrement: the last reference takes blob, record and index
      entry with it, any other one rewrites the record. */
  lemma SettleEffect(s: State, d: string, size: nat)
    requires IndexReadable(s.disk.refcounts) && IsChunkDigest(d)
    ensures var o := Settle(s, d, size);
            && o.s.files == s.files && o.s.refs == s.refs
            && o.s.disk.manifests == s.disk.manifests
            && (s.disk.plan.Never? ==> o.Done? && o.s.disk.plan.Never?)
            && (o.Done? && d in s.refs ==>
                && o.s.disk.blobs == s.disk.blobs && o.s.stats == s.stats
                && o.s.disk.refcounts == WithEntry(s.disk.refcounts, d, CountSize(s.refs[d].count, size)))
            && (o.Done? && d !in s.refs ==>
                && o.s.disk.blobs == s.disk.blobs - {d}
                && o.s.stats == Totals(s.stats.total, Monus(s.stats.stored, size), s.stats.gc + 1)
                && o.s.disk.refcounts == WithoutEntry(s.disk.refcounts, d))
            && (o.Fail? ==> o.s.disk.blobs == s.disk.blobs || (d !in s.refs && o.s.disk.blobs == s.disk.blobs - {d}))
  {
    hide WithEntry, WithoutEntry, SaveEntry, RemoveEntry, IndexReadable;
    DigestIsNotIndex(d);
    if d in s.refs {
      SaveEntryEffect(s.disk, Refcounts, d, CountSize(s.refs[d].count, size));
    } else {
      var o := DeleteBlob(s.disk, d);
      if o.Done? {
        RemoveEntryEffect(o.s, Refcounts, d);
      }
    }
  }

  lemma ReleaseOneReleased(cfg: Cfg, s: State, d: string, pending: multiset<string>)
    requires Consistent(cfg, s, pending) && d in s.refs && IsChunkDigest(d)
    ensures var o := ReleaseOne(cfg, s, d);
            && (s.disk.plan.Never? ==> o.Done? && o.s.disk.plan.Never?)
            && (o.Done? ==> Released(cfg, s, o.s, d))
  {
    hide ChunkSize, Settle, Persisted, Counted, FilesSized, WithEntry, WithoutEntry, IsChunkDigest, BlobsGood;
    ChunkSizeEffect(cfg, s, d);
    hide Backed;
    ReadableIndex(cfg, s, pending);
    var o1 := ChunkSize(cfg, s, d);
    if o1.Done? {
      SettleEffect(o1.s.(refs := Decrement(o1.s.refs, d)), d, o1.v);
    }
  }

  lemma ReadableIndex(cfg: Cfg, s: State, pending: multiset<string>)
    requires Consistent(cfg, s, pending)
    ensures IndexReadable(s.disk.refcounts) && IndexReadable(s.disk.manifests)
  {
  }

  // ----- The invariant

  lemma ReleasedCounted(files: map<string, FileRec>, refs: map<string, ChunkRef>, d: string, pending: multiset<string>)
    requires Counted(files, refs, pending + multiset{d}) && d in refs
    ensures Counted(files, Decrement(refs, d), pending)
  {
    hide AllRefs;
    forall x ensures AllRefs(files)[x] + pending[x] == Count(Decrement(refs, d), x) {
      assert AllRefs(files)[x] + (pending + multiset{d})[x] == Count(refs, x);
    }
  }

  lemma ReleasedBacked(cfg: Cfg, refs: map<string, ChunkRef>, blobs: map<string, Bytes>, d: string)
    requires Backed(cfg, refs, blobs) && BlobsGood(cfg, blobs) && d in refs
    ensures BlobsGood(cfg, if refs[d].count == 1 then blobs - {d} else blobs)
    ensures Backed(cfg, Decrement(refs, d), if refs[d].count == 1 then blobs - {d} else blobs)
  {
    hide IsChunkDigest;
  }

  lemma ReleasedRecord(m: map<string, Doc>, refs: map<string, ChunkRef>, d: string)
    requires Persisted(m, RefDocs(refs)) && d in refs && IsChunkDigest(d)
    ensures Persisted(if refs[d].count == 1 then WithoutEntry(m, d)
                      else WithEntry(m, d, CountSize(refs[d].count - 1, refs[d].size)), RefDocs(Decrement(refs, d)))
  {
    hide Persisted, WithEntry, WithoutEntry, RefDocs;
    DigestIsNotIndex(d);
    if refs[d].count == 1 {
      RefDocsRemove(refs, d);
      RemovePersists(m, RefDocs(refs), d);
    } else {
      PersistedRef(m, refs, d, ChunkRef(refs[d].count - 1, refs[d].size));
    }
  }

  /** The invariant holds with that reference no longer pending. */
  lemma ReleasedExact(cfg: Cfg, s: State, s': State, d: string, pending: multiset<string>)
    requires Consistent(cfg, s, pending + multiset{d}) && IsChunkDigest(d)
    requires d in s.refs && Released(cfg, s, s', d)
    ensures Consistent(cfg, s', pending)
  {
    hide Persisted, Counted, BlobsGood, IsChunkDigest, WithEntry, WithoutEntry, RefDocs, FilesSized;
    assert s.refs[d].size == |cfg.plain(d)|;
    hide Backed;
    ReleasedCounted(s.files, s.refs, d, pending);
    ReleasedBacked(cfg, s.refs, s.disk.blobs, d);
    ReleasedRecord(s.disk.refcounts, s.refs, d);
  }

  /** A running total is right, and the stored bytes are short by `gap`. */
  ghost predicate Short(s: State, gap: nat) {
    s.stats.total == TotalBytes(s.refs) && s.stats.stored + gap == StoredBytes(s.refs)
  }

  /** The saturating subtractions do not saturate as long as what the stored
      bytes are short by is not the chunk that is dropped. */
  lemma ReleasedShort(cfg: Cfg, s: State, s': State, d: string, pending: multiset<string>, gap: nat)
    requires Consistent(cfg, s, pending) && d in s.refs && Released(cfg, s, s', d)
    requires Short(s, gap) && (Last(s, d) ==> gap + |cfg.plain(d)| <= StoredBytes(s.refs))
    ensures Short(s', gap)
    ensures s.stats.total >= |cfg.plain(d)| && (Last(s, d) ==> s.stats.stored >= |cfg.plain(d)|)
  {
    hide Persisted, Counted, BlobsGood, FilesSized, TotalBytes, StoredBytes, IsChunkDigest, WithEntry, WithoutEntry;
    var r := s.refs[d];
    BytesRemove(s.refs, d);
    assert r.size == |cfg.plain(d)|;
    if r.count == 1 {
      assert r.size * r.count == r.size;
    } else {
      BytesInsert(s.refs, d, ChunkRef(r.count - 1, r.size));
      assert r.size * r.count == r.size * (r.count - 1) + r.size;
      assert r.size * (r.count - 1) >= 0;
    }
  }

  /** Right totals stay right: the saturating subtractions never saturate. */
  lemma ReleasedBalanced(cfg: Cfg, s: State, s': State, d: string, pending: multiset<string>)
    requires Consistent(cfg, s, pending) && d in s.refs && Released(cfg, s, s', d)
    requires Balanced(s)
    ensures Balanced(s') && (NoOrphans(s) ==> NoOrphans(s'))
    ensures s.stats.total >= |cfg.plain(d)| && (Last(s, d) ==> s.stats.stored >= |cfg.plain(d)|)
  {
    assert s.refs[d].size == |cfg.plain(d)|;
    BytesRemove(s.refs, d);
    hide Consistent, TotalBytes, StoredBytes, IsChunkDigest, WithEntry, WithoutEntry;
    ReleasedShort(cfg, s, s', d, pending, 0);
  }

  lemma ReleasedFiles(cfg: Cfg, s: State, s': State, d: string)
    requires d in s.refs && Released(cfg, s, s', d)
    ensures s'.files == s.files
  {
  }

  // ----- The loop, and the operations that end with it

  ghost predicate SameManifests(s: State, s': State) {
    s'.files == s.files && s'.disk.manifests == s.disk.manifests
  }

  /** Releasing every reference of a list that is pending leaves the invariant
      with nothing of it pending. */
  lemma {:induction false} ReleaseAllExact(cfg: Cfg, s: State, digests: seq<string>, pending: multiset<string>)
    requires Consistent(cfg, s, pending + multiset(digests))
    ensures var o := ReleaseAll(cfg, s, digests);
            && (s.disk.plan.Never? ==> o.Done? && o.s.disk.plan.Never?)
            && (o.Done? ==> Consistent(cfg, o.s, pending) && SameManifests(s, o.s))
    decreases |digests|
  {
    hide Consistent, ReleaseOne, Known, IsChunkDigest;
    if digests == [] {
      assert pending + multiset(digests) == pending;
    } else {
      var d := digests[0];
      PendingSplit(pending, digests);
      PendingIsBacked(cfg, s, pending + multiset(digests), d);
      ReleaseOneReleased(cfg, s, d, pending + multiset(digests));
      var o1 := ReleaseOne(cfg, s, d);
      if o1.Done? {
        ReleasedExact(cfg, s, o1.s, d, pending + multiset(digests[1..]));
        ReleaseAllExact(cfg, o1.s, digests[1..], pending);
      }
    }
  }

  lemma PendingSplit(pending: multiset<string>, digests: seq<string>)
    requires digests != []
    ensures pending + multiset(digests) == (pending + multiset(digests[1..])) + multiset{digests[0]}
    ensures (pending + multiset(digests))[digests[0]] > 0
  {
    assert digests == [digests[0]] + digests[1..];
  }

  lemma {:induction false} ReleaseAllBalanced(cfg: Cfg, s: State, digests: seq<string>, pending: multiset<string>)
    requires Consistent(cfg, s, pending + multiset(digests)) && Balanced(s)
    ensures var o := ReleaseAll(cfg, s, digests);
            o.Done? ==> Balanced(o.s) && (NoOrphans(s) ==> NoOrphans(o.s))
    decreases |digests|
  {
    hide Consistent, ReleaseOne, Known, IsChunkDigest, Balanced, NoOrphans, Released;
    if digests != [] {
      var d := digests[0];
      PendingSplit(pending, digests);
      PendingIsBacked(cfg, s, pending + multiset(digests), d);
      ReleaseOneReleased(cfg, s, d, pending + multiset(digests));
      var o1 := ReleaseOne(cfg, s, d);
      if o1.Done? {
        ReleasedExact(cfg, s, o1.s, d, pending + multiset(digests[1..]));
        ReleasedBalanced(cfg, s, o1.s, d, pending + multiset(digests));
        ReleaseAllBalanced(cfg, o1.s, digests[1..], pending);
      }
    }
  }

  // ----- Commit

  ghost predicate ValidId(id: string) {
    id != "" && id != INDEX
  }

  lemma ValidIsNotIndex(id: string)
    requires ValidId(id)
    ensures id != INDEX
  {
  }

  lemma PendingDigests(cfg: Cfg, s: State, digests: seq<string>, pending: multiset<string>)
    requires Consistent(cfg, s, pending + multiset(digests))
    ensures AllDigests(digests) && IndexReadable(s.disk.manifests)
  {
    hide Consistent, IsChunkDigest;
    ReadableIndex(cfg, s, pending + multiset(digests));
    forall i | 0 <= i < |digests| ensures IsChunkDigest(digests[i]) {
      assert digests[i] in multiset(digests);
      PendingIsBacked(cfg, s, pending + multiset(digests), digests[i]);
    }
  }

  /** Committing a session turns its pending references into the file's and
      releases the previous version's. */
  lemma CommitExact(cfg: Cfg, s: State, id: string, digests: seq<string>)
    requires Consistent(cfg, s, multiset(digests)) && ValidId(id)
    ensures var fileBytes := |Meaning(cfg, digests)|;
            var o := Commit(cfg, s, id, digests, fileBytes);
            && (s.disk.plan.Never? ==> o.Done? && o.s.disk.plan.Never?)
            && (o.Done? ==>
                && o.v == digests && Consistent(cfg, o.s, multiset{})
                && o.s.files == s.files[id := FileRec(digests, fileBytes)]
                && (Balanced(s) ==> Balanced(o.s) && (NoOrphans(s) ==> NoOrphans(o.s))))
  {
    hide Consistent, Publish, ReleaseAll, Meaning, AllDigests, IndexReadable, TotalBytes, StoredBytes;
    hide NoOrphans, WithEntry;
    var fileBytes := |Meaning(cfg, digests)|;
    assert multiset{} + multiset(digests) == multiset(digests);
    PendingDigests(cfg, s, digests, multiset{});
    PublishEffect(s, id, digests, fileBytes);
    var o1 := Publish(s, id, digests, fileBytes);
    if o1.Done? {
      PublishedExact(cfg, s, o1.s, id, digests, multiset{});
      var previous := Previous(s, id);
      ReleaseAllExact(cfg, o1.s, previous, multiset{});
      if Balanced(s) {
        ReleaseAllBalanced(cfg, o1.s, previous, multiset{});
        SameOrphans(s, o1.s);
      }
    }
  }

  lemma SameOrphans(s: State, s': State)
    requires s'.refs == s.refs && s'.disk.blobs == s.disk.blobs
    ensures NoOrphans(s) == NoOrphans(s')
  {
  }
}
