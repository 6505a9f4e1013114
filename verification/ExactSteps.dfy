/** Each step of an operation keeps the exact invariant. */
module ExactSteps {
  import opened Types
  import opened Hashing
  import opened DiskSpec
  import opened StoreSpec
  import opened Counting
  import opened Records
  import opened Invariants

  /** The exists/put step adds a blob where there was none, or does nothing. */
  lemma BlobStepEffect(s: State, d: string, blob: Bytes)
    ensures var o := BlobStep(s, d, blob);
            && o.s == s.(disk := s.disk.(blobs := o.s.disk.blobs, plan := o.s.disk.plan))
            && (s.disk.plan.Never? ==> o.Done? && o.s.disk.plan.Never?) && (o.Fail? ==> o.e.Fault?)
            && (o.s.disk.blobs == s.disk.blobs || (d !in s.disk.blobs && o.s.disk.blobs == s.disk.blobs[d := blob]))
            && (o.Done? ==> o.v == (d in s.disk.blobs) && d in o.s.disk.blobs)
  {
  }

  /** It keeps the invariant at every point at which it can stop. */
  lemma BlobStepExact(cfg: Cfg, s: State, data: Bytes, pending: multiset<string>)
    requires Consistent(cfg, s, pending) && LawfulCodec(cfg)
    requires InPlay(cfg, data) && Encode(cfg, data).Some?
    ensures Consistent(cfg, BlobStep(s, DigestHex(cfg, data), Encode(cfg, data).value).s, pending)
  {
    var d, blob := DigestHex(cfg, data), Encode(cfg, data).value;
    BlobStepEffect(s, d, blob);
    var s' := BlobStep(s, d, blob).s;
    assert BlobsGood(cfg, s'.disk.blobs);
    assert Backed(cfg, s'.refs, s'.disk.blobs);
  }

  ghost function Recounted(cfg: Cfg, s: State, d: string): map<string, ChunkRef> {
    s.refs[d := ChunkRef(Count(s.refs, d) + 1, |cfg.plain(d)|)]
  }

  /** Counting a reference whose blob is present never meets a size mismatch. */
  lemma CountStepEffect(cfg: Cfg, s: State, d: string)
    requires Backed(cfg, s.refs, s.disk.blobs) && Known(cfg, d)
    requires Persisted(s.disk.refcounts, RefDocs(s.refs))
    ensures var o := CountStep(s, d, |cfg.plain(d)|);
            var doc := CountSize(Count(s.refs, d) + 1, |cfg.plain(d)|);
            && OnlyIn(s.disk, o.s.disk, Refcounts)
            && o.s == s.(refs := Recounted(cfg, s, d), disk := o.s.disk)
            && (s.disk.plan.Never? ==> o.Done?) && (o.Fail? ==> o.e.Fault?)
            && (o.Done? ==> o.s.disk.refcounts == WithEntry(s.disk.refcounts, d, doc))
            && (o.Fail? ==> || o.s.disk.refcounts == s.disk.refcounts
                            || o.s.disk.refcounts == s.disk.refcounts[d := doc])
  {
    DigestIsNotIndex(d);
    assert Increment(s.refs, d, |cfg.plain(d)|) == Ok(ChunkRef(Count(s.refs, d) + 1, |cfg.plain(d)|));
    SaveEntryEffect(s.disk, Refcounts, d, CountSize(Count(s.refs, d) + 1, |cfg.plain(d)|));
  }

  lemma CountedRefs(cfg: Cfg, s: State, d: string, pending: multiset<string>)
    requires Counted(s.files, s.refs, pending) && Backed(cfg, s.refs, s.disk.blobs)
    requires Known(cfg, d) && d in s.disk.blobs
    ensures Counted(s.files, Recounted(cfg, s, d), pending + multiset{d})
    ensures Backed(cfg, Recounted(cfg, s, d), s.disk.blobs)
  {
  }

  lemma PersistedRef(m: map<string, Doc>, refs: map<string, ChunkRef>, d: string, r: ChunkRef)
    requires Persisted(m, RefDocs(refs)) && IsChunkDigest(d)
    ensures Persisted(WithEntry(m, d, CountSize(r.count, r.size)), RefDocs(refs[d := r]))
    ensures IndexOf(WithEntry(m, d, CountSize(r.count, r.size))) ==
            if d in refs then IndexOf(m) else IndexOf(m) + [d]
  {
    DigestIsNotIndex(d);
    RefDocsInsert(refs, d, r);
    SavePersists(m, RefDocs(refs), d, CountSize(r.count, r.size));
  }

  /** When the new count is persisted the invariant holds with one more
      pending reference. */
  lemma CountedOnce(cfg: Cfg, s: State, s': State, d: string, pending: multiset<string>)
    requires Consistent(cfg, s, pending)
    requires Known(cfg, d) && d in s.disk.blobs
    requires s' == s.(refs := Recounted(cfg, s, d), disk := s'.disk)
    requires OnlyIn(s.disk, s'.disk, Refcounts)
    requires s'.disk.refcounts == WithEntry(s.disk.refcounts, d, CountSize(Count(s.refs, d) + 1, |cfg.plain(d)|))
    ensures Consistent(cfg, s', pending + multiset{d})
    ensures IndexOf(s'.disk.refcounts) ==
            if d in s.refs then IndexOf(s.disk.refcounts) else IndexOf(s.disk.refcounts) + [d]
  {
    hide Persisted, Counted, FilesSized, Backed, BlobsGood, IsChunkDigest;
    CountedRefs(cfg, s, d, pending);
    PersistedRef(s.disk.refcounts, s.refs, d, ChunkRef(Count(s.refs, d) + 1, |cfg.plain(d)|));
  }

  /** What storing a chunk changes, when it completes. */
  ghost predicate Stored(cfg: Cfg, s: State, s': State, d: string) {
    && s'.files == s.files
    && s'.refs == Recounted(cfg, s, d)
    && s'.stats == Totals(s.stats.total + |cfg.plain(d)|,
                          s.stats.stored + (if d in s.disk.blobs then 0 else |cfg.plain(d)|), s.stats.gc)
    && s'.disk.manifests == s.disk.manifests
    && s'.disk.blobs.Keys == s.disk.blobs.Keys + {d}
    && (d in s.disk.blobs ==> s'.disk.blobs == s.disk.blobs)
    && s'.disk.blobs - {d} == s.disk.blobs - {d}
    && IndexOf(s'.disk.refcounts) ==
      (if d in s.refs then IndexOf(s.disk.refcounts) else IndexOf(s.disk.refcounts) + [d])
  }

  lemma BytesRecounted(cfg: Cfg, s: State, d: string)
    requires RefsSized(cfg, s.refs)
    ensures TotalBytes(Recounted(cfg, s, d)) == TotalBytes(s.refs) + |cfg.plain(d)|
    ensures StoredBytes(Recounted(cfg, s, d)) == StoredBytes(s.refs) + if d in s.refs then 0 else |cfg.plain(d)|
  {
    hide TotalBytes, StoredBytes;
    var c, size := Count(s.refs, d), |cfg.plain(d)|;
    BytesInsert(s.refs, d, ChunkRef(c + 1, size));
    assert size * (c + 1) == size * c + size;
  }

  /** Storing a chunk never fails for want of anything but the backend, and
      keeps the invariant with one more pending reference. */
  lemma StoreChunkExact(cfg: Cfg, s: State, data: Bytes, pending: multiset<string>)
    requires Consistent(cfg, s, pending) && LawfulCodec(cfg)
    requires InPlay(cfg, data) && Encode(cfg, data).Some?
    ensures var d := DigestHex(cfg, data);
            var o := StoreChunk(cfg, s, d, data);
            && (s.disk.plan.Never? ==> o.Done? && o.s.disk.plan.Never?) && (o.Fail? ==> o.e.Fault?)
            && (o.Done? ==> Consistent(cfg, o.s, pending + multiset{d}))
  {
    hide Consistent, BlobStep, CountStep, IndexOf, IsChunkDigest, Backed, Persisted, RefsSized, Recounted, WithEntry;
    var d, blob := DigestHex(cfg, data), Encode(cfg, data).value;
    BlobStepEffect(s, d, blob);
    BlobStepExact(cfg, s, data, pending);
    var o1 := BlobStep(s, d, blob);
    if o1.Done? {
      ConsistentParts(cfg, o1.s, pending);
      CountStepEffect(cfg, o1.s, d);
      var o2 := CountStep(o1.s, d, |data|);
      if o2.Done? {
        CountedOnce(cfg, o1.s, o2.s, d, pending);
        SameButStats(cfg, o2.s, StatsStep(o2.s, o1.v, |data|), pending + multiset{d});
      }
    }
  }

  /** What it changes, and that it reports whether the blob was there. */
  lemma StoreChunkStored(cfg: Cfg, s: State, data: Bytes, pending: multiset<string>)
    requires Consistent(cfg, s, pending) && LawfulCodec(cfg)
    requires InPlay(cfg, data) && Encode(cfg, data).Some?
    ensures var d := DigestHex(cfg, data);
            var o := StoreChunk(cfg, s, d, data);
            o.Done? ==> Stored(cfg, s, o.s, d) && o.v == (d in s.disk.blobs)
  {
    hide Consistent, BlobStep, CountStep, IsChunkDigest, Backed, Persisted, RefsSized;
    var d, blob := DigestHex(cfg, data), Encode(cfg, data).value;
    BlobStepEffect(s, d, blob);
    BlobStepExact(cfg, s, data, pending);
    var o1 := BlobStep(s, d, blob);
    if o1.Done? {
      ConsistentParts(cfg, o1.s, pending);
      CountStepEffect(cfg, o1.s, d);
      assert Recounted(cfg, o1.s, d) == Recounted(cfg, s, d);
      var o2 := CountStep(o1.s, d, |data|);
      if o2.Done? {
        CountedOnce(cfg, o1.s, o2.s, d, pending);
      }
    }
  }

  /** The running totals stay right when no blob was an orphan: a stored chunk
      adds its size to the stored bytes exactly when its digest is new. */
  lemma StoredBalanced(cfg: Cfg, s: State, s': State, d: string, pending: multiset<string>)
    requires Consistent(cfg, s, pending) && Stored(cfg, s, s', d) && IsChunkDigest(d)
    requires Balanced(s) && NoOrphans(s)
    ensures Balanced(s') && NoOrphans(s')
  {
    hide Persisted, Counted, BlobsGood, FilesSized, TotalBytes, StoredBytes, IndexOf;
    BytesRecounted(cfg, s, d);
    assert d in s.disk.blobs <==> d in s.refs;
  }

  lemma ConsistentParts(cfg: Cfg, s: State, pending: multiset<string>)
    requires Consistent(cfg, s, pending)
    ensures Backed(cfg, s.refs, s.disk.blobs) && RefsSized(cfg, s.refs)
    ensures Persisted(s.disk.refcounts, RefDocs(s.refs)) && Persisted(s.disk.manifests, FileDocs(s.files))
  {
  }

  lemma SameButStats(cfg: Cfg, s: State, s': State, pending: multiset<string>)
    requires Consistent(cfg, s, pending) && s' == s.(stats := s'.stats)
    ensures Consistent(cfg, s', pending)
  {
  }
}
