/** What one operation undoes, and what an operation that changes nothing
    leaves alone, down to the order of the index lists. */
module Inverse {
  import opened Types
  import opened Hashing
  import opened DiskSpec
  import opened StoreSpec
  import opened Counting
  import opened Records
  import opened Invariants
  import opened ExactSteps
  import opened ExactOps
  import opened ExactRelease
  import opened Refinement

  /** The refcount table is determined by the manifests. */
  lemma {:induction false} RefsDetermined(cfg: Cfg, s: State, t: State, pending: multiset<string>)
    requires Consistent(cfg, s, pending) && Consistent(cfg, t, pending) && s.files == t.files
    ensures s.refs == t.refs
  {
    hide Persisted, FilesSized, BlobsGood, AllRefs, Known;
    forall d ensures d in s.refs <==> d in t.refs {
      assert Count(s.refs, d) == Count(t.refs, d);
    }
    forall d | d in s.refs ensures s.refs[d] == t.refs[d] {
      assert Count(s.refs, d) == Count(t.refs, d);
    }
  }

  // ----- The part of the store outside the chunks an operation adds

  /** The members of `keys` in list order. */
  ghost function Restrict(xs: seq<string>, keys: set<string>): seq<string> {
    if xs == [] then []
    else if xs[0] in keys then [xs[0]] + Restrict(xs[1..], keys)
    else Restrict(xs[1..], keys)
  }

  lemma {:induction false} RestrictAppend(xs: seq<string>, x: string, keys: set<string>)
    requires x !in keys
    ensures Restrict(xs + [x], keys) == Restrict(xs, keys)
  {
    if xs == [] {
      assert xs + [x] == [x];
    } else {
      assert (xs + [x])[1..] == xs[1..] + [x];
      RestrictAppend(xs[1..], x, keys);
    }
  }

  lemma {:induction false} RestrictRetain(xs: seq<string>, x: string, keys: set<string>)
    requires x !in keys
    ensures Restrict(Retain(xs, x), keys) == Restrict(xs, keys)
  {
    if xs != [] {
      RestrictRetain(xs[1..], x, keys);
    }
  }

  lemma {:induction false} RestrictAll(xs: seq<string>, keys: set<string>)
    requires forall x :: x in xs ==> x in keys
    ensures Restrict(xs, keys) == xs
  {
    if xs != [] {
      RestrictAll(xs[1..], keys);
    }
  }

  /** Blobs of the given digests, and of keys that are not digests, are as they
      were; so is the index order of the given digests. */
  ghost predicate Framed(keys: set<string>, s: State, t: State) {
    && Restrict(IndexOf(t.disk.refcounts), keys) == Restrict(IndexOf(s.disk.refcounts), keys)
    && forall n :: n in keys || !IsChunkDigest(n) ==>
         && (n in t.disk.blobs <==> n in s.disk.blobs)
         && (n in s.disk.blobs ==> t.disk.blobs[n] == s.disk.blobs[n])
  }

  lemma FramedTransitive(keys: set<string>, s: State, t: State, u: State)
    requires Framed(keys, s, t) && Framed(keys, t, u)
    ensures Framed(keys, s, u)
  {
    hide IsChunkDigest, Restrict;
  }

  lemma StoredFramed(cfg: Cfg, s: State, t: State, d: string, keys: set<string>)
    requires Stored(cfg, s, t, d) && IsChunkDigest(d) && Backed(cfg, s.refs, s.disk.blobs)
    requires keys <= s.refs.Keys
    ensures Framed(keys, s, t) && keys <= t.refs.Keys
  {
    hide IsChunkDigest, Restrict, Known, IndexOf;
    if d !in s.refs {
      RestrictAppend(IndexOf(s.disk.refcounts), d, keys);
    }
    forall n | n in keys || !IsChunkDigest(n)
      ensures (n in t.disk.blobs <==> n in s.disk.blobs) && (n in s.disk.blobs ==> t.disk.blobs[n] == s.disk.blobs[n])
    {
      if n != d {
        assert n in s.disk.blobs <==> n in s.disk.blobs - {d};
        assert n in t.disk.blobs <==> n in t.disk.blobs - {d};
        assert n in s.disk.blobs ==> (s.disk.blobs - {d})[n] == s.disk.blobs[n];
      }
    }
  }

  lemma {:induction false} AcceptAllFramed(cfg: Cfg, s: State, chunks: seq<Bytes>, pending: multiset<string>,
                                           keys: set<string>)
    requires Consistent(cfg, s, pending) && LawfulCodec(cfg)
    requires AllInPlay(cfg, chunks) && Encodable(cfg, chunks) && keys <= s.refs.Keys
    ensures var o := AcceptAll(cfg, s, chunks);
            o.Done? ==> Framed(keys, s, o.s) && keys <= o.s.refs.Keys
    decreases |chunks|
  {
    if chunks != [] {
      HeadAndTail(cfg, chunks);
      hide AllInPlay, Encodable, Encode;
      hide Consistent, StoreChunk, LawfulCodec, IsChunkDigest, Framed, InPlay, Stored;
      var d := DigestHex(cfg, chunks[0]);
      StoreChunkExact(cfg, s, chunks[0], pending);
      StoreChunkStored(cfg, s, chunks[0], pending);
      var o1 := StoreChunk(cfg, s, d, chunks[0]);
      if o1.Done? {
        ConsistentParts(cfg, s, pending);
        StoredFramed(cfg, s, o1.s, d, keys);
        AcceptAllFramed(cfg, o1.s, chunks[1..], pending + multiset{d}, keys);
        var o2 := AcceptAll(cfg, o1.s, chunks[1..]);
        if o2.Done? {
          FramedTransitive(keys, s, o1.s, o2.s);
        }
      }
    }
  }

  /** Every one of these digests is referenced besides what is being released. */
  ghost predicate StillUsed(files: map<string, FileRec>, pending: multiset<string>, keys: set<string>) {
    forall d :: d in keys ==> AllRefs(files)[d] + pending[d] > 0
  }

  lemma UsedIsNotLast(s: State, d: string, pending: multiset<string>, keys: set<string>)
    requires Counted(s.files, s.refs, pending + multiset{d}) && d in s.refs
    requires StillUsed(s.files, pending, keys)
    ensures d in keys ==> !Last(s, d)
  {
    hide AllRefs;
    assert AllRefs(s.files)[d] + (pending + multiset{d})[d] == Count(s.refs, d);
  }

  lemma CollectedFramed(s: State, t: State, d: string, keys: set<string>)
    requires IndexOf(t.disk.refcounts) == Retain(IndexOf(s.disk.refcounts), d)
    requires t.disk.blobs == s.disk.blobs - {d} && d !in keys && IsChunkDigest(d)
    ensures Framed(keys, s, t)
  {
    hide IsChunkDigest, Restrict, IndexOf;
    RestrictRetain(IndexOf(s.disk.refcounts), d, keys);
  }

  lemma ReleasedFramed(cfg: Cfg, s: State, t: State, d: string, pending: multiset<string>, keys: set<string>)
    requires Consistent(cfg, s, pending + multiset{d}) && IsChunkDigest(d)
    requires d in s.refs && Released(cfg, s, t, d)
    requires StillUsed(s.files, pending, keys)
    ensures Framed(keys, s, t)
  {
    UsedIsNotLast(s, d, pending, keys);
    ReleasedIndex(cfg, s, t, d, pending + multiset{d});
    hide Consistent, IsChunkDigest, IndexOf, StillUsed, WithEntry, WithoutEntry, Decrement;
    if Last(s, d) {
      hide Framed;
      CollectedFramed(s, t, d, keys);
    }
  }

  lemma ReleasedIndex(cfg: Cfg, s: State, t: State, d: string, pending: multiset<string>)
    requires Consistent(cfg, s, pending) && IsChunkDigest(d) && d in s.refs && Released(cfg, s, t, d)
    ensures IndexOf(t.disk.refcounts) ==
            if Last(s, d) then Retain(IndexOf(s.disk.refcounts), d) else IndexOf(s.disk.refcounts)
  {
    DigestIsNotIndex(d);
    ConsistentParts(cfg, s, pending);
    hide Consistent, IsChunkDigest, Backed, RefsSized;
    assert d in RefDocs(s.refs);
    PersistedLookup(s.disk.refcounts, RefDocs(s.refs));
    hide Persisted, Retain;
  }

  lemma {:induction false} ReleaseAllFramed(cfg: Cfg, s: State, digests: seq<string>, pending: multiset<string>,
                                            keys: set<string>)
    requires Consistent(cfg, s, pending + multiset(digests)) && StillUsed(s.files, pending, keys)
    ensures var o := ReleaseAll(cfg, s, digests);
            o.Done? ==> Framed(keys, s, o.s)
    decreases |digests|
  {
    if digests != [] {
      hide Consistent, ReleaseOne, Known, IsChunkDigest, Framed;
      var d := digests[0];
      PendingSplit(pending, digests);
      PendingIsBacked(cfg, s, pending + multiset(digests), d);
      ReleaseOneReleased(cfg, s, d, pending + multiset(digests));
      var o1 := ReleaseOne(cfg, s, d);
      if o1.Done? {
        ReleasedExact(cfg, s, o1.s, d, pending + multiset(digests[1..]));
        StillUsedMore(s.files, pending, multiset(digests[1..]), keys);
        ReleasedFramed(cfg, s, o1.s, d, pending + multiset(digests[1..]), keys);
        ReleaseAllFramed(cfg, o1.s, digests[1..], pending, keys);
        var o2 := ReleaseAll(cfg, o1.s, digests[1..]);
        if o2.Done? {
          FramedTransitive(keys, s, o1.s, o2.s);
        }
      }
    }
  }

  lemma StillUsedMore(files: map<string, FileRec>, pending: multiset<string>, more: multiset<string>, keys: set<string>)
    requires StillUsed(files, pending, keys)
    ensures StillUsed(files, pending + more, keys)
  {
    hide AllRefs;
  }

  // ----- Live digests and collected chunks

  /** Blobs that accepting the chunks puts. */
  ghost function Puts(cfg: Cfg, s: State, chunks: seq<Bytes>): nat
    decreases |chunks|
  {
    if chunks == [] then 0 else
    match StoreChunk(cfg, s, DigestHex(cfg, chunks[0]), chunks[0])
    case Fail(_, _) => 0
    case Done(s1, existed) => (if existed then 0 else 1) + Puts(cfg, s1, chunks[1..])
  }

  lemma StoredPuts(cfg: Cfg, s: State, t: State, d: string)
    requires Backed(cfg, s.refs, s.disk.blobs) && Stored(cfg, s, t, d) && NoOrphans(s) && IsChunkDigest(d)
    ensures NoOrphans(t) && (d in s.disk.blobs <==> d in s.refs)
    ensures |t.refs| == |s.refs| + if d in s.disk.blobs then 0 else 1
  {
    hide Known, IndexOf;
    assert d in s.disk.blobs <==> d in s.refs;
  }

  lemma {:induction false} AcceptAllPuts(cfg: Cfg, s: State, chunks: seq<Bytes>, pending: multiset<string>)
    requires Consistent(cfg, s, pending) && LawfulCodec(cfg) && NoOrphans(s)
    requires AllInPlay(cfg, chunks) && Encodable(cfg, chunks)
    ensures var o := AcceptAll(cfg, s, chunks);
            o.Done? ==> |o.s.refs| == |s.refs| + Puts(cfg, s, chunks) && NoOrphans(o.s)
    decreases |chunks|
  {
    if chunks != [] {
      HeadAndTail(cfg, chunks);
      hide AllInPlay, Encodable, Encode;
      hide Consistent, StoreChunk, LawfulCodec, IsChunkDigest, InPlay, Stored, NoOrphans;
      var d := DigestHex(cfg, chunks[0]);
      StoreChunkExact(cfg, s, chunks[0], pending);
      StoreChunkStored(cfg, s, chunks[0], pending);
      var o1 := StoreChunk(cfg, s, d, chunks[0]);
      if o1.Done? {
        ConsistentParts(cfg, s, pending);
        StoredPuts(cfg, s, o1.s, d);
        AcceptAllPuts(cfg, o1.s, chunks[1..], pending + multiset{d});
      }
    }
  }

  lemma ReleasedCollects(cfg: Cfg, s: State, t: State, d: string)
    requires d in s.refs && Released(cfg, s, t, d)
    ensures |t.refs| + t.stats.gc == |s.refs| + s.stats.gc
  {
    assert (s.refs - {d}).Keys == s.refs.Keys - {d};
  }

  /** A digest that leaves the table is counted as collected, once. */
  lemma {:induction false} ReleaseAllCollects(cfg: Cfg, s: State, digests: seq<string>, pending: multiset<string>)
    requires Consistent(cfg, s, pending + multiset(digests))
    ensures var o := ReleaseAll(cfg, s, digests);
            o.Done? ==> |o.s.refs| + o.s.stats.gc == |s.refs| + s.stats.gc
    decreases |digests|
  {
    if digests != [] {
      hide Consistent, ReleaseOne, Known, IsChunkDigest, Released;
      var d := digests[0];
      PendingSplit(pending, digests);
      PendingIsBacked(cfg, s, pending + multiset(digests), d);
      ReleaseOneReleased(cfg, s, d, pending + multiset(digests));
      var o1 := ReleaseOne(cfg, s, d);
      if o1.Done? {
        ReleasedExact(cfg, s, o1.s, d, pending + multiset(digests[1..]));
        ReleasedCollects(cfg, s, o1.s, d);
        ReleaseAllCollects(cfg, o1.s, digests[1..], pending);
      }
    }
  }

  /** The state an ingest leaves between publishing and releasing. */
  lemma IngestPhases(cfg: Cfg, s: State, id: string, chunks: seq<Bytes>)
    returns (s1: State, s2: State)
    requires Clean(cfg, s) && LawfulCodec(cfg) && Ingestible(cfg, chunks) && ValidId(id)
    ensures AcceptAll(cfg, s, chunks) == Done(s1, DigestsOf(cfg, chunks)) && SameFiles(s, s1)
    ensures Consistent(cfg, s1, multiset(DigestsOf(cfg, chunks)))
    ensures var rec := FileRec(DigestsOf(cfg, chunks), |Concat(chunks)|);
            && s2 == s1.(files := s.files[id := rec], disk := s2.disk)
            && OnlyIn(s1.disk, s2.disk, Manifests) && s2.disk.plan.Never?
            && s2.disk.manifests == WithEntry(s.disk.manifests, id, ManifestDoc(rec.digests, rec.fileBytes))
    ensures Consistent(cfg, s2, multiset{} + multiset(Previous(s, id)))
    ensures ReleaseAll(cfg, s2, Previous(s, id)).Done?
    ensures Ingest(cfg, s, id, chunks) == Done(ReleaseAll(cfg, s2, Previous(s, id)).s, DigestsOf(cfg, chunks))
  {
    hide Consistent, AcceptAll, Publish, ReleaseAll, AllDigests, IndexReadable, AllInPlay, Encodable;
    hide LawfulCodec, Meaning, Concat, WithEntry;
    var digests, fileBytes := DigestsOf(cfg, chunks), |Concat(chunks)|;
    AcceptAllExact(cfg, s, chunks, multiset{});
    MeaningOfChunks(cfg, chunks);
    var o1 := AcceptAll(cfg, s, chunks);
    s1 := o1.s;
    assert multiset{} + multiset(digests) == multiset(digests);
    PendingDigests(cfg, s1, digests, multiset{});
    PublishEffect(s1, id, digests, fileBytes);
    s2 := Publish(s1, id, digests, fileBytes).s;
    PublishedExact(cfg, s1, s2, id, digests, multiset{});
    ReleaseAllExact(cfg, s2, Previous(s, id), multiset{});
  }

  /** Live digests plus collected chunks grow by exactly the blobs put. */
  lemma IngestConserves(cfg: Cfg, s: State, id: string, chunks: seq<Bytes>)
    requires Clean(cfg, s) && LawfulCodec(cfg) && Ingestible(cfg, chunks) && ValidId(id) && NoOrphans(s)
    ensures var t := Ingest(cfg, s, id, chunks).s;
            |t.refs| + t.stats.gc == |s.refs| + s.stats.gc + Puts(cfg, s, chunks)
  {
    hide AcceptAll, ReleaseAll, Ingest, NoOrphans, AllInPlay, Encodable, LawfulCodec, Concat, WithEntry, Puts;
    var s1, s2 := IngestPhases(cfg, s, id, chunks);
    hide Consistent;
    AcceptAllPuts(cfg, s, chunks, multiset{});
    ReleaseAllCollects(cfg, s2, Previous(s, id), multiset{});
  }

  lemma DeleteConserves(cfg: Cfg, s: State, id: string)
    requires Clean(cfg, s)
    ensures var t := Delete(cfg, s, id).s;
            |t.refs| + t.stats.gc == |s.refs| + s.stats.gc
  {
    hide Consistent, ReleaseAll, WithoutEntry, RemoveManifest;
    if id in s.files {
      UnlinkExact(cfg, s, id, multiset{});
      var s1 := s.(files := s.files - {id}, disk := RemoveManifest(s.disk, id).s);
      var digests := s.files[id].digests;
      assert multiset{} + multiset(digests) == multiset(digests);
      ReleaseAllExact(cfg, s1, digests, multiset{});
      ReleaseAllCollects(cfg, s1, digests, multiset{});
    }
  }

  // ----- Ingest then delete

  /** The same store, except that an index may be an empty list where there was
      none, and that chunks may have been collected. */
  ghost predicate Restored(s: State, t: State) {
    && t.files == s.files && t.refs == s.refs && t.disk.blobs == s.disk.blobs
    && t.stats.total == s.stats.total && t.stats.stored == s.stats.stored
    && SameRecords(s.disk.manifests, t.disk.manifests)
    && SameRecords(s.disk.refcounts, t.disk.refcounts)
  }

  /** The same records, and the same index list in the same order. */
  ghost predicate SameRecords(m: map<string, Doc>, n: map<string, Doc>) {
    n - {INDEX} == m - {INDEX} && IndexOf(n) == IndexOf(m)
  }

  lemma AllCounted(cfg: Cfg, s: State, pending: multiset<string>)
    requires Consistent(cfg, s, pending)
    ensures StillUsed(s.files, pending, s.refs.Keys)
  {
    hide Persisted, Backed, BlobsGood, FilesSized, AllRefs;
    forall d | d in s.refs.Keys ensures AllRefs(s.files)[d] + pending[d] > 0 {
      assert Count(s.refs, d) > 0;
    }
  }

  /** Two consistent stores with the same files, the second reached from the
      first by leaving its chunks alone, have the same counts, blobs, refcount
      records and index order. */
  lemma FramedSameRefs(cfg: Cfg, s: State, t: State)
    requires Consistent(cfg, s, multiset{}) && Consistent(cfg, t, multiset{})
    requires s.files == t.files && NoOrphans(s) && NoOrphans(t) && Framed(s.refs.Keys, s, t)
    ensures t.refs == s.refs && t.disk.blobs == s.disk.blobs
    ensures SameRecords(s.disk.refcounts, t.disk.refcounts)
  {
    RefsDetermined(cfg, s, t, multiset{});
    ConsistentParts(cfg, s, multiset{});
    ConsistentParts(cfg, t, multiset{});
    hide Consistent, RefsSized;
    SameBlobs(cfg, s, t);
    hide Backed, NoOrphans, IsChunkDigest;
    PersistedLookup(s.disk.refcounts, RefDocs(s.refs));
    PersistedLookup(t.disk.refcounts, RefDocs(t.refs));
    RestrictAll(IndexOf(s.disk.refcounts), s.refs.Keys);
    RestrictAll(IndexOf(t.disk.refcounts), s.refs.Keys);
  }

  lemma SameBlobs(cfg: Cfg, s: State, t: State)
    requires Backed(cfg, s.refs, s.disk.blobs) && Backed(cfg, t.refs, t.disk.blobs) && s.refs == t.refs
    requires NoOrphans(s) && NoOrphans(t) && Framed(s.refs.Keys, s, t)
    ensures t.disk.blobs == s.disk.blobs
  {
    hide Known, Restrict, IndexOf, IsChunkDigest;
    forall n ensures n in t.disk.blobs <==> n in s.disk.blobs {
      if n in s.refs.Keys || !IsChunkDigest(n) {
      } else {
        assert n !in s.disk.blobs && n !in t.disk.blobs;
      }
    }
    forall n | n in t.disk.blobs ensures t.disk.blobs[n] == s.disk.blobs[n] {
      assert n in s.refs.Keys || !IsChunkDigest(n);
    }
  }

  /** The state a delete leaves between unlinking the manifest and releasing. */
  lemma DeletePhases(cfg: Cfg, s: State, id: string) returns (s1: State)
    requires Clean(cfg, s) && id in s.files
    ensures s1 == s.(files := s.files - {id}, disk := s1.disk)
    ensures OnlyIn(s.disk, s1.disk, Manifests) && s1.disk.manifests == WithoutEntry(s.disk.manifests, id)
    ensures Consistent(cfg, s1, multiset{} + multiset(s.files[id].digests))
    ensures ReleaseAll(cfg, s1, s.files[id].digests).Done?
    ensures Delete(cfg, s, id).s == ReleaseAll(cfg, s1, s.files[id].digests).s
    ensures SameManifests(s1, Delete(cfg, s, id).s)
  {
    hide Consistent, ReleaseAll, WithoutEntry, RemoveManifest;
    UnlinkExact(cfg, s, id, multiset{});
    s1 := s.(files := s.files - {id}, disk := RemoveManifest(s.disk, id).s);
    var digests := s.files[id].digests;
    assert multiset{} + multiset(digests) == multiset(digests);
    ReleaseAllExact(cfg, s1, digests, multiset{});
  }

  lemma {:induction false} RetainAppended(xs: seq<string>, x: string)
    requires x !in xs
    ensures Retain(xs + [x], x) == xs
  {
    if xs == [] {
      assert xs + [x] == [x];
    } else {
      assert (xs + [x])[1..] == xs[1..] + [x];
      RetainAppended(xs[1..], x);
    }
  }

  lemma DropAdded(m: map<string, Doc>, id: string, doc: Doc, l1: Doc, l2: Doc)
    requires id !in m && id != INDEX
    ensures (m[id := doc][INDEX := l1] - {id})[INDEX := l2] - {INDEX} == m - {INDEX}
  {
  }

  lemma NewIdUnlisted(m: map<string, Doc>, docs: map<string, Doc>, id: string)
    requires Persisted(m, docs) && id !in docs && id != INDEX
    ensures id !in m && id !in IndexOf(m)
  {
    assert id in m ==> id in m - {INDEX};
  }

  lemma AddedThenDropped(m: map<string, Doc>, docs: map<string, Doc>, id: string, doc: Doc)
    requires Persisted(m, docs) && id !in docs && id != INDEX
    ensures SameRecords(m, WithoutEntry(WithEntry(m, id, doc), id))
  {
    NewIdUnlisted(m, docs, id);
    hide Persisted, Retain;
    var index := IndexOf(m);
    assert IndexOf(WithEntry(m, id, doc)) == index + [id];
    RetainAppended(index, id);
    DropAdded(m, id, doc, List(index + [id]), List(index));
  }

  /** The chunks that were there before are left alone by a whole ingest of a
      new file, and by the delete that follows. */
  lemma RoundTripFramed(cfg: Cfg, s: State, id: string, chunks: seq<Bytes>)
    requires Clean(cfg, s) && LawfulCodec(cfg) && Ingestible(cfg, chunks) && ValidId(id)
    requires id !in s.files
    ensures var t := Ingest(cfg, s, id, chunks).s;
            var u := Delete(cfg, t, id).s;
            && Framed(s.refs.Keys, s, u)
            && u.disk.manifests == WithoutEntry(WithEntry(s.disk.manifests, id,
                 ManifestDoc(DigestsOf(cfg, chunks), |Concat(chunks)|)), id)
  {
    hide Consistent, AcceptAll, ReleaseAll, Ingest, Delete, WithEntry, WithoutEntry, Framed, Concat, StillUsed;
    hide AllInPlay, Encodable, LawfulCodec, Meaning;
    var keys := s.refs.Keys;
    AllCounted(cfg, s, multiset{});
    var s1, s2 := IngestPhases(cfg, s, id, chunks);
    var t := Ingest(cfg, s, id, chunks).s;
    ReleaseNothing(cfg, s2);
    assert t == s2;
    AcceptAllFramed(cfg, s, chunks, multiset{}, keys);
    assert Clean(cfg, t) by { assert multiset{} + multiset(Previous(s, id)) == multiset{}; }
    var digests := DigestsOf(cfg, chunks);
    var t1 := DeletePhases(cfg, t, id);
    assert t1.files == s.files by { assert t.files - {id} == s.files; }
    ReleaseAllFramed(cfg, t1, digests, multiset{}, keys);
    RoundTripFrames(cfg, s, s1, s2, t1, digests, keys);
  }

  lemma ReleaseNothing(cfg: Cfg, s: State)
    ensures ReleaseAll(cfg, s, []) == Done(s, ())
  {
  }

  lemma RoundTripFrames(cfg: Cfg, s: State, s1: State, s2: State, t1: State, digests: seq<string>, keys: set<string>)
    requires Framed(keys, s, s1) && OnlyIn(s1.disk, s2.disk, Manifests) && OnlyIn(s2.disk, t1.disk, Manifests)
    requires ReleaseAll(cfg, t1, digests).Done? && Framed(keys, t1, ReleaseAll(cfg, t1, digests).s)
    ensures Framed(keys, s, ReleaseAll(cfg, t1, digests).s)
  {
    hide ReleaseAll, IsChunkDigest, Restrict, IndexOf;
    FramedTransitive(keys, s, s1, t1);
    FramedTransitive(keys, s, t1, ReleaseAll(cfg, t1, digests).s);
  }

  /** Ingesting an absent file and deleting it again restores manifests, counts,
      blobs, byte totals, all records, and both index lists in their order,
      whether chunks repeat in the file or are shared with other files. The gc
      count grows by the blobs that were put. */
  lemma IngestThenDelete(cfg: Cfg, s: State, id: string, chunks: seq<Bytes>)
    requires Clean(cfg, s) && LawfulCodec(cfg) && Ingestible(cfg, chunks) && ValidId(id)
    requires id !in s.files && Balanced(s) && NoOrphans(s)
    ensures var t := Ingest(cfg, s, id, chunks);
            var u := Delete(cfg, t.s, id);
            && t.Done? && u.Done?
            && Restored(s, u.s)
            && u.s.stats.gc == s.stats.gc + Puts(cfg, s, chunks)
  {
    hide Ingest, Delete, Consistent, Framed, Puts, NoOrphans, TotalBytes, StoredBytes, WithEntry, WithoutEntry;
    hide Contents;
    hide Ingestible, LawfulCodec, Concat, SameRecords;
    IngestRefines(cfg, s, id, chunks);
    var t := Ingest(cfg, s, id, chunks).s;
    DeleteRefines(cfg, t, id);
    var u := Delete(cfg, t, id).s;
    assert u.files == s.files by { assert t.files - {id} == s.files; }
    RoundTripFramed(cfg, s, id, chunks);
    FramedSameRefs(cfg, s, u);
    ConsistentParts(cfg, s, multiset{});
    assert id !in FileDocs(s.files);
    AddedThenDropped(s.disk.manifests, FileDocs(s.files), id, ManifestDoc(DigestsOf(cfg, chunks), |Concat(chunks)|));
    IngestConserves(cfg, s, id, chunks);
    DeleteConserves(cfg, t, id);
  }

  // ----- Ingesting the same content again

  /** When every digest is there already, nothing is put. */
  lemma {:induction false} NothingPut(cfg: Cfg, s: State, chunks: seq<Bytes>, pending: multiset<string>)
    requires Consistent(cfg, s, pending) && LawfulCodec(cfg)
    requires AllInPlay(cfg, chunks) && Encodable(cfg, chunks)
    requires forall i :: 0 <= i < |chunks| ==> DigestHex(cfg, chunks[i]) in s.disk.blobs
    ensures Puts(cfg, s, chunks) == 0
    decreases |chunks|
  {
    if chunks != [] {
      HeadAndTail(cfg, chunks);
      hide AllInPlay, Encodable, Encode;
      hide Consistent, StoreChunk, LawfulCodec, IsChunkDigest, InPlay, Recounted, IndexOf;
      var d := DigestHex(cfg, chunks[0]);
      StoreChunkExact(cfg, s, chunks[0], pending);
      StoreChunkStored(cfg, s, chunks[0], pending);
      var o1 := StoreChunk(cfg, s, d, chunks[0]);
      if o1.Done? {
        var now := o1.s.disk.blobs;
        assert now == s.disk.blobs;
        hide Stored, DigestHex;
        forall i | 0 <= i < |chunks[1..]| ensures DigestHex(cfg, chunks[1..][i]) in now {
          assert chunks[1..][i] == chunks[i + 1];
        }
        NothingPut(cfg, o1.s, chunks[1..], pending + multiset{d});
      }
    }
  }

  lemma SameRecordRewritten(m: map<string, Doc>, files: map<string, FileRec>, id: string)
    requires Persisted(m, FileDocs(files)) && id in files
    ensures WithEntry(m, id, ManifestDoc(files[id].digests, files[id].fileBytes)) == m
  {
    assert id in FileDocs(files);
    PersistedLookup(m, FileDocs(files));
    hide Persisted;
    assert m[id := m[id]] == m;
  }

  lemma SameRecordsEqual(m: map<string, Doc>, n: map<string, Doc>, docs: map<string, Doc>)
    requires Persisted(m, docs) && Persisted(n, docs) && SameRecords(m, n) && docs != map[]
    ensures m == n
  {
    var x :| x in docs;
    assert x in IndexOf(m) && x in IndexOf(n);
    assert m == (m - {INDEX})[INDEX := m[INDEX]] && n == (n - {INDEX})[INDEX := n[INDEX]];
  }

  lemma ReingestFramed(cfg: Cfg, s: State, id: string, chunks: seq<Bytes>)
    requires Clean(cfg, s) && LawfulCodec(cfg) && Ingestible(cfg, chunks) && ValidId(id)
    requires id in s.files && s.files[id] == FileRec(DigestsOf(cfg, chunks), |Concat(chunks)|)
    ensures var t := Ingest(cfg, s, id, chunks).s;
            Framed(s.refs.Keys, s, t) && t.files == s.files && t.disk.manifests == s.disk.manifests
  {
    hide Consistent, AcceptAll, ReleaseAll, Ingest, WithEntry, Framed, Concat, StillUsed;
    hide AllInPlay, Encodable, LawfulCodec, Meaning, Persisted, Backed, RefsSized, DigestsOf;
    var keys := s.refs.Keys;
    AllCounted(cfg, s, multiset{});
    var s1, s2 := IngestPhases(cfg, s, id, chunks);
    assert s2.files == s.files;
    StillUsedSame(s.files, s2.files, keys);
    SameManifestRewritten(cfg, s, id);
    AcceptAllFramed(cfg, s, chunks, multiset{}, keys);
    var digests := DigestsOf(cfg, chunks);
    ReleaseAllExact(cfg, s2, digests, multiset{});
    ReleaseAllFramed(cfg, s2, digests, multiset{}, keys);
    RoundTripFrames(cfg, s, s1, s2, s2, digests, keys);
  }

  lemma StillUsedSame(files: map<string, FileRec>, files': map<string, FileRec>, keys: set<string>)
    requires StillUsed(files, multiset{}, keys) && files' == files
    ensures StillUsed(files', multiset{}, keys)
  {
  }

  lemma SameManifestRewritten(cfg: Cfg, s: State, id: string)
    requires Consistent(cfg, s, multiset{}) && id in s.files
    ensures WithEntry(s.disk.manifests, id, ManifestDoc(s.files[id].digests, s.files[id].fileBytes)) == s.disk.manifests
  {
    SameRecordRewritten(s.disk.manifests, s.files, id);
  }

  /** Replacing a file by the same content, cut into the same chunks, changes
      nothing at all: not a count, a blob, a total, an index list, or the gc
      count, in memory or on the backend. */
  lemma ReingestIsIdentity(cfg: Cfg, s: State, id: string, chunks: seq<Bytes>)
    requires Clean(cfg, s) && LawfulCodec(cfg) && Ingestible(cfg, chunks) && ValidId(id)
    requires id in s.files && s.files[id].digests == DigestsOf(cfg, chunks)
    requires Balanced(s) && NoOrphans(s)
    ensures Ingest(cfg, s, id, chunks) == Done(s, DigestsOf(cfg, chunks))
  {
    hide Ingest, Consistent, Framed, Puts, NoOrphans, TotalBytes, StoredBytes, Concat, SameRecords, Contents, Meaning;
    var t := Ingest(cfg, s, id, chunks).s;
    IngestRefines(cfg, s, id, chunks);
    SameLength(cfg, s, id, chunks);
    ReingestFramed(cfg, s, id, chunks);
    FramedSameRefs(cfg, s, t);
    forall i | 0 <= i < |chunks| ensures DigestHex(cfg, chunks[i]) in s.disk.blobs {
      FileIsBacked(cfg, s, multiset{}, id, DigestsOf(cfg, chunks)[i]);
    }
    NothingPut(cfg, s, chunks, multiset{});
    IngestConserves(cfg, s, id, chunks);
    if s.refs == map[] {
      NoChunks(cfg, s, id, chunks);
    } else {
      ConsistentParts(cfg, s, multiset{});
      ConsistentParts(cfg, t, multiset{});
      var d :| d in s.refs;
      assert d in RefDocs(s.refs);
      SameRecordsEqual(s.disk.refcounts, t.disk.refcounts, RefDocs(s.refs));
    }
  }

  lemma SameLength(cfg: Cfg, s: State, id: string, chunks: seq<Bytes>)
    requires Consistent(cfg, s, multiset{}) && AllInPlay(cfg, chunks)
    requires id in s.files && s.files[id].digests == DigestsOf(cfg, chunks)
    ensures s.files[id].fileBytes == |Concat(chunks)|
  {
    hide AllInPlay;
    MeaningOfChunks(cfg, chunks);
  }

  /** A file without chunks in a store without chunks touches no count. */
  lemma NoChunks(cfg: Cfg, s: State, id: string, chunks: seq<Bytes>)
    requires Clean(cfg, s) && LawfulCodec(cfg) && Ingestible(cfg, chunks) && ValidId(id)
    requires id in s.files && s.files[id].digests == DigestsOf(cfg, chunks) && s.refs == map[]
    ensures Ingest(cfg, s, id, chunks).s.disk.refcounts == s.disk.refcounts
  {
    hide Consistent, Publish, AllInPlay, Encodable, LawfulCodec, Concat, Meaning, AllDigests, IndexReadable;
    hide WithEntry;
    if chunks != [] {
      FileIsBacked(cfg, s, multiset{}, id, DigestsOf(cfg, chunks)[0]);
    } else {
      ReadableIndex(cfg, s, multiset{});
      PublishEffect(s, id, [], |Concat(chunks)|);
      assert AcceptAll(cfg, s, chunks) == Done(s, []);
      assert Previous(s, id) == [];
    }
  }
}
