/** A delete that runs within a turn of `release_digests`. */
module TurnRaces {
  import opened Types
  import opened Hashing
  import opened DiskSpec
  import opened StoreSpec
  import opened Counting
  import opened Records
  import opened Invariants
  import opened ExactOps
  import opened ExactRelease
  import opened Refinement
  import opened Opening
  import opened Reopen
  import opened Vault
  import opened Salvage
  import opened Families
  import opened Recovery
  import opened Races
  import opened ReleaseRaces

  // ----- The interleaving

  /** Where a file can be deleted within a turn: after the size is looked up, after
      the decrement, or after the blob is unlinked. */
  datatype TurnPoint = AfterSize | AfterDecrement | AfterUnlink

  function TurnRaced(cfg: Cfg, s: State, d: string, file: string, at: TurnPoint): Out<State, ()> {
    var (s0, size) :- ChunkSize(cfg, s, d);
    var s1 := if at.AfterSize? then Delete(cfg, s0, file).s else s0;
    if d !in s1.refs then Fail(s1, NotFound) else
    var remaining := s1.refs[d].count - 1;
    var s2 := s1.(refs := Decrement(s1.refs, d));
    var (s3, _) :- FinishRaced(cfg, if at.AfterDecrement? then Delete(cfg, s2, file).s else s2, d, remaining, size,
                               file, at);
    Done(s3.(stats := s3.stats.(total := Monus(s3.stats.total, size))), ())
  }

  function FinishRaced(cfg: Cfg, s: State, d: string, remaining: nat, size: nat, file: string, at: TurnPoint)
    : Out<State, ()>
  {
    if !at.AfterUnlink? || remaining > 0 then FinishRelease(s, d, remaining, size) else
    var (s1, _) :- Lift(s, DeleteBlob(s.disk, d));
    DropCount(Delete(cfg, s1, file).s, d, size)
  }

  /** The store with other counts. */
  function WithRefs(s: State, refs: map<string, ChunkRef>): State {
    s.(refs := refs)
  }

  /** The store without the blob of one chunk. */
  function WithoutBlob(s: State, d: string): State {
    s.(disk := s.disk.(blobs := s.disk.blobs - {d}))
  }

  ghost predicate SameOff(refs: map<string, ChunkRef>, refs': map<string, ChunkRef>, d: string) {
    refs - {d} == refs' - {d}
  }

  lemma OffLookup(refs: map<string, ChunkRef>, refs': map<string, ChunkRef>, d: string, x: string)
    requires SameOff(refs, refs', d) && x != d
    ensures (x in refs <==> x in refs') && (x in refs ==> refs[x] == refs'[x])
    ensures x in refs ==> SameOff(Decrement(refs, x), Decrement(refs', x), d)
    ensures x in refs && d in refs' ==> d in Decrement(refs', x) && Decrement(refs', x)[d] == refs'[d]
    ensures x in refs && d !in refs' ==> d !in Decrement(refs', x)
  {
    assert x in refs <==> x in refs - {d};
    assert x in refs' <==> x in refs' - {d};
    assert x in refs ==> refs[x] == (refs - {d})[x];
    assert x in refs' ==> refs'[x] == (refs' - {d})[x];
    if x in refs {
      assert Decrement(refs, x) - {d} == Decrement(refs - {d}, x);
      assert Decrement(refs', x) - {d} == Decrement(refs' - {d}, x);
    }
  }

  /** A turn for another chunk does not look at the count of this one. */
  lemma ReleaseOneApart(cfg: Cfg, s: State, refs': map<string, ChunkRef>, d: string, x: string)
    requires SameOff(s.refs, refs', d) && x != d
    ensures var o, p := ReleaseOne(cfg, s, x), ReleaseOne(cfg, WithRefs(s, refs'), x);
            && o.Done? == p.Done? && p.s == WithRefs(o.s, p.s.refs) && SameOff(o.s.refs, p.s.refs, d)
            && (d in p.s.refs <==> d in refs') && (d in refs' ==> p.s.refs[d] == refs'[d])
  {
    OffLookup(s.refs, refs', d, x);
    ChunkSizeApart(cfg, s, refs', x);
    var o := ChunkSize(cfg, s, x);
    hide ChunkSize, Settle, Monus, Decrement, SameOff;
    if o.Done? && x in s.refs {
      OffLookup(Decrement(s.refs, x), Decrement(refs', x), d, x);
      SettleApart(o.s.(refs := Decrement(s.refs, x)), Decrement(refs', x), x, o.v);
    }
  }

  lemma ChunkSizeApart(cfg: Cfg, s: State, refs': map<string, ChunkRef>, x: string)
    requires (x in s.refs <==> x in refs') && (x in s.refs ==> s.refs[x] == refs'[x])
    ensures var o, p := ChunkSize(cfg, s, x), ChunkSize(cfg, WithRefs(s, refs'), x);
            p == if o.Done? then Done(WithRefs(o.s, refs'), o.v) else Fail(WithRefs(o.s, refs'), o.e)
    ensures ChunkSize(cfg, s, x).s.refs == s.refs
  {
    hide Decode;
  }

  lemma SettleApart(s: State, refs': map<string, ChunkRef>, x: string, size: nat)
    requires (x in s.refs <==> x in refs') && (x in s.refs ==> s.refs[x] == refs'[x])
    ensures var o, p := Settle(s, x, size), Settle(WithRefs(s, refs'), x, size);
            o.Done? == p.Done? && p.s == WithRefs(o.s, refs') && o.s.refs == s.refs
  {
    hide SaveRefcount, RemoveRefcount, Monus;
  }

  lemma {:induction false} ReleaseAllApart(cfg: Cfg, s: State, refs': map<string, ChunkRef>, d: string,
                                           digests: seq<string>)
    requires SameOff(s.refs, refs', d) && d !in digests
    ensures var o, p := ReleaseAll(cfg, s, digests), ReleaseAll(cfg, WithRefs(s, refs'), digests);
            && o.Done? == p.Done? && p.s == WithRefs(o.s, p.s.refs) && SameOff(o.s.refs, p.s.refs, d)
            && (d in p.s.refs <==> d in refs') && (d in refs' ==> p.s.refs[d] == refs'[d])
    decreases |digests|
  {
    hide ReleaseOne, SameOff;
    if digests != [] {
      ReleaseOneApart(cfg, s, refs', d, digests[0]);
      var o := ReleaseOne(cfg, s, digests[0]);
      var p := ReleaseOne(cfg, WithRefs(s, refs'), digests[0]);
      if o.Done? {
        ReleaseAllApart(cfg, o.s, p.s.refs, d, digests[1..]);
      }
    }
  }

  lemma ReleaseOneBare(cfg: Cfg, s: State, d: string, x: string)
    requires x != d
    ensures var o, p := ReleaseOne(cfg, s, x), ReleaseOne(cfg, WithoutBlob(s, d), x);
            p == if o.Done? then Done(WithoutBlob(o.s, d), ()) else Fail(WithoutBlob(o.s, d), o.e)
  {
    ChunkSizeBare(cfg, s, d, x);
    var o := ChunkSize(cfg, s, x);
    hide ChunkSize, Settle, Decrement, Monus;
    if o.Done? && x in o.s.refs {
      SettleBare(o.s.(refs := Decrement(o.s.refs, x)), d, x, o.v);
    }
  }

  lemma ChunkSizeBare(cfg: Cfg, s: State, d: string, x: string)
    requires x != d
    ensures var o, p := ChunkSize(cfg, s, x), ChunkSize(cfg, WithoutBlob(s, d), x);
            p == if o.Done? then Done(WithoutBlob(o.s, d), o.v) else Fail(WithoutBlob(o.s, d), o.e)
    ensures ChunkSize(cfg, s, x).s.refs == s.refs
  {
    hide Decode;
  }

  lemma SettleBare(s: State, d: string, x: string, size: nat)
    requires x != d
    ensures var o, p := Settle(s, x, size), Settle(WithoutBlob(s, d), x, size);
            p == if o.Done? then Done(WithoutBlob(o.s, d), ()) else Fail(WithoutBlob(o.s, d), o.e)
  {
    hide SaveRefcount, RemoveRefcount, Monus;
    var blobs := s.disk.blobs;
    if x in s.refs {
      SaveBlobFree(s.disk, blobs - {d}, x, s.refs[x].count, size);
    } else {
      assert blobs - {d} - {x} == blobs - {x} - {d};
      RemoveBlobFree(DeleteBlob(s.disk, x).s, blobs - {x} - {d}, x);
    }
  }

  lemma {:induction false} ReleaseAllBare(cfg: Cfg, s: State, d: string, digests: seq<string>)
    requires d !in digests
    ensures var o, p := ReleaseAll(cfg, s, digests), ReleaseAll(cfg, WithoutBlob(s, d), digests);
            p == if o.Done? then Done(WithoutBlob(o.s, d), ()) else Fail(WithoutBlob(o.s, d), o.e)
    decreases |digests|
  {
    hide ReleaseOne, WithoutBlob;
    if digests != [] {
      ReleaseOneBare(cfg, s, d, digests[0]);
      var o := ReleaseOne(cfg, s, digests[0]);
      if o.Done? {
        ReleaseAllBare(cfg, o.s, d, digests[1..]);
      }
    }
  }

  /** Saving and removing counts does not look at blobs. */
  lemma SaveBlobFree(b: Disk, blobs: map<string, Bytes>, d: string, count: nat, size: nat)
    ensures var o, p := SaveRefcount(b, d, count, size), SaveRefcount(b.(blobs := blobs), d, count, size);
            p == (if o.Done? then Done(o.s.(blobs := blobs), ()) else Fail(o.s.(blobs := blobs), o.e))
            && o.s.blobs == b.blobs
  {
    hide IsChunkDigest, ReadList;
    var o := PutDoc(b, Refcounts, d, CountSize(count, size));
    if o.Done? {
      ReadBlobFree(o.s, blobs);
    }
  }

  lemma RemoveBlobFree(b: Disk, blobs: map<string, Bytes>, d: string)
    ensures var o, p := RemoveRefcount(b, d), RemoveRefcount(b.(blobs := blobs), d);
            p == (if o.Done? then Done(o.s.(blobs := blobs), ()) else Fail(o.s.(blobs := blobs), o.e))
            && o.s.blobs == b.blobs
  {
    hide Retain, ReadList;
    var o := DeleteDoc(b, Refcounts, d);
    if o.Done? {
      ReadBlobFree(o.s, blobs);
    }
  }

  lemma ReadBlobFree(b: Disk, blobs: map<string, Bytes>)
    ensures var o, p := ReadList(b, Refcounts), ReadList(b.(blobs := blobs), Refcounts);
            p == (if o.Done? then Done(o.s.(blobs := blobs), o.v) else Fail(o.s.(blobs := blobs), o.e))
            && o.s.blobs == b.blobs
  {
  }

  // ----- The turn around the delete

  lemma UnlinkApart(b: Disk, blobs: map<string, Bytes>, file: string)
    requires b.plan.Never? && IndexReadable(b.manifests) && file != INDEX
    ensures var o, p := RemoveManifest(b, file), RemoveManifest(b.(blobs := blobs), file);
            && o.Done? && o.s == b.(manifests := WithoutEntry(b.manifests, file))
            && p.Done? && p.s == b.(blobs := blobs, manifests := WithoutEntry(b.manifests, file))
  {
    hide RemoveEntry, WithoutEntry, IndexReadable;
    RemoveEntryEffect(b, Manifests, file);
    RemoveEntryEffect(b.(blobs := blobs), Manifests, file);
  }

  /** A delete of a file that does not hold the chunk, while the chunk's count in
      memory is another one, or its blob is gone too. */
  lemma DeleteApart(cfg: Cfg, s: State, refs': map<string, ChunkRef>, d: string, file: string)
    requires s.disk.plan.Never? && IndexReadable(s.disk.manifests) && file in s.files && file != INDEX
    requires SameOff(s.refs, refs', d) && d !in s.files[file].digests && Delete(cfg, s, file).Done?
    ensures var o, p := Delete(cfg, s, file), Delete(cfg, WithRefs(s, refs'), file);
            && p.s == WithRefs(o.s, p.s.refs) && SameOff(o.s.refs, p.s.refs, d)
            && (d in p.s.refs <==> d in refs') && (d in refs' ==> p.s.refs[d] == refs'[d])
    ensures var p := Delete(cfg, WithRefs(s, refs'), file);
            Delete(cfg, WithoutBlob(WithRefs(s, refs'), d), file).s == WithoutBlob(p.s, d)
  {
    hide Delete, RemoveManifest, ReleaseAll, WithoutEntry, SameOff, IndexReadable;
    var t := WithRefs(s, refs');
    var u := WithoutBlob(t, d);
    UnlinkApart(s.disk, u.disk.blobs, file);
    DeletePieces(cfg, s, file);
    DeletePieces(cfg, t, file);
    DeletePieces(cfg, u, file);
    var b := RemoveManifest(s.disk, file).s;
    var s1 := s.(files := s.files - {file}, disk := b);
    ReleaseAllApart(cfg, s1, refs', d, s.files[file].digests);
    ReleaseAllBare(cfg, WithRefs(s1, refs'), d, s.files[file].digests);
  }

  /** Whatever totals and plan are, the store is as exact. */
  lemma ExactApartFromTotals(cfg: Cfg, s: State, s': State, pending: multiset<string>)
    requires s' == s.(stats := s'.stats)
    ensures Consistent(cfg, s, pending) <==> Consistent(cfg, s', pending)
  {
  }

  /** The file is deleted first, and the turn is taken afterwards. */
  function DeleteThenTurn(cfg: Cfg, s: State, d: string, file: string): State {
    ReleaseOne(cfg, Delete(cfg, s, file).s, d).s
  }

  lemma DeletedThenReleased(cfg: Cfg, s: State, d: string, file: string, pending: multiset<string>)
    requires Consistent(cfg, s, pending + multiset{d}) && s.disk.plan.Never? && file in s.files
    ensures var u := Delete(cfg, s, file).s;
            var t := DeleteThenTurn(cfg, s, d, file);
            && Delete(cfg, s, file).Done? && u.disk.plan.Never? && d in u.refs && d in u.disk.blobs
            && ReleaseOne(cfg, u, d).Done? && Released(cfg, u, t, d)
            && Consistent(cfg, t, pending) && t.files == s.files - {file}
  {
    hide Consistent, Delete, ReleaseOne, Released;
    DeletePending(cfg, s, file, pending + multiset{d});
    var u := Delete(cfg, s, file).s;
    PendingIsBacked(cfg, u, pending + multiset{d}, d);
    ReleaseOneReleased(cfg, u, d, pending + multiset{d});
    ReleasedExact(cfg, u, ReleaseOne(cfg, u, d).s, d, pending);
    ReleasedFiles(cfg, u, ReleaseOne(cfg, u, d).s, d);
  }

  lemma FinishIsSettle(s: State, d: string, size: nat)
    ensures FinishRelease(s, d, Count(s.refs, d), size) == Settle(s, d, size)
  {
    hide SaveRefcount, RemoveRefcount, Monus;
  }

  lemma TurnPieces(cfg: Cfg, s: State, d: string, file: string, at: TurnPoint, size: nat)
    requires ChunkSize(cfg, s, d).Done? && ChunkSize(cfg, s, d).s == s && ChunkSize(cfg, s, d).v == size
    requires d in s.refs
    ensures at.AfterDecrement? ==>
              var u := Delete(cfg, s.(refs := Decrement(s.refs, d)), file).s;
              var o := FinishRelease(u, d, s.refs[d].count - 1, size);
              TurnRaced(cfg, s, d, file, at) == Deducted(o, size)
    ensures at.AfterSize? && d in Delete(cfg, s, file).s.refs ==>
              var u := Delete(cfg, s, file).s;
              var o := FinishRelease(u.(refs := Decrement(u.refs, d)), d, u.refs[d].count - 1, size);
              TurnRaced(cfg, s, d, file, at) == Deducted(o, size)
    ensures at.AfterUnlink? && s.refs[d].count == 1 && s.disk.plan.Never? ==>
              var t := WithoutBlob(WithRefs(s, Decrement(s.refs, d)), d);
              TurnRaced(cfg, s, d, file, at) == Deducted(DropCount(Delete(cfg, t, file).s, d, size), size)
  {
    hide ChunkSize, Delete, DropCount, FinishRelease, Decrement, Monus;
  }

  /** The reference is taken from the total. */
  function Deducted(o: Out<State, ()>, size: nat): Out<State, ()> {
    var (s, _) :- o;
    Done(s.(stats := s.stats.(total := Monus(s.stats.total, size))), ())
  }

  lemma ReleasePieces(cfg: Cfg, s: State, d: string, size: nat)
    requires ChunkSize(cfg, s, d).Done? && ChunkSize(cfg, s, d).s == s && ChunkSize(cfg, s, d).v == size
    requires d in s.refs
    ensures ReleaseOne(cfg, s, d) == Deducted(Settle(s.(refs := Decrement(s.refs, d)), d, size), size)
    ensures Count(Decrement(s.refs, d), d) == s.refs[d].count - 1
  {
    hide ChunkSize, Settle, Monus;
  }

  lemma SizeKnown(cfg: Cfg, s: State, d: string, pending: multiset<string>)
    requires Consistent(cfg, s, pending) && pending[d] > 0 && s.disk.plan.Never?
    ensures ChunkSize(cfg, s, d).Done? && ChunkSize(cfg, s, d).s == s && ChunkSize(cfg, s, d).v == |cfg.plain(d)|
    ensures d in s.refs
  {
    hide Persisted, FilesSized, IsChunkDigest;
    PendingIsBacked(cfg, s, pending, d);
    ChunkSizeEffect(cfg, s, d);
    hide ChunkSize;
    assert s.disk.(plan := Never) == s.disk;
  }

  lemma RacedAfterSize(cfg: Cfg, s: State, d: string, file: string, pending: multiset<string>)
    requires Consistent(cfg, s, pending + multiset{d}) && s.disk.plan.Never? && file in s.files
    ensures TurnRaced(cfg, s, d, file, AfterSize) == ReleaseOne(cfg, Delete(cfg, s, file).s, d)
  {
    hide *;
    var u, size := Delete(cfg, s, file).s, |cfg.plain(d)|;
    HasPending(pending, d);
    DeletePending(cfg, s, file, pending + multiset{d});
    SizeKnown(cfg, s, d, pending + multiset{d});
    SizeKnown(cfg, u, d, pending + multiset{d});
    TurnPieces(cfg, s, d, file, AfterSize, size);
    ReleasePieces(cfg, u, d, size);
    FinishIsSettle(u.(refs := Decrement(u.refs, d)), d, size);
  }

  lemma HasPending(pending: multiset<string>, d: string)
    ensures (pending + multiset{d})[d] > 0
  {
  }

  lemma SameOffItself(refs: map<string, ChunkRef>, d: string)
    requires d in refs
    ensures SameOff(refs, refs, d) && SameOff(refs, Decrement(refs, d), d)
  {
  }

  /** Two tables that agree off one chunk, and in that chunk. */
  lemma SameEverywhere(refs: map<string, ChunkRef>, refs': map<string, ChunkRef>, d: string)
    requires SameOff(refs, refs', d) && (d in refs <==> d in refs') && (d in refs ==> refs[d] == refs'[d])
    ensures refs == refs'
  {
    forall x ensures (x in refs <==> x in refs') && (x in refs ==> refs[x] == refs'[x]) {
      if x != d {
        OffLookup(refs, refs', d, x);
      }
    }
  }

  lemma DecrementedApart(refs: map<string, ChunkRef>, refs': map<string, ChunkRef>, q: map<string, ChunkRef>, d: string)
    requires d in refs && d in refs' && refs'[d] == refs[d] && SameOff(refs', q, d)
    requires (d in q <==> d in Decrement(refs, d)) && (d in q ==> q[d] == Decrement(refs, d)[d])
    ensures q == Decrement(refs', d)
  {
    assert SameOff(Decrement(refs', d), q, d) by {
      assert Decrement(refs', d) - {d} == refs' - {d};
    }
    hide SameOff;
    SameEverywhere(Decrement(refs', d), q, d);
  }

  /** The delete of a file that does not hold the chunk comes to the same as a
      delete before the turn. */
  lemma UnheldPieces(cfg: Cfg, s: State, d: string, file: string, pending: multiset<string>)
    requires Consistent(cfg, s, pending + multiset{d}) && s.disk.plan.Never? && file in s.files
    requires d in s.refs && d !in s.files[file].digests
    ensures var u := Delete(cfg, s, file).s;
            var p := Delete(cfg, WithRefs(s, Decrement(s.refs, d)), file).s;
            && d in u.refs && u.refs[d] == s.refs[d] && p == WithRefs(u, Decrement(u.refs, d))
            && Delete(cfg, WithoutBlob(WithRefs(s, Decrement(s.refs, d)), d), file).s == WithoutBlob(p, d)
  {
    hide *;
    HasPending(pending, d);
    SizeKnown(cfg, s, d, pending + multiset{d});
    DeletePending(cfg, s, file, pending + multiset{d});
    var u := Delete(cfg, s, file).s;
    SizeKnown(cfg, u, d, pending + multiset{d});
    ReadableIndex(cfg, s, pending + multiset{d});
    FileIsNotIndex(cfg, s, file, pending + multiset{d});
    ValidIsNotIndex(file);
    SameOffItself(s.refs, d);
    WithOwnRefs(s);
    DeleteApart(cfg, s, s.refs, d, file);
    DeleteApart(cfg, s, Decrement(s.refs, d), d, file);
    var p := Delete(cfg, WithRefs(s, Decrement(s.refs, d)), file).s;
    RefsOf(u, p.refs);
    DecrementedApart(s.refs, u.refs, p.refs, d);
  }

  lemma WithOwnRefs(s: State)
    ensures WithRefs(s, s.refs) == s
  {
  }

  lemma RefsOf(s: State, refs: map<string, ChunkRef>)
    ensures WithRefs(s, refs).refs == refs
  {
  }

  lemma RacedAfterDecrement(cfg: Cfg, s: State, d: string, file: string, pending: multiset<string>)
    requires Consistent(cfg, s, pending + multiset{d}) && s.disk.plan.Never? && file in s.files
    requires d in s.refs && d !in s.files[file].digests
    ensures TurnRaced(cfg, s, d, file, AfterDecrement) == ReleaseOne(cfg, Delete(cfg, s, file).s, d)
  {
    hide *;
    var u, size := Delete(cfg, s, file).s, |cfg.plain(d)|;
    HasPending(pending, d);
    DeletePending(cfg, s, file, pending + multiset{d});
    SizeKnown(cfg, s, d, pending + multiset{d});
    SizeKnown(cfg, u, d, pending + multiset{d});
    TurnPieces(cfg, s, d, file, AfterDecrement, size);
    ReleasePieces(cfg, u, d, size);
    UnheldPieces(cfg, s, d, file, pending);
    RefsIs(s, Decrement(s.refs, d));
    RefsIs(u, Decrement(u.refs, d));
    FinishIsSettle(u.(refs := Decrement(u.refs, d)), d, size);
  }

  lemma RefsIs(s: State, refs: map<string, ChunkRef>)
    ensures WithRefs(s, refs) == s.(refs := refs)
  {
  }

  /** Only the references held by others keep the chunk, so the file does not
      hold it. */
  lemma LastIsUnheld(cfg: Cfg, s: State, d: string, file: string, pending: multiset<string>)
    requires Consistent(cfg, s, pending + multiset{d}) && file in s.files && d in s.refs && s.refs[d].count == 1
    ensures d !in s.files[file].digests
  {
    assert AllRefs(s.files)[d] + (pending + multiset{d})[d] == Count(s.refs, d);
    hide Consistent, AllRefs;
    if d in s.files[file].digests {
      AllRefsMember(s.files, file, d);
    }
  }

  lemma DropIsSettle(s: State, d: string, size: nat)
    requires d !in s.refs && s.disk.plan.Never?
    ensures DropCount(WithoutBlob(s, d), d, size) == Settle(s, d, size)
  {
    hide RemoveRefcount, Monus;
  }

  lemma RacedAfterUnlink(cfg: Cfg, s: State, d: string, file: string, pending: multiset<string>)
    requires Consistent(cfg, s, pending + multiset{d}) && s.disk.plan.Never? && file in s.files
    requires d in s.refs && s.refs[d].count == 1
    ensures TurnRaced(cfg, s, d, file, AfterUnlink) == ReleaseOne(cfg, Delete(cfg, s, file).s, d)
  {
    hide *;
    var u, size := Delete(cfg, s, file).s, |cfg.plain(d)|;
    HasPending(pending, d);
    LastIsUnheld(cfg, s, d, file, pending);
    DeletePending(cfg, s, file, pending + multiset{d});
    SizeKnown(cfg, s, d, pending + multiset{d});
    SizeKnown(cfg, u, d, pending + multiset{d});
    TurnPieces(cfg, s, d, file, AfterUnlink, size);
    ReleasePieces(cfg, u, d, size);
    UnheldPieces(cfg, s, d, file, pending);
    var v := WithRefs(u, Decrement(u.refs, d));
    RefsIs(u, Decrement(u.refs, d));
    LastGoes(u.refs, d);
    DropIsSettle(v, d, size);
  }

  lemma LastGoes(refs: map<string, ChunkRef>, d: string)
    requires d in refs && refs[d].count == 1
    ensures d !in Decrement(refs, d)
  {
  }

  // ----- The delete of a file that holds the chunk

  lemma ReleaseOneDone(cfg: Cfg, s: State, d: string, held: multiset<string>)
    requires Guarded(cfg, s, held + multiset{d}) && Parses(s.disk) && s.disk.plan.Never?
    ensures ReleaseOne(cfg, s, d).Done? && ReleaseOne(cfg, s, d).s.disk.plan.Never?
  {
    HeldIsCounted(cfg, s, held + multiset{d}, d);
    assert IndexReadable(s.disk.refcounts);
    SizeFound(cfg, s, d);
    var o := ChunkSize(cfg, s, d);
    hide ChunkSize, Settle, Guarded, Parses, IsChunkDigest, Decrement, IndexReadable, Known, BlobsGood, SizeFits;
    SettleEffect(o.s.(refs := Decrement(o.s.refs, d)), d, o.v);
  }

  lemma SizeFound(cfg: Cfg, s: State, d: string)
    requires BlobsGood(cfg, s.disk.blobs) && IsChunkDigest(d) && d in s.disk.blobs && s.disk.plan.Never?
    ensures ChunkSize(cfg, s, d).Done? && ChunkSize(cfg, s, d).s == s
  {
    hide IsChunkDigest;
  }

  /** A release of references that are held completes. */
  lemma {:induction false} ReleaseAllDone(cfg: Cfg, s: State, digests: seq<string>, held: multiset<string>)
    requires Guarded(cfg, s, held + multiset(digests)) && Parses(s.disk) && s.disk.plan.Never?
    ensures ReleaseAll(cfg, s, digests).Done? && ReleaseAll(cfg, s, digests).s.disk.plan.Never?
    decreases |digests|
  {
    hide Guarded, Parses, ReleaseOne;
    if digests != [] {
      var d := digests[0];
      PendingSplit(held, digests);
      ReleaseOneDone(cfg, s, d, held + multiset(digests[1..]));
      ReleaseOneGuarded(cfg, s, d, held + multiset(digests[1..]));
      ReleaseOneKeeps(cfg, s, d);
      ReleaseAllDone(cfg, ReleaseOne(cfg, s, d).s, digests[1..], held);
    }
  }

  lemma UnlinkGuarded(cfg: Cfg, s: State, file: string, pending: multiset<string>)
    requires Guarded(cfg, s, AllRefs(s.files) + pending) && Parses(s.disk) && s.disk.plan.Never?
    requires file in s.files && file != INDEX
    ensures var o := RemoveManifest(s.disk, file);
            var t := s.(files := s.files - {file}, disk := o.s);
            && o.Done? && o.s.plan.Never? && Parses(o.s)
            && Guarded(cfg, t, AllRefs(t.files) + pending + multiset(s.files[file].digests))
  {
    assert IndexReadable(s.disk.manifests);
    UnlinkApart(s.disk, s.disk.blobs, file);
    RemoveManifestKeeps(s.disk, file);
    UnlinkedHoldings(s.files, file);
    hide RemoveManifest, Guarded, WithoutEntry, FilesIn, ManifestsParse, RefcountsParse, AllRefs, IndexReadable;
    var t := s.(files := s.files - {file}, disk := RemoveManifest(s.disk, file).s);
    assert AllRefs(s.files) + pending == AllRefs(t.files) + pending + multiset(s.files[file].digests);
    GuardedStats(cfg, s, t, AllRefs(s.files) + pending);
  }

  /** The delete with the chunk's count in memory one lower than on the backend. */
  lemma HeldDelete(cfg: Cfg, s: State, d: string, file: string, pending: multiset<string>)
    requires Consistent(cfg, s, pending + multiset{d}) && s.disk.plan.Never? && file in s.files && d in s.refs
    ensures var p := Delete(cfg, s.(refs := Decrement(s.refs, d)), file);
            && p.Done? && p.s.disk.plan.Never? && RefcountsParse(p.s.disk.refcounts) && p.s.files == s.files - {file}
            && Count(p.s.refs, d) + multiset(s.files[file].digests)[d] == s.refs[d].count - 1
  {
    hide *;
    var t := s.(refs := Decrement(s.refs, d));
    ConsistentIsGuarded(cfg, s, pending + multiset{d});
    FileIsNotIndex(cfg, s, file, pending + multiset{d});
    ValidIsNotIndex(file);
    var held := AllRefs(s.files) + pending;
    assert AllRefs(s.files) + (pending + multiset{d}) == held + multiset{d};
    DecrementGuarded(cfg, s, d, held);
    UnlinkGuarded(cfg, t, file, pending);
    DeletePieces(cfg, t, file);
    var digests := s.files[file].digests;
    var u := t.(files := s.files - {file}, disk := RemoveManifest(t.disk, file).s);
    ReleaseAllDone(cfg, u, digests, AllRefs(u.files) + pending);
    ReleaseAllKeeps(cfg, u, digests);
    ReleaseAllCounts(cfg, u, digests);
    CountsParse(ReleaseAll(cfg, u, digests).s.disk);
    DecrementCount(s.refs, d, d);
    CountIs(s.refs, d);
    OneOf(d);
  }

  lemma OneOf(d: string)
    ensures multiset{d}[d] == 1
  {
  }

  lemma CountsParse(b: Disk)
    requires Parses(b)
    ensures RefcountsParse(b.refcounts)
  {
    hide RefcountsParse;
  }

  lemma SavedCount(m: map<string, ChunkRef>, d: string, r: ChunkRef)
    ensures Count(m[d := r], d) == r.count
  {
  }

  lemma ExactCountsLoad(cfg: Cfg, s: State, pending: multiset<string>)
    requires Consistent(cfg, s, pending)
    ensures RefsIn(s.disk.refcounts) == s.refs
  {
    ConsistentLoads(cfg, s, pending);
  }

  /** Memory ends up with fewer references than the backend, by those of the file
      that was deleted. */
  lemma HeldAfterDecrement(cfg: Cfg, s: State, d: string, file: string, pending: multiset<string>)
    requires Consistent(cfg, s, pending + multiset{d}) && s.disk.plan.Never? && file in s.files && d in s.refs
    requires d in s.files[file].digests
    ensures var o := TurnRaced(cfg, s, d, file, AfterDecrement);
            && o.Done? && o.s.files == s.files - {file}
            && Count(o.s.refs, d) == Count(s.refs, d) - 1 - multiset(s.files[file].digests)[d]
            && Count(RefsIn(o.s.disk.refcounts), d) == Count(s.refs, d) - 1
            && !Consistent(cfg, o.s, pending)
  {
    hide *;
    var size, remaining := |cfg.plain(d)|, s.refs[d].count - 1;
    HasPending(pending, d);
    SizeKnown(cfg, s, d, pending + multiset{d});
    TurnPieces(cfg, s, d, file, AfterDecrement, size);
    HeldDelete(cfg, s, d, file, pending);
    assert multiset(s.files[file].digests)[d] > 0;
    var p := Delete(cfg, s.(refs := Decrement(s.refs, d)), file).s;
    PendingIsBacked(cfg, s, pending + multiset{d}, d);
    SaveEffect(p, d, remaining, size);
    CountIs(s.refs, d);
    var o := FinishRelease(p, d, remaining, size);
    Deducts(o, size);
    SavedCount(RefsIn(p.disk.refcounts), d, ChunkRef(remaining, size));
    var t := TurnRaced(cfg, s, d, file, AfterDecrement).s;
    if Consistent(cfg, t, pending) {
      ExactCountsLoad(cfg, t, pending);
    }
  }

  lemma Deducts(o: Out<State, ()>, size: nat)
    requires o.Done?
    ensures Deducted(o, size).Done?
    ensures var s := Deducted(o, size).s;
            && s.refs == o.s.refs && s.files == o.s.files && s.disk == o.s.disk
  {
    hide Monus;
  }

  /** A delete within a turn of a release. After the size is looked up, or once
      the blob is unlinked, it comes to the same as a delete before the turn, and
      so it does between the decrement and the save when the file does not hold
      the chunk. When it does, the save brings back the references that the
      delete has taken: memory has as many less than the backend as the file
      has of the chunk. */
  lemma DeleteWithinTurn(cfg: Cfg, s: State, d: string, file: string, at: TurnPoint, pending: multiset<string>)
    requires Consistent(cfg, s, pending + multiset{d}) && s.disk.plan.Never? && file in s.files
    requires at.AfterUnlink? ==> Count(s.refs, d) == 1
    ensures var o := TurnRaced(cfg, s, d, file, at);
            var held := multiset(s.files[file].digests)[d];
            && o.Done? && o.s.files == s.files - {file} && Count(o.s.refs, d) == Count(s.refs, d) - 1 - held
            && Count(RefsIn(o.s.disk.refcounts), d) ==
               Count(s.refs, d) - 1 - (if at.AfterDecrement? then 0 else held)
            && (Consistent(cfg, o.s, pending) <==> !(at.AfterDecrement? && d in s.files[file].digests))
  {
    hide *;
    HasPending(pending, d);
    SizeKnown(cfg, s, d, pending + multiset{d});
    CountIs(s.refs, d);
    if at.AfterDecrement? && d in s.files[file].digests {
      HeldAfterDecrement(cfg, s, d, file, pending);
    } else {
      DeletedThenReleased(cfg, s, d, file, pending);
      if at.AfterSize? {
        RacedAfterSize(cfg, s, d, file, pending);
      } else if at.AfterDecrement? {
        RacedAfterDecrement(cfg, s, d, file, pending);
      } else {
        RacedAfterUnlink(cfg, s, d, file, pending);
      }
      var t := DeleteThenTurn(cfg, s, d, file);
      DeleteThenTurnIs(cfg, s, d, file);
      ExactCountsLoad(cfg, t, pending);
      ExactCountAfter(cfg, s, t, d, file, pending);
    }
  }

  lemma DeleteThenTurnIs(cfg: Cfg, s: State, d: string, file: string)
    ensures DeleteThenTurn(cfg, s, d, file) == ReleaseOne(cfg, Delete(cfg, s, file).s, d).s
  {
    hide ReleaseOne, Delete;
  }

  /** Exact counts tell what is left. */
  lemma ExactCountAfter(cfg: Cfg, s: State, t: State, d: string, file: string, pending: multiset<string>)
    requires Consistent(cfg, s, pending + multiset{d}) && Consistent(cfg, t, pending)
    requires file in s.files && t.files == s.files - {file}
    ensures Count(t.refs, d) == Count(s.refs, d) - 1 - multiset(s.files[file].digests)[d]
  {
    UnlinkedHoldings(s.files, file);
    assert AllRefs(s.files)[d] + (pending + multiset{d})[d] == Count(s.refs, d);
    assert AllRefs(t.files)[d] + pending[d] == Count(t.refs, d);
    hide Consistent, AllRefs;
  }
}
