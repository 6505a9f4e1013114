/** Runs in which any backend call may fail, and the process may stop and open
    the store again, at any point. */
module Vault {
  import opened Types
  import opened Hashing
  import opened DiskSpec
  import opened StoreSpec
  import opened Counting
  import opened Records
  import opened Invariants
  import opened ExactSteps
  import opened ExactOps
  import opened ExactRelease
  import opened Opening

  /** The recorded size is the payload length. Opening may have measured an
      empty chunk on its encoded form, so any size will do for that one. */
  ghost predicate SizeFits(cfg: Cfg, d: string, size: nat) {
    size == |cfg.plain(d)| || cfg.plain(d) == []
  }

  ghost predicate RefsKnown(cfg: Cfg, refs: map<string, ChunkRef>) {
    forall d :: d in refs ==> Known(cfg, d) && SizeFits(cfg, d, refs[d].size)
  }

  ghost predicate Within(held: multiset<string>, refs: map<string, ChunkRef>) {
    forall d :: held[d] <= Count(refs, d)
  }

  ghost predicate Tabled(cfg: Cfg, refs: map<string, ChunkRef>, held: multiset<string>) {
    RefsKnown(cfg, refs) && Within(held, refs)
  }

  ghost predicate AllThere(held: multiset<string>, blobs: map<string, Bytes>) {
    forall d :: d in held ==> d in blobs
  }

  /** Chunks that are held are on the backend, and both the counts in memory
      and the counts that would be loaded from the backend cover the holdings. */
  ghost predicate Guarded(cfg: Cfg, s: State, held: multiset<string>) {
    && BlobsGood(cfg, s.disk.blobs)
    && AllThere(held, s.disk.blobs)
    && Tabled(cfg, s.refs, held)
    && Tabled(cfg, RefsIn(s.disk.refcounts), held)
  }

  ghost predicate SameFamilies(s: State, s': State) {
    s'.files == s.files && s'.disk.manifests == s.disk.manifests
  }

  lemma GuardedLess(cfg: Cfg, s: State, more: multiset<string>, less: multiset<string>)
    requires Guarded(cfg, s, more) && less <= more
    ensures Guarded(cfg, s, less)
  {
    hide RefsIn;
  }

  // ----- Records under faults, without assuming that the index is readable

  ghost function Appended(m: map<string, Doc>, d: string): map<string, Doc> {
    m[INDEX := List(IndexOf(m) + [d])]
  }

  lemma SaveEntryAny(b: Disk, sp: Space, id: string, doc: Doc)
    requires id != INDEX
    ensures var o := SaveEntry(b, sp, id, doc);
            var m, m' := Docs(b, sp), Docs(o.s, sp);
            && OnlyIn(b, o.s, sp)
            && (o.Fail? ==> m' == m || m' == m[id := doc])
            && (o.Done? ==> m' == if id in IndexOf(m) then m[id := doc] else Appended(m[id := doc], id))
  {
    hide ReadList;
    var o := PutDoc(b, sp, id, doc);
    if o.Done? {
      ReadListAny(o.s, sp);
    }
  }

  lemma ReadListAny(b: Disk, sp: Space)
    ensures var o := ReadList(b, sp);
            o.s == Spend(b) && (o.Done? ==> o.v == IndexOf(Docs(b, sp)))
  {
  }

  lemma RemoveEntryAny(b: Disk, sp: Space, id: string)
    requires id != INDEX
    ensures var o := RemoveEntry(b, sp, id);
            var m, m' := Docs(b, sp), Docs(o.s, sp);
            && OnlyIn(b, o.s, sp)
            && (m' == m || m' == m - {id} || m' == WithoutEntry(m, id))
            && (o.Done? ==> m' == WithoutEntry(m, id))
  {
    hide ReadList, Retain, WithoutEntry, IndexOf;
    var o := DeleteDoc(b, sp, id);
    WithoutEntryIs(Docs(b, sp), id);
    if o.Done? {
      ReadListAny(o.s, sp);
    }
  }

  lemma WithoutEntryIs(m: map<string, Doc>, id: string)
    requires id != INDEX
    ensures WithoutEntry(m, id) == (m - {id})[INDEX := List(Retain(IndexOf(m - {id}), id))]
  {
    hide Retain;
  }

  // ----- What they do to the table that would be loaded

  lemma PutAppended(m: map<string, Doc>, d: string, count: Pos, size: nat)
    requires d !in IndexOf(m) && d != INDEX
    ensures RefsIn(Appended(m[d := CountSize(count, size)], d)) == RefsIn(m)[d := ChunkRef(count, size)]
  {
    var m1 := m[d := CountSize(count, size)];
    assert IndexOf(m1) == IndexOf(m);
    var m2 := Appended(m1, d);
    assert IndexOf(m2) == IndexOf(m) + [d];
    assert !Counts(m2[INDEX]);
    assert INDEX in m && Counts(m[INDEX]) ==> IndexOf(m) == [];
  }

  lemma SaveRefcountLoads(b: Disk, d: string, count: Pos, size: nat)
    requires IsChunkDigest(d)
    ensures var o := SaveRefcount(b, d, count, size);
            var refs, refs' := RefsIn(b.refcounts), RefsIn(o.s.refcounts);
            && OnlyIn(b, o.s, Refcounts)
            && (refs' == refs || refs' == refs[d := ChunkRef(count, size)])
            && (o.Done? ==> refs' == refs[d := ChunkRef(count, size)])
  {
    DigestIsNotIndex(d);
    hide SaveEntry, RefsIn, IndexOf, Appended;
    SaveEntryAny(b, Refcounts, d, CountSize(count, size));
    if d in IndexOf(b.refcounts) {
      PutListed(b.refcounts, d, count, size);
    } else {
      PutUnlisted(b.refcounts, d, CountSize(count, size));
      PutAppended(b.refcounts, d, count, size);
    }
  }

  lemma {:induction false} RetainMembers(xs: seq<string>, x: string)
    ensures forall y :: y in Retain(xs, x) <==> y in xs && y != x
  {
    if xs != [] {
      RetainMembers(xs[1..], x);
      assert xs == [xs[0]] + xs[1..];
    }
  }

  lemma DropEntry(m: map<string, Doc>, d: string)
    requires d != INDEX
    ensures RefsIn(WithoutEntry(m, d)) == RefsIn(m) - {d}
  {
    var m' := WithoutEntry(m, d);
    RetainMembers(IndexOf(m), d);
    assert IndexOf(m') == Retain(IndexOf(m), d);
    hide Retain;
    assert !Counts(m'[INDEX]);
    assert INDEX in m && Counts(m[INDEX]) ==> IndexOf(m) == [];
  }

  lemma RemoveRefcountLoads(b: Disk, d: string)
    requires IsChunkDigest(d)
    ensures var o := RemoveRefcount(b, d);
            && OnlyIn(b, o.s, Refcounts)
            && (RefsIn(o.s.refcounts) == RefsIn(b.refcounts) || RefsIn(o.s.refcounts) == RefsIn(b.refcounts) - {d})
  {
    DigestIsNotIndex(d);
    hide RemoveEntry, RefsIn, WithoutEntry;
    RemoveEntryAny(b, Refcounts, d);
    DropRecord(b.refcounts, d);
    DropEntry(b.refcounts, d);
  }

  // ----- Steps

  lemma BlobStepGuarded(cfg: Cfg, s: State, data: Bytes, held: multiset<string>)
    requires Guarded(cfg, s, held) && LawfulCodec(cfg) && InPlay(cfg, data) && Encode(cfg, data).Some?
    ensures Guarded(cfg, BlobStep(s, DigestHex(cfg, data), Encode(cfg, data).value).s, held)
  {
    hide RefsIn, Tabled;
    var d, blob := DigestHex(cfg, data), Encode(cfg, data).value;
    BlobStepEffect(s, d, blob);
    var s' := BlobStep(s, d, blob).s;
    assert BlobsGood(cfg, s'.disk.blobs);
  }

  lemma TabledSet(cfg: Cfg, refs: map<string, ChunkRef>, d: string, r: ChunkRef, held: multiset<string>)
    requires Tabled(cfg, refs, held) && Known(cfg, d) && SizeFits(cfg, d, r.size) && held[d] <= r.count
    ensures Tabled(cfg, refs[d := r], held)
    ensures held[d] < r.count ==> Tabled(cfg, refs[d := r], held + multiset{d})
  {
    assert forall x :: (held + multiset{d})[x] == held[x] + if x == d then 1 else 0;
  }

  lemma TabledDrop(cfg: Cfg, refs: map<string, ChunkRef>, d: string, held: multiset<string>)
    requires Tabled(cfg, refs, held) && held[d] == 0
    ensures Tabled(cfg, refs - {d}, held)
  {
  }

  /** The new count covers one more holding than before; a cut save leaves the
      loaded count as it was or raises it. */
  lemma CountStepGuarded(cfg: Cfg, s: State, d: string, held: multiset<string>)
    requires Guarded(cfg, s, held) && Known(cfg, d) && IsChunkDigest(d) && d in s.disk.blobs
    ensures var o := CountStep(s, d, |cfg.plain(d)|);
            && SameFamilies(s, o.s)
            && Guarded(cfg, o.s, if o.Done? then held + multiset{d} else held)
  {
    assert d in s.refs ==> SizeFits(cfg, d, s.refs[d].size);
    assert Increment(s.refs, d, |cfg.plain(d)|).Ok?;
    var r := Increment(s.refs, d, |cfg.plain(d)|).value;
    assert r.count == Count(s.refs, d) + 1 && SizeFits(cfg, d, r.size);
    assert held[d] <= Count(s.refs, d);
    hide SaveRefcount, RefsIn, BlobsGood, IsChunkDigest, Increment, Tabled, Known, SizeFits;
    SaveRefcountLoads(s.disk, d, r.count, r.size);
    TabledSet(cfg, s.refs, d, r, held);
    TabledSet(cfg, RefsIn(s.disk.refcounts), d, r, held);
  }

  lemma StoreChunkGuarded(cfg: Cfg, s: State, data: Bytes, held: multiset<string>)
    requires Guarded(cfg, s, held) && LawfulCodec(cfg) && InPlay(cfg, data)
    ensures var d := DigestHex(cfg, data);
            var o := StoreChunk(cfg, s, d, data);
            && SameFamilies(s, o.s)
            && Guarded(cfg, o.s, if o.Done? then held + multiset{d} else held)
  {
    if Encode(cfg, data).Some? {
      var d, blob := DigestHex(cfg, data), Encode(cfg, data).value;
      hide Guarded, BlobStep, CountStep, LawfulCodec, IsChunkDigest;
      BlobStepEffect(s, d, blob);
      BlobStepGuarded(cfg, s, data, held);
      var o1 := BlobStep(s, d, blob);
      if o1.Done? {
        CountStepGuarded(cfg, o1.s, d, held);
        var o2 := CountStep(o1.s, d, |data|);
        if o2.Done? {
          GuardedStats(cfg, o2.s, StatsStep(o2.s, o1.v, |data|), held + multiset{d});
        }
      }
    }
  }

  lemma GuardedStats(cfg: Cfg, s: State, s': State, held: multiset<string>)
    requires Guarded(cfg, s, held) && s'.refs == s.refs
    requires s'.disk.blobs == s.disk.blobs && s'.disk.refcounts == s.disk.refcounts
    ensures Guarded(cfg, s', held)
  {
  }

  lemma DecrementTabled(cfg: Cfg, refs: map<string, ChunkRef>, d: string, held: multiset<string>)
    requires Tabled(cfg, refs, held + multiset{d}) && d in refs
    ensures Tabled(cfg, Decrement(refs, d), held) && Tabled(cfg, refs, held)
  {
    assert forall x :: (held + multiset{d})[x] == held[x] + if x == d then 1 else 0;
  }

  lemma DecrementGuarded(cfg: Cfg, s: State, d: string, held: multiset<string>)
    requires Guarded(cfg, s, held + multiset{d}) && d in s.refs
    ensures Guarded(cfg, s.(refs := Decrement(s.refs, d)), held)
  {
    GuardedLess(cfg, s, held + multiset{d}, held);
    hide RefsIn, BlobsGood, Tabled, Decrement, AllThere;
    DecrementTabled(cfg, s.refs, d, held);
  }

  lemma GuardedRecord(cfg: Cfg, s: State, b: Disk, held: multiset<string>)
    requires Guarded(cfg, s, held) && OnlyIn(s.disk, b, Refcounts) && Tabled(cfg, RefsIn(b.refcounts), held)
    ensures Guarded(cfg, s.(disk := b), held)
  {
    hide RefsIn, Tabled, BlobsGood, AllThere;
  }

  lemma UnlinkGuarded(cfg: Cfg, s: State, d: string, held: multiset<string>)
    requires Guarded(cfg, s, held) && held[d] == 0
    ensures Guarded(cfg, s.(disk := DeleteBlob(s.disk, d).s), held)
  {
    hide RefsIn, Tabled;
  }

  /** Rewriting the count of a chunk that is still counted. */
  lemma KeepGuarded(cfg: Cfg, s: State, d: string, size: nat, held: multiset<string>)
    requires Guarded(cfg, s, held) && Known(cfg, d) && IsChunkDigest(d) && d in s.refs && SizeFits(cfg, d, size)
    ensures var o := Settle(s, d, size);
            SameFamilies(s, o.s) && Guarded(cfg, o.s, held)
  {
    assert held[d] <= Count(s.refs, d);
    hide SaveRefcount, RefsIn, IsChunkDigest, Tabled, Known, Guarded, SizeFits;
    var r := ChunkRef(s.refs[d].count, size);
    var b := SaveRefcount(s.disk, d, r.count, r.size).s;
    SaveRefcountLoads(s.disk, d, r.count, r.size);
    assert Tabled(cfg, RefsIn(s.disk.refcounts), held) by { GuardedTable(cfg, s, held); }
    TabledSet(cfg, RefsIn(s.disk.refcounts), d, r, held);
    GuardedRecord(cfg, s, b, held);
  }

  lemma GuardedTable(cfg: Cfg, s: State, held: multiset<string>)
    requires Guarded(cfg, s, held)
    ensures Tabled(cfg, RefsIn(s.disk.refcounts), held)
    ensures forall d :: held[d] <= Count(s.refs, d)
  {
  }

  /** Dropping a chunk that nothing holds: blob, record, index entry. */
  lemma DropGuarded(cfg: Cfg, s: State, d: string, size: nat, held: multiset<string>)
    requires Guarded(cfg, s, held) && IsChunkDigest(d) && d !in s.refs
    ensures var o := Settle(s, d, size);
            SameFamilies(s, o.s) && Guarded(cfg, o.s, held)
  {
    GuardedTable(cfg, s, held);
    assert held[d] <= Count(s.refs, d);
    hide RemoveRefcount, RefsIn, IsChunkDigest, Tabled, Guarded, Monus;
    TabledDrop(cfg, RefsIn(s.disk.refcounts), d, held);
    UnlinkGuarded(cfg, s, d, held);
    var o1 := DeleteBlob(s.disk, d);
    if o1.Done? {
      RemoveRefcountLoads(o1.s, d);
      var b2 := RemoveRefcount(o1.s, d).s;
      GuardedRecord(cfg, s.(disk := o1.s), b2, held);
      GuardedStats(cfg, s.(disk := b2), Settle(s, d, size).s, held);
    }
  }

  /** A blob is unlinked only when nothing holds it, and the saved count still
      covers the holdings; this is so wherever the step stops. */
  lemma SettleGuarded(cfg: Cfg, s: State, d: string, size: nat, held: multiset<string>)
    requires Guarded(cfg, s, held) && Known(cfg, d) && IsChunkDigest(d) && SizeFits(cfg, d, size)
    ensures var o := Settle(s, d, size);
            SameFamilies(s, o.s) && Guarded(cfg, o.s, held)
  {
    hide Settle, Guarded, IsChunkDigest;
    if d in s.refs {
      KeepGuarded(cfg, s, d, size, held);
    } else {
      DropGuarded(cfg, s, d, size, held);
    }
  }

  lemma HeldIsCounted(cfg: Cfg, s: State, held: multiset<string>, d: string)
    requires Guarded(cfg, s, held) && held[d] > 0
    ensures d in s.refs && d in s.disk.blobs && SizeFits(cfg, d, s.refs[d].size)
    ensures Known(cfg, d) && IsChunkDigest(d) && BlobsGood(cfg, s.disk.blobs)
  {
    hide RefsIn, Hex;
    assert held[d] <= Count(s.refs, d);
    var x := DigestHex(cfg, cfg.plain(d));
  }

  lemma ChunkSizeFits(cfg: Cfg, s: State, d: string)
    requires BlobsGood(cfg, s.disk.blobs) && IsChunkDigest(d) && d in s.disk.blobs
    requires d in s.refs && SizeFits(cfg, d, s.refs[d].size)
    ensures var o := ChunkSize(cfg, s, d);
            && o.s == s.(disk := s.disk.(plan := o.s.disk.plan))
            && (o.Done? ==> SizeFits(cfg, d, o.v))
  {
  }

  lemma ReleaseOneGuarded(cfg: Cfg, s: State, d: string, held: multiset<string>)
    requires Guarded(cfg, s, held + multiset{d})
    ensures var o := ReleaseOne(cfg, s, d);
            SameFamilies(s, o.s) && Guarded(cfg, o.s, held)
  {
    HeldIsCounted(cfg, s, held + multiset{d}, d);
    hide Guarded, BlobsGood, Known, IsChunkDigest, ChunkSize, Settle, Decrement, SizeFits;
    ChunkSizeFits(cfg, s, d);
    var o1 := ChunkSize(cfg, s, d);
    GuardedStats(cfg, s, o1.s, held + multiset{d});
    GuardedLess(cfg, o1.s, held + multiset{d}, held);
    if o1.Done? {
      RestGuarded(cfg, o1.s, d, o1.v, held);
    }
  }

  lemma RestGuarded(cfg: Cfg, s: State, d: string, size: nat, held: multiset<string>)
    requires Guarded(cfg, s, held + multiset{d}) && d in s.refs
    requires Known(cfg, d) && IsChunkDigest(d) && SizeFits(cfg, d, size)
    ensures var o := Settle(s.(refs := Decrement(s.refs, d)), d, size);
            && SameFamilies(s, o.s)
            && forall t: State :: t == o.s.(stats := t.stats) ==> Guarded(cfg, t, held)
  {
    hide Guarded, Known, IsChunkDigest, Settle, Decrement;
    DecrementGuarded(cfg, s, d, held);
    var s2 := s.(refs := Decrement(s.refs, d));
    SettleGuarded(cfg, s2, d, size, held);
    var o := Settle(s2, d, size);
    forall t: State | t == o.s.(stats := t.stats) ensures Guarded(cfg, t, held) {
      GuardedStats(cfg, o.s, t, held);
    }
  }

  lemma {:induction false} AcceptAllGuarded(cfg: Cfg, s: State, chunks: seq<Bytes>, held: multiset<string>)
    requires Guarded(cfg, s, held) && LawfulCodec(cfg) && AllInPlay(cfg, chunks)
    ensures var o := AcceptAll(cfg, s, chunks);
            && SameFamilies(s, o.s)
            && Guarded(cfg, o.s, if o.Done? then held + multiset(o.v) else held)
            && (o.Done? ==> AllDigests(o.v))
    decreases |chunks|
  {
    hide Guarded, StoreChunk, LawfulCodec, InPlay, IsChunkDigest;
    if chunks == [] {
      assert held + multiset(AcceptAll(cfg, s, chunks).v) == held;
    } else {
      assert InPlay(cfg, chunks[0]);
      var d := DigestHex(cfg, chunks[0]);
      StoreChunkGuarded(cfg, s, chunks[0], held);
      var o1 := StoreChunk(cfg, s, d, chunks[0]);
      if o1.Done? {
        AcceptAllGuarded(cfg, o1.s, chunks[1..], held + multiset{d});
        var o2 := AcceptAll(cfg, o1.s, chunks[1..]);
        if o2.Done? {
          PendingCons(held, d, o2.v);
        } else {
          GuardedLess(cfg, o2.s, held + multiset{d}, held);
        }
      }
    }
  }

  lemma {:induction false} ReleaseAllGuarded(cfg: Cfg, s: State, digests: seq<string>, held: multiset<string>)
    requires Guarded(cfg, s, held + multiset(digests))
    ensures var o := ReleaseAll(cfg, s, digests);
            SameFamilies(s, o.s) && Guarded(cfg, o.s, held)
    decreases |digests|
  {
    hide Guarded, ReleaseOne;
    if digests == [] {
      assert held + multiset(digests) == held;
    } else {
      PendingSplit(held, digests);
      ReleaseOneGuarded(cfg, s, digests[0], held + multiset(digests[1..]));
      var o1 := ReleaseOne(cfg, s, digests[0]);
      if o1.Done? {
        ReleaseAllGuarded(cfg, o1.s, digests[1..], held);
      } else {
        GuardedLess(cfg, o1.s, held + multiset(digests[1..]), held);
      }
    }
  }

  lemma TabledExactly(cfg: Cfg, refs: map<string, ChunkRef>, blobs: map<string, Bytes>, held: multiset<string>)
    requires Backed(cfg, refs, blobs) && forall d :: held[d] + multiset{}[d] == Count(refs, d)
    ensures Tabled(cfg, refs, held) && AllThere(held, blobs)
  {
    forall d | d in held ensures d in blobs {
      assert Count(refs, d) > 0;
    }
    forall d ensures held[d] <= Count(refs, d) {
      assert held[d] + multiset{}[d] == Count(refs, d);
    }
  }
}
