/** Steps of other operations within a turn of `release_digests`, which looks up
    the size, decrements under the lock, and then saves or unlinks with no lock. */
module ReleaseRaces {
  import opened Types
  import opened Hashing
  import opened DiskSpec
  import opened StoreSpec
  import opened Counting
  import opened Records
  import opened Invariants
  import opened ExactOps
  import opened Opening
  import opened Reopen
  import opened Vault
  import opened Salvage
  import opened Families

  // ----- Stores of the chunk within the turn

  /** The end of a turn that drops the chunk, once the blob is unlinked. */
  function DropCount(s: State, d: string, size: nat): Out<State, ()> {
    var (s1, _) :- Lift(s, RemoveRefcount(s.disk, d));
    Done(s1.(stats := s1.stats.(stored := Monus(s1.stats.stored, size), gc := s1.stats.gc + 1)), ())
  }

  /** What is left of a turn once the lock is released; `remaining` is what the
      decrement returned. */
  function FinishRelease(s: State, d: string, remaining: nat, size: nat): Out<State, ()> {
    if remaining > 0 then
      Lift(s, SaveRefcount(s.disk, d, remaining, size))
    else
      var (s1, _) :- Lift(s, DeleteBlob(s.disk, d));
      DropCount(s1, d, size)
  }

  /** References counted, and persisted, by `n` sessions. */
  function CountTimes(s: State, d: string, size: nat, n: nat): Out<State, ()>
    decreases n
  {
    if n == 0 then Done(s, ()) else
    var (s1, _) :- CountStep(s, d, size);
    CountTimes(s1, d, size, n - 1)
  }

  /** The blob put by a session, if there is one. */
  function PutAgain(s: State, d: string, blob: Option<Bytes>): Out<State, ()> {
    match blob
    case None => Done(s, ())
    case Some(data) =>
      var (s1, _) :- BlobStep(s, d, data);
      Done(s1, ())
  }

  /** A turn with `n` counts of the chunk between the decrement and the save or
      the unlinking; and between the unlinking and the removal of the count, if
      the turn comes to that, a put and `k` more counts. */
  function LateRelease(s: State, d: string, n: nat, blob: Option<Bytes>, k: nat): Out<State, ()>
    requires d in s.refs
  {
    var r := s.refs[d];
    var (s1, _) :- CountTimes(s.(refs := Decrement(s.refs, d)), d, r.size, n);
    if r.count > 1 then FinishRelease(s1, d, r.count - 1, r.size) else
    var (s2, _) :- Lift(s1, DeleteBlob(s1.disk, d));
    var (s3, _) :- PutAgain(s2, d, blob);
    var (s4, _) :- CountTimes(s3, d, r.size, k);
    DropCount(s4, d, r.size)
  }

  /** When nothing runs in between it is the rest of the turn. */
  lemma LateIsSettle(s: State, d: string)
    requires d in s.refs
    ensures var s1 := s.(refs := Decrement(s.refs, d));
            && LateRelease(s, d, 0, None, 0) == FinishRelease(s1, d, s.refs[d].count - 1, s.refs[d].size)
            && FinishRelease(s1, d, s.refs[d].count - 1, s.refs[d].size) == Settle(s1, d, s.refs[d].size)
  {
    hide SaveRefcount, RemoveRefcount, Monus;
  }

  lemma SaveRefcountDone(b: Disk, d: string, count: Pos, size: nat)
    requires b.plan.Never? && RefcountsParse(b.refcounts) && IsChunkDigest(d)
    ensures var o := SaveRefcount(b, d, count, size);
            && o.Done? && o.s == b.(refcounts := o.s.refcounts) && RefcountsParse(o.s.refcounts)
            && RefsIn(o.s.refcounts) == RefsIn(b.refcounts)[d := ChunkRef(count, size)]
  {
    DigestIsNotIndex(d);
    assert IndexReadable(b.refcounts);
    hide SaveEntry, RefsIn, RefcountsParse, IsChunkDigest, Torn, WithEntry, IndexReadable;
    SaveEntryEffect(b, Refcounts, d, CountSize(count, size));
    SaveRefcountKeeps(b, d, count, size);
    SaveRefcountLoads(b, d, count, size);
  }

  lemma CountOnceEffect(s: State, d: string, size: nat)
    requires s.disk.plan.Never? && RefcountsParse(s.disk.refcounts) && IsChunkDigest(d)
    requires d in s.refs ==> s.refs[d].size == size
    ensures var o := CountStep(s, d, size);
            var r := ChunkRef(Count(s.refs, d) + 1, size);
            && o.Done? && o.s == s.(refs := s.refs[d := r], disk := s.disk.(refcounts := o.s.disk.refcounts))
            && RefcountsParse(o.s.disk.refcounts)
            && RefsIn(o.s.disk.refcounts) == RefsIn(s.disk.refcounts)[d := r]
  {
    hide RefsIn, RefcountsParse, IsChunkDigest, SaveRefcount;
    var r := ChunkRef(Count(s.refs, d) + 1, size);
    assert StoreSpec.Increment(s.refs, d, size) == Ok(r);
    SaveRefcountDone(s.disk, d, r.count, r.size);
  }

  /** Without a race in between, the backend's count follows the one in memory. */
  lemma {:induction false} CountTimesEffect(s: State, d: string, size: nat, n: nat)
    requires s.disk.plan.Never? && RefcountsParse(s.disk.refcounts) && IsChunkDigest(d)
    requires d in s.refs ==> s.refs[d].size == size
    ensures var o := CountTimes(s, d, size, n);
            var r := ChunkRef(Count(s.refs, d) + n + (if n == 0 then 1 else 0), size);
            && o.Done? && o.s == s.(refs := o.s.refs, disk := s.disk.(refcounts := o.s.disk.refcounts))
            && RefcountsParse(o.s.disk.refcounts)
            && o.s.refs == (if n == 0 then s.refs else s.refs[d := r])
            && RefsIn(o.s.disk.refcounts) ==
               (if n == 0 then RefsIn(s.disk.refcounts) else RefsIn(s.disk.refcounts)[d := r])
    decreases n
  {
    hide RefsIn, RefcountsParse, IsChunkDigest, CountStep;
    if n > 0 {
      CountOnceEffect(s, d, size);
      CountTimesEffect(CountStep(s, d, size).s, d, size, n - 1);
    }
  }

  lemma DropCountEffect(s: State, d: string, size: nat)
    requires s.disk.plan.Never? && RefcountsParse(s.disk.refcounts) && IsChunkDigest(d)
    ensures var o := DropCount(s, d, size);
            && o.Done? && o.s.refs == s.refs && o.s.files == s.files && o.s.disk.blobs == s.disk.blobs
            && RefsIn(o.s.disk.refcounts) == RefsIn(s.disk.refcounts) - {d}
  {
    DigestIsNotIndex(d);
    assert IndexReadable(s.disk.refcounts);
    hide RefsIn, RefcountsParse, IsChunkDigest, RemoveEntry, WithoutEntry, IndexReadable, Monus;
    RemoveEntryEffect(s.disk, Refcounts, d);
    DropEntry(s.disk.refcounts, d);
  }

  lemma SaveEffect(s: State, d: string, remaining: Pos, size: nat)
    requires s.disk.plan.Never? && RefcountsParse(s.disk.refcounts) && IsChunkDigest(d)
    ensures var o := FinishRelease(s, d, remaining, size);
            && o.Done? && o.s == s.(disk := s.disk.(refcounts := o.s.disk.refcounts))
            && RefsIn(o.s.disk.refcounts) == RefsIn(s.disk.refcounts)[d := ChunkRef(remaining, size)]
  {
    hide RefsIn, RefcountsParse, IsChunkDigest, SaveRefcount, DropCount;
    SaveRefcountDone(s.disk, d, remaining, size);
  }

  lemma OverwrittenCounts(refs: map<string, ChunkRef>, loaded: map<string, ChunkRef>, d: string, x: ChunkRef)
    requires d in refs && refs[d].count > 1 && (loaded == refs || loaded == refs[d := x])
    ensures loaded[d := ChunkRef(refs[d].count - 1, refs[d].size)] == Decrement(refs, d)
  {
  }

  lemma RaisedCounts(refs: map<string, ChunkRef>, d: string, r: ChunkRef)
    requires r.count > Count(refs, d)
    ensures refs[d := r] != refs && Count(refs[d := r], d) == r.count
  {
    assert refs[d := r][d] == r;
  }

  lemma LeftUncovered(files: map<string, FileRec>, refs: map<string, ChunkRef>, d: string, n: nat,
                      pending: multiset<string>)
    requires Counted(files, refs, pending + multiset{d}) && d in refs
    ensures Covers(files, Decrement(refs, d), pending + Repeat(d, n)) <==> n == 0
  {
    hide AllRefs;
    forall x ensures AllRefs(files)[x] + pending[x] == Count(Decrement(refs, d), x) {
      assert AllRefs(files)[x] + (pending + multiset{d})[x] == Count(refs, x);
    }
    if n > 0 {
      assert AllRefs(files)[d] + (pending + Repeat(d, n))[d] > Count(Decrement(refs, d), d);
    }
  }

  /** The last reference: blob and count go, whatever sessions do in between. */
  lemma LateDrop(s: State, d: string, n: nat, blob: Option<Bytes>, k: nat)
    requires s.disk.plan.Never? && RefcountsParse(s.disk.refcounts) && IsChunkDigest(d)
    requires d in s.refs && s.refs[d].count == 1
    ensures var o := LateRelease(s, d, n, blob, k);
            && o.Done? && o.s.files == s.files
            && o.s.refs == (if n + k == 0 then s.refs - {d} else s.refs[d := ChunkRef(n + k, s.refs[d].size)])
            && RefsIn(o.s.disk.refcounts) == RefsIn(s.disk.refcounts) - {d}
            && (d in o.s.disk.blobs <==> blob.Some?)
  {
    hide RefsIn, RefcountsParse, IsChunkDigest, CountTimes, DropCount, FinishRelease, PutAgain, LateRelease;
    var size := s.refs[d].size;
    var s0 := s.(refs := s.refs - {d});
    CountTimesEffect(s0, d, size, n);
    var s1 := CountTimes(s0, d, size, n).s;
    DropPieces(s, s1, d, n, blob, k);
    UnlinkAndPut(s1, d, blob);
    var s3 := UnlinkedAgain(s1, d, blob);
    CountTimesEffect(s3, d, size, k);
    DropCountEffect(CountTimes(s3, d, size, k).s, d, size);
  }

  /** The blob is unlinked, and put again by a session. */
  function UnlinkedAgain(s: State, d: string, blob: Option<Bytes>): State {
    PutAgain(s.(disk := s.disk.(blobs := s.disk.blobs - {d})), d, blob).s
  }

  lemma UnlinkAndPut(s: State, d: string, blob: Option<Bytes>)
    requires s.disk.plan.Never?
    ensures var o := PutAgain(s.(disk := s.disk.(blobs := s.disk.blobs - {d})), d, blob);
            && o.Done? && o.s == UnlinkedAgain(s, d, blob) && o.s == s.(disk := s.disk.(blobs := o.s.disk.blobs))
            && (d in o.s.disk.blobs <==> blob.Some?)
  {
  }

  lemma DropPieces(s: State, s1: State, d: string, n: nat, blob: Option<Bytes>, k: nat)
    requires d in s.refs && s.refs[d].count == 1 && s1.disk.plan.Never?
    requires var o := CountTimes(s.(refs := s.refs - {d}), d, s.refs[d].size, n); o.Done? && o.s == s1
    ensures var s2 := s1.(disk := s1.disk.(blobs := s1.disk.blobs - {d}));
            var o := PutAgain(s2, d, blob);
            o.Done? && CountTimes(o.s, d, s.refs[d].size, k).Done? ==>
              LateRelease(s, d, n, blob, k) == DropCount(CountTimes(o.s, d, s.refs[d].size, k).s, d, s.refs[d].size)
  {
    hide CountTimes, DropCount, FinishRelease, PutAgain;
  }

  /** `release_digests` saves, or drops, what the decrement left, outside the
      lock. References counted in between are in memory, but the record that they
      saved is overwritten or removed. So the counts on the backend are those in
      memory, and cover the references, if and only if nothing was counted in
      between. With the last older reference the blob goes too, and is there
      again only if a session puts it between that and the removal of the
      count. */
  lemma CountBetweenDecrementAndSave(cfg: Cfg, s: State, d: string, n: nat, blob: Option<Bytes>, k: nat,
                                     pending: multiset<string>)
    requires Consistent(cfg, s, pending + multiset{d}) && s.disk.plan.Never?
    requires Count(s.refs, d) > 1 ==> blob.None? && k == 0
    ensures d in s.refs
    ensures var o := LateRelease(s, d, n, blob, k);
            && o.Done? && Count(o.s.refs, d) == Count(s.refs, d) - 1 + n + k
            && RefsIn(o.s.disk.refcounts) == Decrement(s.refs, d)
            && (o.s.refs == RefsIn(o.s.disk.refcounts) <==> n + k == 0)
            && (Covers(s.files, RefsIn(o.s.disk.refcounts), pending + Repeat(d, n + k)) <==> n + k == 0)
            && (d in o.s.disk.blobs <==> Count(s.refs, d) > 1 || blob.Some?)
  {
    hide *;
    ReleaseFacts(cfg, s, d, pending);
    var r, refs := s.refs[d], Decrement(s.refs, d);
    LeftUncovered(s.files, s.refs, d, n + k, pending);
    CountIs(s.refs, d);
    if r.count == 1 {
      LateDrop(s, d, n, blob, k);
      DroppedCounts(s.refs, d, n + k);
    } else {
      var s0 := s.(refs := refs);
      LatePieces(s, d, n, blob, k);
      CountTimesEffect(s0, d, r.size, n);
      var s1 := CountTimes(s0, d, r.size, n).s;
      SaveEffect(s1, d, r.count - 1, r.size);
      var x := ChunkRef(Count(refs, d) + n + (if n == 0 then 1 else 0), r.size);
      OverwrittenCounts(s.refs, RefsIn(s1.disk.refcounts), d, x);
      RaisedCounts(refs, d, x);
    }
  }

  lemma CountIs(refs: map<string, ChunkRef>, d: string)
    requires d in refs
    ensures Count(refs, d) == refs[d].count
  {
  }

  lemma DroppedCounts(refs: map<string, ChunkRef>, d: string, n: nat)
    requires d in refs && refs[d].count == 1
    ensures Decrement(refs, d) == refs - {d} && Count(refs - {d}, d) == 0
    ensures n > 0 ==> refs[d := ChunkRef(n, refs[d].size)] != refs - {d} &&
                      Count(refs[d := ChunkRef(n, refs[d].size)], d) == n
  {
    assert n > 0 ==> d in refs[d := ChunkRef(n, refs[d].size)];
  }

  lemma ReleaseFacts(cfg: Cfg, s: State, d: string, pending: multiset<string>)
    requires Consistent(cfg, s, pending + multiset{d})
    ensures Counted(s.files, s.refs, pending + multiset{d})
    ensures d in s.refs && d in s.disk.blobs && IsChunkDigest(d)
    ensures RefcountsParse(s.disk.refcounts) && RefsIn(s.disk.refcounts) == s.refs
    ensures var refs := Decrement(s.refs, d);
            Count(refs, d) == s.refs[d].count - 1 && (d in refs ==> refs[d].size == s.refs[d].size)
  {
    PendingIsBacked(cfg, s, pending + multiset{d}, d);
    ConsistentLoads(cfg, s, pending + multiset{d});
    LoadableParses(s.disk.(plan := Never));
    hide Counted, Persisted, Backed, BlobsGood, FilesSized, RefsIn, FilesIn, Loadable, IsChunkDigest;
    hide RefcountsParse, ManifestsParse, Sizable, Known;
  }

  lemma LatePieces(s: State, d: string, n: nat, blob: Option<Bytes>, k: nat)
    requires d in s.refs && s.refs[d].count > 1
    ensures var o := CountTimes(s.(refs := Decrement(s.refs, d)), d, s.refs[d].size, n);
            o.Done? ==> LateRelease(s, d, n, blob, k) == FinishRelease(o.s, d, s.refs[d].count - 1, s.refs[d].size)
  {
    hide CountTimes, FinishRelease, Decrement, DropCount, PutAgain;
  }

  lemma DecrementCount(refs: map<string, ChunkRef>, d: string, x: string)
    requires d in refs
    ensures Count(Decrement(refs, d), x) + multiset{d}[x] == Count(refs, x)
  {
  }

  lemma ReleaseOneCounts(cfg: Cfg, s: State, d: string)
    ensures var o := ReleaseOne(cfg, s, d);
            o.Done? ==> d in s.refs && o.s.refs == Decrement(s.refs, d) && o.s.files == s.files
  {
    hide SaveRefcount, RemoveRefcount, Decode, Monus, Decrement;
  }

  /** Every turn of the loop takes one from the count, wherever it starts. */
  lemma {:induction false} ReleaseAllCounts(cfg: Cfg, s: State, digests: seq<string>)
    ensures var o := ReleaseAll(cfg, s, digests);
            o.Done? ==>
              && o.s.files == s.files
              && forall x :: Count(o.s.refs, x) + multiset(digests)[x] == Count(s.refs, x)
    decreases |digests|
  {
    hide ReleaseOne;
    if digests != [] {
      var d := digests[0];
      ReleaseOneCounts(cfg, s, d);
      var o := ReleaseOne(cfg, s, d);
      if o.Done? {
        ReleaseAllCounts(cfg, o.s, digests[1..]);
        assert digests == [d] + digests[1..];
        assert forall x :: multiset(digests)[x] == multiset{d}[x] + multiset(digests[1..])[x];
        hide Decrement;
        forall x ensures Count(Decrement(s.refs, d), x) + multiset{d}[x] == Count(s.refs, x) {
          DecrementCount(s.refs, d, x);
        }
      }
    }
  }
}
