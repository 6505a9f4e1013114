/** A store on which a repair tears the backend: the delete of a file that alone
    holds the empty chunk stops before it unlinks the blob. */
module EmptyChunks {
  import opened Types
  import opened Hashing
  import opened DiskSpec
  import opened StoreSpec
  import opened Counting
  import opened Records
  import opened Invariants
  import opened ExactOps
  import opened ExactRelease
  import opened Refinement
  import opened Opening
  import opened Reopen
  import opened Vault
  import opened Salvage
  import opened FaultRuns
  import opened FsckLaws
  import opened Repairs
  import opened Recovery

  /** The file holds the empty chunk once, and no other file does. */
  ghost predicate HoldsEmpty(cfg: Cfg, files: map<string, FileRec>, id: string, d: string) {
    && id in files && files[id].digests == [d] && cfg.plain(d) == []
    && AllRefs(files - {id})[d] == 0
  }

  /** The process stops at the fifth backend call of the delete. */
  function StoppedDelete(cfg: Cfg, s: State, id: string): State {
    var t := Delete(cfg, s.(disk := s.disk.(plan := After(4))), id).s;
    t.(disk := t.disk.(plan := Never))
  }

  lemma CountedOnce(cfg: Cfg, s: State, id: string, d: string)
    requires Consistent(cfg, s, multiset{}) && HoldsEmpty(cfg, s.files, id, d)
    ensures d in s.refs && s.refs[d] == ChunkRef(1, 0)
    ensures d in s.disk.blobs && Decode(cfg, s.disk.blobs[d]).Some? && IsChunkDigest(d)
  {
    UnlinkedHoldings(s.files, id);
    assert multiset(s.files[id].digests) == multiset{d};
    assert AllRefs(s.files)[d] + multiset{}[d] == Count(s.refs, d);
    hide AllRefs, Persisted, IsChunkDigest;
    var x := DigestHex(cfg, cfg.plain(d));
  }

  lemma StoppedRelease(cfg: Cfg, s: State, d: string)
    requires s.disk.plan == After(1) && d in s.refs && s.refs[d] == ChunkRef(1, 0)
    requires d in s.disk.blobs && Decode(cfg, s.disk.blobs[d]).Some?
    ensures var t := ReleaseAll(cfg, s, [d]).s;
            t == s.(refs := s.refs - {d}, disk := s.disk.(plan := After(0)))
  {
    hide RemoveRefcount, Monus, Decode;
  }

  lemma StoppedAtUnlink(cfg: Cfg, s: State, id: string, d: string)
    requires IndexReadable(s.disk.manifests) && id != INDEX && s.disk.plan.Never?
    requires id in s.files && s.files[id].digests == [d] && d in s.refs && s.refs[d] == ChunkRef(1, 0)
    requires d in s.disk.blobs && Decode(cfg, s.disk.blobs[d]).Some?
    ensures StoppedDelete(cfg, s, id) ==
            s.(files := s.files - {id}, refs := s.refs - {d},
               disk := s.disk.(manifests := WithoutEntry(s.disk.manifests, id)))
  {
    var s0 := s.(disk := s.disk.(plan := After(4)));
    CutRemove(s.disk, id, 4);
    RemovePlan(s.disk, id);
    DeletePieces(cfg, s0, id);
    hide Delete, ReleaseAll, RemoveManifest, WithoutEntry, IndexReadable, Decode;
    var b := RemoveManifest(s0.disk, id).s;
    StoppedRelease(cfg, s0.(files := s.files - {id}, disk := b), d);
  }

  lemma RemovePlan(b: Disk, id: string)
    requires IndexReadable(b.manifests) && id != INDEX
    ensures RemoveManifest(b.(plan := After(4)), id).s.plan == After(1)
  {
    hide Retain;
  }

  /** What the delete leaves is in step, and the backend still counts the chunk. */
  lemma StoppedInStep(cfg: Cfg, s: State, id: string, d: string)
    requires Clean(cfg, s) && HoldsEmpty(cfg, s.files, id, d)
    ensures var t := StoppedDelete(cfg, s, id);
            && InStep(cfg, t) && Parses(t.disk) && d !in t.refs && IsChunkDigest(d) && t.disk.plan.Never?
            && d in t.disk.blobs && CountedEmpty(t.disk, d)
  {
    CountedOnce(cfg, s, id, d);
    FileIsNotIndex(cfg, s, id, multiset{});
    StoppedAtUnlink(cfg, s, id, d);
    UnlinkExact(cfg, s, id, multiset{});
    RemoveEntryEffect(s.disk, Manifests, id);
    ConsistentLoads(cfg, s, multiset{});
    var t := StoppedDelete(cfg, s, id);
    var u := s.(files := s.files - {id}, disk := RemoveManifest(s.disk, id).s);
    hide StoppedDelete, Decode, RemoveEntry, WithoutEntry, IndexReadable, IsChunkDigest, Consistent, RefsIn, AllRefs;
    hide InStep, FilesIn, Loadable, Sizable;
    ConsistentIsInStep(cfg, u, multiset{} + multiset(s.files[id].digests));
    SamePlanned(u.disk, t.disk);
    UncountedInStep(cfg, u, t, d);
  }

  lemma UncountedInStep(cfg: Cfg, u: State, t: State, d: string)
    requires InStep(cfg, u) && AllRefs(u.files)[d] == 0
    requires t == u.(refs := u.refs - {d}, disk := u.disk.(plan := t.disk.plan))
    ensures InStep(cfg, t)
  {
    SamePlanned(u.disk, t.disk);
    TabledDrop(cfg, u.refs, d, AllRefs(u.files));
    hide Salvageable, Torn, Tabled, AllRefs;
  }

  /** A check of that store, with repair, tears the backend, and `open` fails
      afterwards: the store reads every file it has, and loses them all. */
  lemma RepairTearsBackend(cfg: Cfg, s: State, id: string, d: string, live: seq<string>, names: seq<string>,
                           stale: seq<string>, order: seq<string>)
    requires Clean(cfg, s) && HoldsEmpty(cfg, s.files, id, d)
    requires IsListing(live, StoppedDelete(cfg, s, id).refs.Keys)
    requires IsNameListing(names, StoppedDelete(cfg, s, id).disk)
    requires var m := Fsck(StoppedDelete(cfg, s, id), true, live, Some(names)).s.disk.refcounts;
             IsStaleListing(stale, RefsIn(m)) && IsListing(order, RefsIn(m).Keys)
    ensures var t := StoppedDelete(cfg, s, id);
            var o := Fsck(t, true, live, Some(names));
            && InStep(cfg, t) && Serves(cfg, t, s.files - {id})
            && o.Done? && Torn(o.s.disk) && Open(cfg, o.s.disk, stale, order).Fail?
  {
    hide *;
    StoppedInStep(cfg, s, id, d);
    StoppedFiles(cfg, s, id, d);
    var t := StoppedDelete(cfg, s, id);
    InStepServes(cfg, t);
    FsckRepairs(t, true, live, names);
    FsckCut(cfg, t, true, live, Some(names));
    OrphanInWindow(t, d, live, names);
    FsckParses(t, live, names);
    TornStopsOpen(cfg, Fsck(t, true, live, Some(names)).s.disk, stale, order);
  }

  lemma StoppedFiles(cfg: Cfg, s: State, id: string, d: string)
    requires Clean(cfg, s) && HoldsEmpty(cfg, s.files, id, d)
    ensures StoppedDelete(cfg, s, id).files == s.files - {id}
  {
    CountedOnce(cfg, s, id, d);
    FileIsNotIndex(cfg, s, id, multiset{});
    StoppedAtUnlink(cfg, s, id, d);
  }

  lemma OrphanInWindow(t: State, d: string, live: seq<string>, names: seq<string>)
    requires IsListing(live, t.refs.Keys) && IsNameListing(names, t.disk) && t.disk.plan.Never?
    requires IsChunkDigest(d) && d in t.disk.blobs && d !in t.refs && CountedEmpty(t.disk, d)
    ensures RepairWindow(t, true, live, Some(names))
  {
    hide IsChunkDigest, OrphansAmong, CountedEmpty, IsStored, DigestsOnce, NoDup;
    OrphansAmongFacts(names, live);
    DigestNamesAreBlobs(t.disk, d);
    var orphans := OrphansAmong(names, live);
    assert d in orphans;
    var i :| 0 <= i < |orphans| && orphans[i] == d;
    assert Unlinks(t.disk.plan, live, i);
  }

  lemma FsckParses(t: State, live: seq<string>, names: seq<string>)
    requires Parses(t.disk) && t.disk.plan.Never? && IsListing(live, t.refs.Keys) && IsNameListing(names, t.disk)
    ensures var b := Fsck(t, true, live, Some(names)).s.disk;
            Parses(b) && b.plan.Never?
  {
    hide Fsck, Parses, OrphansAmong, IsNameListing, IsListing;
    FsckUnlinks(t, true, live, Some(names));
    UnlinkedParses(t.disk, Fsck(t, true, live, Some(names)).s.disk, OrphansAmong(names, live));
    FsckRepairs(t, true, live, names);
  }

  /** There is such a store: the one with a single file that consists of the
      empty chunk. */
  lemma OneEmptyChunk(cfg: Cfg, id: string)
    requires LawfulCodec(cfg) && Ingestible(cfg, [[]]) && ValidId(id)
    ensures var empty := State(map[], map[], Totals(0, 0, 0), Disk(map[], map[], map[], Never));
            var s := Ingest(cfg, empty, id, [[]]).s;
            Clean(cfg, s) && HoldsEmpty(cfg, s.files, id, DigestHex(cfg, []))
  {
    hide *;
    var empty := State(map[], map[], Totals(0, 0, 0), Disk(map[], map[], map[], Never));
    EmptyStoreIsClean(cfg);
    var chunks: seq<Bytes> := [[]];
    OneDigest(cfg, chunks);
    IngestRefines(cfg, empty, id, chunks);
    var s := Ingest(cfg, empty, id, chunks).s;
    OnlyFile(cfg, s.files, id, s.files[id]);
  }

  lemma OnlyFile(cfg: Cfg, files: map<string, FileRec>, id: string, rec: FileRec)
    requires files == map[id := rec] && rec.digests == [DigestHex(cfg, [])] && cfg.plain(DigestHex(cfg, [])) == []
    ensures HoldsEmpty(cfg, files, id, DigestHex(cfg, []))
  {
    hide Hex, DigestHex;
    assert files - {id} == map[];
  }

  lemma OneDigest(cfg: Cfg, chunks: seq<Bytes>)
    requires Ingestible(cfg, chunks) && chunks == [[]]
    ensures DigestsOf(cfg, chunks) == [DigestHex(cfg, [])] && cfg.plain(DigestHex(cfg, [])) == []
  {
    hide Encodable, Hex;
    assert InPlay(cfg, chunks[0]);
  }
}
