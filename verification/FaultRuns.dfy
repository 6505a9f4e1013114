/** The file layer over the guarded chunks, and runs with faults. */
module FaultRuns {
  import opened Types
  import opened Hashing
  import opened DiskSpec
  import opened StoreSpec
  import opened Counting
  import opened Records
  import opened Invariants
  import opened ExactOps
  import opened Opening
  import opened Refinement
  import opened Reopen
  import opened Vault
  import opened FsckLaws

  /** Every manifest record on the backend, listed or not. */
  ghost function Manifested(m: map<string, Doc>): map<string, FileRec> {
    map f | f in m && m[f].ManifestDoc? :: RecordOf(m[f])
  }

  ghost predicate SameDigests(a: map<string, FileRec>, b: map<string, FileRec>, f: string) {
    f in a && f in b && a[f].digests == b[f].digests
  }

  /** Each manifest record names the digests of the manifest in memory, or is a
      stale record whose references are still counted. */
  ghost predicate Traced(files: map<string, FileRec>, stale: map<string, FileRec>, records: map<string, FileRec>) {
    forall f :: f in records ==> SameDigests(records, files, f) || SameDigests(records, stale, f)
  }

  ghost function Holdings(files: map<string, FileRec>, stale: map<string, FileRec>, pending: multiset<string>)
    : multiset<string>
  {
    AllRefs(files) + AllRefs(stale) + pending
  }

  /** The invariant of runs with faults. `stale` are the manifest records that
      memory has moved on from. */
  ghost predicate SafeWith(cfg: Cfg, s: State, stale: map<string, FileRec>, pending: multiset<string>) {
    && Guarded(cfg, s, Holdings(s.files, stale, pending))
    && Traced(s.files, stale, Manifested(s.disk.manifests))
  }

  ghost predicate Safe(cfg: Cfg, s: State) {
    exists stale :: SafeWith(cfg, s, stale, multiset{})
  }

  // ----- What can happen to the manifest records

  lemma SaveManifestAny(b: Disk, id: string, digests: seq<string>, fileBytes: nat)
    ensures var o := SaveManifest(b, id, digests, fileBytes);
            var rec := FileRec(digests, fileBytes);
            var was, now := Manifested(b.manifests), Manifested(o.s.manifests);
            && OnlyIn(b, o.s, Manifests)
            && (now == was || now == was[id := rec] || now == was[id := rec] - {INDEX})
            && (o.Done? ==> now == was[id := rec] || now == was[id := rec] - {INDEX})
  {
    var doc := ManifestDoc(digests, fileBytes);
    var m := b.manifests;
    hide SaveEntry, AllDigests, IndexOf;
    assert Manifested(m[id := doc]) == Manifested(m)[id := FileRec(digests, fileBytes)];
    if id == INDEX {
      hide Manifested;
      SaveOverIndex(b, doc);
    } else {
      assert Manifested(Appended(m[id := doc], id)) == Manifested(m[id := doc]) - {INDEX};
      hide Manifested, Appended;
      SaveEntryAny(b, Manifests, id, doc);
    }
  }

  /** A file whose id is the index name overwrites the index list, and its save
      never completes. */
  lemma SaveOverIndex(b: Disk, doc: Doc)
    requires !doc.List?
    ensures var o := SaveEntry(b, Manifests, INDEX, doc);
            && o.Fail? && OnlyIn(b, o.s, Manifests)
            && (o.s.manifests == b.manifests || o.s.manifests == b.manifests[INDEX := doc])
  {
  }

  lemma RemoveManifestAny(b: Disk, id: string)
    ensures var o := RemoveManifest(b, id);
            var was, now := Manifested(b.manifests), Manifested(o.s.manifests);
            && OnlyIn(b, o.s, Manifests)
            && (now == was || now == was - {id} || now == was - {id} - {INDEX})
            && (o.Done? ==> now == was - {id} || now == was - {id} - {INDEX})
  {
    var m := b.manifests;
    assert Manifested(m - {id}) == Manifested(m) - {id};
    var x := DeleteDoc(b, Manifests, id);
    hide Retain;
    if x.Done? {
      hide ReadList;
      ReadListAny(x.s, Manifests);
      var y := ReadList(x.s, Manifests);
      if y.Done? {
        assert Manifested((m - {id})[INDEX := List(Retain(y.v, id))]) == Manifested(m - {id}) - {INDEX};
      }
    }
  }

  // ----- Accounting for a manifest that changes

  /** The stale records once memory has a new manifest, or none, for the id but
      the backend record is as it was. */
  ghost function Outdated(files: map<string, FileRec>, stale: map<string, FileRec>, records: map<string, FileRec>,
                          id: string): map<string, FileRec> {
    if SameDigests(records, files, id) then stale[id := files[id]] else stale
  }

  lemma OutdatedHoldings(files: map<string, FileRec>, stale: map<string, FileRec>, records: map<string, FileRec>,
                         id: string)
    ensures AllRefs(files - {id}) + AllRefs(Outdated(files, stale, records, id)) <= AllRefs(files) + AllRefs(stale)
  {
    AllRefsWithout(files, id);
    if SameDigests(records, files, id) {
      AllRefsRemove(files, id);
      AllRefsInsert(stale, id, files[id]);
      AllRefsWithout(stale, id);
      hide AllRefs;
    }
  }

  lemma AllRefsWithout(files: map<string, FileRec>, id: string)
    ensures AllRefs(files - {id}) <= AllRefs(files)
  {
    if id in files {
      AllRefsRemove(files, id);
    } else {
      assert files - {id} == files;
    }
  }

  lemma OutdatedTraced(files: map<string, FileRec>, files': map<string, FileRec>, stale: map<string, FileRec>,
                       records: map<string, FileRec>, id: string)
    requires Traced(files, stale, records) && files' - {id} == files - {id}
    ensures Traced(files', Outdated(files, stale, records, id), records)
  {
    forall f | f in records
      ensures SameDigests(records, files', f) || SameDigests(records, Outdated(files, stale, records, id), f)
    {
      if f != id {
        assert f in files <==> f in files - {id};
        assert f in files' <==> f in files' - {id};
        assert f in files ==> files[f] == (files - {id})[f];
        assert f in files' ==> files'[f] == (files' - {id})[f];
      }
    }
  }

  /** Once the backend record is the one in memory, or gone, nothing stale is
      left of the id. */
  lemma RenewedTraced(files: map<string, FileRec>, files': map<string, FileRec>, stale: map<string, FileRec>,
                      records: map<string, FileRec>, records': map<string, FileRec>, id: string)
    requires Traced(files, stale, records) && files' - {id} == files - {id}
    requires forall f :: f in records' && f != id ==> f in records && records'[f] == records[f]
    requires id in records' ==> SameDigests(records', files', id)
    ensures Traced(files', stale - {id}, records')
  {
    forall f | f in records' ensures SameDigests(records', files', f) || SameDigests(records', stale - {id}, f) {
      if f != id {
        assert f in files <==> f in files - {id};
        assert f in files' <==> f in files' - {id};
        assert f in files ==> files[f] == (files - {id})[f];
        assert f in files' ==> files'[f] == (files' - {id})[f];
      }
    }
  }

  // ----- Operations, wherever they stop

  ghost function PreviousOf(files: map<string, FileRec>, id: string): multiset<string> {
    if id in files then multiset(files[id].digests) else multiset{}
  }

  lemma PublishHoldings(files: map<string, FileRec>, stale: map<string, FileRec>, records: map<string, FileRec>,
                        id: string, rec: FileRec, pending: multiset<string>)
    ensures Holdings(files[id := rec], Outdated(files, stale, records, id), pending) <=
            Holdings(files, stale, pending + multiset(rec.digests))
    ensures Holdings(files[id := rec], stale - {id}, pending + PreviousOf(files, id)) <=
            Holdings(files, stale, pending + multiset(rec.digests))
    ensures Holdings(files[id := rec], stale - {id}, pending) <=
            Holdings(files, stale, pending + multiset(rec.digests))
  {
    OutdatedHoldings(files, stale, records, id);
    AllRefsInsert(files, id, rec);
    AllRefsWithout(stale, id);
    AllRefsWithout(files, id);
    if id in files {
      AllRefsRemove(files, id);
    } else {
      assert files - {id} == files;
    }
    hide AllRefs, Outdated;
  }

  lemma PublishSafe(cfg: Cfg, s: State, id: string, digests: seq<string>, fileBytes: nat,
                    stale: map<string, FileRec>, pending: multiset<string>)
    returns (stale': map<string, FileRec>)
    requires SafeWith(cfg, s, stale, pending + multiset(digests)) && AllDigests(digests)
    ensures var o := Publish(s, id, digests, fileBytes);
            SafeWith(cfg, o.s, stale', if o.Done? then pending + PreviousOf(s.files, id) else pending)
  {
    hide Guarded, Traced, Holdings, SaveManifest, AllDigests, Manifested, Outdated;
    var held := Holdings(s.files, stale, pending + multiset(digests));
    if id == "" {
      stale' := stale;
      assert Holdings(s.files, stale, pending) <= held by { PendingLess(s.files, stale, pending, multiset(digests)); }
      GuardedLess(cfg, s, held, Holdings(s.files, stale, pending));
    } else {
      var rec := FileRec(digests, fileBytes);
      var o := Publish(s, id, digests, fileBytes);
      var was, now := Manifested(s.disk.manifests), Manifested(o.s.disk.manifests);
      SaveManifestAny(s.disk, id, digests, fileBytes);
      PublishHoldings(s.files, stale, was, id, rec, pending);
      GuardedStats(cfg, s, o.s, held);
      assert o.s.files - {id} == s.files - {id};
      if now == was[id := rec] || now == was[id := rec] - {INDEX} {
        stale' := stale - {id};
        RenewedTraced(s.files, o.s.files, stale, was, now, id);
      } else {
        stale' := Outdated(s.files, stale, was, id);
        OutdatedTraced(s.files, o.s.files, stale, was, id);
      }
      var released := if o.Done? then pending + PreviousOf(s.files, id) else pending;
      GuardedLess(cfg, o.s, held, Holdings(o.s.files, stale', released));
    }
  }

  lemma PendingLess(files: map<string, FileRec>, stale: map<string, FileRec>, pending: multiset<string>,
                    more: multiset<string>)
    ensures Holdings(files, stale, pending) <= Holdings(files, stale, pending + more)
  {
  }

  lemma CommitSafe(cfg: Cfg, s: State, id: string, digests: seq<string>, fileBytes: nat, stale: map<string, FileRec>)
    requires SafeWith(cfg, s, stale, multiset(digests)) && AllDigests(digests)
    ensures Safe(cfg, Commit(cfg, s, id, digests, fileBytes).s)
  {
    hide Guarded, Traced, Publish, ReleaseAll, AllDigests, Manifested;
    assert multiset{} + multiset(digests) == multiset(digests);
    var stale' := PublishSafe(cfg, s, id, digests, fileBytes, stale, multiset{});
    var o1 := Publish(s, id, digests, fileBytes);
    if o1.Done? {
      var previous := Previous(s, id);
      assert multiset(previous) == PreviousOf(s.files, id);
      ReleaseAllSafe(cfg, o1.s, previous, stale');
    }
  }

  lemma ReleaseAllSafe(cfg: Cfg, s: State, digests: seq<string>, stale: map<string, FileRec>)
    requires SafeWith(cfg, s, stale, multiset{} + multiset(digests))
    ensures Safe(cfg, ReleaseAll(cfg, s, digests).s)
  {
    hide Guarded, Traced, ReleaseAll, Manifested;
    var held := Holdings(s.files, stale, multiset{});
    assert Holdings(s.files, stale, multiset{} + multiset(digests)) == held + multiset(digests);
    ReleaseAllGuarded(cfg, s, digests, held);
    assert SafeWith(cfg, ReleaseAll(cfg, s, digests).s, stale, multiset{});
  }

  lemma IngestSafe(cfg: Cfg, s: State, id: string, chunks: seq<Bytes>)
    requires Safe(cfg, s) && LawfulCodec(cfg) && AllInPlay(cfg, chunks)
    ensures Safe(cfg, Ingest(cfg, s, id, chunks).s)
  {
    hide Guarded, Traced, AcceptAll, Commit, AllDigests, Manifested, LawfulCodec, AllInPlay;
    var stale :| SafeWith(cfg, s, stale, multiset{});
    var held := Holdings(s.files, stale, multiset{});
    AcceptAllGuarded(cfg, s, chunks, held);
    var o1 := AcceptAll(cfg, s, chunks);
    if o1.Done? {
      assert Holdings(s.files, stale, multiset(o1.v)) == held + multiset(o1.v);
      CommitSafe(cfg, o1.s, id, o1.v, |Concat(chunks)|, stale);
    } else {
      assert SafeWith(cfg, o1.s, stale, multiset{});
    }
  }

  lemma UnlinkHoldings(files: map<string, FileRec>, stale: map<string, FileRec>, records: map<string, FileRec>,
                       id: string)
    requires id in files
    ensures Holdings(files - {id}, Outdated(files, stale, records, id), multiset{})
            <= Holdings(files, stale, multiset{})
    ensures Holdings(files - {id}, stale - {id}, multiset{}) <= Holdings(files, stale, multiset{})
    ensures Holdings(files - {id}, stale - {id}, multiset{} + multiset(files[id].digests))
            <= Holdings(files, stale, multiset{})
  {
    OutdatedHoldings(files, stale, records, id);
    AllRefsWithout(stale, id);
    AllRefsRemove(files, id);
    hide AllRefs, Outdated;
  }

  lemma DeleteSafe(cfg: Cfg, s: State, id: string)
    requires Safe(cfg, s)
    ensures Safe(cfg, Delete(cfg, s, id).s)
  {
    hide Guarded, Traced, ReleaseAll, Manifested, RemoveManifest, Holdings, Outdated;
    if id in s.files {
      var stale :| SafeWith(cfg, s, stale, multiset{});
      var held := Holdings(s.files, stale, multiset{});
      var digests := s.files[id].digests;
      var b := RemoveManifest(s.disk, id);
      var s1 := s.(files := s.files - {id}, disk := b.s);
      var was, now := Manifested(s.disk.manifests), Manifested(b.s.manifests);
      RemoveManifestAny(s.disk, id);
      UnlinkHoldings(s.files, stale, was, id);
      GuardedStats(cfg, s, s1, held);
      assert s1.files - {id} == s.files - {id};
      if now == was - {id} || now == was - {id} - {INDEX} {
        RenewedTraced(s.files, s1.files, stale, was, now, id);
        if b.Done? {
          GuardedLess(cfg, s1, held, Holdings(s1.files, stale - {id}, multiset{} + multiset(digests)));
          ReleaseAllSafe(cfg, s1, digests, stale - {id});
        } else {
          GuardedLess(cfg, s1, held, Holdings(s1.files, stale - {id}, multiset{}));
          assert SafeWith(cfg, s1, stale - {id}, multiset{});
        }
      } else {
        var stale' := Outdated(s.files, stale, was, id);
        OutdatedTraced(s.files, s1.files, stale, was, id);
        GuardedLess(cfg, s1, held, Holdings(s1.files, stale', multiset{}));
        assert SafeWith(cfg, s1, stale', multiset{});
      }
    }
  }

  // ----- Checking and repairing

  /** Blobs are only removed, and only from the list. */
  ghost predicate Unlinked(b: Disk, b': Disk, names: seq<string>) {
    && b'.manifests == b.manifests && b'.refcounts == b.refcounts
    && forall d :: d in b.blobs || d in b'.blobs ==>
         && (d in b'.blobs ==> d in b.blobs && b'.blobs[d] == b.blobs[d])
         && (d in b.blobs && d !in names ==> d in b'.blobs)
  }

  lemma {:induction false} DeleteBlobsAny(b: Disk, names: seq<string>)
    ensures Unlinked(b, DeleteBlobs(b, names).s, names)
    decreases |names|
  {
    if names != [] {
      var o := DeleteBlob(b, names[0]);
      assert names == [names[0]] + names[1..];
      if o.Done? {
        DeleteBlobsAny(o.s, names[1..]);
      }
    }
  }

  /** Repairing unlinks uncounted chunks only, wherever it stops. */
  lemma FsckSafe(cfg: Cfg, s: State, repair: bool, live: seq<string>, names: Option<seq<string>>)
    requires Safe(cfg, s) && IsListing(live, s.refs.Keys)
    ensures Safe(cfg, Fsck(s, repair, live, names).s)
  {
    var stale :| SafeWith(cfg, s, stale, multiset{});
    var s' := Fsck(s, repair, live, names).s;
    var orphans := if names.Some? then OrphansAmong(names.value, live) else [];
    FsckUnlinks(s, repair, live, names);
    hide Fsck, IsChunkDigest, Traced, OrphansAmong;
    if names.Some? {
      OrphansAmongFacts(names.value, live);
    }
    UnlinkedGuarded(cfg, s, s', orphans, Holdings(s.files, stale, multiset{}));
    assert SafeWith(cfg, s', stale, multiset{});
  }

  lemma FsckUnlinks(s: State, repair: bool, live: seq<string>, names: Option<seq<string>>)
    ensures var s' := Fsck(s, repair, live, names).s;
            && s'.files == s.files && s'.refs == s.refs
            && Unlinked(s.disk, s'.disk, if names.Some? then OrphansAmong(names.value, live) else [])
  {
    hide FindMissing, DeleteBlobs, OrphansAmong;
    var orphans := if names.Some? then OrphansAmong(names.value, live) else [];
    FindMissingKeeps(s.disk, live);
    var b := FindMissing(s.disk, live);
    if b.Done? {
      DeleteBlobsAny(Spend(b.s), orphans);
    }
  }

  lemma UnlinkedGuarded(cfg: Cfg, s: State, s': State, names: seq<string>, held: multiset<string>)
    requires Guarded(cfg, s, held) && s'.refs == s.refs && Unlinked(s.disk, s'.disk, names)
    requires forall d :: d in names ==> d !in s.refs
    ensures Guarded(cfg, s', held)
  {
    hide RefsIn, RefsKnown, IsChunkDigest;
    forall d | d in held ensures d in s'.disk.blobs {
      assert held[d] <= Count(s.refs, d);
    }
  }

  // ----- Opening

  lemma {:induction false} LoadFilesAny(b: Disk, ids: seq<string>, files: map<string, FileRec>)
    ensures var o := LoadFiles(b, ids, files);
            && o.s == b.(plan := o.s.plan)
            && (o.Done? ==> o.v == files + FilesAmong(b.manifests, ids))
    decreases |ids|
  {
    hide AllDigests, FilesAmong;
    if ids == [] {
      assert files + FilesAmong(b.manifests, ids) == files by { NoFilesAmong(b.manifests); }
    } else if ids[0] in b.manifests && b.manifests[ids[0]].ManifestDoc? {
      FilesAmongCons(b.manifests, ids, files);
      var doc := b.manifests[ids[0]];
      LoadFilesAny(Spend(b), ids[1..], files[ids[0] := FileRec(doc.digests, doc.fileBytes)]);
    }
  }

  lemma NoFilesAmong(m: map<string, Doc>)
    ensures FilesAmong(m, []) == map[]
  {
  }

  lemma NoRefsAmong(m: map<string, Doc>)
    ensures RefsAmong(m, []) == map[]
  {
  }

  lemma {:induction false} LoadRefsAny(b: Disk, ids: seq<string>, refs: map<string, ChunkRef>)
    ensures var o := LoadRefs(b, ids, refs);
            && o.s == b.(plan := o.s.plan)
            && (o.Done? ==> o.v == refs + RefsAmong(b.refcounts, ids))
    decreases |ids|
  {
    hide IsChunkDigest, RefsAmong, SetRef;
    if ids == [] {
      assert refs + RefsAmong(b.refcounts, ids) == refs by { NoRefsAmong(b.refcounts); }
    } else if ids[0] in b.refcounts && ParseRefcount(b.refcounts[ids[0]]).Some? {
      RefsAmongCons(b.refcounts, ids, refs);
      LoadRefsAny(Spend(b), ids[1..], WithRef(b.refcounts[ids[0]], refs, ids[0]));
    }
  }

  lemma LoadAny(b: Disk)
    ensures var o := LoadManifests(b);
            && o.s == b.(plan := o.s.plan)
            && (o.Done? ==> o.v == FilesIn(b.manifests))
    ensures var o := LoadRefcounts(b);
            && o.s == b.(plan := o.s.plan)
            && (o.Done? ==> o.v == RefsIn(b.refcounts))
  {
    hide LoadFiles, LoadRefs, FilesAmong, RefsAmong, ReadList;
    ReadListAny(b, Manifests);
    ReadListAny(b, Refcounts);
    LoadFilesAny(Spend(b), IndexOf(b.manifests), map[]);
    LoadRefsAny(Spend(b), IndexOf(b.refcounts), map[]);
    assert map[] + FilesIn(b.manifests) == FilesIn(b.manifests);
    assert map[] + RefsIn(b.refcounts) == RefsIn(b.refcounts);
  }

  lemma BackfillTurnGuarded(cfg: Cfg, s: State, d: string, held: multiset<string>)
    requires Guarded(cfg, s, held)
    requires d in s.refs && s.refs[d].size == 0 && d in s.disk.blobs && IsChunkDigest(d)
    ensures var r := ChunkRef(s.refs[d].count, |s.disk.blobs[d]|);
            var b := SaveRefcount(s.disk, d, r.count, r.size).s;
            && Guarded(cfg, s.(refs := s.refs[d := r], disk := b), held)
            && OnlyIn(s.disk, b, Refcounts)
  {
    var r := ChunkRef(s.refs[d].count, |s.disk.blobs[d]|);
    assert held[d] <= Count(s.refs, d);
    assert Known(cfg, d) && SizeFits(cfg, d, 0) && SizeFits(cfg, d, r.size);
    hide SaveRefcount, RefsIn, IsChunkDigest, Tabled, Known, BlobsGood, AllThere, SizeFits;
    SaveRefcountLoads(s.disk, d, r.count, r.size);
    TabledSet(cfg, s.refs, d, r, held);
    TabledSet(cfg, RefsIn(s.disk.refcounts), d, r, held);
  }

  /** The entries to visit have no size yet. */
  ghost predicate Unsized(order: seq<string>, refs: map<string, ChunkRef>) {
    NoDup(order) && forall d :: d in order && d in refs ==> refs[d].size == 0
  }

  lemma UnsizedRest(order: seq<string>, refs: map<string, ChunkRef>, r: ChunkRef)
    requires Unsized(order, refs) && order != []
    ensures Unsized(order[1..], refs) && Unsized(order[1..], refs[order[0] := r])
  {
    assert order == [order[0]] + order[1..];
    assert order[0] !in order[1..];
  }

  /** One turn of the loop that fills in sizes. */
  ghost function BackfillTurn(s: State, d: string): Out<State, ()>
    requires d in s.refs
  {
    var (s1, found) :- Lift(s, GetBlob(s.disk, d));
    if found.None? || !IsChunkDigest(d) then Done(s1, ()) else
    var r := ChunkRef(s.refs[d].count, |found.value|);
    Lift(s1.(refs := s1.refs[d := r]), SaveRefcount(s1.disk, d, r.count, r.size))
  }

  lemma BackfillTurns(s: State, order: seq<string>)
    requires order != [] && order[0] in s.refs
    ensures var o := BackfillTurn(s, order[0]);
            Backfill(s, order) == if o.Done? then Backfill(o.s, order[1..]) else o
  {
    hide IsChunkDigest, SaveRefcount;
  }

  lemma BackfillTurnSafe(cfg: Cfg, s: State, d: string, held: multiset<string>)
    requires Guarded(cfg, s, held) && d in s.refs && s.refs[d].size == 0
    ensures var o := BackfillTurn(s, d);
            Guarded(cfg, o.s, held) && SameFamilies(s, o.s) && o.s.disk.blobs == s.disk.blobs
  {
    hide Guarded, IsChunkDigest, SaveRefcount;
    var s1 := s.(disk := Spend(s.disk));
    GuardedStats(cfg, s, s1, held);
    if d in s.disk.blobs && IsChunkDigest(d) {
      BackfillTurnGuarded(cfg, s1, d, held);
    }
  }

  lemma BackfillTurnUnsized(s: State, order: seq<string>)
    requires Unsized(order, s.refs) && order != [] && order[0] in s.refs
    ensures s.refs[order[0]].size == 0
    ensures Unsized(order[1..], BackfillTurn(s, order[0]).s.refs)
  {
    var d := order[0];
    UnsizedRest(order, s.refs, ChunkRef(1, 0));
    assert s.refs[d].size == 0;
    hide IsChunkDigest, SaveRefcount, Unsized;
    if d in s.disk.blobs {
      UnsizedRest(order, s.refs, ChunkRef(s.refs[d].count, |s.disk.blobs[d]|));
    }
  }

  /** Filling in sizes keeps the guard, wherever it stops. */
  lemma {:induction false} BackfillGuarded(cfg: Cfg, s: State, order: seq<string>, held: multiset<string>)
    requires Guarded(cfg, s, held) && Unsized(order, s.refs)
    ensures var o := Backfill(s, order);
            && Guarded(cfg, o.s, held) && SameFamilies(s, o.s)
            && o.s.disk.blobs == s.disk.blobs
    decreases |order|
  {
    if order == [] {
    } else if order[0] !in s.refs {
      UnsizedRest(order, s.refs, ChunkRef(1, 0));
      hide Guarded, Unsized;
      BackfillGuarded(cfg, s, order[1..], held);
    } else {
      hide Guarded, Unsized, BackfillTurn, Backfill;
      BackfillTurns(s, order);
      BackfillTurnUnsized(s, order);
      BackfillTurnSafe(cfg, s, order[0], held);
      var o := BackfillTurn(s, order[0]);
      if o.Done? {
        BackfillGuarded(cfg, o.s, order[1..], held);
      }
    }
  }

  lemma {:induction false} RecountAny(cfg: Cfg, s: State, order: seq<string>, sum: Totals)
    ensures var o := Recount(cfg, s, order, sum);
            o.s == s.(disk := s.disk.(plan := o.s.disk.plan))
    decreases |order|
  {
    hide AddChunk;
    if order != [] {
      if order[0] !in s.refs {
        RecountAny(cfg, s, order[1..], sum);
      } else {
        var o := ChunkSize(cfg, s, order[0]);
        if o.Done? {
          RecountAny(cfg, o.s, order[1..], AddChunk(sum, o.v, s.refs[order[0]].count));
        }
      }
    }
  }

  lemma UnionMinus(a: map<string, FileRec>, b: map<string, FileRec>, f: string)
    requires f in b && f !in a
    ensures (a + b) - {f} == a + (b - {f}) && (a + b)[f] == b[f]
  {
  }

  lemma {:induction false} AllRefsUnion(a: map<string, FileRec>, b: map<string, FileRec>)
    requires forall f :: f in b ==> f !in a
    ensures AllRefs(a + b) == AllRefs(a) + AllRefs(b)
    decreases b.Keys
  {
    if b == map[] {
      assert a + b == a;
    } else {
      var f :| f in b;
      AllRefsRemove(a + b, f);
      AllRefsRemove(b, f);
      hide AllRefs;
      UnionMinus(a, b, f);
      AllRefsUnion(a, b - {f});
      Regroup(multiset(b[f].digests), AllRefs(a), AllRefs(b - {f}));
    }
  }

  lemma Regroup(x: multiset<string>, y: multiset<string>, z: multiset<string>)
    ensures x + (y + z) == y + (x + z)
  {
  }

  /** Traced records hold no more than memory and the stale records do. */
  lemma {:induction false} TracedHoldings(files: map<string, FileRec>, stale: map<string, FileRec>,
                                          records: map<string, FileRec>)
    requires Traced(files, stale, records)
    ensures AllRefs(records) <= AllRefs(files) + AllRefs(stale)
    decreases records.Keys
  {
    if records != map[] {
      var f :| f in records;
      AllRefsRemove(records, f);
      if SameDigests(records, files, f) {
        AllRefsRemove(files, f);
        TracedHoldings(files - {f}, stale, records - {f});
      } else {
        AllRefsRemove(stale, f);
        TracedHoldings(files, stale - {f}, records - {f});
      }
    }
  }

  lemma SplitTraced(records: map<string, FileRec>, part: map<string, FileRec>)
    requires forall f :: f in part ==> f in records && part[f] == records[f]
    ensures Traced(part, records - part.Keys, records)
    ensures AllRefs(part) + AllRefs(records - part.Keys) == AllRefs(records)
  {
    AllRefsUnion(part, records - part.Keys);
    assert part + (records - part.Keys) == records;
  }

  /** What `open` loads is safe to run on: the listed manifests, with the
      unlisted ones stale. */
  lemma LoadedSafe(cfg: Cfg, s: State, t: State, stale: map<string, FileRec>)
    requires SafeWith(cfg, s, stale, multiset{})
    requires Guarded(cfg, t, Holdings(s.files, stale, multiset{}))
    requires t.disk.manifests == s.disk.manifests && t.files == FilesIn(s.disk.manifests)
    ensures Safe(cfg, t)
  {
    var records := Manifested(s.disk.manifests);
    assert forall f :: f in t.files ==> f in records && t.files[f] == records[f];
    hide Guarded, FilesIn, AllRefs, Traced, Manifested;
    TracedHoldings(s.files, stale, records);
    SplitTraced(records, t.files);
    var rest := records - t.files.Keys;
    GuardedLess(cfg, t, Holdings(s.files, stale, multiset{}), Holdings(t.files, rest, multiset{}));
    assert SafeWith(cfg, t, rest, multiset{});
  }

  lemma StartGuarded(cfg: Cfg, s: State, b: Disk, held: multiset<string>)
    requires Guarded(cfg, s, held) && b == s.disk.(plan := b.plan)
    ensures Guarded(cfg, State(FilesIn(b.manifests), RefsIn(b.refcounts), Totals(0, 0, 0), b), held)
  {
    hide RefsIn, FilesIn;
  }

  /** From the loaded tables on: sizes are filled in, and totals counted. */
  lemma PreparedSafe(cfg: Cfg, s: State, b: Disk, stale: seq<string>, order: seq<string>,
                     outdated: map<string, FileRec>)
    requires SafeWith(cfg, s, outdated, multiset{}) && b == s.disk.(plan := b.plan)
    requires Unsized(stale, RefsIn(b.refcounts))
    ensures var o := Backfill(State(FilesIn(b.manifests), RefsIn(b.refcounts), Totals(0, 0, 0), b), stale);
            && (o.Fail? ==> Safe(cfg, s.(disk := o.s.disk)))
            && (o.Done? ==>
                 var p := RebuildStats(cfg.(codec := None), o.s, order);
                 && (p.Done? ==> Safe(cfg, p.s))
                 && (p.Fail? ==> Safe(cfg, s.(disk := p.s.disk))))
  {
    hide Backfill, Recount, Guarded, Traced, RefsIn, FilesIn, Holdings, Manifested, Unsized;
    var held := Holdings(s.files, outdated, multiset{});
    var start := State(FilesIn(b.manifests), RefsIn(b.refcounts), Totals(0, 0, 0), b);
    StartGuarded(cfg, s, b, held);
    BackfillGuarded(cfg, start, stale, held);
    var o := Backfill(start, stale);
    if o.Fail? {
      StillGuarded(cfg, s, o.s, held);
      assert SafeWith(cfg, s.(disk := o.s.disk), outdated, multiset{});
    } else {
      RecountAny(cfg.(codec := None), o.s, order, Totals(0, 0, 0));
      var p := RebuildStats(cfg.(codec := None), o.s, order);
      GuardedStats(cfg, o.s, p.s, held);
      if p.Done? {
        LoadedSafe(cfg, s, p.s, outdated);
      } else {
        StillGuarded(cfg, s, p.s, held);
        assert SafeWith(cfg, s.(disk := p.s.disk), outdated, multiset{});
      }
    }
  }

  /** Stopping the process anywhere and opening again: the store that `open`
      gives is safe, and an `open` that fails leaves the backend safe. */
  lemma OpenSafe(cfg: Cfg, s: State, stale: seq<string>, order: seq<string>)
    requires Safe(cfg, s) && IsStaleListing(stale, RefsIn(s.disk.refcounts))
    ensures var o := Open(cfg, s.disk, stale, order);
            && (o.Done? ==> Safe(cfg, o.v))
            && (o.Fail? ==> Safe(cfg, s.(disk := o.s)))
  {
    assert Unsized(stale, RefsIn(s.disk.refcounts));
    hide LoadManifests, LoadRefcounts, Backfill, RebuildStats, Safe, SafeWith, RefsIn, FilesIn, Unsized;
    hide IsStaleListing;
    LoadAny(s.disk);
    var o1 := LoadManifests(s.disk);
    if o1.Fail? {
      ReplannedSafe(cfg, s, s.(disk := o1.s));
    } else {
      LoadAny(o1.s);
      var o2 := LoadRefcounts(o1.s);
      if o2.Fail? {
        ReplannedSafe(cfg, s, s.(disk := o2.s));
      } else {
        var outdated := SafeWitness(cfg, s);
        PreparedSafe(cfg, s, o2.s, stale, order, outdated);
      }
    }
  }

  lemma SafeWitness(cfg: Cfg, s: State) returns (outdated: map<string, FileRec>)
    requires Safe(cfg, s)
    ensures SafeWith(cfg, s, outdated, multiset{})
  {
    outdated :| SafeWith(cfg, s, outdated, multiset{});
  }

  lemma StillGuarded(cfg: Cfg, s: State, t: State, held: multiset<string>)
    requires Guarded(cfg, s, held) && Guarded(cfg, t, held)
    ensures Guarded(cfg, s.(disk := t.disk), held)
  {
    hide RefsIn;
  }

  // ----- Runs

  datatype Action =
    | Ingesting(id: string, chunks: seq<Bytes>)
    | Deleting(id: string)
    | Reading(id: string)
    | Checking(repair: bool, live: seq<string>, names: Option<seq<string>>)
    | Restarting(stale: seq<string>, order: seq<string>)

  /** The payloads are in play; the iteration orders are those of the refcount
      table. The ids are arbitrary. */
  ghost predicate Possible(cfg: Cfg, s: State, a: Action) {
    match a
    case Ingesting(_, chunks) => AllInPlay(cfg, chunks)
    case Checking(_, live, _) => IsListing(live, s.refs.Keys)
    case Restarting(stale, _) => IsStaleListing(stale, RefsIn(s.disk.refcounts))
    case _ => true
  }

  /** One action under a fault plan. It fails only when it is a restart that does
      not open the store. */
  function Act(cfg: Cfg, s0: State, a: Action, plan: Plan): Out<State, ()> {
    var s := s0.(disk := s0.disk.(plan := plan));
    match a
    case Ingesting(id, chunks) => Done(Ingest(cfg, s, id, chunks).s, ())
    case Deleting(id) => Done(Delete(cfg, s, id).s, ())
    case Reading(id) => Done(Read(cfg, s, id).s, ())
    case Checking(repair, live, names) => Done(Fsck(s, repair, live, names).s, ())
    case Restarting(stale, order) =>
      match Open(cfg, s.disk, stale, order)
      case Done(_, t) => Done(t, ())
      case Fail(b, e) => Fail(s.(disk := b), e)
  }

  /** `t` is reached from `s` by these actions, each possible when it starts and
      each with its own fault plan. After a restart that fails there is nothing
      to do but to restart again. */
  ghost predicate Reaches(cfg: Cfg, s: State, run: seq<(Action, Plan)>, t: State)
    decreases |run|
  {
    if run == [] then t == s else
    && Possible(cfg, s, run[0].0)
    && var o := Act(cfg, s, run[0].0, run[0].1);
       && (o.Fail? && |run| > 1 ==> run[1].0.Restarting?)
       && Reaches(cfg, o.s, run[1..], t)
  }

  lemma ActSafe(cfg: Cfg, s0: State, a: Action, plan: Plan)
    requires Safe(cfg, s0) && LawfulCodec(cfg) && Possible(cfg, s0, a)
    ensures Safe(cfg, Act(cfg, s0, a, plan).s)
  {
    var s := s0.(disk := s0.disk.(plan := plan));
    ReplannedSafe(cfg, s0, s);
    hide Safe, Ingest, Delete, Fsck, Open, LawfulCodec, AllInPlay, IsListing, ReadTo;
    match a
    case Ingesting(id, chunks) => IngestSafe(cfg, s, id, chunks);
    case Deleting(id) => DeleteSafe(cfg, s, id);
    case Reading(id) =>
      if id in s.files {
        ReadToReplans(cfg, s.disk, s.files[id].digests, []);
      }
      ReplannedSafe(cfg, s, Read(cfg, s, id).s);
    case Checking(repair, live, names) => FsckSafe(cfg, s, repair, live, names);
    case Restarting(stale, order) => OpenSafe(cfg, s, stale, order);
  }

  lemma ReplannedSafe(cfg: Cfg, s: State, s': State)
    requires Safe(cfg, s) && s' == s.(disk := s.disk.(plan := s'.disk.plan))
    ensures Safe(cfg, s')
  {
    hide Guarded, Traced, Holdings;
    var stale :| SafeWith(cfg, s, stale, multiset{});
    GuardedStats(cfg, s, s', Holdings(s.files, stale, multiset{}));
    assert SafeWith(cfg, s', stale, multiset{});
  }

  lemma {:induction false} RunSafe(cfg: Cfg, s: State, run: seq<(Action, Plan)>, t: State)
    requires Safe(cfg, s) && LawfulCodec(cfg) && Reaches(cfg, s, run, t)
    ensures Safe(cfg, t)
    decreases |run|
  {
    hide Safe, Act, LawfulCodec;
    if run != [] {
      ActSafe(cfg, s, run[0].0, run[0].1);
      RunSafe(cfg, Act(cfg, s, run[0].0, run[0].1).s, run[1..], t);
    }
  }

  // ----- What safety means

  /** The digest's blob is on the backend and is the right one. */
  ghost predicate Intact(cfg: Cfg, s: State, d: string) {
    d in s.disk.blobs && Known(cfg, d) && Decode(cfg, s.disk.blobs[d]) == Some(cfg.plain(d))
  }

  /** The backend has a manifest record for the file that names the digest. */
  ghost predicate RecordNames(m: map<string, Doc>, f: string, d: string) {
    f in m && m[f].ManifestDoc? && d in m[f].digests
  }

  lemma HeldIsIntact(cfg: Cfg, s: State, held: multiset<string>, d: string)
    requires Guarded(cfg, s, held) && held[d] > 0
    ensures Intact(cfg, s, d)
  {
    hide RefsIn;
    assert held[d] <= Count(s.refs, d);
    var x := DigestHex(cfg, cfg.plain(d));
  }

  lemma SafeMeansNoDangling(cfg: Cfg, s: State)
    requires Safe(cfg, s)
    ensures forall f, d :: f in s.files && d in s.files[f].digests ==> Intact(cfg, s, d)
    ensures forall f, d :: RecordNames(s.disk.manifests, f, d) ==> Intact(cfg, s, d)
    ensures forall d :: AllRefs(s.files)[d] <= Count(s.refs, d)
  {
    var stale :| SafeWith(cfg, s, stale, multiset{});
    var held := Holdings(s.files, stale, multiset{});
    assert forall d :: AllRefs(s.files)[d] <= held[d] <= Count(s.refs, d) by { hide RefsIn, AllRefs; }
    hide Guarded, AllRefs, Intact;
    forall f, d | f in s.files && d in s.files[f].digests ensures Intact(cfg, s, d) {
      AllRefsMember(s.files, f, d);
      HeldIsIntact(cfg, s, held, d);
    }
    forall f, d | RecordNames(s.disk.manifests, f, d) ensures Intact(cfg, s, d) {
      var records := Manifested(s.disk.manifests);
      assert f in records && d in records[f].digests;
      if SameDigests(records, s.files, f) {
        AllRefsMember(s.files, f, d);
      } else {
        AllRefsMember(stale, f, d);
      }
      HeldIsIntact(cfg, s, held, d);
    }
  }

  /** No referenced chunk is ever unlinked. In every run in which any backend
      call may fail, and the process may stop and open the store again, at
      every point at which it can stop: each manifest, in memory or on the
      backend, listed or not, names only digests whose blob is there and intact;
      and no count falls below the occurrences in the manifests in memory. */
  lemma NoDanglingDigest(cfg: Cfg, s: State, run: seq<(Action, Plan)>, t: State)
    requires Safe(cfg, s) && LawfulCodec(cfg) && Reaches(cfg, s, run, t)
    ensures forall f, d :: f in t.files && d in t.files[f].digests ==> Intact(cfg, t, d)
    ensures forall f, d :: RecordNames(t.disk.manifests, f, d) ==> Intact(cfg, t, d)
    ensures forall d :: AllRefs(t.files)[d] <= Count(t.refs, d)
  {
    hide *;
    RunSafe(cfg, s, run, t);
    SafeMeansNoDangling(cfg, t);
  }

  /** A store between failure-free operations is safe to start from. */
  lemma ConsistentIsSafe(cfg: Cfg, s: State)
    requires Consistent(cfg, s, multiset{})
    ensures Safe(cfg, s)
  {
    forall d | d in s.refs ensures IsChunkDigest(d) {
      var x := DigestHex(cfg, cfg.plain(d));
    }
    PersistedRefsLoad(s.disk.refcounts, s.refs);
    PersistedLookup(s.disk.manifests, FileDocs(s.files));
    var records := Manifested(s.disk.manifests);
    forall f | f in records ensures SameDigests(records, s.files, f) {
      assert f in s.disk.manifests - {INDEX};
      assert f in FileDocs(s.files);
    }
    assert Traced(s.files, map[], records);
    ConsistentHolds(cfg, s);
    assert SafeWith(cfg, s, map[], multiset{});
  }

  lemma ConsistentHolds(cfg: Cfg, s: State)
    requires Consistent(cfg, s, multiset{}) && RefsIn(s.disk.refcounts) == s.refs
    ensures Guarded(cfg, s, Holdings(s.files, map[], multiset{}))
  {
    var held := Holdings(s.files, map[], multiset{});
    NothingHeld(s.files);
    hide Persisted, FilesSized, RefsIn, AllRefs, IsChunkDigest, Known, BlobsGood, Holdings;
    TabledExactly(cfg, s.refs, s.disk.blobs, held);
  }

  lemma NothingHeld(files: map<string, FileRec>)
    ensures Holdings(files, map[], multiset{}) == AllRefs(files)
  {
    assert AllRefs(map[]) == multiset{};
  }
}
