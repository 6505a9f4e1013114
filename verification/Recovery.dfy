/** Stopping the process at any backend call of an operation, and opening again. */
module Recovery {
  import opened Types
  import opened Hashing
  import opened DiskSpec
  import opened StoreSpec
  import opened Counting
  import opened Records
  import opened Invariants
  import opened ExactOps
  import opened ExactRelease
  import opened Refinement
  import opened Opening
  import opened Vault
  import opened Salvage
  import opened Families
  import opened SavePoint
  import opened FaultRuns
  import opened Repairs

  // ----- Releasing

  lemma CutRemoveCount(b: Disk, d: string, calls: nat)
    requires IndexReadable(b.refcounts) && d != INDEX
    ensures RemoveRefcount(b.(plan := After(calls)), d).Done? <==> calls >= 3
    ensures var b' := RemoveRefcount(b.(plan := After(calls)), d).s;
            && b' == b.(refcounts := b'.refcounts, plan := b'.plan)
            && b'.refcounts == if calls == 0 then b.refcounts
                               else if calls < 3 then b.refcounts - {d}
                               else WithoutEntry(b.refcounts, d)
  {
  }

  /** Dropping a chunk makes four backend calls: the blob goes, the record goes,
      the index is read and rewritten. */
  lemma CutDrop(s: State, d: string, size: nat, calls: nat)
    requires IndexReadable(s.disk.refcounts) && d != INDEX && d !in s.refs
    ensures Settle(s.(disk := s.disk.(plan := After(calls))), d, size).Done? <==> calls >= 4
    ensures var b := Settle(s.(disk := s.disk.(plan := After(calls))), d, size).s.disk;
            && b == s.disk.(blobs := b.blobs, refcounts := b.refcounts, plan := b.plan)
            && b.blobs == (if calls == 0 then s.disk.blobs else s.disk.blobs - {d})
            && b.refcounts == if calls <= 1 then s.disk.refcounts
                              else if calls <= 3 then s.disk.refcounts - {d}
                              else WithoutEntry(s.disk.refcounts, d)
  {
    if calls > 0 {
      CutRemoveCount(s.disk.(blobs := s.disk.blobs - {d}), d, calls - 1);
    }
    hide Monus, RemoveRefcount, WithoutEntry, IndexReadable;
  }

  /** Between the second and the fourth call the count is listed without a
      record; after the first, only a recorded size of zero is missed. */
  ghost predicate Tearing(b: Disk, d: string, calls: nat) {
    calls == 2 || calls == 3 || (calls == 1 && d in RefsIn(b.refcounts) && RefsIn(b.refcounts)[d].size == 0)
  }

  lemma BlobGoneTears(b: Disk, b': Disk, d: string)
    requires !Torn(b) && d in RefsIn(b.refcounts) && b' == b.(blobs := b.blobs - {d}, plan := b'.plan)
    ensures Torn(b') <==> RefsIn(b.refcounts)[d].size == 0
  {
    hide RefsIn, AllListed;
  }

  lemma RecordGoneTears(b: Disk, b': Disk, d: string)
    requires d in RefsIn(b.refcounts) && d != INDEX && b'.refcounts == b.refcounts - {d}
    ensures Torn(b')
  {
    assert IndexOf(b'.refcounts) == IndexOf(b.refcounts);
    hide IndexOf, Sizable, Counts;
  }

  lemma EntryGoneIsWhole(b: Disk, b': Disk, d: string)
    requires !Torn(b) && RefcountsParse(b.refcounts) && d != INDEX && b'.manifests == b.manifests
    requires b'.refcounts == WithoutEntry(b.refcounts, d) && b'.blobs == b.blobs - {d}
    ensures !Torn(b')
  {
    hide WithoutEntry, RefsIn, AllListed, RefcountsParse;
    RefcountCut(b.refcounts, b'.refcounts, d);
    DropEntry(b.refcounts, d);
  }

  lemma DropTears(s: State, d: string, size: nat, calls: nat)
    requires RefcountsParse(s.disk.refcounts) && !Torn(s.disk) && d in RefsIn(s.disk.refcounts)
    requires IsChunkDigest(d) && d !in s.refs
    ensures Torn(Settle(s.(disk := s.disk.(plan := After(calls))), d, size).s.disk) <==> Tearing(s.disk, d, calls)
  {
    var b := Settle(s.(disk := s.disk.(plan := After(calls))), d, size).s.disk;
    DigestIsNotIndex(d);
    CutDrop(s, d, size, calls);
    hide Settle, WithoutEntry, IsChunkDigest;
    if calls == 0 {
      SamePlanned(s.disk, b);
    } else if calls == 1 {
      hide RefcountsParse, Torn, RefsIn;
      BlobGoneTears(s.disk, b, d);
    } else if calls <= 3 {
      hide RefcountsParse, Torn, RefsIn;
      RecordGoneTears(s.disk, b, d);
    } else {
      hide RefcountsParse, Torn, RefsIn;
      EntryGoneIsWhole(s.disk, b, d);
    }
  }

  /** The process stops while the last reference to a chunk is being dropped. */
  ghost predicate DropWindow(cfg: Cfg, s: State, d: string) {
    var o := ChunkSize(cfg, s, d);
    o.Done? && Count(s.refs, d) == 1 && o.s.disk.plan.After? && Tearing(s.disk, d, o.s.disk.plan.calls)
  }

  /** It stops so at some turn of the loop. */
  ghost predicate ReleaseWindow(cfg: Cfg, s: State, digests: seq<string>)
    decreases |digests|
  {
    digests != [] &&
    (DropWindow(cfg, s, digests[0]) ||
     (ReleaseOne(cfg, s, digests[0]).Done? && ReleaseWindow(cfg, ReleaseOne(cfg, s, digests[0]).s, digests[1..])))
  }

  lemma CountedTwice(cfg: Cfg, s: State, d: string, held: multiset<string>)
    requires Guarded(cfg, s, held + multiset{d})
    ensures d in RefsIn(s.disk.refcounts)
  {
    hide RefsIn, RefsKnown, BlobsGood, AllThere;
    assert (held + multiset{d})[d] <= Count(RefsIn(s.disk.refcounts), d);
  }

  lemma SettleTears(cfg: Cfg, s: State, d: string, size: nat)
    requires Parses(s.disk) && !Torn(s.disk) && d in RefsIn(s.disk.refcounts) && IsChunkDigest(d) && d in s.disk.blobs
    ensures var o := Settle(s, d, size);
            && (Torn(o.s.disk) <==> d !in s.refs && s.disk.plan.After? && Tearing(s.disk, d, s.disk.plan.calls))
            && (o.Done? ==> !Torn(o.s.disk))
  {
    DigestIsNotIndex(d);
    assert IndexReadable(s.disk.refcounts);
    hide Settle, Torn, RefsIn, RefcountsParse, ManifestsParse, IsChunkDigest, IndexReadable, WithEntry, WithoutEntry;
    if d in s.refs {
      KeptIsWhole(s, d, size);
    } else if s.disk.plan.Never? {
      SettleEffect(s, d, size);
      EntryGoneIsWhole(s.disk, Settle(s, d, size).s.disk, d);
    } else {
      var calls := s.disk.plan.calls;
      assert s.(disk := s.disk.(plan := After(calls))) == s;
      DropTears(s, d, size, calls);
      CutDrop(s, d, size, calls);
    }
  }

  lemma KeptIsWhole(s: State, d: string, size: nat)
    requires Parses(s.disk) && !Torn(s.disk) && d in s.refs && d in s.disk.blobs
    ensures !Torn(Settle(s, d, size).s.disk)
  {
    hide SaveRefcount, Torn, RefcountsParse, ManifestsParse;
    SaveRefcountKeeps(s.disk, d, s.refs[d].count, size);
  }

  /** Releasing one reference tears the backend exactly in that window: finding
      the size and saving a remaining count never do. */
  lemma ReleaseOneTears(cfg: Cfg, s: State, d: string, held: multiset<string>)
    requires Guarded(cfg, s, held + multiset{d}) && Parses(s.disk) && !Torn(s.disk)
    ensures var o := ReleaseOne(cfg, s, d);
            && (Torn(o.s.disk) <==> DropWindow(cfg, s, d))
            && (o.Done? ==> !Torn(o.s.disk))
  {
    HeldIsCounted(cfg, s, held + multiset{d}, d);
    CountedTwice(cfg, s, d, held);
    hide Guarded, Parses, Torn, RefsIn, IsChunkDigest, Known, BlobsGood, SizeFits, ChunkSize, Settle, Tearing;
    ChunkSizeKeeps(cfg, s, d);
    var o := ChunkSize(cfg, s, d);
    SamePlanned(s.disk, o.s.disk);
    if o.Done? {
      var t := o.s.(refs := Decrement(o.s.refs, d));
      SettleTears(cfg, t, d, o.v);
      SameTearing(s.disk, t.disk, d);
    }
  }

  lemma SameTearing(b: Disk, b': Disk, d: string)
    requires b' == b.(plan := b'.plan)
    ensures forall calls: nat :: Tearing(b, d, calls) == Tearing(b', d, calls)
  {
    hide RefsIn;
  }

  /** So does releasing a whole list. */
  lemma {:induction false} ReleaseAllTears(cfg: Cfg, s: State, digests: seq<string>, held: multiset<string>)
    requires Guarded(cfg, s, held + multiset(digests)) && Parses(s.disk) && !Torn(s.disk)
    ensures Torn(ReleaseAll(cfg, s, digests).s.disk) <==> ReleaseWindow(cfg, s, digests)
    ensures ReleaseAll(cfg, s, digests).Done? ==> !Torn(ReleaseAll(cfg, s, digests).s.disk)
    decreases |digests|
  {
    hide Guarded, Parses, Torn, ReleaseOne, DropWindow;
    if digests != [] {
      var d := digests[0];
      PendingSplit(held, digests);
      ReleaseOneTears(cfg, s, d, held + multiset(digests[1..]));
      ReleaseOneGuarded(cfg, s, d, held + multiset(digests[1..]));
      ReleaseOneKeeps(cfg, s, d);
      var o := ReleaseOne(cfg, s, d);
      if o.Done? {
        ReleaseAllTears(cfg, o.s, digests[1..], held);
      }
    }
  }

  // ----- Deleting

  lemma CutRemove(b: Disk, id: string, calls: nat)
    requires IndexReadable(b.manifests) && id != INDEX
    ensures RemoveManifest(b.(plan := After(calls)), id).Done? <==> calls >= 3
    ensures var b' := RemoveManifest(b.(plan := After(calls)), id).s;
            && b' == b.(manifests := b'.manifests, plan := b'.plan)
            && b'.manifests == if calls == 0 then b.manifests
                               else if calls < 3 then b.manifests - {id}
                               else WithoutEntry(b.manifests, id)
  {
  }

  lemma ListedIsFile(m: map<string, Doc>, id: string)
    requires id in FilesIn(m) && IndexReadable(m)
    ensures id in IndexOf(m) && id in m && id != INDEX
  {
  }

  lemma RecordlessIsTorn(b: Disk, id: string)
    requires id in IndexOf(b.manifests) && id !in b.manifests
    ensures Torn(b)
  {
    hide Sizable, RefsIn;
  }

  lemma SameIndex(m: map<string, Doc>, id: string)
    requires id != INDEX
    ensures IndexOf(m - {id}) == IndexOf(m)
  {
  }

  lemma SameCountsTear(b: Disk, b': Disk)
    requires b'.refcounts == b.refcounts && b'.blobs == b.blobs && AllListed(b'.manifests)
    ensures !Torn(b) ==> !Torn(b')
  {
    hide Sizable, RefsIn, AllListed;
  }

  /** Removing a manifest deletes the record before it rewrites the index, and
      tears the backend exactly between the two. */
  lemma RemoveManifestTears(b: Disk, id: string)
    requires Parses(b) && !Torn(b) && id in FilesIn(b.manifests)
    ensures var o := RemoveManifest(b, id);
            && (Torn(o.s) <==> b.plan == After(1) || b.plan == After(2))
            && (o.Done? ==> !Torn(o.s))
  {
    assert IndexReadable(b.manifests) && AllListed(b.manifests);
    ListedIsFile(b.manifests, id);
    SameIndex(b.manifests, id);
    RemoveManifestKeeps(b, id);
    var o := RemoveManifest(b, id);
    hide RemoveManifest, Torn, RefsIn, FilesIn, RefcountsParse, ManifestsParse, IndexReadable, WithoutEntry, IndexOf;
    if b.plan.After? {
      CutRemove(b, id, b.plan.calls);
      assert b.(plan := After(b.plan.calls)) == b;
    }
    if o.Done? {
      SameCountsTear(b, o.s);
    } else if b.plan == After(0) {
      SamePlanned(b, o.s);
    } else {
      RecordlessIsTorn(o.s, id);
    }
  }

  lemma UnlinkedHoldings(files: map<string, FileRec>, id: string)
    requires id in files
    ensures AllRefs(files) == AllRefs(files - {id}) + multiset(files[id].digests)
    ensures AllRefs(files - {id}) <= AllRefs(files)
  {
    AllRefsRemove(files, id);
  }

  lemma WithoutManifest(cfg: Cfg, s: State, id: string)
    requires InStep(cfg, s) && id in s.files
    ensures var o := RemoveManifest(s.disk, id);
            var s1 := s.(files := s.files - {id}, disk := o.s);
            && Guarded(cfg, s1, AllRefs(s.files)) && Parses(o.s) && id != INDEX
            && (FilesIn(o.s.manifests) == s.files || FilesIn(o.s.manifests) == s.files - {id})
            && (o.Done? ==> FilesIn(o.s.manifests) == s.files - {id})
            && (Torn(o.s) <==> s.disk.plan == After(1) || s.disk.plan == After(2))
            && (o.Done? ==> !Torn(o.s))
  {
    InStepIsGuarded(cfg, s);
    assert ManifestsParse(s.disk.manifests) && RefcountsParse(s.disk.refcounts) && !Torn(s.disk);
    ListedIsFile(s.disk.manifests, id);
    hide InStep, Guarded, RemoveManifest, FilesIn, ManifestsParse, RefcountsParse, Torn, AllRefs, IndexOf, AllListed;
    RemoveManifestKeeps(s.disk, id);
    RemoveManifestTears(s.disk, id);
    GuardedStats(cfg, s, s.(files := s.files - {id}, disk := RemoveManifest(s.disk, id).s), AllRefs(s.files));
  }

  /** The process stops while a delete removes the manifest, or in its release. */
  ghost predicate DeleteWindow(cfg: Cfg, s: State, id: string)
    requires id in s.files
  {
    var o := RemoveManifest(s.disk, id);
    || s.disk.plan == After(1) || s.disk.plan == After(2)
    || (o.Done? && ReleaseWindow(cfg, s.(files := s.files - {id}, disk := o.s), s.files[id].digests))
  }

  /** Wherever a delete stops, the backend belongs to the files with the file or
      without it; it is torn exactly when the stop is in one of the windows. */
  lemma DeleteCut(cfg: Cfg, s: State, id: string)
    requires InStep(cfg, s) && id in s.files
    ensures var b := Delete(cfg, s, id).s.disk;
            && (Salvageable(cfg, b, s.files) || Salvageable(cfg, b, s.files - {id}))
            && (Torn(b) <==> DeleteWindow(cfg, s, id))
  {
    WithoutManifest(cfg, s, id);
    UnlinkedHoldings(s.files, id);
    hide InStep, Guarded, RemoveManifest, ReleaseAll, ReleaseWindow, FilesIn, Torn, AllRefs, Parses, Salvageable;
    var o := RemoveManifest(s.disk, id);
    var s1 := s.(files := s.files - {id}, disk := o.s);
    if o.Fail? {
      GuardedIsSalvageable(cfg, s1, AllRefs(s.files), FilesIn(o.s.manifests));
    } else {
      var digests := s.files[id].digests;
      ReleaseAllTears(cfg, s1, digests, AllRefs(s1.files));
      ReleaseAllGuarded(cfg, s1, digests, AllRefs(s1.files));
      ReleaseAllKeeps(cfg, s1, digests);
      GuardedIsSalvageable(cfg, ReleaseAll(cfg, s1, digests).s, AllRefs(s1.files), s1.files);
      NoStopNoWindow(s, id);
    }
  }

  /** A removal that completes was not in its window. */
  lemma NoStopNoWindow(s: State, id: string)
    requires IndexReadable(s.disk.manifests) && id != INDEX
    ensures RemoveManifest(s.disk, id).Done? ==> s.disk.plan != After(1) && s.disk.plan != After(2)
  {
  }

  // ----- Ingesting

  ghost function RecOf(cfg: Cfg, chunks: seq<Bytes>): FileRec {
    FileRec(DigestsOf(cfg, chunks), |Concat(chunks)|)
  }

  lemma ReplacedHoldings(files: map<string, FileRec>, id: string, rec: FileRec)
    ensures AllRefs(files) + multiset(rec.digests) == AllRefs(files[id := rec]) + PreviousOf(files, id)
    ensures AllRefs(files) <= AllRefs(files) + multiset(rec.digests)
    ensures AllRefs(files[id := rec]) <= AllRefs(files) + multiset(rec.digests)
  {
    AllRefsInsert(files, id, rec);
    if id in files {
      AllRefsRemove(files, id);
    } else {
      assert files - {id} == files;
    }
    hide AllRefs;
  }

  /** Up to and including the manifest save nothing is torn, and the backend
      belongs to the old files or to the new ones. */
  lemma SaveCut(cfg: Cfg, s: State, id: string, chunks: seq<Bytes>)
    requires InStep(cfg, s) && LawfulCodec(cfg) && AllInPlay(cfg, chunks) && id != INDEX
    ensures var o := IngestUpToSave(cfg, s, id, chunks);
            var updated := s.files[id := RecOf(cfg, chunks)];
            && !Torn(o.s.disk) && Parses(o.s.disk)
            && (Salvageable(cfg, o.s.disk, s.files) || (id != "" && Salvageable(cfg, o.s.disk, updated)))
            && (o.Done? ==> o.s.files == updated && FilesIn(o.s.disk.manifests) == updated &&
                            Guarded(cfg, o.s, AllRefs(updated) + PreviousOf(s.files, id)))
  {
    InStepIsGuarded(cfg, s);
    assert !Torn(s.disk);
    hide InStep, Guarded, AcceptAll, Publish, Torn, Parses, FilesIn, AllRefs, PreviousOf, Salvageable, AllInPlay;
    hide LawfulCodec, Encodable, AllDigests, Concat, RefsIn, DigestsOf, Previous;
    var held := AllRefs(s.files);
    AcceptAllGuarded(cfg, s, chunks, held);
    AcceptAllKeeps(cfg, s, chunks);
    SaveIsPublish(cfg, s, id, chunks);
    var o1 := AcceptAll(cfg, s, chunks);
    if o1.Fail? {
      GuardedIsSalvageable(cfg, o1.s, held, s.files);
    } else if id == "" {
      NothingPublished(o1.s, o1.v, |Concat(chunks)|);
      GuardedLess(cfg, o1.s, held + multiset(o1.v), held);
      GuardedIsSalvageable(cfg, o1.s, held, s.files);
    } else {
      AcceptedEncodes(cfg, s, chunks);
      var rec := RecOf(cfg, chunks);
      PublishKeeps(o1.s, id, rec);
      ReplacedHoldings(s.files, id, rec);
      var o2 := Publish(o1.s, id, rec.digests, rec.fileBytes);
      GuardedStats(cfg, o1.s, o2.s, held + multiset(rec.digests));
      GuardedIsSalvageable(cfg, o2.s, held + multiset(rec.digests), FilesIn(o2.s.disk.manifests));
    }
  }

  /** The empty id is refused before anything is saved. */
  lemma NothingPublished(s: State, digests: seq<string>, fileBytes: nat)
    ensures Publish(s, "", digests, fileBytes) == Fail(s, InvalidArgument)
  {
  }

  /** The process stops while an ingest releases the previous version. */
  ghost predicate IngestWindow(cfg: Cfg, s: State, id: string, chunks: seq<Bytes>) {
    var o := IngestUpToSave(cfg, s, id, chunks);
    o.Done? && ReleaseWindow(cfg, o.s, Previous(s, id))
  }

  /** Wherever an ingest stops, the backend belongs to the files before it or
      after it; it is torn exactly when the stop is in the window. */
  lemma IngestCut(cfg: Cfg, s: State, id: string, chunks: seq<Bytes>)
    requires InStep(cfg, s) && LawfulCodec(cfg) && AllInPlay(cfg, chunks) && id != INDEX
    ensures var b := Ingest(cfg, s, id, chunks).s.disk;
            && (Salvageable(cfg, b, s.files) || (id != "" && Salvageable(cfg, b, s.files[id := RecOf(cfg, chunks)])))
            && (Torn(b) <==> IngestWindow(cfg, s, id, chunks))
  {
    SaveCut(cfg, s, id, chunks);
    IngestIsSaveThenRelease(cfg, s, id, chunks);
    SavedPrevious(cfg, s, id, chunks);
    var o := IngestUpToSave(cfg, s, id, chunks);
    var previous := Previous(s, id);
    assert multiset(previous) == PreviousOf(s.files, id);
    hide InStep, Guarded, Ingest, IngestUpToSave, ReleaseAll, ReleaseWindow, Torn, Parses, FilesIn, AllRefs;
    hide Salvageable;
    hide AllInPlay, LawfulCodec, RecOf, Previous, PreviousOf, AcceptAll;
    if o.Done? {
      var held := AllRefs(o.s.files);
      ReleaseAllTears(cfg, o.s, previous, held);
      ReleaseAllGuarded(cfg, o.s, previous, held);
      ReleaseAllKeeps(cfg, o.s, previous);
      GuardedIsSalvageable(cfg, ReleaseAll(cfg, o.s, previous).s, held, o.s.files);
    }
  }

  lemma SavedPrevious(cfg: Cfg, s: State, id: string, chunks: seq<Bytes>)
    ensures IngestUpToSave(cfg, s, id, chunks).Done? ==>
              Previous(AcceptAll(cfg, s, chunks).s, id) == Previous(s, id)
  {
    hide AcceptAll, Publish, IsChunkDigest, Encodable;
    if AcceptAll(cfg, s, chunks).Done? {
      AcceptedEncodes(cfg, s, chunks);
    }
  }

  // ----- Opening

  lemma BackfillTurnKeeps(s: State, d: string)
    requires RefcountsParse(s.disk.refcounts) && d in s.refs
    ensures var t := BackfillTurn(s, d).s;
            RefcountsParse(t.disk.refcounts) && (!Torn(s.disk) ==> !Torn(t.disk))
  {
    hide SaveRefcount, Torn, RefcountsParse, IsChunkDigest;
    var b := Spend(s.disk);
    SamePlanned(s.disk, b);
    assert RefcountsParse(b.refcounts);
    if d in s.disk.blobs {
      SaveRefcountKeeps(b, d, s.refs[d].count, |s.disk.blobs[d]|);
    }
  }

  lemma {:induction false} BackfillKeeps(s: State, ids: seq<string>)
    requires RefcountsParse(s.disk.refcounts)
    ensures var t := Backfill(s, ids).s;
            RefcountsParse(t.disk.refcounts) && (!Torn(s.disk) ==> !Torn(t.disk))
    decreases |ids|
  {
    hide Torn, RefcountsParse, BackfillTurn, IsChunkDigest;
    if ids == [] {
    } else if ids[0] !in s.refs {
      BackfillKeeps(s, ids[1..]);
    } else {
      BackfillTurns(s, ids);
      BackfillTurnKeeps(s, ids[0]);
      hide Backfill;
      var o := BackfillTurn(s, ids[0]);
      if o.Done? {
        BackfillKeeps(o.s, ids[1..]);
      }
    }
  }

  /** From the loaded tables on. */
  lemma PreparedCut(cfg: Cfg, b: Disk, files: map<string, FileRec>, stale: seq<string>, order: seq<string>)
    requires Salvageable(cfg, b, files) && Unsized(stale, RefsIn(b.refcounts))
    ensures var o := Backfill(State(FilesIn(b.manifests), RefsIn(b.refcounts), Totals(0, 0, 0), b), stale);
            && Salvageable(cfg, o.s.disk, files) && (!Torn(b) ==> !Torn(o.s.disk))
            && var p := RebuildStats(cfg.(codec := None), o.s, order);
               Salvageable(cfg, p.s.disk, files) && (!Torn(b) ==> !Torn(p.s.disk))
  {
    var start := State(FilesIn(b.manifests), RefsIn(b.refcounts), Totals(0, 0, 0), b);
    assert Guarded(cfg, start, AllRefs(files)) && ManifestsParse(b.manifests) && RefcountsParse(b.refcounts);
    hide Guarded, Salvageable, Backfill, Recount, RefsIn, FilesIn, Torn, AllRefs, Unsized, ManifestsParse;
    hide RefcountsParse;
    BackfillGuarded(cfg, start, stale, AllRefs(files));
    BackfillKeeps(start, stale);
    var o := Backfill(start, stale);
    GuardedIsSalvageable(cfg, o.s, AllRefs(files), files);
    RecountAny(cfg.(codec := None), o.s, order, Totals(0, 0, 0));
    SamePlanned(o.s.disk, RebuildStats(cfg.(codec := None), o.s, order).s.disk);
  }

  /** Opening, wherever it stops, leaves a backend that belongs to the same files
      and tears nothing. */
  lemma OpenCut(cfg: Cfg, b: Disk, files: map<string, FileRec>, stale: seq<string>, order: seq<string>)
    requires Salvageable(cfg, b, files) && IsStaleListing(stale, RefsIn(b.refcounts))
    ensures var o := Open(cfg, b, stale, order);
            Salvageable(cfg, o.s, files) && (!Torn(b) ==> !Torn(o.s))
  {
    assert Unsized(stale, RefsIn(b.refcounts));
    hide LoadManifests, LoadRefcounts, Backfill, RebuildStats, Salvageable, RefsIn, FilesIn, Unsized;
    hide IsStaleListing, Torn;
    LoadAny(b);
    var o1 := LoadManifests(b);
    SamePlanned(b, o1.s);
    if o1.Done? {
      LoadAny(o1.s);
      var o2 := LoadRefcounts(o1.s);
      SamePlanned(b, o2.s);
      if o2.Done? {
        PreparedCut(cfg, o2.s, files, stale, order);
      }
    }
  }

  // ----- Crash safety

  /** The manifests once the action has been recorded. */
  ghost function NextFiles(cfg: Cfg, files: map<string, FileRec>, a: Action): map<string, FileRec> {
    match a
    case Ingesting(id, chunks) => if id == "" then files else files[id := RecOf(cfg, chunks)]
    case Deleting(id) => files - {id}
    case _ => files
  }

  /** An ingest is not of the index name, which would overwrite the index. */
  ghost predicate ValidAction(a: Action) {
    a.Ingesting? ==> a.id != INDEX
  }

  /** The stop tears the backend. */
  ghost predicate Window(cfg: Cfg, s: State, a: Action) {
    match a
    case Ingesting(id, chunks) => IngestWindow(cfg, s, id, chunks)
    case Deleting(id) => id in s.files && DeleteWindow(cfg, s, id)
    case Checking(repair, live, names) => RepairWindow(s, repair, live, names)
    case _ => false
  }

  lemma DeleteAbsent(cfg: Cfg, s: State, id: string)
    requires id !in s.files
    ensures Delete(cfg, s, id).s == s
  {
  }

  lemma ReadCut(cfg: Cfg, s: State, id: string)
    ensures var b := Read(cfg, s, id).s.disk;
            b == s.disk.(plan := b.plan)
  {
    hide ReadTo;
    if id in s.files {
      ReadToReplans(cfg, s.disk, s.files[id].digests, []);
    }
  }

  lemma InStepReplanned(cfg: Cfg, s: State, plan: Plan)
    requires InStep(cfg, s)
    ensures InStep(cfg, s.(disk := s.disk.(plan := plan)))
  {
    SamePlanned(s.disk, s.disk.(plan := plan));
    hide Salvageable, Torn, Tabled, AllRefs;
  }

  /** Wherever an action stops, the backend belongs to the files before it or
      after it, and is torn exactly when the stop is in a window. */
  lemma ActCut(cfg: Cfg, s0: State, a: Action, plan: Plan)
    requires InStep(cfg, s0) && LawfulCodec(cfg) && Possible(cfg, s0, a) && ValidAction(a)
    ensures var b := Act(cfg, s0, a, plan).s.disk;
            && (Salvageable(cfg, b, s0.files) || Salvageable(cfg, b, NextFiles(cfg, s0.files, a)))
            && (Torn(b) <==> Window(cfg, s0.(disk := s0.disk.(plan := plan)), a))
  {
    var s := s0.(disk := s0.disk.(plan := plan));
    InStepReplanned(cfg, s0, plan);
    assert Salvageable(cfg, s.disk, s.files) && !Torn(s.disk);
    hide InStep, Salvageable, Torn, LawfulCodec, AllInPlay, Ingest, Delete, Read, Fsck, Open, IngestWindow;
    hide DeleteWindow;
    hide RepairWindow, RefsIn, IsStaleListing, IsListing, RecOf;
    match a
    case Ingesting(id, chunks) => IngestCut(cfg, s, id, chunks);
    case Deleting(id) =>
      if id in s.files {
        DeleteCut(cfg, s, id);
      } else {
        DeleteAbsent(cfg, s, id);
      }
    case Reading(id) =>
      ReadCut(cfg, s, id);
      SamePlanned(s.disk, Read(cfg, s, id).s.disk);
    case Checking(repair, live, names) => FsckCut(cfg, s, repair, live, names);
    case Restarting(stale, order) =>
      OpenCut(cfg, s.disk, s.files, stale, order);
      OpenedDisk(cfg, s.disk, stale, order);
  }

  lemma OpenedDisk(cfg: Cfg, b: Disk, stale: seq<string>, order: seq<string>)
    ensures var o := Open(cfg, b, stale, order);
            o.Done? ==> o.v.disk == o.s
  {
    hide LoadManifests, LoadRefcounts, Backfill, RebuildStats;
  }

  /** Crash safety, from every store that is in step with its backend, which
      includes every store that has recovered from a crash. Whatever backend
      call of an ingest, delete, read, check or opening is the last one before
      the process stops: `open` succeeds unless the stop was in a window; and
      the store it gives is again in step, holds the files as they were before
      or as they are after, reads every one of them, and counts at least the
      references they make. */
  lemma CrashSafe(cfg: Cfg, s: State, a: Action, plan: Plan, stale: seq<string>, order: seq<string>)
    requires InStep(cfg, s) && LawfulCodec(cfg) && Possible(cfg, s, a) && ValidAction(a)
    requires var m := Act(cfg, s, a, plan).s.disk.refcounts;
             IsStaleListing(stale, RefsIn(m)) && IsListing(order, RefsIn(m).Keys)
    ensures var o := Open(cfg, Act(cfg, s, a, plan).s.disk.(plan := Never), stale, order);
            && (o.Done? <==> !Window(cfg, s.(disk := s.disk.(plan := plan)), a))
            && (o.Done? ==>
                && InStep(cfg, o.v)
                && (Serves(cfg, o.v, s.files) || Serves(cfg, o.v, NextFiles(cfg, s.files, a))))
  {
    hide *;
    ActCut(cfg, s, a, plan);
    var b := Act(cfg, s, a, plan).s.disk;
    SamePlanned(b, b.(plan := Never));
    var files := if Salvageable(cfg, b, s.files) then s.files else NextFiles(cfg, s.files, a);
    SalvageableOpens(cfg, b.(plan := Never), files, stale, order);
  }

  /** An ingest never tears the backend before it releases the previous version:
      stopping it at any call up to the manifest save leaves a backend that
      opens, with every other file as it was and this one wholly old or wholly
      new. */
  lemma IngestCrashSafe(cfg: Cfg, s: State, id: string, chunks: seq<Bytes>, stale: seq<string>, order: seq<string>)
    requires InStep(cfg, s) && LawfulCodec(cfg) && AllInPlay(cfg, chunks) && id != INDEX
    requires var m := IngestUpToSave(cfg, s, id, chunks).s.disk.refcounts;
             IsStaleListing(stale, RefsIn(m)) && IsListing(order, RefsIn(m).Keys)
    ensures var b := IngestUpToSave(cfg, s, id, chunks).s.disk.(plan := Never);
            var o := Open(cfg, b, stale, order);
            && o.Done? && InStep(cfg, o.v)
            && (|| Serves(cfg, o.v, s.files)
                || (id != "" && Serves(cfg, o.v, s.files[id := FileRec(DigestsOf(cfg, chunks), |Concat(chunks)|)])))
    ensures Meaning(cfg, DigestsOf(cfg, chunks)) == Concat(chunks)
  {
    var rec := FileRec(DigestsOf(cfg, chunks), |Concat(chunks)|);
    assert rec == RecOf(cfg, chunks);
    hide *;
    MeaningOfChunks(cfg, chunks);
    SaveCut(cfg, s, id, chunks);
    var b := IngestUpToSave(cfg, s, id, chunks).s.disk;
    SamePlanned(b, b.(plan := Never));
    var files := if Salvageable(cfg, b, s.files) then s.files else s.files[id := rec];
    SalvageableOpens(cfg, b.(plan := Never), files, stale, order);
  }
}
