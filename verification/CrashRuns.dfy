/** Opening after any run of operations, failed calls, stops and restarts. */
module CrashRuns {
  import opened Types
  import opened Hashing
  import opened DiskSpec
  import opened StoreSpec
  import opened Counting
  import opened Records
  import opened Invariants
  import opened ExactOps
  import opened Opening
  import opened Vault
  import opened Salvage
  import opened Families
  import opened SavePoint
  import opened FaultRuns
  import opened Repairs
  import opened Recovery

  // ----- Records stay decodable

  lemma RemoveManifestParses(b: Disk, id: string)
    requires Parses(b)
    ensures var b' := RemoveManifest(b, id).s;
            Parses(b') && b'.blobs == b.blobs
  {
    if id == INDEX {
      RemoveManifestIndex(b);
      hide RemoveEntry;
    } else {
      hide RemoveEntry, ManifestsParse, RefcountsParse, FilesIn;
      RemoveManifestKeeps(b, id);
    }
  }

  lemma RemoveManifestIndex(b: Disk)
    ensures var b' := RemoveManifest(b, INDEX).s;
            && OnlyIn(b, b', Manifests)
            && (b'.manifests == b.manifests || (IndexReadable(b'.manifests) && IndexOf(b'.manifests) == []))
  {
    assert Retain([], INDEX) == [];
  }

  lemma IngestParses(cfg: Cfg, s: State, id: string, chunks: seq<Bytes>)
    requires Parses(s.disk) && id != INDEX
    ensures Parses(Ingest(cfg, s, id, chunks).s.disk)
  {
    hide AcceptAll, Publish, ReleaseAll, Parses, Torn, FilesIn;
    AcceptAllKeeps(cfg, s, chunks);
    var o1 := AcceptAll(cfg, s, chunks);
    if o1.Done? && id == "" {
      NothingPublished(o1.s, o1.v, |Concat(chunks)|);
    } else if o1.Done? {
      PublishKeeps(o1.s, id, FileRec(o1.v, |Concat(chunks)|));
      var o2 := Publish(o1.s, id, o1.v, |Concat(chunks)|);
      ReleaseAllKeeps(cfg, o2.s, Previous(o1.s, id));
    }
  }

  lemma DeleteParses(cfg: Cfg, s: State, id: string)
    requires Parses(s.disk)
    ensures Parses(Delete(cfg, s, id).s.disk)
  {
    hide RemoveManifest, ReleaseAll, Parses;
    if id in s.files {
      RemoveManifestParses(s.disk, id);
      var s1 := s.(files := s.files - {id}, disk := RemoveManifest(s.disk, id).s);
      ReleaseAllKeeps(cfg, s1, s.files[id].digests);
    }
  }

  lemma OpenParses(cfg: Cfg, b: Disk, stale: seq<string>, order: seq<string>)
    requires Parses(b)
    ensures var b' := Open(cfg, b, stale, order).s;
            Parses(b') && b'.manifests == b.manifests
  {
    hide LoadManifests, LoadRefcounts, Backfill, Recount, ManifestsParse, RefcountsParse;
    LoadAny(b);
    var o1 := LoadManifests(b);
    if o1.Done? {
      LoadAny(o1.s);
      var o2 := LoadRefcounts(o1.s);
      if o2.Done? {
        var start := State(o1.v, o2.v, Totals(0, 0, 0), o2.s);
        BackfillKeeps(start, stale);
        BackfillManifests(start, stale);
        RecountAny(cfg.(codec := None), Backfill(start, stale).s, order, Totals(0, 0, 0));
      }
    }
  }

  lemma {:induction false} BackfillManifests(s: State, ids: seq<string>)
    ensures Backfill(s, ids).s.disk.manifests == s.disk.manifests
    decreases |ids|
  {
    hide BackfillTurn, IsChunkDigest;
    if ids == [] {
    } else if ids[0] !in s.refs {
      BackfillManifests(s, ids[1..]);
    } else {
      BackfillTurns(s, ids);
      hide Backfill;
      BackfillTurnManifests(s, ids[0]);
      var o := BackfillTurn(s, ids[0]);
      if o.Done? {
        BackfillManifests(o.s, ids[1..]);
      }
    }
  }

  lemma BackfillTurnManifests(s: State, d: string)
    requires d in s.refs
    ensures BackfillTurn(s, d).s.disk.manifests == s.disk.manifests
  {
    hide SaveRefcount, IsChunkDigest;
    if d in s.disk.blobs {
      SaveRefcountManifests(Spend(s.disk), d, s.refs[d].count, |s.disk.blobs[d]|);
    }
  }

  lemma SaveRefcountManifests(b: Disk, d: string, count: nat, size: nat)
    ensures SaveRefcount(b, d, count, size).s.manifests == b.manifests
  {
    hide ReadList, IsChunkDigest;
    ReadListAny(Spend(b), Refcounts);
    var o := PutDoc(b, Refcounts, d, CountSize(count, size));
    ReadListAny(o.s, Refcounts);
  }

  lemma ActParses(cfg: Cfg, s0: State, a: Action, plan: Plan)
    requires Parses(s0.disk) && ValidAction(a)
    ensures Parses(Act(cfg, s0, a, plan).s.disk)
  {
    var s := s0.(disk := s0.disk.(plan := plan));
    SamePlanned(s0.disk, s.disk);
    hide Parses, Ingest, Delete, Read, Fsck, Open, Torn;
    match a
    case Ingesting(id, chunks) => IngestParses(cfg, s, id, chunks);
    case Deleting(id) => DeleteParses(cfg, s, id);
    case Reading(id) =>
      ReadCut(cfg, s, id);
      SamePlanned(s.disk, Read(cfg, s, id).s.disk);
    case Checking(repair, live, names) =>
      FsckUnlinks(s, repair, live, names);
      UnlinkedParses(s.disk, Fsck(s, repair, live, names).s.disk,
                     if names.Some? then OrphansAmong(names.value, live) else []);
    case Restarting(stale, order) =>
      OpenParses(cfg, s.disk, stale, order);
      OpenedDisk(cfg, s.disk, stale, order);
  }

  // ----- Where the manifest records come from

  /** The record was there at the start, or it is of an ingest of the run. */
  ghost predicate Told(cfg: Cfg, was: map<string, FileRec>, run: seq<(Action, Plan)>, f: string, rec: FileRec) {
    || (f in was && was[f] == rec)
    || exists i :: 0 <= i < |run| && run[i].0.Ingesting? && run[i].0.id == f && rec == RecOf(cfg, run[i].0.chunks)
  }

  ghost predicate AllTold(cfg: Cfg, was: map<string, FileRec>, run: seq<(Action, Plan)>, now: map<string, FileRec>) {
    forall f :: f in now ==> Told(cfg, was, run, f, now[f])
  }

  lemma IngestRecords(cfg: Cfg, s: State, id: string, chunks: seq<Bytes>)
    requires Parses(s.disk) && id != INDEX
    ensures var was, now := Manifested(s.disk.manifests), Manifested(Ingest(cfg, s, id, chunks).s.disk.manifests);
            now == was || now == was[id := RecOf(cfg, chunks)] || now == was[id := RecOf(cfg, chunks)] - {INDEX}
  {
    hide AcceptAll, Publish, ReleaseAll, Parses, Torn, FilesIn, Manifested, SaveManifest, Encodable, DigestsOf;
    AcceptAllKeeps(cfg, s, chunks);
    var o1 := AcceptAll(cfg, s, chunks);
    if o1.Done? && id == "" {
      NothingPublished(o1.s, o1.v, |Concat(chunks)|);
    } else if o1.Done? {
      AcceptedEncodes(cfg, s, chunks);
      var rec := RecOf(cfg, chunks);
      PublishKeeps(o1.s, id, rec);
      PublishRecords(o1.s, id, rec);
      var o2 := Publish(o1.s, id, o1.v, |Concat(chunks)|);
      ReleaseAllKeeps(cfg, o2.s, Previous(o1.s, id));
    }
  }

  lemma PublishRecords(s: State, id: string, rec: FileRec)
    ensures var was := Manifested(s.disk.manifests);
            var now := Manifested(Publish(s, id, rec.digests, rec.fileBytes).s.disk.manifests);
            now == was || now == was[id := rec] || now == was[id := rec] - {INDEX}
  {
    hide SaveManifest, Manifested;
    SaveManifestAny(s.disk, id, rec.digests, rec.fileBytes);
  }

  lemma DeleteRecords(cfg: Cfg, s: State, id: string)
    requires Parses(s.disk)
    ensures var was, now := Manifested(s.disk.manifests), Manifested(Delete(cfg, s, id).s.disk.manifests);
            forall f :: f in now ==> f in was && now[f] == was[f]
  {
    hide RemoveManifest, ReleaseAll, Parses, Manifested;
    if id in s.files {
      RemoveManifestAny(s.disk, id);
      RemoveManifestParses(s.disk, id);
      var s1 := s.(files := s.files - {id}, disk := RemoveManifest(s.disk, id).s);
      ReleaseAllKeeps(cfg, s1, s.files[id].digests);
    }
  }

  lemma ActRecords(cfg: Cfg, s0: State, a: Action, plan: Plan)
    requires Parses(s0.disk) && ValidAction(a)
    ensures AllTold(cfg, Manifested(s0.disk.manifests), [(a, plan)], Manifested(Act(cfg, s0, a, plan).s.disk.manifests))
  {
    var s := s0.(disk := s0.disk.(plan := plan));
    SamePlanned(s0.disk, s.disk);
    var run := [(a, plan)];
    hide Parses, Ingest, Delete, Read, Fsck, Open, Torn, Manifested, RecOf;
    match a
    case Ingesting(id, chunks) =>
      IngestRecords(cfg, s, id, chunks);
      assert run[0].0.Ingesting? && run[0].0.id == id && run[0].0.chunks == chunks;
    case Deleting(id) => DeleteRecords(cfg, s, id);
    case Reading(id) => ReadCut(cfg, s, id);
    case Checking(repair, live, names) => FsckUnlinks(s, repair, live, names);
    case Restarting(stale, order) =>
      OpenParses(cfg, s.disk, stale, order);
      OpenedDisk(cfg, s.disk, stale, order);
  }

  lemma TellTwice(cfg: Cfg, was: map<string, FileRec>, mid: map<string, FileRec>, now: map<string, FileRec>,
                  run: seq<(Action, Plan)>)
    requires run != [] && AllTold(cfg, was, [run[0]], mid) && AllTold(cfg, mid, run[1..], now)
    ensures AllTold(cfg, was, run, now)
  {
    hide RecOf;
    forall f | f in now ensures Told(cfg, was, run, f, now[f]) {
      assert Told(cfg, mid, run[1..], f, now[f]);
      if f in mid && mid[f] == now[f] {
        assert Told(cfg, was, [run[0]], f, mid[f]);
      } else {
        var i :| 0 <= i < |run[1..]| && run[1..][i].0.Ingesting? && run[1..][i].0.id == f &&
                 now[f] == RecOf(cfg, run[1..][i].0.chunks);
        assert run[1..][i] == run[i + 1];
      }
    }
  }

  // ----- Runs

  ghost predicate ValidRun(run: seq<(Action, Plan)>) {
    forall i :: 0 <= i < |run| ==> ValidAction(run[i].0)
  }

  lemma {:induction false} RunRecords(cfg: Cfg, s: State, run: seq<(Action, Plan)>, t: State)
    requires Parses(s.disk) && ValidRun(run) && Reaches(cfg, s, run, t)
    ensures Parses(t.disk)
    ensures AllTold(cfg, Manifested(s.disk.manifests), run, Manifested(t.disk.manifests))
    decreases |run|
  {
    hide Parses, Act, Manifested, AllTold, Possible;
    if run == [] {
      assert AllTold(cfg, Manifested(s.disk.manifests), run, Manifested(s.disk.manifests)) by {
        NothingNew(cfg, Manifested(s.disk.manifests), run);
      }
    } else {
      var (a, plan) := run[0];
      ActParses(cfg, s, a, plan);
      ActRecords(cfg, s, a, plan);
      var o := Act(cfg, s, a, plan);
      assert run[0] == (a, plan);
      RunRecords(cfg, o.s, run[1..], t);
      TellTwice(cfg, Manifested(s.disk.manifests), Manifested(o.s.disk.manifests), Manifested(t.disk.manifests), run);
    }
  }

  lemma NothingNew(cfg: Cfg, was: map<string, FileRec>, run: seq<(Action, Plan)>)
    ensures AllTold(cfg, was, run, was)
  {
  }

  /** The backend of a safe store belongs to the files that it lists. */
  lemma SafeIsSalvageable(cfg: Cfg, s: State)
    requires Safe(cfg, s) && Parses(s.disk)
    ensures Salvageable(cfg, s.disk, FilesIn(s.disk.manifests))
    ensures var files, records := FilesIn(s.disk.manifests), Manifested(s.disk.manifests);
            forall f :: f in files ==> f in records && records[f] == files[f]
  {
    var stale := SafeWitness(cfg, s);
    var files, records := FilesIn(s.disk.manifests), Manifested(s.disk.manifests);
    assert forall f :: f in files ==> f in records && records[f] == files[f];
    hide Guarded, FilesIn, Manifested, Traced, AllRefs, Parses, Salvageable;
    TracedHoldings(s.files, stale, records);
    SplitTraced(records, files);
    GuardedIsSalvageable(cfg, s, Holdings(s.files, stale, multiset{}), files);
  }

  /** After every run in which any call may fail, and the process may stop and
      open the store again, at every point: `open` succeeds if and only if the
      backend is not torn. The store it gives is in step and reads all its
      files, and each of these is as some ingest of the run made it, or as it
      was at the start. */
  lemma RunOpens(cfg: Cfg, s: State, run: seq<(Action, Plan)>, t: State, stale: seq<string>, order: seq<string>)
    requires Safe(cfg, s) && Parses(s.disk) && LawfulCodec(cfg) && ValidRun(run) && Reaches(cfg, s, run, t)
    requires IsStaleListing(stale, RefsIn(t.disk.refcounts)) && IsListing(order, RefsIn(t.disk.refcounts).Keys)
    ensures var o := Open(cfg, t.disk.(plan := Never), stale, order);
            && (o.Done? <==> !Torn(t.disk))
            && (o.Done? ==>
                && InStep(cfg, o.v) && Serves(cfg, o.v, FilesIn(t.disk.manifests))
                && AllTold(cfg, Manifested(s.disk.manifests), run, o.v.files))
  {
    RunSafe(cfg, s, run, t);
    RunRecords(cfg, s, run, t);
    SafeIsSalvageable(cfg, t);
    var files := FilesIn(t.disk.manifests);
    assert AllTold(cfg, Manifested(s.disk.manifests), run, files) by { hide Told; }
    assert forall u :: Serves(cfg, u, files) ==> u.files == files;
    hide *;
    SamePlanned(t.disk, t.disk.(plan := Never));
    SalvageableOpens(cfg, t.disk.(plan := Never), files, stale, order);
  }

  /** A store between failure-free operations is a possible start. */
  lemma ConsistentCanStart(cfg: Cfg, s: State)
    requires Consistent(cfg, s, multiset{})
    ensures Safe(cfg, s) && Parses(s.disk)
  {
    ConsistentIsSafe(cfg, s);
    ConsistentIsInStep(cfg, s, multiset{});
    InStepIsGuarded(cfg, s);
  }
}
