/** A delete of the ingested file within its commit: between the peek at the
    previous version and the insertion of the manifest, or between the insertion
    and the save. */
module CommitRaces {
  import opened Types
  import opened Hashing
  import opened DiskSpec
  import opened StoreSpec
  import opened Counting
  import opened Records
  import opened Invariants
  import opened ExactOps
  import opened ExactRelease
  import opened Refinement
  import opened Opening
  import opened Reopen
  import opened Salvage
  import opened Families
  import opened Races
  import opened ReleaseRaces

  // ----- A delete of the file that is being replaced

  /** A replacement that peeks at the previous version, then loses it to a
      delete, then inserts, saves and releases. */
  function StaleCommit(cfg: Cfg, s: State, id: string, digests: seq<string>, n: nat): Out<State, ()>
    requires id in s.files
  {
    var previous := s.files[id].digests;
    var (s1, _) :- Delete(cfg, s, id);
    var (s2, _) :- Publish(s1, id, digests, n);
    ReleaseAll(cfg, s2, previous)
  }

  /** The previous version is released twice. The commit succeeds with counts
      that cover the files if and only if there was nothing to release. */
  lemma DeleteBetweenPeekAndInsert(cfg: Cfg, s: State, id: string, digests: seq<string>)
    requires Consistent(cfg, s, multiset(digests)) && s.disk.plan.Never? && ValidId(id) && id in s.files
    ensures var o := StaleCommit(cfg, s, id, digests, |Meaning(cfg, digests)|);
            o.Done? && Covers(o.s.files, o.s.refs, multiset{}) <==> s.files[id].digests == []
  {
    var n, previous := |Meaning(cfg, digests)|, s.files[id].digests;
    hide Consistent, Delete, Publish, ReleaseAll, Meaning, AllDigests, IndexReadable, WithEntry, AllRefs;
    assert multiset{} + multiset(digests) == multiset(digests);
    DeletePending(cfg, s, id, multiset(digests));
    var s1 := Delete(cfg, s, id).s;
    PendingDigests(cfg, s1, digests, multiset{});
    PublishEffect(s1, id, digests, n);
    var s2 := Publish(s1, id, digests, n).s;
    PublishedExact(cfg, s1, s2, id, digests, multiset{});
    assert multiset{} + multiset(Previous(s1, id)) == multiset{};
    ExactlyCounted(cfg, s2);
    ReleaseAllCounts(cfg, s2, previous);
    var o := ReleaseAll(cfg, s2, previous);
    if previous == [] {
      assert o == Done(s2, ()) by { NothingToRelease(cfg, s2); }
    } else if o.Done? {
      var d := previous[0];
      assert d in multiset(previous);
      assert AllRefs(s2.files)[d] + multiset{}[d] == Count(s2.refs, d);
      assert Count(o.s.refs, d) < AllRefs(o.s.files)[d] + multiset{}[d];
    }
  }

  lemma ExactlyCounted(cfg: Cfg, s: State)
    requires Consistent(cfg, s, multiset{})
    ensures Counted(s.files, s.refs, multiset{}) && Covers(s.files, s.refs, multiset{})
  {
    hide AllRefs, Persisted, Backed;
    forall d ensures AllRefs(s.files)[d] + multiset{}[d] <= Count(s.refs, d) {
      assert AllRefs(s.files)[d] + multiset{}[d] == Count(s.refs, d);
    }
  }

  lemma NothingToRelease(cfg: Cfg, s: State)
    ensures ReleaseAll(cfg, s, []) == Done(s, ())
  {
  }

  /** A commit whose manifest is inserted, then deleted again, then saved. */
  function StaleSave(cfg: Cfg, s: State, id: string, digests: seq<string>, n: nat): Out<State, ()> {
    var previous := if id in s.files then s.files[id].digests else [];
    var (s1, _) :- Delete(cfg, s.(files := s.files[id := FileRec(digests, n)]), id);
    var (s2, _) :- Lift(s1, SaveManifest(s1.disk, id, digests, n));
    ReleaseAll(cfg, s2, previous)
  }

  /** Removing the record of a file that may not be there. */
  lemma UnlinkAnyway(cfg: Cfg, s: State, id: string, pending: multiset<string>)
    requires Consistent(cfg, s, pending) && s.disk.plan.Never? && ValidId(id)
    ensures var o := RemoveManifest(s.disk, id);
            && o.Done? && o.s.plan.Never?
            && Consistent(cfg, s.(files := s.files - {id}, disk := o.s), pending + multiset(Previous(s, id)))
  {
    hide Consistent, RemoveEntry, WithoutEntry, Persisted;
    if id in s.files {
      UnlinkExact(cfg, s, id, pending);
    } else {
      ReadableIndex(cfg, s, pending);
      RemoveEntryEffect(s.disk, Manifests, id);
      AbsentUnlinked(cfg, s, RemoveManifest(s.disk, id).s, id, pending);
      assert pending + multiset(Previous(s, id)) == pending;
    }
  }

  lemma AbsentUnlinked(cfg: Cfg, s: State, b: Disk, id: string, pending: multiset<string>)
    requires Consistent(cfg, s, pending) && id !in s.files && id != INDEX
    requires OnlyIn(s.disk, b, Manifests) && b.manifests == WithoutEntry(s.disk.manifests, id)
    ensures Consistent(cfg, s.(files := s.files - {id}, disk := b), pending)
  {
    AbsentDocs(s.files, id);
    hide Persisted, WithoutEntry, Counted, Backed, BlobsGood, FilesSized, FileDocs, RefDocs;
    RemovePersists(s.disk.manifests, FileDocs(s.files), id);
  }

  lemma AbsentDocs(files: map<string, FileRec>, id: string)
    requires id !in files
    ensures files - {id} == files && FileDocs(files) - {id} == FileDocs(files)
  {
  }

  lemma SaveDone(b: Disk, id: string, rec: FileRec)
    requires b.plan.Never? && ManifestsParse(b.manifests) && ValidId(id) && AllDigests(rec.digests)
    ensures var o := SaveManifest(b, id, rec.digests, rec.fileBytes);
            && o.Done? && o.s == b.(manifests := o.s.manifests)
            && FilesIn(o.s.manifests) == FilesIn(b.manifests)[id := rec]
  {
    assert IndexReadable(b.manifests);
    hide SaveEntry, AllDigests, ManifestsParse, FilesIn, IndexReadable, WithEntry, AllListed;
    SaveEntryEffect(b, Manifests, id, ManifestDoc(rec.digests, rec.fileBytes));
    SaveManifestKeeps(b, id, rec);
  }

  lemma ResurrectedIsUncovered(files: map<string, FileRec>, refs: map<string, ChunkRef>, id: string, rec: FileRec)
    requires Counted(files, refs, multiset{}) && id !in files
    ensures Covers(files[id := rec], refs, multiset{}) <==> rec.digests == []
  {
    AllRefsInsert(files, id, rec);
    assert files - {id} == files;
    hide AllRefs;
    assert forall d :: AllRefs(files)[d] + multiset{}[d] == Count(refs, d);
    if rec.digests != [] {
      var d := rec.digests[0];
      assert multiset(rec.digests)[d] > 0;
      assert AllRefs(files[id := rec])[d] + multiset{}[d] > Count(refs, d);
    } else {
      assert AllRefs(files[id := rec]) == AllRefs(files);
    }
  }

  /** The record comes back after its references have been released. The file is
      gone from memory, and the backend lists it with counts that do not cover
      it, unless it has no chunks. */
  lemma DeleteBetweenInsertAndSave(cfg: Cfg, s: State, id: string, digests: seq<string>)
    requires Consistent(cfg, s, multiset(digests)) && s.disk.plan.Never? && ValidId(id)
    ensures var n := |Meaning(cfg, digests)|;
            var o := StaleSave(cfg, s, id, digests, n);
            var listed := FilesIn(o.s.disk.manifests);
            && o.Done? && o.s.files == s.files - {id} && listed == o.s.files[id := FileRec(digests, n)]
            && (Covers(listed, RefsIn(o.s.disk.refcounts), multiset{}) <==> digests == [])
  {
    var n, previous := |Meaning(cfg, digests)|, Previous(s, id);
    var rec := FileRec(digests, n);
    AcceptedAreDigests(cfg, s, digests);
    StaleSavePieces(cfg, s, id, rec);
    hide Consistent, RemoveManifest, ReleaseAll, SaveManifest, Meaning, AllDigests, FilesIn, RefsIn, StaleSave;
    hide Parses, Torn;
    hide Loadable, Sizable, Elsewhere, Covers, Counted, ManifestsParse, Previous, IndexOf;
    UnlinkAnyway(cfg, s, id, multiset(digests));
    var w := s.(files := s.files - {id}, disk := RemoveManifest(s.disk, id).s);
    assert multiset(digests) + multiset(previous) == multiset(previous) + multiset(digests);
    ReleaseAllExact(cfg, w, digests, multiset(previous));
    var v := ReleaseAll(cfg, w, digests).s;
    WholeWithPending(cfg, v, multiset(previous));
    assert ManifestsParse(v.disk.manifests) by { ParsesParts(v.disk); }
    SaveDone(v.disk, id, rec);
    var m := SaveManifest(v.disk, id, digests, n).s.manifests;
    assert multiset{} + multiset(previous) == multiset(previous);
    ReleaseAllExact(cfg, v, previous, multiset{});
    ReleaseElsewhere(cfg, v, v.files, m, previous);
    var r := ReleaseAll(cfg, v, previous).s;
    ConsistentLoads(cfg, r, multiset{});
    ExactlyCounted(cfg, r);
    ElsewhereFields(r, v.files, m);
    ResurrectedIsUncovered(r.files, r.refs, id, rec);
  }

  lemma ParsesParts(b: Disk)
    requires Parses(b)
    ensures ManifestsParse(b.manifests)
  {
    hide ManifestsParse;
  }

  lemma ElsewhereFields(s: State, files: map<string, FileRec>, m: map<string, Doc>)
    ensures var t := Elsewhere(s, files, m);
            t.files == files && t.refs == s.refs && t.disk.manifests == m && t.disk.refcounts == s.disk.refcounts
  {
  }

  lemma StaleSavePieces(cfg: Cfg, s: State, id: string, rec: FileRec)
    ensures var w := s.(files := s.files - {id}, disk := RemoveManifest(s.disk, id).s);
            var o := ReleaseAll(cfg, w, rec.digests);
            var p := SaveManifest(o.s.disk, id, rec.digests, rec.fileBytes);
            var q := ReleaseAll(cfg, Elsewhere(o.s, o.s.files, p.s.manifests), Previous(s, id));
            RemoveManifest(s.disk, id).Done? && o.Done? && p.Done? && p.s == o.s.disk.(manifests := p.s.manifests) ==>
              StaleSave(cfg, s, id, rec.digests, rec.fileBytes) == q
  {
    hide RemoveManifest, ReleaseAll, SaveManifest;
    assert s.files[id := rec] - {id} == s.files - {id};
  }

  lemma WholeWithPending(cfg: Cfg, s: State, pending: multiset<string>)
    requires Consistent(cfg, s, pending)
    ensures Parses(s.disk) && !Torn(s.disk) && FilesIn(s.disk.manifests) == s.files
    ensures forall f :: f in IndexOf(s.disk.manifests) <==> f in s.files
  {
    ConsistentLoads(cfg, s, pending);
    LoadedIsWhole(s.disk.(plan := Never));
    SamePlanned(s.disk, s.disk.(plan := Never));
    PersistedLookup(s.disk.manifests, FileDocs(s.files));
    hide Loadable, Sizable, RefsIn, FilesIn, Parses, Torn, IndexOf, BlobsGood, Backed, Counted, FilesSized;
    assert forall f :: f in FileDocs(s.files) <==> f in s.files;
  }

  lemma AcceptedAreDigests(cfg: Cfg, s: State, digests: seq<string>)
    requires Consistent(cfg, s, multiset(digests))
    ensures AllDigests(digests)
  {
    hide Consistent, AllDigests;
    assert multiset{} + multiset(digests) == multiset(digests);
    PendingDigests(cfg, s, digests, multiset{});
  }
}
