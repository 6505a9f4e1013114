/** A whole ingest that runs within a delete, or within the commit of another
    ingest of the same file. */
module ReplaceRaces {
  import opened Types
  import opened Hashing
  import opened DiskSpec
  import opened StoreSpec
  import opened Counting
  import opened Records
  import opened Invariants
  import opened ExactOps
  import opened ExactRelease
  import opened Refinement
  import opened Opening
  import opened Reopen
  import opened Vault
  import opened Salvage
  import opened Families
  import opened Recovery
  import opened Races
  import opened ReleaseRaces
  import opened SaveRaces
  import opened CommitRaces

  // ----- Ingesting while others hold references

  /** An ingest leaves alone what other operations hold. */
  lemma IngestPending(cfg: Cfg, s: State, id: string, chunks: seq<Bytes>, pending: multiset<string>)
    requires Consistent(cfg, s, pending) && s.disk.plan.Never? && LawfulCodec(cfg) && Ingestible(cfg, chunks)
    requires ValidId(id)
    ensures var o := Ingest(cfg, s, id, chunks);
            && o.Done? && Consistent(cfg, o.s, pending) && o.s.disk.plan.Never?
            && o.s.files == s.files[id := RecOf(cfg, chunks)]
  {
    hide Consistent, AcceptAll, Publish, ReleaseAll, LawfulCodec, AllInPlay, Encodable, Meaning, Concat, DigestsOf;
    hide AllDigests, IndexReadable, WithEntry;
    AcceptAllExact(cfg, s, chunks, pending);
    MeaningOfChunks(cfg, chunks);
    var a := AcceptAll(cfg, s, chunks).s;
    var digests := DigestsOf(cfg, chunks);
    var n := |Concat(chunks)|;
    PendingDigests(cfg, a, digests, pending);
    PublishEffect(a, id, digests, n);
    var p := Publish(a, id, digests, n).s;
    PublishedExact(cfg, a, p, id, digests, pending);
    ReleaseAllExact(cfg, p, Previous(a, id), pending);
  }

  lemma CountStepElsewhere(s: State, files: map<string, FileRec>, m: map<string, Doc>, d: string, size: nat)
    ensures var o, p := CountStep(s, d, size), CountStep(Elsewhere(s, files, m), d, size);
            && o.Done? == p.Done? && p.s == Elsewhere(o.s, files, m) && (o.Fail? ==> o.e == p.e)
  {
    hide SaveRefcount;
    var r := StoreSpec.Increment(s.refs, d, size);
    if r.Ok? {
      SaveElsewhere(s.disk, m, d, r.value.count, r.value.size);
    }
  }

  lemma BlobStepElsewhere(s: State, files: map<string, FileRec>, m: map<string, Doc>, d: string, blob: Bytes)
    ensures var o, p := BlobStep(s, d, blob), BlobStep(Elsewhere(s, files, m), d, blob);
            && o.Done? == p.Done? && p.s == Elsewhere(o.s, files, m)
            && (o.Done? ==> o.v == p.v) && (o.Fail? ==> o.e == p.e)
  {
    var t := Elsewhere(s, files, m);
    BlobStepIs(s, d, blob);
    BlobStepIs(t, d, blob);
    hide BlobStep;
  }

  /** One call if the blob is there, two if it is not. */
  lemma BlobStepIs(s: State, d: string, blob: Bytes)
    ensures var o, b := BlobStep(s, d, blob), Spend(s.disk);
            o == if Down(s.disk) then Fail(s, Fault)
                 else if d in s.disk.blobs then Done(s.(disk := b), true)
                 else if Down(b) then Fail(s.(disk := b), Fault)
                 else Done(s.(disk := Spend(b).(blobs := b.blobs[d := blob])), false)
  {
  }

  lemma StoreElsewhere(cfg: Cfg, s: State, files: map<string, FileRec>, m: map<string, Doc>, d: string, data: Bytes)
    ensures var o, p := StoreChunk(cfg, s, d, data), StoreChunk(cfg, Elsewhere(s, files, m), d, data);
            && o.Done? == p.Done? && p.s == Elsewhere(o.s, files, m)
  {
    hide BlobStep, CountStep;
    if Encode(cfg, data).Some? {
      var blob := Encode(cfg, data).value;
      BlobStepElsewhere(s, files, m, d, blob);
      CountStepElsewhere(BlobStep(s, d, blob).s, files, m, d, |data|);
    }
  }

  /** Accepting does not look at manifests. */
  lemma {:induction false} AcceptElsewhere(cfg: Cfg, s: State, files: map<string, FileRec>, m: map<string, Doc>,
                                           chunks: seq<Bytes>)
    ensures var o, p := AcceptAll(cfg, s, chunks), AcceptAll(cfg, Elsewhere(s, files, m), chunks);
            && o.Done? == p.Done? && p.s == Elsewhere(o.s, files, m) && (o.Done? ==> p.v == o.v)
    decreases |chunks|
  {
    hide StoreChunk, Elsewhere;
    if chunks != [] {
      var d := DigestHex(cfg, chunks[0]);
      StoreElsewhere(cfg, s, files, m, d, chunks[0]);
      var o := StoreChunk(cfg, s, d, chunks[0]);
      if o.Done? {
        AcceptElsewhere(cfg, o.s, files, m, chunks[1..]);
      }
    }
  }

  // ----- An ingest within a delete

  /** Where an ingest can run within a delete: between the removal of the manifest
      from memory and the removal of its record, or before turn `j` of the
      release. */
  datatype DeletePoint = BeforeRecord | BeforeTurn(j: nat)

  function DeleteRaced(cfg: Cfg, s: State, file: string, id: string, chunks: seq<Bytes>, at: DeletePoint)
    : Out<State, ()>
    requires file in s.files && (at.BeforeTurn? ==> at.j <= |s.files[file].digests|)
  {
    var digests := s.files[file].digests;
    var s0 := s.(files := s.files - {file});
    match at
    case BeforeRecord =>
      var s1 := Ingest(cfg, s0, id, chunks).s;
      var (s2, _) :- Lift(s1, RemoveManifest(s1.disk, file));
      ReleaseAll(cfg, s2, digests)
    case BeforeTurn(j) =>
      var (s1, _) :- Lift(s0, RemoveManifest(s0.disk, file));
      var (s2, _) :- ReleaseAll(cfg, s1, digests[..j]);
      ReleaseAll(cfg, Ingest(cfg, s2, id, chunks).s, digests[j..])
  }

  lemma IngestBeforeTurn(cfg: Cfg, s: State, file: string, id: string, chunks: seq<Bytes>, j: nat)
    requires Clean(cfg, s) && LawfulCodec(cfg) && Ingestible(cfg, chunks) && ValidId(id)
    requires file in s.files && j <= |s.files[file].digests|
    ensures var o := DeleteRaced(cfg, s, file, id, chunks, BeforeTurn(j));
            && o.Done? && Clean(cfg, o.s) && o.s.files == (s.files - {file})[id := RecOf(cfg, chunks)]
  {
    hide Consistent, RemoveManifest, ReleaseAll, Ingest, LawfulCodec, Ingestible, WithoutEntry, RecOf;
    var digests := s.files[file].digests;
    UnlinkExact(cfg, s, file, multiset{});
    var s1 := s.(files := s.files - {file}, disk := RemoveManifest(s.disk, file).s);
    assert digests == digests[..j] + digests[j..];
    var rest := multiset(digests[j..]);
    assert multiset{} + multiset(digests) == rest + multiset(digests[..j]);
    ReleaseAllExact(cfg, s1, digests[..j], rest);
    var s2 := ReleaseAll(cfg, s1, digests[..j]).s;
    IngestPending(cfg, s2, id, chunks, rest);
    assert rest == multiset{} + multiset(digests[j..]);
    ReleaseAllExact(cfg, Ingest(cfg, s2, id, chunks).s, digests[j..], multiset{});
  }

  /** With the manifest gone from memory alone. */
  lemma PublishedElsewhere(cfg: Cfg, s: State, files: map<string, FileRec>, m: map<string, Doc>, id: string,
                           chunks: seq<Bytes>)
    requires AcceptAll(cfg, s, chunks).Done? && s.disk.plan.Never? && AcceptAll(cfg, s, chunks).s.disk.plan.Never?
    requires IndexReadable(m) && ValidId(id) && AllDigests(AcceptAll(cfg, s, chunks).v)
    ensures var a, n := AcceptAll(cfg, s, chunks), |Concat(chunks)|;
            var previous := if id in files then files[id].digests else [];
            var m' := WithEntry(m, id, ManifestDoc(a.v, n));
            var o := ReleaseAll(cfg, a.s, previous);
            o.Done? ==>
              && Ingest(cfg, Elsewhere(s, files, m), id, chunks).Done?
              && Ingest(cfg, Elsewhere(s, files, m), id, chunks).s ==
                 Elsewhere(o.s, files[id := FileRec(a.v, n)], m')
  {
    var t := Elsewhere(s, files, m);
    AcceptElsewhere(cfg, s, files, m, chunks);
    var a, b, n := AcceptAll(cfg, s, chunks), AcceptAll(cfg, t, chunks), |Concat(chunks)|;
    PublishEffect(b.s, id, b.v, n);
    var previous := if id in files then files[id].digests else [];
    var m' := WithEntry(m, id, ManifestDoc(a.v, n));
    hide AcceptAll, Publish, ReleaseAll, AllDigests, WithEntry, Concat, IndexReadable;
    assert Publish(b.s, id, b.v, n).s == Elsewhere(a.s, files[id := FileRec(a.v, n)], m');
    ReleaseElsewhere(cfg, a.s, files[id := FileRec(a.v, n)], m', previous);
  }

  /** The store when the chunks are accepted, and what the ingest makes of it. */
  lemma IngestParts(cfg: Cfg, s: State, id: string, chunks: seq<Bytes>, pending: multiset<string>,
                    files: map<string, FileRec>, m: map<string, Doc>)
    requires Consistent(cfg, s, pending) && s.disk.plan.Never? && LawfulCodec(cfg) && Ingestible(cfg, chunks)
    requires ValidId(id) && IndexReadable(m)
    ensures var a, rec := AcceptAll(cfg, s, chunks).s, RecOf(cfg, chunks);
            var previous := if id in files then files[id].digests else [];
            var m' := WithEntry(m, id, ManifestDoc(rec.digests, rec.fileBytes));
            var o := ReleaseAll(cfg, a, previous);
            && a.files == s.files && a.disk.plan.Never? && a.disk.manifests == s.disk.manifests
            && Consistent(cfg, a, pending + multiset(rec.digests))
            && (o.Done? ==>
                  && Ingest(cfg, Elsewhere(s, files, m), id, chunks).Done?
                  && Ingest(cfg, Elsewhere(s, files, m), id, chunks).s == Elsewhere(o.s, files[id := rec], m'))
  {
    hide Consistent, AcceptAll, ReleaseAll, Ingest, LawfulCodec, AllInPlay, Encodable, Concat, DigestsOf, AllDigests;
    hide IndexReadable, WithEntry, Elsewhere;
    AcceptAllExact(cfg, s, chunks, pending);
    PendingDigests(cfg, AcceptAll(cfg, s, chunks).s, DigestsOf(cfg, chunks), pending);
    PublishedElsewhere(cfg, s, files, m, id, chunks);
  }

  /** The previous version can be released from the accepted store: it is, once
      the new one is published. */
  lemma PreviousReleases(cfg: Cfg, s: State, id: string, chunks: seq<Bytes>, pending: multiset<string>)
    requires Consistent(cfg, s, pending) && s.disk.plan.Never? && LawfulCodec(cfg) && Ingestible(cfg, chunks)
    requires ValidId(id)
    ensures ReleaseAll(cfg, AcceptAll(cfg, s, chunks).s, Previous(s, id)).Done?
  {
    var a, rec := AcceptAll(cfg, s, chunks).s, RecOf(cfg, chunks);
    ReadableIndex(cfg, s, pending);
    IngestParts(cfg, s, id, chunks, pending, s.files, s.disk.manifests);
    MeaningOfChunks(cfg, chunks);
    hide Consistent, AcceptAll, ReleaseAll, Ingest, LawfulCodec, Ingestible, Concat, DigestsOf, Meaning, WithEntry;
    var m := WithEntry(a.disk.manifests, id, ManifestDoc(rec.digests, rec.fileBytes));
    var p := Elsewhere(a, a.files[id := rec], m);
    PublishedExact(cfg, a, p, id, rec.digests, pending);
    ReleaseAllExact(cfg, p, Previous(s, id), pending);
    ReleaseElsewhere(cfg, a, a.files[id := rec], m, Previous(s, id));
  }

  lemma BeforeRecordPieces(cfg: Cfg, s: State, file: string, id: string, chunks: seq<Bytes>)
    requires file in s.files
    ensures var s1 := Ingest(cfg, s.(files := s.files - {file}), id, chunks).s;
            var o := RemoveManifest(s1.disk, file);
            o.Done? ==>
              DeleteRaced(cfg, s, file, id, chunks, BeforeRecord) ==
              ReleaseAll(cfg, s1.(disk := o.s), s.files[file].digests)
  {
    hide Ingest, RemoveManifest, ReleaseAll;
  }

  /** Whether memory still has another file makes no difference to an ingest. */
  lemma ForgottenIngest(cfg: Cfg, s: State, file: string, id: string, chunks: seq<Bytes>)
    requires Clean(cfg, s) && LawfulCodec(cfg) && Ingestible(cfg, chunks) && ValidId(id)
    requires file in s.files && file != id
    ensures var q := Ingest(cfg, s, id, chunks).s;
            Ingest(cfg, s.(files := s.files - {file}), id, chunks).s == q.(files := q.files - {file})
    ensures var q := Ingest(cfg, s, id, chunks).s;
            file in q.files && q.files[file] == s.files[file]
  {
    hide *;
    CleanIs(cfg, s);
    var m, files, rec := s.disk.manifests, s.files - {file}, RecOf(cfg, chunks);
    ReadableIndex(cfg, s, multiset{});
    PreviousReleases(cfg, s, id, chunks, multiset{});
    OwnElsewhere(s);
    PreviousIs(s, id);
    ElsewhereIs(s, files, m);
    ForgottenFiles(s.files, id, file, rec);
    IngestParts(cfg, s, id, chunks, multiset{}, s.files, m);
    IngestParts(cfg, s, id, chunks, multiset{}, files, m);
    var r := ReleaseAll(cfg, AcceptAll(cfg, s, chunks).s, Previous(s, id)).s;
    var m' := WithEntry(m, id, ManifestDoc(rec.digests, rec.fileBytes));
    ElsewhereIs(r, s.files[id := rec], m');
    ElsewhereIs(r, files[id := rec], m');
  }

  lemma ForgottenFiles(files: map<string, FileRec>, id: string, file: string, rec: FileRec)
    requires file in files && file != id
    ensures files[id := rec] - {file} == (files - {file})[id := rec]
    ensures file in files[id := rec] && files[id := rec][file] == files[file]
    ensures id in files <==> id in files - {file}
    ensures id in files ==> files[id] == (files - {file})[id]
  {
  }

  /** What is left of the delete of another file is that delete. */
  lemma IngestOtherBeforeRecord(cfg: Cfg, s: State, file: string, id: string, chunks: seq<Bytes>)
    requires Clean(cfg, s) && LawfulCodec(cfg) && Ingestible(cfg, chunks) && ValidId(id)
    requires file in s.files && file != id
    ensures var q := Ingest(cfg, s, id, chunks).s;
            DeleteRaced(cfg, s, file, id, chunks, BeforeRecord) == Delete(cfg, q, file)
  {
    hide *;
    var q := Ingest(cfg, s, id, chunks).s;
    CleanIs(cfg, s);
    ForgottenIngest(cfg, s, file, id, chunks);
    IngestPending(cfg, s, id, chunks, multiset{});
    ReadableIndex(cfg, q, multiset{});
    FileIsNotIndex(cfg, q, file, multiset{});
    ValidIsNotIndex(file);
    UnlinkDone(q.disk, file);
    BeforeRecordPieces(cfg, s, file, id, chunks);
    DeletePieces(cfg, q, file);
  }

  lemma CleanIs(cfg: Cfg, s: State)
    ensures Clean(cfg, s) <==> Consistent(cfg, s, multiset{}) && s.disk.plan.Never?
  {
    hide Consistent;
  }

  lemma UnlinkDone(b: Disk, file: string)
    requires b.plan.Never? && IndexReadable(b.manifests) && file != INDEX
    ensures var o := RemoveManifest(b, file);
            o.Done? && o.s == b.(manifests := WithoutEntry(b.manifests, file))
  {
    hide RemoveEntry, WithoutEntry, IndexReadable;
    RemoveEntryEffect(b, Manifests, file);
  }

  /** The delete of the ingested file itself takes the new record with it. */
  lemma IngestSameBeforeRecord(cfg: Cfg, s: State, id: string, chunks: seq<Bytes>)
    requires Clean(cfg, s) && LawfulCodec(cfg) && Ingestible(cfg, chunks) && ValidId(id) && id in s.files
    ensures var q, o := Ingest(cfg, s, id, chunks).s, DeleteRaced(cfg, s, id, id, chunks, BeforeRecord);
            o.Done? && o.s == Elsewhere(q, q.files, WithoutEntry(q.disk.manifests, id))
  {
    hide *;
    CleanIs(cfg, s);
    var m, rec := s.disk.manifests, RecOf(cfg, chunks);
    var files, a := s.files - {id}, AcceptAll(cfg, s, chunks).s;
    ReadableIndex(cfg, s, multiset{});
    PreviousReleases(cfg, s, id, chunks, multiset{});
    OwnElsewhere(s);
    PreviousIs(s, id);
    IngestParts(cfg, s, id, chunks, multiset{}, s.files, m);
    IngestParts(cfg, s, id, chunks, multiset{}, files, m);
    NothingToRelease(cfg, a);
    var m' := WithEntry(m, id, ManifestDoc(rec.digests, rec.fileBytes));
    assert files[id := rec] == s.files[id := rec];
    var p := Elsewhere(a, s.files[id := rec], m');
    ValidIsNotIndex(id);
    EntryReadable(m, id, ManifestDoc(rec.digests, rec.fileBytes));
    ElsewhereIs(s, files, m);
    ElsewhereIs(a, s.files[id := rec], m');
    ElsewhereIs(a, s.files[id := rec], WithoutEntry(m', id));
    UnlinkDone(p.disk, id);
    BeforeRecordPieces(cfg, s, id, id, chunks);
    var r := ReleaseAll(cfg, a, Previous(s, id)).s;
    ReleaseElsewhere(cfg, a, s.files[id := rec], WithoutEntry(m', id), Previous(s, id));
    ElsewhereIs(r, s.files[id := rec], m');
    var q := Elsewhere(r, s.files[id := rec], m');
    ElsewhereIs(r, s.files[id := rec], WithoutEntry(m', id));
    ElsewhereIs(q, s.files[id := rec], WithoutEntry(m', id));
  }

  lemma OwnElsewhere(s: State)
    ensures Elsewhere(s, s.files, s.disk.manifests) == s
  {
  }

  lemma ElsewhereIs(s: State, files: map<string, FileRec>, m: map<string, Doc>)
    ensures Elsewhere(s, files, m) == s.(files := files, disk := s.disk.(manifests := m))
  {
  }

  lemma PreviousIs(s: State, id: string)
    ensures Previous(s, id) == if id in s.files then s.files[id].digests else []
  {
  }

  lemma EntryReadable(m: map<string, Doc>, id: string, doc: Doc)
    requires IndexReadable(m) && id != INDEX
    ensures IndexReadable(WithEntry(m, id, doc))
  {
  }

  /** A file of a clean store reads back, whatever the manifests on the backend
      are. */
  lemma ReadsElsewhere(cfg: Cfg, s: State, m: map<string, Doc>, f: string)
    requires Clean(cfg, s) && f in s.files
    ensures ReadsAs(cfg, Elsewhere(s, s.files, m), f, Meaning(cfg, s.files[f].digests))
  {
    var digests := s.files[f].digests;
    var b := s.disk.(manifests := m);
    assert BlobsGood(cfg, b.blobs);
    hide Consistent, BlobsGood, Known, ReadTo, Meaning;
    forall i | 0 <= i < |digests| ensures Known(cfg, digests[i]) && digests[i] in b.blobs {
      FileIsBacked(cfg, s, multiset{}, f, digests[i]);
    }
    ReadToExact(cfg, b, digests, []);
    assert [] + Meaning(cfg, digests) == Meaning(cfg, digests);
  }

  /** A store whose backend does not list one of its files. */
  lemma ForgottenByBackend(cfg: Cfg, s: State, id: string)
    requires Clean(cfg, s) && id in s.files
    ensures var t := Elsewhere(s, s.files, WithoutEntry(s.disk.manifests, id));
            FilesIn(t.disk.manifests) == t.files - {id} && !Clean(cfg, t)
  {
    var t := Elsewhere(s, s.files, WithoutEntry(s.disk.manifests, id));
    ConsistentIsInStep(cfg, s, multiset{});
    InStepIsGuarded(cfg, s);
    FileIsNotIndex(cfg, s, id, multiset{});
    hide InStep, Guarded, FilesIn, ManifestsParse, RefcountsParse, WithoutEntry, Consistent, RemoveManifest;
    UnlinkDone(s.disk, id);
    RemoveManifestKeeps(s.disk, id);
    if Consistent(cfg, t, multiset{}) {
      ConsistentLoads(cfg, t, multiset{});
    }
  }

  /** An ingest of any file within a delete. Every file in memory reads back, and
      the store is exact, unless the ingest is of the deleted file and runs before
      the record is removed: then the backend does not list the new file, and the
      next open does not load it. */
  lemma IngestDuringDelete(cfg: Cfg, s: State, file: string, id: string, chunks: seq<Bytes>, at: DeletePoint)
    requires Clean(cfg, s) && LawfulCodec(cfg) && Ingestible(cfg, chunks) && ValidId(id)
    requires file in s.files && (at.BeforeTurn? ==> at.j <= |s.files[file].digests|)
    ensures var o := DeleteRaced(cfg, s, file, id, chunks, at);
            var lost := at.BeforeRecord? && id == file;
            && o.Done? && o.s.files == (s.files - {file})[id := RecOf(cfg, chunks)]
            && (forall f :: f in o.s.files ==> ReadsAs(cfg, o.s, f, Meaning(cfg, o.s.files[f].digests)))
            && FilesIn(o.s.disk.manifests) == (if lost then o.s.files - {id} else o.s.files)
            && (Clean(cfg, o.s) <==> !lost)
  {
    hide *;
    var o := DeleteRaced(cfg, s, file, id, chunks, at);
    CleanIs(cfg, s);
    IngestPending(cfg, s, id, chunks, multiset{});
    var q := Ingest(cfg, s, id, chunks).s;
    CleanIs(cfg, q);
    var t := q;
    if at.BeforeTurn? {
      IngestBeforeTurn(cfg, s, file, id, chunks, at.j);
      t := o.s;
    } else if id != file {
      ForgottenFiles(s.files, id, file, RecOf(cfg, chunks));
      IngestOtherBeforeRecord(cfg, s, file, id, chunks);
      DeletePending(cfg, q, file, multiset{});
      t := o.s;
    } else {
      IngestSameBeforeRecord(cfg, s, id, chunks);
      ForgottenByBackend(cfg, q, id);
      ElsewhereIs(q, q.files, WithoutEntry(q.disk.manifests, id));
      assert (s.files - {id})[id := RecOf(cfg, chunks)] == s.files[id := RecOf(cfg, chunks)];
    }
    CleanIs(cfg, t);
    ConsistentLoads(cfg, t, multiset{});
    OwnElsewhere(t);
    ElsewhereIs(t, t.files, o.s.disk.manifests);
    forall f | f in o.s.files ensures ReadsAs(cfg, o.s, f, Meaning(cfg, o.s.files[f].digests)) {
      ReadsElsewhere(cfg, t, o.s.disk.manifests, f);
    }
  }

  // ----- An ingest within the commit of another one

  /** A replacement that peeks at the previous version, then loses it to another
      replacement, then inserts, saves and releases. */
  function LatePeek(cfg: Cfg, s: State, id: string, digests: seq<string>, n: nat, chunks: seq<Bytes>): Out<State, ()> {
    var previous := if id in s.files then s.files[id].digests else [];
    var (s1, _) :- Ingest(cfg, s, id, chunks);
    var (s2, _) :- Publish(s1, id, digests, n);
    ReleaseAll(cfg, s2, previous)
  }

  /** The previous version is released twice, and the one in between not at all.
      The commit succeeds with exact counts if and only if these two have the
      same chunks. */
  lemma IngestBetweenPeekAndInsert(cfg: Cfg, s: State, id: string, digests: seq<string>, chunks: seq<Bytes>)
    requires Consistent(cfg, s, multiset(digests)) && s.disk.plan.Never? && ValidId(id)
    requires LawfulCodec(cfg) && Ingestible(cfg, chunks)
    ensures var o := LatePeek(cfg, s, id, digests, |Meaning(cfg, digests)|, chunks);
            o.Done? && Counted(o.s.files, o.s.refs, multiset{})
            <==> multiset(Previous(s, id)) == multiset(DigestsOf(cfg, chunks))
  {
    var n, previous, inner := |Meaning(cfg, digests)|, Previous(s, id), DigestsOf(cfg, chunks);
    hide Consistent, Ingest, Publish, ReleaseAll, Meaning, AllDigests, IndexReadable, WithEntry, AllRefs, DigestsOf;
    hide LawfulCodec, Ingestible, Concat;
    assert multiset{} + multiset(digests) == multiset(digests);
    IngestPending(cfg, s, id, chunks, multiset(digests));
    var s1 := Ingest(cfg, s, id, chunks).s;
    PendingDigests(cfg, s1, digests, multiset{});
    PublishEffect(s1, id, digests, n);
    var s2 := Publish(s1, id, digests, n).s;
    PublishedExact(cfg, s1, s2, id, digests, multiset{});
    assert multiset{} + multiset(Previous(s1, id)) == multiset(inner);
    CountedWith(cfg, s2, multiset(inner));
    ReleaseAllCounts(cfg, s2, previous);
    if multiset(previous) == multiset(inner) {
      assert multiset{} + multiset(previous) == multiset(inner);
      ReleaseAllExact(cfg, s2, previous, multiset{});
      CountedWith(cfg, ReleaseAll(cfg, s2, previous).s, multiset{});
    } else {
      SomeDigestDiffers(previous, inner);
    }
  }

  lemma CountedWith(cfg: Cfg, s: State, pending: multiset<string>)
    requires Consistent(cfg, s, pending)
    ensures Counted(s.files, s.refs, pending)
  {
    hide Counted;
  }

  lemma SomeDigestDiffers(a: seq<string>, b: seq<string>)
    requires multiset(a) != multiset(b)
    ensures exists d :: multiset(a)[d] != multiset(b)[d]
  {
  }

  /** A commit whose manifest is inserted, then replaced by another ingest, then
      saved. */
  function LateSave(cfg: Cfg, s: State, id: string, rec: FileRec, chunks: seq<Bytes>): Out<State, ()> {
    var previous := if id in s.files then s.files[id].digests else [];
    var (s1, _) :- Ingest(cfg, s.(files := s.files[id := rec]), id, chunks);
    var (s2, _) :- Lift(s1, SaveManifest(s1.disk, id, rec.digests, rec.fileBytes));
    ReleaseAll(cfg, s2, previous)
  }

  lemma LateSavePieces(cfg: Cfg, s: State, id: string, rec: FileRec, chunks: seq<Bytes>)
    ensures var o := Ingest(cfg, s.(files := s.files[id := rec]), id, chunks);
            var p := SaveManifest(o.s.disk, id, rec.digests, rec.fileBytes);
            o.Done? && p.Done? ==>
              LateSave(cfg, s, id, rec, chunks) == ReleaseAll(cfg, o.s.(disk := p.s), Previous(s, id))
  {
    hide Ingest, SaveManifest, ReleaseAll;
  }

  /** Saving twice is saving once. */
  lemma EntryTwice(m: map<string, Doc>, id: string, doc: Doc, doc': Doc)
    requires id != INDEX
    ensures WithEntry(WithEntry(m, id, doc), id, doc') == WithEntry(m, id, doc')
    ensures IndexReadable(m) ==> IndexReadable(WithEntry(m, id, doc))
  {
  }

  /** Which manifest is on the backend makes no difference to the replacement. */
  lemma UnsavedIngest(cfg: Cfg, s: State, id: string, digests: seq<string>, chunks: seq<Bytes>)
    requires Consistent(cfg, s, multiset(digests)) && s.disk.plan.Never? && ValidId(id)
    requires LawfulCodec(cfg) && Ingestible(cfg, chunks)
    ensures var rec := FileRec(digests, |Meaning(cfg, digests)|);
            Ingest(cfg, s.(files := s.files[id := rec]), id, chunks).Done?
    ensures var rec := FileRec(digests, |Meaning(cfg, digests)|);
            Ingest(cfg, s.(files := s.files[id := rec]), id, chunks).s == Ingest(cfg, Saved(s, id, rec), id, chunks).s
  {
    hide *;
    var rec := FileRec(digests, |Meaning(cfg, digests)|);
    var m, files := s.disk.manifests, s.files[id := rec];
    var doc := ManifestDoc(rec.digests, rec.fileBytes);
    var w := WithEntry(m, id, doc);
    SavedExactly(cfg, s, id, digests);
    var z := Saved(s, id, rec);
    SavedIs(s, id, rec);
    ReadableIndex(cfg, s, multiset(digests));
    ReadableIndex(cfg, z, multiset(Previous(s, id)));
    ValidIsNotIndex(id);
    PreviousReleases(cfg, z, id, chunks, multiset(Previous(s, id)));
    PreviousIs(z, id);
    var inner := RecOf(cfg, chunks);
    EntryTwice(m, id, doc, ManifestDoc(inner.digests, inner.fileBytes));
    IngestParts(cfg, z, id, chunks, multiset(Previous(s, id)), files, m);
    IngestParts(cfg, z, id, chunks, multiset(Previous(s, id)), files, w);
    ElsewhereIs(s, files, w);
    ElsewhereIs(z, files, m);
    ElsewhereIs(z, files, w);
  }

  lemma SavedIs(s: State, id: string, rec: FileRec)
    ensures var w := WithEntry(s.disk.manifests, id, ManifestDoc(rec.digests, rec.fileBytes));
            Saved(s, id, rec) == Elsewhere(s, s.files[id := rec], w)
    ensures Saved(s, id, rec) == Saved(s, id, rec).(files := s.files[id := rec])
  {
  }

  lemma ReplacedCovers(files: map<string, FileRec>, refs: map<string, ChunkRef>, id: string, rec: FileRec)
    requires Counted(files, refs, multiset{}) && id in files
    ensures Covers(files[id := rec], refs, multiset{}) <==> multiset(rec.digests) <= multiset(files[id].digests)
  {
    ReplacedHoldings(files, id, rec);
    hide AllRefs;
    assert forall d :: AllRefs(files)[d] + multiset{}[d] == Count(refs, d);
    var before := multiset(files[id].digests);
    assert forall d :: AllRefs(files)[d] + multiset(rec.digests)[d] == AllRefs(files[id := rec])[d] + before[d];
    if !(multiset(rec.digests) <= before) {
      var d :| multiset(rec.digests)[d] > before[d];
      assert AllRefs(files[id := rec])[d] + multiset{}[d] > Count(refs, d);
    }
  }

  /** The backend ends up with the outer manifest and memory with the inner one.
      Counts are exact for memory, and cover what the backend lists if and only
      if the outer manifest has no chunk that the inner one lacks. */
  lemma IngestBetweenInsertAndSave(cfg: Cfg, s: State, id: string, digests: seq<string>, chunks: seq<Bytes>)
    requires Consistent(cfg, s, multiset(digests)) && s.disk.plan.Never? && ValidId(id)
    requires LawfulCodec(cfg) && Ingestible(cfg, chunks)
    ensures var rec := FileRec(digests, |Meaning(cfg, digests)|);
            var o := LateSave(cfg, s, id, rec, chunks);
            var listed := FilesIn(o.s.disk.manifests);
            && o.Done? && o.s.files == s.files[id := RecOf(cfg, chunks)] && listed == o.s.files[id := rec]
            && Counted(o.s.files, o.s.refs, multiset{})
            && (Covers(listed, RefsIn(o.s.disk.refcounts), multiset{}) <==>
                multiset(digests) <= multiset(DigestsOf(cfg, chunks)))
  {
    hide *;
    var rec, inner := FileRec(digests, |Meaning(cfg, digests)|), RecOf(cfg, chunks);
    var previous := Previous(s, id);
    UnsavedIngest(cfg, s, id, digests, chunks);
    SavedExactly(cfg, s, id, digests);
    var z := Saved(s, id, rec);
    IngestPending(cfg, z, id, chunks, multiset(previous));
    var zi := Ingest(cfg, z, id, chunks).s;
    AcceptedAreDigests(cfg, s, digests);
    WholeWithPending(cfg, zi, multiset(previous));
    ParsesParts(zi.disk);
    SaveDone(zi.disk, id, rec);
    var m := SaveManifest(zi.disk, id, rec.digests, rec.fileBytes).s.manifests;
    LateSavePieces(cfg, s, id, rec, chunks);
    ElsewhereIs(zi, zi.files, m);
    assert multiset{} + multiset(previous) == multiset(previous);
    ReleaseAllExact(cfg, zi, previous, multiset{});
    ReleaseElsewhere(cfg, zi, zi.files, m, previous);
    ReleaseAllCounts(cfg, zi, previous);
    assert s.files[id := rec][id := inner] == s.files[id := inner];
    var e := ReleaseAll(cfg, zi, previous).s;
    ElsewhereIs(e, zi.files, m);
    ConsistentLoads(cfg, e, multiset{});
    CountedWith(cfg, e, multiset{});
    ReplacedCovers(e.files, e.refs, id, rec);
    InnerDigests(cfg, chunks);
  }

  lemma InnerDigests(cfg: Cfg, chunks: seq<Bytes>)
    ensures RecOf(cfg, chunks).digests == DigestsOf(cfg, chunks)
  {
  }
}
