/** A delete that runs between the calls of a manifest save, which hold no lock:
    the record, the read of the index list, the write of the index list. */
module SaveRaces {
  import opened Types
  import opened Hashing
  import opened DiskSpec
  import opened StoreSpec
  import opened Counting
  import opened Records
  import opened Invariants
  import opened ExactOps
  import opened ExactRelease
  import opened Refinement
  import opened Salvage
  import opened Recovery
  import opened Races

  /** The end of `save_manifest`. */
  function WriteIndex(s: State, id: string, index: seq<string>): Out<State, ()> {
    if id in index then Done(s, ()) else Lift(s, PutDoc(s.disk, Manifests, INDEX, List(index + [id])))
  }

  /** The insertion and save of a manifest, with a delete after the record has
      been put, or after the index has been read as well. */
  function SaveRaced(cfg: Cfg, s: State, id: string, rec: FileRec, file: string, afterRead: bool): Out<State, ()> {
    var s1 := s.(files := s.files[id := rec]);
    var (s2, _) :- Lift(s1, PutDoc(s1.disk, Manifests, id, ManifestDoc(rec.digests, rec.fileBytes)));
    if afterRead then
      var (s3, index) :- Lift(s2, ReadList(s2.disk, Manifests));
      WriteIndex(Delete(cfg, s3, file).s, id, index)
    else
      var s3 := Delete(cfg, s2, file).s;
      var (s4, index) :- Lift(s3, ReadList(s3.disk, Manifests));
      WriteIndex(s4, id, index)
  }

  /** Without such a file it is the save. */
  lemma SaveUnraced(cfg: Cfg, s: State, id: string, rec: FileRec, file: string, afterRead: bool)
    requires file !in s.files[id := rec] && id != "" && AllDigests(rec.digests)
    ensures var o, p := SaveRaced(cfg, s, id, rec, file, afterRead), Publish(s, id, rec.digests, rec.fileBytes);
            o.Done? == p.Done? && o.s == p.s
  {
    hide ReadList, AllDigests;
  }

  /** The list is written as it was read, or the record is gone before the list is
      read. */
  ghost predicate Undone(files: map<string, FileRec>, id: string, file: string, afterRead: bool) {
    if afterRead then id !in files else file == id
  }

  // ----- The family of manifests

  ghost function WithIndex(m: map<string, Doc>, id: string, index: seq<string>): map<string, Doc> {
    if id in index then m else m[INDEX := List(index + [id])]
  }

  ghost function SavedAround(m: map<string, Doc>, id: string, doc: Doc, file: string, afterRead: bool)
    : map<string, Doc>
  {
    var gone := WithoutEntry(m[id := doc], file);
    WithIndex(gone, id, if afterRead then IndexOf(m) else IndexOf(gone))
  }

  lemma SavedAroundResult(m: map<string, Doc>, docs: map<string, Doc>, id: string, doc: Doc, file: string,
                          afterRead: bool)
    requires Persisted(m, docs) && id != INDEX && file != INDEX && (file == id || file in docs)
    ensures var m' := SavedAround(m, id, doc, file, afterRead);
            if (if afterRead then id !in docs else file == id) then file in IndexOf(m') && file !in m'
            else Persisted(m', docs[id := doc] - {file})
  {
    var index := IndexOf(m);
    var gone := WithoutEntry(m[id := doc], file);
    GoneParts(m, id, doc, file);
    IndexAround(index, id, file, afterRead);
    WithIndexParts(gone, id, if afterRead then index else IndexOf(gone));
    hide Retain, WithoutEntry, IndexOf, IndexReadable, WithIndex, NoDup;
    assert file !in docs[id := doc] - {file};
  }

  /** The list that is left. */
  lemma IndexAround(index: seq<string>, id: string, file: string, afterRead: bool)
    requires NoDup(index) && (file == id || file in index)
    ensures var seen := if afterRead then index else Retain(index, file);
            var left := if id in seen then Retain(index, file) else seen + [id];
            if (if afterRead then id !in index else file == id) then file in left
            else NoDup(left) && forall x :: x in left <==> (x in index || x == id) && x != file
  {
    RetainFacts(index, file);
    hide Retain;
  }

  lemma GoneParts(m: map<string, Doc>, id: string, doc: Doc, file: string)
    requires id != INDEX && file != INDEX
    ensures var gone := WithoutEntry(m[id := doc], file);
            && IndexOf(gone) == Retain(IndexOf(m), file) && gone - {INDEX} == (m - {INDEX})[id := doc] - {file}
            && IndexReadable(gone)
  {
    hide Retain;
    assert IndexOf(m[id := doc]) == IndexOf(m);
    assert WithoutEntry(m[id := doc], file) - {INDEX} == (m - {INDEX})[id := doc] - {file};
  }

  lemma WithIndexParts(m: map<string, Doc>, id: string, index: seq<string>)
    requires IndexReadable(m)
    ensures var m' := WithIndex(m, id, index);
            && IndexReadable(m') && m' - {INDEX} == m - {INDEX}
            && IndexOf(m') == (if id in index then IndexOf(m) else index + [id])
            && (forall f :: f != INDEX ==> (f in m' <==> f in m))
  {
    assert m[INDEX := List(index + [id])] - {INDEX} == m - {INDEX};
  }

  // ----- The store

  /** The same release, whatever the manifests are. */
  lemma DeleteElsewhere(cfg: Cfg, s: State, m: map<string, Doc>, file: string)
    requires s.disk.plan.Never? && IndexReadable(s.disk.manifests) && IndexReadable(m)
    requires file in s.files && file != INDEX
    ensures Delete(cfg, Elsewhere(s, s.files, m), file).s ==
            Elsewhere(Delete(cfg, s, file).s, s.files - {file}, WithoutEntry(m, file))
  {
    hide ReleaseAll, RemoveEntry, WithoutEntry, IndexReadable;
    var t := Elsewhere(s, s.files, m);
    RemoveEntryEffect(s.disk, Manifests, file);
    RemoveEntryEffect(t.disk, Manifests, file);
    var s1 := s.(files := s.files - {file}, disk := RemoveManifest(s.disk, file).s);
    ReleaseElsewhere(cfg, s1, s1.files, WithoutEntry(m, file), s.files[file].digests);
  }

  /** The manifest is in memory and on the backend, and listed. */
  ghost function Saved(s: State, id: string, rec: FileRec): State {
    var doc := ManifestDoc(rec.digests, rec.fileBytes);
    Elsewhere(s, s.files[id := rec], WithEntry(s.disk.manifests, id, doc))
  }

  lemma SaveRacedPieces(cfg: Cfg, s: State, id: string, rec: FileRec, file: string, afterRead: bool)
    requires s.disk.plan.Never? && IndexReadable(s.disk.manifests) && id != INDEX && file != INDEX
    requires file in s.files[id := rec]
    requires Delete(cfg, Saved(s, id, rec), file).s.disk.plan.Never?
    ensures var doc := ManifestDoc(rec.digests, rec.fileBytes);
            var t := Delete(cfg, Saved(s, id, rec), file).s;
            SaveRaced(cfg, s, id, rec, file, afterRead) ==
            Done(Elsewhere(t, s.files[id := rec] - {file},
                           SavedAround(s.disk.manifests, id, doc, file, afterRead)), ())
  {
    var doc := ManifestDoc(rec.digests, rec.fileBytes);
    var m := s.disk.manifests;
    var u := Saved(s, id, rec);
    var s2 := Elsewhere(u, u.files, m[id := doc]);
    RecordReadable(m, id, doc);
    GoneParts(m, id, doc, file);
    DeleteElsewhere(cfg, u, m[id := doc], file);
    hide Delete, WithoutEntry, WithEntry, IndexReadable, Retain, IndexOf, ReadList;
    var t := Delete(cfg, s2, file).s;
    ReadListEffect(s2.disk, Manifests);
    ReadListEffect(t.disk, Manifests);
  }

  lemma RecordReadable(m: map<string, Doc>, id: string, doc: Doc)
    requires IndexReadable(m) && id != INDEX
    ensures IndexReadable(m[id := doc]) && IndexOf(m[id := doc]) == IndexOf(m) && IndexReadable(WithEntry(m, id, doc))
  {
  }

  /** A store is exact when its manifests are, and the rest of it is. */
  lemma ExactElsewhere(cfg: Cfg, s: State, m: map<string, Doc>, pending: multiset<string>)
    requires Consistent(cfg, s, pending) && Persisted(m, FileDocs(s.files))
    ensures Consistent(cfg, Elsewhere(s, s.files, m), pending)
  {
    hide Persisted, Counted, Backed, BlobsGood, FilesSized;
  }

  lemma DocsAround(files: map<string, FileRec>, id: string, rec: FileRec, file: string)
    ensures FileDocs(files[id := rec] - {file}) ==
            FileDocs(files)[id := ManifestDoc(rec.digests, rec.fileBytes)] - {file}
  {
    FileDocsInsert(files, id, rec);
  }

  /** A delete, also of the saved file itself, between the calls of a manifest
      save. It is undone on the backend, which cannot be opened any more, if and
      only if the record is gone before the list is read, or the list is
      written as it was before the delete: that is when the saved file is deleted
      before the read, or any file between the read and the write of a list that
      did not have the saved file. Otherwise the store is exact, with nothing but
      the previous version left to release. */
  lemma DeleteDuringSave(cfg: Cfg, s: State, id: string, digests: seq<string>, file: string, afterRead: bool)
    requires Consistent(cfg, s, multiset(digests)) && s.disk.plan.Never? && ValidId(id)
    requires file == id || file in s.files
    ensures var rec := FileRec(digests, |Meaning(cfg, digests)|);
            var o := SaveRaced(cfg, s, id, rec, file, afterRead);
            && o.Done? && o.s.files == s.files[id := rec] - {file}
            && (Torn(o.s.disk) <==> Undone(s.files, id, file, afterRead))
            && (!Undone(s.files, id, file, afterRead) ==> Consistent(cfg, o.s, multiset(Previous(s, id))))
  {
    var rec := FileRec(digests, |Meaning(cfg, digests)|);
    var doc := ManifestDoc(rec.digests, rec.fileBytes);
    var previous := multiset(Previous(s, id));
    SavedExactly(cfg, s, id, digests);
    hide *;
    var u := Saved(s, id, rec);
    FileIsNotIndex(cfg, u, file, previous);
    FileIsNotIndex(cfg, u, id, previous);
    DeletePending(cfg, u, file, previous);
    var t := Delete(cfg, u, file).s;
    ReadableIndex(cfg, s, multiset(digests));
    ValidIsNotIndex(id);
    ValidIsNotIndex(file);
    SaveRacedPieces(cfg, s, id, rec, file, afterRead);
    ManifestsPersisted(cfg, s, multiset(digests));
    SavedAroundResult(s.disk.manifests, FileDocs(s.files), id, doc, file, afterRead);
    var m := SavedAround(s.disk.manifests, id, doc, file, afterRead);
    DocsAround(s.files, id, rec, file);
    ElsewhereParts(t, s.files[id := rec] - {file}, m);
    UndoneIff(s.files, id, file, afterRead);
    if Undone(s.files, id, file, afterRead) {
      RecordlessIsTorn(Elsewhere(t, t.files, m).disk, file);
    } else {
      ExactElsewhere(cfg, t, m, previous);
      ConsistentIsInStep(cfg, Elsewhere(t, t.files, m), previous);
      InStepIsWhole(cfg, Elsewhere(t, t.files, m));
    }
  }

  lemma SavedExactly(cfg: Cfg, s: State, id: string, digests: seq<string>)
    requires Consistent(cfg, s, multiset(digests)) && s.disk.plan.Never? && ValidId(id)
    ensures var rec := FileRec(digests, |Meaning(cfg, digests)|);
            var u := Saved(s, id, rec);
            && Consistent(cfg, u, multiset(Previous(s, id))) && u.disk.plan.Never? && u.files == s.files[id := rec]
  {
    hide Consistent, Meaning, WithEntry;
    assert multiset{} + multiset(digests) == multiset(digests);
    assert multiset{} + multiset(Previous(s, id)) == multiset(Previous(s, id));
    PublishedExact(cfg, s, Saved(s, id, FileRec(digests, |Meaning(cfg, digests)|)), id, digests, multiset{});
  }

  lemma ManifestsPersisted(cfg: Cfg, s: State, pending: multiset<string>)
    requires Consistent(cfg, s, pending)
    ensures Persisted(s.disk.manifests, FileDocs(s.files))
    ensures forall f :: f in FileDocs(s.files) <==> f in s.files
  {
    hide Persisted;
  }

  lemma ElsewhereParts(s: State, files: map<string, FileRec>, m: map<string, Doc>)
    ensures var t := Elsewhere(s, files, m);
            && t.files == files && t.disk.manifests == m && t.disk.plan == s.disk.plan
  {
  }

  lemma UndoneIff(files: map<string, FileRec>, id: string, file: string, afterRead: bool)
    ensures Undone(files, id, file, afterRead) <==>
            if afterRead then id !in FileDocs(files) else file == id
  {
  }

  lemma InStepIsWhole(cfg: Cfg, s: State)
    requires InStep(cfg, s)
    ensures !Torn(s.disk)
  {
    hide Torn, Salvageable;
  }
}
